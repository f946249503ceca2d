/** Bytes, C integer limits, and the concatenation of byte segments. */
module Bytes {
  newtype Byte = x: int | 0 <= x < 256

  // The 64-bit limits that libevent's size checks use.
  const SIZE_MAX: nat := 0xffff_ffff_ffff_ffff
  const SSIZE_MAX: nat := 0x7fff_ffff_ffff_ffff

  function Min(a: int, b: int): int {
    if a <= b then a else b
  }

  // A C cast to a 32-bit int.
  function ToInt32(n: int): (r: int)
    ensures -0x8000_0000 <= r < 0x8000_0000
    ensures -0x8000_0000 <= n < 0x8000_0000 ==> r == n
  {
    var low := n % 0x1_0000_0000;
    if low >= 0x8000_0000 then low - 0x1_0000_0000 else low
  }

  // Counting in an int: every step wraps around.
  lemma ToInt32Add(a: int, n: int)
    ensures ToInt32(ToInt32(a) + n) == ToInt32(a + n)
  {
  }

  // A C cast to size_t.
  function ToSize(n: int): nat {
    n % (SIZE_MAX + 1)
  }

  function Flatten(segs: seq<seq<Byte>>): seq<Byte> {
    if segs == [] then [] else segs[0] + Flatten(segs[1..])
  }

  lemma {:induction false} FlattenConcat(a: seq<seq<Byte>>, b: seq<seq<Byte>>)
    ensures Flatten(a + b) == Flatten(a) + Flatten(b)
  {
    if a == [] {
      assert a + b == b;
    } else {
      assert (a + b)[1..] == a[1..] + b;
      FlattenConcat(a[1..], b);
    }
  }

  lemma {:induction false} FlattenEmpty(a: seq<seq<Byte>>)
    requires forall i :: 0 <= i < |a| ==> a[i] == []
    ensures Flatten(a) == []
  {
    if a != [] { FlattenEmpty(a[1..]); }
  }

  lemma FlattenSplit(segs: seq<seq<Byte>>, k: nat)
    requires k <= |segs|
    ensures Flatten(segs) == Flatten(segs[..k]) + Flatten(segs[k..])
    ensures k < |segs| ==> Flatten(segs[k..]) == segs[k] + Flatten(segs[k + 1..])
  {
    assert segs == segs[..k] + segs[k..];
    FlattenConcat(segs[..k], segs[k..]);
  }

  lemma FlattenSingle(s: seq<Byte>)
    ensures Flatten([s]) == s
  {
    assert [s][1..] == [];
  }

  // Replacing one segment splices its bytes into the whole.
  lemma FlattenUpdate(segs: seq<seq<Byte>>, k: nat, s: seq<Byte>)
    requires k < |segs|
    ensures Flatten(segs[k := s]) == Flatten(segs[..k]) + s + Flatten(segs[k + 1..])
  {
    var t := segs[k := s];
    FlattenSplit(t, k);
    assert t[..k] == segs[..k] && t[k + 1..] == segs[k + 1..];
  }

  // When only empty segments follow k, extending segment k extends the whole.
  lemma FlattenExtend(segs: seq<seq<Byte>>, k: nat, data: seq<Byte>)
    requires k < |segs|
    requires forall i :: k < i < |segs| ==> segs[i] == []
    ensures Flatten(segs[k := segs[k] + data]) == Flatten(segs) + data
  {
    FlattenUpdate(segs, k, segs[k] + data);
    FlattenSplit(segs, k);
    FlattenEmpty(segs[k + 1..]);
  }
}
