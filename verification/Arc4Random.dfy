/** The generator and arc4random_uniform, libevent/arc4random.c. */
module Arc4Random {
  import opened Bytes

  const TWO32: int := 0x1_0000_0000

  function U32(x: int): int {
    x % TWO32
  }

  // ----- arc4random_uniform -----

  // The smallest number that is accepted, as computed with 32-bit arithmetic.
  function Min32(bound: int): int
    requires 2 <= bound < TWO32
  {
    if bound > 0x8000_0000 then U32(1 + (0xffff_ffff - bound)) else Reduced(bound) % bound
  }

  // 2^32 - 2 * bound
  function Reduced(bound: int): int {
    U32(U32(0xffff_ffff - U32(bound * 2)) + 1)
  }

  lemma ReducedIs(bound: int)
    requires 2 <= bound <= 0x8000_0000
    ensures Reduced(bound) == TWO32 - 2 * bound
  {
  }

  // It is 2^32 mod bound, although 2^32 does not fit.
  lemma MinExact(bound: int)
    requires 2 <= bound < TWO32
    ensures Min32(bound) == TWO32 % bound
  {
    MinIs(bound);
    hide Min32;
    if bound > 0x8000_0000 {
      ModOf(TWO32, bound, 1, TWO32 - bound);
    } else {
      var m := TWO32 - 2 * bound;
      DivMod(m, bound);
      ModOf(TWO32, bound, m / bound + 2, m % bound);
    }
  }

  lemma DivMod(m: int, n: int)
    requires n > 0
    ensures m == n * (m / n) + m % n && 0 <= m % n < n && n * (m / n + 2) == n * (m / n) + 2 * n
  {
  }

  // Both formulas without wrap-around.
  lemma MinIs(bound: int)
    requires 2 <= bound < TWO32
    ensures Min32(bound) == if bound > 0x8000_0000 then TWO32 - bound else (TWO32 - 2 * bound) % bound
  {
    hide Reduced, U32;
    if bound <= 0x8000_0000 {
      ReducedIs(bound);
    } else {
      NegatedIs(bound);
    }
  }

  lemma NegatedIs(bound: int)
    requires 0 < bound < TWO32
    ensures U32(1 + (0xffff_ffff - bound)) == TWO32 - bound
  {
  }

  lemma ModOf(x: int, n: int, q: int, r: int)
    requires n > 0 && x == n * q + r && 0 <= r < n
    ensures x % n == r
  {
    var d, m := x / n, x % n;
    assert n * (q - d) == m - r;
    Multiple(n, q - d);
  }

  lemma Multiple(n: int, k: int)
    requires n > 0
    ensures k >= 1 ==> n * k >= n
    ensures k <= -1 ==> n * k <= 0 - n
    ensures k == 0 ==> n * k == 0
  {
  }

  // The numbers from lo on, for k times bound numbers, that are v modulo bound.
  ghost function Hits(lo: int, bound: int, v: int, k: nat): set<int>
    requires bound > 0
  {
    set r | lo <= r < lo + bound * k && r % bound == v
  }

  // Every stretch of bound numbers has exactly one of each residue.
  lemma OneHit(lo: int, bound: int, v: int) returns (r: int)
    requires 0 <= v < bound
    ensures lo <= r < lo + bound && r % bound == v
    ensures forall t :: lo <= t < lo + bound && t % bound == v ==> t == r
  {
    var q, m := lo / bound, lo % bound;
    r := if v >= m then lo + (v - m) else lo + (v - m) + bound;
    ModOf(r, bound, if v >= m then q else q + 1, v);
    forall t | lo <= t < lo + bound && t % bound == v ensures t == r {
      assert t - r == bound * (t / bound - r / bound);
      Multiple(bound, t / bound - r / bound);
    }
  }

  lemma {:induction false} HitCount(lo: int, bound: int, v: int, k: nat)
    requires 0 <= v < bound
    ensures |Hits(lo, bound, v, k)| == k
  {
    if k == 0 {
      assert Hits(lo, bound, v, 0) == {};
    } else {
      HitCount(lo, bound, v, k - 1);
      assert bound * k == bound * (k - 1) + bound;
      var r := OneHit(lo + bound * (k - 1), bound, v);
      assert Hits(lo, bound, v, k) == Hits(lo, bound, v, k - 1) + {r};
    }
  }

  // No modulo bias: every value below the bound comes from the same number of accepted 32-bit words.
  lemma NoBias(bound: int, v: int)
    requires 2 <= bound < TWO32 && 0 <= v < bound
    ensures |set r | Min32(bound) <= r < TWO32 && r % bound == v| == TWO32 / bound
  {
    MinExact(bound);
    var k := TWO32 / bound;
    assert TWO32 == bound * k + TWO32 % bound;
    HitCount(Min32(bound), bound, v, k);
    assert (set r | Min32(bound) <= r < TWO32 && r % bound == v) == Hits(Min32(bound), bound, v, k);
  }

  // The words that are drawn until one is accepted; the last is the first that is large enough.
  method Uniform(bound: int, words: nat -> int, ghost n: nat) returns (r: int, drawn: nat)
    requires 0 <= bound < TWO32 && (forall k :: 0 <= words(k) < TWO32) && (bound >= 2 ==> words(n) >= TWO32 % bound)
    ensures bound < 2 ==> r == 0 && drawn == 0
    ensures bound >= 2 ==>
              && 0 <= r < bound && 0 < drawn && r == words(drawn - 1) % bound && words(drawn - 1) >= TWO32 % bound
              && forall k: nat :: k < drawn - 1 ==> words(k) < TWO32 % bound
  {
    drawn := 0;
    if bound < 2 {
      return 0, 0;
    }
    MinExact(bound);
    var min := Min32(bound);
    while true
      invariant drawn <= n && forall k: nat :: k < drawn ==> words(k) < min
      decreases n - drawn
    {
      r := words(drawn);
      drawn := drawn + 1;
      if r >= min {
        break;
      }
    }
    r := r % bound;
  }

  // ----- the generator -----

  // 256 different bytes, that is, every byte once.
  ghost predicate Permutation(s: seq<Byte>) {
    |s| == 256 && forall a, b :: 0 <= a < b < |s| ==> s[a] != s[b]
  }

  function Swapped(s: seq<Byte>, a: nat, b: nat): seq<Byte>
    requires a < |s| && b < |s|
  {
    s[a := s[b]][b := s[a]]
  }

  lemma SwapKeeps(s: seq<Byte>, a: nat, b: nat)
    requires Permutation(s) && a < 256 && b < 256
    ensures Permutation(Swapped(s, a, b))
  {
  }

  // Every byte occurs.
  lemma EveryByte(s: seq<Byte>, v: Byte)
    requires Permutation(s)
    ensures v in s
  {
    AllBytes(256);
    SeenCount(s);
    var all, seen := BytesBelow(256), Seen(s);
    if v !in s {
      Included(seen, all - {v as int});
    }
  }

  ghost function Seen(s: seq<Byte>): set<int> {
    set k | 0 <= k < |s| :: s[k] as int
  }

  ghost function BytesBelow(n: nat): set<int> {
    if n == 0 then {} else BytesBelow(n - 1) + {n - 1}
  }

  lemma {:induction false} AllBytes(n: nat)
    ensures |BytesBelow(n)| == n && forall v: int :: v in BytesBelow(n) <==> 0 <= v < n
  {
    if n > 0 {
      AllBytes(n - 1);
    }
  }

  lemma {:induction false} SeenCount(s: seq<Byte>)
    requires forall a, b :: 0 <= a < b < |s| ==> s[a] != s[b]
    ensures |Seen(s)| == |s|
  {
    if s == [] {
      assert Seen(s) == {};
    } else {
      var m, x := s[..|s| - 1], s[|s| - 1];
      SeenCount(m);
      forall v ensures v in Seen(s) <==> v in Seen(m) || v == x as int {
        if v in Seen(m) {
          var k :| 0 <= k < |m| && m[k] as int == v;
          assert s[k] as int == v;
        }
        if v in Seen(s) {
          var k :| 0 <= k < |s| && s[k] as int == v;
          assert k < |m| ==> m[k] as int == v;
        }
      }
      assert x as int !in Seen(m);
      assert Seen(s) == Seen(m) + {x as int};
    }
  }

  lemma {:induction false} Included<T>(a: set<T>, b: set<T>)
    requires a <= b
    ensures |a| <= |b|
  {
    if a != {} {
      var x :| x in a;
      Included(a - {x}, b - {x});
    }
  }

  // The state of the generator, and one step of it.
  datatype Stream = Stream(i: int, j: int, s: seq<Byte>)
  {
    ghost predicate Valid() {
      0 <= i < 256 && 0 <= j < 256 && Permutation(s)
    }
  }

  function Step(t: Stream, key: int): Stream
    requires |t.s| == 256
  {
    var i := (t.i + 1) % 256;
    var j := (t.j + t.s[i] as int + key) % 256;
    Stream(i, j, Swapped(t.s, i, j))
  }

  // A step can be taken back, so the generator never joins two states into one.
  function Back(t: Stream, key: int): Stream
    requires |t.s| == 256 && 0 <= t.i < 256 && 0 <= t.j < 256
  {
    var s := Swapped(t.s, t.i, t.j);
    Stream((t.i - 1) % 256, (t.j - s[t.i] as int - key) % 256, s)
  }

  lemma SwapTwice(s: seq<Byte>, a: nat, b: nat)
    requires a < |s| && b < |s|
    ensures Swapped(Swapped(s, a, b), a, b) == s && |Swapped(s, a, b)| == |s|
  {
  }

  lemma StepValid(t: Stream, key: int)
    requires t.Valid()
    ensures Step(t, key).Valid()
  {
    hide Swapped;
    SwapKeeps(t.s, (t.i + 1) % 256, (t.j + t.s[(t.i + 1) % 256] as int + key) % 256);
  }

  lemma StepBack(t: Stream, key: int)
    requires t.Valid()
    ensures Step(t, key).Valid() && Back(Step(t, key), key) == t
  {
    assert |t.s| == 256;
    hide Permutation, Swapped;
    StepValid(t, key);
    var i := (t.i + 1) % 256;
    var j := (t.j + t.s[i] as int + key) % 256;
    SwapTwice(t.s, i, j);
    assert (i - 1) % 256 == t.i;
    Shift(t.j, t.s[i] as int + key);
  }

  lemma BackStep(t: Stream, key: int)
    requires t.Valid()
    ensures Back(t, key).Valid() && Step(Back(t, key), key) == t
  {
    SwapKeeps(t.s, t.i, t.j);
    hide Permutation, Swapped;
    var s := Swapped(t.s, t.i, t.j);
    SwapTwice(t.s, t.i, t.j);
    assert ((t.i - 1) % 256 + 1) % 256 == t.i;
    Shift(t.j, -(s[t.i] as int + key));
    assert (t.j - s[t.i] as int - key) % 256 == (t.j + -(s[t.i] as int + key)) % 256;
  }

  lemma Shift(j: int, d: int)
    requires 0 <= j < 256
    ensures ((j + d) % 256 - d) % 256 == j
  {
  }

  class Arc4 {
    var i: int
    var j: int
    const s: array<Byte>

    ghost function State(): Stream
      reads this, s
    {
      Stream(i, j, s[..])
    }

    ghost predicate Valid()
      reads this, s
    {
      s.Length == 256 && State().Valid()
    }

    // arc4_init
    constructor ()
      ensures Valid() && fresh(s) && i == 0 && j == 0 && forall n :: 0 <= n < 256 ==> s[n] as int == n
    {
      s := new Byte[256](n requires 0 <= n < 256 => n as Byte);
      i, j := 0, 0;
    }

    // arc4_getbyte
    method GetByte() returns (r: Byte)
      requires Valid()
      modifies this, s
      ensures Valid() && State() == Step(old(State()), 0)
      ensures r == s[(s[j] as int + s[i] as int) % 256]
    {
      hide Permutation, Swapped;
      ghost var t := State();
      StepValid(t, 0);
      i := (i + 1) % 256;
      var si := s[i];
      j := (j + si as int) % 256;
      var sj := s[j];
      s[i] := sj;
      s[j] := si;
      SwapIs(t.s, i, j, s[..]);
      return s[(si as int + sj as int) % 256];
    }

    // arc4_addrandom
    method AddRandom(dat: seq<Byte>)
      requires Valid() && dat != []
      modifies this, s
      ensures Valid() && State().s == Keyed(Stream((old(i) - 1) % 256, old(j), old(s[..])), dat, 256).s && i == j == (old(i) - 1) % 256
    {
      hide Permutation, Keyed, Step;
      ghost var t := Stream((i - 1) % 256, j, s[..]);
      KeyedNone(t, dat);
      i := (i - 1) % 256;
      var n := 0;
      while n < 256
        invariant n <= 256 && Valid() && State() == Keyed(t, dat, n)
      {
        KeyedStep(t, dat, n);
        Mix(dat[n % |dat|] as int);
        n := n + 1;
      }
      KeyedIndex(t, dat, 256);
      j := i;
    }

    // the body of the loop of arc4_addrandom
    method Mix(key: int)
      requires Valid()
      modifies this, s
      ensures Valid() && State() == Step(old(State()), key)
    {
      hide Permutation, Swapped;
      ghost var t := State();
      StepValid(t, key);
      i := (i + 1) % 256;
      var si := s[i];
      j := (j + si as int + key) % 256;
      s[i] := s[j];
      s[j] := si;
      SwapIs(t.s, i, j, s[..]);
    }
  }

  lemma SwapIs(s: seq<Byte>, a: nat, b: nat, s': seq<Byte>)
    requires a < |s| && b < |s| && |s'| == |s| && s'[b] == s[a] && (a != b ==> s'[a] == s[b])
    requires forall k :: 0 <= k < |s| && k != a && k != b ==> s'[k] == s[k]
    ensures s' == Swapped(s, a, b)
  {
  }

  lemma KeyedNone(t: Stream, dat: seq<Byte>)
    requires dat != [] && t.Valid()
    ensures Keyed(t, dat, 0) == t
  {
  }

  lemma {:induction false} KeyedIndex(t: Stream, dat: seq<Byte>, n: nat)
    requires dat != [] && t.Valid()
    ensures Keyed(t, dat, n).i == (t.i + n) % 256
  {
    hide Keyed, Step, Stream.Valid;
    if n == 0 {
      KeyedNone(t, dat);
      IndexRange(t);
    } else {
      KeyedIndex(t, dat, n - 1);
      KeyedStep(t, dat, n - 1);
      ModNext(t.i + n - 1);
      StepIndex(Keyed(t, dat, n - 1), dat[(n - 1) % |dat|] as int);
    }
  }

  lemma ModNext(a: int)
    ensures (a % 256 + 1) % 256 == (a + 1) % 256
  {
  }

  lemma IndexRange(t: Stream)
    requires t.Valid()
    ensures 0 <= t.i < 256
  {
  }

  lemma StepIndex(t: Stream, key: int)
    requires t.Valid()
    ensures Step(t, key).i == (t.i + 1) % 256
  {
    hide Swapped, Permutation;
  }

  lemma KeyedStep(t: Stream, dat: seq<Byte>, n: nat)
    requires dat != [] && t.Valid()
    ensures Keyed(t, dat, n + 1) == Step(Keyed(t, dat, n), dat[n % |dat|] as int)
  {
  }

  // The key schedule: n steps with the bytes of dat over and over.
  ghost function Keyed(t: Stream, dat: seq<Byte>, n: nat): (r: Stream)
    requires dat != [] && t.Valid()
    ensures r.Valid()
  {
    if n == 0 then t
    else
      var u := Keyed(t, dat, n - 1);
      StepValid(u, dat[(n - 1) % |dat|] as int);
      Step(u, dat[(n - 1) % |dat|] as int)
  }
}
