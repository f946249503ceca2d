/** Every run of evbuffer operations on two buffers agrees with the same run on two byte strings. */
module EvBufferRuns {
  import opened Bytes
  import opened Pointers
  import opened EvBufferCore
  import opened EvBufferLayout
  import opened EvBufferAdd
  import opened EvBufferPrepend
  import opened EvBufferDrain
  import opened EvBufferPos
  import opened EvBufferLines
  import opened EvBufferMove
  import opened EvBufferPrependBuffer
  import opened EvBufferPullup
  import opened EvBufferExpand
  import opened EvBufferRead

  // The operations; `first` says which of the two buffers is meant, or is the destination.
  datatype Op =
    | Append(first: bool, data: seq<Byte>)
    | PushFront(first: bool, data: seq<Byte>)
    | Discard(first: bool, n: nat)
    | Take(first: bool, n: nat)
    | TakeLine(first: bool, style: EolStyle)
    | PullUp(first: bool, size: int)
    | Reserve(first: bool, n: nat)
    | ReserveFast(first: bool, n: nat, chains: nat)
    | Receive(first: bool, readable: int, howmuch: int, data: seq<Byte>)
    | MoveAll(first: bool)
    | Move(first: bool, n: nat)
    | MoveFront(first: bool)

  // Two byte strings, and everything that was removed from them so far.
  datatype Strings = Strings(a: seq<Byte>, b: seq<Byte>, gone: seq<Byte>)

  function Get(s: Strings, first: bool): seq<Byte> {
    if first then s.a else s.b
  }

  // How many bytes evbuffer_readln takes off a string: the line and what is reported of its end.
  function LineCut(s: seq<Byte>, style: EolStyle): (k: nat)
    ensures k <= |s|
  {
    var (pos, len) := EolAt(s, style);
    if pos < 0 || pos > |s| then 0 else pos + Min(Reported(style, len), |s| - pos)
  }

  // What an operation does to the string it is on, to the other one, and which bytes it removes.
  function Effect(mine: seq<Byte>, other: seq<Byte>, op: Op): (seq<Byte>, seq<Byte>, seq<Byte>) {
    match op
    case Append(_, data) => (mine + data, other, [])
    case Receive(_, _, _, data) => (mine + data, other, [])
    case PushFront(_, data) => (data + mine, other, [])
    case Discard(_, n) => var k := Min(n, |mine|); (mine[k..], other, mine[..k])
    case Take(_, n) => var k := Min(n, |mine|); (mine[k..], other, mine[..k])
    case TakeLine(_, style) => var k := LineCut(mine, style); (mine[k..], other, mine[..k])
    case MoveAll(_) => (mine + other, [], [])
    case MoveFront(_) => (other + mine, [], [])
    case Move(_, n) => var k := Min(n, |other|); (mine + other[..k], other[k..], [])
    case PullUp(_, _) => (mine, other, [])
    case Reserve(_, _) => (mine, other, [])
    case ReserveFast(_, _, _) => (mine, other, [])
  }

  function Apply(s: Strings, op: Op): Strings {
    if op.first then
      var (a, b, out) := Effect(s.a, s.b, op);
      Strings(a, b, s.gone + out)
    else
      var (b, a, out) := Effect(s.b, s.a, op);
      Strings(a, b, s.gone + out)
  }

  function ApplyAll(s: Strings, ops: seq<Op>): Strings {
    if ops == [] then s else Apply(ApplyAll(s, ops[..|ops| - 1]), ops[|ops| - 1])
  }

  // The bytes an operation brings in.
  function Brought(op: Op): seq<Byte> {
    match op
    case Append(_, data) => data
    case PushFront(_, data) => data
    case Receive(_, _, _, data) => data
    case _ => []
  }

  // The limits of the address space, and of what evbuffer_read asks for.
  predicate Fits(s: Strings, op: Op) {
    && |s.a| + |s.b| + |Brought(op)| <= SIZE_MAX && |Brought(op)| <= MAX_CHAIN_DATA
    && (op.Receive? ==> |op.data| <= ReadSize(op.readable, op.howmuch)
                        && |Get(s, op.first)| + ReadSize(op.readable, op.howmuch) <= SIZE_MAX)
    && (op.ReserveFast? ==> op.chains >= 2)
  }

  ghost predicate AllFit(s: Strings, ops: seq<Op>) {
    forall i :: 0 <= i < |ops| ==> Fits(ApplyAll(s, ops[..i]), ops[i])
  }

  lemma PairSym(a: EvBuffer, b: EvBuffer)
    requires Pair(a, b)
    ensures Pair(b, a)
  {
    hide Inv;
  }

  // An operation on one buffer leaves the other alone.
  lemma OneSided(m: Cells, ps: seq<Ptr>, m': Cells, ps': seq<Ptr>, w: View)
    requires Owns(m, ps, m', ps') && Inv(m, w) && Disjoint(ps, w.ps)
    ensures Inv(m', w) && Disjoint(ps', w.ps)
    ensures Owns(m, ps + w.ps, m', ps' + w.ps) && Owns(m, w.ps + ps, m', w.ps + ps')
  {
    hide InvBody, Owns, Disjoint;
    DisjointFrame(m, ps, m', ps', w);
    InStore(m, w);
    OwnsBoth(m, ps, m', ps', w.ps);
    DisjointSym(ps, w.ps);
    OwnsRight(m, ps, m', ps', w.ps);
  }

  // The operations that touch one buffer.
  method StepOne(x: EvBuffer, op: Op) returns (out: seq<Byte>)
    requires x.Valid() && !op.MoveAll? && !op.Move? && !op.MoveFront?
    requires x.totalLen + |Brought(op)| <= SIZE_MAX && |Brought(op)| <= MAX_CHAIN_DATA
    requires op.Receive? ==> |op.data| <= ReadSize(op.readable, op.howmuch) && x.totalLen + ReadSize(op.readable, op.howmuch) <= SIZE_MAX
    requires op.ReserveFast? ==> op.chains >= 2
    modifies x, x.store
    ensures x.Valid() && Owns(old(x.store.cells), old(x.chains), x.store.cells, x.chains)
    ensures var e := Effect(old(x.Contents()), [], op);
            x.Contents() == e.0 && out == e.2
  {
    hide InvBody, Flatten, Owns;
    out := [];
    ghost var m, v := x.store.cells, x.Vw();
    TotalFacts(m, v);
    OwnsSelf(m, v.ps);
    match op
    case Append(_, data) => var _ := Add(x, data);
    case PushFront(_, data) => var _ := Prepend(x, data);
    case Discard(_, n) =>
      out := CopyFront(x, n);
      var _ := Drain(x, n);
    case Take(_, n) =>
      var _, taken := Remove(x, n);
      out := taken;
    case TakeLine(_, style) => out := TakeLineFrom(x, style);
    case PullUp(_, size) => var _ := Pullup(x, size);
    case Reserve(_, n) => var _, _ := ExpandSingleChain(x, n);
    case ReserveFast(_, n, chains) => var _, _, _ := ExpandFast(x, n, chains);
    case Receive(_, readable, howmuch, data) => var _ := Read(x, readable, howmuch, Some(data));
  }

  // evbuffer_readln, with all the bytes that it takes off
  method TakeLineFrom(x: EvBuffer, style: EolStyle) returns (out: seq<Byte>)
    requires x.Valid()
    modifies x, x.store
    ensures x.Valid() && Owns(old(x.store.cells), old(x.chains), x.store.cells, x.chains)
    ensures var k := LineCut(old(x.Contents()), style); x.Contents() == old(x.Contents())[k..] && out == old(x.Contents())[..k]
  {
    hide Inv, Flatten, Owns, LineRead, LineCut, IsEol;
    TotalFacts(x.store.cells, x.Vw());
    ghost var all := x.Contents();
    var before := CopyFront(x, x.totalLen);
    var line := ReadLn(x, style);
    TotalFacts(x.store.cells, x.Vw());
    if line.None? {
      NoLineCut(all, style);
    } else {
      ghost var eol, rest :| LineRead(all, style, line.value, eol, rest, x.Contents());
      CutLine(all, style, line.value, eol, rest, x.Contents());
    }
    out := before[..|before| - x.totalLen];
  }

  lemma NoLineCut(all: seq<Byte>, style: EolStyle)
    requires IsEol(all, 0, style, -1, 0)
    ensures LineCut(all, style) == 0 && all[0..] == all
  {
    hide IsEol, EolAt;
    EolUnique(all, style, -1, 0);
  }

  lemma CutLine(all: seq<Byte>, style: EolStyle, line: seq<Byte>, eol: seq<Byte>, rest: seq<Byte>, after: seq<Byte>)
    requires LineRead(all, style, line, eol, rest, after)
    ensures after == all[LineCut(all, style)..]
  {
    hide IsEol, EolAt, Reported, Drainable;
    EolUnique(all, style, |line|, |eol|);
  }

  // The bytes a drain is about to discard.
  method CopyFront(x: EvBuffer, n: nat) returns (out: seq<Byte>)
    requires x.Valid()
    ensures out == x.Contents()[..Min(n, |x.Contents()|)]
  {
    var _, copied := CopyOutFrom(x, None, n);
    out := copied;
  }

  // Putting y in front of x would leave an empty chain in front of data.
  predicate Breaks(x: EvBuffer, y: EvBuffer)
    reads x, y, y.store
  {
    x.totalLen > 0 && y.totalLen > 0 && !LastFull(y)
  }

  // One operation on x, with y as the other buffer.
  method StepOn(x: EvBuffer, y: EvBuffer, op: Op) returns (out: seq<Byte>)
    requires x != y && Pair(x, y) && (op.MoveFront? ==> !Breaks(x, y))
    requires x.totalLen + y.totalLen + |Brought(op)| <= SIZE_MAX && |Brought(op)| <= MAX_CHAIN_DATA
    requires op.Receive? ==> |op.data| <= ReadSize(op.readable, op.howmuch) && x.totalLen + ReadSize(op.readable, op.howmuch) <= SIZE_MAX
    requires op.ReserveFast? ==> op.chains >= 2
    modifies x, y, x.store
    ensures x.Valid() && y.Valid() && Disjoint(x.chains, y.chains)
    ensures (x.Contents(), y.Contents(), out) == old(Effect(x.Contents(), y.Contents(), op))
    ensures PairOwns(x, y) && Owns(old(x.store.cells), old(y.chains) + old(x.chains), x.store.cells, y.chains + x.chains)
  {
    hide InvBody, Flatten, Owns, Disjoint, Effect;
    ghost var m, v, w := x.store.cells, x.Vw(), y.Vw();
    EffectFacts(x.Contents(), y.Contents(), op);
    if op.MoveAll? {
      out := [];
      var _ := AddBuffer(x, y);
      OwnsFlip(m, v.ps, w.ps, x.store.cells, x.chains, y.chains);
    } else if op.MoveFront? {
      out := [];
      var _ := PrependBuffer(x, y);
      OwnsFlip(m, v.ps, w.ps, x.store.cells, x.chains, y.chains);
    } else if op.Move? {
      out := [];
      var _ := RemoveBuffer(y, x, op.n);
      OwnsFlip(m, v.ps, w.ps, x.store.cells, x.chains, y.chains);
    } else {
      out := StepOne(x, op);
      OneSided(m, v.ps, x.store.cells, x.chains, w);
    }
  }

  lemma EffectFacts(mine: seq<Byte>, other: seq<Byte>, op: Op)
    ensures op.MoveAll? ==> Effect(mine, other, op) == (mine + other, [], [])
    ensures op.Move? ==> var k := Min(op.n, |other|); Effect(mine, other, op) == (mine + other[..k], other[k..], [])
    ensures op.MoveFront? ==> Effect(mine, other, op) == (other + mine, [], [])
    ensures !op.MoveAll? && !op.Move? && !op.MoveFront? ==> var e := Effect(mine, [], op); Effect(mine, other, op) == (e.0, other, e.2)
  {
  }

  lemma OwnsFlip(m: Cells, ps: seq<Ptr>, qs: seq<Ptr>, m': Cells, ps': seq<Ptr>, qs': seq<Ptr>)
    requires Owns(m, ps + qs, m', ps' + qs')
    ensures Owns(m, qs + ps, m', qs' + ps')
  {
  }

  // The lengths stay within the address space.
  lemma {:induction false} EffectLength(mine: seq<Byte>, other: seq<Byte>, op: Op)
    ensures var e := Effect(mine, other, op);
            |e.0| + |e.1| + |e.2| == |mine| + |other| + |Brought(op)|
  {
  }

  // The operation would break the layout.
  predicate Stops(a: EvBuffer, b: EvBuffer, op: Op)
    reads a, b, a.store, b.store
  {
    op.MoveFront? && if op.first then Breaks(a, b) else Breaks(b, a)
  }

  // Every run: the buffers end up holding what the byte strings hold, both keep their layout, and
  // the store holds the chains of the two buffers and whatever it held beside them before.  The run
  // stops in front of an evbuffer_prepend_buffer that would break the layout.
  method Run(a: EvBuffer, b: EvBuffer, ops: seq<Op>) returns (gone: seq<Byte>, n: nat)
    requires a != b && Pair(a, b)
    requires AllFit(Strings(a.Contents(), b.Contents(), []), ops)
    modifies a, b, a.store
    ensures Pair(a, b) && n <= |ops|
    ensures Strings(a.Contents(), b.Contents(), gone) == ApplyAll(old(Strings(a.Contents(), b.Contents(), [])), ops[..n])
    ensures PairOwns(a, b)
    ensures n < |ops| ==> Stops(a, b, ops[n])
  {
    hide InvBody, Flatten, Owns, Disjoint, Effect, Fits;
    ghost var s0, m, ps := Strings(a.Contents(), b.Contents(), []), a.store.cells, a.chains + b.chains;
    gone := [];
    OwnsSelf(m, ps);
    n := 0;
    assert ops[..0] == [];
    while n < |ops|
      invariant 0 <= n <= |ops| && Pair(a, b)
      invariant Strings(a.Contents(), b.Contents(), gone) == ApplyAll(s0, ops[..n])
      invariant Owns(m, ps, a.store.cells, a.chains + b.chains)
    {
      var op := ops[n];
      if Stops(a, b, op) {
        return;
      }
      ghost var s := ApplyAll(s0, ops[..n]);
      TotalFacts(a.store.cells, a.Vw());
      TotalFacts(b.store.cells, b.Vw());
      FitsFacts(s, op);
      assert ops[..n + 1][..n] == ops[..n];
      ghost var m1, ps1 := a.store.cells, a.chains + b.chains;
      var out := StepEither(a, b, op);
      gone := gone + out;
      OwnsTrans(m, ps, m1, ps1, a.store.cells, a.chains + b.chains);
      n := n + 1;
    }
  }

  lemma FitsFacts(s: Strings, op: Op)
    requires Fits(s, op)
    ensures |s.a| + |s.b| + |Brought(op)| <= SIZE_MAX && |Brought(op)| <= MAX_CHAIN_DATA
    ensures op.Receive? ==> |op.data| <= ReadSize(op.readable, op.howmuch)
                            && |Get(s, op.first)| + ReadSize(op.readable, op.howmuch) <= SIZE_MAX
    ensures op.ReserveFast? ==> op.chains >= 2
  {
  }

  method StepEither(a: EvBuffer, b: EvBuffer, op: Op) returns (out: seq<Byte>)
    requires a != b && Pair(a, b) && !Stops(a, b, op)
    requires a.totalLen + b.totalLen + |Brought(op)| <= SIZE_MAX && |Brought(op)| <= MAX_CHAIN_DATA
    requires op.Receive? ==> |op.data| <= ReadSize(op.readable, op.howmuch)
                             && (if op.first then a else b).totalLen + ReadSize(op.readable, op.howmuch) <= SIZE_MAX
    requires op.ReserveFast? ==> op.chains >= 2
    modifies a, b, a.store
    ensures Pair(a, b) && PairOwns(a, b)
    ensures op.first ==> (a.Contents(), b.Contents(), out) == old(Effect(a.Contents(), b.Contents(), op))
    ensures !op.first ==> (b.Contents(), a.Contents(), out) == old(Effect(b.Contents(), a.Contents(), op))
  {
    hide InvBody, Flatten, Owns, Disjoint, Effect;
    TotalFacts(a.store.cells, a.Vw());
    TotalFacts(b.store.cells, b.Vw());
    EffectLength(a.Contents(), b.Contents(), op);
    EffectLength(b.Contents(), a.Contents(), op);
    if op.first {
      out := StepOn(a, b, op);
    } else {
      PairSym(a, b);
      out := StepOn(b, a, op);
      DisjointSym(b.chains, a.chains);
    }
    TotalFacts(a.store.cells, a.Vw());
    TotalFacts(b.store.cells, b.Vw());
  }

  // Nothing is lost and nothing is invented: over every run, the bytes in the two strings and the
  // bytes removed are those that were there and those that were brought in.
  function AllBrought(ops: seq<Op>): seq<Byte> {
    if ops == [] then [] else AllBrought(ops[..|ops| - 1]) + Brought(ops[|ops| - 1])
  }

  ghost function Bag(s: Strings): multiset<Byte> {
    multiset(s.a) + multiset(s.b) + multiset(s.gone)
  }

  lemma {:induction false} Conservation(s: Strings, ops: seq<Op>)
    ensures Bag(ApplyAll(s, ops)) == Bag(s) + multiset(AllBrought(ops))
  {
    hide Bag, Apply;
    if ops != [] {
      var prev, op := ops[..|ops| - 1], ops[|ops| - 1];
      Conservation(s, prev);
      ApplyConserves(ApplyAll(s, prev), op);
    }
  }

  lemma ApplyConserves(s: Strings, op: Op)
    ensures Bag(Apply(s, op)) == Bag(s) + multiset(Brought(op))
  {
    hide Effect, Brought;
    var e := if op.first then Effect(s.a, s.b, op) else Effect(s.b, s.a, op);
    if op.first { EffectConserves(s.a, s.b, op); } else { EffectConserves(s.b, s.a, op); }
    assert multiset(s.gone + e.2) == multiset(s.gone) + multiset(e.2);
    if op.first {
      Rearrange(multiset(e.0), multiset(e.1), multiset(e.2), multiset(s.gone), multiset(s.a), multiset(s.b), multiset(Brought(op)));
    } else {
      Rearrange(multiset(e.1), multiset(e.0), multiset(e.2), multiset(s.gone), multiset(s.a), multiset(s.b), multiset(Brought(op)));
    }
  }

  lemma Rearrange(x: multiset<Byte>, y: multiset<Byte>, z: multiset<Byte>, g: multiset<Byte>,
                  a: multiset<Byte>, b: multiset<Byte>, d: multiset<Byte>)
    requires x + y + z == a + b + d || y + x + z == b + a + d
    ensures x + y + (g + z) == a + b + g + d
  {
    forall k: Byte ensures x[k] + y[k] + z[k] == a[k] + b[k] + d[k] {
      assert (x + y + z)[k] == x[k] + y[k] + z[k] && (y + x + z)[k] == x[k] + y[k] + z[k];
      assert (a + b + d)[k] == a[k] + b[k] + d[k] && (b + a + d)[k] == a[k] + b[k] + d[k];
    }
  }

  lemma EffectConserves(mine: seq<Byte>, other: seq<Byte>, op: Op)
    ensures var e := Effect(mine, other, op);
            multiset(e.0) + multiset(e.1) + multiset(e.2) == multiset(mine) + multiset(other) + multiset(Brought(op))
  {
    if op.Discard? || op.Take? || op.TakeLine? {
      var k := if op.TakeLine? then LineCut(mine, op.style) else Min(op.n, |mine|);
      assert mine == mine[..k] + mine[k..];
    } else if op.Move? {
      var k := Min(op.n, |other|);
      assert other == other[..k] + other[k..];
    }
  }
}
