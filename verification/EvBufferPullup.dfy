/** evbuffer_pullup: making the first bytes of an evbuffer contiguous. */
module EvBufferPullup {
  import opened Bytes
  import opened Pointers
  import opened EvBufferCore
  import opened EvBufferLayout
  import opened EvBufferAdd
  import opened EvBufferDrain
  import opened EvBufferMove

  // The store while chains j0..j have been pulled into tmp, whose cell is now c.
  ghost function Pulling(m: Cells, ps: seq<Ptr>, j0: nat, j: nat, tmp: Ptr, c: Chain): Cells
    requires j0 <= j <= |ps|
  {
    (m - Elems(ps[j0..j]))[tmp := c]
  }

  // tmp is the first chain and keeps its place (j0 is 1), or it is new (j0 is 0).
  ghost predicate Holder(v: View, tmp: Ptr, j0: nat) {
    && tmp != NULL
    && ((j0 == 1 && v.ps != [] && tmp == v.ps[0]) || (j0 == 0 && tmp !in v.ps))
  }

  // tmp's memory holds the first n bytes of the contents from `base` on.
  ghost predicate Gathered(v: View, c: Chain, base: nat, n: nat) {
    && c.misalign == base && base + n <= |c.mem| && n <= |Flatten(v.segs)|
    && c.mem[base..base + n] == Flatten(v.segs)[..n]
  }

  // Copying one more chain.
  lemma GatherStep(m: Cells, v: View, j: nat, c: Chain, base: nat, d: Chain, n: nat)
    requires Inv(m, v) && j < |v.ps| == |v.segs| && d.Holds(v.segs[j]) && n <= |v.segs[j]|
    requires Gathered(v, c, base, Before(v.segs, j)) && base + Before(v.segs, j) + n <= |c.mem|
    ensures d.misalign + n <= |d.mem|
    ensures Gathered(v, c.(mem := Write(c.mem, base + Before(v.segs, j), d.mem[d.misalign..d.misalign + n])), base, Before(v.segs, j) + n)
  {
    hide InvBody, Flatten, Before;
    ChainSlice(v.segs, j, 0, n);
    HoldsPrefix(d, v.segs[j], n);
    var b, all := Before(v.segs, j), Flatten(v.segs);
    WriteBehind(c.mem, base, b, all[b..b + n]);
    assert all[..b + n] == all[..b] + all[b..b + n];
  }

  lemma WriteBehind(mem: seq<Byte>, base: nat, b: nat, piece: seq<Byte>)
    requires base + b + |piece| <= |mem|
    ensures Write(mem, base + b, piece)[base..base + b + |piece|] == mem[base..base + b] + piece
  {
  }

  // Freeing chain j, which has been copied.
  lemma PullStep(m: Cells, ps: seq<Ptr>, j0: nat, j: nat, tmp: Ptr, c: Chain)
    requires j0 <= j < |ps| && ps[j] != tmp
    ensures Pulling(m, ps, j0, j, tmp, c) - {ps[j]} == Pulling(m, ps, j0, j + 1, tmp, c)
  {
    var p := ps[j];
    var a, b := ps[j0..j], ps[j0..j + 1];
    assert b == a + [p];
    assert Elems(b) == Elems(a) + {p};
  }

  lemma NotHolder(m: Cells, v: View, j0: nat, j: nat, tmp: Ptr)
    requires Inv(m, v) && Holder(v, tmp, j0) && j0 <= j < |v.ps|
    ensures v.ps[j] != tmp && v.ps[j] != NULL
  {
    var p := v.ps[j];
    assert p in v.ps;
  }

  // The chains not yet pulled are untouched.
  lemma PullKept(m: Cells, v: View, j0: nat, j: nat, tmp: Ptr, c: Chain, i: nat)
    requires Inv(m, v) && Holder(v, tmp, j0) && j0 <= j <= i < |v.ps|
    ensures v.ps[i] in Pulling(m, v.ps, j0, j, tmp, c) && v.ps[i] != tmp
    ensures Pulling(m, v.ps, j0, j, tmp, c)[v.ps[i]] == m[v.ps[i]]
  {
    var p := v.ps[i];
    assert p in v.ps && p != tmp;
    assert p !in v.ps[j0..j];
  }

  // The loop of evbuffer_pullup: copies and frees every chain that is pulled whole.
  method PullLoop(buf: EvBuffer, tmp: Ptr, chain0: Ptr, at0: nat, size0: nat, lastWithData: Ptr,
                  ghost m: Cells, ghost v: View, ghost j0: nat, ghost base: nat)
      returns (chain: Ptr, at: nat, size: nat, removedLwd: bool, removedLwdp: bool, ghost j: nat, ghost c: Chain)
    requires Inv(m, v) && Holder(v, tmp, j0) && j0 <= 1 && j0 <= |v.ps| == |v.segs| && v.nd >= 2
    requires tmp in buf.store.cells && buf.store.cells == Pulling(m, v.ps, j0, j0, tmp, buf.store.cells[tmp])
    requires chain0 == (if j0 < |v.ps| then v.ps[j0] else NULL) && at0 == base + Before(v.segs, j0)
    requires buf.lastWithDatap == v.lwd && v.nd <= |v.ps| && lastWithData == v.ps[v.nd - 1]
    requires Gathered(v, buf.store.cells[tmp], base, Before(v.segs, j0))
    requires at0 + size0 <= |buf.store.cells[tmp].mem| && Before(v.segs, j0) + size0 <= v.total
    modifies buf.store
    ensures j0 <= j <= |v.ps| && chain == (if j < |v.ps| then v.ps[j] else NULL)
    ensures buf.store.cells == Pulling(m, v.ps, j0, j, tmp, c)
    ensures c == old(buf.store.cells[tmp]).(mem := c.mem) && |c.mem| == |old(buf.store.cells[tmp]).mem|
    ensures Gathered(v, c, base, Before(v.segs, j)) && at == base + Before(v.segs, j)
    ensures Before(v.segs, j) + size == Before(v.segs, j0) + size0
    ensures j < |v.ps| ==> size < |v.segs[j]|
    ensures removedLwd <==> v.nd <= j
    ensures removedLwdp <==> j0 <= v.nd - 2 < j
  {
    hide InvBody, Flatten, Chain.Holds, Before, Gathered, Pulling, Holder;
    chain, at, size, j := chain0, at0, size0, j0;
    removedLwd, removedLwdp := false, false;
    c := buf.store.cells[tmp];
    if j < |v.ps| {
      ChainFacts(m, v, j);
      PullKept(m, v, j0, j, tmp, c, j);
    }
    LwdIs(m, v);
    while chain != NULL && size >= buf.store.cells[chain].off
      invariant j0 <= j <= |v.ps| && chain == (if j < |v.ps| then v.ps[j] else NULL)
      invariant buf.store.cells == Pulling(m, v.ps, j0, j, tmp, c)
      invariant c == old(buf.store.cells[tmp]).(mem := c.mem) && |c.mem| == |old(buf.store.cells[tmp]).mem|
      invariant Gathered(v, c, base, Before(v.segs, j)) && at == base + Before(v.segs, j)
      invariant Before(v.segs, j) + size == Before(v.segs, j0) + size0
      invariant removedLwd <==> j0 < v.nd <= j
      invariant removedLwdp <==> j0 <= v.nd - 2 < j
      invariant j < |v.ps| ==> chain != NULL && chain in buf.store.cells && buf.store.cells[chain].off == |v.segs[j]|
      decreases |v.ps| - j
    {
      SameChain(m, v, j, v.nd - 1);
      SameChain(m, v, j, v.nd - 2);
      if chain == lastWithData {
        removedLwd := true;
      }
      if NextOf(chain) == buf.lastWithDatap {
        removedLwdp := true;
      }
      var next, off;
      next, off, c := PullOne(buf, tmp, chain, at, m, v, j0, j, base, c);
      size, at := size - off, at + off;
      chain, j := next, j + 1;
      if j < |v.ps| {
        ChainFacts(m, v, j);
        PullKept(m, v, j0, j, tmp, c, j);
      }
    }
  }

  // Copies chain j behind the bytes gathered so far, and frees it.
  method PullOne(buf: EvBuffer, tmp: Ptr, chain: Ptr, at: nat,
                 ghost m: Cells, ghost v: View, ghost j0: nat, ghost j: nat, ghost base: nat, ghost c: Chain)
      returns (next: Ptr, off: nat, ghost c1: Chain)
    requires Inv(m, v) && Holder(v, tmp, j0) && j0 <= j < |v.ps| == |v.segs| && chain == v.ps[j]
    requires buf.store.cells == Pulling(m, v.ps, j0, j, tmp, c)
    requires Gathered(v, c, base, Before(v.segs, j)) && at == base + Before(v.segs, j)
    requires at + |v.segs[j]| <= |c.mem|
    modifies buf.store
    ensures next == (if j + 1 < |v.ps| then v.ps[j + 1] else NULL) && off == |v.segs[j]|
    ensures buf.store.cells == Pulling(m, v.ps, j0, j + 1, tmp, c1)
    ensures c1 == c.(mem := c1.mem) && |c1.mem| == |c.mem|
    ensures Before(v.segs, j + 1) == Before(v.segs, j) + off && Gathered(v, c1, base, Before(v.segs, j + 1))
  {
    hide InvBody, Flatten, Chain.Holds, Before, Gathered, Pulling, Holder;
    ChainFacts(m, v, j);
    PullKept(m, v, j0, j, tmp, c, j);
    PullIn(m, v, j0, j, tmp, c);
    BeforeStep(v.segs, j);
    var d := buf.store.cells[chain];
    GatherStep(m, v, j, c, base, d, d.off);
    var piece := d.mem[d.misalign..d.misalign + d.off];
    c1 := c.(mem := Write(c.mem, at, piece));
    PullPut(m, v.ps, j0, j, tmp, c, c1);
    var holder := buf.store.cells[tmp];
    buf.store.cells := buf.store.cells[tmp := holder.(mem := Write(holder.mem, at, piece))];
    PullStep(m, v.ps, j0, j, tmp, c1);
    PullKept(m, v, j0, j, tmp, c1, j);
    next, off := d.next, d.off;
    buf.store.ChainFree(chain);
  }

  lemma PullIn(m: Cells, v: View, j0: nat, j: nat, tmp: Ptr, c: Chain)
    requires j0 <= j <= |v.ps|
    ensures tmp in Pulling(m, v.ps, j0, j, tmp, c) && Pulling(m, v.ps, j0, j, tmp, c)[tmp] == c
  {
  }

  lemma PullPut(m: Cells, ps: seq<Ptr>, j0: nat, j: nat, tmp: Ptr, c: Chain, c1: Chain)
    requires j0 <= j <= |ps|
    ensures Pulling(m, ps, j0, j, tmp, c)[tmp := c1] == Pulling(m, ps, j0, j, tmp, c1)
  {
  }

  lemma LwdIs(m: Cells, v: View)
    requires Inv(m, v) && v.nd >= 2
    ensures v.nd <= |v.ps| && v.lwd == NextOf(v.ps[v.nd - 2])
  {
  }

  lemma SameChain(m: Cells, v: View, i: nat, j: nat)
    requires Inv(m, v) && i < |v.ps| && j < |v.ps|
    ensures v.ps[i] == v.ps[j] <==> i == j
  {
  }

  // ---------- the layout after the pull ----------

  // The chain that is pulled only in part, with its first rem bytes taken off.
  ghost function Dropped(c: Chain, rem: nat): Chain
    requires rem <= c.off
  {
    c.(misalign := c.misalign + rem, off := c.off - rem)
  }

  ghost function PulledCells(m: Cells, v: View, j0: nat, j: nat, rem: nat, tmp: Ptr, c: Chain): Cells
    requires j0 <= j <= |v.ps| && (j < |v.ps| ==> v.ps[j] in m && rem <= m[v.ps[j]].off)
  {
    var m1 := Pulling(m, v.ps, j0, j, tmp, c);
    if j < |v.ps| then m1[v.ps[j] := Dropped(m[v.ps[j]], rem)] else m1
  }

  ghost function TailSegs(v: View, j: nat, rem: nat): seq<seq<Byte>>
    requires j <= |v.segs| && (j < |v.segs| ==> rem <= |v.segs[j]|)
  {
    if j < |v.segs| then v.segs[j..][0 := v.segs[j][rem..]] else []
  }

  // The chains behind tmp.
  lemma TailLists(m: Cells, v: View, j0: nat, j: nat, rem: nat, tmp: Ptr, c: Chain)
    requires Inv(m, v) && Holder(v, tmp, j0) && j0 <= j <= |v.ps| == |v.segs|
    requires j < |v.ps| ==> v.ps[j] in m && m[v.ps[j]].off == |v.segs[j]| && rem < |v.segs[j]|
    ensures var m' := PulledCells(m, v, j0, j, rem, tmp, c);
            && ListFrom(m', if j < |v.ps| then v.ps[j] else NULL, v.ps[j..])
            && AllHold(m', v.ps[j..], TailSegs(v, j, rem))
            && tmp in m' && m'[tmp] == c && tmp !in v.ps[j..]
  {
    hide Chain.Holds, Flatten, ListFrom, AllHold, DataThenEmpty;
    var m' := PulledCells(m, v, j0, j, rem, tmp, c);
    TailKept(m, v, j0, j, rem, tmp, c);
    ListSuffix(m, v.first, v.ps, j);
    AllHoldSplit(m, v.ps, v.segs, j);
    if j < |v.ps| {
      var d := Dropped(m[v.ps[j]], rem);
      ChainFacts(m, v, j);
      DropHolds(m[v.ps[j]], v.segs[j], rem);
      ListPut(m, v.ps[j], v.ps[j..], v.ps[j], d);
      ListDistinct(m, v.ps[j], v.ps[j..]);
      AllHoldPut(m, v.ps[j..], v.segs[j..], 0, d, v.segs[j][rem..]);
      var m1 := m[v.ps[j] := d];
      ListFrame(m1, m', v.ps[j], v.ps[j..]);
      AllHoldFrame(m1, m', v.ps[j..], v.segs[j..][0 := v.segs[j][rem..]]);
    } else {
      ListFrame(m, m', NULL, v.ps[j..]);
      AllHoldFrame(m, m', v.ps[j..], v.segs[j..]);
      assert v.segs[j..] == [];
    }
  }

  lemma TailKept(m: Cells, v: View, j0: nat, j: nat, rem: nat, tmp: Ptr, c: Chain)
    requires Inv(m, v) && Holder(v, tmp, j0) && j0 <= j <= |v.ps|
    requires j < |v.ps| ==> v.ps[j] in m && rem <= m[v.ps[j]].off
    ensures var m' := PulledCells(m, v, j0, j, rem, tmp, c);
            var m1 := if j < |v.ps| then m[v.ps[j] := Dropped(m[v.ps[j]], rem)] else m;
            && tmp in m' && m'[tmp] == c && tmp !in v.ps[j..]
            && forall i :: 0 <= i < |v.ps[j..]| ==> v.ps[j..][i] in m1 && v.ps[j..][i] in m' && m'[v.ps[j..][i]] == m1[v.ps[j..][i]]
  {
    hide Chain.Holds, Flatten, AllHold, DataThenEmpty, Holder, Pulling;
    var m' := PulledCells(m, v, j0, j, rem, tmp, c);
    PullIn(m, v, j0, j, tmp, c);
    forall i | j <= i < |v.ps|
      ensures v.ps[i] != tmp && v.ps[i] in m' && v.ps[i] in m
      ensures i > j ==> m'[v.ps[i]] == m[v.ps[i]]
    {
      PullKept(m, v, j0, j, tmp, c, i);
    }
  }

  // last_with_datap as the code computes it after the pull.
  ghost function PulledLwd(v: View, j0: nat, j: nat, tmp: Ptr): Link {
    if v.nd <= j then First
    else if j0 <= v.nd - 2 < j then NextOf(tmp)
    else v.lwd
  }

  ghost function PulledView(v: View, j0: nat, j: nat, rem: nat, size: nat, tmp: Ptr): View
    requires j <= |v.ps| == |v.segs| && (j < |v.segs| ==> rem <= |v.segs[j]|) && size <= |Flatten(v.segs)|
    requires j < |v.ps| ==> j < v.nd
  {
    View(tmp, if j < |v.ps| then v.last else tmp, PulledLwd(v, j0, j, tmp), v.total,
         [tmp] + v.ps[j..], [Flatten(v.segs)[..size]] + TailSegs(v, j, rem), if j < |v.ps| then 1 + v.nd - j else 1)
  }

  // The chains the pull may free: those of the buffer, and tmp when it is new.
  ghost function PullOwned(v: View, j0: nat, tmp: Ptr): seq<Ptr> {
    if j0 == 0 then v.ps + [tmp] else v.ps
  }

  lemma PullInv(m: Cells, v: View, j0: nat, j: nat, rem: nat, size: nat, tmp: Ptr, c: Chain)
    requires Inv(m, v) && v.nd >= 2 && Holder(v, tmp, j0) && j0 <= j <= |v.ps| == |v.segs|
    requires if j < |v.ps| then v.ps[j] in m && m[v.ps[j]].off == |v.segs[j]| && rem < |v.segs[j]| else rem == 0
    requires 0 < size == Before(v.segs, j) + rem <= |Flatten(v.segs)|
    requires c.Holds(Flatten(v.segs)[..size]) && c.next == if j < |v.ps| then v.ps[j] else NULL
    ensures j < |v.ps| ==> j < v.nd
    ensures var m', v' := PulledCells(m, v, j0, j, rem, tmp, c), PulledView(v, j0, j, rem, size, tmp);
            && Inv(m', v') && Flatten(v'.segs) == Flatten(v.segs)
            && Owns(m, PullOwned(v, j0, tmp), m', v'.ps)
  {
    hide Chain.Holds, Flatten, ListFrom, AllHold, Owns, DataThenEmpty, Before, PulledCells, TailSegs;
    var s := Flatten(v.segs)[..size];
    if j < |v.ps| { ChainFacts(m, v, j); }
    TailLists(m, v, j0, j, rem, tmp, c);
    var m', v' := PulledCells(m, v, j0, j, rem, tmp, c), PulledView(v, j0, j, rem, size, tmp);
    PullHead(m', v, j, tmp, s, TailSegs(v, j, rem));
    TailBytes(m, v, j, rem, size);
    PullLwd(m, v, j0, j, tmp);
    PullOwns(m, v, j0, j, rem, tmp, c);
  }

  lemma PullHead(m': Cells, v: View, j: nat, tmp: Ptr, s: seq<Byte>, tail: seq<seq<Byte>>)
    requires j <= |v.ps| && tmp in m' && tmp != NULL && tmp !in v.ps[j..] && m'[tmp].Holds(s)
    requires ListFrom(m', m'[tmp].next, v.ps[j..]) && AllHold(m', v.ps[j..], tail)
    ensures ListFrom(m', tmp, [tmp] + v.ps[j..]) && AllHold(m', [tmp] + v.ps[j..], [s] + tail)
    ensures |v.ps[j..]| == |tail|
  {
    ListPrepend(m', m'[tmp].next, v.ps[j..], tmp);
    hide Chain.Holds, ListFrom;
    AllHoldConcat(m', [tmp], [s], v.ps[j..], tail);
  }

  lemma TailBytes(m: Cells, v: View, j: nat, rem: nat, size: nat)
    requires Inv(m, v) && v.nd >= 2 && j <= |v.segs| && (if j < |v.segs| then rem < |v.segs[j]| && j < v.nd else rem == 0)
    requires 0 < size == Before(v.segs, j) + rem <= |Flatten(v.segs)|
    ensures var segs := [Flatten(v.segs)[..size]] + TailSegs(v, j, rem);
            && Flatten(segs) == Flatten(v.segs)
            && DataThenEmpty(segs, if j < |v.segs| then 1 + v.nd - j else 1)
  {
    hide InvBody, Flatten, Before, DataThenEmpty;
    BytesFacts(m, v);
    var s := Flatten(v.segs)[..size];
    if j == |v.segs| { BeforeAll(v.segs, v.nd, j); }
    TailFlatten(v, j, rem, s, size);
    TailData(v, j, rem, s);
  }

  lemma BytesFacts(m: Cells, v: View)
    requires Inv(m, v)
    ensures DataThenEmpty(v.segs, v.nd) && v.nd <= |v.segs|
  {
  }

  lemma TailFlatten(v: View, j: nat, rem: nat, s: seq<Byte>, size: nat)
    requires j <= |v.segs| && (j < |v.segs| ==> rem <= |v.segs[j]|) && size <= |Flatten(v.segs)|
    requires s == Flatten(v.segs)[..size] && size == Before(v.segs, j) + rem
    requires j == |v.segs| ==> size == |Flatten(v.segs)|
    ensures Flatten([s] + TailSegs(v, j, rem)) == Flatten(v.segs)
  {
    hide Flatten, Before;
    FlattenConcat([s], TailSegs(v, j, rem));
    FlattenSingle(s);
    if j < |v.segs| {
      DrainFlatten(v.segs, j, rem);
    } else {
      FlattenEmpty([]);
    }
  }

  lemma TailData(v: View, j: nat, rem: nat, s: seq<Byte>)
    requires DataThenEmpty(v.segs, v.nd) && s != []
    requires j <= |v.segs| && (j < |v.segs| ==> rem < |v.segs[j]| && j < v.nd)
    ensures DataThenEmpty([s] + TailSegs(v, j, rem), if j < |v.segs| then 1 + v.nd - j else 1)
  {
    if j < |v.segs| {
      var t := v.segs[j..][0 := v.segs[j][rem..]];
      assert t[0] != [];
      assert forall i :: 0 < i < |t| ==> t[i] == v.segs[j + i];
    }
  }

  lemma PullLwd(m: Cells, v: View, j0: nat, j: nat, tmp: Ptr)
    requires Inv(m, v) && v.nd >= 2 && Holder(v, tmp, j0) && j0 <= j <= |v.ps| && (j < |v.ps| ==> j < v.nd)
    ensures var ps := [tmp] + v.ps[j..];
            PulledLwd(v, j0, j, tmp) == LinkTo(ps, if j < |v.ps| then v.nd - j else 0)
  {
    hide AllHold, ListFrom, DataThenEmpty, Flatten;
  }

  lemma PullOwns(m: Cells, v: View, j0: nat, j: nat, rem: nat, tmp: Ptr, c: Chain)
    requires Inv(m, v) && Holder(v, tmp, j0) && j0 <= j <= |v.ps|
    requires j < |v.ps| ==> v.ps[j] in m && rem <= m[v.ps[j]].off
    ensures Owns(m, PullOwned(v, j0, tmp), PulledCells(m, v, j0, j, rem, tmp, c), [tmp] + v.ps[j..])
  {
    hide InvBody, Dropped;
    var ps := v.ps;
    assert ps == ps[..j0] + ps[j0..j] + ps[j..];
    if j < |ps| { assert ps[j..][0] == ps[j]; }
  }

  // ---------- the code after the loop ----------

  // Copies the first rem bytes of the chain that is pulled in part, and links tmp.
  method PullPartial(buf: EvBuffer, tmp: Ptr, chain: Ptr, at: nat, rem: nat,
                     ghost m: Cells, ghost v: View, ghost j0: nat, ghost j: nat, ghost base: nat, ghost c: Chain)
      returns (ghost c': Chain)
    requires Inv(m, v) && Holder(v, tmp, j0) && j0 <= j <= |v.ps| == |v.segs|
    requires if j < |v.ps| then chain == v.ps[j] && rem < |v.segs[j]| else chain == NULL && rem == 0
    requires buf.store.cells == Pulling(m, v.ps, j0, j, tmp, c)
    requires Gathered(v, c, base, Before(v.segs, j)) && at == base + Before(v.segs, j)
    requires at + rem <= |c.mem| && tmp in buf.store.cells
    modifies buf`last, buf.store
    ensures j < |v.ps| ==> v.ps[j] in m && m[v.ps[j]].off == |v.segs[j]|
    ensures buf.store.cells == PulledCells(m, v, j0, j, rem, tmp, c')
    ensures c' == c.(mem := c'.mem, next := chain) && |c'.mem| == |c.mem|
    ensures Gathered(v, c', base, Before(v.segs, j) + rem)
    ensures buf.last == if j < |v.ps| then old(buf.last) else tmp
  {
    hide InvBody, Flatten, Chain.Holds, Before, Gathered, Pulling, Holder;
    PullIn(m, v, j0, j, tmp, c);
    if chain != NULL {
      ChainFacts(m, v, j);
      PullKept(m, v, j0, j, tmp, c, j);
      var d := buf.store.cells[chain];
      GatherStep(m, v, j, c, base, d, rem);
      var piece := d.mem[d.misalign..d.misalign + rem];
      var holder := buf.store.cells[tmp];
      var holder' := holder.(mem := Write(holder.mem, at, piece), next := chain);
      c' := holder';
      GatheredNext(v, c.(mem := Write(c.mem, at, piece)), c', base, Before(v.segs, j) + rem);
      PullPut(m, v.ps, j0, j, tmp, c, c');
      buf.store.cells := buf.store.cells[tmp := holder'];
      buf.store.cells := buf.store.cells[chain := d.(misalign := d.misalign + rem, off := d.off - rem)];
    } else {
      AllGathered(m, v, j);
      var holder := buf.store.cells[tmp];
      c' := holder.(next := chain);
      GatheredNext(v, c, c', base, Before(v.segs, j) + rem);
      PullPut(m, v.ps, j0, j, tmp, c, c');
      buf.last := tmp;
      buf.store.cells := buf.store.cells[tmp := holder.(next := chain)];
    }
  }

  lemma GatheredNext(v: View, c: Chain, c': Chain, base: nat, n: nat)
    requires Gathered(v, c, base, n) && c'.mem == c.mem && c'.misalign == c.misalign
    ensures Gathered(v, c', base, n)
  {
  }

  lemma AllGathered(m: Cells, v: View, j: nat)
    requires Inv(m, v) && j <= |v.ps|
    ensures j < |v.ps| ==> v.ps[j] != NULL
  {
  }

  lemma GatheredHolds(v: View, c: Chain, base: nat, n: nat)
    requires Gathered(v, c, base, n) && c.off == n && 0 < |c.mem| <= MAX_CHAIN_DATA
    ensures c.Holds(Flatten(v.segs)[..n])
  {
  }

  // The loop and everything behind it.
  method PullInto(buf: EvBuffer, tmp: Ptr, chain0: Ptr, at0: nat, size0: nat,
                  ghost m: Cells, ghost v: View, ghost j0: nat, ghost base: nat, ghost size: nat)
    requires Inv(m, v) && Holder(v, tmp, j0) && j0 <= 1 && j0 <= |v.ps| == |v.segs| && v.nd >= 2
    requires tmp in buf.store.cells && buf.store.cells == Pulling(m, v.ps, j0, j0, tmp, buf.store.cells[tmp])
    requires chain0 == (if j0 < |v.ps| then v.ps[j0] else NULL) && at0 == base + Before(v.segs, j0)
    requires Gathered(v, buf.store.cells[tmp], base, Before(v.segs, j0))
    requires var c := buf.store.cells[tmp]; at0 + size0 <= |c.mem| <= MAX_CHAIN_DATA && c.off == size
    requires j0 == 1 ==> tmp in m && buf.store.cells[tmp].next == m[tmp].next
    requires 0 < size == Before(v.segs, j0) + size0 <= v.total
    requires buf.Vw() == v.(first := tmp)
    modifies buf, buf.store
    ensures buf.Valid() && buf.Contents() == Flatten(v.segs) && buf.first == tmp
    ensures Owns(m, PullOwned(v, j0, tmp), buf.store.cells, buf.chains)
    ensures buf.segs != [] && size <= |Flatten(v.segs)| && buf.segs[0] == Flatten(v.segs)[..size]
  {
    hide InvBody, Flatten, Chain.Holds, Before, Gathered, Pulling, Holder, Owns, PulledCells;
    TotalFacts(m, v);
    LwdIs(m, v);
    HolderLwd(m, v, j0, tmp, buf.store.cells[tmp]);
    var lastWithData := buf.Deref(buf.lastWithDatap);
    var chain, at, rem, removedLwd, removedLwdp, j, c :=
      PullLoop(buf, tmp, chain0, at0, size0, lastWithData, m, v, j0, base);
    PullStops(m, v, j, rem, size);
    PullIn(m, v, j0, j, tmp, c);
    ghost var c' := PullPartial(buf, tmp, chain, at, rem, m, v, j0, j, base, c);
    GatheredHolds(v, c', base, size);
    PullInv(m, v, j0, j, rem, size, tmp, c');
    PulledNext(m, v, j0, j, rem, tmp, c');
    if removedLwd {
      buf.lastWithDatap := First;
    } else if removedLwdp {
      var next := buf.store.cells[buf.first].next;
      buf.lastWithDatap := if next != NULL && buf.store.cells[next].off != 0 then NextOf(buf.first) else First;
    }
    buf.chains, buf.segs := [tmp] + v.ps[j..], [Flatten(v.segs)[..size]] + TailSegs(v, j, rem);
    buf.nd := if j < |v.ps| then 1 + v.nd - j else 1;
  }

  // *last_with_datap is still the last data chain once `first` is tmp.
  lemma HolderLwd(m: Cells, v: View, j0: nat, tmp: Ptr, c: Chain)
    requires Inv(m, v) && v.nd >= 2 && v.nd <= |v.ps| && Holder(v, tmp, j0) && j0 <= |v.ps|
    requires j0 == 1 ==> tmp in m && c.next == m[tmp].next
    ensures var m' := Pulling(m, v.ps, j0, j0, tmp, c);
            v.ps[v.nd - 2] in m' && m'[v.ps[v.nd - 2]].next == v.ps[v.nd - 1]
  {
  }

  lemma PullStops(m: Cells, v: View, j: nat, rem: nat, size: nat)
    requires Inv(m, v) && j <= |v.ps| == |v.segs| && size == Before(v.segs, j) + rem <= v.total
    ensures j == |v.ps| ==> rem == 0
  {
    if j == |v.ps| { BeforeAll(v.segs, v.nd, j); }
  }

  lemma PulledNext(m: Cells, v: View, j0: nat, j: nat, rem: nat, tmp: Ptr, c: Chain)
    requires Inv(m, v) && Holder(v, tmp, j0) && j0 <= j <= |v.ps| == |v.segs|
    requires j < |v.ps| ==> v.ps[j] in m && m[v.ps[j]].off == |v.segs[j]| && rem < |v.segs[j]|
    ensures var m' := PulledCells(m, v, j0, j, rem, tmp, c);
            && tmp in m' && m'[tmp] == c
            && (j < |v.ps| ==> v.ps[j] != NULL && v.ps[j] in m' && m'[v.ps[j]].off > 0)
  {
    hide InvBody, Holder, Pulling;
    PullIn(m, v, j0, j, tmp, c);
    if j < |v.ps| { NotHolder(m, v, j0, j, tmp); }
  }

  // ---------- evbuffer_pullup ----------

  // What a successful pull promises.
  twostate predicate Pulled(buf: EvBuffer, size: nat)
    reads buf, buf.store
  {
    && buf.Valid() && buf.Contents() == old(buf.Contents())
    && Owns(old(buf.store.cells), old(buf.chains), buf.store.cells, buf.chains)
    && size <= |buf.Contents()| && buf.first in buf.store.cells
    && var c := buf.store.cells[buf.first];
    c.misalign + size <= |c.mem| && size <= c.off && c.mem[c.misalign..c.misalign + size] == buf.Contents()[..size]
  }

  lemma FirstChainBytes(m: Cells, v: View, size: nat)
    requires Inv(m, v) && v.segs != [] && size <= |v.segs[0]|
    ensures v.first in m && size <= |Flatten(v.segs)|
    ensures var c := m[v.first];
            && c.misalign + size <= |c.mem| && size <= c.off
            && c.mem[c.misalign..c.misalign + size] == Flatten(v.segs)[..size]
  {
    hide Flatten, DataThenEmpty;
    ChainSlice(v.segs, 0, 0, size);
    assert v.segs[..0] == [];
    assert Before(v.segs, 0) == 0 by { FlattenEmpty([]); }
    HoldsPrefix(m[v.ps[0]], v.segs[0], size);
  }

  // There is room behind the first chain's bytes: pull the rest there.
  method PullInPlace(buf: EvBuffer, size: nat)
    requires buf.Valid() && buf.nd >= 2 && buf.first in buf.store.cells && size <= buf.totalLen
    requires var c := buf.store.cells[buf.first]; c.off < size <= |c.mem| - c.misalign
    modifies buf, buf.store
    ensures Pulled(buf, size)
  {
    hide InvBody, Flatten, Chain.Holds, Before, Gathered, Pulling, Holder, Owns;
    ghost var m, v := buf.store.cells, buf.Vw();
    var chain := buf.first;
    var c := buf.store.cells[chain];
    StartInPlace(m, v, size);
    buf.store.cells := buf.store.cells[chain := c.(off := size)];
    PullInto(buf, chain, c.next, c.misalign + c.off, size - c.off, m, v, 1, c.misalign, size);
    FirstChainBytes(buf.store.cells, buf.Vw(), size);
  }

  lemma StartInPlace(m: Cells, v: View, size: nat)
    requires Inv(m, v) && v.nd >= 2 && v.first in m && m[v.first].off < size
    ensures 1 < |v.ps| == |v.segs| && v.ps[0] == v.first && m[v.first].next == v.ps[1]
    ensures Before(v.segs, 1) == m[v.first].off && |m[v.first].mem| <= MAX_CHAIN_DATA
    ensures Holder(v, v.first, 1)
    ensures var c := m[v.first].(off := size);
            m[v.first := c] == Pulling(m, v.ps, 1, 1, v.first, c) && Gathered(v, c, c.misalign, Before(v.segs, 1))
    ensures PullOwned(v, 1, v.first) == v.ps
  {
    hide Flatten, DataThenEmpty;
    ChainFacts(m, v, 0);
    BeforeStep(v.segs, 0);
    assert Before(v.segs, 0) == 0 by { FlattenEmpty([]); }
    FirstChainBytes(m, v, m[v.first].off);
    assert m - Elems(v.ps[1..1]) == m;
  }

  // A new first chain takes all the bytes.
  method PullNew(buf: EvBuffer, size: nat) returns (ok: bool)
    requires buf.Valid() && buf.nd >= 2 && 0 < size <= buf.totalLen
    modifies buf, buf.store
    ensures ok <==> size <= MAX_CHAIN_DATA
    ensures ok ==> Pulled(buf, size)
    ensures !ok ==> buf.Vw() == old(buf.Vw()) && buf.store.cells == old(buf.store.cells)
  {
    hide InvBody, Flatten, Chain.Holds, Before, Gathered, Pulling, Holder, Owns;
    ghost var m, v := buf.store.cells, buf.Vw();
    var chain := buf.first;
    var tmp := buf.store.ChainNew(size);
    if tmp == NULL {
      return false;
    }
    ghost var m1 := buf.store.cells;
    NewChain(m, v, tmp, m1[tmp]);
    HoldsOff(m1[tmp], []);
    StartNew(m1, v, tmp, size);
    buf.store.cells := buf.store.cells[tmp := buf.store.cells[tmp].(off := size)];
    buf.first := tmp;
    PullInto(buf, tmp, chain, 0, size, m1, v, 0, 0, size);
    FirstChainBytes(buf.store.cells, buf.Vw(), size);
    OwnsTrans(m, v.ps, m1, v.ps + [tmp], buf.store.cells, buf.chains);
    ok := true;
  }

  lemma StartNew(m: Cells, v: View, tmp: Ptr, size: nat)
    requires Inv(m, v) && v.nd >= 2 && tmp in m && tmp !in v.ps && tmp != NULL && m[tmp].misalign == 0
    ensures 0 < |v.ps| == |v.segs| && v.first == v.ps[0] && Before(v.segs, 0) == 0
    ensures Holder(v, tmp, 0)
    ensures var c := m[tmp].(off := size);
            m[tmp := c] == Pulling(m, v.ps, 0, 0, tmp, c) && Gathered(v, c, 0, Before(v.segs, 0))
    ensures PullOwned(v, 0, tmp) == v.ps + [tmp]
  {
    assert m - Elems(v.ps[0..0]) == m;
  }

  // evbuffer_pullup; NULL or the first chain, whose bytes start with the first `size` ones
  method Pullup(buf: EvBuffer, size0: int) returns (r: Ptr)
    requires buf.Valid()
    modifies buf, buf.store
    ensures var size := if size0 < 0 then |old(buf.Contents())| else size0;
            && (r == NULL <==> || size == 0 || size > |old(buf.Contents())|
                               || (size > MAX_CHAIN_DATA && old(buf.first in buf.store.cells && buf.store.cells[buf.first].off < size)))
            && (r == NULL ==> buf.Vw() == old(buf.Vw()) && buf.store.cells == old(buf.store.cells))
            && (r != NULL ==> r == buf.first && Pulled(buf, size))
  {
    hide InvBody, Flatten, Chain.Holds, Owns;
    ghost var m, v := buf.store.cells, buf.Vw();
    TotalFacts(m, v);
    OwnsSelf(m, v.ps);
    var size := if size0 < 0 then buf.totalLen else size0;
    if size == 0 || size > buf.totalLen {
      return NULL;
    }
    HasData(m, v);
    LwdFacts(m, v);
    ChainFacts(m, v, 0);
    HoldsOff(m[v.first], v.segs[0]);
    var c := buf.store.cells[buf.first];
    if c.off >= size {
      FirstChainBytes(m, v, size);
      return buf.first;
    }
    MoreThanFirst(m, v);
    if |c.mem| - c.misalign >= size {
      PullInPlace(buf, size);
      FirstNonNull(buf.store.cells, buf.Vw());
      r := buf.first;
    } else {
      var ok := PullNew(buf, size);
      if ok {
        FirstNonNull(buf.store.cells, buf.Vw());
        r := buf.first;
      } else {
        r := NULL;
      }
    }
  }

  // When the first chain does not hold everything there is a second data chain.
  lemma MoreThanFirst(m: Cells, v: View)
    requires Inv(m, v) && v.nd > 0 && |v.segs| > 0 && |v.segs[0]| < v.total
    ensures v.nd >= 2
  {
    if v.nd == 1 {
      BeforeStep(v.segs, 0);
      BeforeAll(v.segs, 1, 1);
    }
  }

  lemma FirstNonNull(m: Cells, v: View)
    requires Inv(m, v) && |Flatten(v.segs)| > 0
    ensures v.first != NULL
  {
    if v.ps == [] { FlattenEmpty(v.segs); }
  }
}
