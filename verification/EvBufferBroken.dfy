/** What a broken layout does to the bytes: evbuffer_prepend_buffer can leave an empty chain in front
    of data, and evbuffer_remove_buffer then delivers bytes out of order. */
module EvBufferBroken {
  import opened Bytes
  import opened Pointers
  import opened EvBufferCore
  import opened EvBufferLayout
  import opened EvBufferAdd
  import opened EvBufferDrain
  import opened EvBufferMove
  import opened EvBufferRead
  import opened EvBufferPrependBuffer

  // A list of chains with their bytes, without any demand on where the empty ones are.
  ghost predicate Raw(m: Cells, first: Ptr, ps: seq<Ptr>, segs: seq<seq<Byte>>) {
    ListFrom(m, first, ps) && AllHold(m, ps, segs)
  }

  // evbuffer_add, on any list, when the chain *last_with_datap has room: the bytes go behind those of
  // that chain.
  method PutAt(buf: EvBuffer, ghost k: nat, data: seq<Byte>)
    requires Raw(buf.store.cells, buf.first, buf.chains, buf.segs)
    requires k < |buf.chains| == |buf.segs| && buf.lastWithDatap == LinkTo(buf.chains, k)
    requires buf.chains[k] in buf.store.cells && |data| <= buf.store.cells[buf.chains[k]].SpaceLen()
    modifies buf, buf.store
    ensures Raw(buf.store.cells, buf.first, buf.chains, buf.segs) && buf.chains == old(buf.chains)
    ensures buf.Contents() == Flatten(old(buf.segs)[..k + 1]) + data + Flatten(old(buf.segs)[k + 1..])
    ensures buf.totalLen == old(buf.totalLen) + |data|
    ensures forall p :: p in old(buf.store.cells) && p !in buf.chains ==> p in buf.store.cells && buf.store.cells[p] == old(buf.store.cells[p])
  {
    hide Flatten, Raw, Chain.Holds;
    ghost var m, ps, segs := buf.store.cells, buf.chains, buf.segs;
    RawAt(m, buf.first, ps, segs, k);
    var chain := buf.Deref(buf.lastWithDatap);
    var c := buf.store.cells[chain];
    AppendHolds(c, segs[k], data);
    HoldsOff(c, segs[k]);
    buf.store.cells := buf.store.cells[chain := c.(mem := Write(c.mem, c.misalign + c.off, data), off := c.off + |data|)];
    buf.totalLen := buf.totalLen + |data|;
    buf.segs := segs[k := segs[k] + data];
    RawUpdate(m, buf.first, ps, segs, k, buf.store.cells[chain], segs[k] + data);
    FlattenUpdate(segs, k, segs[k] + data);
    FlattenOne(segs, k);
    assert Flatten(segs[..k]) + (segs[k] + data) == Flatten(segs[..k + 1]) + data;
  }

  lemma RawAt(m: Cells, first: Ptr, ps: seq<Ptr>, segs: seq<seq<Byte>>, k: nat)
    requires Raw(m, first, ps, segs) && k < |ps|
    ensures k > 0 ==> ps[k - 1] in m
    ensures ReadLink(m, first, LinkTo(ps, k)) == ps[k] && ps[k] in m && m[ps[k]].Holds(segs[k])
  {
    hide Chain.Holds;
    if k > 0 {
      assert m[ps[k - 1]].next == ps[k];
    }
  }

  lemma RawUpdate(m: Cells, first: Ptr, ps: seq<Ptr>, segs: seq<seq<Byte>>, k: nat, c: Chain, s: seq<Byte>)
    requires Raw(m, first, ps, segs) && k < |ps| && ps[k] in m && c.Holds(s) && c.next == m[ps[k]].next
    ensures Raw(m[ps[k] := c], first, ps, segs[k := s])
  {
    hide Chain.Holds;
    var m', segs' := m[ps[k] := c], segs[k := s];
    forall i | 0 <= i < |ps| ensures ps[i] in m' && m'[ps[i]].Holds(segs'[i]) && m'[ps[i]].next == m[ps[i]].next {
      assert i != k ==> ps[i] != ps[k];
      assert m[ps[i]].Holds(segs[i]);
    }
  }

  lemma FlattenOne(segs: seq<seq<Byte>>, k: nat)
    requires k < |segs|
    ensures Flatten(segs[..k + 1]) == Flatten(segs[..k]) + segs[k]
  {
    hide Flatten;
    assert segs[..k + 1] == segs[..k] + [segs[k]];
    FlattenConcat(segs[..k], [segs[k]]);
    FlattenSingle(segs[k]);
  }

  // What evbuffer_remove_buffer puts into an empty buffer when it moves the first k chains whole and
  // copies part of the next one: the part goes where the walk from the first chain stops.
  ghost function Delivered(segs: seq<seq<Byte>>, k: nat, part: seq<Byte>): seq<Byte>
    requires 0 < k <= |segs|
  {
    var s := Stop(segs[..k], 0) + 1;
    Flatten(segs[..s]) + part + Flatten(segs[s..k])
  }

  // The bytes are in their order if no chain with data follows an empty one among those moved.
  lemma InOrder(segs: seq<seq<Byte>>, k: nat, part: seq<Byte>, nd: nat)
    requires 0 < k <= |segs| && DataThenEmpty(segs[..k], nd)
    ensures Delivered(segs, k, part) == Flatten(segs[..k]) + part
  {
    hide Flatten;
    var ts := segs[..k];
    StopAtLast(ts, nd, 0);
    var s := Pred(nd) + 1;
    FlattenSplit(ts, s);
    assert ts[..s] == segs[..s] && ts[s..] == segs[s..k];
    FlattenEmpty(segs[s..k]);
    assert Flatten(segs[..s]) + [] == Flatten(segs[..s]);
    assert Flatten(segs[..s]) + part + [] == Flatten(segs[..s]) + part;
  }

  // The chains with data have this much space.
  ghost predicate Roomy(m: Cells, ps: seq<Ptr>, segs: seq<seq<Byte>>, n: nat) {
    |ps| == |segs| && forall i :: 0 <= i < |ps| && segs[i] != [] ==> ps[i] in m && m[ps[i]].SpaceLen() >= n
  }

  lemma {:induction false} StopData(segs: seq<seq<Byte>>, j: nat)
    requires j < |segs| && segs[j] != []
    ensures segs[Stop(segs, j)] != []
    decreases |segs| - j
  {
    if j + 1 < |segs| && segs[j + 1] != [] {
      StopData(segs, j + 1);
    }
  }

  // evbuffer_remove_buffer from any list into an empty buffer, when the first chain moves whole and
  // the chains have room
  method RemoveFrom(src: EvBuffer, dst: EvBuffer, datlen0: nat) returns (ghost k: nat, ghost part: seq<Byte>)
    requires src != dst && src.store == dst.store && Raw(src.store.cells, src.first, src.chains, src.segs)
    requires src.segs != [] && 0 < |src.segs[0]| <= datlen0 < |Flatten(src.segs)| == src.totalLen
    requires Roomy(src.store.cells, src.chains, src.segs, datlen0)
    requires dst.first == NULL && dst.lastWithDatap == First
    modifies src, dst, src.store
    ensures 0 < k < |old(src.segs)| && Before(old(src.segs), k) + |part| == datlen0 && |part| < |old(src.segs)[k]| && part == old(src.segs)[k][..|part|]
    ensures dst.Contents() == Delivered(old(src.segs), k, part)
  {
    hide Flatten, ListFrom, AllHold, Chain.Holds, Before, Stop, Passed;
    ghost var m, ps, segs := src.store.cells, src.chains, src.segs;
    var chain, previous, nread, datlen;
    chain, previous, nread, datlen, k := WholeWalk(src, datlen0);
    SomeWhole(segs, k, datlen0, nread);
    MovedRaw(m, src.first, ps, segs, k);
    dst.first := src.first;
    dst.last := previous;
    dst.store.cells := dst.store.cells[previous := dst.store.cells[previous].(next := NULL)];
    src.first := chain;
    dst.chains, dst.segs := ps[..k], segs[..k];
    var _ := AdvanceWalk(dst, 0);
    dst.totalLen := nread;
    ghost var s := Stop(segs[..k], 0);
    StopData(segs[..k], 0);
    Spacious(m, ps, segs, k, s, dst.store.cells);
    var c := dst.store.cells[chain];
    HoldsPrefix(c, segs[k], datlen);
    HoldsOff(c, segs[k]);
    part := c.mem[c.misalign..c.misalign + datlen];
    PutAt(dst, s, c.mem[c.misalign..c.misalign + datlen]);
    assert segs[..k][..s + 1] == segs[..s + 1] && segs[..k][s + 1..] == segs[s + 1..k];
    c := dst.store.cells[chain];
    dst.store.cells := dst.store.cells[chain := c.(misalign := c.misalign + datlen, off := c.off - datlen)];
    src.totalLen := src.totalLen - (nread + datlen);
  }

  lemma SomeWhole(segs: seq<seq<Byte>>, k: nat, datlen: nat, nread: nat)
    requires segs != [] && k < |segs| && nread == Before(segs, k) <= datlen && datlen - nread < |segs[k]| && |segs[0]| <= datlen
    ensures k > 0
  {
    assert Before(segs, 0) == 0;
  }

  lemma MovedRaw(m: Cells, first: Ptr, ps: seq<Ptr>, segs: seq<seq<Byte>>, k: nat)
    requires Raw(m, first, ps, segs) && 0 < k < |ps|
    ensures |segs| == |ps| && ps[k - 1] in m && ps[k] in m && ps[k] !in ps[..k] && m[ps[k]].Holds(segs[k])
    ensures Raw(m[ps[k - 1] := m[ps[k - 1]].(next := NULL)], first, ps[..k], segs[..k])
  {
    hide Chain.Holds;
    ListCut(m, first, ps, k);
    var m' := m[ps[k - 1] := m[ps[k - 1]].(next := NULL)];
    forall i | 0 <= i < k ensures ps[i] in m' && m'[ps[i]].Holds(segs[i]) {
      assert m[ps[i]].Holds(segs[i]);
      NextHolds(m[ps[i]], segs[i], NULL);
    }
  }

  lemma NextHolds(c: Chain, s: seq<Byte>, next: Ptr)
    requires c.Holds(s)
    ensures c.(next := next).Holds(s)
  {
  }

  lemma Spacious(m: Cells, ps: seq<Ptr>, segs: seq<seq<Byte>>, k: nat, s: nat, m': Cells)
    requires AllHold(m, ps, segs) && 0 < k < |ps| && s < k && ps[k - 1] in m && m' == m[ps[k - 1] := m[ps[k - 1]].(next := NULL)]
    requires ps[k] !in ps[..k]
    ensures ps[s] in m' && ps[s] in m && m'[ps[s]].SpaceLen() == m[ps[s]].SpaceLen()
    ensures ps[k] in m' && m'[ps[k]] == m[ps[k]]
  {
    hide Chain.Holds;
    assert ps[..k][k - 1] == ps[k - 1];
  }

  // ----- a broken layout, from fresh buffers -----

  // An evbuffer with these bytes in one chain.
  method Filled(store: Store, data: seq<Byte>) returns (buf: EvBuffer)
    requires data != [] && |data| <= 2
    modifies store
    ensures fresh(buf) && buf.store == store && buf.Valid() && buf.Contents() == data && buf.nd == 1 && buf.segs == [data]
    ensures OneChain(buf, 976 - |data|) && forall p :: p in old(store.cells) ==> p in store.cells && store.cells[p] == old(store.cells[p]) && p !in buf.chains
  {
    hide Inv, InvBody, Flatten, Owns, Chain.Holds;
    buf := new EvBuffer(store);
    ghost var m := store.cells;
    TotalFacts(m, buf.Vw());
    assert ChainCapacity(|data|) == 976;
    var _ := Add(buf, data);
    assert [] + data == data;
    SingleData(store.cells, buf.Vw());
    OthersKept(m, store.cells, buf.chains);
  }

  lemma SingleData(m: Cells, v: View)
    requires Inv(m, v) && |v.ps| == 1 && Flatten(v.segs) != []
    ensures v.nd == 1 && v.segs == [Flatten(v.segs)]
  {
    if v.nd == 0 { FlattenEmpty(v.segs); }
    assert v.segs == [v.segs[0]];
    FlattenSingle(v.segs[0]);
  }

  lemma OthersKept(m: Cells, m': Cells, ps: seq<Ptr>)
    requires Owns(m, [], m', ps)
    ensures forall p :: p in m ==> p in m' && m'[p] == m[p] && p !in ps
  {
  }

  // One byte, and an empty chain behind it: evbuffer_expand_fast_ was asked for one byte more than
  // the chain has room for.
  method WithTail(store: Store) returns (buf: EvBuffer)
    modifies store
    ensures fresh(buf) && buf.store == store && buf.Valid() && buf.Contents() == [7] && 1 == buf.nd < |buf.chains|
    ensures buf.chains[0] in store.cells && store.cells[buf.chains[0]].SpaceLen() == 975
  {
    hide Inv, InvBody, Flatten, Owns, Chain.Holds, Ready;
    buf := Filled(store, [7]);
    var r, f, k := ExpandFast(buf, 976, 2);
  }

  // Three bytes in two chains.
  method TwoChains(store: Store) returns (buf: EvBuffer)
    modifies store
    ensures fresh(buf) && buf.store == store && buf.Valid() && buf.segs == [[9], [8, 6]] && |buf.chains| == 2
    ensures Roomy(store.cells, buf.chains, buf.segs, 3)
    ensures forall p :: p in old(store.cells) ==> p in store.cells && store.cells[p] == old(store.cells[p]) && p !in buf.chains
  {
    hide Inv, InvBody, Flatten, Owns, Chain.Holds, ListFrom, AllHold;
    var front := Filled(store, [9]);
    ghost var m1, bs := store.cells, front.chains;
    buf := Filled(store, [8, 6]);
    ghost var m2, cs := store.cells, buf.chains;
    Kept(m1, m2, front.Vw());
    PairUp(buf, front);
    FullOne(m2, front.Vw());
    FullOne(m2, buf.Vw());
    var _ := PrependBuffer(buf, front);
    TwoOwned(m2, store.cells, cs, bs, buf.chains);
    TwoRoomy(m2, store.cells, bs[0], cs[0], buf.chains, buf.segs);
  }

  lemma TwoRoomy(m: Cells, m': Cells, b: Ptr, c: Ptr, ps: seq<Ptr>, segs: seq<seq<Byte>>)
    requires b in m && c in m && m[b].SpaceLen() >= 3 && m[c].SpaceLen() >= 3 && SameSpace(m, m')
    requires ps == [b, c] && |segs| == 2 && AllHold(m', ps, segs)
    ensures Roomy(m', ps, segs, 3)
  {
    hide Chain.Holds;
    assert ps[0] in m' && ps[1] in m';
  }

  lemma Kept(m: Cells, m': Cells, v: View)
    requires Inv(m, v) && forall p :: p in m ==> p in m' && m'[p] == m[p]
    ensures Inv(m', v)
  {
    hide Chain.Holds, Flatten;
    assert forall i :: 0 <= i < |v.ps| ==> v.ps[i] in m && m'[v.ps[i]] == m[v.ps[i]];
  }

  lemma InCells(m: Cells, v: View)
    requires Inv(m, v)
    ensures forall p :: p in v.ps ==> p in m
    ensures v.ps == [] ==> v.first == NULL && v.lwd == First
  {
    hide AllHold, Flatten;
  }

  lemma PairUp(a: EvBuffer, b: EvBuffer)
    requires a.store == b.store && a.Valid() && b.Valid() && |a.Contents()| + |b.Contents()| <= 8
    requires forall p :: p in b.chains ==> p !in a.chains
    ensures Pair(a, b)
  {
    hide InvBody;
    TotalFacts(a.store.cells, a.Vw());
    TotalFacts(b.store.cells, b.Vw());
  }

  lemma FullOne(m: Cells, v: View)
    requires Inv(m, v) && v.nd == |v.ps| > 0
    ensures v.last in m && m[v.last].off > 0 && v.total > 0
  {
    LastHasData(m, v);
    assert v.segs[0] != [];
  }

  lemma TwoOwned(m: Cells, m': Cells, ps: seq<Ptr>, qs: seq<Ptr>, rs: seq<Ptr>)
    requires Owns(m, ps + qs, m', rs + []) && rs == qs + ps
    ensures forall p :: p in m && p !in ps && p !in qs ==> p in m' && m'[p] == m[p] && p !in rs
  {
    assert rs + [] == rs;
  }

  // A buffer that ends in an empty chain is prepended to one with data: an empty chain is now in front
  // of data, so that the layout is broken.
  method PrependBreaksLayout(store: Store) returns (buf: EvBuffer, ghost tail: nat)
    modifies store
    ensures fresh(buf) && buf.store == store && buf.Contents() == [7, 9, 8, 6] && buf.totalLen == 4
    ensures forall nd :: !Inv(store.cells, buf.Vw().(nd := nd))
    ensures Raw(store.cells, buf.first, buf.chains, buf.segs) && Roomy(store.cells, buf.chains, buf.segs, 3)
    ensures tail > 0 && buf.segs == [[7]] + Empties(tail) + [[9], [8, 6]]
  {
    hide Inv, InvBody, Flatten, Owns, Chain.Holds, ListFrom, AllHold, Roomy;
    var front := WithTail(store);
    ghost var m1, w := store.cells, front.Vw();
    TailSegs(m1, w);
    tail := |w.ps| - 1;
    buf := TwoChains(store);
    ghost var m2, v := store.cells, buf.Vw();
    Kept(m1, m2, w);
    ThreeBytes();
    InCells(m1, w);
    PairUp(buf, front);
    TotalFacts(m2, v);
    TotalFacts(m2, w);
    LastHasData(m2, w);
    var _ := PrependBuffer(buf, front);
    assert [7] + [9, 8, 6] == [7, 9, 8, 6];
    RoomyBoth(m1, m2, store.cells, w, v, buf.chains, buf.segs);
  }

  ghost function Empties(n: nat): seq<seq<Byte>> {
    seq(n, _ => [])
  }

  lemma ThreeBytes()
    ensures Flatten([[9], [8, 6]]) == [9, 8, 6]
  {
    assert [[9], [8, 6]][1..] == [[8, 6]];
    FlattenSingle([8, 6]);
  }

  lemma TailSegs(m: Cells, w: View)
    requires Inv(m, w) && w.nd == 1 < |w.ps| && Flatten(w.segs) == [7]
    ensures w.segs == [[7]] + Empties(|w.ps| - 1)
  {
    hide ListFrom, AllHold;
    assert w.segs == [w.segs[0]] + w.segs[1..];
    assert w.segs[1..] == Empties(|w.ps| - 1);
    FlattenEmpty(w.segs[1..]);
    assert w.segs[0] + [] == w.segs[0];
  }

  lemma RoomyBoth(m1: Cells, m: Cells, m': Cells, w: View, v: View, ps: seq<Ptr>, segs: seq<seq<Byte>>)
    requires Inv(m1, w) && w.nd == 1 < |w.ps| == |w.segs| && w.ps[0] in m1 && m1[w.ps[0]].SpaceLen() >= 3 && w.ps[0] in m && m[w.ps[0]] == m1[w.ps[0]]
    requires Roomy(m, v.ps, v.segs, 3) && SameSpace(m, m') && ps == w.ps + v.ps && segs == w.segs + v.segs && AllHold(m', ps, segs)
    ensures Roomy(m', ps, segs, 3)
  {
    hide Chain.Holds, Flatten;
    forall i | 0 <= i < |ps| && segs[i] != [] ensures ps[i] in m' && m'[ps[i]].SpaceLen() >= 3 {
      if i < |w.ps| {
        assert segs[i] == w.segs[i];
        assert i == 0;
      } else {
        assert segs[i] == v.segs[i - |w.ps|] && ps[i] == v.ps[i - |w.ps|];
      }
    }
  }

  // Three bytes are then removed from it into a new buffer: the last of them comes before the second.
  method RemovedOutOfOrder() returns (src: EvBuffer, dst: EvBuffer)
    ensures dst.Contents() == [7, 8, 9]
  {
    hide Inv, InvBody, Flatten, Owns, Chain.Holds, ListFrom, AllHold, Roomy, Empties, Before, Delivered;
    var store := new Store();
    ghost var tail;
    src, tail := PrependBreaksLayout(store);
    dst := new EvBuffer(store);
    InCells(store.cells, dst.Vw());
    ghost var segs := src.segs;
    assert segs[0] == [7];
    ghost var k, part := RemoveFrom(src, dst, 3);
    Where(segs, tail, k, part);
  }

  lemma Where(segs: seq<seq<Byte>>, tail: nat, k: nat, part: seq<Byte>)
    requires tail > 0 && segs == [[7]] + Empties(tail) + [[9], [8, 6]]
    requires 0 < k < |segs| && Before(segs, k) + |part| == 3 && |part| < |segs[k]| && part == segs[k][..|part|]
    ensures Delivered(segs, k, part) == [7, 8, 9]
  {
    hide Flatten, Before;
    assert segs[0] == [7] && segs[tail + 1] == [9] && segs[tail + 2] == [8, 6];
    assert forall i :: 1 <= i <= tail ==> segs[i] == [];
    Prefix(segs, tail);
    assert k == tail + 2;
    assert part == [8];
    assert Stop(segs[..k], 0) == 0;
    assert segs[..1] == [[7]];
    FlattenSingle([7]);
    assert segs[1..k] == Empties(tail) + [[9]];
    FlattenConcat(Empties(tail), [[9]]);
    FlattenEmpty(Empties(tail));
    FlattenSingle([9]);
    assert [7] + [8] + ([] + [9]) == [7, 8, 9];
  }

  lemma Prefix(segs: seq<seq<Byte>>, tail: nat)
    requires segs == [[7]] + Empties(tail) + [[9], [8, 6]]
    ensures Before(segs, tail + 2) == 2 && Before(segs, tail + 1) == 1
  {
    hide Flatten;
    BeforeStep(segs, tail + 1);
    assert segs[..tail + 2] == [[7]] + (Empties(tail) + [[9]]);
    FlattenConcat([[7]], Empties(tail) + [[9]]);
    FlattenConcat(Empties(tail), [[9]]);
    FlattenEmpty(Empties(tail));
    FlattenSingle([7]);
    FlattenSingle([9]);
  }
}
