/** Moving bytes between two evbuffers that share a store, by moving their chains. */
module EvBufferMove {
  import opened Bytes
  import opened Pointers
  import opened EvBufferCore
  import opened EvBufferLayout
  import opened EvBufferAdd
  import opened EvBufferDrain

  ghost predicate Disjoint(ps: seq<Ptr>, qs: seq<Ptr>) {
    forall p :: p in ps ==> p !in qs
  }

  // Two valid buffers over one store with no chain in common.
  ghost predicate Pair(a: EvBuffer, b: EvBuffer)
    reads a, b, a.store, b.store
  {
    && a.store == b.store
    && a.Valid() && b.Valid()
    && (a != b ==> Disjoint(a.chains, b.chains) && a.totalLen + b.totalLen <= SIZE_MAX)
  }

  // What moving bytes between two buffers does to the store.
  twostate predicate PairOwns(a: EvBuffer, b: EvBuffer)
    reads a, b, a.store
  {
    Owns(old(a.store.cells), old(a.chains) + old(b.chains), a.store.cells, a.chains + b.chains)
  }

  // ---------- splicing whole lists ----------

  // Hanging all chains of w behind a list v without trailing empty chains.
  lemma AppendListInv(m: Cells, v: View, w: View)
    requires InvBody(m, v) && v.nd == |v.ps| && Inv(m, w) && w.nd > 0 && Disjoint(v.ps, w.ps)
    requires v.total + w.total <= SIZE_MAX
    ensures var l := LinkTo(v.ps, v.nd);
            (l.NextOf? ==> l.chain in m)
            && var (m', first') := WriteLink(m, v.first, l, w.first);
            && Inv(m', View(first', w.last, if w.lwd == First then l else w.lwd, v.total + w.total,
                            v.ps + w.ps, v.segs + w.segs, v.nd + w.nd))
            && Owns(m, v.ps + w.ps, m', v.ps + w.ps)
    ensures Flatten(v.segs + w.segs) == Flatten(v.segs) + Flatten(w.segs)
  {
    hide Chain.Holds, Flatten, ListFrom, AllHold, DataThenEmpty, Owns, WriteLink;
    DataConcat(v.segs, w.segs, w.nd);
    SpliceLists(m, v.first, v.ps, v.segs, w.first, w.ps, w.segs);
    FlattenConcat(v.segs, w.segs);
  }

  // COPY_CHAIN
  method CopyChain(dst: EvBuffer, src: EvBuffer)
    requires src.Valid() && dst.store == src.store && dst != src
    modifies dst
    ensures dst.Valid() && dst.chains == src.chains && dst.segs == src.segs && dst.nd == src.nd
  {
    hide InvBody;
    dst.first := src.first;
    dst.lastWithDatap := if src.lastWithDatap == First then First else src.lastWithDatap;
    dst.last := src.last;
    dst.totalLen := src.totalLen;
    dst.chains, dst.segs, dst.nd := src.chains, src.segs, src.nd;
  }

  // APPEND_CHAIN followed by ZERO_CHAIN on the source
  method AppendChain(dst: EvBuffer, src: EvBuffer)
    requires Pair(dst, src) && dst != src && src.nd > 0
    modifies dst, src, dst.store
    ensures Pair(dst, src) && PairOwns(dst, src) && src.Contents() == []
    ensures dst.Contents() == old(dst.Contents()) + old(src.Contents())
  {
    hide InvBody, Flatten, Owns, Chain.Holds, Disjoint, WriteLink;
    ghost var m, v, w := dst.store.cells, dst.Vw(), src.Vw();
    TotalFacts(m, v);
    TotalFacts(m, w);
    InStore(m, w);
    var chp := FreeTrailingEmptyChains(dst);
    ghost var m1, v1 := dst.store.cells, dst.Vw();
    DisjointFrame(m, v.ps, m1, v1.ps, w);
    AppendListInv(m1, v1, w);
    OwnsBoth(m, v.ps, m1, v1.ps, w.ps);
    InStore(m1, v1);
    HangAll(dst, src, chp);
    ghost var m2, v2 := dst.store.cells, dst.Vw();
    ZeroChain(src);
    OwnsTrans(m, v.ps + w.ps, m1, v1.ps + w.ps, m2, v2.ps);
    assert v2.ps + [] == v2.ps;
    DisjointNil(v2.ps);
  }

  // The pointer writes of APPEND_CHAIN.
  method HangAll(dst: EvBuffer, src: EvBuffer, chp: Link)
    requires dst != src && dst.store == src.store
    requires dst.nd == |dst.chains| && chp == LinkTo(dst.chains, dst.nd) && (chp.NextOf? ==> chp.chain in dst.store.cells)
    modifies dst, dst.store
    ensures var (m', first') := WriteLink(old(dst.store.cells), old(dst.first), chp, src.first);
            && dst.store.cells == m'
            && dst.Vw() == View(first', src.last, if src.lastWithDatap == First then chp else src.lastWithDatap,
                                old(dst.totalLen) + src.totalLen, old(dst.chains) + src.chains, old(dst.segs) + src.segs,
                                old(dst.nd) + src.nd)
  {
    dst.SetLink(chp, src.first);
    dst.lastWithDatap := if src.lastWithDatap == First then chp else src.lastWithDatap;
    dst.last := src.last;
    dst.totalLen := dst.totalLen + src.totalLen;
    dst.chains, dst.segs, dst.nd := dst.chains + src.chains, dst.segs + src.segs, dst.nd + src.nd;
  }

  lemma DisjointSym(ps: seq<Ptr>, qs: seq<Ptr>)
    requires Disjoint(ps, qs)
    ensures Disjoint(qs, ps)
  {
  }

  lemma DisjointNil(ps: seq<Ptr>)
    ensures Disjoint(ps, []) && Disjoint([], ps)
  {
  }

  // While one buffer changes, the other keeps its layout and stays disjoint.
  lemma DisjointFrame(m: Cells, ps: seq<Ptr>, m': Cells, ps': seq<Ptr>, w: View)
    requires Owns(m, ps, m', ps') && Inv(m, w) && Disjoint(ps, w.ps)
    ensures Inv(m', w) && Disjoint(ps', w.ps)
  {
    OwnsFrame(m, ps, m', ps', w);
  }

  lemma OwnsBoth(m: Cells, ps: seq<Ptr>, m': Cells, ps': seq<Ptr>, qs: seq<Ptr>)
    requires Owns(m, ps, m', ps') && Disjoint(ps, qs) && forall q :: q in qs ==> q in m
    ensures Owns(m, ps + qs, m', ps' + qs)
  {
  }

  // The case of an empty destination: its chains are freed and the source's taken over.
  method ReplaceAll(dst: EvBuffer, src: EvBuffer)
    requires Pair(dst, src) && dst != src && dst.totalLen == 0
    modifies dst, src, dst.store
    ensures Pair(dst, src) && PairOwns(dst, src) && src.Contents() == []
    ensures dst.Contents() == old(src.Contents()) == old(dst.Contents()) + old(src.Contents())
    ensures src.chains == [] && dst.chains == old(src.chains) && dst.nd == old(src.nd)
  {
    hide InvBody, Flatten, Owns, Chain.Holds, Disjoint, ListFrom;
    ghost var m, v, w := dst.store.cells, dst.Vw(), src.Vw();
    TotalFacts(m, v);
    TotalFacts(m, w);
    InStore(m, w);
    FreeAllOwns(m, v);
    dst.store.FreeAllChains(dst.first, v.ps);
    ghost var m1 := dst.store.cells;
    DisjointFrame(m, v.ps, m1, [], w);
    OwnsBoth(m, v.ps, m1, [], w.ps);
    CopyChain(dst, src);
    TotalFacts(m1, dst.Vw());
    ZeroChain(src);
    DisjointNil(dst.chains);
    assert [] + w.ps == w.ps + [] == w.ps;
  }

  lemma FreeAllOwns(m: Cells, v: View)
    requires Inv(m, v)
    ensures ListFrom(m, v.first, v.ps) && Owns(m, v.ps, m - Elems(v.ps), [])
  {
  }

  // evbuffer_add_buffer
  method AddBuffer(outbuf: EvBuffer, inbuf: EvBuffer) returns (r: int)
    requires Pair(outbuf, inbuf)
    modifies outbuf, inbuf, outbuf.store
    ensures r == 0 && Pair(outbuf, inbuf)
    ensures outbuf == inbuf ==> outbuf.Contents() == old(outbuf.Contents()) && outbuf.store.cells == old(outbuf.store.cells)
    ensures outbuf != inbuf ==> PairOwns(outbuf, inbuf)
    ensures outbuf != inbuf ==> inbuf.Contents() == [] && outbuf.Contents() == old(outbuf.Contents()) + old(inbuf.Contents())
  {
    hide InvBody, Flatten, Owns, Chain.Holds, Disjoint;
    r := 0;
    ghost var m, v, w := outbuf.store.cells, outbuf.Vw(), inbuf.Vw();
    TotalFacts(m, v);
    TotalFacts(m, w);
    if inbuf.totalLen == 0 || outbuf == inbuf {
      OwnsSelf(m, v.ps + w.ps);
      return;
    }
    HasData(m, w);
    if outbuf.totalLen == 0 {
      ReplaceAll(outbuf, inbuf);
    } else {
      AppendChain(outbuf, inbuf);
    }
  }

  lemma HasData(m: Cells, w: View)
    requires Inv(m, w) && w.total > 0
    ensures w.nd > 0
  {
    if w.nd == 0 { FlattenEmpty(w.segs); }
  }

  // ---------- evbuffer_remove_buffer ----------

  // last_with_datap when the walk below has passed these chains.
  ghost function Passed(l: Link, ps: seq<Ptr>): Link {
    if l.NextOf? && l.chain in ps then First else l
  }

  // The walk over the chains of src that move whole, on any list; it also resets src's last_with_datap.
  method WholeWalk(src: EvBuffer, datlen0: nat)
      returns (chain: Ptr, previous: Ptr, nread: nat, datlen: nat, ghost k: nat)
    requires ListFrom(src.store.cells, src.first, src.chains) && AllHold(src.store.cells, src.chains, src.segs)
    requires datlen0 < |Flatten(src.segs)|
    modifies src`lastWithDatap
    ensures k < |src.chains| == |src.segs| && chain == src.chains[k]
    ensures k > 0 ==> previous == src.chains[k - 1]
    ensures nread == Before(src.segs, k) && datlen0 == nread + datlen && datlen < |src.segs[k]|
    ensures src.lastWithDatap == Passed(old(src.lastWithDatap), src.chains[..k])
  {
    hide Flatten, Chain.Holds, ListFrom, AllHold, Before;
    ghost var m, ps, segs := src.store.cells, src.chains, src.segs;
    WalkStart(m, src.first, ps, segs);
    chain, previous, nread, datlen, k := src.first, src.first, 0, datlen0, 0;
    while src.store.cells[chain].off <= datlen
      invariant k < |ps| && chain == ps[k] && (k > 0 ==> previous == ps[k - 1])
      invariant nread == Before(segs, k) && datlen0 == nread + datlen
      invariant src.lastWithDatap == Passed(old(src.lastWithDatap), ps[..k])
      invariant chain in m && m[chain].off == |segs[k]|
      decreases |ps| - k
    {
      WalkFacts(m, src.first, ps, segs, k);
      BeforeStep(segs, k);
      BeforeEnd(segs);
      assert ps[..k + 1] == ps[..k] + [chain];
      var off := src.store.cells[chain].off;
      nread, datlen := nread + off, datlen - off;
      previous := chain;
      src.lastWithDatap := if src.lastWithDatap == NextOf(chain) then First else src.lastWithDatap;
      chain := src.store.cells[chain].next;
      k := k + 1;
    }
  }

  lemma WalkStart(m: Cells, first: Ptr, ps: seq<Ptr>, segs: seq<seq<Byte>>)
    requires ListFrom(m, first, ps) && AllHold(m, ps, segs) && 0 < |Flatten(segs)|
    ensures |ps| == |segs| > 0 && first == ps[0] && first in m && m[first].off == |segs[0]| && Before(segs, 0) == 0
  {
  }

  lemma BeforeEnd(segs: seq<seq<Byte>>)
    ensures Before(segs, |segs|) == |Flatten(segs)|
  {
    assert segs[..|segs|] == segs;
  }

  // ... and on a valid layout, where it ends at a chain with data.
  method WholeChains(src: EvBuffer, datlen0: nat)
      returns (chain: Ptr, previous: Ptr, nread: nat, datlen: nat, ghost k: nat)
    requires src.Valid() && datlen0 < src.totalLen
    modifies src`lastWithDatap
    ensures k < src.nd <= |src.chains| == |src.segs| && chain == src.chains[k]
    ensures k > 0 ==> previous == src.chains[k - 1]
    ensures nread == Before(src.segs, k) && datlen0 == nread + datlen && datlen < |src.segs[k]|
    ensures src.lastWithDatap == LwdAfter(old(src.Vw()), k) && (nread > 0 <==> k > 0)
  {
    hide Flatten, ListFrom, AllHold, Before, Passed;
    ghost var m, v := src.store.cells, src.Vw();
    chain, previous, nread, datlen, k := WholeWalk(src, datlen0);
    WholeFacts(m, v, k);
  }

  lemma WholeFacts(m: Cells, v: View, k: nat)
    requires Inv(m, v) && k < |v.segs| && v.segs[k] != []
    ensures k < v.nd <= |v.ps| && Passed(v.lwd, v.ps[..k]) == LwdAfter(v, k) && (Before(v.segs, k) > 0 <==> k > 0)
  {
    hide AllHold;
    if k > 0 {
      assert v.segs[..k][0] == v.segs[0] != [];
    }
    if v.nd >= 2 && k + 1 >= v.nd {
      assert v.ps[..k][v.nd - 2] == v.ps[v.nd - 2];
    }
  }

  // Cutting the list behind its first k chains.
  lemma ListCut(m: Cells, first: Ptr, ps: seq<Ptr>, k: nat)
    requires ListFrom(m, first, ps) && 0 < k <= |ps|
    ensures ps[k - 1] in m
    ensures var m' := m[ps[k - 1] := m[ps[k - 1]].(next := NULL)];
            ListFrom(m', first, ps[..k]) && ListFrom(m', if k < |ps| then ps[k] else NULL, ps[k..])
  {
  }

  // dst and src after the first k chains of src moved over.
  ghost function DstView(v: View, w: View, k: nat, first: Ptr): View
    requires v.nd == |v.ps| && 0 < k <= |w.ps| == |w.segs|
  {
    View(first, w.ps[k - 1], LinkTo(v.ps + w.ps[..k], v.nd + k - 1), v.total + Before(w.segs, k),
         v.ps + w.ps[..k], v.segs + w.segs[..k], v.nd + k)
  }

  ghost function SrcView(w: View, k: nat): View
    requires k < w.nd <= |w.ps| == |w.segs| && Before(w.segs, k) <= w.total
  {
    View(w.ps[k], w.last, LwdAfter(w, k), w.total - Before(w.segs, k), w.ps[k..], w.segs[k..], w.nd - k)
  }

  lemma SplitSource(m: Cells, w: View, k: nat)
    requires Inv(m, w) && 0 < k < w.nd
    ensures k < |w.ps| == |w.segs| && w.ps[k - 1] in m
    ensures var m' := m[w.ps[k - 1] := m[w.ps[k - 1]].(next := NULL)];
            && ListFrom(m', w.first, w.ps[..k]) && AllHold(m', w.ps[..k], w.segs[..k])
            && Before(w.segs, k) <= w.total && Inv(m', SrcView(w, k))
            && Flatten(w.segs) == Flatten(w.segs[..k]) + Flatten(w.segs[k..])
    ensures DataThenEmpty(w.segs[..k], k) && Disjoint(w.ps[..k], w.ps[k..])
  {
    hide Chain.Holds, Flatten, ListFrom, AllHold, DataThenEmpty;
    SplitLists(m, w.first, w.ps, w.segs, k);
    DataSplit(w.segs, w.nd, k);
    FlattenSplit(w.segs, k);
    HalvesDisjoint(m, w, k);
  }

  lemma SplitLists(m: Cells, first: Ptr, ps: seq<Ptr>, segs: seq<seq<Byte>>, k: nat)
    requires ListFrom(m, first, ps) && AllHold(m, ps, segs) && 0 < k <= |ps|
    ensures ps[k - 1] in m
    ensures var m' := m[ps[k - 1] := m[ps[k - 1]].(next := NULL)];
            && ListFrom(m', first, ps[..k]) && ListFrom(m', if k < |ps| then ps[k] else NULL, ps[k..])
            && AllHold(m', ps[..k], segs[..k]) && AllHold(m', ps[k..], segs[k..])
  {
    hide Chain.Holds, ListFrom, AllHold;
    ListCut(m, first, ps, k);
    var m' := m[ps[k - 1] := m[ps[k - 1]].(next := NULL)];
    AllHoldSplit(m, ps, segs, k);
    AllHoldIn(m, ps[..k], segs[..k]);
    AllHoldIn(m, ps[k..], segs[k..]);
    AllHoldFrame(m, m', ps[..k], segs[..k]);
    AllHoldFrame(m, m', ps[k..], segs[k..]);
  }

  lemma DataSplit(segs: seq<seq<Byte>>, nd: nat, k: nat)
    requires DataThenEmpty(segs, nd) && k <= nd
    ensures DataThenEmpty(segs[..k], k) && DataThenEmpty(segs[k..], nd - k)
  {
  }

  lemma HalvesDisjoint(m: Cells, w: View, k: nat)
    requires Inv(m, w) && k <= |w.ps|
    ensures Disjoint(w.ps[..k], w.ps[k..])
  {
  }

  // The store and dst's `first` after the two pointer writes.
  ghost function SplicedCells(m: Cells, v: View, w: View, k: nat): (Cells, Ptr)
    requires v.nd == |v.ps| && (v.nd > 0 ==> v.ps[v.nd - 1] in m) && 0 < k <= |w.ps| && w.ps[k - 1] in m
  {
    var (m1, first1) := WriteLink(m, v.first, LinkTo(v.ps, v.nd), w.first);
    (m1[w.ps[k - 1] := m1[w.ps[k - 1]].(next := NULL)], first1)
  }

  // Moving the first k chains of w behind the list v: first hang, then cut, as the code does.
  lemma SpliceFront(m: Cells, v: View, w: View, k: nat)
    requires InvBody(m, v) && v.nd == |v.ps| && Inv(m, w) && 0 < k < w.nd <= |w.ps| == |w.segs| && Disjoint(v.ps, w.ps)
    requires v.total + w.total <= SIZE_MAX && Before(w.segs, k) <= w.total
    ensures (v.nd > 0 ==> v.ps[v.nd - 1] in m) && w.ps[k - 1] in m
    ensures var (m2, first2) := SplicedCells(m, v, w, k);
            && Inv(m2, DstView(v, w, k, first2)) && Inv(m2, SrcView(w, k))
            && Owns(m, v.ps + w.ps, m2, v.ps + w.ps[..k] + w.ps[k..])
    ensures Disjoint(v.ps + w.ps[..k], w.ps[k..])
    ensures Flatten(v.segs + w.segs[..k]) == Flatten(v.segs) + Flatten(w.segs[..k])
    ensures Flatten(w.segs) == Flatten(w.segs[..k]) + Flatten(w.segs[k..])
  {
    hide Chain.Holds, Flatten, ListFrom, AllHold, DataThenEmpty, Owns, Inv;
    SplitSource(m, w, k);
    var c := w.ps[k - 1];
    var m' := m[c := m[c].(next := NULL)];
    BodyFrame(m, v, c, m[c].(next := NULL));
    SpliceLists(m', v.first, v.ps, v.segs, w.first, w.ps[..k], w.segs[..k]);
    CutCommutes(m, v.first, v.ps, v.nd, w.first, c);
    var (m1, first1) := WriteLink(m, v.first, LinkTo(v.ps, v.nd), w.first);
    var m2 := m1[c := m1[c].(next := NULL)];
    SrcKept(m', v.first, v.ps, w.first, SrcView(w, k));
    FlattenConcat(v.segs, w.segs[..k]);
    DataConcat(v.segs, w.segs[..k], k);
    assert v.ps + w.ps[..k] + w.ps[k..] == v.ps + w.ps;
    SpliceOwns(m, v, w, k);
    DstInv(m2, v, w, k, first1);
  }

  // The other buffer's list does not see the two writes.
  lemma BodyFrame(m: Cells, v: View, p: Ptr, c: Chain)
    requires InvBody(m, v) && p !in v.ps
    ensures InvBody(m[p := c], v)
  {
    hide Chain.Holds, Flatten, DataThenEmpty;
    ListFrame(m, m[p := c], v.first, v.ps);
    AllHoldFrame(m, m[p := c], v.ps, v.segs);
  }

  lemma SrcKept(m: Cells, first: Ptr, ps: seq<Ptr>, q: Ptr, w: View)
    requires Inv(m, w) && Disjoint(ps, w.ps) && (ps != [] ==> ps[|ps| - 1] in m)
    ensures Inv(WriteLink(m, first, LinkTo(ps, |ps|), q).0, w)
  {
    hide InvBody;
    if ps != [] {
      assert ps[|ps| - 1] in ps;
      BodyFrame(m, w, ps[|ps| - 1], m[ps[|ps| - 1]].(next := q));
    }
  }

  lemma CutCommutes(m: Cells, first: Ptr, ps: seq<Ptr>, k: nat, q: Ptr, c: Ptr)
    requires k <= |ps| && (k > 0 ==> ps[k - 1] in m) && c in m && c !in ps
    ensures var (m1, first1) := WriteLink(m, first, LinkTo(ps, k), q);
            c in m1
            && (m1[c := m1[c].(next := NULL)], first1) == WriteLink(m[c := m[c].(next := NULL)], first, LinkTo(ps, k), q)
  {
    if k > 0 {
      var p := ps[k - 1];
      assert p in ps;
      var x, y := m[p].(next := q), m[c].(next := NULL);
      assert m[p := x][c := y] == m[c := y][p := x];
    }
  }

  lemma SpliceOwns(m: Cells, v: View, w: View, k: nat)
    requires InvBody(m, v) && v.nd == |v.ps| && Inv(m, w) && 0 < k <= |w.ps|
    requires w.ps[k - 1] in m && (v.nd > 0 ==> v.ps[v.nd - 1] in m)
    ensures var m1 := WriteLink(m, v.first, LinkTo(v.ps, v.nd), w.first).0;
            w.ps[k - 1] in m1
            && Owns(m, v.ps + w.ps, m1[w.ps[k - 1] := m1[w.ps[k - 1]].(next := NULL)], v.ps + w.ps)
  {
    hide InvBody, Inv;
    LinkOwns(m, v.first, v.ps, v.nd, w.first, v.ps + w.ps);
    assert w.ps[k - 1] in v.ps + w.ps;
  }

  lemma DstInv(m: Cells, v: View, w: View, k: nat, first: Ptr)
    requires v.nd == |v.ps| == |v.segs| && 0 < k <= |w.ps| == |w.segs|
    requires ListFrom(m, first, v.ps + w.ps[..k]) && AllHold(m, v.ps + w.ps[..k], v.segs + w.segs[..k])
    requires DataThenEmpty(v.segs + w.segs[..k], v.nd + k)
    requires Flatten(v.segs + w.segs[..k]) == Flatten(v.segs) + Flatten(w.segs[..k])
    requires v.total == |Flatten(v.segs)| && v.total + Before(w.segs, k) <= SIZE_MAX
    ensures Inv(m, DstView(v, w, k, first))
  {
    hide Chain.Holds, Flatten, ListFrom, AllHold, DataThenEmpty;
  }

  // Where the walk of advance_last_with_data ends.
  ghost function Stop(segs: seq<seq<Byte>>, j: nat): (r: nat)
    ensures j <= r && (j < |segs| ==> r < |segs|)
    decreases |segs| - j
  {
    if j + 1 < |segs| && segs[j + 1] != [] then Stop(segs, j + 1) else j
  }

  // advance_last_with_data, on any list
  method AdvanceWalk(buf: EvBuffer, ghost j0: nat) returns (n: nat)
    requires ListFrom(buf.store.cells, buf.first, buf.chains) && AllHold(buf.store.cells, buf.chains, buf.segs)
    requires j0 <= |buf.chains| && buf.lastWithDatap == LinkTo(buf.chains, j0)
    modifies buf`lastWithDatap
    ensures Stop(buf.segs, j0) <= |buf.chains| && buf.lastWithDatap == LinkTo(buf.chains, Stop(buf.segs, j0)) && n == Stop(buf.segs, j0) - j0
  {
    n := 0;
    ghost var m, ps, segs := buf.store.cells, buf.chains, buf.segs;
    if buf.Deref(buf.lastWithDatap) == NULL {
      return;
    }
    ghost var j: nat := j0;
    var c := buf.Deref(buf.lastWithDatap);
    while true
      invariant j0 <= j < |ps| && c == ps[j] && n == j - j0 && Stop(segs, j0) == Stop(segs, j)
      invariant buf.lastWithDatap == LinkTo(ps, j)
      decreases |ps| - j
    {
      WalkFacts(m, buf.first, ps, segs, j);
      var next := buf.store.cells[c].next;
      if next == NULL || buf.store.cells[next].off == 0 {
        return;
      }
      buf.lastWithDatap := NextOf(c);
      c := next;
      n, j := n + 1, j + 1;
    }
  }

  lemma WalkFacts(m: Cells, first: Ptr, ps: seq<Ptr>, segs: seq<seq<Byte>>, j: nat)
    requires ListFrom(m, first, ps) && AllHold(m, ps, segs) && j < |ps|
    ensures ps[j] in m && m[ps[j]].next == (if j + 1 < |ps| then ps[j + 1] else NULL) && m[ps[j]].off == |segs[j]|
    ensures j + 1 < |ps| ==> ps[j + 1] != NULL && ps[j + 1] in m && m[ps[j + 1]].off == |segs[j + 1]|
  {
  }

  lemma {:induction false} StopAtLast(segs: seq<seq<Byte>>, nd: nat, j: nat)
    requires DataThenEmpty(segs, nd) && j <= Pred(nd)
    ensures Stop(segs, j) == Pred(nd)
    decreases nd - j
  {
    if j + 1 < nd {
      StopAtLast(segs, nd, j + 1);
    }
  }

  // On a valid layout the walk ends at the last chain with data.
  method AdvanceLastWithData(buf: EvBuffer, ghost j0: nat) returns (n: nat)
    requires j0 <= Pred(buf.nd) && buf.nd <= |buf.chains| && buf.lastWithDatap == LinkTo(buf.chains, j0)
    requires Inv(buf.store.cells, buf.Vw().(lwd := LinkTo(buf.chains, Pred(buf.nd))))
    modifies buf`lastWithDatap
    ensures buf.Valid() && n == Pred(buf.nd) - j0
  {
    hide ListFrom, AllHold, Flatten;
    StopAtLast(buf.segs, buf.nd, j0);
    n := AdvanceWalk(buf, j0);
  }

  lemma LinkFacts(m: Cells, v: View, j: nat)
    requires Inv(m, v) && j <= |v.ps|
    ensures v.nd <= |v.ps| && (j > 0 ==> v.ps[j - 1] in m)
    ensures ReadLink(m, v.first, LinkTo(v.ps, j)) == if j < |v.ps| then v.ps[j] else NULL
    ensures j < |v.ps| ==> v.ps[j] != NULL
  {
  }

  // The part of evbuffer_remove_buffer that moves whole chains.  The caller still has to lower
  // src's total; until then src' is the layout that the source is about to have.
  method MoveChains(src: EvBuffer, dst: EvBuffer, chain: Ptr, previous: Ptr, nread: nat, ghost w: View, ghost k: nat)
    requires src != dst && src.store == dst.store && dst.Valid()
    requires Inv(src.store.cells, w) && Disjoint(dst.chains, w.ps) && dst.totalLen + w.total <= SIZE_MAX
    requires 0 < k < w.nd <= |w.ps| == |w.segs| && nread == Before(w.segs, k) <= w.total
    requires chain == w.ps[k] && previous == w.ps[k - 1] && src.first == w.first
    modifies dst, src`first, dst.store
    ensures dst.Valid() && src.first == chain && Inv(dst.store.cells, SrcView(w, k))
    ensures dst.Contents() == old(dst.Contents()) + Flatten(w.segs[..k]) && dst.totalLen == old(dst.totalLen) + nread
    ensures Flatten(w.segs) == Flatten(w.segs[..k]) + Flatten(w.segs[k..])
    ensures Disjoint(dst.chains, w.ps[k..])
    ensures Owns(old(dst.store.cells), old(dst.chains) + w.ps, dst.store.cells, dst.chains + w.ps[k..])
  {
    hide Inv, Flatten, Owns, Disjoint, Before, SrcView;
    ghost var j := SpliceChains(src, dst, chain, previous, nread, w, k);
    var _ := AdvanceLastWithData(dst, j);
  }

  // That part up to the walk of last_with_datap, which is at link j.
  method SpliceChains(src: EvBuffer, dst: EvBuffer, chain: Ptr, previous: Ptr, nread: nat, ghost w: View, ghost k: nat)
    returns (ghost j: nat)
    requires src != dst && src.store == dst.store && dst.Valid()
    requires Inv(src.store.cells, w) && Disjoint(dst.chains, w.ps) && dst.totalLen + w.total <= SIZE_MAX
    requires 0 < k < w.nd <= |w.ps| == |w.segs| && nread == Before(w.segs, k) <= w.total
    requires chain == w.ps[k] && previous == w.ps[k - 1] && src.first == w.first
    modifies dst, src`first, dst.store
    ensures src.first == chain && Inv(dst.store.cells, SrcView(w, k))
    ensures j <= Pred(dst.nd) && dst.nd <= |dst.chains| && dst.lastWithDatap == LinkTo(dst.chains, j)
    ensures Inv(dst.store.cells, dst.Vw().(lwd := LinkTo(dst.chains, Pred(dst.nd))))
    ensures dst.Contents() == old(dst.Contents()) + Flatten(w.segs[..k]) && dst.totalLen == old(dst.totalLen) + nread
    ensures Flatten(w.segs) == Flatten(w.segs[..k]) + Flatten(w.segs[k..])
    ensures Disjoint(dst.chains, w.ps[k..])
    ensures Owns(old(dst.store.cells), old(dst.chains) + w.ps, dst.store.cells, dst.chains + w.ps[k..])
  {
    hide InvBody, Flatten, Owns, Chain.Holds, Disjoint, Before, SplicedCells, SrcView;
    ghost var m, v := dst.store.cells, dst.Vw();
    InStore(m, w);
    var chp := FreeTrailingEmptyChains(dst);
    ghost var m1, v1 := dst.store.cells, dst.Vw();
    DisjointFrame(m, v.ps, m1, v1.ps, w);
    OwnsBoth(m, v.ps, m1, v1.ps, w.ps);
    SpliceFront(m1, v1, w, k);
    LwdAfterTrim(m1, v1);
    HangChains(src, dst, chp, chain, previous, nread, w, k);
    OwnsTrans(m, v.ps + w.ps, m1, v1.ps + w.ps, dst.store.cells, dst.chains + w.ps[k..]);
    j := Pred(v1.nd);
  }

  // The pointer writes that move the chains.
  method HangChains(src: EvBuffer, dst: EvBuffer, chp: Link, chain: Ptr, previous: Ptr, nread: nat, ghost w: View, ghost k: nat)
    requires src != dst && src.store == dst.store && src.first == w.first
    requires dst.nd == |dst.chains| && chp == LinkTo(dst.chains, dst.nd) && (chp.NextOf? ==> chp.chain in dst.store.cells)
    requires 0 < k < |w.ps| == |w.segs| && nread == Before(w.segs, k)
    requires previous == w.ps[k - 1] && previous in dst.store.cells
    modifies dst, src`first, dst.store
    ensures src.first == chain
    ensures dst.store.cells == SplicedCells(old(dst.store.cells), old(dst.Vw()), w, k).0
    ensures dst.Vw() == old(DstView(dst.Vw(), w, k, SplicedCells(dst.store.cells, dst.Vw(), w, k).1).(lwd := dst.lastWithDatap))
  {
    hide Before;
    dst.SetLink(chp, src.first);
    dst.last := previous;
    dst.store.cells := dst.store.cells[previous := dst.store.cells[previous].(next := NULL)];
    src.first := chain;
    dst.chains, dst.segs, dst.nd := dst.chains + w.ps[..k], dst.segs + w.segs[..k], dst.nd + k;
    dst.totalLen := dst.totalLen + nread;
  }

  lemma LwdAfterTrim(m: Cells, v: View)
    requires InvBody(m, v)
    ensures v.lwd == LinkTo(v.ps, Pred(v.nd))
  {
  }

  lemma SrcViewZero(m: Cells, w: View)
    requires Inv(m, w) && 0 < w.nd
    ensures w.nd <= |w.ps| == |w.segs| && Before(w.segs, 0) == 0 && SrcView(w, 0) == w
  {
    assert w.ps[0..] == w.ps && w.segs[0..] == w.segs;
  }

  // Taking n bytes, but not all, off the first chain.
  lemma DrainFirst(m: Cells, u: View, n: nat, c: Chain)
    requires Inv(m, u) && u.nd > 0 && u.ps != [] && u.segs != [] && n < |u.segs[0]| && u.first in m && n <= u.total
    requires c == m[u.first].(misalign := m[u.first].misalign + n, off := |u.segs[0]| - n)
    ensures Inv(m[u.first := c], u.(total := u.total - n, segs := u.segs[0 := u.segs[0][n..]]))
    ensures Owns(m, u.ps, m[u.first := c], u.ps)
    ensures n <= |Flatten(u.segs)| && Flatten(u.segs[0 := u.segs[0][n..]]) == Flatten(u.segs)[n..]
    ensures Flatten(u.segs)[..n] == u.segs[0][..n]
  {
    hide Chain.Holds, Flatten, Owns;
    SrcViewZero(m, u);
    ChainFacts(m, u, 0);
    LwdFacts(m, u);
    DrainInv(m, u, 0, n, n, c);
    assert m - Elems(u.ps[..0]) == m;
    assert u.ps[0..] == u.ps && u.segs[0..] == u.segs;
    ChainSlice(u.segs, 0, 0, n);
  }

  // The last part of evbuffer_remove_buffer: the rest of the bytes are copied.
  // u is the layout the source has once its total is lowered by nread.
  method CopyRest(src: EvBuffer, dst: EvBuffer, chain: Ptr, datlen: nat, nread: nat, ghost u: View)
    requires src != dst && src.store == dst.store && dst.Valid() && Disjoint(dst.chains, u.ps)
    requires Inv(dst.store.cells, u) && dst.totalLen + u.total <= SIZE_MAX
    requires u.nd > 0 && u.ps != [] && u.segs != [] && datlen < |u.segs[0]| && chain == u.first
    requires src.first == u.first && src.last == u.last && src.lastWithDatap == u.lwd
    requires src.totalLen == u.total + nread
    modifies dst, src, dst.store
    ensures Pair(dst, src)
    ensures datlen <= |Flatten(u.segs)| && src.Contents() == Flatten(u.segs)[datlen..]
    ensures dst.Contents() == old(dst.Contents()) + Flatten(u.segs)[..datlen]
    ensures Owns(old(dst.store.cells), old(dst.chains) + u.ps, dst.store.cells, dst.chains + src.chains)
  {
    hide InvBody, Flatten, Owns, Chain.Holds, Disjoint;
    ghost var m, v := dst.store.cells, dst.Vw();
    ChainFacts(m, u, 0);
    LwdFacts(m, u);
    InStore(m, u);
    TotalFacts(m, u);
    HoldsPrefix(m[chain], u.segs[0], datlen);
    ChainSlice(u.segs, 0, 0, datlen);
    var c := dst.store.cells[chain];
    var r := Add(dst, c.mem[c.misalign..c.misalign + datlen]);
    ghost var m1, v1 := dst.store.cells, dst.Vw();
    DisjointFrame(m, v.ps, m1, v1.ps, u);
    OwnsBoth(m, v.ps, m1, v1.ps, u.ps);
    SameCell(m, v.ps, m1, v1.ps, u.ps, 0);
    InStore(m1, v1);
    c := dst.store.cells[chain];
    var c' := c.(misalign := c.misalign + datlen, off := c.off - datlen);
    DrainFirst(m1, u, datlen, c');
    dst.store.cells := dst.store.cells[chain := c'];
    src.totalLen := src.totalLen - (nread + datlen);
    src.chains, src.segs, src.nd := u.ps, u.segs[0 := u.segs[0][datlen..]], u.nd;
    ghost var m2 := dst.store.cells;
    DisjointSides(v1.ps, u.ps, 0);
    BodyFrame(m1, v1, chain, c');
    OwnsRight(m1, u.ps, m2, u.ps, v1.ps);
    OwnsTrans(m, v.ps + u.ps, m1, v1.ps + u.ps, m2, v1.ps + u.ps);
  }

  lemma HoldsPrefix(c: Chain, s: seq<Byte>, n: nat)
    requires c.Holds(s) && n <= |s|
    ensures c.misalign + n <= |c.mem| && c.mem[c.misalign..c.misalign + n] == s[..n] && n <= MAX_CHAIN_DATA
  {
  }

  lemma SameCell(m: Cells, ps: seq<Ptr>, m': Cells, ps': seq<Ptr>, qs: seq<Ptr>, k: nat)
    requires Owns(m, ps, m', ps') && Disjoint(ps, qs) && k < |qs| && qs[k] in m
    ensures qs[k] in m' && m'[qs[k]] == m[qs[k]]
  {
    DisjointSides(ps, qs, k);
    var p := qs[k];
    assert p in m && p !in ps;
  }

  lemma DisjointSides(ps: seq<Ptr>, qs: seq<Ptr>, k: nat)
    requires Disjoint(ps, qs) && k < |qs|
    ensures qs[k] !in ps
  {
    var p := qs[k];
    assert p in qs;
    assert p in ps ==> p !in qs;
  }

  lemma OwnsRight(m: Cells, ps: seq<Ptr>, m': Cells, ps': seq<Ptr>, qs: seq<Ptr>)
    requires Owns(m, ps, m', ps') && Disjoint(qs, ps) && forall q :: q in qs ==> q in m
    ensures Owns(m, qs + ps, m', qs + ps')
  {
  }

  // evbuffer_remove_buffer: moves exactly min(datlen, length of src) bytes
  method RemoveBuffer(src: EvBuffer, dst: EvBuffer, datlen0: nat) returns (r: int)
    requires Pair(dst, src)
    modifies dst, src, dst.store
    ensures Pair(dst, src)
    ensures dst == src ==> r == 0 && dst.Contents() == old(dst.Contents())
    ensures dst != src ==> var n := Min(datlen0, |old(src.Contents())|);
                           && r == ToInt32(n) && PairOwns(dst, src)
                           && dst.Contents() == old(dst.Contents()) + old(src.Contents())[..n]
                           && src.Contents() == old(src.Contents())[n..]
  {
    hide InvBody, Flatten, Owns, Chain.Holds, Disjoint;
    ghost var m, v, w := dst.store.cells, dst.Vw(), src.Vw();
    TotalFacts(m, v);
    TotalFacts(m, w);
    if datlen0 == 0 || dst == src {
      OwnsSelf(m, v.ps + w.ps);
      return 0;
    }
    if datlen0 >= src.totalLen {
      var datlen := src.totalLen;
      var _ := AddBuffer(dst, src);
      return ToInt32(datlen);
    }
    r := RemovePart(src, dst, datlen0);
  }

  method RemovePart(src: EvBuffer, dst: EvBuffer, datlen0: nat) returns (r: int)
    requires Pair(dst, src) && dst != src && 0 < datlen0 < src.totalLen
    modifies dst, src, dst.store
    ensures Pair(dst, src) && PairOwns(dst, src) && r == ToInt32(datlen0) && datlen0 <= |old(src.Contents())|
    ensures dst.Contents() == old(dst.Contents()) + old(src.Contents())[..datlen0]
    ensures src.Contents() == old(src.Contents())[datlen0..]
  {
    hide InvBody, Flatten, Owns, Chain.Holds, Disjoint, Before;
    ghost var m, v, w := dst.store.cells, dst.Vw(), src.Vw();
    TotalFacts(m, w);
    var chain, previous, nread, datlen, k := WholeChains(src, datlen0);
    SrcViewZero(m, w);
    MovedWhole(m, w, k, datlen);
    if nread > 0 {
      MoveChains(src, dst, chain, previous, nread, w, k);
    } else {
      OwnsSelf(m, v.ps + w.ps);
    }
    ghost var m1, v1, u := dst.store.cells, dst.Vw(), SrcView(w, k);
    CopyRest(src, dst, chain, datlen, nread, u);
    OwnsTrans(m, v.ps + w.ps, m1, v1.ps + u.ps, dst.store.cells, dst.chains + src.chains);
    r := ToInt32(nread + datlen);
  }

  // n more bytes behind the first k chains, in terms of the whole contents.
  lemma MovedWhole(m: Cells, w: View, k: nat, n: nat)
    requires Inv(m, w) && k < w.nd <= |w.ps| == |w.segs| && n <= |w.segs[k]|
    ensures Before(w.segs, k) <= w.total && |w.segs[k..]| > 0 && w.segs[k..][0] == w.segs[k]
    ensures var all, rest, b := Flatten(w.segs), Flatten(w.segs[k..]), Before(w.segs, k);
            && b + n <= |all| && n <= |rest|
            && Flatten(w.segs[..k]) + rest[..n] == all[..b + n] && rest[n..] == all[b + n..]
            && (k == 0 ==> Flatten(w.segs[..k]) == [])
  {
    BeforeAll(w.segs, w.nd, k);
    FlattenSplit(w.segs, k);
  }
}
