/** evbuffer_prepend_buffer, and the one kind of input on which it breaks the chain layout. */
module EvBufferPrependBuffer {
  import opened Bytes
  import opened Pointers
  import opened EvBufferCore
  import opened EvBufferLayout
  import opened EvBufferAdd
  import opened EvBufferDrain
  import opened EvBufferMove

  // The fields of dst after PREPEND_CHAIN, when both buffers have data.
  ghost function PrependedView(v: View, w: View): View
    requires v.total + w.total <= SIZE_MAX
  {
    View(w.first, v.last, if v.lwd == First then NextOf(w.last) else v.lwd, v.total + w.total,
         w.ps + v.ps, w.segs + v.segs, w.nd + v.nd)
  }

  ghost function PrependedCells(m: Cells, v: View, w: View): Cells
    requires w.last in m
  {
    m[w.last := m[w.last].(next := v.first)]
  }

  // The list and its bytes are right in every case.
  lemma PrependLists(m: Cells, v: View, w: View)
    requires Inv(m, v) && Inv(m, w) && v.nd > 0 && w.nd > 0 && Disjoint(w.ps, v.ps)
    requires v.total + w.total <= SIZE_MAX
    ensures w.last in m && w.ps != []
    ensures var m', v' := PrependedCells(m, v, w), PrependedView(v, w);
            && ListFrom(m', v'.first, v'.ps) && AllHold(m', v'.ps, v'.segs) && v'.last == LastOf(v'.ps)
            && v'.lwd == LinkTo(v'.ps, |w.ps| + v.nd - 1)
            && Flatten(v'.segs) == Flatten(w.segs) + Flatten(v.segs) && v'.total == |Flatten(v'.segs)|
            && Owns(m, v.ps + w.ps, m', v'.ps)
  {
    hide Chain.Holds, Flatten, ListFrom, AllHold, DataThenEmpty, Owns;
    SpliceLists(m, w.first, w.ps, w.segs, v.first, v.ps, v.segs);
    FlattenConcat(w.segs, v.segs);
    OwnsSwap(m, w.ps, v.ps, PrependedCells(m, v, w));
  }

  lemma OwnsSwap(m: Cells, ps: seq<Ptr>, qs: seq<Ptr>, m': Cells)
    requires Owns(m, ps + qs, m', ps + qs)
    ensures Owns(m, qs + ps, m', ps + qs)
  {
  }

  // The layout survives exactly when no empty chain of w ends up before the data of v.
  lemma PrependLayout(m: Cells, v: View, w: View)
    requires Inv(m, v) && Inv(m, w) && v.nd > 0 && w.nd > 0 && Disjoint(w.ps, v.ps)
    requires v.total + w.total <= SIZE_MAX
    ensures w.last in m
    ensures var m', v' := PrependedCells(m, v, w), PrependedView(v, w);
            && (w.nd == |w.ps| ==> Inv(m', v'))
            && (w.nd < |w.ps| ==> forall nd :: !Inv(m', v'.(nd := nd)))
  {
    hide Chain.Holds, Flatten, ListFrom, AllHold, Owns;
    PrependLists(m, v, w);
    if w.nd < |w.ps| {
      var segs := w.segs + v.segs;
      assert segs[w.nd] == [] && segs[|w.segs|] == v.segs[0] != [];
    }
  }

  // What a caller sees of "no trailing empty chain": the last chain has data.
  lemma LastHasData(m: Cells, w: View)
    requires Inv(m, w) && w.nd > 0
    ensures w.last in m && (m[w.last].off > 0 <==> w.nd == |w.ps|)
  {
    ChainFacts(m, w, |w.ps| - 1);
  }

  // Every chain has the space it had.
  ghost predicate SameSpace(m: Cells, m': Cells) {
    forall p :: p in m && p in m' ==> m'[p].SpaceLen() == m[p].SpaceLen()
  }

  method PrependChains(dst: EvBuffer, src: EvBuffer)
    requires Pair(dst, src) && dst != src && src.nd > 0 && dst.nd > 0
    modifies dst, src, dst.store
    ensures src.Valid() && src.Contents() == [] && src.chains == []
    ensures dst.Contents() == old(src.Contents()) + old(dst.Contents())
    ensures ListFrom(dst.store.cells, dst.first, dst.chains) && AllHold(dst.store.cells, dst.chains, dst.segs)
    ensures dst.totalLen == |dst.Contents()| && dst.last == LastOf(dst.chains) && PairOwns(dst, src)
    ensures dst.chains == old(src.chains) + old(dst.chains) && dst.segs == old(src.segs) + old(dst.segs)
    ensures SameSpace(old(dst.store.cells), dst.store.cells)
    ensures old(src.nd == |src.chains|) ==> dst.Valid()
    ensures old(src.nd < |src.chains|) ==> forall nd :: !Inv(dst.store.cells, dst.Vw().(nd := nd))
  {
    hide InvBody, Flatten, Owns, Chain.Holds, Disjoint, ListFrom, AllHold, LastOf;
    ghost var m, v, w := dst.store.cells, dst.Vw(), src.Vw();
    LwdFacts(m, v);
    LwdFacts(m, w);
    DisjointSym(v.ps, w.ps);
    PrependLists(m, v, w);
    PrependLayout(m, v, w);
    dst.store.cells := dst.store.cells[src.last := dst.store.cells[src.last].(next := dst.first)];
    dst.first := src.first;
    dst.totalLen := dst.totalLen + src.totalLen;
    // *dst->last_with_datap is not NULL here
    dst.lastWithDatap := if dst.lastWithDatap == First then NextOf(src.last) else dst.lastWithDatap;
    dst.chains, dst.segs, dst.nd := w.ps + v.ps, w.segs + v.segs, w.nd + v.nd;
    ZeroChain(src);
    assert (w.ps + v.ps) + [] == w.ps + v.ps;
  }

  // The last chain has data.
  predicate LastFull(buf: EvBuffer)
    reads buf, buf.store
  {
    buf.last in buf.store.cells && buf.store.cells[buf.last].off > 0
  }

  // evbuffer_prepend_buffer.  The bytes are always right; the layout of outbuf survives if and only
  // if one of the buffers was empty, they are the same, or the last chain of inbuf has data.
  method PrependBuffer(outbuf: EvBuffer, inbuf: EvBuffer) returns (r: int)
    requires Pair(outbuf, inbuf)
    modifies outbuf, inbuf, outbuf.store
    ensures r == 0 && (inbuf != outbuf ==> inbuf.Valid() && PairOwns(outbuf, inbuf) && Disjoint(outbuf.chains, inbuf.chains))
    ensures inbuf == outbuf ==> outbuf.Contents() == old(outbuf.Contents())
    ensures inbuf != outbuf ==> inbuf.Contents() == [] && outbuf.Contents() == old(inbuf.Contents()) + old(outbuf.Contents())
    ensures outbuf.totalLen == |outbuf.Contents()|
    ensures inbuf != outbuf && old(inbuf.totalLen > 0 && outbuf.totalLen > 0) ==>
              && outbuf.chains == old(inbuf.chains) + old(outbuf.chains) && outbuf.segs == old(inbuf.segs) + old(outbuf.segs)
              && ListFrom(outbuf.store.cells, outbuf.first, outbuf.chains) && AllHold(outbuf.store.cells, outbuf.chains, outbuf.segs)
              && SameSpace(old(outbuf.store.cells), outbuf.store.cells) && inbuf.chains == []
    ensures inbuf == outbuf || old(inbuf.totalLen == 0 || outbuf.totalLen == 0 || LastFull(inbuf)) ==> outbuf.Valid()
    ensures (exists nd :: Inv(outbuf.store.cells, outbuf.Vw().(nd := nd))) <==>
            inbuf == outbuf || old(inbuf.totalLen == 0 || outbuf.totalLen == 0 || LastFull(inbuf))
  {
    hide InvBody, Flatten, Owns, Chain.Holds, Disjoint, ListFrom, AllHold, LastOf;
    r := 0;
    ghost var m, v, w := outbuf.store.cells, outbuf.Vw(), inbuf.Vw();
    TotalFacts(m, v);
    TotalFacts(m, w);
    if inbuf.totalLen == 0 || inbuf == outbuf {
      OwnsSelf(m, v.ps + w.ps);
      assert Inv(m, v.(nd := v.nd));
      assert Flatten(w.segs) == [] ==> Flatten(w.segs) + Flatten(v.segs) == Flatten(v.segs);
      return;
    }
    HasData(m, w);
    LastHasData(m, w);
    if outbuf.totalLen == 0 {
      ReplaceAll(outbuf, inbuf);
      TotalFacts(outbuf.store.cells, outbuf.Vw());
      assert Inv(outbuf.store.cells, outbuf.Vw().(nd := outbuf.nd));
      assert Flatten(w.segs) + [] == Flatten(w.segs);
    } else {
      HasData(m, v);
      LwdFacts(m, w);
      PrependChains(outbuf, inbuf);
      DisjointNil(outbuf.chains);
      assert outbuf.Vw() == outbuf.Vw().(nd := outbuf.nd);
    }
  }
}
