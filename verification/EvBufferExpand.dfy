/** Making room at the end of an evbuffer without changing its bytes. */
module EvBufferExpand {
  import opened Bytes
  import opened Pointers
  import opened EvBufferCore
  import opened EvBufferLayout
  import opened EvBufferAdd
  import opened EvBufferDrain
  import opened EvBufferMove

  const MAX_TO_COPY_IN_EXPAND: nat := 4096

  // The bytes, and the chains of other buffers, are untouched.
  twostate predicate SameBytes(buf: EvBuffer)
    reads buf, buf.store
  {
    && buf.Valid() && buf.Contents() == old(buf.Contents())
    && Owns(old(buf.store.cells), old(buf.chains), buf.store.cells, buf.chains)
  }

  // Chain p is the one *last_with_datap or the one behind it.
  ghost predicate IsRoom(v: View, p: Ptr, k: nat) {
    k < |v.ps| && p == v.ps[k] && (k == Pred(v.nd) || k == Pred(v.nd) + 1)
  }

  // ---------- replacing a data chain by a larger copy ----------

  // The layout with chain k replaced by a copy q that carries the same bytes.
  lemma ReplaceInv(m: Cells, v: View, k: nat, q: Ptr)
    requires Inv(m, v) && k < v.nd && k == v.nd - 1 < |v.ps| == |v.segs| && v.ps[k] in m
    requires q in m && q != NULL && q !in v.ps && m[q].next == m[v.ps[k]].next && m[q].Holds(v.segs[k])
    ensures (k > 0 ==> v.ps[k - 1] in m && v.ps[k - 1] != v.ps[k])
    ensures var (m1, first1) := WriteLink(m, v.first, LinkTo(v.ps, k), q);
            var v' := v.(first := first1, last := if v.last == v.ps[k] then q else v.last, ps := v.ps[k := q]);
            && Inv(m1 - {v.ps[k]}, v') && Owns(m, v.ps + [q], m1 - {v.ps[k]}, v'.ps)
  {
    hide Chain.Holds, Flatten, DataThenEmpty;
    ReplaceList(m, v.first, v.ps, k, q);
    ReplaceHold(m, v, k, q);
    ReplaceOwns(m, v, k, q);
    hide AllHold, ListFrom, Owns;
    assert v.ps[k := q][..k] == v.ps[..k];
  }

  lemma ReplaceList(m: Cells, first: Ptr, ps: seq<Ptr>, k: nat, q: Ptr)
    requires ListFrom(m, first, ps) && k < |ps|
    requires q in m && q != NULL && q !in ps && m[q].next == m[ps[k]].next
    ensures (k > 0 ==> ps[k - 1] in m && ps[k - 1] != ps[k])
    ensures var (m1, first1) := WriteLink(m, first, LinkTo(ps, k), q);
            ListFrom(m1 - {ps[k]}, first1, ps[k := q])
  {
    assert forall i :: 0 <= i < |ps| ==> ps[i] != q;
  }

  lemma ReplaceHold(m: Cells, v: View, k: nat, q: Ptr)
    requires Inv(m, v) && k < |v.ps| == |v.segs| && v.ps[k] in m
    requires q in m && q !in v.ps && m[q].Holds(v.segs[k])
    ensures (k > 0 ==> v.ps[k - 1] in m)
    ensures AllHold(WriteLink(m, v.first, LinkTo(v.ps, k), q).0 - {v.ps[k]}, v.ps[k := q], v.segs)
  {
    hide Flatten, DataThenEmpty, Chain.Holds;
    var ps' := v.ps[k := q];
    assert AllHold(m, ps', v.segs);
    KeptByReplace(m, v.first, v.ps, k, q);
    hide AllHold;
    AllHoldFrame(m, WriteLink(m, v.first, LinkTo(v.ps, k), q).0 - {v.ps[k]}, ps', v.segs);
  }

  lemma KeptByReplace(m: Cells, first: Ptr, ps: seq<Ptr>, k: nat, q: Ptr)
    requires ListFrom(m, first, ps) && k < |ps| && q in m && q !in ps
    ensures (k > 0 ==> ps[k - 1] in m)
    ensures var m', ps' := WriteLink(m, first, LinkTo(ps, k), q).0 - {ps[k]}, ps[k := q];
            forall i :: 0 <= i < |ps'| ==> ps'[i] in m && ps'[i] in m' && m'[ps'[i]].(next := NULL) == m[ps'[i]].(next := NULL)
  {
    assert forall i :: 0 <= i < |ps| ==> ps[i] != q;
  }

  lemma ReplaceOwns(m: Cells, v: View, k: nat, q: Ptr)
    requires Inv(m, v) && k < |v.ps| && v.ps[k] in m && q in m && q !in v.ps
    ensures (k > 0 ==> v.ps[k - 1] in m)
    ensures Owns(m, v.ps + [q], WriteLink(m, v.first, LinkTo(v.ps, k), q).0 - {v.ps[k]}, v.ps[k := q])
  {
    hide Flatten, DataThenEmpty, AllHold;
    var ps' := v.ps[k := q];
    forall p | p in v.ps ensures p in ps' || p == v.ps[k] {
      var i :| 0 <= i < |v.ps| && v.ps[i] == p;
      if i != k { assert ps'[i] == p; }
    }
    assert ps'[k] == q;
  }

  // evbuffer_chain_insert_new at the end of evbuffer_expand_singlechain
  method InsertNew(buf: EvBuffer, datlen: nat) returns (result: Ptr, ghost k: nat)
    requires buf.Valid()
    modifies buf, buf.store
    ensures SameBytes(buf) && (result == NULL <==> datlen > MAX_CHAIN_DATA)
    ensures result == NULL ==> buf.Vw() == old(buf.Vw()) && buf.store.cells == old(buf.store.cells)
    ensures result != NULL ==> IsRoom(buf.Vw(), result, k) && HasSpace(buf, result, datlen)
  {
    hide InvBody, Flatten, Owns, Chain.Holds;
    ghost var m, v := buf.store.cells, buf.Vw();
    TotalFacts(m, v);
    OwnsSelf(m, v.ps);
    LwdFacts(m, v);
    k := v.nd;
    result := buf.store.ChainNew(datlen);
    if result != NULL {
      ghost var m1 := buf.store.cells;
      NewChain(m, v, result, m1[result]);
      HoldsOff(m1[result], []);
      ChainInsert(buf, result, []);
      OwnsTrans(m, v.ps, m1, v.ps + [result], buf.store.cells, buf.chains);
    }
  }

  predicate HasSpace(buf: EvBuffer, p: Ptr, n: nat)
    reads buf.store
  {
    p in buf.store.cells && buf.store.cells[p].SpaceLen() >= n
  }

  // Puts the bytes of the last data chain into a larger chain.
  method Resize(buf: EvBuffer, chainp: Link, chain: Ptr, datlen: nat) returns (tmp: Ptr)
    requires buf.Valid() && 0 < buf.nd <= |buf.chains| && chain == buf.chains[buf.nd - 1]
    requires chainp == LinkTo(buf.chains, buf.nd - 1) && chain in buf.store.cells
    modifies buf, buf.store
    ensures SameBytes(buf) && (tmp == NULL <==> old(buf.store.cells[chain].off) + datlen > MAX_CHAIN_DATA)
    ensures tmp == NULL ==> buf.Vw() == old(buf.Vw()) && buf.store.cells == old(buf.store.cells)
    ensures tmp != NULL ==> IsRoom(buf.Vw(), tmp, old(buf.nd) - 1) && HasSpace(buf, tmp, datlen)
  {
    hide InvBody, Flatten, Owns, Chain.Holds;
    ghost var m, v := buf.store.cells, buf.Vw();
    LwdFacts(m, v);
    OwnsSelf(m, v.ps);
    ghost var k := v.nd - 1;
    HoldsOff(m[chain], v.segs[k]);
    var c := buf.store.cells[chain];
    tmp := buf.store.ChainNew(c.off + datlen);
    if tmp == NULL {
      return;
    }
    ghost var m1 := buf.store.cells;
    NewChain(m, v, tmp, m1[tmp]);
    var t := buf.store.cells[tmp];
    HoldsOff(t, []);
    CopiedHolds(t, c, v.segs[k]);
    var t' := t.(mem := Write(t.mem, 0, c.mem[c.misalign..c.misalign + c.off]), off := c.off, next := c.next);
    PutBystander(m1, v, tmp, t');
    buf.store.cells := buf.store.cells[tmp := t'];
    ghost var m2 := buf.store.cells;
    ReplaceInv(m2, v, k, tmp);
    buf.SetLink(chainp, tmp);
    buf.last := if buf.last == chain then tmp else buf.last;
    ReplaceCell(m2, v, k, tmp);
    buf.store.ChainFree(chain);
    buf.chains := v.ps[k := tmp];
    OwnsTrans(m, v.ps, m1, v.ps + [tmp], m2, v.ps + [tmp]);
    OwnsTrans(m, v.ps, m2, v.ps + [tmp], buf.store.cells, buf.chains);
  }

  lemma CopiedHolds(t: Chain, c: Chain, s: seq<Byte>)
    requires t.Holds([]) && t.misalign == 0 && c.Holds(s) && |s| <= |t.mem|
    ensures c.misalign + c.off <= |c.mem|
    ensures t.(mem := Write(t.mem, 0, c.mem[c.misalign..c.misalign + c.off]), off := c.off, next := c.next).Holds(s)
  {
  }

  lemma ReplaceCell(m: Cells, v: View, k: nat, q: Ptr)
    requires Inv(m, v) && k < |v.ps| && q in m && q !in v.ps && v.ps[k] in m && (k > 0 ==> v.ps[k - 1] in m)
    ensures var m1 := WriteLink(m, v.first, LinkTo(v.ps, k), q).0;
            q in m1 && m1[q] == m[q] && v.ps[k] in m1 && v.ps[k] != q
  {
    var p := v.ps[k];
    assert p in v.ps;
    if k > 0 {
      var p' := v.ps[k - 1];
      assert p' in v.ps;
    }
  }

  // The chain is to be resized, but its bytes and the new ones are just too many for a chain: the
  // check that comes first leaves out the header of the chain.
  predicate Gap(c: Chain, datlen: nat) {
    && c.off > 0 && 0 < c.SpaceLen() < datlen && !ShouldRealign(c, datlen)
    && c.SpaceLen() >= |c.mem| / 8 && c.off <= MAX_TO_COPY_IN_EXPAND
    && CHAIN_MAX - CHAIN_SIZE < c.off + datlen < CHAIN_MAX
  }

  // evbuffer_expand_singlechain: room for datlen bytes in one chain
  method ExpandSingleChain(buf: EvBuffer, datlen: nat) returns (result: Ptr, ghost k: nat)
    requires buf.Valid()
    modifies buf, buf.store
    ensures SameBytes(buf)
    ensures result == NULL <==> datlen > MAX_CHAIN_DATA || (old(buf.Deref(buf.lastWithDatap)) != NULL && old(Gap(buf.store.cells[buf.Deref(buf.lastWithDatap)], datlen)))
    ensures result == NULL ==> datlen > MAX_CHAIN_DATA - MAX_TO_COPY_IN_EXPAND
    ensures result == NULL ==> buf.Vw() == old(buf.Vw()) && buf.store.cells == old(buf.store.cells)
    ensures result != NULL ==> IsRoom(buf.Vw(), result, k) && HasSpace(buf, result, datlen)
  {
    hide InvBody, Flatten, Owns, Chain.Holds;
    ghost var m, v := buf.store.cells, buf.Vw();
    LwdFacts(m, v);
    OwnsSelf(m, v.ps);
    AllSmall(m, v);
    var chainp, chain;
    chainp, chain, k := FirstWritable(buf);
    if chain == NULL {
      result, k := InsertNew(buf, datlen);
      return;
    }
    var c := buf.store.cells[chain];
    if c.SpaceLen() >= datlen {
      return chain, k;
    }
    if c.off == 0 {
      result, k := InsertNew(buf, datlen);
      return;
    }
    result, k := ExpandData(buf, chainp, chain, datlen, k);
  }

  // The first chain with writable space, if any, and the link to it.
  method FirstWritable(buf: EvBuffer) returns (chainp: Link, chain: Ptr, ghost k: nat)
    requires buf.Valid()
    ensures k <= |buf.chains| && (k == Pred(buf.nd) || k == Pred(buf.nd) + 1) && chainp == LinkTo(buf.chains, k)
    ensures chain == if k < |buf.chains| then buf.chains[k] else NULL
    ensures chain == NULL <==> k == |buf.chains|
    ensures chain != NULL ==> chain in buf.store.cells && (buf.store.cells[chain].off > 0 <==> k < buf.nd)
    ensures k == Pred(buf.nd) && k < |buf.chains| ==> buf.store.cells[chain].SpaceLen() > 0
    ensures k == Pred(buf.nd) + 1 ==> buf.chains[k - 1] in buf.store.cells && buf.store.cells[buf.chains[k - 1]].SpaceLen() == 0
  {
    hide InvBody, Flatten, Chain.Holds;
    ghost var m, v := buf.store.cells, buf.Vw();
    LwdFacts(m, v);
    chainp := buf.lastWithDatap;
    k := Pred(v.nd);
    if k < |v.ps| {
      ChainFacts(m, v, k);
      HoldsOff(m[v.ps[k]], v.segs[k]);
    }
    if buf.Deref(chainp) != NULL && buf.store.cells[buf.Deref(chainp)].SpaceLen() == 0 {
      chainp := NextOf(buf.Deref(chainp));
      k := k + 1;
      if k < |v.ps| { ChainFacts(m, v, k); }
    }
    chain := buf.Deref(chainp);
  }

  // The chain has data but not enough space: realign it, use the next one, or resize it.
  method ExpandData(buf: EvBuffer, chainp: Link, chain: Ptr, datlen: nat, ghost k0: nat) returns (result: Ptr, ghost k: nat)
    requires buf.Valid() && k0 < buf.nd <= |buf.chains| && k0 == Pred(buf.nd) && chain == buf.chains[k0]
    requires chainp == LinkTo(buf.chains, k0) && chain in buf.store.cells && 0 < buf.store.cells[chain].SpaceLen() < datlen
    modifies buf, buf.store
    ensures SameBytes(buf)
    ensures result == NULL <==> datlen > MAX_CHAIN_DATA || old(Gap(buf.store.cells[chain], datlen))
    ensures result == NULL ==> buf.Vw() == old(buf.Vw()) && buf.store.cells == old(buf.store.cells)
    ensures result != NULL ==> IsRoom(buf.Vw(), result, k) && HasSpace(buf, result, datlen)
  {
    hide InvBody, Flatten, Owns, Chain.Holds;
    ghost var m, v := buf.store.cells, buf.Vw();
    ChainFacts(m, v, k0);
    HoldsOff(m[chain], v.segs[k0]);
    OwnsSelf(m, v.ps);
    k := k0;
    var c := buf.store.cells[chain];
    if ShouldRealign(c, datlen) {
      AlignHere(buf, chain);
      return chain, k;
    }
    if c.SpaceLen() < |c.mem| / 8 || c.off > MAX_TO_COPY_IN_EXPAND || datlen >= CHAIN_MAX - c.off {
      NextFacts(m, v, k0);
      AllSmall(m, v);
      if c.next != NULL && buf.store.cells[c.next].SpaceLen() >= datlen {
        return c.next, k0 + 1;
      }
      result, k := InsertNew(buf, datlen);
    } else {
      result := Resize(buf, chainp, chain, datlen);
    }
  }

  lemma AllSmall(m: Cells, v: View)
    requires Inv(m, v)
    ensures forall i :: 0 <= i < |v.ps| ==> v.ps[i] in m && m[v.ps[i]].SpaceLen() <= |m[v.ps[i]].mem| <= MAX_CHAIN_DATA
  {
    hide Flatten;
    forall i | 0 <= i < |v.ps| ensures v.ps[i] in m && m[v.ps[i]].SpaceLen() <= |m[v.ps[i]].mem| <= MAX_CHAIN_DATA {
      HoldsOff(m[v.ps[i]], v.segs[i]);
    }
  }

  lemma NextFacts(m: Cells, v: View, k: nat)
    requires Inv(m, v) && k < |v.ps| && v.ps[k] in m
    ensures m[v.ps[k]].next == if k + 1 < |v.ps| then v.ps[k + 1] else NULL
    ensures k + 1 < |v.ps| ==> v.ps[k + 1] in m && v.ps[k + 1] != NULL
  {
  }
}
