/** Appending to an evbuffer, with the freeing of trailing empty chains and the insertion of a chain. */
module EvBufferAdd {
  import opened Bytes
  import opened Pointers
  import opened EvBufferCore
  import opened EvBufferLayout

  const CHAIN_MAX_AUTO_SIZE: nat := 4096
  const MAX_TO_REALIGN_IN_EXPAND: nat := 2048

  // The search loop of evbuffer_free_trailing_empty_chains.
  method FirstVictim(buf: EvBuffer) returns (ch: Link)
    requires buf.ValidBody()
    ensures buf.nd <= |buf.chains| && ch == LinkTo(buf.chains, buf.nd)
    ensures |buf.chains| == |buf.segs|
  {
    ch := buf.lastWithDatap;
    ghost var k := Pred(buf.nd);
    var c := buf.Deref(ch);
    while c != NULL && buf.store.cells[c].off != 0
      invariant k <= |buf.chains| && ch == LinkTo(buf.chains, k)
      invariant c == if k < |buf.chains| then buf.chains[k] else NULL
      invariant k <= buf.nd <= k + 1
      decreases |buf.chains| - k
    {
      ch := NextOf(c);
      c := buf.store.cells[c].next;
      k := k + 1;
    }
  }

  // The freeing part of evbuffer_free_trailing_empty_chains.
  method FreeVictims(buf: EvBuffer, ch: Link)
    requires buf.ValidBody() && ch == LinkTo(buf.chains, buf.nd)
    modifies buf`first, buf.store
    ensures var (m2, v2) := old(Trimmed(buf.store.cells, buf.Vw()));
            buf.store.cells == m2 && buf.first == v2.first
  {
    hide Chain.Holds, Flatten, AllHold, DataThenEmpty;
    ghost var m, v := buf.store.cells, buf.Vw();
    TrimInv(m, v);
    if buf.Deref(ch) != NULL {
      buf.store.FreeAllChains(buf.Deref(ch), v.ps[v.nd..]);
      buf.SetLink(ch, NULL);
    }
  }

  // evbuffer_free_trailing_empty_chains: frees the chains after the last data chain and returns
  // the place where the next chain goes.  `last` is left to the caller.
  method FreeTrailingEmptyChains(buf: EvBuffer) returns (ch: Link)
    requires buf.ValidBody()
    modifies buf, buf.store
    ensures buf.ValidBody() && buf.nd == old(buf.nd) && buf.totalLen == old(buf.totalLen)
    ensures buf.chains == old(buf.chains[..buf.nd]) && buf.segs == old(buf.segs[..buf.nd])
    ensures buf.Contents() == old(buf.Contents()) && buf.nd == |buf.chains| == |buf.segs|
    ensures ch == LinkTo(buf.chains, buf.nd)
    ensures Owns(old(buf.store.cells), old(buf.chains), buf.store.cells, buf.chains)
  {
    hide InvBody, Flatten, Owns, Trimmed, ListFrom;
    ch := FirstVictim(buf);
    ghost var m, v := buf.store.cells, buf.Vw();
    TrimInv(m, v);
    FreeVictims(buf, ch);
    buf.chains, buf.segs := buf.chains[..v.nd], buf.segs[..v.nd];
    assert (buf.store.cells, buf.Vw()) == Trimmed(m, v);
  }

  // The two ways in which evbuffer_chain_insert hangs the chain on the list.
  method InsertFirst(buf: EvBuffer, chain: Ptr, ghost s: seq<Byte>)
    requires buf.Valid() && buf.chains == []
    requires chain != NULL && chain in buf.store.cells
    requires buf.store.cells[chain].next == NULL && buf.store.cells[chain].Holds(s)
    requires |s| <= SIZE_MAX
    modifies buf
    ensures buf.Valid() && buf.nd == (if s == [] then 0 else 1)
    ensures buf.chains == [chain] && buf.segs == [s]
    ensures buf.Contents() == s && buf.totalLen == |s|
    ensures Owns(buf.store.cells, [chain], buf.store.cells, buf.chains)
  {
    hide InvBody, Flatten, Owns, Chain.Holds;
    ghost var m, v := buf.store.cells, buf.Vw();
    LwdFacts(m, v);
    HoldsOff(m[chain], s);
    InsertInv(m, v, chain, s);
    buf.first := chain;
    buf.last := chain;
    buf.totalLen := buf.totalLen + buf.store.cells[chain].off;
    buf.chains, buf.segs := [chain], [s];
    buf.nd := if s == [] then 0 else 1;
    assert v.ps + [chain] == [chain] && v.segs + [s] == [s];
  }

  method InsertAt(buf: EvBuffer, chp: Link, chain: Ptr, ghost s: seq<Byte>)
    requires buf.ValidBody() && buf.nd == |buf.chains| && chp == LinkTo(buf.chains, buf.nd)
    requires chain !in buf.chains && chain != NULL && chain in buf.store.cells
    requires buf.store.cells[chain].next == NULL && buf.store.cells[chain].Holds(s)
    requires buf.totalLen + |s| <= SIZE_MAX
    modifies buf, buf.store
    ensures buf.Valid() && buf.nd == old(buf.nd) + (if s == [] then 0 else 1)
    ensures buf.chains == old(buf.chains) + [chain] && buf.segs == old(buf.segs) + [s]
    ensures chain in buf.store.cells && buf.store.cells[chain] == old(buf.store.cells[chain])
    ensures buf.Contents() == old(buf.Contents()) + s && buf.totalLen == old(buf.totalLen) + |s|
    ensures Owns(old(buf.store.cells), old(buf.chains) + [chain], buf.store.cells, buf.chains)
  {
    hide InvBody, Flatten, Owns, Chain.Holds;
    ghost var m, v := buf.store.cells, buf.Vw();
    HoldsOff(m[chain], s);
    InsertInv(m, v, chain, s);
    InStore(m, v);
    var off := buf.store.cells[chain].off;
    buf.SetLink(chp, chain);
    if off != 0 {
      buf.lastWithDatap := chp;
    }
    buf.last := chain;
    buf.totalLen := buf.totalLen + off;
    buf.chains, buf.segs := buf.chains + [chain], buf.segs + [s];
    buf.nd := if s == [] then buf.nd else buf.nd + 1;
  }

  // evbuffer_chain_insert
  method ChainInsert(buf: EvBuffer, chain: Ptr, ghost s: seq<Byte>)
    requires buf.Valid()
    requires chain !in buf.chains && chain != NULL && chain in buf.store.cells
    requires buf.store.cells[chain].next == NULL && buf.store.cells[chain].Holds(s)
    requires buf.totalLen + |s| <= SIZE_MAX
    modifies buf, buf.store
    ensures buf.Valid() && buf.nd == old(buf.nd) + (if s == [] then 0 else 1)
    ensures buf.chains == old(buf.chains[..buf.nd]) + [chain]
    ensures buf.segs == old(buf.segs[..buf.nd]) + [s]
    ensures chain in buf.store.cells && buf.store.cells[chain] == old(buf.store.cells[chain])
    ensures buf.Contents() == old(buf.Contents()) + s && buf.totalLen == old(buf.totalLen) + |s|
    ensures Owns(old(buf.store.cells), old(buf.chains) + [chain], buf.store.cells, buf.chains)
  {
    hide InvBody, Flatten, Owns, Chain.Holds;
    ghost var m, v := buf.store.cells, buf.Vw();
    LwdFacts(m, v);
    if buf.Deref(buf.lastWithDatap) == NULL {
      InsertFirst(buf, chain, s);
    } else {
      var chp := FreeTrailingEmptyChains(buf);
      ghost var m1, v1 := buf.store.cells, buf.Vw();
      OwnsBystander(m, v.ps, m1, v1.ps, chain);
      InsertAt(buf, chp, chain, s);
      OwnsTrans(m, v.ps + [chain], m1, v1.ps + [chain], buf.store.cells, buf.chains);
    }
  }

  // evbuffer_chain_should_realign
  predicate ShouldRealign(c: Chain, datlen: nat) {
    |c.mem| - c.off >= datlen && c.off < |c.mem| / 2 && c.off <= MAX_TO_REALIGN_IN_EXPAND
  }

  // evbuffer_chain_align
  function Aligned(c: Chain): Chain
    requires c.misalign + c.off <= |c.mem|
  {
    c.(mem := Write(c.mem, 0, c.mem[c.misalign..c.misalign + c.off]), misalign := 0)
  }

  lemma AlignHolds(c: Chain, s: seq<Byte>)
    requires c.Holds(s)
    ensures Aligned(c).Holds(s)
  {
  }

  // The chain that evbuffer_add writes to.
  ghost predicate Target(buf: EvBuffer, chain: Ptr)
    reads buf
  {
    buf.chains != [] && buf.nd <= |buf.chains| && chain == buf.chains[Pred(buf.nd)]
  }

  // What every append promises.
  twostate predicate Appended(buf: EvBuffer, data: seq<Byte>)
    reads buf, buf.store
  {
    && buf.Valid()
    && buf.Contents() == old(buf.Contents()) + data
    && buf.totalLen == old(buf.totalLen) + |data|
    && Owns(old(buf.store.cells), old(buf.chains), buf.store.cells, buf.chains)
  }

  // Appends within the chain, when there is room behind its bytes.
  method AppendHere(buf: EvBuffer, chain: Ptr, data: seq<Byte>)
    requires buf.Valid() && Target(buf, chain) && chain in buf.store.cells
    requires |data| <= buf.store.cells[chain].SpaceLen() && buf.totalLen + |data| <= SIZE_MAX
    modifies buf, buf.store
    ensures Appended(buf, data) && buf.chains == old(buf.chains)
    ensures Target(buf, chain)
    ensures buf.store.cells.Keys == old(buf.store.cells.Keys)
    ensures buf.store.cells[chain].SpaceLen() == old(buf.store.cells[chain].SpaceLen()) - |data|
  {
    hide InvBody, Flatten, Owns, Chain.Holds;
    ghost var m, v := buf.store.cells, buf.Vw();
    LwdFacts(m, v);
    ghost var k := Pred(v.nd);
    HoldsOff(m[chain], v.segs[k]);
    AppendHolds(m[chain], v.segs[k], data);
    var c := buf.store.cells[chain];
    ghost var c' := c.(mem := Write(c.mem, c.misalign + c.off, data), off := c.off + |data|);
    ExtendLast(m, v, c', data);
    buf.store.cells := buf.store.cells[chain := c.(mem := Write(c.mem, c.misalign + c.off, data), off := c.off + |data|)];
    buf.totalLen := buf.totalLen + |data|;
    buf.segs := buf.segs[k := buf.segs[k] + data];
    buf.nd := if v.nd == 0 && data != [] then 1 else v.nd;
  }

  // Moves the chain's bytes to the start of its memory.
  method AlignHere(buf: EvBuffer, chain: Ptr)
    requires buf.Valid() && Target(buf, chain) && chain in buf.store.cells
    modifies buf, buf.store
    ensures Appended(buf, []) && buf.chains == old(buf.chains) && Target(buf, chain) && buf.nd == old(buf.nd)
    ensures chain in buf.store.cells && buf.store.cells[chain].misalign == 0
    ensures |buf.store.cells[chain].mem| == old(|buf.store.cells[chain].mem|)
    ensures buf.store.cells[chain].off == old(buf.store.cells[chain].off)
  {
    hide InvBody, Flatten, Owns, Chain.Holds;
    ghost var m, v := buf.store.cells, buf.Vw();
    LwdFacts(m, v);
    ghost var k := Pred(v.nd);
    HoldsOff(m[chain], v.segs[k]);
    AlignHolds(m[chain], v.segs[k]);
    assert v.segs[k] + [] == v.segs[k] && v.segs[k := v.segs[k]] == v.segs;
    ExtendLast(m, v, Aligned(m[chain]), []);
    buf.store.cells := buf.store.cells[chain := Aligned(buf.store.cells[chain])];
  }

  // Hangs a fresh chain holding data at the end of the list.
  method InsertFilled(buf: EvBuffer, tmp: Ptr, data: seq<Byte>)
    requires buf.Valid() && tmp != NULL && tmp in buf.store.cells && tmp !in buf.chains
    requires var c := buf.store.cells[tmp]; c.next == NULL && c.misalign == 0 && c.Holds([]) && |data| <= |c.mem|
    requires buf.totalLen + |data| <= SIZE_MAX
    modifies buf, buf.store
    ensures buf.Valid() && buf.Contents() == old(buf.Contents()) + data
    ensures buf.totalLen == old(buf.totalLen) + |data|
    ensures Owns(old(buf.store.cells), old(buf.chains) + [tmp], buf.store.cells, buf.chains)
  {
    hide InvBody, Flatten, Owns, Chain.Holds;
    ghost var m, v := buf.store.cells, buf.Vw();
    var c := buf.store.cells[tmp];
    HoldsOff(c, []);
    AppendHolds(c, [], data);
    var c' := c.(mem := Write(c.mem, 0, data), off := |data|);
    assert [] + data == data;
    PutBystander(m, v, tmp, c');
    buf.store.cells := buf.store.cells[tmp := c'];
    ghost var m1 := buf.store.cells;
    ChainInsert(buf, tmp, data);
    OwnsTrans(m, v.ps + [tmp], m1, v.ps + [tmp], buf.store.cells, buf.chains);
  }

  // The last part of evbuffer_add: fills the chain and puts the rest into a new one.
  method AddNewChain(buf: EvBuffer, chain: Ptr, data: seq<Byte>, remain: nat) returns (r: int)
    requires buf.Valid() && Target(buf, chain) && chain in buf.store.cells
    requires remain == buf.store.cells[chain].SpaceLen() < |data|
    requires buf.totalLen + |data| <= SIZE_MAX
    modifies buf, buf.store
    ensures r == if |data| > MAX_CHAIN_DATA then -1 else 0
    ensures Appended(buf, if r == 0 then data else [])
  {
    hide Inv, Flatten, Owns, Chain.Holds;
    ghost var m, v := buf.store.cells, buf.Vw();
    TargetFacts(m, v, chain);
    var toAlloc := |buf.store.cells[chain].mem|;
    if toAlloc <= CHAIN_MAX_AUTO_SIZE / 2 {
      toAlloc := toAlloc * 2;
    }
    if |data| > toAlloc {
      toAlloc := |data|;
    }
    var tmp := buf.store.ChainNew(toAlloc);
    if tmp == NULL {
      OwnsSelf(m, v.ps);
      return -1;
    }
    ghost var m1 := buf.store.cells;
    NewChain(m, v, tmp, m1[tmp]);
    AppendHere(buf, chain, data[..remain]);
    ghost var m2, v2 := buf.store.cells, buf.Vw();
    OwnsBystander(m1, v.ps, m2, v2.ps, tmp);
    OwnsTrans(m, v.ps, m1, v.ps + [tmp], m2, v2.ps + [tmp]);
    InsertFilled(buf, tmp, data[remain..]);
    OwnsTrans(m, v.ps, m2, v2.ps + [tmp], buf.store.cells, buf.chains);
    assert data[..remain] + data[remain..] == data;
    return 0;
  }

  lemma TargetFacts(m: Cells, v: View, chain: Ptr)
    requires Inv(m, v) && v.ps != [] && v.nd <= |v.ps| && chain == v.ps[Pred(v.nd)]
    ensures chain in m && 0 < |m[chain].mem| <= MAX_CHAIN_DATA && m[chain].misalign + m[chain].off <= |m[chain].mem|
    ensures chain != NULL && v.total == |Flatten(v.segs)| <= SIZE_MAX
  {
    LwdFacts(m, v);
    HoldsOff(m[chain], v.segs[Pred(v.nd)]);
  }

  // evbuffer_add once a chain is there
  method AddToChain(buf: EvBuffer, chain: Ptr, data: seq<Byte>) returns (r: int)
    requires buf.Valid() && Target(buf, chain) && buf.totalLen + |data| <= SIZE_MAX && chain in buf.store.cells
    modifies buf, buf.store
    ensures r == if |data| > MAX_CHAIN_DATA then -1 else 0
    ensures Appended(buf, if r == 0 then data else [])
    ensures |data| <= old(buf.store.cells[chain].SpaceLen()) ==>
              && buf.chains == old(buf.chains) && chain in buf.store.cells
              && buf.store.cells[chain].SpaceLen() == old(buf.store.cells[chain].SpaceLen()) - |data|
  {
    hide Inv, Flatten, Owns, Chain.Holds;
    ghost var m, v := buf.store.cells, buf.Vw();
    TargetFacts(m, v, chain);
    var c := buf.store.cells[chain];
    var remain := |c.mem| - c.misalign - c.off;
    if remain >= |data| {
      AppendHere(buf, chain, data);
      r := 0;
    } else if ShouldRealign(c, |data|) {
      AlignHere(buf, chain);
      ghost var m1, v1 := buf.store.cells, buf.Vw();
      AppendHere(buf, chain, data);
      OwnsTrans(m, v.ps, m1, v1.ps, buf.store.cells, buf.chains);
      r := 0;
    } else {
      r := AddNewChain(buf, chain, data, remain);
    }
  }

  // The buffer has one chain, with so much space.
  ghost predicate OneChain(buf: EvBuffer, space: nat)
    reads buf, buf.store
  {
    |buf.chains| == 1 && buf.chains[0] in buf.store.cells && buf.store.cells[buf.chains[0]].SpaceLen() == space
  }

  // evbuffer_add
  method Add(buf: EvBuffer, data: seq<Byte>) returns (r: int)
    requires buf.Valid()
    modifies buf, buf.store
    ensures r == if |data| > SIZE_MAX - old(buf.totalLen) || |data| > MAX_CHAIN_DATA then -1 else 0
    ensures Appended(buf, if r == 0 then data else [])
    ensures r == 0 && old(buf.chains) == [] ==> OneChain(buf, ChainCapacity(|data|) - |data|)
  {
    hide InvBody, Flatten, Owns, Chain.Holds;
    ghost var m, v := buf.store.cells, buf.Vw();
    LwdFacts(m, v);
    OwnsSelf(m, v.ps);
    if |data| > SIZE_MAX - buf.totalLen {
      return -1;
    }
    var chain := buf.Deref(buf.lastWithDatap);
    if chain == NULL {
      chain := buf.last;
    }
    if chain == NULL {
      chain := buf.store.ChainNew(|data|);
      if chain == NULL {
        return -1;
      }
      ghost var m1 := buf.store.cells;
      NewChain(m, v, chain, m1[chain]);
      HoldsOff(m1[chain], []);
      ChainInsert(buf, chain, []);
      ghost var m2, v2 := buf.store.cells, buf.Vw();
      OwnsTrans(m, v.ps, m1, v.ps + [chain], m2, v2.ps);
      r := AddToChain(buf, chain, data);
      OwnsTrans(m, v.ps, m2, v2.ps, buf.store.cells, buf.chains);
    } else {
      r := AddToChain(buf, chain, data);
    }
  }
}
