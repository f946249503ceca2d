/** evbuffer_prepend. */
module EvBufferPrepend {
  import opened Bytes
  import opened Pointers
  import opened EvBufferCore
  import opened EvBufferLayout
  import opened EvBufferAdd

  // How many bytes fit in front of the first chain's bytes; an empty chain counts whole.
  ghost function FrontRoom(buf: EvBuffer): nat
    reads buf, buf.store
  {
    if buf.first == NULL || buf.first !in buf.store.cells then 0
    else
      var c := buf.store.cells[buf.first];
      if c.off == 0 then |c.mem| else c.misalign
  }

  // What every prepend promises.
  twostate predicate Prepended(buf: EvBuffer, data: seq<Byte>)
    reads buf, buf.store
  {
    && buf.Valid()
    && buf.Contents() == data + old(buf.Contents())
    && buf.totalLen == old(buf.totalLen) + |data|
    && Owns(old(buf.store.cells), old(buf.chains), buf.store.cells, buf.chains)
  }

  // An empty first chain is turned over, so that all of its memory is in front of its data.
  method MakeFrontRoom(buf: EvBuffer)
    requires buf.Valid() && buf.chains != []
    modifies buf, buf.store
    ensures Prepended(buf, []) && buf.chains == old(buf.chains) && buf.first == old(buf.first)
    ensures buf.first in buf.store.cells && buf.store.cells[buf.first].misalign == old(FrontRoom(buf))
    ensures FrontRoom(buf) == old(FrontRoom(buf))
  {
    hide InvBody, Flatten, Owns, Chain.Holds;
    ghost var m, v := buf.store.cells, buf.Vw();
    LwdFacts(m, v);
    FirstFacts(m, v);
    var c := buf.store.cells[buf.first];
    OwnsSelf(m, v.ps);
    if c.off == 0 {
      HoldsEmpty(c, |c.mem|);
      assert [] + v.segs[0] == [] && v.segs[0 := []] == v.segs;
      ExtendFirst(m, v, c.(misalign := |c.mem|), []);
      buf.store.cells := buf.store.cells[buf.first := c.(misalign := |c.mem|)];
    }
  }

  lemma FirstFacts(m: Cells, v: View)
    requires Inv(m, v) && v.ps != []
    ensures v.segs != [] && v.first == v.ps[0] != NULL && v.first in m && m[v.first].Holds(v.segs[0])
    ensures m[v.first].off == |v.segs[0]| && 0 < |m[v.first].mem|
    ensures m[v.first].misalign + m[v.first].off <= |m[v.first].mem| <= MAX_CHAIN_DATA
    ensures v.nd == 0 <==> v.segs[0] == []
  {
  }

  lemma HoldsEmpty(c: Chain, n: nat)
    requires c.Holds([]) && n <= |c.mem|
    ensures c.(misalign := n).Holds([])
  {
  }

  // Writes data in front of the first chain's bytes.
  method PushFront(buf: EvBuffer, data: seq<Byte>)
    requires buf.Valid() && buf.chains != [] && buf.first in buf.store.cells
    requires |data| <= buf.store.cells[buf.first].misalign && buf.totalLen + |data| <= SIZE_MAX
    modifies buf, buf.store
    ensures Prepended(buf, data) && buf.chains == old(buf.chains) && buf.first == old(buf.first)
    ensures buf.nd == if old(buf.nd) == 0 && data != [] then 1 else old(buf.nd)
  {
    hide InvBody, Flatten, Owns, Chain.Holds;
    ghost var m, v := buf.store.cells, buf.Vw();
    FirstFacts(m, v);
    var c := buf.store.cells[buf.first];
    PushFrontHolds(c, v.segs[0], data);
    var c' := c.(mem := Write(c.mem, c.misalign - |data|, data), off := c.off + |data|,
      misalign := c.misalign - |data|);
    ExtendFirst(m, v, c', data);
    buf.store.cells := buf.store.cells[buf.first := c'];
    buf.totalLen := buf.totalLen + |data|;
    buf.segs := buf.segs[0 := data + buf.segs[0]];
    buf.nd := if v.nd == 0 && data != [] then 1 else v.nd;
  }

  // Puts data into a new first chain, at the end of its memory.
  method PrependChain(buf: EvBuffer, data: seq<Byte>) returns (r: int)
    requires buf.Valid() && buf.nd > 0 && data != [] && buf.totalLen + |data| <= SIZE_MAX
    modifies buf, buf.store
    ensures r == if |data| > MAX_CHAIN_DATA then -1 else 0
    ensures Prepended(buf, if r == 0 then data else [])
  {
    hide InvBody, Flatten, Owns, Chain.Holds;
    ghost var m, v := buf.store.cells, buf.Vw();
    var chain := buf.first;
    var tmp := buf.store.ChainNew(|data|);
    if tmp == NULL {
      OwnsSelf(m, v.ps);
      return -1;
    }
    ghost var m1 := buf.store.cells;
    NewChain(m, v, tmp, m1[tmp]);
    var c := buf.store.cells[tmp];
    FilledHolds(c, chain, data);
    buf.first := tmp;
    if buf.lastWithDatap == First {
      buf.lastWithDatap := NextOf(tmp);
    }
    var at := |c.mem| - |data|;
    buf.store.cells := buf.store.cells[tmp := Chain(chain, Write(c.mem, at, data), at, |data|)];
    ghost var m2 := buf.store.cells;
    PutBystander(m1, v, tmp, m2[tmp]);
    PrependInv(m2, v, tmp, data);
    OwnsTrans(m1, v.ps + [tmp], m2, v.ps + [tmp], m2, [tmp] + v.ps);
    OwnsTrans(m, v.ps, m1, v.ps + [tmp], m2, [tmp] + v.ps);
    buf.totalLen := buf.totalLen + |data|;
    buf.chains, buf.segs, buf.nd := [tmp] + buf.chains, [data] + buf.segs, buf.nd + 1;
    r := 0;
  }

  lemma FilledHolds(c: Chain, next: Ptr, data: seq<Byte>)
    requires c.Holds([]) && |data| <= |c.mem|
    ensures Chain(next, Write(c.mem, |c.mem| - |data|, data), |c.mem| - |data|, |data|).Holds(data)
  {
  }

  // evbuffer_prepend once a chain is there
  method PrependToChain(buf: EvBuffer, data: seq<Byte>) returns (r: int)
    requires buf.Valid() && buf.chains != [] && buf.totalLen + |data| <= SIZE_MAX
    modifies buf, buf.store
    ensures r == if |data| - old(FrontRoom(buf)) > MAX_CHAIN_DATA then -1 else 0
    ensures r == -1 ==> Prepended(buf, data[|data| - old(FrontRoom(buf))..])
    ensures r == 0 ==> Prepended(buf, data)
  {
    hide Inv, Flatten, Owns, Chain.Holds;
    ghost var m, v := buf.store.cells, buf.Vw();
    FirstFacts(m, v);
    MakeFrontRoom(buf);
    ghost var m1, v1 := buf.store.cells, buf.Vw();
    var room := buf.store.cells[buf.first].misalign;
    if room >= |data| {
      PushFront(buf, data);
      OwnsTrans(m, v.ps, m1, v1.ps, buf.store.cells, buf.chains);
      return 0;
    }
    var rest := |data| - room;
    FirstFacts(m1, v1);
    PushFront(buf, data[rest..]);
    ghost var m2, v2 := buf.store.cells, buf.Vw();
    OwnsTrans(m, v.ps, m1, v1.ps, m2, v2.ps);
    r := PrependChain(buf, data[..rest]);
    OwnsTrans(m, v.ps, m2, v2.ps, buf.store.cells, buf.chains);
    assert data[..rest] + data[rest..] == data;
    assert [] + data[rest..] == data[rest..];
  }

  // evbuffer_prepend.  It is not atomic: when no chain can be allocated for the rest, the bytes
  // that fitted in front of the first chain stay in the buffer.
  method Prepend(buf: EvBuffer, data: seq<Byte>) returns (r: int)
    requires buf.Valid()
    modifies buf, buf.store
    ensures r == if |data| > SIZE_MAX - old(buf.totalLen) || |data| - old(FrontRoom(buf)) > MAX_CHAIN_DATA then -1 else 0
    ensures r == 0 ==> Prepended(buf, data)
    ensures r == -1 ==> Prepended(buf, if |data| > SIZE_MAX - old(buf.totalLen) then []
                                       else data[|data| - old(FrontRoom(buf))..])
  {
    hide InvBody, Flatten, Owns, Chain.Holds;
    ghost var m, v := buf.store.cells, buf.Vw();
    LwdFacts(m, v);
    OwnsSelf(m, v.ps);
    if |data| > SIZE_MAX - buf.totalLen {
      return -1;
    }
    if buf.first == NULL {
      var chain := buf.store.ChainNew(|data|);
      if chain == NULL {
        return -1;
      }
      ghost var m1 := buf.store.cells;
      NewChain(m, v, chain, m1[chain]);
      ChainInsert(buf, chain, []);
      ghost var m2, v2 := buf.store.cells, buf.Vw();
      OwnsTrans(m, v.ps, m1, v.ps + [chain], m2, v2.ps);
      r := PrependToChain(buf, data);
      OwnsTrans(m, v.ps, m2, v2.ps, buf.store.cells, buf.chains);
    } else {
      r := PrependToChain(buf, data);
    }
  }
}
