/** Removing bytes from the front of an evbuffer. */
module EvBufferDrain {
  import opened Bytes
  import opened Pointers
  import opened EvBufferCore
  import opened EvBufferLayout

  lemma SetStep(m: Cells, ps: seq<Ptr>, k: nat)
    requires k < |ps|
    ensures m - Elems(ps[..k]) - {ps[k]} == m - Elems(ps[..k + 1])
  {
    assert ps[..k + 1] == ps[..k] + [ps[k]];
  }

  // Where last_with_datap points after the first k chains are gone.
  ghost function LwdAfter(v: View, k: nat): Link
    requires v.nd <= |v.ps|
  {
    if k + 1 >= v.nd then First else LinkTo(v.ps, v.nd - 1)
  }

  // One turn of the loop of evbuffer_drain, as far as last_with_datap is concerned.
  lemma LwdStep(m: Cells, v: View, k: nat)
    requires Inv(m, v) && k + 1 < v.nd
    ensures v.ps[k] != v.ps[v.nd - 1]
    ensures NextOf(v.ps[k]) == LwdAfter(v, k) <==> k + 2 == v.nd
    ensures LwdAfter(v, k).NextOf? && LwdAfter(v, k).chain in m && LwdAfter(v, k).chain !in v.ps[..k]
    ensures m[LwdAfter(v, k).chain].next == v.ps[v.nd - 1]
    ensures k + 2 == v.nd ==> LwdAfter(v, k + 1) == First
    ensures k + 2 < v.nd ==> LwdAfter(v, k + 1) == LwdAfter(v, k)
  {
  }

  // The loop of evbuffer_drain: frees every chain that is drained whole.
  method DropWholeChains(buf: EvBuffer, len: nat) returns (chain: Ptr, remaining: nat, ghost k: nat)
    requires buf.Valid() && len < buf.totalLen
    modifies buf`lastWithDatap, buf.store
    ensures k < buf.nd <= |buf.chains| == |buf.segs| && chain == buf.chains[k]
    ensures buf.store.cells == old(buf.store.cells) - Elems(buf.chains[..k])
    ensures len == Before(buf.segs, k) + remaining && remaining < |buf.segs[k]|
    ensures buf.lastWithDatap == LwdAfter(old(buf.Vw()), k)
  {
    hide InvBody, Flatten, Chain.Holds;
    ghost var m, v := buf.store.cells, buf.Vw();
    StartFacts(m, v);
    chain, remaining, k := buf.first, len, 0;
    assert m == m - Elems(v.ps[..0]);
    ChainFacts(m, v, k);
    while remaining >= buf.store.cells[chain].off
      invariant k < v.nd && chain == v.ps[k]
      invariant buf.store.cells == m - Elems(v.ps[..k])
      invariant len == Before(v.segs, k) + remaining
      invariant buf.lastWithDatap == LwdAfter(v, k)
      invariant chain in buf.store.cells && buf.store.cells[chain] == m[chain]
      decreases v.nd - k
    {
      ChainFacts(m, v, k);
      BeforeStep(v.segs, k);
      MoreData(m, v, k, len);
      LwdStep(m, v, k);
      var next := buf.store.cells[chain].next;
      remaining := remaining - buf.store.cells[chain].off;
      buf.lastWithDatap := if chain == buf.Deref(buf.lastWithDatap) then First else buf.lastWithDatap;
      buf.lastWithDatap := if NextOf(chain) == buf.lastWithDatap then First else buf.lastWithDatap;
      SetStep(m, v.ps, k);
      buf.store.ChainFree(chain);
      chain, k := next, k + 1;
      ChainFacts(m, v, k);
    }
    ChainFacts(m, v, k);
  }

  lemma StartFacts(m: Cells, v: View)
    requires Inv(m, v) && v.total > 0
    ensures 0 < v.nd <= |v.ps| == |v.segs| && v.first == v.ps[0]
    ensures v.lwd == LwdAfter(v, 0) && Before(v.segs, 0) == 0
  {
    if v.nd == 0 { FlattenEmpty(v.segs); }
  }

  lemma MoreData(m: Cells, v: View, k: nat, len: nat)
    requires Inv(m, v) && k < v.nd && len < v.total && k < |v.segs|
    requires Before(v.segs, k + 1) <= len
    ensures k + 1 < v.nd
  {
    if k + 1 == v.nd { BeforeAll(v.segs, v.nd, k + 1); }
  }

  // The chain that is drained only in part becomes the first.
  lemma DrainInv(m: Cells, v: View, k: nat, rem: nat, len: nat, c: Chain)
    requires Inv(m, v) && k < v.nd <= |v.ps| == |v.segs| && rem < |v.segs[k]|
    requires len == Before(v.segs, k) + rem <= v.total
    requires v.ps[k] in m && c == m[v.ps[k]].(misalign := m[v.ps[k]].misalign + rem, off := |v.segs[k]| - rem)
    ensures var m' := (m - Elems(v.ps[..k]))[v.ps[k] := c];
            var v' := View(v.ps[k], v.last, LwdAfter(v, k), v.total - len,
                           v.ps[k..], v.segs[k..][0 := v.segs[k][rem..]], v.nd - k);
            Inv(m', v') && Owns(m, v.ps, m', v'.ps)
    ensures len <= |Flatten(v.segs)| && Flatten(v.segs[k..][0 := v.segs[k][rem..]]) == Flatten(v.segs)[len..]
  {
    hide Chain.Holds, Flatten, Owns, ListFrom, AllHold;
    DrainShape(m, v, k, rem, c);
    DrainFlatten(v.segs, k, rem);
  }

  lemma DrainShape(m: Cells, v: View, k: nat, rem: nat, c: Chain)
    requires Inv(m, v) && k < |v.ps| == |v.segs| && rem <= |v.segs[k]|
    requires v.ps[k] in m && c == m[v.ps[k]].(misalign := m[v.ps[k]].misalign + rem, off := |v.segs[k]| - rem)
    ensures var m' := (m - Elems(v.ps[..k]))[v.ps[k] := c];
            && ListFrom(m', v.ps[k], v.ps[k..]) && AllHold(m', v.ps[k..], v.segs[k..][0 := v.segs[k][rem..]])
            && Owns(m, v.ps, m', v.ps[k..])
  {
    hide Chain.Holds, Flatten, Owns, ListFrom, AllHold;
    ChainFacts(m, v, k);
    DropHolds(m[v.ps[k]], v.segs[k], rem);
    var m1 := m - Elems(v.ps[..k]);
    DrainOwns(m, v, k, c);
    ListSuffix(m, v.first, v.ps, k);
    AllHoldSplit(m, v.ps, v.segs, k);
    SuffixKept(m, v, k);
    AllHoldFrame(m, m1, v.ps[k..], v.segs[k..]);
    ListFrame(m, m1, v.ps[k], v.ps[k..]);
    ListPut(m1, v.ps[k], v.ps[k..], v.ps[k], c);
    ListDistinct(m1, v.ps[k], v.ps[k..]);
    AllHoldPut(m1, v.ps[k..], v.segs[k..], 0, c, v.segs[k][rem..]);
  }

  lemma ListDistinct(m: Cells, head: Ptr, ps: seq<Ptr>)
    requires ListFrom(m, head, ps)
    ensures Distinct(ps)
  {
  }

  lemma DropHolds(c: Chain, s: seq<Byte>, n: nat)
    requires c.Holds(s) && n <= |s|
    ensures c.(misalign := c.misalign + n, off := |s| - n).Holds(s[n..])
  {
  }

  lemma SuffixKept(m: Cells, v: View, k: nat)
    requires Inv(m, v) && k < |v.ps|
    ensures var m1 := m - Elems(v.ps[..k]);
            && v.ps[k] in m1 && m1[v.ps[k]] == m[v.ps[k]]
            && forall i :: 0 <= i < |v.ps[k..]| ==> v.ps[k..][i] in m1 && m1[v.ps[k..][i]] == m[v.ps[k..][i]]
  {
  }

  lemma DrainOwns(m: Cells, v: View, k: nat, c: Chain)
    requires Inv(m, v) && k < |v.ps|
    ensures Owns(m, v.ps, (m - Elems(v.ps[..k]))[v.ps[k] := c], v.ps[k..])
  {
    assert v.ps == v.ps[..k] + v.ps[k..];
    assert v.ps[k..][0] == v.ps[k];
  }

  lemma DrainFlatten(segs: seq<seq<Byte>>, k: nat, rem: nat)
    requires k < |segs| && rem <= |segs[k]|
    ensures Before(segs, k) + rem <= |Flatten(segs)|
    ensures Flatten(segs[k..][0 := segs[k][rem..]]) == Flatten(segs)[Before(segs, k) + rem..]
  {
    FlattenSplit(segs, k);
    var t := segs[k..][0 := segs[k][rem..]];
    assert t[1..] == segs[k + 1..];
  }

  // What removing bytes from the front promises.
  twostate predicate Drained(buf: EvBuffer, len: nat)
    reads buf, buf.store
  {
    && buf.Valid()
    && len <= |old(buf.Contents())| && buf.Contents() == old(buf.Contents())[len..]
    && Owns(old(buf.store.cells), old(buf.chains), buf.store.cells, buf.chains)
  }

  // The first branch of evbuffer_drain: frees everything.
  method DrainAll(buf: EvBuffer)
    requires buf.Valid()
    modifies buf, buf.store
    ensures buf.Valid() && buf.Contents() == [] && buf.chains == [] && buf.totalLen == 0
    ensures Owns(old(buf.store.cells), old(buf.chains), buf.store.cells, buf.chains)
  {
    hide AllHold, Flatten, DataThenEmpty;
    ghost var m, v := buf.store.cells, buf.Vw();
    buf.store.FreeAllChains(buf.first, v.ps);
    ZeroChain(buf);
  }

  // ZERO_CHAIN
  method ZeroChain(buf: EvBuffer)
    modifies buf
    ensures buf.Valid() && buf.Contents() == [] && buf.Vw() == View(NULL, NULL, First, 0, [], [], 0)
  {
    buf.first, buf.last, buf.lastWithDatap, buf.totalLen := NULL, NULL, First, 0;
    buf.chains, buf.segs, buf.nd := [], [], 0;
  }

  // The second branch of evbuffer_drain.
  method DrainSome(buf: EvBuffer, len: nat)
    requires buf.Valid() && len < buf.totalLen
    modifies buf, buf.store
    ensures Drained(buf, len)
  {
    hide InvBody, Flatten, Owns, Chain.Holds;
    ghost var m, v := buf.store.cells, buf.Vw();
    var chain, remaining, k := DropWholeChains(buf, len);
    ChainFacts(m, v, k);
    buf.totalLen := buf.totalLen - len;
    buf.first := chain;
    SuffixKept(m, v, k);
    var c := buf.store.cells[chain];
    var c' := c.(misalign := c.misalign + remaining, off := c.off - remaining);
    DrainInv(m, v, k, remaining, len, c');
    buf.store.cells := buf.store.cells[chain := c'];
    buf.chains, buf.segs, buf.nd := v.ps[k..], v.segs[k..][0 := v.segs[k][remaining..]], v.nd - k;
  }

  // evbuffer_drain
  method Drain(buf: EvBuffer, len: nat) returns (r: int)
    requires buf.Valid()
    modifies buf, buf.store
    ensures r == 0 && Drained(buf, Min(len, old(buf.totalLen)))
  {
    hide InvBody, Flatten, Owns, Chain.Holds;
    ghost var m, v := buf.store.cells, buf.Vw();
    TotalFacts(m, v);
    OwnsSelf(m, v.ps);
    r := 0;
    if buf.totalLen == 0 {
      return;
    }
    if len >= buf.totalLen {
      DrainAll(buf);
    } else {
      DrainSome(buf, len);
    }
  }
}
