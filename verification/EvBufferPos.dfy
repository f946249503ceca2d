/** Positions inside an evbuffer (struct evbuffer_ptr) and reading from them. */
module EvBufferPos {
  import opened Bytes
  import opened Pointers
  import opened EvBufferCore
  import opened EvBufferLayout

  // struct evbuffer_ptr: pos is -1 for "not found"
  datatype EvPtr = EvPtr(pos: int, chain: Ptr, posInChain: nat)

  const NOT_FOUND := EvPtr(-1, NULL, 0)

  // The pair (chain, posInChain) denotes the position pos: byte posInChain of chain k, or just past
  // its bytes; or the end of the buffer, written with a NULL chain.
  ghost predicate Denotes(v: View, it: EvPtr, k: nat) {
    |v.ps| == |v.segs| &&
    if k < |v.ps| then
      it.chain == v.ps[k] && it.posInChain <= |v.segs[k]| && it.pos == Before(v.segs, k) + it.posInChain
    else
      k == |v.ps| && it.chain == NULL && it.posInChain == 0 && it.pos == |Flatten(v.segs)|
  }

  ghost predicate IsPtr(v: View, it: EvPtr) {
    exists k :: Denotes(v, it, k)
  }

  // Facts about the position (k, i).
  lemma PosFacts(m: Cells, v: View, k: nat)
    requires Inv(m, v) && k <= |v.ps|
    ensures |v.ps| == |v.segs| && v.total == |Flatten(v.segs)|
    ensures Before(v.segs, 0) == 0 && Before(v.segs, |v.segs|) == v.total && Before(v.segs, k) <= v.total
    ensures k < |v.ps| ==> Before(v.segs, k + 1) == Before(v.segs, k) + |v.segs[k]| <= v.total
    ensures (if |v.ps| > 0 then v.ps[0] else NULL) == v.first
  {
    BeforeAll(v.segs, v.nd, k);
    assert v.segs[..|v.segs|] == v.segs;
    if k < |v.ps| {
      BeforeStep(v.segs, k);
      BeforeAll(v.segs, v.nd, k + 1);
    }
  }

  // The next n bytes of the chain at a position extend a copy that reaches up to it.
  lemma CopyStep(m: Cells, v: View, it: EvPtr, k: nat, n: nat, from: nat, out: seq<Byte>)
    requires Inv(m, v) && Denotes(v, it, k) && k < |v.ps| && it.posInChain + n <= |v.segs[k]|
    requires 0 <= from <= it.pos <= |Flatten(v.segs)| && out == Flatten(v.segs)[from..it.pos]
    ensures it.chain in m && it.pos + n <= |Flatten(v.segs)|
    ensures var c := m[it.chain];
            && c.misalign + c.off <= |c.mem| && c.off == |v.segs[k]|
            && var i := c.misalign + it.posInChain;
            out + c.mem[i..i + n] == Flatten(v.segs)[from..it.pos + n]
  {
    hide InvBody, Flatten, Before, Chain.Holds;
    var p := it.posInChain;
    ChainSlice(v.segs, k, p, p + n);
    ChainFacts(m, v, k);
    var c := m[it.chain];
    HoldsSlice(c, v.segs[k], p, p + n);
    JoinSlices(Flatten(v.segs), from, it.pos, it.pos + n);
  }

  lemma HoldsSlice(c: Chain, s: seq<Byte>, i: nat, j: nat)
    requires c.Holds(s) && i <= j <= |s|
    ensures c.misalign + c.off <= |c.mem| && c.off == |s|
    ensures c.mem[c.misalign + i..c.misalign + j] == s[i..j]
  {
    assert c.mem[c.misalign + i..c.misalign + j] == c.mem[c.misalign..c.misalign + c.off][i..j];
  }

  lemma JoinSlices(s: seq<Byte>, i: nat, j: nat, k: nat)
    requires i <= j <= k <= |s|
    ensures s[i..j] + s[j..k] == s[i..k]
  {
  }

  // Facts about a position and the chain it is in.
  lemma AtFacts(m: Cells, v: View, it: EvPtr, k: nat)
    requires Inv(m, v) && Denotes(v, it, k)
    ensures k <= |v.ps| == |v.segs| && v.total == |Flatten(v.segs)| && 0 <= it.pos <= v.total
    ensures it.chain != NULL <==> k < |v.ps|
    ensures it.pos < v.total ==> k < |v.ps|
    ensures k < |v.ps| ==> it.chain in m && m[it.chain].off == |v.segs[k]| && it.posInChain <= |v.segs[k]|
    ensures k < |v.ps| ==> var rest := |v.segs[k]| - it.posInChain;
                           it.pos + rest <= v.total && Denotes(v, EvPtr(it.pos + rest, m[it.chain].next, 0), k + 1)
  {
    PosFacts(m, v, k);
    if k < |v.ps| {
      ChainFacts(m, v, k);
      PosFacts(m, v, k + 1);
    }
  }

  // The loop of evbuffer_copyout_from.
  method CopyLoop(buf: EvBuffer, it: EvPtr, ghost k0: nat, datlen0: nat) returns (out: seq<Byte>)
    requires buf.Valid() && Denotes(buf.Vw(), it, k0) && 0 <= it.pos && it.pos + datlen0 <= |buf.Contents()|
    ensures out == buf.Contents()[it.pos..it.pos + datlen0]
  {
    hide InvBody, Flatten, Chain.Holds, Denotes;
    ghost var m, v, from := buf.store.cells, buf.Vw(), it.pos;
    var chain, pos: nat, datlen: nat := it.chain, it.posInChain, datlen0;
    ghost var k, cur: nat := k0, it.pos;
    out := [];
    AtFacts(m, v, it, k);
    while datlen > 0 && datlen >= buf.store.cells[chain].off - pos
      invariant Denotes(v, EvPtr(cur, chain, pos), k) && k <= |v.ps|
      invariant from <= cur <= |Flatten(v.segs)| && cur + datlen == from + datlen0
      invariant out == Flatten(v.segs)[from..cur]
      invariant datlen > 0 ==> chain in m
      decreases |v.ps| - k
    {
      AtFacts(m, v, EvPtr(cur, chain, pos), k);
      var c := buf.store.cells[chain];
      var copylen := c.off - pos;
      CopyStep(m, v, EvPtr(cur, chain, pos), k, copylen, from, out);
      out := out + c.mem[c.misalign + pos..c.misalign + pos + copylen];
      datlen := datlen - copylen;
      chain, pos := c.next, 0;
      k, cur := k + 1, cur + copylen;
      AtFacts(m, v, EvPtr(cur, chain, pos), k);
    }
    if datlen > 0 {
      var c := buf.store.cells[chain];
      AtFacts(m, v, EvPtr(cur, chain, pos), k);
      CopyStep(m, v, EvPtr(cur, chain, pos), k, datlen, from, out);
      out := out + c.mem[c.misalign + pos..c.misalign + pos + datlen];
    }
  }

  // evbuffer_copyout_from, from the position it, or from the start when pos is NULL
  method CopyOutFrom(buf: EvBuffer, from: Option<EvPtr>, datlen0: nat) returns (n: int, out: seq<Byte>)
    requires buf.Valid()
    requires from.Some? ==> IsPtr(buf.Vw(), from.value)
    ensures from.Some? && datlen0 > SSIZE_MAX - from.value.pos ==> n == -1 && out == []
    ensures !(from.Some? && datlen0 > SSIZE_MAX - from.value.pos) ==>
              var at := if from.Some? then from.value.pos else 0;
              && 0 <= at <= |buf.Contents()|
              && n == Min(datlen0, |buf.Contents()| - at)
              && out == buf.Contents()[at..at + n]
  {
    hide InvBody, Flatten, Chain.Holds, Before;
    ghost var m, v := buf.store.cells, buf.Vw();
    var it, datlen := EvPtr(0, buf.first, 0), datlen0;
    ghost var k: nat := 0;
    PosFacts(m, v, 0);
    if from.Some? {
      k :| Denotes(v, from.value, k);
      PosFacts(m, v, k);
      if datlen > SSIZE_MAX - from.value.pos {
        return -1, [];
      }
      it := from.value;
      if datlen + from.value.pos > buf.totalLen {
        datlen := buf.totalLen - from.value.pos;
      }
    } else if datlen > buf.totalLen {
      datlen := buf.totalLen;
    }
    out := CopyLoop(buf, it, k, datlen);
    n := datlen;
  }
}
