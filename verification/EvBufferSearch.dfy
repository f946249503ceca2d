/** Substring search across chains. */
module EvBufferSearch {
  import opened Bytes
  import opened Pointers
  import opened EvBufferCore
  import opened EvBufferLayout
  import opened EvBufferPos
  import opened EvBufferScan

  ghost predicate Occurs(s: seq<Byte>, what: seq<Byte>, p: nat) {
    p + |what| <= |s| && s[p..p + |what|] == what
  }

  // Naive substring search: r is the least position from `from` on where `what` occurs and ends by
  // `end`, or -1 when there is none.
  ghost predicate IsFound(s: seq<Byte>, what: seq<Byte>, from: nat, end: int, r: int) {
    if r == -1 then
      forall p: nat :: from <= p && p + |what| <= end ==> !Occurs(s, what, p)
    else
      && from <= r && r + |what| <= end && Occurs(s, what, r)
      && forall p: nat :: from <= p < r ==> !Occurs(s, what, p)
  }

  function Memcmp(a: seq<Byte>, b: seq<Byte>): (r: int)
    requires |a| == |b|
    ensures r == 0 <==> a == b
  {
    if a == [] then 0
    else if a[0] != b[0] then a[0] as int - b[0] as int
    else
      var r := Memcmp(a[1..], b[1..]);
      assert a[1..] == b[1..] <==> a == b by {
        assert a == [a[0]] + a[1..] && b == [b[0]] + b[1..];
      }
      r
  }

  // The first n bytes of mem are in s at position `from`.
  ghost predicate Matched(s: seq<Byte>, mem: seq<Byte>, from: nat, n: nat) {
    n <= |mem| && from + n <= |s| && s[from..from + n] == mem[..n]
  }

  lemma MatchedEnds(s: seq<Byte>, mem: seq<Byte>, from: nat)
    ensures from <= |s| ==> Matched(s, mem, from, 0)
    ensures Matched(s, mem, from, |mem|) <==> Occurs(s, mem, from)
  {
  }

  // Comparing n bytes of the chain at a position with the next n bytes of mem.
  lemma CompareStep(m: Cells, v: View, it: EvPtr, k: nat, n: nat, mem: seq<Byte>, from: nat, done: nat)
    requires Inv(m, v) && Denotes(v, it, k) && k < |v.ps| && it.posInChain + n <= |v.segs[k]|
    requires it.pos == from + done && done + n <= |mem| && Matched(Flatten(v.segs), mem, from, done)
    ensures it.chain in m
    ensures var c := m[it.chain];
            && c.misalign + c.off <= |c.mem| && c.off == |v.segs[k]|
            && var i := c.misalign + it.posInChain;
            && (c.mem[i..i + n] == mem[done..done + n] ==> Matched(Flatten(v.segs), mem, from, done + n))
            && (c.mem[i..i + n] != mem[done..done + n] ==> !Occurs(Flatten(v.segs), mem, from))
  {
    hide InvBody, Flatten, Before, Denotes;
    var all := Flatten(v.segs);
    CopyStep(m, v, it, k, n, from, mem[..done]);
    var c := m[it.chain];
    var i := c.misalign + it.posInChain;
    var piece := c.mem[i..i + n];
    assert all[from..it.pos + n] == mem[..done] + piece;
    if Occurs(all, mem, from) {
      assert all[from..from + |mem|][done..done + n] == mem[done..done + n];
      assert all[from..from + |mem|][done..done + n] == all[from..it.pos + n][done..];
    }
    assert mem[..done] + mem[done..done + n] == mem[..done + n];
  }

  // evbuffer_ptr_memcmp
  method PtrMemcmp(buf: EvBuffer, at: EvPtr, mem: seq<Byte>) returns (r: int)
    requires buf.Valid() && (0 <= at.pos ==> IsPtr(buf.Vw(), at)) && |mem| <= SIZE_MAX
    ensures r == 0 <==> 0 <= at.pos && Occurs(buf.Contents(), mem, at.pos)
  {
    hide InvBody, Flatten, Chain.Holds, Denotes, Matched, Occurs;
    if at.pos < 0 {
      return -1;
    }
    ghost var m, v := buf.store.cells, buf.Vw();
    ghost var k: nat :| Denotes(v, at, k);
    AtFacts(m, v, at, k);
    MatchedEnds(buf.Contents(), mem, at.pos);
    if SIZE_MAX - |mem| < at.pos || at.pos + |mem| > buf.totalLen {
      TooFar(m, v, mem, at.pos);
      return -1;
    }
    r := CompareChains(buf, at, mem, k);
  }

  lemma TooFar(m: Cells, v: View, mem: seq<Byte>, from: nat)
    requires Inv(m, v) && (SIZE_MAX - |mem| < from || from + |mem| > v.total)
    ensures !Occurs(Flatten(v.segs), mem, from)
  {
  }

  // The loop of evbuffer_ptr_memcmp.
  method CompareChains(buf: EvBuffer, at: EvPtr, mem: seq<Byte>, ghost k0: nat) returns (r: int)
    requires buf.Valid() && Denotes(buf.Vw(), at, k0) && 0 <= at.pos && at.pos + |mem| <= |buf.Contents()|
    ensures r == 0 <==> Occurs(buf.Contents(), mem, at.pos)
  {
    hide InvBody, Flatten, Chain.Holds, Denotes, Matched, Occurs;
    ghost var m, v := buf.store.cells, buf.Vw();
    ghost var k := k0;
    AtFacts(m, v, at, k);
    MatchedEnds(buf.Contents(), mem, at.pos);
    var chain, position: nat, done: nat := at.chain, at.posInChain, 0;
    while done < |mem| && chain != NULL
      invariant done <= |mem| && Matched(Flatten(v.segs), mem, at.pos, done) && k <= |v.ps|
      invariant done < |mem| ==> Denotes(v, EvPtr(at.pos + done, chain, position), k)
      decreases |v.ps| - k
    {
      AtFacts(m, v, EvPtr(at.pos + done, chain, position), k);
      var c := buf.store.cells[chain];
      var n := if |mem| - done + position > c.off then c.off - position else |mem| - done;
      CompareStep(m, v, EvPtr(at.pos + done, chain, position), k, n, mem, at.pos, done);
      r := Memcmp(c.mem[c.misalign + position..c.misalign + position + n], mem[done..done + n]);
      if r != 0 {
        return r;
      }
      done := done + n;
      position, chain, k := 0, c.next, k + 1;
    }
    if done < |mem| {
      AtEnd(m, v, EvPtr(at.pos + done, chain, position), k);
    }
    return 0;
  }

  // What one memchr says about occurrences.
  lemma SearchStep(m: Cells, v: View, it: EvPtr, k: nat, what: seq<Byte>, from: nat, hit: int)
    requires Inv(m, v) && Denotes(v, it, k) && k < |v.ps| == |v.segs| && it.posInChain <= |v.segs[k]|
    requires 0 <= from <= it.pos <= |Flatten(v.segs)| && what != []
    requires NoneUpTo(Flatten(v.segs), what, from, it.pos)
    requires IsFirstOf(v.segs[k][it.posInChain..], 0, {what[0]}, hit)
    ensures var reach := if hit == -1 then it.pos + |v.segs[k]| - it.posInChain else it.pos + hit;
            0 <= reach && NoneUpTo(Flatten(v.segs), what, from, reach)
    ensures hit != -1 ==> && 0 <= hit < |v.segs[k]| - it.posInChain
                          && Denotes(v, EvPtr(it.pos + hit, it.chain, it.posInChain + hit), k)
                          && Denotes(v, EvPtr(it.pos + hit + 1, it.chain, it.posInChain + hit + 1), k)
  {
    hide InvBody, Flatten, Before;
    var i := it.posInChain;
    var rest := v.segs[k][i..];
    ChainSlice(v.segs, k, i, |v.segs[k]|);
    var all := Flatten(v.segs);
    assert rest == v.segs[k][i..|v.segs[k]|];
    var reach := if hit == -1 then it.pos + |rest| else it.pos + hit;
    assert 0 <= reach;
    forall p: nat | it.pos <= p < reach ensures !Occurs(all, what, p) {
      assert all[it.pos..it.pos + |rest|][p - it.pos] == all[p];
      assert all[p] != what[0];
      if Occurs(all, what, p) { assert false; }
    }
  }

  // evbuffer_search_range and, with end None, evbuffer_search
  method SearchRange(buf: EvBuffer, what: seq<Byte>, start: EvPtr, end: Option<EvPtr>) returns (it: EvPtr)
    requires buf.Valid() && IsPtr(buf.Vw(), start) && (end.Some? ==> IsPtr(buf.Vw(), end.value))
    requires |what| <= SIZE_MAX
    ensures |what| == 0 || |what| > SSIZE_MAX ==> it == start
    ensures 0 < |what| <= SSIZE_MAX ==>
              var limit := if end.Some? then end.value.pos else |buf.Contents()|;
              && 0 <= start.pos && IsFound(buf.Contents(), what, start.pos, limit, it.pos)
              && (if it.pos == -1 then it == NOT_FOUND else IsPtr(buf.Vw(), it))
  {
    hide InvBody, Flatten, Chain.Holds, Denotes, Occurs, IsFound, NoneUpTo, IsFirstOf;
    ghost var m, v := buf.store.cells, buf.Vw();
    var lastChain := if end.Some? then end.value.chain else NULL;
    if |what| == 0 || |what| > SSIZE_MAX {
      return start;
    }
    ghost var k: nat :| Denotes(v, start, k);
    AtFacts(m, v, start, k);
    ghost var all := Flatten(v.segs);
    ghost var limit := if end.Some? then end.value.pos else |all|;
    if end.Some? { EndBounded(m, v, end.value); }
    NoneYet(all, what, start.pos);
    var chain, i: nat, pos: nat := start.chain, start.posInChain, start.pos;
    while chain != NULL
      invariant Denotes(v, EvPtr(pos, chain, i), k) && k <= |v.ps|
      invariant start.pos <= pos <= v.total == |all| && NoneUpTo(all, what, start.pos, pos)
      decreases v.total - pos, |v.ps| - k
    {
      AtFacts(m, v, EvPtr(pos, chain, i), k);
      RestOf(m, v, EvPtr(pos, chain, i), k);
      var c := buf.store.cells[chain];
      var p := Memchr(c.mem[c.misalign + i..c.misalign + c.off], what[0]);
      SearchStep(m, v, EvPtr(pos, chain, i), k, what, start.pos, p);
      if p != -1 {
        pos, i := pos + p, i + p;
        AtFacts(m, v, EvPtr(pos, chain, i), k);
        var r := PtrMemcmp(buf, EvPtr(pos, chain, i), what);
        if r == 0 {
          FoundAt(all, what, start.pos, limit, pos);
          if end.Some? && pos + |what| > end.value.pos {
            return NOT_FOUND;
          }
          return EvPtr(pos, chain, i);
        }
        NoneStep(all, what, start.pos, pos);
        pos, i := pos + 1, i + 1;
        AtFacts(m, v, EvPtr(pos, chain, i), k);
        if i == c.off {
          chain, i, k := c.next, 0, k + 1;
        }
      } else {
        if chain == lastChain {
          EndInChain(m, v, EvPtr(pos, chain, i), k, end.value);
          FoundNone(all, what, start.pos, limit, pos + c.off - i);
          return NOT_FOUND;
        }
        pos := pos + c.off - i;
        chain, i, k := c.next, 0, k + 1;
      }
    }
    AtEnd(m, v, EvPtr(pos, chain, i), k);
    FoundNone(all, what, start.pos, limit, pos);
    return NOT_FOUND;
  }

  // `what` does not occur at any position from `from` on that is before `reach`.
  ghost predicate NoneUpTo(s: seq<Byte>, what: seq<Byte>, from: nat, reach: nat) {
    forall p: nat :: from <= p < reach ==> !Occurs(s, what, p)
  }

  lemma NoneYet(s: seq<Byte>, what: seq<Byte>, from: nat)
    ensures NoneUpTo(s, what, from, from)
  {
  }

  lemma NoneStep(s: seq<Byte>, what: seq<Byte>, from: nat, p: nat)
    requires NoneUpTo(s, what, from, p) && !Occurs(s, what, p)
    ensures NoneUpTo(s, what, from, p + 1)
  {
    hide Occurs;
  }

  lemma FoundAt(s: seq<Byte>, what: seq<Byte>, from: nat, limit: int, p: nat)
    requires NoneUpTo(s, what, from, p) && Occurs(s, what, p) && from <= p
    ensures p + |what| <= |s|
    ensures p + |what| <= limit ==> IsFound(s, what, from, limit, p)
    ensures p + |what| > limit ==> IsFound(s, what, from, limit, -1)
  {
  }

  lemma FoundNone(s: seq<Byte>, what: seq<Byte>, from: nat, limit: int, reach: nat)
    requires NoneUpTo(s, what, from, reach) && limit <= reach && what != []
    ensures IsFound(s, what, from, limit, -1)
  {
  }

  lemma EndBounded(m: Cells, v: View, end: EvPtr)
    requires Inv(m, v) && IsPtr(v, end)
    ensures end.pos <= |Flatten(v.segs)|
  {
    var k: nat :| Denotes(v, end, k);
    AtFacts(m, v, end, k);
  }

  // A bound in the same chain lies at or before the end of that chain's bytes.
  lemma EndInChain(m: Cells, v: View, it: EvPtr, k: nat, end: EvPtr)
    requires Inv(m, v) && Denotes(v, it, k) && IsPtr(v, end) && it.chain == end.chain && it.chain != NULL
    ensures k < |v.ps| == |v.segs| && end.pos <= it.pos + |v.segs[k]| - it.posInChain
  {
    var j: nat :| Denotes(v, end, j);
    AtFacts(m, v, it, k);
    AtFacts(m, v, end, j);
    ChainFacts(m, v, k);
    ChainFacts(m, v, j);
  }
}
