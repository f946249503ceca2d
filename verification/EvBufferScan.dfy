/** Scanning an evbuffer for bytes: memchr, the chunked end-of-line scan, and walking the chains. */
module EvBufferScan {
  import opened Bytes
  import opened Pointers
  import opened EvBufferCore
  import opened EvBufferLayout
  import opened EvBufferPos

  const CR: Byte := 13
  const LF: Byte := 10
  const CHUNK_SZ: nat := 128

  // r is the first index from `from` on whose byte is in chars, or -1 when there is none.
  ghost predicate IsFirstOf(s: seq<Byte>, from: nat, chars: set<Byte>, r: int) {
    if r == -1 then
      forall j :: from <= j < |s| ==> s[j] !in chars
    else
      from <= r < |s| && s[r] in chars && forall j :: from <= j < r ==> s[j] !in chars
  }

  // memchr over a whole block
  method Memchr(s: seq<Byte>, chr: Byte) returns (r: int)
    ensures IsFirstOf(s, 0, {chr}, r)
  {
    for i := 0 to |s|
      invariant forall j :: 0 <= j < i ==> s[j] != chr
    {
      if s[i] == chr {
        return i;
      }
    }
    return -1;
  }

  // find_eol_char: two memchrs over each chunk of 128 bytes
  method FindEolChar(s: seq<Byte>) returns (r: int)
    ensures IsFirstOf(s, 0, {CR, LF}, r)
  {
    var at := 0;
    while at < |s|
      invariant 0 <= at
      invariant forall j :: 0 <= j < at && j < |s| ==> s[j] !in {CR, LF}
    {
      var chunk := if at + CHUNK_SZ < |s| then CHUNK_SZ else |s| - at;
      var block := s[at..at + chunk];
      var cr := Memchr(block, CR);
      var lf := Memchr(block, LF);
      assert forall j :: at <= j < at + chunk ==> s[j] == block[j - at];
      if cr != -1 {
        if lf != -1 && lf < cr {
          return at + lf;
        }
        return at + cr;
      } else if lf != -1 {
        return at + lf;
      }
      at := at + CHUNK_SZ;
    }
    return -1;
  }

  // The position is that of a byte, not just past a chain's bytes.
  predicate OnByte(buf: EvBuffer, it: EvPtr)
    reads buf.store
  {
    it.chain != NULL && it.chain in buf.store.cells && it.posInChain < buf.store.cells[it.chain].off
  }

  // evbuffer_ptr_set, with how being EVBUFFER_PTR_SET or EVBUFFER_PTR_ADD
  datatype How = Set | Add

  // The walk of evbuffer_ptr_set: `left` bytes on from byte `position` of chain k.
  method PtrWalk(buf: EvBuffer, pos: int, chain0: Ptr, position0: nat, ghost k0: nat, left0: nat) returns (r: int, it: EvPtr)
    requires buf.Valid() && Denotes(buf.Vw(), EvPtr(pos - left0, chain0, position0), k0)
    ensures r == if pos <= |buf.Contents()| then 0 else -1
    ensures r == 0 ==> IsPtr(buf.Vw(), it) && it.pos == pos
    ensures r == 0 && pos < |buf.Contents()| ==> OnByte(buf, it)
    ensures r == 0 && pos == |buf.Contents()| ==> it.chain == NULL
    ensures r == -1 ==> it == NOT_FOUND
  {
    hide InvBody, Flatten, Chain.Holds, Before;
    ghost var m, v := buf.store.cells, buf.Vw();
    var chain, position: nat, left: nat := chain0, position0, left0;
    ghost var k: nat := k0;
    PosFacts(m, v, k);
    if k < |v.ps| { ChainFacts(m, v, k); }
    while chain != NULL && position + left >= buf.store.cells[chain].off
      invariant Denotes(v, EvPtr(pos - left, chain, position), k)
      invariant chain != NULL ==> k < |v.ps| && chain in m && m[chain].off == |v.segs[k]|
      decreases |v.ps| - k
    {
      PosFacts(m, v, k);
      ChainFacts(m, v, k);
      left := left - (buf.store.cells[chain].off - position);
      chain := buf.store.cells[chain].next;
      position := 0;
      k := k + 1;
      PosFacts(m, v, k);
      if k < |v.ps| { ChainFacts(m, v, k); }
    }
    PosFacts(m, v, k);
    if k < |v.ps| { ChainFacts(m, v, k); }
    if chain != NULL {
      it := EvPtr(pos, chain, position + left);
      assert Denotes(v, it, k);
      r := 0;
    } else if left == 0 {
      it := EvPtr(pos, NULL, 0);
      assert Denotes(v, it, k);
      r := 0;
    } else {
      it := NOT_FOUND;
      r := -1;
    }
  }

  method PtrSet(buf: EvBuffer, at: EvPtr, position: nat, how: How) returns (r: int, it: EvPtr)
    requires buf.Valid()
    requires how == Add && 0 <= at.pos ==> IsPtr(buf.Vw(), at)
    ensures how == Add && (at.pos < 0 || SIZE_MAX - position < at.pos) ==> r == -1 && it == at
    ensures how == Set || (0 <= at.pos && at.pos + position <= SIZE_MAX) ==>
              var target := if how == Set then position else at.pos + position;
              && r == (if target <= |buf.Contents()| then 0 else -1)
              && (r == 0 ==> IsPtr(buf.Vw(), it) && it.pos == target)
              && (r == 0 && target < |buf.Contents()| ==> OnByte(buf, it))
              && (r == -1 ==> it == NOT_FOUND)
  {
    hide InvBody, Flatten, Chain.Holds, Before;
    ghost var m, v := buf.store.cells, buf.Vw();
    PosFacts(m, v, 0);
    match how
    case Set =>
      assert Denotes(v, EvPtr(0, buf.first, 0), 0);
      r, it := PtrWalk(buf, position, buf.first, 0, 0, position);
    case Add =>
      if at.pos < 0 || SIZE_MAX - position < at.pos {
        return -1, at;
      }
      ghost var k: nat :| Denotes(v, at, k);
      r, it := PtrWalk(buf, at.pos + position, at.chain, at.posInChain, k, position);
  }

  // ---------- walking the chains ----------

  // Which bytes a scan looks for: evbuffer_find_eol_char looks for CR or LF, evbuffer_strchr for one byte.
  datatype Wanted = Eol | Char(chr: Byte)

  function CharsOf(w: Wanted): set<Byte> {
    match w
    case Eol => {CR, LF}
    case Char(chr) => {chr}
  }

  // A hit or a miss in the rest of a chain, in terms of the contents.
  lemma ScanStep(m: Cells, v: View, it: EvPtr, k: nat, chars: set<Byte>, from: nat, hit: int)
    requires Inv(m, v) && Denotes(v, it, k) && k < |v.ps| == |v.segs| && it.posInChain <= |v.segs[k]|
    requires 0 <= from <= it.pos <= |Flatten(v.segs)|
    requires forall j :: from <= j < it.pos ==> Flatten(v.segs)[j] !in chars
    requires IsFirstOf(v.segs[k][it.posInChain..], 0, chars, hit)
    ensures hit != -1 ==> && IsFirstOf(Flatten(v.segs), from, chars, it.pos + hit)
                          && Denotes(v, EvPtr(it.pos + hit, it.chain, it.posInChain + hit), k)
    ensures var next := it.pos + |v.segs[k]| - it.posInChain;
            && next <= |Flatten(v.segs)|
            && (hit == -1 ==> forall j :: from <= j < next ==> Flatten(v.segs)[j] !in chars)
  {
    hide InvBody, Flatten, Before;
    var p := it.posInChain;
    var rest := v.segs[k][p..];
    ChainSlice(v.segs, k, p, |v.segs[k]|);
    var all := Flatten(v.segs);
    assert rest == v.segs[k][p..|v.segs[k]|];
    forall j | it.pos <= j < it.pos + |rest| ensures j < |all| && all[j] == rest[j - it.pos] {
      assert all[it.pos..it.pos + |rest|][j - it.pos] == all[j];
    }
  }

  // The live bytes of a chain from byte i on.
  lemma RestOf(m: Cells, v: View, it: EvPtr, k: nat)
    requires Inv(m, v) && Denotes(v, it, k) && k < |v.ps|
    ensures it.chain in m && k < |v.segs| && it.posInChain <= |v.segs[k]|
    ensures var c := m[it.chain];
            && c.misalign + c.off <= |c.mem| && c.off == |v.segs[k]|
            && c.mem[c.misalign + it.posInChain..c.misalign + c.off] == v.segs[k][it.posInChain..]
  {
    ChainFacts(m, v, k);
    hide InvBody, Flatten;
    var c := m[it.chain];
    assert c.mem[c.misalign..c.misalign + c.off][it.posInChain..] == c.mem[c.misalign + it.posInChain..c.misalign + c.off];
  }

  // evbuffer_strchr and evbuffer_find_eol_char
  method FindFrom(buf: EvBuffer, start: EvPtr, w: Wanted) returns (r: int, it: EvPtr)
    requires buf.Valid() && IsPtr(buf.Vw(), start)
    ensures IsFirstOf(buf.Contents(), start.pos, CharsOf(w), r)
    ensures r >= 0 ==> it.pos == r && IsPtr(buf.Vw(), it)
  {
    hide InvBody, Flatten, Chain.Holds, Denotes, IsFirstOf;
    ghost var m, v := buf.store.cells, buf.Vw();
    ghost var k: nat :| Denotes(v, start, k);
    AtFacts(m, v, start, k);
    var chain, i: nat, pos: int := start.chain, start.posInChain, start.pos;
    while chain != NULL
      invariant Denotes(v, EvPtr(pos, chain, i), k) && k <= |v.ps|
      invariant start.pos <= pos <= |Flatten(v.segs)|
      invariant forall j :: start.pos <= j < pos ==> Flatten(v.segs)[j] !in CharsOf(w)
      decreases |v.ps| - k
    {
      AtFacts(m, v, EvPtr(pos, chain, i), k);
      RestOf(m, v, EvPtr(pos, chain, i), k);
      var c := buf.store.cells[chain];
      var rest := c.mem[c.misalign + i..c.misalign + c.off];
      var cp := FindIn(rest, w);
      ScanStep(m, v, EvPtr(pos, chain, i), k, CharsOf(w), start.pos, cp);
      HitInRange(rest, CharsOf(w), cp);
      if cp != -1 {
        it := EvPtr(pos + cp, chain, i + cp);
        assert Denotes(v, it, k);
        return it.pos, it;
      }
      pos := pos + c.off - i;
      i := 0;
      chain := c.next;
      k := k + 1;
    }
    AtFacts(m, v, EvPtr(pos, chain, i), k);
    AtEnd(m, v, EvPtr(pos, chain, i), k);
    NoneFound(buf.Contents(), start.pos, CharsOf(w));
    return -1, EvPtr(pos, start.chain, start.posInChain);
  }

  method FindIn(s: seq<Byte>, w: Wanted) returns (r: int)
    ensures IsFirstOf(s, 0, CharsOf(w), r)
  {
    match w
    case Eol => r := FindEolChar(s);
    case Char(chr) => r := Memchr(s, chr);
  }

  lemma HitInRange(s: seq<Byte>, chars: set<Byte>, r: int)
    requires IsFirstOf(s, 0, chars, r)
    ensures -1 <= r < |s|
  {
  }

  lemma NoneFound(s: seq<Byte>, from: nat, chars: set<Byte>)
    requires forall j :: from <= j < |s| ==> s[j] !in chars
    ensures IsFirstOf(s, from, chars, -1)
  {
  }

  lemma AtEnd(m: Cells, v: View, it: EvPtr, k: nat)
    requires Inv(m, v) && Denotes(v, it, k) && it.chain == NULL
    ensures it.pos == |Flatten(v.segs)|
  {
  }

  // ---------- runs and single bytes ----------

  // n is the length of the run of bytes in chars that starts at `from`.
  ghost predicate IsRun(s: seq<Byte>, from: nat, chars: set<Byte>, n: nat) {
    && from + n <= |s|
    && (forall j :: from <= j < from + n ==> s[j] in chars)
    && (from + n < |s| ==> s[from + n] !in chars)
  }

  // The inner loop of evbuffer_strspn.
  method SpanIn(s: seq<Byte>, chars: set<Byte>) returns (n: nat)
    ensures IsRun(s, 0, chars, n)
  {
    n := 0;
    while n < |s| && s[n] in chars
      invariant n <= |s| && forall j :: 0 <= j < n ==> s[j] in chars
    {
      n := n + 1;
    }
  }

  // A run in the rest of a chain, in terms of the contents.
  lemma SpanStep(m: Cells, v: View, it: EvPtr, k: nat, chars: set<Byte>, from: nat, n: nat)
    requires Inv(m, v) && Denotes(v, it, k) && k < |v.ps| == |v.segs| && it.posInChain <= |v.segs[k]|
    requires 0 <= from <= it.pos <= |Flatten(v.segs)|
    requires forall j :: from <= j < it.pos ==> Flatten(v.segs)[j] in chars
    requires IsRun(v.segs[k][it.posInChain..], 0, chars, n)
    ensures var rest := |v.segs[k]| - it.posInChain;
            && n <= rest && it.pos + rest <= |Flatten(v.segs)|
            && (n < rest ==> IsRun(Flatten(v.segs), from, chars, it.pos - from + n))
            && (n == rest ==> forall j :: from <= j < it.pos + rest ==> Flatten(v.segs)[j] in chars)
  {
    hide InvBody, Flatten, Before;
    var p := it.posInChain;
    var rest := v.segs[k][p..];
    ChainSlice(v.segs, k, p, |v.segs[k]|);
    var all := Flatten(v.segs);
    assert rest == v.segs[k][p..|v.segs[k]|];
    forall j | it.pos <= j < it.pos + |rest| ensures j < |all| && all[j] == rest[j - it.pos] {
      assert all[it.pos..it.pos + |rest|][j - it.pos] == all[j];
    }
  }

  // evbuffer_strspn, as far as its count is concerned: the length of the run, counted in an int
  method Strspn(buf: EvBuffer, start: EvPtr, chars: set<Byte>) returns (count: int, ghost run: nat)
    requires buf.Valid() && IsPtr(buf.Vw(), start)
    ensures 0 <= start.pos && IsRun(buf.Contents(), start.pos, chars, run) && count == ToInt32(run)
  {
    hide InvBody, Flatten, Chain.Holds, Denotes, IsRun, ToInt32;
    ghost var m, v := buf.store.cells, buf.Vw();
    ghost var k: nat :| Denotes(v, start, k);
    AtFacts(m, v, start, k);
    var chain, i: nat, pos: int := start.chain, start.posInChain, start.pos;
    count, run := 0, 0;
    while chain != NULL
      invariant Denotes(v, EvPtr(pos, chain, i), k) && k <= |v.ps| && count == ToInt32(run)
      invariant start.pos <= pos == start.pos + run <= |Flatten(v.segs)|
      invariant forall j :: start.pos <= j < pos ==> Flatten(v.segs)[j] in chars
      decreases |v.ps| - k
    {
      AtFacts(m, v, EvPtr(pos, chain, i), k);
      RestOf(m, v, EvPtr(pos, chain, i), k);
      var c := buf.store.cells[chain];
      var rest := c.mem[c.misalign + i..c.misalign + c.off];
      var n := SpanIn(rest, chars);
      SpanStep(m, v, EvPtr(pos, chain, i), k, chars, start.pos, n);
      ToInt32Add(run, n);
      count, run := ToInt32(count + n), run + n;
      if n < |rest| {
        return;
      }
      pos := pos + n;
      i := 0;
      chain := c.next;
      k := k + 1;
    }
    AtEnd(m, v, EvPtr(pos, chain, i), k);
    RunToEnd(buf.Contents(), start.pos, chars, run);
  }

  lemma RunToEnd(s: seq<Byte>, from: nat, chars: set<Byte>, n: nat)
    requires from + n == |s| && forall j :: from <= j < from + n ==> s[j] in chars
    ensures IsRun(s, from, chars, n)
  {
  }

  // evbuffer_getchr
  method GetChr(buf: EvBuffer, it: EvPtr) returns (b: int)
    requires buf.Valid() && IsPtr(buf.Vw(), it) && (it.chain != NULL ==> OnByte(buf, it))
    ensures it.chain == NULL ==> b == -1
    ensures it.chain != NULL ==> 0 <= it.pos < |buf.Contents()| && b == buf.Contents()[it.pos] as int
  {
    hide InvBody, Flatten, Chain.Holds, Denotes;
    if it.chain == NULL {
      return -1;
    }
    ghost var m, v := buf.store.cells, buf.Vw();
    ghost var k: nat :| Denotes(v, it, k);
    AtFacts(m, v, it, k);
    CopyStep(m, v, it, k, 1, it.pos, []);
    var c := buf.store.cells[it.chain];
    b := c.mem[c.misalign + it.posInChain] as int;
    assert ([] + c.mem[c.misalign + it.posInChain..c.misalign + it.posInChain + 1])[0] as int == b;
  }

  // evbuffer_ptr_subtract
  method PtrSubtract(buf: EvBuffer, at: EvPtr, howfar: nat) returns (r: int, it: EvPtr)
    requires buf.Valid() && (0 <= at.pos ==> IsPtr(buf.Vw(), at))
    ensures r == if at.pos < 0 || howfar > at.pos then -1 else 0
    ensures r == 0 ==> IsPtr(buf.Vw(), it) && it.pos == at.pos - howfar
    ensures r == 0 && howfar > 0 ==> OnByte(buf, it)
  {
    hide InvBody, Flatten, Chain.Holds;
    if at.pos < 0 {
      return -1, at;
    }
    if howfar > at.pos {
      return -1, at;
    }
    ghost var m, v := buf.store.cells, buf.Vw();
    ghost var k: nat :| Denotes(v, at, k);
    AtFacts(m, v, at, k);
    if at.chain != NULL && howfar <= at.posInChain {
      it := EvPtr(at.pos - howfar, at.chain, at.posInChain - howfar);
      assert Denotes(v, it, k);
      return 0, it;
    }
    r, it := PtrSet(buf, at, at.pos - howfar, Set);
  }
}
