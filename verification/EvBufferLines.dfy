/** evbuffer_remove, evbuffer_search_eol and evbuffer_readln. */
module EvBufferLines {
  import opened Bytes
  import opened Pointers
  import opened EvBufferCore
  import opened EvBufferLayout
  import opened EvBufferPos
  import opened EvBufferScan
  import opened EvBufferSearch
  import opened EvBufferDrain
  import EvBufferAdd

  // evbuffer_remove
  method Remove(buf: EvBuffer, datlen: nat) returns (r: int, out: seq<Byte>)
    requires buf.Valid()
    modifies buf, buf.store
    ensures var n := Min(datlen, |old(buf.Contents())|);
            r == ToInt32(n) && out == old(buf.Contents())[..n] && Drained(buf, n)
  {
    hide InvBody, Flatten, Owns, Chain.Holds;
    ghost var m, v := buf.store.cells, buf.Vw();
    TotalFacts(m, v);
    var n;
    n, out := CopyOutFrom(buf, None, datlen);
    OwnsSelf(m, v.ps);
    if n > 0 {
      var _ := Drain(buf, n);
    }
    r := ToInt32(n);
  }

  datatype EolStyle = Any | CrlfStrict | Crlf | Lf | Nul

  // The first line end of the style from `from` on: it starts at pos and is len bytes long.
  ghost predicate IsEol(s: seq<Byte>, from: nat, style: EolStyle, pos: int, len: nat) {
    && -1 <= pos
    && (pos == -1 ==> len == 0)
    && match style
       case Any => IsFirstOf(s, from, {CR, LF}, pos) && (pos >= 0 ==> IsRun(s, pos, {CR, LF}, len))
       case CrlfStrict => IsFound(s, [CR, LF], from, |s|, pos) && (pos >= 0 ==> len == 2)
       case Crlf =>
         if pos >= 0 && len == 2 then
           from <= pos && pos + 1 < |s| && s[pos] == CR && IsFirstOf(s, from, {LF}, pos + 1)
         else
           IsFirstOf(s, from, {LF}, pos) && (pos >= 0 ==> len == 1 && (pos > from ==> s[pos - 1] != CR))
       case Lf => IsFirstOf(s, from, {LF}, pos) && (pos >= 0 ==> len == 1)
       case Nul => IsFirstOf(s, from, {0}, pos) && (pos >= 0 ==> len == 1)
  }

  // The same as a function: the position and the length of the first line end, or (-1, 0).
  function EolAt(s: seq<Byte>, style: EolStyle): (int, nat) {
    match style
    case Any => var p := FirstAt(s, {CR, LF}, 0); if p < 0 then (-1, 0) else (p, RunAt(s, {CR, LF}, p))
    case CrlfStrict => var p := CrlfAt(s, 0); (p, if p < 0 then 0 else 2)
    case Crlf =>
      var p := FirstAt(s, {LF}, 0);
      if p < 0 then (-1, 0) else if p > 0 && s[p - 1] == CR then (p - 1, 2) else (p, 1)
    case Lf => var p := FirstAt(s, {LF}, 0); (p, if p < 0 then 0 else 1)
    case Nul => var p := FirstAt(s, {0}, 0); (p, if p < 0 then 0 else 1)
  }

  function FirstAt(s: seq<Byte>, chars: set<Byte>, i: nat): (p: int)
    requires i <= |s|
    ensures IsFirstOf(s, i, chars, p) && -1 <= p < |s|
    decreases |s| - i
  {
    if i == |s| then -1 else if s[i] in chars then i else FirstAt(s, chars, i + 1)
  }

  function RunAt(s: seq<Byte>, chars: set<Byte>, i: nat): (n: nat)
    requires i <= |s|
    ensures IsRun(s, i, chars, n)
    decreases |s| - i
  {
    if i == |s| || s[i] !in chars then 0 else 1 + RunAt(s, chars, i + 1)
  }

  function CrlfAt(s: seq<Byte>, i: nat): (p: int)
    requires i <= |s|
    ensures -1 <= p && (p >= 0 ==> i <= p && p + 1 < |s| && s[p] == CR && s[p + 1] == LF)
    ensures forall j, k :: i <= j && k == j + 1 && k < |s| && (p < 0 || j < p) ==> !(s[j] == CR && s[k] == LF)
    decreases |s| - i
  {
    if i + 1 >= |s| then -1 else if s[i] == CR && s[i + 1] == LF then i else CrlfAt(s, i + 1)
  }

  // There is no other.
  lemma EolUnique(s: seq<Byte>, style: EolStyle, pos: int, len: nat)
    requires IsEol(s, 0, style, pos, len)
    ensures EolAt(s, style) == (pos, len)
  {
    match style
    case Any =>
      if pos >= 0 { RunUnique(s, pos, {CR, LF}, len); }
    case CrlfStrict => CrlfUnique(s, pos);
    case Crlf =>
    case Lf =>
    case Nul =>
  }

  lemma RunUnique(s: seq<Byte>, i: nat, chars: set<Byte>, n: nat)
    requires i <= |s| && IsRun(s, i, chars, n)
    ensures RunAt(s, chars, i) == n
  {
    assert i + RunAt(s, chars, i) == i + n;
  }

  lemma CrlfUnique(s: seq<Byte>, pos: int)
    requires IsFound(s, [CR, LF], 0, |s|, pos)
    ensures CrlfAt(s, 0) == pos
  {
    var p := CrlfAt(s, 0);
    if p >= 0 {
      assert s[p..p + 2] == [CR, LF];
      assert Occurs(s, [CR, LF], p);
    }
    if pos >= 0 {
      assert Occurs(s, [CR, LF], pos);
      assert s[pos..pos + 2][0] == CR && s[pos..pos + 2][1] == LF;
    }
  }

  const INT_MAX := 0x7fff_ffff

  // The length that is reported for a line end: a run of CR and LF is counted in an int.
  function Reported(style: EolStyle, len: nat): nat {
    if style == Any then ToSize(ToInt32(len)) else len
  }

  // evbuffer_search_eol, from a given position or from the start; the line end is len bytes long
  method SearchEol(buf: EvBuffer, start: Option<EvPtr>, style: EolStyle) returns (it: EvPtr, eolLen: nat, ghost len: nat)
    requires buf.Valid() && (start.Some? ==> IsPtr(buf.Vw(), start.value) && 0 <= start.value.pos)
    ensures var from := if start.Some? then start.value.pos else 0;
            IsEol(buf.Contents(), from, style, it.pos, len) && eolLen == Reported(style, len)
    ensures if it.pos == -1 then it == NOT_FOUND else IsPtr(buf.Vw(), it)
  {
    hide InvBody, Flatten, Chain.Holds, Denotes, Occurs;
    ghost var m, v := buf.store.cells, buf.Vw();
    if start.Some? && start.value.chain == NULL {
      ghost var k: nat :| Denotes(v, start.value, k);
      AtEnd(m, v, start.value, k);
      NothingAtEnd(buf.Contents(), start.value.pos, style);
      return NOT_FOUND, 0, 0;
    }
    var from := if start.Some? then start.value else EvPtr(0, buf.first, 0);
    if start.None? { AtStart(m, v); }
    match style
    case Any => it, eolLen, len := SearchAny(buf, from);
    case CrlfStrict =>
      it := SearchRange(buf, [CR, LF], from, None);
      eolLen := if it.pos < 0 then 0 else 2;
      len := eolLen;
    case Crlf =>
      it, eolLen := SearchCrlf(buf, from);
      len := eolLen;
    case Lf =>
      it, eolLen := SearchChar(buf, from, LF);
      len := eolLen;
    case Nul =>
      it, eolLen := SearchChar(buf, from, 0);
      len := eolLen;
  }

  lemma NothingAtEnd(s: seq<Byte>, from: nat, style: EolStyle)
    requires from == |s|
    ensures IsEol(s, from, style, -1, 0)
  {
  }

  lemma AtStart(m: Cells, v: View)
    requires Inv(m, v)
    ensures IsPtr(v, EvPtr(0, v.first, 0))
  {
    PosFacts(m, v, 0);
    assert Denotes(v, EvPtr(0, v.first, 0), 0);
  }

  method SearchAny(buf: EvBuffer, from: EvPtr) returns (it: EvPtr, eolLen: nat, ghost len: nat)
    requires buf.Valid() && IsPtr(buf.Vw(), from) && 0 <= from.pos
    ensures IsEol(buf.Contents(), from.pos, Any, it.pos, len) && eolLen == Reported(Any, len)
    ensures if it.pos == -1 then it == NOT_FOUND else IsPtr(buf.Vw(), it)
  {
    hide EvBuffer.Valid, Flatten, IsPtr, IsRun, IsFound;
    var r;
    r, it := FindFrom(buf, from, Eol);
    if r < 0 {
      return NOT_FOUND, 0, 0;
    }
    var count;
    count, len := Strspn(buf, it, {CR, LF});
    eolLen := ToSize(count);
  }

  method SearchChar(buf: EvBuffer, from: EvPtr, chr: Byte) returns (it: EvPtr, eolLen: nat)
    requires buf.Valid() && IsPtr(buf.Vw(), from) && 0 <= from.pos
    ensures if it.pos == -1 then it == NOT_FOUND && eolLen == 0 else IsPtr(buf.Vw(), it) && eolLen == 1
    ensures -1 <= it.pos && IsFirstOf(buf.Contents(), from.pos, {chr}, it.pos)
  {
    hide EvBuffer.Valid, Flatten, IsPtr;
    var r;
    r, it := FindFrom(buf, from, Char(chr));
    if r < 0 {
      return NOT_FOUND, 0;
    }
    eolLen := 1;
  }

  method SearchCrlf(buf: EvBuffer, from: EvPtr) returns (it: EvPtr, eolLen: nat)
    requires buf.Valid() && IsPtr(buf.Vw(), from) && 0 <= from.pos
    ensures IsEol(buf.Contents(), from.pos, Crlf, it.pos, eolLen)
    ensures if it.pos == -1 then it == NOT_FOUND else IsPtr(buf.Vw(), it)
  {
    hide EvBuffer.Valid, Flatten, IsPtr, IsRun, IsFound;
    var r;
    r, it := FindFrom(buf, from, Char(LF));
    if r < 0 {
      return NOT_FOUND, 0;
    }
    eolLen := 1;
    if it.pos == from.pos {
      return;
    }
    var r2, it2 := PtrSubtract(buf, it, 1);
    var prev := GetChr(buf, it2);
    if prev == CR as int {
      it, eolLen := it2, 2;
    }
  }

  // A line end of len bytes, with more bytes behind it, is drained exactly unless it is a run too long
  // for an int: then all that follows goes with it, or part of the run stays.  (A run as long as the
  // negative count is as a size_t would be drained exactly again.)
  predicate Drainable(style: EolStyle, len: nat, more: nat) {
    style != Any || len <= INT_MAX || (len % 0x1_0000_0000 > INT_MAX && (more == 0 || len >= SIZE_MAX - INT_MAX))
  }

  // What evbuffer_readln has made of the buffer: the line, its end and the rest, of which it has
  // drained the line and what was reported as the length of its end.
  ghost predicate LineRead(all: seq<Byte>, style: EolStyle, line: seq<Byte>, eol: seq<Byte>, rest: seq<Byte>, after: seq<Byte>) {
    && Split(all, line, eol, rest) && IsEol(all, 0, style, |line|, |eol|)
    && after == all[|line| + Min(Reported(style, |eol|), |eol| + |rest|)..]
    && (after == rest <==> Drainable(style, |eol|, |rest|))
  }

  // evbuffer_readln, when malloc succeeds; None when there is no complete line
  method ReadLn(buf: EvBuffer, style: EolStyle) returns (line: Option<seq<Byte>>)
    requires buf.Valid()
    modifies buf, buf.store
    ensures line.None? ==> Drained(buf, 0) && IsEol(old(buf.Contents()), 0, style, -1, 0)
    ensures |buf.Contents()| <= |old(buf.Contents())| && Drained(buf, |old(buf.Contents())| - |buf.Contents()|)
    ensures line.Some? ==> exists eol: seq<Byte>, rest: seq<Byte> :: LineRead(old(buf.Contents()), style, line.value, eol, rest, buf.Contents())
  {
    hide Inv, Flatten, Owns, Chain.Holds, IsEol, Split, LineRead, Reported;
    ghost var m, v, all := buf.store.cells, buf.Vw(), buf.Contents();
    TotalFacts(m, v);
    OwnsSelf(m, v.ps);
    var it, extra, len := SearchEol(buf, None, style);
    if it.pos < 0 {
      NoEol(all, style, it.pos, len);
      assert all[0..] == all;
      return None;
    }
    var n := it.pos;
    EolFits(all, style, n, len);
    var _, out := Remove(buf, n);
    ghost var m1, v1 := buf.store.cells, buf.Vw();
    TotalFacts(m1, v1);
    var _ := Drain(buf, extra);
    OwnsTrans(m, v.ps, m1, v1.ps, buf.store.cells, buf.chains);
    ghost var took := Min(extra, |all| - n);
    assert all[n..][took..] == all[n + took..];
    LineIs(all, style, n, len);
    return Some(out);
  }

  lemma LineIs(all: seq<Byte>, style: EolStyle, n: nat, len: nat)
    requires IsEol(all, 0, style, n, len) && n + len <= |all| <= SIZE_MAX
    ensures LineRead(all, style, all[..n], all[n..n + len], all[n + len..], all[n + Min(Reported(style, len), |all| - n)..])
  {
    hide IsEol;
    var took := Min(Reported(style, len), |all| - n);
    SplitAt(all, n, len);
    DrainExact(style, len, |all| - n - len);
    if took != len {
      assert |all[n + took..]| != |all[n + len..]|;
    }
  }

  lemma DrainExact(style: EolStyle, len: nat, more: nat)
    requires len + more <= SIZE_MAX
    ensures Min(Reported(style, len), len + more) == len <==> Drainable(style, len, more)
  {
  }

  function LineFeeds(n: nat): seq<Byte> {
    seq(n, _ => LF)
  }

  lemma LongRunLost(all: seq<Byte>, line: seq<Byte>, eol: seq<Byte>, rest: seq<Byte>, after: seq<Byte>)
    requires all == LineFeeds(INT_MAX + 1) + [97] && LineRead(all, Any, line, eol, rest, after)
    ensures line == [] && after == []
  {
    assert all[0] == LF && all[INT_MAX + 1] == 97;
    assert |line| == 0;
    assert |eol| == INT_MAX + 1 by {
      assert IsRun(all, 0, {CR, LF}, |eol|);
      assert forall i :: 0 <= i < INT_MAX + 1 ==> all[i] == LF;
    }
    assert Reported(Any, INT_MAX + 1) == SIZE_MAX - INT_MAX;
  }

  // 2^31 line feeds and a letter: the line is empty, and the letter is lost with its end.
  method LongRun() returns (buf: EvBuffer, line: Option<seq<Byte>>)
    ensures line == Some([]) && buf.Valid() && buf.Contents() == []
  {
    hide Inv, InvBody, Flatten, Owns, Chain.Holds, IsEol, LineRead, LineFeeds, IsFirstOf, IsRun;
    var store := new Store();
    buf := new EvBuffer(store);
    var data := LineFeeds(INT_MAX + 1) + [97];
    LineFeedsFit(data);
    TotalFacts(buf.store.cells, buf.Vw());
    var r := EvBufferAdd.Add(buf, data);
    assert [] + data == data;
    line := ReadLn(buf, Any);
    SomeEol(data);
    ghost var eol, rest :| LineRead(data, Any, line.value, eol, rest, buf.Contents());
    LongRunLost(data, line.value, eol, rest, buf.Contents());
  }

  lemma LineFeedsFit(data: seq<Byte>)
    requires data == LineFeeds(INT_MAX + 1) + [97]
    ensures |data| <= SIZE_MAX && |data| <= MAX_CHAIN_DATA
  {
  }

  lemma SomeEol(data: seq<Byte>)
    requires data == LineFeeds(INT_MAX + 1) + [97]
    ensures !IsEol(data, 0, Any, -1, 0)
  {
    assert data[0] == LF;
  }

  ghost predicate Split(all: seq<Byte>, line: seq<Byte>, eol: seq<Byte>, rest: seq<Byte>) {
    all == line + eol + rest
  }

  lemma SplitAt(all: seq<Byte>, n: nat, len: nat)
    requires n + len <= |all|
    ensures Split(all, all[..n], all[n..n + len], all[n + len..]) && all[n..][len..] == all[n + len..]
  {
  }

  lemma NoEol(s: seq<Byte>, style: EolStyle, pos: int, len: nat)
    requires IsEol(s, 0, style, pos, len) && pos < 0
    ensures pos == -1 && len == 0
  {
  }

  lemma EolFits(s: seq<Byte>, style: EolStyle, pos: nat, len: nat)
    requires IsEol(s, 0, style, pos, len)
    ensures pos + len <= |s|
  {
  }
}
