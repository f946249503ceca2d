/** Every sequence of names written with one table, with other data between them, is read back. */
module DnsRoundTrip {
  import opened Bytes
  import opened DnsNames
  import opened DnsEncode

  const NAME_BUFFER := 256

  // What is put into a packet: names, and data that the name code does not look at.
  datatype Piece = Name(name: seq<Byte>) | Data(bytes: seq<Byte>)

  // A dotted name with labels of 1 to 63 bytes and no dot at its end.
  predicate Plain(name: seq<Byte>) {
    CString(name) && Good(name) && ShortLabels(name) && |name| <= MAX_NAME && (name != [] ==> name[|name| - 1] != DOT)
  }

  // The name at pos can be read and ends at end.
  ghost predicate ReadsAs(buf: seq<Byte>, used: nat, pos: nat, name: seq<Byte>, end: nat) {
    used <= |buf| && Reads(buf, used, pos, Labels(name)) && EndAt(buf, used, pos) == end && end <= used
  }

  // The pieces written so far.
  ghost predicate AllRead(buf: seq<Byte>, used: nat, pieces: seq<Piece>, starts: seq<nat>, ends: seq<nat>) {
    && |starts| == |ends| <= |pieces|
    && forall i :: 0 <= i < |starts| ==> PieceRead(buf, used, pieces[i], starts[i], ends[i])
  }

  ghost predicate PieceRead(buf: seq<Byte>, used: nat, piece: Piece, start: nat, end: nat) {
    piece.Name? ==> ReadsAs(buf, used, start, piece.name, end)
  }

  // Whatever is written behind them, the earlier names stay.
  lemma AllReadMono(buf: seq<Byte>, used: nat, buf': seq<Byte>, used': nat, pieces: seq<Piece>, starts: seq<nat>, ends: seq<nat>)
    requires AllRead(buf, used, pieces, starts, ends) && used <= |buf| && used <= used' <= |buf'| && buf'[..used] == buf[..used]
    ensures AllRead(buf', used', pieces, starts, ends)
  {
    hide Reads, EndAt, Labels;
    forall i | 0 <= i < |starts| ensures PieceRead(buf', used', pieces[i], starts[i], ends[i]) {
      assert PieceRead(buf, used, pieces[i], starts[i], ends[i]);
      if pieces[i].Name? {
        ReadsMono(buf, used, buf', used', starts[i], Labels(pieces[i].name));
      }
    }
  }

  lemma AllReadOne(buf: seq<Byte>, used: nat, pieces: seq<Piece>, starts: seq<nat>, ends: seq<nat>, start: nat, end: nat)
    requires AllRead(buf, used, pieces, starts, ends) && |starts| < |pieces|
    requires PieceRead(buf, used, pieces[|starts|], start, end)
    ensures AllRead(buf, used, pieces, starts + [start], ends + [end])
  {
    hide PieceRead;
    var starts', ends' := starts + [start], ends + [end];
    forall i | 0 <= i < |starts'| ensures PieceRead(buf, used, pieces[i], starts'[i], ends'[i]) {
      if i < |starts| {
        assert PieceRead(buf, used, pieces[i], starts[i], ends[i]);
      }
    }
  }

  method PutData(buf: array<Byte>, j: nat, bytes: seq<Byte>)
    requires j + |bytes| <= buf.Length
    modifies buf
    ensures buf[..j] == old(buf[..j])
  {
    var i := 0;
    while i < |bytes|
      invariant i <= |bytes| && buf[..j] == old(buf[..j])
    {
      buf[j + i] := bytes[i];
      i := i + 1;
    }
  }

  // Where the pieces end when they are written from j on with this table.
  function EndOf(pieces: seq<Piece>, labels: seq<Entry>, j: nat): nat {
    if pieces == [] then j
    else match pieces[0]
      case Name(name) => EndOf(pieces[1..], TableAfter(name, labels, j), j + Size(name, labels))
      case Data(bytes) => EndOf(pieces[1..], labels, j + |bytes|)
  }

  lemma EndStep(pieces: seq<Piece>, i: nat, labels: seq<Entry>, j: nat)
    requires i < |pieces|
    ensures EndOf(pieces[i..], labels, j) ==
            if pieces[i].Name?
            then EndOf(pieces[i + 1..], TableAfter(pieces[i].name, labels, j), j + Size(pieces[i].name, labels))
            else EndOf(pieces[i + 1..], labels, j + |pieces[i].bytes|)
  {
    hide TableAfter, Size;
    assert pieces[i..][1..] == pieces[i + 1..];
  }

  lemma {:induction false} EndGrows(pieces: seq<Piece>, labels: seq<Entry>, j: nat)
    ensures j <= EndOf(pieces, labels, j)
    decreases |pieces|
  {
    hide TableAfter, Size;
    if pieces != [] {
      match pieces[0] {
        case Name(name) => EndGrows(pieces[1..], TableAfter(name, labels, j), j + Size(name, labels));
        case Data(bytes) => EndGrows(pieces[1..], labels, j + |bytes|);
      }
    }
  }

  // Writes the pieces one after the other into the first bufLen bytes of mem, which succeeds exactly
  // when they fit with all the compression that the table allows.
  method WriteAll(mem: array<Byte>, bufLen: nat, j0: nat, pieces: seq<Piece>)
    returns (ok: bool, used: nat, starts: seq<nat>, ends: seq<nat>)
    requires bufLen <= POINTER_REACH && bufLen < mem.Length && j0 <= bufLen
    requires forall i :: 0 <= i < |pieces| && pieces[i].Name? ==> Plain(pieces[i].name)
    modifies mem
    ensures mem[..j0] == old(mem[..j0])
    ensures ok <==> EndOf(pieces, [], j0) <= bufLen
    ensures ok ==> used == EndOf(pieces, [], j0) && |starts| == |pieces| && AllRead(mem[..], used, pieces, starts, ends)
  {
    hide Labels, Good, ShortLabels, TableOk, EndAt, Reads, PieceRead, EndOf, TableAfter, Size, Plain;
    var table := new LabelTable();
    used, starts, ends := j0, [], [];
    NoEntries(mem[..], j0);
    var i := 0;
    assert pieces[0..] == pieces;
    while i < |pieces|
      invariant i <= |pieces| && j0 <= used <= bufLen && fresh(table) && mem[..j0] == old(mem[..j0])
      invariant |starts| == i && AllRead(mem[..], used, pieces, starts, ends) && TableOk(mem[..], used, table.labels)
      invariant EndOf(pieces, [], j0) == EndOf(pieces[i..], table.labels, used)
    {
      ok, used, starts, ends := WriteOne(mem, bufLen, j0, used, pieces, table, starts, ends);
      if !ok {
        return;
      }
      i := i + 1;
    }
    EndNone(pieces, table.labels, used);
    ok := true;
  }

  lemma EndNone(pieces: seq<Piece>, labels: seq<Entry>, j: nat)
    ensures EndOf(pieces[|pieces|..], labels, j) == j
  {
  }

  lemma NoEntries(buf: seq<Byte>, used: nat)
    requires used <= |buf|
    ensures TableOk(buf, used, [])
  {
  }

  // The fields behind a name find out when its zero byte has overrun the buffer.
  method WriteOne(mem: array<Byte>, bufLen: nat, ghost j0: nat, used: nat, pieces: seq<Piece>, table: LabelTable,
                  starts: seq<nat>, ends: seq<nat>)
    returns (ok: bool, used': nat, starts': seq<nat>, ends': seq<nat>)
    requires bufLen <= POINTER_REACH && bufLen < mem.Length && j0 <= used <= bufLen && |starts| < |pieces|
    requires pieces[|starts|].Name? ==> Plain(pieces[|starts|].name)
    requires AllRead(mem[..], used, pieces, starts, ends) && TableOk(mem[..], used, table.labels)
    modifies mem, table
    ensures mem[..j0] == old(mem[..j0])
    ensures ok ==> used <= used' <= bufLen && |starts'| == |starts| + 1
                   && AllRead(mem[..], used', pieces, starts', ends') && TableOk(mem[..], used', table.labels)
                   && EndOf(pieces[|starts|..], old(table.labels), used) == EndOf(pieces[|starts| + 1..], table.labels, used')
    ensures !ok ==> EndOf(pieces[|starts|..], old(table.labels), used) > bufLen
  {
    hide Labels, Good, ShortLabels, TableOk, EndAt, Reads, PieceRead, AllRead, EndOf, TableAfter, Size, Overruns;
    var piece := pieces[|starts|];
    ghost var mem0, labels0 := mem[..], table.labels;
    EndStep(pieces, |starts|, labels0, used);
    ok, used', starts', ends' := false, used, starts, ends;
    match piece {
      case Name(name) =>
        EndGrows(pieces[|starts| + 1..], TableAfter(name, labels0, used), used + Size(name, labels0));
        OverrunEnds(name, labels0, used, bufLen);
        var r := DnsnameToLabels(mem, bufLen, used, name, table);
        Shorter(mem0, mem[..], j0, used);
        if r < 0 || r > bufLen {
          return;
        }
        used' := r;
        WrittenRead(mem[..], used', used, name);
      case Data(bytes) =>
        EndGrows(pieces[|starts| + 1..], labels0, used + |bytes|);
        if used + |bytes| > bufLen {
          return;
        }
        PutData(mem, used, bytes);
        used' := used + |bytes|;
        Shorter(mem0, mem[..], j0, used);
        TableMono(mem0, used, mem[..], used', table.labels);
        DataRead(mem[..], used', bytes, used, used');
    }
    AllReadMono(mem0, used, mem[..], used', pieces, starts, ends);
    AllReadOne(mem[..], used', pieces, starts, ends, used, used');
    AllReadLength(mem[..], used', pieces, starts, ends);
    ok, starts', ends' := true, starts + [used], ends + [used'];
  }

  lemma OverrunEnds(name: seq<Byte>, labels: seq<Entry>, j: nat, bufLen: nat)
    ensures Overruns(name, labels, j, bufLen) ==> j + Size(name, labels) == bufLen + 1
  {
    hide Size, Unknown;
  }

  lemma WrittenRead(buf: seq<Byte>, used: nat, pos: nat, name: seq<Byte>)
    requires used <= |buf| && Written(buf, used, pos, name) && Plain(name)
    ensures PieceRead(buf, used, Name(name), pos, used)
  {
  }

  lemma DataRead(buf: seq<Byte>, used: nat, bytes: seq<Byte>, start: nat, end: nat)
    ensures PieceRead(buf, used, Data(bytes), start, end)
  {
  }

  lemma AllReadLength(buf: seq<Byte>, used: nat, pieces: seq<Piece>, starts: seq<nat>, ends: seq<nat>)
    requires AllRead(buf, used, pieces, starts, ends)
    ensures |starts| == |ends|
  {
  }

  // What can be read is what name_parse returns.
  lemma SaidPlain(buf: seq<Byte>, used: nat, pos: nat, name: seq<Byte>, end: nat) returns (jumps: nat)
    requires used <= |buf| && ReadsAs(buf, used, pos, name, end) && Plain(name)
    ensures Says(buf, used, pos, NAME_BUFFER, Labels(name), jumps) && Join(Labels(name)) == name
  {
    jumps :| jumps <= pos && Walk(buf, used, pos, Labels(name), jumps);
    assert pos < used;
    JoinLabels(name);
  }

  // The round trip: every sequence of names that fits, compressed as it is, is read back, each at the
  // offset where it was written, and the reader stops where the writer stopped.
  method RoundTrip(mem: array<Byte>, bufLen: nat, j0: nat, pieces: seq<Piece>)
    returns (ok: bool, starts: seq<nat>, ends: seq<nat>, parsed: seq<Parsed>)
    requires bufLen <= POINTER_REACH && bufLen < mem.Length && j0 <= bufLen
    requires forall i :: 0 <= i < |pieces| && pieces[i].Name? ==> Plain(pieces[i].name)
    modifies mem
    ensures mem[..j0] == old(mem[..j0])
    ensures ok <==> EndOf(pieces, [], j0) <= bufLen
    ensures ok ==> |starts| == |ends| == |parsed| == |pieces|
    ensures ok ==> forall i :: 0 <= i < |pieces| && pieces[i].Name? ==> parsed[i] == Parsed(pieces[i].name, ends[i])
  {
    hide Labels, Good, ShortLabels, EndAt, Reads, Says, Join, EndOf, Plain;
    var used;
    ok, used, starts, ends := WriteAll(mem, bufLen, j0, pieces);
    parsed := [];
    if !ok {
      return;
    }
    var packet := mem[..];
    var i := 0;
    while i < |pieces|
      invariant i <= |pieces| && |parsed| == i && mem[..] == packet
      invariant forall k :: 0 <= k < i && pieces[k].Name? ==> parsed[k] == Parsed(pieces[k].name, ends[k])
    {
      assert PieceRead(packet, used, pieces[i], starts[i], ends[i]);
      if pieces[i].Name? {
        ghost var jumps := SaidPlain(packet, used, starts[i], pieces[i].name, ends[i]);
      }
      var p := NameParse(packet, used, starts[i], NAME_BUFFER);
      parsed := parsed + [p];
      i := i + 1;
    }
  }

  lemma {:induction false} TableGrows(name: seq<Byte>, labels: seq<Entry>, j: nat)
    ensures labels <= TableAfter(name, labels, j)
    decreases |name|
  {
    hide Known, TableAfter, Added;
    TableStep(name, labels, j);
    AddedLonger(labels, name, j);
    var d := DotAt(name);
    if !Known(labels, name) && d < |name| {
      TableGrows(name[d + 1..], Added(labels, name, j), j + 1 + d);
    }
  }

  lemma {:induction false} WholeSize(name: seq<Byte>)
    requires Open(name)
    ensures Size(name, []) == |name| + 2
    decreases |name|
  {
    var d := DotAt(name);
    if d < |name| {
      RestOf(name, []);
      WholeSize(name[d + 1..]);
    }
  }

  // The same name written twice takes a pointer the second time, so that the two fit where they
  // would not without compression.
  lemma TwiceByPointer(name: seq<Byte>)
    requires Open(name)
    ensures EndOf([Name(name), Name(name)], [], 0) == |name| + 2 + 2
  {
    hide EndOf, TableAfter, Size, Added;
    WholeSize(name);
    TableStep(name, [], 0);
    FirstEntry(name, 0);
    var d, labels := DotAt(name), TableAfter(name, [], 0);
    if d < |name| {
      TableGrows(name[d + 1..], Added([], name, 0), 1 + d);
    }
    assert labels[0].v == name;
    SizeStep(name, labels);
    var pieces := [Name(name), Name(name)];
    assert pieces[0..] == pieces;
    EndStep(pieces, 0, [], 0);
    EndStep(pieces, 1, labels, |name| + 2);
    EndNone(pieces, TableAfter(name, labels, |name| + 2), |name| + 4);
  }

  lemma FirstEntry(name: seq<Byte>, j: nat)
    ensures Added([], name, j) == [Entry(name, j)]
  {
  }
}
