/** Writing compressed domain names, libevent/evdns.c: the dnslabel_table and dnsname_to_labels. */
module DnsEncode {
  import opened Bytes
  import opened DnsNames

  const MAX_LABELS := 128
  const MAX_NAME := 255
  const POINTER_REACH := 0x4000

  // ----- names as text -----

  // The position of the first dot, or the length of the name.
  function DotAt(name: seq<Byte>): (d: nat)
    ensures d <= |name| && (d < |name| ==> name[d] == DOT) && forall i :: 0 <= i < d ==> name[i] != DOT
  {
    if name == [] || name[0] == DOT then 0 else 1 + DotAt(name[1..])
  }

  // The labels of a name; a dot at its end adds none.
  function Labels(name: seq<Byte>): seq<Label>
    decreases |name|
  {
    var d := DotAt(name);
    if d < |name| then [name[..d]] + Labels(name[d + 1..]) else if name == [] then [] else [name]
  }

  // No label but the last is empty.
  predicate Good(name: seq<Byte>)
    decreases |name|
  {
    var d := DotAt(name);
    d < |name| ==> d > 0 && Good(name[d + 1..])
  }

  predicate CString(name: seq<Byte>) {
    forall i :: 0 <= i < |name| ==> name[i] != 0
  }

  // For a name without a dot at its end, joining its labels gives it back.
  lemma {:induction false} JoinLabels(name: seq<Byte>)
    requires name != [] ==> name[|name| - 1] != DOT
    ensures Join(Labels(name)) == name
    decreases |name|
  {
    hide Join;
    var d := DotAt(name);
    if d < |name| {
      var rest := name[d + 1..];
      assert rest != [] && rest[|rest| - 1] == name[|name| - 1];
      JoinLabels(rest);
      SomeLabel(rest);
      JoinFront(name[..d], Labels(rest));
      assert name == name[..d] + [DOT] + rest;
    } else {
      JoinOne([], name);
      assert [] + [name] == [name];
      JoinNone();
    }
  }

  lemma JoinNone()
    ensures Join([]) == []
  {
  }

  lemma SomeLabel(name: seq<Byte>)
    requires name != []
    ensures Labels(name) != []
  {
  }

  lemma {:induction false} JoinFront(first: Label, labels: seq<Label>)
    requires labels != []
    ensures Join([first] + labels) == first + [DOT] + Join(labels)
  {
    hide Join;
    var m, x := labels[..|labels| - 1], labels[|labels| - 1];
    assert labels == m + [x] && [first] + labels == ([first] + m) + [x];
    JoinOne([first] + m, x);
    JoinOne(m, x);
    if m == [] {
      JoinOne([], first);
      assert [] + [first] == [first] && [first] + m == [first];
    } else {
      JoinFront(first, m);
      assert first + [DOT] + Join(m) + [DOT] + x == first + [DOT] + (Join(m) + [DOT] + x);
    }
  }

  // ----- what has been written -----

  // The name at pos is read, within the first used bytes, as these labels.
  ghost predicate Reads(buf: seq<Byte>, used: nat, pos: nat, labels: seq<Label>)
    requires used <= |buf|
  {
    exists jumps: nat :: jumps <= pos && Walk(buf, used, pos, labels, jumps)
  }

  // Writing behind a name does not change it.
  lemma {:induction false} WalkMono(buf: seq<Byte>, used: nat, buf': seq<Byte>, used': nat, pos: nat, labels: seq<Label>, jumps: nat)
    requires used <= |buf| && used <= used' <= |buf'| && buf'[..used] == buf[..used]
    requires Walk(buf, used, pos, labels, jumps)
    ensures Walk(buf', used', pos, labels, jumps)
    decreases jumps, |labels|
  {
    assert forall i :: 0 <= i < used ==> buf'[i] == buf'[..used][i] == buf[..used][i] == buf[i];
    var b := buf[pos];
    if b == 0 {
    } else if IsPointer(b) {
      WalkMono(buf, used, buf', used', Target(b, buf[pos + 1]), labels, jumps - 1);
    } else {
      var next := pos + 1 + b as int;
      assert buf'[pos + 1..next] == buf[pos + 1..next];
      WalkMono(buf, used, buf', used', next, labels[1..], jumps);
    }
  }

  lemma {:induction false} WalkToMono(buf: seq<Byte>, used: nat, buf': seq<Byte>, used': nat, pos: nat, labels: seq<Label>, jumps: nat, j: nat)
    requires used <= |buf| && used <= used' <= |buf'| && buf'[..used] == buf[..used]
    requires WalkTo(buf, used, pos, labels, jumps, j)
    ensures WalkTo(buf', used', pos, labels, jumps, j)
    decreases jumps, |labels|
  {
    assert forall i :: 0 <= i < used ==> buf'[i] == buf'[..used][i] == buf[..used][i] == buf[i];
    if labels == [] && jumps == 0 && j == pos {
    } else if IsPointer(buf[pos]) {
      WalkToMono(buf, used, buf', used', Target(buf[pos], buf[pos + 1]), labels, jumps - 1, j);
    } else {
      var next := pos + 1 + buf[pos] as int;
      assert buf'[pos + 1..next] == buf[pos + 1..next];
      WalkToMono(buf, used, buf', used', next, labels[1..], jumps, j);
    }
  }

  // Reading some labels leads to j, and the rest is there.
  lemma {:induction false} WalkOn(buf: seq<Byte>, used: nat, pos: nat, labels: seq<Label>, j: nat, rest: seq<Label>, jumps: nat)
    requires used <= |buf| && WalkTo(buf, used, pos, labels, 0, j) && Walk(buf, used, j, rest, jumps)
    ensures Walk(buf, used, pos, labels + rest, jumps) && EndAt(buf, used, pos) == EndAt(buf, used, j)
    decreases |labels|
  {
    if labels == [] && j == pos {
      assert labels + rest == rest;
    } else {
      var next := pos + 1 + buf[pos] as int;
      WalkOn(buf, used, next, labels[1..], j, rest, jumps);
      assert (labels + rest)[1..] == labels[1..] + rest;
    }
  }

  lemma {:induction false} EndMono(buf: seq<Byte>, used: nat, buf': seq<Byte>, used': nat, pos: nat, labels: seq<Label>, jumps: nat)
    requires used <= |buf| && used <= used' <= |buf'| && buf'[..used] == buf[..used] && Walk(buf, used, pos, labels, jumps)
    ensures EndAt(buf', used', pos) == EndAt(buf, used, pos) <= used
    decreases |labels|
  {
    assert forall i :: 0 <= i < used ==> buf'[i] == buf'[..used][i] == buf[..used][i] == buf[i];
    if buf[pos] != 0 && !IsPointer(buf[pos]) {
      EndMono(buf, used, buf', used', pos + 1 + buf[pos] as int, labels[1..], jumps);
    }
  }

  // ----- the table -----

  datatype Entry = Entry(v: seq<Byte>, pos: nat)

  // The string of the entry is found at its position.
  ghost predicate EntryOk(buf: seq<Byte>, used: nat, e: Entry)
    requires used <= |buf|
  {
    e.pos < used && (Good(e.v) ==> Reads(buf, used, e.pos, Labels(e.v)))
  }

  ghost predicate TableOk(buf: seq<Byte>, used: nat, labels: seq<Entry>) {
    && used <= |buf| && |labels| <= MAX_LABELS
    && forall i :: 0 <= i < |labels| ==> EntryOk(buf, used, labels[i])
  }

  lemma TableMono(buf: seq<Byte>, used: nat, buf': seq<Byte>, used': nat, labels: seq<Entry>)
    requires TableOk(buf, used, labels) && used <= used' <= |buf'| && buf'[..used] == buf[..used]
    ensures TableOk(buf', used', labels)
  {
    forall i | 0 <= i < |labels| ensures EntryOk(buf', used', labels[i]) {
      var e := labels[i];
      assert EntryOk(buf, used, e);
      if Good(e.v) {
        ReadsMono(buf, used, buf', used', e.pos, Labels(e.v));
      }
    }
  }

  lemma ReadsMono(buf: seq<Byte>, used: nat, buf': seq<Byte>, used': nat, pos: nat, labels: seq<Label>)
    requires used <= |buf| && used <= used' <= |buf'| && buf'[..used] == buf[..used] && Reads(buf, used, pos, labels)
    ensures Reads(buf', used', pos, labels) && EndAt(buf', used', pos) == EndAt(buf, used, pos) <= used
  {
    var jumps: nat :| jumps <= pos && Walk(buf, used, pos, labels, jumps);
    WalkMono(buf, used, buf', used', pos, labels, jumps);
    EndMono(buf, used, buf', used', pos, labels, jumps);
  }

  class LabelTable {
    var labels: seq<Entry>

    // dnslabel_table_init
    constructor ()
      ensures labels == []
    {
      labels := [];
    }

    // dnslabel_table_get_pos
    method GetPos(text: seq<Byte>) returns (pos: int, ghost k: nat)
      ensures pos == -1 <==> forall i :: 0 <= i < |labels| ==> labels[i].v != text
      ensures pos != -1 ==> pos >= 0 && k < |labels| && labels[k] == Entry(text, pos)
    {
      var i := 0;
      k := 0;
      while i < |labels|
        invariant i <= |labels| && forall m :: 0 <= m < i ==> labels[m].v != text
      {
        if labels[i].v == text {
          return labels[i].pos, i;
        }
        i := i + 1;
      }
      return -1, 0;
    }

    // dnslabel_table_add; a full table takes no more
    method Add(text: seq<Byte>, pos: nat)
      requires |labels| <= MAX_LABELS
      modifies this
      ensures labels == Added(old(labels), text, pos)
    {
      if |labels| == MAX_LABELS {
        return;
      }
      labels := labels + [Entry(text, pos)];
    }
  }

  // ----- a name that is being written -----

  // From pos, some of the labels have been written up to j, and the rest is still to come.
  ghost predicate Opened(buf: seq<Byte>, j: nat, pos: nat, labels: seq<Label>, rest: seq<Label>)
    requires j <= |buf|
  {
    exists done :: WalkTo(buf, j, pos, done, 0, j) && labels == done + rest
  }

  // What started at pos as the string v continues with suffix.
  ghost predicate Started(buf: seq<Byte>, j: nat, pos: nat, v: seq<Byte>, suffix: seq<Byte>)
    requires j <= |buf|
  {
    Good(v) ==> Good(suffix) && Opened(buf, j, pos, Labels(v), Labels(suffix))
  }

  // An entry made while this name is being written.
  ghost predicate OpenEntry(buf: seq<Byte>, j0: nat, j: nat, e: Entry, suffix: seq<Byte>)
    requires j <= |buf|
  {
    |e.v| > |suffix| && j0 <= e.pos < j && Started(buf, j, e.pos, e.v, suffix)
  }

  ghost predicate Building(buf: seq<Byte>, j0: nat, j: nat, labels: seq<Entry>, n0: nat, name: seq<Byte>, suffix: seq<Byte>) {
    && j0 <= j <= |buf| && n0 <= |labels| && TableOk(buf, j0, labels[..n0]) && |labels| <= MAX_LABELS
    && (forall i :: n0 <= i < |labels| ==> OpenEntry(buf, j0, j, labels[i], suffix))
    && Started(buf, j, j0, name, suffix)
  }

  lemma LabelsStep(name: seq<Byte>)
    ensures var d := DotAt(name);
            && (d < |name| ==> Labels(name) == [name[..d]] + Labels(name[d + 1..]) && (Good(name) ==> d > 0 && Good(name[d + 1..])))
            && (d == |name| ==> Good(name) && Labels(name) == if name == [] then [] else [name])
  {
  }

  // The next label, behind which another follows, has been written at j.
  lemma StartedNext(buf: seq<Byte>, j: nat, pos: nat, v: seq<Byte>, suffix: seq<Byte>, buf': seq<Byte>, d: nat)
    requires j <= |buf| && Started(buf, j, pos, v, suffix) && d == DotAt(suffix) < |suffix| && d <= 63
    requires j + 1 + d <= |buf'| && buf'[..j] == buf[..j] && buf'[j] as int == d && buf'[j + 1..j + 1 + d] == suffix[..d]
    ensures Started(buf', j + 1 + d, pos, v, suffix[d + 1..])
  {
    hide WalkTo, Labels, Good, DotAt;
    if Good(v) {
      LabelsStep(suffix);
      var done :| WalkTo(buf, j, pos, done, 0, j) && Labels(v) == done + Labels(suffix);
      var j' := j + 1 + d;
      WalkToMono(buf, j, buf', j', pos, done, 0, j);
      WalkToLabel(buf', j', pos, done, 0, j);
      assert Labels(v) == (done + [suffix[..d]]) + Labels(suffix[d + 1..]);
    }
  }

  // A name begins.
  lemma StartedHere(buf: seq<Byte>, j: nat, v: seq<Byte>)
    requires j <= |buf|
    ensures Started(buf, j, j, v, v)
  {
    assert WalkTo(buf, j, j, [], 0, j);
    assert Labels(v) == [] + Labels(v);
  }

  // The rest has been written at j.
  lemma StartedEnd(buf: seq<Byte>, j: nat, pos: nat, v: seq<Byte>, suffix: seq<Byte>, buf': seq<Byte>, used: nat, jumps: nat)
    requires j <= |buf| && Started(buf, j, pos, v, suffix) && Good(v)
    requires j <= used <= |buf'| && buf'[..j] == buf[..j] && Walk(buf', used, j, Labels(suffix), jumps) && jumps <= pos
    ensures Reads(buf', used, pos, Labels(v)) && EndAt(buf', used, pos) == EndAt(buf', used, j)
  {
    var done :| WalkTo(buf, j, pos, done, 0, j) && Labels(v) == done + Labels(suffix);
    WalkToMono(buf, j, buf', used, pos, done, 0, j);
    WalkOn(buf', used, pos, done, j, Labels(suffix), jumps);
  }

  lemma BuildingStart(buf: seq<Byte>, j: nat, labels: seq<Entry>, name: seq<Byte>)
    requires TableOk(buf, j, labels)
    ensures Building(buf, j, j, labels, |labels|, name, name)
  {
    StartedHere(buf, j, name);
    assert labels[..|labels|] == labels;
  }

  lemma Shorter(buf: seq<Byte>, buf': seq<Byte>, j0: nat, j: nat)
    requires j0 <= j <= |buf| && j <= |buf'| && buf'[..j] == buf[..j]
    ensures buf'[..j0] == buf[..j0]
  {
    assert buf'[..j0] == buf'[..j][..j0] && buf[..j0] == buf[..j][..j0];
  }

  lemma OpenNext(buf: seq<Byte>, j0: nat, j: nat, e: Entry, suffix: seq<Byte>, buf': seq<Byte>, d: nat)
    requires j0 <= j <= |buf| && d == DotAt(suffix) < |suffix| && d <= 63
    requires j + 1 + d <= |buf'| && buf'[..j] == buf[..j] && buf'[j] as int == d && buf'[j + 1..j + 1 + d] == suffix[..d]
    requires OpenEntry(buf, j0, j, e, suffix) || e == Entry(suffix, j)
    ensures OpenEntry(buf', j0, j + 1 + d, e, suffix[d + 1..])
  {
    hide Started;
    if e == Entry(suffix, j) {
      StartedHere(buf, j, suffix);
    }
    StartedNext(buf, j, e.pos, e.v, suffix, buf', d);
  }

  // The label in front of a dot, and the entry for the string that starts with it.
  lemma BuildingNext(buf: seq<Byte>, j0: nat, j: nat, labels: seq<Entry>, n0: nat, name: seq<Byte>, suffix: seq<Byte>,
                     buf': seq<Byte>, labels': seq<Entry>, d: nat)
    requires Building(buf, j0, j, labels, n0, name, suffix) && d == DotAt(suffix) < |suffix| && d <= 63
    requires j + 1 + d <= |buf'| && buf'[..j] == buf[..j] && buf'[j] as int == d && buf'[j + 1..j + 1 + d] == suffix[..d]
    requires labels' == labels || (labels' == labels + [Entry(suffix, j)] && |labels'| <= MAX_LABELS)
    ensures Building(buf', j0, j + 1 + d, labels', n0, name, suffix[d + 1..])
  {
    hide Started, OpenEntry, DotAt, TableOk;
    Shorter(buf, buf', j0, j);
    TableMono(buf, j0, buf', j0, labels[..n0]);
    assert labels'[..n0] == labels[..n0];
    StartedNext(buf, j, j0, name, suffix, buf', d);
    forall i | n0 <= i < |labels'| ensures OpenEntry(buf', j0, j + 1 + d, labels'[i], suffix[d + 1..]) {
      OpenNext(buf, j0, j, labels'[i], suffix, buf', d);
    }
  }

  // The end of the name has been written at j.
  lemma BuildingEnd(buf: seq<Byte>, j0: nat, j: nat, labels: seq<Entry>, n0: nat, name: seq<Byte>, suffix: seq<Byte>,
                    buf': seq<Byte>, used: nat, jumps: nat)
    requires Building(buf, j0, j, labels, n0, name, suffix)
    requires j < used <= |buf'| && buf'[..j] == buf[..j] && jumps <= j0
    requires Good(suffix) ==> Walk(buf', used, j, Labels(suffix), jumps) && EndAt(buf', used, j) == used
    ensures TableOk(buf', used, labels)
    ensures Good(name) ==> Reads(buf', used, j0, Labels(name)) && EndAt(buf', used, j0) == used
  {
    hide Walk, EndAt, Good, Labels, Reads, Opened;
    Shorter(buf, buf', j0, j);
    TableMono(buf, j0, buf', used, labels[..n0]);
    if Good(name) {
      StartedEnd(buf, j, j0, name, suffix, buf', used, jumps);
    }
    forall i | 0 <= i < |labels| ensures EntryOk(buf', used, labels[i]) {
      if i < n0 {
        assert labels[..n0][i] == labels[i];
      } else if Good(labels[i].v) {
        assert OpenEntry(buf, j0, j, labels[i], suffix);
        StartedEnd(buf, j, labels[i].pos, labels[i].v, suffix, buf', used, jumps);
      }
    }
  }

  // An entry for the string that ends the name.
  lemma LastEntry(buf: seq<Byte>, used: nat, labels: seq<Entry>, suffix: seq<Byte>, j: nat)
    requires TableOk(buf, used, labels) && |labels| < MAX_LABELS && j < used && Walk(buf, used, j, Labels(suffix), 0)
    ensures TableOk(buf, used, labels + [Entry(suffix, j)])
  {
    hide Labels, Good, Walk;
    assert Reads(buf, used, j, Labels(suffix));
    forall i | 0 <= i < |labels| + 1 ensures EntryOk(buf, used, (labels + [Entry(suffix, j)])[i]) {
      assert i < |labels| ==> EntryOk(buf, used, labels[i]);
    }
  }

  // A pointer to a string that has been written before.
  lemma PointerEnd(buf: seq<Byte>, j0: nat, pos: nat, suffix: seq<Byte>, buf': seq<Byte>, j: nat) returns (jumps: nat)
    requires j0 <= j && j + 2 <= |buf'| && j0 <= |buf| && EntryOk(buf, j0, Entry(suffix, pos)) && pos < POINTER_REACH
    requires buf'[..j0] == buf[..j0] && buf'[j] as int == 192 + pos / 256 && buf'[j + 1] as int == pos % 256
    ensures jumps <= j0 && EndAt(buf', j + 2, j) == j + 2
    ensures Good(suffix) ==> Walk(buf', j + 2, j, Labels(suffix), jumps)
  {
    hide Good, Labels;
    jumps := 0;
    assert Target(buf'[j], buf'[j + 1]) == pos;
    if Good(suffix) {
      var k: nat :| k <= pos && Walk(buf, j0, pos, Labels(suffix), k);
      WalkMono(buf, j0, buf', j + 2, pos, Labels(suffix), k);
      jumps := k + 1;
    }
  }

  // The last label and the zero byte behind it, or the zero byte alone.
  lemma LabelEnd(buf: seq<Byte>, j: nat, suffix: seq<Byte>, used: nat)
    requires DotAt(suffix) == |suffix| <= 63 && used <= |buf| && j < used && buf[j] as int == |suffix|
    requires if suffix == [] then used == j + 1 else used == j + |suffix| + 2 && buf[j + 1..j + 1 + |suffix|] == suffix && buf[used - 1] == 0
    ensures Walk(buf, used, j, Labels(suffix), 0) && EndAt(buf, used, j) == used
  {
    LabelsStep(suffix);
    hide Labels, DotAt;
    if suffix != [] {
      assert [suffix][1..] == [];
      assert Walk(buf, used, used - 1, [], 0);
      assert EndAt(buf, used, used - 1) == used;
    }
  }

  // ----- dnsname_to_labels -----

  function TableOf(table: LabelTable?): seq<Entry>
    reads table
  {
    if table == null then [] else table.labels
  }

  // A length byte and the label.
  method PutLabel(buf: array<Byte>, j: nat, text: seq<Byte>)
    requires |text| <= 63 && j + 1 + |text| <= buf.Length
    modifies buf
    ensures buf[..j] == old(buf[..j]) && buf[j] as int == |text| && buf[j + 1..j + 1 + |text|] == text
    ensures buf[j + 1 + |text|..] == old(buf[j + 1 + |text|..])
  {
    buf[j] := |text| as Byte;
    var i := 0;
    while i < |text|
      invariant i <= |text| && buf[j] as int == |text| && buf[..j] == old(buf[..j])
      invariant buf[j + 1..j + 1 + i] == text[..i] && buf[j + 1 + |text|..] == old(buf[j + 1 + |text|..])
    {
      buf[j + 1 + i] := text[i];
      i := i + 1;
    }
  }

  // The labels of the name are short enough.
  predicate ShortLabels(name: seq<Byte>)
    decreases |name|
  {
    var d := DotAt(name);
    d <= 63 && (d < |name| ==> ShortLabels(name[d + 1..]))
  }

  // What a call that succeeds has written.
  ghost predicate Written(buf: seq<Byte>, used: nat, pos: nat, name: seq<Byte>)
    requires used <= |buf|
  {
    Good(name) ==> Reads(buf, used, pos, Labels(name)) && EndAt(buf, used, pos) == used
  }

  lemma BuildingFacts(buf: seq<Byte>, j0: nat, j: nat, labels: seq<Entry>, n0: nat, name: seq<Byte>, suffix: seq<Byte>)
    requires Building(buf, j0, j, labels, n0, name, suffix)
    ensures j0 <= j <= |buf| && n0 <= |labels| <= MAX_LABELS
  {
  }

  // A string found in the table was written by an earlier call, since those of this one are longer.
  lemma KnownEntry(buf: seq<Byte>, j0: nat, j: nat, labels: seq<Entry>, n0: nat, name: seq<Byte>, suffix: seq<Byte>, k: nat)
    requires Building(buf, j0, j, labels, n0, name, suffix) && k < |labels| && labels[k].v == suffix
    ensures k < n0 <= |labels| && j0 <= |buf| && EntryOk(buf, j0, labels[k])
  {
    hide Started, EntryOk, Good, Labels;
    assert !OpenEntry(buf, j0, j, labels[k], suffix);
    assert labels[..n0][k] == labels[k];
  }

  lemma ShortStep(name: seq<Byte>)
    ensures ShortLabels(name) <==> DotAt(name) <= 63 && (DotAt(name) < |name| ==> ShortLabels(name[DotAt(name) + 1..]))
  {
    hide DotAt;
  }

  // a pointer to a string that the table knows
  method PutPointer(buf: array<Byte>, ghost j0: nat, j: nat, ghost labels: seq<Entry>, ghost n0: nat, ghost name: seq<Byte>,
                    ghost suffix: seq<Byte>, ref: nat, ghost hi: nat)
    requires Building(buf[..], j0, j, labels, n0, name, suffix) && j0 <= j && j + 2 <= hi <= buf.Length && j0 <= POINTER_REACH
    requires EntryOk(buf[..], j0, Entry(suffix, ref))
    modifies buf
    ensures buf[..j0] == old(buf[..j0]) && buf[hi..] == old(buf[hi..]) && TableOk(buf[..], j + 2, labels) && Written(buf[..], j + 2, j0, name)
  {
    hide Good, Labels, TableOk, Building, Reads, Walk, EndAt;
    ghost var buf0 := buf[..];
    buf[j] := (192 + ref / 256) as Byte;
    buf[j + 1] := (ref % 256) as Byte;
    assert buf[hi..] == buf0[hi..];
    assert buf[..][..j] == buf0[..j];
    Shorter(buf0, buf[..], j0, j);
    ghost var jumps := PointerEnd(buf0, j0, ref, suffix, buf[..], j);
    BuildingEnd(buf0, j0, j, labels, n0, name, suffix, buf[..], j + 2, jumps);
  }

  // the label in front of a dot
  method PutNext(buf: array<Byte>, ghost j0: nat, j: nat, table: LabelTable?, ghost n0: nat, ghost name: seq<Byte>, suffix: seq<Byte>, d: nat, ghost hi: nat)
    requires Building(buf[..], j0, j, TableOf(table), n0, name, suffix) && d == DotAt(suffix) < |suffix| && d <= 63
    requires j0 <= j && j + d + 1 <= hi <= buf.Length && |TableOf(table)| <= MAX_LABELS
    modifies buf, table
    ensures buf[..j0] == old(buf[..j0]) && buf[hi..] == old(buf[hi..])
    ensures table != null ==> table.labels == Added(old(TableOf(table)), suffix, j)
    ensures Building(buf[..], j0, j + 1 + d, TableOf(table), n0, name, suffix[d + 1..])
    ensures old(Remembered(table, name)) || suffix == name ==> Remembered(table, name)
  {
    hide DotAt, Building, Known;
    ghost var buf0, labels0 := buf[..], TableOf(table);
    if table != null {
      table.Add(suffix, j);
      KnownLonger(labels0, table.labels, name);
    }
    PutLabel(buf, j, suffix[..d]);
    assert buf[hi..] == buf[j + 1 + d..][hi - (j + 1 + d)..];
    assert buf[..][..j] == buf0[..j] && buf[..][j + 1..j + 1 + d] == suffix[..d];
    Shorter(buf0, buf[..], j0, j);
    BuildingNext(buf0, j0, j, labels0, n0, name, suffix, buf[..], TableOf(table), d);
  }

  // the bytes of the last label, and the zero byte unless the label is empty
  method PutEnd(buf: array<Byte>, j: nat, suffix: seq<Byte>, ghost hi: nat) returns (r: nat)
    requires CString(suffix) && |suffix| <= 63 && j + |suffix| + 1 <= hi < buf.Length
    modifies buf
    ensures j < r <= buf.Length && r == j + (if suffix == [] then 1 else |suffix| + 2) && buf[..j] == old(buf[..j])
    ensures buf[j] as int == |suffix| && buf[j + 1..j + 1 + |suffix|] == suffix && buf[r - 1] == 0
    ensures buf[hi + 1..] == old(buf[hi + 1..]) && (r <= hi ==> buf[hi..] == old(buf[hi..]))
  {
    ghost var buf0 := buf[..];
    PutLabel(buf, j, suffix);
    r := j + 1 + |suffix|;
    assert forall i :: r <= i < buf.Length ==> buf[i] == buf[r..][i - r] == buf0[r..][i - r] == buf0[i];
    assert suffix != [] ==> buf[r - 1] == buf[j + 1..r][|suffix| - 1] == suffix[|suffix| - 1];
    if r == 0 || buf[r - 1] != 0 {
      buf[r] := 0;
      r := r + 1;
    }
  }

  // the last label ends the name
  method PutLast(buf: array<Byte>, ghost j0: nat, j: nat, table: LabelTable?, ghost n0: nat, ghost name: seq<Byte>, suffix: seq<Byte>, ghost hi: nat)
    returns (r: nat)
    requires Building(buf[..], j0, j, TableOf(table), n0, name, suffix) && CString(suffix) && DotAt(suffix) == |suffix| <= 63
    requires j0 <= j && j + |suffix| + 1 <= hi < buf.Length && |TableOf(table)| <= MAX_LABELS
    modifies buf, table
    ensures j0 < r <= buf.Length && r == j + (if suffix == [] then 1 else |suffix| + 2) && buf[..j0] == old(buf[..j0])
    ensures buf[r - 1] == 0 && buf[hi + 1..] == old(buf[hi + 1..]) && (r <= hi ==> buf[hi..] == old(buf[hi..]))
    ensures table != null ==> table.labels == Added(old(TableOf(table)), suffix, j)
    ensures TableOk(buf[..], r, TableOf(table)) && Written(buf[..], r, j0, name)
    ensures old(Remembered(table, name)) || suffix == name ==> Remembered(table, name)
  {
    hide Good, Labels, DotAt, TableOk, Building, Reads, Walk, EndAt, Known;
    ghost var buf0, labels0 := buf[..], TableOf(table);
    if table != null {
      table.Add(suffix, j);
      KnownLonger(labels0, table.labels, name);
    }
    r := PutEnd(buf, j, suffix, hi);
    assert buf[..][..j] == buf0[..j] && buf[..][j + 1..j + 1 + |suffix|] == suffix;
    Shorter(buf0, buf[..], j0, j);
    LabelEnd(buf[..], j, suffix, r);
    BuildingEnd(buf0, j0, j, labels0, n0, name, suffix, buf[..], r, 0);
    if |labels0| < MAX_LABELS {
      LastEntry(buf[..], r, labels0, suffix, j);
    }
  }

  // The name will be found, unless there is no table or it is full.
  predicate Remembered(table: LabelTable?, v: seq<Byte>)
    reads table
  {
    table != null && |table.labels| < MAX_LABELS ==> Known(table.labels, v)
  }

  lemma KnownLonger(labels: seq<Entry>, labels': seq<Entry>, v: seq<Byte>)
    requires labels <= labels'
    ensures Known(labels, v) ==> Known(labels', v)
    ensures forall j :: labels' == labels + [Entry(v, j)] ==> Known(labels', v)
  {
    forall j | labels' == labels + [Entry(v, j)] ensures Known(labels', v) {
      assert labels'[|labels|].v == v;
    }
    if Known(labels, v) {
      var i :| 0 <= i < |labels| && labels[i].v == v;
      assert labels'[i] == labels[i];
    }
  }

  lemma KnownAt(labels: seq<Entry>, labels0: seq<Entry>, k: nat)
    requires labels0 <= labels && k < |labels0|
    ensures Known(labels0, labels[k].v) && Known(labels, labels[k].v)
  {
    assert labels0[k] == labels[k];
  }

  lemma NotKnown(labels: seq<Entry>, labels0: seq<Entry>, v: seq<Byte>)
    requires labels0 <= labels && forall i :: 0 <= i < |labels| ==> labels[i].v != v
    ensures !Known(labels0, v)
  {
    assert forall i :: 0 <= i < |labels0| ==> labels0[i] == labels[i];
  }

  predicate Known(labels: seq<Entry>, v: seq<Byte>) {
    exists i :: 0 <= i < |labels| && labels[i].v == v
  }

  // The table with one more entry, if there is room.
  function Added(labels: seq<Entry>, text: seq<Byte>, pos: nat): seq<Entry> {
    if |labels| == MAX_LABELS then labels else labels + [Entry(text, pos)]
  }

  lemma AddedLonger(labels: seq<Entry>, text: seq<Byte>, pos: nat)
    ensures labels <= Added(labels, text, pos)
  {
  }

  // The table when a name has been written at j: every part of it up to the first that was known.
  function TableAfter(name: seq<Byte>, labels: seq<Entry>, j: nat): seq<Entry>
    decreases |name|
  {
    var d := DotAt(name);
    if Known(labels, name) then labels
    else if d < |name| then TableAfter(name[d + 1..], Added(labels, name, j), j + 1 + d)
    else Added(labels, name, j)
  }

  lemma TableStep(name: seq<Byte>, labels: seq<Entry>, j: nat)
    ensures var d := DotAt(name);
            TableAfter(name, labels, j) ==
            if Known(labels, name) then labels
            else if d < |name| then TableAfter(name[d + 1..], Added(labels, name, j), j + 1 + d)
            else Added(labels, name, j)
  {
  }

  // The bytes that a name takes: its labels up to the first part of it that the table knows, and a
  // pointer; or all its labels and the zero byte.
  function Size(name: seq<Byte>, labels: seq<Entry>): nat
    decreases |name|
  {
    var d := DotAt(name);
    if Known(labels, name) then 2
    else if d < |name| then d + 1 + Size(name[d + 1..], labels)
    else if name == [] then 1 else |name| + 2
  }

  lemma SizeStep(name: seq<Byte>, labels: seq<Entry>)
    ensures Size(name, labels) == if Known(labels, name) then 2
                                  else if DotAt(name) < |name| then DotAt(name) + 1 + Size(name[DotAt(name) + 1..], labels)
                                  else if name == [] then 1 else |name| + 2
  {
  }

  // No part of the name is in the table.
  predicate Unknown(name: seq<Byte>, labels: seq<Entry>)
    decreases |name|
  {
    var d := DotAt(name);
    !Known(labels, name) && (d < |name| ==> Unknown(name[d + 1..], labels))
  }

  // The last label is not empty.
  predicate Open(name: seq<Byte>) {
    name != [] && name[|name| - 1] != DOT
  }

  // The labels fit at j but not the zero byte behind them, which is stored without another look at
  // the length of the buffer.
  predicate Overruns(name: seq<Byte>, labels: seq<Entry>, j: nat, bufLen: nat) {
    Unknown(name, labels) && Open(name) && j + Size(name, labels) == bufLen + 1
  }

  // What is left to write after a label that the table does not know.
  lemma RestOf(name: seq<Byte>, labels: seq<Entry>)
    requires DotAt(name) < |name| && !Known(labels, name)
    ensures var rest := name[DotAt(name) + 1..];
            && (Unknown(name, labels) <==> Unknown(rest, labels)) && (Open(name) <==> Open(rest))
            && Size(rest, labels) > 0
  {
    hide Known;
  }

  lemma UnknownEnd(name: seq<Byte>, labels: seq<Entry>)
    ensures Known(labels, name) ==> !Unknown(name, labels)
    ensures DotAt(name) == |name| && !Known(labels, name) ==> Unknown(name, labels) && (Open(name) <==> name != [])
  {
    hide Known;
  }

  // The buffer is the first bufLen bytes of mem.  A call succeeds exactly when the name fits, or
  // overruns the buffer by the zero byte; and it writes outside the buffer exactly then.
  method DnsnameToLabels(mem: array<Byte>, bufLen: nat, j0: nat, name: seq<Byte>, table: LabelTable?) returns (r: int)
    requires CString(name) && bufLen <= POINTER_REACH && bufLen < mem.Length
    requires TableOk(mem[..], j0, TableOf(table))
    modifies mem, table
    ensures r == -1 || r == -2 || j0 < r <= bufLen + 1
    ensures mem[..j0] == old(mem[..j0])
    ensures r >= 0 ==> TableOk(mem[..], r, TableOf(table)) && Written(mem[..], r, j0, name)
    ensures r >= 0 ==> r == j0 + Size(name, old(TableOf(table)))
    ensures r >= 0 && table != null ==> table.labels == TableAfter(name, old(TableOf(table)), j0)
    ensures r >= 0 ==> Remembered(table, name)
    ensures |name| > MAX_NAME ==> r == -2
    ensures r == -1 ==> !ShortLabels(name)
    ensures |name| <= MAX_NAME && ShortLabels(name) ==>
              (r >= 0 <==> j0 + Size(name, old(TableOf(table))) <= bufLen || Overruns(name, old(TableOf(table)), j0, bufLen))
    ensures if r >= 0 && Overruns(name, old(TableOf(table)), j0, bufLen)
            then r == bufLen + 1 && mem[bufLen] == 0 && mem[bufLen + 1..] == old(mem[bufLen + 1..])
            else r <= bufLen && mem[bufLen..] == old(mem[bufLen..])
  {
    hide Good, Labels, DotAt, TableOk, Building, Reads, Walk, EndAt, ShortLabels, Size, Known, Unknown, Open, TableAfter, Added;
    ghost var labels1 := TableOf(table);
    if |name| > MAX_NAME {
      return -2;
    }
    var j: nat := j0;
    var suffix := name;
    ghost var n0 := |TableOf(table)|;
    BuildingStart(mem[..], j0, TableOf(table), name);
    while true
      invariant Building(mem[..], j0, j, TableOf(table), n0, name, suffix)
      invariant (j <= bufLen || j == j0) && |suffix| <= |name| && CString(suffix)
      invariant mem[..j0] == old(mem[..j0]) && mem[bufLen..] == old(mem[bufLen..])
      invariant ShortLabels(name) ==> ShortLabels(suffix)
      invariant n0 == |labels1| && labels1 <= TableOf(table)
      invariant Remembered(table, name) || suffix == name
      invariant j0 + Size(name, labels1) == j + Size(suffix, labels1)
      invariant (Unknown(name, labels1) <==> Unknown(suffix, labels1)) && (Open(name) <==> Open(suffix))
      invariant table != null ==> TableAfter(name, labels1, j0) == TableAfter(suffix, table.labels, j)
      decreases |suffix|
    {
      SizeStep(suffix, labels1);
      UnknownEnd(suffix, labels1);
      TableStep(suffix, TableOf(table), j);
      BuildingFacts(mem[..], j0, j, TableOf(table), n0, name, suffix);
      ShortStep(suffix);
      if table != null {
        var ref, k := table.GetPos(suffix);
        if ref >= 0 {
          KnownEntry(mem[..], j0, j, table.labels, n0, name, suffix, k);
          KnownAt(table.labels, labels1, k);
          if j + 2 > bufLen {
            return -2;
          }
          PutPointer(mem, j0, j, table.labels, n0, name, suffix, ref, bufLen);
          return j + 2;
        }
      }
      NotKnown(TableOf(table), labels1, suffix);
      NotKnown(TableOf(table), TableOf(table), suffix);
      var d := DotAt(suffix);
      if d == |suffix| {
        if d > 63 {
          return -1;
        }
        if j + d + 1 > bufLen {
          return -2;
        }
        r := PutLast(mem, j0, j, table, n0, name, suffix, bufLen);
        return;
      }
      RestOf(suffix, labels1);
      if d > 63 {
        return -1;
      }
      if j + d + 1 > bufLen {
        return -2;
      }
      ghost var labels2 := TableOf(table);
      PutNext(mem, j0, j, table, n0, name, suffix, d, bufLen);
      AddedLonger(labels2, suffix, j);
      j := j + 1 + d;
      suffix := suffix[d + 1..];
    }
  }

  // The smallest overrun: the name "a" in a buffer of two bytes.
  method OverrunByOne() returns (mem: array<Byte>, r: int)
    ensures mem[..] == [1, 97, 0] && r == 3 == 2 + 1
  {
    mem := new Byte[3](i => 255);
    var name := [97];
    assert DotAt(name) == 1;
    assert Overruns(name, [], 0, 2) && ShortLabels(name) && Labels(name) == [name];
    r := DnsnameToLabels(mem, 2, 0, name, null);
    ghost var jumps: nat :| jumps <= 0 && Walk(mem[..], 3, 0, [name], jumps);
    assert mem[1..2] == name;
  }

  lemma {:induction false} SizeBound(name: seq<Byte>, labels: seq<Entry>)
    ensures Size(name, labels) <= |name| + 2
    decreases |name|
  {
    hide Known;
    var d := DotAt(name);
    if !Known(labels, name) && d < |name| {
      SizeBound(name[d + 1..], labels);
    }
  }

  const DNS_HEADER := 12

  // evdns_request_len
  function RequestLen(nameLen: nat): nat {
    96 + nameLen + 2 + 4
  }

  // A question is written into a buffer of that length, where it always fits.
  lemma RequestFits(name: seq<Byte>, labels: seq<Entry>)
    ensures DNS_HEADER + Size(name, labels) + 4 <= RequestLen(|name|)
    ensures !Overruns(name, labels, DNS_HEADER, RequestLen(|name|))
  {
    SizeBound(name, labels);
  }
}
