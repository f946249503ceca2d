/** Compressed domain names, section 4.1.4 of RFC 1035, as libevent/evdns.c reads them (name_parse)
    and writes them (dnsname_to_labels with a dnslabel_table). */
module DnsNames {
  import opened Bytes

  const DOT: Byte := 46

  type Label = seq<Byte>

  // ----- what a packet says -----

  // A length byte of 64 or more starts a pointer, whose target has 14 bits.
  predicate IsPointer(b: Byte) {
    b as int >= 64
  }

  function Target(high: Byte, low: Byte): nat {
    (high as int % 64) * 256 + low as int
  }

  // The name at pos in the first length bytes consists of these labels, after this many jumps.
  ghost predicate Walk(packet: seq<Byte>, length: nat, pos: nat, labels: seq<Label>, jumps: nat)
    requires length <= |packet|
    decreases jumps, |labels|
  {
    && pos < length
    && var b := packet[pos];
       if b == 0 then labels == [] && jumps == 0
       else if IsPointer(b) then
         pos + 1 < length && jumps > 0 && Target(b, packet[pos + 1]) < length
         && Walk(packet, length, Target(b, packet[pos + 1]), labels, jumps - 1)
       else
         var next := pos + 1 + b as int;
         next <= length && labels != [] && labels[0] == packet[pos + 1..next] && Walk(packet, length, next, labels[1..], jumps)
  }

  // Where the name at pos ends: after its zero byte, or after its first pointer.
  function EndAt(packet: seq<Byte>, length: nat, pos: nat): nat
    requires length <= |packet|
    decreases length - pos
  {
    if pos >= length then pos
    else if packet[pos] == 0 then pos + 1
    else if IsPointer(packet[pos]) then pos + 2
    else EndAt(packet, length, pos + 1 + packet[pos] as int)
  }

  function Join(labels: seq<Label>): seq<Byte> {
    if labels == [] then []
    else if |labels| == 1 then labels[0]
    else Join(labels[..|labels| - 1]) + [DOT] + labels[|labels| - 1]
  }

  // The bytes of a packet say one thing.
  lemma {:induction false} WalkUnique(packet: seq<Byte>, length: nat, pos: nat, labels: seq<Label>, jumps: nat,
                                      labels': seq<Label>, jumps': nat)
    requires length <= |packet| && Walk(packet, length, pos, labels, jumps) && Walk(packet, length, pos, labels', jumps')
    ensures labels == labels' && jumps == jumps'
    decreases jumps, |labels|
  {
    var b := packet[pos];
    if b == 0 {
    } else if IsPointer(b) {
      WalkUnique(packet, length, Target(b, packet[pos + 1]), labels, jumps - 1, labels', jumps' - 1);
    } else {
      WalkUnique(packet, length, pos + 1 + b as int, labels[1..], jumps, labels'[1..], jumps');
      assert labels == [labels[0]] + labels[1..];
      assert labels' == [labels'[0]] + labels'[1..];
    }
  }

  // ----- name_parse -----

  // Reading these labels, with this many jumps, leads from pos to j.
  ghost predicate WalkTo(packet: seq<Byte>, length: nat, pos: nat, labels: seq<Label>, jumps: nat, j: nat)
    requires length <= |packet|
    decreases jumps, |labels|
  {
    || (labels == [] && jumps == 0 && j == pos)
    || (pos < length && packet[pos] != 0 &&
        var b := packet[pos];
        if IsPointer(b) then
          pos + 1 < length && jumps > 0 && Target(b, packet[pos + 1]) < length
          && WalkTo(packet, length, Target(b, packet[pos + 1]), labels, jumps - 1, j)
        else
          var next := pos + 1 + b as int;
          next <= length && labels != [] && labels[0] == packet[pos + 1..next] && WalkTo(packet, length, next, labels[1..], jumps, j))
  }

  lemma {:induction false} WalkToLabel(packet: seq<Byte>, length: nat, pos: nat, labels: seq<Label>, jumps: nat, j: nat)
    requires length <= |packet| && WalkTo(packet, length, pos, labels, jumps, j)
    requires j < length && packet[j] != 0 && !IsPointer(packet[j]) && j + 1 + packet[j] as int <= length
    ensures var next := j + 1 + packet[j] as int;
            WalkTo(packet, length, pos, labels + [packet[j + 1..next]], jumps, next)
    decreases jumps, |labels|
  {
    var next := j + 1 + packet[j] as int;
    var last := packet[j + 1..next];
    if labels == [] && jumps == 0 && j == pos {
      assert [last][1..] == [];
    } else if IsPointer(packet[pos]) {
      WalkToLabel(packet, length, Target(packet[pos], packet[pos + 1]), labels, jumps - 1, j);
    } else {
      WalkToLabel(packet, length, pos + 1 + packet[pos] as int, labels[1..], jumps, j);
      assert (labels + [last])[1..] == labels[1..] + [last];
    }
  }

  lemma {:induction false} WalkToPointer(packet: seq<Byte>, length: nat, pos: nat, labels: seq<Label>, jumps: nat, j: nat)
    requires length <= |packet| && WalkTo(packet, length, pos, labels, jumps, j)
    requires j + 1 < length && IsPointer(packet[j]) && Target(packet[j], packet[j + 1]) < length
    ensures WalkTo(packet, length, pos, labels, jumps + 1, Target(packet[j], packet[j + 1]))
    decreases jumps, |labels|
  {
    if labels == [] && jumps == 0 && j == pos {
    } else if IsPointer(packet[pos]) {
      WalkToPointer(packet, length, Target(packet[pos], packet[pos + 1]), labels, jumps - 1, j);
    } else {
      WalkToPointer(packet, length, pos + 1 + packet[pos] as int, labels[1..], jumps, j);
    }
  }

  lemma {:induction false} WalkToEnd(packet: seq<Byte>, length: nat, pos: nat, labels: seq<Label>, jumps: nat, j: nat)
    requires length <= |packet| && WalkTo(packet, length, pos, labels, jumps, j) && j < length && packet[j] == 0
    ensures Walk(packet, length, pos, labels, jumps)
    decreases jumps, |labels|
  {
    if labels == [] && jumps == 0 && j == pos {
    } else if IsPointer(packet[pos]) {
      WalkToEnd(packet, length, Target(packet[pos], packet[pos + 1]), labels, jumps - 1, j);
    } else {
      WalkToEnd(packet, length, pos + 1 + packet[pos] as int, labels[1..], jumps, j);
    }
  }

  datatype Parsed = BadName | Parsed(name: seq<Byte>, next: nat)

  // The name at idx can be read: with at most length jumps, and into a buffer of outLen bytes.
  ghost predicate Says(packet: seq<Byte>, length: nat, idx: nat, outLen: int, labels: seq<Label>, jumps: nat)
    requires length <= |packet|
  {
    Walk(packet, length, idx, labels, jumps) && jumps <= length && |Join(labels)| < outLen
  }

  lemma {:induction false} JoinPrefix(labels: seq<Label>, k: nat)
    requires k <= |labels|
    ensures |Join(labels[..k])| <= |Join(labels)|
  {
    if k < |labels| {
      JoinPrefix(labels[..|labels| - 1], k);
      assert labels[..|labels| - 1][..k] == labels[..k];
    } else {
      assert labels[..k] == labels;
    }
  }

  lemma JoinOne(labels: seq<Label>, last: Label)
    ensures Join(labels + [last]) == if labels == [] then last else Join(labels) + [DOT] + last
  {
    assert (labels + [last])[..|labels|] == labels;
  }

  // The labels the reader has gathered, and those that are still to come if the name can be read.
  ghost predicate Ahead(packet: seq<Byte>, length: nat, outLen: int, done: seq<Label>, j: nat, jumps: nat, labels: seq<Label>, total: nat)
    requires length <= |packet|
  {
    && |done| <= |labels| && done == labels[..|done|] && jumps <= total <= length && |Join(labels)| < outLen
    && Walk(packet, length, j, labels[|done|..], total - jumps)
  }

  // If the name can be read, the next label fits.
  lemma AheadLabel(packet: seq<Byte>, length: nat, outLen: int, done: seq<Label>, j: nat, jumps: nat, labels: seq<Label>, total: nat)
    requires length <= |packet| && Ahead(packet, length, outLen, done, j, jumps, labels, total)
    requires j < length && packet[j] != 0 && !IsPointer(packet[j])
    ensures var next := j + 1 + packet[j] as int;
            && next <= length && |Join(done + [packet[j + 1..next]])| < outLen
            && Ahead(packet, length, outLen, done + [packet[j + 1..next]], next, jumps, labels, total)
  {
    var next, n := j + 1 + packet[j] as int, |done|;
    var last := packet[j + 1..next];
    assert labels[n..][0] == labels[n];
    assert labels[..n + 1] == done + [last];
    assert labels[n..][1..] == labels[n + 1..];
    JoinPrefix(labels, n + 1);
  }

  lemma AheadByte(packet: seq<Byte>, length: nat, outLen: int, done: seq<Label>, j: nat, jumps: nat, labels: seq<Label>, total: nat)
    requires length <= |packet| && Ahead(packet, length, outLen, done, j, jumps, labels, total)
    ensures j < length
    ensures packet[j] == 0 ==> done == labels && jumps == total
    ensures IsPointer(packet[j]) ==>
              && j + 1 < length && Target(packet[j], packet[j + 1]) < length && jumps < total
              && Ahead(packet, length, outLen, done, Target(packet[j], packet[j + 1]), jumps + 1, labels, total)
  {
    if packet[j] == 0 {
      assert labels[|done|..] == [];
    }
  }

  lemma EndStep(packet: seq<Byte>, length: nat, j: nat)
    requires length <= |packet| && j < length
    ensures EndAt(packet, length, j) == if packet[j] == 0 then j + 1 else if IsPointer(packet[j]) then j + 2
                                        else EndAt(packet, length, j + 1 + packet[j] as int)
  {
  }

  lemma Only(packet: seq<Byte>, length: nat, idx: nat, outLen: int, labels: seq<Label>, jumps: nat)
    requires length <= |packet| && Says(packet, length, idx, outLen, labels, jumps)
    ensures forall ls, js :: Says(packet, length, idx, outLen, ls, js) ==> ls == labels && js == jumps
  {
    forall ls, js | Says(packet, length, idx, outLen, ls, js) ensures ls == labels && js == jumps {
      WalkUnique(packet, length, idx, labels, jumps, ls, js);
    }
  }

  // What the reader knows when it is at j.
  ghost predicate Reading(packet: seq<Byte>, length: nat, idx: nat, outLen: int, done: seq<Label>, j: nat, jumps: nat,
                          nameEnd: int, out: seq<Byte>, ok: bool, all: seq<Label>, total: nat)
    requires length <= |packet|
  {
    && WalkTo(packet, length, idx, done, jumps, j) && out == Join(done) && (out == [] <==> done == [])
    && jumps <= length && (done == [] || |out| < outLen)
    && (if jumps == 0 then nameEnd == -1 && EndAt(packet, length, j) == EndAt(packet, length, idx) && idx <= j
        else nameEnd == EndAt(packet, length, idx) && idx < nameEnd <= length)
    && (ok ==> Ahead(packet, length, outLen, done, j, jumps, all, total))
  }

  // A jump.
  lemma ReadingPointer(packet: seq<Byte>, length: nat, idx: nat, outLen: int, done: seq<Label>, j: nat, jumps: nat,
                       nameEnd: int, out: seq<Byte>, ok: bool, all: seq<Label>, total: nat)
    requires length <= |packet| && Reading(packet, length, idx, outLen, done, j, jumps, nameEnd, out, ok, all, total)
    requires j < length && IsPointer(packet[j])
    ensures ok ==> j + 1 < length && Target(packet[j], packet[j + 1]) < length && jumps + 1 <= length
    ensures j + 1 < length && Target(packet[j], packet[j + 1]) < length && jumps + 1 <= length ==>
              Reading(packet, length, idx, outLen, done, Target(packet[j], packet[j + 1]), jumps + 1,
                      if nameEnd < 0 then j + 2 else nameEnd, out, ok, all, total)
  {
    hide Walk, WalkTo, EndAt, Join, Ahead;
    if ok { AheadByte(packet, length, outLen, done, j, jumps, all, total); }
    if j + 1 < length && Target(packet[j], packet[j + 1]) < length {
      WalkToPointer(packet, length, idx, done, jumps, j);
      EndStep(packet, length, j);
    }
  }

  // A label, and the dot in front of it if it is not the first.
  lemma ReadingLabel(packet: seq<Byte>, length: nat, idx: nat, outLen: int, done: seq<Label>, j: nat, jumps: nat,
                     nameEnd: int, out: seq<Byte>, ok: bool, all: seq<Label>, total: nat)
    requires length <= |packet| && Reading(packet, length, idx, outLen, done, j, jumps, nameEnd, out, ok, all, total)
    requires j < length && packet[j] != 0 && !IsPointer(packet[j])
    ensures var n, dot := packet[j] as int, if out == [] then [] else [DOT];
            && (ok ==> j + 1 + n <= length && |out| + |dot| + n < outLen)
            && (j + 1 + n <= length && |out| + |dot| + n < outLen ==>
                  Reading(packet, length, idx, outLen, done + [packet[j + 1..j + 1 + n]], j + 1 + n, jumps,
                          nameEnd, out + dot + packet[j + 1..j + 1 + n], ok, all, total))
  {
    hide Walk, WalkTo, EndAt, Ahead, Join;
    var n := packet[j] as int;
    if j + 1 + n <= length {
      WalkToLabel(packet, length, idx, done, jumps, j);
      EndStep(packet, length, j);
      JoinNext(done, out, packet[j + 1..j + 1 + n]);
    }
    if ok {
      AheadLabel(packet, length, outLen, done, j, jumps, all, total);
    }
  }

  lemma JoinNext(done: seq<Label>, out: seq<Byte>, last: Label)
    requires out == Join(done) && (out == [] <==> done == [])
    ensures Join(done + [last]) == out + (if out == [] then [] else [DOT]) + last
  {
    JoinOne(done, last);
  }

  // name_parse
  method NameParse(packet: seq<Byte>, length: nat, idx: nat, outLen: int) returns (r: Parsed)
    requires length <= |packet|
    ensures r.Parsed? <==> exists labels, jumps :: Says(packet, length, idx, outLen, labels, jumps)
    ensures forall labels, jumps :: Says(packet, length, idx, outLen, labels, jumps) ==> r == Parsed(Join(labels), EndAt(packet, length, idx))
    ensures r.Parsed? ==> |r.name| < outLen && idx < r.next <= length
  {
    hide Walk, WalkTo, Join, EndAt, Target, Reading, Says, Ahead;
    ghost var ok := exists labels, jumps :: Says(packet, length, idx, outLen, labels, jumps);
    ghost var all: seq<Label>, total: nat := [], 0;
    if ok {
      all, total :| Says(packet, length, idx, outLen, all, total);
    }
    var nameEnd: int := -1;
    var j: nat := idx;
    var ptrCount: nat := 0;
    var out: seq<Byte> := [];
    ghost var done: seq<Label> := [];
    ReadingStart(packet, length, idx, outLen, ok, all, total);
    while true
      invariant Reading(packet, length, idx, outLen, done, j, ptrCount, nameEnd, out, ok, all, total)
      invariant ptrCount <= length
      decreases length - ptrCount, if j <= length then length - j else 0
    {
      ReadingByte(packet, length, idx, outLen, done, j, ptrCount, nameEnd, out, ok, all, total);
      if j >= length {
        return BadName;
      }
      var labelLen := packet[j];
      j := j + 1;
      if labelLen == 0 {
        break;
      }
      if IsPointer(labelLen) {
        ReadingPointer(packet, length, idx, outLen, done, j - 1, ptrCount, nameEnd, out, ok, all, total);
        if j >= length {
          return BadName;
        }
        var ptrLow := packet[j];
        j := j + 1;
        if nameEnd < 0 {
          nameEnd := j;
        }
        j := Target(labelLen, ptrLow);
        if j >= length {
          return BadName;
        }
        ptrCount := ptrCount + 1;
        if ptrCount > length {
          return BadName;
        }
      } else {
        ReadingLabel(packet, length, idx, outLen, done, j - 1, ptrCount, nameEnd, out, ok, all, total);
        var n := labelLen as int;
        assert out + [] == out;
        if out != [] {
          if |out| + 1 >= outLen {
            return BadName;
          }
          out := out + [DOT];
        }
        if |out| + n >= outLen {
          return BadName;
        }
        if j + n > length {
          return BadName;
        }
        done := done + [packet[j..j + n]];
        out := out + packet[j..j + n];
        j := j + n;
      }
    }
    ReadingEnd(packet, length, idx, outLen, done, j - 1, ptrCount, nameEnd, out, ok, all, total);
    if |out| >= outLen {
      return BadName;
    }
    r := Parsed(out, if nameEnd < 0 then j else nameEnd);
  }

  lemma ReadingStart(packet: seq<Byte>, length: nat, idx: nat, outLen: int, ok: bool, all: seq<Label>, total: nat)
    requires length <= |packet| && (ok ==> Says(packet, length, idx, outLen, all, total))
    ensures Reading(packet, length, idx, outLen, [], idx, 0, -1, [], ok, all, total)
  {
    hide EndAt, Walk;
    assert all[0..] == all;
  }

  lemma ReadingByte(packet: seq<Byte>, length: nat, idx: nat, outLen: int, done: seq<Label>, j: nat, jumps: nat,
                    nameEnd: int, out: seq<Byte>, ok: bool, all: seq<Label>, total: nat)
    requires length <= |packet| && Reading(packet, length, idx, outLen, done, j, jumps, nameEnd, out, ok, all, total)
    ensures ok ==> j < length
  {
    hide Walk, WalkTo, EndAt, Join, Ahead;
    if ok { AheadByte(packet, length, outLen, done, j, jumps, all, total); }
  }

  // The zero byte: what was gathered is what the packet says.
  lemma ReadingEnd(packet: seq<Byte>, length: nat, idx: nat, outLen: int, done: seq<Label>, j: nat, jumps: nat,
                   nameEnd: int, out: seq<Byte>, ok: bool, all: seq<Label>, total: nat)
    requires length <= |packet| && Reading(packet, length, idx, outLen, done, j, jumps, nameEnd, out, ok, all, total)
    requires j < length && packet[j] == 0
    ensures ok ==> |out| < outLen
    ensures |out| < outLen ==>
              && Says(packet, length, idx, outLen, done, jumps)
              && (forall ls, js :: Says(packet, length, idx, outLen, ls, js) ==> Join(ls) == out)
    ensures var next := if nameEnd < 0 then j + 1 else nameEnd;
            next == EndAt(packet, length, idx) && idx < next <= length
  {
    hide Walk, WalkTo, EndAt, Join;
    if ok { AheadByte(packet, length, outLen, done, j, jumps, all, total); }
    WalkToEnd(packet, length, idx, done, jumps, j);
    EndStep(packet, length, j);
    if |out| < outLen {
      Only(packet, length, idx, outLen, done, jumps);
    }
  }
}
