/** Names on the wire: `name_parse` (decoding with compression pointers under a jump budget) and
    `dnsname_to_labels` (encoding with a table of the suffixes already written). */
module DnsWire {
  import opened Bytes
  import opened Wrappers
  import opened DnsName

  // ---------- Decoding ----------

  datatype Reading = Reading(labels: seq<Label>, end: nat)

  /** The offset a compression pointer names: its low fourteen bits. */
  function PointerTarget(high: int, low: int): int {
    high % 64 * 256 + low
  }

  /** Section 4.1.4 of RFC 1035, as `name_parse` reads it: the labels found from `p` on in a packet of `length` bytes
      held in the memory `m`, following at most `jumps` pointers, and the index after the name.  Any length byte with
      one of its two top bits set is taken for a pointer.  A label may run past `length`, but not past the memory. */
  function Walk(m: seq<Byte>, length: nat, p: nat, jumps: nat): (r: Option<Reading>)
    requires length <= |m|
    decreases jumps, length - p
  {
    if p >= length then None
    else if m[p] == 0 then Some(Reading([], p + 1))
    else if m[p] >= 64 then
      if p + 1 >= length then None else
      var target := PointerTarget(m[p], m[p + 1]);
      if target >= length || jumps == 0 then None else
      match Walk(m, length, target, jumps - 1)
      case None => None
      case Some(r) => Some(Reading(r.labels, p + 2))
    else
      var next := p + 1 + m[p];
      if next > |m| then None else
      match Walk(m, length, next, jumps)
      case None => None
      case Some(r) => Some(Reading([m[p + 1..next]] + r.labels, r.end))
  }

  /** Section 4.1.4 of RFC 1035 to the letter: the two values of the top bits that it reserves are not read at all. */
  function Strict(m: seq<Byte>, length: nat, p: nat, jumps: nat): (r: Option<Reading>)
    requires length <= |m|
    decreases jumps, length - p
  {
    if p >= length then None
    else if m[p] == 0 then Some(Reading([], p + 1))
    else if m[p] >= 192 then
      if p + 1 >= length then None else
      var target := PointerTarget(m[p], m[p + 1]);
      if target >= length || jumps == 0 then None else
      match Strict(m, length, target, jumps - 1)
      case None => None
      case Some(r) => Some(Reading(r.labels, p + 2))
    else if m[p] >= 64 then None
    else
      var next := p + 1 + m[p];
      if next > |m| then None else
      match Strict(m, length, next, jumps)
      case None => None
      case Some(r) => Some(Reading([m[p + 1..next]] + r.labels, r.end))
  }

  /** The walk comes to a reserved length byte. */
  predicate MeetsReserved(m: seq<Byte>, length: nat, p: nat, jumps: nat)
    requires length <= |m|
    decreases jumps, length - p
  {
    p < length && m[p] != 0 &&
    if m[p] >= 192 then
      p + 1 < length && jumps > 0 && PointerTarget(m[p], m[p + 1]) < length
      && MeetsReserved(m, length, PointerTarget(m[p], m[p + 1]), jumps - 1)
    else
      m[p] >= 64 || (p + 1 + m[p] <= |m| && MeetsReserved(m, length, p + 1 + m[p], jumps))
  }

  /** `name_parse` takes reserved length bytes for pointers, so it reads as the standard says exactly when it comes to
      none or finds no name anyway. */
  lemma {:induction false} StrictExact(m: seq<Byte>, length: nat, p: nat, jumps: nat)
    requires length <= |m|
    ensures Walk(m, length, p, jumps) == Strict(m, length, p, jumps) <==>
      !MeetsReserved(m, length, p, jumps) || Walk(m, length, p, jumps).None?
    ensures MeetsReserved(m, length, p, jumps) ==> Strict(m, length, p, jumps).None?
    decreases jumps, length - p
  {
    if p < length && m[p] != 0 {
      if m[p] < 64 {
        if p + 1 + m[p] <= |m| { StrictExact(m, length, p + 1 + m[p], jumps); }
      } else if m[p] >= 192 && p + 1 < length && jumps > 0 && PointerTarget(m[p], m[p + 1]) < length {
        StrictExact(m, length, PointerTarget(m[p], m[p + 1]), jumps - 1);
      }
    }
  }

  lemma StrictIsWalk(m: seq<Byte>, length: nat, p: nat, jumps: nat)
    requires length <= |m| && Strict(m, length, p, jumps).Some?
    ensures Walk(m, length, p, jumps) == Strict(m, length, p, jumps)
  {
    hide Walk, Strict, MeetsReserved;
    StrictExact(m, length, p, jumps);
  }

  lemma {:induction false} StrictExtends(m: seq<Byte>, length: nat, p: nat, jumps: nat, m': seq<Byte>, length': nat,
                                         jumps': nat)
    requires length <= |m| && m <= m' && length <= length' <= |m'| && jumps <= jumps'
    requires Strict(m, length, p, jumps).Some?
    ensures Strict(m', length', p, jumps') == Strict(m, length, p, jumps)
    decreases jumps, length - p
  {
    if m[p] == 0 {
    } else if m[p] >= 192 {
      StrictExtends(m, length, PointerTarget(m[p], m[p + 1]), jumps - 1, m', length', jumps' - 1);
    } else {
      var next := p + 1 + m[p];
      StrictExtends(m, length, next, jumps, m', length', jumps');
      assert m[p + 1..next] == m'[p + 1..next];
    }
  }

  /** A packet that begins with the reserved length byte 64: it is read like a pointer, and the standard reads
      nothing. */
  lemma ReservedIsPointer()
    ensures Walk([0x40, 2, 0], 3, 0, 1) == Walk([0xc0, 2, 0], 3, 0, 1) == Some(Reading([], 2))
    ensures MeetsReserved([0x40, 2, 0], 3, 0, 1) && Strict([0x40, 2, 0], 3, 0, 1) == None
  {
    assert Walk([0x40, 2, 0], 3, 2, 0) == Some(Reading([], 3));
    assert Walk([0xc0, 2, 0], 3, 2, 0) == Some(Reading([], 3));
  }

  /** The bytes of every label that the walk meets lie in the memory, perhaps behind the packet's end. */
  predicate Readable(m: seq<Byte>, length: nat, p: nat, jumps: nat)
    requires length <= |m|
    decreases jumps, length - p
  {
    if p >= length || m[p] == 0 then true
    else if m[p] >= 64 then
      p + 1 >= length || jumps == 0 || PointerTarget(m[p], m[p + 1]) >= length
      || Readable(m, length, PointerTarget(m[p], m[p + 1]), jumps - 1)
    else
      p + 1 + m[p] <= |m| && Readable(m, length, p + 1 + m[p], jumps)
  }

  /** So it is for every name that can be read, and for every packet with 63 bytes behind it. */
  lemma {:induction false} ReadableIf(m: seq<Byte>, length: nat, p: nat, jumps: nat)
    requires length <= |m| && (Walk(m, length, p, jumps).Some? || length + 63 <= |m|)
    ensures Readable(m, length, p, jumps)
    decreases jumps, length - p
  {
    if p < length && m[p] != 0 {
      if m[p] < 64 {
        ReadableIf(m, length, p + 1 + m[p], jumps);
      } else if p + 1 < length && jumps > 0 && PointerTarget(m[p], m[p + 1]) < length {
        ReadableIf(m, length, PointerTarget(m[p], m[p + 1]), jumps - 1);
      }
    }
  }

  /** A name that can be read keeps its reading when the packet grows and when more jumps are allowed. */
  lemma {:induction false} WalkExtends(m: seq<Byte>, length: nat, p: nat, jumps: nat, m': seq<Byte>, length': nat,
                                       jumps': nat)
    requires length <= |m| && m <= m' && length <= length' <= |m'| && jumps <= jumps'
    requires Walk(m, length, p, jumps).Some?
    ensures Walk(m', length', p, jumps') == Walk(m, length, p, jumps)
    decreases jumps, length - p
  {
    if m[p] == 0 {
    } else if m[p] >= 64 {
      WalkExtends(m, length, PointerTarget(m[p], m[p + 1]), jumps - 1, m', length', jumps' - 1);
    } else {
      var next := p + 1 + m[p];
      WalkExtends(m, length, next, jumps, m', length', jumps');
      assert m[p + 1..next] == m'[p + 1..next];
    }
  }

  /** `whole` is the reading of a name of which `got` was read so far, `nameEnd` being the index after its first pointer
      (-1 before any), and which goes on at `p` with `jumps` pointers left. */
  ghost predicate Resumes(whole: Option<Reading>, got: seq<Label>, nameEnd: int, m: seq<Byte>, length: nat, p: nat,
                          jumps: nat)
    requires length <= |m|
  {
    match Walk(m, length, p, jumps)
    case None => whole == None
    case Some(r) => whole == Some(Reading(got + r.labels, if nameEnd < 0 then r.end else nameEnd))
  }

  lemma ResumeStart(m: seq<Byte>, length: nat, p: nat, jumps: nat)
    requires length <= |m|
    ensures Resumes(Walk(m, length, p, jumps), [], -1, m, length, p, jumps) && Join([]) == []
  {
    var whole := Walk(m, length, p, jumps);
    assert whole.Some? ==> [] + whole.value.labels == whole.value.labels;
  }

  lemma ResumeLabel(whole: Option<Reading>, got: seq<Label>, nameEnd: int, m: seq<Byte>, length: nat, p: nat,
                    jumps: nat)
    requires p < length <= |m| && 0 < m[p] < 64 && p + 1 + m[p] <= |m|
    requires Resumes(whole, got, nameEnd, m, length, p, jumps)
    ensures Resumes(whole, got + [m[p + 1..p + 1 + m[p]]], nameEnd, m, length, p + 1 + m[p], jumps)
    ensures whole.Some? ==> |Join(whole.value.labels)| >= |Join(got + [m[p + 1..p + 1 + m[p]]])|
  {
    var text := m[p + 1..p + 1 + m[p]];
    var rest := Walk(m, length, p + 1 + m[p], jumps);
    if rest.Some? {
      assert got + ([text] + rest.value.labels) == got + [text] + rest.value.labels;
      JoinMonotone(got + [text], rest.value.labels);
    }
  }

  lemma ResumePointer(whole: Option<Reading>, got: seq<Label>, nameEnd: int, m: seq<Byte>, length: nat, p: nat,
                      jumps: nat)
    requires p < length <= |m| && 64 <= m[p]
    requires Resumes(whole, got, nameEnd, m, length, p, jumps)
    ensures p + 1 >= length ==> whole == None
    ensures p + 1 < length ==>
              var target := PointerTarget(m[p], m[p + 1]);
              if target >= length || jumps == 0 then whole == None
              else Resumes(whole, got, if nameEnd < 0 then p + 2 else nameEnd, m, length, target, jumps - 1)
  {
  }

  lemma ResumeStop(whole: Option<Reading>, got: seq<Label>, nameEnd: int, m: seq<Byte>, length: nat, p: nat, jumps: nat)
    requires length <= |m| && Resumes(whole, got, nameEnd, m, length, p, jumps)
    ensures p >= length ==> whole == None
    ensures p < length && m[p] == 0 ==> whole == Some(Reading(got, if nameEnd < 0 then p + 1 else nameEnd))
  {
    assert got + [] == got;
  }

  lemma ReadableStep(m: seq<Byte>, length: nat, p: nat, jumps: nat)
    requires length <= |m| && Readable(m, length, p, jumps)
    ensures p < length && 0 < m[p] < 64 ==> p + 1 + m[p] <= |m| && Readable(m, length, p + 1 + m[p], jumps)
    ensures p + 1 < length && 64 <= m[p] && jumps > 0 && PointerTarget(m[p], m[p + 1]) < length ==>
      Readable(m, length, PointerTarget(m[p], m[p + 1]), jumps - 1)
  {
  }

  /** The copying step of `name_parse`: a dot unless nothing was written yet, then the label, if there is room for
      them and a terminator. */
  method AppendLabel(packet: array<Byte>, j: nat, labelLen: nat, nameOut: array<Byte>, cp: nat, ghost got: seq<Label>)
    returns (ok: bool, cp': nat)
    requires j + labelLen <= packet.Length && packet != nameOut && labelLen > 0
    requires cp <= nameOut.Length && nameOut[..cp] == Join(got) && (cp == 0 <==> got == [])
    modifies nameOut
    ensures packet[..] == old(packet[..])
    ensures ok <==> |Join(got + [old(packet[j..j + labelLen])])| < nameOut.Length
    ensures ok ==> 0 < cp' < nameOut.Length && nameOut[..cp'] == Join(got + [old(packet[j..j + labelLen])])
  {
    ghost var text := packet[j..j + labelLen];
    JoinAppend(got, text);
    cp' := cp;
    if cp' != 0 {
      if cp' + 1 >= nameOut.Length { return false, cp'; }
      nameOut[cp'] := DOT;
      cp' := cp' + 1;
    }
    if cp' + labelLen >= nameOut.Length { return false, cp'; }
    ghost var before := nameOut[..cp'];
    forall k | 0 <= k < labelLen { nameOut[cp' + k] := packet[j + k]; }
    assert nameOut[..cp' + labelLen] == before + text;
    cp' := cp' + labelLen;
    ok := true;
  }

  /** The loop of `name_parse`: the joined labels are in `nameOut[..cp]`. */
  method CollectLabels(packet: array<Byte>, length: nat, idx: nat, nameOut: array<Byte>)
    returns (ok: bool, end: nat, cp: nat, ghost got: seq<Label>)
    requires length <= packet.Length && packet != nameOut && Readable(packet[..], length, idx, length)
    modifies nameOut
    ensures packet[..] == old(packet[..])
    ensures ok ==> Walk(old(packet[..]), length, idx, length) == Some(Reading(got, end))
    ensures ok ==> cp <= nameOut.Length && nameOut[..cp] == Join(got)
    ensures !ok ==> var w := Walk(old(packet[..]), length, idx, length); w.Some? ==>
                        |Join(w.value.labels)| >= nameOut.Length
  {
    hide Walk, Join, Resumes, Readable;
    ghost var m := packet[..];
    ghost var whole := Walk(m, length, idx, length);
    got := [];
    var nameEnd := -1;
    var j: nat := idx;
    var ptrCount: nat := 0;
    ok, end, cp := false, idx, 0;
    ResumeStart(m, length, idx, length);
    while true
      invariant packet[..] == m
      invariant ptrCount <= length
      invariant cp <= nameOut.Length && nameOut[..cp] == Join(got) && (cp == 0 <==> got == [])
      invariant nameEnd >= -1
      invariant Resumes(whole, got, nameEnd, m, length, j, length - ptrCount)
      invariant Readable(m, length, j, length - ptrCount)
      decreases length - ptrCount, length - j
    {
      ResumeStop(whole, got, nameEnd, m, length, j, length - ptrCount);
      ReadableStep(m, length, j, length - ptrCount);
      if j >= length { return; }
      var labelLen := packet[j];
      assert m[j] == labelLen;
      if labelLen == 0 { j := j + 1; break; }
      if labelLen >= 64 {
        ResumePointer(whole, got, nameEnd, m, length, j, length - ptrCount);
        if j + 1 >= length { return; }
        var ptrLow := packet[j + 1];
        assert m[j + 1] == ptrLow;
        if nameEnd < 0 { nameEnd := j + 2; }
        j := PointerTarget(labelLen, ptrLow);
        if j >= length { return; }
        ptrCount := ptrCount + 1;
        if ptrCount > length { return; }
      } else {
        ghost var text := m[j + 1..j + 1 + labelLen];
        assert text == packet[j + 1..j + 1 + labelLen];
        ResumeLabel(whole, got, nameEnd, m, length, j, length - ptrCount);
        var fits;
        fits, cp := AppendLabel(packet, j + 1, labelLen, nameOut, cp, got);
        if !fits { return; }
        j := j + 1 + labelLen;
        got := got + [text];
      }
    }
    ok := true;
    end := if nameEnd < 0 then j else nameEnd;
  }

  /** `name_parse`. The packet is `packet[..length]`; a label's bytes are copied without looking at `length`, so those
      of the labels met must be readable. On success the text, NUL-terminated, is in `nameOut` and `idx'` is the index
      after the name; on failure the index does not move. */
  method NameParse(packet: array<Byte>, length: nat, idx: nat, nameOut: array<Byte>) returns (ok: bool, idx': nat)
    requires length <= packet.Length && packet != nameOut && Readable(packet[..], length, idx, length)
    modifies nameOut
    ensures packet[..] == old(packet[..])
    ensures var w := Walk(old(packet[..]), length, idx, length);
            && (ok <==> w.Some? && |Join(w.value.labels)| < nameOut.Length)
            && (ok ==> nameOut[..|Join(w.value.labels)| + 1] == Join(w.value.labels) + [0] && idx' == w.value.end)
            && (!ok ==> idx' == idx)
  {
    var end, cp;
    ghost var got;
    ok, end, cp, got := CollectLabels(packet, length, idx, nameOut);
    if !ok || cp >= nameOut.Length { return false, idx; }
    nameOut[cp] := 0;
    idx' := end;
  }

  // ---------- Encoding ----------

  /** One entry of the suffix table: the name `key` starts at `pos` in the message. */
  datatype Entry = Entry(key: seq<Byte>, pos: nat)

  const MAX_LABELS := 128

  /** `dnslabel_table_get_pos`: the first entry with this key. */
  function Lookup(entries: seq<Entry>, key: seq<Byte>): (r: Option<nat>)
    ensures r.None? <==> forall e :: e in entries ==> e.key != key
    ensures r.Some? ==> exists e :: e in entries && e.key == key && e.pos == r.value
  {
    if entries == [] then None
    else if entries[0].key == key then Some(entries[0].pos)
    else Lookup(entries[1..], key)
  }

  /** `dnslabel_table_add`: a full table silently stays as it is. */
  function Remember(entries: seq<Entry>, key: seq<Byte>, pos: nat): seq<Entry> {
    if |entries| == MAX_LABELS then entries else entries + [Entry(key, pos)]
  }

  /** `struct dnslabel_table`. */
  class LabelTable {
    var labels: seq<Entry>

    constructor ()
      ensures labels == []
    {
      labels := [];
    }

    method GetPos(key: seq<Byte>) returns (r: Option<nat>)
      ensures r == Lookup(labels, key)
    {
      var i := 0;
      while i < |labels|
        invariant i <= |labels|
        invariant Lookup(labels, key) == Lookup(labels[i..], key)
      {
        if labels[i].key == key { return Some(labels[i].pos); }
        i := i + 1;
      }
      return None;
    }

    method Add(key: seq<Byte>, pos: nat)
      modifies this
      ensures labels == Remember(old(labels), key, pos)
    {
      if |labels| != MAX_LABELS { labels := labels + [Entry(key, pos)]; }
    }
  }

  /** A 16-bit value in network order. */
  function U16(x: int): (b: seq<Byte>) {
    [x / 256 % 256, x % 256]
  }

  /** `htons (ref | 0xc000)`: the two top bits set, the low fourteen kept. */
  function PointerBytes(ref: nat): seq<Byte> {
    U16(0xc000 + ref % 0x4000)
  }

  /** What encoding a name yields: bytes and the table after it, or the error code -1 or -2. */
  datatype Encoding = Done(bytes: seq<Byte>, entries: seq<Entry>) | LabelTooLong | NoRoom

  /** `dnsname_to_labels` for the rest `name` of a name, written from offset `j` on in a buffer of `room` bytes.
      Without a table (`useTable` false) nothing is looked up or remembered. The closing zero is written without a
      look at `room`, so the result may end one byte past it. */
  function EncodeRest(name: seq<Byte>, entries: seq<Entry>, useTable: bool, j: nat, room: nat): (r: Encoding)
    decreases |name|
  {
    var hit := if useTable then Lookup(entries, name) else None;
    if hit.Some? then
      if j + 2 > room then NoRoom else Done(PointerBytes(hit.value), entries)
    else
      var k := DotIndex(name);
      if k > 63 then LabelTooLong
      else if j + k + 1 > room then NoRoom
      else
        var known := if useTable then Remember(entries, name, j) else entries;
        var front: seq<Byte> := [k as Byte] + name[..k];
        if k == |name| then
          Done(if k == 0 then front else front + [0], known)
        else
          match EncodeRest(name[k + 1..], known, useTable, j + k + 1, room)
          case Done(bytes, entries') => Done(front + bytes, entries')
          case error => error
  }

  /** `dnsname_to_labels`. */
  function Encode(name: seq<Byte>, entries: seq<Entry>, useTable: bool, j: nat, room: nat): Encoding {
    if |name| > 255 then NoRoom else EncodeRest(name, entries, useTable, j, room)
  }

  ghost function Prefixed(front: seq<Byte>, e: Encoding): Encoding {
    match e
    case Done(bytes, entries) => Done(front + bytes, entries)
    case error => error
  }

  /** One step of `EncodeRest`, case by case. */
  lemma RestUnfolds(name: seq<Byte>, entries: seq<Entry>, useTable: bool, j: nat, room: nat, hit: Option<nat>, k: nat,
                    known: seq<Entry>)
    requires hit == if useTable then Lookup(entries, name) else None
    requires k == DotIndex(name) && known == if useTable then Remember(entries, name, j) else entries
    ensures var e := EncodeRest(name, entries, useTable, j, room);
            if hit.Some? then e == if j + 2 > room then NoRoom else Done(PointerBytes(hit.value), entries)
            else if k > 63 then e == LabelTooLong
            else if j + k + 1 > room then e == NoRoom
            else if k < |name| then e
                     == Prefixed([k as Byte] + name[..k], EncodeRest(name[k + 1..], known, useTable, j + k + 1, room))
            else if k == 0 then e == Done([0], known)
            else e == Done([k as Byte] + name + [0], known)
  {
    hide Lookup, DotIndex, Remember, PointerBytes;
    assert name[..|name|] == name;
  }

  lemma PrefixedTwice(a: seq<Byte>, b: seq<Byte>, e: Encoding)
    ensures Prefixed(a, Prefixed(b, e)) == Prefixed(a + b, e)
    ensures forall c: seq<Byte> :: a + (b + c) == a + b + c
  {
    if e.Done? { assert a + (b + e.bytes) == a + b + e.bytes; }
  }

  lemma PrefixedStep(written: seq<Byte>, name: seq<Byte>, entries: seq<Entry>, useTable: bool, j: nat, room: nat)
    ensures var e := Prefixed(written, EncodeRest(name, entries, useTable, j, room));
            var hit := if useTable then Lookup(entries, name) else None;
            var k := DotIndex(name);
            var known := if useTable then Remember(entries, name, j) else entries;
            if hit.Some? then e == if j + 2 > room then NoRoom else Done(written + PointerBytes(hit.value), entries)
            else if k > 63 then e == LabelTooLong
            else if j + k + 1 > room then e == NoRoom
            else if k < |name| then e
                     == Prefixed(written + ([k as Byte] + name[..k]),
                                 EncodeRest(name[k + 1..], known, useTable, j + k + 1, room))
            else if k == 0 then e == Done(written + [0], known)
            else e == Done(written + ([k as Byte] + name) + [0], known)
  {
    hide Lookup, DotIndex, Remember, PointerBytes, EncodeRest;
    var hit := if useTable then Lookup(entries, name) else None;
    var k := DotIndex(name);
    var known := if useTable then Remember(entries, name, j) else entries;
    RestUnfolds(name, entries, useTable, j, room, hit, k, known);
    if hit.None? && k <= 63 {
      if k < |name| {
        PrefixedTwice(written, [k as Byte] + name[..k], EncodeRest(name[k + 1..], known, useTable, j + k + 1, room));
      } else {
        assert written + ([k as Byte] + name + [0]) == written + ([k as Byte] + name) + [0];
      }
    }
  }

  /** The buffer `b` is `before` with the bytes `w` from `j` on, as far as they fit. */
  ghost predicate Written(before: seq<Byte>, b: seq<Byte>, j: nat, w: seq<Byte>) {
    && |b| == |before|
    && forall k :: 0 <= k < |b| ==> b[k] == if j <= k < j + |w| then w[k - j] else before[k]
  }

  lemma WrittenMore(b0: seq<Byte>, b1: seq<Byte>, b2: seq<Byte>, j: nat, w: seq<Byte>, v: seq<Byte>)
    requires Written(b0, b1, j, w) && Written(b1, b2, j + |w|, v)
    ensures Written(b0, b2, j, w + v)
  {
  }

  lemma WrittenNothing(b: seq<Byte>, j: nat)
    ensures Written(b, b, j, [])
  {
  }

  /** One label: its length and its bytes. */
  method PutLabel(buf: array<Byte>, j: nat, text: Label)
    requires |text| <= 63 && j + 1 + |text| <= buf.Length
    modifies buf
    ensures Written(old(buf[..]), buf[..], j, [|text| as Byte] + text)
  {
    buf[j] := |text| as Byte;
    forall i | 0 <= i < |text| { buf[j + 1 + i] := text[i]; }
  }

  method PutPointer(buf: array<Byte>, j: nat, ref: nat)
    requires j + 2 <= buf.Length
    modifies buf
    ensures Written(old(buf[..]), buf[..], j, PointerBytes(ref)) && |PointerBytes(ref)| == 2
  {
    var pointer := PointerBytes(ref);
    buf[j], buf[j + 1] := pointer[0], pointer[1];
  }

  /** The closing zero, unless the last label was empty and is that zero already. */
  method PutTerminator(buf: array<Byte>, j: nat, ghost empty: bool) returns (j': nat)
    requires 0 < j <= buf.Length && (empty <==> buf[j - 1] == 0)
    modifies buf
    ensures Written(old(buf[..]), buf[..], j, if empty then [] else [0])
    ensures j' == j + if empty then 0 else 1
  {
    j' := j;
    if buf[j - 1] != 0 {
      if j < buf.Length { buf[j] := 0; }
      j' := j + 1;
    }
  }

  /** The last byte of a label just written is zero only for the empty label. */
  lemma LastByte(b0: seq<Byte>, b: seq<Byte>, j: nat, text: Label)
    requires |text| <= 63 && j + 1 + |text| <= |b| && 0 !in text
    requires Written(b0, b, j, [|text| as Byte] + text)
    ensures b[j + |text|] == 0 <==> text == []
  {
    var w := [|text| as Byte] + text;
    assert b[j + |text|] == w[|text|];
    assert text != [] ==> w[|text|] == text[|text| - 1] && text[|text| - 1] in text;
  }

  /** `dnsname_to_labels`: the bytes of `Encode` from `j0` on (cut off at the end of the buffer), nothing else touched,
      and its table; on an error the part of the buffer before `j0` is as it was. */
  method DnsnameToLabels(buf: array<Byte>, j0: nat, name: seq<Byte>, table: LabelTable?) returns (r: int)
    requires 0 !in name
    modifies buf, table
    ensures forall k :: 0 <= k < buf.Length && k < j0 ==> buf[k] == old(buf[k])
    ensures match Encode(name, if table == null then [] else old(table.labels), table != null, j0, buf.Length)
            case LabelTooLong => r == -1
            case NoRoom => r == -2
            case Done(bytes, entries) =>
              && r == j0 + |bytes|
              && (table != null ==> table.labels == entries)
              && Written(old(buf[..]), buf[..], j0, bytes)
  {
    hide EncodeRest, Encode, DotIndex, PointerBytes, Lookup, Written, Prefixed;
    ghost var b0 := buf[..];
    ghost var written: seq<Byte> := [];
    ghost var whole := Encode(name, if table == null then [] else table.labels, table != null, j0, buf.Length);
    EncodeStart(name, if table == null then [] else table.labels, table != null, j0, buf.Length);
    if |name| > 255 { return -2; }
    WrittenNothing(b0, j0);
    var rest := name;
    var j := j0;
    while true
      invariant 0 !in rest
      invariant j == j0 + |written|
      invariant Written(b0, buf[..], j0, written)
      invariant whole == Prefixed(written,
                                  EncodeRest(rest, if table == null then [] else table.labels, table != null, j,
                                             buf.Length))
      decreases |rest|
    {
      WrittenBefore(b0, buf[..], j0, written);
      PrefixedStep(written, rest, if table == null then [] else table.labels, table != null, j, buf.Length);
      ghost var b1 := buf[..];
      if table != null {
        var hit := table.GetPos(rest);
        if hit.Some? {
          if j + 2 > buf.Length { return -2; }
          PutPointer(buf, j, hit.value);
          WrittenMore(b0, b1, buf[..], j0, written, PointerBytes(hit.value));
          WrittenBefore(b0, buf[..], j0, written + PointerBytes(hit.value));
          return j + 2;
        }
      }
      var k := DotIndex(rest);
      if k > 63 { return -1; }
      if j + k + 1 > buf.Length { return -2; }
      if table != null { table.Add(rest, j); }
      var text := rest[..k];
      assert 0 !in text;
      PutLabel(buf, j, text);
      ghost var front: seq<Byte> := [k as Byte] + text;
      LastByte(b1, buf[..], j, text);
      WrittenMore(b0, b1, buf[..], j0, written, front);
      ghost var w0 := written;
      written := written + front;
      j := j + k + 1;
      if k == |rest| {
        assert text == rest;
        ghost var b2 := buf[..];
        j := PutTerminator(buf, j, rest == []);
        WrittenMore(b0, b2, buf[..], j0, written, if rest == [] then [] else [0]);
        written := written + if rest == [] then [] else [0];
        assert written == w0 + (if rest == [] then [0] else front + [0]);
        WrittenBefore(b0, buf[..], j0, written);
        assert rest == [] ==> front + [] == [0];
        return j;
      }
      rest := rest[k + 1..];
    }
  }

  lemma WrittenBefore(b0: seq<Byte>, b: seq<Byte>, j: nat, w: seq<Byte>)
    requires Written(b0, b, j, w)
    ensures |b| == |b0| && forall k :: 0 <= k < |b| && k < j ==> b[k] == b0[k]
  {
  }

  lemma EncodeStart(name: seq<Byte>, entries: seq<Entry>, useTable: bool, j: nat, room: nat)
    ensures Encode(name, entries, useTable, j, room) ==
            if |name| > 255 then NoRoom else Prefixed([], EncodeRest(name, entries, useTable, j, room))
  {
    var rest := EncodeRest(name, entries, useTable, j, room);
    assert rest.Done? ==> [] + rest.bytes == rest.bytes;
  }
}
