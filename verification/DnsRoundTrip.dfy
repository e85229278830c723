/** Encoding a name with compression and reading it back: every entry of the suffix table decodes to its key, and
    every pointer leads strictly backwards, so the decoder never runs out of jumps. */
module DnsRoundTrip {
  import opened Bytes
  import opened Wrappers
  import opened DnsName
  import opened DnsWire
  import opened Arithmetic

  lemma Middle(a: seq<Byte>, b: seq<Byte>, c: seq<Byte>)
    ensures a + b + c == a + (b + c)
    ensures |a + (b + c)| == |a| + |b| + |c|
    ensures (a + (b + c))[|a|..|a| + |b|] == b
    ensures b != [] ==> (a + (b + c))[|a|] == b[0]
    ensures c != [] ==> (a + (b + c))[|a| + |b|] == c[0]
  {
  }

  /** Reading at `p` gives the labels of `key`, following at most `jumps` pointers. */
  ghost predicate Decodes(m: seq<Byte>, p: nat, jumps: nat, key: seq<Byte>) {
    var w := Strict(m, |m|, p, jumps);
    w.Some? && w.value.labels == UpToEmpty(Split(key))
  }

  /** Every entry decodes to its key without more jumps than its own offset. */
  ghost predicate TableOk(entries: seq<Entry>, m: seq<Byte>) {
    forall e :: e in entries ==> e.pos < |m| && Decodes(m, e.pos, e.pos, e.key)
  }

  /** The table while the name that starts at `start` is being written: an entry of this name has a key longer
      than the `rest` still to write, any other is sound. */
  ghost predicate Usable(entries: seq<Entry>, rest: seq<Byte>, m: seq<Byte>, start: nat) {
    forall e :: e in entries ==> |e.key| > |rest| || (e.pos < start && Decodes(m, e.pos, e.pos, e.key))
  }

  /** The decoder's index after the name is the encoder's result exactly when no label is empty but the last one
      written; a caller can tell from the name and the table. */
  predicate EndsAtReturn(name: seq<Byte>, entries: seq<Entry>)
    decreases |name|
  {
    || Lookup(entries, name).Some?
    || DotIndex(name) == |name|
    || (DotIndex(name) > 0 && EndsAtReturn(name[DotIndex(name) + 1..], entries))
  }

  lemma DecodesExtends(m: seq<Byte>, p: nat, jumps: nat, key: seq<Byte>, m': seq<Byte>, jumps': nat)
    requires Decodes(m, p, jumps, key) && m <= m' && jumps <= jumps'
    ensures Decodes(m', p, jumps', key)
  {
    StrictExtends(m, |m|, p, jumps, m', |m'|, jumps');
  }

  lemma PointerArithmetic(ref: nat)
    ensures |PointerBytes(ref)| == 2 && PointerBytes(ref)[0] >= 192
    ensures PointerTarget(PointerBytes(ref)[0], PointerBytes(ref)[1]) == ref % 0x4000
  {
    var r := ref % 0x4000;
    var a, b := r / 256, r % 256;
    ModUnique(256, 192 + a, 0xc000 + r, b);
    ModUnique(256, 0, 192 + a, 192 + a);
    ModUnique(64, 3, 192 + a, a);
  }

  lemma PointerReads(m: seq<Byte>, p: nat, ref: nat, jumps: nat)
    requires p + 2 <= |m| && m[p..p + 2] == PointerBytes(ref) && ref < 0x4000 && ref < |m| && jumps > 0
    requires Strict(m, |m|, ref, jumps - 1).Some?
    ensures Strict(m, |m|, p, jumps) == Some(Reading(Strict(m, |m|, ref, jumps - 1).value.labels, p + 2))
  {
    PointerArithmetic(ref);
    hide PointerBytes, PointerTarget;
    assert m[p] == m[p..p + 2][0] && m[p + 1] == m[p..p + 2][1];
  }

  lemma LabelReads(m: seq<Byte>, p: nat, text: Label, jumps: nat)
    requires p + 1 + |text| <= |m| && 0 < |text| < 64
    requires m[p..p + 1 + |text|] == [|text| as Byte] + text
    requires Strict(m, |m|, p + 1 + |text|, jumps).Some?
    ensures var rest := Strict(m, |m|, p + 1 + |text|, jumps).value;
            Strict(m, |m|, p, jumps) == Some(Reading([text] + rest.labels, rest.end))
  {
    var front := m[p..p + 1 + |text|];
    assert m[p] == front[0];
    assert m[p + 1..p + 1 + |text|] == front[1..] == text;
  }

  lemma ZeroReads(m: seq<Byte>, p: nat, jumps: nat)
    requires p < |m| && m[p] == 0
    ensures Strict(m, |m|, p, jumps) == Some(Reading([], p + 1))
  {
  }

  /** An entry for a longer key does not change how a shorter name ends. */
  lemma {:induction false} EndsSame(name: seq<Byte>, entries: seq<Entry>, e: Entry)
    requires |e.key| > |name|
    ensures EndsAtReturn(name, entries + [e]) == EndsAtReturn(name, entries)
    decreases |name|
  {
    LookupSame(name, entries, e);
    if DotIndex(name) < |name| {
      EndsSame(name[DotIndex(name) + 1..], entries, e);
    }
  }

  lemma {:induction false} LookupSame(name: seq<Byte>, entries: seq<Entry>, e: Entry)
    requires e.key != name
    ensures Lookup(entries + [e], name) == Lookup(entries, name)
  {
    if entries == [] {
      assert (entries + [e])[1..] == [];
    } else {
      LookupSame(name, entries[1..], e);
      assert (entries + [e])[1..] == entries[1..] + [e];
    }
  }

  /** The name written after `m` as `bytes` reads as `name`, and ends where `EndsAtReturn` says. */
  ghost predicate ReadsBack(name: seq<Byte>, entries: seq<Entry>, m: seq<Byte>, start: nat, bytes: seq<Byte>) {
    var m' := m + bytes;
    var w := Strict(m', |m'|, |m|, start);
    && bytes != []
    && w.Some?
    && w.value.labels == UpToEmpty(Split(name))
    && (w.value.end == |m'| <==> EndsAtReturn(name, entries))
  }

  /** The entries added while writing `bytes` after `m` decode to their keys. */
  ghost predicate Sound(added: seq<Entry>, m: seq<Byte>, start: nat, m': seq<Byte>) {
    forall e :: e in added ==> |m| <= e.pos < |m'| && Decodes(m', e.pos, start, e.key)
  }

  /** What `EncodeRest` promises about the message once it is done. */
  ghost predicate Promise(name: seq<Byte>, entries: seq<Entry>, m: seq<Byte>, start: nat, done: Encoding)
    requires done.Done?
  {
    && ReadsBack(name, entries, m, start, done.bytes)
    && entries <= done.entries
    && Sound(done.entries[|entries|..], m, start, m + done.bytes)
  }

  lemma PromisePointer(name: seq<Byte>, entries: seq<Entry>, m: seq<Byte>, room: nat, start: nat)
    requires start <= |m| && |m| + 2 <= room <= 0x4000
    requires Usable(entries, name, m, start)
    requires Lookup(entries, name).Some?
    ensures Promise(name, entries, m, start, Done(PointerBytes(Lookup(entries, name).value), entries))
  {
    var ref := Lookup(entries, name).value;
    var e :| e in entries && e.key == name && e.pos == ref;
    var m' := m + PointerBytes(ref);
    hide Strict, UpToEmpty, Split, Lookup, PointerBytes;
    PointerArithmetic(ref);
    DecodesExtends(m, ref, ref, name, m', start - 1);
    assert m'[|m|..|m| + 2] == PointerBytes(ref);
    PointerReads(m', |m|, ref, start);
  }

  lemma PromiseLast(name: seq<Byte>, entries: seq<Entry>, m: seq<Byte>, start: nat, known: seq<Entry>, front: seq<Byte>)
    requires start <= |m| && Lookup(entries, name).None?
    requires DotIndex(name) == |name| <= 63
    requires front == if name == [] then [0] else [|name| as Byte] + name + [0]
    requires known == entries || known == entries + [Entry(name, |m|)]
    ensures Promise(name, entries, m, start, Done(front, known))
  {
    hide *;
    SingleLabel(name);
    EndsHere(name, entries);
    if name == [] {
      LastReads(name, entries, m, start, [], front);
    } else {
      var written: seq<Byte> := [|name| as Byte] + name;
      LastReads(name, entries, m, start, written, front);
    }
    SoundLast(name, entries, m, start, known, front);
    PromiseIs(name, entries, m, start, Done(front, known));
  }

  lemma PromiseIs(name: seq<Byte>, entries: seq<Entry>, m: seq<Byte>, start: nat, done: Encoding)
    requires done.Done? && entries <= done.entries
    requires ReadsBack(name, entries, m, start, done.bytes)
             && Sound(done.entries[|entries|..], m, start, m + done.bytes)
    ensures Promise(name, entries, m, start, done)
  {
    hide ReadsBack, Sound;
  }

  lemma SingleLabel(name: seq<Byte>)
    requires DotIndex(name) == |name|
    ensures UpToEmpty(Split(name)) == if name == [] then [] else [name]
  {
    assert Split(name) == [name];
    UpToEmptyCons(name, []);
    assert [name] + [] == [name];
    assert [name] + UpToEmpty([]) == [name];
  }

  lemma LastReads(name: seq<Byte>, entries: seq<Entry>, m: seq<Byte>, start: nat, written: seq<Byte>, front: seq<Byte>)
    requires |name| <= 63 && EndsAtReturn(name, entries)
    requires UpToEmpty(Split(name)) == if name == [] then [] else [name]
    requires written == if name == [] then [] else [|name| as Byte] + name
    requires front == written + [0]
    ensures ReadsBack(name, entries, m, start, front)
  {
    hide Strict, UpToEmpty, Split, EndsAtReturn;
    Middle(m, written, [0]);
    ZeroReads(m + front, |m| + |written|, start);
    if name != [] { LabelReads(m + front, |m|, name, start); }
  }

  lemma SoundLast(name: seq<Byte>, entries: seq<Entry>, m: seq<Byte>, start: nat, known: seq<Entry>, bytes: seq<Byte>)
    requires known == entries || known == entries + [Entry(name, |m|)]
    requires ReadsBack(name, entries, m, start, bytes)
    ensures entries <= known && Sound(known[|entries|..], m, start, m + bytes)
  {
    hide Strict, UpToEmpty, Split, EndsAtReturn;
    assert Decodes(m + bytes, |m|, start, name);
    hide Decodes;
    if known == entries { assert known[|entries|..] == []; } else { assert known[|entries|..] == [Entry(name, |m|)]; }
  }

  lemma EndsHere(name: seq<Byte>, entries: seq<Entry>)
    ensures DotIndex(name) == |name| ==> EndsAtReturn(name, entries)
  {
    hide DotIndex, Lookup;
  }

  lemma LabelThen(m: seq<Byte>, text: Label, front: seq<Byte>, bytes: seq<Byte>, start: nat)
    requires 0 < |text| < 64 && front == [|text| as Byte] + text
    requires Strict(m + front + bytes, |m + front + bytes|, |m + front|, start).Some?
    ensures |m + (front + bytes)| == |m + front + bytes|
    ensures var rest := Strict(m + front + bytes, |m + front + bytes|, |m + front|, start).value;
            Strict(m + (front + bytes), |m + (front + bytes)|, |m|, start)
              == Some(Reading([text] + rest.labels, rest.end))
  {
    hide Strict;
    Middle(m, front, bytes);
    LabelReads(m + (front + bytes), |m|, text, start);
  }

  lemma ZeroThen(m: seq<Byte>, front: seq<Byte>, bytes: seq<Byte>, start: nat)
    requires front == [0]
    ensures Strict(m + (front + bytes), |m + (front + bytes)|, |m|, start) == Some(Reading([], |m| + 1))
  {
    hide Strict;
    Middle(m, front, bytes);
    ZeroReads(m + (front + bytes), |m|, start);
  }

  /** The labels and the end of a name in terms of its first label and its tail. */
  lemma NameStep(name: seq<Byte>, text: Label, tail: seq<Byte>, entries: seq<Entry>, known: seq<Entry>, pos: nat)
    requires Lookup(entries, name).None?
    requires DotIndex(name) < |name| && text == name[..DotIndex(name)] && tail == name[DotIndex(name) + 1..]
    requires known == entries || known == entries + [Entry(name, pos)]
    ensures UpToEmpty(Split(name)) == if text == [] then [] else [text] + UpToEmpty(Split(tail))
    ensures EndsAtReturn(name, entries) <==> text != [] && EndsAtReturn(tail, known)
  {
    EndsStep(name, entries);
    hide *;
    SplitDotted(name);
    UpToEmptyCons(text, Split(tail));
    if known != entries { EndsSame(tail, entries, Entry(name, pos)); }
  }

  lemma ReadsBackStep(name: seq<Byte>, text: Label, tail: seq<Byte>, entries: seq<Entry>, m: seq<Byte>, start: nat,
                      known: seq<Entry>, front: seq<Byte>, bytes: seq<Byte>)
    requires Lookup(entries, name).None?
    requires DotIndex(name) < |name| && text == name[..DotIndex(name)] && tail == name[DotIndex(name) + 1..]
    requires |text| <= 63 && front == [|text| as Byte] + text
    requires known == entries || known == entries + [Entry(name, |m|)]
    requires ReadsBack(tail, known, m + front, start, bytes)
    ensures ReadsBack(name, entries, m, start, front + bytes)
  {
    NameStep(name, text, tail, entries, known, |m|);
    hide Strict, UpToEmpty, Split, EndsAtReturn, DotIndex, Lookup;
    if text == [] {
      ZeroThen(m, front, bytes, start);
    } else {
      LabelThen(m, text, front, bytes, start);
    }
  }

  lemma SoundStep(name: seq<Byte>, entries: seq<Entry>, m: seq<Byte>, start: nat,
                  known: seq<Entry>, front: seq<Byte>, bytes: seq<Byte>, entries': seq<Entry>)
    requires known == entries || known == entries + [Entry(name, |m|)]
    requires known <= entries' && Sound(entries'[|known|..], m + front, start, m + front + bytes)
    requires ReadsBack(name, entries, m, start, front + bytes)
    ensures Sound(entries'[|entries|..], m, start, m + (front + bytes))
  {
    hide Strict, UpToEmpty, Split, EndsAtReturn;
    Middle(m, front, bytes);
    assert Decodes(m + (front + bytes), |m|, start, name);
    hide Decodes;
    if known != entries { assert entries'[|entries|..] == [Entry(name, |m|)] + entries'[|known|..]; }
  }

  lemma PromiseStep(name: seq<Byte>, entries: seq<Entry>, m: seq<Byte>, start: nat,
                    known: seq<Entry>, front: seq<Byte>, done: Encoding)
    requires start <= |m| && Lookup(entries, name).None?
    requires DotIndex(name) < |name| && DotIndex(name) <= 63
    requires front == [DotIndex(name) as Byte] + name[..DotIndex(name)]
    requires known == entries || known == entries + [Entry(name, |m|)]
    requires done.Done? && Promise(name[DotIndex(name) + 1..], known, m + front, start, done)
    ensures Promise(name, entries, m, start, Done(front + done.bytes, done.entries))
  {
    hide ReadsBack, Sound, DotIndex, Lookup;
    ReadsBackStep(name, name[..DotIndex(name)], name[DotIndex(name) + 1..], entries, m, start, known, front,
                  done.bytes);
    SoundStep(name, entries, m, start, known, front, done.bytes, done.entries);
  }

  lemma EndsStep(name: seq<Byte>, entries: seq<Entry>)
    requires Lookup(entries, name).None? && DotIndex(name) < |name|
    ensures EndsAtReturn(name, entries) <==> DotIndex(name) > 0 && EndsAtReturn(name[DotIndex(name) + 1..], entries)
  {
    hide DotIndex, Lookup;
  }

  lemma UsableStep(entries: seq<Entry>, name: seq<Byte>, rest: seq<Byte>, m: seq<Byte>, start: nat, known: seq<Entry>,
                   m1: seq<Byte>)
    requires Usable(entries, name, m, start) && |rest| < |name| && m <= m1
    requires known == entries || known == entries + [Entry(name, |m|)]
    ensures Usable(known, rest, m1, start)
  {
    hide Decodes;
    forall e | e in known && |e.key| <= |rest| ensures e.pos < start && Decodes(m1, e.pos, e.pos, e.key) {
      assert e in entries;
      DecodesExtends(m, e.pos, e.pos, e.key, m1, e.pos);
    }
  }

  /** The heart of the round trip, by induction on the labels still to write. */
  lemma {:induction false} EncodeRestReads(name: seq<Byte>, entries: seq<Entry>, useTable: bool, m: seq<Byte>,
                                           room: nat, start: nat)
    requires start <= |m| && room <= 0x4000
    requires !useTable ==> entries == []
    requires Usable(entries, name, m, start)
    requires EncodeRest(name, entries, useTable, |m|, room).Done?
    ensures Promise(name, entries, m, start, EncodeRest(name, entries, useTable, |m|, room))
    decreases |name|, 0
  {
    hide *;
    var hit := if useTable then Lookup(entries, name) else None;
    var k := DotIndex(name);
    var known := if useTable then Remember(entries, name, |m|) else entries;
    RestUnfolds(name, entries, useTable, |m|, room, hit, k, known);
    if hit.Some? {
      PromisePointer(name, entries, m, room, start);
    } else {
      LookupEmpty(name);
      RememberIs(entries, name, |m|);
      if k == |name| {
        PromiseLast(name, entries, m, start, known, if name == [] then [0] else [k as Byte] + name + [0]);
      } else {
        PrefixedDone([k as Byte] + name[..k], EncodeRest(name[k + 1..], known, useTable, |m| + k + 1, room));
        EncodeTailReads(name, name[..k], name[k + 1..], entries, useTable, known, m, room, start);
      }
    }
  }

  /** The induction step: the first label is written, then its tail. */
  lemma {:induction false} EncodeTailReads(name: seq<Byte>, text: Label, tail: seq<Byte>, entries: seq<Entry>,
                                           useTable: bool,
                                           known: seq<Entry>, m: seq<Byte>, room: nat, start: nat)
    requires start <= |m| && room <= 0x4000
    requires !useTable ==> known == entries == []
    requires Usable(entries, name, m, start) && Lookup(entries, name).None?
    requires DotIndex(name) < |name| && text == name[..DotIndex(name)] && tail == name[DotIndex(name) + 1..]
             && |text| <= 63
    requires known == entries || known == entries + [Entry(name, |m|)]
    requires EncodeRest(tail, known, useTable, |m| + |text| + 1, room).Done?
    ensures var rest := EncodeRest(tail, known, useTable, |m| + |text| + 1, room);
            Promise(name, entries, m, start, Done([|text| as Byte] + text + rest.bytes, rest.entries))
    decreases |tail|, 1
  {
    hide *;
    var front: seq<Byte> := [|text| as Byte] + text;
    UsableStep(entries, name, tail, m, start, known, m + front);
    EncodeRestReads(tail, known, useTable, m + front, room, start);
    PromiseStep(name, entries, m, start, known, front, EncodeRest(tail, known, useTable, |m| + |text| + 1, room));
  }

  lemma RememberIs(entries: seq<Entry>, name: seq<Byte>, pos: nat)
    ensures Remember(entries, name, pos) == entries || Remember(entries, name, pos) == entries + [Entry(name, pos)]
  {
  }

  lemma PrefixedDone(front: seq<Byte>, e: Encoding)
    ensures Prefixed(front, e).Done? <==> e.Done?
    ensures e.Done? ==> Prefixed(front, e) == Done(front + e.bytes, e.entries)
  {
  }

  lemma LookupEmpty(name: seq<Byte>)
    ensures Lookup([], name).None?
  {
  }

  // ---------- The theorems ----------

  /** One call of the encoder after the message `m`: the name decodes at its offset, following at most as many pointers
      as its offset has bytes; the decoder ends where the encoder did exactly under `EndsAtReturn`; and the table stays
      sound for the next name. */
  lemma EncodeReads(name: seq<Byte>, entries: seq<Entry>, useTable: bool, m: seq<Byte>, room: nat)
    requires TableOk(entries, m) && room <= 0x4000
    requires !useTable ==> entries == []
    requires Encode(name, entries, useTable, |m|, room).Done?
    ensures var done := Encode(name, entries, useTable, |m|, room);
            var m' := m + done.bytes;
            && done.bytes != []
            && Decodes(m', |m|, |m|, name)
            && (Strict(m', |m'|, |m|, |m|).value.end == |m'| <==> EndsAtReturn(name, entries))
            && TableOk(done.entries, m')
  {
    var done := Encode(name, entries, useTable, |m|, room);
    assert done == EncodeRest(name, entries, useTable, |m|, room) by { hide EncodeRest; }
    assert Usable(entries, name, m, |m|) by { hide Decodes; }
    hide Encode, EncodeRest, Strict, UpToEmpty, Split, EndsAtReturn;
    EncodeRestReads(name, entries, useTable, m, room, |m|);
    var m' := m + done.bytes;
    var added := done.entries[|entries|..];
    hide Decodes;
    forall e | e in done.entries ensures e.pos < |m'| && Decodes(m', e.pos, e.pos, e.key) {
      if e in entries {
        DecodesExtends(m, e.pos, e.pos, e.key, m', e.pos);
      } else {
        assert e in added;
        DecodesExtends(m', e.pos, |m|, e.key, m', e.pos);
      }
    }
  }

  /** The round trip. Let `name` be encoded at the end of a message `m` with any table built so far. In every packet
      that contains the result, `name_parse` at that offset yields the canonical text of the name within a 256-byte
      buffer and within its jump budget, and so does a reader that keeps to the standard. The text is the name itself
      exactly when the name is the root or has no empty label, and the index returned is the encoder's exactly under
      `EndsAtReturn`. */
  lemma RoundTrip(name: seq<Byte>, entries: seq<Entry>, useTable: bool, m: seq<Byte>, room: nat, packet: seq<Byte>,
                  length: nat)
    requires TableOk(entries, m) && room <= 0x4000
    requires !useTable ==> entries == []
    requires Encode(name, entries, useTable, |m|, room).Done?
    requires m + Encode(name, entries, useTable, |m|, room).bytes <= packet
    requires |m| + |Encode(name, entries, useTable, |m|, room).bytes| <= length <= |packet|
    ensures var r := |m| + |Encode(name, entries, useTable, |m|, room).bytes|;
            var w := Walk(packet, length, |m|, length);
            && w.Some? && Readable(packet, length, |m|, length)
            && Strict(packet, length, |m|, length) == w
            && Join(w.value.labels) == Canonical(name)
            && |Join(w.value.labels)| < 256
            && (Join(w.value.labels) == name <==> name == [] || NoEmptyLabel(name))
            && (w.value.end == r <==> EndsAtReturn(name, entries))
  {
    EncodeReads(name, entries, useTable, m, room);
    var m' := m + Encode(name, entries, useTable, |m|, room).bytes;
    assert |name| <= 255 by { hide EncodeRest; }
    hide Encode, UpToEmpty, Split, EndsAtReturn, NoEmptyLabel, TableOk;
    hide Walk, Strict, Readable;
    StrictExtends(m', |m'|, |m|, |m|, packet, length, length);
    StrictIsWalk(packet, length, |m|, length);
    CanonicalIs(name);
    CanonicalShorter(name);
    CanonicalExact(name);
    ReadableIf(packet, length, |m|, length);
  }

  /** A name without empty labels ends where the encoder says, whatever the table; so does one with a trailing dot. */
  lemma {:induction false} NoEmptyEnds(name: seq<Byte>, entries: seq<Entry>)
    requires NoEmptyLabel(name)
    ensures EndsAtReturn(name, entries)
    decreases |name|
  {
    if DotIndex(name) < |name| {
      NoEmptySplit(name);
      NoEmptyEnds(name[DotIndex(name) + 1..], entries);
    }
  }

  /** The case the index goes wrong: "a..b" is written as 1 'a' 0 1 'b' 0, which reads as "a" and ends at 3, not 6. */
  lemma InteriorEmptyLabel()
    ensures var name := [97, 46, 46, 98];
            && Encode(name, [], false, 0, 512) == Done([1, 97, 0, 1, 98, 0], [])
            && Walk([1, 97, 0, 1, 98, 0], 6, 0, 6) == Some(Reading([[97]], 3))
            && !EndsAtReturn(name, [])
  {
    hide Encode, EncodeRest, EndsAtReturn, Walk;
    InteriorSteps();
    InteriorEncodes();
    InteriorReads();
  }

  lemma InteriorEncodes()
    ensures Encode([97, 46, 46, 98], [], false, 0, 512) == Done([1, 97, 0, 1, 98, 0], [])
  {
    hide EncodeRest, EndsAtReturn;
    InteriorSteps();
    EncodeLabel([97, DOT, DOT, 98], [97], [DOT, 98], 0, [0, 1, 98, 0]);
  }

  lemma InteriorReads()
    ensures Walk([1, 97, 0, 1, 98, 0], 6, 0, 6) == Some(Reading([[97]], 3))
  {
    var m := [1, 97, 0, 1, 98, 0];
    hide Walk, Strict;
    ZeroReads(m, 2, 6);
    LabelReads(m, 0, [97], 6);
    assert [[97]] + [] == [[97]];
    StrictIsWalk(m, 6, 0, 6);
  }

  /** The dot is the character 46: "a.b" is 1 'a' 1 'b' 0 on the wire, and reads back as it was. */
  lemma DottedName()
    ensures Encode([97, 46, 98], [], false, 0, 512) == Done([1, 97, 1, 98, 0], [])
    ensures Walk([1, 97, 1, 98, 0], 5, 0, 5) == Some(Reading([[97], [98]], 5))
    ensures Join([[97], [98]]) == [97, 46, 98]
  {
    assert DotIndex([98]) == 1 by { assert [98][1..] == []; }
    assert [98][..1] == [98];
    EncodeLabel([97, DOT, 98], [97], [98], 0, [1, 98, 0]);
    var m := [1, 97, 1, 98, 0];
    assert Join([[97], [98]]) == [97, DOT, 98];
    hide EncodeRest, Walk, Strict;
    ZeroReads(m, 4, 5);
    LabelReads(m, 2, [98], 5);
    LabelReads(m, 0, [97], 5);
    assert [[97]] + ([[98]] + []) == [[97], [98]];
    StrictIsWalk(m, 5, 0, 5);
  }

  lemma InteriorSteps()
    ensures EncodeRest([DOT, 98], [], false, 2, 512) == Done([0, 1, 98, 0], [])
    ensures !EndsAtReturn([97, DOT, DOT, 98], [])
  {
    assert DotIndex([98]) == 1 by { assert [98][1..] == []; }
    assert [98][..1] == [98];
    assert DotIndex([DOT, 98]) == 0 && [DOT, 98][1..] == [98];
    EncodeLabel([DOT, 98], [], [98], 2, [1, 98, 0]);
    assert [97, DOT, DOT, 98][1..] == [DOT, DOT, 98];
    assert DotIndex([97, DOT, DOT, 98]) == 1 && [97, DOT, DOT, 98][2..] == [DOT, 98];
  }

  lemma {:induction false} FirstDot(text: seq<Byte>, tail: seq<Byte>)
    requires DOT !in text
    ensures DotIndex(text + [DOT] + tail) == |text|
  {
    var name := text + [DOT] + tail;
    if text == [] {
      assert name[0] == DOT;
    } else {
      assert name[1..] == text[1..] + [DOT] + tail;
      FirstDot(text[1..], tail);
      assert name[0] == text[0] && text[0] in text;
    }
  }

  /** One label and a tail, encoded without a table. */
  lemma EncodeLabel(name: seq<Byte>, text: Label, tail: seq<Byte>, j: nat, bytes: seq<Byte>)
    requires name == text + [DOT] + tail && DOT !in text && |text| <= 63 && j + |text| + 1 <= 512
    requires EncodeRest(tail, [], false, j + |text| + 1, 512) == Done(bytes, [])
    ensures EncodeRest(name, [], false, j, 512) == Done([|text| as Byte] + text + bytes, [])
  {
    FirstDot(text, tail);
    assert name[..|text|] == text && name[|text| + 1..] == tail;
    hide DotIndex;
  }

  /** Neither `name` nor what follows one of its dots is in the table. */
  predicate Unknown(name: seq<Byte>, entries: seq<Entry>)
    decreases |name|
  {
    && Lookup(entries, name).None?
    && (DotIndex(name) < |name| ==> Unknown(name[DotIndex(name) + 1..], entries))
  }

  lemma {:induction false} UnknownSame(name: seq<Byte>, entries: seq<Entry>, known: seq<Entry>, longer: seq<Byte>,
                                       pos: nat)
    requires |name| < |longer| && (known == entries || known == entries + [Entry(longer, pos)])
    ensures Unknown(name, known) <==> Unknown(name, entries)
    decreases |name|
  {
    hide Lookup;
    LookupSame(name, entries, Entry(longer, pos));
    var k := DotIndex(name);
    if k < |name| { UnknownSame(name[k + 1..], entries, known, longer, pos); }
  }

  /** What the caller can look at before the call: the text ends exactly one byte before the end of the buffer and
      brings its own closing zero. */
  predicate EndsAtTheEdge(name: seq<Byte>, entries: seq<Entry>, useTable: bool, j: nat, room: nat) {
    && j + |name| + 1 == room
    && name != [] && name[|name| - 1] != DOT
    && (useTable ==> Unknown(name, entries))
  }

  /** The result ends within the buffer, or one byte past it exactly in the case above. */
  predicate Fits(e: Encoding, name: seq<Byte>, entries: seq<Entry>, useTable: bool, j: nat, room: nat) {
    e.Done? ==>
      && j + |e.bytes| <= room + 1
      && (j + |e.bytes| == room + 1 <==> EndsAtTheEdge(name, entries, useTable, j, room))
  }

  /** The encoder stays within its buffer but for the closing zero, which is written without a look at the length: it
      lies one byte past the buffer exactly when the name ends at its edge, and never further. */
  lemma {:induction false} EncodeFits(name: seq<Byte>, entries: seq<Entry>, useTable: bool, j: nat, room: nat)
    ensures Fits(EncodeRest(name, entries, useTable, j, room), name, entries, useTable, j, room)
    decreases |name|
  {
    hide *;
    var hit := if useTable then Lookup(entries, name) else None;
    var k := DotIndex(name);
    var known := if useTable then Remember(entries, name, j) else entries;
    RestUnfolds(name, entries, useTable, j, room, hit, k, known);
    if hit.Some? {
      FitsPointer(name, entries, j, room, hit.value);
    } else if k > 63 || j + k + 1 > room {
      FitsNot(name, entries, useTable, j, room);
    } else if k < |name| {
      EncodeFits(name[k + 1..], known, useTable, j + k + 1, room);
      RememberIs(entries, name, j);
      FitsMore(EncodeRest(name[k + 1..], known, useTable, j + k + 1, room), name, entries, known, useTable, j, room);
    } else {
      FitsLast(name, entries, known, useTable, j, room);
    }
  }

  lemma FitsNot(name: seq<Byte>, entries: seq<Entry>, useTable: bool, j: nat, room: nat)
    ensures Fits(NoRoom, name, entries, useTable, j, room) && Fits(LabelTooLong, name, entries, useTable, j, room)
  {
  }

  lemma FitsPointer(name: seq<Byte>, entries: seq<Entry>, j: nat, room: nat, ref: nat)
    requires Lookup(entries, name) == Some(ref)
    ensures Fits(if j + 2 > room then NoRoom else Done(PointerBytes(ref), entries), name, entries, true, j, room)
  {
    hide Lookup;
  }

  lemma FitsLast(name: seq<Byte>, entries: seq<Entry>, known: seq<Entry>, useTable: bool, j: nat, room: nat)
    requires useTable ==> Lookup(entries, name).None?
    requires DotIndex(name) == |name| <= 63 && j + |name| + 1 <= room
    ensures Fits(Done(if |name| == 0 then [0] else [|name| as Byte] + name + [0], known), name, entries, useTable, j,
                 room)
  {
    hide Lookup;
    assert name != [] ==> name[..|name|][|name| - 1] == name[|name| - 1];
  }

  lemma FitsMore(rest: Encoding, name: seq<Byte>, entries: seq<Entry>, known: seq<Entry>, useTable: bool, j: nat,
                 room: nat)
    requires useTable ==> Lookup(entries, name).None?
    requires DotIndex(name) < |name| && DotIndex(name) <= 63
             && (known == entries || known == entries + [Entry(name, j)])
    requires Fits(rest, name[DotIndex(name) + 1..], known, useTable, j + DotIndex(name) + 1, room)
    ensures Fits(Prefixed([DotIndex(name) as Byte] + name[..DotIndex(name)], rest), name, entries, useTable, j, room)
  {
    EdgeMore(name, entries, known, useTable, j, room);
    hide EndsAtTheEdge, DotIndex, Lookup, Prefixed;
    PrefixedDone([DotIndex(name) as Byte] + name[..DotIndex(name)], rest);
  }

  /** It is the same edge for the rest of a name. */
  lemma EdgeMore(name: seq<Byte>, entries: seq<Entry>, known: seq<Entry>, useTable: bool, j: nat, room: nat)
    requires useTable ==> Lookup(entries, name).None?
    requires DotIndex(name) < |name| && (known == entries || known == entries + [Entry(name, j)])
    ensures EndsAtTheEdge(name[DotIndex(name) + 1..], known, useTable, j + DotIndex(name) + 1, room)
            <==> EndsAtTheEdge(name, entries, useTable, j, room)
  {
    var tail := name[DotIndex(name) + 1..];
    UnknownSame(tail, entries, known, name, j);
    assert tail != [] ==> tail[|tail| - 1] == name[|name| - 1];
    hide Lookup;
  }

  /** The same for a whole call. */
  lemma NameFits(name: seq<Byte>, entries: seq<Entry>, useTable: bool, j: nat, room: nat)
    ensures Fits(Encode(name, entries, useTable, j, room), name, entries, useTable, j, room)
  {
    hide EncodeRest, EndsAtTheEdge;
    EncodeFits(name, entries, useTable, j, room);
  }

  /** One byte past it does happen, in a buffer of any size: "a" two bytes before the end. */
  lemma EncodeOverruns(useTable: bool, room: nat)
    requires room >= 2
    ensures Encode([97], [], useTable, room - 2, room)
              == Done([1, 97, 0], if useTable then [Entry([97], room - 2)] else [])
    ensures EndsAtTheEdge([97], [], useTable, room - 2, room)
  {
    assert [97][1..] == [] && [97][..1] == [97];
    assert DotIndex([97]) == 1;
  }

  // ---------- Compression ----------

  /** The table only grows, and to 128 entries at most. */
  lemma {:induction false} TableGrows(name: seq<Byte>, entries: seq<Entry>, useTable: bool, j: nat, room: nat)
    requires EncodeRest(name, entries, useTable, j, room).Done? && |entries| <= 128
    ensures entries <= EncodeRest(name, entries, useTable, j, room).entries
    ensures |EncodeRest(name, entries, useTable, j, room).entries| <= 128
    decreases |name|
  {
    hide Lookup, PointerBytes, DotIndex;
    var hit := if useTable then Lookup(entries, name) else None;
    var k := DotIndex(name);
    var known := if useTable then Remember(entries, name, j) else entries;
    RestUnfolds(name, entries, useTable, j, room, hit, k, known);
    hide EncodeRest;
    if hit.None? && k < |name| {
      TableGrows(name[k + 1..], known, useTable, j + k + 1, room);
    }
  }

  lemma {:induction false} LookupFirst(entries: seq<Entry>, longer: seq<Entry>, key: seq<Byte>)
    requires entries <= longer && Lookup(entries, key).Some?
    ensures Lookup(longer, key) == Lookup(entries, key)
  {
    if entries[0].key != key {
      LookupFirst(entries[1..], longer[1..], key);
    }
  }

  lemma {:induction false} LookupAdded(entries: seq<Entry>, key: seq<Byte>, pos: nat)
    requires Lookup(entries, key).None?
    ensures Lookup(entries + [Entry(key, pos)], key) == Some(pos)
  {
    var longer := entries + [Entry(key, pos)];
    if entries != [] {
      assert longer[0] == entries[0] && longer[1..] == entries[1..] + [Entry(key, pos)];
      LookupAdded(entries[1..], key, pos);
    }
  }

  /** After a name was written with a table that was not full, the table knows it: where it was written, or where the
      table had it before. */
  lemma NameIsKnown(name: seq<Byte>, entries: seq<Entry>, j: nat, room: nat)
    requires |entries| < 128 && EncodeRest(name, entries, true, j, room).Done?
    ensures Lookup(EncodeRest(name, entries, true, j, room).entries, name)
            == if Lookup(entries, name).Some? then Lookup(entries, name) else Some(j)
  {
    hide EncodeRest, DotIndex, Lookup, PointerBytes;
    var hit, k, known := Lookup(entries, name), DotIndex(name), Remember(entries, name, j);
    RestUnfolds(name, entries, true, j, room, hit, k, known);
    if hit.None? {
      LookupAdded(entries, name, j);
      assert known == entries + [Entry(name, j)];
      hide Remember;
      if k < |name| {
        TableGrows(name[k + 1..], known, true, j + k + 1, room);
        LookupFirst(known, EncodeRest(name[k + 1..], known, true, j + k + 1, room).entries, name);
      }
    }
  }

  /** Compression: a name that was written before, with a table of less than 128 entries, takes two bytes wherever it is
      written again, and they point to where it was written first. */
  lemma SecondTime(name: seq<Byte>, entries: seq<Entry>, j: nat, room: nat, j': nat, room': nat)
    requires |entries| < 128 && Encode(name, entries, true, j, room).Done? && j' + 2 <= room'
    ensures var first := Encode(name, entries, true, j, room);
      var again := Encode(name, first.entries, true, j', room');
      && again.Done? && |again.bytes| == 2 && again.entries == first.entries
      && (j < 0x4000 && Lookup(entries, name).None? ==> PointerTarget(again.bytes[0], again.bytes[1]) == j)
  {
    NameIsKnown(name, entries, j, room);
    hide EncodeRest, Lookup, PointerBytes, PointerTarget;
    var first := EncodeRest(name, entries, true, j, room);
    var at := Lookup(first.entries, name).value;
    KnownIsPointer(name, first.entries, j', room', at);
    PointerArithmetic(at);
    SmallOffset(at);
  }

  lemma KnownIsPointer(name: seq<Byte>, entries: seq<Entry>, j: nat, room: nat, at: nat)
    requires Lookup(entries, name) == Some(at) && |name| <= 255 && j + 2 <= room
    ensures Encode(name, entries, true, j, room) == Done(PointerBytes(at), entries)
  {
    hide Lookup, PointerBytes, DotIndex;
  }

  lemma SmallOffset(at: nat)
    ensures at < 0x4000 ==> at % 0x4000 == at
  {
  }
}
