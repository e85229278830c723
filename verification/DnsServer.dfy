/** The server side of evdns: collecting reply items and writing the response into a 1500-byte buffer in place. */
module DnsServer {
  import opened Bytes
  import opened Bits
  import opened Wrappers
  import opened DnsName
  import opened DnsWire
  import opened DnsMessage

  const MAX_RESPONSE := 512

  /** The buffer holds the message `b`, as far as it has room. */
  ghost predicate Holds(buf: seq<Byte>, b: seq<Byte>) {
    |buf| == BUFFER_SIZE && forall k :: 0 <= k < |b| && k < |buf| ==> buf[k] == b[k]
  }

  lemma HoldsMore(before: seq<Byte>, after: seq<Byte>, b: seq<Byte>, w: seq<Byte>)
    requires Holds(before, b) && Written(before, after, |b|, w)
    ensures Holds(after, b + w) && Holds(after, b)
  {
  }

  lemma HoldsPrefix(buf: seq<Byte>, b: seq<Byte>, b': seq<Byte>)
    requires Holds(buf, b') && b <= b'
    ensures Holds(buf, b)
  {
  }

  /** `APPEND16`, `APPEND32` and the checked `memcpy`: bytes at `j` if they fit. */
  method Append(buf: array<Byte>, j: nat, bytes: seq<Byte>, ghost b: seq<Byte>) returns (ok: bool)
    requires Holds(buf[..], b) && j == |b|
    modifies buf
    ensures ok <==> j + |bytes| <= BUFFER_SIZE
    ensures Holds(buf[..], if ok then b + bytes else b)
  {
    if j + |bytes| > buf.Length { return false; }
    ghost var before := buf[..];
    forall i | 0 <= i < |bytes| { buf[j + i] := bytes[i]; }
    assert Written(before, buf[..], j, bytes);
    HoldsMore(before, buf[..], b, bytes);
    ok := true;
  }

  /** `dnsname_to_labels` at the end of the message. */
  method AppendName(buf: array<Byte>, j: nat, name: seq<Byte>, table: LabelTable, ghost b: seq<Byte>) returns (r: int)
    requires 0 !in name && Holds(buf[..], b) && j == |b|
    modifies buf, table
    ensures Holds(buf[..], b)
    ensures match Encode(name, old(table.labels), true, |b|, BUFFER_SIZE)
            case LabelTooLong => r == -1
            case NoRoom => r == -2
            case Done(bytes, entries) => r == |b + bytes| && table.labels == entries && Holds(buf[..], b + bytes)
  {
    hide Encode, Written;
    ghost var before := buf[..];
    ghost var e := Encode(name, table.labels, true, |b|, BUFFER_SIZE);
    r := DnsnameToLabels(buf, j, name, table);
    if r >= 0 {
      assert e.Done?;
      HoldsMore(before, buf[..], b, e.bytes);
    } else {
      HoldsSame(before, buf[..], b);
    }
  }

  lemma HoldsSame(before: seq<Byte>, after: seq<Byte>, b: seq<Byte>)
    requires Holds(before, b) && |after| == |before|
             && forall k :: 0 <= k < |before| && k < |b| ==> after[k] == before[k]
    ensures Holds(after, b)
  {
  }

  /** How a step ended: `code` 0 for success, 1 for a jump to `overflow`, otherwise the negative result to return. */
  ghost predicate Ended(build: Build, code: int, j: nat, buf: seq<Byte>, entries: seq<Entry>) {
    match build
    case Built(b, entries') => code == 0 && j == |b| && Holds(buf, b) && entries == entries'
    case Overflow(b) => code == 1 && Holds(buf, b)
    case Refused(c) => code == c
  }

  method AppendQuestion(buf: array<Byte>, j: nat, q: Question, table: LabelTable, ghost b: seq<Byte>)
    returns (code: int, j': nat)
    requires 0 !in q.name && Holds(buf[..], b) && j == |b|
    modifies buf, table
    ensures Holds(buf[..], b)
    ensures Ended(PutQuestion(b, old(table.labels), q), code, j', buf[..], table.labels)
  {
    hide Encode, Holds;
    ghost var e := Encode(q.name, table.labels, true, |b|, BUFFER_SIZE);
    var r := AppendName(buf, j, q.name, table, b);
    if r < 0 { return r, j; }
    ghost var b1 := b + e.bytes;
    U16Parts(q.typ);
    U16Parts(q.cls);
    hide U16;
    var ok := Append(buf, r, U16(q.typ), b1);
    if ok {
      ok := Append(buf, r + 2, U16(q.cls), b1 + U16(q.typ));
      assert b1 + U16(q.typ) + U16(q.cls) == b1 + (U16(q.typ) + U16(q.cls));
    }
    HoldsPrefix(buf[..], b,
                if ok then b1 + (U16(q.typ) + U16(q.cls)) else if r + 2 <= BUFFER_SIZE then b1 + U16(q.typ) else b1);
    return if ok then 0 else 1, r + 4;
  }

  method AppendHead(buf: array<Byte>, j: nat, item: Item, table: LabelTable, ghost b: seq<Byte>)
    returns (code: int, j': nat)
    requires 0 !in item.name && Holds(buf[..], b) && j == |b|
    modifies buf, table
    ensures Holds(buf[..], b)
    ensures Ended(PutItemHead(b, old(table.labels), item), code, j', buf[..], table.labels)
  {
    hide Encode, Holds;
    ghost var e := Encode(item.name, table.labels, true, |b|, BUFFER_SIZE);
    var r := AppendName(buf, j, item.name, table, b);
    if r < 0 { return 1, j; }
    ghost var b1 := b + e.bytes;
    assert |U16(item.typ)| == 2 && |U16(item.cls)| == 2 && |U32(item.ttl)| == 4;
    hide U16, U32;
    var ok := Append(buf, r, U16(item.typ), b1);
    ghost var b2 := if ok then b1 + U16(item.typ) else b1;
    if ok {
      ok := Append(buf, r + 2, U16(item.cls), b2);
      b2 := if ok then b2 + U16(item.cls) else b2;
      if ok {
        ok := Append(buf, r + 4, U32(item.ttl), b2);
        b2 := if ok then b2 + U32(item.ttl) else b2;
        assert b1 + U16(item.typ) + U16(item.cls) + U32(item.ttl)
                 == b1 + (U16(item.typ) + U16(item.cls) + U32(item.ttl));
      }
    }
    HoldsPrefix(buf[..], b, b2);
    return if ok then 0 else 1, r + 8;
  }

  lemma HoldsPatched(b0: seq<Byte>, b1: seq<Byte>, b2: seq<Byte>, b: seq<Byte>, n: seq<Byte>, w: seq<Byte>)
    requires Holds(b0, b) && |n| == 2 && |b| + 2 <= BUFFER_SIZE
    requires Written(b0, b1, |b| + 2, w) && Written(b1, b2, |b|, n)
    ensures Holds(b2, b + n + w)
  {
  }

  /** RDATA that is a name: skip the length, write the name, then fill the length in. */
  method AppendTarget(buf: array<Byte>, j: nat, name: seq<Byte>, table: LabelTable, ghost b: seq<Byte>)
    returns (code: int, j': nat)
    requires 0 !in name && Holds(buf[..], b) && j == |b|
    modifies buf, table
    ensures Holds(buf[..], b)
    ensures Ended(PutData(b, old(table.labels), Target(name)), code, j', buf[..], table.labels)
  {
    hide Encode;
    ghost var e := Encode(name, table.labels, true, |b| + 2, BUFFER_SIZE);
    ghost var b0 := buf[..];
    var r := DnsnameToLabels(buf, j + 2, name, table);
    if r < 0 {
      HoldsSame(b0, buf[..], b);
      return 1, j;
    }
    assert |b| + 2 <= BUFFER_SIZE by { EncodeStarts(name, old(table.labels), |b| + 2); }
    ghost var b1 := buf[..];
    var length := U16(r - (j + 2));
    assert |length| == 2;
    hide U16;
    buf[j], buf[j + 1] := length[0], length[1];
    assert Written(b1, buf[..], |b|, length);
    HoldsPatched(b0, b1, buf[..], b, length, e.bytes);
    HoldsPrefix(buf[..], b, b + length + e.bytes);
    return 0, r;
  }

  lemma EncodeStarts(name: seq<Byte>, entries: seq<Entry>, j: nat)
    requires Encode(name, entries, true, j, BUFFER_SIZE).Done?
    ensures j <= BUFFER_SIZE
  {
    hide Lookup, DotIndex;
  }

  method AppendItem(buf: array<Byte>, j: nat, item: Item, table: LabelTable, ghost b: seq<Byte>)
    returns (code: int, j': nat)
    requires 0 !in item.name && (item.data.Target? ==> 0 !in item.data.name)
    requires Holds(buf[..], b) && j == |b|
    modifies buf, table
    ensures Holds(buf[..], b)
    ensures Ended(PutItem(b, old(table.labels), item), code, j', buf[..], table.labels)
  {
    hide Encode, Holds, PutItemHead;
    ghost var head := PutItemHead(b, table.labels, item);
    code, j' := AppendHead(buf, j, item, table, b);
    HeadGrows(b, old(table.labels), item);
    if code != 0 { return; }
    match item.data
    case Target(name) =>
      code, j' := AppendTarget(buf, j', name, table, head.bytes);
      HoldsPrefix(buf[..], b, head.bytes);
    case Raw(bytes) =>
      U16Length(|bytes|);
      hide U16;
      var ok := Append(buf, j', U16(|bytes|), head.bytes);
      ghost var b2 := if ok then head.bytes + U16(|bytes|) else head.bytes;
      if ok {
        ok := Append(buf, j' + 2, bytes, b2);
        b2 := if ok then b2 + bytes else b2;
      }
      HoldsPrefix(buf[..], b, b2);
      return if ok then 0 else 1, j' + 2 + |bytes|;
  }

  lemma U16Length(x: int)
    ensures |U16(x)| == 2
  {
  }

  lemma HeadGrows(b: seq<Byte>, entries: seq<Entry>, item: Item)
    ensures match PutItemHead(b, entries, item)
            case Built(b', _) => b <= b'
            case Overflow(b') => b <= b'
            case Refused(_) => false
  {
    hide Encode;
  }

  // ---------- Requests ----------

  /** `x | y` on four bits. */
  function OrNibble(x: int, y: int): int {
    (if x % 2 == 1 || y % 2 == 1 then 1 else 0)
    + (if x / 2 % 2 == 1 || y / 2 % 2 == 1 then 2 else 0)
    + (if x / 4 % 2 == 1 || y / 4 % 2 == 1 then 4 else 0)
    + (if x / 8 % 2 == 1 || y / 8 % 2 == 1 then 8 else 0)
  }

  /** `flags | (0x8000 | err)`: the response bit and the error code. */
  function ResponseFlags(flags: Word, err: int): Word
    requires 0 <= err <= 15
  {
    0x8000 + flags % 0x8000 / 16 * 16 + OrNibble(flags % 16, err)
  }

  /** `b | 0x02`: the truncation bit in the third byte of the header. */
  function WithTruncated(b: Byte): Byte {
    var x: int := b;
    if x / 2 % 2 == 1 then x else x + 2
  }

  /** Bit by bit: the response bit is set, the error code is added to the lowest four, the rest is kept. */
  lemma {:induction false} FlagBits(flags: Word, err: int, k: nat)
    requires 0 <= err <= 15 && k < 16
    ensures Bit(ResponseFlags(flags, err), k) <==> k == 15 || Bit(flags, k) || (k < 4 && Bit(err, k))
  {
    var q, r := flags % 0x8000 / 16, OrNibble(flags % 16, err);
    var top := flags / 0x8000;
    assert flags == top * 0x8000 + (q * 16 + flags % 16);
    assert Pow2(4) == 16 && Pow2(11) == 0x800 && Pow2(15) == 0x8000;
    OrBits(flags % 16, err, k);
    hide OrNibble, Bit, Pow2;
    assert ResponseFlags(flags, err) == 1 * 0x8000 + (q * 16 + r);
    BitJoined(top, q * 16 + flags % 16, 15, k);
    BitJoined(1, q * 16 + r, 15, k);
    BitJoined(q, flags % 16, 4, k);
    BitJoined(q, r, 4, k);
    BitsOfNibble(1);
  }

  lemma BitsOfNibble(x: nat)
    ensures Bit(x, 0) <==> x % 2 == 1
    ensures Bit(x, 1) <==> x / 2 % 2 == 1
    ensures Bit(x, 2) <==> x / 4 % 2 == 1
    ensures Bit(x, 3) <==> x / 8 % 2 == 1
  {
    assert x / 2 / 2 == x / 4 && x / 4 / 2 == x / 8;
    assert Bit(x, 1) <==> Bit(x / 2, 0);
    assert Bit(x, 2) <==> Bit(x / 4, 0);
    assert Bit(x, 3) <==> Bit(x / 8, 0);
  }

  lemma LowBits(x: nat, k: nat)
    ensures k == 0 ==> (Bit(x % 4, k) <==> Bit(x % 2 + 2, k))
    ensures k == 1 ==> Bit(x % 2 + 2, k)
  {
    hide Bit;
    BitsOfNibble(x % 4);
    BitsOfNibble(x % 2 + 2);
  }

  lemma OrBits(x: int, y: int, k: nat)
    requires 0 <= x < 16 && 0 <= y < 16
    ensures 0 <= OrNibble(x, y) < 16
    ensures k < 4 ==> (Bit(OrNibble(x, y), k) <==> Bit(x, k) || Bit(y, k))
  {
    var r := OrNibble(x, y);
    NibbleDigits(r, x % 2 == 1 || y % 2 == 1, x / 2 % 2 == 1 || y / 2 % 2 == 1, x / 4 % 2 == 1 || y / 4 % 2 == 1,
                 x / 8 % 2 == 1 || y / 8 % 2 == 1);
    hide Bit, OrNibble;
    BitsOfNibble(x);
    BitsOfNibble(y);
    BitsOfNibble(r);
  }

  lemma NibbleDigits(r: int, b0: bool, b1: bool, b2: bool, b3: bool)
    requires r == (if b0 then 1 else 0) + (if b1 then 2 else 0) + (if b2 then 4 else 0) + (if b3 then 8 else 0)
    ensures 0 <= r < 16
    ensures (r % 2 == 1 <==> b0) && (r / 2 % 2 == 1 <==> b1) && (r / 4 % 2 == 1 <==> b2) && (r / 8 % 2 == 1 <==> b3)
  {
  }

  /** Bit 1 is set, the others are kept. */
  lemma {:induction false} TruncatedBits(b: Byte, k: nat)
    ensures Bit(WithTruncated(b), k) <==> k == 1 || Bit(b, k)
  {
    var x: int := b;
    var y: int := WithTruncated(b);
    assert y == x / 4 * 4 + (x % 2 + 2) && x == x / 4 * 4 + x % 4 && Pow2(2) == 4;
    hide WithTruncated, Bit, Pow2;
    BitJoined(x / 4, x % 4, 2, k);
    BitJoined(x / 4, x % 2 + 2, 2, k);
    LowBits(x, k);
  }

  /** The item as it is kept: `datalen` is a u16, so of longer data only the bytes up to the wrapped length count. */
  function Stored(item: Item): (r: Item)
    ensures item.data.Raw? && |item.data.bytes| < 0x1_0000 ==> r == item
    ensures r.data.Raw? ==>
              item.data.Raw? && |r.data.bytes| == |item.data.bytes| % 0x1_0000 && r.data.bytes <= item.data.bytes
  {
    if item.data.Raw? then item.(data := Raw(item.data.bytes[..|item.data.bytes| % 0x1_0000])) else item
  }

  datatype Section = AnswerSection | AuthoritySection | AdditionalSection

  /** `struct server_request`, as far as building the response goes. */
  class ServerRequest {
    const transId: Word
    var flags: Word
    const questions: seq<Question>
    var answer: seq<Item>
    var authority: seq<Item>
    var additional: seq<Item>
    var nAnswer: nat
    var nAuthority: nat
    var nAdditional: nat
    var response: Option<seq<Byte>>

    /** Until a response is made the counters are the lengths of the lists. */
    ghost predicate Valid()
      reads this
    {
      && (response.None? ==> nAnswer == |answer| && nAuthority == |authority| && nAdditional == |additional|)
      && (forall q :: q in questions ==> 0 !in q.name)
      && (forall item :: item in answer + authority + additional ==>
              0 !in item.name && (item.data.Target? ==> 0 !in item.data.name))
      && (forall item :: item in answer + authority + additional && item.data.Raw? ==> |item.data.bytes| < 0x1_0000)
    }

    /** What the request says so far. */
    ghost function Said(err: int): Response
      requires 0 <= err <= 15
      reads this
    {
      Response(transId, ResponseFlags(flags, err), questions, answer, authority, additional)
    }

    constructor (id: Word, flags: Word, questions: seq<Question>)
      requires forall q :: q in questions ==> 0 !in q.name
      ensures Valid() && response.None? && answer == authority == additional == []
      ensures transId == id && this.flags == flags && this.questions == questions
    {
      transId := id;
      this.flags := flags;
      this.questions := questions;
      answer, authority, additional := [], [], [];
      nAnswer, nAuthority, nAdditional := 0, 0, 0;
      response := None;
    }

    /** `evdns_server_request_add_reply`: refused once a response was made, otherwise the item goes to the end of its
        section, with no more of its raw data than a 16-bit length says. */
    method AddReply(section: Section, item: Item) returns (result: int)
      requires Valid() && 0 !in item.name && (item.data.Target? ==> 0 !in item.data.name)
      modifies this
      ensures Valid() && response == old(response) && flags == old(flags)
      ensures result == if old(response).Some? then -1 else 0
      ensures answer == old(answer) + (if result == 0 && section.AnswerSection? then [Stored(item)] else [])
      ensures authority == old(authority) + (if result == 0 && section.AuthoritySection? then [Stored(item)] else [])
      ensures additional == old(additional) + (if result == 0 && section.AdditionalSection? then [Stored(item)] else [])
    {
      if response.Some? { return -1; }
      var stored := Stored(item);
      match section {
        case AnswerSection =>
          answer := answer + [stored];
          nAnswer := nAnswer + 1;
        case AuthoritySection =>
          authority := authority + [stored];
          nAuthority := nAuthority + 1;
        case AdditionalSection =>
          additional := additional + [stored];
          nAdditional := nAdditional + 1;
      }
      return 0;
    }

    /** The question loop. */
    method AppendQuestions(buf: array<Byte>, j: nat, table: LabelTable, ghost b: seq<Byte>) returns (code: int, j': nat)
      requires Valid() && Holds(buf[..], b) && j == |b|
      modifies buf, table
      ensures Holds(buf[..], b)
      ensures Ended(PutQuestions(b, old(table.labels), questions), code, j', buf[..], table.labels)
    {
      hide Holds, PutQuestion;
      ghost var whole := PutQuestions(b, table.labels, questions);
      ghost var now := b;
      code, j' := 0, j;
      var i := 0;
      while i < |questions|
        invariant i <= |questions| && code == 0
        invariant b <= now && j' == |now| && Holds(buf[..], now)
        invariant whole == PutQuestions(now, table.labels, questions[i..])
      {
        QuestionsUnfold(now, table.labels, questions[i..]);
        ghost var first := PutQuestion(now, table.labels, questions[i]);
        QuestionGrows(now, table.labels, questions[i]);
        HoldsPrefix(buf[..], b, now);
        code, j' := AppendQuestion(buf, j', questions[i], table, now);
        if code != 0 {
          HoldsPrefix(buf[..], b, now);
          return;
        }
        now := first.bytes;
        assert questions[i..][1..] == questions[i + 1..];
        i := i + 1;
      }
      assert questions[i..] == [];
      HoldsPrefix(buf[..], b, now);
    }

    /** The `while (item)` loop over one section. */
    method AppendItems(buf: array<Byte>, j: nat, items: seq<Item>, table: LabelTable, ghost b: seq<Byte>)
      returns (code: int, j': nat)
      requires forall item :: item in items ==> 0 !in item.name && (item.data.Target? ==> 0 !in item.data.name)
      requires Holds(buf[..], b) && j == |b|
      modifies buf, table
      ensures Holds(buf[..], b)
      ensures Ended(PutItems(b, old(table.labels), items), code, j', buf[..], table.labels)
    {
      hide Holds, PutItem;
      ghost var whole := PutItems(b, table.labels, items);
      ghost var now := b;
      code, j' := 0, j;
      var i := 0;
      while i < |items|
        invariant i <= |items| && code == 0
        invariant b <= now && j' == |now| && Holds(buf[..], now)
        invariant whole == PutItems(now, table.labels, items[i..])
      {
        ItemsUnfold(now, table.labels, items[i..]);
        ghost var first := PutItem(now, table.labels, items[i]);
        ItemGrows(now, table.labels, items[i]);
        code, j' := AppendItem(buf, j', items[i], table, now);
        if code != 0 {
          HoldsPrefix(buf[..], b, now);
          return;
        }
        now := first.bytes;
        assert items[i..][1..] == items[i + 1..];
        i := i + 1;
      }
      assert items[i..] == [];
      HoldsPrefix(buf[..], b, now);
    }

    /** The items of the sections from the `i`th on. */
    ghost function ItemsFrom(i: nat): seq<Item>
      reads this
    {
      if i == 0 then answer + authority + additional
      else if i == 1 then authority + additional
      else if i == 2 then additional
      else []
    }

    function SectionAt(i: nat): seq<Item>
      reads this
    {
      if i == 0 then answer else if i == 1 then authority else additional
    }

    lemma SectionFirst(i: nat)
      requires i < 3
      ensures ItemsFrom(i) == SectionAt(i) + ItemsFrom(i + 1)
    {
      assert additional + [] == additional;
    }

    /** Questions, then the three sections. */
    method AppendAll(err: int, buf: array<Byte>, table: LabelTable) returns (code: int, j: nat)
      requires Valid() && response.None? && 0 <= err <= 15
      requires buf.Length == BUFFER_SIZE && table.labels == []
      modifies buf, table
      ensures Holds(buf[..], Said(err).Header())
      ensures Ended(Format(Said(err)), code, j, buf[..], table.labels)
    {
      ghost var said := Said(err);
      var header := U16(transId) + U16(ResponseFlags(flags, err)) + U16(|questions|)
                    + U16(nAnswer) + U16(nAuthority) + U16(nAdditional);
      assert header == said.Header() && |header| == 12;
      assert Holds(buf[..], []);
      hide U16, PutQuestions, PutItems, Holds;
      var ok := Append(buf, 0, header, []);
      assert [] + header == header;
      code, j := AppendQuestions(buf, 12, table, header);
      ghost var now := PutQuestions(header, [], questions);
      if code != 0 { return; }
      QuestionsGrow(header, [], questions);
      ghost var b, entries := now.bytes, now.entries;
      HoldsPrefix(buf[..], header, b);
      assert Format(said) == PutItems(b, entries, ItemsFrom(0));
      var i := 0;
      hide Format;
      while i < 3
        invariant 0 <= i <= 3 && code == 0
        invariant header <= b && j == |b| && Holds(buf[..], b) && Holds(buf[..], header) && table.labels == entries
        invariant Format(said) == PutItems(b, entries, ItemsFrom(i))
      {
        var items := SectionAt(i);
        SectionFirst(i);
        PutItemsAppend(b, entries, items, ItemsFrom(i + 1));
        SectionItems(i);
        hide ItemsFrom, SectionAt, Valid;
        ItemsGrow(b, entries, items);
        code, j := AppendSection(buf, j, items, table, b, header);
        if code != 0 { return; }
        ghost var section := PutItems(b, entries, items);
        b, entries := section.bytes, section.entries;
        i := i + 1;
      }
      NoItems(b, entries);
    }

    lemma SectionItems(i: nat)
      requires Valid()
      ensures forall item :: item in SectionAt(i) ==> 0 !in item.name && (item.data.Target? ==> 0 !in item.data.name)
    {
    }

    /** One section; the header stays what it is. */
    method AppendSection(buf: array<Byte>, j: nat, items: seq<Item>, table: LabelTable, ghost b: seq<Byte>,
                         ghost header: seq<Byte>)
      returns (code: int, j': nat)
      requires forall item :: item in items ==> 0 !in item.name && (item.data.Target? ==> 0 !in item.data.name)
      requires Holds(buf[..], b) && j == |b| && header <= b
      modifies buf, table
      ensures Ended(PutItems(b, old(table.labels), items), code, j', buf[..], table.labels)
      ensures Holds(buf[..], header)
    {
      code, j' := AppendItems(buf, j, items, table, b);
      HoldsPrefix(buf[..], header, b);
    }

    /** `evdns_server_request_format_response`, called while there is no response yet. */
    method FormatResponse(err: int) returns (r: int)
      requires Valid() && response.None?
      modifies this
      ensures Valid() && flags == old(flags)
      ensures err < 0 || err > 15 ==> r == -1 && response.None?
      ensures 0 <= err <= 15 ==> Answers(old(Said(err)), r, response)
      ensures r == 0 ==> FlagsSent(response, flags, err, !Whole(old(Said(err))))
      ensures r == 0 && Whole(old(Said(err))) && RegularResponse(old(Said(err))) ==>
                Conveys(response.value, transId, questions, old(answer), old(authority), old(additional))
      ensures r == 0 ==> answer == authority == additional == []
      ensures r < 0 ==> answer == old(answer) && authority == old(authority) && additional == old(additional)
    {
      if err < 0 || err > 15 { return -1; }
      hide PutQuestions, PutItems, Format, ResponseFlags, Holds, Answers, Whole, FlagsSent, Conveys, RegularResponse;
      hide Ended;
      ghost var said := Said(err);
      var buf := new Byte[BUFFER_SIZE];
      var table := new LabelTable();
      var code, j := AppendAll(err, buf, table);
      if code < 0 {
        RefusedAnswers(said, code, j, buf[..], table.labels);
        return code;
      }
      var bytes := Finish(said, buf, code, j, table.labels);
      SentFlags(said, flags, err, bytes);
      WholeConveys(said, bytes);
      response := Some(bytes);
      answer, authority, additional := [], [], [];
      return 0;
    }
  }

  lemma RefusedAnswers(said: Response, code: int, j: nat, buf: seq<Byte>, entries: seq<Entry>)
    requires Ended(Format(said), code, j, buf, entries) && code < 0
    ensures Answers(said, code, None)
  {
    hide Format;
  }

  /** What the caller gets: the code of an error in the questions, the whole message, or 512 bytes that begin with
      what was written of it, as far as that goes. */
  ghost predicate Answers(said: Response, r: int, response: Option<seq<Byte>>) {
    match Format(said)
    case Refused(code) => r == code < 0 && response.None?
    case Built(b, _) => r == 0 && response == Some(if |b| <= MAX_RESPONSE then b else Cut(b))
    case Overflow(b) =>
      && r == 0 && response.Some? && |response.value| == MAX_RESPONSE
      && said.Header() <= b && 12 <= |b|
      && (|b| < MAX_RESPONSE ==> Marked(b) <= response.value)
      && (|b| >= MAX_RESPONSE ==> response.value == Marked(b[..MAX_RESPONSE]))
  }

  /** It fits a UDP packet. */
  ghost predicate Whole(said: Response) {
    Format(said).Built? && |Format(said).bytes| <= 512
  }

  /** The third and fourth byte of the response, bit by bit: bit 15 marks a response, bit 9 a truncated one, the lowest
      four have the error code, and the request's own flags are kept. */
  ghost predicate FlagsSent(response: Option<seq<Byte>>, flags: Word, err: int, truncated: bool) {
    && response.Some? && 12 <= |response.value| <= 512
    && forall k :: 0 <= k < 16 ==>
         (Bit(GetU16(response.value, 2), k)
          <==> k == 15 || Bit(flags, k) || (0 <= err && k < 4 && Bit(err, k)) || (k == 9 && truncated))
  }

  lemma WholeConveys(said: Response, bytes: seq<Byte>)
    requires Answers(said, 0, Some(bytes))
    ensures Whole(said) && RegularResponse(said) ==>
              Conveys(bytes, said.id, said.questions, said.answer, said.authority, said.additional)
  {
    hide Format, Conveys, RegularResponse;
    if Whole(said) && RegularResponse(said) { ResponseReads(said); }
  }

  lemma HeaderFlags(said: Response)
    ensures |said.Header()| == 12 && GetU16(said.Header(), 2) == said.flags
  {
    var h := said.Header();
    assert h[2..4] == U16(said.flags);
    hide U16;
    U16Reads(h, 2, said.flags);
  }

  lemma FirstBytes(said: Response, bytes: seq<Byte>)
    requires Answers(said, 0, Some(bytes)) && |said.Header()| == 12
    ensures 12 <= |bytes| <= 512
    ensures var h := said.Header();
      bytes[3] == h[3] && bytes[2] == if Whole(said) then h[2] else WithTruncated(h[2])
  {
    FormatRefused(said);
    hide Format, WithTruncated;
  }

  lemma SentWord(said: Response, bytes: seq<Byte>) returns (high: Byte, low: Byte)
    requires Answers(said, 0, Some(bytes))
    ensures 12 <= |bytes| <= 512
    ensures var h: int := high; h * 256 + low == said.flags
    ensures var h: int := if Whole(said) then high else WithTruncated(high); GetU16(bytes, 2) == h * 256 + low
  {
    HeaderFlags(said);
    FirstBytes(said, bytes);
    hide Answers, Whole, WithTruncated, GetU16;
    HighLow(said.Header(), 2);
    HighLow(bytes, 2);
    high, low := said.Header()[2], said.Header()[3];
  }

  lemma SentFlags(said: Response, flags: Word, err: int, bytes: seq<Byte>)
    requires Answers(said, 0, Some(bytes)) && 0 <= err <= 15 && said.flags == ResponseFlags(flags, err)
    ensures FlagsSent(Some(bytes), flags, err, !Whole(said))
  {
    hide Answers, Whole, Bit, ResponseFlags, WithTruncated, GetU16;
    var high, low := SentWord(said, bytes);
    forall k: int | 0 <= k < 16
      ensures Bit(GetU16(bytes, 2), k)
              <==> k == 15 || Bit(flags, k) || (k < 4 && Bit(err, k)) || (k == 9 && !Whole(said))
    {
      FlagBits(flags, err, k);
      MarkedBit(high, low, !Whole(said), k);
    }
  }

  lemma HighLow(m: seq<Byte>, p: nat)
    requires p + 2 <= |m|
    ensures var high: int := m[p]; GetU16(m, p) == high * 256 + m[p + 1]
  {
  }

  lemma MarkedBit(high: Byte, low: Byte, truncated: bool, k: nat)
    ensures var before: int := high;
      var after: int := if truncated then WithTruncated(high) else high;
      Bit(after * 256 + low, k) <==> Bit(before * 256 + low, k) || (truncated && k == 9)
  {
    hide Bit, WithTruncated;
    WordBits(high, low, k);
    WordBits(WithTruncated(high), low, k);
    if k >= 8 { TruncatedBits(high, k - 8); }
  }

  lemma WordBits(high: int, low: int, k: nat)
    requires 0 <= high && 0 <= low < 256
    ensures Bit(high * 256 + low, k) <==> if k < 8 then Bit(low, k) else Bit(high, k - 8)
  {
    assert Pow2(8) == 256;
    hide Bit, Pow2;
    BitJoined(high, low, 8, k);
  }

  /** The end of `evdns_server_request_format_response`, from the check for 512 bytes on. */
  method Finish(ghost said: Response, buf: array<Byte>, code: int, j: nat, ghost entries: seq<Entry>)
    returns (bytes: seq<Byte>)
    requires Ended(Format(said), code, j, buf[..], entries) && buf.Length == BUFFER_SIZE && code >= 0
    modifies buf
    ensures Answers(said, 0, Some(bytes))
  {
    ghost var whole, before := Format(said), buf[..];
    FormatRefused(said);
    HeaderLength(said);
    var size := j;
    hide Format, Holds, WithTruncated;
    if code == 1 || j > MAX_RESPONSE {
      size := MAX_RESPONSE;
      buf[2] := WithTruncated(buf[2]);
      CutHolds(before, buf[..], if whole.Built? then whole.bytes else whole.written);
    } else {
      WholeHolds(buf[..], whole.bytes);
    }
    bytes := buf[..size];
  }

  /** The header with the truncation bit set. */
  function Marked(b: seq<Byte>): seq<Byte>
    requires |b| > 2
  {
    b[2 := WithTruncated(b[2])]
  }

  /** A message cut to what fits a UDP packet. */
  function Cut(b: seq<Byte>): seq<Byte>
    requires |b| > MAX_RESPONSE
  {
    Marked(b[..MAX_RESPONSE])
  }

  lemma CutHolds(before: seq<Byte>, after: seq<Byte>, b: seq<Byte>)
    requires Holds(before, b) && |b| > 2 && after == before[2 := WithTruncated(before[2])]
    ensures |b| >= MAX_RESPONSE ==> after[..MAX_RESPONSE] == Marked(b[..MAX_RESPONSE])
    ensures |b| < MAX_RESPONSE ==> Marked(b) <= after[..MAX_RESPONSE]
  {
    hide WithTruncated;
  }

  lemma WholeHolds(buf: seq<Byte>, b: seq<Byte>)
    requires Holds(buf, b) && |b| <= BUFFER_SIZE
    ensures buf[..|b|] == b
  {
  }

  lemma HeaderLength(r: Response)
    ensures |r.Header()| == 12
  {
  }

  lemma FormatRefused(r: Response)
    ensures match Format(r)
            case Refused(code) => code < 0
            case Built(b, _) => r.Header() <= b
            case Overflow(b) => r.Header() <= b
  {
    HeaderLength(r);
    QuestionsGrow(r.Header(), [], r.questions);
    hide PutQuestions, PutItems;
    var first := PutQuestions(r.Header(), [], r.questions);
    if first.Built? { ItemsGrow(first.bytes, first.entries, r.Items()); }
  }

  lemma NoItems(b: seq<Byte>, entries: seq<Entry>)
    ensures PutItems(b, entries, []) == Built(b, entries)
  {
  }

  lemma {:induction false} QuestionsGrow(b: seq<Byte>, entries: seq<Entry>, qs: seq<Question>)
    ensures match PutQuestions(b, entries, qs)
            case Built(b', _) => b <= b'
            case Overflow(b') => b <= b'
            case Refused(code) => code < 0
    decreases |qs|
  {
    hide PutQuestion;
    if qs != [] {
      QuestionGrows(b, entries, qs[0]);
      var first := PutQuestion(b, entries, qs[0]);
      if first.Built? { QuestionsGrow(first.bytes, first.entries, qs[1..]); }
    }
  }

  lemma {:induction false} ItemsGrow(b: seq<Byte>, entries: seq<Entry>, items: seq<Item>)
    ensures match PutItems(b, entries, items)
            case Built(b', _) => b <= b'
            case Overflow(b') => b <= b'
            case Refused(_) => false
    decreases |items|
  {
    hide PutItem;
    if items != [] {
      ItemGrows(b, entries, items[0]);
      var first := PutItem(b, entries, items[0]);
      if first.Built? { ItemsGrow(first.bytes, first.entries, items[1..]); }
    }
  }

  lemma {:induction false} PutItemsAppend(b: seq<Byte>, entries: seq<Entry>, xs: seq<Item>, ys: seq<Item>)
    ensures PutItems(b, entries, xs + ys) ==
            match PutItems(b, entries, xs)
            case Built(b', entries') => PutItems(b', entries', ys)
            case error => error
    decreases |xs|
  {
    hide PutItem;
    if xs == [] {
      assert xs + ys == ys;
    } else {
      ItemsUnfold(b, entries, xs + ys);
      assert (xs + ys)[0] == xs[0] && (xs + ys)[1..] == xs[1..] + ys;
      var first := PutItem(b, entries, xs[0]);
      if first.Built? { PutItemsAppend(first.bytes, first.entries, xs[1..], ys); }
    }
  }

  lemma QuestionsUnfold(b: seq<Byte>, entries: seq<Entry>, qs: seq<Question>)
    requires qs != []
    ensures PutQuestions(b, entries, qs) ==
            match PutQuestion(b, entries, qs[0])
            case Built(b', entries') => PutQuestions(b', entries', qs[1..])
            case error => error
  {
    hide PutQuestion;
  }

  lemma ItemsUnfold(b: seq<Byte>, entries: seq<Entry>, items: seq<Item>)
    requires items != []
    ensures PutItems(b, entries, items) ==
            match PutItem(b, entries, items[0])
            case Built(b', entries') => PutItems(b', entries', items[1..])
            case error => error
  {
    hide PutItem;
  }

  lemma QuestionGrows(b: seq<Byte>, entries: seq<Entry>, q: Question)
    ensures match PutQuestion(b, entries, q)
            case Built(b', _) => b <= b'
            case Overflow(b') => b <= b'
            case Refused(code) => code < 0
  {
    hide Encode;
  }

  lemma ItemGrows(b: seq<Byte>, entries: seq<Entry>, item: Item)
    ensures match PutItem(b, entries, item)
            case Built(b', _) => b <= b'
            case Overflow(b') => b <= b'
            case Refused(_) => false
  {
    hide Encode, PutItemHead;
    HeadGrows(b, entries, item);
  }

  // ---------- Overflow before byte 512 ----------

  /** The limits of `dnsname_to_labels`: 63 bytes a label, 255 a name. */
  predicate LabelsFit(name: seq<Byte>)
    decreases |name|
  {
    DotIndex(name) <= 63 && (DotIndex(name) == |name| || LabelsFit(name[DotIndex(name) + 1..]))
  }

  predicate Encodable(name: seq<Byte>) { |name| <= 255 && LabelsFit(name) }

  /** An item that fits behind any message of less than 512 bytes. */
  predicate Modest(item: Item) {
    && Encodable(item.name)
    && match item.data
       case Target(name) => Encodable(name)
       case Raw(bytes) => |bytes| <= BUFFER_SIZE - MAX_RESPONSE + 1
  }

  lemma {:induction false} RestFails(name: seq<Byte>, entries: seq<Entry>, j: nat)
    ensures EncodeRest(name, entries, true, j, BUFFER_SIZE).NoRoom? ==> BUFFER_SIZE < j + |name| + 2
    ensures EncodeRest(name, entries, true, j, BUFFER_SIZE).LabelTooLong? ==> !LabelsFit(name)
    decreases |name|
  {
    hide EncodeRest, Lookup, Remember, PointerBytes;
    var hit, k, known := Lookup(entries, name), DotIndex(name), Remember(entries, name, j);
    RestUnfolds(name, entries, true, j, BUFFER_SIZE, hit, k, known);
    if hit.None? && k < |name| { RestFails(name[k + 1..], known, j + k + 1); }
  }

  /** So a name that can be encoded at all fails near the end of the buffer only. */
  lemma EncodeFails(name: seq<Byte>, entries: seq<Entry>, j: nat)
    requires Encodable(name) && !Encode(name, entries, true, j, BUFFER_SIZE).Done?
    ensures j > BUFFER_SIZE - 257
  {
    hide EncodeRest, LabelsFit;
    RestFails(name, entries, j);
  }

  /** Without a table and with room enough, exactly these names can be encoded. */
  lemma {:induction false} EncodableExact(name: seq<Byte>, j: nat, room: nat)
    requires j + |name| + 2 <= room
    ensures Encode(name, [], false, j, room).Done? <==> Encodable(name)
  {
    RestDone(name, j, room);
    hide EncodeRest, LabelsFit;
  }

  lemma {:induction false} RestDone(name: seq<Byte>, j: nat, room: nat)
    requires j + |name| + 2 <= room
    ensures EncodeRest(name, [], false, j, room).Done? <==> LabelsFit(name)
    decreases |name|
  {
    hide EncodeRest, Lookup, Remember, PointerBytes;
    var k := DotIndex(name);
    RestUnfolds(name, [], false, j, room, None, k, []);
    if k < |name| { RestDone(name[k + 1..], j + k + 1, room); }
  }

  lemma ItemOverflow(b: seq<Byte>, entries: seq<Entry>, item: Item)
    requires PutItem(b, entries, item).Overflow? && Modest(item)
    ensures |PutItem(b, entries, item).written| >= MAX_RESPONSE
  {
    var e := Encode(item.name, entries, true, |b|, BUFFER_SIZE);
    hide Encode, Encodable;
    U16Length(item.typ);
    U16Length(item.cls);
    if !e.Done? {
      EncodeFails(item.name, entries, |b|);
    } else {
      var head := PutItemHead(b, entries, item);
      if head.Built? { DataOverflow(head.bytes, head.entries, item.data); }
    }
  }

  lemma DataOverflow(b: seq<Byte>, entries: seq<Entry>, data: RData)
    requires PutData(b, entries, data).Overflow?
    requires match data
             case Target(name) => Encodable(name)
             case Raw(bytes) => |bytes| <= BUFFER_SIZE - MAX_RESPONSE + 1
    ensures |PutData(b, entries, data).written| >= MAX_RESPONSE
  {
    hide Encode, Encodable;
    match data
    case Target(name) => EncodeFails(name, entries, |b| + 2);
    case Raw(bytes) => U16Length(|bytes|);
  }

  lemma {:induction false} ItemsOverflow(b: seq<Byte>, entries: seq<Entry>, items: seq<Item>)
    requires PutItems(b, entries, items).Overflow? && forall item :: item in items ==> Modest(item)
    ensures |PutItems(b, entries, items).written| >= MAX_RESPONSE
    decreases |items|
  {
    hide PutItem, Modest, PutItems;
    if items == [] {
      NoItems(b, entries);
    } else {
      ItemsUnfold(b, entries, items);
      var first := PutItem(b, entries, items[0]);
      if first.Built? {
        ItemsOverflow(first.bytes, first.entries, items[1..]);
      } else {
        ItemOverflow(b, entries, items[0]);
      }
    }
  }

  lemma {:induction false} QuestionsOverflow(b: seq<Byte>, entries: seq<Entry>, qs: seq<Question>)
    requires PutQuestions(b, entries, qs).Overflow?
    ensures |PutQuestions(b, entries, qs).written| >= MAX_RESPONSE
    decreases |qs|
  {
    hide Encode;
    var first := PutQuestion(b, entries, qs[0]);
    if first.Built? {
      QuestionsOverflow(first.bytes, first.entries, qs[1..]);
    } else {
      U16Length(qs[0].typ);
    }
  }

  /** The 512 bytes of a truncated response are all bytes of the message, unless some item has a name that cannot be
      encoded or more than 989 raw bytes. */
  lemma OverflowIsLate(r: Response)
    requires Format(r).Overflow? && forall item :: item in r.Items() ==> Modest(item)
    ensures |Format(r).written| >= MAX_RESPONSE
  {
    hide PutQuestions, PutItems, Modest;
    var first := PutQuestions(r.Header(), [], r.questions);
    if first.Built? {
      ItemsOverflow(first.bytes, first.entries, r.Items());
    } else {
      QuestionsOverflow(r.Header(), [], r.questions);
    }
  }

  /** One answer with 1490 raw bytes: only 23 of the 512 bytes that go out are the message's. */
  lemma EarlyOverflow(bytes: seq<Byte>)
    requires |bytes| == 1490
    ensures var f := Format(Response(1, 0x8000, [], [Item([], 1, 1, 0, Raw(bytes))], [], []));
            f.Overflow? && |f.written| == 23
  {
    var item := Item([], 1, 1, 0, Raw(bytes));
    var r := Response(1, 0x8000, [], [item], [], []);
    HeaderLength(r);
    assert r.Items() == [item];
    assert DotIndex([]) == 0;
    EncodeRoot(12);
    U16Length(1);
    U16Length(|bytes|);
    hide Encode, U16;
    assert |U32(0)| == 4 by { U16Length(0); }
    hide U32;
    var head := PutItemHead(r.Header(), [], item);
    assert head.Built? && |head.bytes| == 21;
    hide PutItemHead;
    assert PutItem(r.Header(), [], item) == Overflow(head.bytes + U16(|bytes|));
    hide PutItem;
    ItemsUnfold(r.Header(), [], [item]);
  }

  lemma LookupNone()
    ensures Lookup([], []).None?
  {
  }

  lemma EncodeRoot(j: nat)
    requires j + 1 <= BUFFER_SIZE
    ensures Encode([], [], true, j, BUFFER_SIZE).Done? && |Encode([], [], true, j, BUFFER_SIZE).bytes| == 1
  {
    hide Lookup, Remember;
    assert DotIndex([]) == 0;
    assert Lookup([], []).None? by { LookupNone(); }
  }
}
