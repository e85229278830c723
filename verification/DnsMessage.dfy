/** Whole responses: what `evdns_server_request_format_response` writes, and an independent reader of messages
    that recovers everything that was put in. */
module DnsMessage {
  import opened Bytes
  import opened Wrappers
  import opened DnsName
  import opened DnsWire
  import opened DnsRoundTrip

  type Word = x: int | 0 <= x < 0x1_0000
  type DWord = x: int | 0 <= x < 0x1_0000_0000

  datatype Question = Question(name: seq<Byte>, typ: Word, cls: Word)

  /** `data` of a reply item: a name when `is_name` is set, otherwise `datalen` raw bytes. */
  datatype RData = Target(name: seq<Byte>) | Raw(bytes: seq<Byte>)

  datatype Item = Item(name: seq<Byte>, typ: Word, cls: Word, ttl: DWord, data: RData)

  function U32(x: int): seq<Byte> {
    U16(x / 0x1_0000) + U16(x % 0x1_0000)
  }

  // ---------- Writing ----------

  const BUFFER_SIZE := 1500

  /** The message so far with its suffix table; a jump to `overflow` with what was written before it; or an error code
      returned to the caller. */
  datatype Build = Built(bytes: seq<Byte>, entries: seq<Entry>) | Overflow(written: seq<Byte>) | Refused(code: int)

  function PutQuestion(b: seq<Byte>, entries: seq<Entry>, q: Question): Build {
    match Encode(q.name, entries, true, |b|, BUFFER_SIZE)
    case LabelTooLong => Refused(-1)
    case NoRoom => Refused(-2)
    case Done(name, entries') =>
      if |b| + |name| + 2 > BUFFER_SIZE then Overflow(b + name)
      else if |b| + |name| + 4 > BUFFER_SIZE then Overflow(b + name + U16(q.typ))
      else Built(b + name + (U16(q.typ) + U16(q.cls)), entries')
  }

  function PutQuestions(b: seq<Byte>, entries: seq<Entry>, qs: seq<Question>): Build
    decreases |qs|
  {
    if qs == [] then Built(b, entries)
    else match PutQuestion(b, entries, qs[0])
         case Built(b', entries') => PutQuestions(b', entries', qs[1..])
         case error => error
  }

  /** Name, type, class and TTL of a resource record. */
  function PutItemHead(b: seq<Byte>, entries: seq<Entry>, item: Item): Build {
    match Encode(item.name, entries, true, |b|, BUFFER_SIZE)
    case Done(name, entries') =>
      if |b| + |name| + 2 > BUFFER_SIZE then Overflow(b + name)
      else if |b| + |name| + 4 > BUFFER_SIZE then Overflow(b + name + U16(item.typ))
      else if |b| + |name| + 8 > BUFFER_SIZE then Overflow(b + name + U16(item.typ) + U16(item.cls))
      else Built(b + name + (U16(item.typ) + U16(item.cls) + U32(item.ttl)), entries')
    case _ => Overflow(b)
  }

  /** RDLENGTH and RDATA.  For a name the two length bytes are skipped and filled in afterwards. */
  function PutData(b: seq<Byte>, entries: seq<Entry>, data: RData): Build {
    match data
    case Target(name) =>
      (match Encode(name, entries, true, |b| + 2, BUFFER_SIZE)
       case Done(bytes, entries') => Built(b + U16(|bytes|) + bytes, entries')
       case _ => Overflow(b))
    case Raw(bytes) =>
      if |b| + 2 > BUFFER_SIZE then Overflow(b)
      else if |b| + 2 + |bytes| > BUFFER_SIZE then Overflow(b + U16(|bytes|))
      else Built(b + U16(|bytes|) + bytes, entries)
  }

  function PutItem(b: seq<Byte>, entries: seq<Entry>, item: Item): Build {
    match PutItemHead(b, entries, item)
    case Built(b', entries') => PutData(b', entries', item.data)
    case error => error
  }

  function PutItems(b: seq<Byte>, entries: seq<Entry>, items: seq<Item>): Build
    decreases |items|
  {
    if items == [] then Built(b, entries)
    else match PutItem(b, entries, items[0])
         case Built(b', entries') => PutItems(b', entries', items[1..])
         case error => error
  }

  /** What the response says before any truncation. */
  datatype Response = Response(id: Word, flags: Word, questions: seq<Question>,
                               answer: seq<Item>, authority: seq<Item>, additional: seq<Item>)
  {
    function Items(): seq<Item> {
      answer + authority + additional
    }

    function Header(): seq<Byte> {
      U16(id) + U16(flags) + U16(|questions|) + U16(|answer|) + U16(|authority|) + U16(|additional|)
    }
  }

  function Format(r: Response): Build {
    match PutQuestions(r.Header(), [], r.questions)
    case Built(b, entries) => PutItems(b, entries, r.Items())
    case error => error
  }

  // ---------- Reading ----------

  function GetU16(m: seq<Byte>, p: nat): Word
    requires p + 2 <= |m|
  {
    var high: int := m[p];
    high * 256 + m[p + 1]
  }

  function GetU32(m: seq<Byte>, p: nat): DWord
    requires p + 4 <= |m|
  {
    var high: int := GetU16(m, p);
    high * 0x1_0000 + GetU16(m, p + 2)
  }

  /** A name and the index after it. */
  function GetName(m: seq<Byte>, p: nat): Option<(seq<Byte>, nat)> {
    match Walk(m, |m|, p, |m|)
    case None => None
    case Some(r) => Some((Join(r.labels), r.end))
  }

  function GetQuestion(m: seq<Byte>, p: nat): Option<(Question, nat)> {
    match GetName(m, p)
    case None => None
    case Some((name, q)) => if q + 4 > |m| then None else Some((Question(name, GetU16(m, q), GetU16(m, q + 2)), q + 4))
  }

  function GetQuestions(m: seq<Byte>, p: nat, n: nat): Option<(seq<Question>, nat)>
    decreases n
  {
    if n == 0 then Some(([], p))
    else match GetQuestion(m, p)
         case None => None
         case Some((q, p')) =>
           match GetQuestions(m, p', n - 1)
           case None => None
           case Some((qs, end)) => Some(([q] + qs, end))
  }

  /** A resource record: its fixed part and the extent of its data. */
  datatype Record = Record(name: seq<Byte>, typ: Word, cls: Word, ttl: DWord, dataAt: nat, dataLen: nat)

  function GetRecord(m: seq<Byte>, p: nat): Option<(Record, nat)> {
    match GetName(m, p)
    case None => None
    case Some((name, q)) =>
      if q + 10 > |m| || q + 10 + GetU16(m, q + 8) > |m| then None
      else
        var len: nat := GetU16(m, q + 8);
        Some((Record(name, GetU16(m, q), GetU16(m, q + 2), GetU32(m, q + 4), q + 10, len), q + 10 + len))
  }

  function GetRecords(m: seq<Byte>, p: nat, n: nat): Option<(seq<Record>, nat)>
    decreases n
  {
    if n == 0 then Some(([], p))
    else match GetRecord(m, p)
         case None => None
         case Some((r, p')) =>
           match GetRecords(m, p', n - 1)
           case None => None
           case Some((rs, end)) => Some(([r] + rs, end))
  }

  /** The record read back says what the item said. */
  ghost predicate Says(m: seq<Byte>, r: Record, item: Item) {
    && r.name == Canonical(item.name)
    && r.typ == item.typ && r.cls == item.cls && r.ttl == item.ttl
    && r.dataAt + r.dataLen <= |m|
    && match item.data
       case Raw(bytes) => m[r.dataAt..r.dataAt + r.dataLen] == bytes
       case Target(name) => GetName(m, r.dataAt) == Some((Canonical(name), r.dataAt + r.dataLen))
  }

  ghost predicate AllSay(m: seq<Byte>, rs: seq<Record>, items: seq<Item>) {
    |rs| == |items| && forall i :: 0 <= i < |rs| ==> Says(m, rs[i], items[i])
  }

  /** A name none of whose labels is empty, but perhaps the last: "a.b", "a.b." or the root. */
  predicate Regular(name: seq<Byte>)
    decreases |name|
  {
    DotIndex(name) == |name| || (DotIndex(name) > 0 && Regular(name[DotIndex(name) + 1..]))
  }

  predicate RegularItem(item: Item) {
    && Regular(item.name)
    && match item.data
       case Target(name) => Regular(name)
       case Raw(_) => true
  }

  ghost predicate RegularResponse(r: Response) {
    && (forall q :: q in r.questions ==> Regular(q.name))
    && (forall item :: item in r.Items() ==> RegularItem(item))
  }

  // ---------- Lemmas ----------

  /** Without recursion: no dot at the start, and no two in a row. */
  lemma {:induction false} RegularIs(name: seq<Byte>)
    ensures Regular(name) <==> forall i :: 0 <= i < |name| && name[i] == 46 ==> i > 0 && name[i - 1] != 46
    decreases |name|
  {
    var k := DotIndex(name);
    FirstDotIs(name);
    if 0 < k < |name| {
      var rest := name[k + 1..];
      RegularIs(rest);
      assert forall i :: 0 <= i < |rest| ==> rest[i] == name[k + 1 + i];
      if Regular(name) {
        forall i | 0 <= i < |name| && name[i] == 46
          ensures i > 0 && name[i - 1] != 46
        {
          if i > k { assert rest[i - k - 1] == 46; }
        }
      } else {
        var i :| 0 <= i < |rest| && rest[i] == 46 && (i == 0 || rest[i - 1] == 46);
        assert name[k + 1 + i] == 46 && name[k + i] == 46;
      }
    }
  }

  lemma {:induction false} FirstDotIs(name: seq<Byte>)
    ensures DotIndex(name) <= |name| && forall i :: 0 <= i < DotIndex(name) ==> name[i] != 46
    ensures DotIndex(name) < |name| ==> name[DotIndex(name)] == 46
  {
    if name != [] && name[0] != 46 {
      FirstDotIs(name[1..]);
    }
  }

  lemma RegularItemIs(item: Item)
    ensures RegularItem(item) <==> Regular(item.name) && (item.data.Target? ==> Regular(item.data.name))
  {
  }

  /** The reader takes no record that is not all there. */
  lemma RecordInside(m: seq<Byte>, p: nat)
    requires GetRecord(m, p).Some?
    ensures var (r, end) := GetRecord(m, p).value;
      r.dataAt + r.dataLen == end <= |m| && 10 <= r.dataAt && r.dataLen == GetU16(m, r.dataAt - 2)
  {
    hide GetName;
  }

  lemma {:induction false} RegularEnds(name: seq<Byte>, entries: seq<Entry>)
    requires Regular(name)
    ensures EndsAtReturn(name, entries)
    decreases |name|
  {
    if DotIndex(name) < |name| {
      RegularEnds(name[DotIndex(name) + 1..], entries);
    }
  }

  lemma U16Reads(m: seq<Byte>, p: nat, x: Word)
    requires p + 2 <= |m| && m[p..p + 2] == U16(x)
    ensures GetU16(m, p) == x
  {
    assert m[p] == U16(x)[0] && m[p + 1] == U16(x)[1];
    assert x / 256 % 256 == x / 256;
  }

  lemma U16Parts(x: Word)
    ensures |U16(x)| == 2
  {
  }

  lemma U32Reads(m: seq<Byte>, p: nat, x: DWord)
    requires p + 4 <= |m| && m[p..p + 4] == U32(x)
    ensures GetU32(m, p) == x && |U32(x)| == 4
  {
    var high: Word, low: Word := x / 0x1_0000, x % 0x1_0000;
    assert U32(x) == U16(high) + U16(low);
    assert m[p..p + 2] == m[p..p + 4][..2] == U16(high);
    assert m[p + 2..p + 4] == m[p..p + 4][2..] == U16(low);
    hide U16, GetU16;
    U16Reads(m, p, high);
    U16Reads(m, p + 2, low);
  }

  lemma GetNameExtends(m: seq<Byte>, p: nat, m': seq<Byte>)
    requires m <= m' && GetName(m, p).Some?
    ensures GetName(m', p) == GetName(m, p)
  {
    hide Walk, Join;
    WalkExtends(m, |m|, p, |m|, m', |m'|, |m'|);
  }

  /** A name written after `b` reads back, in the finished message too. */
  lemma NameReads(name: seq<Byte>, entries: seq<Entry>, b: seq<Byte>)
    requires TableOk(entries, b) && Regular(name)
    requires Encode(name, entries, true, |b|, BUFFER_SIZE).Done?
    ensures var done := Encode(name, entries, true, |b|, BUFFER_SIZE);
            && GetName(b + done.bytes, |b|) == Some((Canonical(name), |b| + |done.bytes|))
            && TableOk(done.entries, b + done.bytes)
  {
    hide Walk, Strict, Encode, TableOk, UpToEmpty, Split, Join, EndsAtReturn;
    EncodeReads(name, entries, true, b, BUFFER_SIZE);
    RegularEnds(name, entries);
    var m' := b + Encode(name, entries, true, |b|, BUFFER_SIZE).bytes;
    StrictIsWalk(m', |m'|, |b|, |b|);
    WalkExtends(m', |m'|, |b|, |b|, m', |m'|, |m'|);
    CanonicalIs(name);
  }

  lemma {:induction false} TableOkExtends(entries: seq<Entry>, m: seq<Byte>, m': seq<Byte>)
    requires TableOk(entries, m) && m <= m'
    ensures TableOk(entries, m')
  {
    hide Decodes;
    forall e | e in entries ensures e.pos < |m'| && Decodes(m', e.pos, e.pos, e.key) {
      DecodesExtends(m, e.pos, e.pos, e.key, m', e.pos);
    }
  }

  lemma GetQuestionExtends(m: seq<Byte>, p: nat, m': seq<Byte>)
    requires m <= m' && GetQuestion(m, p).Some?
    ensures GetQuestion(m', p) == GetQuestion(m, p)
  {
    hide GetName;
    GetNameExtends(m, p, m');
  }

  lemma GetRecordExtends(m: seq<Byte>, p: nat, m': seq<Byte>)
    requires m <= m' && GetRecord(m, p).Some?
    ensures GetRecord(m', p) == GetRecord(m, p)
  {
    hide GetName;
    GetNameExtends(m, p, m');
  }

  lemma SaysExtends(m: seq<Byte>, r: Record, item: Item, m': seq<Byte>)
    requires m <= m' && Says(m, r, item)
    ensures Says(m', r, item)
  {
    hide GetName, Canonical;
    match item.data
    case Raw(bytes) => assert m'[r.dataAt..r.dataAt + r.dataLen] == m[r.dataAt..r.dataAt + r.dataLen];
    case Target(name) => GetNameExtends(m, r.dataAt, m');
  }

  lemma Tail(a: seq<Byte>, b: seq<Byte>)
    ensures a <= a + b && (a + b)[|a|..|a| + |b|] == b
  {
  }

  lemma Fields4(m: seq<Byte>, p: nat, x: Word, y: Word)
    requires p + 4 <= |m| && m[p..p + 4] == U16(x) + U16(y)
    ensures GetU16(m, p) == x && GetU16(m, p + 2) == y
  {
    assert m[p..p + 2] == m[p..p + 4][..2] == U16(x);
    assert m[p + 2..p + 4] == m[p..p + 4][2..] == U16(y);
    hide U16, GetU16;
    U16Reads(m, p, x);
    U16Reads(m, p + 2, y);
  }

  lemma Fields8(m: seq<Byte>, p: nat, x: Word, y: Word, z: DWord)
    requires p + 8 <= |m| && m[p..p + 8] == U16(x) + U16(y) + U32(z)
    ensures GetU16(m, p) == x && GetU16(m, p + 2) == y && GetU32(m, p + 4) == z
    ensures |U32(z)| == 4
  {
    assert |U16(x) + U16(y)| == 4 && |U32(z)| == 4;
    hide U16, U32, GetU16, GetU32;
    assert m[p..p + 4] == m[p..p + 8][..4] == U16(x) + U16(y);
    assert m[p + 4..p + 8] == m[p..p + 8][4..] == U32(z);
    Fields4(m, p, x, y);
    U32Reads(m, p + 4, z);
  }

  /** A name and then `fields`, both read back. */
  lemma NameThenFields(b: seq<Byte>, entries: seq<Entry>, name: seq<Byte>, bytes: seq<Byte>, known: seq<Entry>,
                       fields: seq<Byte>)
    requires TableOk(entries, b) && Regular(name) && Encode(name, entries, true, |b|, BUFFER_SIZE) == Done(bytes, known)
    ensures var m := b + bytes + fields;
            && b <= m && TableOk(known, m)
            && GetName(m, |b|) == Some((Canonical(name), |b| + |bytes|))
            && m[|b| + |bytes|..|b| + |bytes| + |fields|] == fields
  {
    hide GetName, Encode, TableOk, Canonical, Regular;
    NameReads(name, entries, b);
    Tail(b + bytes, fields);
    GetNameExtends(b + bytes, |b|, b + bytes + fields);
    TableOkExtends(known, b + bytes, b + bytes + fields);
  }

  lemma WordsLength(x: Word, y: Word, z: DWord)
    ensures |U16(x) + U16(y)| == 4 && |U16(x) + U16(y) + U32(z)| == 8
  {
  }

  lemma QuestionAt(b: seq<Byte>, entries: seq<Entry>, q: Question, bytes: seq<Byte>, known: seq<Entry>, m: seq<Byte>)
    requires TableOk(entries, b) && Regular(q.name)
             && Encode(q.name, entries, true, |b|, BUFFER_SIZE) == Done(bytes, known)
    requires m == b + bytes + (U16(q.typ) + U16(q.cls))
    ensures b <= m && TableOk(known, m) && GetQuestion(m, |b|) == Some((q.(name := Canonical(q.name)), |m|))
  {
    hide U16, GetU16, GetName, GetQuestion, Encode, TableOk, Canonical, Regular;
    var fields := U16(q.typ) + U16(q.cls);
    WordsLength(q.typ, q.cls, 0);
    NameThenFields(b, entries, q.name, bytes, known, fields);
    Fields4(m, |b| + |bytes|, q.typ, q.cls);
    QuestionIs(m, |b|, |b| + |bytes|, Canonical(q.name));
  }

  lemma QuestionIs(m: seq<Byte>, p: nat, end: nat, name: seq<Byte>)
    requires GetName(m, p) == Some((name, end)) && end + 4 <= |m|
    ensures GetQuestion(m, p) == Some((Question(name, GetU16(m, end), GetU16(m, end + 2)), end + 4))
  {
  }

  lemma PutQuestionReads(b: seq<Byte>, entries: seq<Entry>, q: Question)
    requires TableOk(entries, b) && Regular(q.name) && PutQuestion(b, entries, q).Built?
    ensures var done := PutQuestion(b, entries, q);
            && b <= done.bytes
            && TableOk(done.entries, done.bytes)
            && GetQuestion(done.bytes, |b|) == Some((q.(name := Canonical(q.name)), |done.bytes|))
  {
    hide U16, GetQuestion, Encode, TableOk, Canonical, Regular;
    var e := Encode(q.name, entries, true, |b|, BUFFER_SIZE);
    QuestionAt(b, entries, q, e.bytes, e.entries, b + e.bytes + (U16(q.typ) + U16(q.cls)));
  }

  /** The questions as they read back: only a trailing dot may go. */
  function CanonicalQuestions(qs: seq<Question>): seq<Question> {
    if qs == [] then [] else [qs[0].(name := Canonical(qs[0].name))] + CanonicalQuestions(qs[1..])
  }

  lemma {:induction false} PutQuestionsReads(b: seq<Byte>, entries: seq<Entry>, qs: seq<Question>)
    requires TableOk(entries, b) && PutQuestions(b, entries, qs).Built?
    requires forall q :: q in qs ==> Regular(q.name)
    ensures var done := PutQuestions(b, entries, qs);
            && b <= done.bytes
            && TableOk(done.entries, done.bytes)
            && GetQuestions(done.bytes, |b|, |qs|) == Some((CanonicalQuestions(qs), |done.bytes|))
    decreases |qs|
  {
    hide PutQuestion, GetQuestion, TableOk, Canonical, Regular;
    if qs != [] {
      PutQuestionReads(b, entries, qs[0]);
      var first := PutQuestion(b, entries, qs[0]);
      PutQuestionsReads(first.bytes, first.entries, qs[1..]);
      GetQuestionExtends(first.bytes, |b|, PutQuestions(b, entries, qs).bytes);
    }
  }

  lemma ItemHeadAt(b: seq<Byte>, entries: seq<Entry>, item: Item, bytes: seq<Byte>, known: seq<Entry>, m: seq<Byte>,
                   q: nat)
    requires TableOk(entries, b) && Regular(item.name)
             && Encode(item.name, entries, true, |b|, BUFFER_SIZE) == Done(bytes, known)
    requires m == b + bytes + (U16(item.typ) + U16(item.cls) + U32(item.ttl)) && q == |b| + |bytes|
    ensures b <= m && |m| == q + 8 && TableOk(known, m) && GetName(m, |b|) == Some((Canonical(item.name), q))
    ensures GetU16(m, q) == item.typ && GetU16(m, q + 2) == item.cls && GetU32(m, q + 4) == item.ttl
  {
    hide U16, U32, GetU16, GetU32, GetName, Encode, TableOk, Canonical, Regular;
    var fields := U16(item.typ) + U16(item.cls) + U32(item.ttl);
    WordsLength(item.typ, item.cls, item.ttl);
    NameThenFields(b, entries, item.name, bytes, known, fields);
    Fields8(m, q, item.typ, item.cls, item.ttl);
  }

  lemma PutItemHeadReads(b: seq<Byte>, entries: seq<Entry>, item: Item)
    requires TableOk(entries, b) && Regular(item.name) && PutItemHead(b, entries, item).Built?
    ensures var done := PutItemHead(b, entries, item);
            && b <= done.bytes && |done.bytes| >= |b| + 8
            && TableOk(done.entries, done.bytes)
            && var q: nat := |done.bytes| - 8;
               && GetName(done.bytes, |b|) == Some((Canonical(item.name), q))
               && GetU16(done.bytes, q) == item.typ && GetU16(done.bytes, q + 2) == item.cls
                  && GetU32(done.bytes, q + 4) == item.ttl
  {
    hide U16, U32, GetU16, GetU32, GetName, Encode, TableOk, Canonical, Regular;
    var e := Encode(item.name, entries, true, |b|, BUFFER_SIZE);
    ItemHeadAt(b, entries, item, e.bytes, e.entries, b + e.bytes + (U16(item.typ) + U16(item.cls) + U32(item.ttl)),
               |b| + |e.bytes|);
  }

  /** The data written after `b` reads back. */
  ghost predicate DataSays(m: seq<Byte>, p: nat, n: nat, data: RData) {
    && p + n <= |m|
    && match data
       case Raw(bytes) => m[p..p + n] == bytes
       case Target(name) => GetName(m, p) == Some((Canonical(name), p + n))
  }

  lemma PutRawReads(b: seq<Byte>, bytes: seq<Byte>)
    requires |bytes| < 0x1_0000
    ensures var m := b + U16(|bytes|) + bytes;
            && b <= m && |m| == |b| + 2 + |bytes|
            && GetU16(m, |b|) == |bytes| && m[|b| + 2..|b| + 2 + |bytes|] == bytes
  {
    U16Parts(|bytes|);
    hide U16, GetU16;
    var m := b + U16(|bytes|) + bytes;
    assert m[|b|..|b| + 2] == U16(|bytes|);
    U16Reads(m, |b|, |bytes|);
  }

  lemma PutTargetReads(b: seq<Byte>, entries: seq<Entry>, name: seq<Byte>)
    requires TableOk(entries, b) && Regular(name) && Encode(name, entries, true, |b| + 2, BUFFER_SIZE).Done?
    ensures var e := Encode(name, entries, true, |b| + 2, BUFFER_SIZE);
            var m := b + U16(|e.bytes|) + e.bytes;
            && |e.bytes| < 0x1_0000
            && TableOk(e.entries, m)
            && GetName(m, |b| + 2) == Some((Canonical(name), |m|))
  {
    var e := Encode(name, entries, true, |b| + 2, BUFFER_SIZE);
    assert |e.bytes| < 0x1_0000 by {
      assert e == EncodeRest(name, entries, true, |b| + 2, BUFFER_SIZE) by { hide EncodeRest; }
      hide EncodeRest;
      EncodeFits(name, entries, true, |b| + 2, BUFFER_SIZE);
    }
    U16Parts(|e.bytes|);
    hide U16, GetName, Encode, TableOk, Canonical, Regular;
    var b2 := b + U16(|e.bytes|);
    TableOkExtends(entries, b, b2);
    NameReads(name, entries, b2);
  }

  /** In the 1500 bytes of a response: "a", two bytes before the end, is written one byte past it. */
  lemma NamePastTheBuffer()
    ensures Encode([97], [], true, BUFFER_SIZE - 2, BUFFER_SIZE) == Done([1, 97, 0], [Entry([97], BUFFER_SIZE - 2)])
  {
    hide Encode;
    EncodeOverruns(true, BUFFER_SIZE);
  }

  lemma PutDataReads(b: seq<Byte>, entries: seq<Entry>, data: RData)
    requires TableOk(entries, b) && PutData(b, entries, data).Built?
    requires match data case Target(name) => Regular(name) case Raw(_) => true
    ensures var done := PutData(b, entries, data);
            && b <= done.bytes && |done.bytes| >= |b| + 2
            && TableOk(done.entries, done.bytes)
            && GetU16(done.bytes, |b|) == |done.bytes| - |b| - 2
            && DataSays(done.bytes, |b| + 2, |done.bytes| - |b| - 2, data)
  {
    hide U16, GetU16, GetName, Encode, TableOk, Canonical, Regular;
    match data
    case Target(name) =>
      PutTargetReads(b, entries, name);
      PutRawReads(b, Encode(name, entries, true, |b| + 2, BUFFER_SIZE).bytes);
    case Raw(bytes) =>
      PutRawReads(b, bytes);
      TableOkExtends(entries, b, b + U16(|bytes|) + bytes);
  }

  lemma PutItemReads(b: seq<Byte>, entries: seq<Entry>, item: Item)
    requires TableOk(entries, b) && RegularItem(item) && PutItem(b, entries, item).Built?
    ensures var done := PutItem(b, entries, item);
            && b <= done.bytes
            && TableOk(done.entries, done.bytes)
            && GetRecord(done.bytes, |b|).Some?
            && GetRecord(done.bytes, |b|).value.1 == |done.bytes|
            && Says(done.bytes, GetRecord(done.bytes, |b|).value.0, item)
  {
    var head := PutItemHead(b, entries, item);
    var done := PutItem(b, entries, item);
    hide GetU16, GetU32, GetName, Encode, TableOk, Canonical, Regular, PutItemHead, PutData;
    PutItemHeadReads(b, entries, item);
    PutDataReads(head.bytes, head.entries, item.data);
    GetNameExtends(head.bytes, |b|, done.bytes);
    GetU16Extends(head.bytes, |head.bytes| - 8, done.bytes);
  }

  lemma GetU16Extends(m: seq<Byte>, p: nat, m': seq<Byte>)
    requires m <= m' && p + 8 <= |m|
    ensures GetU16(m', p) == GetU16(m, p) && GetU16(m', p + 2) == GetU16(m, p + 2)
            && GetU32(m', p + 4) == GetU32(m, p + 4)
  {
  }

  lemma {:induction false} PutItemsReads(b: seq<Byte>, entries: seq<Entry>, items: seq<Item>)
    requires TableOk(entries, b) && PutItems(b, entries, items).Built?
    requires forall item :: item in items ==> RegularItem(item)
    ensures var done := PutItems(b, entries, items);
            && b <= done.bytes
            && var rs := GetRecords(done.bytes, |b|, |items|);
               rs.Some? && rs.value.1 == |done.bytes| && AllSay(done.bytes, rs.value.0, items)
    decreases |items|
  {
    hide PutItem, GetRecord, TableOk, RegularItem, Says;
    if items != [] {
      PutItemReads(b, entries, items[0]);
      var first := PutItem(b, entries, items[0]);
      PutItemsReads(first.bytes, first.entries, items[1..]);
      var m := PutItems(b, entries, items).bytes;
      GetRecordExtends(first.bytes, |b|, m);
      SaysExtends(first.bytes, GetRecord(first.bytes, |b|).value.0, items[0], m);
      AllSayCons(m, GetRecord(m, |b|).value.0, GetRecords(m, |first.bytes|, |items| - 1).value.0, items);
    }
  }

  lemma AllSayCons(m: seq<Byte>, r: Record, rs: seq<Record>, items: seq<Item>)
    requires items != [] && Says(m, r, items[0]) && AllSay(m, rs, items[1..])
    ensures AllSay(m, [r] + rs, items)
  {
    hide Says;
    forall i | 0 <= i < |items| ensures Says(m, ([r] + rs)[i], items[i]) {
      if i > 0 { assert ([r] + rs)[i] == rs[i - 1] && items[i] == items[1..][i - 1]; }
    }
  }

  lemma {:induction false} QuestionsSize(b: seq<Byte>, entries: seq<Entry>, qs: seq<Question>)
    requires |b| <= BUFFER_SIZE + 1 && PutQuestions(b, entries, qs).Built?
    ensures |b| + |qs| <= |PutQuestions(b, entries, qs).bytes| <= BUFFER_SIZE + 1
    decreases |qs|
  {
    hide Encode;
    if qs != [] {
      var first := PutQuestion(b, entries, qs[0]);
      QuestionsSize(first.bytes, first.entries, qs[1..]);
    }
  }

  lemma DataSize(b: seq<Byte>, entries: seq<Entry>, data: RData)
    requires PutData(b, entries, data).Built?
    ensures |b| <= |PutData(b, entries, data).bytes| <= BUFFER_SIZE + 1
  {
    match data
    case Raw(bytes) =>
    case Target(name) =>
      assert Encode(name, entries, true, |b| + 2, BUFFER_SIZE)
               == EncodeRest(name, entries, true, |b| + 2, BUFFER_SIZE) by { hide EncodeRest; }
      hide Encode, EncodeRest;
      EncodeFits(name, entries, true, |b| + 2, BUFFER_SIZE);
  }

  lemma {:induction false} ItemsSize(b: seq<Byte>, entries: seq<Entry>, items: seq<Item>)
    requires |b| <= BUFFER_SIZE + 1 && PutItems(b, entries, items).Built?
    ensures |b| + |items| <= |PutItems(b, entries, items).bytes| <= BUFFER_SIZE + 1
    decreases |items|
  {
    hide Encode, PutData;
    if items != [] {
      var head := PutItemHead(b, entries, items[0]);
      var first := PutItem(b, entries, items[0]);
      DataSize(head.bytes, head.entries, items[0].data);
      ItemsSize(first.bytes, first.entries, items[1..]);
    }
  }

  lemma HeaderReads(r: Response, m: seq<Byte>)
    requires r.Header() <= m
    requires |r.questions| < 0x1_0000 && |r.answer| < 0x1_0000 && |r.authority| < 0x1_0000 && |r.additional| < 0x1_0000
    ensures |m| >= 12 && |r.Header()| == 12
    ensures GetU16(m, 0) == r.id && GetU16(m, 2) == r.flags && GetU16(m, 4) == |r.questions|
    ensures GetU16(m, 6) == |r.answer| && GetU16(m, 8) == |r.authority| && GetU16(m, 10) == |r.additional|
  {
    var h := r.Header();
    assert |h| == 12 && m[..12] == h;
    assert m[0..2] == h[0..2] == U16(r.id);
    assert m[2..4] == h[2..4] == U16(r.flags);
    assert m[4..6] == h[4..6] == U16(|r.questions|);
    assert m[6..8] == h[6..8] == U16(|r.answer|);
    assert m[8..10] == h[8..10] == U16(|r.authority|);
    assert m[10..12] == h[10..12] == U16(|r.additional|);
    hide U16, GetU16;
    U16Reads(m, 0, r.id);
    U16Reads(m, 2, r.flags);
    U16Reads(m, 4, |r.questions|);
    U16Reads(m, 6, |r.answer|);
    U16Reads(m, 8, |r.authority|);
    U16Reads(m, 10, |r.additional|);
  }

  lemma EmptyTableOk(m: seq<Byte>)
    ensures TableOk([], m)
  {
  }

  lemma FormatParts(r: Response)
    requires RegularResponse(r) && Format(r).Built?
    ensures var b1 := PutQuestions(r.Header(), [], r.questions);
            && b1.Built? && |b1.bytes| <= BUFFER_SIZE + 1
            && r.Header() <= b1.bytes && TableOk(b1.entries, b1.bytes)
            && GetQuestions(b1.bytes, 12, |r.questions|) == Some((CanonicalQuestions(r.questions), |b1.bytes|))
            && Format(r) == PutItems(b1.bytes, b1.entries, r.Items())
            && |r.questions| < 0x1_0000 && |r.Items()| < 0x1_0000
  {
    var h := r.Header();
    assert |h| == 12;
    hide PutQuestions, PutItems, TableOk, GetQuestions;
    var b1 := PutQuestions(h, [], r.questions);
    EmptyTableOk(h);
    QuestionsSize(h, [], r.questions);
    PutQuestionsReads(h, [], r.questions);
    ItemsSize(b1.bytes, b1.entries, r.Items());
  }

  lemma {:induction false} GetQuestionsExtends(m: seq<Byte>, p: nat, n: nat, m': seq<Byte>)
    requires m <= m' && GetQuestions(m, p, n).Some?
    ensures GetQuestions(m', p, n) == GetQuestions(m, p, n)
    decreases n
  {
    hide GetQuestion;
    if n > 0 {
      GetQuestionExtends(m, p, m');
      GetQuestionsExtends(m, GetQuestion(m, p).value.1, n - 1, m');
    }
  }

  /** What a reader finds in the message `m`: the id, the four counts, the questions and, cut by the counts, the
      records of the three sections, with nothing left over. */
  ghost predicate Conveys(m: seq<Byte>, id: Word, questions: seq<Question>,
                          answer: seq<Item>, authority: seq<Item>, additional: seq<Item>) {
    && |m| >= 12
    && GetU16(m, 0) == id && GetU16(m, 4) == |questions|
    && GetU16(m, 6) == |answer| && GetU16(m, 8) == |authority| && GetU16(m, 10) == |additional|
    && var qs := GetQuestions(m, 12, GetU16(m, 4));
    && qs.Some? && qs.value.0 == CanonicalQuestions(questions)
    && var rs := GetRecords(m, qs.value.1, GetU16(m, 6) + GetU16(m, 8) + GetU16(m, 10));
    && rs.Some? && rs.value.1 == |m| && |rs.value.0| == |answer| + |authority| + |additional|
    && AllSay(m, rs.value.0[..|answer|], answer)
    && AllSay(m, rs.value.0[|answer|..|answer| + |authority|], authority)
    && AllSay(m, rs.value.0[|answer| + |authority|..], additional)
  }

  lemma SaySections(m: seq<Byte>, rs: seq<Record>, r: Response)
    requires AllSay(m, rs, r.Items())
    ensures |rs| == |r.answer| + |r.authority| + |r.additional|
    ensures AllSay(m, rs[..|r.answer|], r.answer)
    ensures AllSay(m, rs[|r.answer|..|r.answer| + |r.authority|], r.authority)
    ensures AllSay(m, rs[|r.answer| + |r.authority|..], r.additional)
  {
    hide Says;
    var a, b := |r.answer|, |r.answer| + |r.authority|;
    forall i | 0 <= i < a ensures Says(m, rs[..a][i], r.answer[i]) {
      assert r.Items()[i] == r.answer[i];
    }
    forall i | 0 <= i < b - a ensures Says(m, rs[a..b][i], r.authority[i]) {
      assert r.Items()[a + i] == r.authority[i];
    }
    forall i | 0 <= i < |r.additional| ensures Says(m, rs[b..][i], r.additional[i]) {
      assert r.Items()[b + i] == r.additional[i];
    }
  }

  /** The whole response, when it is not cut short: reading the bytes gives back the id, the flags, the four counts, the
      questions and, section by section, every record with its name, type, class, TTL and data, and nothing is left
      over. */
  lemma ResponseReads(r: Response)
    requires RegularResponse(r) && Format(r).Built?
    ensures var m := Format(r).bytes;
            && |m| >= 12 && GetU16(m, 2) == r.flags
            && Conveys(m, r.id, r.questions, r.answer, r.authority, r.additional)
  {
    hide PutQuestions, PutItems, TableOk, GetQuestions, GetRecords, AllSay, Format;
    FormatParts(r);
    var m, b1 := Format(r).bytes, PutQuestions(r.Header(), [], r.questions);
    PutItemsReads(b1.bytes, b1.entries, r.Items());
    GetQuestionsExtends(b1.bytes, 12, |r.questions|, m);
    hide GetU16;
    HeaderReads(r, m);
    SaySections(m, GetRecords(m, |b1.bytes|, |r.Items()|).value.0, r);
  }

  // ---------- One response, byte by byte ----------

  /** The question "a" (type 1, class 1) answered by the address 1.2.3.4 for 300 seconds. */
  function AddressOfA(): Response {
    Response(0x1234, 0x8180, [Question([97], 1, 1)], [Item([97], 1, 1, 300, Raw([1, 2, 3, 4]))], [], [])
  }

  lemma FirstName()
    ensures Encode([97], [], true, 12, BUFFER_SIZE) == Done([1, 97, 0], [Entry([97], 12)])
  {
    assert DotIndex([97]) == 1 by { assert [97][1..] == []; }
    assert [97][..1] == [97];
    assert Lookup([], [97]) == None;
    assert [] + [Entry([97], 12)] == [Entry([97], 12)];
    hide Lookup, DotIndex;
  }

  lemma SecondName()
    ensures Encode([97], [Entry([97], 12)], true, 19, BUFFER_SIZE) == Done([0xc0, 12], [Entry([97], 12)])
  {
    assert Lookup([Entry([97], 12)], [97]) == Some(12);
    assert PointerBytes(12) == [0xc0, 12];
    hide Lookup, DotIndex, PointerBytes;
  }

  /** How it goes over the wire: header, question, and a record whose name is a pointer to the question's. */
  lemma ResponseOnWire()
    ensures Format(AddressOfA()) == Built(
      [0x12, 0x34, 0x81, 0x80, 0, 1, 0, 1, 0, 0, 0, 0]
      + [1, 97, 0, 0, 1, 0, 1]
      + [0xc0, 12, 0, 1, 0, 1, 0, 0, 1, 44, 0, 4, 1, 2, 3, 4], [Entry([97], 12)])
  {
    WireHeader();
    var h: seq<Byte> := [0x12, 0x34, 0x81, 0x80, 0, 1, 0, 1, 0, 0, 0, 0];
    var q := h + [1, 97, 0, 0, 1, 0, 1];
    var item := Item([97], 1, 1, 300, Raw([1, 2, 3, 4]));
    WireQuestion(h);
    WireItem(q);
    OneQuestion(h, [], Question([97], 1, 1));
    OneItem(q, [Entry([97], 12)], item);
    assert AddressOfA().Items() == [item];
    hide PutQuestion, PutItem, PutQuestions, PutItems;
    assert Format(AddressOfA()) == PutItem(q, [Entry([97], 12)], item);
    hide Format;
  }

  lemma OneQuestion(b: seq<Byte>, entries: seq<Entry>, q: Question)
    ensures PutQuestions(b, entries, [q]) == PutQuestion(b, entries, q)
  {
    hide PutQuestion;
    assert [q][1..] == [];
  }

  lemma OneItem(b: seq<Byte>, entries: seq<Entry>, item: Item)
    ensures PutItems(b, entries, [item]) == PutItem(b, entries, item)
  {
    hide PutItem;
    assert [item][1..] == [];
  }

  lemma WireHeader()
    ensures AddressOfA().Header() == [0x12, 0x34, 0x81, 0x80, 0, 1, 0, 1, 0, 0, 0, 0]
  {
  }

  lemma WireQuestion(h: seq<Byte>)
    requires |h| == 12
    ensures PutQuestion(h, [], Question([97], 1, 1)) == Built(h + [1, 97, 0, 0, 1, 0, 1], [Entry([97], 12)])
  {
    FirstName();
    assert U16(1) == [0, 1];
    hide Encode, U16;
  }

  lemma WireItem(q: seq<Byte>)
    requires |q| == 19
    ensures PutItem(q, [Entry([97], 12)], Item([97], 1, 1, 300, Raw([1, 2, 3, 4])))
            == Built(q + [0xc0, 12, 0, 1, 0, 1, 0, 0, 1, 44, 0, 4, 1, 2, 3, 4], [Entry([97], 12)])
  {
    SecondName();
    assert U16(1) == [0, 1] && U32(300) == [0, 0, 1, 44] && U16(4) == [0, 4];
    hide Encode, U16, U32;
    var head := PutItemHead(q, [Entry([97], 12)], Item([97], 1, 1, 300, Raw([1, 2, 3, 4])));
    assert head == Built(q + [0xc0, 12] + ([0, 1] + [0, 1] + [0, 0, 1, 44]), [Entry([97], 12)]);
    hide PutItemHead;
  }
}
