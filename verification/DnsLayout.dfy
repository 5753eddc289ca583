/** Responses laid out as RFC 1035 says, and what `parse_dns_response` makes of them. */
module DnsLayout {
  import opened Collections
  import opened DnsName
  import opened DnsMessage
  import opened DnsResponse

  /** A name inside record data: labels closed by the root, or by a pointer to a name anywhere in the
      message. */
  datatype NameEnd = Root | Pointer(target: nat)

  datatype WireName = WireName(labels: seq<Bytes>, end: NameEnd)

  /** Record data by type; `Other` is any data the parser steps over: a type outside the ten, or one of
      them with a length that cannot hold it. */
  datatype Data =
    | AData(octets: Bytes)
    | AaaaData(octets: Bytes)
    | CnameData(name: WireName)
    | NsData(name: WireName)
    | PtrData(name: WireName)
    | MxData(preference: nat, exchange: WireName)
    | TxtData(strings: seq<Bytes>)
    | SoaData(mname: WireName, rname: WireName, fields: seq<nat>)
    | CaaData(flags: byte, tag: Bytes, value: Bytes)
    | SrvData(priority: nat, weight: nat, port: nat, target: WireName)
    | Other(code: nat, data: Bytes)

  datatype Answer = Answer(data: Data, net: nat, ttl: nat)

  predicate ValidName(n: WireName) {
    ValidLabels(n.labels) && (n.end.Pointer? ==> n.end.target < 0x4000)
  }

  predicate ValidData(d: Data) {
    match d
    case AData(octets) => |octets| == 4
    case AaaaData(octets) => |octets| == 16
    case CnameData(n) => ValidName(n)
    case NsData(n) => ValidName(n)
    case PtrData(n) => ValidName(n)
    case MxData(preference, n) => preference < 0x1_0000 && ValidName(n)
    case TxtData(strings) => forall t :: t in strings ==> |t| < 0x100
    case SoaData(m, n, fields) =>
      ValidName(m) && ValidName(n) && |fields| == 5 && forall i :: 0 <= i < 5 ==> fields[i] < 0x1_0000_0000
    case CaaData(_, tag, _) => |tag| < 0x100
    case SrvData(priority, weight, port, n) =>
      priority < 0x1_0000 && weight < 0x1_0000 && port < 0x1_0000 && ValidName(n)
    case Other(code, data) =>
      && code < 0x1_0000
      && (forall t: RecordType :: code == TypeCode(t) ==>
            || (t == A && |data| != 4) || (t == Aaaa && |data| != 16)
            || (t == Mx && |data| < 3) || (t == Caa && |data| < 2) || (t == Srv && |data| < 6))
  }

  /** The number of the record type (section 3.2.2 of RFC 1035 and its successors). */
  function Code(d: Data): (r: nat)
    requires ValidData(d)
    ensures r < 0x1_0000
  {
    match d
    case AData(_) => 1
    case AaaaData(_) => 28
    case CnameData(_) => 5
    case NsData(_) => 2
    case PtrData(_) => 12
    case MxData(_, _) => 15
    case TxtData(_) => 16
    case SoaData(_, _, _) => 6
    case CaaData(_, _, _) => 257
    case SrvData(_, _, _, _) => 33
    case Other(code, _) => code
  }

  // ----- the encoder -----

  function NameTail(n: WireName): Bytes
    requires ValidName(n)
  {
    if n.end.Root? then [0] else [192 + n.end.target / 256, n.end.target % 256]
  }

  function EncodeName(n: WireName): (r: Bytes)
    requires ValidName(n)
    ensures |r| >= 1
  {
    EncodeLabels(n.labels) + NameTail(n)
  }

  function EncodeStrings(strings: seq<Bytes>): Bytes
    requires forall t :: t in strings ==> |t| < 0x100
  {
    if strings == [] then []
    else
      assert strings[0] in strings;
      var len: byte := |strings[0]|;
      [len] + strings[0] + EncodeStrings(strings[1..])
  }

  function EncodeFields(f: seq<nat>): (r: Bytes)
    requires |f| == 5 && forall i :: 0 <= i < 5 ==> f[i] < 0x1_0000_0000
    ensures |r| == 20
  {
    U32(f[0]) + (U32(f[1]) + (U32(f[2]) + (U32(f[3]) + U32(f[4]))))
  }

  function EncodeData(d: Data): Bytes
    requires ValidData(d)
  {
    match d
    case AData(octets) => octets
    case AaaaData(octets) => octets
    case CnameData(n) => EncodeName(n)
    case NsData(n) => EncodeName(n)
    case PtrData(n) => EncodeName(n)
    case MxData(preference, n) => U16(preference) + EncodeName(n)
    case TxtData(strings) => EncodeStrings(strings)
    case SoaData(m, n, fields) => EncodeName(m) + (EncodeName(n) + EncodeFields(fields))
    case CaaData(flags, tag, value) =>
      var len: byte := |tag|;
      [flags, len] + tag + value
    case SrvData(priority, weight, port, n) => U16(priority) + (U16(weight) + (U16(port) + EncodeName(n)))
    case Other(_, data) => data
  }

  predicate ValidAnswer(a: Answer) {
    ValidData(a.data) && a.net < 0x1_0000 && a.ttl < 0x1_0000_0000 && |EncodeData(a.data)| < 0x1_0000
  }

  /** Type, class, TTL and length. */
  function FixedPart(a: Answer): (r: Bytes)
    requires ValidAnswer(a)
    ensures |r| == 10
  {
    U16(Code(a.data)) + (U16(a.net) + (U32(a.ttl) + U16(|EncodeData(a.data)|)))
  }

  function EncodeAnswer(a: Answer): Bytes
    requires ValidAnswer(a)
  {
    [192, 12] + (FixedPart(a) + EncodeData(a.data))
  }

  predicate ValidAnswers(answers: seq<Answer>) {
    forall a :: a in answers ==> ValidAnswer(a)
  }

  function EncodeAnswers(answers: seq<Answer>): Bytes
    requires ValidAnswers(answers)
  {
    if answers == [] then [] else EncodeAnswer(answers[0]) + EncodeAnswers(answers[1..])
  }

  // ----- what should come back -----

  /** What the labels at `pos` spell, pointers followed (section 4.1.4 of RFC 1035). */
  ghost function LabelsAt(bytes: Bytes, pos: nat): seq<Bytes> {
    if exists k: nat :: NameAt(bytes, pos, k) then
      var k: nat :| NameAt(bytes, pos, k);
      Spelled(bytes, pos, k)
    else []
  }

  ghost function FullName(n: WireName, bytes: Bytes): Bytes {
    Dotted(n.labels + if n.end.Pointer? then LabelsAt(bytes, n.end.target) else [])
  }

  /** A pointer may lead to any name that resolves within seven more pointers. */
  ghost predicate Resolvable(n: WireName, bytes: Bytes) {
    n.end.Pointer? ==> Within(bytes, n.end.target, MAX_HOPS - 1)
  }

  ghost predicate ResolvableData(d: Data, bytes: Bytes) {
    match d
    case CnameData(n) => Resolvable(n, bytes)
    case NsData(n) => Resolvable(n, bytes)
    case PtrData(n) => Resolvable(n, bytes)
    case MxData(_, n) => Resolvable(n, bytes)
    case SoaData(m, n, _) => Resolvable(m, bytes) && Resolvable(n, bytes)
    case SrvData(_, _, _, n) => Resolvable(n, bytes)
    case _ => true
  }

  ghost predicate ResolvableAnswers(answers: seq<Answer>, bytes: Bytes) {
    forall a :: a in answers ==> ResolvableData(a.data, bytes)
  }

  function Concat(strings: seq<Bytes>): Bytes {
    if strings == [] then [] else strings[0] + Concat(strings[1..])
  }

  ghost function RecordOf(d: Data, bytes: Bytes): Option<Record> {
    match d
    case AData(octets) => Some(ARecord(octets))
    case AaaaData(octets) => Some(AaaaRecord(octets))
    case CnameData(n) => Some(CnameRecord(FullName(n, bytes)))
    case NsData(n) => Some(NsRecord(FullName(n, bytes)))
    case PtrData(n) => Some(PtrRecord(FullName(n, bytes)))
    case MxData(preference, n) => Some(MxRecord(preference, FullName(n, bytes)))
    case TxtData(strings) => Some(TxtRecord(Concat(strings)))
    case SoaData(m, n, fields) => Some(SoaRecord(FullName(m, bytes), FullName(n, bytes), fields))
    case CaaData(flags, tag, value) => Some(CaaRecord(flags, tag, value))
    case SrvData(priority, weight, port, n) => Some(SrvRecord(priority, weight, port, FullName(n, bytes)))
    case Other(_, _) => None
  }

  predicate Wanted(a: Answer, want: RecordType)
    requires ValidAnswer(a)
  {
    Code(a.data) == TypeCode(want)
  }

  /** The records of the wanted type, in answer order. */
  ghost function WantedRecords(answers: seq<Answer>, want: RecordType, bytes: Bytes): seq<Record>
    requires ValidAnswers(answers)
  {
    if answers == [] then []
    else
      assert answers[0] in answers;
      var rest := WantedRecords(answers[1..], want, bytes);
      if Wanted(answers[0], want) && RecordOf(answers[0].data, bytes).Some? then
        [RecordOf(answers[0].data, bytes).value] + rest
      else rest
  }

  /** The TTL of the first answer of the wanted type. */
  function FirstTtl(answers: seq<Answer>, want: RecordType): Option<nat>
    requires ValidAnswers(answers)
  {
    if answers == [] then None
    else
      assert answers[0] in answers;
      if Wanted(answers[0], want) then Some(answers[0].ttl) else FirstTtl(answers[1..], want)
  }

  predicate AnyCname(answers: seq<Answer>)
    requires ValidAnswers(answers)
  {
    exists i :: 0 <= i < |answers| && (answers[i] in answers && Code(answers[i].data) == 5)
  }

  // ----- reading the pieces back -----

  lemma PointerReads(bytes: Bytes, pos: nat, target: nat)
    requires target < 0x4000 && At(bytes, pos, [192 + target / 256, target % 256])
    requires Within(bytes, target, MAX_HOPS - 1)
    ensures Walk(bytes, pos, 0) == Ok(Name(LabelsAt(bytes, target), pos + 2))
    ensures Skip(bytes, pos) == Ok(pos + 2)
  {
    assert bytes[pos..pos + 2][0] == bytes[pos] && bytes[pos..pos + 2][1] == bytes[pos + 1];
    var k: nat :| k <= MAX_HOPS - 1 && NameAt(bytes, target, k);
    assert target < |bytes| && Target(bytes, pos) == Ok(target);
    LabelsAtSpells(bytes, target, k);
    WalkSpells(bytes, target, 1, k);
    WalkersAgree(bytes, pos);
  }

  lemma LabelsAtSpells(bytes: Bytes, pos: nat, k: nat)
    requires NameAt(bytes, pos, k)
    ensures LabelsAt(bytes, pos) == Spelled(bytes, pos, k)
  {
    hide Spelled;
    var j: nat :| NameAt(bytes, pos, j) && LabelsAt(bytes, pos) == Spelled(bytes, pos, j);
    PointersUnique(bytes, pos, j, k);
  }

  /** The question's name stands at byte 12, so a pointer there spells the question. */
  lemma QuestionSpelled(bytes: Bytes, question: seq<Bytes>)
    requires ValidLabels(question) && At(bytes, 12, EncodeLabels(question) + [0])
    ensures Within(bytes, 12, MAX_HOPS - 1) && LabelsAt(bytes, 12) == question
  {
    hide EncodeLabels, At, Spelled;
    WalkPlainName(bytes, 12, question, 1);
    WalkAccepts(bytes, 12, 1);
    var k: nat :| k <= MAX_HOPS - 1 && NameAt(bytes, 12, k);
    WalkSpells(bytes, 12, 1, k);
    LabelsAtSpells(bytes, 12, k);
  }

  /** A name in place reads back as its labels and what its pointer spells, and ends behind its own
      bytes. */
  lemma NameReadsBack(bytes: Bytes, pos: nat, n: WireName)
    requires ValidName(n) && Resolvable(n, bytes) && At(bytes, pos, EncodeName(n))
    ensures NameText(bytes, pos) == Ok((FullName(n, bytes), pos + |EncodeName(n)|))
  {
    hide Walk, At, EncodeLabels, LabelsAt, Within;
    AtParts(bytes, pos, EncodeLabels(n.labels), NameTail(n));
    WalkLabels(bytes, pos, n.labels, 0);
    var tail := pos + WireLength(n.labels);
    match n.end
    case Pointer(target) => PointerReads(bytes, tail, target);
    case Root => WalkRoot(bytes, tail, 0);
  }

  lemma {:induction false} StringsReadBack(strings: seq<Bytes>)
    requires forall t :: t in strings ==> |t| < 0x100
    ensures TxtText(EncodeStrings(strings)) == Ok(Concat(strings))
  {
    if strings != [] {
      var own, rest := strings[0], strings[1..];
      assert own in strings;
      StringsReadBack(rest);
      var s := EncodeStrings(strings);
      assert s[1..1 + |own|] == own && s[1 + |own|..] == EncodeStrings(rest);
    }
  }

  lemma FieldsReadBack(bytes: Bytes, pos: nat, f: seq<nat>)
    requires |f| == 5 && forall i :: 0 <= i < 5 ==> f[i] < 0x1_0000_0000
    requires At(bytes, pos, EncodeFields(f))
    ensures pos + 20 <= |bytes| && SoaFields(bytes, pos) == f
  {
    hide U32At, U32;
    assert pos + 20 <= |bytes| by { assert |EncodeFields(f)| == 20; }
    var d := U32(f[3]) + U32(f[4]);
    var c := U32(f[2]) + d;
    var b := U32(f[1]) + c;
    AtParts(bytes, pos, U32(f[0]), b);
    AtParts(bytes, pos + 4, U32(f[1]), c);
    AtParts(bytes, pos + 8, U32(f[2]), d);
    AtParts(bytes, pos + 12, U32(f[3]), U32(f[4]));
    hide At;
    ReadU32(bytes, pos, f[0]);
    ReadU32(bytes, pos + 4, f[1]);
    ReadU32(bytes, pos + 8, f[2]);
    ReadU32(bytes, pos + 12, f[3]);
    ReadU32(bytes, pos + 16, f[4]);
  }

  /** Record data in place decodes to its record. */
  lemma DataReadsBack(bytes: Bytes, pos: nat, d: Data, want: RecordType)
    requires ResolvableData(d, bytes) && ValidData(d) && At(bytes, pos, EncodeData(d))
    requires Code(d) == TypeCode(want)
    ensures Decode(bytes, Code(d), pos, |EncodeData(d)|, want) == Ok(RecordOf(d, bytes))
  {
    TypeOfData(d, want);
    match d
    case AData(_) =>
    case AaaaData(_) =>
    case CnameData(n) => NameReadsBack(bytes, pos, n);
    case NsData(n) => NameReadsBack(bytes, pos, n);
    case PtrData(n) => NameReadsBack(bytes, pos, n);
    case MxData(preference, n) => MxReadsBack(bytes, pos, d);
    case TxtData(strings) => StringsReadBack(strings);
    case SoaData(_, _, _) => SoaReadsBack(bytes, pos, d);
    case CaaData(_, _, _) => CaaReadsBack(bytes, pos, d);
    case SrvData(_, _, _, _) => SrvReadsBack(bytes, pos, d);
    case Other(_, _) =>
  }

  /** Which wanted type each form of data answers. */
  lemma TypeOfData(d: Data, want: RecordType)
    requires ValidData(d) && Code(d) == TypeCode(want)
    ensures match d
      case AData(_) => want == A
      case AaaaData(_) => want == Aaaa
      case CnameData(_) => want == Cname
      case NsData(_) => want == Ns
      case PtrData(_) => want == Ptr
      case MxData(_, _) => want == Mx
      case TxtData(_) => want == Txt
      case SoaData(_, _, _) => want == Soa
      case CaaData(_, _, _) => want == Caa
      case SrvData(_, _, _, _) => want == Srv
      case Other(_, data) =>
        || (want == A && |data| != 4) || (want == Aaaa && |data| != 16)
        || (want == Mx && |data| < 3) || (want == Caa && |data| < 2) || (want == Srv && |data| < 6)
  {
  }

  lemma MxReadsBack(bytes: Bytes, pos: nat, d: Data)
    requires ResolvableData(d, bytes) && d.MxData? && ValidData(d) && At(bytes, pos, EncodeData(d))
    ensures Decode(bytes, TypeCode(Mx), pos, |EncodeData(d)|, Mx) == Ok(RecordOf(d, bytes))
  {
    hide U16At, NameText, U16, EncodeName;
    AtParts(bytes, pos, U16(d.preference), EncodeName(d.exchange));
    ReadU16(bytes, pos, d.preference);
    NameReadsBack(bytes, pos + 2, d.exchange);
  }

  lemma SoaReadsBack(bytes: Bytes, pos: nat, d: Data)
    requires ResolvableData(d, bytes) && d.SoaData? && ValidData(d) && At(bytes, pos, EncodeData(d))
    ensures Decode(bytes, TypeCode(Soa), pos, |EncodeData(d)|, Soa) == Ok(RecordOf(d, bytes))
  {
    hide NameText, EncodeName, EncodeFields, SoaFields, DecodeSoa, At, FullName;
    SoaPartsReadBack(bytes, pos, d.mname, d.rname, d.fields);
    assert pos + |EncodeData(d)| <= |bytes| by { AtFits(bytes, pos, EncodeData(d)); }
  }

  lemma AtFits(bytes: Bytes, pos: nat, part: Bytes)
    requires At(bytes, pos, part)
    ensures pos + |part| <= |bytes|
  {
  }

  lemma SoaPartsReadBack(bytes: Bytes, pos: nat, m: WireName, n: WireName, fields: seq<nat>)
    requires Resolvable(m, bytes) && Resolvable(n, bytes) && ValidName(m) && ValidName(n)
    requires |fields| == 5 && forall i :: 0 <= i < 5 ==> fields[i] < 0x1_0000_0000
    requires At(bytes, pos, EncodeName(m) + (EncodeName(n) + EncodeFields(fields)))
    ensures DecodeSoa(bytes, pos)
            == Ok(Some(SoaRecord(FullName(m, bytes), FullName(n, bytes), fields)))
  {
    hide NameText, EncodeName, EncodeFields, SoaFields, At, FullName, ValidName;
    var mname, rname, five := EncodeName(m), EncodeName(n), EncodeFields(fields);
    AtParts(bytes, pos, mname, rname + five);
    AtParts(bytes, pos + |mname|, rname, five);
    NameReadsBack(bytes, pos, m);
    NameReadsBack(bytes, pos + |mname|, n);
    FieldsReadBack(bytes, pos + |mname| + |rname|, fields);
  }

  lemma CaaReadsBack(bytes: Bytes, pos: nat, d: Data)
    requires d.CaaData? && ValidData(d) && At(bytes, pos, EncodeData(d))
    ensures Decode(bytes, TypeCode(Caa), pos, |EncodeData(d)|, Caa) == Ok(RecordOf(d, bytes))
  {
  }

  lemma SrvReadsBack(bytes: Bytes, pos: nat, d: Data)
    requires ResolvableData(d, bytes) && d.SrvData? && ValidData(d) && At(bytes, pos, EncodeData(d))
    ensures Decode(bytes, TypeCode(Srv), pos, |EncodeData(d)|, Srv) == Ok(RecordOf(d, bytes))
  {
    hide U16At, NameText, U16, EncodeName, FullName;
    var n := EncodeName(d.target);
    AtParts(bytes, pos, U16(d.priority), U16(d.weight) + (U16(d.port) + n));
    AtParts(bytes, pos + 2, U16(d.weight), U16(d.port) + n);
    AtParts(bytes, pos + 4, U16(d.port), n);
    hide At;
    ReadU16(bytes, pos, d.priority);
    ReadU16(bytes, pos + 2, d.weight);
    ReadU16(bytes, pos + 4, d.port);
    NameReadsBack(bytes, pos + 6, d.target);
  }

  /** One answer in place, whether or not it is wanted. */
  ghost function Contribution(a: Answer, bytes: Bytes, want: RecordType): Answers
    requires ValidAnswer(a)
  {
    var rec := RecordOf(a.data, bytes);
    Answers(if Wanted(a, want) then Some(a.ttl) else None,
            if Wanted(a, want) && rec.Some? then [rec.value] else [],
            Code(a.data) == 5)
  }

  lemma AnswerReadsBack(bytes: Bytes, pos: nat, a: Answer, want: RecordType)
    requires ResolvableData(a.data, bytes) && ValidAnswer(a) && At(bytes, pos, FixedPart(a) + EncodeData(a.data))
    ensures AnswerAt(bytes, pos, want) ==
      Ok((Contribution(a, bytes, want), pos + 10 + |EncodeData(a.data)|))
  {
    hide U16, U32, U16At, U32At, Code, EncodeData, RecordOf;
    var code, len := Code(a.data), |EncodeData(a.data)|;
    AtParts(bytes, pos, FixedPart(a), EncodeData(a.data));
    var ttl := U32(a.ttl) + U16(len);
    AtParts(bytes, pos, U16(code), U16(a.net) + ttl);
    AtParts(bytes, pos + 2, U16(a.net), ttl);
    AtParts(bytes, pos + 4, U32(a.ttl), U16(len));
    ReadU16(bytes, pos, code);
    ReadU32(bytes, pos + 4, a.ttl);
    ReadU16(bytes, pos + 8, len);
    if code == TypeCode(want) {
      DataReadsBack(bytes, pos + 10, a.data, want);
    }
  }

  ghost function Expected(answers: seq<Answer>, bytes: Bytes, want: RecordType): Answers
    requires ValidAnswers(answers)
  {
    Answers(FirstTtl(answers, want), WantedRecords(answers, want, bytes), AnyCname(answers))
  }

  lemma {:induction false} AnswersReadBack(
      bytes: Bytes, pos: nat, answers: seq<Answer>, want: RecordType)
    requires Within(bytes, 12, MAX_HOPS - 1) && ResolvableAnswers(answers, bytes)
    requires ValidAnswers(answers) && At(bytes, pos, EncodeAnswers(answers))
    ensures AllAnswers(bytes, pos, |answers|, want) == Ok(Expected(answers, bytes, want))
    decreases |answers|
  {
    hide At, Skip, AnswerAt, EncodeAnswer, Contribution, Expected, Combine, ValidAnswer;
    if answers == [] {
      NothingExpected(bytes, want);
    } else {
      var first, rest := answers[0], answers[1..];
      assert first in answers && forall a :: a in rest ==> a in answers;
      AtParts(bytes, pos, EncodeAnswer(first), EncodeAnswers(rest));
      OneAnswerReadsBack(bytes, pos, first, want);
      AnswersReadBack(bytes, pos + |EncodeAnswer(first)|, rest, want);
      AllAnswersStep(bytes, pos, |answers|, want, Contribution(first, bytes, want), pos + |EncodeAnswer(first)|);
      ExpectedStep(answers, bytes, want);
    }
  }

  lemma NothingExpected(bytes: Bytes, want: RecordType)
    ensures ValidAnswers([]) && Expected([], bytes, want) == NOTHING
  {
  }

  lemma AllAnswersStep(bytes: Bytes, pos: nat, n: nat, want: RecordType, first: Answers, next: nat)
    requires n > 0 && Skip(bytes, pos).Ok? && AnswerAt(bytes, Skip(bytes, pos).value, want) == Ok((first, next))
    ensures AllAnswers(bytes, pos, n, want) == Preceded(first, AllAnswers(bytes, next, n - 1, want))
  {
  }

  /** The owner pointer of an answer, then the rest of it. */
  lemma OneAnswerReadsBack(bytes: Bytes, pos: nat, a: Answer, want: RecordType)
    requires Within(bytes, 12, MAX_HOPS - 1) && ResolvableData(a.data, bytes)
    requires ValidAnswer(a) && At(bytes, pos, EncodeAnswer(a))
    ensures Skip(bytes, pos) == Ok(pos + 2)
    ensures AnswerAt(bytes, pos + 2, want) == Ok((Contribution(a, bytes, want), pos + |EncodeAnswer(a)|))
  {
    hide At, Skip, AnswerAt, Contribution, FixedPart, EncodeData;
    var body := FixedPart(a) + EncodeData(a.data);
    AtParts(bytes, pos, [192, 12], body);
    PointerReads(bytes, pos, 12);
    AnswerReadsBack(bytes, pos + 2, a, want);
  }

  lemma ExpectedStep(answers: seq<Answer>, bytes: Bytes, want: RecordType)
    requires ValidAnswers(answers) && answers != []
    ensures answers[0] in answers && ValidAnswers(answers[1..])
    ensures Combine(Contribution(answers[0], bytes, want), Expected(answers[1..], bytes, want))
         == Expected(answers, bytes, want)
  {
  }

  /** A response: header, one question, the answers, and whatever follows them. */
  predicate ValidHeader(header: Bytes, answers: nat) {
    |header| == 12 && answers < 0x1_0000 && header[4..8] == U16(1) + U16(answers)
  }

  function Message(header: Bytes, question: seq<Bytes>, kind: Bytes, answers: seq<Answer>, rest: Bytes): Bytes
    requires ValidLabels(question) && ValidAnswers(answers)
  {
    header + ((EncodeLabels(question) + [0]) + (kind + (EncodeAnswers(answers) + rest)))
  }

  /** For every list of well-formed answers, whatever the rest of the message holds, the parse returns
      the wanted records in order, the first wanted TTL, and whether there was a CNAME. Names in the data
      may point anywhere in the message. */
  lemma ParseReadsBack(
      header: Bytes, question: seq<Bytes>, kind: Bytes, answers: seq<Answer>, rest: Bytes, want: RecordType)
    requires ValidLabels(question) && ValidAnswers(answers) && ValidHeader(header, |answers|) && |kind| == 4
    requires ResolvableAnswers(answers, Message(header, question, kind, answers, rest))
    ensures var bytes := Message(header, question, kind, answers, rest);
      && LabelsAt(bytes, 12) == question
      && Parse(bytes, want) == Ok(Response(header[3] % 16, Expected(answers, bytes, want)))
  {
    hide EncodeLabels, EncodeAnswers, Expected, Walk, Skip, U16At, U16, AllAnswers, AfterQuestions, ValidAnswers,
      TypeCode, ResolvableAnswers, LabelsAt, Within;
    var name, all := EncodeLabels(question) + [0], EncodeAnswers(answers);
    var bytes := Message(header, question, kind, answers, rest);
    MessageParts(header, question, kind, answers, rest);
    hide At, Message;
    QuestionSpelled(bytes, question);
    WalkPlainName(bytes, 12, question, 0);
    WalkersAgree(bytes, 12);
    AtParts(bytes, 4, U16(1), U16(|answers|));
    ReadU16(bytes, 4, 1);
    ReadU16(bytes, 6, |answers|);
    var first := 16 + |name|;
    OneQuestion(bytes, first);
    AnswersReadBack(bytes, first, answers, want);
  }

  lemma MessageParts(header: Bytes, question: seq<Bytes>, kind: Bytes, answers: seq<Answer>, rest: Bytes)
    requires ValidLabels(question) && ValidAnswers(answers) && ValidHeader(header, |answers|) && |kind| == 4
    ensures var bytes, name := Message(header, question, kind, answers, rest), EncodeLabels(question) + [0];
      && |bytes| >= 12 && bytes[3] == header[3]
      && At(bytes, 4, U16(1) + U16(|answers|))
      && At(bytes, 12, name) && At(bytes, 16 + |name|, EncodeAnswers(answers))
  {
    hide EncodeLabels, EncodeAnswers, ValidAnswers, U16;
    var name, all := EncodeLabels(question) + [0], EncodeAnswers(answers);
    var bytes := Message(header, question, kind, answers, rest);
    assert At(bytes, 0, bytes);
    AtParts(bytes, 0, header, name + (kind + (all + rest)));
    AtParts(bytes, 12, name, kind + (all + rest));
    AtParts(bytes, 12 + |name|, kind, all + rest);
    AtParts(bytes, 16 + |name|, all, rest);
    assert bytes[4..8] == header[4..8];
  }

  lemma OneQuestion(bytes: Bytes, first: nat)
    requires first >= 4 && Skip(bytes, 12) == Ok(first - 4)
    ensures AfterQuestions(bytes, 12, 1) == Ok(first)
  {
  }

  // ----- whose TTL it is -----

  /** The first answer of the wanted type stands at `i`. */
  predicate FirstWanted(answers: seq<Answer>, want: RecordType, i: nat)
    requires ValidAnswers(answers)
  {
    && i < |answers|
    && answers[i] in answers && Wanted(answers[i], want)
    && forall j :: 0 <= j < i ==> answers[j] in answers && !Wanted(answers[j], want)
  }

  lemma {:induction false} FirstTtlAt(answers: seq<Answer>, want: RecordType, i: nat)
    requires ValidAnswers(answers) && FirstWanted(answers, want, i)
    ensures FirstTtl(answers, want) == Some(answers[i].ttl)
  {
    hide ValidAnswer, Code;
    if i > 0 {
      assert answers[0] in answers && !Wanted(answers[0], want);
      var rest := answers[1..];
      assert forall j :: 0 <= j < |rest| ==> rest[j] == answers[j + 1] && rest[j] in rest;
      FirstTtlAt(rest, want, i - 1);
    }
  }

  lemma {:induction false} FirstTtlWanted(answers: seq<Answer>, want: RecordType) returns (i: nat)
    requires ValidAnswers(answers) && FirstTtl(answers, want).Some?
    ensures FirstWanted(answers, want, i)
  {
    hide ValidAnswer, Code;
    assert answers[0] in answers;
    if Wanted(answers[0], want) {
      i := 0;
    } else {
      var rest := answers[1..];
      assert forall j :: 0 <= j < |rest| ==> rest[j] == answers[j + 1] && rest[j] in answers;
      var k := FirstTtlWanted(rest, want);
      i := k + 1;
      forall j | 0 <= j < i ensures answers[j] in answers && !Wanted(answers[j], want) {
        assert j > 0 ==> answers[j] == rest[j - 1];
      }
    }
  }

  /** The reported TTL is that of the first answer, as documented, exactly when the first answer is of the
      wanted type or the first wanted one happens to carry the same TTL. */
  lemma TtlOfFirstAnswer(answers: seq<Answer>, want: RecordType)
    requires ValidAnswers(answers) && answers != []
    ensures answers[0] in answers
    ensures FirstTtl(answers, want) == Some(answers[0].ttl) <==>
      Wanted(answers[0], want) || exists i: nat :: FirstWanted(answers, want, i) && answers[i].ttl == answers[0].ttl
  {
    assert answers[0] in answers;
    if FirstTtl(answers, want).Some? {
      var i := FirstTtlWanted(answers, want);
      FirstTtlAt(answers, want, i);
      forall j: nat | FirstWanted(answers, want, j) ensures j == i {
        OneFirstWanted(answers, want, i, j);
      }
    } else {
      if j: nat :| FirstWanted(answers, want, j) {
        FirstTtlAt(answers, want, j);
        assert false;
      }
    }
  }

  lemma OneFirstWanted(answers: seq<Answer>, want: RecordType, i: nat, j: nat)
    requires ValidAnswers(answers) && FirstWanted(answers, want, i) && FirstWanted(answers, want, j)
    ensures i == j
  {
    hide Wanted;
  }

  /** An alias with a TTL of 60, then the address it leads to with a TTL of 300. */
  const ALIAS_FIRST: seq<Answer> :=
    [Answer(CnameData(WireName([[97]], Root)), 1, 60), Answer(AData([192, 0, 2, 1]), 1, 300)]

  /** Asked for the address, the parse reports 300, not the TTL of the first answer. */
  lemma AliasFirst(header: Bytes, question: seq<Bytes>, kind: Bytes, rest: Bytes)
    requires ValidLabels(question) && ValidHeader(header, 2) && |kind| == 4
    ensures ValidAnswers(ALIAS_FIRST)
    ensures var r := Parse(Message(header, question, kind, ALIAS_FIRST, rest), A);
      r.Ok? && r.value.answers.ttl == Some(300) && ALIAS_FIRST[0].ttl == 60
  {
    hide Parse;
    AliasValid();
    ParseReadsBack(header, question, kind, ALIAS_FIRST, rest, A);
    hide Message, ResolvableAnswers;
    var at: nat := 1;
    assert ALIAS_FIRST[0] in ALIAS_FIRST && ALIAS_FIRST[1] in ALIAS_FIRST;
    FirstTtlAt(ALIAS_FIRST, A, at);
  }

  lemma AliasValid()
    ensures ValidAnswers(ALIAS_FIRST)
  {
    assert EncodeLabels([[97]]) == [1, 97];
  }

  /** The type bytes of an answer, and which wanted type it answers. */
  lemma TypeBytes(a: Answer, want: RecordType)
    requires ValidAnswer(a) && !a.data.Other?
    ensures EncodeAnswer(a)[2..4] == match a.data
      case AData(_) => [0, 1]
      case NsData(_) => [0, 2]
      case CnameData(_) => [0, 5]
      case SoaData(_, _, _) => [0, 6]
      case PtrData(_) => [0, 12]
      case MxData(_, _) => [0, 15]
      case TxtData(_) => [0, 16]
      case AaaaData(_) => [0, 28]
      case SrvData(_, _, _, _) => [0, 33]
      case CaaData(_, _, _) => [1, 1]
    ensures Wanted(a, want) <==> match want
      case A => a.data.AData?
      case Ns => a.data.NsData?
      case Cname => a.data.CnameData?
      case Soa => a.data.SoaData?
      case Ptr => a.data.PtrData?
      case Mx => a.data.MxData?
      case Txt => a.data.TxtData?
      case Aaaa => a.data.AaaaData?
      case Srv => a.data.SrvData?
      case Caa => a.data.CaaData?
  {
    hide EncodeData;
    AnswerBytes(a);
    assert EncodeAnswer(a)[2..4] == [Code(a.data) / 256, Code(a.data) % 256];
    hide EncodeAnswer;
  }

  /** An answer, byte by byte: a pointer to the question, then type, class, TTL and length, high byte first. */
  lemma AnswerBytes(a: Answer)
    requires ValidAnswer(a)
    ensures var code, net, ttl, len := Code(a.data), a.net, a.ttl, |EncodeData(a.data)|;
      EncodeAnswer(a) == [192, 12, code / 256, code % 256, net / 256, net % 256,
                          ttl / 0x1_0000 / 256, ttl / 0x1_0000 % 256, ttl % 0x1_0000 / 256, ttl % 0x1_0000 % 256,
                          len / 256, len % 256] + EncodeData(a.data)
  {
    hide Code, EncodeData;
  }

  // ----- responses that were cut short -----

  lemma {:induction false} NameCut(whole: Bytes, n: nat, pos: nat, labels: seq<Bytes>)
    requires ValidLabels(labels) && At(whole, pos, EncodeLabels(labels) + [0]) && n <= pos + WireLength(labels)
    requires n <= |whole|
    ensures Skip(whole[..n], pos).Err?
    decreases |labels|
  {
    hide At;
    AtParts(whole, pos, EncodeLabels(labels), [0]);
    if pos < n {
      var own, rest := labels[0], labels[1..];
      assert own in labels && forall l :: l in rest ==> l in labels;
      var len: byte := |own|;
      assert EncodeLabels(labels) + [0] == [len] + (own + (EncodeLabels(rest) + [0]));
      AtParts(whole, pos, [len], own + (EncodeLabels(rest) + [0]));
      AtParts(whole, pos + 1, own, EncodeLabels(rest) + [0]);
      FirstAt(whole, pos, len);
      NameCut(whole, n, pos + 1 + |own|, rest);
    }
  }

  lemma FirstAt(bytes: Bytes, pos: nat, b: byte)
    requires At(bytes, pos, [b])
    ensures pos < |bytes| && bytes[pos] == b
  {
    assert bytes[pos..pos + 1][0] == bytes[pos];
  }

  /** Where an answer in place points and how long it is. */
  lemma AnswerAtBytes(bytes: Bytes, pos: nat, a: Answer)
    requires ValidAnswer(a) && At(bytes, pos, EncodeAnswer(a))
    ensures pos + |EncodeAnswer(a)| <= |bytes| && |EncodeAnswer(a)| == 12 + |EncodeData(a.data)|
    ensures bytes[pos] == 192 && bytes[pos + 1] == 12
    ensures U16At(bytes, pos + 10) == |EncodeData(a.data)|
  {
    hide Code, EncodeData;
    AnswerBytes(a);
    var e := EncodeAnswer(a);
    assert bytes[pos..pos + |e|] == e;
    assert bytes[pos + 0] == e[0] && bytes[pos + 1] == e[1] && bytes[pos + 10] == e[10] && bytes[pos + 11] == e[11];
  }

  /** An answer that ends beyond the cut is refused. */
  lemma LastAnswerCut(whole: Bytes, n: nat, pos: nat, a: Answer, want: RecordType)
    requires ValidAnswer(a) && At(whole, pos, EncodeAnswer(a)) && n <= |whole| && n < pos + |EncodeAnswer(a)|
    ensures Skip(whole[..n], pos).Err? || AnswerAt(whole[..n], Skip(whole[..n], pos).value, want).Err?
  {
    hide At, EncodeAnswer, Decode;
    AnswerAtBytes(whole, pos, a);
    var cut := whole[..n];
    if Skip(cut, pos).Ok? {
      assert cut[pos] == 192 && Skip(cut, pos).value == pos + 2;
      if pos + 12 <= n {
        assert U16At(cut, pos + 10) == U16At(whole, pos + 10);
      }
    }
  }

  /** An answer before the cut is refused too, or stepped over. */
  lemma EarlyAnswerCut(whole: Bytes, n: nat, pos: nat, a: Answer, want: RecordType)
    requires ValidAnswer(a) && At(whole, pos, EncodeAnswer(a)) && pos + |EncodeAnswer(a)| <= n <= |whole|
    requires Skip(whole[..n], pos).Ok? && AnswerAt(whole[..n], Skip(whole[..n], pos).value, want).Ok?
    ensures AnswerAt(whole[..n], Skip(whole[..n], pos).value, want).value.1 == pos + |EncodeAnswer(a)|
  {
    hide At, EncodeAnswer, Decode;
    AnswerAtBytes(whole, pos, a);
    var cut := whole[..n];
    assert cut[pos] == 192 && Skip(cut, pos).value == pos + 2;
    assert U16At(cut, pos + 10) == U16At(whole, pos + 10);
  }

  lemma {:induction false} AnswersCut(whole: Bytes, n: nat, pos: nat, answers: seq<Answer>, want: RecordType)
    requires ValidAnswers(answers) && At(whole, pos, EncodeAnswers(answers)) && answers != []
    requires n <= |whole| && n < pos + |EncodeAnswers(answers)|
    ensures AllAnswers(whole[..n], pos, |answers|, want).Err?
    decreases |answers|
  {
    hide At, EncodeAnswer, AnswerAt, Skip, ValidAnswer;
    var first, rest := answers[0], answers[1..];
    assert first in answers && forall a :: a in rest ==> a in answers;
    AtParts(whole, pos, EncodeAnswer(first), EncodeAnswers(rest));
    if n < pos + |EncodeAnswer(first)| {
      LastAnswerCut(whole, n, pos, first, want);
    } else {
      var skipped := Skip(whole[..n], pos);
      if skipped.Ok? && AnswerAt(whole[..n], skipped.value, want).Ok? {
        EarlyAnswerCut(whole, n, pos, first, want);
        AnswersCut(whole, n, pos + |EncodeAnswer(first)|, rest, want);
      }
    }
  }

  /** A response cut short anywhere before the end of its last answer is refused, wherever the names in its
      data point and whatever type was wanted. */
  lemma CutShort(
      header: Bytes, question: seq<Bytes>, kind: Bytes, answers: seq<Answer>, rest: Bytes, n: nat, want: RecordType)
    requires ValidLabels(question) && ValidAnswers(answers) && ValidHeader(header, |answers|) && |kind| == 4
    requires answers != [] && n < 12 + |EncodeLabels(question)| + 1 + 4 + |EncodeAnswers(answers)|
    ensures n <= |Message(header, question, kind, answers, rest)|
    ensures Parse(Message(header, question, kind, answers, rest)[..n], want).Err?
  {
    hide EncodeLabels, EncodeAnswers, Skip, U16At, U16, AllAnswers, AfterQuestions, ValidAnswers, TypeCode;
    var name := EncodeLabels(question) + [0];
    var bytes := Message(header, question, kind, answers, rest);
    assert |bytes| >= 16 + |name| + |EncodeAnswers(answers)|;
    MessageParts(header, question, kind, answers, rest);
    hide At, Message;
    var cut := bytes[..n];
    if 12 <= n {
      CutHeader(bytes, n, |answers|);
      var first := 16 + |name|;
      if n < 12 + |name| {
        NameCut(bytes, n, 12, question);
        NoQuestion(cut);
      } else {
        AtCut(bytes, n, 12, name);
        WalkPlainName(cut, 12, question, 0);
        WalkersAgree(cut, 12);
        OneQuestion(cut, first);
        AnswersCut(bytes, n, first, answers, want);
      }
    }
  }

  lemma CutHeader(bytes: Bytes, n: nat, answers: nat)
    requires 12 <= n <= |bytes| && answers < 0x1_0000 && At(bytes, 4, U16(1) + U16(answers))
    ensures U16At(bytes[..n], 4) == 1 && U16At(bytes[..n], 6) == answers
  {
    AtParts(bytes, 4, U16(1), U16(answers));
    ReadU16(bytes, 4, 1);
    ReadU16(bytes, 6, answers);
  }

  lemma NoQuestion(bytes: Bytes)
    requires Skip(bytes, 12).Err?
    ensures AfterQuestions(bytes, 12, 1).Err?
  {
  }

  lemma AtCut(bytes: Bytes, n: nat, pos: nat, chunk: Bytes)
    requires At(bytes, pos, chunk) && pos + |chunk| <= n <= |bytes|
    ensures At(bytes[..n], pos, chunk)
  {
    assert bytes[..n][pos..pos + |chunk|] == bytes[pos..pos + |chunk|];
  }
}
