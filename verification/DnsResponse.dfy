/** `parse_dns_response`: the answer section of a response, for one wanted record type. */
module DnsResponse {
  import opened Collections
  import opened Text
  import opened DnsName
  import opened DnsMessage

  /** A decoded record; names are dotted text, SOA keeps its five numbers apart. */
  datatype Record =
    | ARecord(octets: Bytes)
    | AaaaRecord(octets: Bytes)
    | CnameRecord(name: Bytes)
    | NsRecord(name: Bytes)
    | PtrRecord(name: Bytes)
    | MxRecord(preference: nat, exchange: Bytes)
    | TxtRecord(text: Bytes)
    | SoaRecord(mname: Bytes, rname: Bytes, fields: seq<nat>)
    | CaaRecord(flags: byte, tag: Bytes, value: Bytes)
    | SrvRecord(priority: nat, weight: nat, port: nat, target: Bytes)

  datatype ParseError =
    | ShortHeader
    | TruncatedAnswer
    | TruncatedRdata
    | TruncatedTxt
    | TruncatedSoa
    | TruncatedCaa
    | BadName(error: NameError)

  /** What the answers add up to. */
  datatype Answers = Answers(ttl: Option<nat>, records: seq<Record>, sawCname: bool)

  datatype Response = Response(rcode: nat, answers: Answers)

  // ----- read_txt -----

  /** The character-strings of a TXT record, joined. */
  function TxtText(rdata: Bytes): Result<Bytes, ParseError>
    decreases |rdata|
  {
    if rdata == [] then Ok([])
    else
      var len: nat := rdata[0];
      if 1 + len > |rdata| then Err(TruncatedTxt)
      else After(rdata[1..1 + len], TxtText(rdata[1 + len..]))
  }

  function After(text: Bytes, rest: Result<Bytes, ParseError>): Result<Bytes, ParseError> {
    match rest
    case Err(e) => Err(e)
    case Ok(t) => Ok(text + t)
  }

  lemma AfterAfter(a: Bytes, b: Bytes, rest: Result<Bytes, ParseError>)
    ensures After(a, After(b, rest)) == After(a + b, rest)
    ensures After([], rest) == rest
  {
    if rest.Ok? {
      assert a + (b + rest.value) == a + b + rest.value;
      assert [] + rest.value == rest.value;
    }
  }

  lemma NoText()
    ensures TxtText([]) == Ok([])
  {
  }

  /** The string at `off`, then the strings after it. */
  lemma TxtStep(rdata: Bytes, off: nat)
    requires off < |rdata|
    ensures var len: nat := rdata[off];
      if off + 1 + len > |rdata| then TxtText(rdata[off..]) == Err(TruncatedTxt)
      else TxtText(rdata[off..]) == After(rdata[off + 1..off + 1 + len], TxtText(rdata[off + 1 + len..]))
  {
    var len: nat := rdata[off];
    if off + 1 + len <= |rdata| {
      assert rdata[off..][1..1 + len] == rdata[off + 1..off + 1 + len];
      assert rdata[off..][1 + len..] == rdata[off + 1 + len..];
    }
  }

  method ReadTxt(rdata: Bytes) returns (r: Result<Bytes, ParseError>)
    ensures r == TxtText(rdata)
  {
    var out: Bytes := [];
    var off: nat := 0;
    AfterAfter([], [], TxtText(rdata));
    assert rdata[0..] == rdata;
    NoText();
    hide TxtText;
    while off < |rdata|
      invariant off <= |rdata|
      invariant TxtText(rdata) == After(out, TxtText(rdata[off..]))
    {
      var len: nat := rdata[off];
      var start := off + 1;
      if start + len > |rdata| {
        TxtStep(rdata, off);
        return Err(TruncatedTxt);
      }
      TxtStep(rdata, off);
      AfterAfter(out, rdata[start..start + len], TxtText(rdata[start + len..]));
      out := out + rdata[start..start + len];
      off := start + len;
    }
    assert rdata[off..] == [] && out + [] == out;
    r := Ok(out);
  }

  // ----- one answer -----

  /** The text of the name at `pos`, and the position after it. */
  function NameText(bytes: Bytes, pos: nat): Result<(Bytes, nat), ParseError> {
    match Walk(bytes, pos, 0)
    case Err(e) => Err(BadName(e))
    case Ok(n) => Ok((Dotted(n.labels), n.end))
  }

  function SoaFields(bytes: Bytes, pos: nat): seq<nat>
    requires pos + 20 <= |bytes|
  {
    [U32At(bytes, pos), U32At(bytes, pos + 4), U32At(bytes, pos + 8), U32At(bytes, pos + 12), U32At(bytes, pos + 16)]
  }

  /** The record in `bytes[start..start + len]`; `None` for a type that is not wanted, and for a wanted
      type whose length cannot hold it. */
  function Decode(bytes: Bytes, code: nat, start: nat, len: nat, want: RecordType): Result<Option<Record>, ParseError>
    requires start + len <= |bytes|
  {
    var rdata := bytes[start..start + len];
    if code != TypeCode(want) then Ok(None)
    else
      match want
      case A => Ok(if len == 4 then Some(ARecord(rdata)) else None)
      case Aaaa => Ok(if len == 16 then Some(AaaaRecord(rdata)) else None)
      case Cname => NamedRecord(NameText(bytes, start), n => CnameRecord(n))
      case Ns => NamedRecord(NameText(bytes, start), n => NsRecord(n))
      case Ptr => NamedRecord(NameText(bytes, start), n => PtrRecord(n))
      case Mx =>
        if len < 3 then Ok(None)
        else
          var preference := U16At(bytes, start);
          NamedRecord(NameText(bytes, start + 2), n => MxRecord(preference, n))
      case Txt =>
        (match TxtText(rdata)
         case Err(e) => Err(e)
         case Ok(text) => Ok(Some(TxtRecord(text))))
      case Soa => DecodeSoa(bytes, start)
      case Caa =>
        if len < 2 then Ok(None)
        else
          var tagLen: nat := rdata[1];
          var tagEnd := 2 + tagLen;
          if tagEnd > len then Err(TruncatedCaa)
          else Ok(Some(CaaRecord(rdata[0], rdata[2..tagEnd], rdata[tagEnd..])))
      case Srv =>
        if len < 6 then Ok(None)
        else
          var priority, weight, port := U16At(bytes, start), U16At(bytes, start + 2), U16At(bytes, start + 4);
          NamedRecord(NameText(bytes, start + 6), n => SrvRecord(priority, weight, port, n))
  }

  function NamedRecord(name: Result<(Bytes, nat), ParseError>, record: Bytes -> Record):
    Result<Option<Record>, ParseError>
  {
    match name
    case Err(e) => Err(e)
    case Ok((text, _)) => Ok(Some(record(text)))
  }

  function DecodeSoa(bytes: Bytes, start: nat): Result<Option<Record>, ParseError> {
    match NameText(bytes, start)
    case Err(e) => Err(e)
    case Ok((mname, p1)) =>
      match NameText(bytes, p1)
      case Err(e) => Err(e)
      case Ok((rname, p2)) =>
        if p2 + 20 > |bytes| then Err(TruncatedSoa)
        else Ok(Some(SoaRecord(mname, rname, SoaFields(bytes, p2))))
  }

  // ----- the answer section -----

  /** The answer whose fixed part starts at `pos`. */
  function AnswerAt(bytes: Bytes, pos: nat, want: RecordType): (r: Result<(Answers, nat), ParseError>)
    ensures r.Ok? ==> r.value.1 > pos
  {
    if pos + 10 > |bytes| then Err(TruncatedAnswer)
    else
      var code, len := U16At(bytes, pos), U16At(bytes, pos + 8);
      var start := pos + 10;
      if start + len > |bytes| then Err(TruncatedRdata)
      else
        match Decode(bytes, code, start, len, want)
        case Err(e) => Err(e)
        case Ok(rec) =>
          var ttl := if code == TypeCode(want) then Some(U32At(bytes, pos + 4)) else None;
          Ok((Answers(ttl, if rec.Some? then [rec.value] else [], code == 5), start + len))
  }

  /** The first TTL, all records in order, and whether any answer was a CNAME. */
  function Combine(a: Answers, b: Answers): Answers {
    Answers(if a.ttl.Some? then a.ttl else b.ttl, a.records + b.records, a.sawCname || b.sawCname)
  }

  function Preceded(a: Answers, rest: Result<Answers, ParseError>): Result<Answers, ParseError> {
    match rest
    case Err(e) => Err(e)
    case Ok(b) => Ok(Combine(a, b))
  }

  const NOTHING := Answers(None, [], false)

  lemma PrecededTwice(a: Answers, b: Answers, rest: Result<Answers, ParseError>)
    ensures Preceded(a, Preceded(b, rest)) == Preceded(Combine(a, b), rest)
    ensures Preceded(NOTHING, rest) == rest
  {
    if rest.Ok? {
      assert a.records + (b.records + rest.value.records) == a.records + b.records + rest.value.records;
      assert [] + rest.value.records == rest.value.records;
    }
  }

  function AllAnswers(bytes: Bytes, pos: nat, n: nat, want: RecordType): Result<Answers, ParseError>
    decreases n
  {
    if n == 0 then Ok(NOTHING)
    else
      match Skip(bytes, pos)
      case Err(e) => Err(BadName(e))
      case Ok(p) =>
        match AnswerAt(bytes, p, want)
        case Err(e) => Err(e)
        case Ok((first, next)) => Preceded(first, AllAnswers(bytes, next, n - 1, want))
  }

  /** The questions are stepped over without checking that their four bytes are there. */
  function AfterQuestions(bytes: Bytes, pos: nat, n: nat): Result<nat, ParseError>
    decreases n
  {
    if n == 0 then Ok(pos)
    else
      match Skip(bytes, pos)
      case Err(e) => Err(BadName(e))
      case Ok(p) => AfterQuestions(bytes, p + 4, n - 1)
  }

  function Parse(bytes: Bytes, want: RecordType): Result<Response, ParseError> {
    if |bytes| < 12 then Err(ShortHeader)
    else
      match AfterQuestions(bytes, 12, U16At(bytes, 4))
      case Err(e) => Err(e)
      case Ok(pos) =>
        match AllAnswers(bytes, pos, U16At(bytes, 6), want)
        case Err(e) => Err(e)
        case Ok(answers) => Ok(Response(bytes[3] % 16, answers))
  }

  method ReadNameText(bytes: Bytes, pos: nat) returns (r: Result<(Bytes, nat), ParseError>)
    ensures r == NameText(bytes, pos)
  {
    var name := ReadName(bytes, pos);
    match name {
      case Ok(v) => r := Ok(v);
      case Err(e) => r := Err(BadName(e));
    }
  }

  method DecodeRecord(bytes: Bytes, code: nat, start: nat, len: nat, want: RecordType)
    returns (r: Result<Option<Record>, ParseError>)
    requires start + len <= |bytes|
    ensures r == Decode(bytes, code, start, len, want)
  {
    hide TxtText, NameText, SoaFields, U16At;
    var rdata := bytes[start..start + len];
    if code != TypeCode(want) {
      return Ok(None);
    }
    match want {
      case A => r := Ok(if len == 4 then Some(ARecord(rdata)) else None);
      case Aaaa => r := Ok(if len == 16 then Some(AaaaRecord(rdata)) else None);
      case Cname =>
        var name := ReadNameText(bytes, start);
        r := NamedRecord(name, n => CnameRecord(n));
      case Ns =>
        var name := ReadNameText(bytes, start);
        r := NamedRecord(name, n => NsRecord(n));
      case Ptr =>
        var name := ReadNameText(bytes, start);
        r := NamedRecord(name, n => PtrRecord(n));
      case Mx =>
        if len < 3 {
          return Ok(None);
        }
        var preference := U16At(bytes, start);
        var name := ReadNameText(bytes, start + 2);
        r := NamedRecord(name, n => MxRecord(preference, n));
      case Txt =>
        var text := ReadTxt(rdata);
        r := if text.Ok? then Ok(Some(TxtRecord(text.value))) else Err(text.error);
      case Soa =>
        var mname := ReadNameText(bytes, start);
        if mname.Err? {
          return Err(mname.error);
        }
        var rname := ReadNameText(bytes, mname.value.1);
        if rname.Err? {
          return Err(rname.error);
        }
        if rname.value.1 + 20 > |bytes| {
          return Err(TruncatedSoa);
        }
        r := Ok(Some(SoaRecord(mname.value.0, rname.value.0, SoaFields(bytes, rname.value.1))));
      case Caa =>
        if len < 2 {
          return Ok(None);
        }
        var tagLen: nat := rdata[1];
        if 2 + tagLen > len {
          return Err(TruncatedCaa);
        }
        r := Ok(Some(CaaRecord(rdata[0], rdata[2..2 + tagLen], rdata[2 + tagLen..])));
      case Srv =>
        if len < 6 {
          return Ok(None);
        }
        var priority, weight, port := U16At(bytes, start), U16At(bytes, start + 2), U16At(bytes, start + 4);
        var name := ReadNameText(bytes, start + 6);
        r := NamedRecord(name, n => SrvRecord(priority, weight, port, n));
    }
  }

  /** The fixed part of an answer and its record; `pos` is where its owner name ended. */
  method ReadAnswer(bytes: Bytes, pos: nat, want: RecordType) returns (r: Result<(Answers, nat), ParseError>)
    ensures r == AnswerAt(bytes, pos, want)
  {
    hide Decode, U16At, U32At, TypeCode;
    if pos + 10 > |bytes| {
      return Err(TruncatedAnswer);
    }
    var code, len := U16At(bytes, pos), U16At(bytes, pos + 8);
    var ttl := if code == TypeCode(want) then Some(U32At(bytes, pos + 4)) else None;
    var start := pos + 10;
    if start + len > |bytes| {
      return Err(TruncatedRdata);
    }
    var rec := DecodeRecord(bytes, code, start, len, want);
    if rec.Err? {
      return Err(rec.error);
    }
    var recs := if rec.value.Some? then [rec.value.value] else [];
    r := Ok((Answers(ttl, recs, code == 5), start + len));
  }

  method ParseDnsResponse(bytes: Bytes, want: RecordType) returns (r: Result<Response, ParseError>)
    ensures r == Parse(bytes, want)
  {
    hide Skip, AnswerAt, U16At;
    if |bytes| < 12 {
      return Err(ShortHeader);
    }
    var rcode := bytes[3] % 16;
    var qdcount, ancount := U16At(bytes, 4), U16At(bytes, 6);
    var pos: nat := 12;
    for i := 0 to qdcount
      invariant AfterQuestions(bytes, 12, qdcount) == AfterQuestions(bytes, pos, qdcount - i)
    {
      var skipped := SkipName(bytes, pos);
      if skipped.Err? {
        return Err(BadName(skipped.error));
      }
      pos := skipped.value + 4;
    }
    var recs: seq<Record>, firstTtl: Option<nat>, sawCname := [], None, false;
    hide AfterQuestions;
    ghost var section := pos;
    PrecededTwice(NOTHING, NOTHING, AllAnswers(bytes, section, ancount, want));
    for i := 0 to ancount
      invariant AllAnswers(bytes, section, ancount, want)
             == Preceded(Answers(firstTtl, recs, sawCname), AllAnswers(bytes, pos, ancount - i, want))
    {
      var skipped := SkipName(bytes, pos);
      if skipped.Err? {
        return Err(BadName(skipped.error));
      }
      var answer := ReadAnswer(bytes, skipped.value, want);
      if answer.Err? {
        return Err(answer.error);
      }
      ghost var before := Answers(firstTtl, recs, sawCname);
      var (one, next) := answer.value;
      if one.sawCname {
        sawCname := true;
      }
      if firstTtl.None? {
        firstTtl := one.ttl;
      }
      recs := recs + one.records;
      pos := next;
      assert Combine(before, one) == Answers(firstTtl, recs, sawCname);
      PrecededTwice(before, one, AllAnswers(bytes, pos, ancount - i - 1, want));
    }
    assert recs + [] == recs;
    r := Ok(Response(rcode, Answers(firstTtl, recs, sawCname)));
  }

  // ----- what is stepped over and what is refused -----

  /** The text of a name in place: its labels with dots between them, or a single dot for the root. */
  lemma PlainText(bytes: Bytes, pos: nat, first: Bytes, second: Bytes)
    requires 1 <= |first| <= 63 && 1 <= |second| <= 63
    ensures At(bytes, pos, [0]) ==> NameText(bytes, pos) == Ok(([46], pos + 1))
    ensures At(bytes, pos, [|first|] + first + ([|second|] + second) + [0]) ==>
      NameText(bytes, pos) == Ok((first + [46] + second, pos + |first| + |second| + 3))
  {
    hide Walk, At, EncodeLabels;
    if At(bytes, pos, [0]) {
      WalkRoot(bytes, pos, 0);
    }
    if At(bytes, pos, [|first|] + first + ([|second|] + second) + [0]) {
      EncodeTwo(first, second);
      WalkPlainName(bytes, pos, [first, second], 0);
      assert [first, second][1..] == [second] && [second][1..] == [];
      assert WireLength([first, second]) == |first| + |second| + 2;
      assert [first] + [second] == [first, second];
      JoinCons(first, [second], DOT);
      JoinOne(second, DOT);
    }
  }

  /** Data of a wanted type that is too short, or for an address of the wrong length, is stepped over, and
      nothing else is; a CAA tag that overruns its data is an error. */
  lemma LengthGuards(bytes: Bytes, start: nat, len: nat, want: RecordType)
    requires start + len <= |bytes|
    ensures Decode(bytes, TypeCode(want), start, len, want) == Ok(None) <==>
      match want
      case A => len != 4
      case Aaaa => len != 16
      case Mx => len < 3
      case Srv => len < 6
      case Caa => len < 2
      case _ => false
    ensures want.Caa? && len >= 2 ==>
      (Decode(bytes, 257, start, len, want) == Err(TruncatedCaa) <==> bytes[start + 1] + 2 > len)
  {
    hide TxtText, NameText, SoaFields, U16At;
  }

  /** Only a message without a whole header is refused for that; without questions and answers nothing else is
      read. */
  lemma HeaderExactly(bytes: Bytes, want: RecordType)
    ensures Parse(bytes, want) == Err(ShortHeader) <==> |bytes| < 12
    ensures |bytes| >= 12 && bytes[4..8] == [0, 0, 0, 0] ==>
      Parse(bytes, want) == Ok(Response(bytes[3] % 16, Answers(None, [], false)))
  {
    hide Skip, AnswerAt;
    if |bytes| >= 12 {
      QuestionsNotShort(bytes, 12, U16At(bytes, 4));
      if AfterQuestions(bytes, 12, U16At(bytes, 4)).Ok? {
        AnswersNotShort(bytes, AfterQuestions(bytes, 12, U16At(bytes, 4)).value, U16At(bytes, 6), want);
      }
      assert bytes[4..8] == [bytes[4], bytes[5], bytes[6], bytes[7]];
    }
  }

  lemma {:induction false} QuestionsNotShort(bytes: Bytes, pos: nat, n: nat)
    ensures AfterQuestions(bytes, pos, n) != Err(ShortHeader)
    decreases n
  {
    if n > 0 && Skip(bytes, pos).Ok? {
      QuestionsNotShort(bytes, Skip(bytes, pos).value + 4, n - 1);
    }
  }

  lemma {:induction false} TextNotShort(rdata: Bytes)
    ensures TxtText(rdata) != Err(ShortHeader)
    decreases |rdata|
  {
    if rdata != [] {
      var len: nat := rdata[0];
      if 1 + len <= |rdata| {
        TextNotShort(rdata[1 + len..]);
      }
    }
  }

  lemma AnswerNotShort(bytes: Bytes, pos: nat, want: RecordType)
    ensures AnswerAt(bytes, pos, want) != Err(ShortHeader)
  {
    hide TxtText, Walk, U16At;
    if pos + 10 <= |bytes| && pos + 10 + U16At(bytes, pos + 8) <= |bytes| {
      TextNotShort(bytes[pos + 10..pos + 10 + U16At(bytes, pos + 8)]);
    }
  }

  lemma {:induction false} AnswersNotShort(bytes: Bytes, pos: nat, n: nat, want: RecordType)
    ensures AllAnswers(bytes, pos, n, want) != Err(ShortHeader)
    decreases n
  {
    hide AnswerAt, Skip;
    if n > 0 && Skip(bytes, pos).Ok? {
      var p := Skip(bytes, pos).value;
      AnswerNotShort(bytes, p, want);
      if AnswerAt(bytes, p, want).Ok? {
        AnswersNotShort(bytes, AnswerAt(bytes, p, want).value.1, n - 1, want);
      }
    }
  }
}
