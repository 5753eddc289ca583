/** DNS messages: building a one-question query and parsing a response (section 4.1 of RFC 1035). */
module DnsMessage {
  import opened Collections
  import opened Text
  import opened DnsName

  datatype RecordType = A | Aaaa | Cname | Mx | Txt | Ns | Soa | Caa | Srv | Ptr

  function TypeCode(t: RecordType): (r: nat)
    ensures r < 0x1_0000
  {
    match t
    case A => 1
    case Aaaa => 28
    case Cname => 5
    case Mx => 15
    case Txt => 16
    case Ns => 2
    case Soa => 6
    case Caa => 257
    case Srv => 33
    case Ptr => 12
  }

  lemma TypeCodesDiffer(s: RecordType, t: RecordType)
    ensures TypeCode(s) == TypeCode(t) <==> s == t
  {
  }

  // ----- bytes in place -----

  /** `chunk` stands in the message at `pos`. */
  predicate At(bytes: Bytes, pos: nat, chunk: Bytes) {
    pos + |chunk| <= |bytes| && bytes[pos..pos + |chunk|] == chunk
  }

  lemma AtParts(bytes: Bytes, pos: nat, a: Bytes, b: Bytes)
    ensures At(bytes, pos, a + b) <==> At(bytes, pos, a) && At(bytes, pos + |a|, b)
  {
    if At(bytes, pos, a + b) {
      var s := bytes[pos..pos + |a + b|];
      assert s[..|a|] == a && s[|a|..] == b;
      assert bytes[pos..pos + |a|] == s[..|a|];
      assert bytes[pos + |a|..pos + |a| + |b|] == s[|a|..];
    }
    if At(bytes, pos, a) && At(bytes, pos + |a|, b) {
      assert bytes[pos..pos + |a + b|] == bytes[pos..pos + |a|] + bytes[pos + |a|..pos + |a| + |b|];
    }
  }

  function U16(n: nat): (r: Bytes)
    requires n < 0x1_0000
    ensures |r| == 2
  {
    [n / 256, n % 256]
  }

  function U32(n: nat): (r: Bytes)
    requires n < 0x1_0000_0000
    ensures |r| == 4
  {
    U16(n / 0x1_0000) + U16(n % 0x1_0000)
  }

  function U16At(bytes: Bytes, pos: nat): (r: nat)
    requires pos + 2 <= |bytes|
    ensures r < 0x1_0000
  {
    var high: nat, low: nat := bytes[pos], bytes[pos + 1];
    high * 256 + low
  }

  function U32At(bytes: Bytes, pos: nat): (r: nat)
    requires pos + 4 <= |bytes|
    ensures r < 0x1_0000_0000
  {
    U16At(bytes, pos) * 0x1_0000 + U16At(bytes, pos + 2)
  }

  lemma ReadU16(bytes: Bytes, pos: nat, n: nat)
    requires n < 0x1_0000 && At(bytes, pos, U16(n))
    ensures U16At(bytes, pos) == n
  {
  }

  lemma ReadU32(bytes: Bytes, pos: nat, n: nat)
    requires n < 0x1_0000_0000 && At(bytes, pos, U32(n))
    ensures U32At(bytes, pos) == n
  {
  }

  // ----- build_query -----

  predicate ValidLabels(labels: seq<Bytes>) {
    forall l :: l in labels ==> 1 <= |l| <= 63
  }

  function EncodeLabels(labels: seq<Bytes>): (r: Bytes)
    requires ValidLabels(labels)
    ensures |r| == WireLength(labels)
  {
    if labels == [] then []
    else
      assert labels[0] in labels;
      assert forall l :: l in labels[1..] ==> l in labels;
      var len: byte := |labels[0]|;
      [len] + labels[0] + EncodeLabels(labels[1..])
  }

  lemma EncodeLabelsAppend(a: seq<Bytes>, b: seq<Bytes>)
    requires ValidLabels(a) && ValidLabels(b)
    ensures ValidLabels(a + b)
    ensures EncodeLabels(a + b) == EncodeLabels(a) + EncodeLabels(b)
  {
    assert forall l :: l in a + b <==> l in a || l in b;
    hide WireLength;
    if a == [] {
      assert a + b == b;
    } else {
      assert (a + b)[1..] == a[1..] + b;
      assert forall l :: l in a[1..] ==> l in a;
      EncodeLabelsAppend(a[1..], b);
    }
  }

  lemma EncodeOneLabel(own: Bytes)
    requires 1 <= |own| <= 63
    ensures EncodeLabels([own]) == [|own|] + own
  {
  }

  /** One trailing root dot is dropped. */
  function StripDot(host: Bytes): Bytes {
    if host != [] && host[|host| - 1] == DOT then host[..|host| - 1] else host
  }

  const QUERY_HEADER: Bytes := [0, 0, 1, 0, 0, 1, 0, 0, 0, 0, 0, 0]

  datatype QueryError = InvalidLabel

  function Query(host: Bytes, rt: RecordType): Result<Bytes, QueryError> {
    var labels := Split(StripDot(host), DOT);
    if ValidLabels(labels) then
      Ok(QUERY_HEADER + EncodeLabels(labels) + [0] + U16(TypeCode(rt)) + U16(1))
    else Err(InvalidLabel)
  }

  method BuildQuery(host: Bytes, rt: RecordType) returns (r: Result<Bytes, QueryError>)
    ensures r == Query(host, rt)
  {
    hide EncodeLabels, Split, TypeCode;
    var out := QUERY_HEADER;
    var labels := Split(StripDot(host), DOT);
    for i := 0 to |labels|
      invariant ValidLabels(labels[..i])
      invariant out == QUERY_HEADER + EncodeLabels(labels[..i])
    {
      var own := labels[i];
      assert own in labels;
      if own == [] || |own| > 63 {
        return Err(InvalidLabel);
      }
      assert labels[..i + 1] == labels[..i] + [own];
      EncodeLabelsAppend(labels[..i], [own]);
      EncodeOneLabel(own);
      out := out + [|own|] + own;
    }
    assert labels[..|labels|] == labels;
    out := out + [0];
    out := out + U16(TypeCode(rt));
    out := out + U16(1);
    r := Ok(out);
  }

  // ----- decoding what was encoded -----

  lemma WalkOneLabel(bytes: Bytes, pos: nat, own: Bytes, hops: nat)
    requires hops <= MAX_HOPS && 1 <= |own| <= 63
    requires var len: byte := |own|; At(bytes, pos, [len] + own)
    ensures Walk(bytes, pos, hops) == Prefixed([own], None, Walk(bytes, pos + 1 + |own|, hops))
  {
    var len: byte := |own|;
    AtParts(bytes, pos, [len], own);
    assert bytes[pos..pos + 1][0] == bytes[pos];
  }

  /** Plain labels in place are read one by one. */
  lemma {:induction false} WalkLabels(bytes: Bytes, pos: nat, labels: seq<Bytes>, hops: nat)
    requires hops <= MAX_HOPS && ValidLabels(labels) && At(bytes, pos, EncodeLabels(labels))
    ensures Walk(bytes, pos, hops) == Prefixed(labels, None, Walk(bytes, pos + WireLength(labels), hops))
    decreases |labels|
  {
    hide Walk, At, Prefixed;
    if labels == [] {
      PrefixedNothing(Walk(bytes, pos, hops));
    } else {
      var own, rest := labels[0], labels[1..];
      assert own in labels && forall l :: l in rest ==> l in labels;
      var len: byte := |own|;
      assert EncodeLabels(labels) == [len] + own + EncodeLabels(rest);
      AtParts(bytes, pos, [len] + own, EncodeLabels(rest));
      WalkOneLabel(bytes, pos, own, hops);
      WalkLabels(bytes, pos + 1 + |own|, rest, hops);
      PrefixedChain(own, rest, Walk(bytes, pos + WireLength(labels), hops));
      assert labels == [own] + rest;
    }
  }

  lemma PrefixedChain(own: Bytes, rest: seq<Bytes>, w: Result<Name, NameError>)
    ensures Prefixed([own], None, Prefixed(rest, None, w)) == Prefixed([own] + rest, None, w)
  {
    if w.Ok? {
      assert [own] + (rest + w.value.labels) == [own] + rest + w.value.labels;
    }
  }

  lemma WalkRoot(bytes: Bytes, pos: nat, hops: nat)
    requires hops <= MAX_HOPS && At(bytes, pos, [0])
    ensures Walk(bytes, pos, hops) == Ok(Name([], pos + 1))
  {
  }

  /** Labels closed by the root label. */
  lemma WalkPlainName(bytes: Bytes, pos: nat, labels: seq<Bytes>, hops: nat)
    requires hops <= MAX_HOPS && ValidLabels(labels) && At(bytes, pos, EncodeLabels(labels) + [0])
    ensures Walk(bytes, pos, hops) == Ok(Name(labels, pos + WireLength(labels) + 1))
  {
    hide EncodeLabels, Walk, At;
    AtParts(bytes, pos, EncodeLabels(labels), [0]);
    WalkLabels(bytes, pos, labels, hops);
    WalkRoot(bytes, pos + WireLength(labels), hops);
    assert labels + [] == labels;
  }

  /** Every query decodes to its own host, minus one trailing dot; the name ends four bytes before the
      message, whose length is the name's plus 18. */
  lemma QueryRoundTrip(host: Bytes, rt: RecordType)
    requires Query(host, rt).Ok?
    ensures var q := Query(host, rt).value;
      && |q| == |StripDot(host)| + 18
      && Walk(q, 12, 0).Ok?
      && Dotted(Walk(q, 12, 0).value.labels) == StripDot(host)
      && Walk(q, 12, 0).value.end == |q| - 4
      && U16At(q, |q| - 4) == TypeCode(rt) && U16At(q, |q| - 2) == 1
  {
    hide EncodeLabels, Split, Join, Walk, TypeCode, U16At;
    var name := StripDot(host);
    var labels, q := Split(name, DOT), Query(host, rt).value;
    var code, net := U16(TypeCode(rt)), U16(1);
    var body := EncodeLabels(labels) + [0];
    assert q == QUERY_HEADER + body + code + net;
    assert At(q, 12, body) && At(q, |q| - 4, code) && At(q, |q| - 2, net);
    WalkPlainName(q, 12, labels, 0);
    JoinSplit(name, DOT);
    DottedLength(labels);
    ReadU16(q, |q| - 4, TypeCode(rt));
    ReadU16(q, |q| - 2, 1);
  }

  /** Two queries are equal only for the same stripped name and the same type. */
  lemma QueryInjective(host: Bytes, rt: RecordType, host': Bytes, rt': RecordType)
    requires Query(host, rt).Ok? && Query(host, rt) == Query(host', rt')
    ensures StripDot(host) == StripDot(host') && rt == rt'
  {
    QueryRoundTrip(host, rt);
    QueryRoundTrip(host', rt');
    TypeCodesDiffer(rt, rt');
  }

  // ----- the bytes themselves -----

  /** A query asks one question with recursion desired, and ends in the number of its type and the Internet
      class, high byte first. */
  lemma QueryBytes(host: Bytes, rt: RecordType)
    requires Query(host, rt).Ok?
    ensures var q := Query(host, rt).value;
      && |q| >= 16 && q[..12] == [0, 0, 1, 0, 0, 1, 0, 0, 0, 0, 0, 0]
      && q[|q| - 4..] == match rt
        case A => [0, 1, 0, 1]
        case Ns => [0, 2, 0, 1]
        case Cname => [0, 5, 0, 1]
        case Soa => [0, 6, 0, 1]
        case Ptr => [0, 12, 0, 1]
        case Mx => [0, 15, 0, 1]
        case Txt => [0, 16, 0, 1]
        case Aaaa => [0, 28, 0, 1]
        case Srv => [0, 33, 0, 1]
        case Caa => [1, 1, 0, 1]
  {
    hide EncodeLabels, Split;
    var labels, q := Split(StripDot(host), DOT), Query(host, rt).value;
    var name := EncodeLabels(labels) + [0];
    assert q == QUERY_HEADER + name + U16(TypeCode(rt)) + U16(1);
    assert q[|q| - 4..] == U16(TypeCode(rt)) + U16(1);
  }

  /** A host is refused exactly when a label of it, one trailing dot aside, is empty or longer than 63 bytes;
      the trailing dot makes no other difference. */
  lemma QueryRefused(host: Bytes, rt: RecordType)
    requires host == [] || host[|host| - 1] != 46
    ensures Query(host, rt).Err? <==> exists l :: l in Split(host, 46) && (l == [] || |l| > 63)
    ensures Query(host + [46], rt) == Query(host, rt)
  {
    hide EncodeLabels, Split, StripDot;
    TrailingDot(host);
    var labels := Split(host, 46);
    assert ValidLabels(labels) <==> !exists l :: l in labels && (l == [] || |l| > 63);
    hide ValidLabels;
  }

  lemma TrailingDot(host: Bytes)
    requires host == [] || host[|host| - 1] != 46
    ensures StripDot(host) == host && StripDot(host + [46]) == host
  {
  }

  lemma EncodeTwo(a: Bytes, b: Bytes)
    requires 1 <= |a| <= 63 && 1 <= |b| <= 63
    ensures EncodeLabels([a, b]) == [|a|] + a + ([|b|] + b)
  {
    EncodeLabelsAppend([a], [b]);
    EncodeOneLabel(a);
    EncodeOneLabel(b);
    assert [a] + [b] == [a, b];
  }

  /** The address query for `a.b`. */
  lemma QueryExample()
    ensures Query([97, 46, 98], A) == Ok([0, 0, 1, 0, 0, 1, 0, 0, 0, 0, 0, 0, 1, 97, 1, 98, 0, 0, 1, 0, 1])
  {
    hide Split, EncodeLabels;
    SplitPiece([97], [98], DOT);
    SplitPiece([98], [], DOT);
    assert [97] + [DOT] + [98] == [97, 46, 98];
    assert [[97]] + [[98]] == [[97], [98]];
    EncodeTwo([97], [98]);
    assert EncodeLabels([[97], [98]]) == [1, 97, 1, 98];
    assert ValidLabels([[97], [98]]);
    assert Split([97, 46, 98], DOT) == [[97], [98]];
    assert U16(TypeCode(A)) == [0, 1] && U16(1) == [0, 1];
    var q: Bytes := QUERY_HEADER + [1, 97, 1, 98] + [0] + [0, 1] + [0, 1];
    assert q == [0, 0, 1, 0, 0, 1, 0, 0, 0, 0, 0, 0, 1, 97, 1, 98, 0, 0, 1, 0, 1];
    assert Query([97, 46, 98], A) == Ok(q);
  }
}
