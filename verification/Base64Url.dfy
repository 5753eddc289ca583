/** `base64url`: how a DNS query becomes the parameter of a DoH request (RFC 8484), against the strict
    unpadded decoder of section 5 of RFC 4648. */
module Base64Url {
  import opened Collections
  import opened DnsName
  import opened DnsMessage

  type sextet = n: nat | n < 64

  const UPPER := "ABCDEFGHIJKLMNOPQRSTUVWXYZ"
  const LOWER := "abcdefghijklmnopqrstuvwxyz"
  const DIGITS := "0123456789"
  const ALPHABET := UPPER + LOWER + DIGITS + "-_"

  function Letter(v: sextet): (c: char) {
    assert |ALPHABET| == 64;
    ALPHABET[v]
  }

  // ----- the decoder -----

  /** The value of a letter, by the ranges of table 2 of RFC 4648. */
  function Value(c: char): Option<sextet> {
    if 'A' <= c <= 'Z' then Some(c as int - 'A' as int)
    else if 'a' <= c <= 'z' then Some(c as int - 'a' as int + 26)
    else if '0' <= c <= '9' then Some(c as int - '0' as int + 52)
    else if c == '-' then Some(62)
    else if c == '_' then Some(63)
    else None
  }

  /** A last group holding two letters is one byte; its four spare bits must be zero. */
  function OneByte(u: sextet, v: sextet): Option<Bytes> {
    if v % 16 == 0 then Some([u * 4 + v / 16]) else None
  }

  /** A last group holding three letters is two bytes; its two spare bits must be zero. */
  function TwoBytes(u: sextet, v: sextet, w: sextet): Option<Bytes> {
    if w % 4 == 0 then Some([u * 4 + v / 16, v % 16 * 16 + w / 4]) else None
  }

  function ThreeBytes(u: sextet, v: sextet, w: sextet, x: sextet): Bytes {
    [u * 4 + v / 16, v % 16 * 16 + w / 4, w % 4 * 64 + x]
  }

  function Values(s: string): Option<seq<sextet>> {
    if s == [] then Some([])
    else
      var rest := Values(s[1..]);
      if Value(s[0]).Some? && rest.Some? then Some([Value(s[0]).value] + rest.value) else None
  }

  function Group(v: seq<sextet>): Option<Bytes> {
    if |v| == 0 then Some([])
    else if |v| == 1 then None
    else if |v| == 2 then OneByte(v[0], v[1])
    else if |v| == 3 then TwoBytes(v[0], v[1], v[2])
    else
      var rest := Group(v[4..]);
      if rest.Some? then Some(ThreeBytes(v[0], v[1], v[2], v[3]) + rest.value) else None
  }

  function Decode(s: string): Option<Bytes> {
    var v := Values(s);
    if v.Some? then Group(v.value) else None
  }

  // ----- the encoder -----

  /** The letters of a chunk of at most three bytes; absent bytes count as zero. */
  function EncodeChunk(chunk: Bytes): (s: string)
    requires 1 <= |chunk| <= 3
    ensures |s| == |chunk| + 1
  {
    var b0, b1, b2 := At0(chunk, 0), At0(chunk, 1), At0(chunk, 2);
    [Letter(b0 / 4), Letter(b0 % 4 * 16 + b1 / 16)]
    + (if |chunk| > 1 then [Letter(b1 % 16 * 4 + b2 / 64)] else [])
    + if |chunk| > 2 then [Letter(b2 % 64)] else []
  }

  function At0(chunk: Bytes, i: nat): byte {
    if i < |chunk| then chunk[i] else 0
  }

  function Encode(bytes: Bytes): string {
    if bytes == [] then []
    else if |bytes| <= 3 then EncodeChunk(bytes)
    else EncodeChunk(bytes[..3]) + Encode(bytes[3..])
  }

  method PushChunk(before: string, chunk: Bytes) returns (out: string)
    requires 1 <= |chunk| <= 3
    ensures out == before + EncodeChunk(chunk)
  {
    hide Letter;
    var b0, b1, b2 := chunk[0], At0(chunk, 1), At0(chunk, 2);
    out := before + [Letter(b0 / 4)];
    out := out + [Letter(b0 % 4 * 16 + b1 / 16)];
    if |chunk| > 1 {
      out := out + [Letter(b1 % 16 * 4 + b2 / 64)];
    }
    if |chunk| > 2 {
      out := out + [Letter(b2 % 64)];
    }
  }

  method EncodeBase64Url(bytes: Bytes) returns (out: string)
    ensures out == Encode(bytes)
  {
    hide EncodeChunk;
    out := [];
    var i := 0;
    assert bytes[0..] == bytes;
    while i < |bytes|
      invariant i <= |bytes|
      invariant Encode(bytes) == out + Encode(bytes[i..])
    {
      var end := if i + 3 <= |bytes| then i + 3 else |bytes|;
      var chunk := bytes[i..end];
      EncodeStep(bytes[i..], chunk, bytes[end..]);
      out := PushChunk(out, chunk);
      i := end;
    }
  }

  /** The encoding of what is left is its first chunk's, then the rest's. */
  lemma EncodeStep(left: Bytes, chunk: Bytes, rest: Bytes)
    requires left == chunk + rest && 1 <= |chunk| <= 3 && (|chunk| == 3 || rest == [])
    ensures Encode(left) == EncodeChunk(chunk) + Encode(rest)
  {
    hide EncodeChunk;
    if rest == [] {
      assert left == chunk;
    } else {
      assert left[..3] == chunk && left[3..] == rest;
    }
  }

  // ----- properties -----

  /** The table and the ranges agree, in both directions. */
  lemma LetterValue(v: sextet)
    ensures Value(Letter(v)) == Some(v)
  {
    hide ALPHABET;
    LetterRanges(v);
  }

  lemma LetterRanges(v: sextet)
    ensures Letter(v) as int ==
      if v < 26 then 'A' as int + v
      else if v < 52 then 'a' as int + (v - 26)
      else if v < 62 then '0' as int + (v - 52)
      else if v == 62 then '-' as int
      else '_' as int
  {
    UpperRange(v);
    if 26 <= v {
      LowerRange(v - 26);
    }
  }

  lemma UpperRange(d: sextet)
    ensures d < 26 ==> UPPER[d] as int == 'A' as int + d
  {
  }

  lemma LowerRange(d: sextet)
    ensures d < 26 ==> LOWER[d] as int == 'a' as int + d
  {
  }

  lemma ValueLetter(c: char)
    requires Value(c).Some?
    ensures Letter(Value(c).value) == c
  {
    LetterValue(Value(c).value);
  }

  function Letters(v: seq<sextet>): (s: string)
    ensures |s| == |v|
  {
    if v == [] then [] else [Letter(v[0])] + Letters(v[1..])
  }

  lemma ValuesOfLetters(v: seq<sextet>)
    ensures Values(Letters(v)) == Some(v)
  {
    hide Letter, Value;
    if v != [] {
      LetterValue(v[0]);
      ValuesOfLetters(v[1..]);
      assert Letters(v)[1..] == Letters(v[1..]) && [v[0]] + v[1..] == v;
    }
  }

  lemma LettersOfValues(s: string)
    requires Values(s).Some?
    ensures Letters(Values(s).value) == s
  {
    hide Letter, Value;
    if s != [] {
      ValueLetter(s[0]);
      LettersOfValues(s[1..]);
    }
  }

  lemma LettersAppend(a: seq<sextet>, b: seq<sextet>)
    ensures Letters(a + b) == Letters(a) + Letters(b)
  {
    hide Letter;
    if a == [] {
      assert a + b == b;
    } else {
      assert (a + b)[1..] == a[1..] + b;
      LettersAppend(a[1..], b);
    }
  }

  /** The sextets of a chunk. */
  function Sextets(chunk: Bytes): (v: seq<sextet>)
    requires 1 <= |chunk| <= 3
    ensures |v| == |chunk| + 1
  {
    var b0, b1, b2 := At0(chunk, 0), At0(chunk, 1), At0(chunk, 2);
    [b0 / 4, b0 % 4 * 16 + b1 / 16]
    + (if |chunk| > 1 then [b1 % 16 * 4 + b2 / 64] else [])
    + if |chunk| > 2 then [b2 % 64] else []
  }

  lemma ChunkLetters(chunk: Bytes)
    requires 1 <= |chunk| <= 3
    ensures EncodeChunk(chunk) == Letters(Sextets(chunk))
  {
    hide Letter;
    var v := Sextets(chunk);
    var b0, b1, b2 := At0(chunk, 0), At0(chunk, 1), At0(chunk, 2);
    assert EncodeChunk(chunk)[..2] == [Letter(v[0]), Letter(v[1])];
    assert v[1..] == [v[1]] + v[2..];
    assert Letters(v) == [Letter(v[0]), Letter(v[1])] + Letters(v[2..]);
    if |chunk| > 1 {
      assert Letters(v[2..]) == [Letter(v[2])] + Letters(v[3..]) by { assert v[2..][1..] == v[3..]; }
    }
    if |chunk| > 2 {
      assert v[3..] == [v[3]];
    }
  }

  /** Two numbers packed into one come apart again. */
  lemma Packed(high: nat, low: nat, size: nat)
    requires low < size && (size == 4 || size == 16 || size == 64)
    ensures (high * size + low) / size == high && (high * size + low) % size == low
  {
  }

  lemma OneByteBack(b0: byte)
    ensures OneByte(b0 / 4, b0 % 4 * 16) == Some([b0])
  {
  }

  lemma TwoBytesBack(b0: byte, b1: byte)
    ensures TwoBytes(b0 / 4, b0 % 4 * 16 + b1 / 16, b1 % 16 * 4) == Some([b0, b1])
  {
    Packed(b0 % 4, b1 / 16, 16);
    Packed(b1 % 16, 0, 4);
  }

  lemma ThreeBytesBack(b0: byte, b1: byte, b2: byte)
    ensures ThreeBytes(b0 / 4, b0 % 4 * 16 + b1 / 16, b1 % 16 * 4 + b2 / 64, b2 % 64) == [b0, b1, b2]
  {
  }

  lemma SextetsAt(chunk: Bytes)
    requires 1 <= |chunk| <= 3
    ensures var v, b0, b1, b2 := Sextets(chunk), At0(chunk, 0), At0(chunk, 1), At0(chunk, 2);
      && v[0] == b0 / 4 && v[1] == b0 % 4 * 16 + b1 / 16
      && (|chunk| > 1 ==> v[2] == b1 % 16 * 4 + b2 / 64) && (|chunk| > 2 ==> v[3] == b2 % 64)
  {
  }

  /** Every group of sextets an encoder produces decodes to its chunk, whatever follows a full one. */
  lemma GroupOfChunk(chunk: Bytes, rest: seq<sextet>)
    requires 1 <= |chunk| <= 3 && (|chunk| == 3 || rest == [])
    ensures Group(Sextets(chunk) + rest)
         == if Group(rest).Some? then Some(chunk + Group(rest).value) else None
  {
    hide OneByte, TwoBytes, ThreeBytes;
    var v := Sextets(chunk);
    SextetsAt(chunk);
    hide Sextets;
    if |chunk| == 1 {
      OneByteBack(chunk[0]);
      assert v + rest == v && chunk == [chunk[0]] && chunk + [] == chunk;
    } else if |chunk| == 2 {
      TwoBytesBack(chunk[0], chunk[1]);
      assert v + rest == v && chunk == [chunk[0], chunk[1]] && chunk + [] == chunk;
    } else {
      ThreeBytesBack(chunk[0], chunk[1], chunk[2]);
      assert (v + rest)[4..] == rest && chunk == [chunk[0], chunk[1], chunk[2]];
    }
  }

  function AllSextets(bytes: Bytes): seq<sextet> {
    if bytes == [] then []
    else if |bytes| <= 3 then Sextets(bytes)
    else Sextets(bytes[..3]) + AllSextets(bytes[3..])
  }

  lemma EncodeIsLetters(bytes: Bytes)
    ensures Encode(bytes) == Letters(AllSextets(bytes))
  {
    hide Letters, Sextets, EncodeChunk;
    if bytes == [] {
      assert Letters([]) == [];
    } else if |bytes| <= 3 {
      ChunkLetters(bytes);
    } else {
      ChunkLetters(bytes[..3]);
      EncodeIsLetters(bytes[3..]);
      LettersAppend(Sextets(bytes[..3]), AllSextets(bytes[3..]));
    }
  }

  lemma GroupOfSextets(bytes: Bytes)
    ensures Group(AllSextets(bytes)) == Some(bytes)
  {
    assert Group([]) == Some([]);
    hide Sextets, Group;
    if bytes == [] {
    } else if |bytes| <= 3 {
      GroupOfChunk(bytes, []);
      assert Sextets(bytes) + [] == Sextets(bytes);
      assert bytes + [] == bytes;
    } else {
      GroupOfSextets(bytes[3..]);
      GroupOfChunk(bytes[..3], AllSextets(bytes[3..]));
      assert bytes[..3] + bytes[3..] == bytes;
    }
  }

  /** Decoding undoes encoding, for every byte string. */
  lemma RoundTrip(bytes: Bytes)
    ensures Decode(Encode(bytes)) == Some(bytes)
  {
    hide Encode, Values, Group, AllSextets;
    EncodeIsLetters(bytes);
    ValuesOfLetters(AllSextets(bytes));
    GroupOfSextets(bytes);
  }

  lemma {:induction false} SizeOfSextets(bytes: Bytes)
    ensures |AllSextets(bytes)| == (4 * |bytes| + 2) / 3
  {
    if |bytes| > 3 {
      SizeOfSextets(bytes[3..]);
    }
  }

  /** No padding: four letters for every three bytes, rounded up; and nothing outside the alphabet. */
  lemma Length(bytes: Bytes)
    ensures |Encode(bytes)| == (4 * |bytes| + 2) / 3
    ensures forall c :: c in Encode(bytes) ==> Value(c).Some?
  {
    hide Encode, Letter, Value;
    EncodeIsLetters(bytes);
    SizeOfSextets(bytes);
    ValuesOfLetters(AllSextets(bytes));
    AllHaveValues(Encode(bytes));
  }

  lemma {:induction false} AllHaveValues(s: string)
    requires Values(s).Some?
    ensures forall c :: c in s ==> Value(c).Some?
  {
    if s != [] {
      AllHaveValues(s[1..]);
      assert forall c :: c in s <==> c == s[0] || c in s[1..];
    }
  }

  // ----- the decoder accepts nothing else -----

  /** A group that decodes is the sextets of what it decodes to. */
  lemma SextetsOfGroup(v: seq<sextet>)
    requires Group(v).Some?
    ensures AllSextets(Group(v).value) == v
  {
    hide Sextets;
    if |v| == 2 {
      OneByteForth(v[0], v[1]);
    } else if |v| == 3 {
      TwoBytesForth(v[0], v[1], v[2]);
    } else if |v| >= 4 {
      var chunk := ThreeBytes(v[0], v[1], v[2], v[3]);
      var rest := Group(v[4..]).value;
      SextetsOfGroup(v[4..]);
      ThreeBytesForth(v[0], v[1], v[2], v[3]);
      AllSextetsStep(chunk, rest);
      assert v == [v[0], v[1], v[2], v[3]] + v[4..];
    }
  }

  lemma AllSextetsStep(chunk: Bytes, rest: Bytes)
    requires |chunk| == 3
    ensures AllSextets(chunk + rest) == Sextets(chunk) + AllSextets(rest)
  {
  }

  lemma OneByteForth(u: sextet, v: sextet)
    requires OneByte(u, v).Some?
    ensures Sextets(OneByte(u, v).value) == [u, v]
  {
  }

  lemma TwoBytesForth(u: sextet, v: sextet, w: sextet)
    requires TwoBytes(u, v, w).Some?
    ensures Sextets(TwoBytes(u, v, w).value) == [u, v, w]
  {
    Packed(u, v / 16, 4);
    Packed(v % 16, w / 4, 16);
    SextetsAt(TwoBytes(u, v, w).value);
    hide Sextets;
  }

  lemma ThreeBytesForth(u: sextet, v: sextet, w: sextet, x: sextet)
    ensures Sextets(ThreeBytes(u, v, w, x)) == [u, v, w, x]
  {
  }

  /** The decoder accepts exactly the encoder's output. */
  lemma DecodesOnlyEncodings(s: string)
    requires Decode(s).Some?
    ensures Encode(Decode(s).value) == s
  {
    hide Encode, Values, Group, AllSextets;
    var v := Values(s).value;
    SextetsOfGroup(v);
    EncodeIsLetters(Group(v).value);
    LettersOfValues(s);
  }

  /** The DoH parameter carries the query: it decodes to the exact message, and two lookups share a
      parameter only when they ask for the same stripped name and type. */
  lemma DohParameter(host: Bytes, rt: RecordType, host': Bytes, rt': RecordType)
    requires Query(host, rt).Ok? && Query(host', rt').Ok?
    ensures Decode(Encode(Query(host, rt).value)) == Some(Query(host, rt).value)
    ensures Encode(Query(host, rt).value) == Encode(Query(host', rt').value)
        <==> StripDot(host) == StripDot(host') && rt == rt'
  {
    hide Encode, Decode;
    var q, q' := Query(host, rt), Query(host', rt');
    RoundTrip(q.value);
    RoundTrip(q'.value);
    if Encode(q.value) == Encode(q'.value) {
      assert q == q';
      QueryInjective(host, rt, host', rt');
    }
  }

  /** Test vectors of section 10 of RFC 4648, without their padding: "f", "fo", "foo" and "foobar". */
  lemma TestVectors()
    ensures Encode([102]) == "Zg" && Encode([102, 111]) == "Zm8" && Encode([102, 111, 111]) == "Zm9v"
    ensures Encode([102, 111, 111, 98, 97, 114]) == "Zm9vYmFy"
  {
    hide EncodeChunk;
    ChunkVectors();
    assert [102, 111, 111, 98, 97, 114][..3] == [102, 111, 111];
    assert [102, 111, 111, 98, 97, 114][3..] == [98, 97, 114];
  }

  lemma ChunkVectors()
    ensures EncodeChunk([102]) == "Zg" && EncodeChunk([102, 111]) == "Zm8" && EncodeChunk([102, 111, 111]) == "Zm9v"
    ensures EncodeChunk([98, 97, 114]) == "YmFy"
  {
    hide Letter;
    LetterRanges(25);
    LetterRanges(32);
    LetterRanges(38);
    LetterRanges(60);
    LetterRanges(61);
    LetterRanges(47);
    LetterRanges(24);
    LetterRanges(5);
    LetterRanges(50);
  }
}
