/** Splitting, joining, printing and parsing, as the standard library does them on ASCII text. */
module Text {
  import opened Collections

  // ----- split and join -----

  /** `split(c)`: the pieces between the separators, empty ones included. */
  function Split<T(!new,==)>(s: seq<T>, c: T): (r: seq<seq<T>>)
    ensures |r| >= 1
  {
    if s == [] then [[]]
    else
      var rest := Split(s[1..], c);
      if s[0] == c then [[]] + rest else [[s[0]] + rest[0]] + rest[1..]
  }

  function Join<T(!new)>(parts: seq<seq<T>>, c: T): seq<T> {
    if parts == [] then []
    else if |parts| == 1 then parts[0]
    else parts[0] + [c] + Join(parts[1..], c)
  }

  lemma JoinCons<T(!new)>(head: seq<T>, tail: seq<seq<T>>, c: T)
    requires tail != []
    ensures Join([head] + tail, c) == head + [c] + Join(tail, c)
  {
    assert ([head] + tail)[1..] == tail;
  }

  /** One more element in front of the first part. */
  lemma JoinPrepend<T(!new)>(x: T, parts: seq<seq<T>>, c: T)
    requires parts != []
    ensures Join([[x] + parts[0]] + parts[1..], c) == [x] + Join(parts, c)
  {
    hide Join;
    var first, rest := parts[0], parts[1..];
    assert parts == [first] + rest;
    if rest == [] {
      JoinOne(first, c);
      JoinOne([x] + first, c);
      assert [[x] + first] + rest == [[x] + first] && parts == [first];
    } else {
      JoinCons(first, rest, c);
      JoinCons([x] + first, rest, c);
    }
  }

  lemma {:induction false} JoinSplit<T(!new)>(s: seq<T>, c: T)
    ensures Join(Split(s, c), c) == s
    ensures forall p :: p in Split(s, c) ==> c !in p
  {
    hide Join;
    if s == [] {
      JoinOne<T>([], c);
    } else {
      JoinSplit(s[1..], c);
      if s[0] == c {
        JoinCons([], Split(s[1..], c), c);
      } else {
        JoinPrepend(s[0], Split(s[1..], c), c);
      }
    }
  }

  lemma JoinOne<T(!new)>(p: seq<T>, c: T)
    ensures Join([p], c) == p
  {
  }

  /** A piece without the separator is split off whole. */
  lemma {:induction false} SplitPiece<T(!new)>(a: seq<T>, b: seq<T>, c: T)
    requires c !in a
    ensures Split(a, c) == [a]
    ensures Split(a + [c] + b, c) == [a] + Split(b, c)
  {
    if a == [] {
      assert (a + [c] + b)[1..] == b;
    } else {
      SplitPiece(a[1..], b, c);
      assert (a + [c] + b)[1..] == a[1..] + [c] + b;
      assert [a[0]] + a[1..] == a;
      assert [[a[0]] + a[1..]] + Split(b, c) == [a] + Split(b, c);
    }
  }

  /** Position of the first `c`, or the length when there is none. */
  function IndexOf<T(!new,==)>(s: seq<T>, c: T): (i: nat)
    ensures i <= |s| && c !in s[..i]
    ensures i < |s| ==> s[i] == c
    ensures i == |s| <==> c !in s
  {
    if s == [] then 0
    else if s[0] == c then 0
    else
      var i := 1 + IndexOf(s[1..], c);
      assert s[..i] == [s[0]] + s[1..][..i - 1];
      i
  }

  /** `split_once(c)`: around the first separator. */
  function SplitOnce<T(!new,==)>(s: seq<T>, c: T): (r: Option<(seq<T>, seq<T>)>)
    ensures r.Some? ==> s == r.value.0 + [c] + r.value.1 && c !in r.value.0
    ensures r.None? <==> c !in s
  {
    var i := IndexOf(s, c);
    if i == |s| then None else Some((s[..i], s[i + 1..]))
  }

  /** What stands at `k` when `a` and `b` are joined by `c`. */
  lemma AtJoint<T(!new)>(a: seq<T>, b: seq<T>, c: T, k: nat)
    requires k <= |a| + |b|
    ensures var s := a + [c] + b;
      (k < |a| ==> s[k] in a) && (k == |a| ==> s[k] == c) && (k > |a| ==> s[k] in b)
  {
  }

  lemma SplitOnceAt<T(!new)>(a: seq<T>, b: seq<T>, c: T)
    requires c !in a
    ensures SplitOnce(a + [c] + b, c) == Some((a, b))
  {
    var s := a + [c] + b;
    var i := IndexOf(s, c);
    assert s[|a|] == c;
    AtJoint(a, b, c, i);
    AtJoint(s[..i], s[i + 1..], c, |a|);
    assert s == s[..i] + [c] + s[i + 1..];
    assert s[..|a|] == a && s[|a| + 1..] == b;
  }

  // ----- decimal numbers -----

  predicate IsDigit(c: char) { '0' <= c <= '9' }

  predicate AllDigits(s: string) {
    forall i :: 0 <= i < |s| ==> IsDigit(s[i])
  }

  function DigitChar(d: nat): (c: char)
    requires d < 10
    ensures IsDigit(c)
  {
    '0' + d as char
  }

  function DigitValue(c: char): (d: nat)
    requires IsDigit(c)
    ensures d < 10
  {
    c as int - '0' as int
  }

  function Digits(n: nat): (s: string)
    ensures s != [] && AllDigits(s)
  {
    if n < 10 then [DigitChar(n)] else Digits(n / 10) + [DigitChar(n % 10)]
  }

  function NatOf(s: string): nat
    requires AllDigits(s)
  {
    if s == [] then 0 else NatOf(s[..|s| - 1]) * 10 + DigitValue(s[|s| - 1])
  }

  function Zeros(k: nat): (s: string)
    ensures |s| == k && AllDigits(s)
  {
    seq(k, i => '0')
  }

  /** `{n:0width}`. */
  function Padded(n: nat, width: nat): (s: string)
    ensures s != [] && AllDigits(s)
  {
    var s := Digits(n);
    if |s| >= width then s else Zeros(width - |s|) + s
  }

  lemma {:induction false} NatOfDigits(n: nat)
    ensures NatOf(Digits(n)) == n
  {
    if n >= 10 {
      NatOfDigits(n / 10);
      var s := Digits(n);
      assert s[..|s| - 1] == Digits(n / 10);
    }
  }

  lemma NatOfZeros(k: nat, s: string)
    requires AllDigits(s)
    ensures NatOf(Zeros(k) + s) == NatOf(s)
  {
    if s == [] {
      assert Zeros(k) + s == Zeros(k);
      if k > 0 {
        assert Zeros(k)[..k - 1] == Zeros(k - 1);
        NatOfZeros(k - 1, s);
        assert Zeros(k - 1) + s == Zeros(k - 1);
      }
    } else {
      var t := Zeros(k) + s;
      assert t[..|t| - 1] == Zeros(k) + s[..|s| - 1];
      NatOfZeros(k, s[..|s| - 1]);
    }
  }

  lemma NatOfPadded(n: nat, width: nat)
    ensures NatOf(Padded(n, width)) == n
  {
    NatOfDigits(n);
    NatOfZeros(if |Digits(n)| >= width then 0 else width - |Digits(n)|, Digits(n));
  }

  function Power10(k: nat): (r: nat)
    ensures r >= 1
  {
    if k == 0 then 1 else 10 * Power10(k - 1)
  }

  lemma {:induction false} DigitsLength(n: nat, k: nat)
    requires k >= 1
    ensures |Digits(n)| <= k <==> n < Power10(k)
  {
    if k == 1 {
      assert Power10(1) == 10 * Power10(0);
    } else if n >= 10 {
      DigitsLength(n / 10, k - 1);
    }
  }

  lemma {:induction false} NatOfBound(s: string)
    requires AllDigits(s)
    ensures NatOf(s) < Power10(|s|)
  {
    if s != [] {
      NatOfBound(s[..|s| - 1]);
    }
  }

  /** `str::parse::<i64>`: an optional sign and at least one digit, in range. */
  function ParseI64(s: string): (r: Option<int>) {
    var negative := s != [] && s[0] == '-';
    var digits := if s != [] && (s[0] == '-' || s[0] == '+') then s[1..] else s;
    if digits == [] || !AllDigits(digits) then None
    else
      var n: int := NatOf(digits);
      if negative then (if n <= 0x8000_0000_0000_0000 then Some(-n) else None)
      else if n < 0x8000_0000_0000_0000 then Some(n) else None
  }

  /** `str::parse::<u16>`: an optional `+` and at least one digit, in range. */
  function ParseU16(s: string): (r: Option<nat>)
    ensures r.Some? ==> r.value < 0x1_0000
  {
    var digits := if s != [] && s[0] == '+' then s[1..] else s;
    if digits == [] || !AllDigits(digits) || NatOf(digits) >= 0x1_0000 then None else Some(NatOf(digits))
  }

  lemma ParsePadded(n: nat, width: nat)
    requires n < 0x8000_0000_0000_0000
    ensures ParseI64(Padded(n, width)) == Some(n)
  {
    NatOfPadded(n, width);
  }

  lemma ParsePrintedPort(n: nat)
    requires n < 0x1_0000
    ensures ParseU16(Digits(n)) == Some(n)
  {
    NatOfDigits(n);
  }

  /** Signs, and the numbers just out of range. */
  lemma SignedParses(n: nat)
    ensures ParseI64(Digits(n)) == (if n < 0x8000_0000_0000_0000 then Some(n) else None)
    ensures ParseI64("-" + Digits(n)).Some? <==> n <= 0x8000_0000_0000_0000
    ensures ParseI64("-" + Digits(n)).Some? ==> ParseI64("-" + Digits(n)).value + n == 0
  {
    hide Digits, NatOf;
    NatOfDigits(n);
    assert ("-" + Digits(n))[1..] == Digits(n);
    assert IsDigit(Digits(n)[0]);
  }

  lemma PortParses(n: nat)
    ensures ParseU16(Digits(n)) == (if n <= 65535 then Some(n) else None)
    ensures ParseU16("+" + Digits(n)) == (if n <= 65535 then Some(n) else None)
  {
    hide Digits, NatOf;
    NatOfDigits(n);
    assert ("+" + Digits(n))[1..] == Digits(n);
    assert IsDigit(Digits(n)[0]);
  }
}
