/** The certificate clock: timestamps printed by `format_utc`, read back by the report and by the
    diagnostic engine. `now` is the current time in seconds since 1970. */
module Expiry {
  import opened Collections
  import opened CivilDate
  import opened Text

  const DAY: int := 86400
  const WINDOW_DAYS: int := 30

  /** 9999-12-31T23:59:59Z, the last instant with a four-digit year. */
  const LAST_FOUR_DIGIT: int := 253402300799

  function FormatDate(t: Date): string
    requires t.y >= 0 && t.m >= 0 && t.d >= 0
  {
    Padded(t.y, 4) + "-" + Padded(t.m, 2) + "-" + Padded(t.d, 2)
  }

  function FormatTime(secs: nat): string {
    Padded(secs / 3600, 2) + ":" + Padded(secs % 3600 / 60, 2) + ":" + Padded(secs % 60, 2)
  }

  function FormatUtc(ts: int): (r: Option<string>)
    ensures r.Some? <==> ts >= 0
  {
    if ts < 0 then None
    else
      var t := CivilFromDays(ts / DAY);
      PrintableDate(ts);
      Some(FormatDate(t) + "T" + FormatTime(ts % DAY) + "Z")
  }

  lemma PrintableDate(ts: int)
    requires ts >= 0
    ensures var t := CivilFromDays(ts / DAY); t.y >= 1970 && ValidDate(t)
  {
    hide CivilFromDays, DaysFromCivil;
    Epoch();
    DaysRoundTrip(ts / DAY);
    if ts / DAY > 0 {
      LaterDays(0, ts / DAY);
    }
  }

  /** `days_until_from_rfc3339`: whole days from today to the date in the first ten characters. */
  function DaysUntil(s: string, now: nat): Option<int> {
    if |s| < 10 then None
    else
      match (ParseI64(s[0..4]), ParseI64(s[5..7]), ParseI64(s[8..10]))
      case (Some(y), Some(m), Some(d)) => Some(DaysFromCivil(y, m, d) - now / DAY)
      case _ => None
  }

  /** The pieces that parse as numbers; the others are silently dropped. */
  function Fields(parts: seq<string>): seq<int> {
    if parts == [] then []
    else
      match ParseI64(parts[0])
      case Some(n) => [n] + Fields(parts[1..])
      case None => Fields(parts[1..])
  }

  /** `rfc3339_is_in_past`, at one-second granularity. */
  predicate IsInPast(s: string, now: nat) {
    && s != [] && s[|s| - 1] == 'Z'
    && (match SplitOnce(s[..|s| - 1], 'T')
        case None => false
        case Some((date, time)) =>
          var f := Fields(Split(date, '-') + Split(time, ':'));
          |f| == 6 && DaysFromCivil(f[0], f[1], f[2]) * DAY + f[3] * 3600 + f[4] * 60 + f[5] <= now)
  }

  // ----- the two readers -----

  /** The lifetime note of `render_cert`. */
  datatype Note = NoNote | ExpiredNote | TodayNote | DaysNote(days: int)

  function RenderedLifetime(notAfter: Option<string>, now: nat): Note {
    match notAfter
    case None => NoNote
    case Some(s) =>
      match DaysUntil(s, now)
      case None => NoNote
      case Some(days) =>
        var passed := days < 0 || (days == 0 && IsInPast(s, now));
        if passed then ExpiredNote
        else if days == 0 then TodayNote
        else if days <= WINDOW_DAYS then DaysNote(days)
        else NoNote
  }

  /** The causes `certificate_lifetime_rules` reports; `ago` and `days` are part of the summary it
      de-duplicates on. */
  datatype LifetimeCause = NotYetValid(startsIn: int) | Expired(ago: int) | Expiring(inDays: int)

  function NotBeforeCause(notBefore: Option<string>, now: nat): seq<LifetimeCause> {
    match notBefore
    case None => []
    case Some(s) =>
      match DaysUntil(s, now)
      case Some(days) => if days > 0 then [NotYetValid(days)] else []
      case None => []
  }

  function NotAfterCause(notAfter: Option<string>, now: nat): seq<LifetimeCause> {
    match notAfter
    case None => []
    case Some(s) =>
      match DaysUntil(s, now)
      case None => []
      case Some(days) =>
        var expired := days < 0 || (days == 0 && IsInPast(s, now));
        if expired then [Expired(-days)]
        else if days <= WINDOW_DAYS then [Expiring(days)]
        else []
  }

  /** The human report and the engine tell the same story about every certificate, whatever its
      `notAfter` text is. */
  lemma ReadersAgree(notAfter: Option<string>, now: nat)
    ensures RenderedLifetime(notAfter, now) == ExpiredNote <==> exists k :: NotAfterCause(notAfter, now) == [Expired(k)]
    ensures RenderedLifetime(notAfter, now) == TodayNote <==> NotAfterCause(notAfter, now) == [Expiring(0)]
    ensures forall k :: k != 0 ==>
      (RenderedLifetime(notAfter, now) == DaysNote(k) <==> NotAfterCause(notAfter, now) == [Expiring(k)])
    ensures RenderedLifetime(notAfter, now) == NoNote <==> NotAfterCause(notAfter, now) == []
  {
  }

  // ----- printed timestamps -----

  lemma FourDigits(n: nat)
    requires n <= 9999
    ensures |Padded(n, 4)| == 4
  {
    DigitsLength(n, 4);
    assert Power10(4) == 10 * Power10(3) == 100 * Power10(2) == 1000 * Power10(1) == 10000 * Power10(0);
  }

  lemma TwoDigits(n: nat)
    requires n <= 99
    ensures |Padded(n, 2)| == 2
  {
    DigitsLength(n, 2);
    assert Power10(2) == 10 * Power10(1) == 100 * Power10(0);
  }

  /** The last instant of year 9999 is the last one whose year has four digits. */
  lemma FourDigitYears(ts: int)
    requires ts >= 0
    ensures CivilFromDays(ts / DAY).y <= 9999 <==> ts <= LAST_FOUR_DIGIT
  {
    hide CivilFromDays, DaysFromCivil;
    var t, last := CivilFromDays(ts / DAY), Date(9999, 12, 31);
    PrintableDate(ts);
    DaysRoundTrip(ts / DAY);
    DaysIncrease(last, t);
    LastDay();
  }

  lemma LastDay()
    ensures DaysFromCivil(9999, 12, 31) == 2932896
  {
  }

  lemma DateParts(t: Date)
    requires ValidDate(t) && 0 <= t.y <= 9999
    ensures var s := FormatDate(t);
      && |s| == 10 && s[0..4] == Padded(t.y, 4) && s[5..7] == Padded(t.m, 2) && s[8..10] == Padded(t.d, 2)
      && 'T' !in s
  {
    FourDigits(t.y);
    TwoDigits(t.m);
    TwoDigits(t.d);
  }

  lemma NoDash(s: string)
    requires AllDigits(s)
    ensures '-' !in s && ':' !in s && 'T' !in s
  {
  }

  /** The date of a printed timestamp is read back as the day it was printed from. */
  lemma DaysUntilPrinted(ts: int, now: nat)
    requires 0 <= ts <= LAST_FOUR_DIGIT
    ensures DaysUntil(FormatUtc(ts).value, now) == Some(ts / DAY - now / DAY)
  {
    hide CivilFromDays, DaysFromCivil, Padded, FormatTime, ParseI64;
    var t, s := CivilFromDays(ts / DAY), FormatUtc(ts).value;
    PrintableDate(ts);
    FourDigitYears(ts);
    DateParts(t);
    var d := FormatDate(t);
    assert s[0..4] == d[0..4] && s[5..7] == d[5..7] && s[8..10] == d[8..10];
    ParsePadded(t.y, 4);
    ParsePadded(t.m, 2);
    ParsePadded(t.d, 2);
    DaysRoundTrip(ts / DAY);
  }

  lemma SplitThree(a: string, b: string, c: string, sep: char)
    requires sep !in a && sep !in b && sep !in c
    ensures Split(a + [sep] + b + [sep] + c, sep) == [a, b, c]
  {
    SplitPiece(a, b + [sep] + c, sep);
    SplitPiece(b, c, sep);
    SplitPiece(c, [], sep);
    assert a + [sep] + b + [sep] + c == a + [sep] + (b + [sep] + c);
  }

  lemma FieldsOfSix(s: seq<string>, n: seq<int>)
    requires |s| == |n| == 6
    requires forall i :: 0 <= i < 6 ==> ParseI64(s[i]) == Some(n[i])
    ensures Fields(s) == n
  {
    hide ParseI64;
    FieldsCons(s, n);
    FieldsCons(s[1..], n[1..]);
    FieldsCons(s[2..], n[2..]);
    FieldsCons(s[3..], n[3..]);
    FieldsCons(s[4..], n[4..]);
    FieldsCons(s[5..], n[5..]);
    assert s[6..] == [] && n[6..] == [];
  }

  lemma FieldsCons(s: seq<string>, n: seq<int>)
    requires |s| == |n| > 0 && ParseI64(s[0]) == Some(n[0])
    ensures Fields(s[1..]) == n[1..] ==> Fields(s) == n
  {
  }

  /** A year that fits the timestamp type fits the parser's integers. */
  lemma YearFits(ts: int)
    requires 0 <= ts < 0x8000_0000_0000_0000
    ensures CivilFromDays(ts / DAY).y < 0x4000_0000_0000_0000
  {
  }

  lemma SplitDate(t: Date)
    requires t.y >= 0 && t.m >= 0 && t.d >= 0
    ensures Split(FormatDate(t), '-') == [Padded(t.y, 4), Padded(t.m, 2), Padded(t.d, 2)]
    ensures 'T' !in FormatDate(t)
  {
    hide Padded, Split;
    var y, m, d := Padded(t.y, 4), Padded(t.m, 2), Padded(t.d, 2);
    NoDash(y);
    NoDash(m);
    NoDash(d);
    SplitThree(y, m, d, '-');
  }

  lemma SplitTime(secs: nat)
    ensures Split(FormatTime(secs), ':')
            == [Padded(secs / 3600, 2), Padded(secs % 3600 / 60, 2), Padded(secs % 60, 2)]
  {
    hide Padded, Split;
    var h, m, s := Padded(secs / 3600, 2), Padded(secs % 3600 / 60, 2), Padded(secs % 60, 2);
    NoDash(h);
    NoDash(m);
    NoDash(s);
    SplitThree(h, m, s, ':');
  }

  lemma PrintedFields(ts: int)
    requires 0 <= ts < 0x8000_0000_0000_0000
    ensures var t, secs := CivilFromDays(ts / DAY), ts % DAY;
      Fields(Split(FormatDate(t), '-') + Split(FormatTime(secs), ':'))
      == [t.y, t.m, t.d, secs / 3600, secs % 3600 / 60, secs % 60]
  {
    hide CivilFromDays, Padded, ParseI64, Split, Fields;
    var t, secs := CivilFromDays(ts / DAY), ts % DAY;
    PrintableDate(ts);
    YearFits(ts);
    SplitDate(t);
    SplitTime(secs);
    ParseSix(t, secs);
    FieldsOfSix(Split(FormatDate(t), '-') + Split(FormatTime(secs), ':'),
                [t.y, t.m, t.d, secs / 3600, secs % 3600 / 60, secs % 60]);
  }

  /** At one-second granularity every printed timestamp is read back exactly. */
  lemma InPastPrinted(ts: int, now: nat)
    requires 0 <= ts < 0x8000_0000_0000_0000
    ensures IsInPast(FormatUtc(ts).value, now) <==> ts <= now
  {
    hide CivilFromDays, DaysFromCivil, Split, Fields, FormatDate, FormatTime;
    var t, secs := CivilFromDays(ts / DAY), ts % DAY;
    PrintableDate(ts);
    var s, date, time := FormatUtc(ts).value, FormatDate(t), FormatTime(secs);
    SplitDate(t);
    assert s[..|s| - 1] == date + ['T'] + time;
    SplitOnceAt(date, time, 'T');
    PrintedFields(ts);
    DaysRoundTrip(ts / DAY);
  }

  lemma ParseSix(t: Date, secs: nat)
    requires 0 <= t.y < 0x4000_0000_0000_0000 && ValidDate(t) && secs < DAY
    ensures ParseI64(Padded(t.y, 4)) == Some(t.y)
    ensures ParseI64(Padded(t.m, 2)) == Some(t.m)
    ensures ParseI64(Padded(t.d, 2)) == Some(t.d)
    ensures ParseI64(Padded(secs / 3600, 2)) == Some(secs / 3600)
    ensures ParseI64(Padded(secs % 3600 / 60, 2)) == Some(secs % 3600 / 60)
    ensures ParseI64(Padded(secs % 60, 2)) == Some(secs % 60)
  {
    hide Padded, ParseI64;
    ParsePadded(t.y, 4);
    ParsePadded(t.m, 2);
    ParsePadded(t.d, 2);
    ParsePadded(secs / 3600, 2);
    ParsePadded(secs % 3600 / 60, 2);
    ParsePadded(secs % 60, 2);
  }

  /** The verdict on a printed `notAfter`: expired exactly from that very second on, although the
      first test only compares days; expiring up to thirty days ahead; silent before. */
  lemma NotAfterVerdict(ts: int, now: nat)
    requires 0 <= ts <= 253402300799
    ensures NotAfterCause(FormatUtc(ts), now) ==
      if ts <= now then [Expired(now / 86400 - ts / 86400)]
      else if ts / 86400 - now / 86400 <= 30 then [Expiring(ts / 86400 - now / 86400)]
      else []
  {
    hide FormatUtc, DaysUntil, IsInPast;
    DaysUntilPrinted(ts, now);
    InPastPrinted(ts, now);
  }

  /** The verdict on a printed `notBefore`: not yet valid exactly when its day is after today. */
  lemma NotBeforeVerdict(ts: int, now: nat)
    requires ts <= 253402300799
    ensures NotBeforeCause(FormatUtc(ts), now) ==
      if ts / 86400 > now / 86400 then [NotYetValid(ts / 86400 - now / 86400)] else []
  {
    hide FormatUtc, DaysUntil, IsInPast;
    if ts >= 0 {
      DaysUntilPrinted(ts, now);
    }
  }

  /** A date without a time is read too; anything shorter is not. */
  lemma BareDate(t: Date, now: nat, s: string)
    requires ValidDate(t) && 0 <= t.y <= 9999
    ensures DaysUntil(FormatDate(t), now) == Some(DaysFromCivil(t.y, t.m, t.d) - now / 86400)
    ensures |s| < 10 ==> DaysUntil(s, now).None?
  {
    hide DaysFromCivil, Padded, ParseI64, FormatDate;
    DateParts(t);
    ParsePadded(t.y, 4);
    ParsePadded(t.m, 2);
    ParsePadded(t.d, 2);
  }

  // ----- years of more than four digits -----

  predicate SaysExpired(causes: seq<LifetimeCause>) {
    |causes| == 1 && causes[0].Expired?
  }

  lemma TwoCharacters(s: string)
    requires |s| == 2 && ParseI64(s).Some?
    ensures -9 <= ParseI64(s).value <= 99
    ensures s[0] == '-' ==> ParseI64(s).value <= 0
  {
    var digits := if s[0] == '-' || s[0] == '+' then s[1..] else s;
    NatOfBound(digits);
    assert Power10(2) == 10 * Power10(1) == 100 * Power10(0);
  }

  lemma MisreadDay(y: int, m: int, d: int)
    requires 0 <= y <= 9999 && -9 <= m <= 99 && -9 <= d <= 99
    ensures DaysFromCivil(y, m, d) < 3000000
    ensures m <= 0 && d <= 0 ==> DaysFromCivil(y, m, d) < 2932896
  {
  }

  lemma MillionYears(ts: int)
    requires ts >= 0 && CivilFromDays(ts / DAY).y >= 1000000
    ensures ts / DAY > 3000001
  {
  }

  /** What the reader makes of a longer year: nothing, or a day long before the printed one. */
  lemma LongYearMisread(ts: int, now: nat)
    requires LAST_FOUR_DIGIT < ts
    ensures var r := DaysUntil(FormatUtc(ts).value, now);
      r.Some? ==> r.value + now / DAY < (ts - 1) / DAY
  {
    hide CivilFromDays, DaysFromCivil, ParseI64, FormatTime;
    var t, s := CivilFromDays(ts / DAY), FormatUtc(ts).value;
    PrintableDate(ts);
    FourDigitYears(ts);
    var year := Digits(t.y);
    DigitsLength(t.y, 4);
    DigitsLength(t.y, 6);
    assert Power10(4) == 10 * Power10(3) == 100 * Power10(2) == 1000 * Power10(1) == 10000 * Power10(0);
    assert Power10(6) == 10 * Power10(5) == 100 * Power10(4);
    assert s[..|year|] == year && s[|year|] == '-';
    var r := DaysUntil(s, now);
    if r.Some? {
      var y, m, d := ParseI64(s[0..4]).value, ParseI64(s[5..7]).value, ParseI64(s[8..10]).value;
      assert s[0..4] == year[0..4];
      FourCharacters(s[0..4]);
      TwoCharacters(s[5..7]);
      TwoCharacters(s[8..10]);
      MisreadDay(y, m, d);
      if |year| == 6 {
        DashInside(s[5..7]);
      } else if |year| > 6 {
        MillionYears(ts);
      } else {
        LeadingZeroDay(t, s);
      }
    }
  }

  lemma FourCharacters(s: string)
    requires |s| == 4 && AllDigits(s)
    ensures ParseI64(s).Some? ==> 0 <= ParseI64(s).value <= 9999
  {
    NatOfBound(s);
    assert Power10(4) == 10 * Power10(3) == 100 * Power10(2) == 1000 * Power10(1) == 10000 * Power10(0);
  }

  lemma DashInside(s: string)
    requires |s| == 2 && IsDigit(s[0]) && s[1] == '-'
    ensures ParseI64(s).None?
  {
  }

  /** With a five-digit year both two-character fields start at a dash. */
  lemma LeadingZeroDay(t: Date, s: string)
    requires ValidDate(t) && t.y >= 0 && |Digits(t.y)| == 5
    requires FormatDate(t) <= s
    ensures |s| >= 11 && s[5] == '-' && s[8] == '-'
  {
  }

  /** The expiry test is exact for a timestamp, at every `now`, if and only if the timestamp lies in 1970
      or later and its year has at most four digits. A certificate that ended before 1970 has no printed
      date, and is never called expired. */
  lemma ExpiryExact(ts: int)
    requires -0x8000_0000_0000_0000 <= ts < 0x8000_0000_0000_0000
    ensures (forall now: nat :: SaysExpired(NotAfterCause(FormatUtc(ts), now)) <==> ts <= now)
            <==> 0 <= ts <= LAST_FOUR_DIGIT
  {
    hide FormatUtc, DaysUntil, IsInPast;
    if ts < 0 {
      var epoch: nat := 0;
      assert !SaysExpired(NotAfterCause(FormatUtc(ts), epoch)) && ts <= epoch;
    } else if ts <= LAST_FOUR_DIGIT {
      forall now: nat ensures SaysExpired(NotAfterCause(FormatUtc(ts), now)) <==> ts <= now {
        NotAfterVerdict(ts, now);
      }
    } else {
      LongYearMisread(ts, ts);
      LongYearMisread(ts, ts - 1);
      SameReading(FormatUtc(ts).value, ts, ts - 1);
      var before: nat, at: nat := ts - 1, ts;
      assert SaysExpired(NotAfterCause(FormatUtc(ts), before)) || !SaysExpired(NotAfterCause(FormatUtc(ts), at));
    }
  }

  predicate SaysNotYetValid(causes: seq<LifetimeCause>) {
    |causes| == 1 && causes[0].NotYetValid?
  }

  /** Likewise the test for a validity that has not begun is exact to the day, at every `now`, if and only
      if the timestamp's year has at most four digits; before 1970 it is exact too. */
  lemma NotBeforeExact(ts: int)
    requires -0x8000_0000_0000_0000 <= ts < 0x8000_0000_0000_0000
    ensures (forall now: nat :: SaysNotYetValid(NotBeforeCause(FormatUtc(ts), now)) <==> ts / DAY > now / DAY)
            <==> ts <= LAST_FOUR_DIGIT
  {
    hide FormatUtc, DaysUntil, IsInPast;
    if ts <= LAST_FOUR_DIGIT {
      forall now: nat
        ensures SaysNotYetValid(NotBeforeCause(FormatUtc(ts), now)) <==> ts / DAY > now / DAY
      {
        NotBeforeVerdict(ts, now);
      }
    } else {
      var yesterday: nat := ts - DAY;
      LongYearMisread(ts, yesterday);
      assert ts / DAY == yesterday / DAY + 1;
      assert !SaysNotYetValid(NotBeforeCause(FormatUtc(ts), yesterday));
    }
  }

  lemma SameReading(s: string, a: nat, b: nat)
    ensures DaysUntil(s, a).Some? <==> DaysUntil(s, b).Some?
  {
  }

  /** A leap day, second by second up to its last, as `format_utc` prints it. */
  lemma PrintedExample()
    ensures FormatUtc(951868799) == Some("2000-02-29T23:59:59Z")
  {
    hide CivilFromDays, FormatDate, FormatTime;
    assert 951868799 / DAY == 11016 && 951868799 % DAY == 86399;
    LeapDay();
    LeapDaySpelled();
    LastSecondSpelled();
    assert "2000-02-29" + "T" + "23:59:59" + "Z" == "2000-02-29T23:59:59Z";
  }

  lemma LeapDay()
    ensures CivilFromDays(11016) == Date(2000, 2, 29)
  {
  }

  lemma LeapDaySpelled()
    ensures FormatDate(Date(2000, 2, 29)) == "2000-02-29"
  {
    hide Padded;
    YearSpelled();
    PairsSpelled();
  }

  lemma LastSecondSpelled()
    ensures FormatTime(86399) == "23:59:59"
  {
    hide Padded;
    PairsSpelled();
  }

  lemma YearSpelled()
    ensures Padded(2000, 4) == "2000"
  {
    assert Digits(20) == "20";
    assert Digits(200) == "20" + "0";
    assert Digits(2000) == "200" + "0";
  }

  lemma PairsSpelled()
    ensures Padded(2, 2) == "02" && Padded(29, 2) == "29" && Padded(23, 2) == "23" && Padded(59, 2) == "59"
  {
    assert Digits(2) == "2";
  }
}
