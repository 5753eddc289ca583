/** Repeated probes of one destination, and repeated lookups through one resolver, folded into counts. */
module Repeat {
  import opened Collections
  import opened Latency
  import opened Tally

  /** In declaration order, which is the tie-break of every failure list. */
  datatype FailureKind =
    | Timeout | ConnectionRefused | ConnectionReset | NetworkUnreachable | HostUnreachable | Dns
    | TlsHandshake | Certificate | Protocol | Http | Quic | Other | Unknown

  const KINDS := 13

  function Ordinal(k: FailureKind): (n: nat)
    ensures n < KINDS
  {
    match k
    case Timeout => 0
    case ConnectionRefused => 1
    case ConnectionReset => 2
    case NetworkUnreachable => 3
    case HostUnreachable => 4
    case Dns => 5
    case TlsHandshake => 6
    case Certificate => 7
    case Protocol => 8
    case Http => 9
    case Quic => 10
    case Other => 11
    case Unknown => 12
  }

  newtype u16 = n: int | 0 <= n < 0x1_0000

  /** The sort key `(Reverse(count), kind as u8)` as one number. */
  function FailureRank(c: Count<FailureKind>): int { Ordinal(c.key) - c.count * KINDS }

  /** The sort key `(Reverse(count), status)` as one number. */
  function StatusRank(c: Count<u16>): int { c.key as int - c.count * 0x1_0000 }

  /** The keys sort by count, largest first, then by the fixed order of kinds and statuses. */
  lemma FailureRankOrders(a: Count<FailureKind>, b: Count<FailureKind>)
    ensures FailureRank(a) <= FailureRank(b)
        <==> a.count > b.count || (a.count == b.count && Ordinal(a.key) <= Ordinal(b.key))
    ensures FailureRank(a) == FailureRank(b) ==> a == b
  {
  }

  lemma StatusRankOrders(a: Count<u16>, b: Count<u16>)
    ensures StatusRank(a) <= StatusRank(b) <==> a.count > b.count || (a.count == b.count && a.key <= b.key)
    ensures StatusRank(a) == StatusRank(b) ==> a == b
  {
  }

  lemma RanksSeparate()
    ensures Separates(FailureRank) && Separates(StatusRank)
  {
    forall a: Count<FailureKind>, b | FailureRank(a) == FailureRank(b) ensures a == b {
      FailureRankOrders(a, b);
    }
    forall a: Count<u16>, b | StatusRank(a) == StatusRank(b) ensures a == b {
      StatusRankOrders(a, b);
    }
  }

  // ----- probes -----

  /** What one attempt reports. */
  datatype Outcome = Outcome(
    ok: bool,
    latencyMs: Option<nat>,
    kind: Option<FailureKind>,
    status: Option<u16>,
    ttfbMs: Option<nat>)

  /** The fields of an HTTP observation the outcome is made of. */
  datatype HttpAttempt = HttpAttempt(
    failure: Option<FailureKind>,
    bodyBytes: Option<nat>,
    latencyMs: Option<nat>,
    status: Option<u16>,
    ttfbMs: Option<nat>)

  /** A response whose body never completed counts as a timeout, but keeps its status and first byte. */
  function HttpOutcome(obs: HttpAttempt): Outcome {
    if obs.failure.None? then
      if obs.bodyBytes.None? then Outcome(false, None, Some(Timeout), obs.status, obs.ttfbMs)
      else Outcome(true, obs.latencyMs, None, obs.status, obs.ttfbMs)
    else Outcome(false, None, obs.failure, None, None)
  }

  datatype ProbeResult = ProbeResult(
    attempts: nat,
    successes: nat,
    failures: nat,
    successRate: real,
    latency: Summary,
    ttfb: Summary,
    failureCounts: seq<Count<FailureKind>>,
    statusCounts: seq<Count<u16>>)

  /** `latency_ms.unwrap_or(0)`. */
  function Millis(o: Outcome): nat {
    if o.latencyMs.Some? then o.latencyMs.value else 0
  }

  function LatencyOf(o: Outcome): Option<nat> {
    if o.ok then Some(Millis(o)) else None
  }

  function FailureOf(o: Outcome): Option<FailureKind> {
    if o.ok then None else o.kind
  }

  function StatusOf(o: Outcome): Option<u16> { o.status }

  function TtfbOf(o: Outcome): Option<nat> { o.ttfbMs }

  /** An attempt that failed without saying how is counted nowhere. */
  predicate Lost(o: Outcome) { !o.ok && o.kind.None? }

  function Rate(successes: nat, attempts: nat): real {
    if attempts == 0 then 0.0 else successes as real / attempts as real
  }

  function Aggregate(outcomes: seq<Outcome>): ProbeResult {
    var kinds := Collected(outcomes, FailureOf);
    var latencies := Collected(outcomes, LatencyOf);
    ProbeResult(
      |outcomes|,
      |latencies|,
      |kinds|,
      Rate(|latencies|, |outcomes|),
      Summarized(latencies),
      Summarized(Collected(outcomes, TtfbOf)),
      TallyOf(kinds, FailureRank),
      TallyOf(Collected(outcomes, StatusOf), StatusRank))
  }

  method RepeatAttempts(outcomes: seq<Outcome>) returns (r: ProbeResult)
    ensures r == Aggregate(outcomes)
  {
    hide TallyOf, Summarized, FirstOccurrences, Collected, LatencyOf, FailureOf, StatusOf, TtfbOf;
    var latency := new LatencyStats();
    var ttfb := new LatencyStats();
    var failures: map<FailureKind, nat>, statuses: map<u16, nat> := map[], map[];
    var successes := 0;
    CollectedNothing();
    for i := 0 to |outcomes|
      invariant latency.samples == Collected(outcomes[..i], LatencyOf)
      invariant ttfb.samples == Collected(outcomes[..i], TtfbOf)
      invariant Holds(failures, Collected(outcomes[..i], FailureOf))
      invariant Holds(statuses, Collected(outcomes[..i], StatusOf))
      invariant successes == |latency.samples|
      invariant latency != ttfb && fresh(latency) && fresh(ttfb)
    {
      var o := outcomes[i];
      CollectedNext(outcomes, i);
      if o.status.Some? {
        statuses := Increment(statuses, o.status.value, Collected(outcomes[..i], StatusOf));
      }
      if o.ttfbMs.Some? {
        ttfb.Push(o.ttfbMs.value);
      }
      if o.ok {
        successes := successes + 1;
        latency.Push(Millis(o));
      } else if o.kind.Some? {
        failures := Increment(failures, o.kind.value, Collected(outcomes[..i], FailureOf));
      }
    }
    assert outcomes[..|outcomes|] == outcomes;
    RanksSeparate();
    var failureCounts := SortedEntries(failures, FailureRank, Collected(outcomes, FailureOf));
    var statusCounts := SortedEntries(statuses, StatusRank, Collected(outcomes, StatusOf));
    TallyTotal(Collected(outcomes, FailureOf), FailureRank);
    var failuresTotal := TotalCount(failureCounts);
    var latencies := latency.Summarize();
    var firstBytes := ttfb.Summarize();
    r := ProbeResult(|outcomes|, successes, failuresTotal, Rate(successes, |outcomes|), latencies, firstBytes,
                     failureCounts, statusCounts);
  }

  lemma CollectedNothing()
    ensures Collected([], LatencyOf) == [] && Collected([], TtfbOf) == []
    ensures Collected([], FailureOf) == [] && Collected([], StatusOf) == []
  {
  }

  /** What one more outcome adds to each collection. */
  lemma CollectedNext(outcomes: seq<Outcome>, i: nat)
    requires i < |outcomes|
    ensures var o := outcomes[i];
      && Collected(outcomes[..i + 1], LatencyOf) == Collected(outcomes[..i], LatencyOf)
         + (if o.ok then [Millis(o)] else [])
      && Collected(outcomes[..i + 1], TtfbOf) == Collected(outcomes[..i], TtfbOf)
         + (if o.ttfbMs.Some? then [o.ttfbMs.value] else [])
      && Collected(outcomes[..i + 1], FailureOf) == Collected(outcomes[..i], FailureOf)
         + (if !o.ok && o.kind.Some? then [o.kind.value] else [])
      && Collected(outcomes[..i + 1], StatusOf) == Collected(outcomes[..i], StatusOf)
         + (if o.status.Some? then [o.status.value] else [])
  {
    hide Collected;
    var o := outcomes[i];
    CollectedLast(outcomes, i, LatencyOf);
    CollectedLast(outcomes, i, TtfbOf);
    CollectedLast(outcomes, i, FailureOf);
    CollectedLast(outcomes, i, StatusOf);
  }

  // ----- conservation -----

  lemma {:induction false} AttemptsSplit(outcomes: seq<Outcome>)
    ensures |Collected(outcomes, LatencyOf)| + |Collected(outcomes, FailureOf)| + HowMany(outcomes, Lost) == |outcomes|
  {
    if outcomes != [] {
      AttemptsSplit(outcomes[1..]);
    }
  }

  /** Attempts are conserved: the latency count is the successes, the failure counts add up to the
      failures, and the two together are the attempts exactly when no attempt was lost. */
  lemma AttemptsConserved(outcomes: seq<Outcome>)
    ensures var r := Aggregate(outcomes);
      && r.attempts == |outcomes|
      && r.latency.count == r.successes
      && TotalCount(r.failureCounts) == r.failures
      && r.successes + r.failures <= r.attempts
      && TotalCount(r.statusCounts) <= r.attempts
      && (r.successes + r.failures == r.attempts <==> forall o :: o in outcomes ==> !Lost(o))
  {
    hide TallyOf, Collected;
    AttemptsSplit(outcomes);
    NoneCounted(outcomes, Lost);
    TallyTotal(Collected(outcomes, FailureOf), FailureRank);
    TallyTotal(Collected(outcomes, StatusOf), StatusRank);
  }

  /** An HTTP attempt is never lost, so HTTP repeats always add up. */
  lemma HttpAttemptsConserved(attempts: seq<HttpAttempt>)
    ensures var r := Aggregate(Map(attempts, HttpOutcome)); r.successes + r.failures == r.attempts == |attempts|
  {
    hide Aggregate;
    var outcomes := Map(attempts, HttpOutcome);
    AttemptsConserved(outcomes);
    assert forall o :: o in outcomes ==> exists i :: 0 <= i < |attempts| && o == HttpOutcome(attempts[i]);
  }

  predicate CompletedAttempt(a: HttpAttempt) { a.failure.None? && a.bodyBytes.Some? }

  predicate AnsweredAttempt(a: HttpAttempt) { a.failure.None? && a.status.Some? }

  predicate TimedAttempt(a: HttpAttempt) { a.failure.None? && a.ttfbMs.Some? }

  /** Successes are the completed responses; a response whose body stalled still counts in the statuses
      and in the time to first byte. */
  lemma HttpCounts(attempts: seq<HttpAttempt>)
    ensures var r := Aggregate(Map(attempts, HttpOutcome));
      && r.successes == HowMany(attempts, CompletedAttempt)
      && TotalCount(r.statusCounts) == HowMany(attempts, AnsweredAttempt)
      && r.ttfb.count == HowMany(attempts, TimedAttempt)
  {
    hide TallyOf, Collected, HowMany, HttpOutcome;
    HttpCollected(attempts);
    TallyTotal(Collected(Map(attempts, HttpOutcome), StatusOf), StatusRank);
  }

  lemma {:induction false} HttpCollected(attempts: seq<HttpAttempt>)
    ensures var outcomes := Map(attempts, HttpOutcome);
      && |Collected(outcomes, LatencyOf)| == HowMany(attempts, CompletedAttempt)
      && |Collected(outcomes, StatusOf)| == HowMany(attempts, AnsweredAttempt)
      && |Collected(outcomes, TtfbOf)| == HowMany(attempts, TimedAttempt)
  {
    if attempts != [] {
      HttpCollected(attempts[1..]);
      assert Map(attempts, HttpOutcome)[1..] == Map(attempts[1..], HttpOutcome);
    }
  }

  /** The report, but for the raw samples, depends only on which outcomes occurred: not on their order,
      nor on how a hash map iterates. */
  lemma AggregatePermutation(a: seq<Outcome>, b: seq<Outcome>)
    requires multiset(a) == multiset(b)
    ensures var r, s := Aggregate(a), Aggregate(b);
      r == s.(latency := s.latency.(samples := r.latency.samples), ttfb := s.ttfb.(samples := r.ttfb.samples))
  {
    hide TallyOf, Summarized, Collected;
    PermutationElements(a, b);
    CollectedPermutation(a, b, LatencyOf);
    CollectedPermutation(a, b, TtfbOf);
    CollectedPermutation(a, b, FailureOf);
    CollectedPermutation(a, b, StatusOf);
    SummaryPermutation(Collected(a, LatencyOf), Collected(b, LatencyOf));
    SummaryPermutation(Collected(a, TtfbOf), Collected(b, TtfbOf));
    RanksSeparate();
    TallyPermutation(Collected(a, FailureOf), Collected(b, FailureOf), FailureRank);
    TallyPermutation(Collected(a, StatusOf), Collected(b, StatusOf), StatusRank);
    PermutationElements(Collected(a, LatencyOf), Collected(b, LatencyOf));
    PermutationElements(Collected(a, FailureOf), Collected(b, FailureOf));
  }

  /** The lists themselves: each failure kind and each status that occurred, once, with its exact count,
      most frequent first and ties in the fixed order. */
  lemma ListsExact(outcomes: seq<Outcome>)
    ensures var f, kinds := Aggregate(outcomes).failureCounts, Collected(outcomes, FailureOf);
      && Distinct(f)
      && (forall c: Count<FailureKind> :: c in f <==> c.key in kinds && c.count == multiset(kinds)[c.key])
      && forall i, j :: 0 <= i < j < |f| ==>
           f[i].count > f[j].count || (f[i].count == f[j].count && Ordinal(f[i].key) < Ordinal(f[j].key))
    ensures var s, codes := Aggregate(outcomes).statusCounts, Collected(outcomes, StatusOf);
      && Distinct(s)
      && (forall c: Count<u16> :: c in s <==> c.key in codes && c.count == multiset(codes)[c.key])
      && forall i, j :: 0 <= i < j < |s| ==>
           s[i].count > s[j].count || (s[i].count == s[j].count && s[i].key < s[j].key)
  {
    hide TallyOf, Summarized, Collected, FailureRank, StatusRank;
    var f, s := Aggregate(outcomes).failureCounts, Aggregate(outcomes).statusCounts;
    RanksSeparate();
    TallyExact(Collected(outcomes, FailureOf), FailureRank);
    TallyExact(Collected(outcomes, StatusOf), StatusRank);
    forall i, j | 0 <= i < j < |f|
      ensures f[i].count > f[j].count || (f[i].count == f[j].count && Ordinal(f[i].key) < Ordinal(f[j].key))
    {
      FailureRankOrders(f[i], f[j]);
      FailureRankOrders(f[j], f[i]);
    }
    forall i, j | 0 <= i < j < |s|
      ensures s[i].count > s[j].count || (s[i].count == s[j].count && s[i].key < s[j].key)
    {
      StatusRankOrders(s[i], s[j]);
      StatusRankOrders(s[j], s[i]);
    }
  }

  // ----- what is counted -----

  function SucceededIn(ms: nat): Outcome -> bool {
    (o: Outcome) => o.ok && (o.latencyMs == Some(ms) || (o.latencyMs.None? && ms == 0))
  }

  function FailedWith(kind: FailureKind): Outcome -> bool {
    (o: Outcome) => !o.ok && o.kind == Some(kind)
  }

  function AnsweredWith(status: u16): Outcome -> bool {
    (o: Outcome) => o.status == Some(status)
  }

  function FirstByteIn(ms: nat): Outcome -> bool {
    (o: Outcome) => o.ttfbMs == Some(ms)
  }

  /** The rate is successes per attempt; a success counts with its latency, zero when it has none, a failure
      with its kind, and statuses and times to first byte whether or not the attempt succeeded. */
  lemma FiguresExact(outcomes: seq<Outcome>, ms: nat, kind: FailureKind, status: u16, n: nat)
    ensures var r := Aggregate(outcomes);
      && r.successRate * (if outcomes == [] then 1 else |outcomes|) as real == r.successes as real
      && multiset(r.latency.samples)[ms] == HowMany(outcomes, SucceededIn(ms))
      && multiset(r.ttfb.samples)[ms] == HowMany(outcomes, FirstByteIn(ms))
      && (Count(kind, n) in r.failureCounts <==> 0 < n == HowMany(outcomes, FailedWith(kind)))
      && (Count(status, n) in r.statusCounts <==> 0 < n == HowMany(outcomes, AnsweredWith(status)))
  {
    hide Aggregate, TallyOf, Collected, HowMany, Rate;
    AggregateParts(outcomes);
    CollectedTimes(outcomes, LatencyOf, ms, SucceededIn(ms));
    CollectedTimes(outcomes, TtfbOf, ms, FirstByteIn(ms));
    CollectedTimes(outcomes, FailureOf, kind, FailedWith(kind));
    CollectedTimes(outcomes, StatusOf, status, AnsweredWith(status));
    RanksSeparate();
    Listed(Collected(outcomes, FailureOf), FailureRank, kind, n);
    Listed(Collected(outcomes, StatusOf), StatusRank, status, n);
    RateTimes(|Collected(outcomes, LatencyOf)|, |outcomes|);
  }

  lemma AggregateParts(outcomes: seq<Outcome>)
    ensures var r := Aggregate(outcomes);
      && r.latency.samples == Collected(outcomes, LatencyOf) && r.ttfb.samples == Collected(outcomes, TtfbOf)
      && r.successes == |Collected(outcomes, LatencyOf)| && r.successRate == Rate(r.successes, |outcomes|)
      && r.failureCounts == TallyOf(Collected(outcomes, FailureOf), FailureRank)
      && r.statusCounts == TallyOf(Collected(outcomes, StatusOf), StatusRank)
  {
    hide TallyOf, Collected, Rate;
  }

  lemma Listed<K(!new)>(keys: seq<K>, rank: Count<K> -> int, k: K, n: nat)
    requires Separates(rank)
    ensures Count(k, n) in TallyOf(keys, rank) <==> 0 < n == multiset(keys)[k]
  {
    TallyExact(keys, rank);
  }

  lemma RateTimes(successes: nat, attempts: nat)
    requires successes <= attempts
    ensures Rate(successes, attempts) * (if attempts == 0 then 1 else attempts) as real == successes as real
  {
  }

  function CompletedIn(ms: nat): HttpAttempt -> bool {
    (a: HttpAttempt) =>
      a.failure.None? && a.bodyBytes.Some? && (a.latencyMs == Some(ms) || (a.latencyMs.None? && ms == 0))
  }

  /** A body that never completed is a timeout. */
  function BrokenBy(kind: FailureKind): HttpAttempt -> bool {
    (a: HttpAttempt) => a.failure == Some(kind) || (kind.Timeout? && a.failure.None? && a.bodyBytes.None?)
  }

  function RespondedWith(status: u16): HttpAttempt -> bool {
    (a: HttpAttempt) => a.failure.None? && a.status == Some(status)
  }

  function RespondedIn(ms: nat): HttpAttempt -> bool {
    (a: HttpAttempt) => a.failure.None? && a.ttfbMs == Some(ms)
  }

  /** The same for HTTP attempts: completed responses are the successes, a body that never completed counts as
      a timeout and keeps its status and its time to first byte, a failure keeps neither. */
  lemma HttpFiguresExact(attempts: seq<HttpAttempt>, ms: nat, kind: FailureKind, status: u16, n: nat)
    ensures var r := Aggregate(Map(attempts, HttpOutcome));
      && multiset(r.latency.samples)[ms] == HowMany(attempts, CompletedIn(ms))
      && multiset(r.ttfb.samples)[ms] == HowMany(attempts, RespondedIn(ms))
      && (Count(kind, n) in r.failureCounts <==> 0 < n == HowMany(attempts, BrokenBy(kind)))
      && (Count(status, n) in r.statusCounts <==> 0 < n == HowMany(attempts, RespondedWith(status)))
  {
    hide Aggregate, HowMany, Map;
    FiguresExact(Map(attempts, HttpOutcome), ms, kind, status, n);
    HowManyMapped(attempts, HttpOutcome, SucceededIn(ms), CompletedIn(ms));
    HowManyMapped(attempts, HttpOutcome, FirstByteIn(ms), RespondedIn(ms));
    HowManyMapped(attempts, HttpOutcome, FailedWith(kind), BrokenBy(kind));
    HowManyMapped(attempts, HttpOutcome, AnsweredWith(status), RespondedWith(status));
  }

  /** The order that breaks ties between failures. */
  lemma KindsInOrder(k: FailureKind)
    ensures [Timeout, ConnectionRefused, ConnectionReset, NetworkUnreachable, HostUnreachable, Dns, TlsHandshake,
             Certificate, Protocol, Http, Quic, Other, Unknown][Ordinal(k)] == k
  {
  }
}
