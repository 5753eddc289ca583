/** Repeated lookups: observations grouped by resolver, each group folded into one row. */
module DnsRepeat {
  import opened Collections
  import opened Sorting
  import opened Net
  import opened Latency
  import opened Tally
  import opened Repeat

  datatype Resolver = System | Custom(address: SocketAddr) | Doh(endpoint: string) | Dot(endpoint: string)

  /** The fields of a lookup's observation that the rows are made of. */
  datatype Lookup = Lookup(
    resolver: Resolver,
    ttl: Option<nat>,
    latencyMs: Option<nat>,
    error: Option<FailureKind>)

  datatype LookupRow = LookupRow(
    resolver: Resolver,
    attempts: nat,
    successes: nat,
    failures: nat,
    successRate: real,
    latency: Summary,
    failureCounts: seq<Count<FailureKind>>,
    ttl: Option<nat>)

  function LatencyOf(o: Lookup): Option<nat> { o.latencyMs }

  /** An error counts only when there is no latency. */
  function ErrorOf(o: Lookup): Option<FailureKind> {
    if o.latencyMs.Some? then None else o.error
  }

  function TtlOf(o: Lookup): Option<nat> { o.ttl }

  function LeastOf(ttls: seq<nat>): Option<nat> {
    if ttls == [] then None
    else
      var init, last := LeastOf(ttls[..|ttls| - 1]), ttls[|ttls| - 1];
      Some(if init.Some? && init.value < last then init.value else last)
  }

  function AggregateLookups(bucket: seq<Lookup>, attempts: nat): LookupRow {
    var latencies, errors := Collected(bucket, LatencyOf), Collected(bucket, ErrorOf);
    LookupRow(
      if bucket == [] then System else bucket[0].resolver,
      attempts,
      |latencies|,
      if attempts >= |latencies| then attempts - |latencies| else 0,
      Rate(|latencies|, attempts),
      Summarized(latencies),
      TallyOf(errors, FailureRank),
      LeastOf(Collected(bucket, TtlOf)))
  }

  method AggregateRepeat(bucket: seq<Lookup>, attempts: nat) returns (r: LookupRow)
    ensures r == AggregateLookups(bucket, attempts)
  {
    hide TallyOf, Summarized, FirstOccurrences, Collected, LatencyOf, ErrorOf, TtlOf, LeastOf;
    var latency := new LatencyStats();
    var failures: map<FailureKind, nat> := map[];
    var successes, minTtl: Option<nat> := 0, None;
    NothingCollected();
    LeastIsLeast([]);
    for i := 0 to |bucket|
      invariant latency.samples == Collected(bucket[..i], LatencyOf) && fresh(latency)
      invariant Holds(failures, Collected(bucket[..i], ErrorOf))
      invariant successes == |latency.samples|
      invariant minTtl == LeastOf(Collected(bucket[..i], TtlOf))
    {
      var o := bucket[i];
      NextCollected(bucket, i);
      if o.ttl.Some? {
        minTtl := Some(if minTtl.Some? && minTtl.value < o.ttl.value then minTtl.value else o.ttl.value);
        LeastNext(Collected(bucket[..i], TtlOf), o.ttl.value);
      } else {
        assert Collected(bucket[..i], TtlOf) + [] == Collected(bucket[..i], TtlOf);
      }
      if o.latencyMs.Some? {
        successes := successes + 1;
        latency.Push(o.latencyMs.value);
      } else if o.error.Some? {
        failures := Increment(failures, o.error.value, Collected(bucket[..i], ErrorOf));
      }
    }
    assert bucket[..|bucket|] == bucket;
    RanksSeparate();
    var failureCounts := SortedEntries(failures, FailureRank, Collected(bucket, ErrorOf));
    var latencies := latency.Summarize();
    r := LookupRow(
      if bucket == [] then System else bucket[0].resolver, attempts, successes,
      if attempts >= successes then attempts - successes else 0,
      Rate(successes, attempts), latencies, failureCounts, minTtl);
  }

  lemma LeastNext(ttls: seq<nat>, t: nat)
    ensures var least := LeastOf(ttls);
      LeastOf(ttls + [t]) == Some(if least.Some? && least.value < t then least.value else t)
  {
  }

  lemma NothingCollected()
    ensures Collected([], LatencyOf) == [] && Collected([], ErrorOf) == [] && Collected([], TtlOf) == []
  {
  }

  lemma NextCollected(bucket: seq<Lookup>, i: nat)
    requires i < |bucket|
    ensures var o := bucket[i];
      && Collected(bucket[..i + 1], LatencyOf) == Collected(bucket[..i], LatencyOf)
         + (if o.latencyMs.Some? then [o.latencyMs.value] else [])
      && Collected(bucket[..i + 1], ErrorOf) == Collected(bucket[..i], ErrorOf)
         + (if o.latencyMs.None? && o.error.Some? then [o.error.value] else [])
      && Collected(bucket[..i + 1], TtlOf) == Collected(bucket[..i], TtlOf)
         + (if o.ttl.Some? then [o.ttl.value] else [])
  {
    hide Collected;
    CollectedLast(bucket, i, LatencyOf);
    CollectedLast(bucket, i, ErrorOf);
    CollectedLast(bucket, i, TtlOf);
  }

  // ----- conservation -----

  /** Neither answered nor failed: no latency and no error. */
  predicate Silent(o: Lookup) { o.latencyMs.None? && o.error.None? }

  lemma {:induction false} LookupsSplit(bucket: seq<Lookup>)
    ensures |Collected(bucket, LatencyOf)| + |Collected(bucket, ErrorOf)| + HowMany(bucket, Silent) == |bucket|
  {
    if bucket != [] {
      LookupsSplit(bucket[1..]);
    }
  }

  /** Every observation is counted once. When the bucket holds one observation an attempt, successes and
      failures are the attempts, and the failure counts add up to the failures exactly when every
      observation has a latency or an error; observations that are missing altogether count as failures
      without a kind. */
  lemma LookupsConserved(bucket: seq<Lookup>, attempts: nat)
    ensures var r := AggregateLookups(bucket, attempts);
      && r.latency.count == r.successes
      && r.successes + TotalCount(r.failureCounts) + HowMany(bucket, Silent) == |bucket|
      && (r.successes >= attempts ==> r.failures == 0)
      && (|bucket| <= attempts ==>
            && r.successes + r.failures == attempts
            && r.failures == TotalCount(r.failureCounts) + HowMany(bucket, Silent) + (attempts - |bucket|))
      && (|bucket| == attempts ==>
            (TotalCount(r.failureCounts) == r.failures <==> forall o :: o in bucket ==> !Silent(o)))
  {
    hide TallyOf, Collected;
    LookupsSplit(bucket);
    NoneCounted(bucket, Silent);
    TallyTotal(Collected(bucket, ErrorOf), FailureRank);
  }

  lemma LeastIsLeast(ttls: seq<nat>)
    ensures LeastOf(ttls).None? <==> ttls == []
    ensures LeastOf(ttls).Some? ==>
      LeastOf(ttls).value in ttls && forall t :: t in ttls ==> LeastOf(ttls).value <= t
  {
    if ttls != [] {
      var init, last := ttls[..|ttls| - 1], ttls[|ttls| - 1];
      assert ttls == init + [last];
      LeastIsLeast(init);
    }
  }

  lemma LeastSame(a: seq<nat>, b: seq<nat>)
    requires multiset(a) == multiset(b)
    ensures LeastOf(a) == LeastOf(b)
  {
    hide LeastOf;
    PermutationElements(a, b);
    LeastIsLeast(a);
    LeastIsLeast(b);
  }

  /** A row depends only on which observations its resolver made, but for the raw samples. */
  lemma RowPermutation(a: seq<Lookup>, b: seq<Lookup>, attempts: nat, resolver: Resolver)
    requires multiset(a) == multiset(b) && forall o :: o in a ==> o.resolver == resolver
    ensures var r, s := AggregateLookups(a, attempts), AggregateLookups(b, attempts);
      r == s.(latency := s.latency.(samples := r.latency.samples))
  {
    hide TallyOf, Summarized, Collected, LeastOf;
    PermutationElements(a, b);
    CollectedPermutation(a, b, LatencyOf);
    CollectedPermutation(a, b, ErrorOf);
    CollectedPermutation(a, b, TtlOf);
    SummaryPermutation(Collected(a, LatencyOf), Collected(b, LatencyOf));
    PermutationElements(Collected(a, LatencyOf), Collected(b, LatencyOf));
    RanksSeparate();
    TallyPermutation(Collected(a, ErrorOf), Collected(b, ErrorOf), FailureRank);
    LeastSame(Collected(a, TtlOf), Collected(b, TtlOf));
  }

  // ----- grouping by resolver -----

  function Own(r: Resolver, all: seq<Lookup>): (own: seq<Lookup>)
    ensures forall o :: o in own <==> o in all && o.resolver == r
  {
    if all == [] then []
    else
      var init, last := Own(r, all[..|all| - 1]), all[|all| - 1];
      assert all == all[..|all| - 1] + [last];
      if last.resolver == r then init + [last] else init
  }

  function ResolverOf(o: Lookup): Resolver { o.resolver }

  function Resolvers(all: seq<Lookup>): seq<Resolver> {
    FirstOccurrences(Map(all, ResolverOf))
  }

  function BucketOf(r: Resolver, all: seq<Lookup>): (Resolver, seq<Lookup>) { (r, Own(r, all)) }

  function Buckets(all: seq<Lookup>): (b: seq<(Resolver, seq<Lookup>)>)
    ensures |b| == |Resolvers(all)|
    ensures forall i :: 0 <= i < |b| ==> b[i] == BucketOf(Resolvers(all)[i], all)
  {
    seq(|Resolvers(all)|, i requires 0 <= i < |Resolvers(all)| => BucketOf(Resolvers(all)[i], all))
  }

  method AddToBuckets(buckets: seq<(Resolver, seq<Lookup>)>, o: Lookup, ghost all: seq<Lookup>)
    returns (r: seq<(Resolver, seq<Lookup>)>)
    requires buckets == Buckets(all)
    ensures r == Buckets(all + [o])
  {
    ghost var order := Resolvers(all);
    var i := 0;
    while i < |buckets| && buckets[i].0 != o.resolver
      invariant i <= |buckets|
      invariant forall j :: 0 <= j < i ==> order[j] != o.resolver
    {
      i := i + 1;
    }
    hide Resolvers, Own;
    if i < |buckets| {
      BucketGrows(all, o, i);
      r := buckets[i := (o.resolver, buckets[i].1 + [o])];
    } else {
      BucketOpens(all, o);
      r := buckets + [(o.resolver, [o])];
    }
  }

  lemma BucketGrows(all: seq<Lookup>, o: Lookup, i: nat)
    requires i < |Resolvers(all)| && Resolvers(all)[i] == o.resolver
    ensures Buckets(all + [o]) == Buckets(all)[i := (o.resolver, Buckets(all)[i].1 + [o])]
  {
    var order := Resolvers(all);
    assert Distinct(order);
    ResolversNext(all, o);
    hide Resolvers, Own;
    assert order + [] == order;
    var grown := Buckets(all)[i := (o.resolver, Buckets(all)[i].1 + [o])];
    forall k | 0 <= k < |order| ensures Buckets(all + [o])[k] == grown[k] {
      OwnNext(order[k], all, o);
      assert Own(order[k], all) + [] == Own(order[k], all);
    }
  }

  lemma BucketOpens(all: seq<Lookup>, o: Lookup)
    requires o.resolver !in Resolvers(all)
    ensures Buckets(all + [o]) == Buckets(all) + [(o.resolver, [o])]
  {
    var order := Resolvers(all);
    ResolversNext(all, o);
    OwnNothing(o.resolver, all);
    OwnNext(o.resolver, all, o);
    assert Own(o.resolver, all + [o]) == [o];
    hide Resolvers, Own;
    forall k | 0 <= k < |order| ensures Buckets(all + [o])[k] == Buckets(all)[k] {
      OwnNext(order[k], all, o);
      assert Own(order[k], all) + [] == Own(order[k], all);
    }
  }

  lemma ResolversNext(all: seq<Lookup>, o: Lookup)
    ensures Resolvers(all + [o]) == Resolvers(all) + if o.resolver in Resolvers(all) then [] else [o.resolver]
  {
    var s := Map(all + [o], ResolverOf);
    assert s[..|all|] == Map(all, ResolverOf) && s[|all|] == o.resolver;
  }

  lemma OwnNext(r: Resolver, all: seq<Lookup>, o: Lookup)
    ensures Own(r, all + [o]) == Own(r, all) + if o.resolver == r then [o] else []
  {
  }

  lemma OwnNothing(r: Resolver, all: seq<Lookup>)
    requires r !in Resolvers(all)
    ensures Own(r, all) == []
  {
    forall o | o in all ensures o.resolver != r {
      var i :| 0 <= i < |all| && all[i] == o;
      assert Map(all, ResolverOf)[i] == o.resolver;
    }
    NoneOwn(r, all);
  }

  lemma {:induction false} NoneOwn(r: Resolver, all: seq<Lookup>)
    requires forall o :: o in all ==> o.resolver != r
    ensures Own(r, all) == []
  {
    if all != [] {
      NoneOwn(r, all[..|all| - 1]);
    }
  }

  function Rows(all: seq<Lookup>, attempts: nat): (rows: seq<LookupRow>)
    ensures |rows| == |Resolvers(all)|
    ensures forall i :: 0 <= i < |rows| ==> rows[i] == AggregateLookups(Own(Resolvers(all)[i], all), attempts)
  {
    hide AggregateLookups;
    seq(|Resolvers(all)|,
      i requires 0 <= i < |Resolvers(all)| => AggregateLookups(Own(Resolvers(all)[i], all), attempts))
  }

  /** One row a resolver, sorted by label. */
  function Table(rounds: seq<seq<Lookup>>, labelRank: LookupRow -> int): seq<LookupRow> {
    SortByKey(Rows(Flatten(rounds), |rounds|), labelRank)
  }

  /** The observations of all rounds, filed under their resolvers. */
  method GroupByResolver(rounds: seq<seq<Lookup>>) returns (perResolver: seq<(Resolver, seq<Lookup>)>)
    ensures perResolver == Buckets(Flatten(rounds))
  {
    hide AggregateLookups, Flatten;
    perResolver := [];
    ghost var all: seq<Lookup> := [];
    FlattenNothing();
    for i := 0 to |rounds|
      invariant all == Flatten(rounds[..i]) && perResolver == Buckets(all)
    {
      FlattenNext(rounds, i);
      assert all + rounds[i][..0] == all;
      for j := 0 to |rounds[i]|
        invariant perResolver == Buckets(all + rounds[i][..j])
      {
        perResolver := AddToBuckets(perResolver, rounds[i][j], all + rounds[i][..j]);
        assert all + rounds[i][..j] + [rounds[i][j]] == all + rounds[i][..j + 1];
      }
      assert rounds[i][..|rounds[i]|] == rounds[i];
      all := all + rounds[i];
    }
    assert rounds[..|rounds|] == rounds;
  }

  /** `rounds[i]` is what attempt `i` observed; `labelRank` stands for the order of the resolvers' labels. */
  method ResolveRepeat(rounds: seq<seq<Lookup>>, labelRank: LookupRow -> int) returns (out: seq<LookupRow>)
    ensures out == Table(rounds, labelRank)
  {
    hide AggregateLookups, SortByKey, Flatten, Own, Resolvers;
    var perResolver := GroupByResolver(rounds);
    out := [];
    for i := 0 to |perResolver|
      invariant out == Rows(Flatten(rounds), |rounds|)[..i]
    {
      var row := AggregateRepeat(perResolver[i].1, |rounds|);
      out := out + [row];
    }
    assert out == Rows(Flatten(rounds), |rounds|);
    out := SortByKey(out, labelRank);
  }

  lemma FlattenNothing()
    ensures Flatten<Lookup>([]) == []
  {
  }

  // ----- the rows add up -----

  /** Attempt by attempt, one observation from `r`. */
  predicate OncePerRound(r: Resolver, rounds: seq<seq<Lookup>>) {
    forall i :: 0 <= i < |rounds| ==> |Own(r, rounds[i])| == 1
  }

  lemma OwnAppend(r: Resolver, a: seq<Lookup>, b: seq<Lookup>)
    ensures Own(r, a + b) == Own(r, a) + Own(r, b)
  {
    if b == [] {
      assert a + b == a;
    } else {
      var init, last := b[..|b| - 1], b[|b| - 1];
      assert b == init + [last] && a + b == (a + init) + [last];
      OwnAppend(r, a, init);
      OwnNext(r, a + init, last);
      OwnNext(r, init, last);
    }
  }

  lemma {:induction false} BucketSize(r: Resolver, rounds: seq<seq<Lookup>>)
    requires OncePerRound(r, rounds)
    ensures |Own(r, Flatten(rounds))| == |rounds|
  {
    if rounds != [] {
      assert forall i :: 0 <= i < |rounds[1..]| ==> rounds[1..][i] == rounds[i + 1];
      BucketSize(r, rounds[1..]);
      OwnAppend(r, rounds[0], Flatten(rounds[1..]));
    }
  }

  /** A resolver that answers or fails once in every round gets one row, whose successes and failures are
      the attempts and whose failure counts add up. */
  lemma RowConserves(r: Resolver, rounds: seq<seq<Lookup>>)
    requires OncePerRound(r, rounds) && forall o :: o in Own(r, Flatten(rounds)) ==> !Silent(o)
    ensures var row := AggregateLookups(Own(r, Flatten(rounds)), |rounds|);
      row.successes + row.failures == |rounds| && TotalCount(row.failureCounts) == row.failures
  {
    hide AggregateLookups, Flatten, Own;
    BucketSize(r, rounds);
    LookupsConserved(Own(r, Flatten(rounds)), |rounds|);
  }

  /** One row a resolver, each carrying the resolver whose observations it sums up. */
  lemma RowsByResolver(all: seq<Lookup>, attempts: nat)
    ensures var rows := Rows(all, attempts);
      && Distinct(Resolvers(all))
      && (forall o :: o in all ==> o.resolver in Resolvers(all))
      && forall i :: 0 <= i < |rows| ==> rows[i].resolver == Resolvers(all)[i]
  {
    hide Summarized, TallyOf, Collected, LeastOf;
    forall o | o in all ensures o.resolver in Resolvers(all) {
      var i :| 0 <= i < |all| && all[i] == o;
      assert Map(all, ResolverOf)[i] == o.resolver;
    }
    forall i | 0 <= i < |Resolvers(all)| ensures Rows(all, attempts)[i].resolver == Resolvers(all)[i] {
      var r := Resolvers(all)[i];
      assert r in Map(all, ResolverOf);
      var j :| 0 <= j < |all| && Map(all, ResolverOf)[j] == r;
      assert all[j] in Own(r, all);
      assert Own(r, all)[0] in Own(r, all);
    }
  }

  // ----- the order inside the rounds -----

  /** A round's observations arrive in any order. */
  predicate RoundsPermuted(a: seq<seq<Lookup>>, b: seq<seq<Lookup>>) {
    |a| == |b| && forall i :: 0 <= i < |a| ==> multiset(a[i]) == multiset(b[i])
  }

  ghost predicate AtMostOncePerRound(rounds: seq<seq<Lookup>>) {
    forall i, r: Resolver :: 0 <= i < |rounds| ==> |Own(r, rounds[i])| <= 1
  }

  /** The rank is a rank of the resolvers' labels, which differ. */
  ghost predicate RanksResolvers(labelRank: LookupRow -> int) {
    forall p, q :: labelRank(p) == labelRank(q) <==> p.resolver == q.resolver
  }

  function MadeBy(r: Resolver): Lookup -> Option<Lookup> {
    (o: Lookup) => if o.resolver == r then Some(o) else None
  }

  lemma {:induction false} OwnIsCollected(r: Resolver, all: seq<Lookup>)
    ensures Own(r, all) == Collected(all, MadeBy(r))
  {
    if all != [] {
      var n := |all| - 1;
      OwnIsCollected(r, all[..n]);
      CollectedLast(all, n, MadeBy(r));
      assert all[..n + 1] == all;
      assert Own(r, all[..n]) + [] == Own(r, all[..n]);
    }
  }

  lemma OwnOfRound(r: Resolver, a: seq<Lookup>, b: seq<Lookup>)
    requires multiset(a) == multiset(b) && |Own(r, a)| <= 1
    ensures Own(r, a) == Own(r, b)
  {
    hide Own, Collected;
    OwnIsCollected(r, a);
    OwnIsCollected(r, b);
    CollectedPermutation(a, b, MadeBy(r));
    PermutationElements(Own(r, a), Own(r, b));
    assert Own(r, a) != [] ==> Own(r, a)[0] in Own(r, b);
  }

  lemma {:induction false} OwnOfRounds(r: Resolver, a: seq<seq<Lookup>>, b: seq<seq<Lookup>>)
    requires RoundsPermuted(a, b) && AtMostOncePerRound(a)
    ensures Own(r, Flatten(a)) == Own(r, Flatten(b))
    decreases |a|
  {
    if a != [] {
      OwnOfRound(r, a[0], b[0]);
      assert forall i :: 0 <= i < |a[1..]| ==> a[1..][i] == a[i + 1] && b[1..][i] == b[i + 1];
      OwnOfRounds(r, a[1..], b[1..]);
      OwnAppend(r, a[0], Flatten(a[1..]));
      OwnAppend(r, b[0], Flatten(b[1..]));
    }
  }

  lemma ResolversOfRounds(a: seq<seq<Lookup>>, b: seq<seq<Lookup>>)
    requires RoundsPermuted(a, b) && AtMostOncePerRound(a)
    ensures multiset(Resolvers(Flatten(a))) == multiset(Resolvers(Flatten(b)))
  {
    hide Flatten;
    forall r ensures r in Resolvers(Flatten(a)) <==> r in Resolvers(Flatten(b)) {
      OwnOfRounds(r, a, b);
      ResolverObserved(r, Flatten(a));
      ResolverObserved(r, Flatten(b));
    }
    DistinctSameElements(Resolvers(Flatten(a)), Resolvers(Flatten(b)));
  }

  lemma ResolverObserved(r: Resolver, all: seq<Lookup>)
    ensures r in Resolvers(all) <==> Own(r, all) != []
  {
    if r in Resolvers(all) {
      var i :| 0 <= i < |all| && Map(all, ResolverOf)[i] == r;
      assert all[i] in Own(r, all);
    } else {
      OwnNothing(r, all);
    }
  }

  function RowFor(all: seq<Lookup>, attempts: nat): Resolver -> LookupRow {
    (r: Resolver) => AggregateLookups(Own(r, all), attempts)
  }

  /** The whole table is the same whatever order the observations of each round arrive in, when a resolver
      makes at most one of them a round. */
  lemma TablePermutation(a: seq<seq<Lookup>>, b: seq<seq<Lookup>>, labelRank: LookupRow -> int)
    requires RoundsPermuted(a, b) && AtMostOncePerRound(a) && RanksResolvers(labelRank)
    ensures Table(a, labelRank) == Table(b, labelRank)
  {
    hide Flatten, Own, Resolvers, AggregateLookups, SortByKey, AtMostOncePerRound;
    var n, x, y := |a|, Flatten(a), Flatten(b);
    forall r ensures Own(r, x) == Own(r, y) {
      OwnOfRounds(r, a, b);
    }
    ResolversOfRounds(a, b);
    MapMultiset(Resolvers(x), Resolvers(y), RowFor(x, n));
    assert Rows(x, n) == Map(Resolvers(x), RowFor(x, n));
    assert Rows(y, n) == Map(Resolvers(y), RowFor(x, n));
    RowsByResolver(x, n);
    forall p, q | p in Rows(x, n) && q in Rows(x, n) && labelRank(p) == labelRank(q) ensures p == q {
      var i :| 0 <= i < |Rows(x, n)| && Rows(x, n)[i] == p;
      var j :| 0 <= j < |Rows(x, n)| && Rows(x, n)[j] == q;
      assert Resolvers(x)[i] == p.resolver == q.resolver == Resolvers(x)[j];
    }
    SortByKeyUpToOrder(Rows(x, n), Rows(y, n), labelRank);
  }

  // ----- what a row counts -----

  function AnsweredIn(ms: nat): Lookup -> bool {
    (o: Lookup) => o.latencyMs == Some(ms)
  }

  function FailedAs(kind: FailureKind): Lookup -> bool {
    (o: Lookup) => o.latencyMs.None? && o.error == Some(kind)
  }

  lemma RowParts(bucket: seq<Lookup>, attempts: nat)
    ensures var r := AggregateLookups(bucket, attempts);
      && r.attempts == attempts && r.successes == |Collected(bucket, LatencyOf)|
      && r.latency.samples == Collected(bucket, LatencyOf) && r.successRate == Rate(r.successes, attempts)
      && r.failureCounts == TallyOf(Collected(bucket, ErrorOf), FailureRank)
      && r.ttl == LeastOf(Collected(bucket, TtlOf))
  {
    hide TallyOf, Collected, Rate, LeastOf;
  }

  /** Lookups with a latency are the successes, whatever else they carry; the others count with their error.
      The rate is successes per attempt, and the TTL is the least that any lookup carried. */
  lemma RowExact(bucket: seq<Lookup>, attempts: nat, ms: nat, kind: FailureKind, n: nat)
    requires |bucket| <= attempts
    ensures var r := AggregateLookups(bucket, attempts);
      && r.attempts == attempts
      && r.successRate * (if attempts == 0 then 1 else attempts) as real == r.successes as real
      && multiset(r.latency.samples)[ms] == HowMany(bucket, AnsweredIn(ms))
      && (Count(kind, n) in r.failureCounts <==> 0 < n == HowMany(bucket, FailedAs(kind)))
  {
    hide AggregateLookups, TallyOf, Collected, HowMany, Rate, LeastOf;
    RowParts(bucket, attempts);
    CollectedTimes(bucket, LatencyOf, ms, AnsweredIn(ms));
    CollectedTimes(bucket, ErrorOf, kind, FailedAs(kind));
    RanksSeparate();
    Listed(Collected(bucket, ErrorOf), FailureRank, kind, n);
    RateTimes(|Collected(bucket, LatencyOf)|, attempts);
  }

  /** The TTL of a row is the least that any of its lookups carried. */
  lemma RowTtl(bucket: seq<Lookup>, attempts: nat)
    ensures var ttl := AggregateLookups(bucket, attempts).ttl;
      && (ttl.None? <==> forall o :: o in bucket ==> o.ttl.None?)
      && (ttl.Some? ==> exists o :: o in bucket && o.ttl == ttl)
      && (ttl.Some? ==> forall o :: o in bucket && o.ttl.Some? ==> ttl.value <= o.ttl.value)
  {
    hide AggregateLookups, Collected, LeastOf;
    RowParts(bucket, attempts);
    LeastIsLeast(Collected(bucket, TtlOf));
    TtlsOf(bucket);
  }

  lemma {:induction false} TtlsOf(bucket: seq<Lookup>)
    ensures forall t :: t in Collected(bucket, TtlOf) <==> exists o :: o in bucket && o.ttl == Some(t)
    ensures Collected(bucket, TtlOf) == [] <==> forall o :: o in bucket ==> o.ttl.None?
  {
    if bucket != [] {
      TtlsOf(bucket[1..]);
      assert forall o :: o in bucket <==> o == bucket[0] || o in bucket[1..];
    }
  }
}
