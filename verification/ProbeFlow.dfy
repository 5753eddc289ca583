/** `run_probe_flow`: resolve every target, then probe every (target, address) pair, both under one
    shared limit, then regroup the results by target. The regrouped report is the sequential one. */
module ProbeFlow {
  import opened Collections
  import opened Sorting
  import opened Net
  import opened ParallelMap
  import opened Probes

  /** `probe(i, k, d)` is the outcome of the probe of target `i`'s `k`-th address `d`; it gives `None`
      when the probe panicked, and `resolves` is false for a lookup task that panicked. The parallel
      map drops both. */
  datatype Config = Config(
    targets: seq<Target>, ipv4Only: bool, ipv6Only: bool, concurrency: nat,
    resolves: nat -> bool, probe: (nat, nat, SocketAddr) -> Option<Value>)

  /** A resolved target: its index, and its destinations unless it has none to probe. */
  datatype ResolvedTarget = ResolvedTarget(index: nat, destinations: Option<seq<SocketAddr>>)

  datatype Item = Item(index: nat, k: nat, destination: SocketAddr)

  datatype Probed = Probed(index: nat, observation: Observation)

  datatype TargetReport = TargetReport(index: nat, results: seq<Observation>)

  datatype FlowOutput = FlowOutput(perTarget: seq<TargetReport>, unresolved: nat)

  function InScope(c: Config): Ip -> bool {
    (ip: Ip) => if c.ipv4Only then ip.V4? else if c.ipv6Only then ip.V6? else true
  }

  /** De-duplicated in lookup order, then scoped; nothing to probe counts as unresolved. */
  function Destinations(c: Config, i: nat): Option<seq<SocketAddr>>
    requires i < |c.targets|
  {
    var addrs := FirstOccurrences(c.targets[i].lookups);
    if addrs == [] then None
    else
      var dests := Map(Filter(addrs, InScope(c)), ip => SocketAddr(ip, c.targets[i].port));
      if dests == [] && (c.ipv4Only || c.ipv6Only) then None else Some(dests)
  }

  function ResolveTask(c: Config): nat -> Option<ResolvedTarget> {
    (i: nat) =>
      if i < |c.targets| && c.resolves(i) then Some(ResolvedTarget(i, Destinations(c, i))) else None
  }

  function ProbeTask(c: Config): Item -> Option<Probed> {
    (it: Item) =>
      match c.probe(it.index, it.k, it.destination)
      case Some(v) => Some(Probed(it.index, Observation(it.destination, v)))
      case None => None
  }

  function TargetIndex(r: ResolvedTarget): int { r.index }

  function TargetItems(r: ResolvedTarget): seq<Item> {
    match r.destinations
    case Some(dests) => seq(|dests|, k requires 0 <= k < |dests| => Item(r.index, k, dests[k]))
    case None => []
  }

  function ProbeItems(resolved: seq<ResolvedTarget>): seq<Item> {
    if resolved == [] then [] else TargetItems(resolved[0]) + ProbeItems(resolved[1..])
  }

  /** The observations of one target, in the order they came back. */
  function Bucket(probed: seq<Probed>, i: nat): seq<Observation> {
    if probed == [] then []
    else if probed[0].index == i then [probed[0].observation] + Bucket(probed[1..], i)
    else Bucket(probed[1..], i)
  }

  function Report(resolved: seq<ResolvedTarget>, results: nat -> seq<Observation>): FlowOutput {
    if resolved == [] then FlowOutput([], 0)
    else
      var init, last := Report(resolved[..|resolved| - 1], results), resolved[|resolved| - 1];
      match last.destinations
      case Some(_) => init.(perTarget := init.perTarget + [TargetReport(last.index, results(last.index))])
      case None => init.(unresolved := init.unresolved + 1)
  }

  /** What one target contributes when its addresses are probed one after the other. */
  function SequentialResults(c: Config): nat -> seq<Observation> {
    (i: nat) =>
      if i < |c.targets| then
        SortByKey(
          Bucket(OneByOne(TargetItems(ResolvedTarget(i, Destinations(c, i))), ProbeTask(c)), i), DestinationRank)
      else []
  }

  /** Resolve and probe one target after the other, one address after the other. */
  function SequentialFlow(c: Config): FlowOutput {
    Report(OneByOne(Upto(|c.targets|), ResolveTask(c)), SequentialResults(c))
  }

  // ----- regrouping -----

  lemma BucketAppend(a: seq<Probed>, b: seq<Probed>, i: nat)
    ensures Bucket(a + b, i) == Bucket(a, i) + Bucket(b, i)
  {
    if a == [] {
      assert a + b == b;
    } else {
      assert (a + b)[1..] == a[1..] + b;
      BucketAppend(a[1..], b, i);
    }
  }

  lemma BucketCount(probed: seq<Probed>, i: nat, o: Observation)
    ensures multiset(Bucket(probed, i))[o] == multiset(probed)[Probed(i, o)]
  {
    if probed != [] {
      assert probed == [probed[0]] + probed[1..];
      BucketCount(probed[1..], i, o);
    }
  }

  lemma BucketUpToOrder(a: seq<Probed>, b: seq<Probed>, i: nat)
    requires multiset(a) == multiset(b)
    ensures multiset(Bucket(a, i)) == multiset(Bucket(b, i))
  {
    forall o ensures multiset(Bucket(a, i))[o] == multiset(Bucket(b, i))[o] {
      BucketCount(a, i, o);
      BucketCount(b, i, o);
    }
  }

  lemma {:induction false} OneByOneIndex(c: Config, items: seq<Item>, i: nat)
    requires forall it :: it in items ==> it.index != i
    ensures Bucket(OneByOne(items, ProbeTask(c)), i) == []
  {
    if items != [] {
      assert items[0] in items && forall it :: it in items[1..] ==> it in items;
      OneByOneIndex(c, items[1..], i);
    }
  }

  /** Of all probe items, only those of target `i` reach its bucket. */
  lemma {:induction false} BucketOfTarget(c: Config, resolved: seq<ResolvedTarget>, j: nat)
    requires j < |resolved|
    requires forall k :: 0 <= k < |resolved| && k != j ==> resolved[k].index != resolved[j].index
    ensures Bucket(OneByOne(ProbeItems(resolved), ProbeTask(c)), resolved[j].index)
            == Bucket(OneByOne(TargetItems(resolved[j]), ProbeTask(c)), resolved[j].index)
  {
    var i, first, rest := resolved[j].index, TargetItems(resolved[0]), ProbeItems(resolved[1..]);
    OneByOneAppend(first, rest, ProbeTask(c));
    BucketAppend(OneByOne(first, ProbeTask(c)), OneByOne(rest, ProbeTask(c)), i);
    if j == 0 {
      ProbeItemsIndex(resolved[1..], i);
      OneByOneIndex(c, rest, i);
    } else {
      OneByOneIndex(c, first, i);
      BucketOfTarget(c, resolved[1..], j - 1);
    }
  }

  lemma {:induction false} ProbeItemsIndex(resolved: seq<ResolvedTarget>, i: nat)
    requires forall k :: 0 <= k < |resolved| ==> resolved[k].index != i
    ensures forall it :: it in ProbeItems(resolved) ==> it.index != i
  {
    if resolved != [] {
      ProbeItemsIndex(resolved[1..], i);
    }
  }

  lemma DestinationsDistinct(c: Config, i: nat)
    requires i < |c.targets| && Destinations(c, i).Some?
    ensures Distinct(Destinations(c, i).value)
  {
    FilterDistinct(FirstOccurrences(c.targets[i].lookups), InScope(c));
  }

  lemma {:induction false} OneByOneOrigin<I(!new), T(!new)>(items: seq<I>, f: I -> Option<T>, x: T)
    requires x in OneByOne(items, f)
    ensures exists it :: it in items && f(it) == Some(x)
  {
    if f(items[0]) != Some(x) {
      OneByOneOrigin(items[1..], f, x);
    }
  }

  /** De-duplicated addresses give the observations of one target distinct sort keys. */
  lemma KeysDistinct(c: Config, i: nat, x: Observation, y: Observation)
    requires i < |c.targets|
    requires var all := OneByOne(TargetItems(ResolvedTarget(i, Destinations(c, i))), ProbeTask(c));
      Probed(i, x) in all && Probed(i, y) in all
    requires DestinationRank(x) == DestinationRank(y)
    ensures x == y
  {
    var items := TargetItems(ResolvedTarget(i, Destinations(c, i)));
    OneByOneOrigin(items, ProbeTask(c), Probed(i, x));
    OneByOneOrigin(items, ProbeTask(c), Probed(i, y));
    SocketRankOrders(x.destination, y.destination);
    DestinationsDistinct(c, i);
  }

  /** Grouping by target and sorting undoes the completion order. */
  lemma RegroupedIsSequential(c: Config, resolved: seq<ResolvedTarget>, probed: seq<Probed>, j: nat)
    requires j < |resolved| && resolved[j].index < |c.targets|
    requires resolved[j].destinations == Destinations(c, resolved[j].index)
    requires forall k :: 0 <= k < |resolved| && k != j ==> resolved[k].index != resolved[j].index
    requires multiset(probed) == multiset(OneByOne(ProbeItems(resolved), ProbeTask(c)))
    ensures SortByKey(Bucket(probed, resolved[j].index), DestinationRank) == SequentialResults(c)(resolved[j].index)
  {
    hide Destinations, SortByKey;
    var i := resolved[j].index;
    var all, own := OneByOne(ProbeItems(resolved), ProbeTask(c)), OneByOne(TargetItems(resolved[j]), ProbeTask(c));
    BucketUpToOrder(probed, all, i);
    BucketOfTarget(c, resolved, j);
    var a, b := Bucket(probed, i), Bucket(own, i);
    PermutationElements(a, b);
    forall x, y | x in a && y in a && DestinationRank(x) == DestinationRank(y) ensures x == y {
      BucketOrigin(own, i, x);
      BucketOrigin(own, i, y);
      KeysDistinct(c, i, x, y);
    }
    SortByKeyUpToOrder(a, b, DestinationRank);
  }

  lemma {:induction false} BucketOrigin(probed: seq<Probed>, i: nat, o: Observation)
    requires o in Bucket(probed, i)
    ensures Probed(i, o) in probed
  {
    if probed[0] != Probed(i, o) {
      BucketOrigin(probed[1..], i, o);
    }
  }

  /** Sorting the resolved targets by index undoes the completion order of the lookups. */
  lemma ResolvedInOrder(c: Config, order: seq<nat>)
    requires IsOrder(order, |c.targets|)
    ensures SortByKey(Collect(order, Block(Upto(|c.targets|), ResolveTask(c))), TargetIndex)
            == OneByOne(Upto(|c.targets|), ResolveTask(c))
  {
    hide Collect, SortByKey, Destinations;
    var n, block := |c.targets|, Block(Upto(|c.targets|), ResolveTask(c));
    SortedCollectIsSequential(order, n, block, TargetIndex, (k: int) => k);
    CollectIsOneByOne(Upto(n), n, ResolveTask(c));
    assert Upto(n)[..n] == Upto(n);
  }

  /** The resolved list names each resolvable target once, with its own destinations. */
  lemma {:induction false} ResolvedTargets(c: Config, n: nat)
    requires n <= |c.targets|
    ensures var r := OneByOne(Upto(n), ResolveTask(c));
      && (forall j :: 0 <= j < |r| ==> r[j].index < n && r[j].destinations == Destinations(c, r[j].index))
      && (forall j, k :: 0 <= j < k < |r| ==> r[j].index < r[k].index)
  {
    if n > 0 {
      hide Destinations;
      var last: nat := n - 1;
      ResolvedTargets(c, last);
      assert Upto(n) == Upto(last) + [last];
      OneByOneAppend(Upto(last), [last], ResolveTask(c));
      assert OneByOne([last], ResolveTask(c)) ==
        if c.resolves(last) then [ResolvedTarget(last, Destinations(c, last))] else [];
    }
  }

  // ----- the flow -----

  /** Files every result under its target's index. */
  method Regroup(probed: seq<Probed>, n: nat) returns (buckets: array<seq<Observation>>)
    requires forall p :: p in probed ==> p.index < n
    ensures fresh(buckets) && buckets.Length == n
    ensures forall i :: 0 <= i < n ==> buckets[i] == Bucket(probed, i)
  {
    buckets := new seq<Observation>[n](_ => []);
    for j := 0 to |probed|
      invariant forall i :: 0 <= i < n ==> buckets[i] == Bucket(probed[..j], i)
    {
      var p := probed[j];
      assert probed[..j + 1] == probed[..j] + [p];
      forall i: nat ensures Bucket(probed[..j + 1], i) == Bucket(probed[..j], i) + Bucket([p], i) {
        BucketAppend(probed[..j], [p], i);
      }
      assert forall i: nat :: Bucket([p], i) == if p.index == i then [p.observation] else [];
      buckets[p.index] := buckets[p.index] + [p.observation];
    }
    assert probed[..|probed|] == probed;
  }

  predicate IndexedBelow(resolved: seq<ResolvedTarget>, n: nat) {
    forall j :: 0 <= j < |resolved| ==> resolved[j].index < n
  }

  /** Sorted, the bucket of every resolved target is what probing that target sequentially gives. */
  ghost predicate Filed(c: Config, resolved: seq<ResolvedTarget>, buckets: seq<seq<Observation>>)
    requires IndexedBelow(resolved, |buckets|)
  {
    forall j :: 0 <= j < |resolved| ==>
      SortByKey(buckets[resolved[j].index], DestinationRank) == SequentialResults(c)(resolved[j].index)
  }

  /** Sorts every bucket and lists the targets, counting those with nothing to probe. */
  method BuildReport(c: Config, resolved: seq<ResolvedTarget>, buckets: array<seq<Observation>>)
    returns (out: FlowOutput)
    requires IndexedBelow(resolved, buckets.Length) && Filed(c, resolved, buckets[..])
    ensures out == Report(resolved, SequentialResults(c))
  {
    hide SequentialResults, SortByKey;
    out := FlowOutput([], 0);
    for j := 0 to |resolved|
      invariant out == Report(resolved[..j], SequentialResults(c))
    {
      var r := resolved[j];
      assert resolved[..j + 1][..j] == resolved[..j];
      match r.destinations {
        case Some(_) =>
          var results := SortByKey(buckets[r.index], DestinationRank);
          out := out.(perTarget := out.perTarget + [TargetReport(r.index, results)]);
        case None =>
          out := out.(unresolved := out.unresolved + 1);
      }
    }
    assert resolved[..|resolved|] == resolved;
  }

  /** The whole flow. The two parallel maps complete in any order, yet the output is a function of the
      configuration: that of the sequential flow, with a report for every target whose lookup left something
      to probe. */
  method RunProbeFlow(c: Config) returns (out: FlowOutput)
    ensures out == SequentialFlow(c)
    ensures out.perTarget == OneByOne(Upto(|c.targets|), ReportDue(c))
    ensures out.unresolved == HowMany(Upto(|c.targets|), LeftNothing(c))
  {
    hide Collect, SortByKey, Report, SequentialResults, ProbeItems, OneByOne, Destinations;
    var limit, n := Permits(c.concurrency), |c.targets|;
    var resolved, order := ParallelMapWithLimit(Upto(n), limit, ResolveTask(c));
    ResolvedInOrder(c, order);
    ResolvedTargets(c, n);
    resolved := SortByKey(resolved, TargetIndex);
    var items := ProbeItems(resolved);
    var probed, order2 := ParallelMapWithLimit(items, limit, ProbeTask(c));
    ProbedIndex(c, resolved, probed);
    var buckets := Regroup(probed, n);
    forall j | 0 <= j < |resolved|
      ensures SortByKey(buckets[resolved[j].index], DestinationRank) == SequentialResults(c)(resolved[j].index)
    {
      RegroupedIsSequential(c, resolved, probed, j);
    }
    out := BuildReport(c, resolved, buckets);
    FlowHolds(c);
  }

  lemma ProbedIndex(c: Config, resolved: seq<ResolvedTarget>, probed: seq<Probed>)
    requires IndexedBelow(resolved, |c.targets|)
    requires multiset(probed) == multiset(OneByOne(ProbeItems(resolved), ProbeTask(c)))
    ensures forall p :: p in probed ==> p.index < |c.targets|
  {
    PermutationElements(probed, OneByOne(ProbeItems(resolved), ProbeTask(c)));
    forall p | p in probed ensures p.index < |c.targets| {
      OneByOneOrigin(ProbeItems(resolved), ProbeTask(c), p);
      ItemIndex(resolved, |c.targets|);
    }
  }

  lemma {:induction false} ItemIndex(resolved: seq<ResolvedTarget>, n: nat)
    requires IndexedBelow(resolved, n)
    ensures forall it :: it in ProbeItems(resolved) ==> it.index < n
  {
    if resolved != [] {
      ItemIndex(resolved[1..], n);
    }
  }

  // ----- what the output holds -----

  /** The destinations of a target are the addresses its lookups gave, on its own port, within the scope
      (IPv4 wins when both are asked for); it has none to probe exactly when there is no such address, save
      that without a scope only the lack of any lookup counts. */
  lemma FlowDestinations(c: Config, i: nat)
    requires i < |c.targets|
    ensures Destinations(c, i).None? <==> forall ip :: ip in c.targets[i].lookups ==>
      (c.ipv4Only && ip.V6?) || (!c.ipv4Only && c.ipv6Only && ip.V4?)
    ensures Destinations(c, i).Some? ==> forall d :: d in Destinations(c, i).value <==>
      && d.port == c.targets[i].port && d.ip in c.targets[i].lookups
      && if c.ipv4Only then d.ip.V4? else (c.ipv6Only ==> d.ip.V6?)
  {
    var lookups := c.targets[i].lookups;
    var ips := Filter(FirstOccurrences(lookups), InScope(c));
    var dests := Map(ips, ip => SocketAddr(ip, c.targets[i].port));
    assert lookups != [] ==> lookups[0] in FirstOccurrences(lookups);
    assert ips != [] ==> ips[0] in ips;
    forall d ensures d in dests <==> d.ip in ips && d.port == c.targets[i].port {
      if d.ip in ips && d.port == c.targets[i].port {
        var k :| 0 <= k < |ips| && ips[k] == d.ip;
        assert dests[k] == d;
      }
    }
    hide FirstOccurrences, Filter, Map;
  }

  /** What a target should report: nothing when its lookup panicked or left nothing to probe. */
  function ReportDue(c: Config): nat -> Option<TargetReport> {
    (i: nat) =>
      if i < |c.targets| && c.resolves(i) && Destinations(c, i).Some? then
        Some(TargetReport(i, SequentialResults(c)(i)))
      else None
  }

  /** A target that counts as unresolved: its lookup returned and left nothing to probe. */
  function LeftNothing(c: Config): nat -> bool {
    (i: nat) => i < |c.targets| && c.resolves(i) && Destinations(c, i).None?
  }

  lemma ReportLast(resolved: seq<ResolvedTarget>, r: ResolvedTarget, results: nat -> seq<Observation>)
    ensures var before, after := Report(resolved, results), Report(resolved + [r], results);
      after == if r.destinations.Some? then
          before.(perTarget := before.perTarget + [TargetReport(r.index, results(r.index))])
        else before.(unresolved := before.unresolved + 1)
  {
    assert (resolved + [r])[..|resolved|] == resolved;
  }

  lemma OneMore<T(!new)>(n: nat, f: nat -> Option<T>)
    ensures OneByOne(Upto(n + 1), f) == OneByOne(Upto(n), f) + Optional(f(n))
  {
    assert Upto(n + 1) == Upto(n) + [n];
    OneByOneAppend(Upto(n), [n], f);
  }

  lemma OneMoreCounted(n: nat, p: nat -> bool)
    ensures HowMany(Upto(n + 1), p) == HowMany(Upto(n), p) + if p(n) then 1 else 0
  {
    assert Upto(n + 1) == Upto(n) + [n];
    HowManyAppend(Upto(n), [n], p);
  }

  lemma TaskOf(c: Config, i: nat)
    requires i < |c.targets|
    ensures ResolveTask(c)(i) == if c.resolves(i) then Some(ResolvedTarget(i, Destinations(c, i))) else None
    ensures ReportDue(c)(i) == if c.resolves(i) && Destinations(c, i).Some? then
        Some(TargetReport(i, SequentialResults(c)(i))) else None
    ensures LeftNothing(c)(i) <==> c.resolves(i) && Destinations(c, i).None?
  {
    hide Destinations, SequentialResults;
  }

  lemma {:induction false} ReportUpto(c: Config, n: nat)
    requires n <= |c.targets|
    ensures var out := Report(OneByOne(Upto(n), ResolveTask(c)), SequentialResults(c));
      && out.perTarget == OneByOne(Upto(n), ReportDue(c))
      && out.unresolved == HowMany(Upto(n), LeftNothing(c))
  {
    if n > 0 {
      hide Destinations, SequentialResults, Report, OneByOne, HowMany, ReportDue, LeftNothing, ResolveTask, Upto;
      var last: nat := n - 1;
      ReportUpto(c, last);
      OneMore(last, ResolveTask(c));
      OneMore(last, ReportDue(c));
      OneMoreCounted(last, LeftNothing(c));
      TaskOf(c, last);
      var resolved := OneByOne(Upto(last), ResolveTask(c));
      if c.resolves(last) {
        ReportLast(resolved, ResolvedTarget(last, Destinations(c, last)), SequentialResults(c));
      } else {
        assert resolved + [] == resolved;
      }
      assert OneByOne(Upto(last), ReportDue(c)) + [] == OneByOne(Upto(last), ReportDue(c));
    } else {
      assert Upto(n) == [];
    }
  }

  /** The flow reports every target whose lookup left something to probe, in the order of the targets, and
      counts those whose lookup left nothing. */
  lemma FlowHolds(c: Config)
    ensures SequentialFlow(c).perTarget == OneByOne(Upto(|c.targets|), ReportDue(c))
    ensures SequentialFlow(c).unresolved == HowMany(Upto(|c.targets|), LeftNothing(c))
  {
    hide Report, OneByOne, HowMany, ReportDue, LeftNothing;
    ReportUpto(c, |c.targets|);
  }

  lemma {:induction false} OneByOneHas<I(!new), T(!new)>(items: seq<I>, f: I -> Option<T>)
    ensures forall x :: x in OneByOne(items, f) <==> exists it :: it in items && f(it) == Some(x)
  {
    if items != [] {
      OneByOneHas(items[1..], f);
      assert forall it :: it in items <==> it == items[0] || it in items[1..];
    }
  }

  lemma {:induction false} BucketHas(probed: seq<Probed>, i: nat)
    ensures forall o :: o in Bucket(probed, i) <==> Probed(i, o) in probed
  {
    if probed != [] {
      BucketHas(probed[1..], i);
      assert forall p :: p in probed <==> p == probed[0] || p in probed[1..];
    }
  }

  /** The results of a target are what the probes of its destinations observed, and nothing else, sorted by
      destination. */
  lemma ResultsHold(c: Config, i: nat, o: Observation)
    requires i < |c.targets| && Destinations(c, i).Some?
    ensures var results, dests := SequentialResults(c)(i), Destinations(c, i).value;
      && (o in results <==> exists k: nat :: k < |dests| && dests[k] == o.destination
                                             && c.probe(i, k, o.destination) == Some(o.value))
      && SortedByKey(results, DestinationRank)
  {
    hide Destinations, SortByKey, Bucket, OneByOne;
    var dests, items := Destinations(c, i).value, TargetItems(ResolvedTarget(i, Destinations(c, i)));
    var probed := OneByOne(items, ProbeTask(c));
    SortByKeyStable(Bucket(probed, i), DestinationRank);
    PermutationElements(SequentialResults(c)(i), Bucket(probed, i));
    BucketHas(probed, i);
    OneByOneHas(items, ProbeTask(c));
    forall k: nat | k < |dests| ensures Item(i, k, dests[k]) in items {
      assert items[k] == Item(i, k, dests[k]);
    }
  }
}
