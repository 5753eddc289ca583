/** The `diagnose` sweep as a step system.

    Targets are processed by an outer `parallel_map` with its own permits. Each target task resolves
    its addresses and then runs its probe phases one after the other; every phase of every target
    draws from one shared inner permit pool. Probe outcomes are an arbitrary function of the target,
    the phase and the destination, and the scheduler is unconstrained. */
module Sweep {
  import opened Collections
  import opened Sorting
  import opened Net
  import opened ParallelMap
  import opened Probes

  datatype FamilyScope = BothFamilies | OnlyV4 | OnlyV6

  predicate Keeps(scope: FamilyScope, ip: Ip) {
    match scope
    case BothFamilies => true
    case OnlyV4 => ip.V4?
    case OnlyV6 => ip.V6?
  }

  function Kept(scope: FamilyScope): Ip -> bool {
    ip => Keeps(scope, ip)
  }

  datatype Phase = Tcp | Tls | Http1 | Http2 | Http3 | Repeat

  /** The sequential phases of one target. `--plain` has no TLS phase, but it does run the HTTP/2 and
      HTTP/3 phases; only their results are left out of the report. */
  function Phases(plain: bool): (r: seq<Phase>)
    ensures |r| >= 5
  {
    if plain then [Tcp, Http1, Http2, Http3, Repeat] else [Tcp, Tls, Http1, Http2, Http3, Repeat]
  }

  /** `probe` gives what one task observed: one value, the TCP and the HTTP repeat for the repeat
      phase, or nothing when the probe panicked and was dropped. */
  datatype Config = Config(
    targets: seq<Target>, family: FamilyScope, plain: bool, concurrency: nat,
    probe: (nat, Phase, SocketAddr) -> seq<Value>)

  datatype Report = Report(
    tcp: seq<Observation>, tls: seq<Observation>, http: seq<Observation>, probes: seq<Observation>)

  // ----- the sequential meaning -----

  /** De-duplicated, scoped to the family, and sorted: the canonical address order. */
  function Addresses(lookups: seq<Ip>, scope: FamilyScope): seq<Ip> {
    SortByKey(Filter(FirstOccurrences(lookups), Kept(scope)), IpRank)
  }

  function Destinations(c: Config, i: nat): (r: seq<SocketAddr>)
    requires i < |c.targets|
  {
    Map(Addresses(c.targets[i].lookups, c.family), ip => SocketAddr(ip, c.targets[i].port))
  }

  /** What probing item `k` of a phase contributes. */
  function Observe(c: Config, i: nat, phase: Phase): nat -> seq<Observation>
    requires i < |c.targets|
  {
    var dests := Destinations(c, i);
    (k: nat) =>
      if k < |dests| then Map(c.probe(i, phase, dests[k]), v => Observation(dests[k], v)) else []
  }

  function SequentialPhase(c: Config, i: nat, phase: Phase): seq<Observation>
    requires i < |c.targets|
  {
    Collect(Upto(|Destinations(c, i)|), Observe(c, i, phase))
  }

  function Assemble(plain: bool, results: seq<seq<Observation>>): Report
    requires |results| == |Phases(plain)|
  {
    if plain then Report(results[0], [], results[1], results[4])
    else Report(results[0], results[1], results[2] + results[3] + results[4], results[5])
  }

  function SequentialReport(c: Config, i: nat): Option<Report>
    requires i < |c.targets|
  {
    if Destinations(c, i) == [] then None
    else
      Some(Assemble(c.plain, seq(|Phases(c.plain)|,
        p requires 0 <= p < |Phases(c.plain)| => SequentialPhase(c, i, Phases(c.plain)[p]))))
  }

  datatype Output = Output(reports: seq<Report>, unresolved: nat)

  function Delivered(indexed: seq<(nat, Option<Report>)>): Output {
    if indexed == [] then Output([], 0)
    else
      var rest := Delivered(indexed[1..]);
      match indexed[0].1
      case Some(report) => rest.(reports := [report] + rest.reports)
      case None => rest.(unresolved := rest.unresolved + 1)
  }

  /** One target after the other, one phase after the other, one address after the other. */
  function Sequential(c: Config): Output {
    Delivered(SequentialIndexed(c))
  }

  function SequentialIndexed(c: Config): seq<(nat, Option<Report>)> {
    seq(|c.targets|, i requires 0 <= i < |c.targets| => (i, SequentialReport(c, i)))
  }

  // ----- the step system -----

  /** A target task: not past its lookups, in the phase numbered `|results|`, or returned. */
  datatype Task =
    | Waiting
    | Probing(pool: Pool, results: seq<seq<Observation>>)
    | Ended(report: Option<Report>)

  datatype Probe = Probe(target: nat, phase: nat, item: nat)

  /** `log` is a history variable: every probe ever started, in order. */
  datatype State = State(outer: Pool, outerFree: nat, innerFree: nat, tasks: seq<Task>, log: seq<Probe>)

  datatype Action =
    | SpawnTarget
    | Resolve(i: nat)
    | StartProbe(i: nat)
    | FinishProbe(i: nat, k: nat)
    | JoinProbe(i: nat, k: nat)
    | NextPhase(i: nat)
    | FinishTarget(i: nat)
    | JoinTarget(i: nat)

  function Init(c: Config): State {
    State(NewPool(|c.targets|), Permits(c.concurrency), Permits(c.concurrency),
          seq(|c.targets|, i => Waiting), [])
  }

  predicate Active(s: State, i: nat) {
    i < |s.tasks| && i in s.outer.running
  }

  predicate Enabled(c: Config, s: State, a: Action) {
    match a
    case SpawnTarget => s.outer.CanSpawn() && s.outerFree > 0
    case Resolve(i) => i < |c.targets| && Active(s, i) && s.tasks[i].Waiting?
    case StartProbe(i) => Active(s, i) && s.tasks[i].Probing? && s.tasks[i].pool.CanSpawn() && s.innerFree > 0
    case FinishProbe(i, k) => Active(s, i) && s.tasks[i].Probing? && s.tasks[i].pool.CanFinish(k)
    case JoinProbe(i, k) => Active(s, i) && s.tasks[i].Probing? && s.tasks[i].pool.CanJoin(k)
    case NextPhase(i) =>
      && i < |c.targets| && Active(s, i) && s.tasks[i].Probing? && s.tasks[i].pool.Done()
      && |s.tasks[i].results| < |Phases(c.plain)|
    case FinishTarget(i) => Active(s, i) && s.tasks[i].Ended?
    case JoinTarget(i) => s.outer.CanJoin(i)
  }

  function Resolved(c: Config, i: nat): Task
    requires i < |c.targets|
  {
    if Destinations(c, i) == [] then Ended(None) else Probing(NewPool(|Destinations(c, i)|), [])
  }

  /** The phase's observations, sorted by destination, and then the next phase or the report. */
  function Advanced(c: Config, i: nat, t: Task): Task
    requires i < |c.targets| && t.Probing? && |t.results| < |Phases(c.plain)|
  {
    var collected := Collect(t.pool.joined, Observe(c, i, Phases(c.plain)[|t.results|]));
    var results := t.results + [SortByKey(collected, DestinationRank)];
    if |results| == |Phases(c.plain)| then Ended(Some(Assemble(c.plain, results)))
    else Probing(NewPool(t.pool.total), results)
  }

  function Apply(c: Config, s: State, a: Action): State
    requires Enabled(c, s, a)
  {
    match a
    case SpawnTarget => s.(outer := s.outer.Spawn(), outerFree := s.outerFree - 1)
    case Resolve(i) => s.(tasks := s.tasks[i := Resolved(c, i)])
    case StartProbe(i) =>
      var t := s.tasks[i];
      s.(tasks := s.tasks[i := t.(pool := t.pool.Spawn())], innerFree := s.innerFree - 1,
         log := s.log + [Probe(i, |t.results|, t.pool.next)])
    case FinishProbe(i, k) =>
      var t := s.tasks[i];
      s.(tasks := s.tasks[i := t.(pool := t.pool.Finish(k))], innerFree := s.innerFree + 1)
    case JoinProbe(i, k) =>
      var t := s.tasks[i];
      s.(tasks := s.tasks[i := t.(pool := t.pool.Join(k))])
    case NextPhase(i) => s.(tasks := s.tasks[i := Advanced(c, i, s.tasks[i])])
    case FinishTarget(i) => s.(outer := s.outer.Finish(i), outerFree := s.outerFree + 1)
    case JoinTarget(i) => s.(outer := s.outer.Join(i))
  }

  predicate Finished(s: State) {
    s.outer.Done()
  }

  /** The reports `run_diagnose` renders: the joined ones, re-sorted by target index. */
  function Delivery(s: State): Output {
    Delivered(SortByKey(Collect(s.outer.joined, Indexed(s.tasks)), ReportIndex))
  }

  function ReportIndex(r: (nat, Option<Report>)): int { r.0 }

  function Indexed(tasks: seq<Task>): nat -> seq<(nat, Option<Report>)> {
    (i: nat) => if i < |tasks| && tasks[i].Ended? then [(i, tasks[i].report)] else []
  }

  ghost predicate Run(c: Config, s: State, actions: seq<Action>, t: State)
    decreases |actions|
  {
    if actions == [] then s == t
    else Enabled(c, s, actions[0]) && Run(c, Apply(c, s, actions[0]), actions[1..], t)
  }

  ghost predicate Reachable(c: Config, s: State) {
    exists actions :: Run(c, Init(c), actions, s)
  }

  // ----- permits, work left, and the invariant -----

  function RunningIn(t: Task): nat {
    if t.Probing? then |t.pool.running| else 0
  }

  /** Probes running at this moment, over all targets. */
  function ProbesRunning(s: State): nat {
    Sum(Map(s.tasks, RunningIn))
  }

  /** `n` phases over `m` addresses: three steps a probe, and one to sort and move on. */
  function PhasesSteps(n: nat, m: nat): nat {
    if n == 0 then 0 else 3 * m + 1 + PhasesSteps(n - 1, m)
  }

  function TaskSteps(c: Config, i: nat, t: Task): nat {
    var phases := |Phases(c.plain)|;
    match t
    case Waiting =>
      if i < |c.targets| && Destinations(c, i) != [] then 1 + PhasesSteps(phases, |Destinations(c, i)|) else 1
    case Probing(pool, results) =>
      if pool.next <= pool.total && |results| < phases then
        pool.Weight() + 1 + PhasesSteps(phases - |results| - 1, pool.total)
      else 0
    case Ended(_) => 0
  }

  function AllTaskSteps(c: Config, tasks: seq<Task>): seq<nat> {
    seq(|tasks|, i requires 0 <= i < |tasks| => TaskSteps(c, i, tasks[i]))
  }

  /** The number of steps left, whatever the scheduler does. */
  function StepsLeft(c: Config, s: State): nat
    requires s.outer.next <= s.outer.total
  {
    s.outer.Weight() + Sum(AllTaskSteps(c, s.tasks))
  }

  ghost predicate TaskInv(c: Config, i: nat, t: Task)
    requires i < |c.targets|
  {
    match t
    case Waiting => true
    case Probing(pool, results) =>
      && pool.Valid() && pool.total == |Destinations(c, i)| > 0
      && |results| < |Phases(c.plain)|
      && forall p :: 0 <= p < |results| ==> results[p] == SequentialPhase(c, i, Phases(c.plain)[p])
    case Ended(report) => report == SequentialReport(c, i)
  }

  predicate Started(c: Config, t: Task, m: nat, p: nat, k: nat) {
    match t
    case Waiting => false
    case Probing(pool, results) => (p < |results| && k < m) || (p == |results| && k < pool.next)
    case Ended(_) => p < |Phases(c.plain)| && k < m
  }

  ghost predicate LogInv(c: Config, s: State)
    requires |s.tasks| == |c.targets|
  {
    && Distinct(s.log)
    && forall q: Probe :: q in s.log <==>
         && q.target < |c.targets|
         && Started(c, s.tasks[q.target], |Destinations(c, q.target)|, q.phase, q.item)
  }

  ghost predicate OuterInv(c: Config, s: State) {
    && |s.tasks| == |c.targets| == s.outer.total
    && s.outer.Valid()
    && (forall i :: s.outer.next <= i < |s.tasks| ==> s.tasks[i] == Waiting)
    && (forall i :: 0 <= i < s.outer.next && i !in s.outer.running ==> s.tasks[i].Ended?)
  }

  ghost predicate TasksInv(c: Config, tasks: seq<Task>)
    requires |tasks| == |c.targets|
  {
    forall i :: 0 <= i < |tasks| ==> TaskInv(c, i, tasks[i])
  }

  ghost predicate PermitInv(c: Config, s: State) {
    && s.outerFree + |s.outer.running| == Permits(c.concurrency)
    && s.innerFree + ProbesRunning(s) == Permits(c.concurrency)
  }

  ghost predicate Inv(c: Config, s: State) {
    OuterInv(c, s) && TasksInv(c, s.tasks) && PermitInv(c, s) && LogInv(c, s)
  }

  // ----- one task changes -----

  lemma TaskChange(c: Config, s: State, i: nat, t: Task)
    requires i < |s.tasks|
    ensures ProbesRunning(s.(tasks := s.tasks[i := t])) == ProbesRunning(s) - RunningIn(s.tasks[i]) + RunningIn(t)
    ensures Sum(AllTaskSteps(c, s.tasks[i := t])) ==
            Sum(AllTaskSteps(c, s.tasks)) - TaskSteps(c, i, s.tasks[i]) + TaskSteps(c, i, t)
  {
    hide Destinations, SequentialPhase, SequentialReport;
    assert Map(s.tasks[i := t], RunningIn) == Map(s.tasks, RunningIn)[i := RunningIn(t)];
    SumUpdate(Map(s.tasks, RunningIn), i, RunningIn(t));
    assert AllTaskSteps(c, s.tasks[i := t]) == AllTaskSteps(c, s.tasks)[i := TaskSteps(c, i, t)];
    SumUpdate(AllTaskSteps(c, s.tasks), i, TaskSteps(c, i, t));
  }

  lemma RankDistinguishes(a: Ip, b: Ip)
    ensures IpRank(a) == IpRank(b) <==> a == b
  {
  }

  lemma AddressesIncrease(lookups: seq<Ip>, scope: FamilyScope)
    ensures var r := Addresses(lookups, scope);
      && (forall j, k :: 0 <= j < k < |r| ==> IpRank(r[j]) < IpRank(r[k]))
      && (forall ip :: ip in r <==> ip in lookups && Keeps(scope, ip))
  {
    hide FirstOccurrences, Filter, SortByKey;
    var kept := Filter(FirstOccurrences(lookups), Kept(scope));
    var r := Addresses(lookups, scope);
    FilterDistinct(FirstOccurrences(lookups), Kept(scope));
    SortByKeyStable(kept, IpRank);
    PermutationElements(r, kept);
    PermutationDistinct(r, kept);
    forall j, k | 0 <= j < k < |r| ensures IpRank(r[j]) < IpRank(r[k]) {
      assert r[j] != r[k];
      RankDistinguishes(r[j], r[k]);
    }
  }

  /** Joining in any order and sorting by destination equals probing the addresses in order. */
  lemma PhaseIsSequential(c: Config, i: nat, phase: Phase, order: seq<nat>)
    requires i < |c.targets| && IsOrder(order, |Destinations(c, i)|)
    ensures SortByKey(Collect(order, Observe(c, i, phase)), DestinationRank)
            == SequentialPhase(c, i, phase)
  {
    hide FirstOccurrences, Filter, SortByKey, Addresses, Collect;
    var dests := Destinations(c, i);
    var rank := (k: int) => if 0 <= k < |dests| then SocketRank(dests[k]) else 0;
    AddressesIncrease(c.targets[i].lookups, c.family);
    forall k, o | 0 <= k < |dests| && o in Observe(c, i, phase)(k) ensures DestinationRank(o) == rank(k) {
      var block := Observe(c, i, phase)(k);
      var j :| 0 <= j < |block| && block[j] == o;
      assert block == Map(c.probe(i, phase, dests[k]), v => Observation(dests[k], v));
      assert o.destination == dests[k];
    }
    SortedCollectIsSequential(order, |dests|, Observe(c, i, phase), DestinationRank, rank);
  }

  // ----- every step keeps the invariant and does one unit of work -----

  lemma OuterStep(c: Config, s: State, outer: Pool, outerFree: nat)
    requires Inv(c, s)
    requires outer.Valid() && outer.total == s.outer.total && s.outer.next <= outer.next
    requires forall i :: s.outer.next <= i < outer.next ==> i in outer.running
    requires forall i :: 0 <= i < s.outer.next && i !in outer.running ==> s.tasks[i].Ended?
    requires outerFree + |outer.running| == Permits(c.concurrency)
    requires outer.Weight() == s.outer.Weight() - 1
    ensures var s' := s.(outer := outer, outerFree := outerFree);
      Inv(c, s') && StepsLeft(c, s') == StepsLeft(c, s) - 1
  {
    hide Destinations, SequentialPhase, SequentialReport;
    var s' := s.(outer := outer, outerFree := outerFree);
    assert s'.tasks == s.tasks && s'.log == s.log && s'.innerFree == s.innerFree;
    assert OuterInv(c, s');
    assert ProbesRunning(s') == ProbesRunning(s);
    assert LogInv(c, s');
  }

  /** An active task moves on by one step of its own. */
  lemma TaskStep(c: Config, s: State, i: nat, t: Task, innerFree: nat, log: seq<Probe>)
    requires Inv(c, s) && Active(s, i) && TaskInv(c, i, t)
    requires TaskSteps(c, i, t) == TaskSteps(c, i, s.tasks[i]) - 1
    requires innerFree + RunningIn(t) == s.innerFree + RunningIn(s.tasks[i])
    requires LogInv(c, s.(tasks := s.tasks[i := t], log := log))
    ensures var s' := s.(tasks := s.tasks[i := t], innerFree := innerFree, log := log);
      Inv(c, s') && StepsLeft(c, s') == StepsLeft(c, s) - 1
  {
    hide Destinations, SequentialPhase, SequentialReport;
    var s' := s.(tasks := s.tasks[i := t], innerFree := innerFree, log := log);
    TaskChange(c, s, i, t);
    assert s'.tasks == s.tasks[i := t] && s'.outer == s.outer;
    assert OuterInv(c, s');
    assert TasksInv(c, s'.tasks);
    assert LogInv(c, s');
  }

  /** The probes a task has started are unchanged, and so is the log. */
  lemma SameLog(c: Config, s: State, i: nat, t: Task)
    requires |s.tasks| == |c.targets| && i < |s.tasks| && LogInv(c, s)
    requires forall p: nat, k: nat ::
      Started(c, t, |Destinations(c, i)|, p, k) <==> Started(c, s.tasks[i], |Destinations(c, i)|, p, k)
    ensures LogInv(c, s.(tasks := s.tasks[i := t], log := s.log))
  {
  }

  lemma LongerLog(c: Config, s: State, i: nat, t: Task, started: Probe)
    requires |s.tasks| == |c.targets| && i < |s.tasks| && LogInv(c, s)
    requires started.target == i && !Started(c, s.tasks[i], |Destinations(c, i)|, started.phase, started.item)
    requires forall p: nat, k: nat ::
      Started(c, t, |Destinations(c, i)|, p, k) <==>
        Started(c, s.tasks[i], |Destinations(c, i)|, p, k) || (p == started.phase && k == started.item)
    ensures LogInv(c, s.(tasks := s.tasks[i := t], log := s.log + [started]))
  {
    hide Destinations, SequentialPhase, SequentialReport;
    assert started !in s.log;
  }

  lemma StartStep(c: Config, s: State, i: nat)
    requires Inv(c, s) && Enabled(c, s, StartProbe(i))
    ensures var s' := Apply(c, s, StartProbe(i)); Inv(c, s') && StepsLeft(c, s') == StepsLeft(c, s) - 1
  {
    hide Destinations, SequentialPhase, SequentialReport, Observe, Collect, SortByKey, Sum;
    var t := s.tasks[i];
    assert TaskInv(c, i, t);
    t.pool.SpawnStep();
    var t', started := t.(pool := t.pool.Spawn()), Probe(i, |t.results|, t.pool.next);
    LongerLog(c, s, i, t', started);
    TaskStep(c, s, i, t', s.innerFree - 1, s.log + [started]);
  }

  lemma FinishStep(c: Config, s: State, i: nat, k: nat)
    requires Inv(c, s) && Enabled(c, s, FinishProbe(i, k))
    ensures var s' := Apply(c, s, FinishProbe(i, k)); Inv(c, s') && StepsLeft(c, s') == StepsLeft(c, s) - 1
  {
    hide Destinations, SequentialPhase, SequentialReport, Observe, Collect, SortByKey, Sum;
    var t := s.tasks[i];
    assert TaskInv(c, i, t);
    t.pool.FinishStep(k);
    var t' := t.(pool := t.pool.Finish(k));
    SameLog(c, s, i, t');
    TaskStep(c, s, i, t', s.innerFree + 1, s.log);
  }

  lemma JoinStep(c: Config, s: State, i: nat, k: nat)
    requires Inv(c, s) && Enabled(c, s, JoinProbe(i, k))
    ensures var s' := Apply(c, s, JoinProbe(i, k)); Inv(c, s') && StepsLeft(c, s') == StepsLeft(c, s) - 1
  {
    hide Destinations, SequentialPhase, SequentialReport, Observe, Collect, SortByKey, Sum;
    var t := s.tasks[i];
    assert TaskInv(c, i, t);
    t.pool.JoinStep(k);
    var t' := t.(pool := t.pool.Join(k));
    SameLog(c, s, i, t');
    TaskStep(c, s, i, t', s.innerFree, s.log);
  }

  lemma ResolveStep(c: Config, s: State, i: nat)
    requires Inv(c, s) && Enabled(c, s, Resolve(i))
    ensures var s' := Apply(c, s, Resolve(i)); Inv(c, s') && StepsLeft(c, s') == StepsLeft(c, s) - 1
  {
    hide Destinations, SequentialPhase;
    var t := Resolved(c, i);
    SameLog(c, s, i, t);
    TaskStep(c, s, i, t, s.innerFree, s.log);
  }

  /** The results of a completed phase are those of the sequential run. */
  lemma AdvancedResults(c: Config, i: nat, t: Task)
    requires i < |c.targets| && t.Probing? && TaskInv(c, i, t) && t.pool.Done()
    ensures TaskInv(c, i, Advanced(c, i, t))
  {
    hide Destinations, SequentialPhase, Observe, Collect, SortByKey;
    var phases, n := Phases(c.plain), |t.results|;
    t.pool.DoneJoinsAll();
    PhaseIsSequential(c, i, phases[n], t.pool.joined);
    var results := t.results + [SequentialPhase(c, i, phases[n])];
    if n + 1 == |phases| {
      assert results == seq(|phases|, p requires 0 <= p < |phases| => SequentialPhase(c, i, phases[p]));
    }
  }

  lemma PhaseStep(c: Config, s: State, i: nat)
    requires Inv(c, s) && Enabled(c, s, NextPhase(i))
    ensures var s' := Apply(c, s, NextPhase(i)); Inv(c, s') && StepsLeft(c, s') == StepsLeft(c, s) - 1
  {
    hide Destinations, SequentialPhase, SequentialReport, Observe, Collect, SortByKey, Sum;
    var t := s.tasks[i];
    assert TaskInv(c, i, t);
    AdvancedResults(c, i, t);
    t.pool.DoneJoinsAll();
    var t' := Advanced(c, i, t);
    SameLog(c, s, i, t');
    TaskStep(c, s, i, t', s.innerFree, s.log);
  }

  lemma SpawnTargetStep(c: Config, s: State)
    requires Inv(c, s) && Enabled(c, s, SpawnTarget)
    ensures var s' := Apply(c, s, SpawnTarget); Inv(c, s') && StepsLeft(c, s') == StepsLeft(c, s) - 1
  {
    s.outer.SpawnStep();
    OuterStep(c, s, s.outer.Spawn(), s.outerFree - 1);
  }

  lemma FinishTargetStep(c: Config, s: State, i: nat)
    requires Inv(c, s) && Enabled(c, s, FinishTarget(i))
    ensures var s' := Apply(c, s, FinishTarget(i)); Inv(c, s') && StepsLeft(c, s') == StepsLeft(c, s) - 1
  {
    s.outer.FinishStep(i);
    OuterStep(c, s, s.outer.Finish(i), s.outerFree + 1);
  }

  lemma JoinTargetStep(c: Config, s: State, i: nat)
    requires Inv(c, s) && Enabled(c, s, JoinTarget(i))
    ensures var s' := Apply(c, s, JoinTarget(i)); Inv(c, s') && StepsLeft(c, s') == StepsLeft(c, s) - 1
  {
    s.outer.JoinStep(i);
    OuterStep(c, s, s.outer.Join(i), s.outerFree);
  }

  /** Every step, by whichever task, keeps the invariant and leaves exactly one step less to do. */
  lemma Step(c: Config, s: State, a: Action)
    requires Inv(c, s) && Enabled(c, s, a)
    ensures Inv(c, Apply(c, s, a))
    ensures StepsLeft(c, Apply(c, s, a)) == StepsLeft(c, s) - 1
  {
    hide Inv, Enabled, Apply, StepsLeft;
    match a
    case SpawnTarget => SpawnTargetStep(c, s);
    case Resolve(i) => ResolveStep(c, s, i);
    case StartProbe(i) => StartStep(c, s, i);
    case FinishProbe(i, k) => FinishStep(c, s, i, k);
    case JoinProbe(i, k) => JoinStep(c, s, i, k);
    case NextPhase(i) => PhaseStep(c, s, i);
    case FinishTarget(i) => FinishTargetStep(c, s, i);
    case JoinTarget(i) => JoinTargetStep(c, s, i);
  }

  // ----- whole runs -----

  lemma {:induction false} SumZero(s: seq<nat>)
    requires forall i :: 0 <= i < |s| ==> s[i] == 0
    ensures Sum(s) == 0
  {
    if s != [] {
      SumZero(s[1..]);
    }
  }

  lemma InitInv(c: Config)
    ensures Inv(c, Init(c))
  {
    var s := Init(c);
    SumZero(Map(s.tasks, RunningIn));
    assert TasksInv(c, s.tasks);
    assert forall q: Probe :: q !in s.log;
  }

  /** Safety over whole runs: the invariant holds in every state a run passes through, and the work
      left is what the start had left minus the steps taken. */
  lemma {:induction false} RunKeepsInv(c: Config, s: State, actions: seq<Action>, t: State)
    requires Inv(c, s) && Run(c, s, actions, t)
    ensures Inv(c, t)
    ensures StepsLeft(c, t) + |actions| == StepsLeft(c, s)
    decreases |actions|
  {
    hide Inv, Enabled, Apply, StepsLeft;
    if actions != [] {
      Step(c, s, actions[0]);
      RunKeepsInv(c, Apply(c, s, actions[0]), actions[1..], t);
    }
  }

  /** The global bound: in every reachable state the free inner permits and the probes running across
      all targets add up to the clamped `--concurrency`. */
  lemma PermitsConserved(c: Config, s: State)
    requires Reachable(c, s)
    ensures s.innerFree + ProbesRunning(s) == Permits(c.concurrency)
    ensures s.outerFree + |s.outer.running| == Permits(c.concurrency)
    ensures ProbesRunning(s) <= 256
  {
    var actions :| Run(c, Init(c), actions, s);
    InitInv(c);
    RunKeepsInv(c, Init(c), actions, s);
  }

  /** A task that holds an outer permit has a step, unless it waits for an inner permit. */
  lemma ActiveTaskMoves(c: Config, s: State, i: nat) returns (a: Action)
    requires Inv(c, s) && Active(s, i)
    requires s.innerFree > 0 || s.tasks[i].Ended? || (s.tasks[i].Probing? && s.tasks[i].pool.running != {})
    ensures Enabled(c, s, a)
  {
    hide Destinations, SequentialPhase, SequentialReport;
    var t := s.tasks[i];
    assert TaskInv(c, i, t);
    match t
    case Waiting => a := Resolve(i);
    case Ended(_) => a := FinishTarget(i);
    case Probing(pool, results) =>
      if k :| k in pool.running {
        a := FinishProbe(i, k);
      } else if pool.CanSpawn() {
        a := StartProbe(i);
      } else if k :| k in pool.finished {
        a := JoinProbe(i, k);
      } else {
        a := NextPhase(i);
      }
  }

  /** Progress: an unfinished reachable state always has an enabled step, although target tasks keep
      their outer permit while they wait for inner ones. */
  lemma NoDeadlock(c: Config, s: State)
    requires Reachable(c, s) && !Finished(s)
    ensures exists a :: Enabled(c, s, a)
  {
    var actions :| Run(c, Init(c), actions, s);
    InitInv(c);
    RunKeepsInv(c, Init(c), actions, s);
    var a := SomeStep(c, s);
  }

  lemma SomeStep(c: Config, s: State) returns (a: Action)
    requires Inv(c, s) && !Finished(s)
    ensures Enabled(c, s, a)
  {
    hide TaskInv, LogInv;
    var running := Map(s.tasks, RunningIn);
    if Sum(running) > 0 {
      SumPositive(running);
      var i :| 0 <= i < |running| && running[i] > 0;
      assert s.tasks[i].Probing? && s.tasks[i].pool.running != {};
      assert Active(s, i);
      a := ActiveTaskMoves(c, s, i);
    } else if i: nat :| i in s.outer.running {
      a := ActiveTaskMoves(c, s, i);
    } else if s.outer.CanSpawn() {
      a := SpawnTarget;
    } else {
      var i :| i in s.outer.finished;
      a := JoinTarget(i);
    }
  }

  /** Every run can be completed, and no run is longer than the sequential one. */
  lemma {:induction false} RunCanFinish(c: Config, s: State) returns (actions: seq<Action>, t: State)
    requires Inv(c, s)
    ensures Run(c, s, actions, t) && Finished(t)
    decreases StepsLeft(c, s)
  {
    hide Inv, Enabled, Apply, StepsLeft;
    if Finished(s) {
      actions, t := [], s;
    } else {
      var a := SomeStep(c, s);
      Step(c, s, a);
      actions, t := RunCanFinish(c, Apply(c, s, a));
      actions := [a] + actions;
      assert actions[1..] + [] == actions[1..];
    }
  }

  /** The steps of any complete run: each target is spawned, finished, joined and resolved, and runs
      its phases when it has an address. */
  function TotalSteps(c: Config): nat {
    3 * |c.targets| + Sum(seq(|c.targets|, i requires 0 <= i < |c.targets| =>
      if Destinations(c, i) == [] then 1 else 1 + PhasesSteps(|Phases(c.plain)|, |Destinations(c, i)|)))
  }

  lemma InitialSteps(c: Config)
    ensures StepsLeft(c, Init(c)) == TotalSteps(c)
  {
    hide Destinations;
    assert AllTaskSteps(c, Init(c).tasks) == seq(|c.targets|, i requires 0 <= i < |c.targets| =>
      if Destinations(c, i) == [] then 1 else 1 + PhasesSteps(|Phases(c.plain)|, |Destinations(c, i)|));
  }

  lemma FinishedTasks(c: Config, s: State)
    requires Inv(c, s) && Finished(s)
    ensures |s.tasks| == |c.targets|
    ensures forall i :: 0 <= i < |c.targets| ==> s.tasks[i] == Ended(SequentialReport(c, i))
  {
    hide Destinations, SequentialReport, Delivered, LogInv;
    s.outer.DoneJoinsAll();
    forall i | 0 <= i < |c.targets| ensures s.tasks[i] == Ended(SequentialReport(c, i)) {
      assert TaskInv(c, i, s.tasks[i]);
    }
  }

  lemma FinishedOutput(c: Config, s: State)
    requires Inv(c, s) && Finished(s)
    ensures Delivery(s) == Sequential(c)
    ensures StepsLeft(c, s) == 0
  {
    hide Destinations, SequentialReport, Delivered, LogInv, TasksInv;
    var n := |c.targets|;
    FinishedTasks(c, s);
    s.outer.DoneJoinsAll();
    SumZero(AllTaskSteps(c, s.tasks));
    var rank := (i: int) => i;
    SortedCollectIsSequential(s.outer.joined, n, Indexed(s.tasks), ReportIndex, rank);
    IndexedInOrder(s.tasks, n);
    assert Collect(Upto(n), Indexed(s.tasks)) == SequentialIndexed(c);
  }

  lemma {:induction false} IndexedInOrder(tasks: seq<Task>, n: nat)
    requires n <= |tasks| && forall i :: 0 <= i < n ==> tasks[i].Ended?
    ensures Collect(Upto(n), Indexed(tasks)) == seq(n, i requires 0 <= i < n => (i, tasks[i].report))
  {
    if n > 0 {
      IndexedInOrder(tasks, n - 1);
      assert Upto(n) == Upto(n - 1) + [n - 1];
      CollectAppend(Upto(n - 1), [n - 1], Indexed(tasks));
      CollectOne(n - 1, Indexed(tasks));
    }
  }

  predicate Wanted(c: Config, q: Probe) {
    q.target < |c.targets| && q.phase < |Phases(c.plain)| && q.item < |Destinations(c, q.target)|
  }

  lemma FinishedLog(c: Config, s: State)
    requires Inv(c, s) && Finished(s)
    ensures forall q: Probe :: multiset(s.log)[q] == if Wanted(c, q) then 1 else 0
  {
    hide Destinations, SequentialReport, ProbesRunning;
    DistinctMultiset(s.log);
    forall q: Probe ensures q in s.log <==> Wanted(c, q) {
      if q.target < |c.targets| {
        assert s.tasks[q.target].Ended?;
      }
    }
  }

  /** Confluence: whatever the scheduler does, a run that finished took the same number of steps,
      started every (target, phase, address) probe exactly once, and delivers the output of probing
      one target after the other. */
  lemma EveryScheduleAgrees(c: Config, actions: seq<Action>, s: State)
    requires Run(c, Init(c), actions, s) && Finished(s)
    ensures Delivery(s) == Sequential(c)
    ensures |actions| == TotalSteps(c)
    ensures forall q: Probe :: multiset(s.log)[q] == if Wanted(c, q) then 1 else 0
  {
    hide Inv, Init, Delivery, Sequential, StepsLeft, TotalSteps, Wanted, Finished;
    InitInv(c);
    InitialSteps(c);
    RunKeepsInv(c, Init(c), actions, s);
    FinishedOutput(c, s);
    FinishedLog(c, s);
  }
}
