/** Two things the sweep does that its documentation words otherwise: how many permits are out at once, and
    which probes a plain run sends. */
module SweepLimits {
  import opened Collections
  import opened ParallelMap
  import opened Probes
  import opened Sweep

  // ----- what a plain run sends -----

  const HTTP2_PHASE: nat := 2
  const HTTP3_PHASE: nat := 3

  /** With `--plain` every finished run has sent an HTTP/2 and an HTTP/3 probe to every address, so it sends
      one exactly when some target has an address. */
  lemma PlainStillProbes(c: Config, actions: seq<Action>, s: State)
    requires c.plain && Run(c, Init(c), actions, s) && Finished(s)
    ensures Phases(c.plain)[HTTP2_PHASE] == Http2 && Phases(c.plain)[HTTP3_PHASE] == Http3
    ensures forall i: nat, k: nat :: i < |c.targets| && k < |Destinations(c, i)| ==>
      multiset(s.log)[Probe(i, HTTP2_PHASE, k)] == 1 && multiset(s.log)[Probe(i, HTTP3_PHASE, k)] == 1
    ensures (exists q :: q in s.log && (q.phase == HTTP2_PHASE || q.phase == HTTP3_PHASE))
       <==> exists i: nat :: i < |c.targets| && Destinations(c, i) != []
  {
    hide Destinations, Finished, Init, Run;
    EveryScheduleAgrees(c, actions, s);
    forall q | q in s.log ensures Wanted(c, q) {
      assert multiset(s.log)[q] > 0;
    }
    if i: nat :| i < |c.targets| && Destinations(c, i) != [] {
      var first: nat := 0;
      var q := Probe(i, HTTP2_PHASE, first);
      assert multiset(s.log)[q] == 1 && q in multiset(s.log);
    }
  }

  /** Only the results of those probes are dropped: a plain report does not depend on them. */
  lemma PlainDropsResults(c: Config, d: Config)
    requires c.plain && d == c.(probe := d.probe)
    requires forall i, phase, dest ::
      phase != Http2 && phase != Http3 ==> c.probe(i, phase, dest) == d.probe(i, phase, dest)
    ensures Sequential(c) == Sequential(d)
  {
    hide SequentialReport, Delivered;
    forall i | 0 <= i < |c.targets| ensures SequentialReport(c, i) == SequentialReport(d, i) {
      PlainReport(c, d, i);
    }
    assert SequentialIndexed(c) == SequentialIndexed(d);
  }

  lemma PlainReport(c: Config, d: Config, i: nat)
    requires c.plain && d == c.(probe := d.probe) && i < |c.targets|
    requires forall j, phase, dest ::
      phase != Http2 && phase != Http3 ==> c.probe(j, phase, dest) == d.probe(j, phase, dest)
    ensures SequentialReport(c, i) == SequentialReport(d, i)
  {
    hide SequentialPhase;
    assert Destinations(c, i) == Destinations(d, i);
    SamePhase(c, d, i, Tcp);
    SamePhase(c, d, i, Http1);
    SamePhase(c, d, i, Repeat);
  }

  lemma SamePhase(c: Config, d: Config, i: nat, phase: Phase)
    requires d == c.(probe := d.probe) && i < |c.targets|
    requires forall dest :: c.probe(i, phase, dest) == d.probe(i, phase, dest)
    ensures SequentialPhase(c, i, phase) == SequentialPhase(d, i, phase)
  {
    var dests := Destinations(c, i);
    assert Destinations(d, i) == dests;
    forall k: nat | k < |dests| ensures Observe(c, i, phase)(k) == Observe(d, i, phase)(k) {
      assert Map(c.probe(i, phase, dests[k]), v => Observation(dests[k], v))
          == Map(d.probe(i, phase, dests[k]), v => Observation(dests[k], v));
    }
    assert Map(Upto(|dests|), Observe(c, i, phase)) == Map(Upto(|dests|), Observe(d, i, phase));
  }

  // ----- how many permits are out -----

  /** Permits held at this moment: one for each target being processed and one for each running probe. */
  function PermitsOut(s: State): nat { |s.outer.running| + ProbesRunning(s) }

  function AddressCounts(c: Config): seq<nat> {
    seq(|c.targets|, i requires 0 <= i < |c.targets| => |Destinations(c, i)|)
  }

  function TotalAddresses(c: Config): nat { Sum(AddressCounts(c)) }

  /** More permits can be out than one shared limit would allow. */
  ghost predicate ExceedsOneLimit(c: Config) {
    exists s :: Reachable(c, s) && PermitsOut(s) > Permits(c.concurrency)
  }

  lemma ReachableInv(c: Config, s: State)
    requires Reachable(c, s)
    ensures Inv(c, s)
  {
    var actions :| Run(c, Init(c), actions, s);
    InitInv(c);
    RunKeepsInv(c, Init(c), actions, s);
  }

  lemma {:induction false} RunAppend(c: Config, s: State, actions: seq<Action>, t: State, a: Action)
    requires Run(c, s, actions, t) && Enabled(c, t, a)
    ensures Run(c, s, actions + [a], Apply(c, t, a))
    decreases |actions|
  {
    hide Enabled, Apply;
    if actions == [] {
      assert actions + [a] == [a] && [a][1..] == [];
      assert Run(c, Apply(c, t, a), [], Apply(c, t, a));
    } else {
      assert (actions + [a])[1..] == actions[1..] + [a];
      RunAppend(c, Apply(c, s, actions[0]), actions[1..], t, a);
    }
  }

  lemma ReachableStep(c: Config, s: State, a: Action)
    requires Reachable(c, s) && Enabled(c, s, a)
    ensures Reachable(c, Apply(c, s, a))
  {
    hide Enabled, Apply, Run, Init;
    var actions :| Run(c, Init(c), actions, s);
    RunAppend(c, Init(c), actions, s, a);
  }

  lemma InitReachable(c: Config)
    ensures Reachable(c, Init(c))
  {
    assert Run(c, Init(c), [], Init(c));
  }

  // ----- never more than targets and addresses -----

  lemma {:induction false} SizeBelow(s: set<nat>, n: nat)
    requires forall k :: k in s ==> k < n
    ensures |s| <= n
  {
    if n == 0 {
      assert s == {};
    } else {
      var last: nat := n - 1;
      SizeBelow(s - {last}, last);
      assert s <= (s - {last}) + {last};
      assert |s| <= |(s - {last}) + {last}|;
    }
  }

  lemma {:induction false} SumOrdered(a: seq<nat>, b: seq<nat>)
    requires |a| == |b| && forall i :: 0 <= i < |a| ==> a[i] <= b[i]
    ensures Sum(a) <= Sum(b)
  {
    if a != [] {
      SumOrdered(a[1..], b[1..]);
    }
  }

  lemma OutBounded(c: Config, s: State)
    requires Reachable(c, s)
    ensures |s.outer.running| <= |c.targets| && ProbesRunning(s) <= TotalAddresses(c)
  {
    hide Destinations, Reachable, LogInv;
    ReachableInv(c, s);
    SizeBelow(s.outer.running, |c.targets|);
    var running := Map(s.tasks, RunningIn);
    forall i | 0 <= i < |running| ensures running[i] <= AddressCounts(c)[i] {
      assert TaskInv(c, i, s.tasks[i]);
      if s.tasks[i].Probing? {
        SizeBelow(s.tasks[i].pool.running, s.tasks[i].pool.total);
      }
    }
    SumOrdered(running, AddressCounts(c));
  }

  // ----- as many targets as permits -----

  /** The first `k` targets have been spawned and nothing else has happened. */
  ghost predicate Spawned(c: Config, s: State, k: nat) {
    && Reachable(c, s) && k <= |c.targets| && |s.tasks| == |c.targets| == s.outer.total
    && s.outer.next == k && (forall i :: i in s.outer.running <==> 0 <= i < k) && |s.outer.running| == k
    && s.outerFree == Permits(c.concurrency) - k && s.innerFree == Permits(c.concurrency)
    && forall i :: 0 <= i < |s.tasks| ==> s.tasks[i] == Waiting
  }

  lemma {:induction false} SpawnTargets(c: Config, k: nat) returns (s: State)
    requires k <= |c.targets| && k <= Permits(c.concurrency)
    ensures Spawned(c, s, k)
  {
    hide Reachable;
    if k == 0 {
      s := Init(c);
      InitReachable(c);
    } else {
      var before := SpawnTargets(c, k - 1);
      ReachableStep(c, before, SpawnTarget);
      s := Apply(c, before, SpawnTarget);
    }
  }

  /** Every outer permit is held by a target that has not been resolved yet, and no inner permit is out. */
  ghost predicate Packed(c: Config, s: State, k: nat) {
    && Reachable(c, s) && |s.tasks| == |c.targets| == s.outer.total && s.outer.next == k <= |c.targets|
    && s.outerFree == 0 && |s.outer.running| == Permits(c.concurrency) == s.innerFree
    && (forall i :: i in s.outer.running ==> i < k && s.tasks[i] == Waiting)
    && forall i :: k <= i < |s.tasks| ==> s.tasks[i] == Waiting
  }

  /** One target without addresses makes room for the next. */
  lemma MakeRoom(c: Config, s: State, k: nat) returns (t: State)
    requires Packed(c, s, k) && k < |c.targets|
    requires forall i: nat :: i < k ==> Destinations(c, i) == []
    ensures Packed(c, t, k + 1) && k in t.outer.running
  {
    hide Reachable, Destinations;
    assert s.outer.running != {};
    var i: nat :| i in s.outer.running;
    ReachableStep(c, s, Resolve(i));
    var resolved := Apply(c, s, Resolve(i));
    assert resolved.tasks[i] == Ended(None);
    ReachableStep(c, resolved, FinishTarget(i));
    var freed := Apply(c, resolved, FinishTarget(i));
    ReachableStep(c, freed, SpawnTarget);
    t := Apply(c, freed, SpawnTarget);
    assert k !in freed.outer.running;
  }

  lemma {:induction false} ReachTarget(c: Config, s: State, k: nat, j: nat) returns (t: State)
    requires Packed(c, s, k) && k <= j < |c.targets|
    requires forall i: nat :: i < j ==> Destinations(c, i) == []
    ensures Packed(c, t, j + 1) && j in t.outer.running
    decreases j - k
  {
    hide Packed, Destinations;
    t := MakeRoom(c, s, k);
    if k < j {
      t := ReachTarget(c, t, k + 1, j);
    }
  }

  /** With every outer permit out, one probe more is one permit too many. */
  lemma OneProbeMore(c: Config, s: State, k: nat, j: nat)
    requires Packed(c, s, k) && j in s.outer.running && j < |c.targets| && Destinations(c, j) != []
    ensures ExceedsOneLimit(c)
  {
    hide Reachable, Destinations, ProbesRunning;
    ReachableStep(c, s, Resolve(j));
    var resolved := Apply(c, s, Resolve(j));
    ReachableStep(c, resolved, StartProbe(j));
    var t := Apply(c, resolved, StartProbe(j));
    PermitsConserved(c, t);
    assert PermitsOut(t) > Permits(c.concurrency);
  }

  lemma FirstWithAddress(c: Config) returns (j: nat)
    requires TotalAddresses(c) > 0
    ensures j < |c.targets| && Destinations(c, j) != []
    ensures forall i: nat :: i < j ==> Destinations(c, i) == []
  {
    hide Destinations;
    SumPositive(AddressCounts(c));
    var k: nat :| k < |c.targets| && AddressCounts(c)[k] > 0;
    j := FirstUpTo(c, k);
  }

  lemma {:induction false} FirstUpTo(c: Config, k: nat) returns (j: nat)
    requires k < |c.targets| && Destinations(c, k) != []
    ensures j <= k && Destinations(c, j) != [] && forall i: nat :: i < j ==> Destinations(c, i) == []
  {
    hide Destinations;
    if i: nat :| i < k && Destinations(c, i) != [] {
      j := FirstUpTo(c, i);
    } else {
      j := k;
    }
  }

  lemma ManyTargets(c: Config)
    requires |c.targets| >= Permits(c.concurrency) && TotalAddresses(c) > 0
    ensures ExceedsOneLimit(c)
  {
    hide Reachable, Destinations, TotalAddresses;
    var n := Permits(c.concurrency);
    var j := FirstWithAddress(c);
    var s := SpawnTargets(c, n);
    if j < n {
      OneProbeMore(c, s, n, j);
    } else {
      var t := ReachTarget(c, s, n, j);
      OneProbeMore(c, t, j + 1, j);
    }
  }

  // ----- fewer targets than permits -----

  /** A target in its first phase whose probes were started and none of them finished. */
  ghost predicate FirstPhase(c: Config, i: nat, t: Task)
    requires i < |c.targets|
  {
    if Destinations(c, i) == [] then t == Waiting
    else
      && t.Probing? && t.results == [] && t.pool.Valid() && t.pool.total == |Destinations(c, i)|
      && |t.pool.running| == t.pool.next
  }

  /** All targets are being processed, and the first `k` of them are in their first phase. */
  ghost predicate Spread(c: Config, s: State, k: nat) {
    && Reachable(c, s) && |s.tasks| == |c.targets| && k <= |c.targets|
    && (forall i :: i in s.outer.running <==> 0 <= i < |c.targets|) && |s.outer.running| == |c.targets|
    && (forall i :: 0 <= i < k ==> FirstPhase(c, i, s.tasks[i]))
    && forall i :: k <= i < |c.targets| ==> s.tasks[i] == Waiting
  }

  lemma {:induction false} ResolveTargets(c: Config, s: State, k: nat) returns (t: State)
    requires Spread(c, s, k)
    ensures Spread(c, t, |c.targets|)
    decreases |c.targets| - k
  {
    hide Reachable, Destinations;
    if k == |c.targets| {
      t := s;
    } else if Destinations(c, k) == [] {
      t := ResolveTargets(c, s, k + 1);
    } else {
      ReachableStep(c, s, Resolve(k));
      t := ResolveTargets(c, Apply(c, s, Resolve(k)), k + 1);
    }
  }

  /** Starting probes until no inner permit or no address is left. */
  lemma {:induction false} StartProbes(c: Config, s: State)
    requires Spread(c, s, |c.targets|) && TotalAddresses(c) > 0
    requires |c.targets| + TotalAddresses(c) > Permits(c.concurrency)
    ensures ExceedsOneLimit(c)
    decreases s.innerFree
  {
    hide Reachable, Destinations, ProbesRunning, TotalAddresses;
    PermitsConserved(c, s);
    if s.innerFree == 0 {
      SomeTarget(c);
      assert PermitsOut(s) > Permits(c.concurrency);
    } else if i: nat :| i < |c.targets| && s.tasks[i].Probing? && s.tasks[i].pool.CanSpawn() {
      assert FirstPhase(c, i, s.tasks[i]);
      ReachableStep(c, s, StartProbe(i));
      s.tasks[i].pool.SpawnStep();
      StartProbes(c, Apply(c, s, StartProbe(i)));
    } else {
      AllStarted(c, s);
      assert PermitsOut(s) > Permits(c.concurrency);
    }
  }

  lemma SomeTarget(c: Config)
    requires TotalAddresses(c) > 0
    ensures |c.targets| > 0
  {
    hide Destinations;
  }

  lemma AllStarted(c: Config, s: State)
    requires Spread(c, s, |c.targets|)
    requires forall i: nat :: i < |c.targets| && s.tasks[i].Probing? ==> !s.tasks[i].pool.CanSpawn()
    ensures ProbesRunning(s) == TotalAddresses(c)
  {
    hide Reachable, Destinations;
    forall i | 0 <= i < |c.targets| ensures RunningIn(s.tasks[i]) == |Destinations(c, i)| {
      assert FirstPhase(c, i, s.tasks[i]);
    }
    assert Map(s.tasks, RunningIn) == AddressCounts(c);
  }

  lemma FewTargets(c: Config)
    requires |c.targets| < Permits(c.concurrency) && TotalAddresses(c) > 0
    requires |c.targets| + TotalAddresses(c) > Permits(c.concurrency)
    ensures ExceedsOneLimit(c)
  {
    hide Reachable, TotalAddresses;
    var s := SpawnTargets(c, |c.targets|);
    var start: nat := 0;
    assert Spread(c, s, start);
    var t := ResolveTargets(c, s, start);
    StartProbes(c, t);
  }

  /** The outer and the inner maps do not share one limit: at some moment of some schedule more permits are
      out than `--concurrency` exactly when there is an address to probe and the targets and addresses
      together outnumber it. */
  lemma OneLimitExceeded(c: Config)
    ensures ExceedsOneLimit(c)
       <==> TotalAddresses(c) > 0 && |c.targets| + TotalAddresses(c) > Permits(c.concurrency)
  {
    hide Reachable, TotalAddresses, ProbesRunning, Init;
    if TotalAddresses(c) > 0 && |c.targets| + TotalAddresses(c) > Permits(c.concurrency) {
      if |c.targets| >= Permits(c.concurrency) {
        ManyTargets(c);
      } else {
        FewTargets(c);
      }
    }
    forall s | Reachable(c, s) && PermitsOut(s) > Permits(c.concurrency)
      ensures TotalAddresses(c) > 0 && |c.targets| + TotalAddresses(c) > Permits(c.concurrency)
    {
      OutBounded(c, s);
      PermitsConserved(c, s);
    }
  }

  /** With one permit, one target with one address is enough. */
  lemma OneTargetExceeds(c: Config)
    requires c.concurrency <= 1 && |c.targets| == 1 && |Destinations(c, 0)| == 1
    ensures ExceedsOneLimit(c)
  {
    hide ExceedsOneLimit, Destinations;
    var first: nat := 0;
    assert AddressCounts(c) == [|Destinations(c, first)|];
    SumOne(1);
    OneLimitExceeded(c);
  }
}
