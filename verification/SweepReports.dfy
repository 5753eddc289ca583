/** What a finished sweep delivers: which addresses it probed, what every field of a report holds, and in
    what order the probes of a target were started. */
module SweepReports {
  import opened Collections
  import opened Sorting
  import opened Net
  import opened ParallelMap
  import opened Probes
  import opened Sweep

  /** A target is probed exactly at the addresses its lookups gave, on its own port, of the family the scope
      asks for; each once, IPv4 before IPv6 and then in increasing order. */
  lemma ProbedAddresses(c: Config, i: nat)
    requires i < |c.targets|
    ensures forall d :: d in Destinations(c, i) <==>
      && d.port == c.targets[i].port && d.ip in c.targets[i].lookups
      && (c.family.OnlyV4? ==> d.ip.V4?) && (c.family.OnlyV6? ==> d.ip.V6?)
    ensures var r := Destinations(c, i); forall j, k :: 0 <= j < k < |r| ==> SocketRank(r[j]) < SocketRank(r[k])
  {
    hide Addresses;
    var addresses := Addresses(c.targets[i].lookups, c.family);
    AddressesIncrease(c.targets[i].lookups, c.family);
    forall d ensures d in Destinations(c, i) <==> d.ip in addresses && d.port == c.targets[i].port {
      if d.ip in addresses && d.port == c.targets[i].port {
        var k :| 0 <= k < |addresses| && addresses[k] == d.ip;
        assert Destinations(c, i)[k] == d;
      }
    }
    hide Destinations;
  }

  /** A phase holds, for every probed address, exactly what its probe observed there, in that order, and
      nothing else; sorted by destination. */
  lemma PhaseHolds(c: Config, i: nat, phase: Phase)
    requires i < |c.targets|
    ensures forall d :: d in Destinations(c, i) ==>
      WithKey(SequentialPhase(c, i, phase), DestinationRank, SocketRank(d))
      == Map(c.probe(i, phase, d), v => Observation(d, v))
    ensures forall o :: o in SequentialPhase(c, i, phase) ==> o.destination in Destinations(c, i)
    ensures SortedByKey(SequentialPhase(c, i, phase), DestinationRank)
  {
    hide Destinations, Collect, WithKey, SortedByKey;
    var dests := Destinations(c, i);
    var n := |dests|;
    var rank := (k: int) => if 0 <= k < n then SocketRank(dests[k]) else 0;
    ProbedAddresses(c, i);
    PhaseKeyed(c, i, phase, rank);
    CollectUptoSorted(n, n, Observe(c, i, phase), DestinationRank, rank);
    forall d | d in dests
      ensures WithKey(SequentialPhase(c, i, phase), DestinationRank, SocketRank(d))
           == Map(c.probe(i, phase, d), v => Observation(d, v))
    {
      var k: nat :| k < n && dests[k] == d;
      assert Upto(n)[k] == k;
      CollectWithKey(Upto(n), n, Observe(c, i, phase), DestinationRank, rank, k);
    }
    forall o | o in SequentialPhase(c, i, phase) ensures o.destination in dests {
      ObservedAt(c, i, phase, o);
    }
  }

  lemma PhaseKeyed(c: Config, i: nat, phase: Phase, rank: nat -> int)
    requires i < |c.targets|
    requires var r := Destinations(c, i);
      && (forall j, k :: 0 <= j < k < |r| ==> SocketRank(r[j]) < SocketRank(r[k]))
      && forall k: nat :: k < |r| ==> rank(k) == SocketRank(r[k])
    ensures KeyedBlocks(|Destinations(c, i)|, Observe(c, i, phase), DestinationRank, rank)
  {
    hide Destinations;
    var dests := Destinations(c, i);
    forall k: nat, o | k < |dests| && o in Observe(c, i, phase)(k) ensures DestinationRank(o) == rank(k) {
      OneObserved(c, i, phase, k, o);
    }
  }

  lemma OneObserved(c: Config, i: nat, phase: Phase, k: nat, o: Observation)
    requires i < |c.targets| && k < |Destinations(c, i)| && o in Observe(c, i, phase)(k)
    ensures o.destination == Destinations(c, i)[k]
  {
    hide Destinations;
    var block := Observe(c, i, phase)(k);
    var j :| 0 <= j < |block| && block[j] == o;
    var dest := Destinations(c, i)[k];
    assert block == Map(c.probe(i, phase, dest), v => Observation(dest, v));
  }

  lemma ObservedAt(c: Config, i: nat, phase: Phase, o: Observation)
    requires i < |c.targets| && o in SequentialPhase(c, i, phase)
    ensures o.destination in Destinations(c, i)
  {
    hide Destinations;
    var n := |Destinations(c, i)|;
    var k: nat :| k < n && o in Map(Upto(n), Observe(c, i, phase))[k];
    OneObserved(c, i, phase, k, o);
  }

  // ----- the report -----

  /** What a target should report: its TCP probes; its TLS handshakes unless the run is plain; its HTTP/1.1
      responses, followed unless the run is plain by those over HTTP/2 and HTTP/3; and its repeats. */
  function ReportDue(c: Config): nat -> Option<Report> {
    (i: nat) =>
      if i < |c.targets| && Destinations(c, i) != [] then
        Some(Report(
          SequentialPhase(c, i, Tcp),
          if c.plain then [] else SequentialPhase(c, i, Tls),
          SequentialPhase(c, i, Http1)
            + if c.plain then [] else SequentialPhase(c, i, Http2) + SequentialPhase(c, i, Http3),
          SequentialPhase(c, i, Repeat)))
      else None
  }

  lemma ReportHolds(c: Config, i: nat)
    requires i < |c.targets|
    ensures SequentialReport(c, i) == ReportDue(c)(i)
  {
    hide Destinations, SequentialPhase;
    var a, b, d := SequentialPhase(c, i, Http1), SequentialPhase(c, i, Http2), SequentialPhase(c, i, Http3);
    assert a + b + d == a + (b + d) && a + [] == a;
  }

  function Returned(r: (nat, Option<Report>)): Option<Report> { r.1 }

  lemma {:induction false} DeliveredReports(indexed: seq<(nat, Option<Report>)>)
    ensures Delivered(indexed).reports == Collected(indexed, Returned)
    ensures |Delivered(indexed).reports| + Delivered(indexed).unresolved == |indexed|
  {
    if indexed != [] {
      DeliveredReports(indexed[1..]);
    }
  }

  lemma {:induction false} CollectedPointwise<S(!new), T(!new), U(!new)>(
      s: seq<S>, f: S -> Option<U>, t: seq<T>, g: T -> Option<U>)
    requires |s| == |t| && forall k :: 0 <= k < |s| ==> f(s[k]) == g(t[k])
    ensures Collected(s, f) == Collected(t, g)
  {
    if s != [] {
      CollectedPointwise(s[1..], f, t[1..], g);
    }
  }

  /** Whatever the scheduler does, a finished run delivers the report of every target that has an address,
      in the order of the targets, and counts the others as unresolved. */
  lemma ReportsDelivered(c: Config, actions: seq<Action>, s: State)
    requires Run(c, Init(c), actions, s) && Finished(s)
    ensures Delivery(s).reports == Collected(Upto(|c.targets|), ReportDue(c))
    ensures |Delivery(s).reports| + Delivery(s).unresolved == |c.targets|
  {
    hide Run, Init, Finished, Delivery, Delivered, SequentialReport, ReportDue, Collected;
    EveryScheduleAgrees(c, actions, s);
    var indexed := SequentialIndexed(c);
    DeliveredReports(indexed);
    forall k | 0 <= k < |c.targets| ensures Returned(indexed[k]) == ReportDue(c)(Upto(|c.targets|)[k]) {
      ReportHolds(c, k);
    }
    CollectedPointwise(indexed, Returned, Upto(|c.targets|), ReportDue(c));
  }

  // ----- the order of the probes -----

  /** The probes of one target are started phase by phase. */
  predicate PhaseByPhase(log: seq<Probe>) {
    forall a, b :: 0 <= a < b < |log| && log[a].target == log[b].target ==> log[a].phase <= log[b].phase
  }

  lemma StepInPhase(c: Config, s: State, a: Action)
    requires Inv(c, s) && Enabled(c, s, a) && PhaseByPhase(s.log)
    ensures PhaseByPhase(Apply(c, s, a).log)
  {
    hide Destinations, SequentialReport, SequentialPhase, TaskInv, PermitInv;
    if a.StartProbe? {
      var t := s.tasks[a.i];
      forall k | 0 <= k < |s.log| && s.log[k].target == a.i ensures s.log[k].phase <= |t.results| {
        assert s.log[k] in s.log;
      }
    }
  }

  lemma {:induction false} RunInPhase(c: Config, s: State, actions: seq<Action>, t: State)
    requires Inv(c, s) && Run(c, s, actions, t) && PhaseByPhase(s.log)
    ensures PhaseByPhase(t.log)
    decreases |actions|
  {
    hide Inv, Enabled, Apply, PhaseByPhase, StepsLeft;
    if actions != [] {
      Step(c, s, actions[0]);
      StepInPhase(c, s, actions[0]);
      RunInPhase(c, Apply(c, s, actions[0]), actions[1..], t);
    }
  }

  /** In every run each target is probed phase by phase: TCP, then TLS unless the run is plain, then
      HTTP/1.1, HTTP/2, HTTP/3, and the repeats last. */
  lemma ProbedPhaseByPhase(c: Config, actions: seq<Action>, s: State)
    requires Run(c, Init(c), actions, s)
    ensures forall a, b :: 0 <= a < b < |s.log| && s.log[a].target == s.log[b].target ==>
      s.log[a].phase <= s.log[b].phase
    ensures Phases(c.plain) == [Tcp] + (if c.plain then [] else [Tls]) + [Http1, Http2, Http3, Repeat]
  {
    InitInv(c);
    RunInPhase(c, Init(c), actions, s);
  }
}
