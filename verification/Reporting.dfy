/** What the engine's verdicts say as a whole: who reports what, when all is called healthy, and when a
    verdict claims high confidence. */
module Reporting {
  import opened Collections
  import opened Net
  import opened Observations
  import opened ReachabilityRules
  import opened LayerRules
  import opened HttpConsistency
  import opened Diagnosis
  import DnsMessage
  import DnsRepeat
  import Repeat

  // ----- which rule speaks for which category -----

  predicate Reports(verdicts: seq<Verdict>, c: Category) {
    exists v :: v in verdicts && v.category == c
  }

  predicate Only(verdicts: seq<Verdict>, c: Category) {
    forall v :: v in verdicts ==> v.category == c
  }

  lemma OnceOnly<K(!new)>(keys: seq<K>, verdict: K -> Verdict, c: Category)
    requires forall k :: verdict(k).category == c
    ensures Only(OncePerCause(keys, verdict), c)
  {
  }

  lemma BeforeCategories(x: Input, now: nat, parseIp: string -> Option<Ip>, c: Category)
    requires c !in {Category.Dns, Category.Tls, Category.Certificate, Category.Http}
    ensures Reports(Before(x, now, parseIp), c)
       <==> Reports(ConnectivityVerdicts(x.tcp), c) || Reports(FamilyVerdicts(x.tcp), c)
  {
    hide OncePerCause, NothingResolved, Disagreement, TlsFailsAfterTcp, ConnectivityVerdicts, FamilyVerdicts,
      LifetimeCauses, CoverageOf;
    OnceOnly(LifetimeCauses(x.tls, now), CauseVerdict, Category.Certificate);
    OnceOnly(Collected(x.tls, CoverageOf(parseIp)), CoverageVerdict, Category.Certificate);
    assert Only(DnsVerdicts(x.dns), Category.Dns);
    assert Only(TlsVerdicts(x), Category.Tls) && Only(HttpVerdicts(x), Category.Http);
    assert Only(RedirectVerdicts(x.http), Category.Http);
    assert Only(LifetimeVerdicts(x.tls, now), Category.Certificate);
    assert Only(CoverageVerdicts(x.tls, parseIp), Category.Certificate);
    hide DnsVerdicts, TlsVerdicts, HttpVerdicts, RedirectVerdicts, LifetimeVerdicts, CoverageVerdicts;
  }

  lemma RestCategories(x: Input, c: Category)
    requires c !in {Category.Http, Category.Quic, Category.Intermittent}
    ensures Reports(Rest(x), c) <==> Reports(FilteringVerdicts(x), c)
  {
    hide OncePerCause, QuicFails, Signals, FilteringVerdicts;
    OnceOnly(Collected(x.probes, IntermittentAt), IntermittentVerdict, Category.Intermittent);
    OnceOnly(Collected(x.probes, FlappingAt), InstabilityVerdict, Category.Intermittent);
    OnceOnly(Collected(x.probes, UnstableAt), InstabilityVerdict, Category.Intermittent);
    assert Only(TruncatedVerdicts(x.http), Category.Http) && Only(QuicVerdicts(x.http), Category.Quic);
  }

  /** Who can report what: the connectivity rule alone speaks of total and partial loss, the family rule
      alone of the families, the filtering rule alone of filtering, and a healthy verdict stands alone. */
  lemma ReportedBy(x: Input, now: nat, parseIp: string -> Option<Ip>)
    ensures var verdicts := Diagnosed(x, now, parseIp);
      && (Reports(verdicts, Category.TotalConnectivityLoss)
          <==> Reports(ConnectivityVerdicts(x.tcp), Category.TotalConnectivityLoss))
      && (Reports(verdicts, Category.PartialConnectivity)
          <==> Reports(ConnectivityVerdicts(x.tcp), Category.PartialConnectivity))
      && (Reports(verdicts, Category.AddressFamily) <==> FamilyVerdicts(x.tcp) != [])
      && (Reports(verdicts, Category.PossibleNetworkFiltering) <==> FilteringVerdicts(x) != [])
      && (Reports(verdicts, Category.Healthy) <==> verdicts == [HEALTHY])
  {
    hide Before, Rest, CrossProtocol, CrossFamily, CrossAddress;
    FindingsReport(x, now, parseIp, Category.TotalConnectivityLoss);
    FindingsReport(x, now, parseIp, Category.PartialConnectivity);
    FindingsReport(x, now, parseIp, Category.AddressFamily);
    FindingsReport(x, now, parseIp, Category.PossibleNetworkFiltering);
    FindingsReport(x, now, parseIp, Category.Healthy);
    FilteringOnly(x);
    ReachabilityOnly(x.tcp);
    hide Findings, Signals, ConnectivityVerdicts, FamilyVerdicts, FilteringVerdicts;
  }

  lemma FindingsReport(x: Input, now: nat, parseIp: string -> Option<Ip>, c: Category)
    requires c in {Category.TotalConnectivityLoss, Category.PartialConnectivity, Category.AddressFamily,
                   Category.PossibleNetworkFiltering, Category.Healthy}
    ensures Reports(Findings(x, now, parseIp), c)
       <==> || Reports(ConnectivityVerdicts(x.tcp), c)
            || Reports(FamilyVerdicts(x.tcp), c)
            || Reports(FilteringVerdicts(x), c)
  {
    hide Before, Rest, CrossProtocol, CrossFamily, CrossAddress, ConnectivityVerdicts, FamilyVerdicts,
      FilteringVerdicts;
    BeforeCategories(x, now, parseIp, c);
    RestCategories(x, c);
    assert Only(ConsistencyVerdicts(x.http), Category.Http);
  }

  lemma FilteringOnly(x: Input)
    ensures Only(FilteringVerdicts(x), Category.PossibleNetworkFiltering)
    ensures Reports(FilteringVerdicts(x), Category.PossibleNetworkFiltering) <==> FilteringVerdicts(x) != []
  {
  }

  lemma ReachabilityOnly(tcp: seq<TcpRow>)
    ensures !Reports(ConnectivityVerdicts(tcp), Category.AddressFamily)
    ensures !Reports(ConnectivityVerdicts(tcp), Category.PossibleNetworkFiltering)
    ensures !Reports(ConnectivityVerdicts(tcp), Category.Healthy)
    ensures Only(FamilyVerdicts(tcp), Category.AddressFamily)
    ensures Reports(FamilyVerdicts(tcp), Category.AddressFamily) <==> FamilyVerdicts(tcp) != []
  {
  }

  // ----- failures nobody reports -----

  /** A failed TCP probe without any verdict on reachability, from any rule: exactly the locally
      unreachable ones whose families give no contrast. */
  lemma UnreportedFailures(x: Input, now: nat, parseIp: string -> Option<Ip>)
    requires SomeDown(x.tcp)
    ensures var verdicts := Diagnosed(x, now, parseIp);
      && !Reports(verdicts, Category.TotalConnectivityLoss) && !Reports(verdicts, Category.PartialConnectivity)
      && !Reports(verdicts, Category.AddressFamily)
      <==> AllLocal(x.tcp) && NoContrast(x.tcp)
  {
    hide Diagnosed, FamilyVerdicts, NoContrast;
    ReportedBy(x, now, parseIp);
    SilentFailures(x.tcp);
    var c := ConnectivityVerdicts(x.tcp);
    assert c != [] ==> c[0] in c;
  }

  /** Nothing for the rules other than the two TCP rules to say. */
  predicate OthersSilent(x: Input, now: nat, parseIp: string -> Option<Ip>) {
    && !NothingResolved(x.dns) && !Disagreement(x.dns)
    && !TlsFailsAfterTcp(x)
    && (forall t :: t in x.tls ==> RowCauses(t, now) == [] && CoverageOf(parseIp)(t).None?)
    && (forall h :: h in x.http ==> !LayerFailed(h, x.tcp) && !Redirected(h) && !Truncated(h))
    && !CrossProtocol(x.http) && !CrossFamily(x.http) && !CrossAddress(x.http)
    && !QuicFails(x.http)
    && (forall p :: p in x.probes ==> IntermittentAt(p).None? && FlappingAt(p).None? && UnstableAt(p).None?)
    && Signals(x) < 2
  }

  lemma OnceNothing<K(!new)>(keys: seq<K>, verdict: K -> Verdict)
    ensures OncePerCause(keys, verdict) == [] <==> keys == []
  {
    assert keys != [] ==> keys[0] in FirstOccurrences(keys);
  }

  lemma {:induction false} CollectedNothing<T(!new), U(!new)>(s: seq<T>, f: T -> Option<U>)
    ensures Collected(s, f) == [] <==> forall x :: x in s ==> f(x).None?
  {
    if s != [] {
      CollectedNothing(s[1..], f);
      assert forall x :: x in s <==> x == s[0] || x in s[1..];
    }
  }

  lemma CausesNothing(tls: seq<TlsRow>, now: nat)
    ensures LifetimeCauses(tls, now) == [] <==> forall t :: t in tls ==> RowCauses(t, now) == []
  {
    hide RowCauses;
    var all := LifetimeCauses(tls, now);
    if all != [] {
      assert all[0] in all;
    }
    forall t | t in tls && RowCauses(t, now) != [] ensures all != [] {
      assert RowCauses(t, now)[0] in all;
    }
  }

  lemma BeforeNothing(x: Input, now: nat, parseIp: string -> Option<Ip>)
    ensures Before(x, now, parseIp) == [] <==>
      && ConnectivityVerdicts(x.tcp) == [] && FamilyVerdicts(x.tcp) == []
      && !NothingResolved(x.dns) && !Disagreement(x.dns) && !TlsFailsAfterTcp(x)
      && (forall t :: t in x.tls ==> RowCauses(t, now) == [] && CoverageOf(parseIp)(t).None?)
      && (forall h :: h in x.http ==> !LayerFailed(h, x.tcp) && !Redirected(h))
  {
    hide OncePerCause, LifetimeCauses, RowCauses, CoverageOf, Collected, ConnectivityVerdicts, FamilyVerdicts,
      NothingResolved, Disagreement, TlsFailsAfterTcp, LayerFailed, Redirected;
    OnceNothing(LifetimeCauses(x.tls, now), CauseVerdict);
    OnceNothing(Collected(x.tls, CoverageOf(parseIp)), CoverageVerdict);
    CausesNothing(x.tls, now);
    CollectedNothing(x.tls, CoverageOf(parseIp));
  }

  lemma RestNothing(x: Input)
    ensures Rest(x) == [] <==>
      && (forall h :: h in x.http ==> !Truncated(h)) && !QuicFails(x.http)
      && (forall p :: p in x.probes ==> IntermittentAt(p).None? && FlappingAt(p).None? && UnstableAt(p).None?)
      && Signals(x) < 2
  {
    hide OncePerCause, Collected, Truncated, QuicFails, IntermittentAt, FlappingAt, UnstableAt, Signals;
    OnceNothing(Collected(x.probes, IntermittentAt), IntermittentVerdict);
    OnceNothing(Collected(x.probes, FlappingAt), InstabilityVerdict);
    OnceNothing(Collected(x.probes, UnstableAt), InstabilityVerdict);
    CollectedNothing(x.probes, IntermittentAt);
    CollectedNothing(x.probes, FlappingAt);
    CollectedNothing(x.probes, UnstableAt);
  }

  lemma HealthyBySilence(x: Input, now: nat, parseIp: string -> Option<Ip>)
    ensures Diagnosed(x, now, parseIp) == [HEALTHY] <==>
      ConnectivityVerdicts(x.tcp) == [] && FamilyVerdicts(x.tcp) == [] && OthersSilent(x, now, parseIp)
  {
    hide Before, Rest, ConnectivityVerdicts, FamilyVerdicts, NothingResolved, Disagreement, TlsFailsAfterTcp,
      RowCauses, CoverageOf, LayerFailed, Redirected, Truncated, CrossProtocol, CrossFamily, CrossAddress,
      QuicFails, IntermittentAt, FlappingAt, UnstableAt, Signals, FilteringVerdicts;
    BeforeNothing(x, now, parseIp);
    RestNothing(x);
    FindingsReport(x, now, parseIp, Category.Healthy);
    ReachabilityOnly(x.tcp);
    FilteringOnly(x);
    assert HEALTHY in [HEALTHY] && Reports([HEALTHY], Category.Healthy);
  }

  lemma NothingDown(tcp: seq<TcpRow>)
    ensures !SomeDown(tcp) ==> ConnectivityVerdicts(tcp) == [] && FamilyVerdicts(tcp) == []
  {
    assert tcp != [] ==> tcp[0] in tcp;
  }

  /** Every TCP failure is a missing local route without a contrast of families, and no other rule has
      anything to say. */
  predicate AllWell(x: Input, now: nat, parseIp: string -> Option<Ip>) {
    (SomeDown(x.tcp) ==> AllLocal(x.tcp) && NoContrast(x.tcp)) && OthersSilent(x, now, parseIp)
  }

  /** All is called healthy exactly when all is well in that sense. */
  lemma HealthyExactly(x: Input, now: nat, parseIp: string -> Option<Ip>)
    ensures Diagnosed(x, now, parseIp) == [HEALTHY] <==> AllWell(x, now, parseIp)
  {
    hide Diagnosed, OthersSilent, NoContrast, AllLocal, SomeDown, ConnectivityVerdicts, FamilyVerdicts;
    HealthyBySilence(x, now, parseIp);
    SilentFailures(x.tcp);
    NothingDown(x.tcp);
  }

  /** A failed TCP probe is called healthy exactly when every failure is a missing local route, the
      families give no contrast, and no other rule has anything to say. */
  lemma FailureCalledHealthy(x: Input, now: nat, parseIp: string -> Option<Ip>)
    ensures SomeDown(x.tcp) && Diagnosed(x, now, parseIp) == [HEALTHY] <==>
      SomeDown(x.tcp) && AllLocal(x.tcp) && NoContrast(x.tcp) && OthersSilent(x, now, parseIp)
  {
    hide Diagnosed, OthersSilent, NoContrast, AllLocal, SomeDown;
    HealthyExactly(x, now, parseIp);
  }

  /** On TCP rows alone nothing else is needed: a row that succeeded carries no failure. */
  lemma FailureCalledHealthyOnTcp(tcp: seq<TcpRow>, now: nat, parseIp: string -> Option<Ip>)
    requires forall o :: o in tcp && o.success ==> o.failure.None?
    ensures SomeDown(tcp) && Diagnosed(Input([], tcp, [], [], []), now, parseIp) == [HEALTHY] <==>
      SomeDown(tcp) && AllLocal(tcp) && NoContrast(tcp)
  {
    hide Diagnosed, NoContrast;
    var x := Input([], tcp, [], [], []);
    FailureCalledHealthy(x, now, parseIp);
    if AllLocal(tcp) {
      TcpAloneSilent(tcp, now, parseIp);
    }
  }

  lemma TcpAloneSilent(tcp: seq<TcpRow>, now: nat, parseIp: string -> Option<Ip>)
    requires AllLocal(tcp) && forall o :: o in tcp && o.success ==> o.failure.None?
    ensures OthersSilent(Input([], tcp, [], [], []), now, parseIp)
  {
    assert forall o :: o in tcp ==> !PathFailure(o);
  }

  /** A host that resolved to one address of each family, neither of which this machine can route to. */
  const UNROUTED := Input(
    [DnsRow(DnsRepeat.System, DnsMessage.A, [Some(V4(1))], false),
     DnsRow(DnsRepeat.System, DnsMessage.Aaaa, [Some(V6(1))], false)],
    [TcpRow(SocketAddr(V4(1), 443), false, Some(Repeat.NetworkUnreachable)),
     TcpRow(SocketAddr(V6(1), 443), false, Some(Repeat.HostUnreachable))],
    [], [], [])

  lemma UnroutedResolved()
    ensures !NothingResolved(UNROUTED.dns) && !Disagreement(UNROUTED.dns)
  {
    hide AddressSet;
    assert UNROUTED.dns[0] in UNROUTED.dns;
    assert forall o :: o in UNROUTED.dns ==> o.resolver == DnsRepeat.System;
  }

  /** Both connections failed, and the engine calls it healthy. */
  lemma UnroutedIsHealthy(now: nat, parseIp: string -> Option<Ip>)
    ensures SomeDown(UNROUTED.tcp) && Diagnosed(UNROUTED, now, parseIp) == [HEALTHY]
  {
    hide Diagnosed, Disagreement, NothingResolved, CoverageOf, RowCauses;
    assert UNROUTED.tcp[0] in UNROUTED.tcp && UNROUTED.tcp[1] in UNROUTED.tcp;
    UnroutedResolved();
    FailureCalledHealthy(UNROUTED, now, parseIp);
  }

  /** Possible filtering always rests on at least two signals, and is never claimed with high
      confidence. */
  lemma FilteringIsCautious(x: Input, now: nat, parseIp: string -> Option<Ip>)
    ensures Reports(Diagnosed(x, now, parseIp), Category.PossibleNetworkFiltering) <==> Signals(x) >= 2
    ensures forall v :: v in FilteringVerdicts(x) ==>
      v.severity == Severity.Low && (v.confidence == Confidence.Medium <==> Signals(x) >= 4)
      && v.confidence in {Confidence.Low, Confidence.Medium}
  {
    hide Diagnosed, Signals;
    ReportedBy(x, now, parseIp);
  }

  // ----- high confidence -----

  predicate ClaimsHigh(verdicts: seq<Verdict>) {
    exists v :: v in verdicts && v.confidence == Confidence.High
  }

  predicate HighFromTcp(tcp: seq<TcpRow>) {
    SomeDown(tcp) && !AllLocal(tcp) && HowMany(tcp, Failing) > 1
  }

  predicate HighFromTls(tls: seq<TlsRow>, now: nat) {
    exists t, k :: t in tls && k in RowCauses(t, now) && k.cause.Expired?
  }

  predicate HighFromProbes(probes: seq<ProbeRow>) {
    exists p :: p in probes && (IntermittentAt(p).Some? || FlappingAt(p).Some? || UnstableAt(p).Some?)
  }

  lemma OnceHigh<K(!new)>(keys: seq<K>, verdict: K -> Verdict)
    ensures ClaimsHigh(OncePerCause(keys, verdict))
       <==> exists k :: k in keys && verdict(k).confidence == Confidence.High
  {
    var causes := FirstOccurrences(keys);
    if k :| k in keys && verdict(k).confidence == Confidence.High {
      var i :| 0 <= i < |causes| && causes[i] == k;
      assert Map(causes, verdict)[i] in Map(causes, verdict);
    }
    if ClaimsHigh(OncePerCause(keys, verdict)) {
      var v :| v in Map(causes, verdict) && v.confidence == Confidence.High;
      var i :| 0 <= i < |causes| && Map(causes, verdict)[i] == v;
      assert causes[i] in keys;
    }
  }

  lemma LifetimeHigh(tls: seq<TlsRow>, now: nat)
    ensures ClaimsHigh(LifetimeVerdicts(tls, now)) <==> HighFromTls(tls, now)
  {
    hide OncePerCause, RowCauses;
    var causes := LifetimeCauses(tls, now);
    OnceHigh(causes, CauseVerdict);
    if k :| k in causes && CauseVerdict(k).confidence == Confidence.High {
      var t :| t in tls && k in RowCauses(t, now);
      assert k.cause.Expired?;
    }
    if t, k :| t in tls && k in RowCauses(t, now) && k.cause.Expired? {
      assert k in causes && CauseVerdict(k).confidence == Confidence.High;
    }
  }

  lemma BeforeHigh(x: Input, now: nat, parseIp: string -> Option<Ip>)
    ensures ClaimsHigh(Before(x, now, parseIp))
       <==> NothingResolved(x.dns) || HighFromTcp(x.tcp) || HighFromTls(x.tls, now)
  {
    hide OncePerCause, RowCauses, CoverageOf, NothingResolved, Disagreement, TlsFailsAfterTcp, SomeUp, SomeDown,
      AllLocal;
    LifetimeHigh(x.tls, now);
    OnceHigh(Collected(x.tls, CoverageOf(parseIp)), CoverageVerdict);
    assert ClaimsHigh(DnsVerdicts(x.dns)) <==> NothingResolved(x.dns);
    assert ClaimsHigh(ConnectivityVerdicts(x.tcp)) <==> HighFromTcp(x.tcp);
    assert !ClaimsHigh(FamilyVerdicts(x.tcp)) && !ClaimsHigh(TlsVerdicts(x));
    assert !ClaimsHigh(HttpVerdicts(x)) && !ClaimsHigh(RedirectVerdicts(x.http));
    assert !ClaimsHigh(CoverageVerdicts(x.tls, parseIp));
    hide DnsVerdicts, ConnectivityVerdicts, FamilyVerdicts, TlsVerdicts, LifetimeVerdicts, CoverageVerdicts,
      HttpVerdicts, RedirectVerdicts;
  }

  lemma RestHigh(x: Input)
    ensures ClaimsHigh(Rest(x)) <==> HighFromProbes(x.probes)
  {
    hide OncePerCause, Collected, QuicFails, Signals, IntermittentAt, FlappingAt, UnstableAt;
    OnceHigh(Collected(x.probes, IntermittentAt), IntermittentVerdict);
    OnceHigh(Collected(x.probes, FlappingAt), InstabilityVerdict);
    OnceHigh(Collected(x.probes, UnstableAt), InstabilityVerdict);
    CollectedElements(x.probes, IntermittentAt);
    CollectedElements(x.probes, FlappingAt);
    CollectedElements(x.probes, UnstableAt);
    assert !ClaimsHigh(TruncatedVerdicts(x.http)) && !ClaimsHigh(QuicVerdicts(x.http));
    assert !ClaimsHigh(FilteringVerdicts(x));
    hide TruncatedVerdicts, QuicVerdicts, FilteringVerdicts;
  }

  /** No forward lookup succeeded though one failed, at least two TCP probes failed and one of them on the
      path, a certificate has expired, or a repeat is intermittent, flapping or unstable. */
  predicate RulesHigh(x: Input, now: nat) {
    NothingResolved(x.dns) || HighFromTcp(x.tcp) || HighFromTls(x.tls, now) || HighFromProbes(x.probes)
  }

  lemma FindingsHigh(x: Input, now: nat, parseIp: string -> Option<Ip>)
    ensures ClaimsHigh(Findings(x, now, parseIp)) <==> RulesHigh(x, now)
  {
    hide Before, Rest, CrossProtocol, CrossFamily, CrossAddress, NothingResolved, HighFromTcp, HighFromTls,
      HighFromProbes;
    BeforeHigh(x, now, parseIp);
    RestHigh(x);
    assert !ClaimsHigh(ConsistencyVerdicts(x.http));
    hide ConsistencyVerdicts;
  }

  /** High confidence in something other than health. */
  predicate Alarms(verdicts: seq<Verdict>) {
    exists v :: v in verdicts && v.category != Category.Healthy && v.confidence == Confidence.High
  }

  /** The engine answers with high confidence exactly when one of its rules does, or when all is well: the
      healthy verdict claims it too. */
  lemma HighExactly(x: Input, now: nat, parseIp: string -> Option<Ip>)
    ensures ClaimsHigh(Diagnosed(x, now, parseIp)) <==> RulesHigh(x, now) || AllWell(x, now, parseIp)
    ensures Alarms(Diagnosed(x, now, parseIp)) <==> RulesHigh(x, now)
  {
    hide Findings, RulesHigh, AllWell, ConnectivityVerdicts, FamilyVerdicts, FilteringVerdicts;
    FindingsHigh(x, now, parseIp);
    HealthyExactly(x, now, parseIp);
    FindingsReport(x, now, parseIp, Category.Healthy);
    ReachabilityOnly(x.tcp);
    FilteringOnly(x);
    assert HEALTHY in [HEALTHY] && ClaimsHigh([HEALTHY]);
  }

  // ----- one type of observation -----

  function OnlyDns(x: Input): Input { Input(x.dns, [], [], [], []) }

  function OnlyTcp(x: Input): Input { Input([], x.tcp, [], [], []) }

  function OnlyTls(x: Input): Input { Input([], [], x.tls, [], []) }

  function OnlyHttp(x: Input): Input { Input([], [], [], x.http, []) }

  function OnlyProbes(x: Input): Input { Input([], [], [], [], x.probes) }

  predicate TcpWell(tcp: seq<TcpRow>) {
    (SomeDown(tcp) ==> AllLocal(tcp) && NoContrast(tcp)) && !(AddressSpecific(tcp) && ResetSeen(tcp))
  }

  predicate TlsWell(tls: seq<TlsRow>, now: nat, parseIp: string -> Option<Ip>) {
    forall t :: t in tls ==> RowCauses(t, now) == [] && CoverageOf(parseIp)(t).None?
  }

  predicate HttpWell(http: seq<HttpRow>) {
    && (forall h :: h in http ==> !LayerFailed(h, []) && !Redirected(h) && !Truncated(h))
    && !CrossProtocol(http) && !CrossFamily(http) && !CrossAddress(http) && !QuicFails(http)
  }

  lemma NothingWell(now: nat, parseIp: string -> Option<Ip>)
    ensures AllWell(Input([], [], [], [], []), now, parseIp)
  {
  }

  lemma DnsAlone(x: Input, now: nat, parseIp: string -> Option<Ip>)
    ensures AllWell(OnlyDns(x), now, parseIp) <==> !NothingResolved(x.dns) && !Disagreement(x.dns)
  {
    hide NothingResolved, Disagreement;
  }

  lemma TcpAlone(x: Input, now: nat, parseIp: string -> Option<Ip>)
    ensures AllWell(OnlyTcp(x), now, parseIp) <==> TcpWell(x.tcp)
  {
    hide SomeDown, AllLocal, NoContrast, AddressSpecific, ResetSeen, Reached, FailsOnPath;
  }

  lemma TlsAlone(x: Input, now: nat, parseIp: string -> Option<Ip>)
    ensures AllWell(OnlyTls(x), now, parseIp) <==> TlsWell(x.tls, now, parseIp)
  {
    hide RowCauses, CoverageOf;
  }

  lemma HttpAlone(x: Input, now: nat, parseIp: string -> Option<Ip>)
    ensures AllWell(OnlyHttp(x), now, parseIp) <==> HttpWell(x.http)
  {
    hide LayerFailed, Redirected, Truncated, CrossProtocol, CrossFamily, CrossAddress, QuicFails, QuicOnly;
  }

  lemma ProbesAlone(x: Input, now: nat, parseIp: string -> Option<Ip>)
    ensures AllWell(OnlyProbes(x), now, parseIp) <==> !HighFromProbes(x.probes)
  {
    hide IntermittentAt, FlappingAt, UnstableAt, FlakyElsewhere;
  }

  /** When one type of observation alone makes the engine answer with high confidence: the DNS rows unless
      resolvers disagree, the TCP and the TLS rows when they alarm or are well, the HTTP rows when they are
      well, and the repeats always. */
  lemma HighFromOneType(x: Input, now: nat, parseIp: string -> Option<Ip>)
    ensures ClaimsHigh(Diagnosed(OnlyDns(x), now, parseIp)) <==> NothingResolved(x.dns) || !Disagreement(x.dns)
    ensures ClaimsHigh(Diagnosed(OnlyTcp(x), now, parseIp)) <==> HighFromTcp(x.tcp) || TcpWell(x.tcp)
    ensures ClaimsHigh(Diagnosed(OnlyTls(x), now, parseIp))
       <==> HighFromTls(x.tls, now) || TlsWell(x.tls, now, parseIp)
    ensures ClaimsHigh(Diagnosed(OnlyHttp(x), now, parseIp)) <==> HttpWell(x.http)
    ensures ClaimsHigh(Diagnosed(OnlyProbes(x), now, parseIp))
  {
    hide Diagnosed, AllWell, NothingResolved, Disagreement, TcpWell, TlsWell, HttpWell, HighFromTcp, HighFromTls,
      HighFromProbes;
    NoAlarmFromNothing(now);
    HighExactly(OnlyDns(x), now, parseIp);
    HighExactly(OnlyTcp(x), now, parseIp);
    HighExactly(OnlyTls(x), now, parseIp);
    HighExactly(OnlyHttp(x), now, parseIp);
    HighExactly(OnlyProbes(x), now, parseIp);
    DnsAlone(x, now, parseIp);
    TcpAlone(x, now, parseIp);
    TlsAlone(x, now, parseIp);
    HttpAlone(x, now, parseIp);
    ProbesAlone(x, now, parseIp);
  }

  lemma NoAlarmFromNothing(now: nat)
    ensures !NothingResolved([]) && !HighFromTcp([]) && !HighFromTls([], now) && !HighFromProbes([])
  {
  }

  /** An alarm never needs two types of observation: whenever the engine raises one, one list alone makes
      it do so; and the HTTP rows alone never do. */
  lemma AlarmFromOneType(x: Input, now: nat, parseIp: string -> Option<Ip>)
    ensures Alarms(Diagnosed(x, now, parseIp)) <==>
      || Alarms(Diagnosed(OnlyDns(x), now, parseIp))
      || Alarms(Diagnosed(OnlyTcp(x), now, parseIp))
      || Alarms(Diagnosed(OnlyTls(x), now, parseIp))
      || Alarms(Diagnosed(OnlyProbes(x), now, parseIp))
    ensures !Alarms(Diagnosed(OnlyHttp(x), now, parseIp))
  {
    hide Diagnosed, AllWell, NothingResolved, HighFromTcp, HighFromTls, HighFromProbes;
    NoAlarmFromNothing(now);
    HighExactly(x, now, parseIp);
    HighExactly(OnlyDns(x), now, parseIp);
    HighExactly(OnlyTcp(x), now, parseIp);
    HighExactly(OnlyTls(x), now, parseIp);
    HighExactly(OnlyHttp(x), now, parseIp);
    HighExactly(OnlyProbes(x), now, parseIp);
  }

  /** With one list taken away the engine still answers with high confidence exactly when another list
      raises the alarm, or all is well in what is left. */
  lemma HighWithoutOneType(x: Input, now: nat, parseIp: string -> Option<Ip>)
    ensures var dns, tcp, tls, probes :=
        NothingResolved(x.dns), HighFromTcp(x.tcp), HighFromTls(x.tls, now), HighFromProbes(x.probes);
      && (ClaimsHigh(Diagnosed(x.(dns := []), now, parseIp))
          <==> tcp || tls || probes || AllWell(x.(dns := []), now, parseIp))
      && (ClaimsHigh(Diagnosed(x.(tcp := []), now, parseIp))
          <==> dns || tls || probes || AllWell(x.(tcp := []), now, parseIp))
      && (ClaimsHigh(Diagnosed(x.(tls := []), now, parseIp))
          <==> dns || tcp || probes || AllWell(x.(tls := []), now, parseIp))
      && (ClaimsHigh(Diagnosed(x.(http := []), now, parseIp))
          <==> dns || tcp || tls || probes || AllWell(x.(http := []), now, parseIp))
      && (ClaimsHigh(Diagnosed(x.(probes := []), now, parseIp))
          <==> dns || tcp || tls || AllWell(x.(probes := []), now, parseIp))
  {
    hide Diagnosed, AllWell, NothingResolved, HighFromTcp, HighFromTls, HighFromProbes;
    NoAlarmFromNothing(now);
    HighExactly(x.(dns := []), now, parseIp);
    HighExactly(x.(tcp := []), now, parseIp);
    HighExactly(x.(tls := []), now, parseIp);
    HighExactly(x.(http := []), now, parseIp);
    HighExactly(x.(probes := []), now, parseIp);
  }

  /** Taking one list away takes the alarm away exactly when that list raised it and no other did. */
  lemma AlarmCarriedAlone(x: Input, now: nat, parseIp: string -> Option<Ip>)
    ensures var dns, tcp, tls, probes :=
        NothingResolved(x.dns), HighFromTcp(x.tcp), HighFromTls(x.tls, now), HighFromProbes(x.probes);
      Alarms(Diagnosed(x, now, parseIp)) ==>
      && (!Alarms(Diagnosed(x.(dns := []), now, parseIp)) <==> dns && !tcp && !tls && !probes)
      && (!Alarms(Diagnosed(x.(tcp := []), now, parseIp)) <==> tcp && !dns && !tls && !probes)
      && (!Alarms(Diagnosed(x.(tls := []), now, parseIp)) <==> tls && !dns && !tcp && !probes)
      && (!Alarms(Diagnosed(x.(probes := []), now, parseIp)) <==> probes && !dns && !tcp && !tls)
      && Alarms(Diagnosed(x.(http := []), now, parseIp))
  {
    hide Diagnosed, AllWell, NothingResolved, HighFromTcp, HighFromTls, HighFromProbes;
    NoAlarmFromNothing(now);
    HighExactly(x, now, parseIp);
    HighExactly(x.(dns := []), now, parseIp);
    HighExactly(x.(tcp := []), now, parseIp);
    HighExactly(x.(tls := []), now, parseIp);
    HighExactly(x.(probes := []), now, parseIp);
    HighExactly(x.(http := []), now, parseIp);
  }

  /** Without a single observation the engine is highly confident that all is healthy. */
  lemma HighFromNothing(now: nat, parseIp: string -> Option<Ip>)
    ensures Diagnosed(Input([], [], [], [], []), now, parseIp) == [HEALTHY] && ClaimsHigh([HEALTHY])
  {
    hide Diagnosed, AllWell;
    NothingWell(now, parseIp);
    HealthyExactly(Input([], [], [], [], []), now, parseIp);
    assert HEALTHY in [HEALTHY];
  }

  /** One failed lookup is enough for an alarm. */
  lemma HighFromOneObservation(resolver: DnsRepeat.Resolver, now: nat, parseIp: string -> Option<Ip>)
    ensures Alarms(Diagnosed(Input([DnsRow(resolver, DnsMessage.A, [], true)], [], [], [], []), now, parseIp))
  {
    hide Diagnosed;
    var row := DnsRow(resolver, DnsMessage.A, [], true);
    assert row in [row] && Forward(row);
    HighExactly(Input([row], [], [], [], []), now, parseIp);
  }

  /** One verdict for each distinct cause, however often it was observed. */
  lemma OneVerdictPerCause<K(!new)>(keys: seq<K>, verdict: K -> Verdict)
    ensures |OncePerCause(keys, verdict)| == |set k | k in keys|
  {
    var causes := FirstOccurrences(keys);
    DistinctSize(causes);
    assert (set k | k in causes) == (set k | k in keys);
  }

  lemma {:induction false} DistinctSize<K(!new)>(s: seq<K>)
    requires Distinct(s)
    ensures |set k | k in s| == |s|
  {
    if s != [] {
      var init, last := s[..|s| - 1], s[|s| - 1];
      DistinctSize(init);
      assert s == init + [last];
      assert (set k | k in s) == (set k | k in init) + {last};
      assert last !in init;
    }
  }
}
