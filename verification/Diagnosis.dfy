/** The diagnostic engine: fifteen rules in a row, a healthy verdict when none of them spoke. */
module Diagnosis {
  import opened Collections
  import opened Net
  import opened Observations
  import opened ReachabilityRules
  import opened LayerRules
  import opened HttpConsistency
  import opened HttpOrder

  const HEALTHY := Verdict(Severity.Info, Category.Healthy, Confidence.High)

  /** What the rules before the consistency rule say. */
  function Before(x: Input, now: nat, parseIp: string -> Option<Ip>): seq<Verdict> {
    DnsVerdicts(x.dns) + ConnectivityVerdicts(x.tcp) + FamilyVerdicts(x.tcp) + TlsVerdicts(x)
    + LifetimeVerdicts(x.tls, now) + CoverageVerdicts(x.tls, parseIp) + HttpVerdicts(x) + RedirectVerdicts(x.http)
  }

  /** What the rules after it say. */
  function Rest(x: Input): seq<Verdict> {
    TruncatedVerdicts(x.http) + QuicVerdicts(x.http) + IntermittentVerdicts(x.probes) + FlappingVerdicts(x.probes)
    + UnstableVerdicts(x.probes) + FilteringVerdicts(x)
  }

  function Findings(x: Input, now: nat, parseIp: string -> Option<Ip>): seq<Verdict> {
    Before(x, now, parseIp) + ConsistencyVerdicts(x.http) + Rest(x)
  }

  function Diagnosed(x: Input, now: nat, parseIp: string -> Option<Ip>): seq<Verdict> {
    if Findings(x, now, parseIp) == [] then [HEALTHY] else Findings(x, now, parseIp)
  }

  method Diagnose(x: Input, now: nat, parseIp: string -> Option<Ip>) returns (out: seq<Verdict>)
    ensures out == Diagnosed(x, now, parseIp)
  {
    hide DnsVerdicts, ConnectivityVerdicts, FamilyVerdicts, TlsVerdicts, LifetimeVerdicts, CoverageVerdicts,
      HttpVerdicts, RedirectVerdicts, ConsistencyVerdicts, TruncatedVerdicts, QuicVerdicts, IntermittentVerdicts,
      FlappingVerdicts, UnstableVerdicts, FilteringVerdicts, Disagreement;
    out := [];
    var dnsSignal;
    out, dnsSignal := DnsRules(x, out);
    out := ConnectivityRules(x, out);
    out := FamilyRules(x, out);
    out := TlsLayerRules(x, out);
    out := CertificateLifetimeRules(x, now, out);
    out := CertificateCoverageRules(x, parseIp, out);
    out := HttpLayerRules(x, out);
    out := RedirectRules(x, out);
    assert out == Before(x, now, parseIp);
    out := HttpConsistencyRules(x, out);
    ghost var sofar := out;
    out := TruncatedBodyRules(x, out);
    out := QuicRules(x, out);
    out := IntermittentRules(x, out);
    out := HttpStatusFlappingRules(x, out);
    out := LatencyInstabilityRules(x, out);
    out := FilteringRules(x, dnsSignal, out);
    assert out == sofar + Rest(x);
    if out == [] {
      out := [HEALTHY];
    }
  }

  // ----- the order of the observations -----

  lemma DnsUpToOrder(a: seq<DnsRow>, b: seq<DnsRow>)
    requires multiset(a) == multiset(b)
    ensures DnsVerdicts(a) == DnsVerdicts(b) && Disagreement(a) == Disagreement(b)
  {
    hide Answered, Addresses;
    PermutationElements(a, b);
    forall r ensures AddressSet(a, r) == AddressSet(b, r) {
      assert forall ip :: ip in AddressSet(a, r) <==> ip in AddressSet(b, r);
    }
  }

  lemma TcpUpToOrder(a: seq<TcpRow>, b: seq<TcpRow>)
    requires multiset(a) == multiset(b)
    ensures ConnectivityVerdicts(a) == ConnectivityVerdicts(b) && FamilyVerdicts(a) == FamilyVerdicts(b)
  {
    PermutationElements(a, b);
    HowManyPermutation(a, b, Failing);
    SameTcp(a, b);
  }

  /** What the predicates on TCP rows depend on. */
  lemma SameTcp(a: seq<TcpRow>, b: seq<TcpRow>)
    requires forall o :: o in a <==> o in b
    ensures SomeUp(a) == SomeUp(b) && SomeDown(a) == SomeDown(b) && AllLocal(a) == AllLocal(b)
    ensures forall v4 :: FamilyPresent(a, v4) == FamilyPresent(b, v4) && FamilyUp(a, v4) == FamilyUp(b, v4)
    ensures forall d :: Reached(a, d) == Reached(b, d) && FailsOnPath(a, d) == FailsOnPath(b, d)
    ensures AddressSpecific(a) == AddressSpecific(b) && ResetSeen(a) == ResetSeen(b)
  {
  }

  lemma CertificatesUpToOrder(a: seq<TlsRow>, b: seq<TlsRow>, now: nat, parseIp: string -> Option<Ip>)
    requires multiset(a) == multiset(b)
    ensures multiset(LifetimeVerdicts(a, now)) == multiset(LifetimeVerdicts(b, now))
    ensures multiset(CoverageVerdicts(a, parseIp)) == multiset(CoverageVerdicts(b, parseIp))
  {
    hide OncePerCause, RowCauses;
    PermutationElements(a, b);
    OncePerCauseUpToOrder(LifetimeCauses(a, now), LifetimeCauses(b, now), CauseVerdict);
    CollectedElements(a, CoverageOf(parseIp));
    CollectedElements(b, CoverageOf(parseIp));
    OncePerCauseUpToOrder(Collected(a, CoverageOf(parseIp)), Collected(b, CoverageOf(parseIp)), CoverageVerdict);
  }

  lemma ProbesUpToOrder(a: seq<ProbeRow>, b: seq<ProbeRow>)
    requires multiset(a) == multiset(b)
    ensures multiset(IntermittentVerdicts(a)) == multiset(IntermittentVerdicts(b))
    ensures multiset(FlappingVerdicts(a)) == multiset(FlappingVerdicts(b))
    ensures multiset(UnstableVerdicts(a)) == multiset(UnstableVerdicts(b))
  {
    PermutationElements(a, b);
    KeysUpToOrder(a, b, IntermittentAt, IntermittentVerdict);
    KeysUpToOrder(a, b, FlappingAt, InstabilityVerdict);
    KeysUpToOrder(a, b, UnstableAt, InstabilityVerdict);
  }

  lemma KeysUpToOrder(
      a: seq<ProbeRow>, b: seq<ProbeRow>, f: ProbeRow -> Option<SocketAddr>, verdict: SocketAddr -> Verdict)
    requires forall p :: p in a <==> p in b
    ensures multiset(OncePerCause(Collected(a, f), verdict)) == multiset(OncePerCause(Collected(b, f), verdict))
  {
    hide OncePerCause, Collected;
    CollectedElements(a, f);
    CollectedElements(b, f);
    OncePerCauseUpToOrder(Collected(a, f), Collected(b, f), verdict);
  }

  lemma HttpUpToOrder(x: Input, y: Input)
    requires Permuted(x, y)
    ensures HttpVerdicts(x) == HttpVerdicts(y) && RedirectVerdicts(x.http) == RedirectVerdicts(y.http)
    ensures TruncatedVerdicts(x.http) == TruncatedVerdicts(y.http) && QuicVerdicts(x.http) == QuicVerdicts(y.http)
    ensures QuicOnly(x.http) == QuicOnly(y.http)
    ensures CrossProtocol(x.http) == CrossProtocol(y.http) && CrossFamily(x.http) == CrossFamily(y.http)
  {
    hide OwnFailure, Redirected, Truncated;
    PermutationElements(x.http, y.http);
    PermutationElements(x.tcp, y.tcp);
    forall h ensures LayerFailed(h, x.tcp) == LayerFailed(h, y.tcp) {
      assert InheritedFromTcp(h, x.tcp) == InheritedFromTcp(h, y.tcp);
    }
    hide LayerFailed;
    FamiliesUpToOrder(x.http, y.http);
    ProtocolsUpToOrder(x.http, y.http);
  }

  lemma FamiliesUpToOrder(a: seq<HttpRow>, b: seq<HttpRow>)
    requires forall h :: h in a <==> h in b
    ensures CrossFamily(a) == CrossFamily(b)
  {
  }

  lemma ProtocolsUpToOrder(a: seq<HttpRow>, b: seq<HttpRow>)
    requires forall h :: h in a <==> h in b
    ensures CrossProtocol(a) == CrossProtocol(b)
  {
  }

  lemma SignalsUpToOrder(x: Input, y: Input)
    requires Permuted(x, y)
    ensures TlsFailsAfterTcp(x) == TlsFailsAfterTcp(y) && FilteringVerdicts(x) == FilteringVerdicts(y)
  {
    hide DnsVerdicts, Disagreement, AddressSpecific, ResetSeen, QuicOnly, Reached, FailsOnPath, SomeUp, SomeDown,
      AllLocal, FamilyPresent, FamilyUp, HttpVerdicts, RedirectVerdicts, TruncatedVerdicts, QuicVerdicts,
      CrossProtocol, CrossFamily;
    PermutationElements(x.tcp, y.tcp);
    PermutationElements(x.tls, y.tls);
    PermutationElements(x.probes, y.probes);
    SameTcp(x.tcp, y.tcp);
    DnsUpToOrder(x.dns, y.dns);
    HttpUpToOrder(x, y);
  }

  lemma BeforeUpToOrder(x: Input, y: Input, now: nat, parseIp: string -> Option<Ip>)
    requires Permuted(x, y)
    ensures multiset(Before(x, now, parseIp)) == multiset(Before(y, now, parseIp))
  {
    hide DnsVerdicts, ConnectivityVerdicts, FamilyVerdicts, TlsFailsAfterTcp, LifetimeVerdicts, CoverageVerdicts,
      HttpVerdicts, RedirectVerdicts;
    DnsUpToOrder(x.dns, y.dns);
    TcpUpToOrder(x.tcp, y.tcp);
    SignalsUpToOrder(x, y);
    CertificatesUpToOrder(x.tls, y.tls, now, parseIp);
    HttpUpToOrder(x, y);
  }

  lemma RestUpToOrder(x: Input, y: Input)
    requires Permuted(x, y)
    ensures multiset(Rest(x)) == multiset(Rest(y))
  {
    hide TruncatedVerdicts, QuicVerdicts, IntermittentVerdicts, FlappingVerdicts, UnstableVerdicts, FilteringVerdicts;
    HttpUpToOrder(x, y);
    ProbesUpToOrder(x.probes, y.probes);
    SignalsUpToOrder(x, y);
  }

  /** Everything but the cross-address verdict is the same for every order of the observations. */
  lemma FindingsUpToOrder(x: Input, y: Input, now: nat, parseIp: string -> Option<Ip>)
    requires Permuted(x, y)
    ensures multiset(Findings(x, now, parseIp)) + multiset(When(CrossAddress(y.http)))
         == multiset(Findings(y, now, parseIp)) + multiset(When(CrossAddress(x.http)))
  {
    hide Before, Rest, CrossProtocol, CrossFamily, CrossAddress;
    BeforeUpToOrder(x, y, now, parseIp);
    RestUpToOrder(x, y);
    HttpUpToOrder(x, y);
  }

  /** Reordering the observations changes the verdicts exactly when it changes the cross-address one. */
  lemma OneVerdictDecides(x: Input, y: Input, now: nat, parseIp: string -> Option<Ip>)
    requires Permuted(x, y)
    ensures multiset(Diagnosed(x, now, parseIp)) == multiset(Diagnosed(y, now, parseIp))
       <==> CrossAddress(x.http) == CrossAddress(y.http)
  {
    hide Findings, CrossAddress;
    FindingsUpToOrder(x, y, now, parseIp);
    var f, g := Findings(x, now, parseIp), Findings(y, now, parseIp);
    if CrossAddress(x.http) == CrossAddress(y.http) {
      CancelCommon(multiset(f), multiset(g), multiset(When(CrossAddress(x.http))));
      PermutationElements(f, g);
    } else {
      LongerByOne(f, g, CrossAddress(x.http));
      if f == [] {
        assert g == [DIFFERS];
        assert DIFFERS in multiset(Diagnosed(y, now, parseIp)) && DIFFERS !in multiset(Diagnosed(x, now, parseIp));
      } else if g == [] {
        assert f == [DIFFERS];
        assert DIFFERS in multiset(Diagnosed(x, now, parseIp)) && DIFFERS !in multiset(Diagnosed(y, now, parseIp));
      } else {
        assert |multiset(f)| != |multiset(g)|;
      }
    }
  }

  lemma LongerByOne(f: seq<Verdict>, g: seq<Verdict>, first: bool)
    requires multiset(f) + multiset(When(!first)) == multiset(g) + multiset(When(first))
    ensures |f| + (if first then 0 else 1) == |g| + if first then 1 else 0
    ensures f == [] ==> !first && g == [DIFFERS]
    ensures g == [] ==> first && f == [DIFFERS]
  {
    var a, b := When(!first), When(first);
    assert multiset(f + a) == multiset(g + b);
    PermutationElements(f + a, g + b);
    assert |f| + |a| == |g| + |b|;
    if f == [] {
      assert |g| == 1 && g[0] in g + b && f + a == [DIFFERS];
    }
    if g == [] {
      assert |f| == 1 && f[0] in f + a && g + b == [DIFFERS];
    }
  }

  lemma CancelCommon<T(!new)>(a: multiset<T>, b: multiset<T>, c: multiset<T>)
    requires a + c == b + c
    ensures a == b
  {
    assert a == (a + c) - c;
    assert b == (b + c) - c;
  }

  ghost predicate OrderIrrelevant(x: Input, now: nat, parseIp: string -> Option<Ip>) {
    forall y :: Permuted(x, y) ==> multiset(Diagnosed(x, now, parseIp)) == multiset(Diagnosed(y, now, parseIp))
  }

  /** The verdicts are the same for every order of every observation list exactly when the HTTP rows are
      settled: always split, or never. */
  lemma OrderIrrelevantExactly(x: Input, now: nat, parseIp: string -> Option<Ip>)
    ensures OrderIrrelevant(x, now, parseIp) <==> Settled(x.http)
  {
    hide Diagnosed, CrossAddress, Permuted, AlwaysSplit, NeverSplit;
    if Settled(x.http) {
      forall y | Permuted(x, y)
        ensures multiset(Diagnosed(x, now, parseIp)) == multiset(Diagnosed(y, now, parseIp))
      {
        SameRows(x, y);
        SettledAgree(x.http, y.http);
        OneVerdictDecides(x, y, now, parseIp);
      }
    } else {
      var crossed, calm := Unsettled(x.http);
      Reordered(x, crossed);
      Reordered(x, calm);
      OneVerdictDecides(x, x.(http := crossed), now, parseIp);
      OneVerdictDecides(x, x.(http := calm), now, parseIp);
    }
  }

  lemma SameRows(x: Input, y: Input)
    requires Permuted(x, y)
    ensures multiset(x.http) == multiset(y.http)
  {
  }

  lemma Reordered(x: Input, rows: seq<HttpRow>)
    requires multiset(rows) == multiset(x.http)
    ensures Permuted(x, x.(http := rows))
  {
  }

  lemma SettledAgree(a: seq<HttpRow>, b: seq<HttpRow>)
    requires multiset(a) == multiset(b) && Settled(a)
    ensures CrossAddress(a) == CrossAddress(b)
  {
    hide CrossAddress, AlwaysSplit, NeverSplit;
    SettledPermutes(a, b);
    if AlwaysSplit(a) {
      AlwaysCrosses(a);
      AlwaysCrosses(b);
    } else {
      NeverCrosses(a);
      NeverCrosses(b);
    }
  }
}
