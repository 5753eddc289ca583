/** The engine's answer, verdict by verdict: how often each one is given, as a condition on the rows, what
    else is never said, and in what order. */
module Verdicts {
  import opened Collections
  import opened Net
  import opened Observations
  import opened ReachabilityRules
  import opened LayerRules
  import opened HttpConsistency
  import opened Diagnosis
  import opened Reporting
  import opened CertNames
  import opened Expiry
  import DnsMessage
  import DnsRepeat
  import Repeat

  /** How often the engine gives the verdict. */
  function Times(x: Input, now: nat, parseIp: string -> Option<Ip>, v: Verdict): nat {
    multiset(Diagnosed(x, now, parseIp))[v]
  }

  // ----- which rule gives which verdict -----

  /** The categories of the rules that report once for each cause. */
  lemma CauseCategories(x: Input, now: nat, parseIp: string -> Option<Ip>)
    ensures Only(LifetimeVerdicts(x.tls, now), Category.Certificate)
    ensures Only(CoverageVerdicts(x.tls, parseIp), Category.Certificate)
    ensures Only(IntermittentVerdicts(x.probes), Category.Intermittent)
    ensures Only(FlappingVerdicts(x.probes), Category.Intermittent)
    ensures Only(UnstableVerdicts(x.probes), Category.Intermittent)
  {
    hide OncePerCause, LifetimeCauses, CoverageOf, IntermittentAt, FlappingAt, UnstableAt;
    OnceOnly(LifetimeCauses(x.tls, now), CauseVerdict, Category.Certificate);
    OnceOnly(Collected(x.tls, CoverageOf(parseIp)), CoverageVerdict, Category.Certificate);
    OnceOnly(Collected(x.probes, IntermittentAt), IntermittentVerdict, Category.Intermittent);
    OnceOnly(Collected(x.probes, FlappingAt), InstabilityVerdict, Category.Intermittent);
    OnceOnly(Collected(x.probes, UnstableAt), InstabilityVerdict, Category.Intermittent);
  }

  lemma NoneOther(s: seq<Verdict>, c: Category, v: Verdict)
    requires Only(s, c)
    ensures v.category != c ==> multiset(s)[v] == 0
  {
    assert v in multiset(s) <==> v in s;
  }

  lemma NoneGiven(s: seq<Verdict>, v: Verdict)
    requires v !in s
    ensures multiset(s)[v] == 0
  {
    assert v in multiset(s) <==> v in s;
  }

  /** Every verdict comes from the rules of its category. */
  lemma TimesInCategory(x: Input, now: nat, parseIp: string -> Option<Ip>, v: Verdict)
    requires v.category != Category.Healthy
    ensures Times(x, now, parseIp, v) == match v.category
      case Dns => multiset(DnsVerdicts(x.dns))[v]
      case TotalConnectivityLoss => multiset(ConnectivityVerdicts(x.tcp))[v]
      case PartialConnectivity => multiset(ConnectivityVerdicts(x.tcp))[v]
      case AddressFamily => multiset(FamilyVerdicts(x.tcp))[v]
      case Tls => multiset(TlsVerdicts(x))[v]
      case Certificate => multiset(LifetimeVerdicts(x.tls, now))[v] + multiset(CoverageVerdicts(x.tls, parseIp))[v]
      case Http =>
        multiset(HttpVerdicts(x))[v] + multiset(RedirectVerdicts(x.http))[v]
        + multiset(ConsistencyVerdicts(x.http))[v] + multiset(TruncatedVerdicts(x.http))[v]
      case Quic => multiset(QuicVerdicts(x.http))[v]
      case Intermittent =>
        multiset(IntermittentVerdicts(x.probes))[v] + multiset(FlappingVerdicts(x.probes))[v]
        + multiset(UnstableVerdicts(x.probes))[v]
      case PossibleNetworkFiltering => multiset(FilteringVerdicts(x))[v]
      case _ => 0
  {
    hide *;
    TimesByRule(x, now, parseIp, v);
    CauseCategories(x, now, parseIp);
    RowCategories(x);
    ConsistencyCategory(x.http);
    NoneOther(DnsVerdicts(x.dns), Category.Dns, v);
    NoneOther(FamilyVerdicts(x.tcp), Category.AddressFamily, v);
    NoneOther(TlsVerdicts(x), Category.Tls, v);
    NoneOther(LifetimeVerdicts(x.tls, now), Category.Certificate, v);
    NoneOther(CoverageVerdicts(x.tls, parseIp), Category.Certificate, v);
    NoneOther(HttpVerdicts(x), Category.Http, v);
    NoneOther(RedirectVerdicts(x.http), Category.Http, v);
    NoneOther(ConsistencyVerdicts(x.http), Category.Http, v);
    NoneOther(TruncatedVerdicts(x.http), Category.Http, v);
    NoneOther(QuicVerdicts(x.http), Category.Quic, v);
    NoneOther(IntermittentVerdicts(x.probes), Category.Intermittent, v);
    NoneOther(FlappingVerdicts(x.probes), Category.Intermittent, v);
    NoneOther(UnstableVerdicts(x.probes), Category.Intermittent, v);
    NoneOther(FilteringVerdicts(x), Category.PossibleNetworkFiltering, v);
    if v in ConnectivityVerdicts(x.tcp) {
      assert v.category in {Category.TotalConnectivityLoss, Category.PartialConnectivity};
    } else {
      NoneGiven(ConnectivityVerdicts(x.tcp), v);
    }
  }

  lemma TimesByRule(x: Input, now: nat, parseIp: string -> Option<Ip>, v: Verdict)
    requires v.category != Category.Healthy
    ensures Times(x, now, parseIp, v) ==
      multiset(DnsVerdicts(x.dns))[v] + multiset(ConnectivityVerdicts(x.tcp))[v] + multiset(FamilyVerdicts(x.tcp))[v]
      + multiset(TlsVerdicts(x))[v] + multiset(LifetimeVerdicts(x.tls, now))[v]
      + multiset(CoverageVerdicts(x.tls, parseIp))[v] + multiset(HttpVerdicts(x))[v]
      + multiset(RedirectVerdicts(x.http))[v] + multiset(ConsistencyVerdicts(x.http))[v]
      + multiset(TruncatedVerdicts(x.http))[v] + multiset(QuicVerdicts(x.http))[v]
      + multiset(IntermittentVerdicts(x.probes))[v] + multiset(FlappingVerdicts(x.probes))[v]
      + multiset(UnstableVerdicts(x.probes))[v] + multiset(FilteringVerdicts(x))[v]
  {
    hide DnsVerdicts, ConnectivityVerdicts, FamilyVerdicts, TlsVerdicts, LifetimeVerdicts, CoverageVerdicts,
      HttpVerdicts, RedirectVerdicts, ConsistencyVerdicts, TruncatedVerdicts, QuicVerdicts, IntermittentVerdicts,
      FlappingVerdicts, UnstableVerdicts, FilteringVerdicts;
    assert multiset([HEALTHY])[v] == 0;
  }

  /** The categories of the rules that report at most once. */
  lemma RowCategories(x: Input)
    ensures Only(DnsVerdicts(x.dns), Category.Dns)
    ensures forall v :: v in ConnectivityVerdicts(x.tcp) ==>
      v.category in {Category.TotalConnectivityLoss, Category.PartialConnectivity}
    ensures Only(FamilyVerdicts(x.tcp), Category.AddressFamily) && Only(TlsVerdicts(x), Category.Tls)
    ensures Only(HttpVerdicts(x), Category.Http) && Only(RedirectVerdicts(x.http), Category.Http)
    ensures Only(TruncatedVerdicts(x.http), Category.Http) && Only(QuicVerdicts(x.http), Category.Quic)
    ensures Only(FilteringVerdicts(x), Category.PossibleNetworkFiltering)
  {
    hide NothingResolved, Disagreement, SomeDown, SomeUp, AllLocal, FamilyPresent, FamilyUp, TlsFailsAfterTcp,
      QuicFails, Signals, LayerFailed, Redirected, Truncated;
  }

  lemma ConsistencyCategory(http: seq<HttpRow>)
    ensures Only(ConsistencyVerdicts(http), Category.Http)
  {
    hide CrossProtocol, CrossFamily, CrossAddress;
  }

  // ----- resolution -----

  /** The row gives the address in a successful forward answer. */
  predicate Gives(o: DnsRow, ip: Ip) {
    (o.recordType.A? || o.recordType.Aaaa?) && !o.failed && Some(ip) in o.records
  }

  /** One resolver gave an address that another, which answered too, never gave. */
  ghost predicate Contradicted(dns: seq<DnsRow>) {
    exists a, b, ip :: a in dns && Gives(a, ip) && b in dns && Disputes(dns, b, ip)
  }

  predicate Disputes(dns: seq<DnsRow>, b: DnsRow, ip: Ip) {
    && (b.recordType.A? || b.recordType.Aaaa?) && !b.failed && b.records != []
    && forall o :: o in dns && o.resolver == b.resolver ==> !Gives(o, ip)
  }

  /** Resolution is reported failed, once, exactly when a forward lookup failed and none succeeded; and
      resolvers are reported to disagree exactly when one of them is contradicted. */
  lemma ResolutionReported(x: Input, now: nat, parseIp: string -> Option<Ip>)
    ensures Times(x, now, parseIp, Verdict(Severity.High, Category.Dns, Confidence.High)) ==
      if && (exists o :: o in x.dns && (o.recordType.A? || o.recordType.Aaaa?) && o.failed)
         && (forall o :: o in x.dns && (o.recordType.A? || o.recordType.Aaaa?) ==> o.failed)
      then 1 else 0
    ensures Times(x, now, parseIp, Verdict(Severity.Low, Category.Dns, Confidence.Low)) ==
      if Contradicted(x.dns) then 1 else 0
  {
    hide *;
    TimesInCategory(x, now, parseIp, Verdict(Severity.High, Category.Dns, Confidence.High));
    TimesInCategory(x, now, parseIp, Verdict(Severity.Low, Category.Dns, Confidence.Low));
    DnsTimes(x.dns);
    DisagreementOnRows(x.dns);
  }

  lemma DnsTimes(dns: seq<DnsRow>)
    ensures multiset(DnsVerdicts(dns))[Verdict(Severity.High, Category.Dns, Confidence.High)] ==
      if && (exists o :: o in dns && (o.recordType.A? || o.recordType.Aaaa?) && o.failed)
         && (forall o :: o in dns && (o.recordType.A? || o.recordType.Aaaa?) ==> o.failed)
      then 1 else 0
    ensures multiset(DnsVerdicts(dns))[Verdict(Severity.Low, Category.Dns, Confidence.Low)] ==
      if Disagreement(dns) && !NothingResolved(dns) then 1 else 0
  {
    hide Disagreement;
  }

  lemma GivesMeans(o: DnsRow, ip: Ip)
    ensures Gives(o, ip) <==> Answered(o) && ip in Addresses(o)
  {
  }

  lemma GivenBy(dns: seq<DnsRow>, resolver: DnsRepeat.Resolver, ip: Ip)
    ensures ip in AddressSet(dns, resolver) <==> exists o :: o in dns && o.resolver == resolver && Gives(o, ip)
  {
    hide AddressSet, Gives, Addresses, Answered;
    forall o ensures Gives(o, ip) <==> Answered(o) && ip in Addresses(o) {
      GivesMeans(o, ip);
    }
  }

  lemma DisputesMeans(dns: seq<DnsRow>, b: DnsRow, ip: Ip)
    ensures Disputes(dns, b, ip) <==> Answered(b) && ip !in AddressSet(dns, b.resolver)
  {
    hide Gives;
    GivenBy(dns, b.resolver, ip);
    hide AddressSet;
  }

  lemma DisagreementOnRows(dns: seq<DnsRow>)
    ensures Disagreement(dns) <==> Contradicted(dns)
    ensures Disagreement(dns) ==> !NothingResolved(dns)
  {
    if Contradicted(dns) {
      var a, b, ip :| a in dns && Gives(a, ip) && b in dns && Disputes(dns, b, ip);
      GivesMeans(a, ip);
      hide AddressSet, Gives, Disputes, NothingResolved;
      DisputesMeans(dns, b, ip);
      GivenBy(dns, a.resolver, ip);
      assert Answered(a) && Answered(b);
    }
    if Disagreement(dns) {
      var a, b :| a in dns && b in dns && Answered(a) && Answered(b)
                  && AddressSet(dns, a.resolver) != AddressSet(dns, b.resolver);
      SetsContradict(dns, a, b);
    }
  }

  lemma SetsContradict(dns: seq<DnsRow>, a: DnsRow, b: DnsRow)
    requires a in dns && b in dns && Answered(a) && Answered(b)
    requires AddressSet(dns, a.resolver) != AddressSet(dns, b.resolver)
    ensures Contradicted(dns)
  {
    hide AddressSet, Gives, Disputes, Answered;
    var ip :| ip in AddressSet(dns, a.resolver) <==> ip !in AddressSet(dns, b.resolver);
    GivenBy(dns, a.resolver, ip);
    GivenBy(dns, b.resolver, ip);
    DisputesMeans(dns, a, ip);
    DisputesMeans(dns, b, ip);
  }

  // ----- reachability -----

  /** Failed otherwise than for want of a local route. */
  predicate FailedOnPath(o: TcpRow) {
    !o.success && o.failure != Some(Repeat.NetworkUnreachable) && o.failure != Some(Repeat.HostUnreachable)
  }

  predicate SeveralFailed(tcp: seq<TcpRow>) {
    exists i, j :: 0 <= i < j < |tcp| && !tcp[i].success && !tcp[j].success
  }

  /** Total loss is reported exactly when no probe succeeded and some failure is not a missing local route,
      partial connectivity exactly when some probe succeeded beside such a failure; with high confidence
      when several probes failed, medium when one did. */
  lemma LossReported(x: Input, now: nat, parseIp: string -> Option<Ip>)
    ensures var failed, none, several :=
        (exists o :: o in x.tcp && FailedOnPath(o)), (forall o :: o in x.tcp ==> !o.success), SeveralFailed(x.tcp);
      && Times(x, now, parseIp, Verdict(Severity.High, Category.TotalConnectivityLoss, Confidence.High))
         == (if failed && none && several then 1 else 0)
      && Times(x, now, parseIp, Verdict(Severity.High, Category.TotalConnectivityLoss, Confidence.Medium))
         == (if failed && none && !several then 1 else 0)
      && Times(x, now, parseIp, Verdict(Severity.Medium, Category.PartialConnectivity, Confidence.High))
         == (if failed && !none && several then 1 else 0)
      && Times(x, now, parseIp, Verdict(Severity.Medium, Category.PartialConnectivity, Confidence.Medium))
         == (if failed && !none && !several then 1 else 0)
  {
    hide Times, SeveralFailed, HowMany;
    TimesInCategory(x, now, parseIp, Verdict(Severity.High, Category.TotalConnectivityLoss, Confidence.High));
    TimesInCategory(x, now, parseIp, Verdict(Severity.High, Category.TotalConnectivityLoss, Confidence.Medium));
    TimesInCategory(x, now, parseIp, Verdict(Severity.Medium, Category.PartialConnectivity, Confidence.High));
    TimesInCategory(x, now, parseIp, Verdict(Severity.Medium, Category.PartialConnectivity, Confidence.Medium));
    SeveralCounted(x.tcp);
  }

  lemma {:induction false} SeveralCounted(tcp: seq<TcpRow>)
    ensures HowMany(tcp, Failing) > 1 <==> SeveralFailed(tcp)
    ensures HowMany(tcp, Failing) > 0 <==> exists i :: 0 <= i < |tcp| && !tcp[i].success
  {
    if tcp != [] {
      var rest := tcp[1..];
      SeveralCounted(rest);
      assert forall i :: 0 <= i < |rest| ==> rest[i] == tcp[i + 1];
      if i, j :| 0 <= i < j < |tcp| && !tcp[i].success && !tcp[j].success {
        assert !rest[j - 1].success;
        assert i > 0 ==> !rest[i - 1].success;
      }
      if i :| 0 <= i < |rest| && !rest[i].success {
        assert !tcp[i + 1].success;
      }
      if i, j :| 0 <= i < j < |rest| && !rest[i].success && !rest[j].success {
        assert !tcp[i + 1].success && !tcp[j + 1].success;
      }
    }
  }

  /** The families are reported, once, exactly when both were probed and only one answered, or when only one
      was probed and every probe failed for want of a local route. */
  lemma FamiliesReported(x: Input, now: nat, parseIp: string -> Option<Ip>)
    ensures var v4, v6 := (exists o :: o in x.tcp && o.destination.ip.V4?),
                          exists o :: o in x.tcp && o.destination.ip.V6?;
      var up4, up6 := (exists o :: o in x.tcp && o.destination.ip.V4? && o.success),
                      exists o :: o in x.tcp && o.destination.ip.V6? && o.success;
      Times(x, now, parseIp, Verdict(Severity.Low, Category.AddressFamily, Confidence.Medium)) ==
        if || (v4 && v6 && up4 != up6)
           || (v4 != v6 && forall o :: o in x.tcp ==> !o.success && !FailedOnPath(o))
        then 1 else 0
  {
    hide Times;
    TimesInCategory(x, now, parseIp, Verdict(Severity.Low, Category.AddressFamily, Confidence.Medium));
    assert x.tcp != [] ==> x.tcp[0] in x.tcp;
    assert FamilyPresent(x.tcp, true) <==> exists o :: o in x.tcp && o.destination.ip.V4?;
    assert FamilyPresent(x.tcp, false) <==> exists o :: o in x.tcp && o.destination.ip.V6?;
    assert FamilyUp(x.tcp, true) <==> exists o :: o in x.tcp && o.destination.ip.V4? && o.success;
    assert FamilyUp(x.tcp, false) <==> exists o :: o in x.tcp && o.destination.ip.V6? && o.success;
    hide FamilyPresent, FamilyUp;
  }

  /** A TLS verdict is given, once, exactly when a handshake failed at a destination some TCP probe reached. */
  lemma HandshakesReported(x: Input, now: nat, parseIp: string -> Option<Ip>)
    ensures Times(x, now, parseIp, Verdict(Severity.Medium, Category.Tls, Confidence.Medium)) ==
      if exists t, o :: t in x.tls && !t.success && o in x.tcp && o.success && o.destination == t.destination
      then 1 else 0
  {
    hide Times;
    TimesInCategory(x, now, parseIp, Verdict(Severity.Medium, Category.Tls, Confidence.Medium));
  }

  // ----- HTTP -----

  /** Failed without a TCP failure at the same destination, in a way that is the HTTP layer's own: over
      HTTP/3 a protocol error, otherwise anything but QUIC, a handshake or a certificate. */
  predicate FailedOnItsOwn(h: HttpRow, tcp: seq<TcpRow>) {
    && h.failure.Some?
    && (forall t :: t in tcp && t.destination == h.destination ==> t.success)
    && if h.protocol == Some("HTTP/3") then h.failure.value.Http? || h.failure.value.Protocol?
       else !h.failure.value.Quic? && !h.failure.value.TlsHandshake? && !h.failure.value.Certificate?
  }

  function RedirectCodes(): set<nat> { {301, 302, 303, 307, 308} }

  /** The low verdict is given once for rows that failed on their own or answered with an error, once for
      redirects, and once for bodies that never completed. */
  lemma ResponsesReported(x: Input, now: nat, parseIp: string -> Option<Ip>)
    ensures Times(x, now, parseIp, Verdict(Severity.Low, Category.Http, Confidence.Low)) ==
      (if exists h :: h in x.http && (FailedOnItsOwn(h, x.tcp) || (h.status.Some? && h.status.value > 399))
       then 1 else 0)
      + (if exists h :: h in x.http && h.failure.None? && h.status.Some? && h.status.value in RedirectCodes()
         then 1 else 0)
      + (if exists h :: h in x.http && h.failure.None? && h.status.Some? && h.bodyBytes.None? then 1 else 0)
  {
    hide *;
    TimesInCategory(x, now, parseIp, Verdict(Severity.Low, Category.Http, Confidence.Low));
    HttpTimes(x);
    LayerFailures(x);
    RedirectsAndStalls(x.http);
  }

  /** Which of the four rules gives which of the two verdicts. */
  lemma HttpTimes(x: Input)
    ensures var v := Verdict(Severity.Low, Category.Http, Confidence.Low);
      && multiset(HttpVerdicts(x))[v] == (if HttpVerdicts(x) != [] then 1 else 0)
      && multiset(RedirectVerdicts(x.http))[v] == (if RedirectVerdicts(x.http) != [] then 1 else 0)
      && multiset(TruncatedVerdicts(x.http))[v] == (if TruncatedVerdicts(x.http) != [] then 1 else 0)
      && multiset(ConsistencyVerdicts(x.http))[v] == 0
    ensures var v := Verdict(Severity.Low, Category.Http, Confidence.Medium);
      && multiset(HttpVerdicts(x))[v] == 0 && multiset(RedirectVerdicts(x.http))[v] == 0
      && multiset(TruncatedVerdicts(x.http))[v] == 0
      && multiset(ConsistencyVerdicts(x.http))[v] ==
           (if CrossProtocol(x.http) then 1 else 0) + (if CrossFamily(x.http) then 1 else 0)
           + (if CrossAddress(x.http) then 1 else 0)
  {
    hide LayerFailed, Redirected, Truncated, CrossProtocol, CrossFamily, CrossAddress;
  }

  lemma LayerFailures(x: Input)
    ensures HttpVerdicts(x) != [] <==>
      exists h :: h in x.http && (FailedOnItsOwn(h, x.tcp) || (h.status.Some? && h.status.value > 399))
  {
    forall h ensures FailedOnItsOwn(h, x.tcp) <==> OwnFailure(h) && !InheritedFromTcp(h, x.tcp) {
    }
    hide FailedOnItsOwn, OwnFailure, InheritedFromTcp;
  }

  lemma RedirectsAndStalls(http: seq<HttpRow>)
    ensures RedirectVerdicts(http) != [] <==>
      exists h :: h in http && h.failure.None? && h.status.Some? && h.status.value in RedirectCodes()
    ensures TruncatedVerdicts(http) != [] <==>
      exists h :: h in http && h.failure.None? && h.status.Some? && h.bodyBytes.None?
  {
  }

  /** A response that can be compared: completed, with its protocol known. */
  predicate Comparable(h: HttpRow) { h.failure.None? && h.status.Some? && h.protocol.Some? }

  predicate Content(h: HttpRow) { h.status.Some? && 200 <= h.status.value <= 299 }

  /** Row `i` is the last comparable one of its protocol and destination. */
  predicate LastOfItsKind(http: seq<HttpRow>, i: nat) {
    && i < |http| && Comparable(http[i])
    && forall k :: i < k < |http| && Comparable(http[k]) ==>
         http[k].protocol != http[i].protocol || http[k].destination != http[i].destination
  }

  /** Of two addresses of one protocol and family, one ended with content and the other without. */
  predicate EndsDiffer(http: seq<HttpRow>) {
    exists i, j :: 0 <= i < |http| && 0 <= j < |http| && Parted(http, i, j)
  }

  predicate Parted(http: seq<HttpRow>, i: nat, j: nat) {
    && LastOfItsKind(http, i) && LastOfItsKind(http, j)
    && http[i].protocol == http[j].protocol && http[i].destination.ip.V4? == http[j].destination.ip.V4?
    && Content(http[i]) && !Content(http[j])
  }

  /** The medium verdict is given once for two protocols of which one got content and the other none from
      the same destination, once for two families that both answered and of which one never got content, and
      once for two addresses of one protocol and family of which one ended with content and the other not. */
  lemma DifferencesReported(x: Input, now: nat, parseIp: string -> Option<Ip>)
    ensures Times(x, now, parseIp, Verdict(Severity.Low, Category.Http, Confidence.Medium)) ==
      (if exists u, v :: u in x.http && v in x.http && Comparable(u) && Comparable(v)
                         && u.destination == v.destination && u.protocol != v.protocol && Content(u) && !Content(v)
       then 1 else 0)
      + (if OneFamilyOnly(x.http, true) || OneFamilyOnly(x.http, false) then 1 else 0)
      + (if EndsDiffer(x.http) then 1 else 0)
  {
    hide *;
    TimesInCategory(x, now, parseIp, Verdict(Severity.Low, Category.Http, Confidence.Medium));
    HttpTimes(x);
    CrossAddressOnRows(x.http);
    CrossFamilyOnRows(x.http);
    CrossProtocolOnRows(x.http);
  }

  lemma CrossProtocolOnRows(http: seq<HttpRow>)
    ensures CrossProtocol(http) <==> exists u, v ::
      && u in http && v in http && Comparable(u) && Comparable(v)
      && u.destination == v.destination && u.protocol != v.protocol && Content(u) && !Content(v)
  {
  }

  /** The one family got content, the other answered and never did. */
  predicate OneFamilyOnly(http: seq<HttpRow>, ipv4: bool) {
    && (exists h :: h in http && h.failure.None? && h.destination.ip.V4? == ipv4 && Content(h))
    && (exists h :: h in http && h.failure.None? && h.destination.ip.V4? != ipv4 && h.status.Some?)
    && (forall h :: h in http && h.failure.None? && h.destination.ip.V4? != ipv4 ==> !Content(h))
  }

  lemma CrossFamilyOnRows(http: seq<HttpRow>)
    ensures CrossFamily(http) <==> OneFamilyOnly(http, true) || OneFamilyOnly(http, false)
  {
    assert forall h :: Content(h) <==> Up(h);
    assert forall v4 :: FamilyContent(http, v4) <==>
      exists h :: h in http && h.failure.None? && h.destination.ip.V4? == v4 && Content(h);
    assert forall v4 :: FamilyAnswers(http, v4) <==>
      exists h :: h in http && h.failure.None? && h.destination.ip.V4? == v4 && h.status.Some?;
    hide FamilyContent, FamilyAnswers, Up;
  }

  lemma {:induction false} LastStatusAt(http: seq<HttpRow>, i: nat)
    requires LastOfItsKind(http, i)
    ensures LastStatus(http, http[i].protocol.value, http[i].destination) == http[i].status
  {
    var n := |http| - 1;
    if i < n {
      LastStatusAt(http[..n], i);
    }
  }

  lemma {:induction false} LastIndex(http: seq<HttpRow>, h: HttpRow) returns (i: nat)
    requires h in http && Comparable(h)
    ensures LastOfItsKind(http, i) && http[i].protocol == h.protocol && http[i].destination == h.destination
  {
    var n: nat := |http| - 1;
    var last := http[n];
    assert http == http[..n] + [last];
    if Comparable(last) && last.protocol == h.protocol && last.destination == h.destination {
      i := n;
    } else {
      i := LastIndex(http[..n], h);
    }
  }

  lemma LastUpAt(http: seq<HttpRow>, i: nat)
    requires LastOfItsKind(http, i)
    ensures Completed(http[i]) && (LastUp(http, http[i]) <==> Content(http[i]))
  {
    LastStatusAt(http, i);
  }

  lemma CrossAddressOnRows(http: seq<HttpRow>)
    ensures CrossAddress(http) <==> EndsDiffer(http)
  {
    hide LastUp;
    if CrossAddress(http) {
      var u, v :| u in http && v in http && Completed(u) && Completed(v) && GroupOf(u) == GroupOf(v)
                  && LastUp(http, u) && !LastUp(http, v);
      var i := LastIndex(http, u);
      var j := LastIndex(http, v);
      LastUpAt(http, i);
      LastUpAt(http, j);
      LastUpSame(http, u, http[i]);
      LastUpSame(http, v, http[j]);
      assert Parted(http, i, j);
    }
    if i, j :| 0 <= i < |http| && 0 <= j < |http| && Parted(http, i, j) {
      LastUpAt(http, i);
      LastUpAt(http, j);
    }
  }

  lemma LastUpSame(http: seq<HttpRow>, u: HttpRow, v: HttpRow)
    requires Completed(u) && Completed(v) && u.protocol == v.protocol && u.destination == v.destination
    ensures LastUp(http, u) == LastUp(http, v)
  {
  }

  /** QUIC trouble is reported, once, exactly when some row succeeded below 400, HTTP/3 was tried, and every
      HTTP/3 row failed. */
  lemma QuicReported(x: Input, now: nat, parseIp: string -> Option<Ip>)
    ensures Times(x, now, parseIp, Verdict(Severity.Low, Category.Quic, Confidence.Medium)) ==
      if && (exists h :: h in x.http && h.failure.None? && h.status.Some? && h.status.value < 400)
         && (exists h :: h in x.http && h.protocol == Some("HTTP/3"))
         && (forall h :: h in x.http && h.protocol == Some("HTTP/3") ==> h.failure.Some?)
      then 1 else 0
  {
    hide Times;
    TimesInCategory(x, now, parseIp, Verdict(Severity.Low, Category.Quic, Confidence.Medium));
  }

  // ----- one verdict for each cause -----

  function CausesFor<K(!new,==)>(keys: seq<K>, verdict: K -> Verdict, v: Verdict): set<K> {
    set k | k in keys && verdict(k) == v
  }

  lemma CausesForLast<K(!new)>(init: seq<K>, last: K, verdict: K -> Verdict, v: Verdict)
    requires last !in init
    ensures |CausesFor(init + [last], verdict, v)|
         == |CausesFor(init, verdict, v)| + if verdict(last) == v then 1 else 0
  {
    var all, before := CausesFor(init + [last], verdict, v), CausesFor(init, verdict, v);
    assert all == if verdict(last) == v then before + {last} else before;
  }

  lemma {:induction false} MappedTimes<K(!new)>(keys: seq<K>, verdict: K -> Verdict, v: Verdict)
    requires Distinct(keys)
    ensures multiset(Map(keys, verdict))[v] == |CausesFor(keys, verdict, v)|
  {
    if keys == [] {
      assert CausesFor(keys, verdict, v) == {};
    } else {
      hide CausesFor;
      var init, last := keys[..|keys| - 1], keys[|keys| - 1];
      assert keys == init + [last];
      MappedTimes(init, verdict, v);
      CausesForLast(init, last, verdict, v);
      assert Map(keys, verdict) == Map(init, verdict) + [verdict(last)];
    }
  }

  /** A verdict is given as often as there are distinct causes for it. */
  lemma CauseTimes<K(!new)>(keys: seq<K>, verdict: K -> Verdict, v: Verdict)
    ensures multiset(OncePerCause(keys, verdict))[v] == |CausesFor(keys, verdict, v)|
  {
    var causes := FirstOccurrences(keys);
    MappedTimes(causes, verdict, v);
    assert CausesFor(causes, verdict, v) == CausesFor(keys, verdict, v);
  }

  // ----- repeated probes -----

  predicate Mixed(p: ProbeRow) { p.result.attempts > 1 && p.result.failures > 0 && p.result.successes > 0 }

  /** At least two attempts, none of which failed, gave statuses both inside and outside 2xx. */
  predicate Flapping(p: ProbeRow) {
    && p.result.attempts > 1 && p.result.failures == 0
    && (exists c :: c in p.result.statusCounts && 200 <= c.key as int <= 299)
    && (exists c :: c in p.result.statusCounts && !(200 <= c.key as int <= 299))
  }

  /** At least three attempts, none of which failed; the 95th percentile is at least three milliseconds and
      at least three times the median. */
  predicate Unstable(p: ProbeRow) {
    && p.result.attempts > 2 && p.result.failures == 0 && p.result.latency.count > 2
    && p.result.latency.p50.Some? && p.result.latency.p95.Some?
    && p.result.latency.p95.value >= 3 && p.result.latency.p95.value >= 3 * p.result.latency.p50.value
  }

  /** The destinations whose repeat is of the kind. */
  function Sites(probes: seq<ProbeRow>, kind: ProbeRow -> bool): set<SocketAddr> {
    set p | p in probes && kind(p) :: p.destination
  }

  /** The medium verdict is given once for each destination with both outcomes; the low one once for each
      destination with flapping statuses and once for each with unstable latencies. */
  lemma RepeatsReported(x: Input, now: nat, parseIp: string -> Option<Ip>)
    ensures Times(x, now, parseIp, Verdict(Severity.Medium, Category.Intermittent, Confidence.High)) ==
      |Sites(x.probes, Mixed)|
    ensures Times(x, now, parseIp, Verdict(Severity.Low, Category.Intermittent, Confidence.High)) ==
      |Sites(x.probes, Flapping)| + |Sites(x.probes, Unstable)|
  {
    hide *;
    TimesInCategory(x, now, parseIp, Verdict(Severity.Medium, Category.Intermittent, Confidence.High));
    TimesInCategory(x, now, parseIp, Verdict(Severity.Low, Category.Intermittent, Confidence.High));
    MixedTimes(x.probes);
    FlappingTimes(x.probes);
    UnstableTimes(x.probes);
  }

  lemma MixedTimes(probes: seq<ProbeRow>)
    ensures multiset(IntermittentVerdicts(probes))[Verdict(Severity.Medium, Category.Intermittent, Confidence.High)]
         == |Sites(probes, Mixed)|
    ensures multiset(IntermittentVerdicts(probes))[Verdict(Severity.Low, Category.Intermittent, Confidence.High)] == 0
  {
    DestinationTimes(probes, IntermittentAt, Mixed, IntermittentVerdict,
                     Verdict(Severity.Medium, Category.Intermittent, Confidence.High),
                     Verdict(Severity.Low, Category.Intermittent, Confidence.High));
  }

  lemma FlappingTimes(probes: seq<ProbeRow>)
    ensures multiset(FlappingVerdicts(probes))[Verdict(Severity.Low, Category.Intermittent, Confidence.High)]
         == |Sites(probes, Flapping)|
    ensures multiset(FlappingVerdicts(probes))[Verdict(Severity.Medium, Category.Intermittent, Confidence.High)] == 0
  {
    DestinationTimes(probes, FlappingAt, Flapping, InstabilityVerdict,
                     Verdict(Severity.Low, Category.Intermittent, Confidence.High),
                     Verdict(Severity.Medium, Category.Intermittent, Confidence.High));
  }

  lemma UnstableTimes(probes: seq<ProbeRow>)
    ensures multiset(UnstableVerdicts(probes))[Verdict(Severity.Low, Category.Intermittent, Confidence.High)]
         == |Sites(probes, Unstable)|
    ensures multiset(UnstableVerdicts(probes))[Verdict(Severity.Medium, Category.Intermittent, Confidence.High)] == 0
  {
    DestinationTimes(probes, UnstableAt, Unstable, InstabilityVerdict,
                     Verdict(Severity.Low, Category.Intermittent, Confidence.High),
                     Verdict(Severity.Medium, Category.Intermittent, Confidence.High));
  }

  lemma DestinationTimes(
      probes: seq<ProbeRow>, f: ProbeRow -> Option<SocketAddr>, kind: ProbeRow -> bool, verdict: SocketAddr -> Verdict,
      given: Verdict, other: Verdict)
    requires forall p :: f(p) == if kind(p) then Some(p.destination) else None
    requires given != other && forall d :: verdict(d) == given
    ensures multiset(OncePerCause(Collected(probes, f), verdict))[given] == |Sites(probes, kind)|
    ensures multiset(OncePerCause(Collected(probes, f), verdict))[other] == 0
  {
    hide OncePerCause, Collected;
    var keys := Collected(probes, f);
    CauseTimes(keys, verdict, given);
    CauseTimes(keys, verdict, other);
    CollectedElements(probes, f);
    assert CausesFor(keys, verdict, given) == Sites(probes, kind);
    assert CausesFor(keys, verdict, other) == {};
  }

  // ----- certificates -----

  /** The certificates carry printed times, in seconds since 1970 and not after year 9999. */
  ghost predicate Dated(tls: seq<TlsRow>, start: TlsRow -> int, end: TlsRow -> int) {
    forall t :: t in tls && t.certificate.Some? ==>
      && t.certificate.value.notBefore == FormatUtc(start(t)) && start(t) <= 253402300799
      && t.certificate.value.notAfter == FormatUtc(end(t)) && end(t) <= 253402300799
  }

  /** How many days the calendar day of one second lies before that of another. */
  function DaysTo(from: int, to: int): int { to / 86400 - from / 86400 }

  function CauseOf(t: TlsRow, cause: LifetimeCause): CertificateCause
    requires t.certificate.Some?
  {
    CertificateCause(t.sni, t.certificate.value.subject, cause)
  }

  /** Ended, at or before this second; the days since are part of the cause. */
  function Ended(tls: seq<TlsRow>, now: nat, end: TlsRow -> int): set<CertificateCause> {
    set t | t in tls && t.certificate.Some? && 0 <= end(t) <= now ::
      CauseOf(t, Expired(DaysTo(end(t), now)))
  }

  /** Ending at a later second, and within thirty days. */
  function Ending(tls: seq<TlsRow>, now: nat, end: TlsRow -> int): set<CertificateCause> {
    set t | t in tls && t.certificate.Some? && now < end(t) && DaysTo(now, end(t)) <= 30 ::
      CauseOf(t, Expiring(DaysTo(now, end(t))))
  }

  /** Starting on a later day. */
  function Starting(tls: seq<TlsRow>, now: nat, start: TlsRow -> int): set<CertificateCause> {
    set t | t in tls && t.certificate.Some? && DaysTo(now, start(t)) > 0 ::
      CauseOf(t, NotYetValid(DaysTo(now, start(t))))
  }

  /** Without alternative names, or with none that covers the presented name. */
  function Uncovered(tls: seq<TlsRow>, parseIp: string -> Option<Ip>): set<CoverageCause> {
    set t | t in tls && t.certificate.Some?
            && (t.certificate.value.sans == [] || !CertCoversHostname(t.sni, t.certificate.value.sans, parseIp)) ::
      CoverageCause(t.sni, t.certificate.value.subject, t.certificate.value.sans == [])
  }

  /** The verdict with high confidence is given once for each certificate that has ended, the low one once
      for each that ends within thirty days, and the medium one once for each that starts on a later day and
      once for each that does not cover its name. */
  lemma CertificatesReported(
      x: Input, now: nat, parseIp: string -> Option<Ip>, start: TlsRow -> int, end: TlsRow -> int)
    requires Dated(x.tls, start, end)
    ensures Times(x, now, parseIp, Verdict(Severity.Medium, Category.Certificate, Confidence.High))
         == |Ended(x.tls, now, end)|
    ensures Times(x, now, parseIp, Verdict(Severity.Low, Category.Certificate, Confidence.Medium))
         == |Ending(x.tls, now, end)|
    ensures Times(x, now, parseIp, Verdict(Severity.Medium, Category.Certificate, Confidence.Medium))
         == |Starting(x.tls, now, start)| + |Uncovered(x.tls, parseIp)|
  {
    hide *;
    TimesInCategory(x, now, parseIp, Verdict(Severity.Medium, Category.Certificate, Confidence.High));
    TimesInCategory(x, now, parseIp, Verdict(Severity.Low, Category.Certificate, Confidence.Medium));
    TimesInCategory(x, now, parseIp, Verdict(Severity.Medium, Category.Certificate, Confidence.Medium));
    LifetimeTimes(x.tls, now, start, end);
    CoverageTimes(x.tls, parseIp);
  }

  /** The cause `k` is due for the row, given the start and the end of its certificate. */
  predicate Due(t: TlsRow, now: nat, start: int, end: int, k: CertificateCause) {
    && t.certificate.Some?
    && (|| (DaysTo(now, start) > 0 && k == CauseOf(t, NotYetValid(DaysTo(now, start))))
        || (0 <= end <= now && k == CauseOf(t, Expired(DaysTo(end, now))))
        || (now < end && DaysTo(now, end) <= 30 && k == CauseOf(t, Expiring(DaysTo(now, end)))))
  }

  lemma DatedCauses(t: TlsRow, now: nat, start: int, end: int, k: CertificateCause)
    requires t.certificate.Some? && start <= 253402300799 && end <= 253402300799
    requires t.certificate.value.notBefore == FormatUtc(start) && t.certificate.value.notAfter == FormatUtc(end)
    ensures k in RowCauses(t, now) <==> Due(t, now, start, end, k)
  {
    hide FormatUtc, NotBeforeCause, NotAfterCause;
    NotBeforeVerdict(start, now);
    if end >= 0 {
      NotAfterVerdict(end, now);
    } else {
      NeverPrinted(end, now);
    }
    var c := t.certificate.value;
    TaggedOnce(t, NotBeforeCause(c.notBefore, now), k);
    TaggedOnce(t, NotAfterCause(c.notAfter, now), k);
    hide Tagged;
  }

  lemma TaggedOnce(t: TlsRow, causes: seq<LifetimeCause>, k: CertificateCause)
    requires t.certificate.Some? && |causes| <= 1
    ensures k in Tagged(t, t.certificate.value.subject, causes) <==> causes != [] && k == CauseOf(t, causes[0])
  {
    if causes != [] {
      assert Tagged(t, t.certificate.value.subject, causes) == [CauseOf(t, causes[0])];
    }
  }

  lemma NoCertificate(t: TlsRow, now: nat, start: int, end: int, k: CertificateCause)
    requires t.certificate.None?
    ensures k !in RowCauses(t, now) && !Due(t, now, start, end, k)
  {
  }

  lemma NeverPrinted(ts: int, now: nat)
    requires ts < 0
    ensures NotAfterCause(FormatUtc(ts), now) == []
  {
  }

  lemma DatedKey(tls: seq<TlsRow>, now: nat, start: TlsRow -> int, end: TlsRow -> int, k: CertificateCause)
    requires Dated(tls, start, end)
    ensures k in LifetimeCauses(tls, now) <==> exists t :: t in tls && Due(t, now, start(t), end(t), k)
  {
    hide RowCauses, FormatUtc, Due;
    forall t | t in tls ensures k in RowCauses(t, now) <==> Due(t, now, start(t), end(t), k) {
      if t.certificate.Some? {
        DatedCauses(t, now, start(t), end(t), k);
      } else {
        NoCertificate(t, now, start(t), end(t), k);
      }
    }
  }

  lemma EndedKey(tls: seq<TlsRow>, now: nat, start: TlsRow -> int, end: TlsRow -> int, k: CertificateCause)
    requires Dated(tls, start, end)
    ensures k in LifetimeCauses(tls, now) && k.cause.Expired? <==> k in Ended(tls, now, end)
  {
    hide Dated, LifetimeCauses, DaysTo;
    DatedKey(tls, now, start, end, k);
  }

  lemma EndingKey(tls: seq<TlsRow>, now: nat, start: TlsRow -> int, end: TlsRow -> int, k: CertificateCause)
    requires Dated(tls, start, end)
    ensures k in LifetimeCauses(tls, now) && k.cause.Expiring? <==> k in Ending(tls, now, end)
  {
    hide Dated, LifetimeCauses, DaysTo;
    DatedKey(tls, now, start, end, k);
  }

  lemma StartingKey(tls: seq<TlsRow>, now: nat, start: TlsRow -> int, end: TlsRow -> int, k: CertificateCause)
    requires Dated(tls, start, end)
    ensures k in LifetimeCauses(tls, now) && k.cause.NotYetValid? <==> k in Starting(tls, now, start)
  {
    hide Dated, LifetimeCauses, DaysTo;
    DatedKey(tls, now, start, end, k);
  }

  lemma LifetimeTimes(tls: seq<TlsRow>, now: nat, start: TlsRow -> int, end: TlsRow -> int)
    requires Dated(tls, start, end)
    ensures var given := multiset(LifetimeVerdicts(tls, now));
      && given[Verdict(Severity.Medium, Category.Certificate, Confidence.High)] == |Ended(tls, now, end)|
      && given[Verdict(Severity.Low, Category.Certificate, Confidence.Medium)] == |Ending(tls, now, end)|
      && given[Verdict(Severity.Medium, Category.Certificate, Confidence.Medium)] == |Starting(tls, now, start)|
  {
    hide OncePerCause, Dated, LifetimeCauses, Ended, Ending, Starting;
    var keys := LifetimeCauses(tls, now);
    var ended, ending := Verdict(Severity.Medium, Category.Certificate, Confidence.High),
                         Verdict(Severity.Low, Category.Certificate, Confidence.Medium);
    var starting := Verdict(Severity.Medium, Category.Certificate, Confidence.Medium);
    CauseTimes(keys, CauseVerdict, ended);
    CauseTimes(keys, CauseVerdict, ending);
    CauseTimes(keys, CauseVerdict, starting);
    forall k ensures k in CausesFor(keys, CauseVerdict, ended) <==> k in Ended(tls, now, end) {
      EndedKey(tls, now, start, end, k);
    }
    forall k ensures k in CausesFor(keys, CauseVerdict, ending) <==> k in Ending(tls, now, end) {
      EndingKey(tls, now, start, end, k);
    }
    forall k ensures k in CausesFor(keys, CauseVerdict, starting) <==> k in Starting(tls, now, start) {
      StartingKey(tls, now, start, end, k);
    }
    hide CausesFor;
    assert CausesFor(keys, CauseVerdict, ended) == Ended(tls, now, end);
    assert CausesFor(keys, CauseVerdict, ending) == Ending(tls, now, end);
    assert CausesFor(keys, CauseVerdict, starting) == Starting(tls, now, start);
  }

  lemma CoverageTimes(tls: seq<TlsRow>, parseIp: string -> Option<Ip>)
    ensures var given := multiset(CoverageVerdicts(tls, parseIp));
      && given[Verdict(Severity.Medium, Category.Certificate, Confidence.Medium)] == |Uncovered(tls, parseIp)|
      && given[Verdict(Severity.Medium, Category.Certificate, Confidence.High)] == 0
      && given[Verdict(Severity.Low, Category.Certificate, Confidence.Medium)] == 0
  {
    hide OncePerCause, Collected, CertCoversHostname;
    var keys := Collected(tls, CoverageOf(parseIp));
    var uncovered, ended := Verdict(Severity.Medium, Category.Certificate, Confidence.Medium),
                            Verdict(Severity.Medium, Category.Certificate, Confidence.High);
    var ending := Verdict(Severity.Low, Category.Certificate, Confidence.Medium);
    CauseTimes(keys, CoverageVerdict, uncovered);
    CauseTimes(keys, CoverageVerdict, ended);
    CauseTimes(keys, CoverageVerdict, ending);
    CollectedElements(tls, CoverageOf(parseIp));
    assert CausesFor(keys, CoverageVerdict, uncovered) == Uncovered(tls, parseIp);
    assert CausesFor(keys, CoverageVerdict, ended) == {} && CausesFor(keys, CoverageVerdict, ending) == {};
  }

  // ----- filtering -----

  /** Carries a failure other than a missing local route. */
  predicate PathFault(o: TcpRow) {
    o.failure.Some? && !o.failure.value.NetworkUnreachable? && !o.failure.value.HostUnreachable?
  }

  /** The six signals: contradicting resolvers, a path fault beside a success, a reset, a handshake that
      failed where TCP connected, HTTP/3 failing where another protocol succeeded, and a mixed repeat at a
      destination without a path fault. */
  ghost function SignalsOnRows(x: Input): nat {
    (if Contradicted(x.dns) then 1 else 0)
    + (if (exists o :: o in x.tcp && PathFault(o)) && (exists o :: o in x.tcp && o.success) then 1 else 0)
    + (if exists o :: o in x.tcp && o.failure.Some? && o.failure.value.ConnectionReset? then 1 else 0)
    + (if exists t, o :: t in x.tls && !t.success && o in x.tcp && o.success && o.destination == t.destination
       then 1 else 0)
    + (if && (exists h :: h in x.http && h.protocol == Some("HTTP/3"))
          && (forall h :: h in x.http && h.protocol == Some("HTTP/3") ==> h.failure.Some?)
          && (exists h :: h in x.http && h.protocol != Some("HTTP/3") && h.failure.None?)
       then 1 else 0)
    + (if exists p :: p in x.probes && p.result.successes > 0 && p.result.failures > 0
                      && forall o :: o in x.tcp && PathFault(o) ==> o.destination != p.destination
       then 1 else 0)
  }

  lemma SameSignals(x: Input)
    ensures Signals(x) == SignalsOnRows(x)
  {
    DisagreementOnRows(x.dns);
    hide Disagreement, Contradicted;
  }

  /** Possible filtering is reported, once, exactly when two of the six signals are seen; with medium
      confidence from the fourth on, low before. */
  lemma FilteringReported(x: Input, now: nat, parseIp: string -> Option<Ip>)
    ensures Times(x, now, parseIp, Verdict(Severity.Low, Category.PossibleNetworkFiltering, Confidence.Medium)) ==
      if SignalsOnRows(x) >= 4 then 1 else 0
    ensures Times(x, now, parseIp, Verdict(Severity.Low, Category.PossibleNetworkFiltering, Confidence.Low)) ==
      if 2 <= SignalsOnRows(x) <= 3 then 1 else 0
  {
    hide Times, Signals, SignalsOnRows;
    TimesInCategory(x, now, parseIp, Verdict(Severity.Low, Category.PossibleNetworkFiltering, Confidence.Medium));
    TimesInCategory(x, now, parseIp, Verdict(Severity.Low, Category.PossibleNetworkFiltering, Confidence.Low));
    SameSignals(x);
  }

  // ----- nothing else, and in what order -----

  /** Everything the rules can say. */
  const VOCABULARY: set<Verdict> := {
    Verdict(Severity.High, Category.Dns, Confidence.High),
    Verdict(Severity.Low, Category.Dns, Confidence.Low),
    Verdict(Severity.High, Category.TotalConnectivityLoss, Confidence.High),
    Verdict(Severity.High, Category.TotalConnectivityLoss, Confidence.Medium),
    Verdict(Severity.Medium, Category.PartialConnectivity, Confidence.High),
    Verdict(Severity.Medium, Category.PartialConnectivity, Confidence.Medium),
    Verdict(Severity.Low, Category.AddressFamily, Confidence.Medium),
    Verdict(Severity.Medium, Category.Tls, Confidence.Medium),
    Verdict(Severity.Medium, Category.Certificate, Confidence.High),
    Verdict(Severity.Medium, Category.Certificate, Confidence.Medium),
    Verdict(Severity.Low, Category.Certificate, Confidence.Medium),
    Verdict(Severity.Low, Category.Http, Confidence.Low),
    Verdict(Severity.Low, Category.Http, Confidence.Medium),
    Verdict(Severity.Low, Category.Quic, Confidence.Medium),
    Verdict(Severity.Medium, Category.Intermittent, Confidence.High),
    Verdict(Severity.Low, Category.Intermittent, Confidence.High),
    Verdict(Severity.Low, Category.PossibleNetworkFiltering, Confidence.Medium),
    Verdict(Severity.Low, Category.PossibleNetworkFiltering, Confidence.Low)}

  predicate Spoken(s: seq<Verdict>) { forall v :: v in s ==> v in VOCABULARY }

  lemma OnceSpoken<K(!new)>(keys: seq<K>, verdict: K -> Verdict)
    requires forall k :: verdict(k) in VOCABULARY
    ensures Spoken(OncePerCause(keys, verdict))
  {
    hide VOCABULARY;
  }

  lemma CausesSpoken(x: Input, now: nat, parseIp: string -> Option<Ip>)
    ensures Spoken(LifetimeVerdicts(x.tls, now)) && Spoken(CoverageVerdicts(x.tls, parseIp))
    ensures Spoken(IntermittentVerdicts(x.probes)) && Spoken(FlappingVerdicts(x.probes))
    ensures Spoken(UnstableVerdicts(x.probes))
  {
    hide OncePerCause, LifetimeCauses, CoverageOf, IntermittentAt, FlappingAt, UnstableAt, Spoken;
    OnceSpoken(LifetimeCauses(x.tls, now), CauseVerdict);
    OnceSpoken(Collected(x.tls, CoverageOf(parseIp)), CoverageVerdict);
    OnceSpoken(Collected(x.probes, IntermittentAt), IntermittentVerdict);
    OnceSpoken(Collected(x.probes, FlappingAt), InstabilityVerdict);
    OnceSpoken(Collected(x.probes, UnstableAt), InstabilityVerdict);
  }

  lemma RowsSpoken(x: Input)
    ensures Spoken(DnsVerdicts(x.dns)) && Spoken(ConnectivityVerdicts(x.tcp)) && Spoken(FamilyVerdicts(x.tcp))
    ensures Spoken(TlsVerdicts(x)) && Spoken(HttpVerdicts(x)) && Spoken(RedirectVerdicts(x.http))
    ensures Spoken(ConsistencyVerdicts(x.http)) && Spoken(TruncatedVerdicts(x.http)) && Spoken(QuicVerdicts(x.http))
    ensures Spoken(FilteringVerdicts(x))
  {
    hide NothingResolved, Disagreement, SomeDown, SomeUp, AllLocal, FamilyPresent, FamilyUp, TlsFailsAfterTcp,
      CrossProtocol, CrossFamily, CrossAddress, QuicFails, Signals, LayerFailed, Redirected, Truncated, HowMany;
  }

  /** The engine says nothing but these, or that all is healthy, and that only alone. */
  lemma NothingElseSaid(x: Input, now: nat, parseIp: string -> Option<Ip>)
    ensures var r := Diagnosed(x, now, parseIp);
      || r == [Verdict(Severity.Info, Category.Healthy, Confidence.High)]
      || (r != [] && forall v :: v in r ==> v in VOCABULARY)
  {
    hide VOCABULARY, DnsVerdicts, ConnectivityVerdicts, FamilyVerdicts, TlsVerdicts, LifetimeVerdicts,
      CoverageVerdicts, HttpVerdicts, RedirectVerdicts, ConsistencyVerdicts, TruncatedVerdicts, QuicVerdicts,
      IntermittentVerdicts, FlappingVerdicts, UnstableVerdicts, FilteringVerdicts;
    CausesSpoken(x, now, parseIp);
    RowsSpoken(x);
  }

  /** The place of a verdict in the answer: name resolution, loss, families, handshakes, certificates, HTTP,
      QUIC, repeats with the mixed ones first, filtering. */
  function Place(v: Verdict): nat {
    match v.category
    case Dns => 1
    case TotalConnectivityLoss => 2
    case PartialConnectivity => 2
    case AddressFamily => 3
    case Tls => 4
    case Certificate => 5
    case Http => 6
    case Quic => 7
    case Intermittent => if v.severity.Medium? then 8 else 9
    case PossibleNetworkFiltering => 10
    case _ => 0
  }

  predicate Between(s: seq<Verdict>, low: nat, high: nat) {
    && (forall i :: 0 <= i < |s| ==> low <= Place(s[i]) <= high)
    && (forall i, j :: 0 <= i < j < |s| ==> Place(s[i]) <= Place(s[j]))
  }

  lemma InOrder(a: seq<Verdict>, b: seq<Verdict>, low: nat, middle: nat, high: nat)
    requires Between(a, low, middle) && low <= middle <= high && forall v :: v in b ==> Place(v) == high
    ensures Between(a + b, low, high)
  {
    hide Place;
    assert forall i :: 0 <= i < |b| ==> b[i] in b;
  }

  lemma OncePlaced<K(!new)>(keys: seq<K>, verdict: K -> Verdict, place: nat)
    requires forall k :: Place(verdict(k)) == place
    ensures forall v :: v in OncePerCause(keys, verdict) ==> Place(v) == place
  {
    hide Place;
  }

  lemma CausesPlaced(x: Input, now: nat, parseIp: string -> Option<Ip>)
    ensures forall v :: v in LifetimeVerdicts(x.tls, now) || v in CoverageVerdicts(x.tls, parseIp) ==> Place(v) == 5
    ensures forall v :: v in IntermittentVerdicts(x.probes) ==> Place(v) == 8
    ensures forall v :: v in FlappingVerdicts(x.probes) || v in UnstableVerdicts(x.probes) ==> Place(v) == 9
  {
    hide OncePerCause, LifetimeCauses, CoverageOf, IntermittentAt, FlappingAt, UnstableAt;
    OncePlaced(LifetimeCauses(x.tls, now), CauseVerdict, 5);
    OncePlaced(Collected(x.tls, CoverageOf(parseIp)), CoverageVerdict, 5);
    OncePlaced(Collected(x.probes, IntermittentAt), IntermittentVerdict, 8);
    OncePlaced(Collected(x.probes, FlappingAt), InstabilityVerdict, 9);
    OncePlaced(Collected(x.probes, UnstableAt), InstabilityVerdict, 9);
  }

  lemma RowsPlaced(x: Input)
    ensures forall v :: v in DnsVerdicts(x.dns) ==> Place(v) == 1
    ensures forall v :: v in ConnectivityVerdicts(x.tcp) ==> Place(v) == 2
    ensures forall v :: v in FamilyVerdicts(x.tcp) ==> Place(v) == 3
    ensures forall v :: v in TlsVerdicts(x) ==> Place(v) == 4
    ensures forall v :: v in HttpVerdicts(x) || v in RedirectVerdicts(x.http) ==> Place(v) == 6
    ensures forall v :: v in ConsistencyVerdicts(x.http) || v in TruncatedVerdicts(x.http) ==> Place(v) == 6
    ensures forall v :: v in QuicVerdicts(x.http) ==> Place(v) == 7
    ensures forall v :: v in FilteringVerdicts(x) ==> Place(v) == 10
  {
    hide NothingResolved, Disagreement, SomeDown, SomeUp, AllLocal, FamilyPresent, FamilyUp, TlsFailsAfterTcp,
      CrossProtocol, CrossFamily, CrossAddress, QuicFails, Signals, LayerFailed, Redirected, Truncated, HowMany;
  }

  /** The verdicts come in that order. */
  lemma VerdictsInOrder(x: Input, now: nat, parseIp: string -> Option<Ip>)
    ensures var r := Diagnosed(x, now, parseIp);
      forall i, j :: 0 <= i < j < |r| ==> Place(r[i]) <= Place(r[j])
  {
    CausesPlaced(x, now, parseIp);
    RowsPlaced(x);
    FindingsInOrder(x, now, parseIp);
    hide Place, Findings;
  }

  lemma FindingsInOrder(x: Input, now: nat, parseIp: string -> Option<Ip>)
    ensures Between(Findings(x, now, parseIp), 0, 10)
  {
    hide Place, Between, DnsVerdicts, ConnectivityVerdicts, FamilyVerdicts, TlsVerdicts, LifetimeVerdicts,
      CoverageVerdicts, HttpVerdicts, RedirectVerdicts, ConsistencyVerdicts, TruncatedVerdicts, QuicVerdicts,
      IntermittentVerdicts, FlappingVerdicts, UnstableVerdicts, FilteringVerdicts;
    CausesPlaced(x, now, parseIp);
    RowsPlaced(x);
    var s: seq<Verdict> := [];
    NothingInOrder();
    InOrder(s, DnsVerdicts(x.dns), 0, 0, 1);
    s := s + DnsVerdicts(x.dns);
    InOrder(s, ConnectivityVerdicts(x.tcp), 0, 1, 2);
    s := s + ConnectivityVerdicts(x.tcp);
    InOrder(s, FamilyVerdicts(x.tcp), 0, 2, 3);
    s := s + FamilyVerdicts(x.tcp);
    InOrder(s, TlsVerdicts(x), 0, 3, 4);
    s := s + TlsVerdicts(x);
    InOrder(s, LifetimeVerdicts(x.tls, now), 0, 4, 5);
    s := s + LifetimeVerdicts(x.tls, now);
    InOrder(s, CoverageVerdicts(x.tls, parseIp), 0, 5, 5);
    s := s + CoverageVerdicts(x.tls, parseIp);
    InOrder(s, HttpVerdicts(x), 0, 5, 6);
    s := s + HttpVerdicts(x);
    InOrder(s, RedirectVerdicts(x.http), 0, 6, 6);
    s := s + RedirectVerdicts(x.http);
    InOrder(s, ConsistencyVerdicts(x.http), 0, 6, 6);
    s := s + ConsistencyVerdicts(x.http);
    InOrder(s, TruncatedVerdicts(x.http), 0, 6, 6);
    s := s + TruncatedVerdicts(x.http);
    InOrder(s, QuicVerdicts(x.http), 0, 6, 7);
    s := s + QuicVerdicts(x.http);
    InOrder(s, IntermittentVerdicts(x.probes), 0, 7, 8);
    s := s + IntermittentVerdicts(x.probes);
    InOrder(s, FlappingVerdicts(x.probes), 0, 8, 9);
    s := s + FlappingVerdicts(x.probes);
    InOrder(s, UnstableVerdicts(x.probes), 0, 9, 9);
    s := s + UnstableVerdicts(x.probes);
    InOrder(s, FilteringVerdicts(x), 0, 9, 10);
    s := s + FilteringVerdicts(x);
    assert s == Findings(x, now, parseIp);
  }

  lemma NothingInOrder()
    ensures Between([], 0, 0)
  {
  }
}
