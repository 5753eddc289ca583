/** The rules about resolution, TCP reachability, address families and filtering signals. */
module ReachabilityRules {
  import opened Collections
  import opened Net
  import opened Observations
  import DnsMessage
  import DnsRepeat
  import Repeat

  // ----- resolution -----

  /** Only forward lookups say whether the name resolved. */
  predicate Forward(o: DnsRow) { o.recordType == DnsMessage.A || o.recordType == DnsMessage.Aaaa }

  predicate Answered(o: DnsRow) { Forward(o) && !o.failed && o.records != [] }

  function Addresses(o: DnsRow): set<Ip> {
    set r | r in o.records && r.Some? :: r.value
  }

  /** Every address one resolver gave, over all its answers. */
  function AddressSet(dns: seq<DnsRow>, resolver: DnsRepeat.Resolver): (s: set<Ip>)
    ensures forall ip :: ip in s <==>
      exists o :: o in dns && Answered(o) && o.resolver == resolver && ip in Addresses(o)
  {
    if dns == [] then {}
    else
      var init, last := dns[..|dns| - 1], dns[|dns| - 1];
      assert dns == init + [last];
      AddressSet(init, resolver) + if Answered(last) && last.resolver == resolver then Addresses(last) else {}
  }

  /** Two resolvers answered, with different addresses. */
  predicate Disagreement(dns: seq<DnsRow>) {
    exists a, b :: a in dns && b in dns && Answered(a) && Answered(b)
                   && AddressSet(dns, a.resolver) != AddressSet(dns, b.resolver)
  }

  predicate NothingResolved(dns: seq<DnsRow>) {
    && (exists o :: o in dns && Forward(o) && o.failed)
    && (forall o :: o in dns && Forward(o) ==> o.failed)
  }

  function DnsVerdicts(dns: seq<DnsRow>): seq<Verdict> {
    if NothingResolved(dns) then [Verdict(Severity.High, Category.Dns, Confidence.High)]
    else if Disagreement(dns) then [Verdict(Severity.Low, Category.Dns, Confidence.Low)]
    else []
  }

  lemma AddressSetSnoc(dns: seq<DnsRow>, o: DnsRow, resolver: DnsRepeat.Resolver)
    ensures AddressSet(dns + [o], resolver)
         == AddressSet(dns, resolver) + if Answered(o) && o.resolver == resolver then Addresses(o) else {}
  {
  }

  /** The map the loop fills: for every resolver that answered, its addresses so far. */
  ghost predicate PerResolver(m: map<DnsRepeat.Resolver, set<Ip>>, dns: seq<DnsRow>) {
    && (forall r :: r in m <==> exists o :: o in dns && Answered(o) && o.resolver == r)
    && (forall r :: r in m ==> m[r] == AddressSet(dns, r))
  }

  lemma Unanswered(dns: seq<DnsRow>, resolver: DnsRepeat.Resolver)
    requires forall o :: o in dns ==> !(Answered(o) && o.resolver == resolver)
    ensures AddressSet(dns, resolver) == {}
  {
  }

  lemma PerResolverStep(
      m: map<DnsRepeat.Resolver, set<Ip>>, n: map<DnsRepeat.Resolver, set<Ip>>, dns: seq<DnsRow>, o: DnsRow)
    requires PerResolver(m, dns)
    requires n == if Answered(o) then
                    m[o.resolver := (if o.resolver in m then m[o.resolver] else {}) + Addresses(o)]
                  else m
    ensures PerResolver(n, dns + [o])
  {
    hide AddressSet, Addresses, Answered;
    assert forall a :: a in dns + [o] <==> a in dns || a == o;
    if o.resolver !in m {
      Unanswered(dns, o.resolver);
    }
    forall r ensures AddressSet(dns + [o], r)
        == AddressSet(dns, r) + if Answered(o) && o.resolver == r then Addresses(o) else {}
    {
      AddressSetSnoc(dns, o, r);
    }
  }

  method DnsRules(x: Input, out: seq<Verdict>) returns (r: seq<Verdict>, disagreement: bool)
    ensures r == out + DnsVerdicts(x.dns)
    ensures disagreement == Disagreement(x.dns)
  {
    hide AddressSet, Addresses, Disagreement;
    if x.dns == [] {
      NobodyDisagrees();
      return out, false;
    }
    var anySuccess, anyFailure := false, false;
    var perResolver: map<DnsRepeat.Resolver, set<Ip>> := map[];
    for i := 0 to |x.dns|
      invariant anyFailure <==> exists o :: o in x.dns[..i] && Forward(o) && o.failed
      invariant anySuccess <==> exists o :: o in x.dns[..i] && Forward(o) && !o.failed
      invariant PerResolver(perResolver, x.dns[..i])
    {
      var o := x.dns[i];
      ghost var before := perResolver;
      assert x.dns[..i + 1] == x.dns[..i] + [o];
      if Forward(o) {
        if o.failed {
          anyFailure := true;
        } else {
          anySuccess := true;
          if o.records != [] {
            var known := if o.resolver in perResolver then perResolver[o.resolver] else {};
            perResolver := perResolver[o.resolver := known + Addresses(o)];
          }
        }
      }
      PerResolverStep(before, perResolver, x.dns[..i], o);
    }
    assert x.dns[..|x.dns|] == x.dns;
    disagreement := DistinctSets(perResolver);
    DisagreementBySets(x.dns, perResolver);
    if anyFailure && !anySuccess {
      r := out + [Verdict(Severity.High, Category.Dns, Confidence.High)];
    } else if disagreement {
      r := out + [Verdict(Severity.Low, Category.Dns, Confidence.Low)];
    } else {
      r := out;
    }
  }

  lemma NobodyDisagrees()
    ensures !Disagreement([])
  {
  }

  /** Whether the map holds more than one distinct value. */
  method DistinctSets(m: map<DnsRepeat.Resolver, set<Ip>>) returns (several: bool)
    ensures several <==> exists a, b :: a in m && b in m && m[a] != m[b]
  {
    var distinct: seq<set<Ip>> := [];
    var rest := m.Keys;
    while rest != {}
      invariant rest <= m.Keys && Distinct(distinct)
      invariant forall s :: s in distinct <==> exists k :: k in m && k !in rest && m[k] == s
      decreases |rest|
    {
      var k :| k in rest;
      if m[k] !in distinct {
        distinct := distinct + [m[k]];
      }
      rest := rest - {k};
    }
    several := |distinct| > 1;
    if several {
      assert distinct[0] in distinct && distinct[1] in distinct;
    }
    forall a, b | a in m && b in m && m[a] != m[b] ensures several {
      assert m[a] in distinct && m[b] in distinct;
    }
  }

  lemma DisagreementBySets(dns: seq<DnsRow>, m: map<DnsRepeat.Resolver, set<Ip>>)
    requires PerResolver(m, dns)
    ensures (exists a, b :: a in m && b in m && m[a] != m[b]) <==> Disagreement(dns)
  {
  }

  // ----- TCP -----

  predicate Failing(o: TcpRow) { !o.success }

  predicate Succeeding(o: TcpRow) { o.success }

  /** The host's own no-route verdict, given before any packet is sent. */
  predicate LocallyUnreachable(o: TcpRow) {
    o.failure == Some(Repeat.NetworkUnreachable) || o.failure == Some(Repeat.HostUnreachable)
  }

  predicate AllLocal(tcp: seq<TcpRow>) {
    forall o :: o in tcp && Failing(o) ==> LocallyUnreachable(o)
  }

  predicate SomeUp(tcp: seq<TcpRow>) { exists o :: o in tcp && o.success }

  predicate SomeDown(tcp: seq<TcpRow>) { exists o :: o in tcp && Failing(o) }

  predicate Reached(tcp: seq<TcpRow>, destination: SocketAddr) {
    exists o :: o in tcp && o.destination == destination && o.success
  }

  function ConnectivityVerdicts(tcp: seq<TcpRow>): seq<Verdict> {
    if !SomeDown(tcp) || AllLocal(tcp) then []
    else
      var confidence := if HowMany(tcp, Failing) > 1 then Confidence.High else Confidence.Medium;
      if SomeUp(tcp) then [Verdict(Severity.Medium, Category.PartialConnectivity, confidence)]
      else [Verdict(Severity.High, Category.TotalConnectivityLoss, confidence)]
  }

  method ConnectivityRules(x: Input, out: seq<Verdict>) returns (r: seq<Verdict>)
    ensures r == out + ConnectivityVerdicts(x.tcp)
  {
    if x.tcp == [] {
      return out;
    }
    var ok, bad := Filter(x.tcp, Succeeding), Filter(x.tcp, Failing);
    FilterCounts(x.tcp, Failing);
    var confidence := if |bad| > 1 then Confidence.High else Confidence.Medium;
    assert bad != [] <==> SomeDown(x.tcp) by { NonEmptyFilter(x.tcp, Failing); }
    assert ok != [] <==> SomeUp(x.tcp) by { NonEmptyFilter(x.tcp, Succeeding); }
    if ok == [] && bad != [] {
      if forall o :: o in bad ==> LocallyUnreachable(o) {
        return out;
      }
      return out + [Verdict(Severity.High, Category.TotalConnectivityLoss, confidence)];
    }
    if ok != [] && bad != [] {
      if forall o :: o in bad ==> LocallyUnreachable(o) {
        return out;
      }
      return out + [Verdict(Severity.Medium, Category.PartialConnectivity, confidence)];
    }
    r := out;
  }

  lemma NonEmptyFilter<T(!new)>(s: seq<T>, p: T -> bool)
    ensures Filter(s, p) != [] <==> exists x :: x in s && p(x)
  {
    var f := Filter(s, p);
    if f != [] {
      assert f[0] in f;
    }
  }

  predicate InFamily(o: TcpRow, ipv4: bool) { o.destination.ip.V4? == ipv4 }

  predicate FamilyPresent(tcp: seq<TcpRow>, ipv4: bool) { exists o :: o in tcp && InFamily(o, ipv4) }

  predicate FamilyUp(tcp: seq<TcpRow>, ipv4: bool) { exists o :: o in tcp && InFamily(o, ipv4) && o.success }

  const FAMILY_VERDICT := Verdict(Severity.Low, Category.AddressFamily, Confidence.Medium)

  /** Two families of which one is down, or one family that is down for want of a local route. */
  function FamilyVerdicts(tcp: seq<TcpRow>): seq<Verdict> {
    if FamilyPresent(tcp, true) && FamilyPresent(tcp, false) then
      if FamilyUp(tcp, true) != FamilyUp(tcp, false) then [FAMILY_VERDICT] else []
    else if tcp != [] && !SomeUp(tcp) && AllLocal(tcp) then [FAMILY_VERDICT]
    else []
  }

  function FamilyResult(tcp: seq<TcpRow>, ipv4: bool): Option<bool> {
    if FamilyPresent(tcp, ipv4) then Some(FamilyUp(tcp, ipv4)) else None
  }

  method FamilyRules(x: Input, out: seq<Verdict>) returns (r: seq<Verdict>)
    ensures r == out + FamilyVerdicts(x.tcp)
  {
    r := out;
    if x.tcp == [] {
      return;
    }
    assert x.tcp[0] in x.tcp && InFamily(x.tcp[0], x.tcp[0].destination.ip.V4?);
    var v4, v6 := FamilyResult(x.tcp, true), FamilyResult(x.tcp, false);
    if v4.Some? && v6.Some? {
      if v4.value != v6.value {
        r := r + [FAMILY_VERDICT];
      }
    }
    var single := if v4.Some? && v6.None? then Some((true, v4.value))
                  else if v4.None? && v6.Some? then Some((false, v6.value))
                  else None;
    if single.Some? {
      var (ipv4, ok) := single.value;
      assert forall o :: o in x.tcp ==> InFamily(o, ipv4);
      if !ok && forall o :: o in x.tcp && InFamily(o, ipv4) && Failing(o) ==> LocallyUnreachable(o) {
        r := r + [FAMILY_VERDICT];
      }
    }
  }

  /** The families give nothing to report: both down or both up, or a single family that also answered. */
  predicate NoContrast(tcp: seq<TcpRow>) {
    if FamilyPresent(tcp, true) && FamilyPresent(tcp, false) then FamilyUp(tcp, true) == FamilyUp(tcp, false)
    else SomeUp(tcp)
  }

  /** Both TCP rules stay silent about a failure exactly when it is a missing local route and the families
      give no contrast. */
  lemma SilentFailures(tcp: seq<TcpRow>)
    ensures SomeDown(tcp) && ConnectivityVerdicts(tcp) == [] && FamilyVerdicts(tcp) == []
       <==> SomeDown(tcp) && AllLocal(tcp) && NoContrast(tcp)
  {
  }

  // ----- filtering signals -----

  predicate PathFailure(o: TcpRow) { o.failure.Some? && !LocallyUnreachable(o) }

  predicate AddressSpecific(tcp: seq<TcpRow>) {
    (exists o :: o in tcp && PathFailure(o)) && SomeUp(tcp)
  }

  predicate ResetSeen(tcp: seq<TcpRow>) { exists o :: o in tcp && o.failure == Some(Repeat.ConnectionReset) }

  predicate TlsFailsAfterTcp(x: Input) {
    exists t :: t in x.tls && !t.success && Reached(x.tcp, t.destination)
  }

  predicate Http3(h: HttpRow) { h.protocol == Some("HTTP/3") }

  predicate QuicOnly(http: seq<HttpRow>) {
    && (exists h :: h in http && Http3(h) && h.failure.Some?)
    && (forall h :: h in http && Http3(h) ==> h.failure.Some?)
    && (exists h :: h in http && !Http3(h) && h.failure.None?)
  }

  predicate FailsOnPath(tcp: seq<TcpRow>, destination: SocketAddr) {
    exists o :: o in tcp && PathFailure(o) && o.destination == destination
  }

  predicate FlakyElsewhere(x: Input) {
    exists p :: p in x.probes && p.result.successes > 0 && p.result.failures > 0 && !FailsOnPath(x.tcp, p.destination)
  }

  function One(b: bool): nat { if b then 1 else 0 }

  function Signals(x: Input): nat {
    One(Disagreement(x.dns)) + One(AddressSpecific(x.tcp)) + One(ResetSeen(x.tcp)) + One(TlsFailsAfterTcp(x))
    + One(QuicOnly(x.http)) + One(FlakyElsewhere(x))
  }

  function FilteringVerdicts(x: Input): seq<Verdict> {
    if Signals(x) >= 4 then [Verdict(Severity.Low, Category.PossibleNetworkFiltering, Confidence.Medium)]
    else if Signals(x) >= 2 then [Verdict(Severity.Low, Category.PossibleNetworkFiltering, Confidence.Low)]
    else []
  }

  method FilteringRules(x: Input, dnsDisagreement: bool, out: seq<Verdict>) returns (r: seq<Verdict>)
    requires dnsDisagreement == Disagreement(x.dns)
    ensures r == out + FilteringVerdicts(x)
  {
    hide Disagreement, Reached, PathFailure, Http3;
    var signals := 0;
    if dnsDisagreement {
      signals := signals + 1;
    }
    if (exists o :: o in x.tcp && PathFailure(o)) && (exists o :: o in x.tcp && o.success) {
      signals := signals + 1;
    }
    if exists o :: o in x.tcp && o.failure == Some(Repeat.ConnectionReset) {
      signals := signals + 1;
    }
    if exists t :: t in x.tls && !t.success && Reached(x.tcp, t.destination) {
      signals := signals + 1;
    }
    var quicOnly := (exists h :: h in x.http && Http3(h) && h.failure.Some?)
                    && !(exists h :: h in x.http && Http3(h) && h.failure.None?)
                    && (exists h :: h in x.http && !Http3(h) && h.failure.None?);
    if quicOnly {
      signals := signals + 1;
    }
    var specificFailing := set o | o in x.tcp && PathFailure(o) :: o.destination;
    assert forall p :: p in x.probes ==> (p.destination in specificFailing <==> FailsOnPath(x.tcp, p.destination));
    if exists p :: p in x.probes && p.result.successes > 0 && p.result.failures > 0
                   && p.destination !in specificFailing
    {
      signals := signals + 1;
    }
    assert signals == Signals(x);
    if signals >= 2 {
      var confidence := if signals >= 4 then Confidence.Medium else Confidence.Low;
      r := out + [Verdict(Severity.Low, Category.PossibleNetworkFiltering, confidence)];
    } else {
      r := out;
    }
  }
}
