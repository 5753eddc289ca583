/** The rules about TLS, certificates, HTTP rows, QUIC and repeated probes. */
module LayerRules {
  import opened Collections
  import opened Net
  import opened Observations
  import opened ReachabilityRules
  import opened CertNames
  import opened Expiry
  import Repeat

  // ----- TLS -----

  function TlsVerdicts(x: Input): seq<Verdict> {
    if TlsFailsAfterTcp(x) then [Verdict(Severity.Medium, Category.Tls, Confidence.Medium)] else []
  }

  method TlsLayerRules(x: Input, out: seq<Verdict>) returns (r: seq<Verdict>)
    ensures r == out + TlsVerdicts(x)
  {
    var failing: seq<SocketAddr> := [];
    for i := 0 to |x.tls|
      invariant failing != [] <==> exists t :: t in x.tls[..i] && !t.success && Reached(x.tcp, t.destination)
    {
      var t := x.tls[i];
      assert x.tls[..i + 1] == x.tls[..i] + [t];
      if !t.success && Reached(x.tcp, t.destination) {
        failing := failing + [t.destination];
      }
    }
    assert x.tls[..|x.tls|] == x.tls;
    r := if failing != [] then out + [Verdict(Severity.Medium, Category.Tls, Confidence.Medium)] else out;
  }

  // ----- rules that report each cause once -----

  /** What a guarded push loop over the causes `keys` appends. */
  function OncePerCause<K(!new,==)>(keys: seq<K>, verdict: K -> Verdict): seq<Verdict> {
    Map(FirstOccurrences(keys), verdict)
  }

  method PushOnce<K(!new,==)>(
      reported: seq<K>, out: seq<Verdict>, key: K, verdict: K -> Verdict,
      ghost before: seq<Verdict>, ghost keys: seq<K>)
    returns (reported': seq<K>, out': seq<Verdict>)
    requires reported == FirstOccurrences(keys) && out == before + OncePerCause(keys, verdict)
    ensures reported' == FirstOccurrences(keys + [key]) && out' == before + OncePerCause(keys + [key], verdict)
  {
    FirstOccurrencesSnoc(keys, key);
    if key in reported {
      return reported, out;
    }
    reported' := reported + [key];
    out' := out + [verdict(key)];
    assert Map(reported', verdict) == Map(reported, verdict) + [verdict(key)];
  }

  /** The same causes in another order give the same verdicts in another order. */
  lemma OncePerCauseUpToOrder<K(!new)>(a: seq<K>, b: seq<K>, verdict: K -> Verdict)
    requires forall k :: k in a <==> k in b
    ensures multiset(OncePerCause(a, verdict)) == multiset(OncePerCause(b, verdict))
  {
    FirstOccurrencesUpToOrder(a, b);
    MapMultiset(FirstOccurrences(a), FirstOccurrences(b), verdict);
  }

  // ----- certificate lifetime -----

  /** A cause is reported once for each presented name and subject. */
  datatype CertificateCause = CertificateCause(sni: string, subject: string, cause: LifetimeCause)

  function CauseVerdict(k: CertificateCause): Verdict {
    match k.cause
    case NotYetValid(_) => Verdict(Severity.Medium, Category.Certificate, Confidence.Medium)
    case Expired(_) => Verdict(Severity.Medium, Category.Certificate, Confidence.High)
    case Expiring(_) => Verdict(Severity.Low, Category.Certificate, Confidence.Medium)
  }

  function Tagged(t: TlsRow, subject: string, causes: seq<LifetimeCause>): (r: seq<CertificateCause>)
    ensures |r| == |causes|
  {
    seq(|causes|, i requires 0 <= i < |causes| => CertificateCause(t.sni, subject, causes[i]))
  }

  /** The causes one handshake's certificate gives: the start of its validity, then the end. */
  function RowCauses(t: TlsRow, now: nat): seq<CertificateCause> {
    match t.certificate
    case None => []
    case Some(c) =>
      Tagged(t, c.subject, NotBeforeCause(c.notBefore, now)) + Tagged(t, c.subject, NotAfterCause(c.notAfter, now))
  }

  function LifetimeCauses(tls: seq<TlsRow>, now: nat): (r: seq<CertificateCause>)
    ensures forall k :: k in r <==> exists t :: t in tls && k in RowCauses(t, now)
  {
    if tls == [] then []
    else
      assert tls == tls[..|tls| - 1] + [tls[|tls| - 1]];
      LifetimeCauses(tls[..|tls| - 1], now) + RowCauses(tls[|tls| - 1], now)
  }

  function LifetimeVerdicts(tls: seq<TlsRow>, now: nat): seq<Verdict> {
    OncePerCause(LifetimeCauses(tls, now), CauseVerdict)
  }

  method CertificateLifetimeRules(x: Input, now: nat, out: seq<Verdict>) returns (r: seq<Verdict>)
    ensures r == out + LifetimeVerdicts(x.tls, now)
  {
    hide FirstOccurrences, OncePerCause, DaysUntil, IsInPast, CauseVerdict, LifetimeCauses;
    NothingReported(CauseVerdict, out);
    NoCauses(now);
    var reported: seq<CertificateCause> := [];
    r := out;
    for i := 0 to |x.tls|
      invariant reported == FirstOccurrences(LifetimeCauses(x.tls[..i], now))
      invariant r == out + OncePerCause(LifetimeCauses(x.tls[..i], now), CauseVerdict)
    {
      var t := x.tls[i];
      ghost var keys := LifetimeCauses(x.tls[..i], now);
      LifetimeSnoc(x.tls, i, now);
      if t.certificate.None? {
        assert keys + [] == keys;
        continue;
      }
      var cert := t.certificate.value;
      var early := StartsLater(cert.notBefore, now);
      if early.Some? {
        var k := CertificateCause(t.sni, cert.subject, NotYetValid(early.value));
        assert Tagged(t, cert.subject, NotBeforeCause(cert.notBefore, now)) == [k];
        reported, r := PushOnce(reported, r, k, CauseVerdict, out, keys);
        keys := keys + [k];
      }
      assert keys == LifetimeCauses(x.tls[..i], now) + Tagged(t, cert.subject, NotBeforeCause(cert.notBefore, now));
      var late := EndsSoon(cert.notAfter, now);
      if late.None? {
        RowInOrder(x.tls[..i], t, now, keys, []);
        assert keys + [] == keys;
        continue;
      }
      var k := CertificateCause(t.sni, cert.subject, late.value);
      assert Tagged(t, cert.subject, NotAfterCause(cert.notAfter, now)) == [k];
      reported, r := PushOnce(reported, r, k, CauseVerdict, out, keys);
      RowInOrder(x.tls[..i], t, now, keys, [k]);
    }
    assert x.tls[..|x.tls|] == x.tls;
  }

  lemma RowInOrder(before: seq<TlsRow>, t: TlsRow, now: nat, keys: seq<CertificateCause>, last: seq<CertificateCause>)
    requires t.certificate.Some?
    requires keys == LifetimeCauses(before, now)
                     + Tagged(t, t.certificate.value.subject, NotBeforeCause(t.certificate.value.notBefore, now))
    requires last == Tagged(t, t.certificate.value.subject, NotAfterCause(t.certificate.value.notAfter, now))
    ensures LifetimeCauses(before, now) + RowCauses(t, now) == keys + last
  {
    hide LifetimeCauses, Tagged, NotBeforeCause, NotAfterCause;
  }

  method StartsLater(notBefore: Option<string>, now: nat) returns (r: Option<int>)
    ensures NotBeforeCause(notBefore, now) == if r.Some? then [NotYetValid(r.value)] else []
  {
    hide DaysUntil;
    if notBefore.None? {
      return None;
    }
    var days := DaysUntil(notBefore.value, now);
    r := if days.Some? && days.value > 0 then Some(days.value) else None;
  }

  method EndsSoon(notAfter: Option<string>, now: nat) returns (r: Option<LifetimeCause>)
    ensures NotAfterCause(notAfter, now) == if r.Some? then [r.value] else []
  {
    hide DaysUntil, IsInPast;
    if notAfter.None? {
      return None;
    }
    var days := DaysUntil(notAfter.value, now);
    if days.None? {
      return None;
    }
    var expired := days.value < 0 || (days.value == 0 && IsInPast(notAfter.value, now));
    if expired {
      r := Some(Expired(-days.value));
    } else if days.value <= WINDOW_DAYS {
      r := Some(Expiring(days.value));
    } else {
      r := None;
    }
  }

  lemma NothingReported<K(!new)>(verdict: K -> Verdict, out: seq<Verdict>)
    ensures FirstOccurrences<K>([]) == [] && out + OncePerCause([], verdict) == out
  {
  }

  lemma NoCauses(now: nat)
    ensures LifetimeCauses([], now) == []
  {
  }

  lemma LifetimeSnoc(tls: seq<TlsRow>, i: nat, now: nat)
    requires i < |tls|
    ensures LifetimeCauses(tls[..i + 1], now) == LifetimeCauses(tls[..i], now) + RowCauses(tls[i], now)
  {
    assert tls[..i + 1][..i] == tls[..i];
  }

  // ----- certificate coverage -----

  datatype CoverageCause = CoverageCause(sni: string, subject: string, noSans: bool)

  function CoverageVerdict(k: CoverageCause): Verdict {
    Verdict(Severity.Medium, Category.Certificate, Confidence.Medium)
  }

  function CoverageOf(parseIp: string -> Option<Ip>): TlsRow -> Option<CoverageCause> {
    (t: TlsRow) =>
      match t.certificate
      case None => None
      case Some(c) =>
        if c.sans == [] then Some(CoverageCause(t.sni, c.subject, true))
        else if !CertCoversHostname(t.sni, c.sans, parseIp) then Some(CoverageCause(t.sni, c.subject, false))
        else None
  }

  function CoverageVerdicts(tls: seq<TlsRow>, parseIp: string -> Option<Ip>): seq<Verdict> {
    OncePerCause(Collected(tls, CoverageOf(parseIp)), CoverageVerdict)
  }

  method CertificateCoverageRules(x: Input, parseIp: string -> Option<Ip>, out: seq<Verdict>) returns (r: seq<Verdict>)
    ensures r == out + CoverageVerdicts(x.tls, parseIp)
  {
    hide FirstOccurrences, OncePerCause, CertCoversHostname, CoverageVerdict;
    var causeOf := CoverageOf(parseIp);
    NothingReported(CoverageVerdict, out);
    var reported: seq<CoverageCause> := [];
    r := out;
    for i := 0 to |x.tls|
      invariant reported == FirstOccurrences(Collected(x.tls[..i], causeOf))
      invariant r == out + OncePerCause(Collected(x.tls[..i], causeOf), CoverageVerdict)
    {
      var t := x.tls[i];
      ghost var keys := Collected(x.tls[..i], causeOf);
      CollectedLast(x.tls, i, causeOf);
      assert keys + [] == keys;
      if t.certificate.None? {
        continue;
      }
      var cert := t.certificate.value;
      if cert.sans == [] {
        reported, r := PushOnce(reported, r, CoverageCause(t.sni, cert.subject, true), CoverageVerdict, out, keys);
        continue;
      }
      if !CertCoversHostname(t.sni, cert.sans, parseIp) {
        reported, r := PushOnce(reported, r, CoverageCause(t.sni, cert.subject, false), CoverageVerdict, out, keys);
      }
    }
    assert x.tls[..|x.tls|] == x.tls;
  }

  // ----- HTTP rows -----

  /** A failure no other layer's rule owns. */
  predicate OwnFailure(h: HttpRow) {
    && h.failure.Some?
    && if Http3(h) then h.failure.value in {Repeat.Http, Repeat.Protocol}
       else h.failure.value !in {Repeat.Quic, Repeat.TlsHandshake, Repeat.Certificate}
  }

  predicate InheritedFromTcp(h: HttpRow, tcp: seq<TcpRow>) {
    h.failure.Some? && exists t :: t in tcp && t.destination == h.destination && !t.success
  }

  predicate LayerFailed(h: HttpRow, tcp: seq<TcpRow>) {
    (OwnFailure(h) && !InheritedFromTcp(h, tcp)) || (h.status.Some? && h.status.value >= 400)
  }

  function HttpVerdicts(x: Input): seq<Verdict> {
    if exists h :: h in x.http && LayerFailed(h, x.tcp) then
      [Verdict(Severity.Low, Category.Http, Confidence.Low)]
    else []
  }

  method HttpLayerRules(x: Input, out: seq<Verdict>) returns (r: seq<Verdict>)
    ensures r == out + HttpVerdicts(x)
  {
    var failing: seq<SocketAddr> := [];
    for i := 0 to |x.http|
      invariant failing != [] <==> exists h :: h in x.http[..i] && LayerFailed(h, x.tcp)
    {
      var h := x.http[i];
      assert x.http[..i + 1] == x.http[..i] + [h];
      var inherited := h.failure.Some? && exists t :: t in x.tcp && t.destination == h.destination && !t.success;
      var own := h.failure.Some?
        && if Http3(h) then h.failure.value in {Repeat.Http, Repeat.Protocol}
           else h.failure.value !in {Repeat.Quic, Repeat.TlsHandshake, Repeat.Certificate};
      var layerFailed := (own && !inherited) || (h.status.Some? && h.status.value >= 400);
      assert layerFailed == LayerFailed(h, x.tcp);
      hide LayerFailed;
      assert forall g :: g in x.http[..i + 1] <==> g in x.http[..i] || g == h;
      if layerFailed {
        failing := failing + [h.destination];
      }
    }
    assert x.http[..|x.http|] == x.http;
    r := if failing != [] then out + [Verdict(Severity.Low, Category.Http, Confidence.Low)] else out;
  }

  predicate Redirected(h: HttpRow) {
    h.failure.None? && h.status.Some? && h.status.value in {301, 302, 303, 307, 308}
  }

  function RedirectVerdicts(http: seq<HttpRow>): seq<Verdict> {
    if exists h :: h in http && Redirected(h) then [Verdict(Severity.Low, Category.Http, Confidence.Low)] else []
  }

  method RedirectRules(x: Input, out: seq<Verdict>) returns (r: seq<Verdict>)
    ensures r == out + RedirectVerdicts(x.http)
  {
    var redirects := Filter(x.http, Redirected);
    NonEmptyFilter(x.http, Redirected);
    r := if redirects != [] then out + [Verdict(Severity.Low, Category.Http, Confidence.Low)] else out;
  }

  predicate Truncated(h: HttpRow) { h.failure.None? && h.status.Some? && h.bodyBytes.None? }

  function TruncatedVerdicts(http: seq<HttpRow>): seq<Verdict> {
    if exists h :: h in http && Truncated(h) then [Verdict(Severity.Low, Category.Http, Confidence.Low)] else []
  }

  method TruncatedBodyRules(x: Input, out: seq<Verdict>) returns (r: seq<Verdict>)
    ensures r == out + TruncatedVerdicts(x.http)
  {
    var truncated := Filter(x.http, Truncated);
    NonEmptyFilter(x.http, Truncated);
    r := if truncated != [] then out + [Verdict(Severity.Low, Category.Http, Confidence.Low)] else out;
  }

  /** Some row succeeded below 400, HTTP/3 was tried, and every HTTP/3 row failed. */
  predicate QuicFails(http: seq<HttpRow>) {
    && (exists h :: h in http && h.failure.None? && h.status.Some? && h.status.value < 400)
    && (exists h :: h in http && Http3(h))
    && (forall h :: h in http && Http3(h) ==> h.failure.Some?)
  }

  function QuicVerdicts(http: seq<HttpRow>): seq<Verdict> {
    if QuicFails(http) then [Verdict(Severity.Low, Category.Quic, Confidence.Medium)] else []
  }

  method QuicRules(x: Input, out: seq<Verdict>) returns (r: seq<Verdict>)
    ensures r == out + QuicVerdicts(x.http)
  {
    var tcpOk := exists h :: h in x.http && h.failure.None? && h.status.Some? && h.status.value < 400;
    var quic := Filter(x.http, Http3);
    NonEmptyFilter(x.http, Http3);
    var quicOk := exists h :: h in quic && h.failure.None?;
    r := out;
    if |quic| > 0 && tcpOk && !quicOk {
      r := r + [Verdict(Severity.Low, Category.Quic, Confidence.Medium)];
    }
  }

  // ----- repeated probes -----

  function IntermittentAt(p: ProbeRow): Option<SocketAddr> {
    var r := p.result;
    if r.attempts > 1 && r.failures > 0 && r.successes > 0 then Some(p.destination) else None
  }

  predicate ContentStatus(status: int) { 200 <= status < 300 }

  function FlappingAt(p: ProbeRow): Option<SocketAddr> {
    var r := p.result;
    if && r.attempts >= 2 && r.failures == 0
       && (exists c :: c in r.statusCounts && ContentStatus(c.key as int))
       && (exists c :: c in r.statusCounts && !ContentStatus(c.key as int))
    then Some(p.destination) else None
  }

  /** p95 at least three times the median, which counts as one millisecond at least. */
  function UnstableAt(p: ProbeRow): Option<SocketAddr> {
    var r := p.result;
    if && r.attempts >= 3 && r.failures == 0 && r.latency.count >= 3 && r.latency.p50.Some? && r.latency.p95.Some?
       && r.latency.p95.value >= 3 * r.latency.p50.value && r.latency.p95.value >= 3
    then Some(p.destination) else None
  }

  function IntermittentVerdict(d: SocketAddr): Verdict {
    Verdict(Severity.Medium, Category.Intermittent, Confidence.High)
  }

  function InstabilityVerdict(d: SocketAddr): Verdict {
    Verdict(Severity.Low, Category.Intermittent, Confidence.High)
  }

  function IntermittentVerdicts(probes: seq<ProbeRow>): seq<Verdict> {
    OncePerCause(Collected(probes, IntermittentAt), IntermittentVerdict)
  }

  function FlappingVerdicts(probes: seq<ProbeRow>): seq<Verdict> {
    OncePerCause(Collected(probes, FlappingAt), InstabilityVerdict)
  }

  function UnstableVerdicts(probes: seq<ProbeRow>): seq<Verdict> {
    OncePerCause(Collected(probes, UnstableAt), InstabilityVerdict)
  }

  method IntermittentRules(x: Input, out: seq<Verdict>) returns (r: seq<Verdict>)
    ensures r == out + IntermittentVerdicts(x.probes)
  {
    hide FirstOccurrences, OncePerCause, IntermittentVerdict;
    NothingReported(IntermittentVerdict, out);
    var reported: seq<SocketAddr> := [];
    r := out;
    for i := 0 to |x.probes|
      invariant reported == FirstOccurrences(Collected(x.probes[..i], IntermittentAt))
      invariant r == out + OncePerCause(Collected(x.probes[..i], IntermittentAt), IntermittentVerdict)
    {
      var p := x.probes[i];
      ghost var keys := Collected(x.probes[..i], IntermittentAt);
      CollectedLast(x.probes, i, IntermittentAt);
      assert keys + [] == keys;
      if p.result.attempts > 1 && p.result.failures > 0 && p.result.successes > 0 {
        reported, r := PushOnce(reported, r, p.destination, IntermittentVerdict, out, keys);
      }
    }
    assert x.probes[..|x.probes|] == x.probes;
  }

  method HttpStatusFlappingRules(x: Input, out: seq<Verdict>) returns (r: seq<Verdict>)
    ensures r == out + FlappingVerdicts(x.probes)
  {
    hide FirstOccurrences, OncePerCause, InstabilityVerdict;
    NothingReported(InstabilityVerdict, out);
    var reported: seq<SocketAddr> := [];
    r := out;
    for i := 0 to |x.probes|
      invariant reported == FirstOccurrences(Collected(x.probes[..i], FlappingAt))
      invariant r == out + OncePerCause(Collected(x.probes[..i], FlappingAt), InstabilityVerdict)
    {
      var p := x.probes[i];
      ghost var keys := Collected(x.probes[..i], FlappingAt);
      CollectedLast(x.probes, i, FlappingAt);
      assert keys + [] == keys;
      if p.result.attempts < 2 || p.result.statusCounts == [] {
        continue;
      }
      if p.result.failures > 0 {
        continue;
      }
      var content := exists c :: c in p.result.statusCounts && ContentStatus(c.key as int);
      var nonContent := exists c :: c in p.result.statusCounts && !ContentStatus(c.key as int);
      if content && nonContent {
        reported, r := PushOnce(reported, r, p.destination, InstabilityVerdict, out, keys);
      }
    }
    assert x.probes[..|x.probes|] == x.probes;
  }

  method LatencyInstabilityRules(x: Input, out: seq<Verdict>) returns (r: seq<Verdict>)
    ensures r == out + UnstableVerdicts(x.probes)
  {
    hide FirstOccurrences, OncePerCause, InstabilityVerdict;
    NothingReported(InstabilityVerdict, out);
    var reported: seq<SocketAddr> := [];
    r := out;
    for i := 0 to |x.probes|
      invariant reported == FirstOccurrences(Collected(x.probes[..i], UnstableAt))
      invariant r == out + OncePerCause(Collected(x.probes[..i], UnstableAt), InstabilityVerdict)
    {
      var p := x.probes[i];
      ghost var keys := Collected(x.probes[..i], UnstableAt);
      CollectedLast(x.probes, i, UnstableAt);
      assert keys + [] == keys;
      if p.result.attempts < 3 || p.result.failures > 0 || p.result.latency.count < 3 {
        continue;
      }
      if p.result.latency.p50.None? || p.result.latency.p95.None? {
        continue;
      }
      var p50, p95 := p.result.latency.p50.value, p.result.latency.p95.value;
      var base := if p50 >= 1 then p50 else 1;
      if p95 < 3 * base {
        continue;
      }
      reported, r := PushOnce(reported, r, p.destination, InstabilityVerdict, out, keys);
    }
    assert x.probes[..|x.probes|] == x.probes;
  }
}
