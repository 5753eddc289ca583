/** What the probe layer hands to the diagnostic engine, and what the engine answers. Message text,
    evidence and cause lists are left out of the answer. */
module Observations {
  import opened Collections
  import opened Net
  import DnsMessage
  import DnsRepeat
  import Repeat

  type FailureKind = Repeat.FailureKind

  /** `records` keeps the address of every address record, `None` for the others. */
  datatype DnsRow = DnsRow(
    resolver: DnsRepeat.Resolver, recordType: DnsMessage.RecordType, records: seq<Option<Ip>>, failed: bool)

  datatype TcpRow = TcpRow(destination: SocketAddr, success: bool, failure: Option<FailureKind>)

  datatype Certificate = Certificate(
    subject: string, notBefore: Option<string>, notAfter: Option<string>, sans: seq<string>)

  datatype TlsRow = TlsRow(destination: SocketAddr, sni: string, success: bool, certificate: Option<Certificate>)

  datatype HttpRow = HttpRow(
    destination: SocketAddr, protocol: Option<string>, status: Option<nat>, failure: Option<FailureKind>,
    bodyBytes: Option<nat>)

  datatype ProbeRow = ProbeRow(destination: SocketAddr, result: Repeat.ProbeResult)

  datatype Input = Input(
    dns: seq<DnsRow>, tcp: seq<TcpRow>, tls: seq<TlsRow>, http: seq<HttpRow>, probes: seq<ProbeRow>)

  datatype Severity = Info | Low | Medium | High

  datatype Confidence = Unknown | Low | Medium | High

  datatype Category =
    | Healthy | Dns | AddressFamily | PartialConnectivity | TotalConnectivityLoss | Intermittent | Tcp | Tls
    | Certificate | Http | Quic | PossibleNetworkFiltering | Unknown

  datatype Verdict = Verdict(severity: Severity, category: Category, confidence: Confidence)

  /** The same observations, list by list, in any order. */
  predicate Permuted(x: Input, y: Input) {
    && multiset(x.dns) == multiset(y.dns)
    && multiset(x.tcp) == multiset(y.tcp)
    && multiset(x.tls) == multiset(y.tls)
    && multiset(x.http) == multiset(y.http)
    && multiset(x.probes) == multiset(y.probes)
  }
}
