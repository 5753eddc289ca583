/** What addresses without a local route can and cannot change in the engine's verdicts. */
module Unreachability {
  import opened Collections
  import opened Net
  import opened Observations
  import opened ReachabilityRules
  import opened Diagnosis
  import opened Reporting
  import Repeat

  /** TCP rows that failed with the host's own no-route verdict. */
  predicate OnlyLocal(tcp: seq<TcpRow>) {
    forall o :: o in tcp ==> Failing(o) && LocallyUnreachable(o)
  }

  /** Observations of addresses known only through the host's missing route: no connection, so no
      handshake, no response and no successful repeat. */
  predicate OnlyUnreachable(extra: Input, x: Input) {
    && extra.dns == []
    && OnlyLocal(extra.tcp)
    && (forall t :: t in extra.tls ==> !t.success && !Reached(x.tcp, t.destination))
    && (forall h :: h in extra.http ==> h.failure.Some?)
    && (forall p :: p in extra.probes ==> p.result.successes == 0)
  }

  /** `y` holds the observations of `x` and of `extra`, in any order. */
  predicate Joined(x: Input, extra: Input, y: Input) {
    Permuted(y, Input(x.dns + extra.dns, x.tcp + extra.tcp, x.tls + extra.tls, x.http + extra.http,
                      x.probes + extra.probes))
  }

  lemma JoinedElements<T(!new)>(x: seq<T>, extra: seq<T>, y: seq<T>)
    requires multiset(y) == multiset(x + extra)
    ensures forall o :: o in y <==> o in x || o in extra
  {
    PermutationElements(y, x + extra);
  }

  // ----- connectivity -----

  lemma TcpSignalsKept(x: seq<TcpRow>, extra: seq<TcpRow>, y: seq<TcpRow>)
    requires multiset(y) == multiset(x + extra) && OnlyLocal(extra)
    ensures SomeUp(y) == SomeUp(x) && AddressSpecific(y) == AddressSpecific(x) && ResetSeen(y) == ResetSeen(x)
    ensures forall d :: Reached(y, d) == Reached(x, d) && FailsOnPath(y, d) == FailsOnPath(x, d)
    ensures SomeDown(y) && !AllLocal(y) <==> SomeDown(x) && !AllLocal(x)
  {
    JoinedElements(x, extra, y);
    assert forall o :: o in extra ==> !PathFailure(o) && o.failure != Some(Repeat.ConnectionReset);
  }

  lemma FailuresCounted(x: seq<TcpRow>, extra: seq<TcpRow>, y: seq<TcpRow>)
    requires multiset(y) == multiset(x + extra) && OnlyLocal(extra)
    ensures HowMany(y, Failing) == HowMany(x, Failing) + |extra|
  {
    HowManyPermutation(y, x + extra, Failing);
    HowManyAppend(x, extra, Failing);
    AllCounted(extra, Failing);
  }

  lemma {:induction false} AllCounted<T(!new)>(s: seq<T>, p: T -> bool)
    requires forall x :: x in s ==> p(x)
    ensures HowMany(s, p) == |s|
  {
    if s != [] {
      assert s[0] in s && forall x :: x in s[1..] ==> x in s;
      AllCounted(s[1..], p);
    }
  }

  /** Locally unreachable rows never add or remove a total-loss or a partial-connectivity verdict. The
      verdict itself changes only from medium to high confidence, and exactly when a single address failed
      on the path before. */
  lemma ConnectivityUntouched(x: seq<TcpRow>, extra: seq<TcpRow>, y: seq<TcpRow>)
    requires multiset(y) == multiset(x + extra) && OnlyLocal(extra)
    ensures Reports(ConnectivityVerdicts(y), Category.TotalConnectivityLoss)
       <==> Reports(ConnectivityVerdicts(x), Category.TotalConnectivityLoss)
    ensures Reports(ConnectivityVerdicts(y), Category.PartialConnectivity)
       <==> Reports(ConnectivityVerdicts(x), Category.PartialConnectivity)
    ensures ConnectivityVerdicts(y) != ConnectivityVerdicts(x)
       <==> SomeDown(x) && !AllLocal(x) && HowMany(x, Failing) == 1 && extra != []
    ensures ConnectivityVerdicts(y) != ConnectivityVerdicts(x) ==>
      ConnectivityVerdicts(y)[0] == ConnectivityVerdicts(x)[0].(confidence := Confidence.High)
  {
    TcpSignalsKept(x, extra, y);
    FailuresCounted(x, extra, y);
    FailingCounted(x);
    hide SomeDown, SomeUp, AllLocal, OnlyLocal;
    var before, after := ConnectivityVerdicts(x), ConnectivityVerdicts(y);
    assert |before| == |after|;
    if before != [] {
      assert before == [before[0]] && after == [after[0]];
    }
  }

  lemma FailingCounted(tcp: seq<TcpRow>)
    ensures HowMany(tcp, Failing) > 0 <==> SomeDown(tcp)
  {
    NoneCounted(tcp, Failing);
  }

  // ----- filtering -----

  predicate TriedHttp3(http: seq<HttpRow>) { exists h :: h in http && Http3(h) }

  /** The added HTTP/3 rows are the first, and another protocol succeeded: the QUIC-only signal appears. */
  predicate QuicAppears(x: Input, extra: Input) {
    TriedHttp3(extra.http) && !TriedHttp3(x.http) && exists h :: h in x.http && !Http3(h) && h.failure.None?
  }

  /** Failing rows leave the QUIC-only signal as it was exactly when it does not appear with them. */
  lemma QuicOnlyKept(x: seq<HttpRow>, extra: seq<HttpRow>, y: seq<HttpRow>)
    requires multiset(y) == multiset(x + extra) && forall h :: h in extra ==> h.failure.Some?
    ensures QuicOnly(y) == QuicOnly(x) <==>
      (TriedHttp3(extra) ==> TriedHttp3(x) || !exists h :: h in x && !Http3(h) && h.failure.None?)
    ensures QuicOnly(x) ==> QuicOnly(y)
  {
    hide Http3;
    JoinedElements(x, extra, y);
  }

  lemma OtherSignalsKept(x: Input, extra: Input, y: Input)
    requires Joined(x, extra, y) && OnlyUnreachable(extra, x)
    ensures TlsFailsAfterTcp(y) == TlsFailsAfterTcp(x)
    ensures FlakyElsewhere(y) == FlakyElsewhere(x)
    ensures Disagreement(y.dns) == Disagreement(x.dns)
  {
    hide Reached, FailsOnPath, OnlyLocal, Disagreement, DnsVerdicts;
    JoinedElements(x.tls, extra.tls, y.tls);
    JoinedElements(x.probes, extra.probes, y.probes);
    TcpSignalsKept(x.tcp, extra.tcp, y.tcp);
    assert x.dns + extra.dns == x.dns;
    DnsUpToOrder(y.dns, x.dns);
  }

  /** They add one signal when the QUIC-only signal appears with them, and none otherwise. */
  lemma SignalsKept(x: Input, extra: Input, y: Input)
    requires Joined(x, extra, y) && OnlyUnreachable(extra, x)
    ensures Signals(y) == Signals(x) + One(QuicAppears(x, extra))
  {
    TcpSignalsKept(x.tcp, extra.tcp, y.tcp);
    QuicOnlyKept(x.http, extra.http, y.http);
    OtherSignalsKept(x, extra, y);
    hide Disagreement, AddressSpecific, ResetSeen, TlsFailsAfterTcp, QuicOnly, FlakyElsewhere;
  }

  /** The filtering verdict moves exactly when the QUIC-only signal appears as the second or the fourth. */
  lemma FilteringMoves(x: Input, extra: Input, y: Input)
    requires Joined(x, extra, y) && OnlyUnreachable(extra, x)
    ensures FilteringVerdicts(y) != FilteringVerdicts(x)
       <==> QuicAppears(x, extra) && (Signals(x) == 1 || Signals(x) == 3)
  {
    hide Signals, QuicAppears;
    SignalsKept(x, extra, y);
  }

  /** For the whole engine: learning of addresses that cannot be reached locally never changes whether it
      reports total loss or partial connectivity, and changes whether it reports possible filtering exactly
      when the QUIC-only signal appears as the second one. */
  lemma UnreachableAddressesIrrelevant(x: Input, extra: Input, y: Input, now: nat, parseIp: string -> Option<Ip>)
    requires Joined(x, extra, y) && OnlyUnreachable(extra, x)
    ensures var a, b := Diagnosed(x, now, parseIp), Diagnosed(y, now, parseIp);
      && (Reports(a, Category.TotalConnectivityLoss) <==> Reports(b, Category.TotalConnectivityLoss))
      && (Reports(a, Category.PartialConnectivity) <==> Reports(b, Category.PartialConnectivity))
      && ((Reports(a, Category.PossibleNetworkFiltering) <==> Reports(b, Category.PossibleNetworkFiltering))
          <==> !(QuicAppears(x, extra) && Signals(x) == 1))
  {
    hide Diagnosed, ConnectivityVerdicts, Reports, Signals, QuicAppears;
    ReportedBy(x, now, parseIp);
    ReportedBy(y, now, parseIp);
    SignalsKept(x, extra, y);
    ConnectivityUntouched(x.tcp, extra.tcp, y.tcp);
  }

  // ----- a filtering verdict that appears -----

  /** A host whose one address resets connections, and which still answers over another protocol. */
  const RESETTING := Input(
    [],
    [TcpRow(SocketAddr(V4(1), 443), false, Some(Repeat.ConnectionReset))],
    [],
    [HttpRow(SocketAddr(V4(1), 443), Some("HTTP/2"), Some(200), None, Some(0))],
    [])

  /** An address without a route, on which HTTP/3 was tried too. */
  const UNROUTED_HTTP3 := Input(
    [],
    [TcpRow(SocketAddr(V6(1), 443), false, Some(Repeat.NetworkUnreachable))],
    [],
    [HttpRow(SocketAddr(V6(1), 443), Some("HTTP/3"), None, Some(Repeat.Timeout), None)],
    [])

  /** The exception is real: together they show two signals where there was one. */
  lemma FilteringCanAppear()
    ensures OnlyUnreachable(UNROUTED_HTTP3, RESETTING)
    ensures QuicAppears(RESETTING, UNROUTED_HTTP3) && Signals(RESETTING) == 1
  {
    assert RESETTING.tcp[0] in RESETTING.tcp && RESETTING.http[0] in RESETTING.http;
    assert UNROUTED_HTTP3.http[0] in UNROUTED_HTTP3.http;
  }
}
