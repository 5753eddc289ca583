/** Responses that differ across protocols, address families or addresses. */
module HttpConsistency {
  import opened Collections
  import opened Net
  import opened Observations
  import opened LayerRules

  /** A response that can be compared: no failure, a status and a known protocol. */
  predicate Completed(h: HttpRow) { h.failure.None? && h.status.Some? && h.protocol.Some? }

  predicate Up(h: HttpRow) { h.status.Some? && ContentStatus(h.status.value) }

  const DIFFERS := Verdict(Severity.Low, Category.Http, Confidence.Medium)

  function When(b: bool): seq<Verdict> { if b then [DIFFERS] else [] }

  // ----- across protocols -----

  /** On one destination, one protocol got content and another did not. */
  predicate CrossProtocol(http: seq<HttpRow>) {
    exists u, v :: u in http && v in http && Completed(u) && Completed(v) && u.destination == v.destination
                   && u.protocol != v.protocol && Up(u) && !Up(v)
  }

  ghost predicate PerDestination(m: map<SocketAddr, seq<HttpRow>>, http: seq<HttpRow>) {
    && (forall h :: h in http && Completed(h) ==> h.destination in m)
    && (forall d, h :: d in m && h in m[d] <==> d in m && h in http && Completed(h) && h.destination == d)
  }

  lemma PerDestinationStep(
      m: map<SocketAddr, seq<HttpRow>>, n: map<SocketAddr, seq<HttpRow>>, http: seq<HttpRow>, h: HttpRow)
    requires PerDestination(m, http)
    requires n == if Completed(h) then
                    m[h.destination := (if h.destination in m then m[h.destination] else []) + [h]]
                  else m
    ensures PerDestination(n, http + [h])
  {
  }

  /** The code's test on the rows of one destination. */
  predicate Diverges(rows: seq<HttpRow>) {
    |set h | h in rows :: h.protocol| >= 2 && (exists h :: h in rows && Up(h)) && (exists h :: h in rows && !Up(h))
  }

  lemma Several<T>(s: set<T>, a: T, b: T)
    requires a in s && b in s && a != b
    ensures |s| >= 2
  {
    assert s == (s - {a}) + {a};
    assert b in s - {a};
  }

  lemma TwoOf<T>(s: set<T>, a: T) returns (b: T)
    requires |s| >= 2 && a in s
    ensures b in s && b != a
  {
    var rest := s - {a};
    assert s == rest + {a};
    b :| b in rest;
  }

  lemma DivergesMeans(rows: seq<HttpRow>)
    ensures Diverges(rows) <==> exists u, v :: u in rows && v in rows && u.protocol != v.protocol && Up(u) && !Up(v)
  {
    var protocols := set h | h in rows :: h.protocol;
    if u, v :| u in rows && v in rows && u.protocol != v.protocol && Up(u) && !Up(v) {
      Several(protocols, u.protocol, v.protocol);
    }
    if Diverges(rows) {
      var u, v :| u in rows && Up(u) && v in rows && !Up(v);
      if u.protocol == v.protocol {
        var other := TwoOf(protocols, u.protocol);
        var w :| w in rows && w.protocol == other;
        assert Up(w) ==> w.protocol != v.protocol;
        assert !Up(w) ==> u.protocol != w.protocol;
      }
    }
  }

  method ProtocolsDiverge(http: seq<HttpRow>) returns (b: bool)
    ensures b == CrossProtocol(http)
  {
    hide Completed, Diverges;
    var perDest: map<SocketAddr, seq<HttpRow>> := map[];
    for i := 0 to |http|
      invariant PerDestination(perDest, http[..i])
    {
      var h := http[i];
      ghost var before := perDest;
      assert http[..i + 1] == http[..i] + [h];
      if Completed(h) {
        var rows := if h.destination in perDest then perDest[h.destination] else [];
        perDest := perDest[h.destination := rows + [h]];
      }
      PerDestinationStep(before, perDest, http[..i], h);
    }
    assert http[..|http|] == http;
    b := exists d :: d in perDest && Diverges(perDest[d]);
    forall d | d in perDest ensures Diverges(perDest[d]) <==>
        exists u, v :: u in perDest[d] && v in perDest[d] && u.protocol != v.protocol && Up(u) && !Up(v)
    {
      DivergesMeans(perDest[d]);
    }
    hide Up;
    if CrossProtocol(http) {
      var u, v :| u in http && v in http && Completed(u) && Completed(v) && u.destination == v.destination
                  && u.protocol != v.protocol && Up(u) && !Up(v);
      assert u in perDest[u.destination] && v in perDest[u.destination];
    }
  }

  // ----- across families -----

  predicate FamilyAnswer(h: HttpRow, ipv4: bool) {
    h.failure.None? && h.status.Some? && h.destination.ip.V4? == ipv4
  }

  predicate FamilyAnswers(http: seq<HttpRow>, ipv4: bool) { exists h :: h in http && FamilyAnswer(h, ipv4) }

  predicate FamilyContent(http: seq<HttpRow>, ipv4: bool) { exists h :: h in http && FamilyAnswer(h, ipv4) && Up(h) }

  /** Both families answered, and exactly one of them ever with content. */
  predicate CrossFamily(http: seq<HttpRow>) {
    && FamilyAnswers(http, true) && FamilyAnswers(http, false)
    && FamilyContent(http, true) != FamilyContent(http, false)
  }

  function StatusOfFamily(ipv4: bool): HttpRow -> Option<nat> {
    (h: HttpRow) => if FamilyAnswer(h, ipv4) then h.status else None
  }

  lemma {:induction false} CollectedElements<T(!new), U(!new)>(s: seq<T>, f: T -> Option<U>)
    ensures forall y :: y in Collected(s, f) <==> exists x :: x in s && f(x) == Some(y)
  {
    if s != [] {
      CollectedElements(s[1..], f);
      assert forall x :: x in s <==> x == s[0] || x in s[1..];
    }
  }

  method FamiliesDiverge(http: seq<HttpRow>) returns (b: bool)
    ensures b == CrossFamily(http)
  {
    var v4, v6 := Collected(http, StatusOfFamily(true)), Collected(http, StatusOfFamily(false));
    FamilyStatuses(http, true);
    FamilyStatuses(http, false);
    var content4, content6 := exists s :: s in v4 && ContentStatus(s), exists s :: s in v6 && ContentStatus(s);
    b := v4 != [] && v6 != [] && content4 != content6;
  }

  lemma FamilyStatuses(http: seq<HttpRow>, ipv4: bool)
    ensures var s := Collected(http, StatusOfFamily(ipv4));
      && (s != [] <==> FamilyAnswers(http, ipv4))
      && ((exists c :: c in s && ContentStatus(c)) <==> FamilyContent(http, ipv4))
  {
    var f := StatusOfFamily(ipv4);
    var s := Collected(http, f);
    CollectedElements(http, f);
    assert s != [] ==> s[0] in s;
    if FamilyAnswers(http, ipv4) {
      var h :| h in http && FamilyAnswer(h, ipv4);
      assert f(h) == Some(h.status.value) && h.status.value in s;
    }
    if FamilyContent(http, ipv4) {
      var h :| h in http && FamilyAnswer(h, ipv4) && Up(h);
      assert f(h) == Some(h.status.value) && h.status.value in s;
    }
    if c :| c in s && ContentStatus(c) {
      var h :| h in http && f(h) == Some(c);
      assert FamilyAnswer(h, ipv4) && Up(h);
    }
  }

  // ----- across addresses -----

  /** A protocol and an address family. */
  function GroupOf(h: HttpRow): (string, bool)
    requires Completed(h)
  {
    (h.protocol.value, h.destination.ip.V4?)
  }

  predicate For(h: HttpRow, protocol: string, destination: SocketAddr) {
    Completed(h) && h.protocol.value == protocol && h.destination == destination
  }

  /** The status the map ends up with: of the last completed row for the protocol and destination. */
  function LastStatus(http: seq<HttpRow>, protocol: string, destination: SocketAddr): (r: Option<nat>)
    ensures r.Some? <==> exists h :: h in http && For(h, protocol, destination)
    ensures r.Some? ==> exists h :: h in http && For(h, protocol, destination) && h.status == r
  {
    if http == [] then None
    else
      var init, last := http[..|http| - 1], http[|http| - 1];
      assert http == init + [last];
      if For(last, protocol, destination) then last.status else LastStatus(init, protocol, destination)
  }

  lemma LastRow(http: seq<HttpRow>, protocol: string, destination: SocketAddr) returns (h: HttpRow)
    requires LastStatus(http, protocol, destination).Some?
    ensures h in http && For(h, protocol, destination) && h.status == LastStatus(http, protocol, destination)
  {
    h :| h in http && For(h, protocol, destination) && h.status == LastStatus(http, protocol, destination);
  }

  predicate LastUp(http: seq<HttpRow>, h: HttpRow)
    requires Completed(h)
  {
    var s := LastStatus(http, h.protocol.value, h.destination);
    s.Some? && ContentStatus(s.value)
  }

  /** Within one protocol and family, one address ended with content and another without. */
  predicate CrossAddress(http: seq<HttpRow>) {
    exists u, v :: u in http && v in http && Completed(u) && Completed(v) && GroupOf(u) == GroupOf(v)
                   && LastUp(http, u) && !LastUp(http, v)
  }

  ghost predicate ByGroup(m: map<(string, bool), map<SocketAddr, nat>>, http: seq<HttpRow>) {
    && (forall h :: h in http && Completed(h) ==> GroupOf(h) in m && h.destination in m[GroupOf(h)])
    && (forall g, d :: g in m && d in m[g] ==>
          d.ip.V4? == g.1 && LastStatus(http, g.0, d) == Some(m[g][d]))
  }

  lemma LastStatusSnoc(http: seq<HttpRow>, h: HttpRow, protocol: string, destination: SocketAddr)
    ensures LastStatus(http + [h], protocol, destination)
         == if For(h, protocol, destination) then h.status else LastStatus(http, protocol, destination)
  {
  }

  lemma ByGroupStep(
      m: map<(string, bool), map<SocketAddr, nat>>, n: map<(string, bool), map<SocketAddr, nat>>,
      http: seq<HttpRow>, h: HttpRow)
    requires ByGroup(m, http)
    requires n == if Completed(h) then
                    m[GroupOf(h) := (if GroupOf(h) in m then m[GroupOf(h)] else map[])[h.destination := h.status.value]]
                  else m
    ensures ByGroup(n, http + [h])
  {
    hide LastStatus;
    assert forall g :: g in http + [h] <==> g in http || g == h;
    forall g, d | g in n && d in n[g]
      ensures d.ip.V4? == g.1 && LastStatus(http + [h], g.0, d) == Some(n[g][d])
    {
      LastStatusSnoc(http, h, g.0, d);
    }
  }

  predicate Split(byAddress: map<SocketAddr, nat>) {
    && |byAddress| >= 2
    && (exists d :: d in byAddress && ContentStatus(byAddress[d]))
    && (exists d :: d in byAddress && !ContentStatus(byAddress[d]))
  }

  method AddressesDiverge(http: seq<HttpRow>) returns (b: bool)
    ensures b == CrossAddress(http)
  {
    hide LastStatus, ByGroup;
    var perGroup: map<(string, bool), map<SocketAddr, nat>> := map[];
    NoGroups();
    for i := 0 to |http|
      invariant ByGroup(perGroup, http[..i])
    {
      var h := http[i];
      ghost var before := perGroup;
      assert http[..i + 1] == http[..i] + [h];
      if Completed(h) {
        var g := GroupOf(h);
        var byAddress := if g in perGroup then perGroup[g] else map[];
        perGroup := perGroup[g := byAddress[h.destination := h.status.value]];
      }
      ByGroupStep(before, perGroup, http[..i], h);
    }
    assert http[..|http|] == http;
    b := exists g :: g in perGroup && Split(perGroup[g]);
    SplitMeans(http, perGroup);
  }

  lemma NoGroups()
    ensures ByGroup(map[], [])
  {
  }

  lemma SplitMeans(http: seq<HttpRow>, m: map<(string, bool), map<SocketAddr, nat>>)
    requires ByGroup(m, http)
    ensures (exists g :: g in m && Split(m[g])) <==> CrossAddress(http)
  {
    hide LastStatus;
    forall g | g in m && Split(m[g]) ensures CrossAddress(http) {
      SplitCrosses(http, m, g);
    }
    if CrossAddress(http) {
      var u, v :| u in http && v in http && Completed(u) && Completed(v) && GroupOf(u) == GroupOf(v)
                  && LastUp(http, u) && !LastUp(http, v);
      var g := GroupOf(u);
      assert u.destination in m[g] && v.destination in m[g];
      Several(m[g].Keys, u.destination, v.destination);
      assert Split(m[g]);
    }
  }

  lemma SplitCrosses(http: seq<HttpRow>, m: map<(string, bool), map<SocketAddr, nat>>, g: (string, bool))
    requires ByGroup(m, http) && g in m && Split(m[g])
    ensures CrossAddress(http)
  {
    hide LastStatus;
    var d, e :| d in m[g] && ContentStatus(m[g][d]) && e in m[g] && !ContentStatus(m[g][e]);
    assert d.ip.V4? == g.1 && e.ip.V4? == g.1;
    assert LastStatus(http, g.0, d) == Some(m[g][d]) && LastStatus(http, g.0, e) == Some(m[g][e]);
    var u := LastRow(http, g.0, d);
    var v := LastRow(http, g.0, e);
    assert LastUp(http, u) && !LastUp(http, v) && GroupOf(u) == GroupOf(v);
  }

  // ----- the rule -----

  function ConsistencyVerdicts(http: seq<HttpRow>): seq<Verdict> {
    When(CrossProtocol(http)) + When(CrossFamily(http)) + When(CrossAddress(http))
  }

  method HttpConsistencyRules(x: Input, out: seq<Verdict>) returns (r: seq<Verdict>)
    ensures r == out + ConsistencyVerdicts(x.http)
  {
    var protocols := ProtocolsDiverge(x.http);
    var families := FamiliesDiverge(x.http);
    r := out;
    if protocols {
      r := r + [DIFFERS];
    }
    if families {
      r := r + [DIFFERS];
    }
    var addresses := AddressesDiverge(x.http);
    if addresses {
      r := r + [DIFFERS];
    }
  }
}
