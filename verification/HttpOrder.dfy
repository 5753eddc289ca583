/** The cross-address comparison keeps the last row for each protocol and destination, so it can depend
    on the order of the rows. This module says exactly when it does not. */
module HttpOrder {
  import opened Collections
  import opened Net
  import opened Observations
  import opened HttpConsistency

  predicate OnlyUp(http: seq<HttpRow>, u: HttpRow)
    requires Completed(u)
  {
    forall h :: h in http && For(h, u.protocol.value, u.destination) ==> Up(h)
  }

  predicate OnlyDown(http: seq<HttpRow>, u: HttpRow)
    requires Completed(u)
  {
    forall h :: h in http && For(h, u.protocol.value, u.destination) ==> !Up(h)
  }

  /** Within one protocol and family, some address only ever gave content and another never did. */
  predicate AlwaysSplit(http: seq<HttpRow>) {
    exists u, v :: u in http && v in http && Completed(u) && Completed(v) && GroupOf(u) == GroupOf(v)
                   && OnlyUp(http, u) && OnlyDown(http, v)
  }

  /** Within one protocol and family, content from one address means only content from the others. */
  predicate NeverSplit(http: seq<HttpRow>) {
    forall u, v :: (u in http && v in http && Completed(u) && Completed(v) && GroupOf(u) == GroupOf(v)
                    && u.destination != v.destination && Up(u)) ==> Up(v)
  }

  predicate Settled(http: seq<HttpRow>) { AlwaysSplit(http) || NeverSplit(http) }

  lemma AlwaysCrosses(http: seq<HttpRow>)
    requires AlwaysSplit(http)
    ensures CrossAddress(http)
  {
  }

  lemma CellHasLast(http: seq<HttpRow>, u: HttpRow)
    requires u in http && Completed(u)
    ensures LastStatus(http, u.protocol.value, u.destination).Some?
  {
  }

  lemma NeverCrosses(http: seq<HttpRow>)
    requires NeverSplit(http)
    ensures !CrossAddress(http)
  {
    hide LastUp;
    forall u, v | u in http && v in http && Completed(u) && Completed(v) && GroupOf(u) == GroupOf(v) && LastUp(http, u)
      ensures LastUp(http, v)
    {
      LastUpSpreads(http, u, v);
    }
  }

  lemma LastUpSpreads(http: seq<HttpRow>, u: HttpRow, v: HttpRow)
    requires NeverSplit(http) && u in http && v in http && Completed(u) && Completed(v) && GroupOf(u) == GroupOf(v)
    requires LastUp(http, u)
    ensures LastUp(http, v)
  {
    hide LastStatus;
    CellHasLast(http, v);
    var a := LastRow(http, u.protocol.value, u.destination);
    var b := LastRow(http, v.protocol.value, v.destination);
    if u.destination != v.destination {
      assert a.destination != b.destination && GroupOf(a) == GroupOf(b) && Up(a);
    }
  }

  lemma SettledPermutes(a: seq<HttpRow>, b: seq<HttpRow>)
    requires multiset(a) == multiset(b)
    ensures AlwaysSplit(a) ==> AlwaysSplit(b)
    ensures NeverSplit(a) ==> NeverSplit(b)
  {
    PermutationElements(a, b);
    if AlwaysSplit(a) {
      var u, v :| u in a && v in a && Completed(u) && Completed(v) && GroupOf(u) == GroupOf(v)
                  && OnlyUp(a, u) && OnlyDown(a, v);
      assert u in b && v in b && OnlyUp(b, u) && OnlyDown(b, v);
    }
  }

  // ----- choosing which rows come last -----

  function Not(p: HttpRow -> bool): HttpRow -> bool { (h: HttpRow) => !p(h) }

  function PutLast(http: seq<HttpRow>, preferred: HttpRow -> bool): seq<HttpRow> {
    Filter(http, Not(preferred)) + Filter(http, preferred)
  }

  lemma PutLastPermutes(http: seq<HttpRow>, preferred: HttpRow -> bool)
    ensures multiset(PutLast(http, preferred)) == multiset(http)
  {
    if http != [] {
      PutLastPermutes(http[1..], preferred);
      assert http == [http[0]] + http[1..];
    }
  }

  lemma LastStatusAppend(a: seq<HttpRow>, b: seq<HttpRow>, protocol: string, destination: SocketAddr)
    ensures LastStatus(a + b, protocol, destination) ==
      if LastStatus(b, protocol, destination).Some? then LastStatus(b, protocol, destination)
      else LastStatus(a, protocol, destination)
  {
    if b == [] {
      assert a + b == a;
    } else {
      var init, last := b[..|b| - 1], b[|b| - 1];
      assert b == init + [last] && a + b == (a + init) + [last];
      LastStatusAppend(a, init, protocol, destination);
      LastStatusSnoc(a + init, last, protocol, destination);
    }
  }

  /** A cell with a preferred row ends up with the status of one. */
  lemma PreferredWins(http: seq<HttpRow>, preferred: HttpRow -> bool, h: HttpRow) returns (w: HttpRow)
    requires h in http && Completed(h) && preferred(h)
    ensures w in http && preferred(w) && For(w, h.protocol.value, h.destination)
    ensures LastStatus(PutLast(http, preferred), h.protocol.value, h.destination) == w.status
  {
    var chosen := Filter(http, preferred);
    CellHasLast(chosen, h);
    w := LastRow(chosen, h.protocol.value, h.destination);
    LastStatusAppend(Filter(http, Not(preferred)), chosen, h.protocol.value, h.destination);
  }

  /** Every address of the group gave content at least once. */
  predicate Uppable(http: seq<HttpRow>, group: (string, bool)) {
    forall u :: u in http && Completed(u) && GroupOf(u) == group ==> !OnlyDown(http, u)
  }

  function Calm(http: seq<HttpRow>): HttpRow -> bool {
    (h: HttpRow) => Completed(h) && Up(h) == Uppable(http, GroupOf(h))
  }

  /** Unless the rows are always split, some order of them is not. */
  lemma CalmDoesNotCross(http: seq<HttpRow>)
    requires !AlwaysSplit(http)
    ensures !CrossAddress(PutLast(http, Calm(http)))
  {
    var rows := PutLast(http, Calm(http));
    PutLastPermutes(http, Calm(http));
    PermutationElements(rows, http);
    forall u, v | u in rows && v in rows && Completed(u) && Completed(v) && GroupOf(u) == GroupOf(v)
      ensures LastUp(rows, u) ==> LastUp(rows, v)
    {
      CalmCell(http, u);
      CalmCell(http, v);
    }
  }

  /** In the calm order every cell of a group ends the same way: with content if every address of the
      group can, and without it otherwise. */
  lemma CalmCell(http: seq<HttpRow>, u: HttpRow)
    requires !AlwaysSplit(http) && u in http && Completed(u)
    ensures LastUp(PutLast(http, Calm(http)), u) == Uppable(http, GroupOf(u))
  {
    var group := GroupOf(u);
    var wanted := Uppable(http, group);
    if !wanted {
      var d :| d in http && Completed(d) && GroupOf(d) == group && OnlyDown(http, d);
      assert !OnlyUp(http, u);
    }
    var h :| h in http && For(h, u.protocol.value, u.destination) && Up(h) == wanted;
    assert GroupOf(h) == group && Calm(http)(h);
    var w := PreferredWins(http, Calm(http), h);
    assert GroupOf(w) == group;
  }

  function Keen(u: HttpRow, v: HttpRow): HttpRow -> bool
    requires Completed(u) && Completed(v)
  {
    (h: HttpRow) =>
      (For(h, u.protocol.value, u.destination) && Up(h)) || (For(h, v.protocol.value, v.destination) && !Up(h))
  }

  /** Content from one address and none from another can always be made to come last. */
  lemma KeenCrosses(http: seq<HttpRow>, u: HttpRow, v: HttpRow)
    requires u in http && v in http && Completed(u) && Completed(v) && GroupOf(u) == GroupOf(v)
    requires u.destination != v.destination && Up(u) && !Up(v)
    ensures CrossAddress(PutLast(http, Keen(u, v)))
  {
    var rows := PutLast(http, Keen(u, v));
    PutLastPermutes(http, Keen(u, v));
    PermutationElements(rows, http);
    var a := PreferredWins(http, Keen(u, v), u);
    var b := PreferredWins(http, Keen(u, v), v);
    assert LastUp(rows, u) && !LastUp(rows, v);
  }

  /** Rows that are not settled can be ordered either way. */
  lemma Unsettled(http: seq<HttpRow>) returns (crossed: seq<HttpRow>, calm: seq<HttpRow>)
    requires !Settled(http)
    ensures multiset(crossed) == multiset(http) == multiset(calm)
    ensures CrossAddress(crossed) && !CrossAddress(calm)
  {
    var u, v :| u in http && v in http && Completed(u) && Completed(v) && GroupOf(u) == GroupOf(v)
                && u.destination != v.destination && Up(u) && !Up(v);
    crossed, calm := PutLast(http, Keen(u, v)), PutLast(http, Calm(http));
    KeenCrosses(http, u, v);
    CalmDoesNotCross(http);
    PutLastPermutes(http, Keen(u, v));
    PutLastPermutes(http, Calm(http));
  }

  function Status(address: Bits32, status: nat): HttpRow {
    HttpRow(SocketAddr(V4(address), 443), Some("HTTP/2"), Some(status), None, Some(0))
  }

  /** Two responses from one address and one from another, all over one protocol. */
  const FLICKERING := [Status(1, 200), Status(1, 500), Status(2, 200)]

  /** Rows like these are not settled: the order of the first two decides. */
  lemma UnsettledExample()
    ensures !Settled(FLICKERING)
    ensures !CrossAddress([FLICKERING[1], FLICKERING[0], FLICKERING[2]]) && CrossAddress(FLICKERING)
  {
    hide CrossAddress;
    var a, b, c := FLICKERING[0], FLICKERING[1], FLICKERING[2];
    assert a in FLICKERING && b in FLICKERING && c in FLICKERING;
    assert !AlwaysSplit(FLICKERING) by {
      assert For(a, "HTTP/2", a.destination) && For(c, "HTTP/2", c.destination) && Up(a) && Up(c);
    }
    assert GroupOf(c) == GroupOf(b) && Up(c) && !Up(b);
    FlickeringCrosses();
  }

  lemma FlickeringCrosses()
    ensures !CrossAddress([FLICKERING[1], FLICKERING[0], FLICKERING[2]]) && CrossAddress(FLICKERING)
  {
    var a, b, c := FLICKERING[0], FLICKERING[1], FLICKERING[2];
    LastOfThree(a, b, c);
    LastOfThree(b, a, c);
    assert a in FLICKERING && b in FLICKERING && c in FLICKERING;
    hide LastStatus;
    assert LastUp(FLICKERING, c) && !LastUp(FLICKERING, a);
  }

  lemma LastOfThree(x: HttpRow, y: HttpRow, z: HttpRow)
    requires Completed(y) && Completed(z) && For(x, y.protocol.value, y.destination)
    requires !For(z, y.protocol.value, y.destination)
    ensures LastStatus([x, y, z], y.protocol.value, y.destination) == y.status
    ensures LastStatus([x, y, z], z.protocol.value, z.destination) == z.status
  {
    assert [x, y, z][..2] == [x, y];
  }

  /** One completed row for each protocol and destination settles the matter. */
  lemma OneRowEachSettles(http: seq<HttpRow>)
    requires forall i, j :: 0 <= i < j < |http| && Completed(http[i]) && Completed(http[j]) ==>
               http[i].protocol != http[j].protocol || http[i].destination != http[j].destination
    ensures Settled(http)
  {
  }
}
