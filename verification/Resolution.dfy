/** Turning lookups into the addresses to probe: gathered from every resolver, de-duplicated in order,
    and, for `diagnose`, scoped to a family and sorted. */
module Resolution {
  import opened Collections
  import opened Sorting
  import opened Net
  import Sweep

  /** One resolver's answer for one record type; `None` is a record that carries no address. */
  datatype Answer = Answer(failed: bool, records: seq<Option<Ip>>)

  /** The answers for one record type: system and custom resolvers, then DoH, then DoT. */
  datatype Round = Round(resolvers: seq<Answer>, doh: seq<Answer>, dot: seq<Answer>)

  function AddressOf(r: Option<Ip>): Option<Ip> { r }

  function AddressesOf(a: Answer): seq<Ip> {
    if a.failed then [] else Collected(a.records, AddressOf)
  }

  function Answers(rounds: seq<Round>): seq<Answer> {
    if rounds == [] then []
    else
      var last := rounds[|rounds| - 1];
      Answers(rounds[..|rounds| - 1]) + last.resolvers + last.doh + last.dot
  }

  /** Every address of every successful answer, in order, repetitions included. */
  function Gathered(answers: seq<Answer>): seq<Ip> {
    if answers == [] then []
    else Gathered(answers[..|answers| - 1]) + AddressesOf(answers[|answers| - 1])
  }

  method Extend(addrs: seq<Ip>, answers: seq<Answer>, ghost before: seq<Answer>) returns (r: seq<Ip>)
    requires addrs == Gathered(before)
    ensures r == Gathered(before + answers)
  {
    hide Gathered, Collected;
    r := addrs;
    assert before + answers[..0] == before;
    for i := 0 to |answers|
      invariant r == Gathered(before + answers[..i])
    {
      GatheredNext(before, answers, i);
      if !answers[i].failed {
        r := r + Collected(answers[i].records, AddressOf);
      }
    }
    assert answers[..|answers|] == answers;
  }

  lemma GatheredNext(before: seq<Answer>, answers: seq<Answer>, i: nat)
    requires i < |answers|
    ensures Gathered(before + answers[..i + 1]) == if answers[i].failed then Gathered(before + answers[..i])
      else Gathered(before + answers[..i]) + Collected(answers[i].records, AddressOf)
  {
    hide Gathered, Collected;
    GatheredSnoc(before + answers[..i], answers[i]);
    assert before + answers[..i + 1] == before + answers[..i] + [answers[i]];
  }

  lemma GatheredSnoc(answers: seq<Answer>, a: Answer)
    ensures Gathered(answers + [a]) == Gathered(answers) + AddressesOf(a)
    ensures Gathered(answers) + [] == Gathered(answers)
  {
  }

  method GatherRounds(rounds: seq<Round>) returns (addrs: seq<Ip>)
    ensures addrs == Gathered(Answers(rounds))
  {
    hide Gathered;
    NothingGathered();
    addrs := [];
    for i := 0 to |rounds|
      invariant addrs == Gathered(Answers(rounds[..i]))
    {
      var round := rounds[i];
      ghost var before := Answers(rounds[..i]);
      assert rounds[..i + 1][..i] == rounds[..i];
      addrs := Extend(addrs, round.resolvers, before);
      addrs := Extend(addrs, round.doh, before + round.resolvers);
      addrs := Extend(addrs, round.dot, before + round.resolvers + round.doh);
    }
    assert rounds[..|rounds|] == rounds;
  }

  lemma NothingGathered()
    ensures Gathered([]) == []
  {
  }

  /** `retain(|a| seen.insert(*a))`: the first occurrence of every address stays. */
  method RetainFirst(addrs: seq<Ip>) returns (kept: seq<Ip>)
    ensures kept == FirstOccurrences(addrs)
  {
    kept := [];
    var seen: set<Ip> := {};
    for i := 0 to |addrs|
      invariant kept == FirstOccurrences(addrs[..i])
      invariant seen == set a | a in addrs[..i]
    {
      hide FirstOccurrences;
      FirstOccurrencesSnoc(addrs[..i], addrs[i]);
      assert addrs[..i + 1] == addrs[..i] + [addrs[i]];
      if addrs[i] !in seen {
        kept := kept + [addrs[i]];
      }
      seen := seen + {addrs[i]};
    }
    assert addrs[..|addrs|] == addrs;
  }

  datatype Failure = Unresolved

  function Resolved(literal: Option<Ip>, rounds: seq<Round>): Result<seq<Ip>, Failure> {
    if literal.Some? then Ok([literal.value])
    else if Gathered(Answers(rounds)) == [] then Err(Unresolved)
    else Ok(FirstOccurrences(Gathered(Answers(rounds))))
  }

  /** `literal` is the host read as an address, if it is one. */
  method ResolveForTcpServers(literal: Option<Ip>, rounds: seq<Round>) returns (r: Result<seq<Ip>, Failure>)
    ensures r == Resolved(literal, rounds)
  {
    if literal.Some? {
      return Ok([literal.value]);
    }
    var addrs := GatherRounds(rounds);
    if addrs == [] {
      return Err(Unresolved);
    }
    addrs := RetainFirst(addrs);
    r := Ok(addrs);
  }

  /** The address pool of one `diagnose` target; empty when there is nothing to probe. */
  method DiagnosePool(literal: Option<Ip>, rounds: seq<Round>, family: Sweep.FamilyScope) returns (addresses: seq<Ip>)
    ensures addresses
         == Sweep.Addresses(if literal.Some? then [literal.value] else Gathered(Answers(rounds)), family)
  {
    hide SortByKey;
    if literal.Some? {
      addresses := [literal.value];
      assert FirstOccurrences(addresses) == addresses;
    } else {
      addresses := GatherRounds(rounds);
      addresses := RetainFirst(addresses);
    }
    addresses := Filter(addresses, Sweep.Kept(family));
    if addresses == [] {
      NothingToSort();
      return;
    }
    addresses := SortByKey(addresses, IpRank);
  }

  lemma NothingToSort()
    ensures SortByKey([], IpRank) == []
  {
  }

  lemma {:induction false} GatheredElements(answers: seq<Answer>)
    ensures forall ip :: ip in Gathered(answers) <==>
      exists a :: a in answers && !a.failed && Some(ip) in a.records
  {
    if answers != [] {
      var init, last := answers[..|answers| - 1], answers[|answers| - 1];
      assert answers == init + [last];
      GatheredElements(init);
      CollectedAddresses(last.records);
    }
  }

  lemma {:induction false} CollectedAddresses(records: seq<Option<Ip>>)
    ensures forall ip :: ip in Collected(records, AddressOf) <==> Some(ip) in records
  {
    if records != [] {
      CollectedAddresses(records[1..]);
      assert forall r :: r in records <==> r == records[0] || r in records[1..];
    }
  }

  /** The answer is one of the round's, from whichever kind of resolver. */
  predicate AnsweredIn(t: Round, a: Answer) { a in t.resolvers || a in t.doh || a in t.dot }

  lemma {:induction false} AnswersElements(rounds: seq<Round>)
    ensures forall a :: a in Answers(rounds) <==> exists t :: t in rounds && AnsweredIn(t, a)
  {
    if rounds != [] {
      var init, last := rounds[..|rounds| - 1], rounds[|rounds| - 1];
      AnswersElements(init);
      assert forall a :: a in Answers(rounds) <==> a in Answers(init) || AnsweredIn(last, a);
      assert rounds == init + [last];
      assert forall t :: t in rounds <==> t in init || t == last;
    }
  }

  /** A resolved host has each address once, and exactly those some successful answer lists; it fails to
      resolve exactly when no successful answer lists any. */
  lemma ResolvedExactly(rounds: seq<Round>)
    ensures var r := Resolved(None, rounds);
      && (r.Ok? ==> Distinct(r.value) && r.value != []
                    && forall ip :: ip in r.value <==>
                         exists t, a :: t in rounds && AnsweredIn(t, a) && !a.failed && Some(ip) in a.records)
      && (r.Err? <==> forall t, a, ip :: t in rounds && AnsweredIn(t, a) && !a.failed ==> Some(ip) !in a.records)
  {
    hide Answers, AnsweredIn, Gathered;
    var all := Gathered(Answers(rounds));
    GatheredElements(Answers(rounds));
    AnswersElements(rounds);
    assert all != [] ==> all[0] in all && all[0] in FirstOccurrences(all);
  }

  /** All answers of one round: the resolvers, then DoH, then DoT. */
  function Together(r: Round): seq<Answer> { r.resolvers + r.doh + r.dot }

  lemma {:induction false} AnswersTogether(rounds: seq<Round>)
    ensures Answers(rounds) == Flatten(Map(rounds, Together))
  {
    if rounds != [] {
      var n := |rounds| - 1;
      AnswersTogether(rounds[..n]);
      FlattenNext(Map(rounds, Together), n);
      assert Map(rounds, Together)[..n] == Map(rounds[..n], Together);
      assert Map(rounds, Together)[..n + 1] == Map(rounds, Together);
      assert Answers(rounds[..n]) + Together(rounds[n]) == Answers(rounds);
    }
  }

  /** The addresses an answer gives, in order: none when it failed. */
  function Listed(a: Answer): seq<Ip> {
    if a.failed then [] else Collected(a.records, r => r)
  }

  lemma {:induction false} CollectedAsIs(records: seq<Option<Ip>>)
    ensures Collected(records, AddressOf) == Collected(records, r => r)
  {
    if records != [] {
      CollectedAsIs(records[1..]);
    }
  }

  lemma {:induction false} GatheredListed(answers: seq<Answer>)
    ensures Gathered(answers) == Flatten(Map(answers, Listed))
  {
    if answers != [] {
      var n := |answers| - 1;
      GatheredListed(answers[..n]);
      FlattenNext(Map(answers, Listed), n);
      assert Map(answers, Listed)[..n] == Map(answers[..n], Listed);
      assert Map(answers, Listed)[..n + 1] == Map(answers, Listed);
      CollectedAsIs(answers[n].records);
    }
  }

  /** The resolved addresses in order: record type by record type, and within each the resolvers, DoH and DoT;
      the addresses of every answer that did not fail, each where it first occurs. A literal stands for
      itself, whatever the resolvers say. */
  lemma ResolvedInOrder(literal: Option<Ip>, rounds: seq<Round>)
    ensures literal.Some? ==> Resolved(literal, rounds) == Ok([literal.value])
    ensures literal.None? && Resolved(literal, rounds).Ok? ==>
      Resolved(literal, rounds).value == FirstOccurrences(Flatten(Map(Flatten(Map(rounds, Together)), Listed)))
  {
    hide Answers, Gathered, Flatten, FirstOccurrences;
    AnswersTogether(rounds);
    GatheredListed(Answers(rounds));
  }
}
