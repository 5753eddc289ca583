/** Counting with a hash map whose iteration order is arbitrary, then sorting the entries: most frequent
    first, ties in the fixed order of the keys. */
module Tally {
  import opened Collections
  import opened Sorting

  datatype Count<K> = Count(key: K, count: nat)

  /** How often each key of `order` occurs among `keys`. */
  function CountsOf<K(!new,==)>(order: seq<K>, keys: seq<K>): (r: seq<Count<K>>)
    ensures |r| == |order|
    ensures forall i :: 0 <= i < |order| ==> r[i] == Count(order[i], multiset(keys)[order[i]])
  {
    seq(|order|, i requires 0 <= i < |order| => Count(order[i], multiset(keys)[order[i]]))
  }

  function TallyOf<K(!new,==)>(keys: seq<K>, rank: Count<K> -> int): seq<Count<K>> {
    SortByKey(CountsOf(FirstOccurrences(keys), keys), rank)
  }

  function NumberOf<K(!new)>(c: Count<K>): nat { c.count }

  function TotalCount<K(!new)>(counts: seq<Count<K>>): nat {
    Sum(Map(counts, NumberOf))
  }

  ghost predicate Separates<K(!new)>(rank: Count<K> -> int) {
    forall c, d :: rank(c) == rank(d) ==> c == d
  }

  /** The map holds exactly the counts of `keys`. */
  ghost predicate Holds<K(!new)>(counts: map<K, nat>, keys: seq<K>) {
    && (forall k :: k in counts <==> k in keys)
    && (forall k :: k in counts ==> counts[k] == multiset(keys)[k])
  }

  /** `*entry(k).or_default() += 1`. */
  method Increment<K(!new,==)>(counts: map<K, nat>, k: K, ghost keys: seq<K>) returns (r: map<K, nat>)
    requires Holds(counts, keys)
    ensures Holds(r, keys + [k])
  {
    r := counts[k := (if k in counts then counts[k] else 0) + 1];
    assert multiset(keys + [k]) == multiset(keys)[k := multiset(keys)[k] + 1];
  }

  /** The map's entries, in whatever order the map yields them. */
  method Entries<K(!new,==)>(counts: map<K, nat>) returns (r: seq<Count<K>>)
    ensures Distinct(r)
    ensures forall c :: c in r <==> c.key in counts && c.count == counts[c.key]
  {
    r := [];
    var rest := counts.Keys;
    while rest != {}
      invariant rest <= counts.Keys
      invariant Distinct(r)
      invariant forall c :: c in r <==> c.key in counts && c.key !in rest && c.count == counts[c.key]
      decreases |rest|
    {
      var k :| k in rest;
      r := r + [Count(k, counts[k])];
      rest := rest - {k};
    }
  }

  lemma CountsDistinct<K(!new)>(order: seq<K>, keys: seq<K>)
    requires Distinct(order)
    ensures Distinct(CountsOf(order, keys))
    ensures forall c :: c in CountsOf(order, keys) <==> c.key in order && c.count == multiset(keys)[c.key]
  {
  }

  /** Whatever order the hash map yields, the sorted list is the same. */
  method SortedEntries<K(!new,==)>(counts: map<K, nat>, rank: Count<K> -> int, ghost keys: seq<K>)
    returns (r: seq<Count<K>>)
    requires Holds(counts, keys) && Separates(rank)
    ensures r == TallyOf(keys, rank)
  {
    var entries := Entries(counts);
    ghost var order := FirstOccurrences(keys);
    CountsDistinct(order, keys);
    DistinctSameElements(entries, CountsOf(order, keys));
    SortByKeyUpToOrder(entries, CountsOf(order, keys), rank);
    r := SortByKey(entries, rank);
  }

  // ----- properties of the sorted list -----

  /** Every key that occurs is listed once, with its exact count, in the order of `rank`. */
  lemma TallyExact<K(!new)>(keys: seq<K>, rank: Count<K> -> int)
    requires Separates(rank)
    ensures var t := TallyOf(keys, rank);
      && Distinct(t) && SortedByKey(t, rank)
      && forall c :: c in t <==> c.key in keys && c.count == multiset(keys)[c.key]
  {
    hide SortByKey;
    var order := FirstOccurrences(keys);
    var counts := CountsOf(order, keys);
    CountsDistinct(order, keys);
    SortByKeyStable(counts, rank);
    PermutationElements(TallyOf(keys, rank), counts);
    PermutationDistinct(TallyOf(keys, rank), counts);
  }

  /** The list depends only on how often each key occurred. */
  lemma TallyPermutation<K(!new)>(a: seq<K>, b: seq<K>, rank: Count<K> -> int)
    requires multiset(a) == multiset(b) && Separates(rank)
    ensures TallyOf(a, rank) == TallyOf(b, rank)
  {
    hide SortByKey;
    PermutationElements(a, b);
    var one, two := FirstOccurrences(a), FirstOccurrences(b);
    CountsDistinct(one, a);
    CountsDistinct(two, b);
    DistinctSameElements(CountsOf(one, a), CountsOf(two, b));
    SortByKeyUpToOrder(CountsOf(one, a), CountsOf(two, b), rank);
  }

  function Occurrences<K(!new,==)>(order: seq<K>, keys: seq<K>): nat {
    if order == [] then 0 else multiset(keys)[order[0]] + Occurrences(order[1..], keys)
  }

  lemma {:induction false} OccurrencesNone<K(!new)>(order: seq<K>)
    ensures Occurrences(order, []) == 0
  {
    if order != [] {
      OccurrencesNone(order[1..]);
    }
  }

  lemma OccurrencesOther<K(!new)>(order: seq<K>, keys: seq<K>, k: K)
    requires k !in order
    ensures Occurrences(order, keys + [k]) == Occurrences(order, keys)
  {
    if order != [] {
      assert order[0] in order && order[0] != k;
      assert multiset(keys + [k])[order[0]] == multiset(keys)[order[0]];
      OccurrencesOther(order[1..], keys, k);
    }
  }

  lemma OccurrencesOneMore<K(!new)>(order: seq<K>, keys: seq<K>, k: K)
    requires Distinct(order) && k in order
    ensures Occurrences(order, keys + [k]) == Occurrences(order, keys) + 1
  {
    if order[0] == k {
      assert multiset(keys + [k])[k] == multiset(keys)[k] + 1;
      OccurrencesOther(order[1..], keys, k);
    } else {
      assert multiset(keys + [k])[order[0]] == multiset(keys)[order[0]];
      OccurrencesOneMore(order[1..], keys, k);
    }
  }

  lemma {:induction false} OccurrencesTotal<K(!new)>(order: seq<K>, keys: seq<K>)
    requires Distinct(order) && forall k :: k in keys ==> k in order
    ensures Occurrences(order, keys) == |keys|
  {
    hide Occurrences;
    if keys == [] {
      OccurrencesNone(order);
    } else {
      var init, last := keys[..|keys| - 1], keys[|keys| - 1];
      assert keys == init + [last];
      OccurrencesTotal(order, init);
      OccurrencesOneMore(order, init, last);
    }
  }

  lemma {:induction false} OccurrencesSum<K(!new)>(order: seq<K>, keys: seq<K>)
    ensures TotalCount(CountsOf(order, keys)) == Occurrences(order, keys)
  {
    if order != [] {
      var numbers := Map(CountsOf(order, keys), NumberOf);
      OccurrencesSum(order[1..], keys);
      assert numbers[1..] == Map(CountsOf(order[1..], keys), NumberOf);
    }
  }

  /** The counts add up to the number of keys counted. */
  lemma TallyTotal<K(!new)>(keys: seq<K>, rank: Count<K> -> int)
    ensures TotalCount(TallyOf(keys, rank)) == |keys|
  {
    hide SortByKey, Sum, Map, Occurrences;
    var order := FirstOccurrences(keys);
    var counts := CountsOf(order, keys);
    OccurrencesTotal(order, keys);
    OccurrencesSum(order, keys);
    MapMultiset(TallyOf(keys, rank), counts, NumberOf);
    SumPermutation(Map(TallyOf(keys, rank), NumberOf), Map(counts, NumberOf));
  }
}
