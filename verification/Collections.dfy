/** Option, Result and the sequence vocabulary shared by every other module. */
module Collections {

  datatype Option<+T> = None | Some(value: T)

  datatype Result<+T, +E> = Ok(value: T) | Err(error: E)

  predicate Distinct<T(!new,==)>(s: seq<T>) {
    forall i, j :: 0 <= i < j < |s| ==> s[i] != s[j]
  }

  function Map<T(!new), U(!new)>(s: seq<T>, f: T -> U): (r: seq<U>)
    ensures |r| == |s|
    ensures forall i :: 0 <= i < |s| ==> r[i] == f(s[i])
  {
    seq(|s|, i requires 0 <= i < |s| => f(s[i]))
  }

  function Filter<T(!new)>(s: seq<T>, p: T -> bool): (r: seq<T>)
    ensures forall x :: x in r <==> x in s && p(x)
    ensures |r| <= |s|
  {
    if s == [] then []
    else if p(s[0]) then [s[0]] + Filter(s[1..], p)
    else Filter(s[1..], p)
  }

  function Flatten<T(!new)>(ss: seq<seq<T>>): (r: seq<T>)
    ensures forall x :: x in r <==> exists i :: 0 <= i < |ss| && x in ss[i]
  {
    if ss == [] then []
    else
      assert forall i :: 0 < i < |ss| ==> ss[i] == ss[1..][i - 1];
      ss[0] + Flatten(ss[1..])
  }

  function Sum(s: seq<nat>): (r: nat) {
    if s == [] then 0 else s[0] + Sum(s[1..])
  }

  /** The first occurrence of every element, in order: what `retain(|a| seen.insert(*a))` and the
      `reported.contains` guards of the rule loops keep. */
  function FirstOccurrences<T(!new,==)>(s: seq<T>): (r: seq<T>)
    ensures Distinct(r)
    ensures forall x :: x in r <==> x in s
  {
    if s == [] then []
    else
      var init := FirstOccurrences(s[..|s| - 1]);
      var last := s[|s| - 1];
      assert s == s[..|s| - 1] + [last];
      if last in init then init else init + [last]
  }

  lemma FlattenAppend<T(!new)>(a: seq<seq<T>>, b: seq<seq<T>>)
    ensures Flatten(a + b) == Flatten(a) + Flatten(b)
  {
    if a == [] {
      assert a + b == b;
    } else {
      assert (a + b)[0] == a[0] && (a + b)[1..] == a[1..] + b;
      FlattenAppend(a[1..], b);
    }
  }

  lemma FlattenNext<T(!new)>(ss: seq<seq<T>>, i: nat)
    requires i < |ss|
    ensures Flatten(ss[..i + 1]) == Flatten(ss[..i]) + ss[i]
  {
    assert ss[..i + 1] == ss[..i] + [ss[i]];
    FlattenAppend(ss[..i], [ss[i]]);
    assert ss[i] + [] == ss[i];
  }

  lemma SumUpdate(s: seq<nat>, i: nat, v: nat)
    requires i < |s|
    ensures Sum(s[i := v]) == Sum(s) - s[i] + v
  {
    if i == 0 {
      assert s[0 := v][1..] == s[1..];
    } else {
      assert s[i := v][1..] == s[1..][i - 1 := v];
      SumUpdate(s[1..], i - 1, v);
    }
  }

  lemma SumAppend(a: seq<nat>, b: seq<nat>)
    ensures Sum(a + b) == Sum(a) + Sum(b)
  {
    if a == [] {
      assert a + b == b;
    } else {
      assert (a + b)[1..] == a[1..] + b;
      SumAppend(a[1..], b);
    }
  }

  lemma SumOne(x: nat)
    ensures Sum([x]) == x
  {
  }

  lemma SumAround(a: seq<nat>, x: nat, b: seq<nat>)
    ensures Sum(a + ([x] + b)) == Sum(a + b) + x
  {
    hide Sum;
    SumOne(x);
    SumAppend(a, [x] + b);
    SumAppend([x], b);
    SumAppend(a, b);
  }

  /** A sequence around its element at `j`. */
  lemma Around<T(!new)>(s: seq<T>, j: nat)
    requires j < |s|
    ensures s == s[..j] + ([s[j]] + s[j + 1..])
  {
  }

  lemma SumWithout(s: seq<nat>, j: nat)
    requires j < |s|
    ensures Sum(s) == Sum(Without(s, j)) + s[j]
  {
    hide Sum;
    Around(s, j);
    SumAround(s[..j], s[j], s[j + 1..]);
  }

  /** A total does not depend on the order of its terms. */
  lemma {:induction false} SumPermutation(a: seq<nat>, b: seq<nat>)
    requires multiset(a) == multiset(b)
    ensures Sum(a) == Sum(b)
    decreases |a|
  {
    hide Without;
    PermutationElements(a, b);
    if a != [] {
      assert a[0] in b;
      var j :| 0 <= j < |b| && b[j] == a[0];
      MultisetRemove(a, 0);
      MultisetRemove(b, j);
      MultisetCancel(multiset(a), multiset(Without(a, 0)), multiset(Without(b, j)), a[0]);
      SumWithout(a, 0);
      SumWithout(b, j);
      SumPermutation(Without(a, 0), Without(b, j));
    }
  }

  lemma {:induction false} SumPositive(s: seq<nat>)
    requires Sum(s) > 0
    ensures exists i :: 0 <= i < |s| && s[i] > 0
  {
    if s[0] == 0 {
      SumPositive(s[1..]);
      var i :| 0 <= i < |s[1..]| && s[1..][i] > 0;
      assert s[i + 1] > 0;
    }
  }

  /** A sequence without repetitions holds every element once. */
  lemma DistinctMultiset<T(!new)>(s: seq<T>)
    requires Distinct(s)
    ensures forall x :: multiset(s)[x] == if x in s then 1 else 0
  {
    if s != [] {
      var init, last := s[..|s| - 1], s[|s| - 1];
      assert s == init + [last];
      DistinctMultiset(init);
    }
  }

  /** Two repetition-free sequences with the same elements are permutations of each other. */
  lemma DistinctSameElements<T(!new)>(a: seq<T>, b: seq<T>)
    requires Distinct(a) && Distinct(b)
    requires forall x :: x in a <==> x in b
    ensures multiset(a) == multiset(b)
  {
    DistinctMultiset(a);
    DistinctMultiset(b);
  }

  /** What a guarded push loop reports depends only on which elements occur. */
  lemma FirstOccurrencesUpToOrder<T(!new)>(a: seq<T>, b: seq<T>)
    requires forall x :: x in a <==> x in b
    ensures multiset(FirstOccurrences(a)) == multiset(FirstOccurrences(b))
  {
    DistinctSameElements(FirstOccurrences(a), FirstOccurrences(b));
  }

  lemma {:induction false} FilterDistinct<T(!new)>(s: seq<T>, p: T -> bool)
    requires Distinct(s)
    ensures Distinct(Filter(s, p))
  {
    if s != [] {
      FilterDistinct(s[1..], p);
    }
  }

  /** Permuted sequences have the same elements. */
  lemma PermutationElements<T(!new)>(a: seq<T>, b: seq<T>)
    requires multiset(a) == multiset(b)
    ensures forall x :: x in a <==> x in b
    ensures |a| == |b|
  {
    assert forall x :: x in a <==> x in multiset(a);
    assert forall x :: x in b <==> x in multiset(b);
    assert |multiset(a)| == |a| && |multiset(b)| == |b|;
  }

  /** Removing the element at `j`. */
  lemma MultisetRemove<T(!new)>(s: seq<T>, j: nat)
    requires j < |s|
    ensures multiset(s) == multiset(Without(s, j)) + multiset{s[j]}
  {
    assert s == s[..j] + [s[j]] + s[j + 1..];
  }

  /** A permutation of a repetition-free sequence is repetition-free. */
  lemma PermutationDistinct<T(!new)>(a: seq<T>, b: seq<T>)
    requires multiset(a) == multiset(b) && Distinct(b)
    ensures Distinct(a)
  {
    DistinctMultiset(b);
    forall i, j | 0 <= i < j < |a| ensures a[i] != a[j] {
      MultisetRemove(a, i);
      assert a[j] == Without(a, i)[j - 1];
      assert a[j] in multiset(Without(a, i));
      assert a[i] in a && multiset(a)[a[i]] <= 1;
    }
  }

  lemma MapRemove<T(!new), U(!new)>(s: seq<T>, j: nat, f: T -> U)
    requires j < |s|
    ensures multiset(Map(s, f)) == multiset(Map(Without(s, j), f)) + multiset{f(s[j])}
  {
    MultisetRemove(Map(s, f), j);
    assert Without(Map(s, f), j) == Map(Without(s, j), f);
  }

  function Without<T(!new)>(s: seq<T>, j: nat): (r: seq<T>)
    requires j < |s|
    ensures |r| == |s| - 1
  {
    s[..j] + s[j + 1..]
  }

  /** Mapping respects permutation. */
  lemma {:induction false} MapMultiset<T(!new), U(!new)>(a: seq<T>, b: seq<T>, f: T -> U)
    requires multiset(a) == multiset(b)
    ensures multiset(Map(a, f)) == multiset(Map(b, f))
    decreases |a|
  {
    hide Map, Without;
    PermutationElements(a, b);
    if a != [] {
      assert a[0] in b;
      var j :| 0 <= j < |b| && b[j] == a[0];
      MultisetRemove(a, 0);
      MultisetRemove(b, j);
      MapRemove(a, 0, f);
      MapRemove(b, j, f);
      MultisetCancel(multiset(a), multiset(Without(a, 0)), multiset(Without(b, j)), a[0]);
      MapMultiset(Without(a, 0), Without(b, j), f);
    }
  }

  lemma MultisetCancel<T(!new)>(whole: multiset<T>, m: multiset<T>, n: multiset<T>, x: T)
    requires whole == m + multiset{x} == n + multiset{x}
    ensures m == n
  {
    assert m == whole - multiset{x} == n;
  }

  // ----- filter_map -----

  function Optional<U>(o: Option<U>): (r: seq<U>)
  {
    if o.Some? then [o.value] else []
  }

  function Collected<T(!new), U(!new)>(s: seq<T>, f: T -> Option<U>): (r: seq<U>)
    ensures |r| <= |s|
  {
    if s == [] then [] else Optional(f(s[0])) + Collected(s[1..], f)
  }

  lemma CollectedAppend<T(!new), U(!new)>(a: seq<T>, b: seq<T>, f: T -> Option<U>)
    ensures Collected(a + b, f) == Collected(a, f) + Collected(b, f)
  {
    if a == [] {
      assert a + b == b;
    } else {
      assert (a + b)[1..] == a[1..] + b;
      CollectedAppend(a[1..], b, f);
    }
  }

  lemma CollectedOne<T(!new), U(!new)>(x: T, f: T -> Option<U>)
    ensures Collected([x], f) == Optional(f(x))
  {
  }

  lemma CollectedAround<T(!new), U(!new)>(a: seq<T>, x: T, b: seq<T>, f: T -> Option<U>)
    ensures multiset(Collected(a + ([x] + b), f)) == multiset(Collected(a + b, f)) + multiset(Optional(f(x)))
  {
    hide Collected, Optional;
    CollectedOne(x, f);
    CollectedAppend(a, [x] + b, f);
    CollectedAppend([x], b, f);
    CollectedAppend(a, b, f);
    MiddleOut(Collected(a, f), Optional(f(x)), Collected(b, f));
  }

  lemma CollectedWithout<T(!new), U(!new)>(s: seq<T>, j: nat, f: T -> Option<U>)
    requires j < |s|
    ensures multiset(Collected(s, f)) == multiset(Collected(Without(s, j), f)) + multiset(Optional(f(s[j])))
  {
    hide Collected, Optional;
    Around(s, j);
    CollectedAround(s[..j], s[j], s[j + 1..], f);
  }

  lemma MiddleOut<T(!new)>(a: seq<T>, x: seq<T>, b: seq<T>)
    ensures multiset(a + (x + b)) == multiset(a + b) + multiset(x)
  {
  }

  /** What is collected does not depend on the order of the input, up to its own order. */
  lemma {:induction false} CollectedPermutation<T(!new), U(!new)>(a: seq<T>, b: seq<T>, f: T -> Option<U>)
    requires multiset(a) == multiset(b)
    ensures multiset(Collected(a, f)) == multiset(Collected(b, f))
    decreases |a|
  {
    hide Without, Optional;
    PermutationElements(a, b);
    if a == [] {
    } else {
      hide Collected;
      assert a[0] in b;
      var j :| 0 <= j < |b| && b[j] == a[0];
      MultisetRemove(a, 0);
      MultisetRemove(b, j);
      MultisetCancel(multiset(a), multiset(Without(a, 0)), multiset(Without(b, j)), a[0]);
      CollectedWithout(a, 0, f);
      CollectedWithout(b, j, f);
      CollectedPermutation(Without(a, 0), Without(b, j), f);
    }
  }

  lemma CollectedLast<T(!new), U(!new)>(s: seq<T>, i: nat, f: T -> Option<U>)
    requires i < |s|
    ensures Collected(s[..i + 1], f) == Collected(s[..i], f) + Optional(f(s[i]))
  {
    assert s[..i + 1] == s[..i] + [s[i]];
    CollectedAppend(s[..i], [s[i]], f);
    CollectedOne(s[i], f);
  }

  // ----- counting -----

  function HowMany<T(!new)>(s: seq<T>, p: T -> bool): nat {
    if s == [] then 0 else (if p(s[0]) then 1 else 0) + HowMany(s[1..], p)
  }

  lemma {:induction false} NoneCounted<T(!new)>(s: seq<T>, p: T -> bool)
    ensures HowMany(s, p) == 0 <==> forall x :: x in s ==> !p(x)
  {
    if s != [] {
      NoneCounted(s[1..], p);
      assert forall x :: x in s <==> x == s[0] || x in s[1..];
    }
  }

  lemma HowManyAppend<T(!new)>(a: seq<T>, b: seq<T>, p: T -> bool)
    ensures HowMany(a + b, p) == HowMany(a, p) + HowMany(b, p)
  {
    if a == [] {
      assert a + b == b;
    } else {
      assert (a + b)[1..] == a[1..] + b;
      HowManyAppend(a[1..], b, p);
    }
  }

  lemma HowManyAround<T(!new)>(a: seq<T>, x: T, b: seq<T>, p: T -> bool)
    ensures HowMany(a + ([x] + b), p) == HowMany(a + b, p) + if p(x) then 1 else 0
  {
    assert HowMany([x], p) == if p(x) then 1 else 0;
    hide HowMany;
    HowManyAppend(a, [x] + b, p);
    HowManyAppend([x], b, p);
    HowManyAppend(a, b, p);
  }

  lemma HowManyWithout<T(!new)>(s: seq<T>, j: nat, p: T -> bool)
    requires j < |s|
    ensures HowMany(s, p) == HowMany(Without(s, j), p) + if p(s[j]) then 1 else 0
  {
    hide HowMany;
    Around(s, j);
    HowManyAround(s[..j], s[j], s[j + 1..], p);
  }

  lemma {:induction false} HowManyPermutation<T(!new)>(a: seq<T>, b: seq<T>, p: T -> bool)
    requires multiset(a) == multiset(b)
    ensures HowMany(a, p) == HowMany(b, p)
    decreases |a|
  {
    hide Without;
    PermutationElements(a, b);
    if a != [] {
      assert a[0] in b;
      var j :| 0 <= j < |b| && b[j] == a[0];
      MultisetRemove(a, 0);
      MultisetRemove(b, j);
      MultisetCancel(multiset(a), multiset(Without(a, 0)), multiset(Without(b, j)), a[0]);
      HowManyWithout(a, 0, p);
      HowManyWithout(b, j, p);
      HowManyPermutation(Without(a, 0), Without(b, j), p);
    }
  }

  lemma {:induction false} FilterCounts<T(!new)>(s: seq<T>, p: T -> bool)
    ensures |Filter(s, p)| == HowMany(s, p)
  {
    if s != [] {
      FilterCounts(s[1..], p);
    }
  }

  lemma FirstOccurrencesSnoc<T(!new)>(s: seq<T>, x: T)
    ensures FirstOccurrences(s + [x]) == if x in s then FirstOccurrences(s) else FirstOccurrences(s) + [x]
  {
  }

  /** How often a value was collected. */
  lemma {:induction false} CollectedTimes<T(!new), U(!new)>(s: seq<T>, f: T -> Option<U>, y: U, p: T -> bool)
    requires forall x :: p(x) <==> f(x) == Some(y)
    ensures multiset(Collected(s, f))[y] == HowMany(s, p)
  {
    if s != [] {
      CollectedTimes(s[1..], f, y, p);
    }
  }

  lemma {:induction false} HowManyMapped<T(!new), U(!new)>(s: seq<T>, f: T -> U, p: U -> bool, q: T -> bool)
    requires forall x :: q(x) <==> p(f(x))
    ensures HowMany(Map(s, f), p) == HowMany(s, q)
  {
    if s != [] {
      HowManyMapped(s[1..], f, p, q);
      assert Map(s, f)[1..] == Map(s[1..], f);
    }
  }
}
