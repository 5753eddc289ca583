/** Latency statistics over the successful samples of a repeated probe. Percentages and the variance are
    exact where the program uses floating point. */
module Latency {
  import opened Collections
  import opened Sorting

  datatype Summary = Summary(
    count: nat,
    min: Option<nat>,
    p50: Option<nat>,
    p90: Option<nat>,
    p95: Option<nat>,
    p99: Option<nat>,
    max: Option<nat>,
    mean: Option<nat>,
    jitter: Option<nat>,
    samples: seq<nat>)

  function Itself(x: nat): int { x }

  function Sorted(samples: seq<nat>): (r: seq<nat>)
    ensures multiset(r) == multiset(samples) && |r| == |samples|
  {
    SortByKey(samples, Itself)
  }

  function Ceiling(x: real): int { -(-x).Floor }

  function Rank(p: real, n: nat): int { Ceiling(p / 100.0 * n as real) }

  /** The sample at rank `ceil(p / 100 * n)`, for `p` from 0 to 100. */
  function Percentile(sorted: seq<nat>, p: real): Option<nat> {
    var n := |sorted|;
    if n == 0 || !(0.0 <= p <= 100.0) then None
    else
      var rank := Rank(p, n);
      var index := if rank >= 1 then rank - 1 else 0;
      Some(sorted[if index <= n - 1 then index else n - 1])
  }

  function Mean(samples: seq<nat>): Option<nat> {
    if samples == [] then None else Some(Sum(samples) / |samples|)
  }

  function Squared(d: real): (r: real)
    ensures r >= 0.0
  {
    d * d
  }

  function SquaresAbout(samples: seq<nat>, centre: real): (r: real)
    ensures r >= 0.0
  {
    if samples == [] then 0.0
    else
      Squared(samples[0] as real - centre) + SquaresAbout(samples[1..], centre)
  }

  /** The population variance, about the exact mean. */
  function Variance(samples: seq<nat>): (r: real)
    requires samples != []
    ensures r >= 0.0
  {
    var n := |samples| as real;
    SquaresAbout(samples, Sum(samples) as real / n) / n
  }

  function FloorSqrt(x: nat): (r: nat)
    ensures r * r <= x < (r + 1) * (r + 1)
  {
    if x == 0 then 0
    else
      var r := FloorSqrt(x - 1);
      if (r + 1) * (r + 1) <= x then r + 1 else r
  }

  function Jitter(samples: seq<nat>): Option<nat> {
    if samples == [] then None else Some(FloorSqrt(Variance(samples).Floor))
  }

  function Summarized(samples: seq<nat>): Summary {
    var sorted := Sorted(samples);
    var n := |samples|;
    Summary(
      n,
      if n == 0 then None else Some(sorted[0]),
      Percentile(sorted, 50.0),
      Percentile(sorted, 90.0),
      Percentile(sorted, 95.0),
      Percentile(sorted, 99.0),
      if n == 0 then None else Some(sorted[n - 1]),
      Mean(samples),
      Jitter(samples),
      samples)
  }

  class LatencyStats {
    var samples: seq<nat>

    constructor ()
      ensures samples == []
    {
      samples := [];
    }

    method Push(ms: nat)
      modifies this
      ensures samples == old(samples) + [ms]
    {
      samples := samples + [ms];
    }

    method Count() returns (n: nat)
      ensures n == |samples|
    {
      n := |samples|;
    }

    method Summarize() returns (r: Summary)
      ensures r == Summarized(samples)
      ensures samples != [] ==> Summarizes(r, samples)
    {
      hide Percentile, Sorted, FloorSqrt, Sum, SquaresAbout;
      var sorted := Sorted(samples);
      var n := |samples|;
      var min, max, mean, jitter: Option<nat> := None, None, None, None;
      if n > 0 {
        min, max := Some(sorted[0]), Some(sorted[n - 1]);
        var total := Total(samples);
        mean := Some(total / n);
        var squares := TotalSquares(samples, total as real / n as real);
        jitter := Some(FloorSqrt((squares / n as real).Floor));
      }
      r := Summary(n, min, Percentile(sorted, 50.0), Percentile(sorted, 90.0), Percentile(sorted, 95.0),
                   Percentile(sorted, 99.0), max, mean, jitter, samples);
      if n > 0 {
        SummaryFigures(samples);
      }
    }
  }

  method Total(samples: seq<nat>) returns (total: nat)
    ensures total == Sum(samples)
  {
    total := 0;
    for i := 0 to |samples|
      invariant total == Sum(samples[..i])
    {
      assert samples[..i + 1] == samples[..i] + [samples[i]];
      SumAppend(samples[..i], [samples[i]]);
      total := total + samples[i];
    }
    assert samples[..|samples|] == samples;
  }

  method TotalSquares(samples: seq<nat>, centre: real) returns (total: real)
    ensures total == SquaresAbout(samples, centre)
  {
    total := 0.0;
    assert samples[0..] == samples;
    for i := 0 to |samples|
      invariant total + SquaresAbout(samples[i..], centre) == SquaresAbout(samples, centre)
    {
      var d := samples[i] as real - centre;
      assert samples[i..][1..] == samples[i + 1..];
      total := total + Squared(d);
    }
  }

  // ----- ranks -----

  function CountAtMost(s: seq<nat>, v: nat): (r: nat) {
    if s == [] then 0 else (if s[0] <= v then 1 else 0) + CountAtMost(s[1..], v)
  }

  function CountBelow(s: seq<nat>, v: nat): (r: nat) {
    if s == [] then 0 else (if s[0] < v then 1 else 0) + CountBelow(s[1..], v)
  }

  /** `p` percent of `n`, in hundredths. */
  function Share(p: real, n: nat): real { p * n as real }

  /** `v` is the sample of nearest rank for the percentage `p`. */
  predicate NearestRank(samples: seq<nat>, p: real, v: nat) {
    && v in samples
    && 100.0 * CountAtMost(samples, v) as real >= Share(p, |samples|)
    && 100.0 * CountBelow(samples, v) as real < Share(p, |samples|)
  }

  lemma CountWithout(s: seq<nat>, j: nat, v: nat)
    requires j < |s|
    ensures CountAtMost(s, v) == CountAtMost(Without(s, j), v) + if s[j] <= v then 1 else 0
    ensures CountBelow(s, v) == CountBelow(Without(s, j), v) + if s[j] < v then 1 else 0
  {
    if j == 0 {
      assert Without(s, 0) == s[1..];
    } else {
      CountWithout(s[1..], j - 1, v);
      assert Without(s, j)[1..] == Without(s[1..], j - 1);
    }
  }

  lemma {:induction false} CountPermutation(a: seq<nat>, b: seq<nat>, v: nat)
    requires multiset(a) == multiset(b)
    ensures CountAtMost(a, v) == CountAtMost(b, v) && CountBelow(a, v) == CountBelow(b, v)
    decreases |a|
  {
    hide Without;
    PermutationElements(a, b);
    if a != [] {
      assert a[0] in b;
      var j :| 0 <= j < |b| && b[j] == a[0];
      MultisetRemove(a, 0);
      MultisetRemove(b, j);
      MultisetCancel(multiset(a), multiset(Without(a, 0)), multiset(Without(b, j)), a[0]);
      CountWithout(a, 0, v);
      CountWithout(b, j, v);
      CountPermutation(Without(a, 0), Without(b, j), v);
    }
  }

  lemma {:induction false} CountInSorted(s: seq<nat>, i: nat)
    requires SortedByKey(s, Itself) && i < |s|
    ensures CountAtMost(s, s[i]) >= i + 1 && CountBelow(s, s[i]) <= i
  {
    if i == 0 {
      NoneBelow(s, s[0]);
    } else {
      assert Itself(s[0]) <= Itself(s[i]);
      CountInSorted(s[1..], i - 1);
    }
  }

  lemma NoneBelow(s: seq<nat>, v: nat)
    requires forall x :: x in s ==> x >= v
    ensures CountBelow(s, v) == 0
  {
    if s != [] {
      assert s[0] in s && forall x :: x in s[1..] ==> x in s;
      NoneBelow(s[1..], v);
    }
  }

  lemma SortedIsSorted(samples: seq<nat>)
    ensures SortedByKey(Sorted(samples), Itself)
  {
    SortByKeyStable(samples, Itself);
  }

  /** The rank is at least one, and the two sides of `ceil` are where they should be. */
  lemma RankBounds(p: real, n: nat)
    requires 0.0 < p <= 100.0 && n > 0
    ensures var rank := Rank(p, n);
      1 <= rank <= n && 100.0 * rank as real >= Share(p, n) && 100.0 * (rank - 1) as real < Share(p, n)
  {
  }

  /** Every reported percentile is the true nearest-rank value of the samples. */
  lemma PercentileIsNearestRank(samples: seq<nat>, p: real)
    requires samples != [] && 0.0 < p <= 100.0
    ensures Percentile(Sorted(samples), p).Some?
    ensures NearestRank(samples, p, Percentile(Sorted(samples), p).value)
  {
    hide Rank, Share, Sorted, CountAtMost, CountBelow, SortedByKey;
    var sorted, n := Sorted(samples), |samples|;
    SortedIsSorted(samples);
    RankBounds(p, n);
    var i := Rank(p, n) - 1;
    var v := sorted[i];
    CountInSorted(sorted, i);
    CountPermutation(sorted, samples, v);
    PermutationElements(sorted, samples);
    assert Percentile(sorted, p) == Some(v);
    assert CountAtMost(samples, v) as real >= (i + 1) as real && CountBelow(samples, v) as real <= i as real;
  }

  lemma SharesOrdered(p: real, q: real, n: nat)
    requires p <= q
    ensures Share(p, n) <= Share(q, n)
  {
  }

  lemma {:induction false} FewerBelow(s: seq<nat>, w: nat, v: nat)
    requires w < v
    ensures CountAtMost(s, w) <= CountBelow(s, v)
  {
    if s != [] {
      FewerBelow(s[1..], w, v);
    }
  }

  /** There is one nearest-rank value, and it grows with the percentage. */
  lemma NearestRankGrows(samples: seq<nat>, p: real, q: real, v: nat, w: nat)
    requires p <= q && NearestRank(samples, p, v) && NearestRank(samples, q, w)
    ensures v <= w
    ensures p == q ==> v == w
  {
    hide CountAtMost, CountBelow, Share;
    SharesOrdered(p, q, |samples|);
    if w < v {
      FewerBelow(samples, w, v);
    } else if v < w && p == q {
      FewerBelow(samples, v, w);
    }
  }

  /** A percentile outside (0, 100] is absent, except that 0 is the minimum. */
  lemma PercentileEdges(samples: seq<nat>, p: real)
    ensures Percentile(Sorted(samples), p).None? <==> samples == [] || p < 0.0 || p > 100.0
    ensures samples != [] ==>
      && Percentile(Sorted(samples), 0.0) == Summarized(samples).min
      && Percentile(Sorted(samples), 100.0) == Summarized(samples).max
  {
    if samples != [] {
      RankBounds(100.0, |samples|);
    }
  }

  // ----- the order of the reported figures -----

  lemma ExtremesBound(samples: seq<nat>)
    requires samples != []
    ensures var r := Summarized(samples);
      && r.min.value in samples && r.max.value in samples
      && forall x :: x in samples ==> r.min.value <= x <= r.max.value
  {
    var sorted, n := Sorted(samples), |samples|;
    SortedIsSorted(samples);
    PermutationElements(sorted, samples);
    forall x | x in samples ensures sorted[0] <= x <= sorted[n - 1] {
      var i :| 0 <= i < n && sorted[i] == x;
      assert Itself(sorted[0]) <= Itself(sorted[i]) <= Itself(sorted[n - 1]);
    }
  }

  lemma OneMore(k: nat, n: nat)
    ensures k * (n + 1) == k * n + k
  {
  }

  lemma SumBounds(s: seq<nat>, low: nat, high: nat)
    requires forall x :: x in s ==> low <= x <= high
    ensures low * |s| <= Sum(s) <= high * |s|
  {
    if s != [] {
      assert s[0] in s && forall x :: x in s[1..] ==> x in s;
      SumBounds(s[1..], low, high);
      OneMore(low, |s[1..]|);
      OneMore(high, |s[1..]|);
    }
  }

  lemma QuotientBounds(total: nat, n: nat, low: nat, high: nat)
    requires n > 0 && low * n <= total <= high * n
    ensures low <= total / n <= high
  {
    var q := total / n;
    assert total == q * n + total % n;
    OneMore(n, q);
    OneMore(n, high);
    ProductsOrdered(q + 1, low, n);
    ProductsOrdered(high + 1, q, n);
  }

  lemma ProductsOrdered(a: nat, b: nat, n: nat)
    ensures a <= b ==> a * n <= b * n
  {
  }

  /** min <= p50 <= p90 <= p95 <= p99 <= max, and the mean lies between the extremes. */
  lemma SummaryOrdered(samples: seq<nat>)
    requires samples != []
    ensures var r := Summarized(samples);
      && r.min.value <= r.p50.value <= r.p90.value <= r.p95.value <= r.p99.value <= r.max.value
      && r.min.value <= r.mean.value <= r.max.value
  {
    hide Percentile, Sorted, NearestRank, Jitter;
    var r := Summarized(samples);
    ExtremesBound(samples);
    PercentileIsNearestRank(samples, 50.0);
    PercentileIsNearestRank(samples, 90.0);
    PercentileIsNearestRank(samples, 95.0);
    PercentileIsNearestRank(samples, 99.0);
    NearestRankGrows(samples, 50.0, 90.0, r.p50.value, r.p90.value);
    NearestRankGrows(samples, 90.0, 95.0, r.p90.value, r.p95.value);
    NearestRankGrows(samples, 95.0, 99.0, r.p95.value, r.p99.value);
    RankOccurs(samples, 50.0, r.p50.value);
    RankOccurs(samples, 99.0, r.p99.value);
    SumBounds(samples, r.min.value, r.max.value);
    QuotientBounds(Sum(samples), |samples|, r.min.value, r.max.value);
  }

  lemma RankOccurs(samples: seq<nat>, p: real, v: nat)
    requires NearestRank(samples, p, v)
    ensures v in samples
  {
  }

  // ----- the spread -----

  /** What moving the centre from `m` to `c` adds to the squares of `n` samples. */
  function Shift(m: real, c: real, total: real, n: real): real {
    2.0 * (m - c) * (total - n * m) + n * ((m - c) * (m - c))
  }

  lemma SquaresStep(s: seq<nat>, c: real)
    requires s != []
    ensures SquaresAbout(s, c) == Squared(s[0] as real - c) + SquaresAbout(s[1..], c)
  {
  }

  lemma {:induction false} MoveCentre(s: seq<nat>, m: real, c: real)
    ensures SquaresAbout(s, c) == SquaresAbout(s, m) + Shift(m, c, Sum(s) as real, |s| as real)
  {
    hide Shift, Squared;
    if s == [] {
      ShiftNothing(m, c);
    } else {
      hide SquaresAbout;
      MoveCentre(s[1..], m, c);
      SquaresStep(s, m);
      SquaresStep(s, c);
      MoveOne(s[0] as real, m, c, Sum(s[1..]) as real, |s[1..]| as real);
    }
  }

  lemma ShiftNothing(m: real, c: real)
    ensures Shift(m, c, 0.0, 0.0) == 0.0
  {
  }

  lemma MoveOne(x: real, m: real, c: real, total: real, n: real)
    ensures Squared(x - c) + Shift(m, c, total, n) == Squared(x - m) + Shift(m, c, x + total, n + 1.0)
  {
  }

  /** Within the middle of the range, no sample is further off than half of it. */
  lemma {:induction false} SquaresBounded(s: seq<nat>, low: nat, high: nat, c: real)
    requires c == (low + high) as real / 2.0
    requires forall x :: x in s ==> low <= x <= high
    ensures 4.0 * SquaresAbout(s, c) <= Scaled(|s| as real, Squared((high - low) as real))
  {
    hide Squared, Scaled;
    var range := Squared((high - low) as real);
    if s == [] {
      ScaledOnce(0.0, range);
    } else {
      assert s[0] in s && forall y :: y in s[1..] ==> y in s;
      SquaresBounded(s[1..], low, high, c);
      OneBounded(s[0] as real, low as real, high as real);
      ScaledOnce(|s[1..]| as real, range);
    }
  }

  function Scaled(n: real, x: real): real { n * x }

  lemma ScaledOnce(n: real, x: real)
    ensures Scaled(0.0, x) == 0.0 && Scaled(n + 1.0, x) == Scaled(n, x) + x
  {
  }

  lemma OneBounded(x: real, low: real, high: real)
    requires low <= x <= high
    ensures 4.0 * Squared(x - (low + high) / 2.0) <= Squared(high - low)
  {
    assert (x - low) * (high - x) >= 0.0;
  }

  /** The variance is at most a quarter of the squared range. */
  lemma VarianceBounded(samples: seq<nat>, low: nat, high: nat)
    requires samples != [] && low <= high && forall x :: x in samples ==> low <= x <= high
    ensures 4.0 * Variance(samples) <= Squared((high - low) as real)
  {
    hide Sum, SquaresAbout, Shift, Squared, Scaled;
    var n := |samples| as real;
    var m, c := Sum(samples) as real / n, (low + high) as real / 2.0;
    var range := (high - low) as real;
    MoveCentre(samples, m, c);
    SquaresBounded(samples, low, high, c);
    VarianceStep(SquaresAbout(samples, m), SquaresAbout(samples, c), Sum(samples) as real, n, m, c, Squared(range));
  }

  lemma VarianceStep(aboutM: real, aboutC: real, total: real, n: real, m: real, c: real, bound: real)
    requires n > 0.0 && m == total / n
    requires aboutC == aboutM + Shift(m, c, total, n)
    requires 4.0 * aboutC <= Scaled(n, bound)
    ensures 4.0 * (aboutM / n) <= bound
  {
    assert total - n * m == 0.0;
    assert aboutC >= aboutM by {
      SquareScaled(m - c, n);
      assert 2.0 * (m - c) * 0.0 == 0.0;
    }
    DivideBy(aboutM, bound / 4.0, n);
  }

  lemma SquareScaled(d: real, n: real)
    requires n >= 0.0
    ensures n * (d * d) >= 0.0
  {
  }

  lemma DivideBy(a: real, b: real, n: real)
    requires n > 0.0 && a <= n * b
    ensures a / n <= b
  {
  }

  lemma RootsOrdered(a: nat, b: nat)
    requires a * a <= b * b
    ensures a <= b
  {
  }

  /** Twice the jitter never exceeds the range, and the jitter is the integer part of the true deviation. */
  lemma JitterBounded(samples: seq<nat>)
    requires samples != []
    ensures var r := Summarized(samples);
      && r.min.value <= r.max.value
      && 2 * r.jitter.value <= r.max.value - r.min.value
      && (r.jitter.value * r.jitter.value) as real <= Variance(samples)
      && Variance(samples) < ((r.jitter.value + 1) * (r.jitter.value + 1)) as real
  {
    hide Percentile, Sorted, Variance, FloorSqrt;
    var r := Summarized(samples);
    ExtremesBound(samples);
    assert r.min.value in samples && r.min.value <= r.max.value;
    var low, high, j := r.min.value, r.max.value, r.jitter.value;
    VarianceBounded(samples, low, high);
    var v, range := Variance(samples), high - low;
    assert v.Floor as real <= v < v.Floor as real + 1.0;
    assert range as real * range as real == (range * range) as real;
    assert 4 * (j * j) <= range * range;
    RootsOrdered(2 * j, range);
  }

  // ----- the order of arrival does not matter -----

  function Square(x: nat): nat { x * x }

  function Expansion(m: real, squares: real, total: real, n: real): real {
    squares - 2.0 * m * total + n * (m * m)
  }

  lemma {:induction false} SquaresExpanded(s: seq<nat>, m: real)
    ensures SquaresAbout(s, m) == Expansion(m, Sum(Map(s, Square)) as real, Sum(s) as real, |s| as real)
  {
    hide Expansion, Squared, Square;
    if s == [] {
      ExpandNothing(m);
    } else {
      hide SquaresAbout;
      SquaresExpanded(s[1..], m);
      SquaresStep(s, m);
      assert Map(s, Square)[0] == Square(s[0]) && Map(s, Square)[1..] == Map(s[1..], Square);
      ExpandOne(s[0], m, Sum(Map(s[1..], Square)) as real, Sum(s[1..]) as real, |s[1..]| as real);
    }
  }

  lemma ExpandNothing(m: real)
    ensures Expansion(m, 0.0, 0.0, 0.0) == 0.0
  {
  }

  lemma ExpandOne(x: nat, m: real, squares: real, total: real, n: real)
    ensures Squared(x as real - m) + Expansion(m, squares, total, n)
         == Expansion(m, Square(x) as real + squares, x as real + total, n + 1.0)
  {
  }

  lemma VariancePermutation(a: seq<nat>, b: seq<nat>)
    requires multiset(a) == multiset(b) && a != [] && b != []
    ensures Variance(a) == Variance(b)
  {
    hide Map, Sum, SquaresAbout;
    PermutationElements(a, b);
    SumPermutation(a, b);
    MapMultiset(a, b, Square);
    SumPermutation(Map(a, Square), Map(b, Square));
    var m := Sum(a) as real / |a| as real;
    SquaresExpanded(a, m);
    SquaresExpanded(b, m);
  }

  /** Every figure depends only on which latencies were seen, not on the order they arrived in. */
  lemma SummaryPermutation(a: seq<nat>, b: seq<nat>)
    requires multiset(a) == multiset(b)
    ensures Summarized(a) == Summarized(b).(samples := a)
  {
    hide Percentile, FloorSqrt, SortByKey, Sum, Variance;
    PermutationElements(a, b);
    SortByKeyUpToOrder(a, b, Itself);
    SumPermutation(a, b);
    if a != [] {
      VariancePermutation(a, b);
    }
  }

  // ----- the figures themselves -----

  /** Which figure is which: the counts, the extremes, the four nearest ranks, and the mean rounded down. */
  ghost predicate Summarizes(r: Summary, samples: seq<nat>) {
    && r.count == |samples| && r.samples == samples
    && r.min.Some? && r.min.value in samples && r.max.Some? && r.max.value in samples
    && (forall x :: x in samples ==> r.min.value <= x <= r.max.value)
    && r.p50.Some? && NearestRank(samples, 50.0, r.p50.value)
    && r.p90.Some? && NearestRank(samples, 90.0, r.p90.value)
    && r.p95.Some? && NearestRank(samples, 95.0, r.p95.value)
    && r.p99.Some? && NearestRank(samples, 99.0, r.p99.value)
    && r.mean.Some? && r.mean.value * |samples| <= Sum(samples) < (r.mean.value + 1) * |samples|
  }

  lemma SummaryFigures(samples: seq<nat>)
    requires samples != []
    ensures Summarizes(Summarized(samples), samples)
  {
    hide Percentile, Sorted, NearestRank, Jitter;
    ExtremesBound(samples);
    PercentileIsNearestRank(samples, 50.0);
    PercentileIsNearestRank(samples, 90.0);
    PercentileIsNearestRank(samples, 95.0);
    PercentileIsNearestRank(samples, 99.0);
    QuotientExact(Sum(samples), |samples|);
  }

  lemma QuotientExact(total: nat, n: nat)
    requires n > 0
    ensures total / n * n <= total < (total / n + 1) * n
  {
    OneMore(n, total / n);
  }

  lemma NothingToSummarize()
    ensures Summarized([]) == Summary(0, None, None, None, None, None, None, None, None, [])
  {
  }

  /** `j` times `n` is the root of the number, rounded down to a multiple of `n`. */
  predicate RootTimes(j: nat, n: nat, number: int) {
    j * j * (n * n) <= number < (j + 1) * (j + 1) * (n * n)
  }

  /** `n` times the sum of the squares, less the square of the sum. */
  function Spread(samples: seq<nat>): int {
    |samples| * Sum(Map(samples, Square)) - Square(Sum(samples))
  }

  /** The jitter in whole numbers: times the number of samples, it is the root of the spread, rounded down. */
  lemma JitterExact(samples: seq<nat>)
    requires samples != []
    ensures RootTimes(Summarized(samples).jitter.value, |samples|, Spread(samples))
  {
    hide Sum, Map, Variance, Spread, Square, RootTimes, Scaled, FloorSqrt, Percentile, Sorted, Mean;
    JitterBounded(samples);
    SpreadScaled(samples);
    WholeNumbers(Summarized(samples).jitter.value, |samples|, Spread(samples), Variance(samples));
  }

  lemma WholeNumbers(j: nat, n: nat, spread: int, variance: real)
    requires n > 0 && (j * j) as real <= variance < ((j + 1) * (j + 1)) as real
    requires Scaled(variance, (n * n) as real) == spread as real
    ensures RootTimes(j, n, spread)
  {
    var low, high, k := j * j, (j + 1) * (j + 1), n * n;
    Product(low, k);
    Product(high, k);
    Scale(low as real, variance, high as real, k as real);
  }

  lemma SpreadScaled(samples: seq<nat>)
    requires samples != []
    ensures Scaled(Variance(samples), (|samples| * |samples|) as real) == Spread(samples) as real
  {
    hide Sum, Map, SquaresAbout, Expansion, Scaled, Square;
    var n, total, squares := |samples|, Sum(samples), Sum(Map(samples, Square));
    SquaresExpanded(samples, total as real / n as real);
    ScaledInWholeNumbers(squares, total, n);
  }

  lemma ScaledInWholeNumbers(squares: nat, total: nat, n: nat)
    requires n > 0
    ensures Scaled(Expansion(total as real / n as real, squares as real, total as real, n as real) / n as real,
                   (n * n) as real)
         == (n * squares - Square(total)) as real
  {
    hide Expansion, Scaled;
    Product(n, n);
    ExpansionScaled(squares as real, total as real, n as real);
    Product(n, squares);
    Product(total, total);
  }

  lemma ExpansionScaled(squares: real, total: real, n: real)
    requires n > 0.0
    ensures Scaled(Expansion(total / n, squares, total, n) / n, n * n) == n * squares - total * total
  {
    var m := total / n;
    var variance := Expansion(m, squares, total, n) / n;
    assert m * n == total;
    assert variance * n == squares - 2.0 * m * total + n * (m * m);
    assert n * (n * (m * m)) == total * total;
    assert n * (2.0 * m * total) == 2.0 * (total * total);
  }

  lemma Product(a: nat, b: nat)
    ensures a as real * b as real == (a * b) as real
  {
  }

  lemma Scale(low: real, x: real, high: real, k: real)
    requires low <= x < high && k > 0.0
    ensures low * k <= x * k < high * k
  {
  }
}
