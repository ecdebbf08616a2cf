/** Statistics::compute (include/benchmark/stats.hpp). */
module Summary {
  import opened Options
  import opened Bytes
  import opened Quantiles
  import opened Moments

  /** The variance of a single sample is 0 / 0, here None. */
  datatype Statistics = Statistics(
    minimum: real, filteredMinimum: real, firstQuartile: real, median: real, thirdQuartile: real,
    filteredMaximum: real, maximum: real, average: real, variance: Option<real>)

  predicate SortedWords(t: seq<u32>)
  {
    forall i, j :: 0 <= i < j < |t| ==> t[i] <= t[j]
  }

  ghost predicate IsSortOf(t: seq<u32>, data: seq<u32>)
  {
    SortedWords(t) && multiset(t) == multiset(data)
  }

  function Reals(data: seq<u32>): (r: seq<real>)
    ensures |r| == |data| && forall i :: 0 <= i < |data| ==> r[i] == data[i] as real
  {
    seq(|data|, i requires 0 <= i < |data| => data[i] as real)
  }

  function Larger(a: real, b: real): real { if a < b then b else a }

  function Smaller(a: real, b: real): real { if b < a then b else a }

  ghost predicate IsQuotient(v: Option<real>, total: real, n: int)
  {
    if n == 0 then v == None else v.Some? && Times(v.value, n as real) == total
  }

  /** The variance as the code computes it, from a sample with average a. */
  ghost predicate IsVariance(v: Option<real>, a: real, t: seq<u32>)
  {
    IsQuotient(v, Total(NarrowDeviation(a), t), |t| - 1)
  }

  /** s is the summary of the sorted sample t. */
  ghost predicate Summarizes(s: Statistics, t: seq<u32>)
  {
    && t != []
    && s.minimum == t[0] as real
    && s.maximum == t[|t| - 1] as real
    && s.firstQuartile == Quantile(Reals(t), 0.25)
    && s.median == Quantile(Reals(t), 0.5)
    && s.thirdQuartile == Quantile(Reals(t), 0.75)
    && s.filteredMinimum == Larger(s.minimum, s.firstQuartile - (s.thirdQuartile - s.firstQuartile) * 1.5)
    && s.filteredMaximum == Smaller(s.maximum, s.thirdQuartile + (s.thirdQuartile - s.firstQuartile) * 1.5)
    && IsMean(s.average, t)
    && IsVariance(s.variance, s.average, t)
  }

  // ---- Operations -------------------------------------------------------------

  method Swap(a: array<u32>, i: nat)
    requires 0 < i < a.Length
    modifies a
    ensures a[i - 1] == old(a[i]) && a[i] == old(a[i - 1])
    ensures forall j :: 0 <= j < a.Length && j != i && j != i - 1 ==> a[j] == old(a[j])
    ensures multiset(a[..]) == multiset(old(a[..]))
  {
    a[i - 1], a[i] := a[i], a[i - 1];
  }

  /** Moves the sample at n down to its place among the sorted ones before it. */
  method Insert(a: array<u32>, n: nat)
    requires n < a.Length && SortedWords(a[..n])
    modifies a
    ensures SortedWords(a[..n + 1])
    ensures multiset(a[..]) == multiset(old(a[..]))
  {
    var i := n;
    while i > 0 && a[i] < a[i - 1]
      invariant 0 <= i <= n
      invariant forall j, k :: 0 <= j < k <= n && k != i ==> a[j] <= a[k]
      invariant multiset(a[..]) == multiset(old(a[..]))
    {
      Swap(a, i);
      i := i - 1;
    }
  }

  method SortInPlace(a: array<u32>)
    modifies a
    ensures IsSortOf(a[..], old(a[..]))
  {
    for n := 0 to a.Length
      invariant SortedWords(a[..n])
      invariant multiset(a[..]) == multiset(old(a[..]))
    {
      Insert(a, n);
    }
    assert a[..a.Length] == a[..];
  }

  method Accumulate(f: u32 -> real, t: seq<u32>) returns (sum: real)
    ensures sum == Total(f, t)
  {
    sum := 0.0;
    for i := 0 to |t|
      invariant sum == Total(f, t[..i])
    {
      assert t[..i + 1][..i] == t[..i];
      sum := sum + f(t[i]);
    }
    assert t[..|t|] == t;
  }

  /** The average and the variance. */
  method ComputeMoments(tmp: seq<u32>) returns (avg: real, v: Option<real>)
    requires tmp != []
    ensures IsMean(avg, tmp) && IsVariance(v, avg, tmp)
  {
    var sum := Accumulate(Value(), tmp);
    avg := sum / |tmp| as real;
    var total := Accumulate(NarrowDeviation(avg), tmp);
    v := if |tmp| == 1 then None else Some(total / (|tmp| - 1) as real);
  }

  method Summarize(tmp: seq<u32>) returns (s: Statistics)
    requires tmp != []
    ensures Summarizes(s, tmp)
  {
    var min, max := tmp[0] as real, tmp[|tmp| - 1] as real;
    var q1 := Quantile(Reals(tmp), 0.25);
    var q3 := Quantile(Reals(tmp), 0.75);
    var avg, v := ComputeMoments(tmp);
    s := Statistics(min, Larger(min, q1 - (q3 - q1) * 1.5), q1, Quantile(Reals(tmp), 0.5), q3,
                    Smaller(max, q3 + (q3 - q1) * 1.5), max, avg, v);
  }

  /** Whatever way the sample is sorted, the result summarizes the sorted sample. */
  method Compute(data: seq<u32>) returns (s: Statistics)
    requires data != []
    ensures exists t :: IsSortOf(t, data)
    ensures forall t :: IsSortOf(t, data) ==> Summarizes(s, t)
  {
    var a := new u32[|data|](i requires 0 <= i < |data| => data[i]);
    assert a[..] == data;
    SortInPlace(a);
    var tmp := a[..];
    assert |multiset(tmp)| == |multiset(data)|;
    s := Summarize(tmp);
    forall t | IsSortOf(t, data) ensures Summarizes(s, t) {
      SortIsUnique(t, tmp);
    }
  }

  // ---- Order of the input -----------------------------------------------------

  /** Sorting has one result, so the algorithm behind it does not matter. */
  lemma {:induction false} SortIsUnique(a: seq<u32>, b: seq<u32>)
    requires SortedWords(a) && SortedWords(b) && multiset(a) == multiset(b)
    ensures a == b
    decreases |a|
  {
    assert |multiset(a)| == |multiset(b)|;
    if a != [] {
      var n := |a| - 1;
      SameEnds(a, b);
      SortIsUnique(a[..n], b[..n]);
      assert forall i :: 0 <= i < n ==> a[i] == a[..n][i] == b[..n][i] == b[i];
    }
  }

  lemma SameEnds(a: seq<u32>, b: seq<u32>)
    requires SortedWords(a) && SortedWords(b) && multiset(a) == multiset(b)
    requires |a| == |b| > 0
    ensures a[|a| - 1] == b[|b| - 1]
    ensures multiset(a[..|a| - 1]) == multiset(b[..|b| - 1])
  {
    assert a[|a| - 1] in multiset(b) && b[|b| - 1] in multiset(a);
    MultisetOfFront(a);
    MultisetOfFront(b);
  }

  lemma MultisetOfFront(a: seq<u32>)
    requires a != []
    ensures multiset(a[..|a| - 1]) == multiset(a) - multiset{a[|a| - 1]}
  {
    assert a == a[..|a| - 1] + [a[|a| - 1]];
  }

  lemma MomentsAreUnique(t: seq<u32>, a: real, v: Option<real>, a': real, v': Option<real>)
    requires IsMean(a, t) && IsVariance(v, a, t)
    requires IsMean(a', t) && IsVariance(v', a', t)
    ensures a == a' && v == v'
  {
    SameQuotient(a, a', |t| as real);
    if |t| > 1 {
      assert Times(v.value, (|t| - 1) as real) == Times(v'.value, (|t| - 1) as real);
      SameQuotient(v.value, v'.value, (|t| - 1) as real);
    }
  }

  /** Samples in another order have the same statistics. */
  lemma OrderDoesNotMatter(s: Statistics, t: seq<u32>, data: seq<u32>, s': Statistics, t': seq<u32>, data': seq<u32>)
    requires IsSortOf(t, data) && Summarizes(s, t)
    requires IsSortOf(t', data') && Summarizes(s', t')
    requires multiset(data) == multiset(data')
    ensures s == s'
  {
    SortIsUnique(t, t');
    MomentsAreUnique(t, s.average, s.variance, s'.average, s'.variance);
  }

  lemma SameQuotient(a: real, b: real, n: real)
    requires n > 0.0 && Times(a, n) == Times(b, n)
    ensures a == b
  {
    Cancel(a, b, n);
    Cancel(b, a, n);
  }

  // ---- What the numbers mean --------------------------------------------------

  lemma Extremes(t: seq<u32>, data: seq<u32>)
    requires IsSortOf(t, data) && t != []
    ensures |t| == |data| && t[0] in data && t[|t| - 1] in data
    ensures forall x :: x in data ==> t[0] <= x <= t[|t| - 1]
    ensures forall i :: 0 <= i < |data| ==> t[0] <= data[i] <= t[|t| - 1]
    ensures forall i :: 0 <= i < |t| ==> t[0] <= t[i] <= t[|t| - 1]
  {
    assert |multiset(t)| == |multiset(data)|;
    assert t[0] in multiset(t) && t[|t| - 1] in multiset(t);
    forall x | x in data ensures t[0] <= x <= t[|t| - 1] {
      assert x in multiset(t);
    }
    assert forall i :: 0 <= i < |data| ==> data[i] in data;
  }

  lemma QuartilesInOrder(d: seq<real>)
    requires d != [] && Sorted(d)
    ensures d[0] <= Quantile(d, 0.25) <= Quantile(d, 0.5) <= Quantile(d, 0.75) <= d[|d| - 1]
  {
    QuantileIsBetween(d, 0.25);
    QuantileIsBetween(d, 0.75);
    QuantileIsMonotone(d, 0.25, 0.5);
    QuantileIsMonotone(d, 0.5, 0.75);
  }

  /** For every non-empty sample, in any order, the seven numbers are in order. */
  lemma SummaryIsOrdered(s: Statistics, t: seq<u32>, data: seq<u32>)
    requires IsSortOf(t, data) && Summarizes(s, t)
    ensures forall x :: x in data ==> s.minimum <= x as real <= s.maximum
    ensures exists x :: x in data && s.minimum == x as real
    ensures exists x :: x in data && s.maximum == x as real
    ensures s.minimum <= s.filteredMinimum <= s.firstQuartile <= s.median
    ensures s.median <= s.thirdQuartile <= s.filteredMaximum <= s.maximum
    ensures s.minimum <= s.average <= s.maximum
  {
    hide *;
    SameSamples(t, data);
    MomentsOfSummary(s, t);
    Extremes(t, data);
    MeanIsBetween(t, s.average, s.minimum, s.maximum);
    LocationsInOrder(s, t);
    assert t[0] in data && t[|t| - 1] in data;
  }

  lemma LocationsInOrder(s: Statistics, t: seq<u32>)
    requires SortedWords(t) && Summarizes(s, t)
    ensures s.minimum <= s.filteredMinimum <= s.firstQuartile <= s.median
    ensures s.median <= s.thirdQuartile <= s.filteredMaximum <= s.maximum
  {
    QuartilesInOrder(Reals(t));
  }

  /** The filtered extremes: exactly the samples more than one and a half interquartile ranges outside the
      quartiles lie beyond them. If there is one on a side, the filtered extreme is at that distance from
      the quartile; if there is none, it is the extreme itself. */
  lemma FiltersOutliers(s: Statistics, t: seq<u32>, data: seq<u32>)
    requires IsSortOf(t, data) && Summarizes(s, t)
    ensures var limit := 1.5 * (s.thirdQuartile - s.firstQuartile);
            && (forall x :: x in data ==> (x as real < s.filteredMinimum <==> s.firstQuartile - x as real > limit))
            && (forall x :: x in data ==> (x as real > s.filteredMaximum <==> x as real - s.thirdQuartile > limit))
            && (if exists x :: x in data && s.firstQuartile - x as real > limit
                then s.firstQuartile - s.filteredMinimum == limit else s.filteredMinimum == s.minimum)
            && (if exists x :: x in data && x as real - s.thirdQuartile > limit
                then s.filteredMaximum - s.thirdQuartile == limit else s.filteredMaximum == s.maximum)
  {
    FiltersSorted(s, t);
    hide *;
    MomentsOfSummary(s, t);
    Extremes(t, data);
    assert t[0] in data && t[|t| - 1] in data;
  }

  lemma FiltersSorted(s: Statistics, t: seq<u32>)
    requires SortedWords(t) && Summarizes(s, t)
    ensures var limit := 1.5 * (s.thirdQuartile - s.firstQuartile);
            && limit >= 0.0
            && s.filteredMinimum == (if s.firstQuartile - s.minimum > limit then s.firstQuartile - limit else s.minimum)
            && s.filteredMaximum == (if s.maximum - s.thirdQuartile > limit then s.thirdQuartile + limit else s.maximum)
  {
    QuartilesInOrder(Reals(t));
  }

  /** The other numbers: quantiles of the sorted sample, the mean, and the sum of squared distances from it,
      of samples converted to `int`, over their number less one. */
  lemma SummaryIs(s: Statistics, t: seq<u32>, data: seq<u32>)
    requires IsSortOf(t, data) && Summarizes(s, t)
    ensures t != [] && s.firstQuartile == Quantile(Reals(t), 0.25)
    ensures s.median == Quantile(Reals(t), 0.5) && s.thirdQuartile == Quantile(Reals(t), 0.75)
    ensures |data| > 0 && s.average * |data| as real == Total(Value(), data)
    ensures |data| == 1 ==> s.variance == None
    ensures |data| > 1 ==>
              && s.variance.Some?
              && s.variance.value * (|data| - 1) as real == Total(NarrowDeviation(s.average), data)
  {
    MomentsOfPermutation(s.average, s.variance, t, data);
  }

  function Indicator(below: bool, v: real): u32 -> real
  {
    (x: u32) => if x as real < v || (!below && x as real == v) then 1.0 else 0.0
  }

  lemma {:induction false} CountIsTotal(data: seq<u32>, v: real)
    ensures CountBelow(Reals(data), v) as real == Total(Indicator(true, v), data)
    ensures CountUpTo(Reals(data), v) as real == Total(Indicator(false, v), data)
  {
    if data != [] {
      var n := |data| - 1;
      assert Reals(data)[..n] == Reals(data[..n]);
      CountIsTotal(data[..n], v);
    }
  }

  lemma CountOfPermutation(t: seq<u32>, data: seq<u32>, v: real)
    requires multiset(t) == multiset(data)
    ensures CountBelow(Reals(t), v) == CountBelow(Reals(data), v)
    ensures CountUpTo(Reals(t), v) == CountUpTo(Reals(data), v)
  {
    CountIsTotal(t, v);
    CountIsTotal(data, v);
    TotalOfPermutation(Indicator(true, v), t, data);
    TotalOfPermutation(Indicator(false, v), t, data);
  }

  /** A value splits the sample at rank q. */
  ghost predicate HasRank(v: real, q: real, data: seq<u32>)
  {
    && CountBelow(Reals(data), v) as real < q * |data| as real + 0.5
    && CountUpTo(Reals(data), v) as real > q * |data| as real - 0.5
  }

  /** The quartiles and the median split the sample, in any order, as their names say. */
  lemma QuartilesHaveTheirRanks(s: Statistics, t: seq<u32>, data: seq<u32>)
    requires IsSortOf(t, data) && Summarizes(s, t)
    ensures HasRank(s.firstQuartile, 0.25, data)
    ensures HasRank(s.median, 0.5, data)
    ensures HasRank(s.thirdQuartile, 0.75, data)
  {
    assert |multiset(t)| == |multiset(data)|;
    QuantileHasItsRank(Reals(t), 0.25);
    QuantileHasItsRank(Reals(t), 0.5);
    QuantileHasItsRank(Reals(t), 0.75);
    CountOfPermutation(t, data, s.firstQuartile);
    CountOfPermutation(t, data, s.median);
    CountOfPermutation(t, data, s.thirdQuartile);
  }

  /** Average and variance are those of the unsorted sample. */
  lemma MomentsOfPermutation(a: real, v: Option<real>, t: seq<u32>, data: seq<u32>)
    requires multiset(t) == multiset(data) && IsMean(a, t) && IsVariance(v, a, t)
    ensures IsMean(a, data) && IsVariance(v, a, data)
  {
    SameTotals(Value(), t, data);
    SameTotals(NarrowDeviation(a), t, data);
    MeanCarriesOver(a, t, data);
  }

  lemma SameTotals(f: u32 -> real, t: seq<u32>, data: seq<u32>)
    requires multiset(t) == multiset(data)
    ensures |t| == |data| && Total(f, t) == Total(f, data)
  {
    assert |multiset(t)| == |multiset(data)|;
    TotalOfPermutation(f, t, data);
  }

  lemma MeanCarriesOver(a: real, t: seq<u32>, data: seq<u32>)
    requires |t| == |data| && Total(Value(), t) == Total(Value(), data) && IsMean(a, t)
    ensures IsMean(a, data)
  {
  }

  /** v is the corrected sample variance. */
  ghost predicate IsSampleVariance(v: real, a: real, data: seq<u32>)
  {
    Times(v, (|data| - 1) as real) == Total(Deviation(a), data)
  }

  lemma SampleVarianceIs(v: real, a: real, data: seq<u32>)
    ensures IsSampleVariance(v, a, data) <==> v * (|data| - 1) as real == Total(Deviation(a), data)
  {
  }

  lemma VarianceIsExactIff(a: real, v: Option<real>, data: seq<u32>)
    requires IsMean(a, data) && IsVariance(v, a, data) && |data| >= 2
    ensures v.Some?
    ensures IsSampleVariance(v.value, a, data) <==> HighCount(data) as real * a == HighExcess(data) as real
    ensures (forall i :: 0 <= i < |data| ==> data[i] < 0x8000_0000) ==> IsSampleVariance(v.value, a, data)
  {
    TotalIsExactIff(data, a);
  }

  lemma VarianceMeaning(a: real, v: real, data: seq<u32>, lo: real, hi: real, c: real)
    requires IsMean(a, data) && IsVariance(Some(v), a, data) && |data| >= 2
    requires forall i :: 0 <= i < |data| ==> data[i] < 0x8000_0000
    requires forall i :: 0 <= i < |data| ==> lo <= data[i] as real <= hi
    ensures v >= 0.0
    ensures v == 0.0 <==> forall i :: 0 <= i < |data| ==> data[i] == data[0]
    ensures Times(v, (|data| - 1) as real) <= SpreadBound(|data| as real, a, lo, hi)
    ensures Times(v, (|data| - 1) as real) <= Total(Deviation(c), data)
  {
    VarianceIsExactIff(a, Some(v), data);
    DeviationIsNatural(data, a);
    DeviationIsBounded(data, a, lo, hi);
    MeanIsBestCentre(data, a, c);
    NoDeviationIffConstant(data, a);
    SignOfQuotient(v, (|data| - 1) as real);
  }

  lemma SameSamples(t: seq<u32>, data: seq<u32>)
    requires IsSortOf(t, data)
    ensures multiset(t) == multiset(data) && SortedWords(t)
  {
  }

  lemma MomentsOfSummary(s: Statistics, t: seq<u32>)
    requires Summarizes(s, t)
    ensures IsMean(s.average, t) && IsVariance(s.variance, s.average, t)
    ensures t != [] && s.minimum == t[0] as real && s.maximum == t[|t| - 1] as real
  {
  }

  /** In the summary of a sample in any order, with two samples or more, the variance is the corrected
      sample variance exactly when the samples from 2^31 on exceed 2^31 by the mean, on average; so it
      is when there are none. */
  lemma SummaryVarianceIsExactIff(s: Statistics, t: seq<u32>, data: seq<u32>)
    requires IsSortOf(t, data) && Summarizes(s, t) && |data| >= 2
    ensures s.variance.Some? && IsMean(s.average, data)
    ensures s.variance.value * (|data| - 1) as real == Total(Deviation(s.average), data) <==>
            HighCount(data) as real * s.average == HighExcess(data) as real
    ensures (forall i :: 0 <= i < |data| ==> data[i] < 0x8000_0000) ==>
              s.variance.value * (|data| - 1) as real == Total(Deviation(s.average), data)
  {
    hide *;
    SameSamples(t, data);
    MomentsOfSummary(s, t);
    MomentsOfPermutation(s.average, s.variance, t, data);
    VarianceIsExactIff(s.average, s.variance, data);
    SampleVarianceIs(s.variance.value, s.average, data);
  }

  lemma VarianceOfSummary(s: Statistics, t: seq<u32>, data: seq<u32>, c: real)
    requires IsSortOf(t, data) && Summarizes(s, t) && |data| >= 2
    requires forall i :: 0 <= i < |data| ==> data[i] < 0x8000_0000
    ensures s.variance.Some? && s.variance.value >= 0.0
    ensures s.variance.value == 0.0 <==> forall i :: 0 <= i < |data| ==> data[i] == data[0]
    ensures Times(s.variance.value, (|data| - 1) as real)
         <= SpreadBound(|data| as real, s.average, s.minimum, s.maximum)
    ensures Times(s.variance.value, (|data| - 1) as real) <= Total(Deviation(c), data)
  {
    hide *;
    SameSamples(t, data);
    MomentsOfSummary(s, t);
    MomentsOfPermutation(s.average, s.variance, t, data);
    Extremes(t, data);
    VarianceIsExactIff(s.average, s.variance, data);
    VarianceMeaning(s.average, s.variance.value, data, s.minimum, s.maximum, c);
  }

  /** Below 2^31 that variance is never negative, zero exactly for equal samples, and bounded by the
      distances of the mean from the extremes; no other centre gives a smaller one. */
  lemma SummaryVarianceMeaning(s: Statistics, t: seq<u32>, data: seq<u32>, c: real)
    requires IsSortOf(t, data) && Summarizes(s, t) && |data| >= 2
    requires forall i :: 0 <= i < |data| ==> data[i] < 0x8000_0000
    ensures s.variance.Some? && s.variance.value >= 0.0
    ensures s.variance.value == 0.0 <==> forall i :: 0 <= i < |data| ==> data[i] == data[0]
    ensures s.variance.value * (|data| - 1) as real
         <= |data| as real * ((s.maximum - s.average) * (s.average - s.minimum))
    ensures s.variance.value * (|data| - 1) as real <= Total(Deviation(c), data)
  {
    hide *;
    VarianceOfSummary(s, t, data, c);
    SpreadBoundIs(s.variance.value, (|data| - 1) as real, |data| as real, s.average, s.minimum, s.maximum);
  }

  lemma SpreadBoundIs(v: real, m: real, n: real, a: real, lo: real, hi: real)
    ensures Times(v, m) == v * m && SpreadBound(n, a, lo, hi) == n * ((hi - a) * (a - lo))
  {
  }

  lemma SignOfQuotient(v: real, n: real)
    requires n > 0.0 && Times(v, n) >= 0.0
    ensures v >= 0.0
    ensures v == 0.0 <==> Times(v, n) == 0.0
  {
    Cancel(0.0, v, n);
    if v > 0.0 {
      ProductIsPositive(v, n);
    }
  }
}
