/** Quantiles of a sorted sample (include/benchmark/stats.hpp), over the reals. */
module Quantiles {
  import opened Integers

  predicate Sorted(data: seq<real>)
  {
    forall i, j :: 0 <= i < j < |data| ==> data[i] <= data[j]
  }

  function Ceiling(x: real): (r: int)
    ensures r as real - 1.0 < x <= r as real
  {
    -((-x).Floor)
  }

  /** The point of interest, q * n - 1/2. */
  function Position(n: nat, q: real): (p: real)
    ensures p == q * n as real - 0.5
  {
    (1.0 - q) * -0.5 + q * (n as real - 0.5)
  }

  function Left(p: real): int { Max(p.Floor, 0) }

  function Right(n: nat, p: real): int { Min(Ceiling(p), n - 1) }

  lemma PositionRange(n: nat, q: real)
    requires n > 0 && 0.0 <= q <= 1.0
    ensures -0.5 <= Position(n, q) <= n as real - 0.5
  {
    ProductIsNatural(q, n as real);
    ProductIsNatural(1.0 - q, n as real);
    assert q * n as real + (1.0 - q) * n as real == n as real;
  }

  /** Both samples exist. They are neighbours around the position, and the same one when the
      position is a whole number or outside the sample. */
  lemma IndicesInRange(n: nat, q: real)
    requires n > 0 && 0.0 <= q <= 1.0
    ensures var p := Position(n, q);
            && 0 <= Left(p) <= Right(n, p) <= n - 1
            && Right(n, p) <= Left(p) + 1
            && (Left(p) < Right(n, p) ==> Left(p) as real < p < Right(n, p) as real)
            && (p < 0.0 ==> Right(n, p) == 0)
            && (p > (n - 1) as real ==> Left(p) == n - 1)
            && (0.0 <= p <= (n - 1) as real ==> Left(p) as real <= p <= Right(n, p) as real)
  {
    PositionRange(n, q);
  }

  function Interpolate(t: real, x: real, y: real): real
  {
    (1.0 - t) * x + t * y
  }

  /** quantile: interpolation between the two samples next to the position. */
  function Quantile(data: seq<real>, q: real): real
    requires data != [] && 0.0 <= q <= 1.0
  {
    IndicesInRange(|data|, q);
    var p := Position(|data|, q);
    var left, right := Left(p), Right(|data|, p);
    Interpolate(p - left as real, data[left], data[right])
  }

  lemma ProductIsNatural(a: real, b: real)
    requires a >= 0.0 && b >= 0.0
    ensures a * b >= 0.0
  {
  }

  lemma Interpolation(t: real, x: real, y: real)
    requires x == y || (0.0 <= t <= 1.0 && x <= y)
    ensures x <= Interpolate(t, x, y) <= y
  {
    assert Interpolate(t, x, y) == x + t * (y - x) == y - (1.0 - t) * (y - x);
    if x != y {
      ProductIsNatural(t, y - x);
      ProductIsNatural(1.0 - t, y - x);
    }
  }

  lemma QuantileIsBetween(data: seq<real>, q: real)
    requires data != [] && Sorted(data) && 0.0 <= q <= 1.0
    ensures var p := Position(|data|, q);
            && 0 <= Left(p) <= Right(|data|, p) < |data|
            && data[Left(p)] <= Quantile(data, q) <= data[Right(|data|, p)]
  {
    IndicesInRange(|data|, q);
    var p := Position(|data|, q);
    var left, right := Left(p), Right(|data|, p);
    assert left == right || (0.0 <= p - left as real <= 1.0 && data[left] <= data[right]);
    Interpolation(p - left as real, data[left], data[right]);
  }

  lemma InterpolationIsLinear(t: real, x: real, y: real)
    ensures Interpolate(t, x, y) - x == t * (y - x)
    ensures Interpolate(t, x, x) == x
  {
    assert (1.0 - t) * x + t * y == x + t * (y - x);
    assert t * (x - x) == 0.0;
  }

  /** Between two neighbouring samples the quantile runs linearly with the position q * n - 1/2; before the
      first position it is the first sample, after the last one the last. */
  lemma QuantileIsLinear(data: seq<real>, q: real, k: nat)
    requires data != [] && 0.0 <= q <= 1.0
    ensures k + 1 < |data| && k as real <= q * |data| as real - 0.5 <= (k + 1) as real ==>
              Quantile(data, q) - data[k] == (q * |data| as real - 0.5 - k as real) * (data[k + 1] - data[k])
    ensures q * |data| as real <= 0.5 ==> Quantile(data, q) == data[0]
    ensures q * |data| as real >= |data| as real - 0.5 ==> Quantile(data, q) == data[|data| - 1]
  {
    var n, p := |data|, Position(|data|, q);
    IndicesInRange(n, q);
    var left, right := Left(p), Right(n, p);
    InterpolationIsLinear(p - left as real, data[left], data[right]);
    if k + 1 < n && k as real <= p <= (k + 1) as real {
      if p == k as real {
        assert left == right == k;
        Vanishes(p - k as real, data[k + 1] - data[k]);
      } else if p == (k + 1) as real {
        assert left == right == k + 1;
        Whole(p - k as real, data[k + 1] - data[k]);
      } else {
        assert left == k && right == k + 1;
      }
    }
  }

  lemma Vanishes(t: real, d: real)
    requires t == 0.0
    ensures t * d == 0.0
  {
  }

  lemma Whole(t: real, d: real)
    requires t == 1.0
    ensures t * d == d
  {
  }

  lemma ScalesPosition(n: nat, q: real, r: real)
    requires q <= r
    ensures Position(n, q) <= Position(n, r)
  {
    ProductIsNatural(r - q, n as real);
    assert r * n as real - q * n as real == (r - q) * n as real;
  }

  lemma SameSegment(s: real, t: real, x: real, y: real)
    requires s <= t && x <= y
    ensures Interpolate(s, x, y) <= Interpolate(t, x, y)
  {
    ProductIsNatural(t - s, y - x);
    assert Interpolate(t, x, y) - Interpolate(s, x, y) == (t - s) * (y - x);
  }

  /** A higher rank has a higher quantile. */
  lemma QuantileIsMonotone(data: seq<real>, q: real, r: real)
    requires data != [] && Sorted(data) && 0.0 <= q <= r <= 1.0
    ensures Quantile(data, q) <= Quantile(data, r)
  {
    var n := |data|;
    ScalesPosition(n, q, r);
    IndicesInRange(n, q);
    IndicesInRange(n, r);
    QuantileIsBetween(data, q);
    QuantileIsBetween(data, r);
    var p, p' := Position(n, q), Position(n, r);
    if Left(p) == Left(p') && Right(n, p) == Right(n, p') {
      if Left(p) < Right(n, p) {
        SameSegment(p - Left(p) as real, p' - Left(p) as real, data[Left(p)], data[Right(n, p)]);
      }
    } else {
      assert Right(n, p) <= Left(p');
    }
  }

  /** x -> a * x + b on every sample. */
  function Transformed(data: seq<real>, a: real, b: real): (r: seq<real>)
    ensures |r| == |data|
    ensures forall i :: 0 <= i < |data| ==> r[i] == a * data[i] + b
  {
    seq(|data|, i requires 0 <= i < |data| => a * data[i] + b)
  }

  lemma InterpolationCommutes(t: real, x: real, y: real, a: real, b: real)
    ensures Interpolate(t, a * x + b, a * y + b) == a * Interpolate(t, x, y) + b
  {
    var u := 1.0 - t;
    assert u * (a * x + b) == u * (a * x) + u * b;
    assert t * (a * y + b) == t * (a * y) + t * b;
    assert u * b + t * b == b;
    assert u * (a * x) == a * (u * x);
    assert t * (a * y) == a * (t * y);
    assert a * (u * x) + a * (t * y) == a * (u * x + t * y);
  }

  lemma TransformedIsSorted(data: seq<real>, a: real, b: real)
    requires Sorted(data) && a >= 0.0
    ensures Sorted(Transformed(data, a, b))
  {
    forall i, j | 0 <= i < j < |data|
      ensures a * data[i] + b <= a * data[j] + b
    {
      ProductIsNatural(a, data[j] - data[i]);
      assert a * data[j] - a * data[i] == a * (data[j] - data[i]);
    }
  }

  /** Quantiles follow a change of unit or origin, which keeps the sample sorted. */
  lemma QuantileCommutes(data: seq<real>, q: real, a: real, b: real)
    requires data != [] && Sorted(data) && 0.0 <= q <= 1.0 && a >= 0.0
    ensures Sorted(Transformed(data, a, b))
    ensures Quantile(Transformed(data, a, b), q) == a * Quantile(data, q) + b
  {
    TransformedIsSorted(data, a, b);
    IndicesInRange(|data|, q);
    var p := Position(|data|, q);
    InterpolationCommutes(p - Left(p) as real, data[Left(p)], data[Right(|data|, p)], a, b);
  }

  // ---- Ranks ------------------------------------------------------------------

  function CountBelow(data: seq<real>, v: real): nat
  {
    if data == [] then 0 else CountBelow(data[..|data| - 1], v) + if data[|data| - 1] < v then 1 else 0
  }

  function CountUpTo(data: seq<real>, v: real): nat
  {
    if data == [] then 0 else CountUpTo(data[..|data| - 1], v) + if data[|data| - 1] <= v then 1 else 0
  }

  lemma {:induction false} CountsAreSizes(data: seq<real>, v: real)
    ensures CountBelow(data, v) == |set i: nat | i < |data| && data[i] < v|
    ensures CountUpTo(data, v) == |set i: nat | i < |data| && data[i] <= v|
  {
    if data != [] {
      var n, front := |data| - 1, data[..|data| - 1];
      CountsAreSizes(front, v);
      SizeNext((set i: nat | i < n && front[i] < v), (set i: nat | i < |data| && data[i] < v), n, data[n] < v);
      SizeNext((set i: nat | i < n && front[i] <= v), (set i: nat | i < |data| && data[i] <= v), n, data[n] <= v);
    }
  }

  lemma {:induction false} FewBelow(data: seq<real>, v: real, k: nat)
    requires forall i :: k <= i < |data| ==> data[i] >= v
    ensures CountBelow(data, v) <= k
  {
    if data != [] {
      if k < |data| {
        FewBelow(data[..|data| - 1], v, k);
      } else {
        FewBelow(data[..|data| - 1], v, k - 1);
      }
    }
  }

  lemma {:induction false} ManyUpTo(data: seq<real>, v: real, k: nat)
    requires k <= |data| && forall i :: 0 <= i < k ==> data[i] <= v
    ensures CountUpTo(data, v) >= k
  {
    if k > 0 {
      if k < |data| {
        ManyUpTo(data[..|data| - 1], v, k);
      } else {
        ManyUpTo(data[..|data| - 1], v, k - 1);
      }
    }
  }

  lemma RanksOfIndices(n: nat, q: real)
    requires n > 0 && 0.0 <= q <= 1.0
    ensures Right(n, Position(n, q)) as real < q * n as real + 0.5
    ensures (Left(Position(n, q)) + 1) as real > q * n as real - 0.5
  {
    PositionRange(n, q);
  }

  /** A value between two neighbouring samples of a sorted sample has their ranks. */
  lemma RanksBetween(data: seq<real>, v: real, left: nat, right: nat)
    requires Sorted(data) && left <= right < |data| && data[left] <= v <= data[right]
    ensures CountBelow(data, v) <= right && CountUpTo(data, v) >= left + 1
  {
    assert forall i :: right <= i < |data| ==> data[i] >= v;
    assert forall i :: 0 <= i < left + 1 ==> data[i] <= v;
    FewBelow(data, v, right);
    ManyUpTo(data, v, left + 1);
  }

  /** The rank guarantee: fewer than q * n + 1/2 samples lie below the q-quantile, and more than
      q * n - 1/2 do not lie above it. */
  lemma QuantileHasItsRank(data: seq<real>, q: real)
    requires data != [] && Sorted(data) && 0.0 <= q <= 1.0
    ensures CountBelow(data, Quantile(data, q)) as real < q * |data| as real + 0.5
    ensures CountUpTo(data, Quantile(data, q)) as real > q * |data| as real - 0.5
  {
    hide *;
    var n, p := |data|, Position(|data|, q);
    QuantileIsBetween(data, q);
    RanksOfIndices(n, q);
    RanksBetween(data, Quantile(data, q), Left(p), Right(n, p));
  }

  /** At one half: the middle sample, or the mean of the two middle ones. */
  lemma MedianIsTheMiddle(data: seq<real>)
    requires data != []
    ensures |data| % 2 == 1 ==> Quantile(data, 0.5) == data[|data| / 2]
    ensures |data| % 2 == 0 ==> Quantile(data, 0.5) == (data[|data| / 2 - 1] + data[|data| / 2]) / 2.0
  {
    var n, k := |data|, |data| / 2;
    var p := Position(n, 0.5);
    IndicesInRange(n, 0.5);
    if n % 2 == 1 {
      assert n == 2 * k + 1;
      assert p == k as real;
      assert Left(p) == Right(n, p) == k;
    } else {
      assert n == 2 * k;
      assert p == k as real - 0.5;
      assert Left(p) == k - 1 && Right(n, p) == k;
    }
  }
}

/** Sums over a sample: mean and variance. */
module Moments {
  import opened Bytes
  import opened Quantiles

  /** std::accumulate from zero. */
  function Total(f: u32 -> real, data: seq<u32>): real
  {
    if data == [] then 0.0 else Total(f, data[..|data| - 1]) + f(data[|data| - 1])
  }

  function Value(): u32 -> real { (x: u32) => x as real }

  function Square(): u32 -> real { (x: u32) => x as real * x as real }

  function Times(a: real, b: real): real { a * b }

  function SquaredDistance(x: real, c: real): real { Times(x - c, x - c) }

  /** The squared distance from a centre. */
  function Deviation(c: real): u32 -> real { (x: u32) => SquaredDistance(x as real, c) }

  /** The same as the code computes it: the sample goes through an `int` parameter. */
  function NarrowDeviation(c: real): u32 -> real
  {
    (x: u32) => SquaredDistance(ToInt32(x) as real, c)
  }

  lemma {:induction false} TotalConcat(f: u32 -> real, a: seq<u32>, b: seq<u32>)
    ensures Total(f, a + b) == Total(f, a) + Total(f, b)
    decreases |b|
  {
    if b == [] {
      assert a + b == a;
    } else {
      var n := |b| - 1;
      assert (a + b)[..|a + b| - 1] == a + b[..n];
      TotalConcat(f, a, b[..n]);
    }
  }

  lemma TotalOne(f: u32 -> real, x: u32)
    ensures Total(f, [x]) == f(x)
  {
    assert [x][..0] == [];
  }

  /** What is summed: samples, squares, squared distances, and these after the conversion to int. */
  lemma TotalsGrow(data: seq<u32>, x: u32, c: real)
    ensures Total(Value(), []) == Total(Square(), []) == Total(Deviation(c), []) == Total(NarrowDeviation(c), []) == 0.0
    ensures Total(Value(), data + [x]) == Total(Value(), data) + x as real
    ensures Total(Square(), data + [x]) == Total(Square(), data) + x as real * x as real
    ensures Total(Deviation(c), data + [x]) == Total(Deviation(c), data) + (x as real - c) * (x as real - c)
    ensures Total(NarrowDeviation(c), data + [x])
         == Total(NarrowDeviation(c), data) + (ToInt32(x) as real - c) * (ToInt32(x) as real - c)
  {
    hide Total;
    TotalNext(Value(), data, x);
    TotalNext(Square(), data, x);
    TotalNext(Deviation(c), data, x);
    TotalNext(NarrowDeviation(c), data, x);
  }

  lemma TotalNext(f: u32 -> real, data: seq<u32>, x: u32)
    ensures Total(f, []) == 0.0 && Total(f, data + [x]) == Total(f, data) + f(x)
  {
    assert (data + [x])[..|data|] == data;
  }

  /** A total does not depend on the order of the samples. */
  lemma {:induction false} TotalOfPermutation(f: u32 -> real, a: seq<u32>, b: seq<u32>)
    requires multiset(a) == multiset(b)
    ensures Total(f, a) == Total(f, b)
    decreases |a|
  {
    if a == [] {
      assert |multiset(b)| == |multiset(a)| == 0;
    } else {
      var n := |a| - 1;
      assert a == a[..n] + [a[n]];
      assert a[n] in multiset(b);
      var i :| 0 <= i < |b| && b[i] == a[n];
      WithoutOne(b, i);
      TotalWithout(f, b, i);
      TotalOfPermutation(f, a[..n], b[..i] + b[i + 1..]);
    }
  }

  lemma WithoutOne(b: seq<u32>, i: nat)
    requires i < |b|
    ensures multiset(b[..i] + b[i + 1..]) == multiset(b) - multiset{b[i]}
  {
    assert b == b[..i] + ([b[i]] + b[i + 1..]);
  }

  lemma TotalWithout(f: u32 -> real, b: seq<u32>, i: nat)
    requires i < |b|
    ensures Total(f, b) == Total(f, b[..i] + b[i + 1..]) + f(b[i])
  {
    hide *;
    assert b == b[..i] + ([b[i]] + b[i + 1..]);
    TotalInsert(f, b[..i], b[i], b[i + 1..]);
  }

  lemma TotalInsert(f: u32 -> real, front: seq<u32>, x: u32, back: seq<u32>)
    ensures Total(f, front + ([x] + back)) == Total(f, front + back) + f(x)
  {
    hide *;
    TotalConcat(f, front, back);
    TotalConcat(f, front, [x] + back);
    TotalConcat(f, [x], back);
    TotalOne(f, x);
  }

  ghost predicate IsMean(a: real, data: seq<u32>)
  {
    data != [] && a * |data| as real == Total(Value(), data)
  }

  lemma {:induction false} TotalBounds(data: seq<u32>, lo: real, hi: real)
    requires forall i :: 0 <= i < |data| ==> lo <= data[i] as real <= hi
    ensures lo * |data| as real <= Total(Value(), data) <= hi * |data| as real
  {
    if data != [] {
      var n := |data| - 1;
      TotalBounds(data[..n], lo, hi);
      BoundStep(Total(Value(), data[..n]), n as real, data[n] as real, lo, hi);
      assert |data| as real == n as real + 1.0;
    }
  }

  lemma BoundStep(s: real, n: real, x: real, lo: real, hi: real)
    requires lo * n <= s <= hi * n && lo <= x <= hi
    ensures lo * (n + 1.0) <= s + x <= hi * (n + 1.0)
  {
    assert lo * (n + 1.0) == lo * n + lo;
    assert hi * (n + 1.0) == hi * n + hi;
  }

  /** The mean lies between the extremes. */
  lemma MeanIsBetween(data: seq<u32>, a: real, lo: real, hi: real)
    requires IsMean(a, data) && forall i :: 0 <= i < |data| ==> lo <= data[i] as real <= hi
    ensures lo <= a <= hi
  {
    TotalBounds(data, lo, hi);
    Cancel(lo, a, |data| as real);
    Cancel(a, hi, |data| as real);
  }

  lemma Cancel(a: real, b: real, n: real)
    requires n > 0.0 && a * n <= b * n
    ensures a <= b
  {
    assert (a - b) * n == a * n - b * n;
    if a > b {
      ProductIsPositive(a - b, n);
    }
  }

  lemma ProductIsPositive(a: real, b: real)
    requires a > 0.0 && b > 0.0
    ensures a * b > 0.0
  {
  }

  /** The sum of squared distances from c of n samples with sum s and sum of squares q. */
  function Expansion(q: real, s: real, n: real, c: real): real
  {
    q - 2.0 * c * s + n * c * c
  }

  lemma ExpansionStep(q: real, s: real, n: real, x: real, c: real)
    ensures Expansion(q, s, n, c) + SquaredDistance(x, c) == Expansion(q + x * x, s + x, n + 1.0, c)
  {
  }

  /** The expansion for a sample. */
  function ExpansionOf(data: seq<u32>, c: real): real
  {
    Expansion(Total(Square(), data), Total(Value(), data), |data| as real, c)
  }

  lemma {:induction false} DeviationExpands(data: seq<u32>, c: real)
    ensures Total(Deviation(c), data) == ExpansionOf(data, c)
  {
    if data != [] {
      DeviationExpands(data[..|data| - 1], c);
      ExpansionGrows(data, c);
    }
  }

  lemma ExpansionGrows(data: seq<u32>, c: real)
    requires data != []
    ensures ExpansionOf(data, c)
         == ExpansionOf(data[..|data| - 1], c) + SquaredDistance(data[|data| - 1] as real, c)
  {
    var n := |data| - 1;
    ExpansionStep(Total(Square(), data[..n]), Total(Value(), data[..n]), n as real, data[n] as real, c);
  }

  lemma ExpansionAtMean(q: real, s: real, n: real, a: real)
    requires a * n == s
    ensures Expansion(q, s, n, a) == q - n * (a * a)
  {
    assert 2.0 * a * s == 2.0 * (n * (a * a)) by {
      assert a * s == a * (a * n) == n * (a * a);
    }
  }

  /** The accumulated total is the sum of squares minus n times the squared mean. */
  lemma DeviationFromMean(data: seq<u32>, a: real)
    requires IsMean(a, data)
    ensures Total(Deviation(a), data) == Total(Square(), data) - |data| as real * (a * a)
  {
    DeviationExpands(data, a);
    ExpansionAtMean(Total(Square(), data), Total(Value(), data), |data| as real, a);
  }

  /** Steiner's identity: moving the centre away from the mean adds n times the squared distance. */
  lemma Steiner(q: real, s: real, n: real, a: real, c: real)
    requires a * n == s
    ensures Expansion(q, s, n, c) == (q - n * (a * a)) + n * SquaredDistance(a, c)
  {
    assert c * s == n * (a * c) by {
      assert c * (a * n) == n * (a * c);
    }
    assert SquaredDistance(a, c) == a * a - 2.0 * (a * c) + c * c;
    assert n * SquaredDistance(a, c) == n * (a * a) - 2.0 * (n * (a * c)) + n * (c * c);
  }

  /** The mean is the one centre with the least sum of squared distances. */
  lemma MeanIsBestCentre(data: seq<u32>, a: real, c: real)
    requires IsMean(a, data)
    ensures Total(Deviation(c), data) == Total(Deviation(a), data) + |data| as real * SquaredDistance(a, c)
    ensures if c == a then Total(Deviation(c), data) == Total(Deviation(a), data)
            else Total(Deviation(c), data) > Total(Deviation(a), data)
  {
    DeviationExpands(data, c);
    DeviationExpands(data, a);
    BestCentre(Total(Square(), data), Total(Value(), data), |data| as real, a, c);
  }

  lemma BestCentre(q: real, s: real, n: real, a: real, c: real)
    requires a * n == s && n > 0.0
    ensures Expansion(q, s, n, c) == Expansion(q, s, n, a) + n * SquaredDistance(a, c)
    ensures if c == a then Expansion(q, s, n, c) == Expansion(q, s, n, a)
            else Expansion(q, s, n, c) > Expansion(q, s, n, a)
  {
    ExpansionAtMean(q, s, n, a);
    Steiner(q, s, n, a, c);
    if a != c {
      DistanceIsPositive(a, c);
      ProductIsPositive(n, SquaredDistance(a, c));
    }
  }

  lemma DistanceIsPositive(a: real, c: real)
    requires a != c
    ensures SquaredDistance(a, c) > 0.0
  {
    SquareIsPositive(a - c);
  }

  lemma SquareIsPositive(d: real)
    requires d != 0.0
    ensures Times(d, d) > 0.0
  {
    if d > 0.0 {
      TimesIsPositive(d, d);
    } else {
      TimesIsPositive(-d, -d);
      assert Times(-d, -d) == Times(d, d);
    }
  }

  lemma TimesIsPositive(a: real, b: real)
    requires a > 0.0 && b > 0.0
    ensures Times(a, b) > 0.0
  {
  }

  /** (hi - x) * (x - lo) summed over n samples with sum s and sum of squares q. */
  function Spread(s: real, q: real, n: real, lo: real, hi: real): real
  {
    (hi + lo) * s - q - n * (hi * lo)
  }

  /** The spread of a sample. */
  function SpreadOf(data: seq<u32>, lo: real, hi: real): real
  {
    Spread(Total(Value(), data), Total(Square(), data), |data| as real, lo, hi)
  }

  lemma {:induction false} SpreadIsNatural(data: seq<u32>, lo: real, hi: real)
    requires forall i :: 0 <= i < |data| ==> lo <= data[i] as real <= hi
    ensures SpreadOf(data, lo, hi) >= 0.0
  {
    if data != [] {
      SpreadIsNatural(data[..|data| - 1], lo, hi);
      SpreadGrows(data, lo, hi);
    }
  }

  lemma SpreadGrows(data: seq<u32>, lo: real, hi: real)
    requires data != [] && lo <= data[|data| - 1] as real <= hi
    ensures SpreadOf(data, lo, hi) >= SpreadOf(data[..|data| - 1], lo, hi)
  {
    var n := |data| - 1;
    SpreadStep(Total(Value(), data[..n]), Total(Square(), data[..n]), n as real, data[n] as real, lo, hi);
    ProductIsNatural(hi - data[n] as real, data[n] as real - lo);
  }

  lemma SpreadStep(s: real, q: real, n: real, x: real, lo: real, hi: real)
    ensures Spread(s + x, q + x * x, n + 1.0, lo, hi) == Spread(s, q, n, lo, hi) + (hi - x) * (x - lo)
  {
  }

  /** The Bhatia-Davis inequality: the total is at most n * (hi - mean) * (mean - lo). */
  lemma DeviationIsBounded(data: seq<u32>, a: real, lo: real, hi: real)
    requires IsMean(a, data) && forall i :: 0 <= i < |data| ==> lo <= data[i] as real <= hi
    ensures Total(Deviation(a), data) <= SpreadBound(|data| as real, a, lo, hi)
  {
    SpreadIsNatural(data, lo, hi);
    DeviationFromSpread(data, a, lo, hi);
  }

  lemma DeviationFromSpread(data: seq<u32>, a: real, lo: real, hi: real)
    requires IsMean(a, data)
    requires SpreadOf(data, lo, hi) >= 0.0
    ensures Total(Deviation(a), data) <= SpreadBound(|data| as real, a, lo, hi)
  {
    DeviationExpands(data, a);
    BhatiaDavis(Total(Value(), data), Total(Square(), data), |data| as real, a, lo, hi);
  }

  function SpreadBound(n: real, a: real, lo: real, hi: real): real
  {
    n * ((hi - a) * (a - lo))
  }

  lemma BhatiaDavis(s: real, q: real, n: real, a: real, lo: real, hi: real)
    requires a * n == s && Spread(s, q, n, lo, hi) >= 0.0
    ensures Expansion(q, s, n, a) <= SpreadBound(n, a, lo, hi)
  {
    ExpansionAtMean(q, s, n, a);
    SpreadAtMean(s, q, n, a, lo, hi);
  }

  lemma SpreadAtMean(s: real, q: real, n: real, a: real, lo: real, hi: real)
    requires a * n == s
    ensures Spread(s, q, n, lo, hi) == SpreadBound(n, a, lo, hi) - (q - n * (a * a))
  {
    assert (hi + lo) * (a * n) == n * ((hi + lo) * a);
    assert (hi - a) * (a - lo) == (hi + lo) * a - hi * lo - a * a;
    assert n * ((hi + lo) * a - hi * lo - a * a) == n * ((hi + lo) * a) - n * (hi * lo) - n * (a * a);
  }

  lemma DistanceIsNatural(a: real, c: real)
    ensures SquaredDistance(a, c) >= 0.0
    ensures SquaredDistance(a, c) == 0.0 <==> a == c
  {
    if a == c {
      assert SquaredDistance(a, c) == 0.0 * 0.0;
    } else {
      DistanceIsPositive(a, c);
    }
  }

  lemma {:induction false} DeviationIsNatural(data: seq<u32>, c: real)
    ensures Total(Deviation(c), data) >= 0.0
    ensures Total(Deviation(c), data) == 0.0 <==> forall i :: 0 <= i < |data| ==> data[i] as real == c
  {
    if data != [] {
      var n := |data| - 1;
      DeviationIsNatural(data[..n], c);
      DistanceIsNatural(data[n] as real, c);
      assert (forall i :: 0 <= i < |data| ==> data[i] as real == c)
        <==> (forall i :: 0 <= i < n ==> data[..n][i] as real == c) && data[n] as real == c;
    }
  }

  /** The total vanishes exactly when all samples are equal. */
  lemma NoDeviationIffConstant(data: seq<u32>, a: real)
    requires IsMean(a, data)
    ensures Total(Deviation(a), data) == 0.0 <==> forall i :: 0 <= i < |data| ==> data[i] == data[0]
  {
    DeviationIsNatural(data, a);
    if forall i :: 0 <= i < |data| ==> data[i] == data[0] {
      MeanIsBetween(data, a, data[0] as real, data[0] as real);
    }
  }

  // ---- The conversion to int --------------------------------------------------

  /** How many samples the conversion changes. */
  function HighCount(data: seq<u32>): nat
  {
    if data == [] then 0
    else HighCount(data[..|data| - 1]) + if data[|data| - 1] >= 0x8000_0000 then 1 else 0
  }

  /** By how much these exceed 2^31 together. */
  function HighExcess(data: seq<u32>): int
  {
    if data == [] then 0
    else HighExcess(data[..|data| - 1])
         + if data[|data| - 1] >= 0x8000_0000 then data[|data| - 1] - 0x8000_0000 else 0
  }

  lemma {:induction false} ConversionError(data: seq<u32>, c: real)
    ensures Total(NarrowDeviation(c), data)
         == Total(Deviation(c), data) + Surplus(HighCount(data) as real, HighExcess(data) as real, c)
  {
    if data != [] {
      var n := |data| - 1;
      ConversionError(data[..n], c);
      if data[n] >= 0x8000_0000 {
        ConversionStep(data[n] as real, HighCount(data[..n]) as real, HighExcess(data[..n]) as real, c);
      }
    }
  }

  /** What h changed samples with excess e add to the sum of squared distances from c. */
  function Surplus(h: real, e: real, c: real): real
  {
    8589934592.0 * (h * c - e)
  }

  lemma ConversionStep(x: real, h: real, e: real, c: real)
    ensures SquaredDistance(x - 4294967296.0, c) + Surplus(h, e, c)
         == SquaredDistance(x, c) + Surplus(h + 1.0, e + (x - 2147483648.0), c)
  {
    var d, w := x - c, 4294967296.0;
    assert SquaredDistance(x - w, c) == (d - w) * (d - w) == d * d - 2.0 * w * d + w * w;
    assert (h + 1.0) * c == h * c + c;
  }

  /** The code's total is the sum of squared distances from the mean exactly when the samples from
      2^31 on exceed 2^31 by the mean, on average; in particular when there are none. */
  lemma TotalIsExactIff(data: seq<u32>, a: real)
    ensures Total(NarrowDeviation(a), data) == Total(Deviation(a), data) <==>
            HighCount(data) as real * a == HighExcess(data) as real
    ensures (forall i :: 0 <= i < |data| ==> data[i] < 0x8000_0000) ==>
              Total(NarrowDeviation(a), data) == Total(Deviation(a), data)
  {
    ConversionError(data, a);
    if forall i :: 0 <= i < |data| ==> data[i] < 0x8000_0000 {
      NoneHigh(data);
    }
  }

  lemma {:induction false} NoneHigh(data: seq<u32>)
    requires forall i :: 0 <= i < |data| ==> data[i] < 0x8000_0000
    ensures HighCount(data) == HighExcess(data) == 0
  {
    if data != [] {
      NoneHigh(data[..|data| - 1]);
    }
  }

  /** Samples for which the code's total is wrong. */
  lemma TotalCanBeWrong()
    ensures var data := [0, 0x8000_0000];
            IsMean(1073741824.0, data)
            && Total(NarrowDeviation(1073741824.0), data) != Total(Deviation(1073741824.0), data)
  {
    var data: seq<u32> := [0, 0x8000_0000];
    TotalIsExactIff(data, 1073741824.0);
    assert data[..1] == [0] && data[..1][..0] == [];
    assert Total(Value(), data[..1]) == 0.0;
    assert Total(Value(), data) == 2147483648.0;
    assert HighCount(data[..1]) == 0 && HighExcess(data[..1]) == 0;
    assert HighCount(data) == 1 && HighExcess(data) == 0;
  }
}
