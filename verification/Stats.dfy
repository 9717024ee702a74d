/**
 Outlier cleaning and latency percentiles: benchmarks/core/stats.py, over exact reals.
 */
module Stats {
  import opened Arithmetic
  import opened Lists
  import opened Rounding
  import opened Sorting

  const SCALE := 0.6745

  predicate RealLeq(a: real, b: real) { a <= b }

  lemma RealLeqTotal()
    ensures TotalPreorder(RealLeq)
  {
  }

  function Sum(s: seq<real>): real {
    if s == [] then 0.0 else s[0] + Sum(s[1..])
  }

  function Mean(s: seq<real>): real
    requires s != []
  {
    Sum(s) / |s| as real
  }

  /** `statistics.median`. */
  function Median(s: seq<real>): real
    requires s != []
  {
    SortKeeps(s, RealLeq);
    Middle(Sort(s, RealLeq))
  }

  function Middle(t: seq<real>): real
    requires t != []
  {
    var n := |t|;
    if n % 2 == 1 then t[n / 2] else (t[n / 2 - 1] + t[n / 2]) / 2.0
  }

  function Distance(v: real, m: real): real {
    if v < m then m - v else v - m
  }

  function Distances(s: seq<real>, m: real): seq<real> {
    seq(|s|, i requires 0 <= i < |s| => Distance(s[i], m))
  }

  function SquaredDistance(v: real, m: real): real {
    (v - m) * (v - m)
  }

  function Squares(s: seq<real>, m: real): seq<real> {
    seq(|s|, i requires 0 <= i < |s| => SquaredDistance(s[i], m))
  }

  /** The square of `statistics.pstdev`. */
  function Variance(s: seq<real>): real
    requires s != []
  {
    Mean(Squares(s, Mean(s)))
  }

  /** The modified z-score test `0.6745 * d / mad <= threshold`. */
  predicate WithinMad(v: real, median: real, mad: real, threshold: real)
    requires mad != 0.0
  {
    SCALE * Distance(v, median) / mad <= threshold
  }

  /** `median - 3 * std <= v <= median + 3 * std`, squared: see StdTestSquared. */
  predicate WithinStd(v: real, median: real, variance: real) {
    SquaredDistance(v, median) <= 9.0 * variance
  }

  /** The samples that pass, before the `kept or vals` fallback. */
  function Kept(vals: seq<real>, threshold: real): seq<real>
    requires |vals| >= 3
  {
    var median := Median(vals);
    var mad := Median(Distances(vals, median));
    if mad == 0.0 then
      var variance := Variance(vals);
      if variance == 0.0 then vals else Filter(vals, v => WithinStd(v, median, variance))
    else Filter(vals, v => WithinMad(v, median, mad, threshold))
  }

  /** `clean_outliers`. */
  function CleanOutliers(vals: seq<real>, threshold: real): seq<real> {
    if |vals| < 3 then vals
    else
      var kept := Kept(vals, threshold);
      if kept == [] then vals else kept
  }

  // ----- how many samples survive

  /** Comparing squares is comparing with any square root of the variance. */
  lemma StdTestSquared(v: real, median: real, std: real)
    requires std >= 0.0
    ensures WithinStd(v, median, std * std) <==> median - 3.0 * std <= v <= median + 3.0 * std
  {
    var d, b := v - median, 3.0 * std;
    assert b * b == 9.0 * (std * std);
    SquareOrder(if d < 0.0 then -d else d, b);
    assert d * d == (-d) * (-d);
  }

  lemma SquareOrder(a: real, b: real)
    requires a >= 0.0 && b >= 0.0
    ensures a * a <= b * b <==> a <= b
  {
    assert b * b - a * a == (b - a) * (b + a);
    if a + b > 0.0 {
      SignOfProduct(b - a, b + a);
    }
  }

  lemma SignOfProduct(x: real, m: real)
    requires m > 0.0
    ensures x * m >= 0.0 <==> x >= 0.0
    ensures x * m <= 0.0 <==> x <= 0.0
  {
  }

  /** Dividing by a positive number undoes multiplying by it. */
  lemma QuotientBound(x: real, m: real, y: real)
    requires m > 0.0
    ensures x / m <= y <==> x <= y * m
    ensures x / m >= y <==> x >= y * m
  {
    var q := x / m;
    assert q * m == x;
    assert (y - q) * m == y * m - q * m;
    SignOfProduct(y - q, m);
  }

  function CountLe(s: seq<real>, x: real): nat {
    if s == [] then 0 else (if s[0] <= x then 1 else 0) + CountLe(s[1..], x)
  }

  lemma {:induction false} CountLeInsert(x: real, s: seq<real>, y: real)
    ensures CountLe(Insert(x, s, RealLeq), y) == CountLe(s, y) + if x <= y then 1 else 0
  {
    if s == [] || x <= s[0] {
      assert ([x] + s)[1..] == s;
    } else {
      CountLeInsert(x, s[1..], y);
    }
  }

  lemma {:induction false} CountLeSort(s: seq<real>, y: real)
    ensures CountLe(Sort(s, RealLeq), y) == CountLe(s, y)
  {
    if s != [] {
      CountLeSort(s[1..], y);
      CountLeInsert(s[0], Sort(s[1..], RealLeq), y);
    }
  }

  lemma {:induction false} CountLePrefix(s: seq<real>, k: nat, y: real)
    requires k <= |s| && forall i :: 0 <= i < k ==> s[i] <= y
    ensures CountLe(s, y) >= k
  {
    if k > 0 {
      CountLePrefix(s[1..], k - 1, y);
    }
  }

  lemma SortedBelowMiddle(t: seq<real>)
    requires t != [] && Ordered(t, RealLeq)
    ensures forall i :: 0 <= i < CeilDiv(|t|, 2) ==> t[i] <= Middle(t)
  {
    forall i | 0 <= i < CeilDiv(|t|, 2) ensures t[i] <= Middle(t) {
      assert forall j :: i < j < |t| ==> RealLeq(t[i], t[j]);
    }
  }

  /** At least half of any samples lie at or below their median. */
  lemma HalfBelowMedian(s: seq<real>)
    requires s != []
    ensures CountLe(s, Median(s)) >= CeilDiv(|s|, 2)
  {
    var t := Sort(s, RealLeq);
    RealLeqTotal();
    SortKeeps(s, RealLeq);
    SortOrdered(s, RealLeq);
    CountLeSort(s, Median(s));
    SortedBelowMiddle(t);
    CountLePrefix(t, CeilDiv(|s|, 2), Median(s));
  }

  lemma {:induction false} FilterAtLeast(vals: seq<real>, median: real, y: real, keep: real -> bool)
    requires forall v :: Distance(v, median) <= y ==> keep(v)
    ensures |Filter(vals, keep)| >= CountLe(Distances(vals, median), y)
  {
    if vals != [] {
      FilterAtLeast(vals[1..], median, y, keep);
      assert Distances(vals, median)[1..] == Distances(vals[1..], median);
    }
  }

  lemma MedianNonNegative(s: seq<real>)
    requires s != [] && forall i :: 0 <= i < |s| ==> s[i] >= 0.0
    ensures Median(s) >= 0.0
  {
    SortKeeps(s, RealLeq);
    SortMembers(s, RealLeq);
    var t := Sort(s, RealLeq);
    forall i | 0 <= i < |t| ensures t[i] >= 0.0 {
      assert t[i] in s;
    }
  }

  lemma NearPassesMad(d: real, mad: real, threshold: real)
    requires 0.0 <= d <= mad && mad > 0.0 && threshold >= SCALE
    ensures SCALE * d / mad <= threshold
  {
    assert SCALE * d <= SCALE * mad;
    QuotientBound(SCALE * d, mad, SCALE);
  }

  lemma HalfWithinMad(vals: seq<real>, median: real, mad: real, threshold: real)
    requires vals != [] && mad == Median(Distances(vals, median)) != 0.0 && threshold >= SCALE
    ensures |Filter(vals, v => WithinMad(v, median, mad, threshold))| >= CeilDiv(|vals|, 2)
  {
    var dev := Distances(vals, median);
    HalfBelowMedian(dev);
    MedianNonNegative(dev);
    var keep := v => WithinMad(v, median, mad, threshold);
    forall v | Distance(v, median) <= mad ensures keep(v) {
      NearPassesMad(Distance(v, median), mad, threshold);
    }
    FilterAtLeast(vals, median, mad, keep);
  }

  lemma HalfWithinStd(vals: seq<real>, median: real, variance: real)
    requires vals != [] && Median(Distances(vals, median)) == 0.0 && variance >= 0.0
    ensures |Filter(vals, v => WithinStd(v, median, variance))| >= CeilDiv(|vals|, 2)
  {
    HalfBelowMedian(Distances(vals, median));
    var keep := v => WithinStd(v, median, variance);
    forall v | Distance(v, median) <= 0.0 ensures keep(v) {
      assert v == median;
    }
    FilterAtLeast(vals, median, 0.0, keep);
  }

  /** At least half of the samples pass, in both branches. */
  lemma HalfKept(vals: seq<real>, threshold: real)
    requires |vals| >= 3 && threshold >= SCALE
    ensures |Kept(vals, threshold)| >= CeilDiv(|vals|, 2)
  {
    var median := Median(vals);
    var mad := Median(Distances(vals, median));
    if mad == 0.0 {
      VarianceNonNegative(vals);
      HalfWithinStd(vals, median, Variance(vals));
      CeilDivIs(|vals|, 2);
    } else {
      HalfWithinMad(vals, median, mad, threshold);
    }
  }

  lemma {:induction false} SumNonNegative(s: seq<real>)
    requires forall i :: 0 <= i < |s| ==> s[i] >= 0.0
    ensures Sum(s) >= 0.0
  {
    if s != [] {
      SumNonNegative(s[1..]);
    }
  }

  lemma SquareNonNegative(x: real)
    ensures x * x >= 0.0
  {
  }

  lemma PositiveSquare(x: real) returns (s: real)
    requires x != 0.0
    ensures s == x * x && s > 0.0
  {
    s := x * x;
    if x > 0.0 {
      SignOfProduct(x, x);
    } else {
      SignOfProduct(-x, -x);
      assert x * x == (-x) * (-x);
    }
  }

  lemma VarianceNonNegative(s: seq<real>)
    requires s != []
    ensures Variance(s) >= 0.0
  {
    var squares := Squares(s, Mean(s));
    forall i | 0 <= i < |squares| ensures squares[i] >= 0.0 {
      SquareNonNegative(s[i] - Mean(s));
    }
    SumNonNegative(squares);
    QuotientBound(Sum(squares), |squares| as real, 0.0);
  }

  /** `a` is `b` with some elements left out and the rest in place. */
  ghost predicate Subsequence<T>(a: seq<T>, b: seq<T>)
    decreases |b|
  {
    a == [] || (b != [] && (Subsequence(a, b[1..]) || (a[0] == b[0] && Subsequence(a[1..], b[1..]))))
  }

  /** Both lists may take the same element first, or only the longer one. */
  lemma SubsequenceFirst<T>(a: seq<T>, b: seq<T>, x: T)
    requires Subsequence(a, b)
    ensures Subsequence(a, [x] + b) && Subsequence([x] + a, [x] + b)
  {
    assert ([x] + b)[1..] == b && ([x] + a)[1..] == a;
  }

  lemma {:induction false} FilterSubsequence<T>(s: seq<T>, keep: T -> bool)
    ensures Subsequence(Filter(s, keep), s)
  {
    if s != [] {
      var rest := Filter(s[1..], keep);
      FilterSubsequence(s[1..], keep);
      SubsequenceFirst(rest, s[1..], s[0]);
      assert Filter(s, keep) == if keep(s[0]) then [s[0]] + rest else rest;
      assert s == [s[0]] + s[1..];
    }
  }

  lemma {:induction false} SubsequenceRefl<T>(s: seq<T>)
    ensures Subsequence(s, s)
  {
    if s != [] {
      SubsequenceRefl(s[1..]);
    }
  }

  /** The cleaned samples are at least half of the originals, in their order. */
  lemma CleanKeepsHalf(vals: seq<real>, threshold: real)
    requires threshold >= 0.6745
    ensures Subsequence(CleanOutliers(vals, threshold), vals)
    ensures |CleanOutliers(vals, threshold)| >= CeilDiv(|vals|, 2)
    ensures |vals| >= 3 ==> CleanOutliers(vals, threshold) == Kept(vals, threshold)
  {
    SubsequenceRefl(vals);
    if |vals| >= 3 {
      HalfKept(vals, threshold);
      var median := Median(vals);
      var mad := Median(Distances(vals, median));
      if mad == 0.0 {
        var variance := Variance(vals);
        FilterSubsequence(vals, v => WithinStd(v, median, variance));
      } else {
        FilterSubsequence(vals, v => WithinMad(v, median, mad, threshold));
      }
    }
  }

  lemma SortedAlready(s: seq<real>)
    requires Ordered(s, RealLeq)
    ensures Sort(s, RealLeq) == s
  {
    if s != [] {
      SortedAlready(s[1..]);
      assert |s| > 1 ==> RealLeq(s[0], s[1]);
    }
  }

  lemma CloserPassesMad(near: real, far: real, mad: real, threshold: real)
    requires near <= far && mad > 0.0 && SCALE * far / mad <= threshold
    ensures SCALE * near / mad <= threshold
  {
    QuotientBound(SCALE * far, mad, threshold);
    QuotientBound(SCALE * near, mad, threshold);
  }

  lemma NearestWithinStd(vals: seq<real>, median: real, variance: real, u: real, v: real)
    requires u in vals && v in Filter(vals, x => WithinStd(x, median, variance))
    requires Distance(u, median) <= Distance(v, median)
    ensures u in Filter(vals, x => WithinStd(x, median, variance))
  {
    FilterMembers(vals, x => WithinStd(x, median, variance), v);
    FilterMembers(vals, x => WithinStd(x, median, variance), u);
    SquareOrder(Distance(u, median), Distance(v, median));
    DistanceSquared(u, median);
    DistanceSquared(v, median);
  }

  lemma DistanceSquared(v: real, m: real)
    ensures Distance(v, m) * Distance(v, m) == SquaredDistance(v, m)
  {
  }

  lemma NearestWithinMad(vals: seq<real>, median: real, mad: real, threshold: real, u: real, v: real)
    requires mad > 0.0 && u in vals && v in Filter(vals, x => WithinMad(x, median, mad, threshold))
    requires Distance(u, median) <= Distance(v, median)
    ensures u in Filter(vals, x => WithinMad(x, median, mad, threshold))
  {
    FilterMembers(vals, x => WithinMad(x, median, mad, threshold), v);
    FilterMembers(vals, x => WithinMad(x, median, mad, threshold), u);
    CloserPassesMad(Distance(u, median), Distance(v, median), mad, threshold);
  }

  /** What is dropped lies farther out than everything that is kept. */
  lemma KeptAreTheNearest(vals: seq<real>, threshold: real, u: real, v: real)
    requires |vals| >= 3 && u in vals && v in Kept(vals, threshold)
    requires Distance(u, Median(vals)) <= Distance(v, Median(vals))
    ensures u in Kept(vals, threshold)
  {
    var median := Median(vals);
    var mad := Median(Distances(vals, median));
    if mad != 0.0 {
      MedianNonNegative(Distances(vals, median));
      NearestWithinMad(vals, median, mad, threshold, u, v);
    } else if Variance(vals) != 0.0 {
      NearestWithinStd(vals, median, Variance(vals), u, v);
    }
  }

  /** The test a sample must pass, in the branch the samples select. */
  predicate Passes(vals: seq<real>, threshold: real, v: real)
    requires |vals| >= 3
  {
    var median := Median(vals);
    var mad := Median(Distances(vals, median));
    if mad == 0.0 then Variance(vals) == 0.0 || WithinStd(v, median, Variance(vals))
    else WithinMad(v, median, mad, threshold)
  }

  lemma KeptExactly(vals: seq<real>, threshold: real, v: real)
    requires |vals| >= 3
    ensures v in Kept(vals, threshold) <==> v in vals && Passes(vals, threshold, v)
  {
    var median := Median(vals);
    var mad := Median(Distances(vals, median));
    if mad == 0.0 {
      var variance := Variance(vals);
      FilterMembers(vals, x => WithinStd(x, median, variance), v);
    } else {
      FilterMembers(vals, x => WithinMad(x, median, mad, threshold), v);
    }
  }

  lemma KeptAll(vals: seq<real>, threshold: real)
    requires |vals| >= 3 && forall v :: v in vals ==> Passes(vals, threshold, v)
    ensures Kept(vals, threshold) == vals
  {
    var median := Median(vals);
    var mad := Median(Distances(vals, median));
    if mad != 0.0 {
      FilterAll(vals, v => WithinMad(v, median, mad, threshold));
    } else if Variance(vals) != 0.0 {
      var variance := Variance(vals);
      FilterAll(vals, v => WithinStd(v, median, variance));
    }
  }

  /**
   Nothing is dropped exactly when the sample farthest from the median passes
   its test; the fallback adds the case that no sample passes.
   */
  lemma NothingDroppedExactly(vals: seq<real>, threshold: real, far: real)
    requires |vals| >= 3 && far in vals
    requires forall v :: v in vals ==> Distance(v, Median(vals)) <= Distance(far, Median(vals))
    ensures Kept(vals, threshold) == vals <==> Passes(vals, threshold, far)
    ensures CleanOutliers(vals, threshold) == vals
            <==> Passes(vals, threshold, far) || forall v :: v in vals ==> !Passes(vals, threshold, v)
    ensures threshold >= 0.6745 ==> (CleanOutliers(vals, threshold) == vals <==> Passes(vals, threshold, far))
  {
    KeptExactly(vals, threshold, far);
    if Passes(vals, threshold, far) {
      forall v | v in vals ensures Passes(vals, threshold, v) {
        KeptAreTheNearest(vals, threshold, v, far);
        KeptExactly(vals, threshold, v);
      }
      KeptAll(vals, threshold);
    }
    KeptNoneExactly(vals, threshold);
    if threshold >= SCALE {
      CleanKeepsHalf(vals, threshold);
    }
  }

  lemma KeptNoneExactly(vals: seq<real>, threshold: real)
    requires |vals| >= 3
    ensures Kept(vals, threshold) == [] <==> forall v :: v in vals ==> !Passes(vals, threshold, v)
  {
    var kept := Kept(vals, threshold);
    if kept != [] {
      assert kept[0] in kept;
      KeptExactly(vals, threshold, kept[0]);
    }
    forall v | v in vals ensures kept == [] ==> !Passes(vals, threshold, v) {
      KeptExactly(vals, threshold, v);
    }
  }

  /** So the result can be smaller than the input. */
  lemma LargeSampleDropped()
    ensures CleanOutliers([1.0, 2.0, 3.0, 100.0], 3.5) == [1.0, 2.0, 3.0]
  {
    var vals := [1.0, 2.0, 3.0, 100.0];
    SortedAlready(vals);
    assert Median(vals) == 2.5;
    DeviationsSort(vals);
    var keep := v => WithinMad(v, 2.5, 1.0, 3.5);
    assert Filter(vals, keep) == [1.0, 2.0, 3.0] by {
      assert vals[1..] == [2.0, 3.0, 100.0] && vals[1..][1..] == [3.0, 100.0] && vals[1..][1..][1..] == [100.0];
      assert keep(1.0) && keep(2.0) && keep(3.0) && !keep(100.0);
    }
  }

  lemma DeviationsSort(vals: seq<real>)
    requires vals == [1.0, 2.0, 3.0, 100.0]
    ensures Median(Distances(vals, 2.5)) == 1.0
  {
    var devs := Distances(vals, 2.5);
    assert devs == [1.5, 0.5, 0.5, 97.5];
    SortedAlready([0.5, 0.5, 97.5]);
    assert devs[1..] == [0.5, 0.5, 97.5];
    assert Sort(devs, RealLeq) == Insert(1.5, [0.5, 0.5, 97.5], RealLeq);
    assert [0.5, 0.5, 97.5][1..] == [0.5, 97.5] && [0.5, 97.5][1..] == [97.5];
    assert Insert(1.5, [97.5], RealLeq) == [1.5, 97.5];
    assert Insert(1.5, [0.5, 97.5], RealLeq) == [0.5, 1.5, 97.5];
    assert Sort(devs, RealLeq) == [0.5, 0.5, 1.5, 97.5];
  }

  /** The median, from any ordered arrangement of the samples: the middle one, or halfway between the middle two. */
  lemma MedianExactly(s: seq<real>, t: seq<real>)
    requires s != [] && multiset(t) == multiset(s) && forall i, j :: 0 <= i < j < |t| ==> t[i] <= t[j]
    ensures |t| == |s|
    ensures |s| % 2 == 1 ==> Median(s) == t[|s| / 2]
    ensures |s| % 2 == 0 ==> 2.0 * Median(s) == t[|s| / 2 - 1] + t[|s| / 2]
  {
    RealLeqTotal();
    SortKeeps(s, RealLeq);
    SortOrdered(s, RealLeq);
    assert Ordered(t, RealLeq);
    OrderedUnique(Sort(s, RealLeq), t, RealLeq);
  }

  /** The test of each branch, without division and with the constants as they are. */
  lemma PassesExactly(vals: seq<real>, threshold: real, v: real)
    requires |vals| >= 3
    ensures var median := Median(vals);
            var mad := Median(Distances(vals, median));
            var d := if v < median then median - v else v - median;
            && mad >= 0.0
            && (mad > 0.0 ==> (Passes(vals, threshold, v) <==> 0.6745 * d <= threshold * mad))
            && (mad == 0.0 ==> (Passes(vals, threshold, v) <==> Variance(vals) == 0.0 || d * d <= 9.0 * Variance(vals)))
  {
    var median := Median(vals);
    var mad := Median(Distances(vals, median));
    MedianNonNegative(Distances(vals, median));
    if mad > 0.0 {
      QuotientBound(SCALE * Distance(v, median), mad, threshold);
    } else {
      DistanceSquared(v, median);
    }
  }

  /** What is returned: the samples that pass, in place, or all of them when none passes or there are only two. */
  lemma CleanExactly(vals: seq<real>, threshold: real)
    ensures |vals| < 3 ==> CleanOutliers(vals, threshold) == vals
    ensures |vals| >= 3 ==>
              var kept := Filter(vals, v => Passes(vals, threshold, v));
              CleanOutliers(vals, threshold) == if kept == [] then vals else kept
  {
    if |vals| >= 3 {
      var median := Median(vals);
      var mad := Median(Distances(vals, median));
      var variance := Variance(vals);
      if mad == 0.0 && variance == 0.0 {
        FilterAll(vals, v => Passes(vals, threshold, v));
      } else if mad == 0.0 {
        FilterSame(vals, v => Passes(vals, threshold, v), v => WithinStd(v, median, variance));
      } else {
        FilterSame(vals, v => Passes(vals, threshold, v), v => WithinMad(v, median, mad, threshold));
      }
    }
  }

  lemma MeanTimes(s: seq<real>, mean: real, n: real)
    requires s != [] && mean == Mean(s) && n == |s| as real
    ensures mean * n == Sum(s)
  {
    QuotientTimes(Sum(s), n);
  }

  /** Mean and variance, without division. */
  lemma VarianceExactly(s: seq<real>, n: real, mean: real, variance: real)
    requires s != [] && n == |s| as real && mean == Mean(s) && variance == Variance(s)
    ensures mean * n == Sum(s) && variance * n == Sum(Squares(s, mean))
  {
    MeanTimes(s, mean, n);
    MeanTimes(Squares(s, mean), variance, n);
  }

  lemma QuotientTimes(a: real, n: real)
    requires n > 0.0
    ensures a / n * n == a
  {
  }

  lemma SumSquaresFirst(s: seq<real>, m: real)
    requires s != []
    ensures Sum(Squares(s, m)) == SquaredDistance(s[0], m) + Sum(Squares(s[1..], m))
  {
    var rest := Squares(s[1..], m);
    assert Squares(s, m) == [SquaredDistance(s[0], m)] + rest;
    assert Squares(s, m)[1..] == rest;
  }

  // ----- one spike among equal samples

  ghost predicate TwoValued(s: seq<real>, x: real, y: real) {
    forall v :: v in s ==> v == x || v == y
  }

  lemma TwoValuedTail(s: seq<real>, x: real, y: real)
    requires s != [] && TwoValued(s, x, y)
    ensures (s[0] == x || s[0] == y) && TwoValued(s[1..], x, y)
    ensures x != y ==> multiset(s)[y] == multiset(s[1..])[y] + if s[0] == y then 1 else 0
  {
    assert s == [s[0]] + s[1..];
    assert forall v :: v in s[1..] ==> v in s;
    assert s[0] in s;
  }

  /** All samples are `x` but one, which is `y`. */
  ghost predicate LoneOutlier(vals: seq<real>, x: real, y: real) {
    x != y && multiset(vals)[y] == 1 && TwoValued(vals, x, y)
  }

  lemma TwiceIn(t: seq<real>, i: nat, j: nat)
    requires i < j < |t| && t[i] == t[j]
    ensures multiset(t)[t[i]] >= 2
  {
    assert t == t[..j] + [t[j]] + t[j + 1..];
    assert t[..j][i] in multiset(t[..j]);
  }

  lemma MiddleIsCommon(t: seq<real>, x: real, y: real)
    requires |t| >= 3 && Ordered(t, RealLeq) && LoneOutlier(t, x, y)
    ensures Middle(t) == x
  {
    forall i | 0 < i < |t| - 1 ensures t[i] == x {
      assert t[i - 1] in t && t[i] in t && t[i + 1] in t;
      if t[i] == y {
        assert RealLeq(t[i - 1], t[i]) && RealLeq(t[i], t[i + 1]);
        if t[i - 1] == y {
          TwiceIn(t, i - 1, i);
        } else if t[i + 1] == y {
          TwiceIn(t, i, i + 1);
        }
      }
    }
  }

  /** The median does not see a lone outlier. */
  lemma MedianIsCommon(vals: seq<real>, x: real, y: real)
    requires |vals| >= 3 && LoneOutlier(vals, x, y)
    ensures Median(vals) == x
  {
    RealLeqTotal();
    SortKeeps(vals, RealLeq);
    SortMembers(vals, RealLeq);
    SortOrdered(vals, RealLeq);
    MiddleIsCommon(Sort(vals, RealLeq), x, y);
  }

  lemma {:induction false} DistancesCount(vals: seq<real>, x: real, y: real)
    requires x != y && TwoValued(vals, x, y)
    ensures multiset(Distances(vals, x))[Distance(y, x)] == multiset(vals)[y]
    ensures forall d :: d in Distances(vals, x) ==> d == 0.0 || d == Distance(y, x)
  {
    if vals != [] {
      var rest := Distances(vals[1..], x);
      TwoValuedTail(vals, x, y);
      DistancesCount(vals[1..], x, y);
      assert Distances(vals, x) == [Distance(vals[0], x)] + rest;
    }
  }

  function Times(k: nat, x: real): real {
    if k == 0 then 0.0 else x + Times(k - 1, x)
  }

  lemma {:induction false} TimesIs(k: nat, x: real)
    ensures Times(k, x) == k as real * x
  {
    if k > 0 {
      TimesIs(k - 1, x);
      assert k as real * x == (k - 1) as real * x + x;
    }
  }

  lemma {:induction false} SumTwo(s: seq<real>, x: real, y: real)
    requires x != y && TwoValued(s, x, y)
    ensures multiset(s)[y] <= |s|
    ensures Sum(s) == Times(|s| - multiset(s)[y], x) + Times(multiset(s)[y], y)
  {
    if s != [] {
      TwoValuedTail(s, x, y);
      SumTwo(s[1..], x, y);
    }
  }

  lemma {:induction false} SumSquaresTwo(s: seq<real>, x: real, y: real, m: real)
    requires x != y && TwoValued(s, x, y)
    ensures multiset(s)[y] <= |s|
    ensures Sum(Squares(s, m))
            == Times(|s| - multiset(s)[y], SquaredDistance(x, m)) + Times(multiset(s)[y], SquaredDistance(y, m))
  {
    if s != [] {
      TwoValuedTail(s, x, y);
      SumSquaresTwo(s[1..], x, y, m);
      SumSquaresFirst(s, m);
    }
  }

  lemma LoneSum(n: nat, x: real, y: real)
    requires n > 0
    ensures Times(n - 1, x) + Times(1, y) == (n as real - 1.0) * x + y
  {
    TimesIs(n - 1, x);
    var r := n as real - 1.0;
    assert (n - 1) as real == r;
    assert Times(n - 1, x) == r * x;
    assert Times(0, y) == 0.0;
    assert Times(1, y) == y + Times(1 - 1, y);
  }

  lemma LoneMean(vals: seq<real>, x: real, y: real, e: real)
    requires |vals| >= 3 && LoneOutlier(vals, x, y) && y - x == |vals| as real * e
    ensures Mean(vals) == x + e
  {
    var n := |vals| as real;
    SumTwo(vals, x, y);
    LoneSum(|vals|, x, y);
    assert (n - 1.0) * x + y == (x + e) * n;
    QuotientIs(Sum(vals), n, x + e);
  }

  /** With the mean `e` away from the common value, the variance is `(n - 1) * e^2`. */
  lemma LoneVariance(vals: seq<real>, x: real, y: real, e: real)
    requires |vals| >= 3 && LoneOutlier(vals, x, y) && y - x == |vals| as real * e
    ensures Variance(vals) == (|vals| as real - 1.0) * (e * e)
  {
    var n, m := |vals| as real, x + e;
    LoneMean(vals, x, y, e);
    SumSquaresTwo(vals, x, y, m);
    LoneSum(|vals|, SquaredDistance(x, m), SquaredDistance(y, m));
    LoneSquares(n, e, SquaredDistance(x, m), SquaredDistance(y, m));
    QuotientIs(Sum(Squares(vals, m)), n, (n - 1.0) * (e * e));
  }

  lemma QuotientIs(a: real, n: real, q: real)
    requires n > 0.0 && a == q * n
    ensures a / n == q
  {
  }

  lemma LoneSquares(n: real, e: real, p: real, q: real)
    requires p == (-e) * (-e) && q == (n * e - e) * (n * e - e)
    ensures (n - 1.0) * p + q == (n - 1.0) * (e * e) * n
  {
    var s := e * e;
    assert p == s;
    assert n * e - e == (n - 1.0) * e;
    SquareOfProduct(n - 1.0, e);
    assert (n - 1.0) * s + (n - 1.0) * (n - 1.0) * s == (n - 1.0) * s * n;
  }

  /** A sample `n * e` away passes exactly when `n^2 <= 9 (n - 1)`: for 3 to 7 samples. */
  lemma LoneTest(k: nat, s: real, squared: real, variance: real)
    requires k >= 3 && s > 0.0
    requires var n := k as real; squared == n * n * s && variance == (n - 1.0) * s
    ensures squared <= 9.0 * variance <==> k <= 7
  {
    var n := k as real;
    var d := 9.0 * (n - 1.0) - n * n;
    assert 9.0 * variance - squared == d * s;
    SignOfProduct(d, s);
    assert d == (9 * (k - 1) - k * k) as real;
    if k >= 8 {
      assert k * k >= 8 * k;
    } else {
      assert k * k <= 7 * k;
    }
  }

  lemma SpikePasses(vals: seq<real>, threshold: real, x: real, y: real)
    requires |vals| >= 3 && LoneOutlier(vals, x, y)
    ensures Passes(vals, threshold, y) <==> |vals| <= 7
    ensures Passes(vals, threshold, x)
  {
    assert Median(vals) == x by { MedianIsCommon(vals, x, y); }
    assert Median(Distances(vals, x)) == 0.0 by {
      DistancesCount(vals, x, y);
      MedianIsCommon(Distances(vals, x), 0.0, Distance(y, x));
    }
    SpikeWithinStd(vals, x, y);
    assert SquaredDistance(x, x) == 0.0;
  }

  lemma SpikeWithinStd(vals: seq<real>, x: real, y: real)
    requires |vals| >= 3 && LoneOutlier(vals, x, y)
    ensures Variance(vals) > 0.0
    ensures WithinStd(y, x, Variance(vals)) <==> |vals| <= 7
  {
    var n := |vals| as real;
    var e := (y - x) / n;
    assert y - x == n * e;
    var s := PositiveSquare(e);
    LoneVariance(vals, x, y, e);
    assert Variance(vals) == (n - 1.0) * s;
    SignOfProduct(n - 1.0, s);
    assert (n - 1.0) * s > 0.0;
    assert SquaredDistance(y, x) == n * n * s by { SquareOfProduct(n, e); }
    LoneTest(|vals|, s, SquaredDistance(y, x), Variance(vals));
  }

  lemma SquareOfProduct(n: real, e: real)
    ensures (n * e) * (n * e) == n * n * (e * e)
  {
  }

  lemma BothOccur(vals: seq<real>, x: real, y: real)
    requires |vals| >= 3 && LoneOutlier(vals, x, y)
    ensures x in vals && y in vals
  {
    assert y in multiset(vals);
    assert vals[0] in vals && vals[1] in vals;
    if vals[0] == vals[1] {
      TwiceIn(vals, 0, 1);
    }
  }

  /**
   A single spike among otherwise equal samples hides itself below eight
   samples, however large it is and whatever the threshold.
   */
  lemma SpikeDroppedExactly(vals: seq<real>, threshold: real, x: real, y: real)
    requires |vals| >= 3 && LoneOutlier(vals, x, y)
    ensures y in CleanOutliers(vals, threshold) <==> |vals| <= 7
    ensures x in CleanOutliers(vals, threshold)
  {
    BothOccur(vals, x, y);
    SpikePasses(vals, threshold, x, y);
    KeptExactly(vals, threshold, y);
    KeptExactly(vals, threshold, x);
  }

  lemma MedianOfFour(a: real, b: real, c: real, d: real)
    requires a <= b <= c <= d
    ensures Median([a, b, c, d]) == (b + c) / 2.0
  {
    var t := [a, b, c, d];
    SortedAlready(t);
    assert Middle(t) == (t[1] + t[2]) / 2.0;
  }

  lemma TwoPairsMedians()
    ensures Median([0.0, 0.0, 2.0, 2.0]) == 1.0 && Median(Distances([0.0, 0.0, 2.0, 2.0], 1.0)) == 1.0
  {
    MedianOfFour(0.0, 0.0, 2.0, 2.0);
    MedianOfFour(1.0, 1.0, 1.0, 1.0);
    assert Distances([0.0, 0.0, 2.0, 2.0], 1.0) == [1.0, 1.0, 1.0, 1.0];
  }

  /** Two pairs of equal samples: everything is one MAD away, so a low threshold rejects it all. */
  lemma TwoPairs(threshold: real)
    requires threshold < SCALE
    ensures Kept([0.0, 0.0, 2.0, 2.0], threshold) == []
  {
    TwoPairsMedians();
    FilterNone([0.0, 0.0, 2.0, 2.0], v => WithinMad(v, 1.0, 1.0, threshold));
  }

  /** The `kept or vals` fallback is dead code exactly for thresholds of at least 0.6745. */
  lemma FallbackNeverTaken(threshold: real)
    ensures (forall vals: seq<real> :: |vals| >= 3 ==> Kept(vals, threshold) != []) <==> threshold >= 0.6745
  {
    if threshold >= SCALE {
      forall vals: seq<real> | |vals| >= 3 ensures Kept(vals, threshold) != [] {
        HalfKept(vals, threshold);
      }
    } else {
      TwoPairs(threshold);
    }
  }

  // ----- the statistics block

  function Min(s: seq<real>): real
    requires s != []
  {
    if |s| == 1 then s[0]
    else
      var rest := Min(s[1..]);
      if s[0] <= rest then s[0] else rest
  }

  function Max(s: seq<real>): real
    requires s != []
  {
    if |s| == 1 then s[0]
    else
      var rest := Max(s[1..]);
      if s[0] >= rest then s[0] else rest
  }

  /** `_pct`'s index into the sorted samples. */
  function PercentileIndex(p: int, n: nat): int
    requires n > 0
  {
    if n == 1 then 0
    else
      var idx := RoundHalfEven(p * (n - 1), 100);
      var low := if idx < 0 then 0 else idx;
      if low > n - 1 then n - 1 else low
  }

  lemma PercentileIndexInside(p: int, n: nat)
    requires n > 0
    ensures 0 <= PercentileIndex(p, n) < n
  {
  }

  /** For a real percentile the clamps do nothing: the index is the nearest rank. */
  lemma PercentileIsNearestRank(p: int, n: nat)
    requires 0 <= p <= 100 && n > 1
    ensures IsRounded(PercentileIndex(p, n), p * (n - 1), 100)
  {
    RoundNearest(p * (n - 1), 100);
    assert 0 <= p * (n - 1) by { MulLe(0, p, n - 1); }
    assert p * (n - 1) <= 100 * (n - 1) by { MulLe(p, 100, n - 1); }
    RoundMonotone(0, p * (n - 1), 100);
    RoundMonotone(p * (n - 1), (n - 1) * 100, 100);
    RoundWhole(0, 100);
    RoundWhole(n - 1, 100);
  }

  function Percentile(s: seq<real>, p: int): real
    requires s != []
  {
    SortKeeps(s, RealLeq);
    PercentileIndexInside(p, |s|);
    Sort(s, RealLeq)[PercentileIndex(p, |s|)]
  }

  datatype SampleStats =
    SampleStats(n: nat, dropped: int, mean: real, p50: real, p95: real, p99: real, min: real, max: real)

  const DEFAULT_THRESHOLD := 3.5

  /** `sample_stats`. */
  function Summarize(vals: seq<real>): SampleStats {
    if vals == [] then SampleStats(0, 0, 0.0, 0.0, 0.0, 0.0, 0.0, 0.0)
    else
      CleanKeepsHalf(vals, DEFAULT_THRESHOLD);
      CeilDivIs(|vals|, 2);
      var cleaned := CleanOutliers(vals, DEFAULT_THRESHOLD);
      SampleStats(|vals|, |vals| - |cleaned|, Mean(cleaned),
                  Percentile(cleaned, 50), Percentile(cleaned, 95), Percentile(cleaned, 99),
                  Min(vals), Max(vals))
  }

  lemma {:induction false} MinMaxBound(s: seq<real>)
    requires s != []
    ensures Min(s) in s && Max(s) in s
    ensures forall x :: x in s ==> Min(s) <= x <= Max(s)
  {
    if |s| > 1 {
      MinMaxBound(s[1..]);
      assert s == [s[0]] + s[1..];
    }
  }

  lemma {:induction false} SubsequenceMembers<T>(a: seq<T>, b: seq<T>)
    requires Subsequence(a, b)
    ensures forall i :: 0 <= i < |a| ==> a[i] in b
    decreases |b|
  {
    if a != [] {
      if Subsequence(a, b[1..]) {
        SubsequenceMembers(a, b[1..]);
      } else {
        SubsequenceMembers(a[1..], b[1..]);
      }
    }
  }

  lemma {:induction false} SumBetween(s: seq<real>, lo: real, hi: real)
    requires forall i :: 0 <= i < |s| ==> lo <= s[i] <= hi
    ensures lo * |s| as real <= Sum(s) <= hi * |s| as real
  {
    if s != [] {
      SumBetween(s[1..], lo, hi);
      assert |s| as real == |s[1..]| as real + 1.0;
    }
  }

  lemma MeanBetween(s: seq<real>, lo: real, hi: real)
    requires s != [] && forall i :: 0 <= i < |s| ==> lo <= s[i] <= hi
    ensures lo <= Mean(s) <= hi
  {
    SumBetween(s, lo, hi);
    QuotientBound(Sum(s), |s| as real, lo);
    QuotientBound(Sum(s), |s| as real, hi);
  }

  /** A higher percentile is never a smaller sample, and each one is a sample. */
  lemma PercentilesAscend(s: seq<real>, p: int, q: int)
    requires s != [] && p <= q
    ensures Percentile(s, p) <= Percentile(s, q)
    ensures Percentile(s, p) in s
  {
    RealLeqTotal();
    SortKeeps(s, RealLeq);
    SortOrdered(s, RealLeq);
    SortMembers(s, RealLeq);
    var n := |s|;
    assert p * (n - 1) <= q * (n - 1) by { MulLe(p, q, n - 1); }
    RoundMonotone(p * (n - 1), q * (n - 1), 100);
    var i, j := PercentileIndex(p, n), PercentileIndex(q, n);
    PercentileIndexInside(p, n);
    PercentileIndexInside(q, n);
    assert i <= j;
    assert i < j ==> RealLeq(Sort(s, RealLeq)[i], Sort(s, RealLeq)[j]);
    assert Sort(s, RealLeq)[i] in Sort(s, RealLeq);
  }

  /** Every summary of at least one sample is ordered and drops at most half. */
  lemma SummaryOrdered(vals: seq<real>)
    requires vals != []
    ensures var r := Summarize(vals);
            && r.min <= r.p50 <= r.p95 <= r.p99 <= r.max
            && r.min <= r.mean <= r.max
            && r.n == |vals| && 0 <= r.dropped <= |vals| / 2
  {
    var cleaned := CleanOutliers(vals, DEFAULT_THRESHOLD);
    CleanKeepsHalf(vals, DEFAULT_THRESHOLD);
    CeilDivIs(|vals|, 2);
    SubsequenceMembers(cleaned, vals);
    SubsequenceShorter(cleaned, vals);
    MinMaxBound(vals);
    MeanBetween(cleaned, Min(vals), Max(vals));
    PercentilesAscend(cleaned, 50, 95);
    PercentilesAscend(cleaned, 95, 99);
    PercentilesAscend(cleaned, 99, 99);
  }

  /** Every statistic but the mean is one of the samples, and no sample lies outside the extremes. */
  lemma SummaryFromSamples(vals: seq<real>)
    requires vals != []
    ensures var r := Summarize(vals);
            && r.p50 in vals && r.p95 in vals && r.p99 in vals && r.min in vals && r.max in vals
            && forall v :: v in vals ==> r.min <= v <= r.max
  {
    var cleaned := CleanOutliers(vals, DEFAULT_THRESHOLD);
    CleanKeepsHalf(vals, DEFAULT_THRESHOLD);
    CeilDivIs(|vals|, 2);
    SubsequenceMembers(cleaned, vals);
    MinMaxBound(vals);
    PercentilesAscend(cleaned, 50, 50);
    PercentilesAscend(cleaned, 95, 95);
    PercentilesAscend(cleaned, 99, 99);
  }

  lemma {:induction false} SubsequenceShorter<T>(a: seq<T>, b: seq<T>)
    requires Subsequence(a, b)
    ensures |a| <= |b|
    decreases |b|
  {
    if a != [] {
      if Subsequence(a, b[1..]) {
        SubsequenceShorter(a, b[1..]);
      } else {
        SubsequenceShorter(a[1..], b[1..]);
      }
    }
  }

  /** The sample at the rank nearest to `p` percent of the way, of two equally near ones the even. */
  ghost predicate NearestRank(t: seq<real>, p: int, v: real) {
    exists k :: 0 <= k < |t| && t[k] == v && IsRounded(k, p * (|t| - 1), 100)
  }

  lemma PercentileExactly(s: seq<real>, t: seq<real>, p: int)
    requires s != [] && 0 <= p <= 100
    requires multiset(t) == multiset(s) && forall i, j :: 0 <= i < j < |t| ==> t[i] <= t[j]
    ensures NearestRank(t, p, Percentile(s, p))
  {
    RealLeqTotal();
    SortKeeps(s, RealLeq);
    SortOrdered(s, RealLeq);
    assert Ordered(t, RealLeq);
    OrderedUnique(Sort(s, RealLeq), t, RealLeq);
    var k := PercentileIndex(p, |s|);
    PercentileIndexInside(p, |s|);
    if |s| > 1 {
      PercentileIsNearestRank(p, |s|);
    }
    assert t[k] == Percentile(s, p) && IsRounded(k, p * (|t| - 1), 100);
  }

  /** The percentiles are those of the samples kept at the default threshold, in any ascending arrangement. */
  lemma SummaryPercentiles(vals: seq<real>, cleaned: seq<real>, t: seq<real>, r: SampleStats)
    requires vals != [] && r == Summarize(vals) && cleaned == CleanOutliers(vals, 3.5)
    requires multiset(t) == multiset(cleaned) && forall i, j :: 0 <= i < j < |t| ==> t[i] <= t[j]
    ensures NearestRank(t, 50, r.p50) && NearestRank(t, 95, r.p95) && NearestRank(t, 99, r.p99)
  {
    KeptSome(vals);
    SummaryFields(vals, cleaned);
    PercentileExactly(cleaned, t, 50);
    PercentileExactly(cleaned, t, 95);
    PercentileExactly(cleaned, t, 99);
  }

  /** The mean is that of the samples kept. */
  lemma SummaryMean(vals: seq<real>, cleaned: seq<real>, mean: real, n: real)
    requires vals != [] && mean == Summarize(vals).mean && cleaned == CleanOutliers(vals, 3.5) && n == |cleaned| as real
    ensures mean * n == Sum(cleaned)
  {
    KeptSome(vals);
    SummaryFields(vals, cleaned);
    MeanTimes(cleaned, mean, n);
  }

  /** The counts and the extremes are those of all samples, kept or not. */
  lemma SummaryOfAll(vals: seq<real>)
    requires vals != []
    ensures var r := Summarize(vals);
            && r.n == |vals| && r.dropped == |vals| - |CleanOutliers(vals, 3.5)|
            && r.min in vals && r.max in vals && forall v :: v in vals ==> r.min <= v <= r.max
  {
    KeptSome(vals);
    SummaryFields(vals, CleanOutliers(vals, 3.5));
    MinMaxBound(vals);
  }

  lemma KeptSome(vals: seq<real>)
    requires vals != []
    ensures CleanOutliers(vals, DEFAULT_THRESHOLD) != []
  {
    CleanKeepsHalf(vals, DEFAULT_THRESHOLD);
    CeilDivIs(|vals|, 2);
  }

  lemma SummaryFields(vals: seq<real>, cleaned: seq<real>)
    requires vals != [] && cleaned != [] && cleaned == CleanOutliers(vals, DEFAULT_THRESHOLD)
    ensures Summarize(vals) == SampleStats(|vals|, |vals| - |cleaned|, Mean(cleaned),
                                           Percentile(cleaned, 50), Percentile(cleaned, 95), Percentile(cleaned, 99),
                                           Min(vals), Max(vals))
  {
  }
}
