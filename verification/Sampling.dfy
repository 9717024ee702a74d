/**
 Evenly spaced block numbers for a history chart: `_sample_blocks` of
 clients/contract_history.py, over exact rationals.
 */
module Sampling {
  import opened Rounding

  ghost predicate StrictlyIncreasing(s: seq<int>) {
    forall i, j :: 0 <= i < j < |s| ==> s[i] < s[j]
  }

  function InsertDistinct(x: int, s: seq<int>): seq<int> {
    if s == [] || x < s[0] then [x] + s
    else if x == s[0] then s
    else [s[0]] + InsertDistinct(x, s[1..])
  }

  /** `sorted(set(values))`. */
  function SortedDistinct(values: seq<int>): seq<int> {
    if values == [] then [] else InsertDistinct(values[0], SortedDistinct(values[1..]))
  }

  /** The sampled block numbers; `points` is the number asked for. */
  function SampleBlocks(lo: int, hi: int, points: int): seq<int> {
    if hi < lo then Spread(hi, lo, AtLeastTwo(points)) else Spread(lo, hi, AtLeastTwo(points))
  }

  function AtLeastTwo(points: int): (p: nat) {
    if points < 2 then 2 else points
  }

  function Spread(lo: int, hi: int, points: nat): seq<int>
    requires lo <= hi && points >= 2
  {
    if hi - lo + 1 <= points then seq(hi - lo + 1, i => lo + i)
    else SortedDistinct(seq(points, i => Sample(lo, hi, points, i)))
  }

  /** `lo + round(i * step)` with `step = (hi - lo) / (points - 1)`. */
  function Sample(lo: int, hi: int, points: nat, i: int): int
    requires points >= 2
  {
    lo + RoundHalfEven(i * (hi - lo), points - 1)
  }

  // ----- the set and the sort change nothing

  lemma {:induction false} SortedDistinctOfIncreasing(s: seq<int>)
    requires StrictlyIncreasing(s)
    ensures SortedDistinct(s) == s
  {
    if s != [] {
      SortedDistinctOfIncreasing(s[1..]);
      assert s == [s[0]] + s[1..];
    }
  }

  /** `y - x` differs from `d / q` by at most one. */
  ghost predicate WithinOne(x: int, y: int, d: int, q: int) {
    -q <= (y - x) * q - d <= q
  }

  lemma SampleGap(lo: int, hi: int, points: nat, i: int)
    requires points >= 2
    ensures WithinOne(Sample(lo, hi, points, i), Sample(lo, hi, points, i + 1), hi - lo, points - 1)
  {
    var d, q := hi - lo, points - 1;
    assert (i + 1) * d == i * d + d;
    RoundNearest(i * d, q);
    RoundNearest(i * d + d, q);
    var a, b := RoundHalfEven(i * d, q), RoundHalfEven(i * d + d, q);
    assert (b - a) * q == b * q - a * q;
  }

  /** A step longer than one block is never rounded away. */
  lemma SampleAdvances(lo: int, hi: int, points: nat, i: int)
    requires points >= 2 && hi - lo >= points
    ensures Sample(lo, hi, points, i) < Sample(lo, hi, points, i + 1)
  {
    SampleGap(lo, hi, points, i);
    NotPositive(Sample(lo, hi, points, i + 1) - Sample(lo, hi, points, i), points - 1);
  }

  lemma NotPositive(gap: int, q: nat)
    ensures gap <= 0 ==> gap * q <= 0
  {
  }

  lemma {:induction false} SampleIncreases(lo: int, hi: int, points: nat, i: int, j: int)
    requires points >= 2 && hi - lo >= points && i < j
    ensures Sample(lo, hi, points, i) < Sample(lo, hi, points, j)
    decreases j - i
  {
    SampleAdvances(lo, hi, points, j - 1);
    if i < j - 1 {
      SampleIncreases(lo, hi, points, i, j - 1);
    }
  }

  lemma SpreadIsSamples(lo: int, hi: int, points: nat)
    requires points >= 2 && hi - lo >= points
    ensures Spread(lo, hi, points) == seq(points, i => Sample(lo, hi, points, i))
  {
    var samples := seq(points, i => Sample(lo, hi, points, i));
    forall i, j | 0 <= i < j < |samples| ensures samples[i] < samples[j] {
      SampleIncreases(lo, hi, points, i, j);
    }
    SortedDistinctOfIncreasing(samples);
  }

  // ----- the promise of the docstring

  /** Each sample is the block nearest to its ideal place. */
  ghost predicate NearestSamples(r: seq<int>, lo: int, hi: int, points: nat)
    requires points >= 2
  {
    forall i :: 0 <= i < |r| ==> IsRounded(r[i] - lo, i * (hi - lo), points - 1)
  }

  /** Each gap is within one block of the ideal step `(hi - lo) / (points - 1)`. */
  ghost predicate EvenGaps(r: seq<int>, lo: int, hi: int, points: nat)
    requires points >= 2
  {
    forall i :: 0 <= i < |r| - 1 ==> WithinOne(r[i], r[i + 1], hi - lo, points - 1)
  }

  /** `r` samples `[lo, hi]` with `points` evenly spaced blocks, both ends included. */
  ghost predicate EvenlySpaced(r: seq<int>, lo: int, hi: int, points: nat)
    requires points >= 2
  {
    && |r| == (if hi - lo + 1 <= points then hi - lo + 1 else points)
    && |r| > 0 && r[0] == lo && r[|r| - 1] == hi
    && StrictlyIncreasing(r)
    && (hi - lo + 1 <= points ==> forall i :: 0 <= i < |r| ==> r[i] == lo + i)
    && (hi - lo + 1 > points ==> NearestSamples(r, lo, hi, points) && EvenGaps(r, lo, hi, points))
  }

  lemma SpreadEnds(lo: int, hi: int, points: nat)
    requires points >= 2
    ensures Sample(lo, hi, points, 0) == lo
    ensures Sample(lo, hi, points, points - 1) == hi
  {
    RoundWhole(0, points - 1);
    RoundWhole(hi - lo, points - 1);
    assert (points - 1) * (hi - lo) == (hi - lo) * (points - 1);
  }

  lemma SpreadNearest(lo: int, hi: int, points: nat)
    requires points >= 2 && hi - lo >= points
    ensures NearestSamples(Spread(lo, hi, points), lo, hi, points)
  {
    var r := Spread(lo, hi, points);
    SpreadIsSamples(lo, hi, points);
    forall i | 0 <= i < |r| ensures IsRounded(r[i] - lo, i * (hi - lo), points - 1) {
      RoundNearest(i * (hi - lo), points - 1);
    }
  }

  lemma SpreadGaps(lo: int, hi: int, points: nat)
    requires points >= 2 && hi - lo >= points
    ensures EvenGaps(Spread(lo, hi, points), lo, hi, points)
  {
    var r := Spread(lo, hi, points);
    SpreadIsSamples(lo, hi, points);
    forall i | 0 <= i < |r| - 1 ensures WithinOne(r[i], r[i + 1], hi - lo, points - 1) {
      SampleGap(lo, hi, points, i);
    }
  }

  /** For every range, in either order, and every requested number of points. */
  lemma SampleBlocksEvenlySpaced(lo: int, hi: int, points: int)
    ensures EvenlySpaced(SampleBlocks(lo, hi, points), if hi < lo then hi else lo, if hi < lo then lo else hi,
                         if points < 2 then 2 else points)
  {
    var a, b, p := if hi < lo then hi else lo, if hi < lo then lo else hi, AtLeastTwo(points);
    if b - a >= p {
      SpreadIsSamples(a, b, p);
      SpreadEnds(a, b, p);
      SpreadNearest(a, b, p);
      SpreadGaps(a, b, p);
      forall i, j | 0 <= i < j < p ensures Sample(a, b, p, i) < Sample(a, b, p, j) {
        SampleIncreases(a, b, p, i, j);
      }
    }
  }
}
