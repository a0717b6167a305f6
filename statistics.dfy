/** The statistics engine of the current generation (`TimeStatistics` in
    include/benchmark/detail/statistics.h): it accumulates samples, and
    `Calculate` derives total, average, median, extrema and the population
    standard deviation, drops the samples above `average + 2 * stdDev` once,
    and recomputes once if it dropped anything. Durations are nanosecond
    ticks. */
module Statistics {
  import opened Numeric

  /** The computed fields of a `TimeStatistics`. */
  datatype Snapshot = Snapshot(
    total: nat,
    average: nat,
    median: nat,
    minimum: nat,
    maximum: nat,
    stdDev: nat)

  /** Median of an ascending sequence: the middle sample for an odd count,
      and for an even count the sum of the HALVES of the two middle samples,
      each halved with truncation as the source does. */
  function MedianOfSorted(s: seq<nat>): nat
    requires |s| > 0
  {
    if |s| % 2 == 1 then s[|s| / 2]
    else s[|s| / 2 - 1] / 2 + s[|s| / 2] / 2
  }

  /** The median the unit test's `medianTime() >= minimalTime()` expects:
      for an even count the truncated mean of the two middle samples, which
      never falls outside them. */
  function IntendedMedian(s: seq<nat>): (m: nat)
    requires |s| > 0 && Sorted(s)
    ensures s[0] <= m <= s[|s| - 1]
    ensures |s| % 2 == 0 ==> 2 * m <= s[|s| / 2 - 1] + s[|s| / 2] < 2 * m + 2
    ensures |s| % 2 == 1 ==> m == s[|s| / 2]
  {
    if |s| % 2 == 1 then s[|s| / 2]
    else (s[|s| / 2 - 1] + s[|s| / 2]) / 2
  }

  /** The truncated average. */
  function Mean(s: seq<nat>): nat
    requires |s| > 0
  {
    Sum(s) / |s|
  }

  /** The population variance about the truncated average, truncated. */
  function Variance(s: seq<nat>): nat
    requires |s| > 0
  {
    SqDevSum(s, Mean(s)) / |s|
  }

  /** What one `calculateStats` pass computes from the samples `s`. */
  function StatsOf(s: seq<nat>): Snapshot
    requires |s| > 0
  {
    Snapshot(Sum(s), Mean(s), MedianOfSorted(Sort(s)), MinOf(s), MaxOf(s), RoundSqrt(Variance(s)))
  }

  /** Samples strictly above this are outliers. */
  function Threshold(st: Snapshot): nat
  {
    st.average + 2 * st.stdDev
  }

  /** The samples that survive one `calculate`: all of them when there are
      fewer than three, otherwise those at most the threshold of the first
      pass. */
  function Retained(s: seq<nat>): seq<nat>
    requires |s| > 0
  {
    if |s| < 3 then s else Keep(s, Threshold(StatsOf(s)))
  }

  /** Size of `size_t`'s value range: the modulus of its wrap-around. */
  const SizeModulus: nat := 0x1_0000_0000_0000_0000

  /** The index `percentile` reads, as written: `floor(count * nth / 100) - 1`
      in `size_t`, where the subtraction wraps when the product is below 100
      (the `idx < 0` guard can never fire on an unsigned value). */
  function PercentileIndexAsWritten(count: nat, nth: nat): nat
  {
    (count * nth / 100 - 1) % SizeModulus
  }

  /** The index with the clamp the guard evidently intends. */
  function PercentileIndex(count: nat, nth: nat): (idx: nat)
    requires 0 < count && nth <= 100
    ensures idx < count
    ensures count * nth / 100 <= idx + 1
    ensures 100 <= count * nth ==> idx + 1 == count * nth / 100
    ensures count * nth < 100 ==> idx == 0
  {
    MulMonotone(count, nth, 100);
    DivMonotone(count * nth, count * 100, 100);
    DivUnique(count * 100, 100, count, 0);
    if count * nth / 100 >= 1 then count * nth / 100 - 1 else 0
  }

  /** How many samples the `nth` percentile of `count` samples covers:
      `count * nth / 100`, but at least one. */
  function Rank(count: nat, nth: nat): nat
  {
    if count * nth / 100 >= 1 then count * nth / 100 else 1
  }

  class TimeStatistics {
    var samples: seq<nat>
    var totalSum: nat
    var average: nat
    var median: nat
    var minimum: nat
    var maximum: nat
    var stdDev: nat

    /** The computed fields. */
    function Current(): Snapshot
      reads this`totalSum, this`average, this`median, this`minimum, this`maximum, this`stdDev
    {
      Snapshot(totalSum, average, median, minimum, maximum, stdDev)
    }

    constructor ()
      ensures samples == []
      ensures Current() == Snapshot(0, 0, 0, 0, 0, 0)
    {
      samples := [];
      totalSum, average, median, minimum, maximum, stdDev := 0, 0, 0, 0, 0, 0;
    }

    method AddSample(sample: nat)
      modifies this`samples
      ensures samples == old(samples) + [sample]
    {
      samples := samples + [sample];
    }

    /** Empties the samples; the statistics of the last `Calculate` stay. */
    method Clear()
      modifies this`samples
      ensures samples == []
      ensures Current() == old(Current())
    {
      samples := [];
    }

    /** One pass: sums, extrema, deviation, then sort and median. The
        accumulators are locals of the two loops; the source accumulates in
        the fields, which no one observes before the pass ends. */
    method CalculateStats()
      requires samples != []
      modifies this
      ensures samples == Sort(old(samples))
      ensures Current() == StatsOf(old(samples))
    {
      var xs := samples;
      var n := |xs|;
      var sum, lo, hi := SumAndRange(xs);
      assert sum / n == Mean(xs);
      var avg: nat := sum / n;
      var sumOfSquares := SquaredDeviations(xs, avg);
      assert sumOfSquares / n == Variance(xs);
      var variance: nat := sumOfSquares / n;

      var sorted := Sort(xs);
      var med := MedianOfSorted(sorted);
      assert StatsOf(xs) == Snapshot(sum, avg, med, lo, hi, RoundSqrt(variance));
      samples := sorted;
      totalSum, average, minimum, maximum := sum, avg, lo, hi;
      stdDev := RoundSqrt(variance);
      median := med;
    }

    /** Drops the samples above the threshold of the last pass, when there
        are at least three. */
    method RemoveOutliers() returns (removed: bool)
      modifies this`samples
      ensures |old(samples)| < 3 ==> !removed && samples == old(samples)
      ensures |old(samples)| >= 3 ==>
        multiset(samples) == multiset(Keep(old(samples), Threshold(Current())))
      ensures |old(samples)| >= 3 ==>
        forall k :: 0 <= k < |samples| ==> samples[k] <= Threshold(Current())
      ensures removed <==> |samples| < |old(samples)|
      ensures !removed ==> samples == old(samples)
    {
      var xs := samples;
      if |xs| < 3 {
        return false;
      }
      var outlierThreshold := average + stdDev * 2;
      assert outlierThreshold == Threshold(Current());
      samples, removed := DropAbove(xs, outlierThreshold);
    }

    method Calculate() returns (ok: bool)
      modifies this
      ensures old(samples) == [] ==> !ok && unchanged(this)
      ensures old(samples) != [] ==> ok
      ensures old(samples) != [] ==>
        |samples| > 0 && Sorted(samples) &&
        multiset(samples) == multiset(Retained(old(samples))) &&
        Current() == StatsOf(samples)
    {
      if samples == [] {
        return false;
      }
      ghost var s0 := samples;
      CalculateStats();
      ghost var first, sorted := Current(), samples;
      var removed := RemoveOutliers();
      if |s0| >= 3 {
        assert Retained(s0) == Keep(s0, Threshold(first));
        KeepPermutation(sorted, s0, Threshold(first));
      } else {
        assert Retained(s0) == s0;
      }
      if removed {
        RetainedNonEmpty(s0);
        assert |multiset(samples)| == |Retained(s0)|;
        ghost var r := samples;
        CalculateStats();
        StatsOfPermutation(r, samples);
        assert multiset(samples) == multiset(Retained(s0)) && Current() == StatsOf(samples);
      } else {
        StatsOfPermutation(s0, sorted);
        assert samples == sorted && Current() == first;
        assert multiset(samples) == multiset(Retained(s0)) && Current() == StatsOf(samples);
      }
      ok := true;
    }

    /** The nearest-rank percentile, reading the clamped index: on sorted
        samples, the smallest sample with at least `Rank(|samples|, nth)`
        samples at or below it. */
    function Percentile(nth: nat): (r: nat)
      reads this
      requires |samples| > 0 && nth <= 100
      ensures r in samples
      ensures Sorted(samples) ==> Rank(|samples|, nth) <= |Keep(samples, r)|
      ensures Sorted(samples) ==>
        forall x :: x in samples && x < r ==> |Keep(samples, x)| < Rank(|samples|, nth)
    {
      var idx := PercentileIndex(|samples|, nth);
      if Sorted(samples) then
        KeepPrefixCount(samples, samples[idx], idx + 1);
        forall x | x in samples && x < samples[idx]
          ensures |Keep(samples, x)| < Rank(|samples|, nth)
        {
          KeepSuffixAbove(samples, x, idx);
        }
        samples[idx]
      else
        samples[idx]
    }

    /** Whether the deviation exceeds a quarter of the average. */
    function HighDeviation(): (r: bool)
      reads this
      ensures r <==> 4 * stdDev > average
    {
      stdDev > average / 4
    }
  }

  /** The first loop of a pass: total, minimum and maximum. */
  method SumAndRange(xs: seq<nat>) returns (sum: nat, lo: nat, hi: nat)
    requires xs != []
    ensures sum == Sum(xs) && lo == MinOf(xs) && hi == MaxOf(xs)
  {
    var n := |xs|;
    sum, lo, hi := 0, xs[0], xs[0];
    for i := 0 to n
      invariant sum == Sum(xs[..i])
      invariant i == 0 ==> lo == xs[0] && hi == xs[0]
      invariant i > 0 ==> lo == MinOf(xs[..i]) && hi == MaxOf(xs[..i])
    {
      var sample := xs[i];
      assert xs[..i + 1][..i] == xs[..i];
      sum := sum + sample;
      if sample < lo {
        lo := sample;
      }
      if sample > hi {
        hi := sample;
      }
    }
    assert xs[..n] == xs;
  }

  /** The second loop of a pass: the sum of squared distances from `avg`. */
  method SquaredDeviations(xs: seq<nat>, avg: nat) returns (sumOfSquares: nat)
    ensures sumOfSquares == SqDevSum(xs, avg)
  {
    var n := |xs|;
    sumOfSquares := 0;
    for i := 0 to n
      invariant sumOfSquares == SqDevSum(xs[..i], avg)
    {
      var sample := xs[i];
      assert xs[..i + 1][..i] == xs[..i];
      var d := if sample > avg then sample - avg else avg - sample;
      sumOfSquares := sumOfSquares + d * d;
    }
    assert xs[..n] == xs;
  }

  /** The sweep of `removeOutliers`: an outlier at `i` is overwritten by the
      back sample, the back is popped and `i` stays; otherwise `i` advances. */
  method DropAbove(xs: seq<nat>, t: nat) returns (ys: seq<nat>, removed: bool)
    ensures multiset(ys) == multiset(Keep(xs, t))
    ensures forall k :: 0 <= k < |ys| ==> ys[k] <= t
    ensures removed <==> |ys| < |xs|
    ensures !removed ==> ys == xs
  {
    ys, removed := xs, false;
    var i := 0;
    while i < |ys|
      invariant 0 <= i <= |ys| <= |xs|
      invariant forall k :: 0 <= k < i ==> ys[k] <= t
      invariant multiset(Keep(ys, t)) == multiset(Keep(xs, t))
      invariant removed <==> |ys| < |xs|
      invariant !removed ==> ys == xs
      decreases |ys| - i
    {
      if ys[i] > t {
        var next := ys[i := ys[|ys| - 1]][..|ys| - 1];
        SwapPopKeeps(ys, i, t, next);
        ys := next;
        removed := true;
      } else {
        i := i + 1;
      }
    }
    KeepAll(ys, t);
  }

  /** Overwriting position `i` with the back sample and popping the back
      leaves the other samples. */
  lemma SwapPopPermutes(s: seq<nat>, i: nat, u: seq<nat>)
    requires i < |s| && u == s[i := s[|s| - 1]][..|s| - 1]
    ensures multiset(u + [s[i]]) == multiset(s)
    ensures |u| == |s| - 1 && forall k :: 0 <= k < i ==> u[k] == s[k]
  {
    SwapPopPrefix(s, i, u);
    SwapPopMultiset(s, i, u);
  }

  lemma SwapPopPrefix(s: seq<nat>, i: nat, u: seq<nat>)
    requires i < |s| && u == s[i := s[|s| - 1]][..|s| - 1]
    ensures |u| == |s| - 1 && forall k :: 0 <= k < i ==> u[k] == s[k]
  {
  }

  lemma SwapPopMultiset(s: seq<nat>, i: nat, u: seq<nat>)
    requires i < |s| && u == s[i := s[|s| - 1]][..|s| - 1]
    ensures multiset(u + [s[i]]) == multiset(s)
  {
    var n := |s|;
    if i == n - 1 {
      assert s == u + [s[i]] by {
        assert u == s[..n - 1];
      }
    } else {
      var l, x, mid, y := s[..i], s[i], s[i + 1..n - 1], s[n - 1];
      assert multiset(s) == multiset(l) + multiset{x} + multiset(mid) + multiset{y} by {
        assert s == l + [x] + mid + [y];
      }
      assert multiset(u + [x]) == multiset(l) + multiset{y} + multiset(mid) + multiset{x} by {
        assert u + [x] == l + [y] + mid + [x];
      }
    }
  }

  lemma SwapPopKeeps(s: seq<nat>, i: nat, t: nat, u: seq<nat>)
    requires i < |s| && s[i] > t && u == s[i := s[|s| - 1]][..|s| - 1]
    ensures multiset(Keep(u, t)) == multiset(Keep(s, t))
    ensures |u| == |s| - 1 && forall k :: 0 <= k < i ==> u[k] == s[k]
  {
    SwapPopPermutes(s, i, u);
    KeepAppend(u, [s[i]], t);
    assert Keep([s[i]], t) == [] by { assert [s[i]][..0] == []; }
    KeepPermutation(u + [s[i]], s, t);
  }

  /** Every aggregate depends only on the multiset of samples. */
  lemma StatsOfPermutation(a: seq<nat>, b: seq<nat>)
    requires |a| > 0 && multiset(a) == multiset(b)
    ensures |b| == |a| && StatsOf(a) == StatsOf(b)
  {
    SumPermutation(a, b);
    VariancePermutation(a, b);
    MinMaxPermutation(a, b);
    SortPermutation(a, b);
  }

  lemma MeanPermutation(a: seq<nat>, b: seq<nat>)
    requires |a| > 0 && multiset(a) == multiset(b)
    ensures |b| == |a| && Mean(a) == Mean(b)
  {
    assert |multiset(a)| == |multiset(b)|;
    SumPermutation(a, b);
  }

  lemma VariancePermutation(a: seq<nat>, b: seq<nat>)
    requires |a| > 0 && multiset(a) == multiset(b)
    ensures |b| == |a| && Mean(a) == Mean(b) && Variance(a) == Variance(b)
  {
    MeanPermutation(a, b);
    SqDevSumPermutation(a, b, Mean(a));
  }

  /** The minimum survives outlier removal, so it never empties the set. */
  lemma RetainedNonEmpty(s: seq<nat>)
    requires |s| > 0
    ensures MinOf(s) in Retained(s)
    ensures |Retained(s)| > 0
  {
    if |s| >= 3 {
      MeanBounds(s);
      KeepContains(s, Threshold(StatsOf(s)), MinOf(s));
    }
  }

  /** Outlier removal keeps exactly the samples not above the threshold, in
      their order, and shrinks the set iff some sample lies above it. */
  lemma {:induction false} RetainedIsFilter(s: seq<nat>)
    requires |s| >= 3
    ensures forall k :: 0 <= k < |Retained(s)| ==> Retained(s)[k] <= Threshold(StatsOf(s))
    ensures multiset(Retained(s)) <= multiset(s)
    ensures |Retained(s)| < |s| <==> exists k :: 0 <= k < |s| && s[k] > Threshold(StatsOf(s))
  {
    var t := Threshold(StatsOf(s));
    KeepBounded(s, t);
    KeepSubMultiset(s, t);
    KeepShrinks(s, t);
    assert forall k :: 0 <= k < |Keep(s, t)| ==> Keep(s, t)[k] in Keep(s, t);
  }

  lemma {:induction false} KeepSubMultiset(s: seq<nat>, t: nat)
    ensures multiset(Keep(s, t)) <= multiset(s)
    decreases |s|
  {
    if s != [] {
      KeepSubMultiset(s[..|s| - 1], t);
      assert s == s[..|s| - 1] + [s[|s| - 1]];
    }
  }

  /** The bounds that hold after a successful `calculate`: the average lies
      between the extrema, and the median is at most the maximum but may be
      one tick below the minimum (two odd middle samples each lose half a
      tick). */
  lemma StatsBounds(s: seq<nat>)
    requires |s| > 0
    ensures StatsOf(s).total == Sum(s)
    ensures StatsOf(s).minimum <= StatsOf(s).average <= StatsOf(s).maximum
    ensures StatsOf(s).median <= StatsOf(s).maximum
    ensures StatsOf(s).minimum <= StatsOf(s).median + 1
  {
    MeanBounds(s);
    var t := Sort(s);
    MinMaxPermutation(s, t);
    MedianBounds(t);
  }

  /** The median of a sorted sequence lies between its extrema, up to the
      tick lost by halving two odd middle samples. */
  lemma MedianBounds(t: seq<nat>)
    requires |t| > 0 && Sorted(t)
    ensures MedianOfSorted(t) <= MaxOf(t)
    ensures MinOf(t) <= MedianOfSorted(t) + 1
  {
    var n := |t|;
    if n % 2 == 0 {
      var a, b := t[n / 2 - 1], t[n / 2];
      DivMonotone(a, b, 2);
      assert MinOf(t) <= a && b <= MaxOf(t);
    } else {
      assert MinOf(t) <= t[n / 2] <= MaxOf(t);
    }
  }

  /** For an even count the median is the exact floor of the mean of the two
      middle samples, minus one tick exactly when both are odd. */
  lemma MedianOfEvenCount(s: seq<nat>)
    requires |s| > 0 && |s| % 2 == 0 && Sorted(s)
    ensures var a, b := s[|s| / 2 - 1], s[|s| / 2];
      MedianOfSorted(s) == (a + b) / 2 - (if a % 2 == 1 && b % 2 == 1 then 1 else 0)
  {
  }

  /** Two samples of three ticks have median two: below the minimum. */
  lemma MedianBelowMinimum()
    ensures StatsOf([3, 3]).median == 2 < StatsOf([3, 3]).minimum
  {
    SortOfSorted([3, 3]);
  }

  /** The intended median of any samples lies between their minimum and
      their maximum, as the unit test asserts. */
  lemma IntendedMedianWithinRange(s: seq<nat>)
    requires |s| > 0
    ensures |Sort(s)| > 0
    ensures MinOf(s) <= IntendedMedian(Sort(s)) <= MaxOf(s)
  {
    var t := Sort(s);
    MinMaxPermutation(s, t);
    SortedHeadIsMin(t, MinOf(t));
    assert t[|t| - 1] in multiset(t);
  }

  /** The sum and the squared deviations of four samples, spelled out. */
  lemma FourSamples(a: nat, b: nat, c: nat, d: nat, avg: nat)
    ensures Sum([a, b, c, d]) == a + b + c + d
    ensures SqDevSum([a, b, c, d], avg) ==
      Dist(a, avg) * Dist(a, avg) + Dist(b, avg) * Dist(b, avg) +
      Dist(c, avg) * Dist(c, avg) + Dist(d, avg) * Dist(d, avg)
  {
    var da, db, dc := Dist(a, avg) * Dist(a, avg), Dist(b, avg) * Dist(b, avg), Dist(c, avg) * Dist(c, avg);
    assert [a][..0] == [];
    assert Sum([a]) == a && SqDevSum([a], avg) == da;
    assert [a, b][..1] == [a];
    assert Sum([a, b]) == a + b && SqDevSum([a, b], avg) == da + db;
    assert [a, b, c][..2] == [a, b];
    assert Sum([a, b, c]) == a + b + c && SqDevSum([a, b, c], avg) == da + db + dc;
    assert [a, b, c, d][..3] == [a, b, c];
  }

  /** The median of four ascending samples is the sum of the halves of the
      middle two. */
  lemma SortedMedianOfFour(s: seq<nat>)
    requires |s| == 4 && Sorted(s)
    ensures StatsOf(s).median == s[1] / 2 + s[2] / 2
  {
    SortOfSorted(s);
  }

  /** The unit test with samples of 1, 2, 3 and 4 ms: nothing is an outlier,
      the total is 10 ms, the average and the median 2.5 ms, the extrema 1 ms
      and 4 ms. */
  lemma CustomSamples(s: seq<nat>)
    requires s == [1000000, 2000000, 3000000, 4000000]
    ensures Retained(s) == s
    ensures StatsOf(s).total == 10000000
    ensures StatsOf(s).average == 2500000
    ensures StatsOf(s).median == 2500000
    ensures StatsOf(s).minimum == 1000000
    ensures StatsOf(s).maximum == 4000000
  {
    RoundSqrtAtLeast(1250000000000, 750000);
    CustomSamplesMoments(s);
    SortedMedianOfFour(s);
    KeepAll(s, Threshold(StatsOf(s)));
  }

  lemma CustomSamplesMoments(s: seq<nat>)
    requires s == [1000000, 2000000, 3000000, 4000000]
    ensures Sum(s) == 10000000 && Mean(s) == 2500000 && Variance(s) == 1250000000000
    ensures MinOf(s) == 1000000 && MaxOf(s) == 4000000 && Sorted(s)
    ensures s[1] / 2 + s[2] / 2 == 2500000
    ensures forall k :: 0 <= k < |s| ==> s[k] <= 4000000
  {
    FourSamples(1000000, 2000000, 3000000, 4000000, 2500000);
    assert MinOf(s) <= s[0] && MaxOf(s) >= s[3];
    assert forall k :: 0 <= k < |s| ==> s[0] <= s[k] <= s[3];
  }

  /** Four samples of 10, 10, 10 and 200 ms: the 200 ms sample is NOT an
      outlier, since the population deviation is about 82 ms and the
      threshold about 222 ms. */
  lemma FarSampleOfFourIsKept(s: seq<nat>)
    requires s == [10000000, 10000000, 10000000, 200000000]
    ensures Retained(s) == s
    ensures StatsOf(s).average == 57500000
  {
    FarSampleMoments(s);
    RoundSqrtAtLeast(6768750000000000, 71250000);
    KeepAll(s, Threshold(StatsOf(s)));
  }

  lemma FarSampleMoments(s: seq<nat>)
    requires s == [10000000, 10000000, 10000000, 200000000]
    ensures Mean(s) == 57500000 && Variance(s) == 6768750000000000
    ensures forall k :: 0 <= k < |s| ==> s[k] <= 200000000
  {
    FourSamples(10000000, 10000000, 10000000, 200000000, 57500000);
  }

  /** As written, one sample and the 90th percentile (what the reports ask
      for) give an index far past the end of the samples. */
  lemma PercentileOfOneSampleOutOfRange()
    ensures PercentileIndexAsWritten(1, 90) == SizeModulus - 1
    ensures PercentileIndexAsWritten(1, 90) >= 1
  {
  }

  /** Where the source's index is in range it agrees with the clamped one. */
  lemma PercentileIndexAgrees(count: nat, nth: nat)
    requires 0 < count < SizeModulus && nth <= 100 && 100 <= count * nth
    ensures PercentileIndexAsWritten(count, nth) == PercentileIndex(count, nth)
  {
    var idx := PercentileIndex(count, nth);
    assert count * nth / 100 - 1 == idx;
  }
}
