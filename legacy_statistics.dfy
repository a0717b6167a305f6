/** The statistics engine of the generation that calibrates a repeat count
    (`TimeStatistics` in include/detail/statistics.h): each sample is the
    duration of `repeats` executions, every derived figure except the total
    is per execution, there is no outlier removal, and the median of an even
    count is the upper middle sample. */
module LegacyStatistics {
  import opened Numeric
  import Statistics

  /** Every sample divided (truncating) by the repeat count. */
  function Scaled(s: seq<nat>, repeats: nat): (t: seq<nat>)
    requires repeats > 0
    ensures |t| == |s|
    ensures forall i :: 0 <= i < |s| ==> t[i] == s[i] / repeats
  {
    seq(|s|, i requires 0 <= i < |s| => s[i] / repeats)
  }

  /** Per-execution average: the raw sum over `count * repeats`. */
  function LegacyMean(s: seq<nat>, repeats: nat): nat
    requires |s| > 0 && repeats > 0
  {
    MulMonotone(|s|, 1, repeats);
    Div(Sum(s), |s| * repeats)
  }

  /** What `calculate` computes from the samples `s`. */
  function LegacyStatsOf(s: seq<nat>, repeats: nat): Statistics.Snapshot
    requires |s| > 0 && repeats > 0
  {
    var average := LegacyMean(s, repeats);
    Statistics.Snapshot(
      Sum(s),
      average,
      Div(Sort(s)[|s| / 2], repeats),
      Div(MinOf(s), repeats),
      Div(MaxOf(s), repeats),
      RoundSqrt(Div(SqDevSum(Scaled(s, repeats), average), |s|)))
  }

  class LegacyTimeStatistics {
    var samples: seq<nat>
    /** Never assigned by the source: whatever the constructor is given. */
    var significant: bool
    var totalTimeRun: nat
    var averageTime: nat
    var medianTime: nat
    var minimalTime: nat
    var maximalTime: nat
    var standardDeviation: nat
    var repeats: nat

    function Current(): Statistics.Snapshot
      reads this`totalTimeRun, this`averageTime, this`medianTime, this`minimalTime,
        this`maximalTime, this`standardDeviation
    {
      Statistics.Snapshot(totalTimeRun, averageTime, medianTime, minimalTime, maximalTime, standardDeviation)
    }

    /** `significant` is left uninitialised by the source; its indeterminate
        value is a parameter here. */
    constructor (indeterminate: bool)
      ensures samples == [] && repeats == 1 && significant == indeterminate
      ensures Current() == Statistics.Snapshot(0, 0, 0, 0, 0, 0)
    {
      samples := [];
      significant := indeterminate;
      totalTimeRun, averageTime, medianTime := 0, 0, 0;
      minimalTime, maximalTime, standardDeviation := 0, 0, 0;
      repeats := 1;
    }

    method SetRepeats(r: nat)
      modifies this`repeats
      ensures repeats == r
    {
      repeats := r;
    }

    method AddSample(sample: nat)
      modifies this`samples
      ensures samples == old(samples) + [sample]
    {
      samples := samples + [sample];
    }

    method Clear()
      modifies this`samples
      ensures samples == []
      ensures Current() == old(Current())
    {
      samples := [];
    }

    /** The repeat count is a divisor, so it must be positive once there are
        samples; with none, nothing is computed and nothing changes. */
    method Calculate() returns (ok: bool)
      requires samples != [] ==> repeats > 0
      modifies this`samples, this`totalTimeRun, this`averageTime, this`medianTime,
        this`minimalTime, this`maximalTime, this`standardDeviation
      ensures repeats == old(repeats) && significant == old(significant)
      ensures old(samples) == [] ==> !ok && unchanged(this)
      ensures old(samples) != [] ==> ok && samples == Sort(old(samples))
      ensures old(samples) != [] ==> Current() == LegacyStatsOf(old(samples), repeats)
    {
      var xs := samples;
      if xs == [] {
        return false;
      }
      var st := Summarise(xs, repeats);
      samples := Sort(xs);
      totalTimeRun, averageTime, medianTime := st.total, st.average, st.median;
      minimalTime, maximalTime, standardDeviation := st.minimum, st.maximum, st.stdDev;
      assert Current() == st;
      ok := true;
    }
  }

  /** The computing part of `calculate`: both loops, then the median of the
      sorted samples. */
  method Summarise(xs: seq<nat>, r: nat) returns (st: Statistics.Snapshot)
    requires |xs| > 0 && r > 0
    ensures st == LegacyStatsOf(xs, r)
  {
    var n := |xs|;
    var sum, lo, hi := Statistics.SumAndRange(xs);
    MulMonotone(n, 1, r);
    var avg := Div(sum, n * r);
    var sumOfSquares := ScaledSquaredDeviations(xs, r, avg);
    var variance := Div(sumOfSquares, n);
    var sorted := Sort(xs);
    st := Statistics.Snapshot(sum, avg, Div(sorted[n / 2], r), Div(lo, r), Div(hi, r), RoundSqrt(variance));
  }

  /** The deviation loop: each sample is first divided by the repeat count. */
  method ScaledSquaredDeviations(xs: seq<nat>, repeats: nat, avg: nat) returns (sumOfSquares: nat)
    requires repeats > 0
    ensures sumOfSquares == SqDevSum(Scaled(xs, repeats), avg)
  {
    var n := |xs|;
    ghost var t := Scaled(xs, repeats);
    sumOfSquares := 0;
    for i := 0 to n
      invariant sumOfSquares == SqDevSum(t[..i], avg)
    {
      var sampleNs := xs[i] / repeats;
      assert t[..i + 1][..i] == t[..i];
      var d := if sampleNs > avg then sampleNs - avg else avg - sampleNs;
      sumOfSquares := sumOfSquares + d * d;
    }
    assert t[..n] == t;
  }

  /** Per execution, the minimum, the average and the median lie between
      the extrema. */
  lemma LegacyBounds(s: seq<nat>, repeats: nat)
    requires |s| > 0 && repeats > 0
    ensures var st := LegacyStatsOf(s, repeats);
      st.minimum <= st.average <= st.maximum &&
      st.minimum <= st.median <= st.maximum
  {
    var n := |s|;
    MeanBounds(s);
    DivDiv(Sum(s), n, repeats);
    DivMonotone(MinOf(s), Sum(s) / n, repeats);
    DivMonotone(Sum(s) / n, MaxOf(s), repeats);
    var t := Sort(s);
    MinMaxPermutation(s, t);
    DivMonotone(MinOf(t), t[n / 2], repeats);
    DivMonotone(t[n / 2], MaxOf(t), repeats);
  }

  /** `calculate` sorts the samples and computes from their multiset only,
      so a second call yields the same figures. */
  lemma {:induction false} LegacyCalculateIdempotent(s: seq<nat>, repeats: nat)
    requires |s| > 0 && repeats > 0
    ensures |Sort(s)| > 0 && LegacyStatsOf(Sort(s), repeats) == LegacyStatsOf(s, repeats)
  {
    var t := Sort(s);
    SumPermutation(s, t);
    MinMaxPermutation(s, t);
    SortOfSorted(t);
    ScaledPermutation(s, t, repeats);
    SqDevSumPermutation(Scaled(s, repeats), Scaled(t, repeats), LegacyMean(s, repeats));
  }

  lemma ScaledAppend(a: seq<nat>, b: seq<nat>, repeats: nat)
    requires repeats > 0
    ensures Scaled(a + b, repeats) == Scaled(a, repeats) + Scaled(b, repeats)
  {
  }

  /** Removing the element at `j` removes its scaled value. */
  lemma ScaledRemove(b: seq<nat>, j: nat, repeats: nat)
    requires repeats > 0 && j < |b|
    ensures multiset(Scaled(b, repeats)) == multiset(Scaled(b[..j] + b[j + 1..], repeats)) + multiset(Scaled([b[j]], repeats))
  {
    var x, l, r := b[j], b[..j], b[j + 1..];
    assert b == l + ([x] + r);
    ScaledAppend(l, [x] + r, repeats);
    ScaledAppend([x], r, repeats);
    ScaledAppend(l, r, repeats);
    assert Scaled([x], repeats) == [x / repeats];
  }

  lemma {:induction false} ScaledPermutation(a: seq<nat>, b: seq<nat>, repeats: nat)
    requires repeats > 0 && multiset(a) == multiset(b)
    ensures multiset(Scaled(a, repeats)) == multiset(Scaled(b, repeats))
    decreases |a|
  {
    if a == [] {
      assert |multiset(b)| == 0;
    } else {
      var x := a[|a| - 1];
      var a' := a[..|a| - 1];
      assert a == a' + [x];
      assert x in multiset(b);
      var j :| 0 <= j < |b| && b[j] == x;
      RemoveAt(b, j);
      ScaledPermutation(a', b[..j] + b[j + 1..], repeats);
      ScaledAppend(a', [x], repeats);
      assert Scaled([x], repeats) == [x / repeats];
      ScaledRemove(b, j, repeats);
    }
  }

  /** With one execution per sample and an odd count, the older
      `calculate` computes the same figures as the newer `calculateStats`
      pass, before the newer engine's outlier removal (which the older one
      does not have). */
  lemma AgreesWithCurrentOnOddCount(s: seq<nat>)
    requires |s| % 2 == 1
    ensures LegacyStatsOf(s, 1) == Statistics.StatsOf(s)
  {
    assert Scaled(s, 1) == s;
    assert |s| * 1 == |s|;
  }

  /** With an even count they differ in the median: the older takes the
      upper middle sample, the newer the sum of the halves of both. */
  lemma DiffersFromCurrentOnEvenCount()
    ensures LegacyStatsOf([1, 3], 1).median == 3
    ensures Statistics.StatsOf([1, 3]).median == 1
  {
    SortOfSorted([1, 3]);
  }
}
