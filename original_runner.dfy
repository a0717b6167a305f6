/** The oldest generation (`Benchmark` in benchmark.h): `run` times fifteen
    samples, each a loop of `repeats` calls of the function, after an
    optional calibration from a first, discarded sample; `calculateTimings`
    derives the per-call figures the destructor prints.

    The clock is an oracle: `lap(k, r)` is the time, in nanoseconds, from
    `timeStart` to `timeEnd` of call `k` of the sample loop (counting the
    discarded one) when it runs the function `r` times. `steady_clock` is
    monotonic, so a lap is never negative. */
module OriginalRunner {
  import opened Numeric
  import Statistics
  import LegacyStatistics

  /** One millisecond in nanoseconds: calibration happens below it and aims
      at it. */
  const Millisecond: nat := 1_000_000
  /** Samples one `run` records. */
  const SamplesPerRun: nat := 15
  /** `SamplesNumber`: the most samples meant to be kept. */
  const SamplesNumber: nat := 1000
  /** A calibrating sample shorter than this is taken as this long. */
  const ShortestCalibration: nat := 10

  /** The repeat count the first sample calibrates, when it does: a
      million nanoseconds over the (clamped) sample, rounded to nearest (the
      source divides in `float`; this is the exact rounding). */
  function Calibrated(lap: (nat, nat) -> nat): (c: Option<nat>)
    ensures c.Some? <==> lap(0, 1) < Millisecond
  {
    var first := lap(0, 1);
    if first < Millisecond then
      Some(RoundDiv(Millisecond, if first < ShortestCalibration then ShortestCalibration else first))
    else None
  }

  /** The repeat count a run ends with. */
  function RunRepeats(lap: (nat, nat) -> nat): nat
  {
    match Calibrated(lap)
    case Some(r) => r
    case None => 1
  }

  /** The laps of `n` consecutive calls from call `from`, all with `r`
      repeats. */
  function Recorded(lap: (nat, nat) -> nat, from: nat, n: nat, r: nat): seq<nat>
  {
    if n == 0 then [] else Recorded(lap, from, n - 1, r) + [lap(from + n - 1, r)]
  }

  /** The samples one run records, in order. */
  function RunSamples(lap: (nat, nat) -> nat): seq<nat>
  {
    match Calibrated(lap)
    case Some(r) => Recorded(lap, 1, SamplesPerRun, r)
    case None => Recorded(lap, 0, SamplesPerRun, 1)
  }

  /** The offset the source passes as the end of the range it erases when
      more than `SamplesNumber` samples are held: `SamplesNumber - size`
      computed in `size_t`, which wraps. */
  function TrimEndAsWritten(size: nat): nat
  {
    (SamplesNumber - size) % Statistics.SizeModulus
  }

  /** What the trim is for: keep the newest `SamplesNumber` samples. */
  function KeepNewest(s: seq<nat>): (r: seq<nat>)
    ensures |r| == if |s| > SamplesNumber then SamplesNumber else |s|
    ensures r == s[|s| - |r|..]
  {
    if |s| > SamplesNumber then s[|s| - SamplesNumber..] else s
  }

  class Benchmark {
    var totalIterations: nat
    var repeats: nat
    var totalTimeRun: nat
    var averageTime: nat
    var medianTime: nat
    var minimalTime: nat
    var standardDeviation: nat
    var timeSamples: seq<nat>

    /** Held samples are divided by `repeats`, so it is positive once there
        are any; `totalIterations` is `unsigned`; at most `SamplesNumber`
        samples are kept. */
    predicate Valid()
      reads this
    {
      (timeSamples != [] ==> repeats > 0) &&
      totalIterations < UintModulus && |timeSamples| <= SamplesNumber
    }

    constructor ()
      ensures Valid() && timeSamples == [] && repeats == 0
      ensures totalIterations == 0 && totalTimeRun == 0
      ensures averageTime == 0 && medianTime == 0 && minimalTime == 0 && standardDeviation == 0
    {
      totalIterations, repeats, totalTimeRun := 0, 0, 0;
      averageTime, medianTime, minimalTime, standardDeviation := 0, 0, 0, 0;
      timeSamples := [];
    }

    /** `run`: fifteen recorded samples after an optional calibrating one,
        each counted at the repeat count and added to the total time; then
        only the newest `SamplesNumber` samples are kept. The progress dots
        are not modelled. */
    method Run(lap: (nat, nat) -> nat)
      requires Valid()
      modifies this`repeats, this`totalIterations, this`totalTimeRun, this`timeSamples
      ensures Valid()
      ensures repeats == RunRepeats(lap)
      ensures totalIterations == Counted(old(totalIterations), SamplesPerRun, repeats)
      ensures totalTimeRun == old(totalTimeRun) + Sum(RunSamples(lap))
      ensures timeSamples == KeepNewest(old(timeSamples) + RunSamples(lap))
    {
      RecordRun(lap);
      ghost var held := timeSamples;
      Trim();
      assert |timeSamples| <= SamplesNumber && (timeSamples != [] ==> held != []);
    }

    /** The sample loop of `run`, before the trim. */
    method RecordRun(lap: (nat, nat) -> nat)
      requires totalIterations < UintModulus
      modifies this`repeats, this`totalIterations, this`totalTimeRun, this`timeSamples
      ensures repeats == RunRepeats(lap) && repeats > 0 && totalIterations < UintModulus
      ensures totalIterations == Counted(old(totalIterations), SamplesPerRun, repeats)
      ensures totalTimeRun == old(totalTimeRun) + Sum(RunSamples(lap))
      ensures timeSamples == old(timeSamples) + RunSamples(lap)
    {
      ghost var samples0, total0, time0 := timeSamples, totalIterations, totalTimeRun;
      repeats := 1;
      var firstRun := true;
      var i: nat := 0;
      var k: nat := 0;
      while i < SamplesPerRun
        invariant repeats > 0
        invariant Recording(lap, samples0, total0, time0, firstRun, repeats, i, k,
                            timeSamples, totalIterations, totalTimeRun)
        decreases SamplesPerRun - i, if firstRun then 1 else 0
      {
        firstRun, i, k := NextCall(lap, samples0, total0, time0, firstRun, i, k);
      }
      RunEnds(lap, samples0, total0, time0, firstRun, repeats, i, k, timeSamples, totalIterations, totalTimeRun);
    }

    /** The trim after the loop of `run`, as evidently intended: keep the
        newest `SamplesNumber` samples (see `TrimEndOverruns` for the range
        the source computes). */
    method Trim()
      modifies this`timeSamples
      ensures timeSamples == KeepNewest(old(timeSamples))
    {
      if |timeSamples| > SamplesNumber {
        timeSamples := timeSamples[|timeSamples| - SamplesNumber..];
      }
    }

    /** One turn of the loop of `run`: a timed call, then either the
        calibration or a recorded sample. */
    method NextCall(lap: (nat, nat) -> nat, ghost samples0: seq<nat>, ghost total0: nat, ghost time0: nat,
                    firstRun: bool, i: nat, k: nat)
      returns (firstRun': bool, i': nat, k': nat)
      requires i < SamplesPerRun && repeats > 0
      requires Recording(lap, samples0, total0, time0, firstRun, repeats, i, k,
                         timeSamples, totalIterations, totalTimeRun)
      modifies this`repeats, this`totalIterations, this`totalTimeRun, this`timeSamples
      ensures repeats > 0 && (i' > i || (i' == i && firstRun && !firstRun'))
      ensures Recording(lap, samples0, total0, time0, firstRun', repeats, i', k',
                        timeSamples, totalIterations, totalTimeRun)
    {
      var timeNs := lap(k, repeats);
      if firstRun && timeNs < Millisecond {
        i' := Calibrate(lap, samples0, total0, time0, i, k, timeNs);
      } else {
        Record(lap, samples0, total0, time0, firstRun, i, k, timeNs);
        i' := i + 1;
      }
      firstRun', k' := false, k + 1;
    }

    /** The calibrating branch: the sample, clamped to at least ten
        nanoseconds, sets the repeat count and is not counted. */
    method Calibrate(lap: (nat, nat) -> nat, ghost samples0: seq<nat>, ghost total0: nat, ghost time0: nat,
                     i: nat, k: nat, sample: nat)
      returns (i': nat)
      requires Recording(lap, samples0, total0, time0, true, repeats, i, k,
                         timeSamples, totalIterations, totalTimeRun)
      requires sample == lap(k, repeats) && sample < Millisecond
      modifies this`repeats
      ensures repeats > 0 && i' == i
      ensures Recording(lap, samples0, total0, time0, false, repeats, i', k + 1,
                        timeSamples, totalIterations, totalTimeRun)
    {
      var timeNs := sample;
      if timeNs < ShortestCalibration {
        timeNs := ShortestCalibration;
      }
      CalibratingStep(lap, samples0, total0, time0, i, k, timeSamples, totalIterations, totalTimeRun, timeNs);
      repeats := RoundDiv(Millisecond, timeNs);
      // `i--` on an unsigned counter at 0 wraps; the loop's `i++` undoes it.
      i' := (i + UintModulus - 1) % UintModulus;
      i' := (i' + 1) % UintModulus;
    }

    /** The recording branch: the call is counted at the repeat count, its
        time added to the total and its sample kept. */
    method Record(lap: (nat, nat) -> nat, ghost samples0: seq<nat>, ghost total0: nat, ghost time0: nat,
                  firstRun: bool, i: nat, k: nat, sample: nat)
      requires i < SamplesPerRun
      requires Recording(lap, samples0, total0, time0, firstRun, repeats, i, k,
                         timeSamples, totalIterations, totalTimeRun)
      requires sample == lap(k, repeats) && !(firstRun && sample < Millisecond)
      modifies this`totalIterations, this`totalTimeRun, this`timeSamples
      ensures Recording(lap, samples0, total0, time0, false, repeats, i + 1, k + 1,
                        timeSamples, totalIterations, totalTimeRun)
    {
      RecordingStep(lap, samples0, total0, time0, firstRun, repeats, i, k,
                    timeSamples, totalIterations, totalTimeRun, sample);
      totalIterations := (totalIterations + repeats) % UintModulus;
      totalTimeRun := totalTimeRun + sample;
      timeSamples := timeSamples + [sample];
    }

    /** `calculateTimings`: nothing on no samples (so the destructor is safe
        before any `run`, while `repeats` is still 0); otherwise the samples
        are sorted and the per-call minimum, average, deviation and median
        are computed exactly as the later `TimeStatistics::calculate` does
        them. No maximum is computed and the total is left alone. */
    method CalculateTimings() returns (ok: bool)
      requires Valid()
      modifies this`timeSamples, this`averageTime, this`medianTime, this`minimalTime, this`standardDeviation
      ensures Valid()
      ensures ok <==> old(timeSamples) != []
      ensures !ok ==> unchanged(this)
      ensures ok ==> timeSamples == Sort(old(timeSamples))
      ensures ok ==> var st := LegacyStatistics.LegacyStatsOf(old(timeSamples), repeats);
        averageTime == st.average && medianTime == st.median &&
        minimalTime == st.minimum && standardDeviation == st.stdDev
      ensures ok ==> minimalTime <= averageTime && minimalTime <= medianTime
    {
      var xs := timeSamples;
      if xs == [] {
        return false;
      }
      var st := LegacyStatistics.Summarise(xs, repeats);
      LegacyStatistics.LegacyBounds(xs, repeats);
      timeSamples := Sort(xs);
      averageTime, medianTime, minimalTime, standardDeviation := st.average, st.median, st.minimum, st.stdDev;
      ok := true;
    }
  }

  /** The loop state of `run` after `k` calls, `i` of them recorded. */
  ghost predicate Recording(lap: (nat, nat) -> nat, samples0: seq<nat>, total0: nat, time0: nat,
                            firstRun: bool, repeats: nat, i: nat, k: nat,
                            samples: seq<nat>, total: nat, time: nat)
  {
    var c := Calibrated(lap);
    i <= SamplesPerRun && total0 < UintModulus && (firstRun <==> k == 0) &&
    (firstRun ==> i == 0 && repeats == 1 && total == total0) &&
    (!firstRun ==>
      repeats == RunRepeats(lap) &&
      k == i + (if c.Some? then 1 else 0) &&
      total == Counted(total0, i, repeats)) &&
    k >= i && samples == samples0 + Recorded(lap, k - i, i, repeats) &&
    time == time0 + Sum(Recorded(lap, k - i, i, repeats))
  }

  /** Once fifteen samples are recorded, the loop state is a whole run. */
  lemma RunEnds(lap: (nat, nat) -> nat, samples0: seq<nat>, total0: nat, time0: nat,
                firstRun: bool, repeats: nat, i: nat, k: nat, samples: seq<nat>, total: nat, time: nat)
    requires Recording(lap, samples0, total0, time0, firstRun, repeats, i, k, samples, total, time)
    requires i >= SamplesPerRun
    ensures repeats == RunRepeats(lap) && total == Counted(total0, SamplesPerRun, repeats)
    ensures samples == samples0 + RunSamples(lap) && time == time0 + Sum(RunSamples(lap))
  {
    assert k - i == if Calibrated(lap).Some? then 1 else 0;
  }

  /** A calibrating first call settles the repeat count and records
      nothing. */
  lemma CalibratingStep(lap: (nat, nat) -> nat, samples0: seq<nat>, total0: nat, time0: nat,
                        i: nat, k: nat, samples: seq<nat>, total: nat, time: nat, timeNs: nat)
    requires Recording(lap, samples0, total0, time0, true, 1, i, k, samples, total, time)
    requires lap(k, 1) < Millisecond
    requires timeNs == if lap(k, 1) < ShortestCalibration then ShortestCalibration else lap(k, 1)
    ensures var r := RoundDiv(Millisecond, timeNs);
      1 <= r && ((i + UintModulus - 1) % UintModulus + 1) % UintModulus == i &&
      Recording(lap, samples0, total0, time0, false, r, i, k + 1, samples, total, time)
  {
    CalibrationRange(timeNs);
  }

  /** A recorded call: one more sample, counted at the repeat count and
      added to the total time. */
  lemma RecordingStep(lap: (nat, nat) -> nat, samples0: seq<nat>, total0: nat, time0: nat,
                      firstRun: bool, repeats: nat, i: nat, k: nat,
                      samples: seq<nat>, total: nat, time: nat, timeNs: nat)
    requires Recording(lap, samples0, total0, time0, firstRun, repeats, i, k, samples, total, time)
    requires i < SamplesPerRun && timeNs == lap(k, repeats) && !(firstRun && timeNs < Millisecond)
    ensures (i + 1) % UintModulus == i + 1
    ensures Recording(lap, samples0, total0, time0, false, repeats, i + 1, k + 1,
                      samples + [timeNs], (total + repeats) % UintModulus, time + timeNs)
  {
    var s := Recorded(lap, k - i, i, repeats);
    assert Recorded(lap, k + 1 - (i + 1), i + 1, repeats) == s + [timeNs];
    assert Sum(s + [timeNs]) == Sum(s) + timeNs by {
      SumAppend(s, [timeNs]);
      assert [timeNs][..0] == [];
    }
    assert (total + repeats) % UintModulus == Counted(total0, i + 1, repeats) by {
      CountStep(total0, i, repeats);
    }
    assert (i + 1) % UintModulus == i + 1;
  }

  /** A calibrating first sample, clamped to at least ten nanoseconds and
      below a millisecond, gives between one and a hundred thousand
      repeats, and that many repeats last a millisecond to within half a
      sample. */
  lemma CalibrationRange(sample: nat)
    requires ShortestCalibration <= sample < Millisecond
    ensures var r := RoundDiv(Millisecond, sample);
      1 <= r <= 100_000 && 2 * Dist(r * sample, Millisecond) <= sample
  {
    var r := RoundDiv(Millisecond, sample);
    assert 2 * sample * r <= 2 * Millisecond + sample < 2 * sample * (r + 1);
    if r > 100_000 {
      MulMonotone(sample, 100_001, r);
    }
  }

  lemma {:induction false} RecordedAt(lap: (nat, nat) -> nat, from: nat, n: nat, r: nat)
    ensures |Recorded(lap, from, n, r)| == n
    ensures forall j :: 0 <= j < n ==> Recorded(lap, from, n, r)[j] == lap(from + j, r)
  {
    if n > 0 {
      RecordedAt(lap, from, n - 1, r);
    }
  }

  /** A run records exactly fifteen samples: with calibration calls 1 to 15
      at the calibrated count (call 0 is discarded), without it calls 0 to
      14 once each. */
  lemma RunRecords(lap: (nat, nat) -> nat)
    ensures var s := RunSamples(lap);
      |s| == SamplesPerRun &&
      match Calibrated(lap)
      case Some(r) => forall j :: 0 <= j < SamplesPerRun ==> s[j] == lap(j + 1, r)
      case None => forall j :: 0 <= j < SamplesPerRun ==> s[j] == lap(j, 1)
  {
    match Calibrated(lap)
    case Some(r) => RecordedAt(lap, 1, SamplesPerRun, r);
    case None => RecordedAt(lap, 0, SamplesPerRun, 1);
  }

  /** As written, the trim's offset wraps around: for any size that
      triggers it, the offset lies past the end of the vector (and, taken
      back as a signed iterator step, it is negative), so the erased range
      is never a valid one. */
  lemma TrimEndOverruns(size: nat)
    requires SamplesNumber < size <= Statistics.SizeModulus / 2
    ensures TrimEndAsWritten(size) == Statistics.SizeModulus + SamplesNumber - size
    ensures TrimEndAsWritten(size) > size
  {
    var m := Statistics.SizeModulus;
    DivUnique(m + SamplesNumber - size, m, 0, m + SamplesNumber - size);
    assert SamplesNumber - size == -1 * m + (m + SamplesNumber - size);
  }

  /** Trimming is reached only once the held samples exceed a thousand,
      i.e. on the 67th run of one object (66 runs hold 990 samples). */
  lemma TrimFirstReached(runs: nat)
    ensures runs * SamplesPerRun > SamplesNumber <==> runs >= 67
  {
  }

  /** The corrected trim keeps the newest samples, and a run on a full
      object still keeps its own fifteen. */
  lemma KeepNewestKeepsRun(held: seq<nat>, run: seq<nat>)
    requires |run| <= SamplesNumber
    ensures KeepNewest(held + run)[|KeepNewest(held + run)| - |run|..] == run
  {
    var s := held + run;
    var r := KeepNewest(s);
    assert r == s[|s| - |r|..];
    assert s[|s| - |run|..] == run;
  }
}
