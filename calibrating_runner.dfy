/** The run loop of the calibrating generation (`Benchmark::run` and
    `run_once` in include/benchmark.h). Every call of the benchmark body gets
    a fresh `SampleTimer`; the runner starts it, the body may restart and stop
    it itself (the `MEASURE` macro does), and the runner stops it again.
    The first sample, if shorter than a millisecond, only calibrates how many
    times the body repeats its code per sample, and is thrown away.

    The clock and the body are oracles: `clock(k)` are the two readings the
    runner takes around call `k` (counting every call, the discarded one
    too), and `body(k, r)` are the timer calls call `k` makes when it is told
    to repeat its code `r` times. */
module CalibratingRunner {
  import opened Numeric
  import Timers
  import LegacyStatistics

  /** One millisecond in ticks: calibration happens below it and aims at it. */
  const Millisecond: nat := 1_000_000
  /** Samples per run (the `Iterations` member) unless `run_once` was used. */
  const DefaultIterations: nat := 10

  /** A call the body makes on its `SampleTimer`. */
  datatype TimerCall = StartAt(now: int) | StopAt(now: int)

  /** The fields of a `SampleTimer`: start, end, and whether it has stopped. */
  datatype TimerValue = TimerValue(start: int, end: int, ended: bool)

  /** A freshly constructed timer. */
  const Unstarted: TimerValue := TimerValue(0, Timers.MaxTicks, false)

  /** What one timer call does: a start moves the start point, only the
      first stop sets the end point. */
  function Apply(v: TimerValue, c: TimerCall): TimerValue
  {
    match c
    case StartAt(now) => v.(start := now)
    case StopAt(now) => if v.ended then v else TimerValue(v.start, now, true)
  }

  /** The timer after a sequence of calls, applied front to back. */
  function Replay(v: TimerValue, calls: seq<TimerCall>): TimerValue
  {
    if calls == [] then v else Apply(Replay(v, calls[..|calls| - 1]), calls[|calls| - 1])
  }

  /** The calls one `SampleTimer` receives during call `k`: the runner's
      start, the body's own calls, the runner's stop. */
  function Session(clock: nat -> (int, int), body: (nat, nat) -> seq<TimerCall>, k: nat, r: nat): seq<TimerCall>
  {
    [StartAt(clock(k).0)] + body(k, r) + [StopAt(clock(k).1)]
  }

  /** The sample `getSample` yields after call `k` with `r` repeats. */
  function SampleOf(clock: nat -> (int, int), body: (nat, nat) -> seq<TimerCall>, k: nat, r: nat): nat
  {
    var v := Replay(Unstarted, Session(clock, body, k, r));
    Timers.Span(v.start, v.end)
  }

  /** The samples of `n` consecutive calls from call `from`, all with `r`
      repeats. */
  function Recorded(clock: nat -> (int, int), body: (nat, nat) -> seq<TimerCall>, from: nat, n: nat, r: nat): seq<nat>
  {
    if n == 0 then [] else Recorded(clock, body, from, n - 1, r) + [SampleOf(clock, body, from + n - 1, r)]
  }

  /** The repeat count a first sample calibrates, when it does: a million
      ticks over the sample, rounded to nearest (the source divides in
      `float`; this is the exact rounding). */
  function Calibrated(runOnce: bool, iterations: nat, clock: nat -> (int, int),
                      body: (nat, nat) -> seq<TimerCall>): (c: Option<nat>)
    ensures c.Some? <==> iterations > 0 && !runOnce && SampleOf(clock, body, 0, 1) < Millisecond
  {
    var first := SampleOf(clock, body, 0, 1);
    if iterations > 0 && !runOnce && first < Millisecond then Some(RoundDiv(Millisecond, first)) else None
  }

  /** The samples one run records, in order: with calibration, calls 1 to
      `iterations` at the calibrated repeat count; without, calls 0 to
      `iterations - 1` once each. */
  function RunSamples(runOnce: bool, iterations: nat, clock: nat -> (int, int),
                      body: (nat, nat) -> seq<TimerCall>): seq<nat>
  {
    match Calibrated(runOnce, iterations, clock, body)
    case Some(r) => Recorded(clock, body, 1, iterations, r)
    case None => Recorded(clock, body, 0, iterations, 1)
  }

  class Benchmark {
    const stats: LegacyStatistics.LegacyTimeStatistics
    var totalIterations: nat
    var iterations: nat
    var runOnce: bool

    /** The statistics divide by their repeat count; both counters are
        `unsigned`. */
    predicate Valid()
      reads this, stats
    {
      stats.repeats > 0 && totalIterations < UintModulus && iterations < UintModulus
    }

    /** `significant` of the statistics is never initialised by the source;
        its indeterminate value is a parameter here. */
    constructor (indeterminate: bool)
      ensures Valid() && fresh(stats)
      ensures stats.samples == [] && stats.repeats == 1
      ensures totalIterations == 0 && iterations == DefaultIterations && !runOnce
    {
      stats := new LegacyStatistics.LegacyTimeStatistics(indeterminate);
      totalIterations := 0;
      iterations := DefaultIterations;
      runOnce := false;
    }

    /** `run`: records `iterations` samples (one under `run_once`), the first
        call possibly calibrating instead, then calculates the figures. The
        source's output is not modelled. */
    method Run(clock: nat -> (int, int), body: (nat, nat) -> seq<TimerCall>)
      requires Valid()
      modifies this, stats
      ensures Valid() && runOnce == old(runOnce)
      ensures iterations == if runOnce then 1 else old(iterations)
      ensures stats.repeats == match Calibrated(runOnce, iterations, clock, body)
                               case Some(r) => r
                               case None => old(stats.repeats)
      ensures totalIterations == Counted(old(totalIterations), iterations, stats.repeats)
      ensures var all := old(stats.samples) + RunSamples(runOnce, iterations, clock, body);
        if all == [] then stats.samples == [] && stats.Current() == old(stats.Current())
        else stats.samples == Sort(all) && stats.Current() == LegacyStatistics.LegacyStatsOf(all, stats.repeats)
    {
      ghost var current, before := stats.Current(), stats.samples;
      RecordRun(clock, body);
      ghost var all := before + RunSamples(runOnce, iterations, clock, body);
      assert stats.Current() == current && stats.samples == all;
      var _ := stats.Calculate();
    }

    /** The loop of `run`: every sample but a calibrating first one is
        added and counted at the statistics' repeat count. */
    method RecordRun(clock: nat -> (int, int), body: (nat, nat) -> seq<TimerCall>)
      requires Valid()
      modifies this, stats`samples, stats`repeats
      ensures Valid() && runOnce == old(runOnce)
      ensures iterations == if runOnce then 1 else old(iterations)
      ensures stats.repeats == match Calibrated(runOnce, iterations, clock, body)
                               case Some(r) => r
                               case None => old(stats.repeats)
      ensures totalIterations == Counted(old(totalIterations), iterations, stats.repeats)
      ensures stats.samples == old(stats.samples) + RunSamples(runOnce, iterations, clock, body)
    {
      if runOnce {
        iterations := 1;
      }
      ghost var samples0, total0, repeats0 := stats.samples, totalIterations, stats.repeats;
      var firstRun := true;
      var repeats := 1;
      var i: nat := 0;
      var k: nat := 0;
      while i < iterations
        invariant Valid() && runOnce == old(runOnce)
        invariant iterations == if runOnce then 1 else old(iterations)
        invariant Recording(clock, body, runOnce, iterations, samples0, total0, repeats0,
                            firstRun, repeats, i, k, stats.samples, totalIterations, stats.repeats)
        decreases iterations - i, if firstRun then 1 else 0
      {
        firstRun, repeats, i, k := NextCall(clock, body, samples0, total0, repeats0, firstRun, repeats, i, k);
      }
      assert k - i == if Calibrated(runOnce, iterations, clock, body).Some? then 1 else 0;
    }

    /** One turn of the loop of `run`: a call, then either the calibration
        or a recorded sample. */
    method NextCall(clock: nat -> (int, int), body: (nat, nat) -> seq<TimerCall>,
                    ghost samples0: seq<nat>, ghost total0: nat, ghost repeats0: nat,
                    firstRun: bool, repeats: nat, i: nat, k: nat)
      returns (firstRun': bool, repeats': nat, i': nat, k': nat)
      requires Valid() && i < iterations
      requires Recording(clock, body, runOnce, iterations, samples0, total0, repeats0,
                         firstRun, repeats, i, k, stats.samples, totalIterations, stats.repeats)
      modifies this`totalIterations, stats`samples, stats`repeats
      ensures Valid() && (i' > i || (i' == i && firstRun && !firstRun'))
      ensures Recording(clock, body, runOnce, iterations, samples0, total0, repeats0,
                        firstRun', repeats', i', k', stats.samples, totalIterations, stats.repeats)
    {
      var sample := CallOnce(clock, body, k, repeats);
      if !runOnce && firstRun && sample < Millisecond {
        repeats', i' := Calibrate(clock, body, samples0, total0, repeats0, i, k, sample);
      } else {
        Record(clock, body, samples0, total0, repeats0, firstRun, repeats, i, k, sample);
        repeats', i' := repeats, i + 1;
      }
      firstRun', k' := false, k + 1;
    }

    /** The calibrating branch: the repeat count is set from the sample and
        the call is not counted. */
    method Calibrate(clock: nat -> (int, int), body: (nat, nat) -> seq<TimerCall>,
                     ghost samples0: seq<nat>, ghost total0: nat, ghost repeats0: nat,
                     i: nat, k: nat, sample: nat)
      returns (repeats': nat, i': nat)
      requires Valid() && i < iterations
      requires Recording(clock, body, runOnce, iterations, samples0, total0, repeats0,
                         true, 1, i, k, stats.samples, totalIterations, stats.repeats)
      requires sample == SampleOf(clock, body, k, 1) && !runOnce && sample < Millisecond
      modifies stats`repeats
      ensures Valid() && i' == i
      ensures Recording(clock, body, runOnce, iterations, samples0, total0, repeats0,
                        false, repeats', i', k + 1, stats.samples, totalIterations, stats.repeats)
    {
      CalibratingStep(clock, body, runOnce, iterations, samples0, total0, repeats0,
                      i, k, stats.samples, totalIterations, sample);
      repeats' := RoundDiv(Millisecond, sample);
      stats.SetRepeats(repeats');
      // `i--` on an unsigned counter at 0 wraps; the loop's `i++` undoes it.
      i' := (i + UintModulus - 1) % UintModulus;
      i' := (i' + 1) % UintModulus;
    }

    /** The recording branch: the call is counted and its sample kept. */
    method Record(clock: nat -> (int, int), body: (nat, nat) -> seq<TimerCall>,
                  ghost samples0: seq<nat>, ghost total0: nat, ghost repeats0: nat,
                  firstRun: bool, repeats: nat, i: nat, k: nat, sample: nat)
      requires Valid() && i < iterations
      requires Recording(clock, body, runOnce, iterations, samples0, total0, repeats0,
                         firstRun, repeats, i, k, stats.samples, totalIterations, stats.repeats)
      requires sample == SampleOf(clock, body, k, repeats) && !(!runOnce && firstRun && sample < Millisecond)
      modifies this`totalIterations, stats`samples
      ensures Valid()
      ensures Recording(clock, body, runOnce, iterations, samples0, total0, repeats0,
                        false, repeats, i + 1, k + 1, stats.samples, totalIterations, stats.repeats)
    {
      ghost var samples, total, statsRepeats := stats.samples, totalIterations, stats.repeats;
      RecordingStep(clock, body, runOnce, iterations, samples0, total0, repeats0,
                    firstRun, repeats, i, k, stats.samples, totalIterations, stats.repeats, sample);
      totalIterations := (totalIterations + stats.repeats) % UintModulus;
      stats.AddSample(sample);
      assert stats.samples == samples + [sample] && stats.repeats == statsRepeats;
      assert totalIterations == (total + statsRepeats) % UintModulus;
    }

    /** `run_once`: sets the flag for good, then runs. */
    method RunOnce(clock: nat -> (int, int), body: (nat, nat) -> seq<TimerCall>)
      requires Valid()
      modifies this, stats
      ensures Valid() && runOnce && iterations == 1
      ensures stats.repeats == old(stats.repeats)
      ensures totalIterations == Counted(old(totalIterations), 1, stats.repeats)
      ensures var all := old(stats.samples) + [SampleOf(clock, body, 0, 1)];
        stats.samples == Sort(all) && stats.Current() == LegacyStatistics.LegacyStatsOf(all, stats.repeats)
    {
      runOnce := true;
      RunOnceNeverCalibrates(clock, body);
      ghost var before := stats.samples;
      Run(clock, body);
      ghost var all := before + [SampleOf(clock, body, 0, 1)];
      assert all == before + RunSamples(runOnce, iterations, clock, body);
      assert all != [];
    }

    /** `debugAddSample`: one sample and one iteration, no calibration. */
    method DebugAddSample(sample: nat)
      requires Valid()
      modifies stats`samples, this`totalIterations
      ensures Valid()
      ensures stats.samples == old(stats.samples) + [sample]
      ensures totalIterations == (old(totalIterations) + 1) % UintModulus
    {
      stats.AddSample(sample);
      totalIterations := (totalIterations + 1) % UintModulus;
    }
  }

  /** One call of the body on a fresh timer: the runner starts it, the body
      makes its own calls, the runner stops it and reads the sample. */
  method CallOnce(clock: nat -> (int, int), body: (nat, nat) -> seq<TimerCall>, k: nat, r: nat)
    returns (sample: nat)
    ensures sample == SampleOf(clock, body, k, r)
  {
    var timer := new Timers.SampleTimer(r);
    var calls := Session(clock, body, k, r);
    for j := 0 to |calls|
      invariant TimerValue(timer.start, timer.end, timer.ended) == Replay(Unstarted, calls[..j])
    {
      assert calls[..j + 1][..j] == calls[..j];
      match calls[j]
      case StartAt(now) => timer.Start(now);
      case StopAt(now) => timer.Stop(now);
    }
    assert calls[..|calls|] == calls;
    sample := timer.GetSample();
  }

  /** The loop state of `run` after `k` calls, `i` of them recorded:
      before the first call nothing has changed; after it the repeat count
      is settled, and the recorded samples are the calls since the
      calibrating one at that count, each counted at the statistics'
      repeat count. */
  ghost predicate Recording(clock: nat -> (int, int), body: (nat, nat) -> seq<TimerCall>, runOnce: bool,
                            iterations: nat, samples0: seq<nat>, total0: nat, repeats0: nat,
                            firstRun: bool, repeats: nat, i: nat, k: nat,
                            samples: seq<nat>, total: nat, statsRepeats: nat)
  {
    var c := Calibrated(runOnce, iterations, clock, body);
    i <= iterations && total0 < UintModulus && (firstRun <==> k == 0) &&
    (firstRun ==> i == 0 && repeats == 1 && statsRepeats == repeats0 && total == total0) &&
    (!firstRun ==>
      repeats == (if c.Some? then c.value else 1) &&
      statsRepeats == (if c.Some? then c.value else repeats0) &&
      k == i + (if c.Some? then 1 else 0) &&
      total == Counted(total0, i, statsRepeats)) &&
    k >= i && samples == samples0 + Recorded(clock, body, k - i, i, repeats)
  }

  /** A calibrating first call: it settles the repeat count and records
      nothing. */
  lemma CalibratingStep(clock: nat -> (int, int), body: (nat, nat) -> seq<TimerCall>, runOnce: bool,
                        iterations: nat, samples0: seq<nat>, total0: nat, repeats0: nat,
                        i: nat, k: nat, samples: seq<nat>, total: nat, sample: nat)
    requires Recording(clock, body, runOnce, iterations, samples0, total0, repeats0,
                       true, 1, i, k, samples, total, repeats0)
    requires i < iterations && sample == SampleOf(clock, body, k, 1) && !runOnce && sample < Millisecond
    ensures var r := RoundDiv(Millisecond, sample);
      1 <= r && ((i + UintModulus - 1) % UintModulus + 1) % UintModulus == i &&
      Recording(clock, body, runOnce, iterations, samples0, total0, repeats0,
                false, r, i, k + 1, samples, total, r)
  {
    CalibrationRange(sample);
    var r := RoundDiv(Millisecond, sample);
    assert Calibrated(runOnce, iterations, clock, body) == Some(r);
  }

  /** A recorded call: one more sample, counted at the statistics' repeat
      count. */
  lemma RecordingStep(clock: nat -> (int, int), body: (nat, nat) -> seq<TimerCall>, runOnce: bool,
                      iterations: nat, samples0: seq<nat>, total0: nat, repeats0: nat,
                      firstRun: bool, repeats: nat, i: nat, k: nat,
                      samples: seq<nat>, total: nat, statsRepeats: nat, sample: nat)
    requires Recording(clock, body, runOnce, iterations, samples0, total0, repeats0,
                       firstRun, repeats, i, k, samples, total, statsRepeats)
    requires i < iterations && i + 1 < UintModulus && sample == SampleOf(clock, body, k, repeats)
    requires !(!runOnce && firstRun && sample < Millisecond)
    ensures (i + 1) % UintModulus == i + 1
    ensures Recording(clock, body, runOnce, iterations, samples0, total0, repeats0,
                      false, repeats, i + 1, k + 1, samples + [sample], (total + statsRepeats) % UintModulus, statsRepeats)
  {
    var c := Calibrated(runOnce, iterations, clock, body);
    if firstRun {
      assert c == None;
    }
    assert (total + statsRepeats) % UintModulus == Counted(total0, i + 1, statsRepeats) by {
      CountStep(total0, i, statsRepeats);
    }
    assert Recorded(clock, body, k + 1 - (i + 1), i + 1, repeats) == Recorded(clock, body, k - i, i, repeats) + [sample];
    assert (i + 1) % UintModulus == i + 1;
  }

  /** A calibrating first sample (between one tick and a millisecond) gives a
      repeat count between one and a million, and that many repeats of it
      last a millisecond to within half a sample. */
  lemma CalibrationRange(sample: nat)
    requires 1 <= sample < Millisecond
    ensures var r := RoundDiv(Millisecond, sample);
      1 <= r <= Millisecond && 2 * Dist(r * sample, Millisecond) <= sample
  {
    var r := RoundDiv(Millisecond, sample);
    assert 2 * sample * r <= 2 * Millisecond + sample < 2 * sample * (r + 1);
    if sample > 1 {
      MulMonotone(r, 2, sample);
    }
  }

  /** Once stopped, a timer keeps its end point whatever calls follow. */
  lemma {:induction false} StoppedStaysStopped(v: TimerValue, calls: seq<TimerCall>)
    requires v.ended
    ensures Replay(v, calls).ended && Replay(v, calls).end == v.end
    decreases |calls|
  {
    if calls != [] {
      StoppedStaysStopped(v, calls[..|calls| - 1]);
    }
  }

  lemma ReplayAppend(v: TimerValue, calls: seq<TimerCall>, c: TimerCall)
    ensures Replay(v, calls + [c]) == Apply(Replay(v, calls), c)
  {
    assert (calls + [c])[..|calls|] == calls;
  }

  /** The `MEASURE` shape: a body that restarts the timer at `a` and stops it
      at `b` yields exactly `b - a` (at least one tick), whenever the runner
      started it and whenever it stops it again: the runner's stop is a
      no-op. */
  lemma MeasuredBody(clock: nat -> (int, int), body: (nat, nat) -> seq<TimerCall>, k: nat, r: nat, a: int, b: int)
    requires body(k, r) == [StartAt(a), StopAt(b)]
    ensures SampleOf(clock, body, k, r) == Timers.Span(a, b)
  {
    var c0, c1, c2, c3 := StartAt(clock(k).0), StartAt(a), StopAt(b), StopAt(clock(k).1);
    assert Session(clock, body, k, r) == [c0, c1, c2] + [c3];
    assert [c0, c1, c2] == [c0, c1] + [c2] && [c0, c1] == [c0] + [c1] && [c0] == [] + [c0];
    ReplayAppend(Unstarted, [], c0);
    ReplayAppend(Unstarted, [c0], c1);
    ReplayAppend(Unstarted, [c0, c1], c2);
    ReplayAppend(Unstarted, [c0, c1, c2], c3);
  }

  /** A body that never touches its timer is timed by the runner's own two
      readings. */
  lemma UntimedBody(clock: nat -> (int, int), body: (nat, nat) -> seq<TimerCall>, k: nat, r: nat)
    requires body(k, r) == []
    ensures SampleOf(clock, body, k, r) == Timers.Span(clock(k).0, clock(k).1)
  {
    var c0, c1 := StartAt(clock(k).0), StopAt(clock(k).1);
    assert Session(clock, body, k, r) == [c0] + [c1];
    assert [c0] == [] + [c0];
    ReplayAppend(Unstarted, [], c0);
    ReplayAppend(Unstarted, [c0], c1);
  }

  lemma {:induction false} RecordedAt(clock: nat -> (int, int), body: (nat, nat) -> seq<TimerCall>, from: nat, n: nat, r: nat)
    ensures |Recorded(clock, body, from, n, r)| == n
    ensures forall j :: 0 <= j < n ==> Recorded(clock, body, from, n, r)[j] == SampleOf(clock, body, from + j, r)
  {
    if n > 0 {
      RecordedAt(clock, body, from, n - 1, r);
    }
  }

  /** A run records exactly `iterations` samples. With calibration they are
      calls 1 onwards at the calibrated count (call 0 is discarded); without,
      calls 0 onwards, once each. */
  lemma RunRecords(runOnce: bool, iterations: nat, clock: nat -> (int, int), body: (nat, nat) -> seq<TimerCall>)
    ensures var s := RunSamples(runOnce, iterations, clock, body);
      |s| == iterations &&
      match Calibrated(runOnce, iterations, clock, body)
      case Some(r) => forall j :: 0 <= j < iterations ==> s[j] == SampleOf(clock, body, j + 1, r)
      case None => forall j :: 0 <= j < iterations ==> s[j] == SampleOf(clock, body, j, 1)
  {
    RecordedAt(clock, body, 1, iterations, RoundDiv(Millisecond, SampleOf(clock, body, 0, 1)));
    RecordedAt(clock, body, 0, iterations, 1);
  }

  /** `run_once` never calibrates and keeps its one sample. */
  lemma RunOnceNeverCalibrates(clock: nat -> (int, int), body: (nat, nat) -> seq<TimerCall>)
    ensures Calibrated(true, 1, clock, body) == None
    ensures RunSamples(true, 1, clock, body) == [SampleOf(clock, body, 0, 1)]
  {
  }

  /** A first sample of a millisecond or more is kept and fixes nothing. */
  lemma SlowFirstSampleIsKept(iterations: nat, clock: nat -> (int, int), body: (nat, nat) -> seq<TimerCall>)
    requires iterations > 0 && SampleOf(clock, body, 0, 1) >= Millisecond
    ensures Calibrated(false, iterations, clock, body) == None
    ensures RunSamples(false, iterations, clock, body)[0] == SampleOf(clock, body, 0, 1)
  {
    RecordedAt(clock, body, 0, iterations, 1);
  }
}
