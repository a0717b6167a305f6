/** The timers a benchmark body sees. Time points and durations are counted
    in clock ticks (nanoseconds); the clock reading is the `now` parameter of
    `Start` and `Stop`. */
module Timers {
  import Sweep

  /** `duration_t::max()`: the end point a timer holds until it is stopped. */
  const MaxTicks: int := 0x7FFF_FFFF_FFFF_FFFF

  /** The time accumulated over the completed start/stop laps. */
  function Elapsed(laps: seq<(int, int)>): int
  {
    if laps == [] then 0 else Elapsed(laps[..|laps| - 1]) + (laps[|laps| - 1].1 - laps[|laps| - 1].0)
  }

  /** Every lap ends no earlier than it starts, as on a steady clock. */
  predicate Forward(laps: seq<(int, int)>)
  {
    forall i :: 0 <= i < |laps| ==> laps[i].0 <= laps[i].1
  }

  /** On a steady clock the accumulated time is never negative. */
  lemma {:induction false} ElapsedOfForward(laps: seq<(int, int)>)
    requires Forward(laps)
    ensures Elapsed(laps) >= 0
  {
    if laps != [] {
      var init := laps[..|laps| - 1];
      assert Forward(init) by {
        forall i | 0 <= i < |init|
          ensures init[i].0 <= init[i].1
        {
          assert init[i] == laps[i];
        }
      }
      ElapsedOfForward(init);
    }
  }

  /** A measured duration with the no-op overhead taken off: untouched when
      the overhead is not positive, never below zero otherwise. */
  function NoopCorrected(duration: int, noopTime: int): (r: int)
    ensures noopTime <= 0 ==> r == duration
    ensures noopTime > 0 && r > 0 ==> r + noopTime == duration
    ensures noopTime > 0 && r == 0 ==> duration <= noopTime
    ensures 0 <= duration ==> 0 <= r <= duration
  {
    if noopTime <= 0 then duration
    else if duration - noopTime >= 0 then duration - noopTime
    else 0
  }

  /** The timer of the sweeping generation (`RunState` in
      include/benchmark/detail/state.h): laps accumulate into one duration,
      and the no-op overhead is taken off once, when the sample is read. */
  class RunState {
    var start: int
    var end: int
    var duration: int
    var noopTime: int
    var ended: bool
    const bstate: Sweep.BenchmarkState
    /** The laps completed so far, for the invariant `Valid`. */
    ghost var laps: seq<(int, int)>

    ghost predicate Valid()
      reads this
    {
      duration == Elapsed(laps) &&
      (ended && laps != [] ==> end == laps[|laps| - 1].1)
    }

    constructor (state: Sweep.BenchmarkState, noop: int)
      ensures Valid()
      ensures bstate == state && noopTime == noop
      ensures start == 0 && end == MaxTicks && duration == 0 && !ended && laps == []
    {
      bstate := state;
      noopTime := noop;
      start := 0;
      end := MaxTicks;
      duration := 0;
      ended := false;
      laps := [];
    }

    /** Registers the range with the sweep state; true when the benchmark
        must restart to sweep it. */
    method AddArgument(from: int, to: int) returns (added: bool)
      modifies bstate`variableArgs, bstate`variablesDone, bstate`needRestart
      ensures added <==> !Sweep.HasRange(old(bstate.variableArgs), from, to)
      ensures added ==> bstate.variableArgs == old(bstate.variableArgs) + [Sweep.Declared(from, to)]
      ensures added ==> !bstate.variablesDone && bstate.needRestart
      ensures !added ==> bstate.variableArgs == old(bstate.variableArgs) && bstate.variablesDone == old(bstate.variablesDone)
      ensures !added ==> !bstate.needRestart
    {
      added := bstate.AddArgument(from, to);
    }

    method Start(now: int)
      requires Valid()
      modifies this`start, this`ended
      ensures Valid()
      ensures start == now && !ended
    {
      ended := false;
      start := now;
    }

    /** Only the first stop after a start counts. */
    method Stop(now: int)
      requires Valid()
      modifies this`end, this`duration, this`ended, this`laps
      ensures Valid() && ended
      ensures old(ended) ==> end == old(end) && duration == old(duration) && laps == old(laps)
      ensures !old(ended) ==> end == now && laps == old(laps) + [(start, now)]
      ensures !old(ended) ==> duration == old(duration) + (now - start)
    {
      if !ended {
        end := now;
        duration := duration + (end - start);
        ended := true;
        laps := laps + [(start, now)];
      }
    }

    function GetSample(): (r: int)
      reads this
      ensures r == NoopCorrected(duration, noopTime)
      ensures noopTime > 0 && duration > noopTime ==> r == duration - noopTime
    {
      var sample := duration;
      if noopTime > 0 then
        if noopTime < sample then sample - noopTime else 0
      else
        sample
    }

    function Arg1(): (r: int)
      reads this, bstate
      ensures r == bstate.currentArg1
    {
      bstate.currentArg1
    }
  }

  /** Times every lap of `laps` with one `RunState`, stopping each lap
      twice: the sample is the sum of the laps less the no-op overhead. */
  method MeasureLaps(noop: int, laps: seq<(int, int)>) returns (sample: int)
    ensures sample == NoopCorrected(Elapsed(laps), noop)
  {
    var sweep := new Sweep.BenchmarkState();
    var timer := new RunState(sweep, noop);
    for i := 0 to |laps|
      invariant timer.Valid() && timer.noopTime == noop
      invariant timer.laps == laps[..i]
    {
      timer.Start(laps[i].0);
      timer.Stop(laps[i].1);
      timer.Stop(laps[i].1 + 1);
      assert laps[..i + 1] == laps[..i] + [laps[i]];
    }
    assert laps[..|laps|] == laps;
    sample := timer.GetSample();
  }

  /** The sample of one lap: its length, but at least one tick. */
  function Span(start: int, end: int): (r: int)
    ensures r >= 1
    ensures end - start >= 1 ==> r == end - start
    ensures end - start < 1 ==> r == 1
  {
    if end - start < 1 then 1 else end - start
  }

  /** The timer of the calibrating generation (`SampleTimer` in
      include/detail/sample_timer.h; `RunState` in include/detail/state.h
      times the same way): one start/stop lap, only the first stop counts,
      and every sample is at least one tick. */
  class SampleTimer {
    var start: int
    var end: int
    var ended: bool
    const repeats: nat

    constructor (r: nat)
      ensures repeats == r && start == 0 && end == MaxTicks && !ended
    {
      repeats := r;
      start := 0;
      end := MaxTicks;
      ended := false;
    }

    /** A restart moves the start point only: a stopped timer stays stopped. */
    method Start(now: int)
      modifies this`start
      ensures start == now
    {
      start := now;
    }

    method Stop(now: int)
      modifies this`end, this`ended
      ensures ended
      ensures old(ended) ==> end == old(end)
      ensures !old(ended) ==> end == now
    {
      if !ended {
        ended := true;
        end := now;
      }
    }

    function GetSample(): (r: int)
      reads this
      ensures r == Span(start, end)
    {
      var sample := end - start;
      if sample < 1 then 1 else sample
    }

    function Repeats(): (r: nat)
      reads this
      ensures r == repeats
    {
      repeats
    }
  }

  /** One `SampleTimer` through start, stop, a second start and a second
      stop: the sample spans from the second start to the first stop. */
  method TimeRestarted(t0: int, t1: int, t2: int, t3: int) returns (sample: int)
    ensures sample == Span(t2, t1)
    ensures t1 < t2 ==> sample == 1
  {
    var timer := new SampleTimer(1);
    timer.Start(t0);
    timer.Stop(t1);
    timer.Start(t2);
    timer.Stop(t3);
    sample := timer.GetSample();
  }

  /** A timer never stopped measures up to the sentinel end point. */
  lemma UnstoppedSpan(now: int)
    requires 0 <= now < MaxTicks
    ensures Span(now, MaxTicks) == MaxTicks - now
    ensures Span(now, MaxTicks) >= 1
  {
  }

  /** Laps accumulate: the time of a concatenation of laps is the sum. */
  lemma {:induction false} ElapsedAppend(a: seq<(int, int)>, b: seq<(int, int)>)
    ensures Elapsed(a + b) == Elapsed(a) + Elapsed(b)
    decreases |b|
  {
    if b == [] {
      assert a + b == a;
    } else {
      var b' := b[..|b| - 1];
      assert (a + b)[..|a + b| - 1] == a + b';
      ElapsedAppend(a, b');
    }
  }
}
