/** The run loop of the sweeping generation (`Benchmark` and
    `BenchmarkSilo` in include/benchmark/benchmark.h). The benchmark body and
    the clock are oracles: `laps(p, k)` are the start/stop laps call `k` of
    pass `p` times, and `elapsed(p, k)` is the time since the pass began,
    read right after that call's sample is recorded. */
module Runner {
  import Statistics
  import Sweep
  import Timers
  import opened Numeric

  /** Samples per pass (the `Iterations` member). */
  const Iterations: nat := 200
  /** The time budget of one pass: two seconds, in nanoseconds. */
  const Budget: int := 2_000_000_000
  /** The starting value of the no-op overhead search. */
  const NoopCeiling: int := 9999

  /** What `printResults` reports after a pass: the swept value (in sweep
      mode), the iteration count and the statistics. */
  datatype Report = Report(arg: Option<int>, iterations: nat, stats: Statistics.Snapshot)

  /** The sample one call yields: its laps less the no-op overhead. */
  function SampleOf(laps: seq<(int, int)>, noopTime: int): nat
    requires Timers.Forward(laps)
  {
    Timers.ElapsedOfForward(laps);
    Timers.NoopCorrected(Timers.Elapsed(laps), noopTime)
  }

  /** The samples of the first `n` calls of pass `p`. */
  function Samples(laps: (nat, nat) -> seq<(int, int)>, noopTime: int, p: nat, n: nat): (s: seq<nat>)
    requires forall k: nat :: Timers.Forward(laps(p, k))
    ensures |s| == n
  {
    if n == 0 then [] else Samples(laps, noopTime, p, n - 1) + [SampleOf(laps(p, n - 1), noopTime)]
  }

  /** A pass that is not restarted records `n` samples: it stops after the
      last of the `Iterations` calls, or right after the first call that
      finds the budget spent. */
  predicate PassLength(elapsed: (nat, nat) -> int, p: nat, n: nat)
  {
    1 <= n <= Iterations &&
    (forall k :: 0 <= k < n - 1 ==> elapsed(p, k) <= Budget) &&
    (n == Iterations || elapsed(p, n - 1) > Budget)
  }

  /** The report of pass `p`: its length obeys `PassLength` and its figures
      are those of the samples retained from it. */
  predicate ReportOf(laps: (nat, nat) -> seq<(int, int)>, elapsed: (nat, nat) -> int, noopTime: int,
                     p: nat, r: Report)
    requires forall k: nat :: Timers.Forward(laps(p, k))
  {
    PassLength(elapsed, p, r.iterations) &&
    forall s {:trigger Statistics.Retained(s)} | s == Samples(laps, noopTime, p, r.iterations) ::
      |Statistics.Retained(s)| > 0 && r.stats == Statistics.StatsOf(Statistics.Retained(s))
  }

  /** The reports of consecutive passes from pass `first` on: report `i`
      shows `args[i]` and is the report of pass `first + i`. */
  predicate ReportsOf(laps: (nat, nat) -> seq<(int, int)>, elapsed: (nat, nat) -> int, noopTime: int,
                      first: nat, args: seq<Option<int>>, reports: seq<Report>)
    requires forall p: nat, k: nat :: Timers.Forward(laps(p, k))
  {
    |reports| <= |args| &&
    forall i :: 0 <= i < |reports| ==>
      reports[i].arg == args[i] && ReportOf(laps, elapsed, noopTime, first + i, reports[i])
  }

  /** The values of a sweep, as the reports show them. */
  function Swept(trace: seq<int>): (args: seq<Option<int>>)
    ensures |args| == |trace| && forall i :: 0 <= i < |trace| ==> args[i] == Some(trace[i])
  {
    seq(|trace|, i requires 0 <= i < |trace| => Some(trace[i]))
  }

  /** One more pass extends the reports. */
  lemma ReportsExtend(laps: (nat, nat) -> seq<(int, int)>, elapsed: (nat, nat) -> int, noopTime: int,
                      first: nat, args: seq<Option<int>>, reports: seq<Report>, r: Report)
    requires forall p: nat, k: nat :: Timers.Forward(laps(p, k))
    requires ReportsOf(laps, elapsed, noopTime, first, args, reports) && |reports| < |args|
    requires r.arg == args[|reports|] && ReportOf(laps, elapsed, noopTime, first + |reports|, r)
    ensures ReportsOf(laps, elapsed, noopTime, first, args, reports + [r])
  {
    var ext := reports + [r];
    forall i | 0 <= i < |ext|
      ensures ext[i].arg == args[i] && ReportOf(laps, elapsed, noopTime, first + i, ext[i])
    {
      if i < |reports| {
        assert ext[i] == reports[i];
      } else {
        assert ext[i] == r;
      }
    }
  }

  /** The declared range is new to the sweep state. */
  predicate Declares(range: Option<(int, int)>, args: seq<Sweep.VariableArgument>)
  {
    range.Some? && !Sweep.HasRange(args, range.value.0, range.value.1)
  }

  /** One call of the benchmark body on a fresh `state`: an `ADD_ARG_RANGE`
      line returns early when its range is new; otherwise the body times
      its laps. */
  method CallBody(state: Timers.RunState, range: Option<(int, int)>, laps: seq<(int, int)>)
    requires state.Valid() && state.laps == [] && !state.ended
    modifies state, state.bstate`variableArgs, state.bstate`variablesDone, state.bstate`needRestart
    ensures state.Valid() && state.noopTime == old(state.noopTime)
    ensures Declares(range, old(state.bstate.variableArgs)) ==>
      state.bstate.variableArgs == old(state.bstate.variableArgs) + [Sweep.Declared(range.value.0, range.value.1)] &&
      !state.bstate.variablesDone && state.bstate.needRestart
    ensures !Declares(range, old(state.bstate.variableArgs)) ==>
      state.bstate.variableArgs == old(state.bstate.variableArgs) &&
      state.bstate.variablesDone == old(state.bstate.variablesDone) &&
      state.bstate.needRestart == (old(state.bstate.needRestart) && range.None?) &&
      state.duration == Timers.Elapsed(laps)
  {
    if range.Some? {
      var added := state.AddArgument(range.value.0, range.value.1);
      if added {
        return;
      }
    }
    for i := 0 to |laps|
      invariant state.Valid() && state.laps == laps[..i] && state.noopTime == old(state.noopTime)
      modifies state
    {
      state.Start(laps[i].0);
      state.Stop(laps[i].1);
      assert laps[..i + 1] == laps[..i] + [laps[i]];
    }
    assert laps[..|laps|] == laps;
  }

  /** The value a pass publishes: the first argument's, if there is one. */
  function Published(args: seq<Sweep.VariableArgument>): (v: Option<int>)
    ensures v.Some? <==> args != []
  {
    if args == [] then None else Some(args[0].value)
  }

  /** What one pass does to the sweep state, given the arguments `args` and
      the done flag before it: the first argument, if any, is published and
      stepped; then either the body declares a new range (a restart is
      requested and nothing is reported) or the pass reports. */
  predicate PassMoves(range: Option<(int, int)>, args: seq<Sweep.VariableArgument>, done: bool,
                      args': seq<Sweep.VariableArgument>, done': bool, needRestart': bool, reported: bool)
  {
    var picked := if args == [] then [] else args[0 := Sweep.Step(args[0])];
    var pickedDone := if args == [] then done else done || Sweep.Passed(Sweep.Step(args[0]));
    reported == !Declares(range, picked) &&
    (!reported ==> args' == picked + [Sweep.Declared(range.value.0, range.value.1)] && !done' && needRestart') &&
    (reported ==> args' == picked && done' == pickedDone && !needRestart')
  }

  /** The sweep side of the run loop's invariant once `pass` passes have
      reported `n` times. Without a range: one pass, which reports. With
      one: pass 0 declares it, and pass `i + 1` reports the `i`-th value of
      the sweep `trace`. */
  predicate Progressing(range: Option<(int, int)>, trace: seq<int>, args: seq<Sweep.VariableArgument>,
                        done: bool, needRestart: bool, pass: nat, running: bool, n: nat)
  {
    (range.None? ==> args == [] && !needRestart && (running <==> pass == 0) && n == pass <= 1) &&
    (range.Some? ==>
      Sweep.Before(Sweep.Declared(range.value.0, range.value.1)) &&
      Sweep.Progresses(Sweep.Declared(range.value.0, range.value.1)) &&
      trace == Sweep.Trace(Sweep.Declared(range.value.0, range.value.1)) &&
      (pass == 0 ==> args == [] && running && n == 0) &&
      (pass > 0 ==> n == pass - 1 && SweepAt(range.value, trace, args, done, running, n)))
  }

  /** The sweep of `range` after `n` reported values of `trace`: one
      argument, which while running is at the `n`-th value, and all values
      reported once it stops. */
  predicate SweepAt(range: (int, int), trace: seq<int>, args: seq<Sweep.VariableArgument>, done: bool,
                    running: bool, n: nat)
  {
    |args| == 1 && args[0].from == range.0 && args[0].to == range.1 &&
    (running <==> !done) &&
    (running ==> (Sweep.Before(args[0]) && Sweep.Progresses(args[0]) &&
      n < |trace| && Sweep.Trace(args[0]) == trace[n..])) &&
    (!running ==> n == |trace|)
  }

  /** The values the reports of a run show: none without a range, the
      sweep's values with one. */
  function Shown(range: Option<(int, int)>, trace: seq<int>): (args: seq<Option<int>>)
    ensures range.None? ==> args == [None]
    ensures range.Some? ==> args == Swept(trace)
  {
    if range.None? then [None] else Swept(trace)
  }

  /** The first pass that reports: pass 0, or pass 1 after the declaring one. */
  function FirstReported(range: Option<(int, int)>): (p: nat)
    ensures p == 0 <==> range.None?
  {
    if range.None? then 0 else 1
  }

  /** How far the run loop is from its end. */
  function Remaining(trace: seq<int>, pass: nat, running: bool, n: nat): nat
  {
    if pass == 0 then 2 + |trace|
    else if running && n < |trace| then |trace| - n
    else 0
  }

  /** One pass keeps the sweep side of the invariant and brings the loop
      closer to its end; when it reports, it is the pass of the next report
      and shows the next value. */
  lemma PassProgresses(range: Option<(int, int)>, trace: seq<int>,
                       args: seq<Sweep.VariableArgument>, done: bool, needRestart: bool,
                       args': seq<Sweep.VariableArgument>, done': bool, needRestart': bool, reported: bool,
                       pass: nat, running': bool, n: nat)
    requires Progressing(range, trace, args, done, needRestart, pass, true, n)
    requires PassMoves(range, args, done, args', done', needRestart', reported)
    requires running' == (args' != [] && !done')
    ensures var n' := if reported then n + 1 else n;
      Progressing(range, trace, args', done', needRestart', pass + 1, running', n') &&
      Remaining(trace, pass + 1, running', n') < Remaining(trace, pass, true, n)
    ensures reported ==>
      n < |Shown(range, trace)| && Shown(range, trace)[n] == Published(args) && pass == FirstReported(range) + n
  {
    if range.Some? && pass == 0 {
      assert trace[0..] == trace;
    } else if range.Some? {
      SweptPass(range.value, trace, args, done, args', done', needRestart', reported, running', n);
    }
  }

  /** With a range, a pass after the declaring one reports the current
      value of the trace and steps the argument to the next one. */
  lemma SweptPass(range: (int, int), trace: seq<int>, args: seq<Sweep.VariableArgument>, done: bool,
                  args': seq<Sweep.VariableArgument>, done': bool, needRestart': bool, reported: bool,
                  running': bool, n: nat)
    requires SweepAt(range, trace, args, done, true, n)
    requires PassMoves(Some(range), args, done, args', done', needRestart', reported)
    requires running' == (args' != [] && !done')
    ensures reported && n < |trace| && trace[n] == args[0].value
    ensures SweepAt(range, trace, args', done', running', n + 1)
    ensures running' ==> |trace| - (n + 1) < |trace| - n
  {
    var a := args[0];
    Sweep.StepProgresses(a);
    var picked := args[0 := Sweep.Step(a)];
    assert picked == [Sweep.Step(a)];
    assert Sweep.HasRange(picked, range.0, range.1) by {
      assert picked[0].from == range.0 && picked[0].to == range.1;
    }
    TraceAdvance(trace, n, a);
  }

  class Benchmark {
    const stats: Statistics.TimeStatistics
    var totalIterations: nat
    var noopTime: int

    constructor ()
      ensures fresh(stats) && stats.samples == []
      ensures totalIterations == 0 && noopTime == 0
    {
      stats := new Statistics.TimeStatistics();
      totalIterations := 0;
      noopTime := 0;
    }

    /** The smallest of the ceiling and twenty back-to-back clock
        differences, which may be zero or negative. */
    method FindNoopTime(deltas: seq<int>)
      requires |deltas| == 20
      modifies this`noopTime
      ensures noopTime <= NoopCeiling
      ensures forall i :: 0 <= i < |deltas| ==> noopTime <= deltas[i]
      ensures noopTime == NoopCeiling || noopTime in deltas
    {
      noopTime := NoopCeiling;
      for i := 0 to 20
        invariant noopTime <= NoopCeiling
        invariant forall j :: 0 <= j < i ==> noopTime <= deltas[j]
        invariant noopTime == NoopCeiling || noopTime in deltas
      {
        var d := deltas[i];
        if d < noopTime {
          noopTime := d;
        }
      }
    }

    method DebugAddSample(sample: nat)
      modifies stats`samples, this`totalIterations
      ensures stats.samples == old(stats.samples) + [sample]
      ensures totalIterations == (old(totalIterations) + 1) % UintModulus
    {
      stats.AddSample(sample);
      totalIterations := (totalIterations + 1) % UintModulus;
    }

    /** One call of the body on a fresh `RunState` bound to `bs`: either it
        declared a new range and asks for a restart, or it yields a sample. */
    method CallOnce(bs: Sweep.BenchmarkState, range: Option<(int, int)>, laps: seq<(int, int)>)
        returns (restart: bool, sample: nat)
      requires Timers.Forward(laps)
      requires range.None? ==> !bs.needRestart
      modifies bs`variableArgs, bs`variablesDone, bs`needRestart
      ensures restart == Declares(range, old(bs.variableArgs))
      ensures restart ==>
        bs.variableArgs == old(bs.variableArgs) + [Sweep.Declared(range.value.0, range.value.1)] &&
        !bs.variablesDone && bs.needRestart
      ensures !restart ==>
        bs.variableArgs == old(bs.variableArgs) && bs.variablesDone == old(bs.variablesDone) &&
        !bs.needRestart && sample == SampleOf(laps, noopTime)
    {
      var state := new Timers.RunState(bs, noopTime);
      CallBody(state, range, laps);
      restart := bs.needRestart;
      Timers.ElapsedOfForward(laps);
      sample := if restart then 0 else state.GetSample();
    }

    /** The inner loop of a pass: call the body on a fresh `RunState` until
        it asks for a restart (no sample then), `Iterations` samples are
        recorded, or a recorded sample finds the budget spent. */
    method RecordSamples(bs: Sweep.BenchmarkState, p: nat, range: Option<(int, int)>,
                         laps: (nat, nat) -> seq<(int, int)>, elapsed: (nat, nat) -> int)
      requires forall k: nat :: Timers.Forward(laps(p, k))
      requires range.None? ==> !bs.needRestart
      requires totalIterations == 0 && stats.samples == []
      modifies this`totalIterations, stats`samples, bs`variableArgs, bs`variablesDone, bs`needRestart
      ensures Declares(range, old(bs.variableArgs)) ==>
        totalIterations == 0 && stats.samples == [] &&
        bs.variableArgs == old(bs.variableArgs) + [Sweep.Declared(range.value.0, range.value.1)] &&
        !bs.variablesDone && bs.needRestart
      ensures !Declares(range, old(bs.variableArgs)) ==>
        bs.variableArgs == old(bs.variableArgs) && bs.variablesDone == old(bs.variablesDone) && !bs.needRestart &&
        PassLength(elapsed, p, totalIterations) && stats.samples == Samples(laps, noopTime, p, totalIterations)
    {
      ghost var a, done := bs.variableArgs, bs.variablesDone;
      ghost var declaring := Declares(range, a);
      var i := 0;
      var restarted, overBudget := false, false;
      while i < Iterations && !restarted && !overBudget
        invariant 0 <= i <= Iterations
        invariant totalIterations == i && stats.samples == Samples(laps, noopTime, p, i)
        invariant forall k :: 0 <= k < i - 1 ==> elapsed(p, k) <= Budget
        invariant !overBudget ==> forall k :: 0 <= k < i ==> elapsed(p, k) <= Budget
        invariant overBudget ==> i > 0 && elapsed(p, i - 1) > Budget
        invariant declaring ==> i == 0
        invariant restarted ==> (declaring &&
          bs.variableArgs == a + [Sweep.Declared(range.value.0, range.value.1)] &&
          !bs.variablesDone && bs.needRestart)
        invariant !restarted ==> bs.variableArgs == a && bs.variablesDone == done
        invariant !restarted && (range.None? || i > 0) ==> !bs.needRestart
        decreases Iterations - i, if restarted then 0 else 1
      {
        var restart, sample := CallOnce(bs, range, laps(p, i));
        if restart {
          restarted := true;
        } else {
          Record(p, laps, i, sample);
          i := i + 1;
          if elapsed(p, i - 1) > Budget {
            overBudget := true;
          }
        }
      }
    }

    /** Counts and keeps the sample of call `i` of pass `p`. */
    method Record(p: nat, laps: (nat, nat) -> seq<(int, int)>, i: nat, sample: nat)
      requires forall k: nat :: Timers.Forward(laps(p, k))
      requires i < Iterations && totalIterations == i && stats.samples == Samples(laps, noopTime, p, i)
      requires sample == SampleOf(laps(p, i), noopTime)
      modifies this`totalIterations, stats`samples
      ensures totalIterations == i + 1 && stats.samples == Samples(laps, noopTime, p, i + 1)
    {
      totalIterations := (totalIterations + 1) % UintModulus;
      stats.AddSample(sample);
    }

    /** One pass of `run` (the body of its outer loop): reset the count and
        the samples, pick the next swept value, record samples, and report
        when at least one was recorded. */
    method Pass(bs: Sweep.BenchmarkState, p: nat, range: Option<(int, int)>,
                laps: (nat, nat) -> seq<(int, int)>, elapsed: (nat, nat) -> int)
        returns (report: Option<Report>)
      requires forall k: nat :: Timers.Forward(laps(p, k))
      requires range.None? ==> !bs.needRestart
      modifies this`totalIterations, stats, bs`variableArgs, bs`currentArg1, bs`variablesDone, bs`needRestart
      ensures noopTime == old(noopTime) && bs.firstTime == old(bs.firstTime)
      ensures old(bs.variableArgs) != [] ==> bs.currentArg1 == old(bs.variableArgs[0].value)
      ensures PassMoves(range, old(bs.variableArgs), old(bs.variablesDone), bs.variableArgs, bs.variablesDone,
                        bs.needRestart, report.Some?)
      ensures report.Some? ==>
        report.value.arg == Published(old(bs.variableArgs)) && ReportOf(laps, elapsed, noopTime, p, report.value)
      ensures report.None? ==> totalIterations == 0 && stats.samples == []
      ensures report.Some? ==> totalIterations == report.value.iterations
    {
      totalIterations := 0;
      if bs.VariableArgsMode() {
        bs.PickNextArgument();
      }
      report := Measure(bs, p, range, laps, elapsed);
    }

    /** The rest of a pass once the swept value is picked: clear the
        samples, record them, and report when at least one was recorded. */
    method Measure(bs: Sweep.BenchmarkState, p: nat, range: Option<(int, int)>,
                   laps: (nat, nat) -> seq<(int, int)>, elapsed: (nat, nat) -> int)
        returns (report: Option<Report>)
      requires forall k: nat :: Timers.Forward(laps(p, k))
      requires range.None? ==> !bs.needRestart
      requires totalIterations == 0
      modifies this`totalIterations, stats, bs`variableArgs, bs`variablesDone, bs`needRestart
      ensures Declares(range, old(bs.variableArgs)) ==>
        report.None? && totalIterations == 0 && stats.samples == [] &&
        bs.variableArgs == old(bs.variableArgs) + [Sweep.Declared(range.value.0, range.value.1)] &&
        !bs.variablesDone && bs.needRestart
      ensures !Declares(range, old(bs.variableArgs)) ==>
        bs.variableArgs == old(bs.variableArgs) && bs.variablesDone == old(bs.variablesDone) && !bs.needRestart &&
        report.Some? && totalIterations == report.value.iterations &&
        report.value.arg == (if bs.variableArgs == [] then None else Some(bs.currentArg1)) &&
        ReportOf(laps, elapsed, noopTime, p, report.value)
    {
      stats.Clear();
      RecordSamples(bs, p, range, laps, elapsed);
      if stats.samples != [] {
        var arg := if bs.VariableArgsMode() then Some(bs.currentArg1) else None;
        var r := CalculateReport(arg);
        report := Some(r);
      } else {
        report := None;
      }
    }

    /** `calculateTimings` and the figures `printResults` shows. */
    method CalculateReport(arg: Option<int>) returns (report: Report)
      requires stats.samples != []
      modifies stats
      ensures |Statistics.Retained(old(stats.samples))| > 0
      ensures report == Report(arg, totalIterations, Statistics.StatsOf(Statistics.Retained(old(stats.samples))))
    {
      ghost var s := stats.samples;
      var ok := stats.Calculate();
      report := Report(arg, totalIterations, stats.Current());
      Statistics.RetainedNonEmpty(s);
      Statistics.StatsOfPermutation(stats.samples, Statistics.Retained(s));
    }

    /** `run`: find the no-op overhead, then run passes while the sweep state
        says so. Without a range there is one pass; with one, a discarded
        pass declares it and then one pass reports each swept value. */
    method Run(range: Option<(int, int)>, laps: (nat, nat) -> seq<(int, int)>,
               elapsed: (nat, nat) -> int, deltas: seq<int>)
        returns (reports: seq<Report>)
      requires |deltas| == 20
      requires forall p: nat, k: nat :: Timers.Forward(laps(p, k))
      requires range.Some? ==> Sweep.Progresses(Sweep.Declared(range.value.0, range.value.1))
      modifies this`totalIterations, this`noopTime, stats
      ensures noopTime <= NoopCeiling && forall i :: 0 <= i < |deltas| ==> noopTime <= deltas[i]
      ensures range.None? ==>
        |reports| == 1 && ReportsOf(laps, elapsed, noopTime, 0, [None], reports)
      ensures range.Some? ==>
        var trace := Sweep.Trace(Sweep.Declared(range.value.0, range.value.1));
        |reports| == |trace| && ReportsOf(laps, elapsed, noopTime, 1, Swept(trace), reports)
    {
      FindNoopTime(deltas);
      var bs := new Sweep.BenchmarkState();
      ghost var trace: seq<int> := [];
      if range.Some? {
        Sweep.DeclaredIsBefore(range.value.0, range.value.1);
        trace := Sweep.Trace(Sweep.Declared(range.value.0, range.value.1));
      }
      reports := [];
      var pass: nat := 0;
      var running := bs.Running();
      while running
        invariant noopTime <= NoopCeiling && forall i :: 0 <= i < |deltas| ==> noopTime <= deltas[i]
        invariant !bs.firstTime
        invariant Progressing(range, trace, bs.variableArgs, bs.variablesDone, bs.needRestart, pass, running, |reports|)
        invariant ReportsOf(laps, elapsed, noopTime, FirstReported(range), Shown(range, trace), reports)
        decreases Remaining(trace, pass, running, |reports|)
      {
        running, reports := NextPass(bs, pass, range, trace, laps, elapsed, reports);
        pass := pass + 1;
      }
    }

    /** One turn of `run`'s loop: a pass, its report if it makes one, and
        the sweep state's verdict on whether to go on. */
    method NextPass(bs: Sweep.BenchmarkState, pass: nat, range: Option<(int, int)>, ghost trace: seq<int>,
                    laps: (nat, nat) -> seq<(int, int)>, elapsed: (nat, nat) -> int, reports: seq<Report>)
        returns (running: bool, reports': seq<Report>)
      requires forall p: nat, k: nat :: Timers.Forward(laps(p, k))
      requires !bs.firstTime
      requires Progressing(range, trace, bs.variableArgs, bs.variablesDone, bs.needRestart, pass, true, |reports|)
      requires ReportsOf(laps, elapsed, noopTime, FirstReported(range), Shown(range, trace), reports)
      modifies this`totalIterations, stats, bs`variableArgs, bs`currentArg1, bs`variablesDone, bs`needRestart,
        bs`firstTime
      ensures noopTime == old(noopTime) && !bs.firstTime
      ensures Progressing(range, trace, bs.variableArgs, bs.variablesDone, bs.needRestart, pass + 1, running,
                          |reports'|)
      ensures ReportsOf(laps, elapsed, noopTime, FirstReported(range), Shown(range, trace), reports')
      ensures Remaining(trace, pass + 1, running, |reports'|) < Remaining(trace, pass, true, |reports|)
    {
      ghost var before, done, restart := bs.variableArgs, bs.variablesDone, bs.needRestart;
      var report := Pass(bs, pass, range, laps, elapsed);
      running := bs.Running();
      PassProgresses(range, trace, before, done, restart, bs.variableArgs, bs.variablesDone, bs.needRestart,
                     report.Some?, pass, running, |reports|);
      reports' := reports;
      if report.Some? {
        ReportsExtend(laps, elapsed, noopTime, FirstReported(range), Shown(range, trace), reports, report.value);
        reports' := reports + [report.value];
      }
    }
  }

  /** The registry `BENCHMARK` fills; its vector exists from the first
      registration on. */
  class BenchmarkSilo {
    var benchmarks: seq<Benchmark>
    var created: bool

    constructor ()
      ensures benchmarks == [] && !created
    {
      benchmarks := [];
      created := false;
    }

    method RegisterBenchmark(b: Benchmark)
      modifies this
      ensures created && benchmarks == old(benchmarks) + [b]
    {
      created := true;
      benchmarks := benchmarks + [b];
    }

    /** Visits every registered benchmark once, in registration order, and
        returns 0. The vector must exist. */
    method RunAll() returns (ret: int, visited: seq<Benchmark>)
      requires created
      ensures ret == 0 && visited == benchmarks
    {
      visited := [];
      for i := 0 to |benchmarks|
        invariant visited == benchmarks[..i]
      {
        visited := visited + [benchmarks[i]];
      }
      return 0, visited;
    }
  }

  /** One swept pass consumes the head of the remaining trace. */
  lemma TraceAdvance(trace: seq<int>, n: nat, a: Sweep.VariableArgument)
    requires Sweep.Before(a) && Sweep.Progresses(a) && n < |trace| && Sweep.Trace(a) == trace[n..]
    ensures trace[n] == a.value
    ensures Sweep.Passed(Sweep.Step(a)) ==> |trace| == n + 1
    ensures !Sweep.Passed(Sweep.Step(a)) ==>
      Sweep.Before(Sweep.Step(a)) && Sweep.Progresses(Sweep.Step(a)) &&
      n + 1 < |trace| && Sweep.Trace(Sweep.Step(a)) == trace[n + 1..]
  {
    Sweep.StepProgresses(a);
    assert trace[n..][1..] == trace[n + 1..];
  }

  /** The `k`-th recorded sample of a pass is the `k`-th call's. */
  lemma {:induction false} SamplesAt(laps: (nat, nat) -> seq<(int, int)>, noopTime: int, p: nat, n: nat, k: nat)
    requires forall k: nat :: Timers.Forward(laps(p, k))
    requires k < n
    ensures Samples(laps, noopTime, p, n)[k] == SampleOf(laps(p, k), noopTime)
  {
    if k < n - 1 {
      SamplesAt(laps, noopTime, p, n - 1, k);
    }
  }

  /** Two passes that both obey `PassLength` record the same count. */
  lemma PassLengthUnique(elapsed: (nat, nat) -> int, p: nat, n: nat, m: nat)
    requires PassLength(elapsed, p, n) && PassLength(elapsed, p, m)
    ensures n == m
  {
  }

  /** A clock that never exceeds the budget gives full passes. */
  lemma FullPass(elapsed: (nat, nat) -> int, p: nat)
    requires forall k: nat :: elapsed(p, k) <= Budget
    ensures PassLength(elapsed, p, Iterations)
  {
  }
}
