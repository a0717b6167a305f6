# Micro-benchmark bookkeeping, modelled in Dafny

This project models the measurement bookkeeping of a header-only C++
micro-benchmark library and proves what that bookkeeping computes. The
library exists in three generations, and all three are modelled:

- **The sweeping generation** (`include/benchmark/...`). Its parts:
  - a `TimeStatistics` engine with a one-shot outlier filter (`Statistics`);
  - the argument sweep state machine `BenchmarkState` (`Sweep`);
  - the accumulating `RunState` timer (`Timers`);
  - the pass loop of `Benchmark::run` and the `BenchmarkSilo` registry (`Runner`);
  - the `VarInt` generators (`Variables`);
  - `ProgramArguments` (`Arguments`) and `BenchmarkSetup` (`Setup`).
- **The calibrating generation** (`include/benchmark.h` and `include/detail/...`). Its parts:
  - a `TimeStatistics` engine that divides by a repeat count (`LegacyStatistics`);
  - the first-stop-only `SampleTimer` (`Timers`);
  - a `run` loop whose first short sample calibrates the repeat count and is then thrown away (`CalibratingRunner`);
  - an older `BenchmarkSetup` (`Setup`).
- **The oldest generation** (`benchmark.h`): a fifteen-sample `run` with its own calibration, plus `calculateTimings` (`OriginalRunner`).

Durations are whole nanosecond ticks. `Numeric` holds the shared
arithmetic:

- sums, extrema and squared deviations;
- the order-keeping threshold filter `Keep`;
- an ascending `Sort`, proved to be the unique sorted permutation;
- an integer round-to-nearest square root;
- round-half-up division;
- `unsigned` wrap-around, modulo 2^32.

The parts of the source that change state are classes with `modifies`
clauses, and each method is proved against a specification function:

- the `StatsOf` and `LegacyStatsOf` figures of a sample sequence;
- the `Trace` of values a sweep publishes;
- the `Samples` and `RunSamples` a run records;
- `Parsed` for a command line.

The lemmas beside these functions state what the library promises:
- permutation invariance;
- the bounds between minimum, average, median and maximum;
- the outlier filter keeping exactly the samples under the threshold;
- the sweep traces of `ADD_ARG_RANGE(4, 32)`, `(8, 1024)` and `(10, 40)`;
- the unit test `CustomSamples`;
- the exact number of samples each run loop records;
- the range of the calibrated repeat count;
- the argument-stripping rules.

Clocks and benchmark bodies are oracles passed as parameters:

- `now` readings for the timers;
- `laps(p, k)` and `elapsed(p, k)` for the sweeping run loop;
- `clock(k)` and `body(k, r)` (the timer calls a body makes) for the calibrating one;
- `lap(k, r)` for the oldest one.

The older `BenchmarkState` (include/detail/state.h:26-120) is identical to
the newer one up to the vector's name (`_variableArguments` there,
`_variableArgs` in the newer), the newer one's `inline` on its free
functions and the layout of its `find_if` call, so `Sweep.BenchmarkState` models both. The
timing of the older `RunState` (include/detail/state.h:151-171) is identical
to that of `SampleTimer`, and `Timers.SampleTimer` models both.
include/detail/program_arguments.h is not part of this model. The older
`BenchmarkSetup` is read against the `ProgramArguments` of
include/benchmark/detail/program_arguments.h.

## Model

| member | source | states |
|---|---|---|
| Numeric.Sort | include/benchmark/detail/statistics.h:45 | the samples in ascending order: sorted, a permutation, same length |
| Numeric.SortPermutation | include/benchmark/detail/statistics.h:45 | sorting depends only on the multiset of samples |
| Numeric.SortOfSorted | include/detail/statistics.h:84 | sorting already sorted samples changes nothing, so a second `calculate` sorts to the same order |
| Numeric.MinOf | include/benchmark/detail/statistics.h:19-28 | the running minimum is one of the samples and at most each of them |
| Numeric.MaxOf | include/benchmark/detail/statistics.h:19-28 | the running maximum is one of the samples and at least each of them |
| Numeric.MeanBounds | include/benchmark/detail/statistics.h:30 | the truncated average lies between the minimum and the maximum |
| Numeric.RoundSqrt | include/benchmark/detail/statistics.h:41 | `llround(sqrt(n))` in exact arithmetic: r*r < n + r and n <= r*r + r, zero for zero |
| Numeric.RoundDiv | include/benchmark.h:129 | `(int)(x / d + 0.5)` in exact arithmetic: the quotient rounded half up |
| Numeric.SumPermutation | include/benchmark/detail/statistics.h:22-24 | the total depends only on the multiset of samples |
| Numeric.KeepPermutation | include/benchmark/detail/statistics.h:60-69 | the samples kept under a threshold depend only on the multiset |
| Numeric.KeepShrinks | include/benchmark/detail/statistics.h:62-65 | the filter drops something iff some sample lies above the threshold |
| Statistics.TimeStatistics.constructor | include/benchmark/detail/statistics.h:74-82 | no samples and every figure zero |
| Statistics.TimeStatistics.AddSample | include/benchmark/detail/statistics.h:84-86 | appends exactly the one sample |
| Statistics.TimeStatistics.Clear | include/benchmark/detail/statistics.h:88-90 | empties the samples and leaves every computed figure as it was |
| Statistics.TimeStatistics.CalculateStats | include/benchmark/detail/statistics.h:16-52 | the samples end sorted (a permutation of the old ones) and the figures are those of `StatsOf` the old samples |
| Statistics.TimeStatistics.RemoveOutliers | include/benchmark/detail/statistics.h:54-71 | below three samples a no-op returning false; otherwise the kept multiset is exactly the old samples at most `average + 2*stdDev`, none above it remains, and the result is true iff something was dropped |
| Statistics.TimeStatistics.Calculate | include/benchmark/detail/statistics.h:92-101 | false and nothing changed on no samples; otherwise true, the samples are sorted and are the retained ones (a permutation of them), and the figures are recomputed from them |
| Statistics.TimeStatistics.Percentile | include/benchmark/detail/statistics.h:131-136 | a sample; on sorted samples, the smallest sample with at least `Rank` = max(1, `count*nth/100`) samples at or below it: at least `Rank` samples lie at or below the result, fewer than `Rank` at or below any smaller sample (nearest rank) |
| Statistics.TimeStatistics.HighDeviation | include/benchmark/detail/statistics.h:142-144 | true iff the deviation exceeds a quarter of the average, i.e. 4*stdDev > average |
| Statistics.PercentileIndex | include/benchmark/detail/statistics.h:132-134 | the clamped index is within the samples, is `count*nth/100 - 1` whenever `count*nth/100` is at least 1, and is 0 otherwise |
| Statistics.SumAndRange | include/benchmark/detail/statistics.h:17-29 | the first loop yields the total, the minimum and the maximum of the samples |
| Statistics.SquaredDeviations | include/benchmark/detail/statistics.h:34-39 | the second loop yields the sum of squared distances from the average |
| Statistics.DropAbove | include/benchmark/detail/statistics.h:60-69 | the swap-with-back-and-pop sweep keeps exactly the multiset of samples at most the threshold, leaves none above it, and reports a removal iff it shrank |
| Statistics.SwapPopKeeps | include/benchmark/detail/statistics.h:62-64 | overwriting an outlier with the back sample and popping keeps the multiset of kept samples and the already-scanned prefix |
| Statistics.StatsOfPermutation | include/benchmark/detail/statistics.h:16-52 | every figure depends only on the multiset of samples |
| Statistics.RetainedNonEmpty | include/benchmark/detail/statistics.h:59 | the minimum survives outlier removal, so the recompute never sees an empty set |
| Statistics.RetainedIsFilter | include/benchmark/detail/statistics.h:54-71 | after removal every sample is at most the threshold, the retained samples are a sub-multiset, and the set shrinks iff some sample exceeded the threshold |
| Statistics.StatsBounds | include/benchmark/detail/statistics.h:17-51 | total is the sum; min <= average <= max; median <= max; min <= median + 1 |
| Statistics.MedianBounds | include/benchmark/detail/statistics.h:44-51 | the median of sorted samples is at most the maximum and at least the minimum less one tick |
| Statistics.MedianOfEvenCount | include/benchmark/detail/statistics.h:48-50 | for an even count the median is the floor of the mean of the middle two, minus one exactly when both are odd |
| Statistics.MedianBelowMinimum | include/benchmark/detail/statistics.h:50 | two samples of 3 ticks give median 2, below the minimum |
| Statistics.IntendedMedian | include/benchmark/detail/statistics.h:46-51 | the median as the unit test expects it: the middle sample, or for an even count the truncated mean of the two middle ones, never outside the sorted samples |
| Statistics.IntendedMedianWithinRange | tests/tests.cpp:25 | the intended median of any samples lies between their minimum and maximum |
| Statistics.SortedMedianOfFour | include/benchmark/detail/statistics.h:49-50 | four ascending samples have median `s[1]/2 + s[2]/2` |
| Statistics.CustomSamples | tests/tests.cpp:33-49 | samples of 1, 2, 3, 4 ms: nothing dropped, total 10 ms, average and median 2500 us, min 1 ms, max 4 ms |
| Statistics.FarSampleOfFourIsKept | include/benchmark/detail/statistics.h:59-62 | 10, 10, 10 and 200 ms: the far sample stays, as the population deviation lifts the threshold above it |
| Statistics.PercentileOfOneSampleOutOfRange | include/benchmark/detail/statistics.h:132-134 | as written, one sample and `percentile(90)` give index 2^64 - 1 |
| Statistics.PercentileIndexAgrees | include/benchmark/detail/statistics.h:132-135 | wherever the source's index is in range it equals the clamped one |
| LegacyStatistics.LegacyTimeStatistics.constructor | include/detail/statistics.h:21-30 | no samples, repeat count 1, every figure zero; `significant` is left as the object finds it, since the source never assigns it |
| LegacyStatistics.LegacyTimeStatistics.SetRepeats | include/detail/statistics.h:32-34 | sets the repeat count |
| LegacyStatistics.LegacyTimeStatistics.AddSample | include/detail/statistics.h:36-38 | appends exactly the one sample |
| LegacyStatistics.LegacyTimeStatistics.Clear | include/detail/statistics.h:40-42 | empties the samples, figures untouched |
| LegacyStatistics.LegacyTimeStatistics.Calculate | include/detail/statistics.h:44-89 | false and nothing changed on no samples; otherwise the samples end sorted and the figures are `LegacyStatsOf`: raw total, per-repeat extrema, average `sum/(count*repeats)`, deviation over per-repeat samples, median the upper middle over repeats |
| LegacyStatistics.Summarise | include/detail/statistics.h:48-86 | the loops and the median compute exactly `LegacyStatsOf` |
| LegacyStatistics.ScaledSquaredDeviations | include/detail/statistics.h:71-79 | the deviation loop sums squared distances of the per-repeat samples |
| LegacyStatistics.LegacyBounds | include/detail/statistics.h:50-86 | per repeat, min <= average <= max and min <= median <= max |
| LegacyStatistics.LegacyCalculateIdempotent | include/detail/statistics.h:44-89 | a second `calculate` on the sorted samples yields the same figures |
| LegacyStatistics.AgreesWithCurrentOnOddCount | include/detail/statistics.h:86 | with one repeat and an odd count the older `calculate` computes the same figures as the newer `calculateStats` pass, before the newer outlier removal |
| LegacyStatistics.DiffersFromCurrentOnEvenCount | include/detail/statistics.h:86 | on {1, 3} the older median is 3 and the newer 1 |
| Sweep.IsPowerOf2 | include/benchmark/detail/state.h:23-32 | the shifting loop answers true iff the number is a power of two (1, or even with a power-of-two half) |
| Sweep.PowerOfTwoIff | include/benchmark/detail/state.h:23-32 | that recursive test holds iff n = 2^k for some k |
| Sweep.FindGrowthType | include/benchmark/detail/state.h:34-41 | x2 iff both bounds are powers of two; otherwise x10 iff both are multiples of ten; otherwise linear |
| Sweep.TruncDiv | include/benchmark/detail/state.h:88-102 | C++ division by 2 or 10 moves the value toward zero, strictly for a positive one |
| Sweep.BenchmarkState.constructor | include/benchmark/detail/state.h:53-54 | first time, no restart, argument 0, no ranges, done |
| Sweep.BenchmarkState.AddArgument | include/benchmark/detail/state.h:56-72 | a new range is appended with its inferred growth, `to > from` as direction and `from` as value, clears done, requests a restart and returns true; a known range only clears the restart flag and returns false |
| Sweep.BenchmarkState.PickNextArgument | include/benchmark/detail/state.h:74-110 | no-op without ranges; otherwise publishes the first value, steps only the first range, and sets done once it passed `to`, never clearing done |
| Sweep.BenchmarkState.Running | include/benchmark/detail/state.h:112-121 | without ranges true on the first call only; with ranges whether the sweep is not done |
| Sweep.BenchmarkState.VariableArgsMode | include/benchmark/detail/state.h:123-125 | true iff some range is registered |
| Sweep.StepProgresses | include/benchmark/detail/state.h:83-109 | a step keeps the range and policy and, while not past `to`, strictly nears it |
| Sweep.Trace | include/benchmark/detail/state.h:74-110 | the first value a sweep publishes is its current value |
| Sweep.DeclaredIsBefore | include/benchmark/detail/state.h:65 | a fresh range starts on the near side of `to` |
| Sweep.SweepValues | include/benchmark/detail/state.h:56-121 | declaring a range and picking while running publishes exactly its trace |
| Sweep.LinearTraceUp | include/benchmark/detail/state.h:84-86 | a linear sweep up publishes every integer from `from` to `to` inclusive |
| Sweep.LinearTraceDown | include/benchmark/detail/state.h:84-86 | a linear sweep down publishes every integer from `from` down to `to` inclusive |
| Sweep.DoublingTrace | include/benchmark/detail/state.h:88-94 | between powers of two, x2 publishes every power of two in between, inclusive |
| Sweep.SweepEightTo1024 | examples/example1.cpp:42 | `ADD_ARG_RANGE(8, 1024)` is x2 and publishes 8, 16, ..., 1024 |
| Sweep.SweepFourTo32 | examples/example1.cpp:32 | `ADD_ARG_RANGE(4, 32)` is x2 and publishes 4, 8, 16, 32 |
| Sweep.SweepTenTo40 | include/benchmark/detail/state.h:96-109 | `(10, 40)` is x10 and publishes only 10 |
| Sweep.TenfoldFromZeroIsStuck | include/benchmark/detail/state.h:96-109 | a x10 sweep at 0 never moves and never passes its bound |
| Sweep.ShrinkingToNonPositiveNeverEnds | include/benchmark/detail/state.h:88-109 | a x2/x10 sweep shrinking toward a bound of 0 or below stays at or above it after every step, so done is never set |
| Sweep.GrowingFromNegativeNeverEnds | include/benchmark/detail/state.h:88-109 | a x2/x10 sweep growing from a negative value only falls, so it never passes its bound |
| Sweep.HundredDownToZeroIsStuck | include/benchmark/detail/state.h:34-41 | `ADD_ARG_RANGE(100, 0)` is x10 and publishes 100, 10, 1 and then 0 for ever, never passing its bound |
| Sweep.ZeroToHundredIsTenfold | include/benchmark/detail/state.h:34-41 | `(0, 100)` is x10, a sweep that does not progress |
| Timers.NoopCorrected | include/benchmark/detail/state.h:172-182 | duration unchanged when the overhead is not positive; otherwise duration less overhead, or 0 when the overhead is not smaller; within [0, duration] for a non-negative duration |
| Timers.ElapsedOfForward | include/benchmark/detail/state.h:163-170 | on a steady clock the accumulated duration is never negative |
| Timers.ElapsedAppend | include/benchmark/detail/state.h:167 | laps accumulate additively |
| Timers.RunState.constructor | include/benchmark/detail/state.h:137-151 | zero duration, not ended, the end at the sentinel, the given sweep state and overhead |
| Timers.RunState.AddArgument | include/benchmark/detail/state.h:154-156 | forwards to the sweep state with its exact contract |
| Timers.RunState.Start | include/benchmark/detail/state.h:158-161 | records the start and re-arms the stop |
| Timers.RunState.Stop | include/benchmark/detail/state.h:163-170 | the first stop after a start adds `now - start` to the duration; further stops change nothing |
| Timers.RunState.GetSample | include/benchmark/detail/state.h:172-182 | the duration corrected for the no-op overhead |
| Timers.RunState.Arg1 | include/benchmark/detail/state.h:184-186 | the sweep state's current argument |
| Timers.MeasureLaps | include/benchmark/detail/state.h:158-182 | laps timed by one timer yield their total less the overhead |
| Timers.Span | include/detail/sample_timer.h:32-37 | `end - start`, never below one tick |
| Timers.SampleTimer.constructor | include/detail/sample_timer.h:11-19 | the repeat count given, start 0, end at the sentinel, not ended |
| Timers.SampleTimer.Start | include/detail/sample_timer.h:21-23 | moves only the start point |
| Timers.SampleTimer.Stop | include/detail/sample_timer.h:25-30 | only the first stop ever sets the end point |
| Timers.SampleTimer.GetSample | include/detail/sample_timer.h:32-37 | the span from start to end, at least one tick |
| Timers.SampleTimer.Repeats | include/detail/sample_timer.h:39-41 | the constructor's repeat count |
| Timers.TimeRestarted | include/detail/sample_timer.h:21-30 | start, stop, start, stop: the sample runs from the second start to the first stop, one tick if that is backwards |
| Timers.UnstoppedSpan | include/detail/sample_timer.h:12 | a timer never stopped measures up to the sentinel end |
| Runner.Benchmark.constructor | include/benchmark/benchmark.h:54-55 | no samples, zero iterations, zero overhead |
| Runner.Benchmark.FindNoopTime | include/benchmark/benchmark.h:92-100 | the minimum of 9999 and the twenty (possibly non-positive) clock deltas |
| Runner.Benchmark.DebugAddSample | include/benchmark/benchmark.h:185-188 | one sample appended and the `unsigned` count incremented |
| Runner.Benchmark.CallOnce | include/benchmark/benchmark.h:145-152 | a call either declares a new range (restart, no sample) or yields its laps less the overhead, the sweep untouched |
| Runner.CallBody | include/benchmark/benchmark.h:363 | `ADD_ARG_RANGE` returns early on a new range; otherwise the body's laps accumulate into the timer |
| Runner.Benchmark.Record | include/benchmark/benchmark.h:154-157 | one more sample, the one of call `i`, and the count is `i + 1` |
| Runner.Benchmark.RecordSamples | include/benchmark/benchmark.h:144-167 | a declaring call ends the pass with nothing recorded; otherwise the pass records the samples of its calls, as many as `PassLength` says: 200, or up to the first sample past the 2 s budget |
| Runner.Benchmark.Measure | include/benchmark/benchmark.h:142-181 | a declaring call ends the pass without a report; otherwise a report of the current argument whose length obeys the budget and whose figures are those of the retained samples |
| Runner.Benchmark.CalculateReport | include/benchmark/benchmark.h:169-181 | the report holds the figures of the samples outlier removal retains |
| Runner.Benchmark.Pass | include/benchmark/benchmark.h:135-181 | a pass resets the count, picks the next swept value, and either declares a range (no report) or reports that value's figures |
| Runner.Benchmark.NextPass | include/benchmark/benchmark.h:134-182 | one turn of the loop keeps the run invariant and brings the loop closer to its end |
| Runner.Benchmark.Run | include/benchmark/benchmark.h:114-183 | without a range one pass and one report; with one, a discarded declaring pass and then one report per value of the sweep's trace, in order |
| Runner.PassProgresses | include/benchmark/benchmark.h:134-141 | each pass keeps the sweep side of the invariant, decreases the measure, and a reporting pass shows the next value |
| Runner.SweptPass | include/benchmark/benchmark.h:139-141 | after the declaring pass each pass reports the current trace value and steps to the next |
| Runner.FirstReported | include/benchmark/benchmark.h:134-150 | the first reporting pass is pass 0 without a range and pass 1 with one |
| Runner.SamplesAt | include/benchmark/benchmark.h:152-156 | the k-th recorded sample is the k-th call's |
| Runner.PassLengthUnique | include/benchmark/benchmark.h:144-163 | the clock alone fixes how many samples a pass records |
| Runner.FullPass | include/benchmark/benchmark.h:162-163 | a clock that stays within the budget gives a full pass of 200 samples |
| Runner.BenchmarkSilo.constructor | include/benchmark/benchmark.h:313 | no registry vector yet |
| Runner.BenchmarkSilo.RegisterBenchmark | include/benchmark/benchmark.h:316-321 | the vector exists and the benchmark is appended |
| Runner.BenchmarkSilo.RunAll | include/benchmark/benchmark.h:323-328 | visits every registered benchmark once, in registration order, and returns 0 |
| CalibratingRunner.Calibrated | include/benchmark.h:128-129 | calibration happens iff a sample is recorded at all, the run is not `run_once` and the first sample is below 1 ms |
| CalibratingRunner.CallOnce | include/benchmark.h:121-126 | a fresh timer driven by the runner's start, the body's calls and the runner's stop yields `SampleOf` |
| CalibratingRunner.Benchmark.constructor | include/benchmark.h:54-62 | 10 iterations, not `run_once`, zero count, repeat count 1 |
| CalibratingRunner.Benchmark.Run | include/benchmark.h:103-144 | the repeat count is the calibrated one if calibration happened, else unchanged; the count grows by the repeat count per recorded sample, modulo 2^32; the statistics are calculated over the old samples plus the run's |
| CalibratingRunner.Benchmark.RecordRun | include/benchmark.h:115-139 | exactly the run's samples are appended and counted |
| CalibratingRunner.Benchmark.NextCall | include/benchmark.h:121-138 | one turn keeps the loop invariant: a recorded sample advances `i`, the calibrating one does not |
| CalibratingRunner.Benchmark.Calibrate | include/benchmark.h:128-134 | sets the repeat count from the sample, and the `unsigned` `i--` then `i++` leave `i` as it was |
| CalibratingRunner.Benchmark.Record | include/benchmark.h:136-138 | one sample appended and counted at the statistics' repeat count |
| CalibratingRunner.Benchmark.RunOnce | include/benchmark.h:147-150 | `run_once` records exactly one sample of call 0 and never calibrates |
| CalibratingRunner.Benchmark.DebugAddSample | include/benchmark.h:152-155 | one sample appended and the `unsigned` count incremented |
| CalibratingRunner.CalibrationRange | include/benchmark.h:129 | a first sample in [1 tick, 1 ms) calibrates 1 to 1,000,000 repeats, whose total lies within half a sample of 1 ms |
| CalibratingRunner.RunRecords | include/benchmark.h:120-139 | a run records exactly `iterations` samples: calls 1 onward at the calibrated count, or calls 0 onward once each |
| CalibratingRunner.SlowFirstSampleIsKept | include/benchmark.h:128-138 | a first sample of 1 ms or more calibrates nothing and is recorded |
| CalibratingRunner.MeasuredBody | include/benchmark.h:364 | a `MEASURE` body yields exactly its own span; the runner's later stop is a no-op |
| CalibratingRunner.UntimedBody | include/benchmark.h:121-126 | a body that never touches its timer is timed by the runner's two readings |
| CalibratingRunner.StoppedStaysStopped | include/detail/sample_timer.h:25-30 | once stopped, no later call moves the end point |
| OriginalRunner.Calibrated | benchmark.h:142-145 | calibration happens iff the first sample is below 1 ms |
| OriginalRunner.KeepNewest | benchmark.h:162-163 | the trim as intended: at most 1000 samples kept, the newest ones |
| OriginalRunner.Benchmark.constructor | benchmark.h:102-112 | every counter and figure zero, repeat count 0, no samples |
| OriginalRunner.Benchmark.Run | benchmark.h:119-166 | the repeat count is reset and possibly calibrated; fifteen samples are counted at the repeat count modulo 2^32, added to the total time and appended; then the newest 1000 are kept |
| OriginalRunner.Benchmark.RecordRun | benchmark.h:129-160 | the loop appends exactly the run's samples, sums them into the total time and counts them |
| OriginalRunner.Benchmark.NextCall | benchmark.h:133-160 | one turn keeps the loop invariant: the calibrating call (clamped to 10 ns) sets the repeats and records nothing; any other call records its sample |
| OriginalRunner.Benchmark.Calibrate | benchmark.h:142-149 | a first sample below 1 ms, clamped to 10 ns, sets the repeat count, and the `unsigned` `i--` then `i++` leave `i` as it was |
| OriginalRunner.Benchmark.Record | benchmark.h:151-154 | one sample appended, added to the total time and counted at the repeat count |
| OriginalRunner.Benchmark.Trim | benchmark.h:162-163 | keeps the newest 1000 samples, as intended (see Findings) |
| OriginalRunner.Benchmark.CalculateTimings | benchmark.h:193-236 | false and nothing changed on no samples; otherwise the samples end sorted and min, average, deviation and median are the per-repeat figures, with min <= average and min <= median |
| OriginalRunner.CalibrationRange | benchmark.h:143-145 | a sample clamped into [10 ns, 1 ms) calibrates 1 to 100,000 repeats, whose total lies within half a sample of 1 ms |
| OriginalRunner.RunRecords | benchmark.h:133-160 | a run records exactly fifteen samples: calls 1 to 15 at the calibrated count, or calls 0 to 14 once each |
| OriginalRunner.TrimEndOverruns | benchmark.h:162-163 | as written the erase offset wraps to 2^64 + 1000 - size, past the end of the vector |
| OriginalRunner.TrimFirstReached | benchmark.h:124 | the trim is first reached on the 67th run of one object |
| OriginalRunner.KeepNewestKeepsRun | benchmark.h:162-163 | the corrected trim keeps the newest run's samples intact |
| Variables.VarInt.Linear | include/benchmark/detail/variables.h:20-24 | value `from`, bound `to`, growth by `step` |
| Variables.VarInt.Log2 | include/benchmark/detail/variables.h:43-46 | value `from`, bound `to`, growth by doubling |
| Variables.VarInt.Log10 | include/benchmark/detail/variables.h:65-68 | value `from`, bound `to`, growth tenfold |
| Variables.VarInt.Done | include/benchmark/detail/variables.h:26-28 | true iff the value exceeds the bound |
| Variables.VarInt.GetNext | include/benchmark/detail/variables.h:30-34 | returns the old value and advances it; a growing generator hands out the head of what remains |
| Variables.SeriesShape | include/benchmark/detail/variables.h:26-34 | a growing generator yields from `from`, each value the advance of the previous, all within the bound, the next one past it; nothing when `from > to` |
| Variables.LinearSeries | include/benchmark/detail/variables.h:20-34 | with a positive step: `from + j*step` for j up to `(to - from)/step` |
| Variables.StalledNeverDone | include/benchmark/detail/variables.h:52-56 | doubling or tenfold from zero or below (or a non-positive step) never rises above its start, so a generator starting within its bound is never done |
| Arguments.Strip | include/benchmark/detail/program_arguments.h:23-29 | at most two leading characters are removed, all `-`, and after removing fewer than two the rest does not start with `-` |
| Arguments.StripCorners | include/benchmark/detail/program_arguments.h:23-29 | `--output` to `output`, `-verbose` to `verbose`, `---x` to `-x`, `-` to empty, `x-` unchanged |
| Arguments.Parse | include/benchmark/detail/program_arguments.h:10-33 | the constructor's loop builds exactly `Parsed(argc, argv)` |
| Arguments.ParsedShape | include/benchmark/detail/program_arguments.h:12-18 | `argc < 1` gives nothing; otherwise `argv[0]` is the module path, at most `argc - 1` arguments are kept, and they depend on `argv[1..argc]` alone |
| Arguments.KeptAppend | include/benchmark/detail/program_arguments.h:18-32 | arguments are kept one by one, in `argv` order |
| Arguments.KeptExactly | include/benchmark/detail/program_arguments.h:18-31 | a string is kept iff it is the stripped form of a non-empty argument |
| Arguments.KeptAllNonEmpty | include/benchmark/detail/program_arguments.h:18-31 | without empty arguments each is kept, stripped, in its place |
| Arguments.ProgramArguments.Contains | include/benchmark/detail/program_arguments.h:35-42 | true iff some argument equals the name, or the alternative when one is given |
| Arguments.FirstMatch | include/benchmark/detail/program_arguments.h:48-53 | the first matching index, none before it matching, or the length |
| Arguments.ProgramArguments.After | include/benchmark/detail/program_arguments.h:45-56 | the argument after the first match; empty with no match or when the first match is last; later matches ignored |
| Arguments.ProgramArguments.HasAny | include/benchmark/detail/program_arguments.h:68-71 | true iff the count is positive |
| Arguments.ProgramArguments.At | include/benchmark/detail/program_arguments.h:58-61 | only an index below the count is valid, and it yields a kept argument |
| Setup.FromCommandLine | include/benchmark/detail/benchmark_setup.h:21-41 | verbose and skipWarmup iff present; a value after the first `output` that names a style selects that style, and a style other than the default is only ever selected by its name |
| Setup.Complains | include/benchmark/detail/benchmark_setup.h:35-37 | the diagnostic appears iff the value names no style |
| Setup.StyleNamesRoundTrip | include/benchmark/detail/benchmark_setup.h:27-34 | a value names a style iff it is that style's lower-case name |
| Setup.DiagnosticMeansDefault | include/benchmark/detail/benchmark_setup.h:26-37 | with the diagnostic the style stays OneLine; without it the style is the one whose name is the value |
| Setup.OutputFirst | include/benchmark/detail/benchmark_setup.h:26 | with `output` as the first argument, the value is the second one, stripped |
| Setup.OutputRoundTrip | include/benchmark/detail/benchmark_setup.h:26-34 | naming any style after `-output` or `--output` selects it without a diagnostic |
| Setup.FirstOutputWins | include/benchmark/detail/benchmark_setup.h:26 | of two `output` flags the first decides |
| Setup.CaseSensitive | include/benchmark/detail/benchmark_setup.h:27-37 | `FULL` leaves OneLine and draws the diagnostic |
| Setup.MissingOutput | include/benchmark/detail/benchmark_setup.h:35-37 | no arguments give the defaults and the diagnostic |
| Setup.OlderFromCommandLineAsWritten | include/detail/benchmark_setup.h:20-40 | the style is always OneLine; the flags are read as in the newer constructor |
| Setup.OlderIgnoresOutput | include/detail/benchmark_setup.h:25-33 | with `--output full` the newer constructor selects Full, the older stays at OneLine |

## Left out

- I/O is not modelled: all printing (`printResults`, `printTime`, progress dots, the `Full` banner, diagnostics as text), CPU introspection and `printCPULoad`, `warmupCpu`, `sleep_for`, and the debug-mode warning.
- Floating point is idealised. The deviation's `sqrt`/`llround` is `Numeric.RoundSqrt`. The calibration's `float` division is exact round-half-up `Numeric.RoundDiv`. The `2.0f` outlier factor is an exact doubling, and the percentile's `float` fraction is exact `count*nth/100`. `standardDeviationLevel` is not modelled.
- Durations are natural tick counts in the statistics. A negative duration passed to `debugAddSample` is not modelled, and neither are signed overflow in the sums or the `unsigned long long` wrap of the sum of squares.
- The getters (`size`, `empty`, `totalTimeRun`, `averageTime`, the older `significant()`, `getModulePath`, `statistics()`, `totalIterations()`, `needRestart()`, `getArg()`) are fields of the model classes, read directly. `BenchmarkSilo::deleteAll` is memory management.
- The older `RunState` of include/detail/state.h has no class of its own. Its timing is `Timers.SampleTimer`, and its `addArgument`/`arg1` forward exactly as in `Timers.RunState`.
- The inline `VarInt*` classes of include/benchmark.h duplicate include/benchmark/detail/variables.h (their linear one does not compile), so `Variables.VarInt` models the latter.
- `BENCHMARK` and `MEASURE` macro registration is modelled only by its effect: `Runner.BenchmarkSilo`, and the body calls passed as oracles.
- Variables.VarInt.GetNext: requires that the advance fit in `long long`, since signed overflow is undefined in the source.
- Variables.VarInt.Linear: requires `long long` arguments; the other two constructors likewise.
- Sweep.SweepValues: requires a sweep that progresses toward its bound: linear; a growing x2/x10 sweep from a positive value; or a shrinking x2/x10 sweep toward a positive bound. Every other sweep never ends in the source, and the model proves it:
  - a x10 sweep at 0 (`Sweep.TenfoldFromZeroIsStuck`);
  - a x2/x10 sweep shrinking toward a bound of 0 or below (`Sweep.ShrinkingToNonPositiveNeverEnds`), such as `ADD_ARG_RANGE(100, 0)`, which publishes 100, 10, 1 and then 0 for ever (`Sweep.HundredDownToZeroIsStuck`);
  - a x2/x10 sweep growing from a negative value (`Sweep.GrowingFromNegativeNeverEnds`).
  
  Int overflow of the stepped value is not modelled.
- Runner.Benchmark.Run: requires the same progressing sweep, because on the sweeps listed under `Sweep.SweepValues` the source's loop never ends.
- Sweep.Trace: states only its first value; its full shape is stated by `Sweep.SweepValues`, `Sweep.LinearTraceUp`, `Sweep.LinearTraceDown` and `Sweep.DoublingTrace`.
- Arguments.ProgramArguments.At: states only that the result is a kept argument, not which one (it is the argument at that index).
- Statistics.TimeStatistics.Percentile: reads the clamped index, not the wrapping one (see Findings).
- OriginalRunner.Benchmark.Run: uses the intended trim, not the wrapping one (see Findings).
- Setup.OlderFromCommandLineAsWritten: the older constructor's diagnostic is the condition of `Setup.Complains` and is not restated for it.
- LegacyStatistics.LegacyTimeStatistics.Calculate: requires a positive repeat count when there are samples, since the source divides by it.
- CalibratingRunner.Benchmark.Run: a second `run` of one object starts with a local repeat count of 1 but counts at the statistics' earlier calibrated count. This is modelled as written; no figures are claimed about it beyond the contract.
- The even-count median `a/2 + b/2` is kept as written in `Statistics.StatsOf`, since it is what the engine reports; it can fall one tick below the minimum (see Findings), and `Statistics.IntendedMedian` is the corrected median.
- Runner.BenchmarkSilo.RunAll: requires that a benchmark was registered. With none, the source's static `benchmarks` pointer is still null and `runAll` dereferences it (include/benchmark/benchmark.h:313, 323-325), which `BENCHMARK_MAIN` reaches unconditionally; that undefined behaviour is not modelled.

## Findings

| source | as written | input that shows it | evidently intended | confidence | as-written member | corrected member |
|---|---|---|---|---|---|---|
| include/benchmark/detail/statistics.h:132-134 | `idx` is a `size_t`, so `count*nth/100 - 1` wraps below zero and the `idx < 0` clamp can never fire | one recorded sample and `percentile(90)` (what the report asks for): index 2^64 - 1, read past the end | clamp the index to 0 | high (not executed) | Statistics.PercentileOfOneSampleOutOfRange | Statistics.PercentileIndexAgrees |
| include/detail/benchmark_setup.h:25-33 | a local `std::string outputStyle` shadows the member, so the style assignments go to the string and the member stays OneLine | `bench --output full` gives OneLine | set the member, as include/benchmark/detail/benchmark_setup.h:26-34 does | high (not executed) | Setup.OlderIgnoresOutput | Setup.OutputRoundTrip |
| benchmark.h:162-163 | the erase end `SamplesNumber - timeSamples.size()` is computed unsigned, so when more than 1000 samples are held it wraps to a huge offset past the end | 67 calls of `run` on one object hold 1005 samples | erase the oldest `size - 1000` samples, keeping the newest 1000 | medium (not executed) | OriginalRunner.TrimEndOverruns | OriginalRunner.KeepNewestKeepsRun |
| include/benchmark/detail/statistics.h:48-50 | for an even count the median is `a/2 + b/2`, each middle sample halved with truncation, which loses a tick when both are odd | samples of 3 and 3 ns: median 2 ns, below the minimum 3 ns, against the `medianTime() >= minimalTime()` assertion of tests/tests.cpp:25 | `(a + b)/2`, which lies between the middle samples | medium (not executed) | Statistics.MedianBelowMinimum | Statistics.IntendedMedianWithinRange |
