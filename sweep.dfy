/** The argument sweep of a benchmark (`BenchmarkState`, with `isPowerOf2`
    and `findGrowthType`, in include/benchmark/detail/state.h; the older
    include/detail/state.h holds the same logic). A workload declares a
    range `from..to`; the state infers how to step through it and publishes
    one value per pass until the value passes `to`. Arguments are C++ `int`s
    modelled as unbounded integers. */
module Sweep {

  datatype GrowthType = Linear | Exponential2 | Exponential10

  /** One declared range, its stepping policy and the next value. */
  datatype VariableArgument = VariableArgument(
    from: int,
    to: int,
    growth: GrowthType,
    growing: bool,
    value: int)

  function Pow2(k: nat): nat
  {
    if k == 0 then 1 else 2 * Pow2(k - 1)
  }

  /** `n` is 1 or an even number whose half is a power of two. */
  predicate PowerOfTwo(n: int)
    decreases if n > 0 then n else 0
  {
    n == 1 || (n > 1 && n % 2 == 0 && PowerOfTwo(n / 2))
  }

  /** `isPowerOf2`: shifts the number right while it exceeds one, failing on
      a set low bit. On the positive numbers the loop sees, `& 0x1` is
      `% 2` and `>>= 1` is `/ 2`. */
  method IsPowerOf2(number: int) returns (b: bool)
    ensures b <==> PowerOfTwo(number)
  {
    if number < 1 {
      return false;
    }
    var n := number;
    while n > 1
      invariant n >= 1
      invariant PowerOfTwo(n) <==> PowerOfTwo(number)
      decreases n
    {
      if n % 2 == 1 && n != 1 {
        return false;
      }
      n := n / 2;
    }
    return true;
  }

  /** The recursive characterisation agrees with "2 to some power". */
  lemma {:induction false} PowerOfTwoHasExponent(n: int) returns (k: nat)
    requires PowerOfTwo(n)
    ensures Pow2(k) == n
    decreases if n > 0 then n else 0
  {
    if n == 1 {
      k := 0;
    } else {
      var j := PowerOfTwoHasExponent(n / 2);
      k := j + 1;
    }
  }

  lemma {:induction false} Pow2IsPowerOfTwo(k: nat)
    ensures PowerOfTwo(Pow2(k))
  {
    if k > 0 {
      Pow2IsPowerOfTwo(k - 1);
      Pow2Positive(k - 1);
      assert Pow2(k) / 2 == Pow2(k - 1);
    }
  }

  lemma {:induction false} Pow2Positive(k: nat)
    ensures Pow2(k) >= 1
  {
    if k > 0 {
      Pow2Positive(k - 1);
    }
  }

  lemma PowerOfTwoIff(n: int)
    ensures PowerOfTwo(n) <==> exists k: nat :: Pow2(k) == n
  {
    if PowerOfTwo(n) {
      var k := PowerOfTwoHasExponent(n);
    }
    if exists k: nat :: Pow2(k) == n {
      var k: nat :| Pow2(k) == n;
      Pow2IsPowerOfTwo(k);
    }
  }

  /** `findGrowthType`: ×2 when both bounds are powers of two, otherwise
      ×10 when both are multiples of ten, otherwise ±1. (A C++ `%` by ten is
      zero exactly when Dafny's is, for either sign.) */
  function GrowthOf(from: int, to: int): GrowthType
  {
    if PowerOfTwo(from) && PowerOfTwo(to) then Exponential2
    else if from % 10 == 0 && to % 10 == 0 then Exponential10
    else Linear
  }

  method FindGrowthType(from: int, to: int) returns (g: GrowthType)
    ensures g == GrowthOf(from, to)
    ensures g == Exponential2 <==> PowerOfTwo(from) && PowerOfTwo(to)
    ensures g == Exponential10 <==> !(PowerOfTwo(from) && PowerOfTwo(to)) && from % 10 == 0 && to % 10 == 0
  {
    var a := IsPowerOf2(from);
    var b := a;
    if a {
      b := IsPowerOf2(to);
    }
    if a && b {
      return Exponential2;
    } else if from % 10 == 0 && to % 10 == 0 {
      return Exponential10;
    }
    return Linear;
  }

  /** The range as `addArgument` registers it. */
  function Declared(from: int, to: int): VariableArgument
  {
    VariableArgument(from, to, GrowthOf(from, to), to > from, from)
  }

  /** C++ `/` on `int` by the divisors the sweep uses: truncates toward
      zero. */
  function TruncDiv(x: int, d: int): (q: int)
    requires d == 2 || d == 10
    ensures x >= 0 ==> 0 <= q <= x
    ensures x < 0 ==> x <= q <= 0
    ensures x > 0 && d > 1 ==> q < x
  {
    if x >= 0 then x / d else -((-x) / d)
  }

  /** One step of `pickNextArgument` on the first argument. */
  function Step(a: VariableArgument): VariableArgument
  {
    var v := match a.growth
      case Linear => if a.growing then a.value + 1 else a.value - 1
      case Exponential2 => if a.growing then a.value * 2 else TruncDiv(a.value, 2)
      case Exponential10 => if a.growing then a.value * 10 else TruncDiv(a.value, 10);
    a.(value := v)
  }

  /** The value has passed `to` in the direction of travel. */
  predicate Passed(a: VariableArgument)
  {
    (a.growing && a.value > a.to) || (!a.growing && a.value < a.to)
  }

  /** Some registered argument has the range `from..to`. */
  predicate HasRange(args: seq<VariableArgument>, from: int, to: int)
  {
    exists i :: 0 <= i < |args| && args[i].from == from && args[i].to == to
  }

  class BenchmarkState {
    var firstTime: bool
    var variableArgs: seq<VariableArgument>
    var currentArg1: int
    var variablesDone: bool
    var needRestart: bool

    constructor ()
      ensures firstTime && !needRestart && currentArg1 == 0 && variablesDone
      ensures variableArgs == []
    {
      firstTime := true;
      variableArgs := [];
      currentArg1 := 0;
      variablesDone := true;
      needRestart := false;
    }

    /** Registers a range the first time it is seen and asks for a restart;
        a range seen before only clears the restart flag. */
    method AddArgument(from: int, to: int) returns (added: bool)
      modifies this`variableArgs, this`variablesDone, this`needRestart
      ensures added <==> !HasRange(old(variableArgs), from, to)
      ensures added ==> variableArgs == old(variableArgs) + [Declared(from, to)]
      ensures added ==> !variablesDone && needRestart
      ensures !added ==> variableArgs == old(variableArgs) && variablesDone == old(variablesDone)
      ensures !added ==> !needRestart
    {
      var i := 0;
      while i < |variableArgs|
        invariant 0 <= i <= |variableArgs|
        invariant forall j :: 0 <= j < i ==> !(variableArgs[j].from == from && variableArgs[j].to == to)
      {
        if variableArgs[i].from == from && variableArgs[i].to == to {
          break;
        }
        i := i + 1;
      }

      if i == |variableArgs| {
        var growthType := FindGrowthType(from, to);
        var growing := to > from;
        variableArgs := variableArgs + [VariableArgument(from, to, growthType, growing, from)];
        variablesDone := false;
        needRestart := true;
        return true;
      }
      needRestart := false;
      return false;
    }

    /** Publishes the first argument's value and steps it; marks the sweep
        done once the value has passed `to`. Only the first argument moves. */
    method PickNextArgument()
      modifies this`variableArgs, this`currentArg1, this`variablesDone
      ensures old(variableArgs) == [] ==>
        variableArgs == [] && currentArg1 == old(currentArg1) && variablesDone == old(variablesDone)
      ensures old(variableArgs) != [] ==>
        currentArg1 == old(variableArgs[0].value) &&
        variableArgs == old(variableArgs)[0 := Step(old(variableArgs[0]))] &&
        variablesDone == (old(variablesDone) || Passed(Step(old(variableArgs[0]))))
    {
      if variableArgs == [] {
        return;
      }
      var varg := variableArgs[0];
      currentArg1 := varg.value;
      match varg.growth {
        case Linear =>
          varg := varg.(value := varg.value + if varg.growing then 1 else -1);
        case Exponential2 =>
          if varg.growing {
            varg := varg.(value := varg.value * 2);
          } else {
            varg := varg.(value := TruncDiv(varg.value, 2));
          }
        case Exponential10 =>
          if varg.growing {
            varg := varg.(value := varg.value * 10);
          } else {
            varg := varg.(value := TruncDiv(varg.value, 10));
          }
      }
      variableArgs := variableArgs[0 := varg];
      if (varg.growing && varg.value > varg.to) || (!varg.growing && varg.value < varg.to) {
        variablesDone := true;
      }
    }

    /** Without arguments: true on the first call only. With arguments:
        whether the sweep is not done. */
    method Running() returns (r: bool)
      modifies this`firstTime
      ensures variableArgs == [] ==> r == old(firstTime) && !firstTime
      ensures variableArgs != [] ==> r == !variablesDone && firstTime == old(firstTime)
    {
      if variableArgs == [] {
        r := firstTime;
        firstTime := false;
        return;
      }
      return !variablesDone;
    }

    function VariableArgsMode(): (r: bool)
      reads this
      ensures r <==> |variableArgs| > 0
    {
      variableArgs != []
    }
  }

  // ---------------------------------------------------------------------
  // The values a sweep publishes.

  /** The sweep is on the near side of `to`. */
  predicate Before(a: VariableArgument)
  {
    (a.growing ==> a.value <= a.to) && (!a.growing ==> a.value >= a.to)
  }

  /** Each step moves the value strictly toward `to`: always for ±1, and
      for ×2/×10 when the value stays positive. */
  predicate Progresses(a: VariableArgument)
  {
    a.growth == Linear || (a.growing && a.value > 0) || (!a.growing && a.to > 0)
  }

  function Distance(a: VariableArgument): nat
    requires Before(a)
  {
    if a.growing then a.to - a.value else a.value - a.to
  }

  lemma StepProgresses(a: VariableArgument)
    requires Before(a) && Progresses(a)
    ensures Step(a).from == a.from && Step(a).to == a.to
    ensures Step(a).growth == a.growth && Step(a).growing == a.growing
    ensures !Passed(Step(a)) ==> Before(Step(a)) && Progresses(Step(a)) && Distance(Step(a)) < Distance(a)
  {
  }

  /** The values published, in order, from the argument `a` onward. */
  function Trace(a: VariableArgument): (t: seq<int>)
    requires Before(a) && Progresses(a)
    ensures |t| > 0 && t[0] == a.value
    decreases Distance(a)
  {
    StepProgresses(a);
    if Passed(Step(a)) then [a.value] else [a.value] + Trace(Step(a))
  }

  /** A fresh declaration starts on the near side of `to`. */
  lemma DeclaredIsBefore(from: int, to: int)
    ensures Before(Declared(from, to))
  {
  }

  /** Drives a fresh state the way the run loop does (declare, then pick a
      value per pass while running) and collects the published values. */
  method SweepValues(from: int, to: int) returns (published: seq<int>)
    requires Progresses(Declared(from, to))
    ensures published == Trace(Declared(from, to))
  {
    var bs := new BenchmarkState();
    var added := bs.AddArgument(from, to);
    published := [];
    var running := bs.Running();
    while running
      invariant |bs.variableArgs| == 1
      invariant running <==> !bs.variablesDone
      invariant running ==> Before(bs.variableArgs[0]) && Progresses(bs.variableArgs[0])
      invariant running ==> published + Trace(bs.variableArgs[0]) == Trace(Declared(from, to))
      invariant !running ==> published == Trace(Declared(from, to))
      decreases if running then 1 + Distance(bs.variableArgs[0]) else 0
    {
      var a := bs.variableArgs[0];
      StepProgresses(a);
      bs.PickNextArgument();
      published := published + [bs.currentArg1];
      running := bs.Running();
    }
  }

  /** From `from` up to `to` by ones: every integer in between, inclusive. */
  lemma {:induction false} LinearTraceUp(a: VariableArgument)
    requires a.growth == Linear && a.growing && a.value <= a.to
    ensures Trace(a) == seq(a.to - a.value + 1, i => a.value + i)
    decreases a.to - a.value
  {
    StepProgresses(a);
    if !Passed(Step(a)) {
      LinearTraceUp(Step(a));
    }
  }

  /** From `from` down to `to` by ones (also the case `from == to`). */
  lemma {:induction false} LinearTraceDown(a: VariableArgument)
    requires a.growth == Linear && !a.growing && a.value >= a.to
    ensures Trace(a) == seq(a.value - a.to + 1, i => a.value - i)
    decreases a.value - a.to
  {
    StepProgresses(a);
    if !Passed(Step(a)) {
      LinearTraceDown(Step(a));
    }
  }

  /** Between two powers of two, ×2 publishes every power of two. */
  lemma {:induction false} DoublingTrace(a: VariableArgument, j: nat, k: nat)
    requires a.growth == Exponential2 && a.growing && j <= k
    requires a.value == Pow2(j) && a.to == Pow2(k)
    ensures Progresses(a) && Before(a)
    ensures Trace(a) == seq(k - j + 1, i requires 0 <= i => Pow2(j + i))
    decreases k - j
  {
    Pow2Positive(j);
    Pow2Monotone(j, k);
    StepProgresses(a);
    assert Step(a).value == Pow2(j + 1);
    if j < k {
      Pow2Monotone(j + 1, k);
      DoublingTrace(Step(a), j + 1, k);
    } else {
      assert Passed(Step(a));
    }
  }

  lemma {:induction false} Pow2Monotone(j: nat, k: nat)
    requires j <= k
    ensures Pow2(j) <= Pow2(k)
    decreases k - j
  {
    if j < k {
      Pow2Monotone(j, k - 1);
      Pow2Positive(k - 1);
    }
  }

  /** `ADD_ARG_RANGE(8, 1024)` sweeps ×2 over 8, 16, …, 1024. */
  lemma SweepEightTo1024()
    ensures GrowthOf(8, 1024) == Exponential2
    ensures Progresses(Declared(8, 1024))
    ensures Trace(Declared(8, 1024)) == [8, 16, 32, 64, 128, 256, 512, 1024]
  {
    assert Pow2(3) == 8;
    assert Pow2(10) == 1024;
    Pow2IsPowerOfTwo(3);
    Pow2IsPowerOfTwo(10);
    DoublingTrace(Declared(8, 1024), 3, 10);
  }

  /** `ADD_ARG_RANGE(4, 32)` sweeps ×2 over 4, 8, 16, 32. */
  lemma SweepFourTo32()
    ensures GrowthOf(4, 32) == Exponential2
    ensures Progresses(Declared(4, 32))
    ensures Trace(Declared(4, 32)) == [4, 8, 16, 32]
  {
    assert Pow2(2) == 4;
    assert Pow2(5) == 32;
    Pow2IsPowerOfTwo(2);
    Pow2IsPowerOfTwo(5);
    DoublingTrace(Declared(4, 32), 2, 5);
  }

  /** `(10, 40)` is ×10, so it publishes 10 and is done (100 > 40). */
  lemma SweepTenTo40()
    ensures GrowthOf(10, 40) == Exponential10
    ensures Progresses(Declared(10, 40))
    ensures Trace(Declared(10, 40)) == [10]
  {
    assert !PowerOfTwo(10) by {
      assert PowerOfTwo(10) == PowerOfTwo(5);
    }
  }

  /** A ×10 sweep at 0 never moves: stepping leaves it as it is, and it has
      not passed `to` whenever `to` is on its side, so the sweep never ends
      (as with `from == to == 0`, or `ADD_ARG_RANGE(0, 100)`). */
  lemma TenfoldFromZeroIsStuck(a: VariableArgument)
    requires a.growth == Exponential10 && a.value == 0 && Before(a)
    ensures Step(a) == a && !Passed(Step(a))
  {
  }

  /** A ×2/×10 sweep shrinking toward a bound of 0 or below never passes
      it: truncating division keeps the value between its old value and 0,
      so it stays at or above the bound, and the sweep never ends. */
  lemma ShrinkingToNonPositiveNeverEnds(a: VariableArgument)
    requires a.growth != Linear && !a.growing && Before(a) && a.to <= 0
    ensures Step(a).from == a.from && Step(a).to == a.to
    ensures Step(a).growth == a.growth && !Step(a).growing
    ensures Before(Step(a)) && !Passed(Step(a))
  {
  }

  /** A ×2/×10 sweep growing from a negative value moves away from its
      bound and never passes it either. */
  lemma GrowingFromNegativeNeverEnds(a: VariableArgument)
    requires a.growth != Linear && a.growing && Before(a) && a.value < 0
    ensures Step(a).from == a.from && Step(a).to == a.to
    ensures Step(a).growth == a.growth && Step(a).growing
    ensures Step(a).value <= a.value < 0
    ensures Before(Step(a)) && !Passed(Step(a))
  {
  }

  /** `ADD_ARG_RANGE(100, 0)` is a shrinking ×10 sweep from a positive
      value that does not progress: it publishes 100, 10, 1 and then 0 for
      ever. */
  lemma HundredDownToZeroIsStuck()
    ensures GrowthOf(100, 0) == Exponential10
    ensures Before(Declared(100, 0)) && !Progresses(Declared(100, 0))
    ensures Step(Declared(100, 0)).value == 10
    ensures Step(Step(Declared(100, 0))).value == 1
    ensures var z := Step(Step(Step(Declared(100, 0))));
      z.value == 0 && Step(z) == z && !Passed(z)
  {
    assert !PowerOfTwo(100) by {
      assert PowerOfTwo(100) == PowerOfTwo(50);
      assert PowerOfTwo(50) == PowerOfTwo(25);
    }
  }

  /** `(0, 100)` is such a sweep. */
  lemma ZeroToHundredIsTenfold()
    ensures GrowthOf(0, 100) == Exponential10
    ensures Before(Declared(0, 100)) && !Progresses(Declared(0, 100))
  {
    assert !PowerOfTwo(100) by {
      assert PowerOfTwo(100) == PowerOfTwo(50);
      assert PowerOfTwo(50) == PowerOfTwo(25);
    }
  }
}
