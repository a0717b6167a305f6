/** The integer generators that drive a swept benchmark argument
    (`VarIntLinear`, `VarIntLog2` and `VarIntLog10` in
    include/benchmark/detail/variables.h): each holds a current value and a
    bound `to`; `done` says the value has passed the bound, and `getNext`
    hands out the current value and then advances it by a step, by doubling
    or tenfold. The three share one class here, told apart by `growth`. */
module Variables {
  import Numeric

  /** The range of `long long`. */
  const LongMin: int := -0x8000_0000_0000_0000
  const LongMax: int := 0x7FFF_FFFF_FFFF_FFFF

  predicate InLong(x: int)
  {
    LongMin <= x <= LongMax
  }

  /** How a generator advances. */
  datatype Growth = Step(step: int) | Doubling | Tenfold

  function Advance(v: int, g: Growth): int
  {
    match g
    case Step(step) => v + step
    case Doubling => v * 2
    case Tenfold => v * 10
  }

  /** The generator moves up: a positive step, or a positive value for the
      multiplying ones. */
  predicate Grows(v: int, g: Growth)
  {
    match g
    case Step(step) => step > 0
    case _ => v > 0
  }

  /** The values a growing generator hands out from `v` before it is done. */
  function Series(v: int, to: int, g: Growth): seq<int>
    requires Grows(v, g)
    decreases if v > to then 0 else to - v + 1
  {
    if v > to then [] else [v] + Series(Advance(v, g), to, g)
  }

  /** The value after `n` calls of `getNext`. */
  function Iterate(v: int, g: Growth, n: nat): int
    decreases n
  {
    if n == 0 then v else Iterate(Advance(v, g), g, n - 1)
  }

  class VarInt {
    var value: int
    const to: int
    const growth: Growth

    /** `VarIntLinear(from, to, step)`. */
    constructor Linear(from: int, to: int, step: int)
      requires InLong(from) && InLong(to) && InLong(step)
      ensures value == from && this.to == to && growth == Step(step)
    {
      value := from;
      this.to := to;
      growth := Step(step);
    }

    /** `VarIntLog2(from, to)`. */
    constructor Log2(from: int, to: int)
      requires InLong(from) && InLong(to)
      ensures value == from && this.to == to && growth == Doubling
    {
      value := from;
      this.to := to;
      growth := Doubling;
    }

    /** `VarIntLog10(from, to)`. */
    constructor Log10(from: int, to: int)
      requires InLong(from) && InLong(to)
      ensures value == from && this.to == to && growth == Tenfold
    {
      value := from;
      this.to := to;
      growth := Tenfold;
    }

    /** `done`: a read-only test of the current value against the bound. */
    function Done(): (d: bool)
      reads this
      ensures d <==> value > to
    {
      to < value
    }

    /** The values still to come from a growing generator. */
    ghost function Remaining(): seq<int>
      reads this
      requires Grows(value, growth)
    {
      Series(value, to, growth)
    }

    /** `getNext`: the value held before the call, then the advance. Signed
        overflow is undefined in the source, so the advance must fit. A
        growing generator that is not done hands out the head of what
        remains. */
    method GetNext() returns (r: int)
      requires InLong(Advance(value, growth))
      modifies this`value
      ensures r == old(value) && value == Advance(old(value), growth)
      ensures Grows(old(value), growth) && !old(Done()) ==>
        Grows(value, growth) && old(Remaining()) == [r] + Remaining()
    {
      r := value;
      value := Advance(value, growth);
    }
  }

  /** What a growing generator yields: starting at `v`, each value the
      advance of the one before, all within the bound, and the advance of
      the last one past it. */
  lemma {:induction false} SeriesShape(v: int, to: int, g: Growth)
    requires Grows(v, g)
    ensures var s := Series(v, to, g);
      (s == [] <==> v > to) &&
      (s != [] ==> s[0] == v && Advance(s[|s| - 1], g) > to) &&
      (forall j :: 0 <= j < |s| ==> s[j] <= to) &&
      (forall j :: 0 <= j < |s| - 1 ==> s[j + 1] == Advance(s[j], g))
    decreases if v > to then 0 else to - v + 1
  {
    if v <= to {
      var v' := Advance(v, g);
      SeriesShape(v', to, g);
      var s, t := Series(v, to, g), Series(v', to, g);
      assert s == [v] + t;
      forall j | 0 <= j < |s| - 1
        ensures s[j + 1] == Advance(s[j], g)
      {
        if j > 0 {
          assert s[j] == t[j - 1] && s[j + 1] == t[j];
        }
      }
    }
  }

  /** With a positive step, `VarIntLinear` yields `from`, `from + step`, ...
      up to the largest such value within the bound. */
  lemma {:induction false} LinearSeries(from: int, to: int, step: int)
    requires step > 0
    ensures var s := Series(from, to, Step(step));
      |s| == (if from > to then 0 else (to - from) / step + 1) &&
      forall j :: 0 <= j < |s| ==> s[j] == from + j * step
    decreases if from > to then 0 else to - from + 1
  {
    if from <= to {
      LinearSeries(from + step, to, step);
      var s, t := Series(from, to, Step(step)), Series(from + step, to, Step(step));
      assert s == [from] + t;
      if from + step <= to {
        assert (to - from) / step == (to - (from + step)) / step + 1 by {
          DivShift(to - from - step, step);
        }
      } else {
        assert (to - from) / step == 0;
      }
      forall j | 0 <= j < |s|
        ensures s[j] == from + j * step
      {
        if j > 0 {
          assert s[j] == t[j - 1] == from + step + (j - 1) * step;
        }
      }
    }
  }

  lemma DivShift(x: nat, d: nat)
    requires d > 0
    ensures (x + d) / d == x / d + 1
  {
    assert x == d * (x / d) + x % d;
    Numeric.DivUnique(x + d, d, x / d + 1, x % d);
  }

  /** A generator that does not grow never moves up: after any number of
      calls its value is at most the start. So `VarIntLog2` and
      `VarIntLog10` from zero or below, and `VarIntLinear` with a step that
      is not positive, are never done if they did not start done. */
  lemma {:induction false} StalledNeverDone(v: int, g: Growth, n: nat)
    requires !Grows(v, g)
    ensures Iterate(v, g, n) <= v
    decreases n
  {
    if n > 0 {
      StalledNeverDone(Advance(v, g), g, n - 1);
    }
  }
}
