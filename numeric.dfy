/** Integer arithmetic over tick counts shared by the statistics engines:
    sums, extrema, squared deviations, the filter used by outlier removal,
    a sorted copy (standing in for `std::sort`), the rounded square root
    (standing in for `llround(sqrt(x))`), rounded division, and the
    wrap-around of `unsigned` iteration counters. */
module Numeric {

  datatype Option<T> = None | Some(value: T)

  /** `unsigned` wraps at 2^32. */
  const UintModulus: nat := 0x1_0000_0000

  /** An `unsigned` total after counting `n` samples of `r` iterations. */
  function Counted(total: nat, n: nat, r: nat): nat
  {
    (total + n * r) % UintModulus
  }

  /** Counting `r` more iterations into an `unsigned` total. */
  lemma CountStep(total: nat, i: nat, r: nat)
    ensures (Counted(total, i, r) + r) % UintModulus == Counted(total, i + 1, r)
  {
    var a := total + i * r;
    var q := a / UintModulus;
    assert a == q * UintModulus + a % UintModulus;
    assert a + r == total + (i + 1) * r;
    DivUnique(a + r, UintModulus, q + (a % UintModulus + r) / UintModulus, (a % UintModulus + r) % UintModulus);
  }

  /** Sum of the samples, accumulated front to back. */
  function Sum(s: seq<nat>): nat
  {
    if s == [] then 0 else Sum(s[..|s| - 1]) + s[|s| - 1]
  }

  /** Smallest sample; the running minimum of a front-to-back scan. */
  function MinOf(s: seq<nat>): (m: nat)
    requires |s| > 0
    ensures m in s
    ensures forall i :: 0 <= i < |s| ==> m <= s[i]
  {
    if |s| == 1 then s[0]
    else
      var m := MinOf(s[..|s| - 1]);
      if s[|s| - 1] < m then s[|s| - 1] else m
  }

  /** Largest sample; the running maximum of a front-to-back scan. */
  function MaxOf(s: seq<nat>): (m: nat)
    requires |s| > 0
    ensures m in s
    ensures forall i :: 0 <= i < |s| ==> s[i] <= m
  {
    if |s| == 1 then s[0]
    else
      var m := MaxOf(s[..|s| - 1]);
      if s[|s| - 1] > m then s[|s| - 1] else m
  }

  /** Distance between a sample and the average, as the source computes it
      with a conditional subtraction on signed tick counts. */
  function Dist(a: nat, b: nat): nat
  {
    if a > b then a - b else b - a
  }

  /** Sum of squared distances of the samples from `avg`. */
  function SqDevSum(s: seq<nat>, avg: nat): nat
  {
    if s == [] then 0
    else SqDevSum(s[..|s| - 1], avg) + Dist(s[|s| - 1], avg) * Dist(s[|s| - 1], avg)
  }

  /** The samples not above `t`, in their original order. */
  function Keep(s: seq<nat>, t: nat): seq<nat>
  {
    if s == [] then []
    else Keep(s[..|s| - 1], t) + (if s[|s| - 1] <= t then [s[|s| - 1]] else [])
  }

  predicate Sorted(s: seq<nat>)
  {
    forall i, j :: 0 <= i < j < |s| ==> s[i] <= s[j]
  }

  function Insert(x: nat, s: seq<nat>): (r: seq<nat>)
    requires Sorted(s)
    ensures Sorted(r)
    ensures multiset(r) == multiset(s) + multiset{x}
    ensures |r| == |s| + 1
    ensures r[0] == if s == [] || x <= s[0] then x else s[0]
  {
    if s == [] || x <= s[0] then [x] + s
    else
      var rest := Insert(x, s[1..]);
      assert s == [s[0]] + s[1..];
      [s[0]] + rest
  }

  /** The ascending permutation of the samples. */
  function Sort(s: seq<nat>): (r: seq<nat>)
    ensures Sorted(r)
    ensures multiset(r) == multiset(s)
    ensures |r| == |s|
  {
    if s == [] then []
    else
      assert s == [s[0]] + s[1..];
      Insert(s[0], Sort(s[1..]))
  }

  /** Largest `r` with `r * r <= n`. */
  function FloorSqrt(n: nat): (r: nat)
    ensures r * r <= n < (r + 1) * (r + 1)
  {
    if n < 4 then (if n == 0 then 0 else 1)
    else
      var q := FloorSqrt(n / 4);
      SqrtStep(n, q);
      if (2 * q + 1) * (2 * q + 1) <= n then 2 * q + 1 else 2 * q
  }

  /** The root of `n / 4`, doubled, is within one of the root of `n`. */
  lemma SqrtStep(n: nat, q: nat)
    requires n >= 4 && q * q <= n / 4 < (q + 1) * (q + 1)
    ensures (2 * q) * (2 * q) <= n < (2 * q + 2) * (2 * q + 2)
  {
    var a, b := q * q, (q + 1) * (q + 1);
    assert (2 * q) * (2 * q) == 4 * a;
    assert (2 * q + 2) * (2 * q + 2) == 4 * b;
    assert 4 * (n / 4) <= n <= 4 * (n / 4) + 3;
  }

  /** The integer nearest to the square root of `n` (halves round up, which
      never arises for an integer `n`): what `llround(sqrt((double)n))`
      computes in exact arithmetic. */
  function RoundSqrt(n: nat): (r: nat)
    ensures n == 0 ==> r == 0
    ensures n > 0 ==> r * r < n + r && n <= r * r + r
  {
    var f := FloorSqrt(n);
    RoundSqrtStep(n, f);
    if n - f * f > f then f + 1 else f
  }

  /** From the floor root to the nearest one: `f` when `n` is at most
      `f * f + f`, `f + 1` otherwise. */
  lemma RoundSqrtStep(n: nat, f: nat)
    requires f * f <= n < (f + 1) * (f + 1)
    ensures n == 0 ==> f == 0
    ensures var r := if n - f * f > f then f + 1 else f;
      n > 0 ==> r * r < n + r && n <= r * r + r
  {
    var s := f * f;
    assert (f + 1) * (f + 1) == s + 2 * f + 1;
    if n == 0 && f > 0 {
      MulMonotone(f, 1, f);
    }
  }

  /** Truncating division of a natural by a positive divisor. */
  function Div(x: nat, d: nat): nat
    requires d > 0
  {
    x / d
  }

  /** A lower bound on the rounded square root. */
  lemma RoundSqrtAtLeast(n: nat, m: nat)
    requires 0 < m && (m - 1) * (m - 1) + (m - 1) < n
    ensures m <= RoundSqrt(n)
  {
    var r := RoundSqrt(n);
    if r < m {
      SquareMonotone(r, m - 1);
    }
  }

  /** `x` rounded half up to an integer after dividing by `d`: what
      `(int)(x / d + 0.5f)` computes in exact arithmetic. */
  function RoundDiv(x: nat, d: nat): (r: nat)
    requires d > 0
    ensures 2 * d * r <= 2 * x + d < 2 * d * (r + 1)
  {
    var q := (2 * x + d) / (2 * d);
    assert 2 * d * q <= 2 * x + d < 2 * d * (q + 1) by {
      assert 2 * x + d == (2 * d) * q + (2 * x + d) % (2 * d);
    }
    q
  }

  // ---------------------------------------------------------------------
  // Lemmas: the aggregates depend only on the multiset of samples.

  lemma {:induction false} SumAppend(a: seq<nat>, b: seq<nat>)
    ensures Sum(a + b) == Sum(a) + Sum(b)
    decreases |b|
  {
    if b == [] {
      assert a + b == a;
    } else {
      assert (a + b)[..|a + b| - 1] == a + b[..|b| - 1];
      SumAppend(a, b[..|b| - 1]);
    }
  }

  lemma {:induction false} SqDevSumAppend(a: seq<nat>, b: seq<nat>, avg: nat)
    ensures SqDevSum(a + b, avg) == SqDevSum(a, avg) + SqDevSum(b, avg)
    decreases |b|
  {
    if b == [] {
      assert a + b == a;
    } else {
      assert (a + b)[..|a + b| - 1] == a + b[..|b| - 1];
      SqDevSumAppend(a, b[..|b| - 1], avg);
    }
  }

  lemma {:induction false} KeepAppend(a: seq<nat>, b: seq<nat>, t: nat)
    ensures Keep(a + b, t) == Keep(a, t) + Keep(b, t)
    decreases |b|
  {
    if b == [] {
      assert a + b == a;
    } else {
      assert (a + b)[..|a + b| - 1] == a + b[..|b| - 1];
      KeepAppend(a, b[..|b| - 1], t);
    }
  }

  /** Removing the element at `j` from `b` leaves the multiset minus it. */
  lemma RemoveAt(b: seq<nat>, j: nat)
    requires j < |b|
    ensures multiset(b[..j] + b[j + 1..]) == multiset(b) - multiset{b[j]}
  {
    assert b == b[..j] + [b[j]] + b[j + 1..];
  }

  lemma SplitAt(b: seq<nat>, j: nat)
    requires j < |b|
    ensures b == b[..j] + ([b[j]] + b[j + 1..])
  {
  }

  lemma SumRemove(b: seq<nat>, j: nat)
    requires j < |b|
    ensures Sum(b) == Sum(b[..j] + b[j + 1..]) + b[j]
  {
    SplitAt(b, j);
    SumMiddle(b[..j], b[j], b[j + 1..]);
  }

  lemma SumMiddle(l: seq<nat>, x: nat, r: seq<nat>)
    ensures Sum(l + ([x] + r)) == Sum(l + r) + x
  {
    SumAppend(l, [x] + r);
    SumAppend([x], r);
    SumAppend(l, r);
    assert Sum([x]) == x by {
      assert [x][..0] == [];
    }
  }

  lemma SqDevSumRemove(b: seq<nat>, j: nat, avg: nat)
    requires j < |b|
    ensures SqDevSum(b, avg) == SqDevSum(b[..j] + b[j + 1..], avg) + Dist(b[j], avg) * Dist(b[j], avg)
  {
    SplitAt(b, j);
    SqDevSumMiddle(b[..j], b[j], b[j + 1..], avg);
  }

  lemma SqDevSumMiddle(l: seq<nat>, x: nat, r: seq<nat>, avg: nat)
    ensures SqDevSum(l + ([x] + r), avg) == SqDevSum(l + r, avg) + Dist(x, avg) * Dist(x, avg)
  {
    SqDevSumAppend(l, [x] + r, avg);
    SqDevSumAppend([x], r, avg);
    SqDevSumAppend(l, r, avg);
    assert SqDevSum([x], avg) == Dist(x, avg) * Dist(x, avg) by {
      assert [x][..0] == [];
    }
  }

  lemma KeepRemove(b: seq<nat>, j: nat, t: nat)
    requires j < |b|
    ensures multiset(Keep(b, t)) == multiset(Keep(b[..j] + b[j + 1..], t)) + (if b[j] <= t then multiset{b[j]} else multiset{})
  {
    SplitAt(b, j);
    KeepMiddle(b[..j], b[j], b[j + 1..], t);
  }

  lemma KeepMiddle(l: seq<nat>, x: nat, r: seq<nat>, t: nat)
    ensures multiset(Keep(l + ([x] + r), t)) == multiset(Keep(l + r, t)) + (if x <= t then multiset{x} else multiset{})
  {
    KeepAppend(l, [x] + r, t);
    KeepAppend([x], r, t);
    KeepAppend(l, r, t);
    assert Keep([x], t) == if x <= t then [x] else [] by {
      assert [x][..0] == [];
    }
  }

  lemma {:induction false} SumPermutation(a: seq<nat>, b: seq<nat>)
    requires multiset(a) == multiset(b)
    ensures Sum(a) == Sum(b)
    decreases |a|
  {
    if a == [] {
      assert |multiset(b)| == 0;
    } else {
      var x := a[|a| - 1];
      var a' := a[..|a| - 1];
      assert a == a' + [x];
      assert multiset(a') == multiset(a) - multiset{x};
      assert x in multiset(b);
      var j :| 0 <= j < |b| && b[j] == x;
      RemoveAt(b, j);
      SumPermutation(a', b[..j] + b[j + 1..]);
      SumRemove(b, j);
    }
  }

  lemma {:induction false} SqDevSumPermutation(a: seq<nat>, b: seq<nat>, avg: nat)
    requires multiset(a) == multiset(b)
    ensures SqDevSum(a, avg) == SqDevSum(b, avg)
    decreases |a|
  {
    if a == [] {
      assert |multiset(b)| == 0;
    } else {
      var x := a[|a| - 1];
      var a' := a[..|a| - 1];
      assert a == a' + [x];
      assert multiset(a') == multiset(a) - multiset{x};
      assert x in multiset(b);
      var j :| 0 <= j < |b| && b[j] == x;
      RemoveAt(b, j);
      SqDevSumPermutation(a', b[..j] + b[j + 1..], avg);
      SqDevSumRemove(b, j, avg);
    }
  }

  lemma {:induction false} KeepPermutation(a: seq<nat>, b: seq<nat>, t: nat)
    requires multiset(a) == multiset(b)
    ensures multiset(Keep(a, t)) == multiset(Keep(b, t))
    decreases |a|
  {
    if a == [] {
      assert |multiset(b)| == 0;
    } else {
      var x := a[|a| - 1];
      var a' := a[..|a| - 1];
      assert a == a' + [x];
      assert multiset(a') == multiset(a) - multiset{x};
      assert x in multiset(b);
      var j :| 0 <= j < |b| && b[j] == x;
      RemoveAt(b, j);
      KeepPermutation(a', b[..j] + b[j + 1..], t);
      KeepRemove(b, j, t);
    }
  }

  lemma MinMaxPermutation(a: seq<nat>, b: seq<nat>)
    requires |a| > 0 && multiset(a) == multiset(b)
    ensures |b| > 0 && MinOf(a) == MinOf(b) && MaxOf(a) == MaxOf(b)
  {
    assert |multiset(b)| == |multiset(a)|;
    assert MinOf(a) in multiset(b) && MaxOf(a) in multiset(b);
    assert MinOf(b) in multiset(a) && MaxOf(b) in multiset(a);
  }

  /** The head of an ascending sequence is at most each of its samples. */
  lemma SortedHeadIsMin(b: seq<nat>, x: nat)
    requires Sorted(b) && x in multiset(b)
    ensures |b| > 0 && b[0] <= x
  {
    var i :| 0 <= i < |b| && b[i] == x;
  }

  lemma SortedTail(a: seq<nat>)
    requires Sorted(a) && |a| > 0
    ensures Sorted(a[1..])
  {
  }

  lemma ConsMultiset(a: seq<nat>)
    requires |a| > 0
    ensures multiset(a) == multiset{a[0]} + multiset(a[1..])
  {
    assert a == [a[0]] + a[1..];
  }

  /** Two ascending sequences holding the same samples are equal. */
  lemma {:induction false} SortedUnique(a: seq<nat>, b: seq<nat>)
    requires Sorted(a) && Sorted(b) && multiset(a) == multiset(b)
    ensures a == b
    decreases |a|
  {
    if a == [] {
      assert |multiset(b)| == 0;
    } else {
      assert a[0] in multiset(a);
      SortedHeadIsMin(b, a[0]);
      assert b[0] in multiset(b);
      SortedHeadIsMin(a, b[0]);
      ConsMultiset(a);
      ConsMultiset(b);
      assert a[0] == b[0];
      assert multiset(a[1..]) == multiset(a) - multiset{a[0]};
      assert multiset(b[1..]) == multiset(b) - multiset{b[0]};
      SortedTail(a);
      SortedTail(b);
      SortedUnique(a[1..], b[1..]);
      assert a == [a[0]] + a[1..] && b == [b[0]] + b[1..];
    }
  }

  lemma SortPermutation(a: seq<nat>, b: seq<nat>)
    requires multiset(a) == multiset(b)
    ensures Sort(a) == Sort(b)
  {
    SortedUnique(Sort(a), Sort(b));
  }

  lemma SortOfSorted(s: seq<nat>)
    requires Sorted(s)
    ensures Sort(s) == s
  {
    SortedUnique(Sort(s), s);
  }

  // ---------------------------------------------------------------------
  // Lemmas about the filter.

  /** A filter that drops nothing is the identity. */
  lemma {:induction false} KeepAll(s: seq<nat>, t: nat)
    requires forall k :: 0 <= k < |s| ==> s[k] <= t
    ensures Keep(s, t) == s
    decreases |s|
  {
    if s != [] {
      KeepAll(s[..|s| - 1], t);
    }
  }

  /** Everything the filter keeps is at most the threshold and came from `s`. */
  lemma {:induction false} KeepBounded(s: seq<nat>, t: nat)
    ensures |Keep(s, t)| <= |s|
    ensures forall x :: x in Keep(s, t) ==> x <= t && x in s
    decreases |s|
  {
    if s != [] {
      KeepBounded(s[..|s| - 1], t);
      assert s == s[..|s| - 1] + [s[|s| - 1]];
    }
  }

  /** A sample at most the threshold survives the filter. */
  lemma {:induction false} KeepContains(s: seq<nat>, t: nat, x: nat)
    requires x in s && x <= t
    ensures x in Keep(s, t)
    decreases |s|
  {
    assert s == s[..|s| - 1] + [s[|s| - 1]];
    if s[|s| - 1] != x {
      KeepContains(s[..|s| - 1], t, x);
    }
  }

  /** The filter keeps every sample exactly when its length is unchanged. */
  lemma {:induction false} KeepShrinks(s: seq<nat>, t: nat)
    ensures |Keep(s, t)| == |s| <==> forall k :: 0 <= k < |s| ==> s[k] <= t
    decreases |s|
  {
    if s != [] {
      var p := s[..|s| - 1];
      KeepShrinks(p, t);
      KeepBounded(p, t);
      assert forall k :: 0 <= k < |p| ==> p[k] == s[k];
    }
  }

  /** A sequence whose elements from position `k` on all exceed `t` keeps
      at most `k` of its elements. */
  lemma {:induction false} KeepSuffixAbove(s: seq<nat>, t: nat, k: nat)
    requires k <= |s|
    requires forall i :: k <= i < |s| ==> s[i] > t
    ensures |Keep(s, t)| <= k
    decreases |s|
  {
    if k < |s| {
      KeepSuffixAbove(s[..|s| - 1], t, k);
    } else {
      KeepBounded(s, t);
    }
  }

  /** A sorted sequence whose first `k` elements are at most `t` keeps at
      least `k` of them. */
  lemma {:induction false} KeepPrefixCount(s: seq<nat>, t: nat, k: nat)
    requires k <= |s|
    requires forall i :: 0 <= i < k ==> s[i] <= t
    ensures k <= |Keep(s, t)|
    decreases |s|
  {
    if k < |s| {
      KeepPrefixCount(s[..|s| - 1], t, k);
    } else if s != [] {
      KeepPrefixCount(s[..|s| - 1], t, k - 1);
    }
  }

  // ---------------------------------------------------------------------
  // Lemmas about the average.

  lemma MulMonotone(c: nat, a: nat, b: nat)
    requires a <= b
    ensures c * a <= c * b
  {
  }

  /** The sum lies between `count * min` and `count * max`. */
  lemma {:induction false} SumBounds(s: seq<nat>)
    requires |s| > 0
    ensures |s| * MinOf(s) <= Sum(s) <= |s| * MaxOf(s)
    decreases |s|
  {
    if |s| > 1 {
      var p := s[..|s| - 1];
      SumBounds(p);
      assert Sum(s) == Sum(p) + s[|s| - 1];
      BoundsStep(|s|, Sum(p), s[|s| - 1], MinOf(s), MaxOf(s), MinOf(p), MaxOf(p));
    }
  }

  /** One more sample within `[lo, hi]` keeps the bounds of `SumBounds`. */
  lemma BoundsStep(n: nat, sum: nat, x: nat, lo: nat, hi: nat, lo': nat, hi': nat)
    requires n >= 2 && (n - 1) * lo' <= sum <= (n - 1) * hi'
    requires lo <= lo' && lo <= x && hi' <= hi && x <= hi
    ensures n * lo <= sum + x <= n * hi
  {
    MulMonotone(n - 1, lo, lo');
    MulMonotone(n - 1, hi', hi);
    assert n * lo == (n - 1) * lo + lo;
    assert n * hi == (n - 1) * hi + hi;
  }

  /** The truncated average lies between the minimum and the maximum. */
  lemma MeanBounds(s: seq<nat>)
    requires |s| > 0
    ensures MinOf(s) <= Sum(s) / |s| <= MaxOf(s)
  {
    SumBounds(s);
    DivBetween(|s|, MinOf(s), MaxOf(s), Sum(s));
  }

  lemma DivBetween(n: nat, lo: nat, hi: nat, sum: nat)
    requires n > 0 && n * lo <= sum <= n * hi
    ensures lo <= sum / n <= hi
  {
    DivMonotone(n * lo, sum, n);
    DivMonotone(sum, n * hi, n);
    DivUnique(n * lo, n, lo, 0);
    DivUnique(n * hi, n, hi, 0);
  }

  /** The quotient is determined by a division identity. */
  lemma DivUnique(x: nat, d: nat, q: nat, r: nat)
    requires d > 0 && r < d && x == d * q + r
    ensures x / d == q
  {
    var q0 := x / d;
    assert x == d * q0 + x % d;
    if q0 < q { MulMonotone(d, q0 + 1, q); }
    if q0 > q { MulMonotone(d, q + 1, q0); }
  }

  /** `x / (a * b)` is `(x / a) / b` for positive divisors. */
  lemma DivDiv(x: nat, a: nat, b: nat)
    requires a > 0 && b > 0
    ensures x / (a * b) == (x / a) / b
  {
    var q, r := x / a, x % a;
    var q2, r2 := q / b, q % b;
    assert x == a * q + r;
    assert q == b * q2 + r2;
    assert a * q == a * (b * q2) + a * r2;
    assert a * (b * q2) == (a * b) * q2;
    MulMonotone(a, r2, b - 1);
    assert a * (b - 1) == a * b - a;
    assert 0 <= a * r2 + r < a * b;
    assert x == (a * b) * q2 + (a * r2 + r);
    DivUnique(x, a * b, q2, a * r2 + r);
  }

  lemma DivMonotone(x: nat, y: nat, d: nat)
    requires d > 0 && x <= y
    ensures x / d <= y / d
  {
    var qx, qy := x / d, y / d;
    assert x == d * qx + x % d;
    assert y == d * qy + y % d;
    if qx > qy {
      MulMonotone(d, qy + 1, qx);
    }
  }

  /** Squares are monotone on naturals. */
  lemma SquareMonotone(a: nat, b: nat)
    requires a <= b
    ensures a * a <= b * b
  {
    MulMonotone(a, a, b);
    MulMonotone(b, a, b);
  }
}
