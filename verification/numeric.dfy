/** Reductions over sequences of reals: the pandas/numpy `sum`, `mean`,
    `min`, `max`, variance and counting used across the pipeline. */
module Numeric {
  import opened Wrappers

  /** Larger of two reals (Python `max` on two arguments). */
  function Max(a: real, b: real): (m: real)
    ensures m >= a && m >= b && (m == a || m == b)
  {
    if a >= b then a else b
  }

  /** Smaller of two reals (Python `min` on two arguments). */
  function Min(a: real, b: real): (m: real)
    ensures m <= a && m <= b && (m == a || m == b)
  {
    if a <= b then a else b
  }

  function Sum(s: seq<real>): real
  {
    if |s| == 0 then 0.0 else s[0] + Sum(s[1..])
  }

  function Mean(s: seq<real>): real
    requires |s| > 0
  {
    Sum(s) / (|s| as real)
  }

  /** Smallest element (numpy `min`). */
  function MinOf(s: seq<real>): (m: real)
    requires |s| > 0
    ensures m in s
    ensures forall i :: 0 <= i < |s| ==> m <= s[i]
  {
    if |s| == 1 then s[0]
    else
      var rest := MinOf(s[1..]);
      assert forall i :: 1 <= i < |s| ==> s[i] == s[1..][i - 1];
      if s[0] <= rest then s[0] else rest
  }

  /** Largest element (numpy `max`). */
  function MaxOf(s: seq<real>): (m: real)
    requires |s| > 0
    ensures m in s
    ensures forall i :: 0 <= i < |s| ==> s[i] <= m
  {
    if |s| == 1 then s[0]
    else
      var rest := MaxOf(s[1..]);
      assert forall i :: 1 <= i < |s| ==> s[i] == s[1..][i - 1];
      if s[0] >= rest then s[0] else rest
  }

  /** Index of the first occurrence of the minimum (pandas `idxmin`). */
  function FirstArgMin(s: seq<real>): (k: nat)
    requires |s| > 0
    ensures k < |s|
    ensures forall i :: 0 <= i < |s| ==> s[k] <= s[i]
    ensures forall i :: 0 <= i < k ==> s[k] < s[i]
  {
    if |s| == 1 then 0
    else
      var k := FirstArgMin(s[1..]);
      assert forall i :: 1 <= i < |s| ==> s[i] == s[1..][i - 1];
      if s[0] <= s[1..][k] then 0 else k + 1
  }

  /** Sum of squared deviations from `m`. */
  function SumSqDev(s: seq<real>, m: real): real
  {
    if |s| == 0 then 0.0 else (s[0] - m) * (s[0] - m) + SumSqDev(s[1..], m)
  }

  /** Population variance (numpy `std` squared, `ddof = 0`). */
  function PopVariance(s: seq<real>): real
  {
    if |s| == 0 then 0.0 else SumSqDev(s, Mean(s)) / (|s| as real)
  }

  /** Sample variance (pandas `std` squared, `ddof = 1`). */
  function SampleVariance(s: seq<real>): real
    requires |s| >= 2
  {
    SumSqDev(s, Mean(s)) / ((|s| - 1) as real)
  }

  /** Number of elements strictly above `t`. */
  function CountAbove(s: seq<real>, t: real): (c: nat)
    ensures c <= |s|
  {
    if |s| == 0 then 0 else (if s[0] > t then 1 else 0) + CountAbove(s[1..], t)
  }

  lemma {:induction false} SumAppend(a: seq<real>, b: seq<real>)
    ensures Sum(a + b) == Sum(a) + Sum(b)
  {
    if |a| == 0 {
      assert a + b == b;
    } else {
      assert (a + b)[1..] == a[1..] + b;
      SumAppend(a[1..], b);
    }
  }

  lemma {:induction false} SumNonNegative(s: seq<real>)
    requires forall i :: 0 <= i < |s| ==> s[i] >= 0.0
    ensures Sum(s) >= 0.0
  {
    if |s| > 0 {
      assert forall i :: 0 <= i < |s[1..]| ==> s[1..][i] == s[i + 1];
      SumNonNegative(s[1..]);
    }
  }

  /** The sum of `n` copies of `c` is `n * c`. */
  lemma {:induction false} SumConstant(s: seq<real>, c: real)
    requires forall i :: 0 <= i < |s| ==> s[i] == c
    ensures Sum(s) == (|s| as real) * c
  {
    if |s| > 0 {
      assert forall i :: 0 <= i < |s[1..]| ==> s[1..][i] == s[i + 1];
      SumConstant(s[1..], c);
    }
  }

  /** A constant sequence has the constant as its mean. */
  lemma MeanConstant(s: seq<real>, c: real)
    requires |s| > 0
    requires forall i :: 0 <= i < |s| ==> s[i] == c
    ensures Mean(s) == c
  {
    SumConstant(s, c);
  }

  lemma SquareNonNegative(x: real)
    ensures x * x >= 0.0
  {
    if x < 0.0 {
      assert x * x == (-x) * (-x);
    }
  }

  lemma {:induction false} SumSqDevNonNegative(s: seq<real>, m: real)
    ensures SumSqDev(s, m) >= 0.0
  {
    if |s| > 0 {
      SquareNonNegative(s[0] - m);
      SumSqDevNonNegative(s[1..], m);
    }
  }

  /** Deviations of a constant sequence from its own value vanish. */
  lemma {:induction false} SumSqDevConstant(s: seq<real>, c: real)
    requires forall i :: 0 <= i < |s| ==> s[i] == c
    ensures SumSqDev(s, c) == 0.0
  {
    if |s| > 0 {
      assert forall i :: 0 <= i < |s[1..]| ==> s[1..][i] == s[i + 1];
      SumSqDevConstant(s[1..], c);
    }
  }

  /** Element bounds carry over to the sum, scaled by the length. */
  lemma {:induction false} SumBounds(s: seq<real>, lo: real, hi: real)
    requires forall i :: 0 <= i < |s| ==> lo <= s[i] <= hi
    ensures (|s| as real) * lo <= Sum(s) <= (|s| as real) * hi
  {
    if |s| > 0 {
      assert forall i :: 0 <= i < |s[1..]| ==> s[1..][i] == s[i + 1];
      SumBounds(s[1..], lo, hi);
    }
  }

  /** The mean lies between the minimum and the maximum. */
  lemma {:induction false} MeanBounds(s: seq<real>)
    requires |s| > 0
    ensures MinOf(s) <= Mean(s) <= MaxOf(s)
  {
    SumBounds(s, MinOf(s), MaxOf(s));
    QuotientBounds(Sum(s), |s| as real, MinOf(s), MaxOf(s));
  }

  lemma QuotientBounds(a: real, n: real, lo: real, hi: real)
    requires n > 0.0 && n * lo <= a <= n * hi
    ensures lo <= a / n <= hi
  {
  }

  /** Minimum over the present cells, skipping missing ones (pandas `min`
      with `skipna`); `None` when every cell is missing. */
  function MinPresent(s: seq<Option<real>>): (m: Option<real>)
    ensures m.None? <==> forall i :: 0 <= i < |s| ==> s[i].None?
    ensures m.Some? ==> m in s
    ensures m.Some? ==> forall i :: 0 <= i < |s| && s[i].Some? ==> m.value <= s[i].value
  {
    if |s| == 0 then None
    else
      var rest := MinPresent(s[1..]);
      assert forall i :: 1 <= i < |s| ==> s[i] == s[1..][i - 1];
      if s[0].None? then rest
      else if rest.None? || s[0].value <= rest.value then s[0]
      else rest
  }

  /** Subtraction that propagates a missing operand (NaN arithmetic). */
  function Minus(a: Option<real>, b: Option<real>): (r: Option<real>)
    ensures r.Some? <==> a.Some? && b.Some?
    ensures r.Some? ==> r.value + b.value == a.value
  {
    if a.Some? && b.Some? then Some(a.value - b.value) else None
  }
}
