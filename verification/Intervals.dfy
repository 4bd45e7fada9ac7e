/** Readings of a clock that never goes back, shared by the two windowed limiters. */
module Intervals {

  ghost predicate NonDecreasing(times: seq<real>) {
    forall i, j :: 0 <= i < j < |times| ==> times[i] <= times[j]
  }

  /** The readings of a half-open interval stand together. */
  lemma IntervalIsRange(times: seq<real>, from: real, to: real) returns (lo: nat, hi: nat)
    requires NonDecreasing(times)
    ensures lo <= hi <= |times|
    ensures forall j :: 0 <= j < |times| ==> (lo <= j < hi <==> from <= times[j] < to)
  {
    lo := 0;
    while lo < |times| && times[lo] < from
      invariant lo <= |times| && forall j :: 0 <= j < lo ==> times[j] < from
    {
      lo := lo + 1;
    }
    hi := lo;
    while hi < |times| && times[hi] < to
      invariant lo <= hi <= |times| && forall j :: lo <= j < hi ==> times[j] < to
    {
      hi := hi + 1;
    }
  }

  /** The weights at positions `lo..hi`, added up. */
  function SumRange(weights: seq<nat>, lo: nat, hi: nat): nat
    requires lo <= hi <= |weights|
    decreases hi
  {
    if lo == hi then 0 else SumRange(weights, lo, hi - 1) + weights[hi - 1]
  }

  /** The weights among the first `m` whose time lies in `[from, to)`, added up. */
  function SumIn(times: seq<real>, weights: seq<nat>, from: real, to: real, m: nat): nat
    requires m <= |times| == |weights|
  {
    if m == 0 then 0
    else SumIn(times, weights, from, to, m - 1) + (if from <= times[m - 1] < to then weights[m - 1] else 0)
  }

  lemma {:induction false} RangeSum(times: seq<real>, weights: seq<nat>, from: real, to: real, lo: nat, hi: nat, m: nat)
    requires lo <= hi <= |times| == |weights| && m <= |times|
    requires forall j :: 0 <= j < |times| ==> (lo <= j < hi <==> from <= times[j] < to)
    ensures SumIn(times, weights, from, to, m) ==
            if m <= lo then 0 else if m <= hi then SumRange(weights, lo, m) else SumRange(weights, lo, hi)
    decreases m
  {
    if m != 0 {
      RangeSum(times, weights, from, to, lo, hi, m - 1);
    }
  }

  /** What falls into a half-open interval is a stretch of the sequence. */
  lemma IntervalSum(times: seq<real>, weights: seq<nat>, from: real, to: real) returns (lo: nat, hi: nat)
    requires NonDecreasing(times) && |weights| == |times|
    ensures lo <= hi <= |times| && forall j :: lo <= j < hi ==> from <= times[j] < to
    ensures SumIn(times, weights, from, to, |times|) == SumRange(weights, lo, hi)
  {
    lo, hi := IntervalIsRange(times, from, to);
    RangeSum(times, weights, from, to, lo, hi, |times|);
    assert lo == hi ==> SumRange(weights, lo, hi) == 0;
  }

  /** All weights within are zero. */
  ghost predicate ZeroIn(times: seq<real>, weights: seq<nat>, from: real, to: real)
    requires |times| == |weights|
  {
    forall j :: 0 <= j < |times| && from <= times[j] < to ==> weights[j] == 0
  }

  lemma {:induction false} AllZero(times: seq<real>, weights: seq<nat>, from: real, to: real, m: nat)
    requires m <= |times| == |weights| && ZeroIn(times, weights, from, to)
    ensures SumIn(times, weights, from, to, m) == 0
  {
    if m != 0 {
      AllZero(times, weights, from, to, m - 1);
    }
  }

  /** All weights are one, and all times but the first are within. */
  lemma {:induction false} AllButFirst(times: seq<real>, weights: seq<nat>, from: real, to: real, m: nat)
    requires 1 <= m <= |times| == |weights| && times[0] < from
    requires forall j :: 1 <= j < m ==> from <= times[j] < to && weights[j] == 1
    ensures SumIn(times, weights, from, to, m) == m - 1
  {
    if m == 1 {
      assert SumIn(times, weights, from, to, 0) == 0;
    } else {
      AllButFirst(times, weights, from, to, m - 1);
    }
  }
}
