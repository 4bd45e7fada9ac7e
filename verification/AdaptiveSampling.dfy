/**
  The adaptive sampler (logquill/plugins/adaptive_sampling_plugin.py): errors and slow spans always pass, the rest is
  sampled at a rate that follows demand and is cut off at a byte budget per window. Rates and times are reals, and
  the random number a record would draw comes with the record.
 */
module AdaptiveSampling {
  import opened OrderedDicts
  import opened Intervals

  datatype Settings = Settings(
    baseRate: real, minRate: real, maxRate: real, keepAt: int, slowMs: real, maxBytes: int, windowSeconds: real) {

    /** What the constructor checks; it does not check that `baseRate` lies between the other two. */
    predicate Valid() {
      0.0 <= baseRate <= 1.0 && 0.0 <= minRate <= maxRate <= 1.0
    }

    /** No byte of ordinary traffic passes under a negative budget. */
    function Budget(): nat {
      if maxBytes < 0 then 0 else maxBytes
    }
  }

  /** A record, what the clock shows, and what the random source yields. */
  datatype Arrival = Arrival(level: int, isSpan: bool, durationMs: Option<real>, size: nat, now: real, draw: real)

  datatype State = State(rate: real, start: real, demand: nat, emitted: nat)

  predicate AlwaysKept(c: Settings, a: Arrival) {
    a.level >= c.keepAt || (a.isSpan && a.durationMs.Some? && a.durationMs.value >= c.slowMs)
  }

  function Initial(c: Settings, start: real): State {
    State(c.baseRate, start, 0, 0)
  }

  function Min(a: real, b: real): real {
    if b < a then b else a
  }

  function Max(a: real, b: real): real {
    if b > a then b else a
  }

  /** The demand of the window that ends, as a share of the budget. */
  function Share(c: Settings, demand: nat): real {
    if c.maxBytes != 0 then demand as real / c.maxBytes as real else 0.0
  }

  function NextRate(c: Settings, rate: real, demand: nat): real {
    if Share(c, demand) < 0.5 then Min(rate * 1.2, c.maxRate)
    else if Share(c, demand) > 0.9 then Max(rate * 0.5, c.minRate)
    else rate
  }

  predicate Due(c: Settings, s: State, now: real) {
    now - s.start >= c.windowSeconds
  }

  function Roll(c: Settings, s: State, now: real): State {
    if Due(c, s, now) then State(NextRate(c, s.rate, s.demand), now, 0, 0) else s
  }

  /** An ordinary record that the rate lets through: it counts as demand. */
  predicate Drawn(c: Settings, rolled: State, a: Arrival) {
    !AlwaysKept(c, a) && a.draw < rolled.rate
  }

  /** An ordinary record that the rate and the budget let through. */
  predicate Sampled(c: Settings, rolled: State, a: Arrival) {
    Drawn(c, rolled, a) && rolled.emitted + a.size <= c.maxBytes
  }

  function Step(c: Settings, s: State, a: Arrival): State {
    var r := Roll(c, s, a.now);
    if !Drawn(c, r, a) then r
    else State(r.rate, r.start, r.demand + a.size, r.emitted + if Sampled(c, r, a) then a.size else 0)
  }

  predicate Passes(c: Settings, s: State, a: Arrival) {
    AlwaysKept(c, a) || Sampled(c, Roll(c, s, a.now), a)
  }

  /** The state after a history of records; the clock showed `start` when the plugin was made. */
  function After(c: Settings, start: real, h: seq<Arrival>): State {
    if h == [] then Initial(c, start) else Step(c, After(c, start, h[..|h| - 1]), h[|h| - 1])
  }

  lemma AfterStep(c: Settings, start: real, h: seq<Arrival>, i: nat)
    requires i < |h|
    ensures After(c, start, h[..i + 1]) == Step(c, After(c, start, h[..i]), h[i])
  {
    assert h[..i + 1][..i] == h[..i];
  }

  // ---- What the history alone says ----

  /** Neither an error nor a slow span. */
  predicate Ordinary(c: Settings, a: Arrival) {
    a.level < c.keepAt && (a.isSpan && a.durationMs.Some? ==> a.durationMs.value < c.slowMs)
  }

  /** Less than half the budget was wanted. */
  predicate Slack(c: Settings, demand: nat) {
    c.maxBytes <= 0 || 2 * demand < c.maxBytes
  }

  /** More than nine tenths of it. */
  predicate Crowded(c: Settings, demand: nat) {
    c.maxBytes > 0 && 10 * demand > 9 * c.maxBytes
  }

  /** The rate after windows that end with these demands, one after the other. */
  function RateAfter(c: Settings, rate: real, demands: seq<nat>): real {
    if demands == [] then rate
    else
      var before, demand := RateAfter(c, rate, demands[..|demands| - 1]), demands[|demands| - 1];
      if Slack(c, demand) then (if c.maxRate < before * 1.2 then c.maxRate else before * 1.2)
      else if Crowded(c, demand) then (if c.minRate > before * 0.5 then c.minRate else before * 0.5)
      else before
  }

  /** When the window opened that is open after `m` records. */
  function WindowStart(c: Settings, start: real, h: seq<Arrival>, m: nat): real
    requires m <= |h|
    decreases m, 0
  {
    if m == 0 then start else if Opens(c, start, h, m - 1) then h[m - 1].now else WindowStart(c, start, h, m - 1)
  }

  /** Record `i` finds the window over and opens the next. */
  predicate Opens(c: Settings, start: real, h: seq<Arrival>, i: nat)
    requires i < |h|
    decreases i, 1
  {
    h[i].now - WindowStart(c, start, h, i) >= c.windowSeconds
  }

  /** The position of the record with which that window began. */
  function Opened(c: Settings, start: real, h: seq<Arrival>, m: nat): (lo: nat)
    requires m <= |h|
    ensures lo <= m
  {
    if m == 0 then 0 else if Opens(c, start, h, m - 1) then m - 1 else Opened(c, start, h, m - 1)
  }

  /** The demands of the windows that have ended by the time `m` records have come. */
  function Demands(c: Settings, start: real, h: seq<Arrival>, m: nat): seq<nat>
    requires m <= |h|
    decreases m, 0
  {
    if m == 0 then []
    else
      Demands(c, start, h, m - 1) +
      (if Opens(c, start, h, m - 1) then [WantedBytes(c, start, h, Opened(c, start, h, m - 1), m - 1)] else [])
  }

  /** Record `i` is ordinary, and its draw is below the rate in force. */
  predicate Wanted(c: Settings, start: real, h: seq<Arrival>, i: nat)
    requires i < |h|
    decreases i + 1, 1
  {
    Ordinary(c, h[i]) && h[i].draw < RateAfter(c, c.baseRate, Demands(c, start, h, i + 1))
  }

  /** The sizes of the records at `lo..hi` that the rate lets through. */
  function WantedBytes(c: Settings, start: real, h: seq<Arrival>, lo: nat, hi: nat): nat
    requires lo <= hi <= |h|
    decreases hi, 2
  {
    if lo == hi then 0
    else WantedBytes(c, start, h, lo, hi - 1) + (if Wanted(c, start, h, hi - 1) then h[hi - 1].size else 0)
  }

  /** And it fits what its window has left of the budget. */
  predicate Fits(c: Settings, start: real, h: seq<Arrival>, i: nat)
    requires i < |h|
    decreases i + 1, 1
  {
    Wanted(c, start, h, i) && FittingBytes(c, start, h, Opened(c, start, h, i + 1), i) + h[i].size <= c.maxBytes
  }

  /** The sizes of the records at `lo..hi` that the rate and the budget let through. */
  function FittingBytes(c: Settings, start: real, h: seq<Arrival>, lo: nat, hi: nat): nat
    requires lo <= hi <= |h|
    decreases hi, 2
  {
    if lo >= hi then 0
    else FittingBytes(c, start, h, lo, hi - 1) + (if Fits(c, start, h, hi - 1) then h[hi - 1].size else 0)
  }

  /** What the plugin should hold after `m` records. */
  function FromHistory(c: Settings, start: real, h: seq<Arrival>, m: nat): State
    requires m <= |h|
  {
    var lo := Opened(c, start, h, m);
    State(RateAfter(c, c.baseRate, Demands(c, start, h, m)), WindowStart(c, start, h, m),
          WantedBytes(c, start, h, lo, m), FittingBytes(c, start, h, lo, m))
  }

  lemma RateAfterGrows(c: Settings, rate: real, demands: seq<nat>, demand: nat)
    ensures RateAfter(c, rate, demands + [demand]) == NextRate(c, RateAfter(c, rate, demands), demand)
  {
    assert (demands + [demand])[..|demands|] == demands;
    ShareBounds(c, demand);
  }

  lemma ShareBounds(c: Settings, demand: nat)
    ensures Share(c, demand) < 0.5 <==> Slack(c, demand)
    ensures Share(c, demand) > 0.9 <==> Crowded(c, demand)
  {
    if c.maxBytes > 0 {
      QuotientBounds(demand as real, c.maxBytes as real);
    } else if c.maxBytes < 0 {
      assert demand as real / c.maxBytes as real <= 0.0;
    }
  }

  lemma QuotientBounds(d: real, m: real)
    requires m > 0.0
    ensures d / m < 0.5 <==> 2.0 * d < m
    ensures d / m > 0.9 <==> 10.0 * d > 9.0 * m
  {
    var q := d / m;
    assert q * m == d;
  }

  /** The window in which record `m` is judged. */
  lemma RollFromHistory(c: Settings, start: real, h: seq<Arrival>, m: nat)
    requires m < |h|
    ensures Roll(c, FromHistory(c, start, h, m), h[m].now) ==
            State(RateAfter(c, c.baseRate, Demands(c, start, h, m + 1)), WindowStart(c, start, h, m + 1),
                  WantedBytes(c, start, h, Opened(c, start, h, m + 1), m),
                  FittingBytes(c, start, h, Opened(c, start, h, m + 1), m))
  {
    if Opens(c, start, h, m) {
      RateAfterGrows(c, c.baseRate, Demands(c, start, h, m), WantedBytes(c, start, h, Opened(c, start, h, m), m));
    } else {
      assert Demands(c, start, h, m) + [] == Demands(c, start, h, m);
    }
  }

  lemma StepFromHistory(c: Settings, start: real, h: seq<Arrival>, m: nat)
    requires m < |h|
    ensures Step(c, FromHistory(c, start, h, m), h[m]) == FromHistory(c, start, h, m + 1)
    ensures Passes(c, FromHistory(c, start, h, m), h[m]) <==> !Ordinary(c, h[m]) || Fits(c, start, h, m)
    ensures Sampled(c, Roll(c, FromHistory(c, start, h, m), h[m].now), h[m]) <==> Fits(c, start, h, m)
  {
    var lo := Opened(c, start, h, m + 1);
    var rolled := Roll(c, FromHistory(c, start, h, m), h[m].now);
    RollFromHistory(c, start, h, m);
    assert Drawn(c, rolled, h[m]) <==> Wanted(c, start, h, m);
    assert Sampled(c, rolled, h[m]) <==> Fits(c, start, h, m);
    assert WantedBytes(c, start, h, lo, m + 1) ==
           WantedBytes(c, start, h, lo, m) + (if Wanted(c, start, h, m) then h[m].size else 0);
    assert FittingBytes(c, start, h, lo, m + 1) ==
           FittingBytes(c, start, h, lo, m) + (if Fits(c, start, h, m) then h[m].size else 0);
  }

  /**
    After every record of every run the plugin's fields are what the history says: the rate follows the demands of
    the windows that have ended, a demand being the sizes of a window's ordinary records drawn below the rate then in
    force, and the counters are those of the open window.
   */
  lemma {:induction false} StateFromHistory(c: Settings, start: real, h: seq<Arrival>, m: nat)
    requires m <= |h|
    ensures After(c, start, h[..m]) == FromHistory(c, start, h, m)
  {
    if m != 0 {
      StateFromHistory(c, start, h, m - 1);
      AfterStep(c, start, h, m - 1);
      StepFromHistory(c, start, h, m - 1);
    }
  }

  /**
    On every run an ordinary record passes exactly if its draw is below the rate that follows from the demands of the
    windows ended by then, and it fits what its window has left of the budget; any other record passes.
   */
  lemma {:induction false} PassesIff(c: Settings, start: real, h: seq<Arrival>, i: nat)
    requires i < |h|
    ensures Passes(c, After(c, start, h[..i]), h[i]) <==>
            (Ordinary(c, h[i]) ==>
             && h[i].draw < RateAfter(c, c.baseRate, Demands(c, start, h, i + 1))
             && FittingBytes(c, start, h, Opened(c, start, h, i + 1), i) + h[i].size <= c.maxBytes)
  {
    StateFromHistory(c, start, h, i);
    StepFromHistory(c, start, h, i);
  }

  /** After the records `h`, `a` is to pass: it is not ordinary, or the rate and the budget let it through. */
  predicate ShouldPass(c: Settings, start: real, h: seq<Arrival>, a: Arrival) {
    var all := h + [a];
    Ordinary(c, a) ==>
      && a.draw < RateAfter(c, c.baseRate, Demands(c, start, all, |all|))
      && FittingBytes(c, start, all, Opened(c, start, all, |all|), |h|) + a.size <= c.maxBytes
  }

  lemma NextPasses(c: Settings, start: real, h: seq<Arrival>, a: Arrival)
    ensures Passes(c, After(c, start, h), a) <==> ShouldPass(c, start, h, a)
  {
    assert (h + [a])[..|h|] == h;
    PassesIff(c, start, h + [a], |h|);
  }

  /**
    Errors and slow spans pass at any point of any run, whatever the state of the budget, and leave no trace in it:
    unless a window is over, the state is the one any later record would have found without them.
   */
  lemma AlwaysPass(c: Settings, start: real, h: seq<Arrival>, i: nat)
    requires i < |h|
    requires
      || h[i].level >= c.keepAt
      || (h[i].isSpan && h[i].durationMs.Some? && h[i].durationMs.value >= c.slowMs)
    ensures forall s: State :: Passes(c, s, h[i])
    ensures !Opens(c, start, h, i) ==> After(c, start, h[..i + 1]) == After(c, start, h[..i])
  {
    AfterStep(c, start, h, i);
    StateFromHistory(c, start, h, i);
  }

  /**
    Within a window no more passes than the budget, and no more than is wanted; and all that is wanted passes as long
    as it is within the budget.
   */
  lemma {:induction false} WindowAccounting(c: Settings, start: real, h: seq<Arrival>, m: nat)
    requires m <= |h|
    ensures var lo := Opened(c, start, h, m);
            var wanted, fitting := WantedBytes(c, start, h, lo, m), FittingBytes(c, start, h, lo, m);
            && fitting <= c.Budget() && fitting <= wanted
            && (wanted <= c.Budget() ==> fitting == wanted)
  {
    if m != 0 {
      WindowAccounting(c, start, h, m - 1);
    }
  }

  // ---- Any interval of the window's length ----

  function Times(h: seq<Arrival>): (times: seq<real>)
    ensures |times| == |h|
  {
    seq(|h|, i requires 0 <= i < |h| => h[i].now)
  }

  function FittingSizes(c: Settings, start: real, h: seq<Arrival>): (sizes: seq<nat>)
    ensures |sizes| == |h|
  {
    seq(|h|, i requires 0 <= i < |h| => if Fits(c, start, h, i) then h[i].size else 0)
  }

  /** The bytes that are sampled at a time in `[from, to)`. */
  function SampledIn(c: Settings, start: real, h: seq<Arrival>, from: real, to: real): nat {
    SumIn(Times(h), FittingSizes(c, start, h), from, to, |h|)
  }

  /** Since the state was `s0`, `bytes` were sampled at `t` or later: in the same window, or in it and one more. */
  ghost predicate Progress(c: Settings, s0: State, s: State, t: real, bytes: nat) {
    || (s.start >= t && bytes <= c.Budget() + s.emitted)
    || (s.start == s0.start && bytes + s0.emitted == s.emitted)
  }

  lemma ProgressStep(c: Settings, s0: State, s: State, a: Arrival, t: real, bytes: nat)
    requires s.emitted <= c.Budget() && t <= a.now < t + c.windowSeconds
    requires Progress(c, s0, s, t, bytes)
    ensures Progress(c, s0, Step(c, s, a), t, bytes + (if Sampled(c, Roll(c, s, a.now), a) then a.size else 0))
  {
  }

  lemma {:induction false} ProgressRun(c: Settings, start: real, h: seq<Arrival>, t: real, lo: nat, hi: nat)
    requires lo <= hi <= |h|
    requires forall j :: lo <= j < hi ==> t <= h[j].now < t + c.windowSeconds
    ensures Progress(c, FromHistory(c, start, h, lo), FromHistory(c, start, h, hi), t, SumRange(FittingSizes(c, start, h), lo, hi))
    decreases hi
  {
    if lo < hi {
      ProgressRun(c, start, h, t, lo, hi - 1);
      WindowAccounting(c, start, h, hi - 1);
      StepFromHistory(c, start, h, hi - 1);
      ProgressStep(c, FromHistory(c, start, h, lo), FromHistory(c, start, h, hi - 1), h[hi - 1], t,
                   SumRange(FittingSizes(c, start, h), lo, hi - 1));
    }
  }

  lemma RangeBound(c: Settings, start: real, h: seq<Arrival>, t: real, lo: nat, hi: nat)
    requires lo <= hi <= |h|
    requires forall j :: lo <= j < hi ==> t <= h[j].now < t + c.windowSeconds
    ensures SumRange(FittingSizes(c, start, h), lo, hi) <= 2 * c.Budget()
  {
    ProgressRun(c, start, h, t, lo, hi);
    WindowAccounting(c, start, h, lo);
    WindowAccounting(c, start, h, hi);
  }

  /** At most twice the budget of ordinary traffic passes in any half-open interval of the window's length. */
  lemma {:induction false} TwoBudgetBound(c: Settings, start: real, h: seq<Arrival>, t: real)
    requires NonDecreasing(Times(h))
    ensures SampledIn(c, start, h, t, t + c.windowSeconds) <= 2 * c.Budget()
  {
    var lo, hi := IntervalSum(Times(h), FittingSizes(c, start, h), t, t + c.windowSeconds);
    assert forall j :: 0 <= j < |h| ==> h[j].now == Times(h)[j];
    RangeBound(c, start, h, t, lo, hi);
  }

  /** A budget's worth half a window in, and another when the next window opens. */
  function TwoBursts(c: Settings, start: real): seq<Arrival> {
    [Arrival(c.keepAt - 1, false, None, c.Budget(), start + c.windowSeconds / 2.0, 0.0),
     Arrival(c.keepAt - 1, false, None, c.Budget(), start + c.windowSeconds, 0.0)]
  }

  /** The factor of two is met, whatever the settings, as long as anything is sampled at all. */
  lemma TwoBudgetsReached(c: Settings, start: real)
    requires c.baseRate > 0.0 && c.maxRate > 0.0 && c.maxBytes >= 0 && c.windowSeconds > 0.0
    ensures var t := start + c.windowSeconds / 2.0;
            && NonDecreasing(Times(TwoBursts(c, start)))
            && SampledIn(c, start, TwoBursts(c, start), t, t + c.windowSeconds) == 2 * c.Budget()
  {
    var h := TwoBursts(c, start);
    var t := start + c.windowSeconds / 2.0;
    TwoBurstsFit(c, start);
    var times, sizes := Times(h), FittingSizes(c, start, h);
    assert sizes[0] == sizes[1] == c.Budget();
    TwoTimes(times, sizes, t, t + c.windowSeconds);
  }

  lemma TwoTimes(times: seq<real>, sizes: seq<nat>, from: real, to: real)
    requires |times| == |sizes| == 2 && from <= times[0] < to && from <= times[1] < to
    ensures SumIn(times, sizes, from, to, 2) == sizes[0] + sizes[1]
  {
    assert SumIn(times, sizes, from, to, 0) == 0;
    assert SumIn(times, sizes, from, to, 1) == sizes[0];
  }

  lemma PositiveRate(c: Settings, demand: nat)
    requires c.baseRate > 0.0 && c.maxRate > 0.0
    ensures RateAfter(c, c.baseRate, [demand]) > 0.0
  {
    assert [demand][..0] == [];
    assert RateAfter(c, c.baseRate, []) == c.baseRate;
  }

  lemma TwoBurstsFit(c: Settings, start: real)
    requires c.baseRate > 0.0 && c.maxRate > 0.0 && c.maxBytes >= 0 && c.windowSeconds > 0.0
    ensures var h := TwoBursts(c, start); Fits(c, start, h, 0) && Fits(c, start, h, 1)
  {
    var h := TwoBursts(c, start);
    assert WindowStart(c, start, h, 0) == start;
    assert !Opens(c, start, h, 0);
    assert WindowStart(c, start, h, 1) == start;
    assert Opens(c, start, h, 1);
    assert Opened(c, start, h, 1) == 0 && Opened(c, start, h, 2) == 1;
    assert Demands(c, start, h, 0) == [];
    assert Demands(c, start, h, 1) == [];
    assert RateAfter(c, c.baseRate, []) == c.baseRate;
    assert Wanted(c, start, h, 0);
    assert FittingBytes(c, start, h, 0, 0) == 0;
    assert WantedBytes(c, start, h, 0, 0) == 0;
    assert WantedBytes(c, start, h, 0, 1) == c.Budget();
    assert Demands(c, start, h, 2) == [c.Budget()];
    PositiveRate(c, c.Budget());
    assert Wanted(c, start, h, 1);
    assert FittingBytes(c, start, h, 1, 1) == 0;
  }

  // ---- The rate ----

  predicate InRange(c: Settings, rate: real) {
    c.minRate <= rate <= c.maxRate
  }

  /** A slack window raises the rate and a crowded one lowers it, unless it is at its end of the range or zero. */
  lemma NextRateInRange(c: Settings, rate: real, demand: nat)
    requires c.Valid() && InRange(c, rate)
    ensures InRange(c, NextRate(c, rate, demand))
    ensures NextRate(c, rate, demand) > rate <==> Slack(c, demand) && 0.0 < rate < c.maxRate
    ensures NextRate(c, rate, demand) < rate <==> Crowded(c, demand) && c.minRate < rate
  {
    ShareBounds(c, demand);
  }

  lemma {:induction false} RateStays(c: Settings, start: real, h: seq<Arrival>)
    requires c.Valid() && InRange(c, c.baseRate)
    ensures InRange(c, After(c, start, h).rate)
  {
    if h != [] {
      RateStays(c, start, h[..|h| - 1]);
      var s := After(c, start, h[..|h| - 1]);
      NextRateInRange(c, s.rate, s.demand);
    }
  }

  /** The rate is a probability on every run, whether or not it started in range. */
  lemma {:induction false} RateIsProbability(c: Settings, start: real, h: seq<Arrival>)
    requires c.Valid()
    ensures 0.0 <= After(c, start, h).rate <= 1.0
  {
    if h != [] {
      RateIsProbability(c, start, h[..|h| - 1]);
    }
  }

  /** The rate stays in its range over every run exactly when it starts there. */
  lemma RateStaysIff(c: Settings)
    requires c.Valid()
    ensures InRange(c, c.baseRate) <==> forall start: real, h: seq<Arrival> :: InRange(c, After(c, start, h).rate)
  {
    if InRange(c, c.baseRate) {
      forall start: real, h: seq<Arrival>
        ensures InRange(c, After(c, start, h).rate)
      {
        RateStays(c, start, h);
      }
    } else {
      assert !InRange(c, After(c, 0.0, []).rate);
    }
  }

  // ---- A base rate outside the range ----

  /** The clock shows `start` first and never goes back. */
  ghost predicate ClockFrom(start: real, h: seq<Arrival>) {
    NonDecreasing([start] + Times(h))
  }

  /** Whether the rate is sure to be in range once a window has ended. */
  predicate EntersRange(c: Settings) {
    if c.baseRate > c.maxRate then
      c.windowSeconds <= 0.0 || c.maxBytes <= 0 || (c.maxBytes == 1 && c.baseRate * 0.5 <= c.maxRate)
    else if c.baseRate < c.minRate then
      c.baseRate * 1.2 >= c.minRate && (c.windowSeconds <= 0.0 || c.maxBytes <= 1)
    else true
  }

  /** Whatever the demand of the first window, the rate after it is in range; without a length, its demand is zero. */
  lemma FirstWindowEnters(c: Settings, demand: nat)
    requires c.Valid() && EntersRange(c) && (c.windowSeconds <= 0.0 ==> demand == 0)
    ensures InRange(c, NextRate(c, c.baseRate, demand))
  {
    if c.maxBytes < 0 {
      assert Share(c, demand) <= 0.0;
    } else if c.maxBytes == 1 {
      assert Share(c, demand) == demand as real;
    }
  }

  lemma {:induction false} EnteredStays(c: Settings, start: real, h: seq<Arrival>, m: nat)
    requires c.Valid() && EntersRange(c) && ClockFrom(start, h) && m <= |h| && Demands(c, start, h, m) != []
    ensures InRange(c, RateAfter(c, c.baseRate, Demands(c, start, h, m)))
  {
    var before := Demands(c, start, h, m - 1);
    if !Opens(c, start, h, m - 1) {
      assert before + [] == before;
      EnteredStays(c, start, h, m - 1);
    } else {
      var demand := WantedBytes(c, start, h, Opened(c, start, h, m - 1), m - 1);
      RateAfterGrows(c, c.baseRate, before, demand);
      if before != [] {
        EnteredStays(c, start, h, m - 1);
        NextRateInRange(c, RateAfter(c, c.baseRate, before), demand);
      } else {
        if c.windowSeconds <= 0.0 && m > 1 {
          FirstIsDue(c, start, h, m - 1);
          assert false;
        }
        FirstWindowEnters(c, demand);
      }
    }
  }

  /** A window without a length ends with the next record. */
  lemma {:induction false} FirstIsDue(c: Settings, start: real, h: seq<Arrival>, m: nat)
    requires c.windowSeconds <= 0.0 && ClockFrom(start, h) && 1 <= m <= |h|
    ensures Demands(c, start, h, m) != []
  {
    if m > 1 {
      FirstIsDue(c, start, h, m - 1);
    } else {
      var times := [start] + Times(h);
      assert times[0] == start && times[1] == h[0].now;
      assert Opens(c, start, h, 0);
    }
  }

  /** A window with this demand, and the record that ends it. */
  function OneWindow(c: Settings, demand: nat): seq<Arrival> {
    [Arrival(c.keepAt - 1, false, None, demand, 0.0, 0.0),
     Arrival(c.keepAt - 1, false, None, 0, c.windowSeconds, 0.0)]
  }

  lemma OneWindowEnds(c: Settings, demand: nat)
    requires c.windowSeconds > 0.0 && c.baseRate > 0.0
    ensures var h := OneWindow(c, demand);
            && ClockFrom(0.0, h) && Demands(c, 0.0, h, |h|) != []
            && After(c, 0.0, h).rate == NextRate(c, c.baseRate, demand)
  {
    var h := OneWindow(c, demand);
    AfterStep(c, 0.0, h, 0);
    AfterStep(c, 0.0, h, 1);
    assert h[..0] == [] && h[..2] == h;
    assert Opens(c, 0.0, h, 1);
    assert Demands(c, 0.0, h, 2) != [];
    var s := After(c, 0.0, h[..1]);
    assert s.rate == c.baseRate && s.start == 0.0 && s.demand == demand;
  }

  /** An idle window, and the record that ends it. */
  lemma IdleWindowEnds(c: Settings) returns (h: seq<Arrival>)
    ensures ClockFrom(0.0, h) && Demands(c, 0.0, h, |h|) != []
    ensures After(c, 0.0, h).rate == NextRate(c, c.baseRate, 0)
  {
    h := [Arrival(c.keepAt - 1, false, None, 0, Max(c.windowSeconds, 0.0), 0.0)];
    AfterStep(c, 0.0, h, 0);
    assert h[..0] == [] && h[..1] == h;
    assert Opens(c, 0.0, h, 0);
    assert Demands(c, 0.0, h, 1) != [];
  }

  /** A demand between half and nine tenths of the budget, which leaves the rate as it is. */
  lemma MiddlingShare(c: Settings)
    requires c.maxBytes >= 2
    ensures 0.5 <= Share(c, (c.maxBytes + 1) / 2) <= 0.9
  {
    QuotientBetween(((c.maxBytes + 1) / 2) as real, c.maxBytes as real, 0.5, 0.9);
  }

  lemma QuotientBetween(d: real, m: real, lo: real, hi: real)
    requires m > 0.0 && lo * m <= d <= hi * m
    ensures lo <= d / m <= hi
  {
    assert lo == lo * m / m && hi == hi * m / m;
  }

  lemma StaysOutside(c: Settings) returns (h: seq<Arrival>)
    requires c.Valid() && !EntersRange(c)
    ensures ClockFrom(0.0, h) && Demands(c, 0.0, h, |h|) != [] && !InRange(c, After(c, 0.0, h).rate)
  {
    if c.baseRate < c.minRate && c.baseRate * 1.2 < c.minRate {
      h := IdleWindowEnds(c);
    } else if c.maxBytes >= 2 {
      MiddlingShare(c);
      h := OneWindow(c, (c.maxBytes + 1) / 2);
      OneWindowEnds(c, (c.maxBytes + 1) / 2);
    } else {
      h := OneWindow(c, 1);
      OneWindowEnds(c, 1);
    }
  }

  /**
    Whether the rate is in range from the end of the first window on, over every run whose clock does not go back,
    is settled by the settings alone. With a window length and a budget of two bytes or more it takes a base rate in
    range: a demand between half and nine tenths of the budget leaves the rate where it is.
   */
  lemma RateEntersIff(c: Settings)
    requires c.Valid()
    ensures EntersRange(c) <==>
            forall start: real, h: seq<Arrival> :: ClockFrom(start, h) && Demands(c, start, h, |h|) != [] ==>
              InRange(c, After(c, start, h).rate)
    ensures c.windowSeconds > 0.0 && c.maxBytes >= 2 ==> (EntersRange(c) <==> InRange(c, c.baseRate))
  {
    if EntersRange(c) {
      forall start: real, h: seq<Arrival> | ClockFrom(start, h) && Demands(c, start, h, |h|) != []
        ensures InRange(c, After(c, start, h).rate)
      {
        assert h[..|h|] == h;
        StateFromHistory(c, start, h, |h|);
        EnteredStays(c, start, h, |h|);
      }
    } else {
      var h := StaysOutside(c);
    }
  }

  /** `rate` raised by a fifth, `n` times over. */
  function Raised(rate: real, n: nat): real {
    if n == 0 then rate else Raised(rate, n - 1) * 1.2
  }

  /** `rate` halved, `n` times over. */
  function Halved(rate: real, n: nat): real {
    if n == 0 then rate else Halved(rate, n - 1) * 0.5
  }

  lemma {:induction false} SlackDemandsRaise(c: Settings, rate: real, demands: seq<nat>)
    requires c.Valid() && InRange(c, rate) && forall d :: d in demands ==> Slack(c, d)
    ensures RateAfter(c, rate, demands) == Min(Raised(rate, |demands|), c.maxRate)
  {
    if demands != [] {
      SlackDemandsRaise(c, rate, demands[..|demands| - 1]);
      assert demands[|demands| - 1] in demands;
    }
  }

  lemma {:induction false} CrowdedDemandsHalve(c: Settings, rate: real, demands: seq<nat>)
    requires c.Valid() && InRange(c, rate) && forall d :: d in demands ==> Crowded(c, d)
    ensures RateAfter(c, rate, demands) == Max(Halved(rate, |demands|), c.minRate)
  {
    if demands != [] {
      CrowdedDemandsHalve(c, rate, demands[..|demands| - 1]);
      assert demands[|demands| - 1] in demands;
    }
  }

  /** On a run whose windows all end slack, the rate has grown by a fifth for each of them, up to the maximum. */
  lemma {:induction false} SlackWindowsRaise(c: Settings, start: real, h: seq<Arrival>)
    requires c.Valid() && InRange(c, c.baseRate) && forall d :: d in Demands(c, start, h, |h|) ==> Slack(c, d)
    ensures After(c, start, h).rate == Min(Raised(c.baseRate, |Demands(c, start, h, |h|)|), c.maxRate)
  {
    assert h[..|h|] == h;
    StateFromHistory(c, start, h, |h|);
    SlackDemandsRaise(c, c.baseRate, Demands(c, start, h, |h|));
  }

  /** On a run whose windows all end crowded, the rate has halved for each of them, down to the minimum. */
  lemma {:induction false} CrowdedWindowsHalve(c: Settings, start: real, h: seq<Arrival>)
    requires c.Valid() && InRange(c, c.baseRate) && forall d :: d in Demands(c, start, h, |h|) ==> Crowded(c, d)
    ensures After(c, start, h).rate == Max(Halved(c.baseRate, |Demands(c, start, h, |h|)|), c.minRate)
  {
    assert h[..|h|] == h;
    StateFromHistory(c, start, h, |h|);
    CrowdedDemandsHalve(c, c.baseRate, Demands(c, start, h, |h|));
  }

  // ---- The object ----

  class AdaptiveSamplingPlugin {
    const settings: Settings
    var rate: real
    var windowStart: real
    var windowDemandBytes: nat
    var windowEmittedBytes: nat
    /** When the plugin was made, and every record seen since. */
    ghost var made: real
    ghost var history: seq<Arrival>

    ghost function Abstract(): State
      reads this
    {
      State(rate, windowStart, windowDemandBytes, windowEmittedBytes)
    }

    ghost predicate Valid()
      reads this
    {
      settings.Valid() && Abstract() == After(settings, made, history)
    }

    /** The original raises ValueError for settings that are not valid. */
    constructor (settings: Settings, now: real)
      requires 0.0 <= settings.baseRate <= 1.0 && 0.0 <= settings.minRate <= 1.0 && 0.0 <= settings.maxRate <= 1.0
      requires settings.minRate <= settings.maxRate
      ensures Valid() && history == [] && this.settings == settings && made == now
    {
      this.settings := settings;
      rate, windowStart, windowDemandBytes, windowEmittedBytes := settings.baseRate, now, 0, 0;
      made, history := now, [];
    }

    method RollWindowIfDue(now: real)
      modifies this
      ensures Abstract() == Roll(settings, old(Abstract()), now)
      ensures made == old(made) && history == old(history)
    {
      var elapsed := now - windowStart;
      if elapsed < settings.windowSeconds {
        return;
      }
      var demand := if settings.maxBytes != 0 then windowDemandBytes as real / settings.maxBytes as real else 0.0;
      if demand < 0.5 {
        rate := Min(rate * 1.2, settings.maxRate);
      } else if demand > 0.9 {
        rate := Max(rate * 0.5, settings.minRate);
      }
      windowStart := now;
      windowDemandBytes, windowEmittedBytes := 0, 0;
    }

    method BeforeLog(a: Arrival) returns (passes: bool)
      requires Valid()
      modifies this
      ensures Valid() && history == old(history) + [a] && made == old(made)
      ensures passes == ShouldPass(settings, made, old(history), a)
    {
      NextPasses(settings, made, history, a);
      assert (history + [a])[..|history|] == history;
      history := history + [a];
      RollWindowIfDue(a.now);
      if AlwaysKept(settings, a) {
        return true;
      }
      if a.draw >= rate {
        return false;
      }
      windowDemandBytes := windowDemandBytes + a.size;
      if windowEmittedBytes + a.size > settings.maxBytes {
        return false;
      }
      windowEmittedBytes := windowEmittedBytes + a.size;
      return true;
    }
  }
}
