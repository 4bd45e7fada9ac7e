/**
  Alert deduplication (logquill/plugins/alerting_plugin.py) over every interleaving of records, timer firings and
  `close`. Each locked section is one step; a timer may fire at any moment, and `close` may come too late to cancel
  one. Every window ever opened keeps its place in `ledger`, and every record its place in `fates`, so that alerts
  and counts can be compared with what was logged.
 */
module Alerting {
  import opened OrderedDicts
  import opened Sequences

  datatype Settings = Settings(threshold: int, maxTrackedKeys: int) {
    function Cap(): nat {
      if maxTrackedKeys < 0 then 0 else maxTrackedKeys
    }
  }

  datatype Status = Open | Flushed | Abandoned

  /** A window: its key, its first record and how many records matched it. */
  datatype Entry<K, R> = Entry(key: K, record: R, count: nat, status: Status)

  /** What became of a record at or above the threshold: counted in a window, or refused. */
  datatype Fate<K, R> = Fate(key: K, record: R, window: Option<nat>)

  datatype Alert<R> = Alert(window: nat, record: R, occurrences: nat)

  datatype State<K(==,!new), R> = State(
    windows: map<K, nat>,          // the open window of each key
    timers: map<nat, K>,           // by window: timers that have not run yet
    doomed: set<nat>,              // timers that `close` is about to cancel
    ledger: seq<Entry<K, R>>,
    fates: seq<Fate<K, R>>,
    alerts: seq<Alert<R>>)

  datatype Step<K, R> =
    | Log(level: int, key: K, record: R)
    | Fire(window: nat)                     // the locked part of `_flush`, and its alert
    | Close                                 // the locked part of `close`
    | Cancel(window: nat, inTime: bool)     // `timer.cancel()`, which does nothing to a timer already running

  function Initial<K(==,!new), R>(): State<K, R> {
    State(map[], map[], {}, [], [], [])
  }

  function DoLog<K(==,!new), R>(c: Settings, s: State<K, R>, level: int, key: K, record: R): State<K, R> {
    if level < c.threshold then s
    else if key in s.windows then
      var w := s.windows[key];
      s.(ledger := if w < |s.ledger| then s.ledger[w := s.ledger[w].(count := s.ledger[w].count + 1)] else s.ledger,
         fates := s.fates + [Fate(key, record, Some(w))])
    else if |s.windows| >= c.maxTrackedKeys then s.(fates := s.fates + [Fate(key, record, None)])
    else
      var w := |s.ledger|;
      s.(windows := s.windows[key := w], timers := s.timers[w := key],
         ledger := s.ledger + [Entry(key, record, 1, Open)],
         fates := s.fates + [Fate(key, record, Some(w))],
         alerts := s.alerts + [Alert(w, record, 1)])
  }

  function FollowUp<K, R>(w: nat, e: Entry<K, R>): seq<Alert<R>> {
    if e.count <= 1 then [] else [Alert(w, e.record, e.count)]
  }

  function DoFire<K(==,!new), R>(s: State<K, R>, window: nat): State<K, R> {
    if window !in s.timers then s
    else
      var key := s.timers[window];
      var s' := s.(timers := s.timers - {window});
      if key !in s.windows || s.windows[key] >= |s.ledger| then s'
      else
        var w := s.windows[key];
        s'.(windows := s.windows - {key},
            ledger := s.ledger[w := s.ledger[w].(status := Flushed)],
            alerts := s.alerts + FollowUp(w, s.ledger[w]))
  }

  function Abandon<K, R>(ledger: seq<Entry<K, R>>): (r: seq<Entry<K, R>>)
    ensures |r| == |ledger|
  {
    seq(|ledger|, i requires 0 <= i < |ledger| =>
      if ledger[i].status == Open then ledger[i].(status := Abandoned) else ledger[i])
  }

  function DoClose<K(==,!new), R>(s: State<K, R>): State<K, R> {
    s.(windows := map[], ledger := Abandon(s.ledger), doomed := s.doomed + s.windows.Values)
  }

  function DoCancel<K(==,!new), R>(s: State<K, R>, window: nat, inTime: bool): State<K, R> {
    if window !in s.doomed then s
    else s.(doomed := s.doomed - {window}, timers := if inTime then s.timers - {window} else s.timers)
  }

  function Apply<K(==,!new), R>(c: Settings, s: State<K, R>, step: Step<K, R>): State<K, R> {
    match step
    case Log(level, key, record) => DoLog(c, s, level, key, record)
    case Fire(window) => DoFire(s, window)
    case Close => DoClose(s)
    case Cancel(window, inTime) => DoCancel(s, window, inTime)
  }

  function After<K(==,!new), R>(c: Settings, steps: seq<Step<K, R>>): State<K, R> {
    if steps == [] then Initial() else Apply(c, After(c, steps[..|steps| - 1]), steps[|steps| - 1])
  }

  lemma AfterStep<K(!new), R(!new)>(c: Settings, steps: seq<Step<K, R>>, i: nat)
    requires i < |steps|
    ensures After(c, steps[..i + 1]) == Apply(c, After(c, steps[..i]), steps[i])
  {
    assert steps[..i + 1][..i] == steps[..i];
  }

  // ---- The table and its timers ----

  /** Every open window has its place in the ledger and a timer of its own still to run. */
  ghost predicate TableInv<K(!new), R(!new)>(s: State<K, R>) {
    forall k :: k in s.windows ==>
      var w := s.windows[k];
      w < |s.ledger| && s.ledger[w].key == k && s.ledger[w].status == Open && w in s.timers && s.timers[w] == k
  }

  ghost predicate LedgerInv<K(!new), R(!new)>(s: State<K, R>) {
    forall w :: 0 <= w < |s.ledger| && s.ledger[w].status == Open ==>
      s.ledger[w].key in s.windows && s.windows[s.ledger[w].key] == w
  }

  /** Every timer is that of a window, and only abandoned windows have their timers cancelled. */
  ghost predicate TimerInv<K(!new), R(!new)>(s: State<K, R>) {
    && (forall w :: w in s.timers ==> w < |s.ledger| && s.ledger[w].key == s.timers[w])
    && (forall w :: w in s.doomed ==> w < |s.ledger| && s.ledger[w].status == Abandoned)
  }

  ghost predicate WindowsInv<K(!new), R(!new)>(c: Settings, s: State<K, R>) {
    |s.windows| <= c.Cap() && TableInv(s) && LedgerInv(s) && TimerInv(s)
  }

  ghost predicate Opens<K(!new), R(!new)>(c: Settings, s: State<K, R>, level: int, key: K) {
    level >= c.threshold && key !in s.windows && |s.windows| < c.maxTrackedKeys
  }

  lemma OpensTable<K(!new), R(!new)>(c: Settings, s: State<K, R>, level: int, key: K, record: R)
    requires TableInv(s) && Opens(c, s, level, key)
    ensures TableInv(DoLog(c, s, level, key, record))
    ensures |DoLog(c, s, level, key, record).windows| == |s.windows| + 1
  {
    assert DoLog(c, s, level, key, record).windows.Keys == s.windows.Keys + {key};
  }

  lemma OpensLedger<K(!new), R(!new)>(c: Settings, s: State<K, R>, level: int, key: K, record: R)
    requires LedgerInv(s) && Opens(c, s, level, key)
    ensures LedgerInv(DoLog(c, s, level, key, record))
  {
  }

  lemma OpensTimer<K(!new), R(!new)>(c: Settings, s: State<K, R>, level: int, key: K, record: R)
    requires TimerInv(s) && Opens(c, s, level, key)
    ensures TimerInv(DoLog(c, s, level, key, record))
  {
  }

  lemma CountsInWindow<K(!new), R(!new)>(c: Settings, s: State<K, R>, level: int, key: K, record: R)
    requires TableInv(s) && LedgerInv(s) && TimerInv(s)
    requires level >= c.threshold && key in s.windows
    ensures var s' := DoLog(c, s, level, key, record);
            s'.windows == s.windows && TableInv(s') && LedgerInv(s') && TimerInv(s')
  {
  }

  lemma LogWindows<K(!new), R(!new)>(c: Settings, s: State<K, R>, level: int, key: K, record: R)
    requires WindowsInv(c, s)
    ensures WindowsInv(c, DoLog(c, s, level, key, record))
  {
    if level >= c.threshold {
      if key in s.windows {
        CountsInWindow(c, s, level, key, record);
      } else if |s.windows| < c.maxTrackedKeys {
        OpensTable(c, s, level, key, record);
        OpensLedger(c, s, level, key, record);
        OpensTimer(c, s, level, key, record);
      }
    }
  }

  lemma FireTable<K(!new), R(!new)>(s: State<K, R>, window: nat)
    requires TableInv(s) && LedgerInv(s) && TimerInv(s)
    ensures TableInv(DoFire(s, window)) && LedgerInv(DoFire(s, window))
  {
    if window in s.timers {
      assert s.ledger[window].key == s.timers[window];
    }
  }

  lemma FireTimers<K(!new), R(!new)>(s: State<K, R>, window: nat)
    requires TableInv(s) && LedgerInv(s) && TimerInv(s)
    ensures TimerInv(DoFire(s, window)) && DoFire(s, window).windows.Keys <= s.windows.Keys
  {
    if window in s.timers {
      assert s.ledger[window].key == s.timers[window];
    }
  }

  lemma FireWindows<K(!new), R(!new)>(c: Settings, s: State<K, R>, window: nat)
    requires WindowsInv(c, s)
    ensures WindowsInv(c, DoFire(s, window))
  {
    FireTable(s, window);
    FireTimers(s, window);
    SubsetSize(DoFire(s, window).windows.Keys, s.windows.Keys);
  }

  lemma CloseTimers<K(!new), R(!new)>(s: State<K, R>)
    requires TableInv(s) && TimerInv(s)
    ensures TimerInv(DoClose(s))
  {
    var s' := DoClose(s);
    forall w | w in s'.doomed
      ensures w < |s'.ledger| && s'.ledger[w].status == Abandoned
    {
      if w !in s.doomed {
        var k :| k in s.windows && s.windows[k] == w;
      }
    }
  }

  lemma CloseWindows<K(!new), R(!new)>(c: Settings, s: State<K, R>)
    requires WindowsInv(c, s)
    ensures WindowsInv(c, DoClose(s))
  {
    CloseTimers(s);
    assert |DoClose(s).windows| == 0;
  }

  lemma StepWindows<K(!new), R(!new)>(c: Settings, s: State<K, R>, step: Step<K, R>)
    requires WindowsInv(c, s)
    ensures WindowsInv(c, Apply(c, s, step))
  {
    match step
    case Log(level, key, record) => LogWindows(c, s, level, key, record);
    case Fire(window) => FireWindows(c, s, window);
    case Close => CloseWindows(c, s);
    case Cancel(window, inTime) =>
  }

  // ---- Counts ----

  function CountOf<K, R>(fates: seq<Fate<K, R>>, w: nat): nat {
    if fates == [] then 0
    else CountOf(fates[..|fates| - 1], w) + if fates[|fates| - 1].window == Some(w) then 1 else 0
  }

  function Refused<K, R>(fates: seq<Fate<K, R>>): nat {
    if fates == [] then 0
    else Refused(fates[..|fates| - 1]) + if fates[|fates| - 1].window == None then 1 else 0
  }

  lemma OneMoreFate<K, R>(fates: seq<Fate<K, R>>, f: Fate<K, R>, w: nat)
    ensures CountOf(fates + [f], w) == CountOf(fates, w) + if f.window == Some(w) then 1 else 0
    ensures Refused(fates + [f]) == Refused(fates) + if f.window == None then 1 else 0
  {
    assert (fates + [f])[..|fates|] == fates;
  }

  lemma {:induction false} NoFate<K, R>(fates: seq<Fate<K, R>>, w: nat)
    requires forall i :: 0 <= i < |fates| ==> fates[i].window != Some(w)
    ensures CountOf(fates, w) == 0
  {
    if fates != [] {
      NoFate(fates[..|fates| - 1], w);
    }
  }

  /** A record is counted only in a window of its own key. */
  ghost predicate FatesInv<K(!new), R(!new)>(s: State<K, R>) {
    forall i :: 0 <= i < |s.fates| && s.fates[i].window.Some? ==>
      s.fates[i].window.value < |s.ledger| && s.ledger[s.fates[i].window.value].key == s.fates[i].key
  }

  /** The count of a window is the number of records that fell into it. */
  ghost predicate CountsInv<K(!new), R(!new)>(s: State<K, R>) {
    forall w :: 0 <= w < |s.ledger| ==> s.ledger[w].count == CountOf(s.fates, w) >= 1
  }

  lemma LogFates<K(!new), R(!new)>(c: Settings, s: State<K, R>, level: int, key: K, record: R)
    requires TableInv(s) && FatesInv(s)
    ensures FatesInv(DoLog(c, s, level, key, record))
  {
  }

  lemma LogCountOld<K(!new), R(!new)>(c: Settings, s: State<K, R>, level: int, key: K, record: R, w: nat)
    requires level >= c.threshold && w < |s.ledger| && s.ledger[w].count == CountOf(s.fates, w) >= 1
    requires key in s.windows ==> s.windows[key] < |s.ledger|
    ensures var s' := DoLog(c, s, level, key, record); s'.ledger[w].count == CountOf(s'.fates, w) >= 1
  {
    OneMoreFate(s.fates, DoLog(c, s, level, key, record).fates[|s.fates|], w);
  }

  lemma LogCountNew<K(!new), R(!new)>(c: Settings, s: State<K, R>, level: int, key: K, record: R)
    requires FatesInv(s) && Opens(c, s, level, key)
    ensures var s' := DoLog(c, s, level, key, record); var w := |s.ledger|; s'.ledger[w].count == CountOf(s'.fates, w) >= 1
  {
    OneMoreFate(s.fates, Fate(key, record, Some(|s.ledger|)), |s.ledger|);
    NoFate(s.fates, |s.ledger|);
  }

  lemma LogCounts<K(!new), R(!new)>(c: Settings, s: State<K, R>, level: int, key: K, record: R)
    requires TableInv(s) && FatesInv(s) && CountsInv(s)
    ensures CountsInv(DoLog(c, s, level, key, record))
  {
    if level >= c.threshold {
      forall w | 0 <= w < |DoLog(c, s, level, key, record).ledger|
        ensures var s' := DoLog(c, s, level, key, record); s'.ledger[w].count == CountOf(s'.fates, w) >= 1
      {
        if w < |s.ledger| {
          LogCountOld(c, s, level, key, record, w);
        } else {
          LogCountNew(c, s, level, key, record);
        }
      }
    }
  }

  /** The record of the first match of window `w`. */
  function FirstOf<K, R>(fates: seq<Fate<K, R>>, w: nat): Option<R> {
    if fates == [] then None
    else
      var before := FirstOf(fates[..|fates| - 1], w);
      var last := fates[|fates| - 1];
      if before.Some? then before else if last.window == Some(w) then Some(last.record) else None
  }

  /** A window remembers its first match. */
  ghost predicate FirstInv<K(!new), R(!new)>(s: State<K, R>) {
    forall w :: 0 <= w < |s.ledger| ==> FirstOf(s.fates, w) == Some(s.ledger[w].record)
  }

  lemma {:induction false} NoFirst<K, R>(fates: seq<Fate<K, R>>, w: nat)
    requires forall i :: 0 <= i < |fates| ==> fates[i].window != Some(w)
    ensures FirstOf(fates, w) == None
  {
    if fates != [] {
      NoFirst(fates[..|fates| - 1], w);
    }
  }

  lemma LogFirst<K(!new), R(!new)>(c: Settings, s: State<K, R>, level: int, key: K, record: R, w: nat)
    requires FatesInv(s) && FirstInv(s) && level >= c.threshold && w < |DoLog(c, s, level, key, record).ledger|
    ensures var s' := DoLog(c, s, level, key, record); FirstOf(s'.fates, w) == Some(s'.ledger[w].record)
  {
    var s' := DoLog(c, s, level, key, record);
    assert s'.fates[..|s.fates|] == s.fates;
    if w == |s.ledger| {
      NoFirst(s.fates, w);
    } else {
      assert FirstOf(s.fates, w) == Some(s.ledger[w].record);
    }
  }

  lemma StepFirst<K(!new), R(!new)>(c: Settings, s: State<K, R>, step: Step<K, R>)
    requires TableInv(s) && FatesInv(s) && FirstInv(s)
    ensures FirstInv(Apply(c, s, step))
  {
    match step
    case Log(level, key, record) =>
      if level >= c.threshold {
        forall w | 0 <= w < |DoLog(c, s, level, key, record).ledger|
          ensures var s' := DoLog(c, s, level, key, record); FirstOf(s'.fates, w) == Some(s'.ledger[w].record)
        {
          LogFirst(c, s, level, key, record, w);
        }
      }
    case Fire(window) =>
    case Close =>
    case Cancel(window, inTime) =>
  }

  lemma StepCounts<K(!new), R(!new)>(c: Settings, s: State<K, R>, step: Step<K, R>)
    requires TableInv(s) && FatesInv(s) && CountsInv(s)
    ensures FatesInv(Apply(c, s, step)) && CountsInv(Apply(c, s, step))
  {
    match step
    case Log(level, key, record) =>
      LogFates(c, s, level, key, record);
      LogCounts(c, s, level, key, record);
    case Fire(window) =>
    case Close =>
    case Cancel(window, inTime) =>
  }

  // ---- Alerts ----

  function AlertsOf<R>(alerts: seq<Alert<R>>, w: nat): seq<Alert<R>> {
    if alerts == [] then []
    else
      var last := alerts[|alerts| - 1];
      AlertsOf(alerts[..|alerts| - 1], w) + if last.window == w then [last] else []
  }

  lemma OneMoreAlert<R>(alerts: seq<Alert<R>>, a: Alert<R>, w: nat)
    ensures AlertsOf(alerts + [a], w) == AlertsOf(alerts, w) + if a.window == w then [a] else []
  {
    assert (alerts + [a])[..|alerts|] == alerts;
  }

  lemma {:induction false} NoAlert<R>(alerts: seq<Alert<R>>, w: nat)
    requires forall i :: 0 <= i < |alerts| ==> alerts[i].window != w
    ensures AlertsOf(alerts, w) == []
  {
    if alerts != [] {
      NoAlert(alerts[..|alerts| - 1], w);
    }
  }

  /** One alert for the first record, and one more with the final count if the window was flushed with several. */
  function Due<K, R>(w: nat, e: Entry<K, R>): seq<Alert<R>> {
    [Alert(w, e.record, 1)] + if e.status == Flushed then FollowUp(w, e) else []
  }

  ghost predicate AlertsInv<K(!new), R(!new)>(s: State<K, R>) {
    && (forall i :: 0 <= i < |s.alerts| ==> s.alerts[i].window < |s.ledger|)
    && (forall w :: 0 <= w < |s.ledger| ==> AlertsOf(s.alerts, w) == Due(w, s.ledger[w]))
  }

  lemma LogAlert<K(!new), R(!new)>(c: Settings, s: State<K, R>, level: int, key: K, record: R, w: nat)
    requires AlertsInv(s) && Opens(c, s, level, key) && w <= |s.ledger|
    ensures var s' := DoLog(c, s, level, key, record); AlertsOf(s'.alerts, w) == Due(w, s'.ledger[w])
  {
    OneMoreAlert(s.alerts, Alert(|s.ledger|, record, 1), w);
    if w == |s.ledger| {
      NoAlert(s.alerts, w);
    } else {
      assert AlertsOf(s.alerts, w) == Due(w, s.ledger[w]);
    }
  }

  lemma LogAlerts<K(!new), R(!new)>(c: Settings, s: State<K, R>, level: int, key: K, record: R)
    requires TableInv(s) && AlertsInv(s)
    ensures AlertsInv(DoLog(c, s, level, key, record))
  {
    if Opens(c, s, level, key) {
      forall w | 0 <= w < |DoLog(c, s, level, key, record).ledger|
        ensures var s' := DoLog(c, s, level, key, record); AlertsOf(s'.alerts, w) == Due(w, s'.ledger[w])
      {
        LogAlert(c, s, level, key, record, w);
      }
    }
  }

  lemma FireAlerts<K(!new), R(!new)>(s: State<K, R>, window: nat)
    requires TableInv(s) && AlertsInv(s)
    ensures AlertsInv(DoFire(s, window))
  {
    var s' := DoFire(s, window);
    if window in s.timers && s.timers[window] in s.windows {
      var v := s.windows[s.timers[window]];
      forall w | 0 <= w < |s'.ledger|
        ensures AlertsOf(s'.alerts, w) == Due(w, s'.ledger[w])
      {
        OneMoreAlert(s.alerts, Alert(v, s.ledger[v].record, s.ledger[v].count), w);
        assert s.alerts + [] == s.alerts;
      }
    }
  }

  lemma StepAlerts<K(!new), R(!new)>(c: Settings, s: State<K, R>, step: Step<K, R>)
    requires TableInv(s) && AlertsInv(s)
    ensures AlertsInv(Apply(c, s, step))
  {
    match step
    case Log(level, key, record) => LogAlerts(c, s, level, key, record);
    case Fire(window) => FireAlerts(s, window);
    case Close =>
    case Cancel(window, inTime) =>
  }

  // ---- Over every run ----

  ghost predicate Inv<K(!new), R(!new)>(c: Settings, s: State<K, R>) {
    WindowsInv(c, s) && FatesInv(s) && CountsInv(s) && FirstInv(s) && AlertsInv(s)
  }

  lemma {:induction false} StepInv<K(!new), R(!new)>(c: Settings, s: State<K, R>, step: Step<K, R>)
    requires Inv(c, s)
    ensures Inv(c, Apply(c, s, step))
  {
    StepWindows(c, s, step);
    StepCounts(c, s, step);
    StepFirst(c, s, step);
    StepAlerts(c, s, step);
  }

  lemma {:induction false} AfterInv<K(!new), R(!new)>(c: Settings, steps: seq<Step<K, R>>)
    ensures Inv(c, After(c, steps))
  {
    if steps != [] {
      AfterInv(c, steps[..|steps| - 1]);
      StepInv(c, After(c, steps[..|steps| - 1]), steps[|steps| - 1]);
    }
  }

  /** The records of a run that are at or above the threshold, each with its key. */
  function Offered<K, R>(c: Settings, steps: seq<Step<K, R>>): seq<(K, R)> {
    if steps == [] then []
    else
      var last := steps[|steps| - 1];
      Offered(c, steps[..|steps| - 1]) + (if last.Log? && last.level >= c.threshold then [(last.key, last.record)] else [])
  }

  lemma StepFates<K(!new), R(!new)>(c: Settings, s: State<K, R>, step: Step<K, R>)
    ensures var fates := Apply(c, s, step).fates;
            if step.Log? && step.level >= c.threshold then
              && |fates| == |s.fates| + 1 && fates[..|s.fates|] == s.fates
              && fates[|s.fates|].key == step.key && fates[|s.fates|].record == step.record
            else fates == s.fates
  {
  }

  /** Every such record has one fate, in the order of logging. */
  lemma {:induction false} FatesOfOffered<K(!new), R(!new)>(c: Settings, steps: seq<Step<K, R>>)
    ensures var fates := After(c, steps).fates;
            && |fates| == |Offered(c, steps)|
            && forall i :: 0 <= i < |fates| ==> Offered(c, steps)[i] == (fates[i].key, fates[i].record)
  {
    if steps != [] {
      var before, fates := After(c, steps[..|steps| - 1]), After(c, steps).fates;
      FatesOfOffered(c, steps[..|steps| - 1]);
      StepFates(c, before, steps[|steps| - 1]);
      assert forall i :: 0 <= i < |before.fates| ==> fates[i] == before.fates[i];
    }
  }

  function SumCounts<K, R>(ledger: seq<Entry<K, R>>): nat {
    if ledger == [] then 0 else SumCounts(ledger[..|ledger| - 1]) + ledger[|ledger| - 1].count
  }

  lemma {:induction false} SumUpdated<K, R>(ledger: seq<Entry<K, R>>, w: nat, e: Entry<K, R>)
    requires w < |ledger|
    ensures SumCounts(ledger[w := e]) == SumCounts(ledger) - ledger[w].count + e.count
  {
    var last := |ledger| - 1;
    if w == last {
      assert ledger[w := e][..last] == ledger[..last];
    } else {
      assert ledger[w := e][..last] == ledger[..last][w := e];
      SumUpdated(ledger[..last], w, e);
    }
  }

  lemma {:induction false} SumAbandoned<K, R>(ledger: seq<Entry<K, R>>)
    ensures SumCounts(Abandon(ledger)) == SumCounts(ledger)
  {
    if ledger != [] {
      var last := |ledger| - 1;
      assert Abandon(ledger)[..last] == Abandon(ledger[..last]);
      SumAbandoned(ledger[..last]);
    }
  }

  lemma CountsAccounting<K(!new), R(!new)>(c: Settings, s: State<K, R>, level: int, key: K, record: R)
    requires level >= c.threshold && key in s.windows && s.windows[key] < |s.ledger|
    ensures SumCounts(DoLog(c, s, level, key, record).ledger) == SumCounts(s.ledger) + 1
  {
    var w := s.windows[key];
    SumUpdated(s.ledger, w, s.ledger[w].(count := s.ledger[w].count + 1));
  }

  lemma OpensAccounting<K(!new), R(!new)>(c: Settings, s: State<K, R>, level: int, key: K, record: R)
    requires Opens(c, s, level, key)
    ensures SumCounts(DoLog(c, s, level, key, record).ledger) == SumCounts(s.ledger) + 1
  {
    AppendTake(s.ledger, Entry(key, record, 1, Open));
  }

  lemma LogAccounting<K(!new), R(!new)>(c: Settings, s: State<K, R>, level: int, key: K, record: R)
    requires level >= c.threshold && (key in s.windows ==> s.windows[key] < |s.ledger|)
    ensures var s' := DoLog(c, s, level, key, record);
            SumCounts(s'.ledger) + Refused(s'.fates) == SumCounts(s.ledger) + Refused(s.fates) + 1
  {
    OneMoreFate(s.fates, DoLog(c, s, level, key, record).fates[|s.fates|], 0);
    if key in s.windows {
      CountsAccounting(c, s, level, key, record);
    } else if |s.windows| < c.maxTrackedKeys {
      OpensAccounting(c, s, level, key, record);
    }
  }

  lemma FireAccounting<K(!new), R(!new)>(s: State<K, R>, window: nat)
    requires TableInv(s)
    ensures SumCounts(DoFire(s, window).ledger) == SumCounts(s.ledger) && DoFire(s, window).fates == s.fates
  {
    if window in s.timers && s.timers[window] in s.windows {
      var w := s.windows[s.timers[window]];
      SumUpdated(s.ledger, w, s.ledger[w].(status := Flushed));
    }
  }

  lemma StepAccounting<K(!new), R(!new)>(c: Settings, s: State<K, R>, step: Step<K, R>)
    requires TableInv(s)
    ensures var s' := Apply(c, s, step);
            SumCounts(s'.ledger) + Refused(s'.fates) ==
            SumCounts(s.ledger) + Refused(s.fates) + (if step.Log? && step.level >= c.threshold then 1 else 0)
  {
    match step
    case Log(level, key, record) =>
      if level >= c.threshold {
        LogAccounting(c, s, level, key, record);
      }
    case Fire(window) => FireAccounting(s, window);
    case Close => SumAbandoned(s.ledger);
    case Cancel(window, inTime) =>
  }

  /** Records at or above the threshold are those counted in some window, open or over, and those refused at the cap. */
  lemma {:induction false} Accounting<K(!new), R(!new)>(c: Settings, steps: seq<Step<K, R>>)
    ensures var s := After(c, steps); |Offered(c, steps)| == SumCounts(s.ledger) + Refused(s.fates)
  {
    if steps != [] {
      Accounting(c, steps[..|steps| - 1]);
      AfterInv(c, steps[..|steps| - 1]);
      StepAccounting(c, After(c, steps[..|steps| - 1]), steps[|steps| - 1]);
    }
  }

  /**
    Each window sends one alert for its first record and, only if it was flushed with more than one match, a single
    follow-up with exactly the number of records that fell into it. All of them have the window's key.
   */
  lemma {:induction false} WindowAlerts<K(!new), R(!new)>(c: Settings, steps: seq<Step<K, R>>, w: nat)
    requires w < |After(c, steps).ledger|
    ensures var s := After(c, steps); var e := s.ledger[w]; var n := CountOf(s.fates, w);
            && n >= 1 && FirstOf(s.fates, w) == Some(e.record)
            && (forall i :: 0 <= i < |s.fates| && s.fates[i].window == Some(w) ==> s.fates[i].key == e.key)
            && AlertsOf(s.alerts, w) ==
               [Alert(w, e.record, 1)] + (if e.status == Flushed && n > 1 then [Alert(w, e.record, n)] else [])
  {
    AfterInv(c, steps);
  }

  /** The table never exceeds its cap, and no open window is stranded without a timer, even after `close`. */
  lemma TableBounded<K(!new), R(!new)>(c: Settings, steps: seq<Step<K, R>>)
    ensures var s := After(c, steps);
            && |s.windows| <= c.Cap()
            && (forall k :: k in s.windows ==> s.windows[k] in s.timers && s.timers[s.windows[k]] == k)
  {
    AfterInv(c, steps);
  }

  // ---- Who is counted, who is refused, and when a window is over ----

  /** The open windows of the ledger. */
  ghost function OpenWindows<K(!new), R(!new)>(s: State<K, R>): set<nat> {
    set w: nat | w < |s.ledger| && s.ledger[w].status == Open
  }

  lemma {:induction false} InjectiveSize<K(!new)>(m: map<K, nat>)
    requires forall k, l :: k in m && l in m && m[k] == m[l] ==> k == l
    ensures |m.Values| == |m|
  {
    if m.Keys != {} {
      var k :| k in m.Keys;
      var rest := m - {k};
      InjectiveSize(rest);
      assert forall l :: l in rest ==> rest[l] == m[l] != m[k];
      assert m.Values == rest.Values + {m[k]} by {
        assert forall v :: v in m.Values && v != m[k] ==> v in rest.Values;
      }
    } else {
      assert m.Values == {};
    }
  }

  /** The table is the open windows of the ledger: one for each of its keys, and no other. */
  lemma {:induction false} TableIsOpenWindows<K(!new), R(!new)>(c: Settings, steps: seq<Step<K, R>>)
    ensures var s := After(c, steps);
            && |OpenWindows(s)| == |s.windows| <= c.Cap()
            && forall k :: k in s.windows <==> exists w :: w in OpenWindows(s) && s.ledger[w].key == k
  {
    var s := After(c, steps);
    AfterInv(c, steps);
    TableUnshared(s);
    InjectiveSize(s.windows);
    assert s.windows.Values == OpenWindows(s) by {
      forall w | w in OpenWindows(s)
        ensures w in s.windows.Values
      {
        assert s.windows[s.ledger[w].key] == w;
      }
    }
    forall k | k in s.windows
      ensures exists w :: w in OpenWindows(s) && s.ledger[w].key == k
    {
      assert s.windows[k] in OpenWindows(s) && s.ledger[s.windows[k]].key == k;
    }
  }

  /**
    On every run, the next matching record falls into a window exactly if that one is open and has its key; it opens
    one exactly if no window of its key is open and the cap allows another; and it is refused exactly if no window of
    its key is open and as many are open as the cap allows.
   */
  lemma {:induction false} FateOfNext<K(!new), R(!new)>(c: Settings, steps: seq<Step<K, R>>, level: int, key: K, record: R)
    requires level >= c.threshold
    ensures var s, s' := After(c, steps), After(c, steps + [Log(level, key, record)]);
            var keyed := exists w :: w in OpenWindows(s) && s.ledger[w].key == key;
            && |s'.fates| == |s.fates| + 1
            && var fate := s'.fates[|s.fates|].window;
            && (fate == None <==> !keyed && |OpenWindows(s)| == c.Cap())
            && (fate == Some(|s.ledger|) <==> !keyed && |OpenWindows(s)| < c.Cap())
            && (|s'.ledger| == if fate == Some(|s.ledger|) then |s.ledger| + 1 else |s.ledger|)
            && (forall w :: 0 <= w < |s.ledger| ==> (fate == Some(w) <==> w in OpenWindows(s) && s.ledger[w].key == key))
  {
    var s := After(c, steps);
    AfterWindows(c, steps);
    TableIsOpenWindows(c, steps);
    assert (steps + [Log(level, key, record)])[..|steps|] == steps;
    OwnOpenWindow(s, key);
  }

  /** The window the table has for a key is the one open window of that key. */
  lemma OwnOpenWindow<K(!new), R(!new)>(s: State<K, R>, key: K)
    requires TableInv(s) && LedgerInv(s)
    ensures forall w :: 0 <= w < |s.ledger| ==>
              (w in OpenWindows(s) && s.ledger[w].key == key <==> key in s.windows && s.windows[key] == w)
  {
  }

  /** Step `i` flushes window `w`, which is open until then. */
  ghost predicate FlushedAt<K(!new), R(!new)>(c: Settings, steps: seq<Step<K, R>>, i: nat, w: nat)
    requires i < |steps|
  {
    var s := After(c, steps[..i]);
    w in OpenWindows(s) && Rings(s, steps[i], s.ledger[w].key)
  }

  /** Step `i` closes the plugin while window `w` is open. */
  ghost predicate AbandonedAt<K(!new), R(!new)>(c: Settings, steps: seq<Step<K, R>>, i: nat, w: nat)
    requires i < |steps|
  {
    w in OpenWindows(After(c, steps[..i])) && steps[i] == Step.Close
  }

  /** What the steps so far say about window `w`: whether it was flushed, and whether it was abandoned. */
  ghost predicate Over<K(!new), R(!new)>(c: Settings, steps: seq<Step<K, R>>, w: nat, flushed: bool, abandoned: bool) {
    && (flushed <==> exists i :: 0 <= i < |steps| && FlushedAt(c, steps, i, w))
    && (abandoned <==> exists i :: 0 <= i < |steps| && AbandonedAt(c, steps, i, w))
  }

  lemma OverStep<K(!new), R(!new)>(c: Settings, steps: seq<Step<K, R>>, step: Step<K, R>, w: nat, flushed: bool, abandoned: bool)
    requires Over(c, steps, w, flushed, abandoned)
    ensures var all := steps + [step];
            Over(c, all, w, flushed || FlushedAt(c, all, |steps|, w), abandoned || AbandonedAt(c, all, |steps|, w))
  {
    var all := steps + [step];
    forall i | 0 <= i < |steps|
      ensures FlushedAt(c, all, i, w) == FlushedAt(c, steps, i, w) && AbandonedAt(c, all, i, w) == AbandonedAt(c, steps, i, w)
    {
      assert all[..i] == steps[..i];
    }
  }

  /** What a step makes of an entry: its key stays, and an open window is abandoned, flushed or left alone. */
  ghost predicate Ages<K(!new), R(!new)>(e: Entry<K, R>, e': Entry<K, R>, flushed: bool, abandoned: bool) {
    && e'.key == e.key
    && (e.status == Open ==> e'.status == if abandoned then Abandoned else if flushed then Flushed else Open)
    && (e.status != Open ==> e'.status == e.status)
  }

  lemma LogAges<K(!new), R(!new)>(c: Settings, s: State<K, R>, level: int, key: K, record: R, w: nat)
    requires w < |s.ledger|
    ensures var s' := DoLog(c, s, level, key, record); w < |s'.ledger| && Ages(s.ledger[w], s'.ledger[w], false, false)
  {
  }

  /** A timer of this key runs. */
  predicate Rings<K(==,!new), R>(s: State<K, R>, step: Step<K, R>, key: K) {
    step.Fire? && step.window in s.timers && s.timers[step.window] == key
  }

  lemma FireAges<K(!new), R(!new)>(s: State<K, R>, window: nat, w: nat)
    requires TableInv(s) && LedgerInv(s) && w < |s.ledger|
    ensures var s' := DoFire(s, window);
            w < |s'.ledger| && Ages(s.ledger[w], s'.ledger[w], Rings(s, Fire(window), s.ledger[w].key), false)
  {
  }

  lemma StatusStep<K(!new), R(!new)>(c: Settings, s: State<K, R>, step: Step<K, R>, w: nat)
    requires TableInv(s) && LedgerInv(s) && w < |s.ledger|
    ensures var s' := Apply(c, s, step);
            w < |s'.ledger| && Ages(s.ledger[w], s'.ledger[w], Rings(s, step, s.ledger[w].key), step == Step.Close)
  {
    match step
    case Log(level, key, record) => LogAges(c, s, level, key, record, w);
    case Fire(window) => FireAges(s, window, w);
    case Close =>
    case Cancel(window, inTime) =>
  }

  /** A window that has just been opened is open. */
  lemma OpensOpen<K(!new), R(!new)>(c: Settings, s: State<K, R>, level: int, key: K, record: R, w: nat)
    requires |s.ledger| <= w < |DoLog(c, s, level, key, record).ledger|
    ensures DoLog(c, s, level, key, record).ledger[w].status == Open
  {
    var ledger := DoLog(c, s, level, key, record).ledger;
    assert |ledger| == |s.ledger| + 1 && ledger[|s.ledger|] == Entry(key, record, 1, Open);
  }

  lemma OnlyLogOpens<K(!new), R(!new)>(c: Settings, s: State<K, R>, step: Step<K, R>)
    requires !step.Log?
    ensures |Apply(c, s, step).ledger| == |s.ledger|
  {
  }

  /** A window is flushed exactly if some timer of its key fired while it was open, and abandoned exactly by a close. */
  lemma {:induction false} StatusIff<K(!new), R(!new)>(c: Settings, steps: seq<Step<K, R>>, w: nat)
    ensures StatusHolds(c, steps, w)
  {
    if steps != [] {
      var before, step := steps[..|steps| - 1], steps[|steps| - 1];
      assert steps == before + [step];
      StatusIff(c, before, w);
      AfterWindows(c, before);
      if w < |After(c, before).ledger| {
        StatusKnown(c, before, step, w);
      } else {
        StatusNew(c, before, step, w);
      }
    }
  }

  ghost predicate StatusHolds<K(!new), R(!new)>(c: Settings, steps: seq<Step<K, R>>, w: nat) {
    if w < |After(c, steps).ledger| then
      var status := After(c, steps).ledger[w].status; Over(c, steps, w, status == Flushed, status == Abandoned)
    else Over(c, steps, w, false, false)
  }

  lemma StatusKnown<K(!new), R(!new)>(c: Settings, steps: seq<Step<K, R>>, step: Step<K, R>, w: nat)
    requires TableInv(After(c, steps)) && LedgerInv(After(c, steps))
    requires w < |After(c, steps).ledger| && StatusHolds(c, steps, w)
    ensures StatusHolds(c, steps + [step], w)
  {
    var s := After(c, steps);
    AppendTake(steps, step);
    OverStep(c, steps, step, w, s.ledger[w].status == Flushed, s.ledger[w].status == Abandoned);
    StatusStep(c, s, step, w);
  }

  lemma StatusNew<K(!new), R(!new)>(c: Settings, steps: seq<Step<K, R>>, step: Step<K, R>, w: nat)
    requires w >= |After(c, steps).ledger| && StatusHolds(c, steps, w)
    ensures StatusHolds(c, steps + [step], w)
  {
    AppendTake(steps, step);
    OverStep(c, steps, step, w, false, false);
    if !step.Log? {
      OnlyLogOpens(c, After(c, steps), step);
    } else if w < |After(c, steps + [step]).ledger| {
      OpensOpen(c, After(c, steps), step.level, step.key, step.record, w);
    }
  }

  /** Outstanding timers and open windows correspond one to one. */
  ghost predicate OneTimerEach<K(!new), R(!new)>(s: State<K, R>) {
    forall w: nat :: w in s.timers <==> w < |s.ledger| && s.ledger[w].status == Open
  }

  /** Whenever `close` comes, no window is open. */
  ghost predicate QuietCloses<K(!new), R(!new)>(c: Settings, steps: seq<Step<K, R>>) {
    forall n :: 0 <= n < |steps| && steps[n] == Step.Close ==> After(c, steps[..n]).windows.Keys == {}
  }

  lemma LogOneTimer<K(!new), R(!new)>(c: Settings, s: State<K, R>, level: int, key: K, record: R)
    requires TableInv(s) && OneTimerEach(s)
    ensures OneTimerEach(DoLog(c, s, level, key, record))
  {
  }

  lemma FireOneTimer<K(!new), R(!new)>(s: State<K, R>, window: nat)
    requires LedgerInv(s) && TimerInv(s) && OneTimerEach(s)
    ensures OneTimerEach(DoFire(s, window))
  {
    if window in s.timers {
      assert s.ledger[window].status == Open && s.ledger[window].key == s.timers[window];
      assert s.windows[s.timers[window]] == window;
    }
  }

  lemma QuietCloseOneTimer<K(!new), R(!new)>(s: State<K, R>)
    requires LedgerInv(s) && OneTimerEach(s) && s.windows.Keys == {}
    ensures OneTimerEach(DoClose(s))
  {
    assert forall w: nat :: w < |s.ledger| ==> s.ledger[w].status != Open;
  }

  lemma CancelOneTimer<K(!new), R(!new)>(s: State<K, R>, window: nat, inTime: bool)
    requires TimerInv(s) && OneTimerEach(s)
    ensures OneTimerEach(DoCancel(s, window, inTime))
  {
    if window in s.doomed {
      assert s.ledger[window].status == Abandoned;
      assert window !in s.timers;
    }
  }

  lemma StepOneTimer<K(!new), R(!new)>(c: Settings, s: State<K, R>, step: Step<K, R>)
    requires TableInv(s) && LedgerInv(s) && TimerInv(s) && OneTimerEach(s)
    requires step == Step.Close ==> s.windows.Keys == {}
    ensures OneTimerEach(Apply(c, s, step))
  {
    match step
    case Log(level, key, record) => LogOneTimer(c, s, level, key, record);
    case Fire(window) => FireOneTimer(s, window);
    case Close => QuietCloseOneTimer(s);
    case Cancel(window, inTime) => CancelOneTimer(s, window, inTime);
  }

  lemma AfterWindows<K(!new), R(!new)>(c: Settings, steps: seq<Step<K, R>>)
    ensures var s := After(c, steps); TableInv(s) && LedgerInv(s) && TimerInv(s)
  {
    AfterInv(c, steps);
  }

  lemma NextOneTimer<K(!new), R(!new)>(c: Settings, steps: seq<Step<K, R>>, n: nat)
    requires n < |steps| && OneTimerEach(After(c, steps[..n]))
    requires steps[n] == Step.Close ==> After(c, steps[..n]).windows.Keys == {}
    ensures OneTimerEach(After(c, steps[..n + 1]))
  {
    AfterWindows(c, steps[..n]);
    AfterStep(c, steps, n);
    StepOneTimer(c, After(c, steps[..n]), steps[n]);
  }

  lemma {:induction false} QuietStays<K(!new), R(!new)>(c: Settings, steps: seq<Step<K, R>>, n: nat)
    requires n <= |steps| && QuietCloses(c, steps)
    ensures OneTimerEach(After(c, steps[..n]))
  {
    if n != 0 {
      QuietStays(c, steps, n - 1);
      NextOneTimer(c, steps, n - 1);
    }
  }

  /** A `close` that finds a window open leaves a timer without one. */
  lemma BusyCloseBreaks<K(!new), R(!new)>(s: State<K, R>)
    requires TableInv(s) && s.windows.Keys != {}
    ensures !OneTimerEach(DoClose(s))
  {
    var k :| k in s.windows.Keys;
    var w := s.windows[k];
    assert w in DoClose(s).timers && DoClose(s).ledger[w].status == Abandoned;
  }

  /**
    Timers and open windows correspond one to one throughout a run exactly when every `close` in it comes while no
    window is open; in particular in every run without `close`.
   */
  lemma {:induction false} OneTimerIff<K(!new), R(!new)>(c: Settings, steps: seq<Step<K, R>>)
    ensures (forall n :: 0 <= n <= |steps| ==> OneTimerEach(After(c, steps[..n]))) <==> QuietCloses(c, steps)
    ensures Step.Close !in steps ==> QuietCloses(c, steps)
  {
    if QuietCloses(c, steps) {
      forall n | 0 <= n <= |steps|
        ensures OneTimerEach(After(c, steps[..n]))
      {
        QuietStays(c, steps, n);
      }
    } else {
      var n :| 0 <= n < |steps| && steps[n] == Step.Close && After(c, steps[..n]).windows.Keys != {};
      AfterInv(c, steps[..n]);
      AfterStep(c, steps, n);
      BusyCloseBreaks(After(c, steps[..n]));
      assert !OneTimerEach(After(c, steps[..n + 1]));
    }
  }

  /** As long as no `close` finds a window open, each open window has its own timer, and each timer its own window. */
  lemma {:induction false} OneTimerPerWindow<K(!new), R(!new)>(c: Settings, steps: seq<Step<K, R>>, w: nat)
    requires QuietCloses(c, steps)
    ensures var s := After(c, steps);
            && (w in s.timers <==> w < |s.ledger| && s.ledger[w].status == Open)
            && (w in s.timers ==> s.timers[w] in s.windows && s.windows[s.timers[w]] == w)
  {
    assert steps[..|steps|] == steps;
    QuietStays(c, steps, |steps|);
    AfterInv(c, steps);
    if w in After(c, steps).timers {
      OwnWindow(After(c, steps), w);
    }
  }

  lemma OwnWindow<K(!new), R(!new)>(s: State<K, R>, w: nat)
    requires LedgerInv(s) && TimerInv(s) && OneTimerEach(s) && w in s.timers
    ensures s.timers[w] in s.windows && s.windows[s.timers[w]] == w
  {
    assert s.ledger[w].status == Open && s.ledger[w].key == s.timers[w];
  }

  /** The window that an outstanding timer would flush. */
  function Flushes<K(==,!new), R>(s: State<K, R>, w: nat): Option<nat>
    requires w in s.timers
  {
    if s.timers[w] in s.windows then Some(s.windows[s.timers[w]]) else None
  }

  /**
    On every run, a timer flushes the window it was started for if that one is still open; it flushes another exactly
    when its own is over and a younger window of its key is open; and otherwise nothing. Whatever else, no window
    changes its status.
   */
  lemma {:induction false} TimerFlushes<K(!new), R(!new)>(c: Settings, steps: seq<Step<K, R>>, w: nat)
    requires w in After(c, steps).timers
    ensures var s := After(c, steps);
            && w < |s.ledger| && s.ledger[w].key == s.timers[w]
            && (Flushes(s, w) == Some(w) <==> s.ledger[w].status == Open)
            && ((exists v :: v != w && Flushes(s, w) == Some(v)) <==>
                s.ledger[w].status != Open && s.ledger[w].key in s.windows)
            && (forall v :: 0 <= v < |s.ledger| && Flushes(s, w) == Some(v) ==>
                s.ledger[v].status == Open && DoFire(s, w).ledger[v].status == Flushed)
            && (forall v :: 0 <= v < |s.ledger| && Flushes(s, w) != Some(v) ==> DoFire(s, w).ledger[v] == s.ledger[v])
  {
    AfterInv(c, steps);
    TimerTarget(After(c, steps), w);
  }

  lemma TimerTarget<K(!new), R(!new)>(s: State<K, R>, w: nat)
    requires TableInv(s) && LedgerInv(s) && TimerInv(s) && w in s.timers
    ensures w < |s.ledger| && s.ledger[w].key == s.timers[w]
    ensures Flushes(s, w) == Some(w) <==> s.ledger[w].status == Open
    ensures (exists v :: v != w && Flushes(s, w) == Some(v)) <==> s.ledger[w].status != Open && s.ledger[w].key in s.windows
    ensures forall v :: 0 <= v < |s.ledger| && Flushes(s, w) == Some(v) ==>
              s.ledger[v].status == Open && DoFire(s, w).ledger[v].status == Flushed
    ensures forall v :: 0 <= v < |s.ledger| && Flushes(s, w) != Some(v) ==> DoFire(s, w).ledger[v] == s.ledger[v]
  {
    if s.ledger[w].status != Open && s.ledger[w].key in s.windows {
      var v := s.windows[s.ledger[w].key];
      assert s.ledger[v].status == Open;
      assert v != w && Flushes(s, w) == Some(v);
    }
  }

  lemma LateTimerTwoWindows(c: Settings)
    requires c.maxTrackedKeys >= 1
    ensures var s := After(c, LateTimer(c)[..3]);
            s.windows == map[7 := 1] && s.timers == map[0 := 7, 1 := 7] && |s.ledger| == 2
  {
    var steps := LateTimer(c);
    AfterStep(c, steps, 0);
    var s1 := After(c, steps[..1]);
    assert s1.windows == map[7 := 0] && s1.timers == map[0 := 7] && |s1.ledger| == 1;
    AfterStep(c, steps, 1);
    AfterStep(c, steps, 2);
  }

  /**
    After `close` that correspondence can break: a timer that was already running when `close` came flushes a
    younger window of its key, long before that window's own timer.
   */
  lemma LateTimerFlushesYounger(c: Settings)
    requires c.maxTrackedKeys >= 1
    ensures var s := After(c, LateTimer(c));
            |s.ledger| == 2 && s.ledger[1].status == Flushed && 1 in s.timers
  {
    LateTimerTwoWindows(c);
    AfterStep(c, LateTimer(c), 3);
    assert LateTimer(c)[..4] == LateTimer(c);
  }

  function LateTimer(c: Settings): seq<Step<int, int>> {
    [Log(c.threshold, 7, 0), Close, Log(c.threshold, 7, 0), Fire(0)]
  }

  /** In a run whose closes are quiet, the timer of window `w` fires at step `i`. */
  ghost predicate TimedOutAt<K(!new), R(!new)>(c: Settings, steps: seq<Step<K, R>>, i: nat, w: nat)
    requires i < |steps|
  {
    steps[i] == Fire(w) && w < |After(c, steps[..i]).ledger|
  }

  /** With quiet closes, only a window's own timer flushes it. */
  lemma QuietFlush<K(!new), R(!new)>(c: Settings, steps: seq<Step<K, R>>, i: nat, w: nat)
    requires QuietCloses(c, steps) && i < |steps|
    ensures FlushedAt(c, steps, i, w) <==> TimedOutAt(c, steps, i, w) && w in OpenWindows(After(c, steps[..i]))
    ensures !AbandonedAt(c, steps, i, w)
  {
    var s := After(c, steps[..i]);
    AfterInv(c, steps[..i]);
    QuietStays(c, steps, i);
    if steps[i].Fire? && steps[i].window in s.timers {
      OwnWindow(s, steps[i].window);
    }
    if w in OpenWindows(s) {
      assert s.ledger[w].key in s.windows;
    }
  }

  /** As long as no `close` finds a window open, a window is open exactly until its own timer fires. */
  lemma {:induction false} QuietOpenIff<K(!new), R(!new)>(c: Settings, steps: seq<Step<K, R>>, w: nat)
    requires QuietCloses(c, steps) && w < |After(c, steps).ledger|
    ensures After(c, steps).ledger[w].status == Open <==> !exists i :: 0 <= i < |steps| && TimedOutAt(c, steps, i, w)
  {
    StatusIff(c, steps, w);
    if i :| 0 <= i < |steps| && TimedOutAt(c, steps, i, w) {
      QuietFlush(c, steps, i, w);
      StatusIff(c, steps[..i], w);
      forall j | 0 <= j < i
        ensures FlushedAt(c, steps[..i], j, w) == FlushedAt(c, steps, j, w)
        ensures AbandonedAt(c, steps[..i], j, w) == AbandonedAt(c, steps, j, w)
      {
        assert steps[..i][..j] == steps[..j];
      }
      assert After(c, steps).ledger[w].status != Open;
    } else {
      forall i | 0 <= i < |steps|
        ensures !FlushedAt(c, steps, i, w) && !AbandonedAt(c, steps, i, w)
      {
        QuietFlush(c, steps, i, w);
      }
    }
  }

  // ---- Which timers are outstanding ----

  predicate IsCancel<K, R>(step: Step<K, R>, w: nat) {
    step.Cancel? && step.window == w
  }

  /** A close found window `w` open, and has not come round to cancelling its timer yet. */
  ghost predicate ToCancel<K(!new), R(!new)>(c: Settings, steps: seq<Step<K, R>>, w: nat) {
    exists j :: 0 <= j < |steps| && CloseStands(c, steps, j, w)
  }

  /** That close was step `j`. */
  ghost predicate CloseStands<K(!new), R(!new)>(c: Settings, steps: seq<Step<K, R>>, j: nat, w: nat)
    requires j < |steps|
  {
    AbandonedAt(c, steps, j, w) && forall m :: j < m < |steps| ==> !IsCancel(steps[m], w)
  }

  lemma ToCancelStep<K(!new), R(!new)>(c: Settings, steps: seq<Step<K, R>>, step: Step<K, R>, w: nat)
    ensures ToCancel(c, steps + [step], w) <==>
            AbandonedAt(c, steps + [step], |steps|, w) || (ToCancel(c, steps, w) && !IsCancel(step, w))
  {
    var all := steps + [step];
    if ToCancel(c, steps, w) && !IsCancel(step, w) {
      var j :| 0 <= j < |steps| && CloseStands(c, steps, j, w);
      CloseStandsStep(c, steps, step, j, w);
    }
    if ToCancel(c, all, w) && !AbandonedAt(c, all, |steps|, w) {
      var j :| 0 <= j < |all| && CloseStands(c, all, j, w);
      CloseStandsStep(c, steps, step, j, w);
    }
    if AbandonedAt(c, all, |steps|, w) {
      assert CloseStands(c, all, |steps|, w);
    }
  }

  lemma CloseStandsStep<K(!new), R(!new)>(c: Settings, steps: seq<Step<K, R>>, step: Step<K, R>, j: nat, w: nat)
    requires j < |steps|
    ensures CloseStands(c, steps + [step], j, w) <==> CloseStands(c, steps, j, w) && !IsCancel(step, w)
  {
    var all := steps + [step];
    assert all[..j] == steps[..j];
    assert all[|steps|] == step && forall m :: 0 <= m < |steps| ==> all[m] == steps[m];
  }

  lemma DoomedStep<K(!new), R(!new)>(c: Settings, s: State<K, R>, step: Step<K, R>, w: nat)
    requires TableInv(s) && LedgerInv(s)
    ensures w in Apply(c, s, step).doomed <==>
            (step == Step.Close && w in OpenWindows(s)) || (w in s.doomed && !IsCancel(step, w))
  {
    if w in OpenWindows(s) {
      assert s.windows[s.ledger[w].key] == w;
      assert w in s.windows.Values;
    }
  }

  lemma {:induction false} DoomedIff<K(!new), R(!new)>(c: Settings, steps: seq<Step<K, R>>, w: nat)
    ensures w in After(c, steps).doomed <==> ToCancel(c, steps, w)
  {
    if steps != [] {
      var before, step := steps[..|steps| - 1], steps[|steps| - 1];
      assert steps == before + [step];
      DoomedIff(c, before, w);
      AfterWindows(c, before);
      DoomedStep(c, After(c, before), step, w);
      ToCancelStep(c, before, step, w);
    }
  }

  /** Step `i` ends the timer of window `w`: it fires, or the close that found the window open cancels it in time. */
  ghost predicate StoppedAt<K(!new), R(!new)>(c: Settings, steps: seq<Step<K, R>>, i: nat, w: nat)
    requires i < |steps|
  {
    TimedOutAt(c, steps, i, w) || (steps[i] == Cancel(w, true) && ToCancel(c, steps[..i], w))
  }

  ghost predicate NeverStopped<K(!new), R(!new)>(c: Settings, steps: seq<Step<K, R>>, w: nat) {
    forall i :: 0 <= i < |steps| ==> !StoppedAt(c, steps, i, w)
  }

  lemma StoppedStep<K(!new), R(!new)>(c: Settings, steps: seq<Step<K, R>>, step: Step<K, R>, w: nat)
    ensures NeverStopped(c, steps + [step], w) <==> NeverStopped(c, steps, w) && !StoppedAt(c, steps + [step], |steps|, w)
  {
    var all := steps + [step];
    forall i | 0 <= i < |steps|
      ensures StoppedAt(c, all, i, w) == StoppedAt(c, steps, i, w)
    {
      assert all[..i] == steps[..i];
    }
  }

  lemma TimersStep<K(!new), R(!new)>(c: Settings, s: State<K, R>, step: Step<K, R>, w: nat)
    requires TimerInv(s)
    ensures var s' := Apply(c, s, step);
            w in s'.timers <==>
              || (w in s.timers && step != Fire(w) && !(step == Cancel(w, true) && w in s.doomed))
              || (w == |s.ledger| && |s'.ledger| > |s.ledger|)
  {
    match step
    case Log(level, key, record) =>
    case Fire(window) => FireTimersOnly(s, window);
    case Close =>
    case Cancel(window, inTime) =>
  }

  lemma FireTimersOnly<K(!new), R(!new)>(s: State<K, R>, window: nat)
    ensures DoFire(s, window).timers == s.timers - {window} && |DoFire(s, window).ledger| == |s.ledger|
  {
    if window !in s.timers {
      assert s.timers - {window} == s.timers;
    }
  }

  lemma LedgerOnlyGrows<K(!new), R(!new)>(c: Settings, s: State<K, R>, step: Step<K, R>)
    ensures |s.ledger| <= |Apply(c, s, step).ledger|
  {
    if step.Fire? {
      FireTimersOnly(s, step.window);
    }
  }

  /**
    On every run the timer of a window is outstanding exactly until it fires, or a close that found the window open
    cancels it in time; before the window is opened nothing stops it.
   */
  lemma {:induction false} TimerIff<K(!new), R(!new)>(c: Settings, steps: seq<Step<K, R>>, w: nat)
    ensures w < |After(c, steps).ledger| ==> (w in After(c, steps).timers <==> NeverStopped(c, steps, w))
    ensures w >= |After(c, steps).ledger| ==> w !in After(c, steps).timers && NeverStopped(c, steps, w)
  {
    if steps != [] {
      var before, step := steps[..|steps| - 1], steps[|steps| - 1];
      var s := After(c, before);
      assert steps == before + [step] && steps[..|before|] == before;
      TimerIff(c, before, w);
      DoomedIff(c, before, w);
      AfterWindows(c, before);
      TimersStep(c, s, step, w);
      StoppedStep(c, before, step, w);
      LedgerOnlyGrows(c, s, step);
      assert After(c, steps) == Apply(c, s, step);
    }
  }

  // ---- The objects ----

  class Window<R(!new)> {
    const record: R
    var count: nat
    /** Its place in the ledger. */
    ghost const place: nat

    constructor (record: R, ghost place: nat)
      ensures this.record == record && count == 1 && this.place == place
    {
      this.record, count := record, 1;
      this.place := place;
    }
  }

  /** What a step adds to the alerts: nothing, or one alert for `record`. */
  ghost predicate Sends<R>(before: seq<Alert<R>>, after: seq<Alert<R>>, send: Option<(R, nat)>) {
    match send
    case None => after == before
    case Some((record, occurrences)) =>
      && |after| == |before| + 1 && after[..|before|] == before
      && after[|before|].record == record && after[|before|].occurrences == occurrences
  }

  /** The windows in memory are the open windows of the model. */
  ghost predicate Holds<K(!new), R(!new)>(windows: map<K, Window<R>>, s: State<K, R>)
    reads windows.Values
  {
    && windows.Keys == s.windows.Keys
    && forall k :: k in windows ==>
      && windows[k].place == s.windows[k] < |s.ledger|
      && windows[k].record == s.ledger[s.windows[k]].record
      && windows[k].count == s.ledger[s.windows[k]].count
  }

  /** No two keys share a window. */
  ghost predicate Unshared<K(!new), R(!new)>(s: State<K, R>) {
    forall k, l :: k in s.windows && l in s.windows && s.windows[k] == s.windows[l] ==> k == l
  }

  lemma TableUnshared<K(!new), R(!new)>(s: State<K, R>)
    requires TableInv(s)
    ensures Unshared(s)
  {
  }

  method CountMatch<K(!new), R(!new)>(ghost c: Settings, ghost s: State<K, R>, windows: map<K, Window<R>>,
                                      ghost level: int, key: K, ghost record: R)
    requires Holds(windows, s) && Unshared(s) && key in windows && level >= c.threshold
    modifies windows[key]
    ensures Holds(windows, DoLog(c, s, level, key, record))
  {
    var window := windows[key];
    window.count := window.count + 1;
  }

  method OpenWindow<K(!new), R(!new)>(ghost c: Settings, ghost s: State<K, R>, windows: map<K, Window<R>>,
                                      ghost level: int, key: K, record: R)
    returns (r: map<K, Window<R>>)
    requires Holds(windows, s) && Opens(c, s, level, key)
    ensures Holds(r, DoLog(c, s, level, key, record))
    ensures key in r && fresh(r[key]) && r == windows[key := r[key]]
    ensures Sends(s.alerts, DoLog(c, s, level, key, record).alerts, Some((record, 1)))
  {
    var window := new Window(record, |s.ledger|);
    r := windows[key := window];
  }

  lemma SameSize<K(!new), R(!new)>(windows: map<K, Window<R>>, s: State<K, R>)
    requires windows.Keys == s.windows.Keys
    ensures |windows| == |s.windows|
  {
    assert |windows| == |windows.Keys| && |s.windows| == |s.windows.Keys|;
  }

  lemma RefusedHolds<K(!new), R(!new)>(c: Settings, s: State<K, R>, windows: map<K, Window<R>>, level: int, key: K,
                       record: R)
    requires Holds(windows, s) && level >= c.threshold && key !in s.windows && |s.windows| >= c.maxTrackedKeys
    ensures Holds(windows, DoLog(c, s, level, key, record))
    ensures Sends(s.alerts, DoLog(c, s, level, key, record).alerts, None)
  {
  }

  lemma FireHolds<K(!new), R(!new)>(s: State<K, R>, windows: map<K, Window<R>>, w: nat)
    requires Holds(windows, s) && Unshared(s) && w in s.timers
    ensures Holds(windows - {s.timers[w]}, DoFire(s, w))
  {
  }

  class AlertingPlugin<K(==,!new), R(!new)> {
    const settings: Settings
    var windows: map<K, Window<R>>
    /** Every step so far, the timers' included. */
    ghost var history: seq<Step<K, R>>

    ghost function Model(): State<K, R>
      reads this
    {
      After(settings, history)
    }

    ghost predicate Valid()
      reads this, windows.Values
    {
      Holds(windows, Model())
    }

    constructor (settings: Settings)
      ensures Valid() && history == [] && this.settings == settings
    {
      this.settings := settings;
      windows, history := map[], [];
    }

    /** The history grows by a step, and the model follows. */
    ghost method Note(step: Step<K, R>)
      modifies this`history
      ensures history == old(history) + [step]
      ensures Model() == Apply(settings, old(Model()), step)
      ensures Unshared(old(Model()))
    {
      AfterInv(settings, history);
      TableUnshared(Model());
      AfterStep(settings, history + [step], |history|);
      assert (history + [step])[..|history|] == history;
      assert (history + [step])[..|history| + 1] == history + [step];
      history := history + [step];
    }

    method AfterLog(level: int, key: K, record: R) returns (send: Option<(R, nat)>)
      requires Valid()
      modifies this, windows.Values
      ensures Valid() && history == old(history) + [Log(level, key, record)]
      ensures Sends(old(Model()).alerts, Model().alerts, send)
      ensures windows == old(windows) || (key in windows && fresh(windows[key]) && windows == old(windows)[key := windows[key]])
    {
      if level < settings.threshold {
        Note(Log(level, key, record));
        return None;
      }
      send := Track(level, key, record);
    }

    /** The locked part, for a record at or above the threshold. */
    method Track(ghost level: int, key: K, record: R) returns (send: Option<(R, nat)>)
      requires Valid() && level >= settings.threshold
      modifies this, windows.Values
      ensures Valid() && history == old(history) + [Log(level, key, record)]
      ensures Sends(old(Model()).alerts, Model().alerts, send)
      ensures windows == old(windows) || (key in windows && fresh(windows[key]) && windows == old(windows)[key := windows[key]])
    {
      if key in windows {
        ghost var s := Model();
        Note(Log(level, key, record));
        CountMatch(settings, s, windows, level, key, record);
        return None;
      }
      send := Start(level, key, record);
    }

    /** A key without an open window. */
    method Start(ghost level: int, key: K, record: R) returns (send: Option<(R, nat)>)
      requires Valid() && level >= settings.threshold && key !in windows
      modifies this
      ensures Valid() && history == old(history) + [Log(level, key, record)]
      ensures Sends(old(Model()).alerts, Model().alerts, send)
      ensures windows == old(windows) || (key in windows && fresh(windows[key]) && windows == old(windows)[key := windows[key]])
    {
      ghost var s := Model();
      Note(Log(level, key, record));
      SameSize(windows, s);
      if |windows| >= settings.maxTrackedKeys {
        RefusedHolds(settings, s, windows, level, key, record);
        return None;
      }
      windows := OpenWindow(settings, s, windows, level, key, record);
      return Some((record, 1));
    }

    /** Called by the timer of window `w`. */
    method Flush(ghost w: nat, key: K) returns (send: Option<(R, nat)>)
      requires Valid() && w in Model().timers && Model().timers[w] == key
      modifies this
      ensures Valid() && history == old(history) + [Fire(w)]
      ensures Sends(old(Model()).alerts, Model().alerts, send)
    {
      ghost var s := Model();
      Note(Fire(w));
      FireHolds(s, windows, w);
      if key !in windows {
        assert windows - {key} == windows;
        return None;
      }
      var window := windows[key];
      windows := windows - {key};
      if window.count <= 1 {
        return None;
      }
      return Some((window.record, window.count));
    }

    /** The locked part; cancelling the timers comes after it. */
    method CloseSection() returns (open: set<Window<R>>)
      requires Valid()
      modifies this
      ensures Valid() && history == old(history) + [Step.Close]
      ensures windows == map[] && open == old(windows.Values)
    {
      Note(Step.Close);
      open := windows.Values;
      windows := map[];
    }
  }
}
