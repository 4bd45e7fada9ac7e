/**
  Tail-based sampling (logquill/plugins/sampling_plugin.py): the flight recorder's buffer with a sampling decision in
  front. A trace that later reaches `elevate_at` ships everything sampling had held back.
 */
module Sampling {
  import opened OrderedDicts
  import opened Sequences
  import opened TailBuffer
  import FlightRecorder

  type Record<K, P> = FlightRecorder.Record<K, P>

  /** `tailing` says whether transports were given; without them dropped records are simply dropped. */
  datatype Settings = Settings(rate: real, elevateAt: int, tailing: bool, caps: Caps)

  /** A record together with the number the random source gave for it. */
  datatype Draw<K, P> = Draw(record: Record<K, P>, roll: real)

  function TraceOf<K, P>(c: Settings, r: Record<K, P>): Option<K> {
    if c.tailing then r.run else None
  }

  /** The draw does not let the record pass, and neither does its trace. */
  predicate SampledAway<K(==,!new), P>(c: Settings, s: State<K, Record<K, P>>, d: Draw<K, P>) {
    var trace := TraceOf(c, d.record);
    d.roll >= c.rate && (trace.Some? ==> trace.value !in s.done && d.record.level < c.elevateAt)
  }

  /** Without room for a single trace, holding a record back fails before anything has changed. */
  function Step<K(==,!new), P>(c: Settings, s: State<K, Record<K, P>>, d: Draw<K, P>): State<K, Record<K, P>>
  {
    var r := d.record;
    var trace := TraceOf(c, r);
    if trace.Some? && trace.value in s.done then Note(s, Passed(r))
    else if trace.Some? && r.level >= c.elevateAt then Note(Flush(s, trace.value), Passed(r))
    else if d.roll < c.rate then Note(s, Passed(r))
    else if trace.None? then Note(s, Dropped(r))
    else if c.caps.maxRuns >= 1 then Store(c.caps, s, trace.value, r)
    else s
  }

  function After<K(==,!new), P>(c: Settings, ds: seq<Draw<K, P>>): State<K, Record<K, P>>
  {
    if ds == [] then Initial() else Step(c, After(c, ds[..|ds| - 1]), ds[|ds| - 1])
  }

  function Records<K, P>(ds: seq<Draw<K, P>>): seq<Record<K, P>> {
    if ds == [] then [] else Records(ds[..|ds| - 1]) + [ds[|ds| - 1].record]
  }

  lemma StepInv<K(!new), P>(c: Settings, s: State<K, Record<K, P>>, d: Draw<K, P>)
    requires c.caps.maxRuns >= 1 && Inv(c.caps, s) && Within(c.caps, s)
    ensures Inv(c.caps, Step(c, s, d)) && Within(c.caps, Step(c, s, d))
  {
    var r := d.record;
    var trace := TraceOf(c, r);
    if trace.Some? && trace.value in s.done {
      NoteInv(c.caps, s, Passed(r));
    } else if trace.Some? && r.level >= c.elevateAt {
      FlushInv(c.caps, s, trace.value);
      NoteInv(c.caps, Flush(s, trace.value), Passed(r));
    } else if d.roll < c.rate {
      NoteInv(c.caps, s, Passed(r));
    } else if trace.Some? {
      StoreInv(c.caps, s, trace.value, r);
    } else {
      NoteInv(c.caps, s, Dropped(r));
    }
  }

  lemma StepArrived<K(!new), P>(c: Settings, s: State<K, Record<K, P>>, d: Draw<K, P>)
    requires c.caps.maxRuns >= 1
    ensures Arrived(Step(c, s, d).log) == Arrived(s.log) + multiset{d.record}
  {
    var trace := TraceOf(c, d.record);
    NoteArrived(s, d.record);
    if trace.Some? {
      if SampledAway(c, s, d) {
        StoreArrived(c.caps, s, trace.value, d.record);
      } else {
        FlushArrived(s, trace.value);
        NoteArrived(Flush(s, trace.value), d.record);
      }
    }
  }

  lemma StepPasses<K(!new), P>(c: Settings, s: State<K, Record<K, P>>, d: Draw<K, P>)
    ensures PassedOf(Step(c, s, d).log) == PassedOf(s.log) + (if SampledAway(c, s, d) then multiset{} else multiset{d.record})
    ensures DroppedOf(Step(c, s, d).log) ==
            DroppedOf(s.log) + (if d.roll >= c.rate && TraceOf(c, d.record).None? then multiset{d.record} else multiset{})
  {
    var r := d.record;
    var trace := TraceOf(c, r);
    if trace.Some? && trace.value in s.done {
      NotePasses(s, r);
    } else if trace.Some? && r.level >= c.elevateAt {
      FlushPasses(s, trace.value);
      NotePasses(Flush(s, trace.value), r);
    } else if d.roll < c.rate {
      NotePasses(s, r);
    } else if trace.None? {
      LogGrows(s.log, Dropped(r));
    } else if c.caps.maxRuns >= 1 {
      StorePasses(c.caps, s, trace.value, r);
    }
  }

  /** The records that sampling takes out and no trace could hold. */
  function Untraced<K, P>(c: Settings, ds: seq<Draw<K, P>>): seq<Record<K, P>> {
    if ds == [] then []
    else
      var d := ds[|ds| - 1];
      Untraced(c, ds[..|ds| - 1]) + (if d.roll >= c.rate && !(c.tailing && d.record.run.Some?) then [d.record] else [])
  }

  /** Dropped are exactly the records without a trace that the draw does not keep. */
  lemma {:induction false} OnlyUntracedDropped<K(!new), P>(c: Settings, ds: seq<Draw<K, P>>)
    ensures DroppedOf(After(c, ds).log) == multiset(Untraced(c, ds))
  {
    if ds != [] {
      OnlyUntracedDropped(c, ds[..|ds| - 1]);
      StepPasses(c, After(c, ds[..|ds| - 1]), ds[|ds| - 1]);
    }
  }

  // ---- Which traces are elevated, which records are taken out ----

  /** Some record of trace `k` reached `elevate_at`. */
  ghost predicate Elevated<K(!new), P>(c: Settings, ds: seq<Draw<K, P>>, k: K) {
    exists i :: 0 <= i < |ds| && ElevatesAt(c, ds, i, k)
  }

  predicate ElevatesAt<K(==), P>(c: Settings, ds: seq<Draw<K, P>>, i: nat, k: K)
    requires i < |ds|
  {
    c.tailing && ds[i].record.run == Some(k) && ds[i].record.level >= c.elevateAt
  }

  lemma ElevatedGrows<K(!new), P>(c: Settings, ds: seq<Draw<K, P>>, d: Draw<K, P>, k: K)
    ensures Elevated(c, ds + [d], k) <==>
            Elevated(c, ds, k) || (TraceOf(c, d.record) == Some(k) && d.record.level >= c.elevateAt)
  {
    var all := ds + [d];
    if Elevated(c, ds, k) {
      var i :| 0 <= i < |ds| && ElevatesAt(c, ds, i, k);
      assert ElevatesAt(c, all, i, k);
    }
    if TraceOf(c, d.record) == Some(k) && d.record.level >= c.elevateAt {
      assert ElevatesAt(c, all, |ds|, k);
    }
    if Elevated(c, all, k) {
      var i :| 0 <= i < |all| && ElevatesAt(c, all, i, k);
      assert i < |ds| ==> ElevatesAt(c, ds, i, k);
    }
  }

  lemma StepShips<K(!new), P>(c: Settings, s: State<K, Record<K, P>>, d: Draw<K, P>)
    requires s.done == ShippedRuns(s.log)
    ensures var s', trace := Step(c, s, d), TraceOf(c, d.record);
            && s'.done == ShippedRuns(s'.log)
            && s'.done == s.done + (if trace.Some? && d.record.level >= c.elevateAt then {trace.value} else {})
  {
    var r := d.record;
    var trace := TraceOf(c, r);
    if trace.Some? && trace.value !in s.done && r.level >= c.elevateAt {
      LogGrows(s.log, Shipped(trace.value, s.buffer.Get(trace.value, [])));
      LogGrows(Flush(s, trace.value).log, Passed(r));
    } else if !SampledAway(c, s, d) {
      LogGrows(s.log, Passed(r));
    } else if trace.None? {
      LogGrows(s.log, Dropped(r));
    } else if c.caps.maxRuns >= 1 {
      StoreDone(c.caps, s, trace.value, r);
    }
  }

  lemma {:induction false} DoneIffElevated<K(!new), P>(c: Settings, ds: seq<Draw<K, P>>, k: K)
    ensures After(c, ds).done == ShippedRuns(After(c, ds).log)
    ensures k in After(c, ds).done <==> Elevated(c, ds, k)
  {
    if ds != [] {
      var before, d := ds[..|ds| - 1], ds[|ds| - 1];
      assert ds == before + [d];
      DoneIffElevated(c, before, k);
      ElevatedGrows(c, before, d, k);
      StepShips(c, After(c, before), d);
      assert After(c, ds) == Step(c, After(c, before), d);
    }
  }

  /** A trace ships what was held of it if and only if one of its records reached `elevate_at`. */
  lemma {:induction false} ShippedIffElevated<K(!new), P>(c: Settings, ds: seq<Draw<K, P>>, k: K)
    ensures EverShipped(After(c, ds).log, k) <==> Elevated(c, ds, k)
    ensures k in After(c, ds).done <==> Elevated(c, ds, k)
  {
    DoneIffElevated(c, ds, k);
    ShippedRunsMeaning(After(c, ds).log, k);
  }

  /** After the draws `ds`, the record of `d` is taken out: not drawn, and of no trace that is or becomes elevated. */
  ghost predicate TakenOut<K(!new), P>(c: Settings, ds: seq<Draw<K, P>>, d: Draw<K, P>) {
    && d.roll >= c.rate
    && (c.tailing && d.record.run.Some? ==> !Elevated(c, ds, d.record.run.value) && d.record.level < c.elevateAt)
  }

  lemma SampledAwayIffTakenOut<K(!new), P>(c: Settings, ds: seq<Draw<K, P>>, d: Draw<K, P>)
    ensures SampledAway(c, After(c, ds), d) <==> TakenOut(c, ds, d)
  {
    if TraceOf(c, d.record).Some? {
      ShippedIffElevated(c, ds, TraceOf(c, d.record).value);
    }
  }

  /** Over every run, a record passes when it arrives exactly if it is not taken out; one that is drawn passes. */
  lemma {:induction false} PassesIffNotTakenOut<K(!new), P>(c: Settings, ds: seq<Draw<K, P>>, d: Draw<K, P>)
    ensures PassedOf(After(c, ds + [d]).log) ==
            PassedOf(After(c, ds).log) + (if TakenOut(c, ds, d) then multiset{} else multiset{d.record})
    ensures d.roll < c.rate ==> PassedOf(After(c, ds + [d]).log) == PassedOf(After(c, ds).log) + multiset{d.record}
  {
    assert (ds + [d])[..|ds|] == ds;
    SampledAwayIffTakenOut(c, ds, d);
    StepPasses(c, After(c, ds), d);
  }

  /** Without room for a single trace nothing is ever held, so there is nothing to evict. */
  lemma {:induction false} NoRoomNothingHeld<K(!new), P>(c: Settings, ds: seq<Draw<K, P>>)
    requires c.caps.maxRuns < 1
    ensures After(c, ds).buffer == Empty() && After(c, ds).count == 0
  {
    if ds != [] {
      NoRoomNothingHeld(c, ds[..|ds| - 1]);
    }
  }

  /** Every record is passed, dropped, shipped, evicted or still buffered, each exactly once, within the caps. */
  lemma {:induction false} Conservation<K(!new), P>(c: Settings, ds: seq<Draw<K, P>>)
    requires c.caps.maxRuns >= 1
    ensures var s := After(c, ds);
            && Inv(c.caps, s) && Within(c.caps, s)
            && Arrived(s.log) == multiset(Records(ds))
            && DroppedOf(s.log) == multiset(Untraced(c, ds))
            && multiset(Records(ds)) == PassedOf(s.log) + DroppedOf(s.log) + ShippedOf(s.log) + EvictedOf(s.log) +
                                        multiset(Contents(s.buffer.keys, s.buffer.vals))
            && |s.buffer.keys| <= c.caps.maxRuns && (c.caps.maxRecords >= 0 ==> s.count <= c.caps.maxRecords)
  {
    OnlyUntracedDropped(c, ds);
    if ds == [] {
      InitialInv<K, Record<K, P>>(c.caps);
    } else {
      Conservation(c, ds[..|ds| - 1]);
      StepInv(c, After(c, ds[..|ds| - 1]), ds[|ds| - 1]);
      StepArrived(c, After(c, ds[..|ds| - 1]), ds[|ds| - 1]);
    }
  }

  /** The records of trace `k` that sampling would have dropped. */
  function SampledOut<K(==), P>(c: Settings, ds: seq<Draw<K, P>>, k: K): seq<Record<K, P>> {
    if ds == [] then []
    else
      var d := ds[|ds| - 1];
      SampledOut(c, ds[..|ds| - 1], k) + (if c.tailing && d.record.run == Some(k) && d.roll >= c.rate then [d.record] else [])
  }

  /** Of a trace neither elevated nor ever evicted, the history keeps every sampled-out record, in order. */
  lemma {:induction false} UnevictedTail<K(!new), P>(c: Settings, ds: seq<Draw<K, P>>, k: K)
    requires c.caps.maxRuns >= 1
    requires !Elevated(c, ds, k) && !EverEvicted(After(c, ds).log, k)
    ensures Tail(After(c, ds).log, k) == SampledOut(c, ds, k)
  {
    if ds != [] {
      var before, d := ds[..|ds| - 1], ds[|ds| - 1];
      var s, trace := After(c, before), TraceOf(c, d.record);
      assert ds == before + [d];
      ElevatedGrows(c, before, d, k);
      SampledAwayIffTakenOut(c, before, d);
      if SampledAway(c, s, d) && trace.Some? {
        StoreTail(c.caps, s, trace.value, d.record, k);
      } else {
        UnheldTail(c, s, d, k);
        ShippedIffElevated(c, before, k);
      }
      UnevictedTail(c, before, k);
    }
  }

  /** A record that is not held leaves the tail of every trace alone but the one it may elevate. */
  lemma UnheldTail<K(!new), P>(c: Settings, s: State<K, Record<K, P>>, d: Draw<K, P>, k: K)
    requires var trace := TraceOf(c, d.record);
             && (SampledAway(c, s, d) ==> trace.None?)
             && !(trace == Some(k) && d.record.level >= c.elevateAt)
    requires !EverEvicted(Step(c, s, d).log, k)
    ensures !EverEvicted(s.log, k) && Tail(Step(c, s, d).log, k) == Tail(s.log, k)
  {
    var r := d.record;
    var trace := TraceOf(c, r);
    if trace.Some? && trace.value !in s.done && r.level >= c.elevateAt {
      var s1 := Flush(s, trace.value);
      UnevictedStep(s1.log, Passed(r), k);
      UnevictedStep(s.log, s1.log[|s.log|], k);
    } else if SampledAway(c, s, d) {
      UnevictedStep(s.log, Dropped(r), k);
    } else {
      UnevictedStep(s.log, Passed(r), k);
    }
  }

  /**
    An elevated trace is complete: its first record at or above `elevate_at`, if none of its records was evicted,
    ships exactly its sampled-out records in order of arrival, and then passes itself.
   */
  lemma ElevatedTraceIsComplete<K(!new), P>(c: Settings, ds: seq<Draw<K, P>>, d: Draw<K, P>)
    requires c.caps.maxRuns >= 1
    requires c.tailing && d.record.run.Some? && d.record.level >= c.elevateAt
    requires var k := d.record.run.value; !Elevated(c, ds, k) && !EverEvicted(After(c, ds).log, k)
    ensures var k := d.record.run.value;
            After(c, ds + [d]).log == After(c, ds).log + [Shipped(k, SampledOut(c, ds, k)), Passed(d.record)]
  {
    var k := d.record.run.value;
    assert (ds + [d])[..|ds|] == ds;
    HeldIsSampledOut(c, ds, k);
    ShippedIffElevated(c, ds, k);
  }

  lemma HeldIsSampledOut<K(!new), P>(c: Settings, ds: seq<Draw<K, P>>, k: K)
    requires c.caps.maxRuns >= 1 && !Elevated(c, ds, k) && !EverEvicted(After(c, ds).log, k)
    ensures After(c, ds).buffer.Get(k, []) == SampledOut(c, ds, k)
  {
    Conservation(c, ds);
    BufferIsTail(c.caps, After(c, ds), k);
    UnevictedTail(c, ds, k);
  }

  lemma {:induction false} HistoryGrows<K(!new), P>(c: Settings, ds: seq<Draw<K, P>>, n: nat)
    requires n <= |ds|
    ensures After(c, ds[..n]).log <= After(c, ds).log
  {
    if n < |ds| {
      var before, d := ds[..|ds| - 1], ds[|ds| - 1];
      var trace := TraceOf(c, d.record);
      assert before[..n] == ds[..n];
      HistoryGrows(c, before, n);
      if SampledAway(c, After(c, before), d) && trace.Some? && c.caps.maxRuns >= 1 {
        TrimTail(c.caps, Add(MakeRoom(c.caps, After(c, before), trace.value), trace.value, d.record), trace.value);
      }
    } else {
      assert ds[..n] == ds;
    }
  }

  /**
    The same looking back on a whole run: what trace `k`, which was first elevated by record `i`, held until then was
    shipped right before that record, and nothing of `k` was ever shipped again.
   */
  lemma TraceShippedOnce<K(!new), P>(c: Settings, ds: seq<Draw<K, P>>, i: nat, k: K)
    requires c.caps.maxRuns >= 1
    requires i < |ds| && ElevatesAt(c, ds, i, k) && !Elevated(c, ds[..i], k)
    requires !EverEvicted(After(c, ds[..i]).log, k)
    ensures var log, at := After(c, ds).log, |After(c, ds[..i]).log|;
            && |log| >= at + 2 && log[at] == Shipped(k, SampledOut(c, ds[..i], k)) && log[at + 1] == Passed(ds[i].record)
            && forall p :: 0 <= p < |log| && log[p].Shipped? && log[p].key == k ==> p == at
  {
    FirstElevationLogged(c, ds, i, k);
    StillThere(After(c, ds[..i]).log, Shipped(k, SampledOut(c, ds[..i], k)), Passed(ds[i].record), After(c, ds).log);
    AfterShipments(c, ds);
    OnlyShipment(After(c, ds).log, After(c, ds).done, |After(c, ds[..i]).log|, k);
  }

  lemma FirstElevationLogged<K(!new), P>(c: Settings, ds: seq<Draw<K, P>>, i: nat, k: K)
    requires c.caps.maxRuns >= 1
    requires i < |ds| && ElevatesAt(c, ds, i, k) && !Elevated(c, ds[..i], k)
    requires !EverEvicted(After(c, ds[..i]).log, k)
    ensures After(c, ds[..i]).log + [Shipped(k, SampledOut(c, ds[..i], k)), Passed(ds[i].record)] <= After(c, ds).log
  {
    ElevatedTraceIsComplete(c, ds[..i], ds[i]);
    assert ds[..i + 1] == ds[..i] + [ds[i]];
    HistoryGrows(c, ds, i + 1);
  }

  lemma AfterShipments<K(!new), P>(c: Settings, ds: seq<Draw<K, P>>)
    requires c.caps.maxRuns >= 1
    ensures DoneStays(After(c, ds).log, After(c, ds).done)
  {
    Conservation(c, ds);
  }

  // ---- When nothing is evicted ----

  predicate IsCandidate<K, P>(c: Settings, d: Draw<K, P>) {
    c.tailing && d.record.run.Some? && d.roll >= c.rate && d.record.level < c.elevateAt
  }

  /** The records that can be held at all. */
  function Candidates<K, P>(c: Settings, ds: seq<Draw<K, P>>): seq<Record<K, P>> {
    if ds == [] then []
    else Candidates(c, ds[..|ds| - 1]) + (if IsCandidate(c, ds[|ds| - 1]) then [ds[|ds| - 1].record] else [])
  }

  /** So far the records that can be held, and the traces they belong to, fit the caps. */
  ghost predicate Fits<K(!new), P>(c: Settings, ds: seq<Draw<K, P>>) {
    |FlightRecorder.Runs(Candidates(c, ds))| <= c.caps.maxRuns && |Candidates(c, ds)| <= c.caps.maxRecords
  }

  lemma {:induction false} FitsRoomy<K(!new), P>(c: Settings, ds: seq<Draw<K, P>>)
    requires c.caps.maxRuns >= 1 && Fits(c, ds)
    ensures Roomy(After(c, ds), FlightRecorder.Runs(Candidates(c, ds)), |Candidates(c, ds)|)
  {
    if ds != [] {
      var before, d := ds[..|ds| - 1], ds[|ds| - 1];
      var held := Candidates(c, before);
      if IsCandidate(c, d) {
        AppendTake(held, d.record);
        SubsetSize(FlightRecorder.Runs(held), FlightRecorder.Runs(held + [d.record]));
        FitsRoomy(c, before);
        CandidateRoomy(c, After(c, before), d, FlightRecorder.Runs(held), |held|);
      } else {
        assert Candidates(c, ds) == held;
        FitsRoomy(c, before);
        OtherRoomy(c, After(c, before), d, FlightRecorder.Runs(held), |held|);
      }
    } else {
      assert Candidates(c, ds) == [];
    }
  }

  lemma CandidateRoomy<K(!new), P>(c: Settings, s: State<K, Record<K, P>>, d: Draw<K, P>, traces: set<K>, n: nat)
    requires c.caps.maxRuns >= 1 && Roomy(s, traces, n) && IsCandidate(c, d)
    requires |traces + {d.record.run.value}| <= c.caps.maxRuns && n + 1 <= c.caps.maxRecords
    ensures Roomy(Step(c, s, d), traces + {d.record.run.value}, n + 1)
  {
    if d.record.run.value in s.done {
      RoomyNote(s, Passed(d.record), traces, n);
    } else {
      RoomyStore(c.caps, s, d.record.run.value, d.record, traces, n);
    }
  }

  lemma OtherRoomy<K(!new), P>(c: Settings, s: State<K, Record<K, P>>, d: Draw<K, P>, traces: set<K>, n: nat)
    requires Roomy(s, traces, n) && !IsCandidate(c, d)
    ensures Roomy(Step(c, s, d), traces, n)
  {
    var trace := TraceOf(c, d.record);
    RoomyNote(s, Passed(d.record), traces, n);
    RoomyNote(s, Dropped(d.record), traces, n);
    if trace.Some? && trace.value !in s.done && d.record.level >= c.elevateAt {
      RoomyFlush(s, trace.value, traces, n);
      RoomyNote(Flush(s, trace.value), Passed(d.record), traces, n);
    }
  }

  /** As long as the records to hold fit the caps nothing is evicted, and an elevated trace is complete. */
  lemma FittingTraceIsComplete<K(!new), P>(c: Settings, ds: seq<Draw<K, P>>, d: Draw<K, P>)
    requires c.caps.maxRuns >= 1 && Fits(c, ds)
    ensures EvictedOf(After(c, ds).log) == multiset{}
    ensures c.tailing && d.record.run.Some? && d.record.level >= c.elevateAt && !Elevated(c, ds, d.record.run.value) ==>
              var k := d.record.run.value;
              After(c, ds + [d]).log == After(c, ds).log + [Shipped(k, SampledOut(c, ds, k)), Passed(d.record)]
  {
    FitsRoomy(c, ds);
    NoneEvicted(After(c, ds).log);
    if c.tailing && d.record.run.Some? && d.record.level >= c.elevateAt && !Elevated(c, ds, d.record.run.value) {
      ElevatedTraceIsComplete(c, ds, d);
    }
  }

  // ---- The object ----

  class SamplingPlugin<K(==,!new), P> {
    const settings: Settings
    const traces: RunBuffer<K, Record<K, P>>
    /** Every record this instance was given, with its roll. */
    ghost var seen: seq<Draw<K, P>>

    ghost predicate Valid()
      reads this, traces
    {
      && traces.caps == settings.caps
      && traces.Matches()
      && traces.model == After(settings, seen)
    }

    /** The original raises ValueError for a rate outside [0, 1]. */
    constructor (settings: Settings)
      requires 0.0 <= settings.rate <= 1.0
      ensures Valid() && seen == [] && this.settings == settings && fresh(traces)
    {
      this.settings := settings;
      traces := new RunBuffer(settings.caps);
      seen := [];
    }

    /**
      `roll` is what the random source returns if it is asked. With `max_traces` below 1 a record to hold back ends in
      KeyError, and nothing has changed.
     */
    method BeforeLog(r: Record<K, P>, roll: real) returns (out: Outcome<Record<K, P>>)
      requires Valid()
      modifies this`seen, traces
      ensures Valid() && seen == old(seen) + [Draw(r, roll)]
      ensures traces.sent == old(traces.sent) +
                             if settings.tailing && r.run.Some? && r.level >= settings.elevateAt &&
                                !Elevated(settings, old(seen), r.run.value)
                             then old(traces.buffer).Get(r.run.value, []) else []
      ensures !TakenOut(settings, old(seen), Draw(r, roll)) ==>
                out == Returned(Some(r)) && LastEvent(traces.model.log) == Some(Passed(r))
      ensures TakenOut(settings, old(seen), Draw(r, roll)) ==>
                out == (if settings.tailing && r.run.Some? && settings.caps.maxRuns < 1 then KeyError else Returned(None)) &&
                PassedOf(traces.model.log) == old(PassedOf(traces.model.log))
    {
      assert (seen + [Draw(r, roll)])[..|seen|] == seen;
      SampledAwayIffTakenOut(settings, seen, Draw(r, roll));
      if r.run.Some? {
        ShippedIffElevated(settings, seen, r.run.value);
      }
      if SampledAway(settings, traces.model, Draw(r, roll)) {
        StepPasses(settings, traces.model, Draw(r, roll));
      }
      if settings.caps.maxRuns < 1 {
        NoRoomNothingHeld(settings, seen);
      }
      seen := seen + [Draw(r, roll)];
      var trace := TraceOf(settings, r);
      if trace.Some? && trace.value in traces.done {
        traces.Record(Passed(r));
        return Returned(Some(r));
      }
      var keep := roll < settings.rate;
      if trace.Some? && r.level >= settings.elevateAt {
        traces.FlushRun(trace.value);
        traces.Record(Passed(r));
        return Returned(Some(r));
      }
      if keep {
        traces.Record(Passed(r));
        return Returned(Some(r));
      }
      if trace.Some? {
        var k := trace.value;
        if k !in traces.buffer.vals && |traces.buffer.keys| >= settings.caps.maxRuns && traces.buffer.keys == [] {
          return KeyError;
        }
        traces.BufferRecord(k, r);
      } else {
        traces.Record(Dropped(r));
      }
      return Returned(None);
    }
  }
}
