/**
  The flight recorder (logquill/plugins/flight_recorder_plugin.py): low-level records of a run are held back and
  shipped only if the run later reaches `flush_at`.
 */
module FlightRecorder {
  import opened OrderedDicts
  import opened Sequences
  import opened TailBuffer

  /** A record as the plugin sees it: its run id if it has one, its level, and the rest. */
  datatype Record<K, P> = Record(run: Option<K>, level: int, payload: P)

  datatype Settings = Settings(shipAt: int, flushAt: int, caps: Caps)

  /** The record is one to hold back: of a run not flushed yet, and below both levels. */
  predicate Holds<K(==,!new), P>(c: Settings, s: State<K, Record<K, P>>, r: Record<K, P>) {
    r.run.Some? && r.run.value !in s.done && r.level < c.flushAt && r.level < c.shipAt
  }

  /** Without room for a single run, holding a record back fails before anything has changed. */
  function Step<K(==,!new), P>(c: Settings, s: State<K, Record<K, P>>, r: Record<K, P>): State<K, Record<K, P>> {
    if r.run.None? || r.run.value in s.done then Note(s, Passed(r))
    else if r.level >= c.flushAt then Note(Flush(s, r.run.value), Passed(r))
    else if r.level >= c.shipAt then Note(s, Passed(r))
    else if c.caps.maxRuns >= 1 then Store(c.caps, s, r.run.value, r)
    else s
  }

  /** The state after a sequence of records. */
  function After<K(==,!new), P>(c: Settings, rs: seq<Record<K, P>>): State<K, Record<K, P>> {
    if rs == [] then Initial() else Step(c, After(c, rs[..|rs| - 1]), rs[|rs| - 1])
  }

  lemma ShipInv<K(!new), P>(c: Settings, s: State<K, Record<K, P>>, k: K, r: Record<K, P>)
    requires c.caps.maxRuns >= 1 && Inv(c.caps, s) && Within(c.caps, s) && k !in s.done
    ensures Inv(c.caps, Note(Flush(s, k), Passed(r))) && Within(c.caps, Note(Flush(s, k), Passed(r)))
  {
    FlushInv(c.caps, s, k);
    NoteInv(c.caps, Flush(s, k), Passed(r));
  }

  lemma StepInv<K(!new), P>(c: Settings, s: State<K, Record<K, P>>, r: Record<K, P>)
    requires c.caps.maxRuns >= 1 && Inv(c.caps, s) && Within(c.caps, s)
    ensures Inv(c.caps, Step(c, s, r)) && Within(c.caps, Step(c, s, r))
  {
    if r.run.Some? && r.run.value !in s.done {
      if r.level >= c.flushAt {
        ShipInv(c, s, r.run.value, r);
      } else if r.level >= c.shipAt {
        NoteInv(c.caps, s, Passed(r));
      } else {
        StoreInv(c.caps, s, r.run.value, r);
      }
    } else {
      NoteInv(c.caps, s, Passed(r));
    }
  }

  lemma StepArrived<K(!new), P>(c: Settings, s: State<K, Record<K, P>>, r: Record<K, P>)
    requires c.caps.maxRuns >= 1
    ensures Arrived(Step(c, s, r).log) == Arrived(s.log) + multiset{r}
  {
    NoteArrived(s, r);
    if Holds(c, s, r) {
      StoreArrived(c.caps, s, r.run.value, r);
    } else if r.run.Some? {
      FlushArrived(s, r.run.value);
      NoteArrived(Flush(s, r.run.value), r);
    }
  }

  /**
    Conservation over any sequence of records: each is passed, shipped, evicted or still buffered, each exactly
    once; the caps hold; and the invariant says why each evicted run was evicted and what each flush shipped.
   */
  lemma {:induction false} Conservation<K(!new), P>(c: Settings, rs: seq<Record<K, P>>)
    requires c.caps.maxRuns >= 1
    ensures var s := After(c, rs);
            && Inv(c.caps, s) && Within(c.caps, s)
            && multiset(rs) == PassedOf(s.log) + ShippedOf(s.log) + EvictedOf(s.log) +
                               multiset(Contents(s.buffer.keys, s.buffer.vals))
            && DroppedOf(s.log) == multiset{}
            && |s.buffer.keys| <= c.caps.maxRuns && (c.caps.maxRecords >= 0 ==> s.count <= c.caps.maxRecords)
  {
    ArrivedIsInput(c, rs);
    NothingDropped(c, rs);
    AfterInv(c, rs);
  }

  lemma StepPasses<K(!new), P>(c: Settings, s: State<K, Record<K, P>>, r: Record<K, P>)
    ensures PassedOf(Step(c, s, r).log) == PassedOf(s.log) + (if Holds(c, s, r) then multiset{} else multiset{r})
    ensures DroppedOf(Step(c, s, r).log) == DroppedOf(s.log)
  {
    if r.run.None? || r.run.value in s.done {
      NotePasses(s, r);
    } else if r.level >= c.flushAt {
      FlushPasses(s, r.run.value);
      NotePasses(Flush(s, r.run.value), r);
    } else if r.level >= c.shipAt {
      NotePasses(s, r);
    } else if c.caps.maxRuns >= 1 {
      StorePasses(c.caps, s, r.run.value, r);
    }
  }

  lemma {:induction false} NothingDropped<K(!new), P>(c: Settings, rs: seq<Record<K, P>>)
    ensures DroppedOf(After(c, rs).log) == multiset{}
  {
    if rs != [] {
      NothingDropped(c, rs[..|rs| - 1]);
      StepPasses(c, After(c, rs[..|rs| - 1]), rs[|rs| - 1]);
    }
  }

  // ---- Which runs fail, which records are held back ----

  /** Some record of run `k` reached `flush_at`. */
  ghost predicate Failed<K(!new), P>(c: Settings, rs: seq<Record<K, P>>, k: K) {
    exists i :: 0 <= i < |rs| && FailsAt(c, rs, i, k)
  }

  predicate FailsAt<K(==), P>(c: Settings, rs: seq<Record<K, P>>, i: nat, k: K)
    requires i < |rs|
  {
    rs[i].run == Some(k) && rs[i].level >= c.flushAt
  }

  lemma FailedGrows<K(!new), P>(c: Settings, rs: seq<Record<K, P>>, r: Record<K, P>, k: K)
    ensures Failed(c, rs + [r], k) <==> Failed(c, rs, k) || (r.run == Some(k) && r.level >= c.flushAt)
  {
    var all := rs + [r];
    if Failed(c, rs, k) {
      var i :| 0 <= i < |rs| && FailsAt(c, rs, i, k);
      assert FailsAt(c, all, i, k);
    }
    if r.run == Some(k) && r.level >= c.flushAt {
      assert FailsAt(c, all, |rs|, k);
    }
    if Failed(c, all, k) {
      var i :| 0 <= i < |all| && FailsAt(c, all, i, k);
      assert i < |rs| ==> FailsAt(c, rs, i, k);
    }
  }

  lemma StepShips<K(!new), P>(c: Settings, s: State<K, Record<K, P>>, r: Record<K, P>)
    requires s.done == ShippedRuns(s.log)
    ensures var s' := Step(c, s, r);
            && s'.done == ShippedRuns(s'.log)
            && s'.done == s.done + (if r.run.Some? && r.level >= c.flushAt then {r.run.value} else {})
  {
    if r.run.None? || r.run.value in s.done {
      LogGrows(s.log, Passed(r));
    } else if r.level >= c.flushAt {
      LogGrows(s.log, Shipped(r.run.value, s.buffer.Get(r.run.value, [])));
      LogGrows(Flush(s, r.run.value).log, Passed(r));
    } else if r.level >= c.shipAt {
      LogGrows(s.log, Passed(r));
    } else if c.caps.maxRuns >= 1 {
      StoreDone(c.caps, s, r.run.value, r);
    }
  }

  lemma {:induction false} DoneIffFailed<K(!new), P>(c: Settings, rs: seq<Record<K, P>>, k: K)
    ensures After(c, rs).done == ShippedRuns(After(c, rs).log)
    ensures k in After(c, rs).done <==> Failed(c, rs, k)
  {
    if rs != [] {
      var before, r := rs[..|rs| - 1], rs[|rs| - 1];
      assert rs == before + [r];
      DoneIffFailed(c, before, k);
      FailedGrows(c, before, r, k);
      StepShips(c, After(c, before), r);
      assert After(c, rs) == Step(c, After(c, before), r);
    }
  }

  /** A run is flushed if and only if one of its records reached `flush_at`: a passing run never ships anything. */
  lemma {:induction false} ShippedIffFailed<K(!new), P>(c: Settings, rs: seq<Record<K, P>>, k: K)
    ensures EverShipped(After(c, rs).log, k) <==> Failed(c, rs, k)
    ensures k in After(c, rs).done <==> Failed(c, rs, k)
  {
    DoneIffFailed(c, rs, k);
    ShippedRunsMeaning(After(c, rs).log, k);
  }

  /** After the records `rs`, `r` is to be held back: below both levels, of a run that has not failed. */
  ghost predicate HoldsBack<K(!new), P>(c: Settings, rs: seq<Record<K, P>>, r: Record<K, P>) {
    r.run.Some? && r.level < c.flushAt && r.level < c.shipAt && !Failed(c, rs, r.run.value)
  }

  lemma HoldsIffHoldsBack<K(!new), P>(c: Settings, rs: seq<Record<K, P>>, r: Record<K, P>)
    ensures Holds(c, After(c, rs), r) <==> HoldsBack(c, rs, r)
  {
    if r.run.Some? {
      ShippedIffFailed(c, rs, r.run.value);
    }
  }

  /** Over every run, a record passes when it arrives exactly if it is not one to hold back. */
  lemma {:induction false} PassesIffNotHeld<K(!new), P>(c: Settings, rs: seq<Record<K, P>>, r: Record<K, P>)
    ensures PassedOf(After(c, rs + [r]).log) ==
            PassedOf(After(c, rs).log) + (if HoldsBack(c, rs, r) then multiset{} else multiset{r})
  {
    assert (rs + [r])[..|rs|] == rs;
    HoldsIffHoldsBack(c, rs, r);
    StepPasses(c, After(c, rs), r);
  }

  /** A record at or above `ship_at` passes as often as it comes in, whatever else happens. */
  lemma {:induction false} ShipLevelAlwaysPasses<K(!new), P>(c: Settings, rs: seq<Record<K, P>>, r: Record<K, P>)
    requires r.level >= c.shipAt
    ensures PassedOf(After(c, rs).log)[r] == multiset(rs)[r]
  {
    if rs != [] {
      ShipLevelAlwaysPasses(c, rs[..|rs| - 1], r);
      StepPasses(c, After(c, rs[..|rs| - 1]), rs[|rs| - 1]);
      SplitLast(rs);
    }
  }

  /** Without room for a single run nothing is ever held, so there is nothing to evict. */
  lemma {:induction false} NoRoomNothingHeld<K(!new), P>(c: Settings, rs: seq<Record<K, P>>)
    requires c.caps.maxRuns < 1
    ensures After(c, rs).buffer == Empty() && After(c, rs).count == 0
  {
    if rs != [] {
      NoRoomNothingHeld(c, rs[..|rs| - 1]);
    }
  }

  lemma {:induction false} AfterInv<K(!new), P>(c: Settings, rs: seq<Record<K, P>>)
    requires c.caps.maxRuns >= 1
    ensures Inv(c.caps, After(c, rs)) && Within(c.caps, After(c, rs))
  {
    if rs != [] {
      AfterInv(c, rs[..|rs| - 1]);
      StepInv(c, After(c, rs[..|rs| - 1]), rs[|rs| - 1]);
    } else {
      InitialInv<K, Record<K, P>>(c.caps);
    }
  }

  lemma {:induction false} ArrivedIsInput<K(!new), P>(c: Settings, rs: seq<Record<K, P>>)
    requires c.caps.maxRuns >= 1
    ensures Arrived(After(c, rs).log) == multiset(rs)
  {
    if rs != [] {
      ArrivedIsInput(c, rs[..|rs| - 1]);
      StepArrived(c, After(c, rs[..|rs| - 1]), rs[|rs| - 1]);
      SplitLast(rs);
    }
  }

  /** The records of run `k` below the ship level. */
  function HeldBack<K(==), P>(c: Settings, rs: seq<Record<K, P>>, k: K): seq<Record<K, P>> {
    if rs == [] then []
    else HeldBack(c, rs[..|rs| - 1], k) +
         (if rs[|rs| - 1].run == Some(k) && rs[|rs| - 1].level < c.shipAt then [rs[|rs| - 1]] else [])
  }

  /** Of a run that has not failed and was never evicted, the history keeps every record below `ship_at`, in order. */
  lemma {:induction false} UnevictedTail<K(!new), P>(c: Settings, rs: seq<Record<K, P>>, k: K)
    requires c.caps.maxRuns >= 1
    requires !Failed(c, rs, k) && !EverEvicted(After(c, rs).log, k)
    ensures Tail(After(c, rs).log, k) == HeldBack(c, rs, k)
  {
    if rs != [] {
      var before, r := rs[..|rs| - 1], rs[|rs| - 1];
      var s := After(c, before);
      assert rs == before + [r];
      FailedGrows(c, before, r, k);
      HoldsIffHoldsBack(c, before, r);
      if Holds(c, s, r) {
        StoreTail(c.caps, s, r.run.value, r, k);
      } else {
        PassedTail(c, s, r, k);
        ShippedIffFailed(c, before, k);
      }
      UnevictedTail(c, before, k);
    }
  }

  /** A record that passes leaves the tail of every run alone but the one it may flush. */
  lemma PassedTail<K(!new), P>(c: Settings, s: State<K, Record<K, P>>, r: Record<K, P>, k: K)
    requires !Holds(c, s, r) && !EverEvicted(Step(c, s, r).log, k) && !(r.run == Some(k) && r.level >= c.flushAt)
    ensures !EverEvicted(s.log, k) && Tail(Step(c, s, r).log, k) == Tail(s.log, k)
  {
    if r.run.Some? && r.run.value !in s.done && r.level >= c.flushAt {
      var s1 := Flush(s, r.run.value);
      UnevictedStep(s1.log, Passed(r), k);
      UnevictedStep(s.log, s1.log[|s.log|], k);
    } else {
      UnevictedStep(s.log, Passed(r), k);
    }
  }

  /**
    A run that fails ships its full trail: its first record at or above `flush_at`, if none of its records was
    evicted, ships exactly its records below `ship_at` in order of arrival, and then passes itself.
   */
  lemma FailingRunShipsItsTrail<K(!new), P>(c: Settings, rs: seq<Record<K, P>>, r: Record<K, P>)
    requires c.caps.maxRuns >= 1
    requires r.run.Some? && r.level >= c.flushAt
    requires !Failed(c, rs, r.run.value) && !EverEvicted(After(c, rs).log, r.run.value)
    ensures After(c, rs + [r]).log == After(c, rs).log + [Shipped(r.run.value, HeldBack(c, rs, r.run.value)), Passed(r)]
  {
    assert (rs + [r])[..|rs|] == rs;
    AfterInv(c, rs);
    BufferIsTail(c.caps, After(c, rs), r.run.value);
    UnevictedTail(c, rs, r.run.value);
    ShippedIffFailed(c, rs, r.run.value);
  }

  lemma {:induction false} HistoryGrows<K(!new), P>(c: Settings, rs: seq<Record<K, P>>, n: nat)
    requires n <= |rs|
    ensures After(c, rs[..n]).log <= After(c, rs).log
  {
    if n < |rs| {
      var before, r := rs[..|rs| - 1], rs[|rs| - 1];
      assert before[..n] == rs[..n];
      HistoryGrows(c, before, n);
      if Holds(c, After(c, before), r) && c.caps.maxRuns >= 1 {
        TrimTail(c.caps, Add(MakeRoom(c.caps, After(c, before), r.run.value), r.run.value, r), r.run.value);
      }
    } else {
      assert rs[..n] == rs;
    }
  }

  /**
    The same looking back on a whole run: what run `k`, which first failed at record `i`, held back until then was
    shipped right before that record, and nothing of `k` was ever shipped again.
   */
  lemma TrailShippedOnce<K(!new), P>(c: Settings, rs: seq<Record<K, P>>, i: nat, k: K)
    requires c.caps.maxRuns >= 1
    requires i < |rs| && FailsAt(c, rs, i, k) && !Failed(c, rs[..i], k)
    requires !EverEvicted(After(c, rs[..i]).log, k)
    ensures var log, at := After(c, rs).log, |After(c, rs[..i]).log|;
            && |log| >= at + 2 && log[at] == Shipped(k, HeldBack(c, rs[..i], k)) && log[at + 1] == Passed(rs[i])
            && forall p :: 0 <= p < |log| && log[p].Shipped? && log[p].key == k ==> p == at
  {
    FirstFailureLogged(c, rs, i, k);
    StillThere(After(c, rs[..i]).log, Shipped(k, HeldBack(c, rs[..i], k)), Passed(rs[i]), After(c, rs).log);
    AfterShipments(c, rs);
    OnlyShipment(After(c, rs).log, After(c, rs).done, |After(c, rs[..i]).log|, k);
  }

  lemma FirstFailureLogged<K(!new), P>(c: Settings, rs: seq<Record<K, P>>, i: nat, k: K)
    requires c.caps.maxRuns >= 1
    requires i < |rs| && FailsAt(c, rs, i, k) && !Failed(c, rs[..i], k)
    requires !EverEvicted(After(c, rs[..i]).log, k)
    ensures After(c, rs[..i]).log + [Shipped(k, HeldBack(c, rs[..i], k)), Passed(rs[i])] <= After(c, rs).log
  {
    FailingRunShipsItsTrail(c, rs[..i], rs[i]);
    assert rs[..i + 1] == rs[..i] + [rs[i]];
    HistoryGrows(c, rs, i + 1);
  }

  lemma AfterShipments<K(!new), P>(c: Settings, rs: seq<Record<K, P>>)
    requires c.caps.maxRuns >= 1
    ensures DoneStays(After(c, rs).log, After(c, rs).done)
  {
    AfterInv(c, rs);
  }

  // ---- When nothing is evicted ----

  predicate IsCandidate<K, P>(c: Settings, r: Record<K, P>) {
    r.run.Some? && r.level < c.flushAt && r.level < c.shipAt
  }

  /** The records that can be held back at all. */
  function Candidates<K, P>(c: Settings, rs: seq<Record<K, P>>): seq<Record<K, P>> {
    if rs == [] then []
    else Candidates(c, rs[..|rs| - 1]) + (if IsCandidate(c, rs[|rs| - 1]) then [rs[|rs| - 1]] else [])
  }

  function Runs<K(==), P>(rs: seq<Record<K, P>>): set<K> {
    if rs == [] then {}
    else Runs(rs[..|rs| - 1]) + (if rs[|rs| - 1].run.Some? then {rs[|rs| - 1].run.value} else {})
  }

  /** So far the records to hold back, and the runs they belong to, fit the caps. */
  ghost predicate Fits<K(!new), P>(c: Settings, rs: seq<Record<K, P>>) {
    |Runs(Candidates(c, rs))| <= c.caps.maxRuns && |Candidates(c, rs)| <= c.caps.maxRecords
  }

  lemma {:induction false} FitsRoomy<K(!new), P>(c: Settings, rs: seq<Record<K, P>>)
    requires c.caps.maxRuns >= 1 && Fits(c, rs)
    ensures Roomy(After(c, rs), Runs(Candidates(c, rs)), |Candidates(c, rs)|)
  {
    if rs != [] {
      var before, r := rs[..|rs| - 1], rs[|rs| - 1];
      var held := Candidates(c, before);
      if IsCandidate(c, r) {
        AppendTake(held, r);
        SubsetSize(Runs(held), Runs(held + [r]));
        FitsRoomy(c, before);
        CandidateRoomy(c, After(c, before), r, Runs(held), |held|);
      } else {
        assert Candidates(c, rs) == held;
        FitsRoomy(c, before);
        OtherRoomy(c, After(c, before), r, Runs(held), |held|);
      }
    } else {
      assert Candidates(c, rs) == [];
    }
  }

  lemma CandidateRoomy<K(!new), P>(c: Settings, s: State<K, Record<K, P>>, r: Record<K, P>, runs: set<K>, n: nat)
    requires c.caps.maxRuns >= 1 && Roomy(s, runs, n) && IsCandidate(c, r)
    requires |runs + {r.run.value}| <= c.caps.maxRuns && n + 1 <= c.caps.maxRecords
    ensures Roomy(Step(c, s, r), runs + {r.run.value}, n + 1)
  {
    if r.run.value in s.done {
      RoomyNote(s, Passed(r), runs, n);
    } else {
      RoomyStore(c.caps, s, r.run.value, r, runs, n);
    }
  }

  lemma OtherRoomy<K(!new), P>(c: Settings, s: State<K, Record<K, P>>, r: Record<K, P>, runs: set<K>, n: nat)
    requires Roomy(s, runs, n) && !IsCandidate(c, r)
    ensures Roomy(Step(c, s, r), runs, n)
  {
    if r.run.Some? && r.run.value !in s.done && r.level >= c.flushAt {
      RoomyFlush(s, r.run.value, runs, n);
      RoomyNote(Flush(s, r.run.value), Passed(r), runs, n);
    } else {
      RoomyNote(s, Passed(r), runs, n);
    }
  }

  /** As long as the records to hold back fit the caps nothing is evicted, and a failing run's trail is complete. */
  lemma FittingTrailShips<K(!new), P>(c: Settings, rs: seq<Record<K, P>>, r: Record<K, P>)
    requires c.caps.maxRuns >= 1 && Fits(c, rs)
    ensures EvictedOf(After(c, rs).log) == multiset{}
    ensures r.run.Some? && r.level >= c.flushAt && !Failed(c, rs, r.run.value) ==>
              After(c, rs + [r]).log == After(c, rs).log + [Shipped(r.run.value, HeldBack(c, rs, r.run.value)), Passed(r)]
  {
    FitsRoomy(c, rs);
    NoneEvicted(After(c, rs).log);
    if r.run.Some? && r.level >= c.flushAt && !Failed(c, rs, r.run.value) {
      FailingRunShipsItsTrail(c, rs, r);
    }
  }

  // ---- The object ----

  class FlightRecorderPlugin<K(==,!new), P> {
    const settings: Settings
    const runs: RunBuffer<K, Record<K, P>>
    /** Every record this instance was given. */
    ghost var seen: seq<Record<K, P>>

    ghost predicate Valid()
      reads this, runs
    {
      && runs.caps == settings.caps
      && runs.Matches()
      && runs.model == After(settings, seen)
    }

    constructor (settings: Settings)
      ensures Valid() && seen == [] && this.settings == settings && fresh(runs)
    {
      this.settings := settings;
      runs := new RunBuffer(settings.caps);
      seen := [];
    }

    /** With `max_runs` below 1 a record to hold back ends in KeyError, and nothing has changed. */
    method BeforeLog(r: Record<K, P>) returns (out: Outcome<Record<K, P>>)
      requires Valid()
      modifies this`seen, runs
      ensures Valid() && seen == old(seen) + [r]
      ensures runs.sent == old(runs.sent) +
                           if r.run.Some? && r.level >= settings.flushAt && !Failed(settings, old(seen), r.run.value)
                           then old(runs.buffer).Get(r.run.value, []) else []
      ensures !HoldsBack(settings, old(seen), r) ==> out == Returned(Some(r)) && LastEvent(runs.model.log) == Some(Passed(r))
      ensures HoldsBack(settings, old(seen), r) ==>
                out == (if settings.caps.maxRuns >= 1 then Returned(None) else KeyError) &&
                PassedOf(runs.model.log) == old(PassedOf(runs.model.log))
    {
      assert (seen + [r])[..|seen|] == seen;
      HoldsIffHoldsBack(settings, seen, r);
      if r.run.Some? {
        ShippedIffFailed(settings, seen, r.run.value);
      }
      if Holds(settings, runs.model, r) {
        StepPasses(settings, runs.model, r);
      }
      if settings.caps.maxRuns < 1 {
        NoRoomNothingHeld(settings, seen);
      }
      seen := seen + [r];
      if r.run.None? || r.run.value in runs.done {
        runs.Record(Passed(r));
        return Returned(Some(r));
      }
      if r.level >= settings.flushAt {
        runs.FlushRun(r.run.value);
        runs.Record(Passed(r));
        return Returned(Some(r));
      }
      if r.level >= settings.shipAt {
        runs.Record(Passed(r));
        return Returned(Some(r));
      }
      if r.run.value !in runs.buffer.vals && |runs.buffer.keys| >= settings.caps.maxRuns && runs.buffer.keys == [] {
        return KeyError;
      }
      runs.BufferRecord(r.run.value, r);
      return Returned(None);
    }
  }
}
