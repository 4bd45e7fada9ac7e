/**
  The background dispatch queue (logquill/runtime/worker.py). Each lock-protected section is one atomic step; a run
  is any interleaving of steps of the worker thread, submitting threads, draining threads and a closing thread.
  `State` adds histories to the real fields: what was submitted and accepted, and the fate of each item that has
  left the queue.
 */
module Worker {
  import opened OrderedDicts

  datatype Policy = DropOldest | DropNewest | Block

  /** How an accepted item left the queue: handed to the worker thread, or evicted to make room. */
  datatype Fate = Ran | Evicted

  /** A drain call: how many items had been accepted when it began, and whether it has a deadline. */
  datatype Drain = Drain(began: nat, timed: bool)

  /** How it ended: what it returned, whether its deadline had passed, and whether anything was queued or in hand. */
  datatype Ended = Ended(drain: Drain, drained: bool, late: bool, busy: bool)

  datatype State<T> = State(
    queue: seq<T>,
    pending: int,
    closed: bool,
    running: Option<T>,        // the item the worker thread has taken and not finished
    exited: bool,              // the worker thread has returned
    waiting: seq<T>,           // items of submitters blocked on a full queue
    drains: map<nat, Drain>,   // drain calls in progress
    ended: seq<Ended>,         // drain calls that have returned
    submitted: seq<T>,         // every item submitted while the worker was open
    accepted: seq<T>,          // every item ever put on the queue, in order
    fates: seq<Fate>,          // the fate of the accepted items that have left the queue, in order
    executed: seq<T>)          // every item the worker thread has finished, in order

  function Initial<T>(): State<T> {
    State([], 0, false, None, false, [], map[], [], [], [], [], [])
  }

  datatype Step<T> =
    | Submit(item: T)
    | Resume(k: nat)           // the k-th blocked submitter gets the lock back
    | WorkerStep               // the worker thread takes an item, finishes one, or exits
    | BeginDrain(caller: nat, timed: bool)
    | CheckDrain(caller: nat, late: bool)   // one pass of the drain loop, before or after the deadline
    | Close

  /** `_queue.append(item); _pending += 1`. */
  function Append<T>(s: State<T>, item: T): State<T> {
    s.(queue := s.queue + [item], pending := s.pending + 1, accepted := s.accepted + [item])
  }

  function DoSubmit<T>(size: nat, policy: Policy, s: State<T>, item: T): State<T>
    requires size >= 1
  {
    if s.closed then s
    else
      var s := s.(submitted := s.submitted + [item]);
      if |s.queue| < size then Append(s, item)
      else match policy
        case Block => s.(waiting := s.waiting + [item])
        case DropNewest => s
        case DropOldest =>
          Append(s.(queue := s.queue[1..], pending := s.pending - 1, fates := s.fates + [Evicted]), item)
  }

  function DoResume<T>(size: nat, s: State<T>, k: nat): State<T> {
    if k >= |s.waiting| then s
    else
      var s' := s.(waiting := s.waiting[..k] + s.waiting[k + 1..]);
      if s.closed then s'
      else if |s.queue| >= size then s
      else Append(s', s.waiting[k])
  }

  function DoWorker<T>(s: State<T>): State<T> {
    if s.exited then s
    else if s.running.Some? then
      s.(running := None, pending := s.pending - 1, executed := s.executed + [s.running.value])
    else if s.queue != [] then
      s.(queue := s.queue[1..], running := Some(s.queue[0]), fates := s.fates + [Ran])
    else if s.closed then s.(exited := true)
    else s
  }

  /** What a drain call returns when it holds the lock; `None` when it goes on waiting. */
  function DrainResult<T>(s: State<T>, timedOut: bool): Option<bool> {
    if s.pending <= 0 then Some(true) else if timedOut then Some(false) else None
  }

  predicate Busy<T>(s: State<T>) {
    s.queue != [] || s.running.Some?
  }

  function DoCheck<T>(s: State<T>, caller: nat, late: bool): State<T>
    requires caller in s.drains
  {
    var drain := s.drains[caller];
    match DrainResult(s, drain.timed && late)
    case None => s
    case Some(drained) => s.(drains := s.drains - {caller}, ended := s.ended + [Ended(drain, drained, late, Busy(s))])
  }

  function Apply<T>(size: nat, policy: Policy, s: State<T>, step: Step<T>): State<T>
    requires size >= 1
  {
    match step
    case Submit(item) => DoSubmit(size, policy, s, item)
    case Resume(k) => DoResume(size, s, k)
    case WorkerStep => DoWorker(s)
    case BeginDrain(caller, timed) => s.(drains := s.drains[caller := Drain(|s.accepted|, timed)])
    case CheckDrain(caller, late) => if caller in s.drains then DoCheck(s, caller, late) else s
    case Close => s.(closed := true)
  }

  function Run<T>(size: nat, policy: Policy, s: State<T>, steps: seq<Step<T>>): State<T>
    requires size >= 1
    decreases |steps|
  {
    if steps == [] then s else Run(size, policy, Apply(size, policy, s, steps[0]), steps[1..])
  }

  /** The items among `items` that were handed to the worker thread. */
  function Started<T>(items: seq<T>, fates: seq<Fate>): seq<T>
    requires |items| == |fates|
  {
    if items == [] then []
    else Started(items[..|items| - 1], fates[..|fates| - 1]) +
         (if fates[|fates| - 1] == Ran then [items[|items| - 1]] else [])
  }

  function InHand<T>(s: State<T>): seq<T> {
    if s.running.Some? then [s.running.value] else []
  }

  ghost predicate Inv<T>(size: nat, policy: Policy, s: State<T>) {
    && |s.queue| <= size
    && s.pending == |s.queue| + |InHand(s)|
    && |s.fates| + |s.queue| == |s.accepted|
    && s.queue == s.accepted[|s.fates|..]
    && s.executed + InHand(s) == Started(s.accepted[..|s.fates|], s.fates)
    && (policy != DropOldest ==> Evicted !in s.fates)
    && (policy == DropOldest ==> s.accepted == s.submitted)
    && (policy != Block ==> s.waiting == [])
    && (policy == Block && !s.closed ==> multiset(s.submitted) == multiset(s.accepted) + multiset(s.waiting))
    && (s.exited ==> s.closed && s.queue == [] && s.running.None?)
    && (forall c :: c in s.drains ==> s.drains[c].began <= |s.accepted|)
  }

  lemma InitialInv<T>(size: nat, policy: Policy)
    ensures Inv<T>(size, policy, Initial())
  {
  }

  /** The oldest queued item leaves the queue with the given fate. */
  lemma Leaves<T>(s: State<T>, fate: Fate)
    requires |s.fates| + |s.queue| == |s.accepted| && s.queue == s.accepted[|s.fates|..] && s.queue != []
    ensures var n := |s.fates|;
            && s.queue[1..] == s.accepted[n + 1..]
            && Started(s.accepted[..n + 1], s.fates + [fate]) ==
               Started(s.accepted[..n], s.fates) + if fate == Ran then [s.queue[0]] else []
  {
    var n := |s.fates|;
    assert s.accepted[..n + 1][..n] == s.accepted[..n];
    assert (s.fates + [fate])[..n] == s.fates;
  }

  /** Room on the queue: the item goes last. */
  lemma AppendInv<T>(size: nat, policy: Policy, s: State<T>, item: T)
    requires |s.queue| < size && !s.closed
    requires Inv(size, policy, s)
    ensures Inv(size, policy, Append(s.(submitted := s.submitted + [item]), item))
  {
    var s' := Append(s.(submitted := s.submitted + [item]), item);
    assert s'.accepted[..|s'.fates|] == s.accepted[..|s.fates|];
  }

  lemma EvictInv<T>(size: nat, s: State<T>)
    requires Inv(size, DropOldest, s) && s.queue != []
    ensures Inv(size, DropOldest, s.(queue := s.queue[1..], pending := s.pending - 1, fates := s.fates + [Evicted]))
  {
    Leaves(s, Evicted);
  }

  lemma SubmitInv<T>(size: nat, policy: Policy, s: State<T>, item: T)
    requires size >= 1 && Inv(size, policy, s)
    ensures Inv(size, policy, DoSubmit(size, policy, s, item))
  {
    if !s.closed {
      if |s.queue| < size {
        AppendInv(size, policy, s, item);
      } else if policy == DropOldest {
        EvictInv(size, s);
        AppendInv(size, policy, s.(queue := s.queue[1..], pending := s.pending - 1, fates := s.fates + [Evicted]), item);
      }
    }
  }

  lemma ResumeInv<T>(size: nat, policy: Policy, s: State<T>, k: nat)
    requires size >= 1 && Inv(size, policy, s)
    ensures Inv(size, policy, DoResume(size, s, k))
  {
    if k < |s.waiting| && !s.closed && |s.queue| < size {
      var s' := DoResume(size, s, k);
      assert s'.accepted[..|s'.fates|] == s.accepted[..|s.fates|];
      assert s.waiting == s.waiting[..k] + [s.waiting[k]] + s.waiting[k + 1..];
      assert multiset(s.waiting) == multiset(s'.waiting) + multiset{s.waiting[k]};
    }
  }

  lemma TakeInv<T>(size: nat, policy: Policy, s: State<T>)
    requires Inv(size, policy, s) && s.queue != [] && s.running.None? && !s.exited
    ensures Inv(size, policy, DoWorker(s))
  {
    var s' := DoWorker(s);
    Leaves(s, Ran);
    assert s.executed + InHand(s) == s.executed;
    assert s'.accepted[..|s'.fates|] == s.accepted[..|s.fates| + 1];
  }

  lemma FinishInv<T>(size: nat, policy: Policy, s: State<T>)
    requires Inv(size, policy, s) && s.running.Some? && !s.exited
    ensures Inv(size, policy, DoWorker(s))
  {
    var s' := DoWorker(s);
    assert s'.executed + InHand(s') == s.executed + InHand(s);
  }

  lemma WorkerInv<T>(size: nat, policy: Policy, s: State<T>)
    requires Inv(size, policy, s)
    ensures Inv(size, policy, DoWorker(s))
  {
    if s.exited {
    } else if s.running.Some? {
      FinishInv(size, policy, s);
    } else if s.queue != [] {
      TakeInv(size, policy, s);
    }
  }

  lemma StepInv<T>(size: nat, policy: Policy, s: State<T>, step: Step<T>)
    requires size >= 1 && Inv(size, policy, s)
    ensures Inv(size, policy, Apply(size, policy, s, step))
  {
    match step
    case Submit(item) => SubmitInv(size, policy, s, item);
    case Resume(k) => ResumeInv(size, policy, s, k);
    case WorkerStep => WorkerInv(size, policy, s);
    case _ =>
  }

  /** What every interleaving keeps. */
  lemma {:induction false} RunInv<T>(size: nat, policy: Policy, s: State<T>, steps: seq<Step<T>>)
    requires size >= 1 && Inv(size, policy, s)
    ensures Inv(size, policy, Run(size, policy, s, steps))
    decreases |steps|
  {
    if steps != [] {
      StepInv(size, policy, s, steps[0]);
      RunInv(size, policy, Apply(size, policy, s, steps[0]), steps[1..]);
    }
  }

  // ---- What the invariant gives over whole runs ----

  lemma AcceptedSplit<T>(size: nat, policy: Policy, s: State<T>)
    requires Inv(size, policy, s)
    ensures var left := |s.accepted| - |s.queue|;
            && |s.fates| == left && s.accepted == s.accepted[..left] + s.queue
            && s.executed + InHand(s) == Started(s.accepted[..left], s.fates)
  {
  }

  lemma FatesCounted<T>(size: nat, policy: Policy, s: State<T>)
    requires Inv(size, policy, s)
    ensures |s.accepted| == |s.executed| + |InHand(s)| + |s.queue| + multiset(s.fates)[Evicted]
  {
    StartedCount(s.accepted[..|s.fates|], s.fates);
  }

  /** Every accepted item is executed, in hand, queued or evicted, and items start in the order of acceptance. */
  lemma AcceptedAccounted<T>(size: nat, policy: Policy, steps: seq<Step<T>>)
    requires size >= 1
    ensures var s := Run(size, policy, Initial(), steps); var left := |s.accepted| - |s.queue|;
            && |s.queue| <= size && s.pending == |s.queue| + |InHand(s)|
            && |s.fates| == left && s.accepted == s.accepted[..left] + s.queue
            && s.executed + InHand(s) == Started(s.accepted[..left], s.fates)
            && |s.accepted| == |s.executed| + |InHand(s)| + |s.queue| + multiset(s.fates)[Evicted]
  {
    InitialInv<T>(size, policy);
    RunInv(size, policy, Initial(), steps);
    AcceptedSplit(size, policy, Run(size, policy, Initial(), steps));
    FatesCounted(size, policy, Run(size, policy, Initial(), steps));
  }

  lemma {:induction false} StartedCount<T>(items: seq<T>, fates: seq<Fate>)
    requires |items| == |fates|
    ensures |Started(items, fates)| + multiset(fates)[Evicted] == |items|
  {
    if items != [] {
      var n := |items| - 1;
      StartedCount(items[..n], fates[..n]);
      assert fates == fates[..n] + [fates[n]];
    }
  }

  lemma {:induction false} AllRan<T>(items: seq<T>, fates: seq<Fate>)
    requires |items| == |fates| && Evicted !in fates
    ensures Started(items, fates) == items
  {
    if items != [] {
      var n := |items| - 1;
      AllRan(items[..n], fates[..n]);
      assert items == items[..n] + [items[n]];
    }
  }

  /** When nothing is ever evicted, what was executed, is in hand and is queued is the accepted sequence itself. */
  lemma NothingEvicted<T>(size: nat, policy: Policy, steps: seq<Step<T>>)
    requires size >= 1 && policy != DropOldest
    ensures var s := Run(size, policy, Initial(), steps);
            && s.executed + InHand(s) + s.queue == s.accepted
            && (policy == Block && !s.closed ==> multiset(s.submitted) == multiset(s.accepted) + multiset(s.waiting))
  {
    InitialInv<T>(size, policy);
    RunInv(size, policy, Initial(), steps);
    var s := Run(size, policy, Initial(), steps);
    AllRan(s.accepted[..|s.fates|], s.fates);
  }

  /** Under drop_oldest everything submitted is accepted and the queue is the newest part of the submissions. */
  lemma QueueIsNewest<T>(size: nat, steps: seq<Step<T>>)
    requires size >= 1
    ensures var s := Run(size, DropOldest, Initial(), steps);
            && |s.queue| <= |s.submitted| && s.queue == s.submitted[|s.submitted| - |s.queue|..]
  {
    InitialInv<T>(size, DropOldest);
    RunInv(size, DropOldest, Initial(), steps);
  }

  function Burst<T>(items: seq<T>): seq<Step<T>> {
    if items == [] then [] else [Submit(items[0])] + Burst(items[1..])
  }

  function Newest<T>(items: seq<T>, n: nat): seq<T> {
    if |items| <= n then items else items[|items| - n..]
  }

  function Oldest<T>(items: seq<T>, n: nat): seq<T> {
    if |items| <= n then items else items[..n]
  }

  lemma NewestDrop<T>(items: seq<T>, n: nat)
    requires |items| > n
    ensures Newest(items[1..], n) == Newest(items, n)
  {
  }

  /** What a queue of `size` keeps of a burst. */
  function Survivors<T>(policy: Policy, items: seq<T>, size: nat): seq<T> {
    if policy == DropOldest then Newest(items, size) else Oldest(items, size)
  }

  lemma BurstFirst<T>(size: nat, policy: Policy, s: State<T>, item: T, rest: seq<T>)
    requires size >= 1 && |s.queue| <= size && !s.closed && policy != Block
    ensures var s1 := DoSubmit(size, policy, s, item);
            && |s1.queue| <= size && !s1.closed && s1.running == s.running && s1.executed == s.executed
            && Survivors(policy, s1.queue + rest, size) == Survivors(policy, s.queue + ([item] + rest), size)
  {
    var all := s.queue + ([item] + rest);
    var left := DoSubmit(size, policy, s, item).queue + rest;
    if |s.queue| < size {
      assert left == all;
    } else if policy == DropOldest {
      assert left == all[1..];
      NewestDrop(all, size);
    } else {
      assert Oldest(left, size) == s.queue && Oldest(all, size) == s.queue;
    }
  }

  /** A burst against a stalled worker: drop_oldest leaves the newest items that fit, drop_newest the oldest. */
  lemma {:induction false} BurstExact<T>(size: nat, policy: Policy, s: State<T>, items: seq<T>)
    requires size >= 1 && |s.queue| <= size && !s.closed && policy != Block
    ensures var s' := Run(size, policy, s, Burst(items));
            && s'.queue == Survivors(policy, s.queue + items, size)
            && s'.running == s.running && s'.executed == s.executed
    decreases |items|
  {
    if items == [] {
      assert s.queue + items == s.queue;
    } else {
      assert items == [items[0]] + items[1..];
      BurstFirst(size, policy, s, items[0], items[1..]);
      BurstExact(size, policy, DoSubmit(size, policy, s, items[0]), items[1..]);
      assert Burst(items)[1..] == Burst(items[1..]);
    }
  }

  // ---- Drain and close ----

  /** A drain that returns True finds every item accepted before it began executed or evicted. */
  lemma DrainedMeansDone<T>(size: nat, policy: Policy, steps: seq<Step<T>>, caller: nat, late: bool)
    requires size >= 1
    requires var s := Run(size, policy, Initial(), steps);
             && caller in s.drains
             && var ended := Apply(size, policy, s, CheckDrain(caller, late)).ended;
                |ended| > |s.ended| && ended[|s.ended|].drained
    ensures var s := Run(size, policy, Initial(), steps); var n := s.drains[caller].began;
            && n <= |s.fates| == |s.accepted| && s.queue == [] && s.running.None?
            && s.executed == Started(s.accepted[..|s.fates|], s.fates) && Started(s.accepted[..n], s.fates[..n]) <= s.executed
  {
    InitialInv<T>(size, policy);
    RunInv(size, policy, Initial(), steps);
    var s := Run(size, policy, Initial(), steps);
    var n := s.drains[caller].began;
    StartedPrefix(s.accepted[..|s.fates|], s.fates, n);
    assert s.accepted[..|s.fates|][..n] == s.accepted[..n];
  }

  lemma {:induction false} StartedPrefix<T>(items: seq<T>, fates: seq<Fate>, n: nat)
    requires |items| == |fates| && n <= |items|
    ensures Started(items[..n], fates[..n]) <= Started(items, fates)
  {
    if n == |items| {
      assert items[..n] == items && fates[..n] == fates;
    } else {
      var m := |items| - 1;
      StartedPrefix(items[..m], fates[..m], n);
      assert items[..m][..n] == items[..n] && fates[..m][..n] == fates[..n];
    }
  }

  /**
    One check of a drain call returns True exactly if nothing is queued or in hand, False exactly if something is and
    the call's deadline has passed, and otherwise leaves the call waiting.
   */
  lemma DrainReturnsIffDone<T>(size: nat, policy: Policy, steps: seq<Step<T>>, caller: nat, late: bool)
    requires size >= 1 && caller in Run(size, policy, Initial(), steps).drains
    ensures var s := Run(size, policy, Initial(), steps);
            var s' := Apply(size, policy, s, CheckDrain(caller, late));
            var returned := (drained: bool) => s.(drains := s.drains - {caller},
                                                  ended := s.ended + [Ended(s.drains[caller], drained, late, Busy(s))]);
            && (s.queue == [] && s.running.None? ==> s' == returned(true))
            && ((s.queue != [] || s.running.Some?) && s.drains[caller].timed && late ==> s' == returned(false))
            && ((s.queue != [] || s.running.Some?) && !(s.drains[caller].timed && late) ==> s' == s)
  {
    InitialInv<T>(size, policy);
    RunInv(size, policy, Initial(), steps);
  }

  ghost predicate DrainsEndWell(ended: seq<Ended>) {
    forall i :: 0 <= i < |ended| ==>
      && (ended[i].drained <==> !ended[i].busy)
      && (!ended[i].drained ==> ended[i].drain.timed && ended[i].late)
  }

  /**
    Over every run, a drain call that has returned gave True exactly if nothing was left at that moment; a call
    without a deadline never gives False, and one with a deadline only after it has passed.
   */
  lemma {:induction false} DrainsEnd<T>(size: nat, policy: Policy, s: State<T>, steps: seq<Step<T>>)
    requires size >= 1 && Inv(size, policy, s) && DrainsEndWell(s.ended)
    ensures DrainsEndWell(Run(size, policy, s, steps).ended)
    decreases |steps|
  {
    if steps != [] {
      StepInv(size, policy, s, steps[0]);
      StepEnded(size, policy, s, steps[0]);
      DrainsEnd(size, policy, Apply(size, policy, s, steps[0]), steps[1..]);
    }
  }

  lemma StepEnded<T>(size: nat, policy: Policy, s: State<T>, step: Step<T>)
    requires size >= 1 && Inv(size, policy, s) && DrainsEndWell(s.ended)
    ensures DrainsEndWell(Apply(size, policy, s, step).ended)
  {
  }

  /** Once closed, no step accepts an item, not even the step of a submitter that was already blocked. */
  lemma {:induction false} ClosedAcceptsNothing<T>(size: nat, policy: Policy, s: State<T>, steps: seq<Step<T>>)
    requires size >= 1 && s.closed
    ensures var s' := Run(size, policy, s, steps);
            s'.closed && s'.accepted == s.accepted && s'.submitted == s.submitted && |s'.waiting| <= |s.waiting|
    decreases |steps|
  {
    if steps != [] {
      ClosedAcceptsNothing(size, policy, Apply(size, policy, s, steps[0]), steps[1..]);
    }
  }

  /** Steps of the worker thread among `steps`. */
  function WorkerSteps<T>(steps: seq<Step<T>>): nat {
    if steps == [] then 0 else (if steps[0].WorkerStep? then 1 else 0) + WorkerSteps(steps[1..])
  }

  /** Worker steps still needed to empty the queue. */
  function Work<T>(s: State<T>): nat {
    2 * |s.queue| + |InHand(s)|
  }

  lemma ClosedStep<T>(size: nat, policy: Policy, s: State<T>, step: Step<T>)
    requires size >= 1 && s.closed
    ensures var s1 := Apply(size, policy, s, step);
            && s1.closed
            && s1.executed + InHand(s1) + s1.queue == s.executed + InHand(s) + s.queue
            && (step.WorkerStep? && !s.exited ==> s1.exited || Work(s1) == Work(s) - 1)
            && (!step.WorkerStep? ==> Work(s1) == Work(s))
            && (s.exited ==> s1.exited)
  {
    var s1 := Apply(size, policy, s, step);
    if step.WorkerStep? && !s.exited {
      if s.running.Some? {
        assert s1.executed + InHand(s1) == s.executed + InHand(s);
      } else if s.queue != [] {
        assert InHand(s1) + s1.queue == InHand(s) + s.queue;
        assert s1.executed + InHand(s1) + s1.queue == s1.executed + (InHand(s1) + s1.queue);
        assert s.executed + InHand(s) + s.queue == s.executed + (InHand(s) + s.queue);
      }
    }
  }

  /**
    A closed worker strands nothing, even if `close` gave up waiting: the queue is executed in order with nothing
    evicted, and as soon as the worker thread has had one step more than its remaining work it has exited.
   */
  lemma {:induction false} ClosedFinishes<T>(size: nat, policy: Policy, s: State<T>, steps: seq<Step<T>>)
    requires size >= 1 && s.closed && Inv(size, policy, s)
    ensures var s' := Run(size, policy, s, steps);
            && s'.executed + InHand(s') + s'.queue == s.executed + InHand(s) + s.queue
            && (s'.exited ==> s'.executed == s.executed + InHand(s) + s.queue)
            && (WorkerSteps(steps) > Work(s) ==> s'.exited)
    decreases |steps|
  {
    if steps != [] {
      var s1 := Apply(size, policy, s, steps[0]);
      StepInv(size, policy, s, steps[0]);
      ClosedStep(size, policy, s, steps[0]);
      ClosedFinishes(size, policy, s1, steps[1..]);
      if s1.exited {
        ExitedStays(size, policy, s1, steps[1..]);
      }
    }
  }

  lemma {:induction false} ExitedStays<T>(size: nat, policy: Policy, s: State<T>, steps: seq<Step<T>>)
    requires size >= 1 && s.exited
    ensures Run(size, policy, s, steps).exited
    decreases |steps|
  {
    if steps != [] {
      ExitedStays(size, policy, Apply(size, policy, s, steps[0]), steps[1..]);
    }
  }

  // ---- Progress of an open worker ----

  /** A turn of the worker thread or of a blocked submitter, the two that need nobody from outside. */
  predicate Internal<T>(step: Step<T>) {
    step.WorkerStep? || step.Resume?
  }

  /** The turns still needed until every item has been run: three for a blocked one, two for a queued one. */
  function TurnsLeft<T>(s: State<T>): nat {
    3 * |s.waiting| + Work(s)
  }

  /** The steps that change something. */
  ghost function Moves<T>(size: nat, policy: Policy, s: State<T>, steps: seq<Step<T>>): nat
    requires size >= 1
    decreases |steps|
  {
    if steps == [] then 0
    else
      var s1 := Apply(size, policy, s, steps[0]);
      (if s1 == s then 0 else 1) + Moves(size, policy, s1, steps[1..])
  }

  lemma InternalStep<T>(size: nat, policy: Policy, s: State<T>, step: Step<T>)
    requires size >= 1 && Inv(size, policy, s) && !s.closed && Internal(step)
    ensures var s1 := Apply(size, policy, s, step);
            && !s1.closed && s1.submitted == s.submitted
            && TurnsLeft(s1) == TurnsLeft(s) - (if s1 == s then 0 else 1)
  {
    if step.Resume? && step.k < |s.waiting| {
      assert |s.waiting[..step.k] + s.waiting[step.k + 1..]| == |s.waiting| - 1;
    }
  }

  /** Some turn is always possible until nothing is left to do. */
  function NextTurn<T>(s: State<T>): Step<T> {
    if s.running.Some? || s.queue != [] then WorkerStep else Resume(0)
  }

  lemma NeverStuck<T>(size: nat, policy: Policy, s: State<T>)
    requires size >= 1 && Inv(size, policy, s) && !s.closed && TurnsLeft(s) > 0
    ensures Apply(size, policy, s, NextTurn(s)) != s
  {
    var s1 := Apply(size, policy, s, NextTurn(s));
    if s.running.None? && s.queue == [] {
      assert |s1.queue| == 1;
    }
  }

  lemma SettledMeansDone<T>(size: nat, policy: Policy, s: State<T>, timedOut: bool)
    requires size >= 1 && Inv(size, policy, s) && !s.closed && TurnsLeft(s) == 0
    ensures s.queue == [] && s.running.None? && s.waiting == [] && DrainResult(s, timedOut) == Some(true)
    ensures policy != DropOldest ==> s.executed == s.accepted
    ensures policy == Block ==> multiset(s.executed) == multiset(s.submitted)
  {
    if policy != DropOldest {
      AllRan(s.accepted[..|s.fates|], s.fates);
      assert s.executed + InHand(s) == s.executed && s.accepted[..|s.fates|] == s.accepted;
    }
    assert multiset(s.waiting) == multiset{};
  }

  /**
    However the worker thread and the blocked submitters take turns, every turn that changes anything brings an open
    worker one step closer to the end, and it is stuck only there: nothing queued, in hand or blocked, drain calls
    returning True, and under block everything submitted executed, each item once.
   */
  lemma {:induction false} OpenSettles<T>(size: nat, policy: Policy, s: State<T>, turns: seq<Step<T>>, timedOut: bool)
    requires size >= 1 && Inv(size, policy, s) && !s.closed && forall i :: 0 <= i < |turns| ==> Internal(turns[i])
    ensures var s' := Run(size, policy, s, turns);
            && Moves(size, policy, s, turns) + TurnsLeft(s') == TurnsLeft(s)
            && (TurnsLeft(s') > 0 <==> exists turn :: Internal(turn) && Apply(size, policy, s', turn) != s')
            && (TurnsLeft(s') == 0 ==>
                && s'.queue == [] && s'.running.None? && s'.waiting == []
                && DrainResult(s', timedOut) == Some(true)
                && (policy != DropOldest ==> s'.executed == s'.accepted)
                && (policy == Block ==> multiset(s'.executed) == multiset(s.submitted)))
    decreases |turns|
  {
    if turns == [] {
      if TurnsLeft(s) == 0 {
        SettledMeansDone(size, policy, s, timedOut);
      } else {
        NeverStuck(size, policy, s);
        assert Internal(NextTurn(s));
      }
    } else {
      StepInv(size, policy, s, turns[0]);
      InternalStep(size, policy, s, turns[0]);
      OpenSettles(size, policy, Apply(size, policy, s, turns[0]), turns[1..], timedOut);
    }
  }

  /** The turns that empty the worker. */
  ghost function Remaining<T>(size: nat, policy: Policy, s: State<T>): (turns: seq<Step<T>>)
    requires size >= 1 && Inv(size, policy, s) && !s.closed
    ensures forall i :: 0 <= i < |turns| ==> Internal(turns[i])
    ensures TurnsLeft(Run(size, policy, s, turns)) == 0
    decreases TurnsLeft(s)
  {
    if TurnsLeft(s) == 0 then []
    else
      NeverStuck(size, policy, s);
      StepInv(size, policy, s, NextTurn(s));
      InternalStep(size, policy, s, NextTurn(s));
      [NextTurn(s)] + Remaining(size, policy, Apply(size, policy, s, NextTurn(s)))
  }

  /** After close: one turn for each blocked submitter, those for the remaining items, and one for the worker to exit. */
  function ClosedTurnsLeft<T>(s: State<T>): nat {
    |s.waiting| + Work(s) + if s.exited then 0 else 1
  }

  lemma ClosedTurn<T>(size: nat, policy: Policy, s: State<T>, step: Step<T>)
    requires size >= 1 && Inv(size, policy, s) && s.closed && Internal(step)
    ensures var s1 := Apply(size, policy, s, step);
            s1.closed && ClosedTurnsLeft(s1) == ClosedTurnsLeft(s) - (if s1 == s then 0 else 1)
  {
    if step.Resume? && step.k < |s.waiting| {
      assert |s.waiting[..step.k] + s.waiting[step.k + 1..]| == |s.waiting| - 1;
    }
  }

  function ClosedNextTurn<T>(s: State<T>): Step<T> {
    if s.exited then Resume(0) else WorkerStep
  }

  lemma ClosedNeverStuck<T>(size: nat, policy: Policy, s: State<T>)
    requires size >= 1 && Inv(size, policy, s) && s.closed && ClosedTurnsLeft(s) > 0
    ensures Apply(size, policy, s, ClosedNextTurn(s)) != s
  {
    var s1 := Apply(size, policy, s, ClosedNextTurn(s));
    if s.exited {
      assert |s1.waiting| == |s.waiting| - 1;
    } else if s.running.None? && s.queue != [] {
      assert |s1.queue| == |s.queue| - 1;
    }
  }

  /**
    However worker and blocked submitters take turns after close, every turn that changes anything brings them one
    step closer to the end, and they are stuck only there: every blocked submitter released and the worker gone, with
    all that was queued or in hand executed.
   */
  lemma {:induction false} ClosedSettles<T>(size: nat, policy: Policy, s: State<T>, turns: seq<Step<T>>)
    requires size >= 1 && Inv(size, policy, s) && s.closed && forall i :: 0 <= i < |turns| ==> Internal(turns[i])
    ensures var s' := Run(size, policy, s, turns);
            && Moves(size, policy, s, turns) + ClosedTurnsLeft(s') == ClosedTurnsLeft(s)
            && (ClosedTurnsLeft(s') > 0 <==> exists turn :: Internal(turn) && Apply(size, policy, s', turn) != s')
            && (ClosedTurnsLeft(s') == 0 ==>
                s'.waiting == [] && s'.exited && s'.executed == s.executed + InHand(s) + s.queue)
    decreases |turns|
  {
    if turns == [] {
      if ClosedTurnsLeft(s) > 0 {
        ClosedNeverStuck(size, policy, s);
        assert Internal(ClosedNextTurn(s));
      } else {
        assert InHand(s) == [] && s.queue == [];
      }
    } else {
      var s1 := Apply(size, policy, s, turns[0]);
      StepInv(size, policy, s, turns[0]);
      ClosedTurn(size, policy, s, turns[0]);
      ClosedStep(size, policy, s, turns[0]);
      ClosedSettles(size, policy, s1, turns[1..]);
    }
  }

  /** From every reachable open state the worker can finish: no blocked submitter is stranded and no drain call hangs. */
  lemma OpenCanFinish<T>(size: nat, policy: Policy, steps: seq<Step<T>>, timedOut: bool)
    returns (turns: seq<Step<T>>)
    requires size >= 1 && !Run(size, policy, Initial(), steps).closed
    ensures forall i :: 0 <= i < |turns| ==> Internal(turns[i])
    ensures var s := Run(size, policy, Initial(), steps); var s' := Run(size, policy, s, turns);
            && s'.queue == [] && s'.running.None? && s'.waiting == [] && DrainResult(s', timedOut) == Some(true)
            && (policy != DropOldest ==> s'.executed == s'.accepted)
            && (policy == Block ==> multiset(s'.executed) == multiset(s.submitted))
  {
    var s := Run(size, policy, Initial(), steps);
    InitialInv<T>(size, policy);
    RunInv(size, policy, Initial(), steps);
    turns := Remaining(size, policy, s);
    OpenSettles(size, policy, s, turns, timedOut);
  }

  // ---- The object ----

  class AsyncWorker<T> {
    const maxQueueSize: nat
    const backpressure: Policy
    var queue: seq<T>
    var pending: int
    var closed: bool
    ghost var model: State<T>

    ghost predicate Valid()
      reads this
    {
      && maxQueueSize >= 1
      && queue == model.queue && pending == model.pending && closed == model.closed
      && Inv(maxQueueSize, backpressure, model)
    }

    /** The original raises ValueError for a queue size below 1. */
    constructor (maxQueueSize: nat, backpressure: Policy)
      requires maxQueueSize >= 1
      ensures Valid() && model == Initial()
      ensures queue == [] && pending == 0 && !closed && !model.exited && model.running == None && model.waiting == []
      ensures this.maxQueueSize == maxQueueSize && this.backpressure == backpressure
    {
      this.maxQueueSize := maxQueueSize;
      this.backpressure := backpressure;
      queue, pending, closed := [], 0, false;
      model := Initial();
    }

    /** `submit` up to its end or to the point where it waits for space; `blocked` says which. */
    method Submit(item: T) returns (blocked: bool)
      requires Valid()
      modifies this
      ensures Valid() && model == Apply(maxQueueSize, backpressure, old(model), Step.Submit(item))
      ensures blocked == (|model.waiting| > |old(model).waiting|)
    {
      if !closed && |queue| >= maxQueueSize {
        blocked := SubmitToFull(item);
        return;
      }
      StepInv(maxQueueSize, backpressure, model, Step.Submit(item));
      model := Apply(maxQueueSize, backpressure, model, Step.Submit(item));
      blocked := false;
      if closed {
        return;
      }
      queue := queue + [item];
      pending := pending + 1;
    }

    /** What the policy does when there is no room. */
    method SubmitToFull(item: T) returns (blocked: bool)
      requires Valid() && !closed && |queue| >= maxQueueSize
      modifies this
      ensures Valid() && model == Apply(maxQueueSize, backpressure, old(model), Step.Submit(item))
      ensures blocked == (|model.waiting| > |old(model).waiting|)
    {
      StepInv(maxQueueSize, backpressure, model, Step.Submit(item));
      model := Apply(maxQueueSize, backpressure, model, Step.Submit(item));
      if backpressure == Block {
        return true;
      } else if backpressure == DropNewest {
        return false;
      }
      queue := queue[1..];
      pending := pending - 1;
      queue := queue + [item];
      pending := pending + 1;
      return false;
    }

    /** The k-th blocked submitter, holding `item`, gets the lock back; `again` says whether it waits once more. */
    method Resume(k: nat, item: T) returns (again: bool)
      requires Valid() && k < |model.waiting| && model.waiting[k] == item
      modifies this
      ensures Valid() && model == Apply(maxQueueSize, backpressure, old(model), Step.Resume(k))
      ensures again == (|model.waiting| == |old(model).waiting|)
    {
      StepInv(maxQueueSize, backpressure, model, Step.Resume(k));
      model := Apply(maxQueueSize, backpressure, model, Step.Resume(k));
      if |queue| >= maxQueueSize && !closed {
        return true;
      }
      again := false;
      if closed {
        return;
      }
      queue := queue + [item];
      pending := pending + 1;
    }

    /** The worker thread's turn when it has no item in hand: an item to run, the end, or neither. */
    method Take() returns (item: Option<T>, exit: bool)
      requires Valid() && model.running.None? && !model.exited
      modifies this
      ensures Valid() && model == Apply(maxQueueSize, backpressure, old(model), WorkerStep)
      ensures item == model.running && exit == model.exited
    {
      StepInv(maxQueueSize, backpressure, model, WorkerStep);
      model := Apply(maxQueueSize, backpressure, model, WorkerStep);
      item, exit := None, false;
      if queue == [] {
        exit := closed;
      } else {
        item := Some(queue[0]);
        queue := queue[1..];
      }
    }

    /** The worker thread has run its item, whether or not the item raised an exception. */
    method Finish()
      requires Valid() && model.running.Some? && !model.exited
      modifies this
      ensures Valid() && model == Apply(maxQueueSize, backpressure, old(model), WorkerStep)
    {
      StepInv(maxQueueSize, backpressure, model, WorkerStep);
      model := Apply(maxQueueSize, backpressure, model, WorkerStep);
      pending := pending - 1;
    }

    /** A drain call begins; `timed` says whether it has a deadline. */
    ghost method BeginDrain(caller: nat, timed: bool)
      requires Valid()
      modifies this`model
      ensures Valid() && model == Apply(maxQueueSize, backpressure, old(model), Step.BeginDrain(caller, timed))
    {
      StepInv(maxQueueSize, backpressure, model, Step.BeginDrain(caller, timed));
      model := Apply(maxQueueSize, backpressure, model, Step.BeginDrain(caller, timed));
    }

    /** One pass of the loop of a drain call: what it returns, or `None` if it goes on waiting. */
    method CheckDrained(ghost caller: nat, timed: bool, late: bool) returns (r: Option<bool>)
      requires Valid() && caller in model.drains && model.drains[caller].timed == timed
      modifies this`model
      ensures Valid() && model == Apply(maxQueueSize, backpressure, old(model), CheckDrain(caller, late))
      ensures r == Some(true) <==> queue == [] && model.running.None?
      ensures r == Some(false) <==> (queue != [] || model.running.Some?) && timed && late
      ensures r == None <==> (queue != [] || model.running.Some?) && !(timed && late)
      ensures r == None <==> caller in model.drains
      ensures r.Some? ==> |model.ended| == |old(model).ended| + 1 && model.ended[|old(model).ended|].drained == r.value
    {
      StepInv(maxQueueSize, backpressure, model, CheckDrain(caller, late));
      model := Apply(maxQueueSize, backpressure, model, CheckDrain(caller, late));
      if pending > 0 {
        return if timed && late then Some(pending == 0) else None;
      }
      return Some(true);
    }

    method MarkClosed()
      requires Valid()
      modifies this
      ensures Valid() && model == Apply(maxQueueSize, backpressure, old(model), Close)
    {
      StepInv(maxQueueSize, backpressure, model, Close);
      model := Apply(maxQueueSize, backpressure, model, Close);
      closed := true;
    }
  }
}
