/**
  The batching transport (logquill/transports/batching_transport.py) under any number of threads. `write` has two
  separate lock sections: one appends and decides whether to flush, one swaps the buffer out. Between them other
  threads may run, so the buffer can grow past its limit; `BufferBound` says by how much.
 */
module Batching {
  import opened OrderedDicts
  import opened Sequences

  datatype Limits<!T> = Limits(maxRecords: int, maxBytes: int, sizeOf: T -> nat)

  datatype State<T> = State(
    buffer: seq<T>,
    bytes: int,
    deciders: set<nat>,        // writers that decided to flush and have not swapped yet
    appended: seq<T>,          // every item ever buffered, in order
    batches: seq<seq<T>>,      // every batch handed to the sink, in the order of the swaps
    hot: seq<nat>)             // the deciders whose items are the last ones in the buffer, in order

  function Initial<T>(): State<T> {
    State([], 0, {}, [], [], [])
  }

  datatype Step<T> =
    | Append(writer: nat, item: T)   // the first section of `write`
    | Swap(writer: nat)              // the second section, for a writer that decided to flush
    | Flush                          // an explicit `flush` or `close`

  function Total<T>(sizeOf: T -> nat, items: seq<T>): nat {
    if items == [] then 0 else Total(sizeOf, items[..|items| - 1]) + sizeOf(items[|items| - 1])
  }

  predicate Full<T>(l: Limits<T>, records: int, bytes: int) {
    records >= l.maxRecords || bytes >= l.maxBytes
  }

  function DoAppend<T>(l: Limits<T>, s: State<T>, writer: nat, item: T): State<T> {
    if writer in s.deciders then s  // a writer is in one `write` at a time
    else
      var s' := s.(buffer := s.buffer + [item], bytes := s.bytes + l.sizeOf(item), appended := s.appended + [item]);
      if Full(l, |s'.buffer|, s'.bytes) then s'.(deciders := s.deciders + {writer}, hot := s.hot + [writer]) else s'
  }

  function DoFlush<T>(s: State<T>): State<T> {
    if s.buffer == [] then s
    else s.(buffer := [], bytes := 0, batches := s.batches + [s.buffer], hot := [])
  }

  function Apply<T>(l: Limits<T>, s: State<T>, step: Step<T>): State<T> {
    match step
    case Append(writer, item) => DoAppend(l, s, writer, item)
    case Swap(writer) => if writer in s.deciders then DoFlush(s).(deciders := s.deciders - {writer}) else s
    case Flush => DoFlush(s)
  }

  function Run<T>(l: Limits<T>, s: State<T>, steps: seq<Step<T>>): State<T>
    decreases |steps|
  {
    if steps == [] then s else Run(l, Apply(l, s, steps[0]), steps[1..])
  }

  function Flat<T>(batches: seq<seq<T>>): seq<T> {
    if batches == [] then [] else Flat(batches[..|batches| - 1]) + batches[|batches| - 1]
  }

  /** The part of the buffer appended by writers that saw both limits unreached. */
  ghost function Calm<T>(s: State<T>): seq<T>
    requires |s.hot| <= |s.buffer|
  {
    s.buffer[..|s.buffer| - |s.hot|]
  }

  /** Batches and buffer hold what was appended, in order, and the byte count is right. */
  ghost predicate Books<T>(l: Limits<T>, s: State<T>) {
    && Flat(s.batches) + s.buffer == s.appended
    && s.bytes == Total(l.sizeOf, s.buffer)
    && forall b :: b in s.batches ==> |b| > 0
  }

  /** Without its last records, one for each decider that appended to it, the buffer is below both limits. */
  ghost predicate HotInv<T>(l: Limits<T>, s: State<T>) {
    && |s.hot| <= |s.buffer|
    && Distinct(s.hot)
    && (forall w :: w in s.hot ==> w in s.deciders)
    && (Calm(s) == [] || !Full(l, |Calm(s)|, Total(l.sizeOf, Calm(s))))
    && (s.hot != [] ==> Full(l, |s.buffer|, s.bytes))
  }

  ghost predicate Inv<T>(l: Limits<T>, s: State<T>) {
    Books(l, s) && HotInv(l, s)
  }

  lemma InitialInv<T>(l: Limits<T>)
    ensures Inv(l, Initial())
  {
  }

  lemma AppendBooks<T>(l: Limits<T>, s: State<T>, writer: nat, item: T)
    requires Books(l, s)
    ensures Books(l, DoAppend(l, s, writer, item))
  {
    AppendTake(s.buffer, item);
    ConcatAssoc(Flat(s.batches), s.buffer, [item]);
  }

  /** Another writer decides: its record joins the hot ones and the calm part stays. */
  lemma AppendDecides<T>(l: Limits<T>, s: State<T>, writer: nat, item: T)
    requires HotInv(l, s) && writer !in s.deciders && writer in DoAppend(l, s, writer, item).deciders
    ensures HotInv(l, DoAppend(l, s, writer, item))
  {
    var s' := DoAppend(l, s, writer, item);
    assert Calm(s') == Calm(s);
    assert writer !in s.hot;
  }

  /** Nobody decides: the whole buffer is calm. */
  lemma AppendCalm<T>(l: Limits<T>, s: State<T>, writer: nat, item: T)
    requires Books(l, s) && HotInv(l, s) && writer !in s.deciders
    requires writer !in DoAppend(l, s, writer, item).deciders
    ensures HotInv(l, DoAppend(l, s, writer, item))
  {
    var s' := DoAppend(l, s, writer, item);
    AppendTake(s.buffer, item);
    assert s.bytes >= 0 && s'.bytes >= s.bytes;
    assert s.hot == [] && Calm(s') == s'.buffer;
  }

  lemma AppendInv<T>(l: Limits<T>, s: State<T>, writer: nat, item: T)
    requires Inv(l, s)
    ensures Inv(l, DoAppend(l, s, writer, item))
  {
    AppendBooks(l, s, writer, item);
    if writer !in s.deciders {
      if writer in DoAppend(l, s, writer, item).deciders {
        AppendDecides(l, s, writer, item);
      } else {
        AppendCalm(l, s, writer, item);
      }
    }
  }

  lemma FlushBooks<T>(l: Limits<T>, s: State<T>)
    requires Books(l, s)
    ensures Books(l, DoFlush(s))
  {
    if s.buffer != [] {
      AppendTake(s.batches, s.buffer);
      assert Flat(DoFlush(s).batches) == s.appended;
      assert s.appended + [] == s.appended;
    }
  }

  lemma FlushInv<T>(l: Limits<T>, s: State<T>)
    requires Inv(l, s)
    ensures Inv(l, DoFlush(s))
  {
    FlushBooks(l, s);
    assert s.buffer != [] ==> Calm(DoFlush(s)) == [];
  }

  lemma StepInv<T>(l: Limits<T>, s: State<T>, step: Step<T>)
    requires Inv(l, s)
    ensures Inv(l, Apply(l, s, step))
  {
    match step
    case Append(writer, item) => AppendInv(l, s, writer, item);
    case Swap(writer) => FlushInv(l, s);
    case Flush => FlushInv(l, s);
  }

  lemma {:induction false} RunInv<T>(l: Limits<T>, s: State<T>, steps: seq<Step<T>>)
    requires Inv(l, s)
    ensures Inv(l, Run(l, s, steps))
    decreases |steps|
  {
    if steps != [] {
      StepInv(l, s, steps[0]);
      RunInv(l, Apply(l, s, steps[0]), steps[1..]);
    }
  }

  /** Nothing is lost, duplicated or reordered, and no empty batch is sent, over every interleaving. */
  lemma NothingLost<T>(l: Limits<T>, steps: seq<Step<T>>)
    ensures var s := Run(l, Initial(), steps);
            && Flat(s.batches) + s.buffer == s.appended
            && s.bytes == Total(l.sizeOf, s.buffer)
            && (forall b :: b in s.batches ==> |b| > 0)
  {
    InitialInv(l);
    RunInv(l, Initial(), steps);
  }

  lemma {:induction false} TotalConcat<T>(sizeOf: T -> nat, a: seq<T>, b: seq<T>)
    ensures Total(sizeOf, a + b) == Total(sizeOf, a) + Total(sizeOf, b)
  {
    if b == [] {
      assert a + b == a;
    } else {
      assert (a + b)[..|a + b| - 1] == a + b[..|b| - 1];
      TotalConcat(sizeOf, a, b[..|b| - 1]);
    }
  }

  /** The size of a buffer is that of its items together. */
  lemma TotalAdds<T>(sizeOf: T -> nat, a: seq<T>, item: T, b: seq<T>)
    ensures Total(sizeOf, []) == 0
    ensures Total(sizeOf, a + [item] + b) == Total(sizeOf, a) + sizeOf(item) + Total(sizeOf, b)
  {
    TotalConcat(sizeOf, a + [item], b);
    TotalConcat(sizeOf, a, [item]);
    assert Total(sizeOf, [item]) == Total(sizeOf, []) + sizeOf(item);
  }

  /** The last `n` items, or all of them. */
  function Last<T>(items: seq<T>, n: nat): seq<T> {
    if n <= |items| then items[|items| - n..] else items
  }

  lemma {:induction false} LastTotal<T>(sizeOf: T -> nat, items: seq<T>, m: nat, n: nat)
    requires m <= n && m <= |items|
    ensures Total(sizeOf, items) <= Total(sizeOf, items[..|items| - m]) + Total(sizeOf, Last(items, n))
  {
    var n' := if n <= |items| then n else |items|;
    var cut, early := |items| - m, |items| - n';
    TotalSplit(sizeOf, items, early);
    TotalSplit(sizeOf, items[..cut], early);
    assert items[..cut][..early] == items[..early];
    assert n' == |items| ==> items[early..] == items;
  }

  lemma TotalSplit<T>(sizeOf: T -> nat, items: seq<T>, k: nat)
    requires k <= |items|
    ensures Total(sizeOf, items) == Total(sizeOf, items[..k]) + Total(sizeOf, items[k..])
  {
    assert items == items[..k] + items[k..];
    TotalConcat(sizeOf, items[..k], items[k..]);
  }

  lemma HotBound<T>(l: Limits<T>, s: State<T>)
    requires Inv(l, s) && l.maxRecords >= 1 && l.maxBytes >= 1
    ensures |s.hot| <= |s.deciders|
    ensures |s.buffer| - |s.hot| <= l.maxRecords - 1
    ensures Total(l.sizeOf, s.buffer[..|s.buffer| - |s.hot|]) <= l.maxBytes - 1
  {
    DistinctSize(s.hot, s.deciders);
  }

  /**
    How far the buffer can overshoot: by one record for each writer that has decided to flush and not swapped yet,
    and by no more bytes than the last records, one for each such writer, take up.
   */
  lemma BufferBound<T>(l: Limits<T>, steps: seq<Step<T>>)
    requires l.maxRecords >= 1 && l.maxBytes >= 1
    ensures var s := Run(l, Initial(), steps);
            && |s.buffer| <= l.maxRecords - 1 + |s.deciders|
            && s.bytes <= l.maxBytes - 1 + Total(l.sizeOf, Last(s.buffer, |s.deciders|))
  {
    var s := Run(l, Initial(), steps);
    assert Inv(l, s) by {
      InitialInv(l);
      RunInv(l, Initial(), steps);
    }
    assert s.bytes == Total(l.sizeOf, s.buffer);
    HotBound(l, s);
    LastTotal(l.sizeOf, s.buffer, |s.hot|, |s.deciders|);
  }

  lemma {:induction false} RunConcat<T>(l: Limits<T>, s: State<T>, a: seq<Step<T>>, b: seq<Step<T>>)
    ensures Run(l, s, a + b) == Run(l, Run(l, s, a), b)
    decreases |a|
  {
    if a == [] {
      assert a + b == b;
    } else {
      assert (a + b)[1..] == a[1..] + b;
      RunConcat(l, Apply(l, s, a[0]), a[1..], b);
    }
  }

  lemma RunOneMore<T>(l: Limits<T>, s: State<T>, a: seq<Step<T>>, step: Step<T>)
    ensures Run(l, s, a + [step]) == Apply(l, Run(l, s, a), step)
  {
    RunConcat(l, s, a, [step]);
    assert Run(l, Run(l, s, a), [step]) == Run(l, Apply(l, Run(l, s, a), step), []);
  }

  /** One writer appends these items, one after the other. */
  function Alone<T>(items: seq<T>): seq<Step<T>> {
    if items == [] then [] else Alone(items[..|items| - 1]) + [Append(0, items[|items| - 1])]
  }

  /** Writers 1 to `n` append the same item, and none of them gets to swap. */
  function Together<T>(item: T, n: nat): seq<Step<T>> {
    if n == 0 then [] else Together(item, n - 1) + [Append(n, item)]
  }

  function Repeat<T>(item: T, n: nat): (r: seq<T>)
    ensures |r| == n
  {
    if n == 0 then [] else Repeat(item, n - 1) + [item]
  }

  lemma RepeatOneMore<T>(l: Limits<T>, item: T, n: nat)
    requires n > 0
    ensures Repeat(item, n) == Repeat(item, n - 1) + [item]
    ensures Total(l.sizeOf, Repeat(item, n)) == Total(l.sizeOf, Repeat(item, n - 1)) + l.sizeOf(item)
  {
    AppendTake(Repeat(item, n - 1), item);
  }

  lemma {:induction false} AloneFills<T>(l: Limits<T>, items: seq<T>)
    requires items != [] ==> !Full(l, |items|, Total(l.sizeOf, items))
    ensures Run(l, Initial(), Alone(items)) == State(items, Total(l.sizeOf, items), {}, items, [], [])
  {
    if items != [] {
      var n := |items| - 1;
      AloneFills(l, items[..n]);
      RunOneMore(l, Initial(), Alone(items[..n]), Append(0, items[n]));
      assert items[..n] + [items[n]] == items;
    }
  }

  lemma DecideOneMore<T>(l: Limits<T>, s: State<T>, item: T, n: nat)
    requires n !in s.deciders && Full(l, |s.buffer| + 1, s.bytes + l.sizeOf(item))
    ensures var s' := DoAppend(l, s, n, item);
            && s'.deciders == s.deciders + {n} && |s'.deciders| == |s.deciders| + 1
            && s'.buffer == s.buffer + [item] && s'.bytes == s.bytes + l.sizeOf(item)
  {
  }

  lemma {:induction false} TogetherDecide<T>(l: Limits<T>, s: State<T>, item: T, n: nat)
    requires s.deciders == {} && Full(l, |s.buffer| + 1, s.bytes + l.sizeOf(item))
    ensures var s' := Run(l, s, Together(item, n));
            && |s'.deciders| == n && (forall w :: w in s'.deciders ==> w <= n)
            && s'.buffer == s.buffer + Repeat(item, n) && s'.bytes == s.bytes + Total(l.sizeOf, Repeat(item, n))
  {
    if n != 0 {
      var before := Run(l, s, Together(item, n - 1));
      TogetherDecide(l, s, item, n - 1);
      RunOneMore(l, s, Together(item, n - 1), Append(n, item));
      assert Full(l, |before.buffer| + 1, before.bytes + l.sizeOf(item)) by {
        assert before.bytes >= s.bytes && |before.buffer| >= |s.buffer|;
      }
      DecideOneMore(l, before, item, n);
      RepeatOneMore(l, item, n);
      ConcatAssoc(s.buffer, Repeat(item, n - 1), [item]);
    }
  }

  lemma BurstAfter<T>(l: Limits<T>, first: seq<T>, item: T, n: nat) returns (steps: seq<Step<T>>)
    requires first != [] ==> !Full(l, |first|, Total(l.sizeOf, first))
    requires Full(l, |first| + 1, Total(l.sizeOf, first) + l.sizeOf(item))
    ensures var s := Run(l, Initial(), steps);
            && |s.deciders| == n && s.buffer == first + Repeat(item, n)
            && s.bytes == Total(l.sizeOf, first) + Total(l.sizeOf, Repeat(item, n))
  {
    steps := Alone(first) + Together(item, n);
    AloneFills(l, first);
    RunConcat(l, Initial(), Alone(first), Together(item, n));
    TogetherDecide(l, Run(l, Initial(), Alone(first)), item, n);
  }

  lemma RepeatTotal<T>(l: Limits<T>, first: seq<T>, item: T, n: nat)
    ensures Last(first + Repeat(item, n), n) == Repeat(item, n)
  {
  }

  /**
    The record bound is met under all limits: `n` writers that decide before any of them swaps overshoot by `n`, if
    items are small enough for `maxRecords - 1` of them to stay below the byte limit.
   */
  lemma OvershootReached<T>(l: Limits<T>, item: T, n: nat) returns (steps: seq<Step<T>>)
    requires l.maxRecords >= 1 && l.maxBytes >= 1
    requires Total(l.sizeOf, Repeat(item, l.maxRecords - 1)) < l.maxBytes
    ensures var s := Run(l, Initial(), steps); |s.deciders| == n && |s.buffer| == l.maxRecords - 1 + n
  {
    steps := BurstAfter(l, Repeat(item, l.maxRecords - 1), item, n);
  }

  /** And so is the byte bound, if more than one record may wait: a first item just below the limit, then `n` others. */
  lemma ByteOvershootReached<T>(l: Limits<T>, first: T, item: T, n: nat) returns (steps: seq<Step<T>>)
    requires l.maxRecords >= 2 && l.maxBytes >= 1
    requires l.sizeOf(first) == l.maxBytes - 1 && l.sizeOf(item) >= 1
    ensures var s := Run(l, Initial(), steps);
            |s.deciders| == n && s.bytes == l.maxBytes - 1 + Total(l.sizeOf, Last(s.buffer, |s.deciders|))
  {
    assert Total(l.sizeOf, [first]) == Total(l.sizeOf, []) + l.sizeOf(first);
    steps := BurstAfter(l, [first], item, n);
    RepeatTotal(l, [first], item, n);
  }

  /** A single thread writes these items: a swap follows each append, and does nothing if no limit was reached. */
  function Writes<T>(items: seq<T>): seq<Step<T>> {
    if items == [] then [] else Writes(items[..|items| - 1]) + [Append(0, items[|items| - 1])] + [Swap(0)]
  }

  /** A batch that reaches a limit with its last item and not before. */
  ghost predicate CutAtLimit<T>(l: Limits<T>, batch: seq<T>) {
    && batch != [] && Full(l, |batch|, Total(l.sizeOf, batch))
    && var rest := batch[..|batch| - 1]; rest != [] ==> !Full(l, |rest|, Total(l.sizeOf, rest))
  }

  ghost predicate CutSoFar<T>(l: Limits<T>, s: State<T>) {
    && (forall b :: b in s.batches ==> CutAtLimit(l, b))
    && (s.buffer != [] ==> !Full(l, |s.buffer|, s.bytes))
  }

  lemma AppendCuts<T>(l: Limits<T>, s: State<T>, item: T)
    requires Inv(l, s) && s.deciders == {} && CutSoFar(l, s)
    ensures var s1 := Apply(l, s, Append(0, item));
            && s1.buffer == s.buffer + [item] && s1.batches == s.batches && s1.appended == s.appended + [item]
            && s1.bytes == Total(l.sizeOf, s1.buffer)
            && s1.deciders == (if Full(l, |s1.buffer|, s1.bytes) then {0} else {})
            && (Full(l, |s1.buffer|, s1.bytes) ==> CutAtLimit(l, s1.buffer))
  {
    AppendTake(s.buffer, item);
  }

  /** The state between two writes of a single thread. */
  ghost predicate Wrote<T>(l: Limits<T>, s: State<T>, items: seq<T>) {
    Inv(l, s) && s.deciders == {} && s.appended == items && CutSoFar(l, s)
  }

  lemma WriteCuts<T>(l: Limits<T>, s: State<T>, items: seq<T>, item: T)
    requires Wrote(l, s, items)
    ensures Wrote(l, Apply(l, Apply(l, s, Append(0, item)), Swap(0)), items + [item])
  {
    var s1 := Apply(l, s, Append(0, item));
    StepInv(l, s, Append(0, item));
    StepInv(l, s1, Swap(0));
    AppendCuts(l, s, item);
  }

  /**
    On one thread what was written is cut into batches exactly where a limit is first reached, and what is below both
    limits stays in the buffer.
   */
  lemma {:induction false} BatchesCutAtLimit<T>(l: Limits<T>, items: seq<T>)
    ensures var s := Run(l, Initial(), Writes(items));
            && Flat(s.batches) + s.buffer == items
            && (forall b :: b in s.batches ==> CutAtLimit(l, b))
            && (s.buffer != [] ==> !Full(l, |s.buffer|, s.bytes))
  {
    WritesCut(l, items);
  }

  lemma {:induction false} WritesCut<T>(l: Limits<T>, items: seq<T>)
    ensures Wrote(l, Run(l, Initial(), Writes(items)), items)
  {
    if items == [] {
      InitialInv(l);
    } else {
      var n := |items| - 1;
      WritesCut(l, items[..n]);
      WriteRun(l, items);
      WriteCuts(l, Run(l, Initial(), Writes(items[..n])), items[..n], items[n]);
      SplitLast(items);
    }
  }

  lemma WriteRun<T>(l: Limits<T>, items: seq<T>)
    requires items != []
    ensures var n := |items| - 1;
            Run(l, Initial(), Writes(items)) ==
            Apply(l, Apply(l, Run(l, Initial(), Writes(items[..n])), Append(0, items[n])), Swap(0))
  {
    var n := |items| - 1;
    var before := Writes(items[..n]);
    RunOneMore(l, Initial(), before, Append(0, items[n]));
    RunOneMore(l, Initial(), before + [Append(0, items[n])], Swap(0));
  }

  /** The swap of a writer that decided to flush, or an explicit flush. */
  function SwapStep<T>(writer: Option<nat>): Step<T> {
    if writer.Some? then Swap(writer.value) else Flush
  }

  lemma SwapEffect<T>(l: Limits<T>, s: State<T>, writer: Option<nat>)
    requires Inv(l, s) && (writer.Some? ==> writer.value in s.deciders)
    ensures var s' := Apply(l, s, SwapStep(writer));
            && Inv(l, s') && s'.buffer == [] && s'.bytes == 0
            && s'.batches == s.batches + (if s.buffer == [] then [] else [s.buffer])
  {
    StepInv(l, s, SwapStep(writer));
  }

  // ---- The object ----

  class BatchingTransport<T> {
    const limits: Limits<T>
    var buffer: seq<T>
    var bufferBytes: int
    ghost var model: State<T>

    ghost predicate Valid()
      reads this
    {
      Inv(limits, model) && buffer == model.buffer && bufferBytes == model.bytes
    }

    constructor (limits: Limits<T>)
      ensures Valid() && model == Initial() && this.limits == limits
    {
      this.limits := limits;
      buffer, bufferBytes := [], 0;
      model := Initial();
    }

    /** The locked part of `write`. */
    method AppendSection(ghost writer: nat, item: T) returns (shouldFlush: bool)
      requires Valid() && writer !in model.deciders
      modifies this
      ensures Valid() && model == Apply(limits, old(model), Append(writer, item))
      ensures shouldFlush == (writer in model.deciders) == Full(limits, |buffer|, bufferBytes)
      ensures buffer == old(buffer) + [item] && bufferBytes == old(bufferBytes) + limits.sizeOf(item)
      ensures model.batches == old(model).batches && model.appended == old(model).appended + [item]
    {
      StepInv(limits, model, Append(writer, item));
      model := Apply(limits, model, Append(writer, item));
      buffer := buffer + [item];
      bufferBytes := bufferBytes + limits.sizeOf(item);
      shouldFlush := |buffer| >= limits.maxRecords || bufferBytes >= limits.maxBytes;
    }

    /** The locked part of `flush`; the batch, if there is one, goes to the sink outside the lock. */
    method SwapSection(ghost writer: Option<nat>) returns (batch: seq<T>)
      requires Valid() && (writer.Some? ==> writer.value in model.deciders)
      modifies this
      ensures Valid()
      ensures model == Apply(limits, old(model), SwapStep(writer))
      ensures buffer == [] && batch == old(buffer)
      ensures model.batches == old(model).batches + if batch == [] then [] else [batch]
    {
      SwapEffect(limits, model, writer);
      model := Apply(limits, model, SwapStep(writer));
      batch := buffer;
      if buffer == [] {
        return;
      }
      buffer := [];
      bufferBytes := 0;
    }

    /** `write` on one thread: afterwards the buffer is empty or strictly within both limits. */
    method Write(item: T)
      requires Valid() && model.deciders == {}
      requires buffer == [] || !Full(limits, |buffer|, bufferBytes)
      modifies this
      ensures Valid() && model.deciders == {}
      ensures model.appended == old(model).appended + [item]
      ensures buffer == [] || (|buffer| < limits.maxRecords && bufferBytes < limits.maxBytes)
      ensures Flat(model.batches) + buffer == model.appended
      ensures if Full(limits, old(|buffer|) + 1, old(bufferBytes) + limits.sizeOf(item))
              then buffer == [] && model.batches == old(model).batches + [old(buffer) + [item]]
              else buffer == old(buffer) + [item] && model.batches == old(model).batches
    {
      var shouldFlush := AppendSection(0, item);
      if shouldFlush {
        var batch := SwapSection(Some(0));
      }
    }

    method Close()
      requires Valid()
      modifies this
      ensures Valid() && buffer == [] && bufferBytes == 0
      ensures Flat(model.batches) == old(model).appended && model.appended == old(model).appended
    {
      var batch := SwapSection(None);
      assert Flat(model.batches) + [] == model.appended;
    }
  }
}
