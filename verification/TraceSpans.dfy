/**
  Who writes a trace and what the builder makes of it. `Logger` and `SpanContext` stamp records with the enclosing
  span (logquill/tracing/span.py:91-159, logquill/core/logger.py:279-352); `Emit` is the stream a program of nested
  spans and events produces. `RoundTrip` shows that the span-tree builder inverts `Emit`.
 */
module TraceSpans {
  import opened OrderedDicts
  import opened Sequences
  import opened TraceRecords
  import opened TraceSpec
  import opened TraceForest
  import opened Forests
  import opened TraceBuilders

  const INFO := 20
  const ERROR := 40

  function LevelName(level: int): string {
    if level <= 5 then "TRACE" else if level <= 10 then "DEBUG" else if level <= INFO then "INFO"
    else if level <= 30 then "WARN" else if level <= ERROR then "ERROR" else "FATAL"
  }

  /** The names of the six levels. */
  lemma LevelNames()
    ensures LevelName(5) == "TRACE" && LevelName(10) == "DEBUG" && LevelName(20) == "INFO"
    ensures LevelName(30) == "WARN" && LevelName(40) == "ERROR" && LevelName(50) == "FATAL"
  {
  }

  /** What a program does inside one execution context: log an event, or run a block inside a span. */
  datatype Item =
    | Event(level: int, message: string, extra: map<string, Value>, llm: Option<Llm>)
    | Span(id: string, name: string, fields: map<string, Value>, exit: Exit, inner: seq<Item>)

  /** How a block ended: its duration, the exception that left it and what `capture_state` saw change. */
  datatype Exit = Exit(durationMs: real, error: Option<string>, stateDiff: Option<Value>)

  function ParentValue(parent: Option<string>): Value {
    if parent.Some? then Str(parent.value) else Absent
  }

  function EventRecord(e: Item, parent: Option<string>, runId: string): Record
    requires e.Event?
  {
    Record(LevelName(e.level), e.message, Some(Meta(Str(runId), Absent, ParentValue(parent), e.extra)), e.llm)
  }

  /** The extra meta of a closing record: the caller's fields win over the duration, and name a kind if they wish. */
  function ClosingFields(fields: map<string, Value>, exit: Exit): map<string, Value> {
    var timed := map["duration_ms" := Float(exit.durationMs)] + fields;
    var kinded := SetDefault(timed, "kind", Some(Str("span")));
    var diffed := SetDefault(kinded, "state_diff", exit.stateDiff);
    if exit.error.Some? then diffed["error" := Str(exit.error.value)] else diffed
  }

  /** `meta.setdefault(key, value)`, if there is a value. */
  function SetDefault(meta: map<string, Value>, key: string, value: Option<Value>): map<string, Value> {
    if key in meta || value.None? then meta else meta[key := value.value]
  }

  /**
    What a closing record says beside its ids: the caller's fields win over all but the error of the block, and
    nothing else is in it.
   */
  lemma CallerFieldsWin(fields: map<string, Value>, exit: Exit, k: string)
    ensures var m := ClosingFields(fields, exit);
            && (k in fields && !(k == "error" && exit.error.Some?) ==> k in m && m[k] == fields[k])
            && (exit.error.Some? ==> "error" in m && m["error"] == Str(exit.error.value))
            && "kind" in m && ("kind" !in fields ==> m["kind"] == Str("span"))
            && "duration_ms" in m && ("duration_ms" !in fields ==> m["duration_ms"] == Float(exit.durationMs))
            && ("state_diff" !in fields && exit.stateDiff.Some? ==>
                "state_diff" in m && m["state_diff"] == exit.stateDiff.value)
            && (k in m && k !in fields ==> k in {"duration_ms", "kind", "state_diff", "error"})
  {
  }

  function SpanLevel(error: Option<string>): int {
    if error.Some? then ERROR else INFO
  }

  function SpanRecord(s: Item, parent: Option<string>, runId: string): Record
    requires s.Span?
  {
    Record(LevelName(SpanLevel(s.exit.error)), s.name,
           Some(Meta(Str(runId), Str(s.id), ParentValue(parent), ClosingFields(s.fields, s.exit))), None)
  }

  /** The items that a logger at `minLevel` writes down, spans being written at INFO or ERROR. */
  function Visible(items: seq<Item>, minLevel: int): seq<Item> {
    if items == [] then []
    else
      var rest := Visible(items[1..], minLevel);
      match items[0]
      case Event(level, _, _, _) => if level < minLevel then rest else [items[0]] + rest
      case Span(id, name, fields, exit, inner) => [Span(id, name, fields, exit, Visible(inner, minLevel))] + rest
  }

  /** A block's contents first, then the block's own closing record. */
  function EmitItem(item: Item, parent: Option<string>, runId: string): seq<Record> {
    match item
    case Event(_, _, _, _) => [EventRecord(item, parent, runId)]
    case Span(id, _, _, _, inner) => Emit(inner, Some(id), runId) + [SpanRecord(item, parent, runId)]
  }

  function Emit(items: seq<Item>, parent: Option<string>, runId: string): seq<Record> {
    if items == [] then []
    else EmitItem(items[0], parent, runId) + Emit(items[1..], parent, runId)
  }

  /** What a logger at `minLevel` writes: a block's contents and its closing record, each if its level suffices. */
  function EmitItemAt(item: Item, parent: Option<string>, runId: string, minLevel: int): seq<Record> {
    match item
    case Event(level, _, _, _) => if level < minLevel then [] else [EventRecord(item, parent, runId)]
    case Span(id, _, _, exit, inner) =>
      EmitAt(inner, Some(id), runId, minLevel) +
      (if SpanLevel(exit.error) < minLevel then [] else [SpanRecord(item, parent, runId)])
  }

  function EmitAt(items: seq<Item>, parent: Option<string>, runId: string, minLevel: int): seq<Record> {
    if items == [] then []
    else EmitItemAt(items[0], parent, runId, minLevel) + EmitAt(items[1..], parent, runId, minLevel)
  }

  /** A logger at INFO or below writes every span, so its stream is that of the program made of what it shows. */
  lemma {:induction false} EmitAtVisible(items: seq<Item>, parent: Option<string>, runId: string, minLevel: int)
    requires minLevel <= INFO
    ensures EmitAt(items, parent, runId, minLevel) == Emit(Visible(items, minLevel), parent, runId)
    decreases items
  {
    if items != [] {
      EmitAtVisible(items[1..], parent, runId, minLevel);
      var shown := Visible(items, minLevel);
      match items[0]
      case Event(level, _, _, _) =>
        assert level >= minLevel ==> shown[1..] == Visible(items[1..], minLevel);
      case Span(id, _, _, exit, inner) =>
        EmitAtVisible(inner, Some(id), runId, minLevel);
        assert shown[1..] == Visible(items[1..], minLevel);
    }
  }

  // ---- The producer ----

  class Logger {
    const runId: string
    const level: int
    /** The context variable: the innermost span active in this execution context. */
    var current: Option<string>
    var written: seq<Record>

    constructor (runId: string, level: int)
      ensures this.runId == runId && this.level == level && current == None && written == []
    {
      this.runId := runId;
      this.level := level;
      current := None;
      written := [];
    }

    /** Writes one record, stamping the enclosing span unless the caller named a parent. */
    method Log(level: int, message: string, spanId: Value, parentSpanId: Value, extra: map<string, Value>,
               llm: Option<Llm>)
      modifies this`written
      ensures var parent := if parentSpanId.Absent? then ParentValue(current) else parentSpanId;
              written == if level < this.level then old(written)
                         else old(written) + [Record(LevelName(level), message, Some(Meta(Str(runId), spanId, parent, extra)), llm)]
    {
      if level < this.level {
        return;
      }
      var meta := Meta(Str(runId), spanId, parentSpanId, extra);
      if current.Some? && meta.parentSpanId.Absent? {
        meta := meta.(parentSpanId := Str(current.value));
      }
      written := written + [Record(LevelName(level), message, Some(meta), llm)];
    }
  }

  class SpanContext {
    const logger: Logger
    const name: string
    const spanId: string
    const explicitParent: Option<string>
    const fields: map<string, Value>
    /** The span that was current before this one was entered. */
    var token: Option<Option<string>>

    constructor (logger: Logger, name: string, spanId: string, explicitParent: Option<string>, fields: map<string, Value>)
      ensures this.logger == logger && this.name == name && this.spanId == spanId
      ensures this.explicitParent == explicitParent && this.fields == fields && token == None
    {
      this.logger := logger;
      this.name := name;
      this.spanId := spanId;
      this.explicitParent := explicitParent;
      this.fields := fields;
      token := None;
    }

    method Enter()
      modifies this, logger`current
      ensures token == Some(old(logger.current)) && logger.current == Some(spanId)
    {
      token := Some(logger.current);
      logger.current := Some(spanId);
    }

    /** Restores the enclosing span first, so the closing record is stamped with it. */
    method Exit(exit: Exit)
      requires token.Some?
      modifies logger
      ensures logger.current == token.value
      ensures var parent := if explicitParent.Some? then explicitParent else token.value;
              var meta := Meta(Str(logger.runId), Str(spanId), ParentValue(parent), ClosingFields(fields, exit));
              && (exit.error.None? ==>
                  logger.written == old(logger.written) + (if logger.level > 20 then [] else [Record("INFO", name, Some(meta), None)]))
              && (exit.error.Some? ==>
                  logger.written == old(logger.written) + (if logger.level > 40 then [] else [Record("ERROR", name, Some(meta), None)]))
    {
      logger.current := token.value;
      var parent := if explicitParent.Some? then Str(explicitParent.value) else Absent;
      logger.Log(SpanLevel(exit.error), name, Str(spanId), parent, ClosingFields(fields, exit), None);
    }
  }

  /** Runs `items` as nested `with logger.span(...)` blocks, whatever the logger's level. */
  method Run(logger: Logger, items: seq<Item>)
    modifies logger
    ensures logger.current == old(logger.current)
    ensures logger.written == old(logger.written) + EmitAt(items, logger.current, logger.runId, logger.level)
    decreases items, 0
  {
    if items == [] {
      return;
    }
    RunItem(logger, items[0]);
    Run(logger, items[1..]);
    ConcatAssoc(old(logger.written), EmitItemAt(items[0], logger.current, logger.runId, logger.level),
                EmitAt(items[1..], logger.current, logger.runId, logger.level));
  }

  method RunItem(logger: Logger, item: Item)
    modifies logger
    ensures logger.current == old(logger.current)
    ensures logger.written == old(logger.written) + EmitItemAt(item, logger.current, logger.runId, logger.level)
    decreases item, 1
  {
    match item {
      case Event(level, message, extra, llm) =>
        logger.Log(level, message, Absent, Absent, extra, llm);
      case Span(id, name, fields, exit, inner) =>
        var span := new SpanContext(logger, name, id, None, fields);
        span.Enter();
        Run(logger, inner);
        span.Exit(exit);
    }
  }

  // ---- Span ids ----

  function ItemIds(item: Item): set<string> {
    match item
    case Event(_, _, _, _) => {}
    case Span(id, _, _, _, inner) => {id} + Ids(inner)
  }

  function Ids(items: seq<Item>): set<string> {
    if items == [] then {} else ItemIds(items[0]) + Ids(items[1..])
  }

  /** Span ids are non-empty and no two spans share one. */
  predicate ItemWellNamed(item: Item) {
    match item
    case Event(_, _, _, _) => true
    case Span(id, _, _, _, inner) => id != "" && id !in Ids(inner) && WellNamed(inner)
  }

  predicate WellNamed(items: seq<Item>) {
    items == [] || (ItemWellNamed(items[0]) && WellNamed(items[1..]) && ItemIds(items[0]) !! Ids(items[1..]))
  }

  // ---- What the builder rebuilds ----

  /** Node `i` of the trace is the record of `item`, and its children are the records of the item's contents. */
  ghost predicate Represents(kept: seq<Record>, children: seq<seq<nat>>, i: nat, item: Item, parent: Option<string>,
                             runId: string)
    requires |children| == |kept|
    decreases item
  {
    i < |kept| &&
    match item
    case Event(_, _, _, _) => kept[i] == EventRecord(item, parent, runId) && children[i] == []
    case Span(id, _, _, _, inner) =>
      && kept[i] == SpanRecord(item, parent, runId)
      && |children[i]| == |inner|
      && forall k :: 0 <= k < |inner| ==> Represents(kept, children, children[i][k], inner[k], Some(id), runId)
  }

  ghost predicate RepresentsAll(kept: seq<Record>, children: seq<seq<nat>>, nodes: seq<nat>, items: seq<Item>,
                                parent: Option<string>, runId: string)
    requires |children| == |kept|
  {
    |nodes| == |items| && forall k :: 0 <= k < |items| ==> Represents(kept, children, nodes[k], items[k], parent, runId)
  }

  /** `later` has the records of `earlier` and more, with the same children below the old ones. */
  ghost predicate Extends(earlier: Trace, later: Trace) {
    && InRange(earlier) && InRange(later)
    && earlier.kept <= later.kept
    && (forall j :: 0 <= j < |earlier.kept| ==> later.children[j] == earlier.children[j])
  }

  lemma {:induction false} RepresentsExtends(earlier: Trace, later: Trace, i: nat, item: Item,
                                             parent: Option<string>, runId: string)
    requires Extends(earlier, later)
    requires Represents(earlier.kept, earlier.children, i, item, parent, runId)
    ensures Represents(later.kept, later.children, i, item, parent, runId)
    decreases item
  {
    if item.Span? {
      forall k | 0 <= k < |item.inner|
        ensures Represents(later.kept, later.children, later.children[i][k], item.inner[k], Some(item.id), runId)
      {
        RepresentsExtends(earlier, later, earlier.children[i][k], item.inner[k], Some(item.id), runId);
      }
    }
  }

  function PutAll(d: OrderedDict<string, seq<nat>>, p: string, nodes: seq<nat>): OrderedDict<string, seq<nat>> {
    if nodes == [] then d else d.Put(p, d.Get(p, []) + nodes)
  }

  /** The state once the nodes `nodes` have been hung below `parent`. */
  ghost predicate Hung(t: Trace, t': Trace, parent: Option<string>, nodes: seq<nat>) {
    match parent
    case None => t'.roots == t.roots + nodes && t'.pending == t.pending
    case Some(p) => t'.roots == t.roots && t'.pending == PutAll(t.pending, p, nodes)
  }

  /** Nothing about the spans in `ids` is known yet, and the enclosing span is still open. */
  ghost predicate Unseen(t: Trace, ids: set<string>, parent: Option<string>) {
    && InRange(t) && t.pending.Valid()
    && (forall s :: s in ids ==> s !in t.nodes && s !in t.pending.vals && s != "")
    && (parent.Some? ==> parent.value !in t.nodes && parent.value !in ids && parent.value != "")
  }

  lemma {:induction false} FeedAllConcat(t: Trace, runId: string, a: seq<Record>, b: seq<Record>)
    requires InRange(t)
    ensures FeedAll(t, runId, a + b) == FeedAll(FeedAll(t, runId, a), runId, b)
    decreases |a|
  {
    if a == [] {
      assert a + b == b;
    } else {
      assert (a + b)[1..] == a[1..] + b;
      FeedAllConcat(Feed(t, runId, a[0]), runId, a[1..], b);
    }
  }

  lemma FeedOne(t: Trace, runId: string, r: Record)
    requires InRange(t) && Belongs(r, runId)
    ensures FeedAll(t, runId, [r]) == Keep(t, r)
  {
    assert [r][1..] == [];
    assert FeedAll(Feed(t, runId, r), runId, []) == Feed(t, runId, r);
  }

  lemma PutThenRemove(d: OrderedDict<string, seq<nat>>, s: string, nodes: seq<nat>)
    requires d.Valid() && s !in d.vals
    ensures PutAll(d, s, nodes).Get(s, []) == nodes
    ensures PutAll(d, s, nodes).Remove(s) == d
  {
    if nodes != [] {
      assert [] + nodes == nodes;
      WithoutConcat(d.keys, [s], s);
      assert Without([s], s) == [];
      assert d.vals[s := nodes] - {s} == d.vals;
    } else {
      assert d.vals - {s} == d.vals;
    }
  }

  lemma PutAllTwice(d: OrderedDict<string, seq<nat>>, p: string, a: seq<nat>, b: seq<nat>)
    ensures PutAll(PutAll(d, p, a), p, b) == PutAll(d, p, a + b)
  {
    if a == [] {
      assert a + b == b;
    } else if b == [] {
      assert a + b == a;
    } else {
      assert d.Get(p, []) + a + b == d.Get(p, []) + (a + b);
    }
  }

  /** What feeding the records of some items below `parent` has to achieve. */
  ghost predicate Rebuilt(t: Trace, t': Trace, es: seq<Record>, ids: set<string>, parent: Option<string>, nodes: seq<nat>) {
    && Extends(t, t')
    && t'.kept == t.kept + es
    && t'.pending.Valid()
    && t'.nodes.Keys == t.nodes.Keys + ids
    && Hung(t, t', parent, nodes)
  }

  /** One closing record: the span takes the nodes that waited for it and is hung below its own parent. */
  lemma KeepNewest(t: Trace, r: Record, t0: Trace, held: seq<nat>, parent: Option<string>)
    requires InRange(t0) && t0.pending.Valid() && Extends(t0, t)
    requires t.nodes.Keys >= t0.nodes.Keys && t.roots == t0.roots
    requires ParentSpanId(r) == parent
    requires parent.Some? ==> parent.value !in t.nodes && SpanId(r) != parent
    requires if SpanId(r).Some? then SpanId(r).value !in t0.pending.vals && t.pending == PutAll(t0.pending, SpanId(r).value, held)
             else held == [] && t.pending == t0.pending
    ensures var t' := Keep(t, r); var i := |t.kept|;
            && Extends(t, t') && Extends(t0, t')
            && t'.pending.Valid()
            && t'.nodes.Keys == t.nodes.Keys + (if SpanId(r).Some? then {SpanId(r).value} else {})
            && t'.children[i] == held
            && Hung(t0, t', parent, [i])
  {
    if SpanId(r).Some? {
      PutThenRemove(t0.pending, SpanId(r).value, held);
    }
    var a := Arrive(t, r);
    assert a.pending == t0.pending;
    if parent.Some? {
      a.pending.PutValid(parent.value, a.pending.Get(parent.value, []) + [|t.kept|]);
    }
  }

  /** The closing record of a span whose contents have been rebuilt: the span stands below its parent. */
  lemma SpanIsHung(t: Trace, t1: Trace, item: Item, parent: Option<string>, runId: string, held: seq<nat>)
    requires item.Span? && Unseen(t, ItemIds(item), parent)
    requires Rebuilt(t, t1, Emit(item.inner, Some(item.id), runId), Ids(item.inner), Some(item.id), held)
    ensures var t' := Keep(t1, SpanRecord(item, parent, runId));
            && Rebuilt(t, t', EmitItem(item, parent, runId), ItemIds(item), parent, [|t1.kept|])
            && Extends(t1, t') && t'.children[|t1.kept|] == held
  {
    var r := SpanRecord(item, parent, runId);
    KeepNewest(t1, r, t, held, parent);
    ConcatAssoc(t.kept, Emit(item.inner, Some(item.id), runId), [r]);
  }

  lemma HeldRepresent(t1: Trace, t': Trace, item: Item, parent: Option<string>, runId: string, held: seq<nat>)
    requires item.Span? && Extends(t1, t') && |t1.kept| < |t'.kept|
    requires RepresentsAll(t1.kept, t1.children, held, item.inner, Some(item.id), runId)
    requires t'.children[|t1.kept|] == held && t'.kept[|t1.kept|] == SpanRecord(item, parent, runId)
    ensures Represents(t'.kept, t'.children, |t1.kept|, item, parent, runId)
  {
    forall k | 0 <= k < |item.inner|
      ensures Represents(t'.kept, t'.children, held[k], item.inner[k], Some(item.id), runId)
    {
      RepresentsExtends(t1, t', held[k], item.inner[k], Some(item.id), runId);
    }
  }

  /** And its children are the records of its contents. */
  lemma {:induction false} SpanCloses(t: Trace, t1: Trace, item: Item, parent: Option<string>, runId: string, held: seq<nat>)
    requires item.Span? && Unseen(t, ItemIds(item), parent)
    requires Rebuilt(t, t1, Emit(item.inner, Some(item.id), runId), Ids(item.inner), Some(item.id), held)
    requires RepresentsAll(t1.kept, t1.children, held, item.inner, Some(item.id), runId)
    ensures var t' := Keep(t1, SpanRecord(item, parent, runId));
            && Rebuilt(t, t', EmitItem(item, parent, runId), ItemIds(item), parent, [|t1.kept|])
            && Represents(t'.kept, t'.children, |t1.kept|, item, parent, runId)
  {
    var t' := Keep(t1, SpanRecord(item, parent, runId));
    SpanIsHung(t, t1, item, parent, runId, held);
    HeldRepresent(t1, t', item, parent, runId, held);
  }

  lemma EventKept(t: Trace, item: Item, parent: Option<string>, runId: string)
    requires item.Event? && Unseen(t, {}, parent)
    ensures var t' := Keep(t, EventRecord(item, parent, runId));
            && Rebuilt(t, t', EmitItem(item, parent, runId), {}, parent, [|t.kept|])
            && Represents(t'.kept, t'.children, |t.kept|, item, parent, runId)
  {
    KeepNewest(t, EventRecord(item, parent, runId), t, [], parent);
  }

  /** Two stretches of the stream, one after the other. */
  lemma RebuiltTwice(t: Trace, t1: Trace, t': Trace, a: seq<Record>, b: seq<Record>, aIds: set<string>,
                     bIds: set<string>,
                     parent: Option<string>, first: seq<nat>, rest: seq<nat>)
    requires Rebuilt(t, t1, a, aIds, parent, first) && Rebuilt(t1, t', b, bIds, parent, rest)
    ensures Rebuilt(t, t', a + b, aIds + bIds, parent, first + rest)
  {
    if parent.Some? {
      PutAllTwice(t.pending, parent.value, first, rest);
    }
    assert t'.kept == t.kept + (a + b);
    assert t.roots + first + rest == t.roots + (first + rest);
  }

  lemma StillUnseen(t: Trace, t1: Trace, a: seq<Record>, aIds: set<string>, bIds: set<string>,
                    parent: Option<string>, first: seq<nat>)
    requires Unseen(t, aIds + bIds, parent) && aIds !! bIds
    requires Rebuilt(t, t1, a, aIds, parent, first)
    ensures Unseen(t1, bIds, parent)
  {
  }

  lemma {:induction false} RebuildItem(t: Trace, item: Item, parent: Option<string>, runId: string) returns (i: nat)
    requires Unseen(t, ItemIds(item), parent) && ItemWellNamed(item)
    ensures var t' := FeedAll(t, runId, EmitItem(item, parent, runId));
            && Rebuilt(t, t', EmitItem(item, parent, runId), ItemIds(item), parent, [i])
            && Represents(t'.kept, t'.children, i, item, parent, runId)
    decreases item
  {
    match item
    case Event(_, _, _, _) =>
      FeedOne(t, runId, EventRecord(item, parent, runId));
      EventKept(t, item, parent, runId);
      i := |t.kept|;
    case Span(id, _, _, _, inner) =>
      var es := Emit(inner, Some(id), runId);
      var t1 := FeedAll(t, runId, es);
      var held := Rebuild(t, inner, Some(id), runId);
      FeedAllConcat(t, runId, es, [SpanRecord(item, parent, runId)]);
      FeedOne(t1, runId, SpanRecord(item, parent, runId));
      SpanCloses(t, t1, item, parent, runId, held);
      i := |t1.kept|;
  }

  /** Feeding what nested spans emitted hangs exactly those items, in order, below the enclosing span. */
  lemma {:induction false} Rebuild(t: Trace, items: seq<Item>, parent: Option<string>, runId: string)
    returns (nodes: seq<nat>)
    requires Unseen(t, Ids(items), parent) && WellNamed(items)
    ensures var t' := FeedAll(t, runId, Emit(items, parent, runId));
            && Rebuilt(t, t', Emit(items, parent, runId), Ids(items), parent, nodes)
            && RepresentsAll(t'.kept, t'.children, nodes, items, parent, runId)
    decreases items
  {
    if items == [] {
      nodes := [];
    } else {
      var es := EmitItem(items[0], parent, runId);
      var es' := Emit(items[1..], parent, runId);
      var t1 := FeedAll(t, runId, es);
      var t' := FeedAll(t1, runId, es');
      var i := RebuildItem(t, items[0], parent, runId);
      StillUnseen(t, t1, es, ItemIds(items[0]), Ids(items[1..]), parent, [i]);
      var rest := Rebuild(t1, items[1..], parent, runId);
      FeedAllConcat(t, runId, es, es');
      RebuiltTwice(t, t1, t', es, es', ItemIds(items[0]), Ids(items[1..]), parent, [i], rest);
      nodes := [i] + rest;
      RepresentsExtends(t1, t', i, items[0], parent, runId);
    }
  }

  /**
    The round trip: whatever other runs' records are mixed in, the stream written by nested spans with distinct
    ids is rebuilt into exactly the program's forest, roots and children in the order they were written.
   */
  lemma {:induction false} RoundTrip(items: seq<Item>, runId: string, stream: seq<Record>)
    requires WellNamed(items)
    requires Among(stream, Emit(items, None, runId), runId)
    ensures var t := BuildTrace(runId, stream);
            && t.kept == Emit(items, None, runId)
            && |t.children| == |t.kept|
            && RepresentsAll(t.kept, t.children, t.roots, items, None, runId)
  {
    OtherRunsIgnored(EmptyTrace(), runId, stream, Emit(items, None, runId));
    NoEmptyId(items);
    var nodes := Rebuild(EmptyTrace(), items, None, runId);
    var fed := FeedAll(EmptyTrace(), runId, stream);
    assert fed.roots == [] + nodes;
    assert Orphans(fed.pending.keys, fed.pending.vals) == [];
    assert BuildTrace(runId, stream).roots == nodes;
    assert fed.kept == Emit(items, None, runId);
  }

  lemma {:induction false} NoEmptyId(items: seq<Item>)
    requires WellNamed(items)
    ensures "" !in Ids(items)
    decreases items
  {
    if items != [] {
      NoEmptyId(items[1..]);
      if items[0].Span? {
        NoEmptyId(items[0].inner);
      }
    }
  }

  // ---- Truncated runs ----

  ghost predicate ClosesLater(es: seq<Record>) {
    forall i, j :: 0 <= i < |es| && 0 <= j < |es| && ParentSpanId(es[i]).Some? && SpanId(es[j]) == ParentSpanId(es[i]) ==> i < j
  }

  /** Where span and parent ids in an emitted stream come from. */
  ghost predicate IdsFrom(es: seq<Record>, ids: set<string>, parent: Option<string>) {
    forall i :: 0 <= i < |es| ==>
      && (SpanId(es[i]).Some? ==> SpanId(es[i]).value in ids)
      && (ParentSpanId(es[i]) == parent || (ParentSpanId(es[i]).Some? && ParentSpanId(es[i]).value in ids))
  }

  lemma ClosesLaterConcat(a: seq<Record>, aIds: set<string>, b: seq<Record>, bIds: set<string>, parent: Option<string>)
    requires ClosesLater(a) && ClosesLater(b)
    requires IdsFrom(a, aIds, parent) && IdsFrom(b, bIds, parent)
    requires aIds !! bIds && (parent.Some? ==> parent.value !in aIds)
    ensures ClosesLater(a + b) && IdsFrom(a + b, aIds + bIds, parent)
  {
  }

  lemma {:induction false} EmitItemClosesLater(item: Item, parent: Option<string>, runId: string, minLevel: int)
    requires ItemWellNamed(item)
    requires parent.Some? ==> parent.value != "" && parent.value !in ItemIds(item)
    ensures ClosesLater(EmitItemAt(item, parent, runId, minLevel))
    ensures IdsFrom(EmitItemAt(item, parent, runId, minLevel), ItemIds(item), parent)
    decreases item
  {
    if item.Span? {
      EmitClosesLater(item.inner, Some(item.id), runId, minLevel);
      var inner := EmitAt(item.inner, Some(item.id), runId, minLevel);
      SpanClosesLater(inner, Ids(item.inner), item.id, SpanRecord(item, parent, runId), parent);
    }
  }

  /** The closing record of span `id` after what was written inside it, or those records alone. */
  lemma SpanClosesLater(inner: seq<Record>, ids: set<string>, id: string, r: Record, parent: Option<string>)
    requires ClosesLater(inner) && IdsFrom(inner, ids, Some(id)) && id !in ids
    requires SpanId(r) == Some(id) && ParentSpanId(r) == parent && (parent.Some? ==> parent.value !in ids + {id})
    ensures ClosesLater(inner + [r]) && IdsFrom(inner + [r], ids + {id}, parent)
    ensures IdsFrom(inner, ids + {id}, parent)
  {
  }

  /** In what a logger writes, a span that closes does so after everything inside it. */
  lemma {:induction false} EmitClosesLater(items: seq<Item>, parent: Option<string>, runId: string, minLevel: int)
    requires WellNamed(items)
    requires parent.Some? ==> parent.value != "" && parent.value !in Ids(items)
    ensures ClosesLater(EmitAt(items, parent, runId, minLevel))
    ensures IdsFrom(EmitAt(items, parent, runId, minLevel), Ids(items), parent)
    decreases items
  {
    if items != [] {
      EmitItemClosesLater(items[0], parent, runId, minLevel);
      EmitClosesLater(items[1..], parent, runId, minLevel);
      ClosesLaterConcat(EmitItemAt(items[0], parent, runId, minLevel), ItemIds(items[0]),
                        EmitAt(items[1..], parent, runId, minLevel), Ids(items[1..]), parent);
    }
  }

  /**
    A run cut short anywhere, written by a logger of any level, even one whose spans never close: every record that
    made it to the file is met exactly once below the roots, and the root totals add up to those records' totals.
   */
  lemma {:induction false} TruncatedRunConserved(items: seq<Item>, runId: string, minLevel: int, k: nat, stream: seq<Record>)
    requires WellNamed(items) && k <= |EmitAt(items, None, runId, minLevel)|
    requires Among(stream, EmitAt(items, None, runId, minLevel)[..k], runId)
    ensures |ForestOf(runId, stream)| == k
    ensures |ForestTrees(runId, stream)| == |BuildTrace(runId, stream).roots| &&
            TotalFrom(ZERO, ForestTrees(runId, stream), |BuildTrace(runId, stream).roots|) ==
            Tally(EmitAt(items, None, runId, minLevel)[..k])
  {
    var written := EmitAt(items, None, runId, minLevel);
    EmitAtOwn(items, None, runId, minLevel);
    KeptOfAmong(runId, stream, written[..k]);
    EmitClosesLater(items, None, runId, minLevel);
    PrefixAcyclic(written, k);
    TraceConservation(runId, stream);
    RootTotalsConserved(runId, stream);
  }

  lemma PrefixAcyclic(es: seq<Record>, k: nat)
    requires ClosesLater(es) && k <= |es|
    ensures Acyclic(ParentLinks(es[..k]))
  {
    var kept := es[..k];
    assert ClosesLater(kept);
    forall i | 0 <= i < |kept| && ParentLinks(kept)[i].Some?
      ensures ParentLinks(kept)[i].value > i
    {
      assert PlaceOf(kept, i).Under?;
      assert SpanId(kept[PlaceOf(kept, i).parent]) == ParentSpanId(kept[i]);
    }
    ForwardAcyclic(ParentLinks(kept));
  }

  // ---- From the program to the trace ----

  /** Hiding events below a level touches no span. */
  lemma {:induction false} VisibleWellNamed(items: seq<Item>, minLevel: int)
    requires WellNamed(items)
    ensures WellNamed(Visible(items, minLevel)) && Ids(Visible(items, minLevel)) == Ids(items)
    decreases items
  {
    if items != [] {
      VisibleWellNamed(items[1..], minLevel);
      var shown := Visible(items, minLevel);
      match items[0]
      case Event(level, _, _, _) =>
        assert level >= minLevel ==> shown[1..] == Visible(items[1..], minLevel);
      case Span(id, _, _, _, inner) =>
        VisibleWellNamed(inner, minLevel);
        assert shown[1..] == Visible(items[1..], minLevel);
    }
  }

  /** Everything a program writes names its run. */
  lemma {:induction false} EmitAtOwn(items: seq<Item>, parent: Option<string>, runId: string, minLevel: int)
    ensures AllOwn(EmitAt(items, parent, runId, minLevel), runId)
    decreases items
  {
    if items != [] {
      if items[0].Span? {
        EmitAtOwn(items[0].inner, Some(items[0].id), runId, minLevel);
      }
      EmitAtOwn(items[1..], parent, runId, minLevel);
    }
  }

  lemma {:induction false} EmitOwn(items: seq<Item>, parent: Option<string>, runId: string)
    ensures AllOwn(Emit(items, parent, runId), runId)
    decreases items
  {
    if items != [] {
      if items[0].Span? {
        EmitOwn(items[0].inner, Some(items[0].id), runId);
      }
      EmitOwn(items[1..], parent, runId);
    }
  }

  /** Two runs in one log, interleaved in any way: building for either gives back its program and nothing of the other's. */
  lemma {:induction false} TwoRunsApart(a: seq<Item>, runA: string, b: seq<Item>, runB: string, stream: seq<Record>)
    requires WellNamed(a) && WellNamed(b) && runA != runB
    requires Merges(stream, Emit(a, None, runA), Emit(b, None, runB))
    ensures var t := BuildTrace(runA, stream);
            && t.kept == Emit(a, None, runA) && |t.children| == |t.kept|
            && RepresentsAll(t.kept, t.children, t.roots, a, None, runA)
    ensures var t := BuildTrace(runB, stream);
            && t.kept == Emit(b, None, runB) && |t.children| == |t.kept|
            && RepresentsAll(t.kept, t.children, t.roots, b, None, runB)
  {
    EmitOwn(a, None, runA);
    EmitOwn(b, None, runB);
    MergedAmong(runA, stream, Emit(a, None, runA), Emit(b, None, runB));
    MergedAmong(runB, stream, Emit(b, None, runB), Emit(a, None, runA));
    RoundTrip(a, runA, stream);
    RoundTrip(b, runB, stream);
  }

  /**
    Run a program and build the trace of what was written: the trace is the program without the events below the
    logger's level, whatever other runs' records stood in the log before.
   */
  method Trace(logger: Logger, items: seq<Item>) returns (builder: TraceBuilder)
    requires WellNamed(items) && logger.level <= INFO && logger.current == None
    requires forall i :: 0 <= i < |logger.written| ==> Foreign(logger.written[i], logger.runId)
    modifies logger
    ensures fresh(builder) && builder.Valid()
    ensures var t := builder.model;
            && |t.children| == |t.kept|
            && RepresentsAll(t.kept, t.children, t.roots, Visible(items, logger.level), None, logger.runId)
  {
    ghost var before := logger.written;
    Run(logger, items);
    EmitAtVisible(items, None, logger.runId, logger.level);
    AmongAfter(logger.runId, before, EmitAt(items, None, logger.runId, logger.level));
    VisibleWellNamed(items, logger.level);
    RoundTrip(Visible(items, logger.level), logger.runId, logger.written);
    builder := Build(logger.written, logger.runId);
  }
}
