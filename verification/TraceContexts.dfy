/**
  Several execution contexts (threads, asyncio tasks) that share one logger (logquill/tracing/span.py:80-82). Each
  context has its own value of the context variable and starts with the one it inherits. `NoInterference`: in every
  interleaving each context writes what it would have written alone. `ContextsRoundTrip`: the builder nests what each
  context wrote as its program did, and hangs a context that was started inside a span below that span.
 */
module TraceContexts {
  import opened OrderedDicts
  import opened Sequences
  import opened TraceRecords
  import opened TraceSpec
  import opened TraceForest
  import opened TraceSpans

  // ---- The contexts ----

  type EventItem = e: Item | e.Event? witness Event(0, "", map[], None)
  type SpanItem = s: Item | s.Span? witness Span("", "", map[], Exit(0.0, None, None), [])

  /** What a context does: write an event, enter a span, or leave one. */
  datatype Act = Log(event: EventItem) | Enter(id: string) | Leave(span: SpanItem)

  /** The values of the context variable that are still to be restored, and the current one last. */
  type Values = v: seq<Option<string>> | v != [] witness [None]

  function Current(v: Values): Option<string> {
    v[|v| - 1]
  }

  function After(v: Values, act: Act): Values {
    match act
    case Log(_) => v
    case Enter(id) => v + [Some(id)]
    case Leave(_) => if |v| > 1 then v[..|v| - 1] else v
  }

  function Written(v: Values, act: Act, runId: string, minLevel: int): seq<Record> {
    match act
    case Log(event) => if event.level < minLevel then [] else [EventRecord(event, Current(v), runId)]
    case Enter(_) => []
    case Leave(span) =>
      if SpanLevel(span.exit.error) < minLevel then [] else [SpanRecord(span, Current(After(v, act)), runId)]
  }

  function AfterAll(v: Values, acts: seq<Act>): Values
    decreases |acts|
  {
    if acts == [] then v else AfterAll(After(v, acts[0]), acts[1..])
  }

  /** What a context writes if it is alone. */
  function Alone(v: Values, acts: seq<Act>, runId: string, minLevel: int): seq<Record>
    decreases |acts|
  {
    if acts == [] then []
    else Written(v, acts[0], runId, minLevel) + Alone(After(v, acts[0]), acts[1..], runId, minLevel)
  }

  lemma {:induction false} AloneConcat(v: Values, a: seq<Act>, b: seq<Act>, runId: string, minLevel: int)
    ensures AfterAll(v, a + b) == AfterAll(AfterAll(v, a), b)
    ensures Alone(v, a + b, runId, minLevel) == Alone(v, a, runId, minLevel) + Alone(AfterAll(v, a), b, runId, minLevel)
    decreases |a|
  {
    if a == [] {
      assert a + b == b;
    } else {
      var v' := After(v, a[0]);
      assert (a + b)[1..] == a[1..] + b;
      AloneConcat(v', a[1..], b, runId, minLevel);
      ConcatAssoc(Written(v, a[0], runId, minLevel), Alone(v', a[1..], runId, minLevel),
                  Alone(AfterAll(v, a), b, runId, minLevel));
    }
  }

  /** The acts of a program of nested blocks. */
  function Acts(items: seq<Item>): seq<Act> {
    if items == [] then [] else ItemActs(items[0]) + Acts(items[1..])
  }

  function ItemActs(item: Item): seq<Act> {
    match item
    case Event(_, _, _, _) => [Log(item)]
    case Span(id, _, _, _, inner) => [Enter(id)] + Acts(inner) + [Leave(item)]
  }

  lemma OneAct(v: Values, act: Act, runId: string, minLevel: int)
    ensures AfterAll(v, [act]) == After(v, act) && Alone(v, [act], runId, minLevel) == Written(v, act, runId, minLevel)
  {
    assert [act][1..] == [];
    assert Alone(After(v, act), [], runId, minLevel) == [];
  }

  lemma {:induction false} ItemWrites(v: Values, item: Item, runId: string, minLevel: int)
    ensures AfterAll(v, ItemActs(item)) == v
    ensures Alone(v, ItemActs(item), runId, minLevel) == EmitItemAt(item, Current(v), runId, minLevel)
    decreases item
  {
    match item
    case Event(_, _, _, _) => OneAct(v, Log(item), runId, minLevel);
    case Span(id, _, _, _, inner) =>
      ProgramWrites(v + [Some(id)], inner, runId, minLevel);
      SpanWrites(v, item, Acts(inner), runId, minLevel);
  }

  /** Whatever stands between entering and leaving a span, if it restores the context variable. */
  lemma SpanWrites(v: Values, item: SpanItem, acts: seq<Act>, runId: string, minLevel: int)
    requires AfterAll(v + [Some(item.id)], acts) == v + [Some(item.id)]
    ensures AfterAll(v, [Enter(item.id)] + acts + [Leave(item)]) == v
    ensures Alone(v, [Enter(item.id)] + acts + [Leave(item)], runId, minLevel) ==
            Alone(v + [Some(item.id)], acts, runId, minLevel) +
            (if SpanLevel(item.exit.error) < minLevel then [] else [SpanRecord(item, Current(v), runId)])
  {
    var v' := v + [Some(item.id)];
    OneAct(v, Enter(item.id), runId, minLevel);
    OneAct(v', Leave(item), runId, minLevel);
    AloneConcat(v, [Enter(item.id)], acts, runId, minLevel);
    AloneConcat(v, [Enter(item.id)] + acts, [Leave(item)], runId, minLevel);
    assert After(v', Leave(item)) == v;
  }

  /** Alone, a program writes what its blocks say and leaves the context variable as it was. */
  lemma {:induction false} ProgramWrites(v: Values, items: seq<Item>, runId: string, minLevel: int)
    ensures AfterAll(v, Acts(items)) == v
    ensures Alone(v, Acts(items), runId, minLevel) == EmitAt(items, Current(v), runId, minLevel)
    decreases items
  {
    if items != [] {
      ItemWrites(v, items[0], runId, minLevel);
      ProgramWrites(v, items[1..], runId, minLevel);
      AloneConcat(v, ItemActs(items[0]), Acts(items[1..]), runId, minLevel);
    }
  }

  // ---- The shared logger ----

  datatype Step = Step(context: nat, act: Act)

  /** A record and the context that wrote it. */
  datatype Line = Line(context: nat, record: Record)

  ghost predicate StepsOf(steps: seq<Step>, n: nat) {
    forall i :: 0 <= i < |steps| ==> steps[i].context < n
  }

  function Tagged(k: nat, rs: seq<Record>): (lines: seq<Line>)
    ensures |lines| == |rs|
  {
    seq(|rs|, i requires 0 <= i < |rs| => Line(k, rs[i]))
  }

  /** What all contexts together write: each step reads and sets the variable of its own context only. */
  function Shared(vars: seq<Values>, steps: seq<Step>, runId: string, minLevel: int): seq<Line>
    requires StepsOf(steps, |vars|)
    decreases |steps|
  {
    if steps == [] then []
    else
      var k, act := steps[0].context, steps[0].act;
      Tagged(k, Written(vars[k], act, runId, minLevel)) +
      Shared(vars[k := After(vars[k], act)], steps[1..], runId, minLevel)
  }

  /** The records of context `k`. */
  function Own(lines: seq<Line>, k: nat): seq<Record> {
    if lines == [] then []
    else
      var last := lines[|lines| - 1];
      Own(lines[..|lines| - 1], k) + (if last.context == k then [last.record] else [])
  }

  /** The acts of context `k`. */
  function OwnActs(steps: seq<Step>, k: nat): seq<Act> {
    if steps == [] then []
    else (if steps[0].context == k then [steps[0].act] else []) + OwnActs(steps[1..], k)
  }

  lemma {:induction false} OwnConcat(a: seq<Line>, b: seq<Line>, k: nat)
    ensures Own(a + b, k) == Own(a, k) + Own(b, k)
  {
    if b == [] {
      assert a + b == a;
    } else {
      assert (a + b)[..|a + b| - 1] == a + b[..|b| - 1];
      OwnConcat(a, b[..|b| - 1], k);
    }
  }

  lemma {:induction false} OwnTagged(c: nat, rs: seq<Record>, k: nat)
    ensures Own(Tagged(c, rs), k) == if c == k then rs else []
  {
    if rs != [] {
      OwnTagged(c, rs[..|rs| - 1], k);
      assert Tagged(c, rs)[..|rs| - 1] == Tagged(c, rs[..|rs| - 1]);
      assert rs == rs[..|rs| - 1] + [rs[|rs| - 1]];
    }
  }

  /** Whatever the interleaving, each context writes what it would have written alone. */
  lemma {:induction false} NoInterference(vars: seq<Values>, steps: seq<Step>, runId: string, minLevel: int, k: nat)
    requires StepsOf(steps, |vars|) && k < |vars|
    ensures Own(Shared(vars, steps, runId, minLevel), k) == Alone(vars[k], OwnActs(steps, k), runId, minLevel)
    decreases |steps|
  {
    if steps != [] {
      var c, act := steps[0].context, steps[0].act;
      var now := Written(vars[c], act, runId, minLevel);
      var vars' := vars[c := After(vars[c], act)];
      NoInterference(vars', steps[1..], runId, minLevel, k);
      OwnConcat(Tagged(c, now), Shared(vars', steps[1..], runId, minLevel), k);
      OwnTagged(c, now, k);
      if c == k {
        assert OwnActs(steps, k)[1..] == OwnActs(steps[1..], k);
        assert Alone(vars[k], OwnActs(steps, k), runId, minLevel) ==
               now + Alone(vars'[k], OwnActs(steps[1..], k), runId, minLevel);
      } else {
        assert OwnActs(steps, k) == OwnActs(steps[1..], k);
      }
    }
  }

  // ---- Where the lines of a context stand ----

  function Records(lines: seq<Line>): (rs: seq<Record>)
    ensures |rs| == |lines|
  {
    seq(|lines|, i requires 0 <= i < |lines| => lines[i].record)
  }

  /** The positions of the records of context `k`. */
  function Positions(lines: seq<Line>, k: nat): seq<nat> {
    if lines == [] then []
    else Positions(lines[..|lines| - 1], k) + (if lines[|lines| - 1].context == k then [|lines| - 1] else [])
  }

  predicate Increasing(s: seq<nat>) {
    forall a, b :: 0 <= a < b < |s| ==> s[a] < s[b]
  }

  lemma {:induction false} PositionsAre(lines: seq<Line>, k: nat)
    ensures Increasing(Positions(lines, k))
    ensures forall i: nat :: i in Positions(lines, k) <==> i < |lines| && lines[i].context == k
  {
    if lines != [] {
      var before := lines[..|lines| - 1];
      var at, last := Positions(before, k), |lines| - 1;
      PositionsAre(before, k);
      AppendGreatest(at, last);
      forall i: nat
        ensures i in Positions(lines, k) <==> i < |lines| && lines[i].context == k
      {
        assert i in at + [last] <==> i in at || i == last;
        assert i < last ==> before[i] == lines[i];
      }
    }
  }

  lemma {:induction false} PositionsHold(lines: seq<Line>, k: nat)
    ensures |Positions(lines, k)| == |Own(lines, k)|
    ensures forall m :: 0 <= m < |Positions(lines, k)| ==>
              Positions(lines, k)[m] < |lines| && lines[Positions(lines, k)[m]].record == Own(lines, k)[m]
  {
    if lines != [] {
      var before := lines[..|lines| - 1];
      var at := Positions(before, k);
      PositionsHold(before, k);
      assert forall m :: 0 <= m < |at| ==> lines[at[m]] == before[at[m]];
    }
  }

  lemma PositionsMeaning(lines: seq<Line>, k: nat)
    ensures var at := Positions(lines, k);
            && Increasing(at)
            && (forall i: nat :: i in at <==> i < |lines| && lines[i].context == k)
            && |at| == |Own(lines, k)|
            && forall m :: 0 <= m < |at| ==> at[m] < |lines| && lines[at[m]].record == Own(lines, k)[m]
  {
    PositionsAre(lines, k);
    PositionsHold(lines, k);
  }

  /** `s` without its last element: the same members but the greatest. */
  lemma DropGreatest(s: seq<nat>)
    requires Increasing(s) && s != []
    ensures var last := s[|s| - 1];
            && Increasing(s[..|s| - 1])
            && (forall x: nat :: x in s ==> x <= last)
            && (forall x: nat :: x in s[..|s| - 1] <==> x in s && x != last)
  {
    assert s == s[..|s| - 1] + [s[|s| - 1]];
  }

  lemma AppendGreatest(s: seq<nat>, x: nat)
    requires Increasing(s) && forall y: nat :: y in s ==> y < x
    ensures Increasing(s + [x])
  {
    forall a | 0 <= a < |s|
      ensures s[a] < x
    {
      assert s[a] in s;
    }
  }

  lemma EmptyOrMember(s: seq<nat>)
    ensures s == [] || exists x: nat :: x in s
  {
    assert s != [] ==> s[0] in s;
  }

  /** Two increasing lists with the same members are the same list. */
  lemma {:induction false} SameIncreasing(a: seq<nat>, b: seq<nat>)
    requires Increasing(a) && Increasing(b) && forall x: nat :: x in a <==> x in b
    ensures a == b
  {
    if a != [] && b != [] {
      DropGreatest(a);
      DropGreatest(b);
      assert a[|a| - 1] in b && b[|b| - 1] in a;
      assert a[|a| - 1] == b[|b| - 1];
      var a', b' := a[..|a| - 1], b[..|b| - 1];
      forall x: nat
        ensures x in a' <==> x in b'
      {
        assert x in a' <==> x in a && x != a[|a| - 1];
        assert x in b' <==> x in b && x != b[|b| - 1];
      }
      SameIncreasing(a', b');
      assert a == a[..|a| - 1] + [a[|a| - 1]];
    } else {
      EmptyOrMember(a);
      EmptyOrMember(b);
    }
  }

  /** The nodes among `nodes` that context `k` wrote. */
  function OfContext(lines: seq<Line>, nodes: seq<nat>, k: nat): seq<nat> {
    if nodes == [] then []
    else
      var last := nodes[|nodes| - 1];
      OfContext(lines, nodes[..|nodes| - 1], k) + (if last < |lines| && lines[last].context == k then [last] else [])
  }

  lemma {:induction false} OfContextMeaning(lines: seq<Line>, nodes: seq<nat>, k: nat)
    ensures forall i: nat :: i in OfContext(lines, nodes, k) <==> i in nodes && i < |lines| && lines[i].context == k
    ensures Increasing(nodes) ==> Increasing(OfContext(lines, nodes, k))
  {
    if nodes != [] {
      var before := nodes[..|nodes| - 1];
      OfContextMeaning(lines, before, k);
      assert nodes == before + [nodes[|nodes| - 1]];
      if Increasing(nodes) {
        DropGreatest(nodes);
        AppendGreatest(OfContext(lines, before, k), nodes[|nodes| - 1]);
      }
    }
  }

  // ---- Children are the records stamped with the span ----

  ghost predicate UniqueIds(kept: seq<Record>) {
    forall i, j :: 0 <= i < |kept| && 0 <= j < |kept| && SpanId(kept[i]).Some? && SpanId(kept[i]) == SpanId(kept[j]) ==> i == j
  }

  lemma {:induction false} ClosedFound(kept: seq<Record>, p: string, m: nat, j: nat)
    requires m <= |kept| && j < |kept| && SpanId(kept[j]) == Some(p)
    ensures j < m ==> LastClosed(kept, p, m).Some?
    ensures j >= m ==> NextClosed(kept, p, m).Some?
  {
    if j < m {
      LastFound(kept, p, m, j);
    } else {
      NextFound(kept, p, m, j);
    }
  }

  lemma {:induction false} LastFound(kept: seq<Record>, p: string, m: nat, j: nat)
    requires j < m <= |kept| && SpanId(kept[j]) == Some(p)
    ensures LastClosed(kept, p, m).Some?
  {
    if j < m - 1 {
      LastFound(kept, p, m - 1, j);
    }
  }

  lemma {:induction false} NextFound(kept: seq<Record>, p: string, m: nat, j: nat)
    requires m <= j < |kept| && SpanId(kept[j]) == Some(p)
    ensures NextClosed(kept, p, m).Some?
    decreases |kept| - m
  {
    if m < j {
      NextFound(kept, p, m + 1, j);
    }
  }

  /** With unique span ids a record belongs under the one that closes the span it is stamped with, early or late. */
  lemma {:induction false} StampDecides(kept: seq<Record>, i: nat)
    requires UniqueIds(kept) && i < |kept|
    ensures forall j: nat :: j < |kept| ==>
              (PlaceOf(kept, i) == Under(j) <==> ParentSpanId(kept[i]).Some? && ParentSpanId(kept[i]) == SpanId(kept[j]))
    ensures PlaceOf(kept, i) == Root <==> ParentSpanId(kept[i]).None?
    ensures PlaceOf(kept, i).Waiting? ==> ParentSpanId(kept[i]) == Some(PlaceOf(kept, i).id)
    ensures PlaceOf(kept, i).Waiting? <==>
              ParentSpanId(kept[i]).Some? && forall j :: 0 <= j < |kept| ==> SpanId(kept[j]) != ParentSpanId(kept[i])
  {
    if ParentSpanId(kept[i]).Some? {
      var p := ParentSpanId(kept[i]).value;
      forall j | 0 <= j < |kept| && SpanId(kept[j]) == Some(p)
        ensures PlaceOf(kept, i) == Under(j)
      {
        ClosedFound(kept, p, i + 1, j);
      }
    }
  }

  /** The records of `kept` that are stamped with this parent. */
  ghost predicate Stamped(kept: seq<Record>, nodes: seq<nat>, parent: Option<string>) {
    Increasing(nodes) && forall i: nat :: i in nodes <==> i < |kept| && ParentSpanId(kept[i]) == parent
  }

  /**
    In any stream in which no two spans share an id, the children of a span are the records stamped with it, in
    stream order, no matter which context wrote them, and before or after the span closed.
   */
  lemma {:induction false} ChildrenAreStamped(t: Trace, j: nat)
    requires Faithful(t) && UniqueIds(t.kept) && j < |t.kept|
    ensures if SpanId(t.kept[j]).Some? then Stamped(t.kept, t.children[j], SpanId(t.kept[j])) else t.children[j] == []
  {
    PlacedMembers(t.kept, Under(j), |t.kept|);
    forall i: nat | i < |t.kept|
      ensures i in t.children[j] <==> ParentSpanId(t.kept[i]).Some? && ParentSpanId(t.kept[i]) == SpanId(t.kept[j])
    {
      StampDecides(t.kept, i);
    }
    EmptyOrMember(t.children[j]);
  }

  // ---- What each context wrote, rebuilt ----

  /** A context: the span it was started in, if any, and its program. */
  datatype Task = Task(inherited: Option<string>, items: seq<Item>)

  /** Span ids are not empty, no two spans of all the programs share one, and no task is started inside itself. */
  ghost predicate TasksNamed(tasks: seq<Task>) {
    && (forall k :: 0 <= k < |tasks| ==> TaskNamed(tasks[k]))
    && (forall k, l :: 0 <= k < l < |tasks| ==> Ids(tasks[k].items) !! Ids(tasks[l].items))
  }

  predicate TaskNamed(task: Task) {
    && WellNamed(task.items)
    && (task.inherited.Some? ==> task.inherited.value != "" && task.inherited.value !in Ids(task.items))
  }

  function TaskEmits(task: Task, runId: string): seq<Record> {
    Emit(task.items, task.inherited, runId)
  }

  /** The lines are the records of the tasks, each task's in order, in some interleaving. */
  ghost predicate Interleaves(lines: seq<Line>, tasks: seq<Task>, runId: string) {
    && (forall i :: 0 <= i < |lines| ==> lines[i].context < |tasks|)
    && (forall k: nat :: k < |tasks| ==> Own(lines, k) == TaskEmits(tasks[k], runId))
  }

  lemma UniqueConcat(a: seq<Record>, aIds: set<string>, b: seq<Record>, bIds: set<string>, parent: Option<string>)
    requires UniqueIds(a) && UniqueIds(b) && IdsFrom(a, aIds, parent) && IdsFrom(b, bIds, parent) && aIds !! bIds
    ensures UniqueIds(a + b)
  {
  }

  lemma {:induction false} EmitUnique(items: seq<Item>, parent: Option<string>, runId: string)
    requires WellNamed(items) && (parent.Some? ==> parent.value != "" && parent.value !in Ids(items))
    ensures UniqueIds(Emit(items, parent, runId)) && IdsFrom(Emit(items, parent, runId), Ids(items), parent)
    decreases items
  {
    if items != [] {
      EmitItemUnique(items[0], parent, runId);
      EmitUnique(items[1..], parent, runId);
      UniqueConcat(EmitItem(items[0], parent, runId), ItemIds(items[0]),
                   Emit(items[1..], parent, runId), Ids(items[1..]), parent);
    }
  }

  lemma {:induction false} EmitItemUnique(item: Item, parent: Option<string>, runId: string)
    requires ItemWellNamed(item) && (parent.Some? ==> parent.value != "" && parent.value !in ItemIds(item))
    ensures UniqueIds(EmitItem(item, parent, runId)) && IdsFrom(EmitItem(item, parent, runId), ItemIds(item), parent)
    decreases item
  {
    if item.Span? {
      EmitUnique(item.inner, Some(item.id), runId);
    }
  }

  /** A record of context `k` names only span ids of its own task, as its span and, but for the inherited one, as parent. */
  lemma LineIds(lines: seq<Line>, tasks: seq<Task>, runId: string, i: nat)
    requires TasksNamed(tasks) && Interleaves(lines, tasks, runId) && i < |lines|
    ensures var r, task := lines[i].record, tasks[lines[i].context];
            && (SpanId(r).Some? ==> SpanId(r).value in Ids(task.items))
            && (ParentSpanId(r) == task.inherited ||
                (ParentSpanId(r).Some? && ParentSpanId(r).value in Ids(task.items)))
  {
    var k := lines[i].context;
    PositionsMeaning(lines, k);
    var m :| 0 <= m < |Positions(lines, k)| && Positions(lines, k)[m] == i;
    EmitUnique(tasks[k].items, tasks[k].inherited, runId);
    assert Own(lines, k)[m] == lines[i].record;
  }

  lemma LinesOwn(lines: seq<Line>, tasks: seq<Task>, runId: string)
    requires Interleaves(lines, tasks, runId)
    ensures AllOwn(Records(lines), runId)
  {
    forall i | 0 <= i < |lines|
      ensures !Foreign(lines[i].record, runId)
    {
      var k := lines[i].context;
      PositionsMeaning(lines, k);
      var m :| 0 <= m < |Positions(lines, k)| && Positions(lines, k)[m] == i;
      EmitOwn(tasks[k].items, tasks[k].inherited, runId);
      assert Own(lines, k)[m] == lines[i].record;
    }
  }

  lemma LinesUnique(lines: seq<Line>, tasks: seq<Task>, runId: string)
    requires TasksNamed(tasks) && Interleaves(lines, tasks, runId)
    ensures UniqueIds(Records(lines))
  {
    forall i, j | 0 <= i < |lines| && 0 <= j < |lines| && SpanId(lines[i].record).Some? && SpanId(lines[i].record) == SpanId(lines[j].record)
      ensures i == j
    {
      LineIds(lines, tasks, runId, i);
      LineIds(lines, tasks, runId, j);
      var k := lines[i].context;
      assert lines[j].context == k;
      PositionsMeaning(lines, k);
      var at := Positions(lines, k);
      var m :| 0 <= m < |at| && at[m] == i;
      var n :| 0 <= n < |at| && at[n] == j;
      EmitUnique(tasks[k].items, tasks[k].inherited, runId);
      assert Own(lines, k)[m] == lines[i].record && Own(lines, k)[n] == lines[j].record;
    }
  }

  /** The same nodes, named by their position among all lines instead of among the task's own. */
  function AmongAll(at: seq<nat>, nodes: seq<nat>): (r: seq<nat>)
    ensures |r| == |nodes|
  {
    seq(|nodes|, m requires 0 <= m < |nodes| => if nodes[m] < |at| then at[nodes[m]] else 0)
  }

  /** The records of context `k` with a given parent, listed among all lines and listed among its own. */
  lemma SameStamped(lines: seq<Line>, k: nat, nodes: seq<nat>, own: seq<nat>, parent: Option<string>)
    requires Increasing(nodes)
    requires forall i: nat :: i in nodes <==> i < |lines| && lines[i].context == k && ParentSpanId(lines[i].record) == parent
    requires Stamped(Own(lines, k), own, parent)
    ensures nodes == AmongAll(Positions(lines, k), own)
  {
    var at := Positions(lines, k);
    var moved := AmongAll(at, own);
    PositionsMeaning(lines, k);
    forall m | 0 <= m < |own|
      ensures own[m] < |at| && moved[m] == at[own[m]]
    {
      assert own[m] in own;
    }
    forall i: nat
      ensures i in nodes <==> i in moved
    {
      if i in moved {
        var m :| 0 <= m < |moved| && moved[m] == i;
        assert own[m] in own && at[own[m]] in at;
      }
      if i in nodes {
        var m :| 0 <= m < |at| && at[m] == i;
        assert m in own;
        var n :| 0 <= n < |own| && own[n] == m;
        assert moved[n] == i;
      }
    }
    SameIncreasing(nodes, moved);
  }

  /** Line `i` is the record of `item`, written by context `k`, and below it stand, of context `k`, its contents in order. */
  ghost predicate Nested(lines: seq<Line>, children: seq<seq<nat>>, k: nat, i: nat, item: Item, parent: Option<string>,
                         runId: string)
    requires |children| == |lines|
    decreases item
  {
    i < |lines| && lines[i].context == k &&
    match item
    case Event(_, _, _, _) => lines[i].record == EventRecord(item, parent, runId) && children[i] == []
    case Span(id, _, _, _, inner) =>
      var held := OfContext(lines, children[i], k);
      && lines[i].record == SpanRecord(item, parent, runId)
      && |held| == |inner|
      && forall m :: 0 <= m < |inner| ==> Nested(lines, children, k, held[m], inner[m], Some(id), runId)
  }

  /** `t` is what the builder makes of the lines, and `sub` what it makes of those of context `k` alone. */
  ghost predicate Parts(t: Trace, lines: seq<Line>, k: nat, sub: Trace) {
    && Faithful(t) && t.kept == Records(lines) && UniqueIds(t.kept)
    && Faithful(sub) && sub.kept == Own(lines, k) && UniqueIds(sub.kept)
  }

  /** Of context `k`, the same records hang below a record, whether or not the other contexts wrote anything. */
  lemma SameChildren(t: Trace, lines: seq<Line>, k: nat, sub: Trace, m: nat)
    requires Parts(t, lines, k, sub) && m < |sub.kept|
    ensures |Positions(lines, k)| == |sub.kept| && Positions(lines, k)[m] < |lines|
    ensures lines[Positions(lines, k)[m]] == Line(k, sub.kept[m])
    ensures OfContext(lines, t.children[Positions(lines, k)[m]], k) == AmongAll(Positions(lines, k), sub.children[m])
  {
    PositionsMeaning(lines, k);
    var i := Positions(lines, k)[m];
    assert i in Positions(lines, k);
    ChildrenAreStamped(t, i);
    ChildrenAreStamped(sub, m);
    assert t.kept[i] == sub.kept[m];
    if SpanId(sub.kept[m]).Some? {
      OfContextMeaning(lines, t.children[i], k);
      SameStamped(lines, k, OfContext(lines, t.children[i], k), sub.children[m], SpanId(sub.kept[m]));
    }
  }

  /** What the builder nests for a context alone, it nests among all. */
  lemma {:induction false} RepresentsNested(t: Trace, lines: seq<Line>, k: nat, sub: Trace, m: nat, item: Item,
                                            parent: Option<string>, runId: string)
    requires Parts(t, lines, k, sub) && Represents(sub.kept, sub.children, m, item, parent, runId)
    ensures |Positions(lines, k)| == |sub.kept|
    ensures Nested(lines, t.children, k, Positions(lines, k)[m], item, parent, runId)
    decreases item
  {
    var at := Positions(lines, k);
    SameChildren(t, lines, k, sub, m);
    match item
    case Event(_, _, _, _) => ChildrenAreStamped(t, at[m]);
    case Span(id, _, _, _, inner) =>
      forall q | 0 <= q < |inner|
        ensures Nested(lines, t.children, k, AmongAll(at, sub.children[m])[q], inner[q], Some(id), runId)
      {
        RepresentsNested(t, lines, k, sub, sub.children[m][q], inner[q], Some(id), runId);
      }
  }

  /** A task by itself: its top-level records are those stamped with what it inherited. */
  lemma TaskAlone(task: Task, runId: string) returns (sub: Trace, own: seq<nat>)
    requires TaskNamed(task)
    ensures Faithful(sub) && sub.kept == TaskEmits(task, runId) && UniqueIds(sub.kept)
    ensures RepresentsAll(sub.kept, sub.children, own, task.items, task.inherited, runId)
    ensures Stamped(sub.kept, own, task.inherited)
  {
    var es := TaskEmits(task, runId);
    sub := FeedAll(EmptyTrace(), runId, es);
    EmptyFaithful();
    FeedAllFaithful(EmptyTrace(), runId, es);
    NoEmptyId(task.items);
    own := Rebuild(EmptyTrace(), task.items, task.inherited, runId);
    EmitUnique(task.items, task.inherited, runId);
    assert sub.kept == [] + es == es;
    TopStamped(sub, task.items, task.inherited, own);
  }

  lemma TopStamped(sub: Trace, items: seq<Item>, inherited: Option<string>, own: seq<nat>)
    requires Faithful(sub) && UniqueIds(sub.kept) && IdsFrom(sub.kept, Ids(items), inherited)
    requires inherited.Some? ==> inherited.value !in Ids(items)
    requires Hung(EmptyTrace(), sub, inherited, own)
    ensures Stamped(sub.kept, own, inherited)
  {
    var place := if inherited.Some? then Waiting(inherited.value) else Root;
    TopPlaced(sub, inherited, own);
    PlacedMembers(sub.kept, place, |sub.kept|);
    forall i: nat | i < |sub.kept|
      ensures PlaceOf(sub.kept, i) == place <==> ParentSpanId(sub.kept[i]) == inherited
    {
      StampDecides(sub.kept, i);
    }
  }

  lemma TopPlaced(sub: Trace, inherited: Option<string>, own: seq<nat>)
    requires Faithful(sub) && Hung(EmptyTrace(), sub, inherited, own)
    ensures own == Placed(sub.kept, if inherited.Some? then Waiting(inherited.value) else Root, |sub.kept|)
  {
    assert [] + own == own;
    if inherited.Some? {
      assert sub.pending.Get(inherited.value, []) == own;
    }
  }

  // ---- Where a context hangs ----

  /** Some line closes the span `id`. */
  ghost predicate Closed(lines: seq<Line>, id: string) {
    exists j :: 0 <= j < |lines| && SpanId(lines[j].record) == Some(id)
  }

  lemma {:induction false} EmitCloses(items: seq<Item>, parent: Option<string>, runId: string, id: string) returns (m: nat)
    requires WellNamed(items) && id in Ids(items)
    ensures m < |Emit(items, parent, runId)| && SpanId(Emit(items, parent, runId)[m]) == Some(id)
    decreases items
  {
    var first := EmitItem(items[0], parent, runId);
    if id in ItemIds(items[0]) {
      if id == items[0].id {
        m := |first| - 1;
      } else {
        m := EmitCloses(items[0].inner, Some(items[0].id), runId, id);
      }
    } else {
      m := EmitCloses(items[1..], parent, runId, id);
      m := m + |first|;
    }
  }

  /** Every span of a task is closed by one of its lines. */
  lemma OwnClosed(lines: seq<Line>, tasks: seq<Task>, runId: string, k: nat, id: string)
    requires TasksNamed(tasks) && Interleaves(lines, tasks, runId) && k < |tasks| && id in Ids(tasks[k].items)
    ensures Closed(lines, id)
  {
    var m := EmitCloses(tasks[k].items, tasks[k].inherited, runId, id);
    PositionsMeaning(lines, k);
    assert SpanId(lines[Positions(lines, k)[m]].record) == Some(id);
  }

  lemma {:induction false} OfContextConcat(lines: seq<Line>, a: seq<nat>, b: seq<nat>, k: nat)
    ensures OfContext(lines, a + b, k) == OfContext(lines, a, k) + OfContext(lines, b, k)
  {
    if b == [] {
      assert a + b == a;
    } else {
      assert (a + b)[..|a + b| - 1] == a + b[..|b| - 1];
      OfContextConcat(lines, a, b[..|b| - 1], k);
    }
  }

  /** Only the list that waits for `id` has anything of context `k`. */
  lemma {:induction false} OrphansOfContext(lines: seq<Line>, keys: seq<string>, lists: map<string, seq<nat>>, k: nat, id: string)
    requires Distinct(keys)
    requires forall p :: p in keys && p in lists && p != id ==> OfContext(lines, lists[p], k) == []
    ensures OfContext(lines, Orphans(keys, lists), k) ==
            if id in keys && id in lists then OfContext(lines, lists[id], k) else []
  {
    if keys != [] {
      assert keys == [keys[0]] + keys[1..];
      OrphansOfContext(lines, keys[1..], lists, k, id);
      OfContextConcat(lines, if keys[0] in lists then lists[keys[0]] else [], Orphans(keys[1..], lists), k);
    }
  }

  /** Nothing of context `k` waits for a span but the inherited one. */
  lemma NoneWaits(t: Trace, lines: seq<Line>, tasks: seq<Task>, runId: string, k: nat, id: string)
    requires Faithful(t) && t.kept == Records(lines) && UniqueIds(t.kept)
    requires TasksNamed(tasks) && Interleaves(lines, tasks, runId) && k < |tasks| && tasks[k].inherited != Some(id)
    ensures OfContext(lines, Placed(t.kept, Waiting(id), |t.kept|), k) == []
  {
    var waiting := Placed(t.kept, Waiting(id), |t.kept|);
    PlacedMembers(t.kept, Waiting(id), |t.kept|);
    OfContextMeaning(lines, waiting, k);
    forall i: nat | i < |lines| && lines[i].context == k
      ensures PlaceOf(t.kept, i) != Waiting(id)
    {
      StampDecides(t.kept, i);
      LineIds(lines, tasks, runId, i);
      if ParentSpanId(lines[i].record) == Some(id) {
        OwnClosed(lines, tasks, runId, k, id);
        var j :| 0 <= j < |lines| && SpanId(lines[j].record) == Some(id);
        assert SpanId(t.kept[j]) == Some(id);
      }
    }
    EmptyOrMember(OfContext(lines, waiting, k));
  }

  /** The records at a place where exactly the top-level records of context `k` belong. */
  lemma TopAt(t: Trace, lines: seq<Line>, k: nat, sub: Trace, own: seq<nat>, parent: Option<string>, place: Place)
    requires Parts(t, lines, k, sub) && Stamped(sub.kept, own, parent)
    requires forall i: nat :: i < |lines| && lines[i].context == k ==>
               (PlaceOf(t.kept, i) == place <==> ParentSpanId(lines[i].record) == parent)
    ensures OfContext(lines, Placed(t.kept, place, |t.kept|), k) == AmongAll(Positions(lines, k), own)
  {
    PlacedMembers(t.kept, place, |t.kept|);
    OfContextMeaning(lines, Placed(t.kept, place, |t.kept|), k);
    SameStamped(lines, k, OfContext(lines, Placed(t.kept, place, |t.kept|), k), own, parent);
  }

  /** A context that inherited no span stands at the roots. */
  lemma TopAtRoots(t: Trace, lines: seq<Line>, tasks: seq<Task>, runId: string, k: nat, sub: Trace, own: seq<nat>)
    requires Parts(t, lines, k, sub) && TasksNamed(tasks) && Interleaves(lines, tasks, runId) && k < |tasks|
    requires tasks[k].inherited == None && Stamped(sub.kept, own, None)
    ensures OfContext(lines, Finalize(t).roots, k) == AmongAll(Positions(lines, k), own)
  {
    var keys, lists := t.pending.keys, t.pending.vals;
    forall i: nat | i < |lines|
      ensures PlaceOf(t.kept, i) == Root <==> ParentSpanId(lines[i].record) == None
    {
      StampDecides(t.kept, i);
    }
    TopAt(t, lines, k, sub, own, None, Root);
    forall p | p in lists
      ensures OfContext(lines, lists[p], k) == []
    {
      NoneWaits(t, lines, tasks, runId, k, p);
      assert lists[p] == t.pending.Get(p, []);
    }
    OrphansOfContext(lines, keys, lists, k, "");
    OfContextConcat(lines, t.roots, Orphans(keys, lists), k);
  }

  /** So does one that inherited a span nobody closed, after those. */
  lemma TopAtOrphans(t: Trace, lines: seq<Line>, tasks: seq<Task>, runId: string, k: nat, sub: Trace, own: seq<nat>,
                     id: string)
    requires Parts(t, lines, k, sub) && TasksNamed(tasks) && Interleaves(lines, tasks, runId) && k < |tasks|
    requires tasks[k].inherited == Some(id) && !Closed(lines, id) && Stamped(sub.kept, own, Some(id))
    ensures OfContext(lines, Finalize(t).roots, k) == AmongAll(Positions(lines, k), own)
  {
    var keys, lists := t.pending.keys, t.pending.vals;
    forall i: nat | i < |lines| && lines[i].context == k
      ensures PlaceOf(t.kept, i) == Waiting(id) <==> ParentSpanId(lines[i].record) == Some(id)
      ensures PlaceOf(t.kept, i) != Root
    {
      StampDecides(t.kept, i);
      LineIds(lines, tasks, runId, i);
      assert forall j :: 0 <= j < |lines| ==> t.kept[j] == lines[j].record;
    }
    TopAt(t, lines, k, sub, own, Some(id), Waiting(id));
    PlacedMembers(t.kept, Root, |t.kept|);
    OfContextMeaning(lines, t.roots, k);
    EmptyOrMember(OfContext(lines, t.roots, k));
    forall p | p in lists && p != id
      ensures OfContext(lines, lists[p], k) == []
    {
      NoneWaits(t, lines, tasks, runId, k, p);
      assert lists[p] == t.pending.Get(p, []);
    }
    OrphansOfContext(lines, keys, lists, k, id);
    assert t.pending.Get(id, []) == Placed(t.kept, Waiting(id), |t.kept|);
    OfContextConcat(lines, t.roots, Orphans(keys, lists), k);
  }

  lemma TopAtSpan(t: Trace, lines: seq<Line>, k: nat, sub: Trace, own: seq<nat>, id: string, j: nat)
    requires Parts(t, lines, k, sub) && Stamped(sub.kept, own, Some(id))
    requires j < |lines| && SpanId(lines[j].record) == Some(id)
    ensures OfContext(lines, t.children[j], k) == AmongAll(Positions(lines, k), own)
  {
    ChildrenAreStamped(t, j);
    assert t.kept[j] == lines[j].record;
    OfContextMeaning(lines, t.children[j], k);
    SameStamped(lines, k, OfContext(lines, t.children[j], k), own, Some(id));
  }

  /** The top-level nodes of a context hang below the span it inherited if that one closes, and else at the roots. */
  ghost predicate HangsAt(t: Trace, lines: seq<Line>, k: nat, inherited: Option<string>, nodes: seq<nat>)
    requires |t.children| == |lines|
  {
    && (forall j :: 0 <= j < |lines| && inherited.Some? && SpanId(lines[j].record) == inherited ==>
        OfContext(lines, t.children[j], k) == nodes)
    && ((inherited.Some? && Closed(lines, inherited.value)) || OfContext(lines, t.roots, k) == nodes)
  }

  /**
    The round trip for contexts that share a logger. However their records are interleaved with each other and with
    those of other runs, the builder nests what each context wrote exactly as its program did, contents in order, and
    hangs its top-level records in order below the span in which the context was started.
   */
  lemma {:induction false} ContextsRoundTrip(lines: seq<Line>, tasks: seq<Task>, runId: string, stream: seq<Record>, k: nat)
    returns (nodes: seq<nat>)
    requires TasksNamed(tasks) && Interleaves(lines, tasks, runId) && k < |tasks|
    requires Among(stream, Records(lines), runId)
    ensures var t, items := BuildTrace(runId, stream), tasks[k].items;
            && t.kept == Records(lines) && |t.children| == |lines|
            && |nodes| == |items|
            && (forall m :: 0 <= m < |items| ==> Nested(lines, t.children, k, nodes[m], items[m], tasks[k].inherited, runId))
            && HangsAt(t, lines, k, tasks[k].inherited, nodes)
  {
    var fed := FeedLines(lines, tasks, runId, stream);
    var inherited := tasks[k].inherited;
    var sub, own := TaskAlone(tasks[k], runId);
    nodes := AmongAll(Positions(lines, k), own);
    forall m | 0 <= m < |own|
      ensures Nested(lines, fed.children, k, nodes[m], tasks[k].items[m], inherited, runId)
    {
      RepresentsNested(fed, lines, k, sub, own[m], tasks[k].items[m], inherited, runId);
    }
    if inherited.None? {
      TopAtRoots(fed, lines, tasks, runId, k, sub, own);
    } else {
      forall j | 0 <= j < |lines| && SpanId(lines[j].record) == inherited
        ensures OfContext(lines, fed.children[j], k) == nodes
      {
        TopAtSpan(fed, lines, k, sub, own, inherited.value, j);
      }
      if !Closed(lines, inherited.value) {
        TopAtOrphans(fed, lines, tasks, runId, k, sub, own, inherited.value);
      }
    }
  }

  /** Below a span stand, in stream order, only its own context's records and those of contexts started inside it. */
  lemma {:induction false} ForeignChildren(lines: seq<Line>, tasks: seq<Task>, runId: string, stream: seq<Record>, i: nat, j: nat)
    requires TasksNamed(tasks) && Interleaves(lines, tasks, runId)
    requires Among(stream, Records(lines), runId)
    requires j < |lines| == |BuildTrace(runId, stream).children| && i in BuildTrace(runId, stream).children[j]
    ensures Increasing(BuildTrace(runId, stream).children[j])
    ensures i < |lines|
    ensures lines[i].context == lines[j].context ||
            (SpanId(lines[j].record).Some? && tasks[lines[i].context].inherited == SpanId(lines[j].record))
  {
    var fed := FeedLines(lines, tasks, runId, stream);
    StampedOnly(fed, lines, i, j);
    LineIds(lines, tasks, runId, i);
    LineIds(lines, tasks, runId, j);
  }

  /** A child carries the id of the span it hangs below. */
  lemma StampedOnly(t: Trace, lines: seq<Line>, i: nat, j: nat)
    requires Faithful(t) && t.kept == Records(lines) && UniqueIds(t.kept) && j < |lines| && i in t.children[j]
    ensures Increasing(t.children[j]) && i < |lines|
    ensures SpanId(lines[j].record).Some? && ParentSpanId(lines[i].record) == SpanId(lines[j].record)
  {
    ChildrenAreStamped(t, j);
    assert t.kept[j] == lines[j].record;
  }

  /** The builder's state once it has read the lines, whatever other runs' records stand between them. */
  lemma FeedLines(lines: seq<Line>, tasks: seq<Task>, runId: string, stream: seq<Record>) returns (fed: Trace)
    requires TasksNamed(tasks) && Interleaves(lines, tasks, runId)
    requires Among(stream, Records(lines), runId)
    ensures Faithful(fed) && fed.kept == Records(lines) && UniqueIds(fed.kept)
    ensures BuildTrace(runId, stream) == Finalize(fed)
  {
    fed := FeedAll(EmptyTrace(), runId, stream);
    EmptyFaithful();
    FeedAllFaithful(EmptyTrace(), runId, stream);
    LinesOwn(lines, tasks, runId);
    KeptOfAmong(runId, stream, Records(lines));
    LinesUnique(lines, tasks, runId);
  }

  // ---- From the programs to the trace ----

  /** What a logger at `minLevel` shows of each task. */
  function Shown(tasks: seq<Task>, minLevel: int): (r: seq<Task>)
    ensures |r| == |tasks|
  {
    seq(|tasks|, k requires 0 <= k < |tasks| => Task(tasks[k].inherited, Visible(tasks[k].items, minLevel)))
  }

  /** The interleaved steps of contexts that run their programs. */
  ghost predicate RunsOf(steps: seq<Step>, tasks: seq<Task>) {
    StepsOf(steps, |tasks|) && forall k: nat :: k < |tasks| ==> OwnActs(steps, k) == Acts(tasks[k].items)
  }

  function Start(tasks: seq<Task>): (vars: seq<Values>)
    ensures |vars| == |tasks|
  {
    seq(|tasks|, k requires 0 <= k < |tasks| => [tasks[k].inherited])
  }

  lemma ShownNamed(tasks: seq<Task>, minLevel: int)
    requires TasksNamed(tasks)
    ensures TasksNamed(Shown(tasks, minLevel))
  {
    forall k | 0 <= k < |tasks|
      ensures TaskNamed(Shown(tasks, minLevel)[k]) && Ids(Shown(tasks, minLevel)[k].items) == Ids(tasks[k].items)
    {
      VisibleWellNamed(tasks[k].items, minLevel);
    }
  }

  lemma {:induction false} SharedContexts(vars: seq<Values>, steps: seq<Step>, runId: string, minLevel: int)
    requires StepsOf(steps, |vars|)
    ensures forall i :: 0 <= i < |Shared(vars, steps, runId, minLevel)| ==>
              Shared(vars, steps, runId, minLevel)[i].context < |vars|
    decreases |steps|
  {
    if steps != [] {
      var k, act := steps[0].context, steps[0].act;
      SharedContexts(vars[k := After(vars[k], act)], steps[1..], runId, minLevel);
    }
  }

  /**
    In every interleaving of contexts that run programs of nested blocks on one logger that writes its spans, the
    lines written are those of the visible programs, each context's in order and stamped with its own spans only.
   */
  lemma {:induction false} SharedRun(tasks: seq<Task>, steps: seq<Step>, runId: string, minLevel: int)
    requires TasksNamed(tasks) && RunsOf(steps, tasks) && minLevel <= INFO
    ensures TasksNamed(Shown(tasks, minLevel))
    ensures Interleaves(Shared(Start(tasks), steps, runId, minLevel), Shown(tasks, minLevel), runId)
  {
    ShownNamed(tasks, minLevel);
    SharedContexts(Start(tasks), steps, runId, minLevel);
    forall k: nat | k < |tasks|
      ensures Own(Shared(Start(tasks), steps, runId, minLevel), k) == TaskEmits(Shown(tasks, minLevel)[k], runId)
    {
      NoInterference(Start(tasks), steps, runId, minLevel, k);
      ProgramWrites(Start(tasks)[k], tasks[k].items, runId, minLevel);
      EmitAtVisible(tasks[k].items, tasks[k].inherited, runId, minLevel);
    }
  }

  /** And so the builder gives each of them back: nested as its program was, below the span it was started in. */
  lemma SharedRoundTrip(tasks: seq<Task>, steps: seq<Step>, runId: string, minLevel: int, stream: seq<Record>, k: nat)
    returns (nodes: seq<nat>)
    requires TasksNamed(tasks) && RunsOf(steps, tasks) && minLevel <= INFO && k < |tasks|
    requires Among(stream, Records(Shared(Start(tasks), steps, runId, minLevel)), runId)
    ensures var t, lines := BuildTrace(runId, stream), Shared(Start(tasks), steps, runId, minLevel);
            var shown := Visible(tasks[k].items, minLevel);
            && t.kept == Records(lines) && |t.children| == |lines|
            && |nodes| == |shown|
            && (forall m :: 0 <= m < |shown| ==> Nested(lines, t.children, k, nodes[m], shown[m], tasks[k].inherited, runId))
            && HangsAt(t, lines, k, tasks[k].inherited, nodes)
  {
    SharedRun(tasks, steps, runId, minLevel);
    nodes := ContextsRoundTrip(Shared(Start(tasks), steps, runId, minLevel), Shown(tasks, minLevel), runId, stream, k);
  }
}
