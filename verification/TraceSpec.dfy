/**
  The span-tree builder as a function of the records kept so far (logquill/cli/trace_tree.py:124-166), and an
  independent account of where it puts each record.

  Kept records are named by their position in the stream. `Keep` and `Finalize` are the one-pass algorithm:
  a table of closed spans, a table of records waiting for a parent, and child lists that grow in place.
  `PlaceOf` says, looking at the whole stream at once, where a record belongs: under the span its parent id
  named last, if that span has closed already; otherwise under the next span to close with that id; otherwise
  nowhere yet. `KeepFaithful` shows that the pass computes exactly this.
 */
module TraceSpec {
  import opened OrderedDicts
  import opened TraceRecords

  datatype Trace = Trace(
    kept: seq<Record>,
    children: seq<seq<nat>>,
    nodes: map<string, nat>,
    pending: OrderedDict<string, seq<nat>>,
    roots: seq<nat>)

  function EmptyTrace(): Trace {
    Trace([], [], map[], Empty(), [])
  }

  /** Every index mentioned by `t` names a kept record. */
  ghost predicate InRange(t: Trace) {
    && |t.children| == |t.kept|
    && (forall s :: s in t.nodes ==> t.nodes[s] < |t.kept|)
  }

  /** The new record becomes a node; a span takes over everything that waited for it. */
  function Arrive(t: Trace, r: Record): Trace {
    match SpanId(r)
    case None =>
      t.(kept := t.kept + [r], children := t.children + [[]])
    case Some(s) =>
      t.(kept := t.kept + [r],
         children := t.children + [t.pending.Get(s, [])],
         pending := t.pending.Remove(s),
         nodes := t.nodes[s := |t.kept|])
  }

  /** The node `i` joins the roots, its parent's children, or the list waiting for its parent. */
  function Attach(t: Trace, r: Record, i: nat): Trace
    requires InRange(t)
  {
    match ParentSpanId(r)
    case None => t.(roots := t.roots + [i])
    case Some(p) =>
      if p in t.nodes then
        t.(children := t.children[t.nodes[p] := t.children[t.nodes[p]] + [i]])
      else
        t.(pending := t.pending.Put(p, t.pending.Get(p, []) + [i]))
  }

  function Keep(t: Trace, r: Record): Trace
    requires InRange(t)
  {
    Attach(Arrive(t, r), r, |t.kept|)
  }

  function Feed(t: Trace, runId: string, r: Record): Trace
    requires InRange(t)
  {
    if Belongs(r, runId) then Keep(t, r) else t
  }

  function FeedAll(t: Trace, runId: string, stream: seq<Record>): (t': Trace)
    requires InRange(t)
    ensures InRange(t')
    decreases |stream|
  {
    if stream == [] then t
    else FeedAll(Feed(t, runId, stream[0]), runId, stream[1..])
  }

  /** The waiting lists, one after another in the order of their keys. */
  function Orphans(keys: seq<string>, lists: map<string, seq<nat>>): seq<nat> {
    if keys == [] then []
    else (if keys[0] in lists then lists[keys[0]] else []) + Orphans(keys[1..], lists)
  }

  function Finalize(t: Trace): Trace {
    t.(roots := t.roots + Orphans(t.pending.keys, t.pending.vals), pending := Empty())
  }

  // ---- Where a record belongs ----

  datatype Place = Root | Under(parent: nat) | Waiting(id: string)

  /** The latest of the first `m` records that closes span `p`. */
  function LastClosed(kept: seq<Record>, p: string, m: nat): (r: Option<nat>)
    requires m <= |kept|
    ensures r.Some? ==> r.value < m && SpanId(kept[r.value]) == Some(p)
  {
    if m == 0 then None
    else if SpanId(kept[m - 1]) == Some(p) then Some(m - 1)
    else LastClosed(kept, p, m - 1)
  }

  /** The earliest record from position `m` on that closes span `p`. */
  function NextClosed(kept: seq<Record>, p: string, m: nat): (r: Option<nat>)
    requires m <= |kept|
    ensures r.Some? ==> m <= r.value < |kept| && SpanId(kept[r.value]) == Some(p)
    decreases |kept| - m
  {
    if m == |kept| then None
    else if SpanId(kept[m]) == Some(p) then Some(m)
    else NextClosed(kept, p, m + 1)
  }

  function PlaceOf(kept: seq<Record>, i: nat): (place: Place)
    requires i < |kept|
    ensures place.Under? ==> place.parent < |kept|
  {
    match ParentSpanId(kept[i])
    case None => Root
    case Some(p) =>
      var closed := LastClosed(kept, p, i + 1);
      if closed.Some? then Under(closed.value)
      else
        var next := NextClosed(kept, p, i + 1);
        if next.Some? then Under(next.value) else Waiting(p)
  }

  /** The record closes the span with this id, which is not empty. */
  ghost predicate Closes(r: Record, p: string) {
    p != "" && r.meta.Some? && r.meta.value.spanId == Str(p)
  }

  /** The record names this span as its parent. */
  ghost predicate Names(r: Record, p: string) {
    p != "" && r.meta.Some? && r.meta.value.parentSpanId == Str(p)
  }

  lemma {:induction false} LastClosedIs(kept: seq<Record>, p: string, m: nat)
    requires m <= |kept| && p != ""
    ensures match LastClosed(kept, p, m)
            case Some(j) => Closes(kept[j], p) && forall k :: j < k < m ==> !Closes(kept[k], p)
            case None => forall k :: 0 <= k < m ==> !Closes(kept[k], p)
  {
    if m != 0 {
      LastClosedIs(kept, p, m - 1);
    }
  }

  lemma {:induction false} NextClosedIs(kept: seq<Record>, p: string, m: nat)
    requires m <= |kept| && p != ""
    ensures match NextClosed(kept, p, m)
            case Some(j) => Closes(kept[j], p) && forall k :: m <= k < j ==> !Closes(kept[k], p)
            case None => forall k :: m <= k < |kept| ==> !Closes(kept[k], p)
    decreases |kept| - m
  {
    if m < |kept| {
      NextClosedIs(kept, p, m + 1);
    }
  }

  /**
    Where a record belongs, from the ids in `meta` alone: at the roots if it names no parent by a non-empty string;
    under the last record up to itself that closes the parent it names, or if there is none under the next one that
    does; and nowhere yet if no record does.
   */
  lemma {:induction false} PlaceByIds(kept: seq<Record>, i: nat)
    requires i < |kept|
    ensures PlaceOf(kept, i) == Root <==> forall p :: !Names(kept[i], p)
    ensures PlaceOf(kept, i).Waiting? ==>
              Names(kept[i], PlaceOf(kept, i).id) && forall k :: 0 <= k < |kept| ==> !Closes(kept[k], PlaceOf(kept, i).id)
    ensures PlaceOf(kept, i).Under? ==>
              var j := PlaceOf(kept, i).parent;
              exists p :: Names(kept[i], p) && Closes(kept[j], p) &&
                if j <= i then forall k :: j < k <= i ==> !Closes(kept[k], p)
                else forall k :: 0 <= k < j ==> !Closes(kept[k], p)
  {
    if ParentSpanId(kept[i]).Some? {
      var p := ParentSpanId(kept[i]).value;
      assert Names(kept[i], p);
      LastClosedIs(kept, p, i + 1);
      NextClosedIs(kept, p, i + 1);
    }
  }

  /** The positions below `m` whose record belongs at `place`, in stream order. */
  ghost function Placed(kept: seq<Record>, place: Place, m: nat): (r: seq<nat>)
    requires m <= |kept|
  {
    if m == 0 then []
    else Placed(kept, place, m - 1) + (if PlaceOf(kept, m - 1) == place then [m - 1] else [])
  }

  lemma {:induction false} PlacedMembers(kept: seq<Record>, place: Place, m: nat)
    requires m <= |kept|
    ensures forall i: nat :: i in Placed(kept, place, m) <==> i < m && PlaceOf(kept, i) == place
    ensures forall a, b :: 0 <= a < b < |Placed(kept, place, m)| ==> Placed(kept, place, m)[a] < Placed(kept, place, m)[b]
  {
    if m != 0 {
      PlacedMembers(kept, place, m - 1);
      var before := Placed(kept, place, m - 1);
      forall a | 0 <= a < |before|
        ensures before[a] < m - 1
      {
        assert before[a] in before;
      }
      assert forall i: nat :: i in before + [m - 1] <==> i in before || i == m - 1;
    }
  }

  /** The first record waiting under `p`, or -1. */
  ghost function First(pending: OrderedDict<string, seq<nat>>, p: string): int {
    var waiting := pending.Get(p, []);
    if waiting == [] then -1 else waiting[0]
  }

  /** Waiting lists appear in the order in which their first record arrived. */
  ghost predicate OldestFirst(pending: OrderedDict<string, seq<nat>>) {
    forall a, b :: 0 <= a < b < |pending.keys| ==> First(pending, pending.keys[a]) < First(pending, pending.keys[b])
  }

  /** Every list holds exactly the records below `m` that belong there. */
  ghost predicate ListsHold(t: Trace, m: nat)
    requires m <= |t.kept|
  {
    && t.roots == Placed(t.kept, Root, m)
    && (forall j :: 0 <= j < |t.children| ==> t.children[j] == Placed(t.kept, Under(j), m))
    && (forall p :: t.pending.Get(p, []) == Placed(t.kept, Waiting(p), m))
  }

  /** The span table maps each closed id to the last record that closed it. */
  ghost predicate NodesHold(t: Trace) {
    && (forall p :: p in t.nodes <==> LastClosed(t.kept, p, |t.kept|).Some?)
    && (forall p :: p in t.nodes ==> LastClosed(t.kept, p, |t.kept|) == Some(t.nodes[p]))
  }

  ghost predicate NoneEmpty(pending: OrderedDict<string, seq<nat>>) {
    forall p :: p in pending.vals ==> pending.vals[p] != []
  }

  /** The builder holds each kept record at its place, and nothing else. */
  ghost predicate Faithful(t: Trace) {
    && InRange(t)
    && t.pending.Valid()
    && ListsHold(t, |t.kept|)
    && NodesHold(t)
    && NoneEmpty(t.pending)
    && OldestFirst(t.pending)
  }

  // ---- One more record ----

  lemma {:induction false} LastClosedPrefix(kept: seq<Record>, r: Record, p: string, m: nat)
    requires m <= |kept|
    ensures LastClosed(kept + [r], p, m) == LastClosed(kept, p, m)
  {
    if m != 0 {
      LastClosedPrefix(kept, r, p, m - 1);
    }
  }

  lemma {:induction false} NextClosedGrows(kept: seq<Record>, r: Record, p: string, m: nat)
    requires m <= |kept|
    ensures NextClosed(kept + [r], p, m) ==
            if NextClosed(kept, p, m).Some? then NextClosed(kept, p, m)
            else if SpanId(r) == Some(p) then Some(|kept|) else None
    decreases |kept| - m
  {
    if m < |kept| {
      NextClosedGrows(kept, r, p, m + 1);
    } else if SpanId(r) != Some(p) {
      assert NextClosed(kept + [r], p, m + 1) == None;
    }
  }

  /** A later record moves an earlier one only when it closes the span that one is waiting for. */
  lemma {:induction false} PlaceGrows(kept: seq<Record>, r: Record, i: nat)
    requires i < |kept|
    ensures PlaceOf(kept + [r], i) ==
            if PlaceOf(kept, i).Waiting? && SpanId(r) == Some(PlaceOf(kept, i).id) then Under(|kept|)
            else PlaceOf(kept, i)
  {
    if ParentSpanId(kept[i]).Some? {
      var p := ParentSpanId(kept[i]).value;
      LastClosedPrefix(kept, r, p, i + 1);
      NextClosedGrows(kept, r, p, i + 1);
    }
  }

  /** The list waiting for a span that now closes is handed over entirely. */
  lemma {:induction false} PlacedHandedOver(kept: seq<Record>, r: Record, s: string, m: nat)
    requires m <= |kept| && SpanId(r) == Some(s)
    ensures Placed(kept + [r], Waiting(s), m) == []
    ensures Placed(kept + [r], Under(|kept|), m) == Placed(kept, Waiting(s), m)
  {
    if m != 0 {
      PlacedHandedOver(kept, r, s, m - 1);
      PlaceGrows(kept, r, m - 1);
    }
  }

  /** No earlier record belongs under one that closes no span. */
  lemma {:induction false} PlacedNotUnder(kept: seq<Record>, r: Record, m: nat)
    requires m <= |kept| && SpanId(r).None?
    ensures Placed(kept + [r], Under(|kept|), m) == []
  {
    if m != 0 {
      PlacedNotUnder(kept, r, m - 1);
      PlaceGrows(kept, r, m - 1);
    }
  }

  /** All other places keep their lists. */
  lemma {:induction false} PlacedKeeps(kept: seq<Record>, r: Record, place: Place, m: nat)
    requires m <= |kept| && place != Under(|kept|) && !(place.Waiting? && SpanId(r) == Some(place.id))
    ensures Placed(kept + [r], place, m) == Placed(kept, place, m)
  {
    if m != 0 {
      PlacedKeeps(kept, r, place, m - 1);
      PlaceGrows(kept, r, m - 1);
    }
  }

  /** Where the newest record itself goes. */
  lemma {:induction false} NewestPlace(t: Trace, r: Record)
    requires Faithful(t)
    ensures PlaceOf(t.kept + [r], |t.kept|) ==
            match ParentSpanId(r) {
              case None => Root
              case Some(p) =>
                var nodes := Arrive(t, r).nodes;
                if p in nodes then Under(nodes[p]) else Waiting(p)
            }
  {
    if ParentSpanId(r).Some? {
      var p := ParentSpanId(r).value;
      LastClosedPrefix(t.kept, r, p, |t.kept|);
    }
  }

  lemma ArriveOldChild(t: Trace, r: Record, j: nat)
    requires InRange(t) && ListsHold(t, |t.kept|) && j < |t.kept|
    ensures Arrive(t, r).children[j] == Placed(t.kept + [r], Under(j), |t.kept|)
  {
    assert t.children[j] == Placed(t.kept, Under(j), |t.kept|);
    PlacedKeeps(t.kept, r, Under(j), |t.kept|);
  }

  lemma ArriveNewChild(t: Trace, r: Record)
    requires InRange(t) && ListsHold(t, |t.kept|)
    ensures Arrive(t, r).children[|t.kept|] == Placed(t.kept + [r], Under(|t.kept|), |t.kept|)
  {
    match SpanId(r)
    case None => PlacedNotUnder(t.kept, r, |t.kept|);
    case Some(s) =>
      assert t.pending.Get(s, []) == Placed(t.kept, Waiting(s), |t.kept|);
      PlacedHandedOver(t.kept, r, s, |t.kept|);
  }

  lemma ArriveWaiting(t: Trace, r: Record, p: string)
    requires InRange(t) && ListsHold(t, |t.kept|)
    ensures Arrive(t, r).pending.Get(p, []) == Placed(t.kept + [r], Waiting(p), |t.kept|)
  {
    if SpanId(r) == Some(p) {
      PlacedHandedOver(t.kept, r, p, |t.kept|);
    } else {
      PlacedKeeps(t.kept, r, Waiting(p), |t.kept|);
      assert Arrive(t, r).pending.Get(p, []) == t.pending.Get(p, []);
    }
  }

  /** What an arriving record leaves at each place, before it is attached itself. */
  lemma {:induction false} ArriveLists(t: Trace, r: Record)
    requires InRange(t) && ListsHold(t, |t.kept|)
    ensures ListsHold(Arrive(t, r), |t.kept|)
  {
    var t' := Arrive(t, r);
    assert t'.roots == Placed(t'.kept, Root, |t.kept|) by {
      PlacedKeeps(t.kept, r, Root, |t.kept|);
    }
    forall j | 0 <= j < |t'.children|
      ensures t'.children[j] == Placed(t'.kept, Under(j), |t.kept|)
    {
      if j < |t.kept| {
        ArriveOldChild(t, r, j);
      } else {
        ArriveNewChild(t, r);
      }
    }
    forall p
      ensures t'.pending.Get(p, []) == Placed(t'.kept, Waiting(p), |t.kept|)
    {
      ArriveWaiting(t, r, p);
    }
  }

  lemma ArriveNode(t: Trace, r: Record, p: string)
    requires InRange(t) && NodesHold(t)
    ensures var t' := Arrive(t, r); var closed := LastClosed(t'.kept, p, |t'.kept|);
            (p in t'.nodes <==> closed.Some?) && (p in t'.nodes ==> closed == Some(t'.nodes[p]))
  {
    LastClosedPrefix(t.kept, r, p, |t.kept|);
    assert LastClosed(t.kept + [r], p, |t.kept| + 1) ==
           if SpanId(r) == Some(p) then Some(|t.kept|) else LastClosed(t.kept, p, |t.kept|);
  }

  lemma {:induction false} ArriveNodes(t: Trace, r: Record)
    requires InRange(t) && NodesHold(t)
    ensures NodesHold(Arrive(t, r))
  {
    forall p
      ensures var t' := Arrive(t, r); var closed := LastClosed(t'.kept, p, |t'.kept|);
              (p in t'.nodes <==> closed.Some?) && (p in t'.nodes ==> closed == Some(t'.nodes[p]))
    {
      ArriveNode(t, r, p);
    }
  }

  lemma RemoveKeepsFirst(d: OrderedDict<string, seq<nat>>, s: string, k: string)
    requires k != s
    ensures First(d.Remove(s), k) == First(d, k)
  {
  }

  lemma RemoveOldestFirst(d: OrderedDict<string, seq<nat>>, s: string)
    requires d.Valid() && OldestFirst(d)
    ensures OldestFirst(d.Remove(s))
  {
    var d' := d.Remove(s);
    forall a, b | 0 <= a < b < |d'.keys|
      ensures First(d', d'.keys[a]) < First(d', d'.keys[b])
    {
      var a', b' := WithoutKeepsOrder(d.keys, s, a, b);
      assert d'.keys[a] in d'.keys && d'.keys[b] in d'.keys;
      RemoveKeepsFirst(d, s, d'.keys[a]);
      RemoveKeepsFirst(d, s, d'.keys[b]);
    }
  }

  lemma PutOldestFirst(d: OrderedDict<string, seq<nat>>, p: string, n: nat)
    requires d.Valid() && OldestFirst(d)
    requires forall q :: q in d.vals ==> d.vals[q] != [] && d.vals[q][0] < n
    ensures OldestFirst(d.Put(p, d.Get(p, []) + [n]))
  {
    var d' := d.Put(p, d.Get(p, []) + [n]);
    forall a, b | 0 <= a < b < |d'.keys|
      ensures First(d', d'.keys[a]) < First(d', d'.keys[b])
    {
      assert d'.keys[a] == d.keys[a] && d.keys[a] in d.vals;
      if b < |d.keys| {
        assert d'.keys[b] == d.keys[b] && d.keys[b] in d.vals;
        assert First(d, d.keys[a]) < First(d, d.keys[b]);
      } else {
        assert d'.keys[b] == p;
      }
    }
  }

  /** Attaching node `n` where it belongs turns the lists for `n` records into the lists for `n + 1`. */
  lemma {:induction false} AttachLists(a: Trace, r: Record, n: nat)
    requires InRange(a) && |a.kept| == n + 1 && a.kept[n] == r && ListsHold(a, n)
    requires PlaceOf(a.kept, n) ==
             match ParentSpanId(r) {
               case None => Root
               case Some(p) => if p in a.nodes then Under(a.nodes[p]) else Waiting(p)
             }
    ensures ListsHold(Attach(a, r, n), n + 1)
  {
    var t' := Attach(a, r, n);
    var place := PlaceOf(a.kept, n);
    assert t'.kept == a.kept;
    assert t'.roots == a.roots + if place == Root then [n] else [];
    forall j | 0 <= j < |t'.children|
      ensures t'.children[j] == Placed(t'.kept, Under(j), n + 1)
    {
      assert t'.children[j] == a.children[j] + if place == Under(j) then [n] else [];
    }
    forall p
      ensures t'.pending.Get(p, []) == Placed(t'.kept, Waiting(p), n + 1)
    {
      assert t'.pending.Get(p, []) == a.pending.Get(p, []) + if place == Waiting(p) then [n] else [];
    }
  }

  lemma ArrivePending(t: Trace, r: Record)
    requires t.pending.Valid() && NoneEmpty(t.pending) && OldestFirst(t.pending)
    ensures var d := Arrive(t, r).pending; d.Valid() && NoneEmpty(d) && OldestFirst(d)
  {
    if SpanId(r).Some? {
      RemoveOldestFirst(t.pending, SpanId(r).value);
      t.pending.RemoveValid(SpanId(r).value);
    }
  }

  lemma WaitingBefore(a: Trace, n: nat, q: string)
    requires n <= |a.kept| && ListsHold(a, n) && NoneEmpty(a.pending) && q in a.pending.vals
    ensures a.pending.vals[q] != [] && a.pending.vals[q][0] < n
  {
    assert a.pending.vals[q] == a.pending.Get(q, []) == Placed(a.kept, Waiting(q), n);
    PlacedMembers(a.kept, Waiting(q), n);
    assert a.pending.vals[q][0] in Placed(a.kept, Waiting(q), n);
  }

  lemma AttachPending(a: Trace, r: Record, n: nat)
    requires InRange(a) && n <= |a.kept| && ListsHold(a, n)
    requires a.pending.Valid() && NoneEmpty(a.pending) && OldestFirst(a.pending)
    ensures var d := Attach(a, r, n).pending; d.Valid() && NoneEmpty(d) && OldestFirst(d)
  {
    if ParentSpanId(r).Some? && ParentSpanId(r).value !in a.nodes {
      var p := ParentSpanId(r).value;
      forall q | q in a.pending.vals
        ensures a.pending.vals[q] != [] && a.pending.vals[q][0] < n
      {
        WaitingBefore(a, n, q);
      }
      PutOldestFirst(a.pending, p, n);
      a.pending.PutValid(p, a.pending.Get(p, []) + [n]);
    }
  }

  /** Conservation, step by step: after each record every list is exactly the set of records placed there. */
  lemma {:induction false} KeepFaithful(t: Trace, r: Record)
    requires Faithful(t)
    ensures Faithful(Keep(t, r))
  {
    ArriveLists(t, r);
    ArriveNodes(t, r);
    NewestPlace(t, r);
    AttachLists(Arrive(t, r), r, |t.kept|);
    ArrivePending(t, r);
    AttachPending(Arrive(t, r), r, |t.kept|);
  }

  lemma {:induction false} FeedAllFaithful(t: Trace, runId: string, stream: seq<Record>)
    requires Faithful(t)
    ensures Faithful(FeedAll(t, runId, stream))
    decreases |stream|
  {
    if stream != [] {
      if Belongs(stream[0], runId) {
        KeepFaithful(t, stream[0]);
      }
      FeedAllFaithful(Feed(t, runId, stream[0]), runId, stream[1..]);
    }
  }
}
