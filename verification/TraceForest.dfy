/**
  What the finished span tree contains (logquill/cli/trace_tree.py:89-94, 158-175). After `Finalize` every kept
  record hangs in one place; the roots reach all of them exactly when parent ids form no cycle, and then the
  totals of the roots add up to the totals of all records.
 */
module TraceForest {
  import opened OrderedDicts
  import opened Sequences
  import opened TraceRecords
  import opened TraceSpec
  import opened Forests

  /** The parent of each kept record once the stream has ended; a record still waiting has none. */
  ghost function ParentLinks(kept: seq<Record>): (par: Links)
    ensures |par| == |kept| && ValidLinks(par)
  {
    seq(|kept|, i requires 0 <= i < |kept| =>
      if PlaceOf(kept, i).Under? then Some(PlaceOf(kept, i).parent) else None)
  }

  lemma {:induction false} OrphansMembers(keys: seq<string>, lists: map<string, seq<nat>>, i: nat)
    ensures i in Orphans(keys, lists) <==> exists p :: p in keys && p in lists && i in lists[p]
  {
    if keys != [] {
      OrphansMembers(keys[1..], lists, i);
      assert keys == [keys[0]] + keys[1..];
    }
  }

  lemma {:induction false} OrphansDistinct(keys: seq<string>, lists: map<string, seq<nat>>)
    requires Distinct(keys)
    requires forall p :: p in keys && p in lists ==> Distinct(lists[p])
    requires forall p, q, i :: p in keys && q in keys && p in lists && q in lists && i in lists[p] && i in lists[q] ==> p == q
    ensures Distinct(Orphans(keys, lists))
  {
    if keys != [] {
      assert keys == [keys[0]] + keys[1..];
      OrphansDistinct(keys[1..], lists);
      var first := if keys[0] in lists then lists[keys[0]] else [];
      var rest := Orphans(keys[1..], lists);
      forall i | i in first
        ensures i !in rest
      {
        OrphansMembers(keys[1..], lists, i);
        assert keys[0] !in keys[1..];
      }
      DistinctConcat(first, rest);
    }
  }

  lemma DistinctConcat(a: seq<nat>, b: seq<nat>)
    requires Distinct(a) && Distinct(b) && forall i :: i in a ==> i !in b
    ensures Distinct(a + b)
  {
    forall i, j | 0 <= i < j < |a + b|
      ensures (a + b)[i] != (a + b)[j]
    {
      if i < |a| <= j {
        assert a[i] in a && b[j - |a|] in b;
      }
    }
  }

  /** The child lists are the parent links read backwards. */
  lemma FinalLists(t: Trace)
    requires Faithful(t)
    ensures Lists(ParentLinks(t.kept), Finalize(t).children)
  {
    forall j: nat | j < |t.children|
      ensures Distinct(t.children[j])
      ensures forall c: nat :: c in t.children[j] <==> c < |t.kept| && ParentLinks(t.kept)[c] == Some(j)
    {
      PlacedMembers(t.kept, Under(j), |t.kept|);
    }
  }

  /** Roots after `Finalize`: the records that name no parent, then those whose parent never closed. */
  lemma FinalRoots(t: Trace)
    requires Faithful(t)
    ensures RootList(ParentLinks(t.kept), Finalize(t).roots)
  {
    var n := |t.kept|;
    var roots := Placed(t.kept, Root, n);
    var orphans := Orphans(t.pending.keys, t.pending.vals);
    PlacedMembers(t.kept, Root, n);
    forall p | p in t.pending.vals
      ensures Distinct(t.pending.vals[p])
      ensures forall i: nat :: i in t.pending.vals[p] <==> i < n && PlaceOf(t.kept, i) == Waiting(p)
    {
      PlacedMembers(t.kept, Waiting(p), n);
      assert t.pending.vals[p] == t.pending.Get(p, []);
    }
    OrphansDistinct(t.pending.keys, t.pending.vals);
    forall i: nat
      ensures i in orphans <==> i < n && PlaceOf(t.kept, i).Waiting?
    {
      OrphansMembers(t.pending.keys, t.pending.vals, i);
      if i < n && PlaceOf(t.kept, i).Waiting? {
        var p := PlaceOf(t.kept, i).id;
        PlacedMembers(t.kept, Waiting(p), n);
        assert i in t.pending.Get(p, []);
        assert p in t.pending.keys;
      }
    }
    DistinctConcat(roots, orphans);
  }

  // ---- The order of the roots ----

  /** Some record waits for `p` that came before all those that wait for `q`. */
  ghost predicate WaitsBefore(kept: seq<Record>, p: string, q: string) {
    exists i :: 0 <= i < |kept| && PlaceOf(kept, i) == Waiting(p) &&
      forall j :: 0 <= j < |kept| && PlaceOf(kept, j) == Waiting(q) ==> i < j
  }

  /** Of two roots the first stands first: records without a parent, then orphans, span by span as they began to wait. */
  ghost predicate RootsOrdered(kept: seq<Record>, i: nat, j: nat) {
    i < |kept| && j < |kept| &&
    match (PlaceOf(kept, i), PlaceOf(kept, j))
    case (Root, Root) => i < j
    case (Root, Waiting(_)) => true
    case (Waiting(p), Waiting(q)) => if p == q then i < j else WaitsBefore(kept, p, q)
    case _ => false
  }

  ghost predicate AllOrdered(kept: seq<Record>, nodes: seq<nat>) {
    forall a, b :: 0 <= a < b < |nodes| ==> RootsOrdered(kept, nodes[a], nodes[b])
  }

  lemma OrderedConcat(kept: seq<Record>, a: seq<nat>, b: seq<nat>)
    requires AllOrdered(kept, a) && AllOrdered(kept, b)
    requires forall i: nat, j: nat :: i in a && j in b ==> RootsOrdered(kept, i, j)
    ensures AllOrdered(kept, a + b)
  {
    forall x, y | 0 <= x < y < |a + b|
      ensures RootsOrdered(kept, (a + b)[x], (a + b)[y])
    {
      if x < |a| <= y {
        assert a[x] in a && b[y - |a|] in b;
      }
    }
  }

  lemma ListOrdered(t: Trace, p: string)
    requires Faithful(t) && p in t.pending.vals
    ensures AllOrdered(t.kept, t.pending.vals[p])
    ensures forall i: nat :: i in t.pending.vals[p] <==> i < |t.kept| && PlaceOf(t.kept, i) == Waiting(p)
  {
    var list := t.pending.vals[p];
    assert list == t.pending.Get(p, []);
    PlacedMembers(t.kept, Waiting(p), |t.kept|);
    forall a, b | 0 <= a < b < |list|
      ensures RootsOrdered(t.kept, list[a], list[b])
    {
      assert list[a] in list && list[b] in list;
    }
  }

  lemma {:induction false} OrphansWait(t: Trace, keys: seq<string>, i: nat)
    requires Faithful(t) && (forall p :: p in keys ==> p in t.pending.vals) && i in Orphans(keys, t.pending.vals)
    ensures i < |t.kept| && PlaceOf(t.kept, i).Waiting? && PlaceOf(t.kept, i).id in keys
  {
    OrphansMembers(keys, t.pending.vals, i);
    var p :| p in keys && p in t.pending.vals && i in t.pending.vals[p];
    ListOrdered(t, p);
  }

  lemma {:induction false} OrphansOrdered(t: Trace, keys: seq<string>)
    requires Faithful(t) && forall p :: p in keys ==> p in t.pending.vals
    requires forall a, b :: 0 <= a < b < |keys| ==> First(t.pending, keys[a]) < First(t.pending, keys[b])
    ensures AllOrdered(t.kept, Orphans(keys, t.pending.vals))
  {
    if keys != [] {
      var p, rest := keys[0], keys[1..];
      assert forall q :: q in rest ==> q in keys;
      OrphansOrdered(t, rest);
      ListOrdered(t, p);
      forall i: nat, j: nat | i in t.pending.vals[p] && j in Orphans(rest, t.pending.vals)
        ensures RootsOrdered(t.kept, i, j)
      {
        OrphansWait(t, rest, j);
        KeyBefore(t, p, PlaceOf(t.kept, j).id, keys);
      }
      OrderedConcat(t.kept, t.pending.vals[p], Orphans(rest, t.pending.vals));
    }
  }

  lemma KeyBefore(t: Trace, p: string, q: string, keys: seq<string>)
    requires Faithful(t) && keys != [] && p == keys[0] && q in keys[1..] && p in t.pending.vals && q in t.pending.vals
    requires forall a, b :: 0 <= a < b < |keys| ==> First(t.pending, keys[a]) < First(t.pending, keys[b])
    ensures p != q && WaitsBefore(t.kept, p, q)
  {
    var b :| 0 <= b < |keys[1..]| && keys[1..][b] == q;
    assert keys[b + 1] == q;
    var ps, qs := t.pending.vals[p], t.pending.vals[q];
    assert ps == t.pending.Get(p, []) && qs == t.pending.Get(q, []);
    PlacedMembers(t.kept, Waiting(p), |t.kept|);
    PlacedMembers(t.kept, Waiting(q), |t.kept|);
    assert ps[0] in ps && qs[0] in qs;
    forall j | 0 <= j < |t.kept| && PlaceOf(t.kept, j) == Waiting(q)
      ensures ps[0] < j
    {
      assert j in qs;
      var k :| 0 <= k < |qs| && qs[k] == j;
    }
  }

  /**
    The finished roots in order: the records that name no parent, as they came; then those whose parent never
    closed, gathered by the span they wait for in the order in which the first of each began to wait.
   */
  lemma {:induction false} FinalOrder(t: Trace)
    requires Faithful(t)
    ensures AllOrdered(t.kept, Finalize(t).roots)
  {
    var roots := t.roots;
    PlacedMembers(t.kept, Root, |t.kept|);
    forall a, b | 0 <= a < b < |roots|
      ensures RootsOrdered(t.kept, roots[a], roots[b])
    {
      assert roots[a] in roots && roots[b] in roots;
    }
    OrphansOrdered(t, t.pending.keys);
    forall i: nat, j: nat | i in roots && j in Orphans(t.pending.keys, t.pending.vals)
      ensures RootsOrdered(t.kept, i, j)
    {
      OrphansWait(t, t.pending.keys, j);
    }
    OrderedConcat(t.kept, roots, Orphans(t.pending.keys, t.pending.vals));
  }

  // ---- Totals ----

  /** What each kept record contributes by itself. */
  function OwnTotals(kept: seq<Record>): (own: seq<Rollup>)
    ensures |own| == |kept|
  {
    seq(|kept|, i requires 0 <= i < |kept| => OwnTokensCost(kept[i]))
  }

  function Total(own: seq<Rollup>, nodes: seq<nat>): Rollup {
    if nodes == [] then ZERO
    else (if nodes[0] < |own| then own[nodes[0]] else ZERO).Plus(Total(own, nodes[1..]))
  }

  lemma {:induction false} TotalConcat(own: seq<Rollup>, a: seq<nat>, b: seq<nat>)
    ensures Total(own, a + b) == Total(own, a).Plus(Total(own, b))
  {
    if a == [] {
      assert a + b == b;
    } else {
      assert (a + b)[1..] == a[1..] + b;
      TotalConcat(own, a[1..], b);
    }
  }

  lemma PlusSwap(a: Rollup, b: Rollup, c: Rollup)
    ensures a.Plus(b.Plus(c)) == b.Plus(a.Plus(c))
  {
  }

  lemma TotalSwap(own: seq<Rollup>, a: seq<nat>, b: seq<nat>, c: seq<nat>)
    ensures Total(own, a + (b + c)) == Total(own, b + (a + c))
  {
    TotalThree(own, a, b, c);
    TotalThree(own, b, a, c);
    PlusSwap(Total(own, a), Total(own, b), Total(own, c));
  }

  lemma TotalThree(own: seq<Rollup>, a: seq<nat>, b: seq<nat>, c: seq<nat>)
    ensures Total(own, a + (b + c)) == Total(own, a).Plus(Total(own, b).Plus(Total(own, c)))
  {
    TotalConcat(own, a, b + c);
    TotalConcat(own, b, c);
  }

  /** Any one record may be added first. */
  lemma TotalPick(own: seq<Rollup>, b: seq<nat>, k: nat)
    requires k < |b|
    ensures Total(own, b) == Total(own, [b[k]] + (b[..k] + b[k + 1..]))
    ensures multiset(b[..k] + b[k + 1..]) == multiset(b) - multiset{b[k]}
  {
    TotalSwap(own, b[..k], [b[k]], b[k + 1..]);
    var again := b[..k] + ([b[k]] + b[k + 1..]);
    assert b == again;
    assert multiset(b) == multiset(again);
  }

  /** The order in which records are added up does not matter. */
  lemma {:induction false} TotalReordered(own: seq<Rollup>, a: seq<nat>, b: seq<nat>)
    requires multiset(a) == multiset(b)
    ensures Total(own, a) == Total(own, b)
  {
    if a == [] {
      assert |multiset(b)| == 0;
    } else {
      assert a == [a[0]] + a[1..];
      assert a[0] in multiset(b);
      var k :| 0 <= k < |b| && b[k] == a[0];
      TotalPick(own, b, k);
      TotalReordered(own, a[1..], b[..k] + b[k + 1..]);
      TotalConcat(own, [a[0]], a[1..]);
      TotalConcat(own, [b[k]], b[..k] + b[k + 1..]);
    }
  }

  // ---- What a record counts for ----

  /** The sum of one integer field of the `llm` blocks; anything but an integer counts nothing, a Boolean included. */
  function TokenSum(kept: seq<Record>, field: Llm -> Value): int {
    if kept == [] then 0
    else
      var llm := kept[|kept| - 1].llm;
      TokenSum(kept[..|kept| - 1], field) + (if llm.Some? && field(llm.value).Int? then field(llm.value).n else 0)
  }

  /** The sum of the costs, integers and floats. */
  function CostSum(kept: seq<Record>): real {
    if kept == [] then 0.0
    else
      var llm := kept[|kept| - 1].llm;
      CostSum(kept[..|kept| - 1]) +
      if llm.Some? && llm.value.costUsd.Int? then llm.value.costUsd.n as real
      else if llm.Some? && llm.value.costUsd.Float? then llm.value.costUsd.x
      else 0.0
  }

  function Tally(kept: seq<Record>): Rollup {
    Rollup(TokenSum(kept, (llm: Llm) => llm.tokensIn), TokenSum(kept, (llm: Llm) => llm.tokensOut), CostSum(kept))
  }

  lemma {:induction false} TotalPrefix(own: seq<Rollup>, more: seq<Rollup>, n: nat)
    requires n <= |own|
    ensures Total(own + more, Upto(n)) == Total(own, Upto(n))
  {
    if n != 0 {
      TotalPrefix(own, more, n - 1);
      TotalConcat(own + more, Upto(n - 1), [n - 1]);
      TotalConcat(own, Upto(n - 1), [n - 1]);
    }
  }

  /** All records together count for what their `llm` blocks say, field by field. */
  lemma {:induction false} TotalIsTally(kept: seq<Record>)
    ensures Total(OwnTotals(kept), Upto(|kept|)) == Tally(kept)
  {
    if kept != [] {
      TotalIsTally(kept[..|kept| - 1]);
      TotalStep(kept);
      TallyStep(kept);
    }
  }

  lemma TallyStep(kept: seq<Record>)
    requires kept != []
    ensures Tally(kept) == Tally(kept[..|kept| - 1]).Plus(OwnTokensCost(kept[|kept| - 1]))
  {
  }

  lemma TotalStep(kept: seq<Record>)
    requires kept != []
    ensures var n := |kept| - 1;
            Total(OwnTotals(kept), Upto(n + 1)) == Total(OwnTotals(kept[..n]), Upto(n)).Plus(OwnTokensCost(kept[n]))
  {
    var n := |kept| - 1;
    var own := OwnTotals(kept);
    assert own == OwnTotals(kept[..n]) + [own[n]];
    TotalPrefix(OwnTotals(kept[..n]), [own[n]], n);
    TotalConcat(own, Upto(n), [n]);
    assert [n][1..] == [] && Total(own, []) == ZERO;
    assert Total(own, [n]) == own[n].Plus(ZERO);
  }

  /** A node's own totals with those of everything nested under it. */
  datatype Tree = Tree(own: Rollup, kids: seq<Tree>)

  /** A node's own totals plus the rolled-up totals of each child, added up child by child. */
  function TreeTotal(tree: Tree): Rollup
    decreases tree, 0
  {
    TotalFrom(tree.own, tree.kids, |tree.kids|)
  }

  /** `start` plus the rolled-up totals of the first `m` trees. */
  function TotalFrom(start: Rollup, trees: seq<Tree>, m: nat): Rollup
    requires m <= |trees|
    decreases trees, m
  {
    if m == 0 then start
    else TotalFrom(start, trees, m - 1).Plus(TreeTotal(trees[m - 1]))
  }

  lemma {:induction false} TotalFromTail(start: Rollup, trees: seq<Tree>, m: nat)
    requires 1 <= m <= |trees|
    ensures TotalFrom(start, trees, m) == TotalFrom(start.Plus(TreeTotal(trees[0])), trees[1..], m - 1)
    decreases m
  {
    if m > 1 {
      TotalFromTail(start, trees, m - 1);
    }
  }

  ghost function TreeAt(own: seq<Rollup>, par: Links, kids: seq<seq<nat>>, i: nat): Tree
    requires ValidLinks(par) && Lists(par, kids) && |par| == |own| && Rooted(par, i)
    decreases |par| - Depth(par, i), 0
  {
    KidsDepth(par, kids, i);
    Tree(own[i], TreesAt(own, par, kids, kids[i], Depth(par, i) + 1))
  }

  ghost function TreesAt(own: seq<Rollup>, par: Links, kids: seq<seq<nat>>, nodes: seq<nat>, d: nat): seq<Tree>
    requires ValidLinks(par) && Lists(par, kids) && |par| == |own| && AtDepth(par, nodes, d)
    decreases |par| - d, |nodes| + 1
  {
    if nodes == [] then []
    else
      assert nodes[0] in nodes;
      [TreeAt(own, par, kids, nodes[0])] + TreesAt(own, par, kids, nodes[1..], d)
  }

  lemma {:induction false} TreesAtIndex(own: seq<Rollup>, par: Links, kids: seq<seq<nat>>, nodes: seq<nat>, d: nat)
    requires ValidLinks(par) && Lists(par, kids) && |par| == |own| && AtDepth(par, nodes, d)
    ensures |TreesAt(own, par, kids, nodes, d)| == |nodes|
    ensures forall k :: 0 <= k < |nodes| ==>
              Rooted(par, nodes[k]) &&
              TreesAt(own, par, kids, nodes, d)[k] == TreeAt(own, par, kids, nodes[k])
    decreases |nodes|
  {
    if nodes != [] {
      assert nodes[0] in nodes;
      TreesAtIndex(own, par, kids, nodes[1..], d);
    }
  }

  /** Rolling totals up recursively gives the plain sum over everything at or below the node. */
  lemma {:induction false} RollupIsWalkTotal(own: seq<Rollup>, par: Links, kids: seq<seq<nat>>, i: nat)
    requires ValidLinks(par) && Lists(par, kids) && |par| == |own| && Rooted(par, i)
    ensures TreeTotal(TreeAt(own, par, kids, i)) == Total(own, Walk(par, kids, i))
    decreases |par| - Depth(par, i), 0
  {
    var d := Depth(par, i) + 1;
    KidsDepth(par, kids, i);
    RollupsAreWalkTotals(own, par, kids, kids[i], d, own[i]);
    TotalConcat(own, [i], WalkAll(par, kids, kids[i], d));
  }

  lemma {:induction false} RollupsAreWalkTotals(own: seq<Rollup>, par: Links, kids: seq<seq<nat>>, nodes: seq<nat>,
                                                d: nat, start: Rollup)
    requires ValidLinks(par) && Lists(par, kids) && |par| == |own| && AtDepth(par, nodes, d)
    ensures |TreesAt(own, par, kids, nodes, d)| == |nodes|
    ensures TotalFrom(start, TreesAt(own, par, kids, nodes, d), |nodes|) == start.Plus(Total(own, WalkAll(par, kids, nodes, d)))
    decreases |par| - d, |nodes| + 1
  {
    TreesAtIndex(own, par, kids, nodes, d);
    if nodes != [] {
      assert nodes[0] in nodes;
      var first := TreeAt(own, par, kids, nodes[0]);
      RollupIsWalkTotal(own, par, kids, nodes[0]);
      RollupsAreWalkTotals(own, par, kids, nodes[1..], d, start.Plus(TreeTotal(first)));
      TotalFromTail(start, TreesAt(own, par, kids, nodes, d), |nodes|);
      TotalConcat(own, Walk(par, kids, nodes[0]), WalkAll(par, kids, nodes[1..], d));
    }
  }

  // ---- The finished trace ----

  function BuildTrace(runId: string, stream: seq<Record>): Trace {
    Finalize(FeedAll(EmptyTrace(), runId, stream))
  }

  lemma EmptyFaithful()
    ensures Faithful(EmptyTrace())
  {
    forall p
      ensures LastClosed([], p, 0).None?
    {
    }
  }

  lemma BuiltLists(runId: string, stream: seq<Record>)
    ensures var t := BuildTrace(runId, stream);
            Lists(ParentLinks(t.kept), t.children) && RootList(ParentLinks(t.kept), t.roots)
  {
    EmptyFaithful();
    var fed := FeedAll(EmptyTrace(), runId, stream);
    FeedAllFaithful(EmptyTrace(), runId, stream);
    FinalLists(fed);
    FinalRoots(fed);
  }

  /** All the nodes met on a walk down from the roots of the finished trace. */
  ghost function ForestOf(runId: string, stream: seq<Record>): seq<nat> {
    var t := BuildTrace(runId, stream);
    BuiltLists(runId, stream);
    WalkForest(ParentLinks(t.kept), t.children, t.roots)
  }

  /**
    Conservation over any stream at all. No record is met twice, and a record is met exactly when its parent
    links lead to a root; so the forest has as many nodes as records were kept if and only if no record is its
    own ancestor.
   */
  lemma {:induction false} TraceConservation(runId: string, stream: seq<Record>)
    ensures var t := BuildTrace(runId, stream);
            var par := ParentLinks(t.kept);
            && (forall i: nat :: multiset(ForestOf(runId, stream))[i] == if Rooted(par, i) then 1 else 0)
            && (|ForestOf(runId, stream)| == |t.kept| <==> Acyclic(par))
  {
    var t := BuildTrace(runId, stream);
    BuiltLists(runId, stream);
    forall i: nat
      ensures multiset(ForestOf(runId, stream))[i] == if Rooted(ParentLinks(t.kept), i) then 1 else 0
    {
      WalkMeetsRooted(ParentLinks(t.kept), t.children, t.roots, i);
    }
    SizeIffAcyclic(ParentLinks(t.kept), t.children, t.roots);
  }

  /** The trees under the roots of the finished trace. */
  ghost function ForestTrees(runId: string, stream: seq<Record>): seq<Tree> {
    var t := BuildTrace(runId, stream);
    BuiltLists(runId, stream);
    RootsDepth(ParentLinks(t.kept), t.roots);
    TreesAt(OwnTotals(t.kept), ParentLinks(t.kept), t.children, t.roots, 0)
  }

  /** The positions below `n` whose links lead to a root, in order. */
  ghost function RootedOnes(par: Links, n: nat): seq<nat>
    requires ValidLinks(par)
  {
    if n == 0 then []
    else if Rooted(par, n - 1) then RootedOnes(par, n - 1) + [n - 1]
    else RootedOnes(par, n - 1)
  }

  lemma {:induction false} RootedOnesCount(par: Links, n: nat, i: nat)
    requires ValidLinks(par)
    ensures multiset(RootedOnes(par, n))[i] == if i < n && Rooted(par, i) then 1 else 0
  {
    if n != 0 {
      RootedOnesCount(par, n - 1, i);
      if Rooted(par, n - 1) {
        CountAppend(RootedOnes(par, n - 1), n - 1, i);
      }
    }
  }

  lemma CountAppend(s: seq<nat>, x: nat, i: nat)
    ensures multiset(s + [x])[i] == multiset(s)[i] + if x == i then 1 else 0
  {
  }

  lemma {:induction false} AllRooted(par: Links, n: nat)
    requires ValidLinks(par) && n <= |par| && forall i: nat :: i < n ==> Rooted(par, i)
    ensures RootedOnes(par, n) == Upto(n)
  {
    if n != 0 {
      AllRooted(par, n - 1);
    }
  }

  /** The walk from the roots is a reordering of the records that lead to a root. */
  lemma ForestIsRootedOnes(runId: string, stream: seq<Record>)
    ensures var par := ParentLinks(BuildTrace(runId, stream).kept);
            multiset(ForestOf(runId, stream)) == multiset(RootedOnes(par, |par|))
  {
    var par := ParentLinks(BuildTrace(runId, stream).kept);
    TraceConservation(runId, stream);
    forall i: nat
      ensures multiset(ForestOf(runId, stream))[i] == multiset(RootedOnes(par, |par|))[i]
    {
      RootedOnesCount(par, |par|, i);
      assert Rooted(par, i) ==> i < |par|;
    }
  }

  /** For any stream, the rolled-up totals of the roots are the totals of exactly the records that lead to a root. */
  lemma {:induction false} RootTotalsOfRooted(runId: string, stream: seq<Record>)
    ensures var t := BuildTrace(runId, stream); var par := ParentLinks(t.kept);
            |ForestTrees(runId, stream)| == |t.roots| &&
            TotalFrom(ZERO, ForestTrees(runId, stream), |t.roots|) == Total(OwnTotals(t.kept), RootedOnes(par, |par|))
  {
    var t := BuildTrace(runId, stream);
    var par := ParentLinks(t.kept);
    BuiltLists(runId, stream);
    RootsDepth(par, t.roots);
    RollupsAreWalkTotals(OwnTotals(t.kept), par, t.children, t.roots, 0, ZERO);
    ForestIsRootedOnes(runId, stream);
    TotalReordered(OwnTotals(t.kept), ForestOf(runId, stream), RootedOnes(par, |par|));
  }

  /** Without cycles, those are the totals of all the records kept. */
  lemma {:induction false} RootTotalsConserved(runId: string, stream: seq<Record>)
    requires Acyclic(ParentLinks(BuildTrace(runId, stream).kept))
    ensures var t := BuildTrace(runId, stream);
            |ForestTrees(runId, stream)| == |t.roots| &&
            TotalFrom(ZERO, ForestTrees(runId, stream), |t.roots|) == Total(OwnTotals(t.kept), Upto(|t.kept|)) == Tally(t.kept)
  {
    TotalIsTally(BuildTrace(runId, stream).kept);
    var par := ParentLinks(BuildTrace(runId, stream).kept);
    RootTotalsOfRooted(runId, stream);
    RootedIffAcyclic(par);
    AllRooted(par, |par|);
  }

  // ---- Other runs ----

  /** `r` says that it is of another run, or of none. */
  predicate Foreign(r: Record, runId: string) {
    r.meta.None? || r.meta.value.runId != Str(runId)
  }

  ghost predicate AllOwn(rs: seq<Record>, runId: string) {
    forall i :: 0 <= i < |rs| ==> !Foreign(rs[i], runId)
  }

  /** `stream` is `own` with records foreign to the run put in anywhere. */
  ghost predicate Among(stream: seq<Record>, own: seq<Record>, runId: string) {
    if stream == [] then own == []
    else
      || (own != [] && stream[0] == own[0] && Among(stream[1..], own[1..], runId))
      || (Foreign(stream[0], runId) && Among(stream[1..], own, runId))
  }

  /** Records of other runs leave no mark, wherever they stand in the stream. */
  lemma {:induction false} OtherRunsIgnored(t: Trace, runId: string, stream: seq<Record>, own: seq<Record>)
    requires InRange(t) && Among(stream, own, runId)
    ensures FeedAll(t, runId, stream) == FeedAll(t, runId, own)
    decreases |stream|
  {
    if stream != [] {
      if own != [] && stream[0] == own[0] && Among(stream[1..], own[1..], runId) {
        OtherRunsIgnored(Feed(t, runId, stream[0]), runId, stream[1..], own[1..]);
      } else {
        OtherRunsIgnored(t, runId, stream[1..], own);
      }
    }
  }

  lemma {:induction false} KeptAll(t: Trace, runId: string, own: seq<Record>)
    requires InRange(t) && AllOwn(own, runId)
    ensures FeedAll(t, runId, own).kept == t.kept + own
    decreases |own|
  {
    if own != [] {
      var t' := Feed(t, runId, own[0]);
      assert t'.kept == t.kept + [own[0]];
      KeptAll(t', runId, own[1..]);
      ConcatAssoc(t.kept, [own[0]], own[1..]);
      assert own == [own[0]] + own[1..];
    }
  }

  /** What is kept of any stream are the records that name the run, in order; all the others are foreign to it. */
  lemma {:induction false} KeptIsOfRun(runId: string, stream: seq<Record>)
    ensures Among(stream, BuildTrace(runId, stream).kept, runId) && AllOwn(BuildTrace(runId, stream).kept, runId)
  {
    var own := OwnOf(runId, stream);
    OtherRunsIgnored(EmptyTrace(), runId, stream, own);
    KeptAll(EmptyTrace(), runId, own);
    assert [] + own == own;
  }

  lemma {:induction false} OwnOf(runId: string, stream: seq<Record>) returns (own: seq<Record>)
    ensures Among(stream, own, runId) && AllOwn(own, runId)
  {
    if stream == [] {
      own := [];
    } else {
      own := OwnOf(runId, stream[1..]);
      if !Foreign(stream[0], runId) {
        var rest := own;
        own := [stream[0]] + rest;
        assert own[1..] == rest;
      }
    }
  }

  /** A stream tells which of its records are those of the run. */
  lemma {:induction false} KeptOfAmong(runId: string, stream: seq<Record>, own: seq<Record>)
    requires Among(stream, own, runId) && AllOwn(own, runId)
    ensures BuildTrace(runId, stream) == BuildTrace(runId, own) && BuildTrace(runId, stream).kept == own
  {
    OtherRunsIgnored(EmptyTrace(), runId, stream, own);
    KeptAll(EmptyTrace(), runId, own);
    assert [] + own == own;
  }

  lemma {:induction false} AmongSelf(rs: seq<Record>, runId: string)
    ensures Among(rs, rs, runId)
  {
    if rs != [] {
      AmongSelf(rs[1..], runId);
    }
  }

  /** A foreign record may stand anywhere: the finished trace is the one without it. */
  lemma {:induction false} ForeignInserted(runId: string, a: seq<Record>, r: Record, b: seq<Record>)
    requires r.meta.None? || r.meta.value.runId != Str(runId)
    ensures BuildTrace(runId, a + [r] + b) == BuildTrace(runId, a + b)
  {
    AmongInserted(runId, a, r, b);
    OtherRunsIgnored(EmptyTrace(), runId, a + [r] + b, a + b);
  }

  lemma {:induction false} AmongInserted(runId: string, a: seq<Record>, r: Record, b: seq<Record>)
    requires Foreign(r, runId)
    ensures Among(a + [r] + b, a + b, runId)
  {
    var stream := a + [r] + b;
    if a == [] {
      AmongSelf(b, runId);
      assert stream[0] == r && stream[1..] == b && a + b == b;
    } else {
      AmongInserted(runId, a[1..], r, b);
      assert stream[1..] == a[1..] + [r] + b && (a + b)[1..] == a[1..] + b;
    }
  }

  /** What comes after records that are all foreign. */
  lemma {:induction false} AmongAfter(runId: string, before: seq<Record>, own: seq<Record>)
    requires forall i :: 0 <= i < |before| ==> Foreign(before[i], runId)
    ensures Among(before + own, own, runId)
  {
    if before == [] {
      assert before + own == own;
      AmongSelf(own, runId);
    } else {
      assert (before + own)[1..] == before[1..] + own;
      AmongAfter(runId, before[1..], own);
    }
  }

  /** `stream` is an interleaving of `a` and `b`. */
  ghost predicate Merges(stream: seq<Record>, a: seq<Record>, b: seq<Record>) {
    if stream == [] then a == [] && b == []
    else
      || (a != [] && stream[0] == a[0] && Merges(stream[1..], a[1..], b))
      || (b != [] && stream[0] == b[0] && Merges(stream[1..], a, b[1..]))
  }

  lemma {:induction false} MergedAmong(runId: string, stream: seq<Record>, a: seq<Record>, b: seq<Record>)
    requires forall i :: 0 <= i < |b| ==> Foreign(b[i], runId)
    requires Merges(stream, a, b) || Merges(stream, b, a)
    ensures Among(stream, a, runId)
    decreases |stream|
  {
    if stream != [] {
      if a != [] && stream[0] == a[0] && (Merges(stream[1..], a[1..], b) || Merges(stream[1..], b, a[1..])) {
        MergedAmong(runId, stream[1..], a[1..], b);
      } else {
        MergedAmong(runId, stream[1..], a, b[1..]);
      }
    }
  }

  /**
    The whole finished trace from the stream: which records are kept, what hangs below each in which order, and what
    the roots are in which order. `PlaceByIds` says what the places are.
   */
  lemma {:induction false} FinishedTrace(runId: string, stream: seq<Record>)
    ensures var t := BuildTrace(runId, stream);
            && Among(stream, t.kept, runId) && AllOwn(t.kept, runId)
            && |t.children| == |t.kept|
            && (forall j, i: nat :: 0 <= j < |t.kept| ==>
                (i in t.children[j] <==> i < |t.kept| && PlaceOf(t.kept, i) == Under(j)))
            && (forall j, a, b :: 0 <= j < |t.kept| && 0 <= a < b < |t.children[j]| ==> t.children[j][a] < t.children[j][b])
            && (forall i: nat :: i in t.roots <==> i < |t.kept| && !PlaceOf(t.kept, i).Under?)
            && AllOrdered(t.kept, t.roots)
  {
    var fed := FeedAll(EmptyTrace(), runId, stream);
    EmptyFaithful();
    FeedAllFaithful(EmptyTrace(), runId, stream);
    KeptIsOfRun(runId, stream);
    FinalOrder(fed);
    FinalRoots(fed);
    forall j | 0 <= j < |fed.kept|
      ensures fed.children[j] == Placed(fed.kept, Under(j), |fed.kept|)
      ensures forall i: nat :: i in fed.children[j] <==> i < |fed.kept| && PlaceOf(fed.kept, i) == Under(j)
      ensures forall a, b :: 0 <= a < b < |fed.children[j]| ==> fed.children[j][a] < fed.children[j][b]
    {
      PlacedMembers(fed.kept, Under(j), |fed.kept|);
    }
  }

  lemma SelfLinkUnrooted(par: Links, i: nat)
    requires ValidLinks(par) && i < |par| && par[i] == Some(i)
    ensures !Rooted(par, i)
  {
    assert Up(par, i, 1) == Some(i);
    if Rooted(par, i) {
      RootedOffCycle(par, i);
    }
  }

  /** A span that names itself as its parent is kept, but hangs in no root's tree, whatever else is in the stream. */
  lemma SelfParentLost(runId: string, stream: seq<Record>, i: nat)
    requires i < |BuildTrace(runId, stream).kept|
    requires var r := BuildTrace(runId, stream).kept[i]; SpanId(r).Some? && ParentSpanId(r) == SpanId(r)
    ensures i !in ForestOf(runId, stream)
  {
    var kept := BuildTrace(runId, stream).kept;
    assert LastClosed(kept, SpanId(kept[i]).value, i + 1) == Some(i);
    SelfLinkUnrooted(ParentLinks(kept), i);
    TraceConservation(runId, stream);
  }
}
