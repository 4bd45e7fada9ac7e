/**
  The span-tree builder on the heap (logquill/cli/trace_tree.py:34-175): nodes are objects whose child lists
  grow in place. The ghost field `model` is the state of `TraceSpec`; every method says how it changes, so what is
  proved about that state holds of the objects.
 */
module TraceBuilders {
  import opened OrderedDicts
  import opened TraceRecords
  import Spec = TraceSpec
  import opened TraceForest
  import opened Forests

  class TraceNode {
    const record: Record
    var children: seq<TraceNode>

    constructor (record: Record)
      ensures this.record == record && children == []
    {
      this.record := record;
      children := [];
    }

    /** This node's own totals plus everything nested under it. */
    method Rollup(ghost all: set<TraceNode>, ghost tree: Tree) returns (total: Rollup)
      requires Hangs(all, this, tree)
      ensures total == TreeTotal(tree)
      decreases tree
    {
      total := OwnTokensCost(record);
      var k := 0;
      while k < |children|
        invariant k <= |children| == |tree.kids|
        invariant Hangs(all, this, tree)
        invariant total == TotalFrom(tree.own, tree.kids, k)
      {
        var nested := children[k].Rollup(all, tree.kids[k]);
        total := total.Plus(nested);
        k := k + 1;
      }
    }
  }

  /** The objects at and below `node` form `tree`. */
  ghost predicate Hangs(all: set<TraceNode>, node: TraceNode, tree: Tree)
    reads all
    decreases tree
  {
    && node in all
    && OwnTokensCost(node.record) == tree.own
    && |node.children| == |tree.kids|
    && forall k :: 0 <= k < |tree.kids| ==> Hangs(all, node.children[k], tree.kids[k])
  }

  /** `nodes` are the objects named by the positions `ids`. */
  ghost predicate Named(all: seq<TraceNode>, nodes: seq<TraceNode>, ids: seq<nat>) {
    |nodes| == |ids| && forall k :: 0 <= k < |ids| ==> ids[k] < |all| && nodes[k] == all[ids[k]]
  }

  lemma NamedConcat(all: seq<TraceNode>, nodes: seq<TraceNode>, ids: seq<nat>, more: seq<TraceNode>, moreIds: seq<nat>)
    requires Named(all, nodes, ids) && Named(all, more, moreIds)
    ensures Named(all, nodes + more, ids + moreIds)
  {
  }

  lemma NamedExtends(all: seq<TraceNode>, node: TraceNode, nodes: seq<TraceNode>, ids: seq<nat>)
    requires Named(all, nodes, ids)
    ensures Named(all + [node], nodes, ids)
  {
  }

  /** The nodes are the records kept, and their child lists are those of the model. */
  ghost predicate NodesHold(all: seq<TraceNode>, kept: seq<Record>, children: seq<seq<nat>>)
    reads all
  {
    && |all| == |kept| == |children|
    && Distinct(all)
    && (forall i {:trigger kept[i]} :: 0 <= i < |all| ==> all[i].record == kept[i])
    && (forall i {:trigger children[i]} :: 0 <= i < |all| ==> Named(all, all[i].children, children[i]))
  }

  /** The span table names the same spans as the model's. */
  ghost predicate SpansTabled(nodes: map<string, TraceNode>, all: seq<TraceNode>, model: Spec.Trace) {
    && nodes.Keys == model.nodes.Keys
    && forall s :: s in nodes ==> model.nodes[s] < |all| && nodes[s] == all[model.nodes[s]]
  }

  /** The same nodes wait for the same spans as in the model. */
  ghost predicate WaitingTabled(pending: OrderedDict<string, seq<TraceNode>>, all: seq<TraceNode>, model: Spec.Trace) {
    && pending.keys == model.pending.keys
    && pending.vals.Keys == model.pending.vals.Keys
    && forall p :: p in pending.vals ==> Named(all, pending.vals[p], model.pending.vals[p])
  }

  lemma SpansTake(nodes: map<string, TraceNode>, all: seq<TraceNode>, model: Spec.Trace, spanId: string, node: TraceNode)
    requires SpansTabled(nodes, all, model) && |all| == |model.kept| && SpanId(node.record) == Some(spanId)
    ensures SpansTabled(nodes[spanId := node], all + [node], Spec.Arrive(model, node.record))
  {
  }

  lemma WaitingTake(pending: OrderedDict<string, seq<TraceNode>>, all: seq<TraceNode>, model: Spec.Trace, spanId: string,
                    node: TraceNode)
    requires WaitingTabled(pending, all, model) && SpanId(node.record) == Some(spanId)
    ensures WaitingTabled(pending.Remove(spanId), all + [node], Spec.Arrive(model, node.record))
  {
    forall p | p in pending.Remove(spanId).vals
      ensures Named(all + [node], pending.vals[p], model.pending.vals[p])
    {
      NamedExtends(all, node, pending.vals[p], model.pending.vals[p]);
    }
  }

  lemma WaitingPut(pending: OrderedDict<string, seq<TraceNode>>, all: seq<TraceNode>, model: Spec.Trace, p: string,
                   nodes: seq<TraceNode>, ids: seq<nat>)
    requires WaitingTabled(pending, all, model) && Named(all, nodes, ids)
    ensures WaitingTabled(pending.Put(p, nodes), all, model.(pending := model.pending.Put(p, ids)))
  {
  }

  /** The newest node joins the list that waits for `p`; the other tables stay. */
  lemma TablesWait(nodes: map<string, TraceNode>, pending: OrderedDict<string, seq<TraceNode>>, all: seq<TraceNode>,
                   roots: seq<TraceNode>, model: Spec.Trace, record: Record, p: string)
    requires Spec.InRange(model) && all != []
    requires SpansTabled(nodes, all, model) && WaitingTabled(pending, all, model) && Named(all, roots, model.roots)
    requires ParentSpanId(record) == Some(p) && p !in nodes
    ensures var i := |all| - 1;
            var after := Spec.Attach(model, record, i);
            && after.kept == model.kept && after.children == model.children && Spec.InRange(after)
            && SpansTabled(nodes, all, after) && Named(all, roots, after.roots)
            && WaitingTabled(pending.Put(p, pending.Get(p, []) + [all[i]]), all, after)
  {
    var i := |all| - 1;
    NamedConcat(all, pending.Get(p, []), model.pending.Get(p, []), [all[i]], [i]);
    WaitingPut(pending, all, model, p, pending.Get(p, []) + [all[i]], model.pending.Get(p, []) + [i]);
  }

  class TraceBuilder {
    const runId: string
    var nodes: map<string, TraceNode>
    var pending: OrderedDict<string, seq<TraceNode>>
    var roots: seq<TraceNode>
    var recordCount: nat

    /** Every node made so far, in the order of the records kept. */
    ghost var all: seq<TraceNode>
    ghost var model: Spec.Trace

    ghost function Objects(): set<TraceNode>
      reads this
    {
      set n | n in all
    }

    ghost predicate NodesMatch()
      reads this, all
    {
      NodesHold(all, model.kept, model.children)
    }

    ghost predicate TablesMatch()
      reads this
    {
      SpansTabled(nodes, all, model) && WaitingTabled(pending, all, model) && Named(all, roots, model.roots)
    }

    ghost predicate Valid()
      reads this, all
    {
      && Spec.InRange(model)
      && recordCount == |model.kept|
      && NodesMatch()
      && TablesMatch()
    }

    constructor (runId: string)
      ensures Valid() && this.runId == runId
      ensures model == Spec.EmptyTrace() && all == []
    {
      this.runId := runId;
      nodes := map[];
      pending := Empty();
      roots := [];
      recordCount := 0;
      all := [];
      model := Spec.EmptyTrace();
    }

    method Feed(record: Record) returns (kept: bool)
      requires Valid()
      modifies this, all
      ensures Valid()
      ensures kept == (record.meta.Some? && record.meta.value.runId == Str(runId))
      ensures model == Spec.Feed(old(model), runId, record)
      ensures |all| == |old(all)| + (if kept then 1 else 0)
      ensures all[..|old(all)|] == old(all)
      ensures kept ==> fresh(all[|old(all)|])
    {
      if !Belongs(record, runId) {
        return false;
      }
      recordCount := recordCount + 1;
      var node := Arrive(record);
      Attach(record, node);
      kept := true;
    }

    /** Make the node; a span takes over the list that waited for it. */
    method Arrive(record: Record) returns (node: TraceNode)
      requires Spec.InRange(model) && NodesMatch() && TablesMatch()
      modifies this`all, this`model, this`pending, this`nodes
      ensures Spec.InRange(model) && NodesMatch() && TablesMatch()
      ensures model == Spec.Arrive(old(model), record)
      ensures fresh(node) && all == old(all) + [node] && node.record == record
    {
      node := new TraceNode(record);
      var spanId := SpanId(record);
      if spanId.Some? {
        TakeWaiting(spanId.value, node);
      } else {
        all := all + [node];
        model := Spec.Arrive(model, record);
      }
    }

    method TakeWaiting(spanId: string, node: TraceNode)
      requires Spec.InRange(model) && NodesMatch() && TablesMatch()
      requires node !in all && SpanId(node.record) == Some(spanId)
      modifies this`all, this`model, this`pending, this`nodes, node
      ensures Spec.InRange(model) && NodesMatch() && TablesMatch()
      ensures model == Spec.Arrive(old(model), node.record) && all == old(all) + [node]
    {
      ghost var before := model;
      SpansTake(nodes, all, model, spanId, node);
      WaitingTake(pending, all, model, spanId, node);
      NamedExtends(all, node, pending.Get(spanId, []), model.pending.Get(spanId, []));
      NamedExtends(all, node, roots, model.roots);
      node.children := pending.Get(spanId, []);
      pending := pending.Remove(spanId);
      nodes := nodes[spanId := node];
      all := all + [node];
      model := Spec.Arrive(model, node.record);
      forall k {:trigger model.children[k]} | 0 <= k < |all|
        ensures Named(all, all[k].children, model.children[k])
      {
        if k < |old(all)| {
          assert all[k] == old(all)[k] && all[k] != node;
          NamedExtends(old(all), node, old(all[k].children), before.children[k]);
        }
      }
    }

    /** Put the newest node where its parent id says. */
    method Attach(record: Record, node: TraceNode)
      requires Spec.InRange(model) && NodesMatch() && TablesMatch()
      requires all != [] && node == all[|all| - 1]
      modifies this`model, this`pending, this`roots, all
      ensures Spec.InRange(model) && NodesMatch() && TablesMatch()
      ensures model == Spec.Attach(old(model), record, |all| - 1)
    {
      var parentId := ParentSpanId(record);
      if parentId.None? {
        NamedConcat(all, roots, model.roots, [node], [|all| - 1]);
        model := Spec.Attach(model, record, |all| - 1);
        roots := roots + [node];
      } else if parentId.value in nodes {
        Adopt(record, parentId.value, node);
      } else {
        LetWait(record, parentId.value, node);
      }
    }

    /** The parent has not closed yet: the node joins the list that waits for it. */
    method LetWait(ghost record: Record, parentId: string, node: TraceNode)
      requires Spec.InRange(model) && NodesMatch() && TablesMatch()
      requires all != [] && node == all[|all| - 1]
      requires ParentSpanId(record) == Some(parentId) && parentId !in nodes
      modifies this`model, this`pending
      ensures Spec.InRange(model) && NodesMatch() && TablesMatch()
      ensures model == Spec.Attach(old(model), record, |all| - 1)
    {
      TablesWait(nodes, pending, all, roots, model, record, parentId);
      model := Spec.Attach(model, record, |all| - 1);
      pending := pending.Put(parentId, pending.Get(parentId, []) + [node]);
    }

    /** The parent has closed already: its child list grows. */
    method Adopt(ghost record: Record, parentId: string, node: TraceNode)
      requires Spec.InRange(model) && NodesMatch() && TablesMatch()
      requires all != [] && node == all[|all| - 1]
      requires ParentSpanId(record) == Some(parentId) && parentId in nodes
      modifies this`model, all
      ensures Spec.InRange(model) && NodesMatch() && TablesMatch()
      ensures model == Spec.Attach(old(model), record, |all| - 1)
    {
      ghost var before := model;
      ghost var j := before.nodes[parentId];
      var parent := nodes[parentId];
      NamedConcat(all, parent.children, before.children[j], [node], [|all| - 1]);
      parent.children := parent.children + [node];
      model := Spec.Attach(model, record, |all| - 1);
      forall k {:trigger model.children[k]} | 0 <= k < |all|
        ensures Named(all, all[k].children, model.children[k])
      {
        if k != j {
          assert all[k] != parent;
          assert all[k].children == old(all[k].children) && model.children[k] == before.children[k];
        }
      }
    }

    method Finalize()
      requires Valid()
      modifies this
      ensures Valid()
      ensures model == Spec.Finalize(old(model)) && all == old(all)
    {
      var k := 0;
      var extended := roots;
      ghost var keys := model.pending.keys;
      ghost var lists := model.pending.vals;
      assert keys[..0] == [];
      while k < |pending.keys|
        modifies {}
        invariant k <= |keys|
        invariant Named(all, extended, model.roots + Spec.Orphans(keys[..k], lists))
      {
        OrphansAppend(keys[..k], keys[k], lists);
        assert keys[..k + 1] == keys[..k] + [keys[k]];
        if pending.keys[k] in pending.vals {
          NamedConcat(all, extended, model.roots + Spec.Orphans(keys[..k], lists), pending.vals[pending.keys[k]], lists[keys[k]]);
          extended := extended + pending.vals[pending.keys[k]];
        }
        assert model.roots + Spec.Orphans(keys[..k + 1], lists) ==
               model.roots + Spec.Orphans(keys[..k], lists) + if keys[k] in lists then lists[keys[k]] else [];
        k := k + 1;
      }
      assert keys[..k] == keys;
      roots := extended;
      pending := Empty();
      model := Spec.Finalize(model);
    }
  }

  /** Below a node the roots lead to, the heap holds the tree the builder's state describes. */
  lemma {:induction false} NodeHangs(builder: TraceBuilder, par: Links, i: nat)
    requires builder.NodesMatch()
    requires ValidLinks(par) && Lists(par, builder.model.children) && Rooted(par, i) && i < |builder.all|
    ensures Hangs(builder.Objects(), builder.all[i], TreeAt(OwnTotals(builder.model.kept), par, builder.model.children, i))
    decreases |par| - Depth(par, i)
  {
    var kids := builder.model.children;
    var own := OwnTotals(builder.model.kept);
    KidsDepth(par, kids, i);
    TreesAtIndex(own, par, kids, kids[i], Depth(par, i) + 1);
    forall k | 0 <= k < |kids[i]|
      ensures Hangs(builder.Objects(), builder.all[kids[i][k]], TreeAt(own, par, kids, kids[i][k]))
    {
      assert kids[i][k] in kids[i];
      NodeHangs(builder, par, kids[i][k]);
    }
  }

  lemma {:induction false} OrphansAppend(keys: seq<string>, p: string, lists: map<string, seq<nat>>)
    ensures Spec.Orphans(keys + [p], lists) == Spec.Orphans(keys, lists) + if p in lists then lists[p] else []
  {
    if keys == [] {
      assert (keys + [p])[1..] == [];
    } else {
      assert (keys + [p])[1..] == keys[1..] + [p];
      OrphansAppend(keys[1..], p, lists);
    }
  }

  /** Feed every record, then finalize. */
  method Build(records: seq<Record>, runId: string) returns (builder: TraceBuilder)
    ensures fresh(builder) && builder.Valid()
    ensures builder.model == BuildTrace(runId, records)
  {
    builder := new TraceBuilder(runId);
    var k := 0;
    assert records[..0] == [];
    while k < |records|
      invariant k <= |records|
      invariant builder.Valid() && builder.runId == runId && fresh(builder) && forall i :: 0 <= i < |builder.all| ==> fresh(builder.all[i])
      invariant Spec.FeedAll(builder.model, runId, records[k..]) == Spec.FeedAll(Spec.EmptyTrace(), runId, records)
    {
      var kept := builder.Feed(records[k]);
      assert records[k..][1..] == records[k + 1..];
      k := k + 1;
    }
    builder.Finalize();
  }
}
