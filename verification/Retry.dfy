/**
  The bounded retry counter (logquill/tracing/retry.py) against the unbounded one. The tracker is a least-recently
  opened table of at most `max` calls; `Chain` counts without forgetting. `OpenedRefinesChain`: the tracker never
  reports more than `Chain`, and reports exactly that if and only if, between consecutive openings of the call, there
  were never `max` other calls opened since and still outstanding.
 */
module Retry {
  import opened OrderedDicts

  /** Enclosing span, tool and call id; an absent id is the empty string. */
  type Key = (string, string, string)

  datatype Op = Opened(key: Key) | Succeeded(key: Key)

  type Table = OrderedDict<Key, int>

  function KeyOf(spanId: Option<string>, tool: string, callId: Option<string>): Key {
    (if spanId.Some? then spanId.value else "", tool, if callId.Some? then callId.value else "")
  }

  /** Two calls are the same one exactly when tool, span and call id agree, an absent id being as good as an empty one. */
  lemma KeyIdentifies(span: Option<string>, tool: string, call: Option<string>, span': Option<string>, tool': string,
                      call': Option<string>)
    ensures KeyOf(span, tool, call) == KeyOf(span', tool', call') <==>
            && tool == tool'
            && (span == span' || {span, span'} <= {None, Some("")})
            && (call == call' || {call, call'} <= {None, Some("")})
  {
  }

  function NextCount(d: Table, k: Key): int {
    d.Get(k, -1) + 1
  }

  function Open(max: nat, d: Table, k: Key): Table {
    d.Put(k, NextCount(d, k)).MoveToEnd(k).TrimTo(max)
  }

  function Apply(max: nat, d: Table, op: Op): Table {
    match op
    case Opened(k) => Open(max, d, k)
    case Succeeded(k) => d.Remove(k)
  }

  /** The table after a history of calls. */
  function After(max: nat, h: seq<Op>): Table {
    if h == [] then Empty() else Apply(max, After(max, h[..|h| - 1]), h[|h| - 1])
  }

  // ---- The unbounded counter ----

  /** How often `k` was opened since it last succeeded. */
  function Chain(h: seq<Op>, k: Key): nat {
    if h == [] then 0
    else match h[|h| - 1]
      case Opened(o) => Chain(h[..|h| - 1], k) + if o == k then 1 else 0
      case Succeeded(o) => if o == k then 0 else Chain(h[..|h| - 1], k)
  }

  /** The other calls opened since `k` was last opened that have not succeeded since. */
  function Outstanding(h: seq<Op>, k: Key): set<Key> {
    if h == [] then {}
    else match h[|h| - 1]
      case Opened(o) => if o == k then {} else Outstanding(h[..|h| - 1], k) + {o}
      case Succeeded(o) => Outstanding(h[..|h| - 1], k) - {o}
  }

  /** At some point since `k` was last opened, `max` others were outstanding. */
  predicate Overtaken(max: nat, h: seq<Op>, k: Key) {
    h != [] && (|Outstanding(h, k)| >= max || (h[|h| - 1] != Opened(k) && Overtaken(max, h[..|h| - 1], k)))
  }

  /** Between any two consecutive openings of the current chain of `k`, there were never `max` others outstanding. */
  predicate Undisturbed(max: nat, h: seq<Op>, k: Key) {
    h == [] ||
    var before := h[..|h| - 1];
    match h[|h| - 1]
    case Opened(o) => Undisturbed(max, before, k) && (o == k && Chain(before, k) > 0 ==> !Overtaken(max, before, k))
    case Succeeded(o) => o == k || Undisturbed(max, before, k)
  }

  lemma {:induction false} NoChainUndisturbed(max: nat, h: seq<Op>, k: Key)
    requires Chain(h, k) == 0
    ensures Undisturbed(max, h, k)
  {
    if h != [] && h[|h| - 1] != Succeeded(k) {
      NoChainUndisturbed(max, h[..|h| - 1], k);
    }
  }

  // ---- The invariant ----

  ghost predicate CountsBelow(h: seq<Op>, d: Table) {
    forall k :: k in d.vals ==> 0 <= d.vals[k] < Chain(h, k)
  }

  ghost predicate CountsExact(max: nat, h: seq<Op>, d: Table) {
    forall k :: k in d.vals ==> (Undisturbed(max, h, k) <==> d.vals[k] + 1 == Chain(h, k))
  }

  /** The table holds exactly the calls whose chain is running and that have not been overtaken. */
  ghost predicate Remembers(max: nat, h: seq<Op>, d: Table) {
    forall k :: k in d.vals <==> Chain(h, k) > 0 && !Overtaken(max, h, k)
  }

  /** Behind a call stand exactly the calls outstanding since it was last opened. */
  ghost predicate Behind(h: seq<Op>, keys: seq<Key>) {
    forall i :: 0 <= i < |keys| ==> BehindAt(h, keys, i)
  }

  ghost predicate BehindAt(h: seq<Op>, keys: seq<Key>, i: nat)
    requires i < |keys|
  {
    forall o :: o in Outstanding(h, keys[i]) <==> o in keys[i + 1..]
  }

  ghost predicate Inv(max: nat, h: seq<Op>, d: Table) {
    && d.Valid() && |d.keys| <= max
    && Behind(h, d.keys)
    && CountsBelow(h, d) && CountsExact(max, h, d) && Remembers(max, h, d)
  }

  lemma BehindSize(h: seq<Op>, keys: seq<Key>, i: nat)
    requires Distinct(keys) && Behind(h, keys) && i < |keys|
    ensures |Outstanding(h, keys[i])| == |keys| - 1 - i
  {
    assert BehindAt(h, keys, i);
    DistinctSetSize(keys[i + 1..], Outstanding(h, keys[i]));
  }

  /** One more opening, before anything is trimmed: the call becomes the most recent one. */
  function Reopened(d: Table, k: Key): Table {
    d.Put(k, NextCount(d, k)).MoveToEnd(k)
  }

  lemma ReopenedValid(d: Table, k: Key)
    requires d.Valid()
    ensures var d' := Reopened(d, k);
            && d'.Valid() && d'.keys == Without(d.keys, k) + [k]
            && d'.vals == d.vals[k := NextCount(d, k)]
            && |d'.keys| == |d.keys| + if k in d.vals then 0 else 1
  {
    WithoutDistinct(d.keys, k);
    d.PutLastKeys(k, NextCount(d, k));
  }

  lemma OpenBehind(h: seq<Op>, keys: seq<Key>, k: Key)
    requires Behind(h, keys)
    ensures Behind(h + [Opened(k)], Without(keys, k) + [k])
  {
    var h', rest := h + [Opened(k)], Without(keys, k);
    assert h'[..|h|] == h;
    forall j | 0 <= j < |rest + [k]|
      ensures BehindAt(h', rest + [k], j)
    {
      if j < |rest| {
        var i := WithoutBehind(keys, k, j);
        assert BehindAt(h, keys, i) && rest[j] in rest;
        assert (rest + [k])[j + 1..] == rest[j + 1..] + [k];
      }
    }
  }

  lemma SucceedBehind(h: seq<Op>, keys: seq<Key>, k: Key)
    requires Behind(h, keys)
    ensures Behind(h + [Succeeded(k)], Without(keys, k))
  {
    var h', rest := h + [Succeeded(k)], Without(keys, k);
    assert h'[..|h|] == h;
    forall j | 0 <= j < |rest|
      ensures BehindAt(h', rest, j)
    {
      var i := WithoutBehind(keys, k, j);
      assert BehindAt(h, keys, i);
    }
  }

  lemma PopBehind(h: seq<Op>, keys: seq<Key>)
    requires Behind(h, keys) && keys != []
    ensures Behind(h, keys[1..])
  {
    forall j | 0 <= j < |keys| - 1
      ensures BehindAt(h, keys[1..], j)
    {
      assert BehindAt(h, keys, j + 1);
      assert keys[1..][j + 1..] == keys[j + 2..];
    }
  }

  lemma OpenCount(max: nat, h: seq<Op>, d: Table, k: Key, o: Key)
    requires CountsBelow(h, d) && CountsExact(max, h, d) && Remembers(max, h, d)
    requires o == k || o in d.vals
    ensures var h', n := h + [Opened(k)], if o == k then NextCount(d, k) else d.vals[o];
            0 <= n < Chain(h', o) && (Undisturbed(max, h', o) <==> n + 1 == Chain(h', o))
  {
    assert (h + [Opened(k)])[..|h|] == h;
    if Chain(h, o) == 0 {
      NoChainUndisturbed(max, h, o);
    }
    assert o in d.vals <==> Chain(h, o) > 0 && !Overtaken(max, h, o);
  }

  lemma OpenCounts(max: nat, h: seq<Op>, d: Table, k: Key)
    requires CountsBelow(h, d) && CountsExact(max, h, d) && Remembers(max, h, d) && d.Valid()
    ensures CountsBelow(h + [Opened(k)], Reopened(d, k)) && CountsExact(max, h + [Opened(k)], Reopened(d, k))
  {
    ReopenedValid(d, k);
    forall o | o in Reopened(d, k).vals
      ensures var h', n := h + [Opened(k)], Reopened(d, k).vals[o];
              0 <= n < Chain(h', o) && (Undisturbed(max, h', o) <==> n + 1 == Chain(h', o))
    {
      OpenCount(max, h, d, k, o);
    }
  }

  /** The one call that is forgotten when there is one too many: the first, which everything else has overtaken. */
  predicate Pushed(max: nat, d: Table, o: Key) {
    |d.keys| == max + 1 && o == d.keys[0]
  }

  lemma OpenOvertakes(max: nat, h: seq<Op>, d: Table, k: Key, o: Key)
    requires Inv(max, h, d) && o in Reopened(d, k).vals
    ensures Overtaken(max, h + [Opened(k)], o) <==> Pushed(max, Reopened(d, k), o)
  {
    var h', d' := h + [Opened(k)], Reopened(d, k);
    assert h'[..|h|] == h;
    ReopenedValid(d, k);
    OpenBehind(h, d.keys, k);
    var i :| 0 <= i < |d'.keys| && d'.keys[i] == o;
    BehindSize(h', d'.keys, i);
  }

  lemma OpenRemembers(max: nat, h: seq<Op>, d: Table, k: Key, o: Key)
    requires Inv(max, h, d)
    ensures o in Reopened(d, k).vals && !Pushed(max, Reopened(d, k), o) <==>
            Chain(h + [Opened(k)], o) > 0 && !Overtaken(max, h + [Opened(k)], o)
  {
    assert (h + [Opened(k)])[..|h|] == h;
    ReopenedValid(d, k);
    if o in Reopened(d, k).vals {
      OpenOvertakes(max, h, d, k, o);
    }
  }

  lemma OpenInv(max: nat, h: seq<Op>, d: Table, k: Key)
    requires Inv(max, h, d)
    ensures Inv(max, h + [Opened(k)], Open(max, d, k))
  {
    var h', d' := h + [Opened(k)], Reopened(d, k);
    ReopenedValid(d, k);
    OpenBehind(h, d.keys, k);
    OpenCounts(max, h, d, k);
    forall o
      ensures o in d'.vals && !Pushed(max, d', o) <==> Chain(h', o) > 0 && !Overtaken(max, h', o)
    {
      OpenRemembers(max, h, d, k, o);
    }
    TrimReopened(max, d');
    if |d'.keys| > max {
      PopBehind(h', d'.keys);
    }
  }

  /** One call too many at most: the first is popped. */
  lemma TrimReopened(max: nat, d: Table)
    requires d.Valid() && |d.keys| <= max + 1
    ensures d.TrimTo(max).Valid() && |d.TrimTo(max).keys| <= max
    ensures d.TrimTo(max).keys == if |d.keys| > max then d.keys[1..] else d.keys
    ensures forall o :: o in d.TrimTo(max).vals <==> o in d.vals && !Pushed(max, d, o)
    ensures forall o :: o in d.TrimTo(max).vals ==> d.TrimTo(max).vals[o] == d.vals[o]
  {
    if |d.keys| > max {
      d.PopFirstValid();
      assert d.TrimTo(max) == d.PopFirst().TrimTo(max) == d.PopFirst();
    }
  }

  lemma SucceedCounts(max: nat, h: seq<Op>, d: Table, k: Key)
    requires CountsBelow(h, d) && CountsExact(max, h, d)
    ensures CountsBelow(h + [Succeeded(k)], d.Remove(k)) && CountsExact(max, h + [Succeeded(k)], d.Remove(k))
  {
    assert (h + [Succeeded(k)])[..|h|] == h;
  }

  lemma SucceedRemembers(max: nat, h: seq<Op>, d: Table, k: Key)
    requires Inv(max, h, d)
    ensures Remembers(max, h + [Succeeded(k)], d.Remove(k))
  {
    var h' := h + [Succeeded(k)];
    assert h'[..|h|] == h;
    forall o | o != k
      ensures o in d.vals <==> Chain(h', o) > 0 && !Overtaken(max, h', o)
    {
      SubsetSize(Outstanding(h', o), Outstanding(h, o));
      if o in d.vals {
        var i :| 0 <= i < |d.keys| && d.keys[i] == o;
        BehindSize(h, d.keys, i);
      }
    }
  }

  lemma {:induction false} SucceedInv(max: nat, h: seq<Op>, d: Table, k: Key)
    requires Inv(max, h, d)
    ensures Inv(max, h + [Succeeded(k)], d.Remove(k))
  {
    d.RemoveValid(k);
    SucceedBehind(h, d.keys, k);
    SucceedCounts(max, h, d, k);
    SucceedRemembers(max, h, d, k);
  }

  lemma {:induction false} AfterInv(max: nat, h: seq<Op>)
    ensures Inv(max, h, After(max, h))
  {
    if h != [] {
      var before := h[..|h| - 1];
      assert h == before + [h[|h| - 1]];
      AfterInv(max, before);
      match h[|h| - 1]
      case Opened(k) => OpenInv(max, before, After(max, before), k);
      case Succeeded(k) => SucceedInv(max, before, After(max, before), k);
    }
  }

  /** The bounded counter refines the unbounded one: it never says more, and exactly when it says the same. */
  lemma OpenedRefinesChain(max: nat, h: seq<Op>, k: Key)
    ensures |After(max, h).keys| <= max
    ensures 0 <= NextCount(After(max, h), k) <= Chain(h, k)
    ensures NextCount(After(max, h), k) == Chain(h, k) <==> Undisturbed(max, h + [Opened(k)], k)
  {
    AfterInv(max, h);
    assert (h + [Opened(k)])[..|h|] == h;
    if Chain(h, k) == 0 {
      NoChainUndisturbed(max, h, k);
    }
  }

  /** Exactly when an opening is reported as a first attempt: no chain is running, or `max` others have overtaken it. */
  lemma FirstAttemptIff(max: nat, h: seq<Op>, k: Key)
    ensures NextCount(After(max, h), k) == 0 <==> Chain(h, k) == 0 || Overtaken(max, h, k)
  {
    AfterInv(max, h);
  }

  // ---- The object ----

  class RetryTracker {
    const maxEntries: nat
    var attempts: Table
    /** Every call made so far. */
    ghost var history: seq<Op>

    ghost predicate Valid()
      reads this
    {
      attempts == After(maxEntries, history)
    }

    /** The original raises ValueError for a bound below 1. */
    constructor (maxEntries: nat)
      requires maxEntries >= 1
      ensures Valid() && history == [] && this.maxEntries == maxEntries
    {
      this.maxEntries := maxEntries;
      attempts := Empty();
      history := [];
    }

    method Open(spanId: Option<string>, tool: string, callId: Option<string>) returns (count: int)
      requires Valid()
      modifies this
      ensures Valid() && history == old(history) + [Opened(KeyOf(spanId, tool, callId))]
      ensures 0 <= count <= Chain(old(history), KeyOf(spanId, tool, callId))
      ensures count == Chain(old(history), KeyOf(spanId, tool, callId)) <==>
              Undisturbed(maxEntries, history, KeyOf(spanId, tool, callId))
    {
      var k := KeyOf(spanId, tool, callId);
      OpenedRefinesChain(maxEntries, history, k);
      count := attempts.Get(k, -1) + 1;
      attempts := attempts.Put(k, count);
      attempts := attempts.MoveToEnd(k);
      while |attempts.keys| > maxEntries
        invariant attempts.TrimTo(maxEntries) == Apply(maxEntries, After(maxEntries, history), Opened(k))
        invariant history == old(history)
        decreases |attempts.keys|
      {
        attempts := attempts.PopFirst();
      }
      assert (history + [Opened(k)])[..|history|] == history;
      history := history + [Opened(k)];
    }

    method Succeed(spanId: Option<string>, tool: string, callId: Option<string>)
      requires Valid()
      modifies this
      ensures Valid() && history == old(history) + [Succeeded(KeyOf(spanId, tool, callId))]
    {
      var k := KeyOf(spanId, tool, callId);
      attempts := attempts.Remove(k);
      assert (history + [Succeeded(k)])[..|history|] == history;
      history := history + [Succeeded(k)];
    }
  }
}
