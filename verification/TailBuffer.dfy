/**
  The bounded per-run buffer shared by the flight recorder and the tail-based sampler
  (logquill/plugins/flight_recorder_plugin.py:91-115, logquill/plugins/sampling_plugin.py:102-126): an ordered
  dictionary of record lists, least recently buffered run first.

  `State.log` is the history of what happened to each record. It is the reference the buffer is compared with: what
  a run holds (`Tail`), when it was last added to (`LastStored`), which runs are held (`Held`), and whether every
  eviction was called for (`Justified`) are all functions of the history alone.
 */
module TailBuffer {
  import opened OrderedDicts

  datatype Event<K, R> =
    | Passed(record: R)
    | Dropped(record: R)
    | Stored(key: K, record: R)
    | Evicted(key: K, records: seq<R>)
    | Shipped(key: K, records: seq<R>)

  /** What a plugin hook comes to: a record or none is returned, or the eviction finds nothing to evict. */
  datatype Outcome<R> = Returned(record: Option<R>) | KeyError

  datatype Caps = Caps(maxRecords: int, maxRuns: int)

  datatype State<K(==,!new), R> = State(
    buffer: OrderedDict<K, seq<R>>,
    count: int,
    done: set<K>,              // runs that were flushed; everything of theirs passes from then on
    log: seq<Event<K, R>>)

  function Initial<K(==,!new), R>(): State<K, R> {
    State(Empty(), 0, {}, [])
  }

  function Note<K(==,!new), R>(s: State<K, R>, e: Event<K, R>): State<K, R> {
    s.(log := s.log + [e])
  }

  /** `popitem(last=False)`: the oldest run is lost. */
  function EvictOldest<K(==,!new), R>(s: State<K, R>): State<K, R>
    requires s.buffer.keys != []
  {
    var k := s.buffer.keys[0];
    var lost := s.buffer.Get(k, []);
    State(s.buffer.PopFirst(), s.count - |lost|, s.done, s.log + [Evicted(k, lost)])
  }

  function Trim<K(==,!new), R>(caps: Caps, s: State<K, R>): State<K, R>
    decreases |s.buffer.keys|
  {
    if s.count > caps.maxRecords && s.buffer.keys != [] then Trim(caps, EvictOldest(s)) else s
  }

  /** Room for run `k`: a known run becomes the most recent one, a new run may push the oldest out. */
  function MakeRoom<K(==,!new), R>(caps: Caps, s: State<K, R>, k: K): State<K, R>
    requires caps.maxRuns >= 1
  {
    if k in s.buffer.vals then s.(buffer := s.buffer.MoveToEnd(k))
    else if |s.buffer.keys| >= caps.maxRuns then EvictOldest(s)
    else s
  }

  function Add<K(==,!new), R>(s: State<K, R>, k: K, r: R): State<K, R> {
    State(s.buffer.Put(k, s.buffer.Get(k, []) + [r]), s.count + 1, s.done, s.log + [Stored(k, r)])
  }

  function Store<K(==,!new), R>(caps: Caps, s: State<K, R>, k: K, r: R): State<K, R>
    requires caps.maxRuns >= 1
  {
    Trim(caps, Add(MakeRoom(caps, s, k), k, r))
  }

  /** Everything buffered for `k` goes to the sinks; the run is done. */
  function Flush<K(==,!new), R>(s: State<K, R>, k: K): State<K, R> {
    var held := s.buffer.Get(k, []);
    State(s.buffer.Remove(k), s.count - |held|, s.done + {k}, s.log + [Shipped(k, held)])
  }

  // ---- Functions of the history ----

  function DropLast<T>(s: seq<T>): seq<T>
    requires s != []
  {
    s[..|s| - 1]
  }

  function Last<T>(s: seq<T>): T
    requires s != []
  {
    s[|s| - 1]
  }

  /** The records of run `k` stored since the run was last evicted or shipped, in order of arrival. */
  function Tail<K(==), R>(log: seq<Event<K, R>>, k: K): seq<R> {
    if log == [] then []
    else match Last(log)
      case Stored(key, r) => Tail(DropLast(log), k) + if key == k then [r] else []
      case Evicted(key, _) => if key == k then [] else Tail(DropLast(log), k)
      case Shipped(key, _) => if key == k then [] else Tail(DropLast(log), k)
      case _ => Tail(DropLast(log), k)
  }

  /** When a record of `k` was last stored, or -1. */
  function LastStored<K(==), R>(log: seq<Event<K, R>>, k: K): int {
    if log == [] then -1
    else if Last(log).Stored? && Last(log).key == k then |log| - 1
    else LastStored(DropLast(log), k)
  }

  /** The runs held after the events of `log`. */
  function Held<K(==), R>(log: seq<Event<K, R>>): set<K> {
    if log == [] then {}
    else match Last(log)
      case Stored(key, _) => Held(DropLast(log)) + {key}
      case Evicted(key, _) => Held(DropLast(log)) - {key}
      case Shipped(key, _) => Held(DropLast(log)) - {key}
      case _ => Held(DropLast(log))
  }

  /** The runs that were shipped. */
  function ShippedRuns<K(==), R>(log: seq<Event<K, R>>): set<K> {
    if log == [] then {} else ShippedRuns(DropLast(log)) + if Last(log).Shipped? then {Last(log).key} else {}
  }

  /** How many records are held after the events of `log`. */
  function HeldCount<K(==), R>(log: seq<Event<K, R>>): int {
    if log == [] then 0
    else match Last(log)
      case Stored(_, _) => HeldCount(DropLast(log)) + 1
      case Evicted(_, records) => HeldCount(DropLast(log)) - |records|
      case Shipped(_, records) => HeldCount(DropLast(log)) - |records|
      case _ => HeldCount(DropLast(log))
  }

  /** The records that came in. */
  ghost function Arrived<K, R>(log: seq<Event<K, R>>): multiset<R> {
    if log == [] then multiset{}
    else Arrived(DropLast(log)) + match Last(log)
      case Passed(r) => multiset{r}
      case Dropped(r) => multiset{r}
      case Stored(_, r) => multiset{r}
      case _ => multiset{}
  }

  ghost function PassedOf<K, R>(log: seq<Event<K, R>>): multiset<R> {
    if log == [] then multiset{} else PassedOf(DropLast(log)) + if Last(log).Passed? then multiset{Last(log).record} else multiset{}
  }

  ghost function DroppedOf<K, R>(log: seq<Event<K, R>>): multiset<R> {
    if log == [] then multiset{} else DroppedOf(DropLast(log)) + if Last(log).Dropped? then multiset{Last(log).record} else multiset{}
  }

  ghost function ShippedOf<K, R>(log: seq<Event<K, R>>): multiset<R> {
    if log == [] then multiset{} else ShippedOf(DropLast(log)) + if Last(log).Shipped? then multiset(Last(log).records) else multiset{}
  }

  ghost function EvictedOf<K, R>(log: seq<Event<K, R>>): multiset<R> {
    if log == [] then multiset{} else EvictedOf(DropLast(log)) + if Last(log).Evicted? then multiset(Last(log).records) else multiset{}
  }

  /** A shipped or evicted run gives up exactly its tail. */
  ghost predicate Exact<K(!new), R>(log: seq<Event<K, R>>) {
    forall p :: 0 <= p < |log| ==>
      (log[p].Evicted? || log[p].Shipped? ==> log[p].records == Tail(log[..p], log[p].key))
  }

  /** At position `p` the least recently stored of the held runs is evicted, because a cap would be exceeded. */
  ghost predicate JustifiedAt<K(!new), R>(caps: Caps, log: seq<Event<K, R>>, p: nat)
    requires p < |log| && log[p].Evicted?
  {
    var before := log[..p];
    var k := log[p].key;
    && k in Held(before)
    && (forall other :: other in Held(before) && other != k ==> LastStored(before, k) < LastStored(before, other))
    && (|| HeldCount(before) > caps.maxRecords
        || (|Held(before)| >= caps.maxRuns && p + 1 < |log| && log[p + 1].Stored? && log[p + 1].key !in Held(before)))
  }

  ghost predicate Justified<K(!new), R>(caps: Caps, log: seq<Event<K, R>>) {
    forall p :: 0 <= p < |log| && log[p].Evicted? ==> JustifiedAt(caps, log, p)
  }

  /** Once a run has been shipped nothing of it is stored, and it is shipped only once. */
  ghost predicate DoneStays<K(!new), R>(log: seq<Event<K, R>>, done: set<K>) {
    && (forall p :: 0 <= p < |log| && log[p].Shipped? ==> log[p].key in done)
    && (forall p, q :: 0 <= p < q < |log| && log[p].Shipped? && (log[q].Stored? || log[q].Shipped?) ==> log[q].key != log[p].key)
  }

  // ---- The invariant ----

  /** The lists of a dictionary, one after another. */
  function Contents<K(==,!new), R>(keys: seq<K>, vals: map<K, seq<R>>): seq<R> {
    if keys == [] then [] else (if keys[0] in vals then vals[keys[0]] else []) + Contents(keys[1..], vals)
  }

  /** Each run holds exactly its tail. */
  ghost predicate TailsHeld<K(!new), R>(d: OrderedDict<K, seq<R>>, log: seq<Event<K, R>>) {
    && d.vals.Keys == Held(log)
    && (forall k :: d.Get(k, []) == Tail(log, k))
    && (forall k :: k in d.vals ==> d.vals[k] != [])
  }

  /** The runs stand in the order in which they were last added to. */
  ghost predicate Recency<K(!new), R>(keys: seq<K>, log: seq<Event<K, R>>) {
    && (forall i, j :: 0 <= i < j < |keys| ==> LastStored(log, keys[i]) < LastStored(log, keys[j]))
    && (forall k :: LastStored(log, k) < |log|)
  }

  /** The dictionary, the count and the history tell the same story. */
  ghost predicate Agrees<K(!new), R>(s: State<K, R>) {
    && s.buffer.Valid()
    && s.count == |Contents(s.buffer.keys, s.buffer.vals)| == HeldCount(s.log)
    && TailsHeld(s.buffer, s.log)
    && Recency(s.buffer.keys, s.log)
  }

  ghost predicate Conserves<K(!new), R>(s: State<K, R>) {
    Arrived(s.log) ==
      PassedOf(s.log) + DroppedOf(s.log) + ShippedOf(s.log) + EvictedOf(s.log) + multiset(Contents(s.buffer.keys, s.buffer.vals))
  }

  ghost predicate Core<K(!new), R>(s: State<K, R>) {
    && Agrees(s)
    && Conserves(s)
    && Exact(s.log)
    && DoneStays(s.log, s.done)
    && (forall k :: k in s.done ==> k !in s.buffer.vals)
  }

  ghost predicate Inv<K(!new), R>(caps: Caps, s: State<K, R>) {
    Core(s) && Justified(caps, s.log)
  }

  /** Within the caps, as it is between calls. */
  ghost predicate Within<K(!new), R>(caps: Caps, s: State<K, R>) {
    |s.buffer.keys| <= caps.maxRuns && (s.count <= caps.maxRecords || s.buffer.keys == [])
  }

  lemma InitialInv<K(!new), R>(caps: Caps)
    ensures Inv<K, R>(caps, Initial())
  {
  }

  // ---- Contents of the dictionary ----

  lemma {:induction false} ContentsAgree<K(!new), R>(keys: seq<K>, v: map<K, seq<R>>, w: map<K, seq<R>>)
    requires forall k :: k in keys ==> (k in v <==> k in w) && (k in v ==> v[k] == w[k])
    ensures Contents(keys, v) == Contents(keys, w)
  {
    if keys != [] {
      assert keys[0] in keys;
      ContentsAgree(keys[1..], v, w);
    }
  }

  lemma {:induction false} ContentsConcat<K(!new), R>(a: seq<K>, b: seq<K>, v: map<K, seq<R>>)
    ensures Contents(a + b, v) == Contents(a, v) + Contents(b, v)
  {
    if a == [] {
      assert a + b == b;
    } else {
      assert (a + b)[1..] == a[1..] + b;
      ContentsConcat(a[1..], b, v);
    }
  }

  lemma {:induction false} ContentsWithout<K(!new), R>(keys: seq<K>, v: map<K, seq<R>>, k: K)
    requires Distinct(keys) && k in keys && k in v
    ensures multiset(Contents(keys, v)) == multiset(Contents(Without(keys, k), v)) + multiset(v[k])
    ensures |Contents(keys, v)| == |Contents(Without(keys, k), v)| + |v[k]|
  {
    assert keys == [keys[0]] + keys[1..];
    if keys[0] == k {
      assert k !in keys[1..];
    } else {
      ContentsWithout(keys[1..], v, k);
    }
  }

  lemma ContentsRemove<K(!new), R>(d: OrderedDict<K, seq<R>>, k: K)
    requires d.Valid()
    ensures var d' := d.Remove(k);
            && multiset(Contents(d.keys, d.vals)) == multiset(Contents(d'.keys, d'.vals)) + multiset(d.Get(k, []))
            && |Contents(d.keys, d.vals)| == |Contents(d'.keys, d'.vals)| + |d.Get(k, [])|
  {
    var d' := d.Remove(k);
    ContentsAgree(d'.keys, d.vals, d'.vals);
    if k in d.vals {
      ContentsWithout(d.keys, d.vals, k);
    }
  }

  lemma PopFirstIsRemove<K(!new), R>(d: OrderedDict<K, seq<R>>)
    requires d.Valid() && d.keys != []
    ensures d.PopFirst() == d.Remove(d.keys[0])
  {
    assert d.keys == [d.keys[0]] + d.keys[1..];
    assert d.keys[0] !in d.keys[1..];
  }

  /** `k` with one more record, as the most recent run. */
  function Touched<K(==,!new), R>(d: OrderedDict<K, seq<R>>, k: K, r: R): OrderedDict<K, seq<R>> {
    OrderedDict(Without(d.keys, k) + [k], d.vals[k := d.Get(k, []) + [r]])
  }

  lemma TouchedValid<K(!new), R>(d: OrderedDict<K, seq<R>>, k: K, r: R)
    requires d.Valid()
    ensures Touched(d, k, r).Valid()
    ensures |Touched(d, k, r).keys| == |d.keys| + if k in d.vals then 0 else 1
  {
    WithoutDistinct(d.keys, k);
  }

  lemma TouchedRest<K(!new), R>(d: OrderedDict<K, seq<R>>, k: K, r: R)
    requires d.Valid()
    ensures Touched(d, k, r).Remove(k) == d.Remove(k)
  {
    WithoutConcat(Without(d.keys, k), [k], k);
    assert Without([k], k) == [];
    assert Without(Without(d.keys, k), k) == Without(d.keys, k);
    assert d.vals[k := d.Get(k, []) + [r]] - {k} == d.vals - {k};
  }

  lemma ContentsTouched<K(!new), R>(d: OrderedDict<K, seq<R>>, k: K, r: R)
    requires d.Valid()
    ensures var d' := Touched(d, k, r);
            && multiset(Contents(d'.keys, d'.vals)) == multiset(Contents(d.keys, d.vals)) + multiset{r}
            && |Contents(d'.keys, d'.vals)| == |Contents(d.keys, d.vals)| + 1
  {
    TouchedValid(d, k, r);
    TouchedRest(d, k, r);
    ContentsRemove(d, k);
    ContentsRemove(Touched(d, k, r), k);
    assert Touched(d, k, r).Get(k, []) == d.Get(k, []) + [r];
    assert multiset(d.Get(k, []) + [r]) == multiset(d.Get(k, [])) + multiset{r};
  }

  /** Making a run the most recent one and appending to its list. */
  lemma AddTouches<K(!new), R>(s: State<K, R>, k: K, r: R)
    requires s.buffer.Valid()
    ensures var moved := if k in s.buffer.vals then s.(buffer := s.buffer.MoveToEnd(k)) else s;
            Add(moved, k, r) == State(Touched(s.buffer, k, r), s.count + 1, s.done, s.log + [Stored(k, r)])
  {
  }

  // ---- Each event keeps the invariant ----

  lemma LogGrows<K(!new), R>(log: seq<Event<K, R>>, e: Event<K, R>)
    ensures DropLast(log + [e]) == log && Last(log + [e]) == e
    ensures forall p :: 0 <= p < |log| ==> (log + [e])[..p] == log[..p]
    ensures (log + [e])[..|log|] == log
  {
  }

  lemma ExactGrows<K(!new), R>(log: seq<Event<K, R>>, e: Event<K, R>)
    requires Exact(log) && (e.Evicted? || e.Shipped? ==> e.records == Tail(log, e.key))
    ensures Exact(log + [e])
  {
    LogGrows(log, e);
  }

  lemma DoneGrows<K(!new), R>(log: seq<Event<K, R>>, done: set<K>, e: Event<K, R>)
    requires DoneStays(log, done) && (e.Stored? || e.Shipped? ==> e.key !in done)
    ensures DoneStays(log + [e], if e.Shipped? then done + {e.key} else done)
  {
  }

  lemma ConservesGrows<K(!new), R>(s: State<K, R>, s': State<K, R>, e: Event<K, R>)
    requires Conserves(s) && s'.log == s.log + [e]
    requires var before := multiset(Contents(s.buffer.keys, s.buffer.vals));
             var after := multiset(Contents(s'.buffer.keys, s'.buffer.vals));
             match e
             case Stored(_, r) => after == before + multiset{r}
             case Evicted(_, records) => before == after + multiset(records)
             case Shipped(_, records) => before == after + multiset(records)
             case _ => after == before
    ensures Conserves(s')
  {
    LogGrows(s.log, e);
  }

  lemma NoteAgrees<K(!new), R>(s: State<K, R>, e: Event<K, R>)
    requires Agrees(s) && (e.Passed? || e.Dropped?)
    ensures Agrees(Note(s, e))
  {
    LogGrows(s.log, e);
    forall k
      ensures Tail(s.log + [e], k) == Tail(s.log, k) && LastStored(s.log + [e], k) == LastStored(s.log, k)
    {
    }
  }

  lemma NoteCore<K(!new), R>(s: State<K, R>, e: Event<K, R>)
    requires Core(s) && (e.Passed? || e.Dropped?)
    ensures Core(Note(s, e))
  {
    NoteAgrees(s, e);
    ConservesGrows(s, Note(s, e), e);
    ExactGrows(s.log, e);
    DoneGrows(s.log, s.done, e);
  }

  lemma TouchRecency<K(!new), R>(s: State<K, R>, k: K, r: R)
    requires s.buffer.Valid() && Recency(s.buffer.keys, s.log)
    ensures Recency(Touched(s.buffer, k, r).keys, s.log + [Stored(k, r)])
  {
    var keys := Touched(s.buffer, k, r).keys;
    var log := s.log + [Stored(k, r)];
    var rest := Without(s.buffer.keys, k);
    LogGrows(s.log, Stored(k, r));
    forall o
      ensures LastStored(log, o) == if o == k then |s.log| else LastStored(s.log, o)
      ensures LastStored(log, o) < |log|
    {
    }
    forall i, j | 0 <= i < j < |keys|
      ensures LastStored(log, keys[i]) < LastStored(log, keys[j])
    {
      assert keys[i] == rest[i] && rest[i] in rest;
      if j < |rest| {
        var i', j' := WithoutKeepsOrder(s.buffer.keys, k, i, j);
        assert keys[j] == rest[j] && rest[j] in rest;
      } else {
        assert keys[j] == k;
      }
    }
  }

  lemma TouchTails<K(!new), R>(s: State<K, R>, k: K, r: R)
    requires TailsHeld(s.buffer, s.log)
    ensures TailsHeld(Touched(s.buffer, k, r), s.log + [Stored(k, r)])
  {
    LogGrows(s.log, Stored(k, r));
    forall o
      ensures Touched(s.buffer, k, r).Get(o, []) == Tail(s.log + [Stored(k, r)], o)
    {
      assert s.buffer.Get(o, []) == Tail(s.log, o);
    }
  }

  lemma TouchAgrees<K(!new), R>(s: State<K, R>, k: K, r: R)
    requires Agrees(s)
    ensures Agrees(State(Touched(s.buffer, k, r), s.count + 1, s.done, s.log + [Stored(k, r)]))
  {
    LogGrows(s.log, Stored(k, r));
    TouchedValid(s.buffer, k, r);
    ContentsTouched(s.buffer, k, r);
    TouchRecency(s, k, r);
    TouchTails(s, k, r);
  }

  /** A record is buffered. */
  lemma TouchCore<K(!new), R>(s: State<K, R>, k: K, r: R)
    requires Core(s) && k !in s.done
    ensures Core(State(Touched(s.buffer, k, r), s.count + 1, s.done, s.log + [Stored(k, r)]))
  {
    var s' := State(Touched(s.buffer, k, r), s.count + 1, s.done, s.log + [Stored(k, r)]);
    TouchAgrees(s, k, r);
    ContentsTouched(s.buffer, k, r);
    ConservesGrows(s, s', Stored(k, r));
    ExactGrows(s.log, Stored(k, r));
    DoneGrows(s.log, s.done, Stored(k, r));
  }

  lemma RemoveRecency<K(!new), R>(s: State<K, R>, k: K, e: Event<K, R>)
    requires Recency(s.buffer.keys, s.log) && (e.Evicted? || e.Shipped?)
    ensures Recency(Without(s.buffer.keys, k), s.log + [e])
  {
    var keys := Without(s.buffer.keys, k);
    LogGrows(s.log, e);
    forall o
      ensures LastStored(s.log + [e], o) == LastStored(s.log, o)
    {
    }
    forall i, j | 0 <= i < j < |keys|
      ensures LastStored(s.log, keys[i]) < LastStored(s.log, keys[j])
    {
      var i', j' := WithoutKeepsOrder(s.buffer.keys, k, i, j);
    }
  }

  lemma RemoveTails<K(!new), R>(s: State<K, R>, k: K, e: Event<K, R>)
    requires TailsHeld(s.buffer, s.log) && (e.Evicted? || e.Shipped?) && e.key == k
    ensures TailsHeld(s.buffer.Remove(k), s.log + [e])
  {
    LogGrows(s.log, e);
    forall o
      ensures s.buffer.Remove(k).Get(o, []) == Tail(s.log + [e], o)
    {
      assert s.buffer.Get(o, []) == Tail(s.log, o);
    }
  }

  lemma RemoveCount<K(!new), R>(s: State<K, R>, k: K, e: Event<K, R>)
    requires s.buffer.Valid() && s.count == |Contents(s.buffer.keys, s.buffer.vals)| == HeldCount(s.log)
    requires (e.Evicted? || e.Shipped?) && e.records == s.buffer.Get(k, [])
    ensures var d := s.buffer.Remove(k);
            s.count - |s.buffer.Get(k, [])| == |Contents(d.keys, d.vals)| == HeldCount(s.log + [e])
  {
    LogGrows(s.log, e);
    ContentsRemove(s.buffer, k);
  }

  lemma RemoveAgrees<K(!new), R>(s: State<K, R>, k: K, e: Event<K, R>, done: set<K>)
    requires Agrees(s)
    requires (e.Evicted? || e.Shipped?) && e.key == k && e.records == s.buffer.Get(k, [])
    ensures Agrees(State(s.buffer.Remove(k), s.count - |s.buffer.Get(k, [])|, done, s.log + [e]))
  {
    s.buffer.RemoveValid(k);
    RemoveCount(s, k, e);
    RemoveRecency(s, k, e);
    RemoveTails(s, k, e);
  }

  /** A run leaves the buffer, evicted or shipped. */
  lemma RemoveCore<K(!new), R>(s: State<K, R>, k: K, e: Event<K, R>)
    requires Core(s)
    requires (e.Evicted? || e.Shipped?) && e.key == k && e.records == s.buffer.Get(k, [])
    requires e.Shipped? ==> k !in s.done
    ensures var done := if e.Shipped? then s.done + {k} else s.done;
            Core(State(s.buffer.Remove(k), s.count - |s.buffer.Get(k, [])|, done, s.log + [e]))
  {
    var done := if e.Shipped? then s.done + {k} else s.done;
    var s' := State(s.buffer.Remove(k), s.count - |s.buffer.Get(k, [])|, done, s.log + [e]);
    RemoveAgrees(s, k, e, done);
    ContentsRemove(s.buffer, k);
    ConservesGrows(s, s', e);
    ExactGrows(s.log, e);
    DoneGrows(s.log, s.done, e);
  }

  // ---- Why a run is evicted ----

  lemma JustifiedPrefix<K(!new), R>(caps: Caps, log: seq<Event<K, R>>, more: seq<Event<K, R>>, p: nat)
    requires p < |log| && log[p].Evicted? && JustifiedAt(caps, log, p)
    ensures JustifiedAt(caps, log + more, p)
  {
    assert (log + more)[..p] == log[..p];
  }

  lemma JustifiedGrows<K(!new), R>(caps: Caps, log: seq<Event<K, R>>, e: Event<K, R>)
    requires Justified(caps, log) && (e.Evicted? ==> JustifiedAt(caps, log + [e], |log|))
    ensures Justified(caps, log + [e])
  {
    forall p | 0 <= p < |log + [e]| && (log + [e])[p].Evicted?
      ensures JustifiedAt(caps, log + [e], p)
    {
      if p < |log| {
        JustifiedPrefix(caps, log, [e], p);
      }
    }
  }

  /** The first key is the least recently stored of the runs held. */
  lemma {:induction false} OldestFirst<K(!new), R>(s: State<K, R>, other: K)
    requires Agrees(s) && s.buffer.keys != [] && other in Held(s.log) && other != s.buffer.keys[0]
    ensures LastStored(s.log, s.buffer.keys[0]) < LastStored(s.log, other)
  {
    assert other in s.buffer.keys;
    var j :| 0 <= j < |s.buffer.keys| && s.buffer.keys[j] == other;
  }

  lemma EvictCore<K(!new), R>(s: State<K, R>)
    requires Core(s) && s.buffer.keys != []
    ensures Core(EvictOldest(s))
    ensures |EvictOldest(s).buffer.keys| == |s.buffer.keys| - 1
  {
    var k := s.buffer.keys[0];
    PopFirstIsRemove(s.buffer);
    RemoveCore(s, k, Evicted(k, s.buffer.Get(k, [])));
  }

  lemma EvictJustified<K(!new), R>(caps: Caps, s: State<K, R>)
    requires Core(s) && s.buffer.keys != [] && s.count > caps.maxRecords
    ensures JustifiedAt(caps, EvictOldest(s).log, |s.log|)
  {
    var k := s.buffer.keys[0];
    LogGrows(s.log, Evicted(k, s.buffer.Get(k, [])));
    assert k in s.buffer.keys;
    forall other | other in Held(s.log) && other != k
      ensures LastStored(s.log, k) < LastStored(s.log, other)
    {
      OldestFirst(s, other);
    }
  }

  lemma {:induction false} TrimInv<K(!new), R>(caps: Caps, s: State<K, R>)
    requires Inv(caps, s)
    ensures var s' := Trim(caps, s);
            && Inv(caps, s')
            && |s'.buffer.keys| <= |s.buffer.keys|
            && (s'.count <= caps.maxRecords || s'.buffer.keys == [])
            && s'.done == s.done
    decreases |s.buffer.keys|
  {
    if s.count > caps.maxRecords && s.buffer.keys != [] {
      EvictCore(s);
      EvictJustified(caps, s);
      JustifiedGrows(caps, s.log, EvictOldest(s).log[|s.log|]);
      TrimInv(caps, EvictOldest(s));
    }
  }

  /** A new run pushes the oldest one out. */
  lemma RoomInv<K(!new), R>(caps: Caps, s: State<K, R>, k: K, r: R)
    requires Inv(caps, s) && caps.maxRuns >= 1 && |s.buffer.keys| == caps.maxRuns && k !in s.buffer.vals && k !in s.done
    ensures var s' := Add(EvictOldest(s), k, r);
            && Inv(caps, s') && |s'.buffer.keys| == caps.maxRuns && s'.done == s.done
  {
    var s1 := EvictOldest(s);
    EvictCore(s);
    PopFirstIsRemove(s.buffer);
    AddTouches(s1, k, r);
    TouchCore(s1, k, r);
    TouchedValid(s1.buffer, k, r);
    RoomJustified(caps, s, k, r);
  }

  lemma RoomJustified<K(!new), R>(caps: Caps, s: State<K, R>, k: K, r: R)
    requires Inv(caps, s) && |s.buffer.keys| == caps.maxRuns >= 1 && k !in s.buffer.vals
    ensures Justified(caps, Add(EvictOldest(s), k, r).log)
  {
    var v := s.buffer.keys[0];
    var more := [Evicted(v, s.buffer.Get(v, [])), Stored(k, r)];
    assert Add(EvictOldest(s), k, r).log == s.log + more;
    RoomJustifiedAt(caps, s, v, more);
    forall p | 0 <= p < |s.log + more| && (s.log + more)[p].Evicted?
      ensures JustifiedAt(caps, s.log + more, p)
    {
      if p < |s.log| {
        JustifiedPrefix(caps, s.log, more, p);
      }
    }
  }

  lemma RoomJustifiedAt<K(!new), R>(caps: Caps, s: State<K, R>, v: K, more: seq<Event<K, R>>)
    requires Agrees(s) && |s.buffer.keys| == caps.maxRuns >= 1 && v == s.buffer.keys[0]
    requires |more| == 2 && more[0].Evicted? && more[0].key == v && more[1].Stored? && more[1].key !in s.buffer.vals
    ensures JustifiedAt(caps, s.log + more, |s.log|)
  {
    assert (s.log + more)[..|s.log|] == s.log;
    assert v in s.buffer.keys;
    HeldSize(s);
    forall other | other in Held(s.log) && other != v
      ensures LastStored(s.log, v) < LastStored(s.log, other)
    {
      OldestFirst(s, other);
    }
  }

  lemma HeldSize<K(!new), R>(s: State<K, R>)
    requires Agrees(s)
    ensures |Held(s.log)| == |s.buffer.keys|
  {
    DistinctSetSize(s.buffer.keys, Held(s.log));
  }

  // ---- The two operations ----

  lemma StoreInv<K(!new), R>(caps: Caps, s: State<K, R>, k: K, r: R)
    requires caps.maxRuns >= 1 && Inv(caps, s) && Within(caps, s) && k !in s.done
    ensures Inv(caps, Store(caps, s, k, r)) && Within(caps, Store(caps, s, k, r)) && Store(caps, s, k, r).done == s.done
  {
    if k !in s.buffer.vals && |s.buffer.keys| >= caps.maxRuns {
      RoomInv(caps, s, k, r);
    } else {
      AddTouches(s, k, r);
      TouchCore(s, k, r);
      TouchedValid(s.buffer, k, r);
      JustifiedGrows(caps, s.log, Stored(k, r));
    }
    TrimInv(caps, Add(MakeRoom(caps, s, k), k, r));
  }

  lemma {:induction false} FlushInv<K(!new), R>(caps: Caps, s: State<K, R>, k: K)
    requires Inv(caps, s) && Within(caps, s) && k !in s.done
    ensures Inv(caps, Flush(s, k)) && Within(caps, Flush(s, k))
  {
    var e := Shipped(k, s.buffer.Get(k, []));
    RemoveCore(s, k, e);
    JustifiedGrows(caps, s.log, e);
    s.buffer.RemoveValid(k);
  }

  lemma {:induction false} NoteInv<K(!new), R>(caps: Caps, s: State<K, R>, e: Event<K, R>)
    requires Inv(caps, s) && Within(caps, s) && (e.Passed? || e.Dropped?)
    ensures Inv(caps, Note(s, e)) && Within(caps, Note(s, e))
  {
    NoteCore(s, e);
    JustifiedGrows(caps, s.log, e);
  }

  // ---- Evictions add nothing to what arrives ----

  lemma {:induction false} TrimArrived<K(!new), R>(caps: Caps, s: State<K, R>)
    ensures Arrived(Trim(caps, s).log) == Arrived(s.log)
    decreases |s.buffer.keys|
  {
    if s.count > caps.maxRecords && s.buffer.keys != [] {
      LogGrows(s.log, EvictOldest(s).log[|s.log|]);
      TrimArrived(caps, EvictOldest(s));
    }
  }

  lemma NoteArrived<K(!new), R>(s: State<K, R>, r: R)
    ensures Arrived(Note(s, Passed(r)).log) == Arrived(s.log) + multiset{r}
    ensures Arrived(Note(s, Dropped(r)).log) == Arrived(s.log) + multiset{r}
  {
    LogGrows(s.log, Passed(r));
    LogGrows(s.log, Dropped(r));
  }

  lemma FlushArrived<K(!new), R>(s: State<K, R>, k: K)
    ensures Arrived(Flush(s, k).log) == Arrived(s.log)
  {
    LogGrows(s.log, Shipped(k, s.buffer.Get(k, [])));
  }

  lemma StoreArrived<K(!new), R>(caps: Caps, s: State<K, R>, k: K, r: R)
    requires caps.maxRuns >= 1
    ensures Arrived(Store(caps, s, k, r).log) == Arrived(s.log) + multiset{r}
  {
    var room := MakeRoom(caps, s, k);
    if room.log != s.log {
      LogGrows(s.log, room.log[|s.log|]);
    }
    LogGrows(room.log, Stored(k, r));
    TrimArrived(caps, Add(room, k, r));
  }

  /** Whether some record of `k` was lost. */
  ghost predicate EverEvicted<K(!new), R>(log: seq<Event<K, R>>, k: K) {
    exists p :: 0 <= p < |log| && log[p].Evicted? && log[p].key == k
  }

  /** Storing under `k` leaves every other unevicted run's tail alone and extends that of `k`, unless it is evicted. */
  lemma {:induction false} TrimTail<K(!new), R>(caps: Caps, s: State<K, R>, o: K)
    ensures var log := Trim(caps, s).log;
            s.log <= log && (!EverEvicted(log, o) ==> !EverEvicted(s.log, o) && Tail(log, o) == Tail(s.log, o))
    decreases |s.buffer.keys|
  {
    if s.count > caps.maxRecords && s.buffer.keys != [] {
      var s1 := EvictOldest(s);
      LogGrows(s.log, s1.log[|s.log|]);
      TrimTail(caps, s1, o);
      if !EverEvicted(s1.log, o) {
        UnevictedStep(s.log, s1.log[|s.log|], o);
      }
    }
  }

  lemma {:induction false} UnevictedStep<K(!new), R>(log: seq<Event<K, R>>, e: Event<K, R>, o: K)
    requires !EverEvicted(log + [e], o)
    ensures !EverEvicted(log, o)
    ensures Tail(log + [e], o) ==
            if e.Stored? && e.key == o then Tail(log, o) + [e.record]
            else if e.Shipped? && e.key == o then [] else Tail(log, o)
  {
    LogGrows(log, e);
    assert (log + [e])[|log|] == e;
    assert forall p :: 0 <= p < |log| ==> (log + [e])[p] == log[p];
  }

  lemma {:induction false} StoreTail<K(!new), R>(caps: Caps, s: State<K, R>, k: K, r: R, o: K)
    requires caps.maxRuns >= 1 && !EverEvicted(Store(caps, s, k, r).log, o)
    ensures !EverEvicted(s.log, o)
    ensures Tail(Store(caps, s, k, r).log, o) == Tail(s.log, o) + if o == k then [r] else []
  {
    var room := MakeRoom(caps, s, k);
    TrimTail(caps, Add(room, k, r), o);
    UnevictedStep(room.log, Stored(k, r), o);
    if room.log != s.log {
      UnevictedStep(s.log, room.log[|s.log|], o);
    }
  }

  lemma {:induction false} StoreDone<K(!new), R>(caps: Caps, s: State<K, R>, k: K, r: R)
    requires caps.maxRuns >= 1
    ensures Store(caps, s, k, r).done == s.done && ShippedRuns(Store(caps, s, k, r).log) == ShippedRuns(s.log)
  {
    var room := MakeRoom(caps, s, k);
    if room.log != s.log {
      LogGrows(s.log, room.log[|s.log|]);
    }
    LogGrows(room.log, Stored(k, r));
    TrimDone(caps, Add(room, k, r));
  }

  lemma {:induction false} TrimDone<K(!new), R>(caps: Caps, s: State<K, R>)
    ensures Trim(caps, s).done == s.done && ShippedRuns(Trim(caps, s).log) == ShippedRuns(s.log)
    decreases |s.buffer.keys|
  {
    if s.count > caps.maxRecords && s.buffer.keys != [] {
      LogGrows(s.log, EvictOldest(s).log[|s.log|]);
      TrimDone(caps, EvictOldest(s));
    }
  }

  /** Anything of run `k` was written to the transports because the run was flushed. */
  ghost predicate EverShipped<K(!new), R>(log: seq<Event<K, R>>, k: K) {
    exists p :: 0 <= p < |log| && log[p].Shipped? && log[p].key == k
  }

  lemma {:induction false} ShippedRunsMeaning<K(!new), R>(log: seq<Event<K, R>>, k: K)
    ensures k in ShippedRuns(log) <==> EverShipped(log, k)
  {
    if log != [] {
      ShippedRunsMeaning(DropLast(log), k);
      if EverShipped(DropLast(log), k) {
        var p :| 0 <= p < |log| - 1 && log[p].Shipped? && log[p].key == k;
      }
    }
  }

  lemma OnlyShipment<K(!new), R>(log: seq<Event<K, R>>, done: set<K>, at: nat, k: K)
    requires DoneStays(log, done) && at < |log| && log[at].Shipped? && log[at].key == k
    ensures forall p :: 0 <= p < |log| && log[p].Shipped? && log[p].key == k ==> p == at
  {
  }

  /** Two events at the end of a history stand there in every longer one. */
  lemma StillThere<K(!new), R>(before: seq<Event<K, R>>, e: Event<K, R>, f: Event<K, R>, log: seq<Event<K, R>>)
    requires before + [e, f] <= log
    ensures |log| >= |before| + 2 && log[|before|] == e && log[|before| + 1] == f
  {
  }

  // ---- A buffer that has always had room ----

  /** At most `n` records of the given runs came in to be held, and none was lost. */
  ghost predicate Roomy<K(!new), R>(s: State<K, R>, runs: set<K>, n: nat) {
    && s.buffer.Valid() && s.buffer.vals.Keys <= runs && s.count <= n
    && forall p :: 0 <= p < |s.log| ==> !s.log[p].Evicted?
  }

  lemma {:induction false} RoomyStore<K(!new), R>(caps: Caps, s: State<K, R>, k: K, r: R, runs: set<K>, n: nat)
    requires Roomy(s, runs, n) && |runs + {k}| <= caps.maxRuns && n + 1 <= caps.maxRecords
    requires caps.maxRuns >= 1
    ensures Roomy(Store(caps, s, k, r), runs + {k}, n + 1)
  {
    if k !in s.buffer.vals {
      DistinctSize(s.buffer.keys + [k], runs + {k});
    }
    AddTouches(s, k, r);
    TouchedValid(s.buffer, k, r);
  }

  lemma {:induction false} NoneEvicted<K, R>(log: seq<Event<K, R>>)
    requires forall p :: 0 <= p < |log| ==> !log[p].Evicted?
    ensures EvictedOf(log) == multiset{}
  {
    if log != [] {
      NoneEvicted(DropLast(log));
    }
  }

  lemma RoomyNote<K(!new), R>(s: State<K, R>, e: Event<K, R>, runs: set<K>, n: nat)
    requires Roomy(s, runs, n) && !e.Evicted?
    ensures Roomy(Note(s, e), runs, n)
  {
  }

  lemma {:induction false} RoomyFlush<K(!new), R>(s: State<K, R>, k: K, runs: set<K>, n: nat)
    requires Roomy(s, runs, n)
    ensures Roomy(Flush(s, k), runs, n)
  {
    s.buffer.RemoveValid(k);
  }

  lemma {:induction false} TrimPasses<K(!new), R>(caps: Caps, s: State<K, R>)
    ensures PassedOf(Trim(caps, s).log) == PassedOf(s.log) && DroppedOf(Trim(caps, s).log) == DroppedOf(s.log)
    decreases |s.buffer.keys|
  {
    if s.count > caps.maxRecords && s.buffer.keys != [] {
      LogGrows(s.log, EvictOldest(s).log[|s.log|]);
      TrimPasses(caps, EvictOldest(s));
    }
  }

  /** Buffering passes and drops nothing. */
  lemma {:induction false} StorePasses<K(!new), R>(caps: Caps, s: State<K, R>, k: K, r: R)
    requires caps.maxRuns >= 1
    ensures PassedOf(Store(caps, s, k, r).log) == PassedOf(s.log)
    ensures DroppedOf(Store(caps, s, k, r).log) == DroppedOf(s.log)
  {
    var room := MakeRoom(caps, s, k);
    if room.log != s.log {
      LogGrows(s.log, room.log[|s.log|]);
    }
    LogGrows(room.log, Stored(k, r));
    TrimPasses(caps, Add(room, k, r));
  }

  /** Passing a record, and shipping before it, drops nothing. */
  lemma NotePasses<K(!new), R>(s: State<K, R>, r: R)
    ensures PassedOf(Note(s, Passed(r)).log) == PassedOf(s.log) + multiset{r}
    ensures DroppedOf(Note(s, Passed(r)).log) == DroppedOf(s.log)
  {
    LogGrows(s.log, Passed(r));
  }

  lemma FlushPasses<K(!new), R>(s: State<K, R>, k: K)
    ensures PassedOf(Flush(s, k).log) == PassedOf(s.log) && DroppedOf(Flush(s, k).log) == DroppedOf(s.log)
  {
    LogGrows(s.log, Shipped(k, s.buffer.Get(k, [])));
  }

  lemma BufferIsTail<K(!new), R>(caps: Caps, s: State<K, R>, k: K)
    requires Inv(caps, s)
    ensures s.buffer.Get(k, []) == Tail(s.log, k)
  {
  }

  function LastEvent<K, R>(log: seq<Event<K, R>>): Option<Event<K, R>> {
    if log == [] then None else Some(Last(log))
  }

  /** What the shipped runs wrote to the transports, in order. */
  function Delivered<K, R>(log: seq<Event<K, R>>): seq<R> {
    if log == [] then [] else Delivered(DropLast(log)) + if Last(log).Shipped? then Last(log).records else []
  }

  // ---- The object ----

  /** `claimed` is `d` with a slot for `k`, which is empty if it is new. */
  ghost predicate Claimed<K(!new), R>(d: OrderedDict<K, seq<R>>, k: K, claimed: OrderedDict<K, seq<R>>) {
    claimed == if k in d.vals then d else d.Put(k, [])
  }

  lemma ClaimedPut<K(!new), R>(d: OrderedDict<K, seq<R>>, k: K, claimed: OrderedDict<K, seq<R>>, l: seq<R>)
    requires Claimed(d, k, claimed)
    ensures claimed.Get(k, []) == d.Get(k, []) && claimed.Put(k, l) == d.Put(k, l)
  {
    assert d.vals[k := []][k := l] == d.vals[k := l];
  }

  class RunBuffer<K(==,!new), R> {
    const caps: Caps
    var buffer: OrderedDict<K, seq<R>>
    var count: int
    var done: set<K>
    /** What was written straight to the transports. */
    var sent: seq<R>
    ghost var model: State<K, R>

    ghost predicate Matches()
      reads this
    {
      buffer == model.buffer && count == model.count && done == model.done && sent == Delivered(model.log)
    }

    constructor (caps: Caps)
      ensures Matches() && model == Initial() && this.caps == caps
    {
      this.caps := caps;
      buffer := Empty();
      count := 0;
      done := {};
      sent := [];
      model := Initial();
    }

    /** Notes in the history what becomes of a record that is not buffered. */
    ghost method Record(e: Event<K, R>)
      requires Matches() && !e.Shipped?
      modifies this`model
      ensures Matches() && model == Note(old(model), e) && LastEvent(model.log) == Some(e)
    {
      LogGrows(model.log, e);
      model := Note(model, e);
    }

    method FlushRun(k: K)
      requires Matches()
      modifies this
      ensures Matches() && model == Flush(old(model), k)
      ensures sent == old(sent) + old(buffer).Get(k, [])
    {
      done := done + {k};
      var held := buffer.Get(k, []);
      buffer := buffer.Remove(k);
      count := count - |held|;
      LogGrows(model.log, Shipped(k, held));
      model := Flush(model, k);
      var i := 0;
      while i < |held|
        modifies this`sent
        invariant i <= |held|
        invariant sent == old(sent) + held[..i]
      {
        sent := sent + [held[i]];
        i := i + 1;
      }
      assert held[..i] == held;
    }

    method BufferRecord(k: K, r: R)
      requires Matches() && caps.maxRuns >= 1
      modifies this`buffer, this`count, this`model
      ensures Matches() && model == Store(caps, old(model), k, r)
      ensures sent == old(sent)
    {
      ClaimSlot(k);
      ClaimedPut(model.buffer, k, buffer, buffer.Get(k, []) + [r]);
      buffer := buffer.Put(k, buffer.Get(k, []) + [r]);
      count := count + 1;
      LogGrows(model.log, Stored(k, r));
      model := Add(model, k, r);
      TrimToCap();
    }

    method TrimToCap()
      requires Matches()
      modifies this`buffer, this`count, this`model
      ensures Matches() && model == Trim(caps, old(model))
    {
      while count > caps.maxRecords && buffer.keys != []
        invariant Matches()
        invariant Trim(caps, model) == Trim(caps, old(model))
        decreases |buffer.keys|
      {
        EvictOldestRun();
      }
    }

    /** Makes `k` the last key, with an empty list if it is new, evicting the oldest run if need be. */
    method ClaimSlot(k: K)
      requires Matches() && caps.maxRuns >= 1
      modifies this`buffer, this`count, this`model
      ensures model == MakeRoom(caps, old(model), k)
      ensures count == model.count && done == model.done && sent == Delivered(model.log)
      ensures Claimed(model.buffer, k, buffer)
    {
      if k in buffer.vals {
        buffer := buffer.MoveToEnd(k);
        model := MakeRoom(caps, model, k);
      } else {
        if |buffer.keys| >= caps.maxRuns {
          EvictOldestRun();
        }
        buffer := buffer.Put(k, []);
      }
    }

    method EvictOldestRun()
      requires Matches() && buffer.keys != []
      modifies this`buffer, this`count, this`model
      ensures Matches() && model == EvictOldest(old(model))
    {
      var oldest := buffer.keys[0];
      count := count - |buffer.Get(oldest, [])|;
      buffer := buffer.PopFirst();
      LogGrows(model.log, Evicted(oldest, model.buffer.Get(oldest, [])));
      model := EvictOldest(model);
    }
  }
}
