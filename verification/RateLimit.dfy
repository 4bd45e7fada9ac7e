/**
  The per-key rate limiter (logquill/plugins/rate_limit_plugin.py). Each key has a fixed window that starts with the
  key's own first record, so a span of `perSeconds` can meet two windows. `TwoWindowBound` gives the exact price:
  at most `2 * maxRecords - 1` records of a key pass in any half-open interval of that length, which all settings
  reach (`TwoWindowsReached`). So the documented rolling limit holds exactly when `maxRecords` is 1 (`RollingLimitIff`).
 */
module RateLimit {
  import opened OrderedDicts
  import opened Intervals

  datatype Window = Window(start: real, count: nat)

  datatype Settings = Settings(maxRecords: nat, perSeconds: real, maxKeys: nat) {
    predicate Valid() {
      maxRecords >= 1 && perSeconds > 0.0
    }
  }

  /** A record of some key, and what the clock shows. */
  datatype Arrival<K> = Arrival(key: K, now: real)

  type Table<K(==,!new)> = OrderedDict<K, Window>

  /** The key's window is missing or over. */
  predicate StartsWindow<K(==,!new)>(c: Settings, d: Table<K>, a: Arrival<K>) {
    a.key !in d.vals || a.now - d.vals[a.key].start >= c.perSeconds
  }

  predicate Passes<K(==,!new)>(c: Settings, d: Table<K>, a: Arrival<K>) {
    StartsWindow(c, d, a) || d.vals[a.key].count < c.maxRecords
  }

  function Step<K(==,!new)>(c: Settings, d: Table<K>, a: Arrival<K>): Table<K> {
    if StartsWindow(c, d, a) then d.Put(a.key, Window(a.now, 1)).MoveToEnd(a.key).TrimTo(c.maxKeys)
    else
      var w := d.vals[a.key];
      var moved := d.MoveToEnd(a.key);
      if w.count >= c.maxRecords then moved else moved.Put(a.key, Window(w.start, w.count + 1))
  }

  /** The table after a history of records. */
  function After<K(==,!new)>(c: Settings, h: seq<Arrival<K>>): Table<K> {
    if h == [] then Empty() else Step(c, After(c, h[..|h| - 1]), h[|h| - 1])
  }

  lemma AfterStep<K(!new)>(c: Settings, h: seq<Arrival<K>>, i: nat)
    requires i < |h|
    ensures After(c, h[..i + 1]) == Step(c, After(c, h[..i]), h[i])
  {
    assert h[..i + 1][..i] == h[..i];
  }

  // ---- The invariant ----

  ghost predicate Counted<K(!new)>(c: Settings, d: Table<K>) {
    forall k :: k in d.vals ==> 1 <= d.vals[k].count <= c.maxRecords
  }

  ghost predicate Inv<K(!new)>(c: Settings, d: Table<K>) {
    d.Valid() && |d.keys| <= c.maxKeys && Counted(c, d)
  }

  /** What a record leaves in the table: its own window started, continued or full, and the others untouched. */
  ghost predicate Follows<K(!new)>(c: Settings, d: Table<K>, a: Arrival<K>, d': Table<K>) {
    && (forall k :: k in d'.vals && k != a.key ==> k in d.vals && d'.vals[k] == d.vals[k])
    && (a.key in d'.vals && StartsWindow(c, d, a) ==> d'.vals[a.key] == Window(a.now, 1))
    && (!StartsWindow(c, d, a) ==>
        && a.key in d'.vals
        && d'.vals[a.key].start == d.vals[a.key].start
        && d'.vals[a.key].count == d.vals[a.key].count + (if Passes(c, d, a) then 1 else 0))
  }

  lemma StartsStep<K(!new)>(c: Settings, d: Table<K>, a: Arrival<K>)
    requires c.Valid() && Inv(c, d) && StartsWindow(c, d, a)
    ensures Inv(c, Step(c, d, a)) && Follows(c, d, a, Step(c, d, a))
  {
    var put := d.Put(a.key, Window(a.now, 1));
    d.PutValid(a.key, Window(a.now, 1));
    put.MoveToEndValid(a.key);
    put.MoveToEnd(a.key).TrimToValid(c.maxKeys);
    put.MoveToEnd(a.key).TrimToKeys(c.maxKeys);
  }

  lemma ContinuesStep<K(!new)>(c: Settings, d: Table<K>, a: Arrival<K>)
    requires c.Valid() && Inv(c, d) && !StartsWindow(c, d, a)
    ensures Inv(c, Step(c, d, a)) && Follows(c, d, a, Step(c, d, a))
  {
    d.MoveToEndValid(a.key);
  }

  lemma StepInv<K(!new)>(c: Settings, d: Table<K>, a: Arrival<K>)
    requires c.Valid() && Inv(c, d)
    ensures Inv(c, Step(c, d, a)) && Follows(c, d, a, Step(c, d, a))
  {
    if StartsWindow(c, d, a) {
      StartsStep(c, d, a);
    } else {
      ContinuesStep(c, d, a);
    }
  }

  /** The table never exceeds `maxKeys`, and every stored count lies between 1 and `maxRecords`. */
  lemma {:induction false} AfterInv<K(!new)>(c: Settings, h: seq<Arrival<K>>)
    requires c.Valid()
    ensures Inv(c, After(c, h))
  {
    if h != [] {
      AfterInv(c, h[..|h| - 1]);
      StepInv(c, After(c, h[..|h| - 1]), h[|h| - 1]);
    }
  }

  // ---- How much passes in an interval ----

  predicate PassedAt<K(==,!new)>(c: Settings, h: seq<Arrival<K>>, i: nat)
    requires i < |h|
  {
    Passes(c, After(c, h[..i]), h[i])
  }

  /** One for a record of `k` that passes. */
  function Flag<K(==,!new)>(c: Settings, d: Table<K>, a: Arrival<K>, k: K): nat {
    if a.key == k && Passes(c, d, a) then 1 else 0
  }

  function Flags<K(==,!new)>(c: Settings, h: seq<Arrival<K>>, k: K): (flags: seq<nat>)
    ensures |flags| == |h|
  {
    seq(|h|, i requires 0 <= i < |h| => Flag(c, After(c, h[..i]), h[i], k))
  }

  function Times<K>(h: seq<Arrival<K>>): (times: seq<real>)
    ensures |times| == |h|
  {
    seq(|h|, i requires 0 <= i < |h| => h[i].now)
  }

  /** How many records of `k` pass at a time in `[from, to)`. */
  function PassedIn<K(==,!new)>(c: Settings, h: seq<Arrival<K>>, k: K, from: real, to: real): nat {
    SumIn(Times(h), Flags(c, h, k), from, to, |h|)
  }

  /** The record at position `j` leaves the window of `k` in the table, if there was one or the record is its own. */
  ghost predicate Keeps<K(!new)>(c: Settings, h: seq<Arrival<K>>, k: K, j: nat)
    requires j < |h|
  {
    k in After(c, h[..j]).vals || h[j].key == k ==> k in After(c, h[..j + 1]).vals
  }

  /**
    Since the table was `d0`, `passed` records of `k` have passed, all of them at `t` or later: none yet; or all in
    the window that was open at the time; or some in an earlier window and the rest in the current one.
   */
  ghost predicate Progress<K(!new)>(c: Settings, d0: Table<K>, d: Table<K>, k: K, t: real, passed: nat) {
    if k !in d.vals then k !in d0.vals && passed == 0
    else
      || (d.vals[k].start >= t && passed <= c.maxRecords - 1 + d.vals[k].count)
      || (k in d0.vals && d.vals[k].start == d0.vals[k].start && passed + d0.vals[k].count == d.vals[k].count)
  }

  lemma ProgressStep<K(!new)>(c: Settings, d0: Table<K>, d: Table<K>, a: Arrival<K>, d': Table<K>, k: K, t: real,
                       passed: nat)
    requires c.Valid() && Counted(c, d0) && Counted(c, d) && Follows(c, d, a, d')
    requires t <= a.now < t + c.perSeconds
    requires k in d.vals || a.key == k ==> k in d'.vals
    requires Progress(c, d0, d, k, t, passed)
    ensures Progress(c, d0, d', k, t, passed + Flag(c, d, a, k))
  {
  }

  lemma AfterCounted<K(!new)>(c: Settings, h: seq<Arrival<K>>)
    requires c.Valid()
    ensures Counted(c, After(c, h))
  {
    AfterInv(c, h);
  }

  lemma AfterFollows<K(!new)>(c: Settings, h: seq<Arrival<K>>, i: nat)
    requires c.Valid() && i < |h|
    ensures Counted(c, After(c, h[..i]))
    ensures Follows(c, After(c, h[..i]), h[i], After(c, h[..i + 1]))
  {
    AfterInv(c, h[..i]);
    AfterStep(c, h, i);
    StepInv(c, After(c, h[..i]), h[i]);
  }

  /** The tables `ds` could have followed one another under the records of `h`. */
  ghost predicate Tracks<K(!new)>(c: Settings, h: seq<Arrival<K>>, ds: seq<Table<K>>) {
    && |ds| == |h| + 1
    && (forall i {:trigger h[i]} :: 0 <= i < |h| ==> Follows(c, ds[i], h[i], ds[i + 1]))
    && (forall i :: 0 <= i < |ds| ==> Counted(c, ds[i]))
  }

  ghost predicate KeepsOn<K(!new)>(h: seq<Arrival<K>>, ds: seq<Table<K>>, k: K, j: nat)
    requires j < |h| < |ds|
  {
    k in ds[j].vals || h[j].key == k ==> k in ds[j + 1].vals
  }

  ghost predicate FlagsOn<K(!new)>(c: Settings, h: seq<Arrival<K>>, ds: seq<Table<K>>, k: K, flags: seq<nat>)
    requires |h| < |ds|
  {
    |flags| == |h| && forall i {:trigger flags[i]} :: 0 <= i < |h| ==> flags[i] == Flag(c, ds[i], h[i], k)
  }

  lemma {:induction false} ProgressOn<K(!new)>(c: Settings, h: seq<Arrival<K>>, ds: seq<Table<K>>, flags: seq<nat>, k: K,
                                               t: real, lo: nat, hi: nat)
    requires c.Valid() && Tracks(c, h, ds) && FlagsOn(c, h, ds, k, flags) && lo <= hi <= |h|
    requires forall j :: lo <= j < hi ==> t <= h[j].now < t + c.perSeconds && KeepsOn(h, ds, k, j)
    ensures Progress(c, ds[lo], ds[hi], k, t, SumRange(flags, lo, hi))
    decreases hi
  {
    if lo < hi {
      ProgressOn(c, h, ds, flags, k, t, lo, hi - 1);
      assert KeepsOn(h, ds, k, hi - 1);
      ProgressStep(c, ds[lo], ds[hi - 1], h[hi - 1], ds[hi], k, t, SumRange(flags, lo, hi - 1));
    }
  }

  lemma ProgressBound<K(!new)>(c: Settings, d0: Table<K>, d: Table<K>, k: K, t: real, passed: nat)
    requires c.Valid() && Counted(c, d0) && Counted(c, d) && Progress(c, d0, d, k, t, passed)
    ensures passed <= 2 * c.maxRecords - 1
  {
  }

  lemma BoundOn<K(!new)>(c: Settings, h: seq<Arrival<K>>, ds: seq<Table<K>>, flags: seq<nat>, k: K, t: real, lo: nat,
                         hi: nat)
    requires c.Valid() && Tracks(c, h, ds) && FlagsOn(c, h, ds, k, flags) && lo <= hi <= |h|
    requires forall j :: lo <= j < hi ==> t <= h[j].now < t + c.perSeconds && KeepsOn(h, ds, k, j)
    ensures SumRange(flags, lo, hi) <= 2 * c.maxRecords - 1
  {
    ProgressOn(c, h, ds, flags, k, t, lo, hi);
    ProgressBound(c, ds[lo], ds[hi], k, t, SumRange(flags, lo, hi));
  }

  /** The bound for any tables that could have followed one another. */
  lemma IntervalBound<K(!new)>(c: Settings, h: seq<Arrival<K>>, ds: seq<Table<K>>, flags: seq<nat>, k: K, t: real)
    requires c.Valid() && Tracks(c, h, ds) && FlagsOn(c, h, ds, k, flags) && NonDecreasing(Times(h))
    requires forall j {:trigger KeepsOn(h, ds, k, j)} :: 0 <= j < |h| && t <= h[j].now < t + c.perSeconds ==>
               KeepsOn(h, ds, k, j)
    ensures SumIn(Times(h), flags, t, t + c.perSeconds, |h|) <= 2 * c.maxRecords - 1
  {
    var lo, hi := IntervalSum(Times(h), flags, t, t + c.perSeconds);
    forall j | lo <= j < hi
      ensures t <= h[j].now < t + c.perSeconds && KeepsOn(h, ds, k, j)
    {
      assert Times(h)[j] == h[j].now;
    }
    BoundOn(c, h, ds, flags, k, t, lo, hi);
  }

  /** The tables of a run, before the first record and after each. */
  ghost function Tables<K(!new)>(c: Settings, h: seq<Arrival<K>>): (ds: seq<Table<K>>)
    ensures |ds| == |h| + 1
  {
    seq(|h| + 1, i requires 0 <= i <= |h| => After(c, h[..i]))
  }

  lemma TablesTrack<K(!new)>(c: Settings, h: seq<Arrival<K>>, k: K)
    requires c.Valid()
    ensures Tracks(c, h, Tables(c, h)) && FlagsOn(c, h, Tables(c, h), k, Flags(c, h, k))
  {
    var ds := Tables(c, h);
    forall i {:trigger h[i]} | 0 <= i < |h|
      ensures Follows(c, ds[i], h[i], ds[i + 1])
    {
      AfterFollows(c, h, i);
    }
    forall i | 0 <= i < |ds|
      ensures Counted(c, ds[i])
    {
      AfterCounted(c, h[..i]);
    }
  }

  lemma TablesKeep<K(!new)>(c: Settings, h: seq<Arrival<K>>, k: K, j: nat)
    requires j < |h| && Keeps(c, h, k, j)
    ensures KeepsOn(h, Tables(c, h), k, j)
  {
  }

  /**
    No key passes more than `2 * maxRecords - 1` records in a half-open interval of length `perSeconds`, unless its
    window is evicted within the interval.
   */
  lemma {:induction false} TwoWindowBound<K(!new)>(c: Settings, h: seq<Arrival<K>>, k: K, t: real)
    requires c.Valid() && NonDecreasing(Times(h))
    requires forall j {:trigger Keeps(c, h, k, j)} :: 0 <= j < |h| && t <= h[j].now < t + c.perSeconds ==> Keeps(c, h, k, j)
    ensures PassedIn(c, h, k, t, t + c.perSeconds) <= 2 * c.maxRecords - 1
  {
    TablesTrack(c, h, k);
    forall j | 0 <= j < |h| && t <= h[j].now < t + c.perSeconds
      ensures KeepsOn(h, Tables(c, h), k, j)
    {
      assert Keeps(c, h, k, j);
      TablesKeep(c, h, k, j);
    }
    IntervalBound(c, h, Tables(c, h), Flags(c, h, k), k, t);
  }

  // ---- When a key is forgotten ----

  /** The position of the last record of `k`, or -1. */
  function LastSeen<K(==)>(h: seq<Arrival<K>>, k: K): (n: int)
    ensures -1 <= n < |h|
  {
    if h == [] then -1 else if h[|h| - 1].key == k then |h| - 1 else LastSeen(h[..|h| - 1], k)
  }

  /** The other keys seen since the last record of `k`. */
  function OthersSince<K(==)>(h: seq<Arrival<K>>, k: K): set<K> {
    if h == [] || h[|h| - 1].key == k then {} else OthersSince(h[..|h| - 1], k) + {h[|h| - 1].key}
  }

  lemma {:induction false} SeenLater<K(!new)>(h: seq<Arrival<K>>, k: K, o: K)
    requires o != k && LastSeen(h, k) < LastSeen(h, o)
    ensures o in OthersSince(h, k)
  {
    if h[|h| - 1].key != o {
      SeenLater(h[..|h| - 1], k, o);
    }
  }

  /** The table lists its keys from the least to the most recently seen. */
  ghost predicate Ordered<K(!new)>(h: seq<Arrival<K>>, keys: seq<K>) {
    forall i, j :: 0 <= i < j < |keys| ==> LastSeen(h, keys[i]) < LastSeen(h, keys[j])
  }

  /** A key is missing only if it was never seen, or if `maxKeys` other keys were seen after it. */
  ghost predicate Remembered<K(!new)>(c: Settings, h: seq<Arrival<K>>, keys: seq<K>) {
    forall k :: LastSeen(h, k) >= 0 && k !in keys ==> |OthersSince(h, k)| >= c.maxKeys
  }

  lemma SeenGrows<K(!new)>(h: seq<Arrival<K>>, a: Arrival<K>, k: K)
    ensures LastSeen(h + [a], k) == if a.key == k then |h| else LastSeen(h, k)
    ensures OthersSince(h + [a], k) == if a.key == k then {} else OthersSince(h, k) + {a.key}
  {
    assert (h + [a])[..|h|] == h;
  }

  lemma TouchOrdered<K(!new)>(h: seq<Arrival<K>>, a: Arrival<K>, keys: seq<K>)
    requires Ordered(h, keys)
    ensures Ordered(h + [a], Without(keys, a.key) + [a.key])
  {
    var rest := Without(keys, a.key);
    var touched := rest + [a.key];
    forall i, j | 0 <= i < j < |touched|
      ensures LastSeen(h + [a], touched[i]) < LastSeen(h + [a], touched[j])
    {
      assert rest[i] in rest;
      SeenGrows(h, a, rest[i]);
      SeenGrows(h, a, touched[j]);
      if j < |rest| {
        assert rest[j] in rest;
        var i', j' := WithoutKeepsOrder(keys, a.key, i, j);
      }
    }
  }

  lemma TouchRemembered<K(!new)>(c: Settings, h: seq<Arrival<K>>, a: Arrival<K>, keys: seq<K>)
    requires Remembered(c, h, keys)
    ensures Remembered(c, h + [a], Without(keys, a.key) + [a.key])
  {
    forall k | LastSeen(h + [a], k) >= 0 && k !in Without(keys, a.key) + [a.key]
      ensures |OthersSince(h + [a], k)| >= c.maxKeys
    {
      assert k != a.key && k !in Without(keys, a.key) && k !in keys;
      SeenGrows(h, a, k);
      SubsetSize(OthersSince(h, k), OthersSince(h + [a], k));
    }
  }

  /** Dropping keys from the front, with `maxKeys` left behind them. */
  lemma TrimRemembered<K(!new)>(c: Settings, h: seq<Arrival<K>>, keys: seq<K>)
    requires Distinct(keys) && Ordered(h, keys) && Remembered(c, h, keys) && |keys| > c.maxKeys
    ensures Ordered(h, keys[|keys| - c.maxKeys..]) && Remembered(c, h, keys[|keys| - c.maxKeys..])
  {
    var left := keys[|keys| - c.maxKeys..];
    forall k | LastSeen(h, k) >= 0 && k !in left
      ensures |OthersSince(h, k)| >= c.maxKeys
    {
      if k in keys {
        LeftBehind(c, h, keys, k);
      }
    }
  }

  lemma LeftBehind<K(!new)>(c: Settings, h: seq<Arrival<K>>, keys: seq<K>, k: K)
    requires Distinct(keys) && Ordered(h, keys) && |keys| > c.maxKeys
    requires k in keys && k !in keys[|keys| - c.maxKeys..]
    ensures |OthersSince(h, k)| >= c.maxKeys
  {
    var i :| 0 <= i < |keys| && keys[i] == k;
    var left := keys[|keys| - c.maxKeys..];
    assert i < |keys| - c.maxKeys;
    forall o | o in left
      ensures o in OthersSince(h, k)
    {
      var j :| 0 <= j < |left| && left[j] == o;
      assert keys[|keys| - c.maxKeys + j] == o;
      SeenLater(h, k, o);
    }
    DistinctSize(left, OthersSince(h, k));
  }

  lemma TouchedKeys<K(!new)>(c: Settings, d: Table<K>, a: Arrival<K>)
    requires Inv(c, d)
    ensures Distinct(Touched(d, a))
    ensures Step(c, d, a).keys ==
            if |Touched(d, a)| > c.maxKeys then Touched(d, a)[|Touched(d, a)| - c.maxKeys..] else Touched(d, a)
  {
    WithoutDistinct(d.keys, a.key);
    if StartsWindow(c, d, a) {
      StartedKeys(c, d, a);
    } else {
      assert |Touched(d, a)| == |d.keys|;
    }
  }

  /** The keys with that of the record moved to the end. */
  ghost function Touched<K(!new)>(d: Table<K>, a: Arrival<K>): seq<K> {
    Without(d.keys, a.key) + [a.key]
  }

  lemma StartedKeys<K(!new)>(c: Settings, d: Table<K>, a: Arrival<K>)
    requires Inv(c, d) && StartsWindow(c, d, a)
    ensures Step(c, d, a).keys ==
            if |Touched(d, a)| > c.maxKeys then Touched(d, a)[|Touched(d, a)| - c.maxKeys..] else Touched(d, a)
  {
    var w := Window(a.now, 1);
    d.PutLastKeys(a.key, w);
    d.Put(a.key, w).MoveToEnd(a.key).TrimToKeys(c.maxKeys);
  }

  /** The table forgets only the keys seen least recently. */
  lemma {:induction false} ForgetsOldest<K(!new)>(c: Settings, h: seq<Arrival<K>>)
    requires c.Valid()
    ensures Ordered(h, After(c, h).keys) && Remembered(c, h, After(c, h).keys)
  {
    if h != [] {
      var before, a := h[..|h| - 1], h[|h| - 1];
      var d := After(c, before);
      assert h == before + [a];
      ForgetsOldest(c, before);
      AfterInv(c, before);
      TouchedKeys(c, d, a);
      TouchOrdered(before, a, d.keys);
      TouchRemembered(c, before, a, d.keys);
      if |Touched(d, a)| > c.maxKeys {
        TrimRemembered(c, h, Touched(d, a));
      }
    }
  }

  lemma SeenOrLast<K(!new)>(c: Settings, h: seq<Arrival<K>>, k: K, j: nat)
    requires c.Valid() && j < |h| && (k in After(c, h[..j]).vals || h[j].key == k)
    ensures LastSeen(h[..j + 1], k) >= 0
  {
    OnlySeenKeys(c, h, j);
    assert h[..j + 1] == h[..j] + [h[j]];
    SeenGrows(h[..j], h[j], k);
  }

  lemma RememberedHolds<K(!new)>(c: Settings, h: seq<Arrival<K>>, k: K)
    requires c.Valid() && LastSeen(h, k) >= 0 && |OthersSince(h, k)| < c.maxKeys
    ensures k in After(c, h).vals
  {
    ForgetsOldest(c, h);
    AfterInv(c, h);
  }

  lemma RecentIsKept<K(!new)>(c: Settings, h: seq<Arrival<K>>, k: K, j: nat)
    requires c.Valid() && j < |h|
    requires LastSeen(h[..j + 1], k) >= 0 ==> |OthersSince(h[..j + 1], k)| < c.maxKeys
    ensures Keeps(c, h, k, j)
  {
    if k in After(c, h[..j]).vals || h[j].key == k {
      SeenOrLast(c, h, k, j);
      RememberedHolds(c, h[..j + 1], k);
    }
  }

  lemma {:induction false} OnlySeenKeys<K(!new)>(c: Settings, h: seq<Arrival<K>>, i: nat)
    requires c.Valid() && i <= |h|
    ensures forall k :: k in After(c, h[..i]).vals ==> LastSeen(h[..i], k) >= 0
  {
    if i != 0 {
      OnlySeenKeys(c, h, i - 1);
      AfterFollows(c, h, i - 1);
      assert h[..i] == h[..i - 1] + [h[i - 1]];
      forall k | k in After(c, h[..i]).vals
        ensures LastSeen(h[..i], k) >= 0
      {
        SeenGrows(h[..i - 1], h[i - 1], k);
      }
    }
  }

  /**
    The bound in terms of the records alone: it holds for `k` in an interval if, all through it, fewer than
    `maxKeys` other keys have been seen since the last record of `k`.
   */
  lemma {:induction false} RecentKeyBound<K(!new)>(c: Settings, h: seq<Arrival<K>>, k: K, t: real)
    requires c.Valid() && NonDecreasing(Times(h))
    requires forall j :: 0 <= j < |h| && t <= h[j].now < t + c.perSeconds && LastSeen(h[..j + 1], k) >= 0 ==>
               |OthersSince(h[..j + 1], k)| < c.maxKeys
    ensures PassedIn(c, h, k, t, t + c.perSeconds) <= 2 * c.maxRecords - 1
  {
    forall j | 0 <= j < |h| && t <= h[j].now < t + c.perSeconds
      ensures Keeps(c, h, k, j)
    {
      RecentIsKept(c, h, k, j);
    }
    TwoWindowBound(c, h, k, t);
  }

  // ---- One key by itself ----

  /** When the records of `k` came. */
  function TimesOf<K(==)>(h: seq<Arrival<K>>, k: K): seq<real> {
    if h == [] then [] else TimesOf(h[..|h| - 1], k) + (if h[|h| - 1].key == k then [h[|h| - 1].now] else [])
  }

  /** A fixed window over the records of a single key, with nothing to evict. */
  function OneKey(c: Settings, times: seq<real>): Option<Window> {
    if times == [] then None else NextWindow(c, OneKey(c, times[..|times| - 1]), times[|times| - 1])
  }

  function NextWindow(c: Settings, w: Option<Window>, now: real): Option<Window> {
    if w.None? || now - w.value.start >= c.perSeconds then Some(Window(now, 1))
    else if w.value.count < c.maxRecords then Some(Window(w.value.start, w.value.count + 1))
    else w
  }

  predicate OneKeyPasses(c: Settings, w: Option<Window>, now: real) {
    w.None? || now - w.value.start >= c.perSeconds || w.value.count < c.maxRecords
  }

  function WindowOf<K(==,!new)>(d: Table<K>, k: K): Option<Window> {
    if k in d.vals then Some(d.vals[k]) else None
  }

  lemma TimesOfGrows<K(!new)>(c: Settings, h: seq<Arrival<K>>, k: K, i: nat)
    requires i < |h|
    ensures var w := OneKey(c, TimesOf(h[..i], k));
            OneKey(c, TimesOf(h[..i + 1], k)) == if h[i].key == k then NextWindow(c, w, h[i].now) else w
  {
    var times := TimesOf(h[..i], k);
    assert h[..i + 1][..i] == h[..i];
    assert times + [] == times && (times + [h[i].now])[..|times|] == times;
  }

  lemma WindowFollows<K(!new)>(c: Settings, d: Table<K>, a: Arrival<K>, d': Table<K>, k: K)
    requires Follows(c, d, a, d') && (k in d.vals || a.key == k ==> k in d'.vals)
    ensures WindowOf(d', k) == if a.key == k then NextWindow(c, WindowOf(d, k), a.now) else WindowOf(d, k)
  {
  }

  lemma OneKeyStep<K(!new)>(c: Settings, h: seq<Arrival<K>>, k: K, i: nat)
    requires c.Valid() && i < |h| && Keeps(c, h, k, i)
    requires WindowOf(After(c, h[..i]), k) == OneKey(c, TimesOf(h[..i], k))
    ensures WindowOf(After(c, h[..i + 1]), k) == OneKey(c, TimesOf(h[..i + 1], k))
  {
    AfterFollows(c, h, i);
    WindowFollows(c, After(c, h[..i]), h[i], After(c, h[..i + 1]), k);
    TimesOfGrows(c, h, k, i);
  }

  /**
    The records of other keys make no difference: as long as the window of `k` is kept, it is the one a limiter for
    `k` alone would hold, and the next record of `k` passes exactly if that one passes it.
   */
  lemma {:induction false} KeysIndependent<K(!new)>(c: Settings, h: seq<Arrival<K>>, k: K, n: nat, now: real)
    requires c.Valid() && n <= |h| && forall j :: 0 <= j < n ==> Keeps(c, h, k, j)
    ensures WindowOf(After(c, h[..n]), k) == OneKey(c, TimesOf(h[..n], k))
    ensures Passes(c, After(c, h[..n]), Arrival(k, now)) <==> OneKeyPasses(c, OneKey(c, TimesOf(h[..n], k)), now)
  {
    if n != 0 {
      KeysIndependent(c, h, k, n - 1, now);
      OneKeyStep(c, h, k, n - 1);
    }
  }

  // ---- The documented rolling limit ----

  /** No interval of length `perSeconds` through which the key's window is kept passes more than `maxRecords` of it. */
  ghost predicate RollingLimit<K(!new)>(c: Settings) {
    forall h: seq<Arrival<K>>, k: K, t: real :: Through(c, h, k, t) ==> WithinLimit(c, h, k, t)
  }

  ghost predicate WithinLimit<K(!new)>(c: Settings, h: seq<Arrival<K>>, k: K, t: real) {
    PassedIn(c, h, k, t, t + c.perSeconds) <= c.maxRecords
  }

  ghost predicate Through<K(!new)>(c: Settings, h: seq<Arrival<K>>, k: K, t: real) {
    && NonDecreasing(Times(h))
    && forall j {:trigger Keeps(c, h, k, j)} :: 0 <= j < |h| && t <= h[j].now < t + c.perSeconds ==> Keeps(c, h, k, j)
  }

  /** A record at 0, all the others the window allows half an interval later, and a full window at its end. */
  function Burst<K>(c: Settings, key: K): seq<Arrival<K>> {
    seq(2 * c.maxRecords, i => Arrival(key, BurstTime(c, i)))
  }

  function BurstTime(c: Settings, i: int): real {
    if i <= 0 then 0.0 else if i < c.maxRecords then c.perSeconds / 2.0 else c.perSeconds
  }

  /** The window of the key after `n` records of the burst. */
  function BurstWindow(c: Settings, n: nat): Window {
    if n <= c.maxRecords then Window(0.0, n) else Window(c.perSeconds, n - c.maxRecords)
  }

  lemma BurstKept<K(!new)>(c: Settings, key: K, j: nat)
    requires c.Valid() && c.maxKeys >= 1 && j < 2 * c.maxRecords
    ensures Keeps(c, Burst(c, key), key, j)
  {
    var h := Burst(c, key);
    assert h[..j + 1][|h[..j + 1]| - 1].key == key;
    assert OthersSince(h[..j + 1], key) == {};
    RecentIsKept(c, h, key, j);
  }

  /** All through the burst the window is that of its only key. */
  lemma {:induction false} BurstOneKey<K(!new)>(c: Settings, key: K, n: nat)
    requires c.Valid() && n <= 2 * c.maxRecords
    ensures OneKey(c, TimesOf(Burst(c, key)[..n], key)) == if n == 0 then None else Some(BurstWindow(c, n))
  {
    if n != 0 {
      BurstOneKey(c, key, n - 1);
      TimesOfGrows(c, Burst(c, key), key, n - 1);
      BurstNext(c, n - 1);
      assert Burst(c, key)[n - 1] == Arrival(key, BurstTime(c, n - 1));
    }
  }

  lemma BurstNext(c: Settings, n: nat)
    requires c.Valid() && n < 2 * c.maxRecords
    ensures NextWindow(c, if n == 0 then None else Some(BurstWindow(c, n)), BurstTime(c, n)) == Some(BurstWindow(c, n + 1))
  {
  }

  lemma BurstFlag<K(!new)>(c: Settings, key: K, n: nat)
    requires c.Valid() && c.maxKeys >= 1 && 1 <= n < 2 * c.maxRecords
    ensures Flags(c, Burst(c, key), key)[n] == 1
  {
    forall j | 0 <= j < n
      ensures Keeps(c, Burst(c, key), key, j)
    {
      BurstKept(c, key, j);
    }
    KeysIndependent(c, Burst(c, key), key, n, BurstTime(c, n));
    BurstOneKey(c, key, n);
  }

  lemma BurstSum(c: Settings, times: seq<real>, flags: seq<nat>, t: real)
    requires c.Valid() && t == c.perSeconds / 2.0 && |times| == |flags| == 2 * c.maxRecords
    requires forall j :: 0 <= j < |times| ==> times[j] == BurstTime(c, j)
    requires forall j :: 1 <= j < |flags| ==> flags[j] == 1
    ensures SumIn(times, flags, t, t + c.perSeconds, |times|) == 2 * c.maxRecords - 1
  {
    AllButFirst(times, flags, t, t + c.perSeconds, |times|);
  }

  lemma BurstPasses<K(!new)>(c: Settings, key: K, t: real)
    requires c.Valid() && c.maxKeys >= 1 && t == c.perSeconds / 2.0
    ensures PassedIn(c, Burst(c, key), key, t, t + c.perSeconds) == 2 * c.maxRecords - 1
  {
    var flags := Flags(c, Burst(c, key), key);
    forall j | 1 <= j < |flags|
      ensures flags[j] == 1
    {
      BurstFlag(c, key, j);
    }
    BurstSum(c, Times(Burst(c, key)), flags, t);
  }

  lemma BurstTimes<K(!new)>(c: Settings, key: K)
    requires c.Valid()
    ensures NonDecreasing(Times(Burst(c, key)))
  {
    var times := Times(Burst(c, key));
    forall i, j | 0 <= i < j < |times|
      ensures times[i] <= times[j]
    {
      assert times[i] == BurstTime(c, i) && times[j] == BurstTime(c, j);
    }
  }

  lemma BurstThrough<K(!new)>(c: Settings, key: K, t: real)
    requires c.Valid() && c.maxKeys >= 1
    ensures Through(c, Burst(c, key), key, t)
  {
    BurstTimes(c, key);
    forall j | 0 <= j < |Burst(c, key)|
      ensures Keeps(c, Burst(c, key), key, j)
    {
      BurstKept(c, key, j);
    }
  }

  /** The bound of `TwoWindowBound` is reached for all settings and every key. */
  lemma TwoWindowsReached<K(!new)>(c: Settings, key: K) returns (h: seq<Arrival<K>>, t: real)
    requires c.Valid() && c.maxKeys >= 1
    ensures Through(c, h, key, t)
    ensures PassedIn(c, h, key, t, t + c.perSeconds) == 2 * c.maxRecords - 1
  {
    h, t := Burst(c, key), c.perSeconds / 2.0;
    BurstThrough(c, key, t);
    BurstPasses(c, key, t);
  }

  lemma NothingKept<K(!new)>(c: Settings, h: seq<Arrival<K>>, j: nat)
    requires c.Valid() && c.maxKeys == 0 && j < |h|
    ensures !Keeps(c, h, h[j].key, j)
  {
    AfterInv(c, h[..j + 1]);
  }

  lemma NoFlag<K(!new)>(c: Settings, h: seq<Arrival<K>>, k: K, t: real, j: nat)
    requires c.Valid() && c.maxKeys == 0 && Through(c, h, k, t) && j < |h|
    requires t <= Times(h)[j] < t + c.perSeconds
    ensures Flags(c, h, k)[j] == 0
  {
    assert Keeps(c, h, k, j);
    NothingKept(c, h, j);
  }

  /** A table for no keys keeps no window, so nothing of a kept window passes. */
  lemma NoTable<K(!new)>(c: Settings, h: seq<Arrival<K>>, k: K, t: real)
    requires c.Valid() && c.maxKeys == 0 && Through(c, h, k, t)
    ensures PassedIn(c, h, k, t, t + c.perSeconds) == 0
  {
    NoFlags(c, h, k, t);
    ZeroPasses(c, h, k, t, t + c.perSeconds);
  }

  lemma ZeroPasses<K(!new)>(c: Settings, h: seq<Arrival<K>>, k: K, from: real, to: real)
    requires ZeroIn(Times(h), Flags(c, h, k), from, to)
    ensures PassedIn(c, h, k, from, to) == 0
  {
    AllZero(Times(h), Flags(c, h, k), from, to, |h|);
  }

  lemma NoFlags<K(!new)>(c: Settings, h: seq<Arrival<K>>, k: K, t: real)
    requires c.Valid() && c.maxKeys == 0 && Through(c, h, k, t)
    ensures ZeroIn(Times(h), Flags(c, h, k), t, t + c.perSeconds)
  {
    forall j | 0 <= j < |h| && t <= Times(h)[j] < t + c.perSeconds
      ensures Flags(c, h, k)[j] == 0
    {
      NoFlag(c, h, k, t, j);
    }
  }

  /**
    The documented rolling limit holds for kept windows exactly when one record is allowed, or when no window is ever
    kept. `key` shows that there is a key at all.
   */
  lemma {:induction false} RollingLimitIff<K(!new)>(c: Settings, key: K)
    requires c.Valid()
    ensures RollingLimit<K>(c) <==> c.maxRecords == 1 || c.maxKeys == 0
  {
    if c.maxRecords == 1 || c.maxKeys == 0 {
      forall h: seq<Arrival<K>>, k: K, t: real | Through(c, h, k, t)
        ensures WithinLimit(c, h, k, t)
      {
        LimitHolds(c, h, k, t);
      }
    } else {
      LimitBroken(c, key);
    }
  }

  lemma LimitBroken<K(!new)>(c: Settings, key: K)
    requires c.Valid() && c.maxRecords > 1 && c.maxKeys >= 1
    ensures !RollingLimit<K>(c)
  {
    var h, t := TwoWindowsReached(c, key);
    Exceeds(c, h, key, t);
    LimitExceeded(c, h, key, t);
  }

  lemma Exceeds<K(!new)>(c: Settings, h: seq<Arrival<K>>, k: K, t: real)
    requires PassedIn(c, h, k, t, t + c.perSeconds) > c.maxRecords
    ensures !WithinLimit(c, h, k, t)
  {
  }

  lemma LimitExceeded<K(!new)>(c: Settings, h: seq<Arrival<K>>, k: K, t: real)
    requires Through(c, h, k, t) && !WithinLimit(c, h, k, t)
    ensures !RollingLimit<K>(c)
  {
  }

  lemma LimitHolds<K(!new)>(c: Settings, h: seq<Arrival<K>>, k: K, t: real)
    requires c.Valid() && (c.maxRecords == 1 || c.maxKeys == 0) && Through(c, h, k, t)
    ensures WithinLimit(c, h, k, t)
  {
    if c.maxKeys == 0 {
      NoTable(c, h, k, t);
    } else {
      TwoWindowBound(c, h, k, t);
    }
  }

  // ---- The object ----

  class RateLimitPlugin<K(==,!new)> {
    const settings: Settings
    var windows: Table<K>
    /** Every record seen so far. */
    ghost var history: seq<Arrival<K>>

    ghost predicate Valid()
      reads this
    {
      settings.Valid() && windows == After(settings, history)
    }

    /** The original raises ValueError for settings that are not valid. */
    constructor (settings: Settings)
      requires settings.maxRecords >= 1 && settings.perSeconds > 0.0
      ensures Valid() && history == [] && this.settings == settings
    {
      this.settings := settings;
      windows := Empty();
      history := [];
    }

    /** `now` is what the clock shows. */
    method BeforeLog(key: K, now: real) returns (passes: bool)
      requires Valid()
      modifies this
      ensures Valid() && history == old(history) + [Arrival(key, now)]
      ensures passes == PassedAt(settings, history, |old(history)|)
    {
      ghost var a := Arrival(key, now);
      ghost var next := Step(settings, windows, a);
      assert (history + [a])[..|history|] == history;
      history := history + [a];
      if key !in windows.vals || now - windows.vals[key].start >= settings.perSeconds {
        windows := windows.Put(key, Window(now, 1));
        windows := windows.MoveToEnd(key);
        while |windows.keys| > settings.maxKeys
          invariant windows.TrimTo(settings.maxKeys) == next
          invariant history == old(history) + [a]
          decreases |windows.keys|
        {
          windows := windows.PopFirst();
        }
        return true;
      }
      var window := windows.vals[key];
      windows := windows.MoveToEnd(key);
      if window.count >= settings.maxRecords {
        return false;
      }
      windows := windows.Put(key, Window(window.start, window.count + 1));
      return true;
    }
  }
}
