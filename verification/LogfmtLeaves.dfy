/**
  Which pairs a record is printed as, said of the record itself: one for each leaf of its `llm` and `meta` mappings,
  in order, under the dotted keys that lead there. A place is looked up in the entries, key by key;
  `FieldsAreLeaves` compares the printer's recursion with that, and `LeavesSurvive` is the round trip for each leaf.
 */
module LogfmtLeaves {
  import opened OrderedDicts
  import opened Logfmt
  import opened LogfmtRoundTrip

  /** Which entry to take at each level. */
  type Path = seq<nat>

  function Child(v: Value, i: nat): Option<Entry> {
    if v.Mapping? && i < |v.entries| then Some(v.entries[i]) else None
  }

  function ValueAt(v: Value, path: Path): Option<Value> {
    if path == [] then Some(v)
    else match Child(v, path[0])
      case None => None
      case Some(e) => ValueAt(e.value, path[1..])
  }

  /** The keys on the way, each behind a dot. */
  function KeyAt(prefix: Text, v: Value, path: Path): Text
    decreases |path|
  {
    if path == [] then prefix
    else match Child(v, path[0])
      case None => prefix
      case Some(e) => KeyAt(prefix + [DOT] + Key(e.key), e.value, path[1..])
  }

  /** A value with `depth` keys above it, at `path` below it: no mapping, an empty one, or one below five keys. */
  ghost predicate IsLeaf(v: Value, depth: nat, path: Path) {
    var w := ValueAt(v, path);
    && w.Some?
    && (path == [] || depth + |path| <= 5)
    && (!w.value.Mapping? || w.value.entries == [] || depth + |path| >= 5)
  }

  /** The order in which a mapping is read. */
  predicate Before(a: Path, b: Path) {
    a != [] && b != [] && (a[0] < b[0] || (a[0] == b[0] && Before(a[1..], b[1..])))
  }

  // ---- The leaves as the printer meets them ----

  function Below(k: nat, paths: seq<Path>): (r: seq<Path>)
    ensures |r| == |paths|
  {
    seq(|paths|, i requires 0 <= i < |paths| => [k] + paths[i])
  }

  function Leaves(v: Value, depth: nat): seq<Path>
    decreases v
  {
    if v.Mapping? && v.entries != [] && depth < 5 then EntryLeaves(v.entries, 0, depth) else [[]]
  }

  function EntryLeaves(entries: seq<Entry>, from: nat, depth: nat): seq<Path>
    decreases entries, |entries| - from
  {
    if from >= |entries| then []
    else Below(from, Leaves(entries[from].value, depth + 1)) + EntryLeaves(entries, from + 1, depth)
  }

  lemma {:induction false} LeavesSound(v: Value, depth: nat, path: Path)
    requires path in Leaves(v, depth)
    ensures IsLeaf(v, depth, path)
    decreases v
  {
    if v.Mapping? && v.entries != [] && depth < 5 {
      EntryLeavesSound(v.entries, 0, depth, path);
      LeafBelow(v, depth, path);
    }
  }

  /** A leaf of an entry's value is one of the mapping. */
  lemma LeafBelow(v: Value, depth: nat, path: Path)
    requires v.Mapping? && depth < 5 && path != [] && path[0] < |v.entries|
    ensures IsLeaf(v, depth, path) <==> IsLeaf(v.entries[path[0]].value, depth + 1, path[1..])
  {
  }

  lemma {:induction false} EntryLeavesSound(entries: seq<Entry>, from: nat, depth: nat, path: Path)
    requires path in EntryLeaves(entries, from, depth) && depth < 5
    ensures path != [] && from <= path[0] < |entries|
    ensures IsLeaf(entries[path[0]].value, depth + 1, path[1..])
    decreases entries, |entries| - from
  {
    var first := Leaves(entries[from].value, depth + 1);
    if path in Below(from, first) {
      var i :| 0 <= i < |first| && Below(from, first)[i] == path;
      assert path[1..] == first[i];
      LeavesSound(entries[from].value, depth + 1, path[1..]);
    } else {
      EntryLeavesSound(entries, from + 1, depth, path);
    }
  }

  lemma {:induction false} LeavesComplete(v: Value, depth: nat, path: Path)
    requires IsLeaf(v, depth, path)
    ensures path in Leaves(v, depth)
    decreases v
  {
    if path != [] {
      LeafBelow(v, depth, path);
      LeavesComplete(v.entries[path[0]].value, depth + 1, path[1..]);
      EntryLeavesComplete(v.entries, 0, depth, path);
    } else {
      assert Leaves(v, depth)[0] == path;
    }
  }

  lemma {:induction false} EntryLeavesComplete(entries: seq<Entry>, from: nat, depth: nat, path: Path)
    requires path != [] && from <= path[0] < |entries|
    requires path[1..] in Leaves(entries[path[0]].value, depth + 1)
    ensures path in EntryLeaves(entries, from, depth)
    decreases |entries| - from
  {
    var first := Leaves(entries[from].value, depth + 1);
    if path[0] == from {
      var i :| 0 <= i < |first| && first[i] == path[1..];
      assert Below(from, first)[i] == path;
      assert path in Below(from, first);
    } else {
      EntryLeavesComplete(entries, from + 1, depth, path);
    }
  }

  ghost predicate Ordered(paths: seq<Path>) {
    forall i, j :: 0 <= i < j < |paths| ==> Before(paths[i], paths[j])
  }

  lemma {:induction false} LeavesOrdered(v: Value, depth: nat)
    ensures Ordered(Leaves(v, depth))
    decreases v
  {
    if v.Mapping? && v.entries != [] && depth < 5 {
      EntryLeavesOrdered(v.entries, 0, depth);
    }
  }

  lemma {:induction false} EntryLeavesOrdered(entries: seq<Entry>, from: nat, depth: nat)
    requires depth < 5
    ensures Ordered(EntryLeaves(entries, from, depth))
    decreases entries, |entries| - from
  {
    if from < |entries| {
      var first, rest := Leaves(entries[from].value, depth + 1), EntryLeaves(entries, from + 1, depth);
      LeavesOrdered(entries[from].value, depth + 1);
      EntryLeavesOrdered(entries, from + 1, depth);
      forall i, j | 0 <= i < j < |Below(from, first) + rest|
        ensures Before((Below(from, first) + rest)[i], (Below(from, first) + rest)[j])
      {
        if j < |first| {
          assert Below(from, first)[i][1..] == first[i] && Below(from, first)[j][1..] == first[j];
        } else if i < |first| {
          assert rest[j - |first|] in rest;
          EntryLeavesSound(entries, from + 1, depth, rest[j - |first|]);
        }
      }
    }
  }

  // ---- What the printer makes of them ----

  /** The field is printed for the leaf at this path. */
  ghost predicate PrintedFor(f: Field, prefix: Text, v: Value, path: Path) {
    f.key == KeyAt(prefix, v, path) && Some(f.value) == ValueAt(v, path)
  }

  /** Each field is printed for the leaf in its place. */
  ghost predicate Prints(fields: seq<Field>, prefix: Text, v: Value, paths: seq<Path>) {
    |fields| == |paths| && forall i :: 0 <= i < |fields| ==> PrintedFor(fields[i], prefix, v, paths[i])
  }

  lemma PrintsConcat(f: seq<Field>, g: seq<Field>, prefix: Text, v: Value, p: seq<Path>, q: seq<Path>)
    requires Prints(f, prefix, v, p) && Prints(g, prefix, v, q)
    ensures Prints(f + g, prefix, v, p + q)
  {
    forall i | 0 <= i < |f + g|
      ensures PrintedFor((f + g)[i], prefix, v, (p + q)[i])
    {
      if i < |f| {
        assert PrintedFor(f[i], prefix, v, p[i]);
      } else {
        assert PrintedFor(g[i - |f|], prefix, v, q[i - |f|]);
      }
    }
  }

  lemma PrintsBelow(fields: seq<Field>, prefix: Text, v: Value, k: nat, paths: seq<Path>)
    requires v.Mapping? && k < |v.entries|
    requires Prints(fields, prefix + [DOT] + Key(v.entries[k].key), v.entries[k].value, paths)
    ensures Prints(fields, prefix, v, Below(k, paths))
  {
    forall i | 0 <= i < |fields|
      ensures PrintedFor(fields[i], prefix, v, Below(k, paths)[i])
    {
      assert PrintedFor(fields[i], prefix + [DOT] + Key(v.entries[k].key), v.entries[k].value, paths[i]);
      assert Below(k, paths)[i][1..] == paths[i];
    }
  }

  lemma {:induction false} FlattenPrints(prefix: Text, v: Value, depth: nat)
    ensures Prints(Flatten(prefix, v, depth), prefix, v, Leaves(v, depth))
    decreases v
  {
    if v.Mapping? && v.entries != [] && depth < 5 {
      EntriesPrint(prefix, v, 0, depth);
      assert v.entries[0..] == v.entries;
    }
  }

  lemma {:induction false} EntriesPrint(prefix: Text, v: Value, from: nat, depth: nat)
    requires v.Mapping? && from <= |v.entries|
    ensures Prints(FlattenEntries(prefix, v.entries[from..], depth), prefix, v, EntryLeaves(v.entries, from, depth))
    decreases v, |v.entries| - from
  {
    if from < |v.entries| {
      var e := v.entries[from];
      FlattenPrints(prefix + [DOT] + Key(e.key), e.value, depth + 1);
      PrintsBelow(Flatten(prefix + [DOT] + Key(e.key), e.value, depth + 1), prefix, v, from, Leaves(e.value, depth + 1));
      EntriesPrint(prefix, v, from + 1, depth);
      EntriesFrom(prefix, v.entries, from, depth);
      PrintsConcat(Flatten(prefix + [DOT] + Key(e.key), e.value, depth + 1),
                   FlattenEntries(prefix, v.entries[from + 1..], depth), prefix, v,
                   Below(from, Leaves(e.value, depth + 1)), EntryLeaves(v.entries, from + 1, depth));
    }
  }

  // ---- The leaves of a record ----

  /** A place in the `llm` or in the `meta` mapping. */
  datatype Place = InLlm(path: Path) | InMeta(path: Path)

  function LookUp(r: Record, p: Place): Option<Value> {
    match p
    case InLlm(path) => ValueAt(Mapping(r.llm, []), path)
    case InMeta(path) => ValueAt(Mapping(r.meta, []), path)
  }

  /** The `llm` block itself counts as a key; neither mapping itself is a leaf. */
  ghost predicate IsLeafOf(r: Record, p: Place) {
    match p
    case InLlm(path) => path != [] && IsLeaf(Mapping(r.llm, []), 1, path)
    case InMeta(path) => path != [] && IsLeaf(Mapping(r.meta, []), 0, path)
  }

  /** A top-level key of `meta` that would read like a core field is set apart. */
  function TopKey(raw: Text): Text {
    if CoreName(Key(raw)) then Ascii("meta.") + Key(raw) else Key(raw)
  }

  function PrintedKey(r: Record, p: Place): Text {
    match p
    case InLlm(path) => KeyAt(Ascii("llm"), Mapping(r.llm, []), path)
    case InMeta(path) =>
      if path != [] && path[0] < |r.meta| then KeyAt(TopKey(r.meta[path[0]].key), r.meta[path[0]].value, path[1..]) else []
  }

  predicate Earlier(p: Place, q: Place) {
    match (p, q)
    case (InLlm(a), InLlm(b)) => Before(a, b)
    case (InMeta(a), InMeta(b)) => Before(a, b)
    case (InLlm(_), InMeta(_)) => true
    case (InMeta(_), InLlm(_)) => false
  }

  function LlmPlaces(paths: seq<Path>): (places: seq<Place>)
    ensures |places| == |paths|
  {
    seq(|paths|, i requires 0 <= i < |paths| => InLlm(paths[i]))
  }

  function MetaPlaces(paths: seq<Path>): (places: seq<Place>)
    ensures |places| == |paths|
  {
    seq(|paths|, i requires 0 <= i < |paths| => InMeta(paths[i]))
  }

  function Places(r: Record): (places: seq<Place>)
    ensures |places| == |EntryLeaves(r.llm, 0, 1)| + |EntryLeaves(r.meta, 0, 0)|
  {
    LlmPlaces(EntryLeaves(r.llm, 0, 1)) + MetaPlaces(EntryLeaves(r.meta, 0, 0))
  }

  lemma PlacesAreLeaves(r: Record, p: Place)
    ensures p in Places(r) <==> IsLeafOf(r, p)
  {
    var llm, meta, places := EntryLeaves(r.llm, 0, 1), EntryLeaves(r.meta, 0, 0), Places(r);
    if IsLeafOf(r, p) {
      if p.InLlm? {
        LeafBelow(Mapping(r.llm, []), 1, p.path);
        LeavesComplete(r.llm[p.path[0]].value, 2, p.path[1..]);
        EntryLeavesComplete(r.llm, 0, 1, p.path);
        var i :| 0 <= i < |llm| && llm[i] == p.path;
        assert places[i] == p;
      } else {
        LeafBelow(Mapping(r.meta, []), 0, p.path);
        LeavesComplete(r.meta[p.path[0]].value, 1, p.path[1..]);
        EntryLeavesComplete(r.meta, 0, 0, p.path);
        var i :| 0 <= i < |meta| && meta[i] == p.path;
        assert places[|llm| + i] == p;
      }
    }
    if p in places {
      if p.InLlm? {
        assert p.path in llm;
        EntryLeavesSound(r.llm, 0, 1, p.path);
        LeafBelow(Mapping(r.llm, []), 1, p.path);
      } else {
        assert p.path in meta;
        EntryLeavesSound(r.meta, 0, 0, p.path);
        LeafBelow(Mapping(r.meta, []), 0, p.path);
      }
    }
  }

  lemma PlacesOrdered(r: Record)
    ensures forall i, j :: 0 <= i < j < |Places(r)| ==> Earlier(Places(r)[i], Places(r)[j])
  {
    EntryLeavesOrdered(r.llm, 0, 1);
    EntryLeavesOrdered(r.meta, 0, 0);
  }

  /** The same for the top level of `meta`, whose keys stand without a dot. */
  ghost predicate PrintsMeta(fields: seq<Field>, r: Record, paths: seq<Path>) {
    |fields| == |paths| && forall i :: 0 <= i < |fields| ==> PrintedAt(fields[i], r, InMeta(paths[i]))
  }

  ghost predicate PrintedAt(f: Field, r: Record, p: Place) {
    f.key == PrintedKey(r, p) && Some(f.value) == LookUp(r, p)
  }

  lemma PrintsMetaConcat(f: seq<Field>, g: seq<Field>, r: Record, p: seq<Path>, q: seq<Path>)
    requires PrintsMeta(f, r, p) && PrintsMeta(g, r, q)
    ensures PrintsMeta(f + g, r, p + q)
  {
    forall i | 0 <= i < |f + g|
      ensures PrintedAt((f + g)[i], r, InMeta((p + q)[i]))
    {
      if i < |f| {
        assert PrintedAt(f[i], r, InMeta(p[i]));
      } else {
        assert PrintedAt(g[i - |f|], r, InMeta(q[i - |f|]));
      }
    }
  }

  lemma TopKeyIsMetaKey(raw: Text)
    ensures TopKey(raw) == MetaKey(raw)
  {
  }

  lemma PrintsTop(fields: seq<Field>, r: Record, k: nat, paths: seq<Path>)
    requires k < |r.meta| && Prints(fields, TopKey(r.meta[k].key), r.meta[k].value, paths)
    ensures PrintsMeta(fields, r, Below(k, paths))
  {
    forall i | 0 <= i < |fields|
      ensures PrintedAt(fields[i], r, InMeta(Below(k, paths)[i]))
    {
      assert PrintedFor(fields[i], TopKey(r.meta[k].key), r.meta[k].value, paths[i]);
      assert Below(k, paths)[i][1..] == paths[i];
    }
  }

  lemma {:induction false} MetaPrints(r: Record, from: nat)
    requires from <= |r.meta|
    ensures PrintsMeta(MetaFields(r.meta[from..]), r, EntryLeaves(r.meta, from, 0))
    decreases |r.meta| - from
  {
    if from < |r.meta| {
      var e := r.meta[from];
      TopKeyIsMetaKey(e.key);
      FlattenPrints(MetaKey(e.key), e.value, 1);
      PrintsTop(Flatten(MetaKey(e.key), e.value, 1), r, from, Leaves(e.value, 1));
      MetaPrints(r, from + 1);
      MetaFrom(r.meta, from);
      PrintsMetaConcat(Flatten(MetaKey(e.key), e.value, 1), MetaFields(r.meta[from + 1..]), r,
                       Below(from, Leaves(e.value, 1)), EntryLeaves(r.meta, from + 1, 0));
    }
  }

  /** Each field is printed for the place beside it. */
  ghost predicate Matched(fields: seq<Field>, r: Record, places: seq<Place>) {
    |fields| == |places| && forall i :: 0 <= i < |fields| ==> PrintedAt(fields[i], r, places[i])
  }

  lemma PairedConcat<A, B>(f: seq<A>, g: seq<A>, p: seq<B>, q: seq<B>, holds: (A, B) -> bool)
    requires |f| == |p| && forall i :: 0 <= i < |f| ==> holds(f[i], p[i])
    requires |g| == |q| && forall i :: 0 <= i < |g| ==> holds(g[i], q[i])
    ensures |f + g| == |p + q| && forall i :: 0 <= i < |f + g| ==> holds((f + g)[i], (p + q)[i])
  {
  }

  lemma MatchedConcat(r: Record, f: seq<Field>, p: seq<Place>, g: seq<Field>, q: seq<Place>)
    requires Matched(f, r, p) && Matched(g, r, q)
    ensures Matched(f + g, r, p + q)
  {
    PairedConcat(f, g, p, q, (x: Field, y: Place) => PrintedAt(x, r, y));
  }

  lemma LlmMatched(r: Record)
    ensures Matched(FlattenEntries(Ascii("llm"), r.llm, 1), r, LlmPlaces(EntryLeaves(r.llm, 0, 1)))
  {
    var fields, paths := FlattenEntries(Ascii("llm"), r.llm, 1), EntryLeaves(r.llm, 0, 1);
    EntriesPrint(Ascii("llm"), Mapping(r.llm, []), 0, 1);
    assert r.llm[0..] == r.llm;
    forall i | 0 <= i < |fields|
      ensures PrintedAt(fields[i], r, LlmPlaces(paths)[i])
    {
      assert PrintedFor(fields[i], Ascii("llm"), Mapping(r.llm, []), paths[i]);
    }
  }

  lemma MetaMatched(r: Record)
    ensures Matched(MetaFields(r.meta), r, MetaPlaces(EntryLeaves(r.meta, 0, 0)))
  {
    MetaPrints(r, 0);
    assert r.meta[0..] == r.meta;
  }

  lemma AfterCore(core: seq<Field>, f: seq<Field>, g: seq<Field>)
    ensures (core + f + g)[|core|..] == f + g && (core + f + g)[..|core|] == core
  {
  }

  lemma PlacesMatched(r: Record)
    ensures |Fields(r)| == 4 + |Places(r)| && Fields(r)[..4] == CoreFields(r)
    ensures Matched(Fields(r)[4..], r, Places(r))
  {
    LlmMatched(r);
    MetaMatched(r);
    MatchedConcat(r, FlattenEntries(Ascii("llm"), r.llm, 1), LlmPlaces(EntryLeaves(r.llm, 0, 1)),
                  MetaFields(r.meta), MetaPlaces(EntryLeaves(r.meta, 0, 0)));
    AfterCore(CoreFields(r), FlattenEntries(Ascii("llm"), r.llm, 1), MetaFields(r.meta));
  }

  lemma PlacesPrinted(r: Record)
    ensures |Fields(r)| == 4 + |Places(r)|
    ensures forall i :: 0 <= i < |Places(r)| ==> PrintedAt(Fields(r)[4 + i], r, Places(r)[i])
  {
    PlacesMatched(r);
    forall i | 0 <= i < |Places(r)|
      ensures PrintedAt(Fields(r)[4 + i], r, Places(r)[i])
    {
      assert Fields(r)[4..][i] == Fields(r)[4 + i];
    }
  }

  /**
    The printed pairs of any record: timestamp, level, logger and message, and then exactly one for each leaf of its
    `llm` block and its `meta`, in order, with the leaf's value under the dotted key that leads to it.
   */
  lemma {:induction false} FieldsAreLeaves(r: Record)
    ensures var fields, places := Fields(r), Places(r);
            && |fields| == 4 + |places|
            && fields[0] == Field(Ascii("timestamp"), String(r.timestamp)) && fields[1] == Field(Ascii("level"), String(r.level))
            && fields[2] == Field(Ascii("logger"), String(r.logger)) && fields[3] == Field(Ascii("message"), String(r.message))
            && (forall i :: 0 <= i < |places| ==> PrintedAt(fields[4 + i], r, places[i]))
            && (forall p :: p in places <==> IsLeafOf(r, p))
            && (forall i, j :: 0 <= i < j < |places| ==> Earlier(places[i], places[j]))
  {
    PlacesPrinted(r);
    PlacesOrdered(r);
    forall p
      ensures p in Places(r) <==> IsLeafOf(r, p)
    {
      PlacesAreLeaves(r, p);
    }
  }

  // ---- The round trip, leaf by leaf ----

  /** The text is what this value stands for. */
  ghost predicate Says(text: Text, v: Value) {
    match v
    case Null => text == Ascii("null")
    case Bool(b) => text == if b then Ascii("true") else Ascii("false")
    case Number(t) => text == t
    case String(t) => text == t
    case Listing(t) => text == t
    case Mapping(_, t) => text == t
    case Other(t) => text == t
  }

  /**
    Every leaf of a record comes back from its line character for character under its printed key, unless a later
    leaf is printed under the same key.
   */
  lemma {:induction false} LeavesSurvive(r: Record, p: Place)
    requires RecordPlain(r) && IsLeafOf(r, p)
    requires forall q :: IsLeafOf(r, q) && Earlier(p, q) ==> PrintedKey(r, q) != PrintedKey(r, p)
    ensures LookUp(r, p).Some?
    ensures var parsed := Parse(Format(r));
            PrintedKey(r, p) in parsed && Says(parsed[PrintedKey(r, p)], LookUp(r, p).value)
  {
    PlacesAreLeaves(r, p);
    var i :| 0 <= i < |Places(r)| && Places(r)[i] == p;
    forall j | i < j < |Places(r)|
      ensures PrintedKey(r, Places(r)[j]) != PrintedKey(r, p)
    {
      LaterPlace(r, i, j);
    }
    PlaceSurvives(r, i);
  }

  lemma PlaceSurvives(r: Record, i: nat)
    requires RecordPlain(r) && i < |Places(r)|
    requires forall j :: i < j < |Places(r)| ==> PrintedKey(r, Places(r)[j]) != PrintedKey(r, Places(r)[i])
    ensures var p, parsed := Places(r)[i], Parse(Format(r));
            && LookUp(r, p).Some?
            && PrintedKey(r, p) in parsed && Says(parsed[PrintedKey(r, p)], LookUp(r, p).value)
  {
    FieldOfPlace(r, i);
    forall j | 4 + i < j < |Fields(r)|
      ensures Fields(r)[j].key != Fields(r)[4 + i].key
    {
      FieldOfPlace(r, j - 4);
    }
    FieldsSurvive(r, 4 + i);
  }

  lemma FieldOfPlace(r: Record, i: nat)
    requires 4 + i < |Fields(r)| || i < |Places(r)|
    ensures |Fields(r)| == 4 + |Places(r)|
    ensures PrintedAt(Fields(r)[4 + i], r, Places(r)[i])
  {
    PlacesPrinted(r);
  }

  lemma LaterPlace(r: Record, i: nat, j: nat)
    requires i < j < |Places(r)|
    ensures IsLeafOf(r, Places(r)[j]) && Earlier(Places(r)[i], Places(r)[j])
  {
    PlacesOrdered(r);
    PlacesAreLeaves(r, Places(r)[j]);
  }

  /** And nothing else does: every key of the parsed line is a core field's or that of a leaf. */
  lemma {:induction false} NothingElseParsed(r: Record, key: Text)
    requires RecordPlain(r) && key in Parse(Format(r))
    ensures CoreName(key) || exists p :: IsLeafOf(r, p) && PrintedKey(r, p) == key
  {
    ParseFormat(r);
    var i := ExpectedKey(Fields(r), key);
    FieldKeys(r, i);
  }

  lemma FieldKeys(r: Record, i: nat)
    requires i < |Fields(r)|
    ensures CoreName(Fields(r)[i].key) || exists p :: IsLeafOf(r, p) && PrintedKey(r, p) == Fields(r)[i].key
  {
    if i < 4 {
      CoreNames(r, i);
    } else {
      FieldOfPlace(r, i - 4);
      PlacesAreLeaves(r, Places(r)[i - 4]);
    }
  }

  predicate CoreName(key: Text) {
    key == Ascii("timestamp") || key == Ascii("level") || key == Ascii("logger") || key == Ascii("message")
  }

  lemma CoreNames(r: Record, i: nat)
    requires i < 4
    ensures i < |Fields(r)| && CoreName(Fields(r)[i].key)
  {
    FieldsAreLeaves(r);
  }

  lemma {:induction false} ExpectedKey(fields: seq<Field>, key: Text) returns (i: nat)
    requires key in Expected(fields)
    ensures i < |fields| && fields[i].key == key
  {
    var n := |fields| - 1;
    if fields[n].key == key {
      i := n;
    } else {
      i := ExpectedKey(fields[..n], key);
    }
  }

  // ---- How keys and values look in the line ----

  /** A printed key is the raw one with each special character replaced, and an underscore if it is empty. */
  lemma KeyCharacters(raw: Text)
    ensures raw == [] ==> Key(raw) == [UNDERSCORE]
    ensures raw != [] ==> |Key(raw)| == |raw|
    ensures forall i :: 0 <= i < |raw| ==> Key(raw)[i] == if IsSpecial(raw[i]) then UNDERSCORE else raw[i]
  {
  }

  /** A text is printed bare exactly if it is not empty and has no special character; otherwise it is quoted. */
  lemma {:induction false} QuotedIff(t: Text)
    ensures t != [] && Clean(t) ==> Quote(t) == t
    ensures !(t != [] && Clean(t)) ==> Quote(t) == [QUOTE] + EscapeAll(t) + [QUOTE]
    ensures Quote(t) == t <==> t != [] && Clean(t)
  {
    EscapeAllGrows(t);
    assert |[QUOTE] + EscapeAll(t) + [QUOTE]| == |EscapeAll(t)| + 2;
  }

  lemma {:induction false} EscapeAllGrows(t: Text)
    ensures |EscapeAll(t)| >= |t|
  {
    if t != [] {
      EscapeAllGrows(t[1..]);
    }
  }

  /** The white space of `\s`, and the characters at which `str.splitlines` breaks. */
  lemma SpaceCharacters(c: Code)
    ensures IsSpace(c) <==>
              c in {9, 10, 11, 12, 13, 28, 29, 30, 31, 32, 133, 160, 5760, 8192, 8193, 8194, 8195, 8196, 8197, 8198, 8199,
                    8200, 8201, 8202, 8232, 8233, 8239, 8287, 12288}
    ensures IsLineBreak(c) <==> c in {10, 11, 12, 13, 28, 29, 30, 133, 8232, 8233}
  {
  }

  /** Which printable ASCII characters are special, and that spaces, control characters and line breaks all are. */
  lemma SpecialCharacters(c: Code)
    ensures 33 <= c <= 126 ==> (IsSpecial(c) <==> c in {34, 61, 92})
    ensures c <= 32 || c == 127 || c == 0xA0 || c == 0x3000 ==> IsSpecial(c)
    ensures IsLineBreak(c) || IsSpace(c) || IsControl(c) ==> IsSpecial(c)
    ensures IsControl(c) <==> c <= 31 || c in {127, 133, 8232, 8233}
  {
  }

  /** The named escapes of the quoted form. */
  lemma NamedEscapes()
    ensures Escape(QUOTE) == Ascii("\\\"") && Escape(BACKSLASH) == Ascii("\\\\")
    ensures Escape(NEWLINE) == Ascii("\\n") && Escape(RETURN) == Ascii("\\r") && Escape(TAB) == Ascii("\\t")
  {
  }

  /** Every other control character becomes `\\u` and four lower-case hex digits, and all else stays as it is. */
  lemma {:induction false} OtherEscapes(c: Code)
    requires c !in {QUOTE, BACKSLASH, NEWLINE, RETURN, TAB}
    ensures !IsControl(c) ==> Escape(c) == [c]
    ensures IsControl(c) ==>
              && |Escape(c)| == 6 && Escape(c)[..2] == [BACKSLASH, LOWER_U]
              && (forall i :: 2 <= i < 6 ==> 48 <= Escape(c)[i] <= 57 || 97 <= Escape(c)[i] <= 102)
              && Unescape(Escape(c)) == [c]
  {
    UnescapeOne(c, []);
    assert Escape(c) + [] == Escape(c);
  }
}
