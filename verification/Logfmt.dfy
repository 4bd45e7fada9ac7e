/**
  The logfmt printer (logquill/formatters/logfmt_formatter.py) and parser (logquill/parsing.py:104-128), over
  sequences of code points. The parser's two regular expressions are written out as scanners.

  `ParseFormat` shows that parsing a formatted record gives back the record's flattened fields, last one winning
  where two fields end up with the same key; `FieldsSurvive` and `CoreFieldsExact` draw the consequences.
 */
module Logfmt {
  import opened Sequences

  type Code = c: int | 0 <= c < 0x110000
  type Text = seq<Code>

  const TAB: Code := 9
  const NEWLINE: Code := 10
  const RETURN: Code := 13
  const SPACE: Code := 32
  const QUOTE: Code := 34
  const DOT: Code := 46
  const EQUALS: Code := 61
  const BACKSLASH: Code := 92
  const UNDERSCORE: Code := 95
  const LOWER_N: Code := 110
  const LOWER_R: Code := 114
  const LOWER_T: Code := 116
  const LOWER_U: Code := 117

  /** The code points of an ASCII literal. */
  function Ascii(s: string): (t: Text)
    ensures |t| == |s|
  {
    seq(|s|, i requires 0 <= i < |s| => if s[i] < 128 as char then s[i] as int else 0)
  }

  // ---- Character classes ----

  /** Python's `\s` on text. */
  predicate IsSpace(c: Code) {
    || 9 <= c <= 13 || 28 <= c <= 32 || c == 0x85 || c == 0xA0 || c == 0x1680 || 0x2000 <= c <= 0x200A
    || c == 0x2028 || c == 0x2029 || c == 0x202F || c == 0x205F || c == 0x3000
  }

  predicate IsControl(c: Code) {
    c <= 0x1F || c == 0x7F || c == 0x85 || c == 0x2028 || c == 0x2029
  }

  /** A character at which a reader may split text into lines. */
  predicate IsLineBreak(c: Code) {
    10 <= c <= 13 || 28 <= c <= 30 || c == 0x85 || c == 0x2028 || c == 0x2029
  }

  /** Characters that force quoting in a value and are replaced in a key. */
  predicate IsSpecial(c: Code) {
    IsSpace(c) || c == QUOTE || c == EQUALS || c == BACKSLASH || IsControl(c)
  }

  predicate NeedsQuotes(text: Text) {
    text == [] || exists i :: 0 <= i < |text| && IsSpecial(text[i])
  }

  // ---- The printer ----

  function HexDigit(d: nat): Code
    requires d < 16
  {
    if d < 10 then 48 + d else 87 + d
  }

  function Hex4(c: Code): (t: Text)
    requires c < 0x10000
    ensures |t| == 4
  {
    var high, low := c / 256, c % 256;
    [HexDigit(high / 16), HexDigit(high % 16), HexDigit(low / 16), HexDigit(low % 16)]
  }

  function Escape(c: Code): (t: Text)
    ensures |t| >= 1
  {
    if c == QUOTE then [BACKSLASH, QUOTE]
    else if c == BACKSLASH then [BACKSLASH, BACKSLASH]
    else if c == NEWLINE then [BACKSLASH, LOWER_N]
    else if c == RETURN then [BACKSLASH, LOWER_R]
    else if c == TAB then [BACKSLASH, LOWER_T]
    else if IsControl(c) then [BACKSLASH, LOWER_U] + Hex4(c)
    else [c]
  }

  function EscapeAll(text: Text): Text {
    if text == [] then [] else Escape(text[0]) + EscapeAll(text[1..])
  }

  function Quote(text: Text): Text {
    if NeedsQuotes(text) then [QUOTE] + EscapeAll(text) + [QUOTE] else text
  }

  /** A key with its special characters replaced, never empty. */
  function Key(raw: Text): (t: Text)
    ensures t != []
  {
    if raw == [] then [UNDERSCORE]
    else seq(|raw|, i requires 0 <= i < |raw| => if IsSpecial(raw[i]) then UNDERSCORE else raw[i])
  }

  /**
    A value as the printer sees it. `Number` carries the text of an int or float; `Mapping`, `Listing` and `Other`
    carry the text they degrade to (their JSON or their `str()`), whatever that is.
   */
  datatype Value =
    | Null
    | Bool(b: bool)
    | Number(text: Text)
    | String(text: Text)
    | Listing(text: Text)
    | Mapping(entries: seq<Entry>, text: Text)
    | Other(text: Text)

  /** A key (as text) and its value; a dict is a sequence of entries. */
  datatype Entry = Entry(key: Text, value: Value)

  datatype Record = Record(timestamp: Text, level: Text, logger: Text, message: Text, llm: seq<Entry>, meta: seq<Entry>)

  /** The text a value stands for, before any quoting. */
  function PlainText(v: Value): Text {
    match v
    case Null => Ascii("null")
    case Bool(b) => if b then Ascii("true") else Ascii("false")
    case Number(text) => text
    case String(text) => text
    case Listing(text) => text
    case Mapping(_, text) => text
    case Other(text) => text
  }

  function Scalar(v: Value): Text {
    match v
    case Null => Ascii("null")
    case Bool(b) => if b then Ascii("true") else Ascii("false")
    case Number(text) => text
    case _ => Quote(PlainText(v))
  }

  const MAX_FLATTEN_DEPTH := 5

  /** One `key=value` pair of the line. */
  datatype Field = Field(key: Text, value: Value)

  function Render(f: Field): Text {
    f.key + [EQUALS] + Scalar(f.value)
  }

  /** Nested mappings become dotted keys down to the depth limit. */
  function Flatten(prefix: Text, v: Value, depth: nat): seq<Field>
    decreases v
  {
    if v.Mapping? && v.entries != [] && depth < MAX_FLATTEN_DEPTH then FlattenEntries(prefix, v.entries, depth)
    else [Field(prefix, v)]
  }

  function FlattenEntries(prefix: Text, entries: seq<Entry>, depth: nat): seq<Field>
    decreases entries
  {
    if entries == [] then []
    else Flatten(prefix + [DOT] + Key(entries[0].key), entries[0].value, depth + 1) + FlattenEntries(prefix, entries[1..], depth)
  }

  function Reserved(): seq<Text> {
    [Ascii("timestamp"), Ascii("level"), Ascii("logger"), Ascii("message")]
  }

  /** A meta key that would shadow a core field is set apart. */
  function MetaKey(raw: Text): Text {
    if Key(raw) in Reserved() then Ascii("meta.") + Key(raw) else Key(raw)
  }

  function MetaFields(meta: seq<Entry>): seq<Field> {
    if meta == [] then [] else Flatten(MetaKey(meta[0].key), meta[0].value, 1) + MetaFields(meta[1..])
  }

  /** Every pair of the formatted line, in order. */
  function Fields(r: Record): seq<Field> {
    CoreFields(r) + FlattenEntries(Ascii("llm"), r.llm, 1) + MetaFields(r.meta)
  }

  function CoreFields(r: Record): seq<Field> {
    [Field(Ascii("timestamp"), String(r.timestamp)), Field(Ascii("level"), String(r.level)),
     Field(Ascii("logger"), String(r.logger)), Field(Ascii("message"), String(r.message))]
  }

  function Join(fields: seq<Field>): Text {
    if fields == [] then []
    else if |fields| == 1 then Render(fields[0])
    else Render(fields[0]) + [SPACE] + Join(fields[1..])
  }

  function Format(r: Record): Text {
    Join(Fields(r))
  }

  // ---- The printer as it runs ----

  /** The list of printed pairs that flattening appends to. */
  class PairList {
    var items: seq<Text>

    constructor (items: seq<Text>)
      ensures this.items == items
    {
      this.items := items;
    }

    method Append(item: Text)
      modifies this
      ensures items == old(items) + [item]
    {
      items := items + [item];
    }
  }

  function RenderAll(fields: seq<Field>): (r: seq<Text>)
    ensures |r| == |fields|
  {
    seq(|fields|, i requires 0 <= i < |fields| => Render(fields[i]))
  }

  /** One more stretch of fields has been printed: `next` moves from what is left to what is done. */
  lemma Advance(all: seq<Field>, done: seq<Field>, left: seq<Field>, next: seq<Field>, left': seq<Field>)
    requires all == done + left && left == next + left'
    ensures all == (done + next) + left'
    ensures RenderAll(done + next) == RenderAll(done) + RenderAll(next)
  {
  }

  lemma EntriesFrom(prefix: Text, entries: seq<Entry>, k: nat, depth: nat)
    requires k < |entries|
    ensures FlattenEntries(prefix, entries[k..], depth) ==
            Flatten(prefix + [DOT] + Key(entries[k].key), entries[k].value, depth + 1) + FlattenEntries(prefix, entries[k + 1..], depth)
  {
    assert entries[k..][1..] == entries[k + 1..];
  }

  lemma EntriesAdvance(prefix: Text, entries: seq<Entry>, k: nat, depth: nat, all: seq<Field>, done: seq<Field>,
                       next: seq<Field>)
    requires k < |entries| && all == done + FlattenEntries(prefix, entries[k..], depth)
    requires next == Flatten(prefix + [DOT] + Key(entries[k].key), entries[k].value, depth + 1)
    ensures all == (done + next) + FlattenEntries(prefix, entries[k + 1..], depth)
    ensures RenderAll(done + next) == RenderAll(done) + RenderAll(next)
  {
    EntriesFrom(prefix, entries, k, depth);
    Advance(all, done, FlattenEntries(prefix, entries[k..], depth), next, FlattenEntries(prefix, entries[k + 1..], depth));
  }

  lemma MetaFrom(meta: seq<Entry>, k: nat)
    requires k < |meta|
    ensures MetaFields(meta[k..]) == Flatten(MetaKey(meta[k].key), meta[k].value, 1) + MetaFields(meta[k + 1..])
  {
    assert meta[k..][1..] == meta[k + 1..];
  }

  method FlattenInto(prefix: Text, v: Value, depth: nat, out: PairList)
    modifies out
    ensures out.items == old(out.items) + RenderAll(Flatten(prefix, v, depth))
    decreases v
  {
    if v.Mapping? && v.entries != [] && depth < MAX_FLATTEN_DEPTH {
      FlattenEntriesInto(prefix, v.entries, depth, out);
      return;
    }
    out.Append(Render(Field(prefix, v)));
  }

  method FlattenEntriesInto(prefix: Text, entries: seq<Entry>, depth: nat, out: PairList)
    modifies out
    ensures out.items == old(out.items) + RenderAll(FlattenEntries(prefix, entries, depth))
    decreases entries
  {
    ghost var all := FlattenEntries(prefix, entries, depth);
    ghost var done: seq<Field> := [];
    var k := 0;
    while k < |entries|
      invariant k <= |entries|
      invariant all == done + FlattenEntries(prefix, entries[k..], depth)
      invariant out.items == old(out.items) + RenderAll(done)
    {
      ghost var next := Flatten(prefix + [DOT] + Key(entries[k].key), entries[k].value, depth + 1);
      EntriesAdvance(prefix, entries, k, depth, all, done, next);
      FlattenInto(prefix + [DOT] + Key(entries[k].key), entries[k].value, depth + 1, out);
      ConcatAssoc(old(out.items), RenderAll(done), RenderAll(next));
      done := done + next;
      k := k + 1;
    }
    assert done == all;
  }

  /** `" ".join(pairs)`. */
  function Spaced(items: seq<Text>): Text {
    if items == [] then []
    else if |items| == 1 then items[0]
    else items[0] + [SPACE] + Spaced(items[1..])
  }

  lemma {:induction false} SpacedIsJoin(fields: seq<Field>)
    ensures Spaced(RenderAll(fields)) == Join(fields)
  {
    if fields != [] {
      assert RenderAll(fields)[1..] == RenderAll(fields[1..]);
      SpacedIsJoin(fields[1..]);
    }
  }

  method FormatRecord(r: Record) returns (line: Text)
    ensures line == Format(r)
  {
    var pairs := new PairList([
      Ascii("timestamp") + [EQUALS] + Quote(r.timestamp),
      Ascii("level") + [EQUALS] + Quote(r.level),
      Ascii("logger") + [EQUALS] + Quote(r.logger),
      Ascii("message") + [EQUALS] + Quote(r.message)]);
    assert pairs.items == RenderAll(CoreFields(r));
    if r.llm != [] {
      FlattenEntriesInto(Ascii("llm"), r.llm, 1, pairs);
    }
    ghost var done := CoreFields(r) + FlattenEntries(Ascii("llm"), r.llm, 1);
    assert pairs.items == RenderAll(done);
    var k := 0;
    while k < |r.meta|
      invariant k <= |r.meta|
      invariant Fields(r) == done + MetaFields(r.meta[k..])
      invariant pairs.items == RenderAll(done)
    {
      ghost var next := Flatten(MetaKey(r.meta[k].key), r.meta[k].value, 1);
      MetaFrom(r.meta, k);
      Advance(Fields(r), done, MetaFields(r.meta[k..]), next, MetaFields(r.meta[k + 1..]));
      var key := Key(r.meta[k].key);
      if key in Reserved() {
        key := Ascii("meta.") + key;
      }
      FlattenInto(key, r.meta[k].value, 1, pairs);
      done := done + next;
      k := k + 1;
    }
    assert done == Fields(r);
    SpacedIsJoin(Fields(r));
    line := Spaced(pairs.items);
  }

  // ---- The parser ----

  predicate IsKeyChar(c: Code) {
    !IsSpace(c) && c != EQUALS && c != QUOTE
  }

  predicate IsBareChar(c: Code) {
    !IsSpace(c) && c != QUOTE
  }

  /** Length of the longest match of `[^\s="]+` (or of nothing) at the start. */
  function KeyLen(line: Text): (n: nat)
    ensures n <= |line|
  {
    if line == [] || !IsKeyChar(line[0]) then 0 else 1 + KeyLen(line[1..])
  }

  function BareLen(line: Text): (n: nat)
    ensures n <= |line|
  {
    if line == [] || !IsBareChar(line[0]) then 0 else 1 + BareLen(line[1..])
  }

  datatype Length = Found(n: nat) | NotFound

  function Longer(k: nat, rest: Length): Length {
    if rest.Found? then Found(rest.n + k) else NotFound
  }

  /** What follows an opening quote, up to and including the closing one; `.` does not match a newline. */
  function QuotedLen(line: Text): (r: Length)
    ensures r.Found? ==> 1 <= r.n <= |line|
  {
    if line == [] then NotFound
    else if line[0] == QUOTE then Found(1)
    else if line[0] == BACKSLASH then
      if |line| >= 2 && line[1] != NEWLINE then Longer(2, QuotedLen(line[2..])) else NotFound
    else Longer(1, QuotedLen(line[1..]))
  }

  /** Length of the value after `=`: a quoted string if one is there, else everything up to a space or quote. */
  function ValueLen(line: Text): (n: nat)
    ensures n <= |line|
  {
    if line != [] && line[0] == QUOTE && QuotedLen(line[1..]).Found? then 1 + QuotedLen(line[1..]).n
    else BareLen(line)
  }

  /** All matches of the pair pattern, left to right. */
  function Scan(line: Text): seq<(Text, Text)> {
    if line == [] then []
    else if !IsKeyChar(line[0]) then Scan(line[1..])
    else
      var k := KeyLen(line);
      if k < |line| && line[k] == EQUALS then
        var v := ValueLen(line[k + 1..]);
        [(line[..k], line[k + 1..k + 1 + v])] + Scan(line[k + 1 + v..])
      else
        [(line[..k], [])] + Scan(line[k..])
  }

  function HexValue(c: Code): (d: int)
    ensures -1 <= d < 16
  {
    if 48 <= c <= 57 then c - 48
    else if 97 <= c <= 102 then c - 87
    else if 65 <= c <= 70 then c - 55
    else -1
  }

  predicate IsHex4(t: Text) {
    |t| >= 4 && HexValue(t[0]) >= 0 && HexValue(t[1]) >= 0 && HexValue(t[2]) >= 0 && HexValue(t[3]) >= 0
  }

  /** Undoes the escapes, left to right; an unknown escape is kept as it stands. */
  function Unescape(body: Text): Text {
    if body == [] then []
    else if body[0] != BACKSLASH || |body| == 1 then [body[0]] + Unescape(body[1..])
    else if body[1] == LOWER_U && IsHex4(body[2..]) then
      [HexValue(body[2]) * 4096 + HexValue(body[3]) * 256 + HexValue(body[4]) * 16 + HexValue(body[5])] + Unescape(body[6..])
    else
      var c := body[1];
      (if c == QUOTE || c == BACKSLASH then [c]
       else if c == LOWER_N then [NEWLINE]
       else if c == LOWER_R then [RETURN]
       else if c == LOWER_T then [TAB]
       else [BACKSLASH, c]) + Unescape(body[2..])
  }

  function Decode(value: Text): Text {
    if |value| >= 2 && value[0] == QUOTE && value[|value| - 1] == QUOTE then Unescape(value[1..|value| - 1]) else value
  }

  /** The dictionary built from pairs in order: a repeated key keeps the last value. */
  function Collect(pairs: seq<(Text, Text)>): map<Text, Text> {
    if pairs == [] then map[]
    else Collect(pairs[..|pairs| - 1])[pairs[|pairs| - 1].0 := Decode(pairs[|pairs| - 1].1)]
  }

  function Parse(line: Text): map<Text, Text> {
    Collect(Scan(line))
  }

  method ParseLogfmt(line: Text) returns (fields: map<Text, Text>)
    ensures fields == Parse(line)
  {
    fields := map[];
    var pairs := Scan(line);
    var k := 0;
    while k < |pairs|
      invariant k <= |pairs|
      invariant fields == Collect(pairs[..k])
    {
      var value := pairs[k].1;
      if |value| >= 2 && value[0] == QUOTE && value[|value| - 1] == QUOTE {
        value := Unescape(value[1..|value| - 1]);
      }
      fields := fields[pairs[k].0 := value];
      assert pairs[..k + 1][..k] == pairs[..k];
      k := k + 1;
    }
    assert pairs[..k] == pairs;
  }
}
