/**
  The parser undoes the printer. Escaping and quoting are undone character by character; the scanner finds exactly
  the printed pairs; sanitised keys cannot shadow the core fields; and the line has no line break.
 */
module LogfmtRoundTrip {
  import opened Logfmt

  // ---- Characters ----

  /** No special character occurs in `t`. */
  ghost predicate Clean(t: Text) {
    forall i :: 0 <= i < |t| ==> !IsSpecial(t[i])
  }

  lemma WordClean(s: string)
    requires forall i :: 0 <= i < |s| ==> 'a' <= s[i] <= 'z' || s[i] == '.'
    ensures Clean(Ascii(s))
    ensures '.' !in s ==> DOT !in Ascii(s)
  {
    forall i | 0 <= i < |Ascii(s)|
      ensures !IsSpecial(Ascii(s)[i]) && (Ascii(s)[i] == DOT ==> s[i] == '.')
    {
      assert Ascii(s)[i] == s[i] as int;
    }
  }

  lemma ReservedClean()
    ensures forall t :: t in Reserved() ==> Clean(t) && t != [] && DOT !in t
  {
    WordClean("timestamp");
    WordClean("level");
    WordClean("logger");
    WordClean("message");
  }

  lemma WordsClean()
    ensures Clean(Ascii("llm")) && Clean(Ascii("meta.")) && Clean(Ascii("null")) && Clean(Ascii("true")) && Clean(Ascii("false"))
  {
    WordClean("llm");
    WordClean("meta.");
    WordClean("null");
    WordClean("true");
    WordClean("false");
  }

  lemma KeyClean(raw: Text)
    ensures Clean(Key(raw))
  {
  }

  /** A key that needed no replacement is printed as it is. */
  lemma {:induction false} KeyUnchanged(raw: Text)
    ensures Key(raw) == raw <==> raw != [] && Clean(raw)
  {
    if raw != [] && Clean(raw) {
      assert Key(raw) == raw;
    }
    if Key(raw) == raw {
      KeyClean(raw);
    }
  }

  lemma HexDigitValue(d: nat)
    requires d < 16
    ensures HexValue(HexDigit(d)) == d
    ensures !IsSpecial(HexDigit(d))
  {
  }

  lemma Hex4Value(c: Code)
    requires c < 0x10000
    ensures var h := Hex4(c);
            && IsHex4(h) && Clean(h)
            && HexValue(h[0]) * 4096 + HexValue(h[1]) * 256 + HexValue(h[2]) * 16 + HexValue(h[3]) == c
  {
    var high, low := c / 256, c % 256;
    HexDigitValue(high / 16);
    HexDigitValue(high % 16);
    HexDigitValue(low / 16);
    HexDigitValue(low % 16);
    assert HexValue(Hex4(c)[0]) * 16 + HexValue(Hex4(c)[1]) == high;
    assert HexValue(Hex4(c)[2]) * 16 + HexValue(Hex4(c)[3]) == low;
  }

  // ---- Escapes ----

  lemma UnescapeControl(c: Code, tail: Text)
    requires IsControl(c) && Escape(c) == [BACKSLASH, LOWER_U] + Hex4(c)
    ensures Unescape(Escape(c) + tail) == [c] + Unescape(tail)
  {
    var t := Escape(c) + tail;
    Hex4Value(c);
    assert t[2..] == Hex4(c) + tail;
    assert t[2] == Hex4(c)[0] && t[3] == Hex4(c)[1] && t[4] == Hex4(c)[2] && t[5] == Hex4(c)[3];
    assert t[6..] == tail;
  }

  lemma {:induction false} UnescapeOne(c: Code, tail: Text)
    ensures Unescape(Escape(c) + tail) == [c] + Unescape(tail)
  {
    var t := Escape(c) + tail;
    if c == QUOTE || c == BACKSLASH || c == NEWLINE || c == RETURN || c == TAB {
      assert t[2..] == tail;
    } else if IsControl(c) {
      UnescapeControl(c, tail);
    } else {
      assert t[1..] == tail;
    }
  }

  /** Every text comes back from its escaped form, whatever it contains. */
  lemma {:induction false} UnescapeEscape(t: Text)
    ensures Unescape(EscapeAll(t)) == t
  {
    if t != [] {
      UnescapeOne(t[0], EscapeAll(t[1..]));
      UnescapeEscape(t[1..]);
    }
  }

  lemma QuotedLenPlain(c: Code, tail: Text)
    requires c != QUOTE && c != BACKSLASH
    ensures QuotedLen([c] + tail) == Longer(1, QuotedLen(tail))
  {
    assert ([c] + tail)[1..] == tail;
  }

  lemma QuotedLenPair(c: Code, tail: Text)
    requires c != NEWLINE
    ensures QuotedLen([BACKSLASH, c] + tail) == Longer(2, QuotedLen(tail))
  {
    assert ([BACKSLASH, c] + tail)[2..] == tail;
  }

  lemma {:induction false} QuotedLenClean(t: Text, tail: Text)
    requires Clean(t)
    ensures QuotedLen(t + tail) == Longer(|t|, QuotedLen(tail))
  {
    if t == [] {
      assert t + tail == tail;
    } else {
      assert t + tail == [t[0]] + (t[1..] + tail);
      QuotedLenPlain(t[0], t[1..] + tail);
      QuotedLenClean(t[1..], tail);
    }
  }

  /** No escape sequence contains a quote that would end the value early. */
  lemma QuotedLenEscape(c: Code, tail: Text)
    ensures QuotedLen(Escape(c) + tail) == Longer(|Escape(c)|, QuotedLen(tail))
  {
    if c == QUOTE || c == BACKSLASH || c == NEWLINE || c == RETURN || c == TAB {
      QuotedLenPair(Escape(c)[1], tail);
    } else if IsControl(c) {
      Hex4Value(c);
      assert Escape(c) + tail == [BACKSLASH, LOWER_U] + (Hex4(c) + tail);
      QuotedLenPair(LOWER_U, Hex4(c) + tail);
      QuotedLenClean(Hex4(c), tail);
    } else {
      QuotedLenPlain(c, tail);
    }
  }

  lemma {:induction false} QuotedLenEscapeAll(t: Text, rest: Text)
    ensures QuotedLen(EscapeAll(t) + ([QUOTE] + rest)) == Found(|EscapeAll(t)| + 1)
  {
    if t == [] {
      assert EscapeAll(t) + ([QUOTE] + rest) == [QUOTE] + rest;
    } else {
      var tail := EscapeAll(t[1..]) + ([QUOTE] + rest);
      assert EscapeAll(t) + ([QUOTE] + rest) == Escape(t[0]) + tail;
      QuotedLenEscape(t[0], tail);
      QuotedLenEscapeAll(t[1..], rest);
    }
  }

  // ---- The scanner on one pair ----

  lemma {:induction false} KeyLenExact(key: Text, rest: Text)
    requires Clean(key) && (rest == [] || !IsKeyChar(rest[0]))
    ensures KeyLen(key + rest) == |key|
  {
    if key == [] {
      assert key + rest == rest;
    } else {
      assert (key + rest)[1..] == key[1..] + rest;
      KeyLenExact(key[1..], rest);
    }
  }

  lemma {:induction false} BareLenExact(value: Text, rest: Text)
    requires Clean(value) && (rest == [] || !IsBareChar(rest[0]))
    ensures BareLen(value + rest) == |value|
  {
    if value == [] {
      assert value + rest == rest;
    } else {
      assert (value + rest)[1..] == value[1..] + rest;
      BareLenExact(value[1..], rest);
    }
  }

  /** What the printer relies on: the text of a number is plain, as `str()` of an int or float is. */
  ghost predicate NumbersPlain(v: Value) {
    match v
    case Number(text) => text != [] && Clean(text)
    case Mapping(entries, _) => forall e :: e in entries ==> NumbersPlain(e.value)
    case _ => true
  }

  ghost predicate Printable(f: Field) {
    f.key != [] && Clean(f.key) && NumbersPlain(f.value)
  }

  /** A printed scalar is a clean bare text or a quoted one. */
  lemma ScalarForms(v: Value)
    requires NumbersPlain(v)
    ensures Scalar(v) == [QUOTE] + EscapeAll(PlainText(v)) + [QUOTE] || (Scalar(v) == PlainText(v) && Clean(PlainText(v)) && PlainText(v) != [])
  {
    WordsClean();
  }

  lemma DecodeScalar(v: Value)
    requires NumbersPlain(v)
    ensures Decode(Scalar(v)) == PlainText(v)
  {
    ScalarForms(v);
    if Scalar(v) == [QUOTE] + EscapeAll(PlainText(v)) + [QUOTE] {
      assert Scalar(v)[1..|Scalar(v)| - 1] == EscapeAll(PlainText(v));
      UnescapeEscape(PlainText(v));
    }
  }

  lemma ValueLenQuoted(t: Text, rest: Text)
    ensures ValueLen([QUOTE] + EscapeAll(t) + [QUOTE] + rest) == |EscapeAll(t)| + 2
  {
    var line := [QUOTE] + EscapeAll(t) + [QUOTE] + rest;
    QuotedLenEscapeAll(t, rest);
    assert line[1..] == EscapeAll(t) + ([QUOTE] + rest);
  }

  lemma ValueLenBare(t: Text, rest: Text)
    requires Clean(t) && t != [] && (rest == [] || rest[0] == SPACE)
    ensures ValueLen(t + rest) == |t|
  {
    BareLenExact(t, rest);
  }

  lemma ValueLenExact(v: Value, rest: Text)
    requires NumbersPlain(v) && (rest == [] || rest[0] == SPACE)
    ensures ValueLen(Scalar(v) + rest) == |Scalar(v)|
  {
    ScalarForms(v);
    if Scalar(v) == PlainText(v) && Clean(PlainText(v)) && PlainText(v) != [] {
      ValueLenBare(PlainText(v), rest);
    } else {
      ValueLenQuoted(PlainText(v), rest);
    }
  }

  /** Where the parts of a printed pair stand. */
  lemma PairParts(key: Text, value: Text, rest: Text)
    ensures var line := key + [EQUALS] + value + rest; var k, n := |key|, |value|;
            && line == key + ([EQUALS] + (value + rest))
            && line[..k] == key && line[k] == EQUALS && line[k + 1..] == value + rest
            && line[k + 1..k + 1 + n] == value && line[k + 1 + n..] == rest
  {
  }

  /** The scanner reads one printed pair and goes on after it. */
  lemma {:induction false} ScanPair(f: Field, rest: Text)
    requires Printable(f) && (rest == [] || rest[0] == SPACE)
    ensures Scan(Render(f) + rest) == [(f.key, Scalar(f.value))] + Scan(rest)
  {
    var line := Render(f) + rest;
    PairParts(f.key, Scalar(f.value), rest);
    KeyLenExact(f.key, [EQUALS] + (Scalar(f.value) + rest));
    ValueLenExact(f.value, rest);
    assert line[0] == f.key[0];
  }

  function Pairs(fields: seq<Field>): seq<(Text, Text)> {
    if fields == [] then [] else [(fields[0].key, Scalar(fields[0].value))] + Pairs(fields[1..])
  }

  lemma {:induction false} ScanJoin(fields: seq<Field>)
    requires forall f :: f in fields ==> Printable(f)
    ensures Scan(Join(fields)) == Pairs(fields)
  {
    if fields == [] {
    } else if |fields| == 1 {
      assert Render(fields[0]) + [] == Render(fields[0]);
      ScanPair(fields[0], []);
    } else {
      var rest := [SPACE] + Join(fields[1..]);
      assert Join(fields) == Render(fields[0]) + rest;
      ScanPair(fields[0], rest);
      assert rest[1..] == Join(fields[1..]);
      ScanJoin(fields[1..]);
    }
  }

  // ---- The round trip ----

  /** What a reader should get: each field's text under its key, a repeated key keeping the last one. */
  function Expected(fields: seq<Field>): map<Text, Text> {
    if fields == [] then map[]
    else Expected(fields[..|fields| - 1])[fields[|fields| - 1].key := PlainText(fields[|fields| - 1].value)]
  }

  lemma {:induction false} PairsIndex(fields: seq<Field>)
    ensures |Pairs(fields)| == |fields|
    ensures forall i :: 0 <= i < |fields| ==> Pairs(fields)[i] == (fields[i].key, Scalar(fields[i].value))
  {
    if fields != [] {
      PairsIndex(fields[1..]);
    }
  }

  lemma {:induction false} CollectPairs(fields: seq<Field>)
    requires forall f :: f in fields ==> NumbersPlain(f.value)
    ensures Collect(Pairs(fields)) == Expected(fields)
  {
    PairsIndex(fields);
    if fields != [] {
      var n := |fields| - 1;
      PairsIndex(fields[..n]);
      assert Pairs(fields)[..n] == Pairs(fields[..n]);
      CollectPairs(fields[..n]);
      DecodeScalar(fields[n].value);
    }
  }

  ghost predicate EntriesPlain(entries: seq<Entry>) {
    forall e :: e in entries ==> NumbersPlain(e.value)
  }

  lemma {:induction false} FlattenPrintable(prefix: Text, v: Value, depth: nat)
    requires prefix != [] && Clean(prefix) && NumbersPlain(v)
    ensures forall f :: f in Flatten(prefix, v, depth) ==> Printable(f)
    decreases v
  {
    if v.Mapping? && v.entries != [] && depth < MAX_FLATTEN_DEPTH {
      FlattenEntriesPrintable(prefix, v.entries, depth);
    }
  }

  lemma {:induction false} FlattenEntriesPrintable(prefix: Text, entries: seq<Entry>, depth: nat)
    requires prefix != [] && Clean(prefix) && EntriesPlain(entries)
    ensures forall f :: f in FlattenEntries(prefix, entries, depth) ==> Printable(f)
    decreases entries
  {
    if entries != [] {
      KeyClean(entries[0].key);
      FlattenPrintable(prefix + [DOT] + Key(entries[0].key), entries[0].value, depth + 1);
      FlattenEntriesPrintable(prefix, entries[1..], depth);
    }
  }

  lemma MetaKeyClean(raw: Text)
    ensures Clean(MetaKey(raw)) && MetaKey(raw) != []
  {
    WordsClean();
    KeyClean(raw);
  }

  lemma {:induction false} MetaPrintable(meta: seq<Entry>)
    requires EntriesPlain(meta)
    ensures forall f :: f in MetaFields(meta) ==> Printable(f)
  {
    if meta != [] {
      MetaKeyClean(meta[0].key);
      FlattenPrintable(MetaKey(meta[0].key), meta[0].value, 1);
      MetaPrintable(meta[1..]);
    }
  }

  ghost predicate RecordPlain(r: Record) {
    EntriesPlain(r.llm) && EntriesPlain(r.meta)
  }

  lemma FieldsPrintable(r: Record)
    requires RecordPlain(r)
    ensures forall f :: f in Fields(r) ==> Printable(f)
  {
    ReservedClean();
    WordsClean();
    assert forall f :: f in CoreFields(r) ==> f.key in Reserved();
    FlattenEntriesPrintable(Ascii("llm"), r.llm, 1);
    MetaPrintable(r.meta);
  }

  /** Parsing a formatted record gives exactly its flattened fields. */
  lemma ParseFormat(r: Record)
    requires RecordPlain(r)
    ensures Parse(Format(r)) == Expected(Fields(r))
  {
    FieldsPrintable(r);
    ScanJoin(Fields(r));
    CollectPairs(Fields(r));
  }

  lemma {:induction false} ExpectedLast(fields: seq<Field>, i: nat)
    requires i < |fields|
    requires forall j :: i < j < |fields| ==> fields[j].key != fields[i].key
    ensures fields[i].key in Expected(fields) && Expected(fields)[fields[i].key] == PlainText(fields[i].value)
    decreases |fields|
  {
    var n := |fields| - 1;
    if i < n {
      assert fields[n].key != fields[i].key;
      ExpectedLast(fields[..n], i);
    }
  }

  /** A field that no later field shares its key with comes back character for character. */
  lemma FieldsSurvive(r: Record, i: nat)
    requires RecordPlain(r) && i < |Fields(r)|
    requires forall j :: i < j < |Fields(r)| ==> Fields(r)[j].key != Fields(r)[i].key
    ensures var f := Fields(r)[i]; f.key in Parse(Format(r)) && Parse(Format(r))[f.key] == PlainText(f.value)
  {
    ParseFormat(r);
    ExpectedLast(Fields(r), i);
  }

  // ---- No field shadows a core field ----

  lemma {:induction false} FlattenKeys(prefix: Text, v: Value, depth: nat)
    ensures forall f :: f in Flatten(prefix, v, depth) ==> f.key == prefix || prefix + [DOT] <= f.key
    decreases v
  {
    if v.Mapping? && v.entries != [] && depth < MAX_FLATTEN_DEPTH {
      FlattenEntriesKeys(prefix, v.entries, depth);
    }
  }

  lemma {:induction false} FlattenEntriesKeys(prefix: Text, entries: seq<Entry>, depth: nat)
    ensures forall f :: f in FlattenEntries(prefix, entries, depth) ==> prefix + [DOT] <= f.key
    decreases entries
  {
    if entries != [] {
      var child := prefix + [DOT] + Key(entries[0].key);
      FlattenKeys(child, entries[0].value, depth + 1);
      forall f | f in Flatten(child, entries[0].value, depth + 1)
        ensures prefix + [DOT] <= f.key
      {
        assert child <= f.key;
        assert f.key[..|prefix| + 1] == child[..|prefix| + 1] == prefix + [DOT];
      }
      FlattenEntriesKeys(prefix, entries[1..], depth);
    }
  }

  lemma DottedNotReserved(key: Text, prefix: Text)
    requires prefix + [DOT] <= key
    ensures key !in Reserved()
  {
    ReservedClean();
    assert key[|prefix|] == (prefix + [DOT])[|prefix|] == DOT;
    assert DOT in key;
  }

  lemma {:induction false} MetaNotReserved(meta: seq<Entry>)
    ensures forall f :: f in MetaFields(meta) ==> f.key !in Reserved()
  {
    if meta != [] {
      var key := MetaKey(meta[0].key);
      assert key !in Reserved() by {
        if Key(meta[0].key) in Reserved() {
          assert Ascii("meta.") == [109, 101, 116, 97, 46];
          assert [109, 101, 116, 97] + [DOT] <= key;
          DottedNotReserved(key, [109, 101, 116, 97]);
        }
      }
      FlattenKeys(key, meta[0].value, 1);
      forall f | f in Flatten(key, meta[0].value, 1)
        ensures f.key !in Reserved()
      {
        if f.key != key {
          DottedNotReserved(f.key, key);
        }
      }
      MetaNotReserved(meta[1..]);
    }
  }

  lemma LaterNotReserved(r: Record, j: nat)
    requires 4 <= j < |Fields(r)|
    ensures Fields(r)[j].key !in Reserved()
  {
    var nested := FlattenEntries(Ascii("llm"), r.llm, 1);
    FlattenEntriesKeys(Ascii("llm"), r.llm, 1);
    MetaNotReserved(r.meta);
    var f := Fields(r)[j];
    assert f in nested || f in MetaFields(r.meta);
    if f in nested {
      DottedNotReserved(f.key, Ascii("llm"));
    }
  }

  lemma CoreKeys(r: Record)
    ensures |Fields(r)| >= 4
    ensures forall i :: 0 <= i < 4 ==> Fields(r)[i] == CoreFields(r)[i] && Fields(r)[i].key == Reserved()[i]
  {
  }

  /** Core field `i` comes back exactly; no key of `llm` or `meta` can overwrite it. */
  lemma CoreFieldExact(r: Record, i: nat)
    requires RecordPlain(r) && i < 4
    ensures var f := CoreFields(r)[i]; f.key in Parse(Format(r)) && Parse(Format(r))[f.key] == PlainText(f.value)
  {
    CoreKeys(r);
    ReservedDistinct();
    forall j | i < j < |Fields(r)|
      ensures Fields(r)[j].key != Fields(r)[i].key
    {
      if j >= 4 {
        LaterNotReserved(r, j);
        assert Fields(r)[i].key in Reserved();
      }
    }
    FieldsSurvive(r, i);
  }

  /** Timestamp, level, logger and message of any record come back exactly. */
  lemma CoreFieldsExact(r: Record)
    requires RecordPlain(r)
    ensures var p := Parse(Format(r));
            && Ascii("timestamp") in p && p[Ascii("timestamp")] == r.timestamp
            && Ascii("level") in p && p[Ascii("level")] == r.level
            && Ascii("logger") in p && p[Ascii("logger")] == r.logger
            && Ascii("message") in p && p[Ascii("message")] == r.message
  {
    CoreFieldExact(r, 0);
    CoreFieldExact(r, 1);
    CoreFieldExact(r, 2);
    CoreFieldExact(r, 3);
  }

  lemma ReservedDistinct()
    ensures forall i, j :: 0 <= i < j < 4 ==> Reserved()[i] != Reserved()[j]
  {
    var r := Reserved();
    assert |r[0]| == 9 && |r[1]| == 5 && |r[2]| == 6 && |r[3]| == 7;
  }

  // ---- One line ----

  ghost predicate NoControl(t: Text) {
    forall i :: 0 <= i < |t| ==> !IsControl(t[i])
  }

  lemma {:induction false} EscapeAllNoControl(t: Text)
    ensures NoControl(EscapeAll(t))
  {
    if t != [] {
      if IsControl(t[0]) && t[0] != NEWLINE && t[0] != RETURN && t[0] != TAB {
        Hex4Value(t[0]);
      }
      assert NoControl(Escape(t[0]));
      EscapeAllNoControl(t[1..]);
    }
  }

  lemma {:induction false} JoinNoControl(fields: seq<Field>)
    requires forall f :: f in fields ==> Printable(f)
    ensures NoControl(Join(fields))
  {
    if fields != [] {
      var f := fields[0];
      assert f in fields;
      ScalarForms(f.value);
      EscapeAllNoControl(PlainText(f.value));
      assert NoControl(Scalar(f.value));
      forall i | 0 <= i < |Render(f)|
        ensures !IsControl(Render(f)[i])
      {
        if i < |f.key| {
          assert Render(f)[i] == f.key[i];
        } else if i > |f.key| {
          assert Render(f)[i] == Scalar(f.value)[i - |f.key| - 1];
        }
      }
      JoinNoControl(fields[1..]);
    }
  }

  /** The line has no character at which a reader would break it. */
  lemma OneLine(r: Record)
    requires RecordPlain(r)
    ensures forall i :: 0 <= i < |Format(r)| ==> !IsLineBreak(Format(r)[i])
  {
    FieldsPrintable(r);
    JoinNoControl(Fields(r));
  }
}
