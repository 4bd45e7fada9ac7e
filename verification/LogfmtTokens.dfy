/**
  The parser on lines the printer did not write (logquill/parsing.py:104-128): flags without a value, bare values with
  equals signs in them, quoted values with escapes of any kind. `ParseTokens`: whatever such tokens a line is made of,
  the dictionary has the value of the last token for each key.
 */
module LogfmtTokens {
  import opened Sequences
  import opened Logfmt
  import opened LogfmtRoundTrip

  /** One character of a quoted value: itself, or behind a backslash. */
  datatype Unit = Char(c: Code) | Escaped(c: Code)

  datatype Token =
    | Flag(key: Text)                        // key
    | Plain(key: Text, value: Text)          // key=value
    | Quoted(key: Text, body: seq<Unit>)     // key="body"

  predicate UnitFits(u: Unit) {
    match u
    case Char(c) => c != QUOTE && c != BACKSLASH
    case Escaped(c) => c != NEWLINE
  }

  ghost predicate Fits(t: Token) {
    && t.key != [] && (forall i :: 0 <= i < |t.key| ==> !IsSpace(t.key[i]) && t.key[i] != EQUALS && t.key[i] != QUOTE)
    && match t
       case Flag(_) => true
       case Plain(_, value) => forall i :: 0 <= i < |value| ==> !IsSpace(value[i]) && value[i] != QUOTE
       case Quoted(_, body) => forall i :: 0 <= i < |body| ==> UnitFits(body[i])
  }

  function BodyText(body: seq<Unit>): Text {
    if body == [] then [] else UnitText(body[0]) + BodyText(body[1..])
  }

  function UnitText(u: Unit): Text {
    match u
    case Char(c) => [c]
    case Escaped(c) => [BACKSLASH, c]
  }

  function ValueText(t: Token): Text {
    match t
    case Flag(_) => []
    case Plain(_, value) => value
    case Quoted(_, body) => [QUOTE] + BodyText(body) + [QUOTE]
  }

  function TokenText(t: Token): Text {
    if t.Flag? then t.key else t.key + [EQUALS] + ValueText(t)
  }

  function Line(tokens: seq<Token>): Text {
    if tokens == [] then [] else TokenText(tokens[0]) + (if |tokens| == 1 then [] else [SPACE] + Line(tokens[1..]))
  }

  /** What a token stands for: nothing, its bare value, or its body with the escapes undone. */
  function Meaning(t: Token): Text {
    match t
    case Flag(_) => []
    case Plain(_, value) => value
    case Quoted(_, body) => Unescape(BodyText(body))
  }

  // ---- The scanner on one token ----

  predicate Ends(rest: Text) {
    rest == [] || rest[0] == SPACE
  }

  lemma {:induction false} KeyEnds(key: Text, rest: Text)
    requires (forall i :: 0 <= i < |key| ==> IsKeyChar(key[i])) && (rest == [] || !IsKeyChar(rest[0]))
    ensures KeyLen(key + rest) == |key|
  {
    if key == [] {
      assert key + rest == rest;
    } else {
      assert (key + rest)[1..] == key[1..] + rest;
      KeyEnds(key[1..], rest);
    }
  }

  lemma {:induction false} BareEnds(value: Text, rest: Text)
    requires (forall i :: 0 <= i < |value| ==> IsBareChar(value[i])) && Ends(rest)
    ensures BareLen(value + rest) == |value|
  {
    if value == [] {
      assert value + rest == rest;
    } else {
      assert (value + rest)[1..] == value[1..] + rest;
      BareEnds(value[1..], rest);
    }
  }

  lemma {:induction false} BodyEnds(body: seq<Unit>, rest: Text)
    requires forall i :: 0 <= i < |body| ==> UnitFits(body[i])
    ensures QuotedLen(BodyText(body) + ([QUOTE] + rest)) == Found(|BodyText(body)| + 1)
  {
    if body == [] {
      assert BodyText(body) + ([QUOTE] + rest) == [QUOTE] + rest;
    } else {
      var tail := BodyText(body[1..]) + ([QUOTE] + rest);
      BodyEnds(body[1..], rest);
      UnitLen(body[0], tail);
      ConcatAssoc(UnitText(body[0]), BodyText(body[1..]), [QUOTE] + rest);
    }
  }

  lemma UnitLen(u: Unit, tail: Text)
    requires UnitFits(u)
    ensures QuotedLen(UnitText(u) + tail) == Longer(|UnitText(u)|, QuotedLen(tail))
  {
    match u
    case Char(c) => QuotedLenPlain(c, tail);
    case Escaped(c) => QuotedLenPair(c, tail);
  }

  lemma ValueEnds(t: Token, rest: Text)
    requires Fits(t) && Ends(rest)
    ensures ValueLen(ValueText(t) + rest) == |ValueText(t)|
  {
    match t
    case Flag(_) => BareValueEnds([], rest);
    case Plain(_, value) => BareValueEnds(value, rest);
    case Quoted(_, body) => QuotedValueEnds(body, rest);
  }

  lemma BareValueEnds(value: Text, rest: Text)
    requires (forall i :: 0 <= i < |value| ==> IsBareChar(value[i])) && Ends(rest)
    ensures ValueLen(value + rest) == |value|
  {
    BareEnds(value, rest);
    var line := value + rest;
    assert line != [] ==> line[0] == if value == [] then SPACE else value[0];
  }

  lemma QuotedValueEnds(body: seq<Unit>, rest: Text)
    requires forall i :: 0 <= i < |body| ==> UnitFits(body[i])
    ensures ValueLen([QUOTE] + BodyText(body) + [QUOTE] + rest) == |BodyText(body)| + 2
  {
    BodyEnds(body, rest);
    assert ([QUOTE] + BodyText(body) + [QUOTE] + rest)[1..] == BodyText(body) + ([QUOTE] + rest);
  }

  lemma ScanFlag(key: Text, rest: Text)
    requires Fits(Flag(key)) && Ends(rest)
    ensures Scan(key + rest) == [(key, [])] + Scan(rest)
  {
    var line := key + rest;
    KeyEnds(key, rest);
    assert line[0] == key[0];
    assert line[..|key|] == key && line[|key|..] == rest;
  }

  lemma {:induction false} ScanToken(t: Token, rest: Text)
    requires Fits(t) && Ends(rest)
    ensures Scan(TokenText(t) + rest) == [(t.key, ValueText(t))] + Scan(rest)
  {
    if t.Flag? {
      ScanFlag(t.key, rest);
    } else {
      ValueEnds(t, rest);
      ScanKeyValue(t.key, ValueText(t), rest);
    }
  }

  lemma ScanKeyValue(key: Text, value: Text, rest: Text)
    requires Fits(Flag(key)) && ValueLen(value + rest) == |value|
    ensures Scan(key + [EQUALS] + value + rest) == [(key, value)] + Scan(rest)
  {
    var line := key + [EQUALS] + value + rest;
    PairParts(key, value, rest);
    KeyEnds(key, [EQUALS] + (value + rest));
    assert line[0] == key[0];
  }

  function Pieces(tokens: seq<Token>): seq<(Text, Text)> {
    if tokens == [] then [] else [(tokens[0].key, ValueText(tokens[0]))] + Pieces(tokens[1..])
  }

  lemma {:induction false} ScanLine(tokens: seq<Token>)
    requires forall i :: 0 <= i < |tokens| ==> Fits(tokens[i])
    ensures Scan(Line(tokens)) == Pieces(tokens)
  {
    if tokens != [] {
      ScanLine(tokens[1..]);
      if |tokens| == 1 {
        ScanToken(tokens[0], []);
      } else {
        var rest := [SPACE] + Line(tokens[1..]);
        ScanToken(tokens[0], rest);
        assert rest[1..] == Line(tokens[1..]);
      }
    }
  }

  // ---- What is no token ----

  /** A space, a quote or an equals sign where a key should start is passed over. */
  lemma Skipped(c: Code, rest: Text)
    requires IsSpace(c) || c == QUOTE || c == EQUALS
    ensures Scan([c] + rest) == Scan(rest)
  {
    assert ([c] + rest)[1..] == rest;
  }

  lemma UnclosedLen(rest: Text)
    requires QuotedLen(rest) == NotFound
    ensures ValueLen([QUOTE] + rest) == 0
  {
    assert ([QUOTE] + rest)[1..] == rest;
    assert BareLen([QUOTE] + rest) == 0;
  }

  /** A quoted value that never ends leaves its key empty, and the scan goes on behind the quote. */
  lemma {:induction false} Unclosed(key: Text, rest: Text)
    requires Fits(Flag(key)) && QuotedLen(rest) == NotFound
    ensures Scan(key + [EQUALS] + ([QUOTE] + rest)) == [(key, [])] + Scan(rest)
  {
    UnclosedLen(rest);
    assert [] + ([QUOTE] + rest) == [QUOTE] + rest;
    ScanKeyValue(key, [], [QUOTE] + rest);
    assert key + [EQUALS] + [] == key + [EQUALS];
    Skipped(QUOTE, rest);
  }

  /** A body with no quote outside an escape never ends. */
  lemma {:induction false} NeverCloses(body: seq<Unit>)
    requires forall i :: 0 <= i < |body| ==> UnitFits(body[i])
    ensures QuotedLen(BodyText(body)) == NotFound
  {
    if body != [] {
      NeverCloses(body[1..]);
      UnitLen(body[0], BodyText(body[1..]));
    }
  }

  // ---- The dictionary ----

  lemma DecodeMeaning(t: Token)
    requires Fits(t)
    ensures Decode(ValueText(t)) == Meaning(t)
  {
    if t.Quoted? {
      assert ValueText(t)[1..|ValueText(t)| - 1] == BodyText(t.body);
    }
  }

  function LastWins(tokens: seq<Token>): map<Text, Text> {
    if tokens == [] then map[]
    else LastWins(tokens[..|tokens| - 1])[tokens[|tokens| - 1].key := Meaning(tokens[|tokens| - 1])]
  }

  lemma {:induction false} PiecesIndex(tokens: seq<Token>)
    ensures |Pieces(tokens)| == |tokens|
    ensures forall i :: 0 <= i < |tokens| ==> Pieces(tokens)[i] == (tokens[i].key, ValueText(tokens[i]))
  {
    if tokens != [] {
      PiecesIndex(tokens[1..]);
    }
  }

  lemma {:induction false} CollectPieces(tokens: seq<Token>)
    requires forall i :: 0 <= i < |tokens| ==> Fits(tokens[i])
    ensures Collect(Pieces(tokens)) == LastWins(tokens)
  {
    PiecesIndex(tokens);
    if tokens != [] {
      var n := |tokens| - 1;
      PiecesIndex(tokens[..n]);
      assert Pieces(tokens)[..n] == Pieces(tokens[..n]);
      CollectPieces(tokens[..n]);
      DecodeMeaning(tokens[n]);
    }
  }

  /** A line of any such tokens parses to their meanings, the last token of a key winning. */
  lemma ParseTokens(tokens: seq<Token>)
    requires forall i :: 0 <= i < |tokens| ==> Fits(tokens[i])
    ensures Parse(Line(tokens)) == LastWins(tokens)
  {
    ScanLine(tokens);
    CollectPieces(tokens);
  }

  // ---- Escapes ----

  /**
    Reading a quoted body from the left: a plain character is itself; `\u` and four hex digits are the character with
    that code; a named escape is the character named; and any other escape is kept as it stands.
   */
  lemma {:induction false} UnescapeUnit(u: Unit, tail: Text)
    requires UnitFits(u)
    ensures u.Char? ==> Unescape([u.c] + tail) == [u.c] + Unescape(tail)
    ensures u.Escaped? && u.c == LOWER_U && IsHex4(tail) ==>
              Unescape([BACKSLASH, u.c] + tail) ==
              [((HexValue(tail[0]) * 16 + HexValue(tail[1])) * 16 + HexValue(tail[2])) * 16 + HexValue(tail[3])] + Unescape(tail[4..])
    ensures u.Escaped? && !(u.c == LOWER_U && IsHex4(tail)) ==>
              Unescape([BACKSLASH, u.c] + tail) ==
              (if u.c == LOWER_N then [10] else if u.c == LOWER_R then [13] else if u.c == LOWER_T then [9]
               else if u.c == QUOTE || u.c == BACKSLASH then [u.c] else [BACKSLASH, u.c]) + Unescape(tail)
  {
    match u
    case Char(c) => assert ([c] + tail)[1..] == tail;
    case Escaped(c) =>
      var t := [BACKSLASH, c] + tail;
      assert t[2..] == tail;
      if c == LOWER_U && IsHex4(tail) {
        assert t[6..] == tail[4..];
      }
  }

  /** The value of a hex digit of either case. */
  lemma HexDigits(i: nat)
    requires i < 16
    ensures i < 10 ==> HexValue(48 + i) == i
    ensures i >= 10 ==> HexValue(97 + i - 10) == i && HexValue(65 + i - 10) == i
  {
  }
}
