/**
  Redacting overlapping matches (logquill/plugins/pii_redact_plugin.py). The patterns' matches are any list of spans
  of the text, empty ones included. The sorted sweep and the piecewise rebuild are proved against `Walk`, which goes
  through the text position by position, and against what a sweep promises about the spans it leaves out.
 */
module Redact {
  import opened Sequences

  /** A match: the characters from `start` up to `end`. */
  datatype Span = Span(start: nat, end: nat)

  ghost predicate Inside(text: string, spans: seq<Span>) {
    forall x :: x in spans ==> x.start <= x.end <= |text|
  }

  // ---- Sorting: leftmost first, longest first on a tie ----

  predicate Before(a: Span, b: Span) {
    a.start < b.start || (a.start == b.start && a.end >= b.end)
  }

  ghost predicate Sorted(s: seq<Span>) {
    forall i, j :: 0 <= i < j < |s| ==> Before(s[i], s[j])
  }

  function Insert(x: Span, s: seq<Span>): seq<Span> {
    if s == [] || Before(x, s[0]) then [x] + s else [s[0]] + Insert(x, s[1..])
  }

  function Sort(s: seq<Span>): seq<Span> {
    if s == [] then [] else Insert(s[0], Sort(s[1..]))
  }

  lemma {:induction false} InsertElements(x: Span, s: seq<Span>)
    ensures multiset(Insert(x, s)) == multiset{x} + multiset(s)
    ensures forall y :: y in Insert(x, s) <==> y == x || y in s
  {
    if s != [] && !Before(x, s[0]) {
      InsertElements(x, s[1..]);
      assert s == [s[0]] + s[1..];
    }
  }

  lemma {:induction false} InsertSorts(x: Span, s: seq<Span>)
    requires Sorted(s)
    ensures Sorted(Insert(x, s))
  {
    if s != [] && !Before(x, s[0]) {
      InsertSorts(x, s[1..]);
      InsertElements(x, s[1..]);
      var rest := Insert(x, s[1..]);
      forall j | 0 <= j < |rest|
        ensures Before(s[0], rest[j])
      {
        assert rest[j] in rest;
      }
    }
  }

  lemma {:induction false} SortSorts(s: seq<Span>)
    ensures Sorted(Sort(s))
    ensures multiset(Sort(s)) == multiset(s)
  {
    if s != [] {
      SortSorts(s[1..]);
      InsertSorts(s[0], Sort(s[1..]));
      InsertElements(s[0], Sort(s[1..]));
      assert s == [s[0]] + s[1..];
    }
  }

  lemma SortedSameFirst(a: seq<Span>, b: seq<Span>)
    requires Sorted(a) && Sorted(b) && multiset(a) == multiset(b) && a != [] && b != []
    ensures a[0] == b[0]
  {
    assert a[0] in multiset(b) && b[0] in multiset(a);
    assert a[0] in b && b[0] in a;
  }

  lemma SameRest(a: seq<Span>, b: seq<Span>)
    requires multiset(a) == multiset(b) && a != [] && b != [] && a[0] == b[0]
    ensures multiset(a[1..]) == multiset(b[1..])
  {
    assert a == [a[0]] + a[1..] && b == [b[0]] + b[1..];
    assert multiset(a) == multiset{a[0]} + multiset(a[1..]);
    assert multiset(b) == multiset{b[0]} + multiset(b[1..]);
    assert multiset(a[1..]) == multiset(a) - multiset{a[0]};
    assert multiset(b[1..]) == multiset(b) - multiset{b[0]};
  }

  /** Two sorted lists of the same spans are the same list: ties are equal spans. */
  lemma {:induction false} SortedIsUnique(a: seq<Span>, b: seq<Span>)
    requires Sorted(a) && Sorted(b) && multiset(a) == multiset(b)
    ensures a == b
  {
    assert |a| == |multiset(a)| == |multiset(b)| == |b|;
    if a != [] {
      SortedSameFirst(a, b);
      SameRest(a, b);
      SortedIsUnique(a[1..], b[1..]);
      assert a == [a[0]] + a[1..] && b == [b[0]] + b[1..];
    }
  }

  // ---- The sweep ----

  /** The spans from position `i` of a sorted list that the sweep takes, when the last one taken ended at `lastEnd`. */
  function Sweep(s: seq<Span>, i: nat, lastEnd: int): seq<Span>
    requires i <= |s|
    decreases |s| - i
  {
    if i == |s| then []
    else if s[i].start >= lastEnd then [s[i]] + Sweep(s, i + 1, s[i].end)
    else Sweep(s, i + 1, lastEnd)
  }

  function Chosen(spans: seq<Span>): seq<Span> {
    Sweep(Sort(spans), 0, -1)
  }

  /** In order and without overlap, the first of them not before `from`. */
  ghost predicate Apart(chosen: seq<Span>, from: int) {
    && (chosen != [] ==> chosen[0].start >= from)
    && (forall i, j :: 0 <= i < j < |chosen| ==> chosen[i].end <= chosen[j].start)
  }

  /** A chosen span that `x` starts in; on the same start, `x` is not the longer one. */
  ghost predicate StartsIn(x: Span, c: Span) {
    c.start <= x.start < c.end && (c.start == x.start ==> x.end <= c.end)
  }

  lemma {:induction false} SweepApart(s: seq<Span>, i: nat, lastEnd: int)
    requires i <= |s| && forall x :: x in s ==> x.start <= x.end
    ensures Apart(Sweep(s, i, lastEnd), lastEnd)
    ensures forall x :: x in Sweep(s, i, lastEnd) ==> x in s
    decreases |s| - i
  {
    if i < |s| {
      if s[i].start >= lastEnd {
        var rest := Sweep(s, i + 1, s[i].end);
        SweepApart(s, i + 1, s[i].end);
        assert forall j :: 0 <= j < |rest| ==> s[i].end <= rest[j].start by {
          assert forall j :: 0 < j < |rest| ==> rest[0].end <= rest[j].start;
          assert forall j :: 0 <= j < |rest| ==> rest[j] in s;
        }
      } else {
        SweepApart(s, i + 1, lastEnd);
      }
    }
  }

  /** `last` is the span taken last, so that nothing before its end is taken any more. */
  lemma {:induction false} SweepCovers(s: seq<Span>, i: nat, last: Span, x: Span)
    requires Sorted(s) && i <= |s| && x in s[i..]
    requires forall j :: i <= j < |s| ==> Before(last, s[j])
    ensures x in Sweep(s, i, last.end) || StartsIn(x, last) || exists c :: c in Sweep(s, i, last.end) && StartsIn(x, c)
    decreases |s| - i
  {
    if x != s[i] {
      assert x in s[i + 1..];
      if s[i].start >= last.end {
        SweepCovers(s, i + 1, s[i], x);
      } else {
        SweepCovers(s, i + 1, last, x);
      }
    }
  }

  /**
    What the sweep promises: the chosen spans are spans of the list, in order and pairwise disjoint, and every other
    span starts inside a chosen one that starts earlier or is at least as long.
   */
  lemma ChosenCovers(text: string, spans: seq<Span>)
    requires Inside(text, spans)
    ensures Apart(Chosen(spans), 0) && Inside(text, Chosen(spans))
    ensures forall c :: c in Chosen(spans) ==> c in spans
    ensures forall x :: x in spans && x !in Chosen(spans) ==> exists c :: c in Chosen(spans) && StartsIn(x, c)
  {
    var s := Sort(spans);
    SortSorts(spans);
    assert forall x :: x in s <==> x in multiset(s);
    assert forall x :: x in spans <==> x in multiset(spans);
    SweepApart(s, 0, -1);
    forall x | x in spans && x !in Chosen(spans)
      ensures exists c :: c in Chosen(spans) && StartsIn(x, c)
    {
      FirstIsChosen(s, x);
    }
  }

  lemma FirstIsChosen(s: seq<Span>, x: Span)
    requires Sorted(s) && x in s && x !in Sweep(s, 0, -1)
    ensures exists c :: c in Sweep(s, 0, -1) && StartsIn(x, c)
  {
    assert Sweep(s, 0, -1) == [s[0]] + Sweep(s, 1, s[0].end);
    assert s == [s[0]] + s[1..];
    SweepCovers(s, 1, s[0], x);
    assert s[0] in Sweep(s, 0, -1);
    forall c | c in Sweep(s, 1, s[0].end)
      ensures c in Sweep(s, 0, -1)
    {
    }
  }

  // ---- The rebuilt text ----

  /** What the loop appends from chosen span `i` on, with the text up to `cursor` done. */
  function Rebuilt(text: string, replacement: string, chosen: seq<Span>, i: nat, cursor: nat): string
    requires Inside(text, chosen) && Apart(chosen, 0) && i <= |chosen|
    requires cursor <= |text| && (i < |chosen| ==> cursor <= chosen[i].start)
    decreases |chosen| - i
  {
    if i == |chosen| then text[cursor..]
    else
      assert chosen[i] in chosen;
      text[cursor..chosen[i].start] + replacement + Rebuilt(text, replacement, chosen, i + 1, chosen[i].end)
  }

  /** How many of the chosen spans from `i` on start at position `p`. */
  function Starts(chosen: seq<Span>, i: nat, p: nat): nat
    requires i <= |chosen|
    decreases |chosen| - i
  {
    if i == |chosen| then 0 else (if chosen[i].start == p then 1 else 0) + Starts(chosen, i + 1, p)
  }

  predicate Covered(chosen: seq<Span>, i: nat, p: nat)
    requires i <= |chosen|
  {
    exists j :: i <= j < |chosen| && chosen[j].start <= p < chosen[j].end
  }

  function Repeat(replacement: string, n: nat): string {
    if n == 0 then "" else replacement + Repeat(replacement, n - 1)
  }

  /** What position `p` contributes: a replacement for each span that starts there, and its character if none covers it. */
  function At(text: string, replacement: string, chosen: seq<Span>, i: nat, p: nat): string
    requires i <= |chosen| && p <= |text|
  {
    Repeat(replacement, Starts(chosen, i, p)) + (if p < |text| && !Covered(chosen, i, p) then [text[p]] else "")
  }

  /** The reference: the text from position `p` on, one position after the other. */
  function Walk(text: string, replacement: string, chosen: seq<Span>, i: nat, p: nat): string
    requires i <= |chosen| && p <= |text|
    decreases |text| - p, 1
  {
    At(text, replacement, chosen, i, p) + WalkOn(text, replacement, chosen, i, p)
  }

  /** What follows position `p`. */
  function WalkOn(text: string, replacement: string, chosen: seq<Span>, i: nat, p: nat): string
    requires i <= |chosen| && p <= |text|
    decreases |text| - p, 0
  {
    if p < |text| then Walk(text, replacement, chosen, i, p + 1) else ""
  }

  lemma {:induction false} NoStarts(chosen: seq<Span>, i: nat, p: nat)
    requires i <= |chosen| && forall j :: i <= j < |chosen| ==> chosen[j].start != p
    ensures Starts(chosen, i, p) == 0
    decreases |chosen| - i
  {
    if i < |chosen| {
      NoStarts(chosen, i + 1, p);
    }
  }

  /** A span that lies behind the position no longer matters. */
  lemma {:induction false} WalkDrops(text: string, replacement: string, chosen: seq<Span>, i: nat, p: nat)
    requires i < |chosen| && p <= |text| && chosen[i].start < p && chosen[i].end <= p
    ensures Walk(text, replacement, chosen, i, p) == Walk(text, replacement, chosen, i + 1, p)
    decreases |text| - p
  {
    assert Covered(chosen, i, p) == Covered(chosen, i + 1, p);
    if p < |text| {
      WalkDrops(text, replacement, chosen, i, p + 1);
    }
  }

  /** Within a span nothing is emitted. */
  lemma InsideEmpty(text: string, replacement: string, chosen: seq<Span>, i: nat, p: nat)
    requires i < |chosen| && chosen[i].start < p < chosen[i].end && p <= |text|
    requires forall j :: i < j < |chosen| ==> chosen[i].end <= chosen[j].start
    ensures At(text, replacement, chosen, i, p) == ""
  {
    NoStarts(chosen, i, p);
    assert Covered(chosen, i, p);
  }

  lemma WalkSilent(text: string, replacement: string, chosen: seq<Span>, i: nat, p: nat)
    requires i <= |chosen| && p < |text| && At(text, replacement, chosen, i, p) == ""
    ensures Walk(text, replacement, chosen, i, p) == Walk(text, replacement, chosen, i, p + 1)
  {
  }

  lemma {:induction false} WalkSkips(text: string, replacement: string, chosen: seq<Span>, i: nat, p: nat)
    requires i < |chosen| && chosen[i].start < p <= chosen[i].end <= |text|
    requires forall j :: i < j < |chosen| ==> chosen[i].end <= chosen[j].start
    ensures Walk(text, replacement, chosen, i, p) == Walk(text, replacement, chosen, i + 1, chosen[i].end)
    decreases chosen[i].end - p
  {
    if p == chosen[i].end {
      WalkDrops(text, replacement, chosen, i, p);
    } else {
      InsideEmpty(text, replacement, chosen, i, p);
      WalkSilent(text, replacement, chosen, i, p);
      WalkSkips(text, replacement, chosen, i, p + 1);
    }
  }

  /** Where a non-empty span starts, the replacement is all that is emitted. */
  lemma StartOnly(text: string, replacement: string, chosen: seq<Span>, i: nat)
    requires i < |chosen| && chosen[i].start < chosen[i].end <= |text|
    requires forall j :: i < j < |chosen| ==> chosen[i].end <= chosen[j].start
    ensures At(text, replacement, chosen, i, chosen[i].start) == replacement
  {
    var p := chosen[i].start;
    NoStarts(chosen, i + 1, p);
    assert Starts(chosen, i, p) == 1;
    assert Repeat(replacement, 1) == replacement + Repeat(replacement, 0) == replacement;
    assert Covered(chosen, i, p);
  }

  lemma EmptyStart(text: string, replacement: string, chosen: seq<Span>, i: nat)
    requires i < |chosen| && chosen[i].start == chosen[i].end <= |text|
    ensures var p := chosen[i].start;
            At(text, replacement, chosen, i, p) == replacement + At(text, replacement, chosen, i + 1, p)
  {
    var p := chosen[i].start;
    assert Covered(chosen, i, p) == Covered(chosen, i + 1, p);
    assert Starts(chosen, i, p) == 1 + Starts(chosen, i + 1, p);
  }

  lemma WalkTakesEmpty(text: string, replacement: string, chosen: seq<Span>, i: nat)
    requires i < |chosen| && chosen[i].start == chosen[i].end <= |text|
    ensures Walk(text, replacement, chosen, i, chosen[i].start)
            == replacement + Walk(text, replacement, chosen, i + 1, chosen[i].start)
  {
    var p := chosen[i].start;
    EmptyStart(text, replacement, chosen, i);
    if p < |text| {
      WalkDrops(text, replacement, chosen, i, p + 1);
    }
    ConcatAssoc(replacement, At(text, replacement, chosen, i + 1, p), WalkOn(text, replacement, chosen, i + 1, p));
  }

  lemma WalkTakesSome(text: string, replacement: string, chosen: seq<Span>, i: nat)
    requires i < |chosen| && chosen[i].start < chosen[i].end <= |text|
    requires forall j :: i < j < |chosen| ==> chosen[i].end <= chosen[j].start
    ensures Walk(text, replacement, chosen, i, chosen[i].start)
            == replacement + Walk(text, replacement, chosen, i + 1, chosen[i].end)
  {
    StartOnly(text, replacement, chosen, i);
    WalkSkips(text, replacement, chosen, i, chosen[i].start + 1);
  }

  /** A span that starts here: one replacement, and on from its end. */
  lemma WalkTakes(text: string, replacement: string, chosen: seq<Span>, i: nat)
    requires Inside(text, chosen) && Apart(chosen, 0) && i < |chosen| && chosen[i] in chosen
    ensures Walk(text, replacement, chosen, i, chosen[i].start)
            == replacement + Walk(text, replacement, chosen, i + 1, chosen[i].end)
  {
    if chosen[i].start == chosen[i].end {
      WalkTakesEmpty(text, replacement, chosen, i);
    } else {
      WalkTakesSome(text, replacement, chosen, i);
    }
  }

  /** A position at which no span starts and that none covers. */
  lemma WalkPlain(text: string, replacement: string, chosen: seq<Span>, i: nat, p: nat)
    requires i <= |chosen| && p < |text| && forall j :: i <= j < |chosen| ==> p < chosen[j].start
    ensures Walk(text, replacement, chosen, i, p) == [text[p]] + Walk(text, replacement, chosen, i, p + 1)
  {
    NoStarts(chosen, i, p);
    assert !Covered(chosen, i, p);
    assert At(text, replacement, chosen, i, p) == [text[p]];
  }

  lemma RebuiltPlainTail(text: string, replacement: string, chosen: seq<Span>, p: nat)
    requires Inside(text, chosen) && Apart(chosen, 0) && p < |text|
    ensures Rebuilt(text, replacement, chosen, |chosen|, p) == [text[p]] + Rebuilt(text, replacement, chosen, |chosen|, p + 1)
  {
    assert text[p..] == [text[p]] + text[p + 1..];
  }

  lemma FourPieces(a: string, b: string, c: string, d: string)
    ensures (a + b) + c + d == a + (b + c + d)
    ensures a + (b + c + d) == ((a + b) + c) + d
  {
  }

  /** The next round of the loop, spelt out. */
  lemma RebuiltNext(text: string, replacement: string, chosen: seq<Span>, i: nat, cursor: nat)
    requires Inside(text, chosen) && Apart(chosen, 0) && i < |chosen| && chosen[i] in chosen && cursor <= chosen[i].start
    ensures i + 1 < |chosen| ==> chosen[i].end <= chosen[i + 1].start
    ensures Rebuilt(text, replacement, chosen, i, cursor) ==
            text[cursor..chosen[i].start] + replacement + Rebuilt(text, replacement, chosen, i + 1, chosen[i].end)
  {
  }

  lemma RebuiltPlainGap(text: string, replacement: string, chosen: seq<Span>, i: nat, p: nat)
    requires Inside(text, chosen) && Apart(chosen, 0) && i < |chosen| && chosen[i] in chosen && p < chosen[i].start
    ensures Rebuilt(text, replacement, chosen, i, p) == [text[p]] + Rebuilt(text, replacement, chosen, i, p + 1)
  {
    RebuiltNext(text, replacement, chosen, i, p);
    RebuiltNext(text, replacement, chosen, i, p + 1);
    assert text[p..chosen[i].start] == [text[p]] + text[p + 1..chosen[i].start];
    FourPieces([text[p]], text[p + 1..chosen[i].start], replacement, Rebuilt(text, replacement, chosen, i + 1, chosen[i].end));
  }

  lemma LaterStart(chosen: seq<Span>, i: nat, p: nat)
    requires Apart(chosen, 0) && i < |chosen| && p < chosen[i].start
    requires forall x :: x in chosen ==> x.start <= x.end
    ensures forall j :: i <= j < |chosen| ==> p < chosen[j].start
  {
    assert chosen[i] in chosen;
  }

  lemma RebuiltTakes(text: string, replacement: string, chosen: seq<Span>, i: nat)
    requires Inside(text, chosen) && Apart(chosen, 0) && i < |chosen| && chosen[i] in chosen
    ensures Rebuilt(text, replacement, chosen, i, chosen[i].start)
            == replacement + Rebuilt(text, replacement, chosen, i + 1, chosen[i].end)
  {
    assert text[chosen[i].start..chosen[i].start] == "";
  }

  /** The pieces joined are the text walked position by position. */
  lemma {:induction false} RebuiltIsWalk(text: string, replacement: string, chosen: seq<Span>, i: nat, cursor: nat)
    requires Inside(text, chosen) && Apart(chosen, 0) && i <= |chosen|
    requires cursor <= |text| && (i < |chosen| ==> cursor <= chosen[i].start)
    ensures Rebuilt(text, replacement, chosen, i, cursor) == Walk(text, replacement, chosen, i, cursor)
    decreases |text| - cursor + |chosen| - i, 1
  {
    if i == |chosen| {
      NoStarts(chosen, i, cursor);
      if cursor < |text| {
        RebuiltIsWalk(text, replacement, chosen, i, cursor + 1);
        RebuiltPlainTail(text, replacement, chosen, cursor);
        WalkPlain(text, replacement, chosen, i, cursor);
      }
    } else {
      assert chosen[i] in chosen;
      GapIsWalk(text, replacement, chosen, i, cursor);
    }
  }

  /** As `RebuiltIsWalk`, with chosen span `i` still to come. */
  lemma {:induction false} GapIsWalk(text: string, replacement: string, chosen: seq<Span>, i: nat, cursor: nat)
    requires Inside(text, chosen) && Apart(chosen, 0)
    requires i < |chosen| && chosen[i] in chosen && cursor <= chosen[i].start
    ensures Rebuilt(text, replacement, chosen, i, cursor) == Walk(text, replacement, chosen, i, cursor)
    decreases |text| - cursor + |chosen| - i, 0
  {
    if cursor == chosen[i].start {
      RebuiltIsWalk(text, replacement, chosen, i + 1, chosen[i].end);
      RebuiltTakes(text, replacement, chosen, i);
      WalkTakes(text, replacement, chosen, i);
    } else {
      GapIsWalk(text, replacement, chosen, i, cursor + 1);
      RebuiltPlainGap(text, replacement, chosen, i, cursor);
      LaterStart(chosen, i, cursor);
      WalkPlain(text, replacement, chosen, i, cursor);
    }
  }

  // ---- The whole redaction ----

  function Redacted(text: string, replacement: string, spans: seq<Span>): string {
    Walk(text, replacement, Chosen(spans), 0, 0)
  }

  /** A text with one match: what stands before it, the replacement, and what stands behind it. */
  lemma OneMatch(text: string, replacement: string, x: Span)
    requires x.start <= x.end <= |text|
    ensures Redacted(text, replacement, [x]) == text[..x.start] + replacement + text[x.end..]
  {
    assert Sort([x]) == [x];
    assert Sweep([x], 1, x.end) == [];
    assert Chosen([x]) == [x];
    RebuiltIsWalk(text, replacement, [x], 0, 0);
    assert Rebuilt(text, replacement, [x], 1, x.end) == text[x.end..];
    assert text[0..x.start] == text[..x.start];
  }

  /** How many characters the spans from `i` on take up. */
  function Extent(chosen: seq<Span>, i: nat): int
    requires i <= |chosen|
    decreases |chosen| - i
  {
    if i == |chosen| then 0 else chosen[i].end - chosen[i].start + Extent(chosen, i + 1)
  }

  lemma {:induction false} RebuiltLength(text: string, replacement: string, chosen: seq<Span>, i: nat, cursor: nat)
    requires Inside(text, chosen) && Apart(chosen, 0) && i <= |chosen|
    requires cursor <= |text| && (i < |chosen| ==> cursor <= chosen[i].start)
    ensures |Rebuilt(text, replacement, chosen, i, cursor)| ==
            |text| - cursor - Extent(chosen, i) + (|chosen| - i) * |replacement|
    decreases |chosen| - i
  {
    if i < |chosen| {
      assert chosen[i] in chosen;
      RebuiltNext(text, replacement, chosen, i, cursor);
      RebuiltLength(text, replacement, chosen, i + 1, chosen[i].end);
      OneMore(|chosen| - i - 1, |replacement|);
      ThreeLengths(text[cursor..chosen[i].start], replacement, Rebuilt(text, replacement, chosen, i + 1, chosen[i].end));
    }
  }

  lemma OneMore(n: nat, m: nat)
    ensures (n + 1) * m == n * m + m
  {
  }

  lemma ThreeLengths(a: string, b: string, c: string)
    ensures |a + b + c| == |a| + |b| + |c|
  {
  }

  /** Each chosen span is replaced once, and nothing else is lost or added. */
  lemma RedactedLength(text: string, replacement: string, spans: seq<Span>)
    requires Inside(text, spans)
    ensures |Redacted(text, replacement, spans)| ==
            |text| - Extent(Chosen(spans), 0) + |Chosen(spans)| * |replacement|
  {
    ChosenCovers(text, spans);
    RebuiltIsWalk(text, replacement, Chosen(spans), 0, 0);
    RebuiltLength(text, replacement, Chosen(spans), 0, 0);
  }

  /** The order in which the patterns were tried does not matter. */
  lemma OrderIrrelevant(text: string, replacement: string, a: seq<Span>, b: seq<Span>)
    requires multiset(a) == multiset(b)
    ensures Redacted(text, replacement, a) == Redacted(text, replacement, b)
  {
    SortSorts(a);
    SortSorts(b);
    SortedIsUnique(Sort(a), Sort(b));
  }

  /** The first character of every match is redacted, and no character outside all matches is. */
  lemma FirstCharacterRedacted(text: string, spans: seq<Span>, x: Span, p: nat)
    requires Inside(text, spans)
    ensures x in spans && x.start < x.end ==> Covered(Chosen(spans), 0, x.start)
    ensures Covered(Chosen(spans), 0, p) ==> exists y :: y in spans && y.start <= p < y.end
  {
    ChosenCovers(text, spans);
    if x in spans && x.start < x.end && x !in Chosen(spans) {
      var c :| c in Chosen(spans) && StartsIn(x, c);
    }
  }

  /** Every character of every match is covered by a chosen span. */
  ghost predicate FullyRedacted(spans: seq<Span>) {
    forall x, p :: x in spans && x.start <= p < x.end ==> Covered(Chosen(spans), 0, p)
  }

  /** Where a chosen span ends inside a match, another match starts. */
  ghost predicate Continued(spans: seq<Span>, c: Span) {
    (exists x :: x in spans && x.start <= c.end < x.end) ==> exists d :: d in spans && d.start == c.end && d.start < d.end
  }

  /** A chosen span that covers the end of another chosen one starts there. */
  lemma NextStartsAtEnd(text: string, spans: seq<Span>, c: Span) returns (e: Span)
    requires Inside(text, spans) && c in Chosen(spans) && c.start < c.end && Covered(Chosen(spans), 0, c.end)
    ensures e in Chosen(spans) && e.start == c.end < e.end
  {
    ChosenCovers(text, spans);
    var chosen := Chosen(spans);
    var i :| 0 <= i < |chosen| && chosen[i] == c;
    var j :| 0 <= j < |chosen| && chosen[j].start <= c.end < chosen[j].end;
    e := chosen[j];
    assert i < j;
  }

  lemma RedactedContinues(text: string, spans: seq<Span>, c: Span)
    requires Inside(text, spans) && FullyRedacted(spans) && c in Chosen(spans) && c.start < c.end
    ensures Continued(spans, c)
  {
    if x :| x in spans && x.start <= c.end < x.end {
      var e := NextStartsAtEnd(text, spans, c);
      ChosenCovers(text, spans);
      assert e in spans;
    }
  }

  /** From chosen span to chosen span, up to the one that covers `p`. */
  lemma {:induction false} ContinuedCovers(text: string, spans: seq<Span>, x: Span, c: Span, p: nat)
    requires Inside(text, spans) && forall d :: d in Chosen(spans) && d.start < d.end ==> Continued(spans, d)
    requires x in spans && c in Chosen(spans) && c.start < c.end
    requires c.start <= p < x.end && x.start <= c.end
    ensures Covered(Chosen(spans), 0, p)
    decreases x.end - c.end
  {
    if c.end <= p {
      assert Continued(spans, c) && x.start <= c.end < x.end;
      var d :| d in spans && d.start == c.end && d.start < d.end;
      FirstCharacterRedacted(text, spans, d, p);
      var e := NextStartsAtEnd(text, spans, c);
      ContinuedCovers(text, spans, x, e, p);
    }
  }

  /**
    Exactly when nothing of any match survives: wherever a chosen span ends inside a match, the next match starts
    right there.
   */
  lemma FullyRedactedIff(text: string, spans: seq<Span>)
    requires Inside(text, spans)
    ensures FullyRedacted(spans) <==> forall c :: c in Chosen(spans) && c.start < c.end ==> Continued(spans, c)
  {
    if FullyRedacted(spans) {
      forall c | c in Chosen(spans) && c.start < c.end
        ensures Continued(spans, c)
      {
        RedactedContinues(text, spans, c);
      }
    }
    if forall c :: c in Chosen(spans) && c.start < c.end ==> Continued(spans, c) {
      forall x, p | x in spans && x.start <= p < x.end
        ensures Covered(Chosen(spans), 0, p)
      {
        CharacterRedacted(text, spans, x, p);
      }
    }
  }

  lemma CharacterRedacted(text: string, spans: seq<Span>, x: Span, p: nat)
    requires Inside(text, spans) && forall c :: c in Chosen(spans) && c.start < c.end ==> Continued(spans, c)
    requires x in spans && x.start <= p < x.end
    ensures Covered(Chosen(spans), 0, p)
  {
    ChosenCovers(text, spans);
    if x in Chosen(spans) {
      ContinuedCovers(text, spans, x, x, p);
    } else {
      var c :| c in Chosen(spans) && StartsIn(x, c);
      ContinuedCovers(text, spans, x, c, p);
    }
  }

  /** Of two matches, if the second starts inside the first, it ends there too, or both start together. */
  ghost predicate Nested(spans: seq<Span>) {
    forall a, b :: a in spans && b in spans && a.start <= b.start < a.end ==> b.end <= a.end || a.start == b.start
  }

  /** When overlapping matches are nested, every character of every match is redacted. */
  lemma NestedFullyRedacted(text: string, spans: seq<Span>)
    requires Inside(text, spans) && Nested(spans)
    ensures FullyRedacted(spans)
  {
    ChosenCovers(text, spans);
    forall x, p | x in spans && x.start <= p < x.end
      ensures Covered(Chosen(spans), 0, p)
    {
      if x !in Chosen(spans) {
        var c :| c in Chosen(spans) && StartsIn(x, c);
        assert c in spans;
      }
    }
  }

  lemma SortTwo(a: Span, b: Span)
    ensures Sort([a, b]) == if Before(a, b) then [a, b] else [b, a]
  {
    assert [a, b][1..] == [b] && [b][1..] == [];
    assert Sort([b]) == Insert(b, []) == [b];
    assert Sort([a, b]) == Insert(a, [b]);
    assert [b] + Insert(a, []) == [b, a] && [a] + [b] == [a, b];
  }

  /** Of any two matches that cross, only the first is taken, and the tail of the second survives in full. */
  lemma CrossingTailSurvives(a: Span, b: Span, p: nat)
    requires a.start < b.start < a.end < b.end
    ensures Chosen([a, b]) == Chosen([b, a]) == [a]
    ensures a.end <= p < b.end ==> !Covered(Chosen([a, b]), 0, p)
  {
    SortTwo(a, b);
    SortTwo(b, a);
    assert Sweep([a, b], 1, a.end) == Sweep([a, b], 2, a.end) == [];
  }

  // ---- The method ----

  function Join(pieces: seq<string>): string {
    if pieces == [] then "" else Join(pieces[..|pieces| - 1]) + pieces[|pieces| - 1]
  }

  lemma JoinGrows(pieces: seq<string>, piece: string)
    ensures Join(pieces + [piece]) == Join(pieces) + piece
  {
    assert (pieces + [piece])[..|pieces|] == pieces;
  }

  method ChooseSpans(s: seq<Span>) returns (chosen: seq<Span>)
    ensures chosen == Sweep(s, 0, -1)
  {
    chosen := [];
    var lastEnd: int := -1;
    for i := 0 to |s|
      invariant chosen + Sweep(s, i, lastEnd) == Sweep(s, 0, -1)
    {
      if s[i].start >= lastEnd {
        assert chosen + ([s[i]] + Sweep(s, i + 1, s[i].end)) == (chosen + [s[i]]) + Sweep(s, i + 1, s[i].end);
        chosen := chosen + [s[i]];
        lastEnd := s[i].end;
      }
    }
  }

  /** Two more pieces. */
  lemma JoinTwo(pieces: seq<string>, a: string, b: string, rest: string)
    ensures Join(pieces + [a] + [b]) + rest == Join(pieces) + (a + b + rest)
  {
    JoinGrows(pieces, a);
    JoinGrows(pieces + [a], b);
    FourPieces(Join(pieces), a, b, rest);
  }

  method Rebuild(text: string, replacement: string, chosen: seq<Span>) returns (r: string)
    requires Inside(text, chosen) && Apart(chosen, 0)
    ensures r == Walk(text, replacement, chosen, 0, 0)
  {
    var pieces: seq<string> := [];
    var cursor: nat := 0;
    for i := 0 to |chosen|
      invariant cursor <= |text| && (i < |chosen| ==> cursor <= chosen[i].start)
      invariant i > 0 ==> cursor == chosen[i - 1].end
      invariant Join(pieces) + Rebuilt(text, replacement, chosen, i, cursor) == Rebuilt(text, replacement, chosen, 0, 0)
    {
      assert chosen[i] in chosen;
      RebuiltNext(text, replacement, chosen, i, cursor);
      JoinTwo(pieces, text[cursor..chosen[i].start], replacement, Rebuilt(text, replacement, chosen, i + 1, chosen[i].end));
      pieces := pieces + [text[cursor..chosen[i].start]];
      pieces := pieces + [replacement];
      cursor := chosen[i].end;
    }
    JoinGrows(pieces, text[cursor..]);
    pieces := pieces + [text[cursor..]];
    r := Join(pieces);
    RebuiltIsWalk(text, replacement, chosen, 0, 0);
  }

  method RedactText(text: string, replacement: string, spans: seq<Span>) returns (r: string)
    requires Inside(text, spans)
    ensures r == Redacted(text, replacement, spans)
  {
    if spans == [] {
      RebuiltIsWalk(text, replacement, [], 0, 0);
      return text;
    }
    ChosenCovers(text, spans);
    var chosen := ChooseSpans(Sort(spans));
    r := Rebuild(text, replacement, chosen);
  }
}
