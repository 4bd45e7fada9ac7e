/**
  The rotating file sink (logquill/transports/file_transport.py). `Split` cuts the lines ever written into full
  chunks and a rest without knowing about files; `FilesHoldNewestChunks` shows that renaming numbered files in place
  leaves exactly the newest `backupCount` chunks on disk, the newest as number 1, and the rest in the live file.
  A line stands for the bytes one write appends, encrypted or not.
 */
module Rotation {
  import opened OrderedDicts
  import opened Sequences

  datatype Settings<!T> = Settings(maxBytes: int, backupCount: int, sizeOf: T -> nat) {
    /** How many backups are kept. */
    function Keep(): nat {
      if backupCount < 0 then 0 else backupCount
    }
  }

  /** The live file, and the rotated files by number. */
  datatype Files<T> = Files(live: seq<T>, backups: map<int, seq<T>>)

  function Size<T>(c: Settings<T>, lines: seq<T>): nat {
    if lines == [] then 0 else Size(c, lines[..|lines| - 1]) + c.sizeOf(lines[|lines| - 1])
  }

  predicate Due<T>(c: Settings<T>, file: seq<T>) {
    0 < c.maxBytes <= Size(c, file)
  }

  // ---- The renaming loop ----

  /** One step of the loop: file `i` becomes file `i + 1`. */
  function MoveUp<T>(b: map<int, seq<T>>, i: int): map<int, seq<T>> {
    if i in b then (b - {i + 1} - {i})[i + 1 := b[i]] else b
  }

  function Look<T>(b: map<int, seq<T>>, i: int): Option<seq<T>> {
    if i in b then Some(b[i]) else None
  }

  /** What number `i` holds once the files from `from` up to below `n` have moved up by one. */
  function MovedUp<T>(b: map<int, seq<T>>, from: int, n: int, i: int): Option<seq<T>> {
    if from == n || i < from || i > n then Look(b, i)
    else if i == from then None
    else if i < n || n - 1 in b then Look(b, i - 1)
    else Look(b, n)
  }

  lemma MoveUpStep<T>(b: map<int, seq<T>>, i: int, n: int, b': map<int, seq<T>>)
    requires i < n && forall j :: Look(b', j) == MovedUp(b, i + 1, n, j)
    ensures forall j :: Look(MoveUp(b', i), j) == MovedUp(b, i, n, j)
  {
    assert Look(b', i) == MovedUp(b, i + 1, n, i) == Look(b, i);
    forall j
      ensures Look(MoveUp(b', i), j) == MovedUp(b, i, n, j)
    {
      assert Look(b', j) == MovedUp(b, i + 1, n, j);
    }
  }

  function Rotate<T>(c: Settings<T>, f: Files<T>): Files<T> {
    if c.backupCount > 0 then Files([], ShiftFrom(f.backups, c.backupCount - 1)[1 := f.live]) else f.(live := [])
  }

  /** The loop from `i` down to 1. */
  function ShiftFrom<T>(b: map<int, seq<T>>, i: int): map<int, seq<T>>
    decreases i
  {
    if i <= 0 then b else ShiftFrom(MoveUp(b, i), i - 1)
  }

  lemma {:induction false} ShiftMovesUp<T>(b: map<int, seq<T>>, i: nat, n: int, b': map<int, seq<T>>)
    requires i < n && forall j :: Look(b', j) == MovedUp(b, i + 1, n, j)
    ensures forall j :: Look(ShiftFrom(b', i), j) == MovedUp(b, 1, n, j)
  {
    if i != 0 {
      MoveUpStep(b, i, n, b');
      ShiftMovesUp(b, i - 1, n, MoveUp(b', i));
    }
  }

  /** What a rotation among `n` backups leaves as number `i`. */
  function Rotated<T>(f: Files<T>, n: int, i: int): Option<seq<T>> {
    if i < 1 || i > n then Look(f.backups, i)
    else if i == 1 then Some(f.live)
    else if i < n || n - 1 in f.backups then Look(f.backups, i - 1)
    else Look(f.backups, n)
  }

  /**
    What a rotation does to any directory, even one with gaps: the live file becomes number 1, every file below the
    last number moves up by one, the last one survives only if nothing replaces it, and higher numbers are left alone.
   */
  lemma RotateFiles<T>(c: Settings<T>, f: Files<T>)
    requires c.backupCount > 0
    ensures Rotate(c, f).live == []
    ensures forall i: int :: Look(Rotate(c, f).backups, i) == Rotated(f, c.backupCount, i)
  {
    var n := c.backupCount;
    assert forall j :: Look(f.backups, j) == MovedUp(f.backups, n, n, j);
    ShiftMovesUp(f.backups, n - 1, n, f.backups);
    var shifted := ShiftFrom(f.backups, n - 1);
    forall i
      ensures Look(Rotate(c, f).backups, i) == Rotated(f, n, i)
    {
      assert Look(shifted, i) == MovedUp(f.backups, 1, n, i);
    }
  }

  function Write<T>(c: Settings<T>, f: Files<T>, line: T): Files<T> {
    var f' := f.(live := f.live + [line]);
    if Due(c, f'.live) then Rotate(c, f') else f'
  }

  /** The directory after writing `lines`, starting with what was there. */
  function WriteAll<T>(c: Settings<T>, f: Files<T>, lines: seq<T>): Files<T> {
    if lines == [] then f else Write(c, WriteAll(c, f, lines[..|lines| - 1]), lines[|lines| - 1])
  }

  /** The directory after writing `lines`, starting with an empty one. */
  function After<T>(c: Settings<T>, lines: seq<T>): Files<T> {
    WriteAll(c, Files([], map[]), lines)
  }

  /** Closing and opening again on the same directory continues where the writing had stopped. */
  lemma {:induction false} Reopened<T>(c: Settings<T>, f: Files<T>, a: seq<T>, b: seq<T>)
    ensures WriteAll(c, WriteAll(c, f, a), b) == WriteAll(c, f, a + b)
  {
    if b == [] {
      assert a + b == a;
    } else {
      var n := |b| - 1;
      Reopened(c, f, a, b[..n]);
      assert (a + b)[..|a + b| - 1] == a + b[..n] && (a + b)[|a + b| - 1] == b[n];
      LastWritten(c, f, a + b);
      LastWritten(c, WriteAll(c, f, a), b);
    }
  }

  lemma LastWritten<T>(c: Settings<T>, f: Files<T>, lines: seq<T>)
    requires lines != []
    ensures WriteAll(c, f, lines) == Write(c, WriteAll(c, f, lines[..|lines| - 1]), lines[|lines| - 1])
  {
  }

  // ---- The reference: cutting the history ----

  datatype Cut<T> = Cut(chunks: seq<seq<T>>, rest: seq<T>)

  function Split<T>(c: Settings<T>, lines: seq<T>): Cut<T> {
    if lines == [] then Cut([], [])
    else
      var before := Split(c, lines[..|lines| - 1]);
      var rest := before.rest + [lines[|lines| - 1]];
      if Due(c, rest) then Cut(before.chunks + [rest], []) else Cut(before.chunks, rest)
  }

  function Flat<T>(chunks: seq<seq<T>>): seq<T> {
    if chunks == [] then [] else Flat(chunks[..|chunks| - 1]) + chunks[|chunks| - 1]
  }

  /** A chunk reaches the limit with its last line and not before. */
  ghost predicate JustFull<T>(c: Settings<T>, chunk: seq<T>) {
    chunk != [] && Due(c, chunk) && !Due(c, chunk[..|chunk| - 1])
  }

  ghost predicate CutOf<T>(c: Settings<T>, lines: seq<T>, cut: Cut<T>) {
    && Flat(cut.chunks) + cut.rest == lines
    && (forall i :: 0 <= i < |cut.chunks| ==> JustFull(c, cut.chunks[i]))
    && (cut.rest != [] ==> !Due(c, cut.rest))
  }

  lemma {:induction false} SplitIsCut<T>(c: Settings<T>, lines: seq<T>)
    ensures CutOf(c, lines, Split(c, lines))
  {
    if lines != [] {
      var last := |lines| - 1;
      SplitIsCut(c, lines[..last]);
      SplitGrows(c, lines[..last], Split(c, lines[..last]), lines[last]);
      assert lines[..last] + [lines[last]] == lines;
    }
  }

  lemma SplitGrows<T>(c: Settings<T>, lines: seq<T>, cut: Cut<T>, line: T)
    requires CutOf(c, lines, cut)
    ensures var rest := cut.rest + [line];
            CutOf(c, lines + [line], if Due(c, rest) then Cut(cut.chunks + [rest], []) else Cut(cut.chunks, rest))
  {
    var rest := cut.rest + [line];
    assert rest[..|cut.rest|] == cut.rest;
    assert Flat(cut.chunks) + rest == lines + [line];
    if Due(c, rest) {
      var chunks := cut.chunks + [rest];
      assert chunks[..|cut.chunks|] == cut.chunks;
      assert Flat(chunks) + [] == Flat(chunks);
    }
  }

  lemma CutBeforeRest<T>(c: Settings<T>, lines: seq<T>, cut: Cut<T>)
    requires CutOf(c, lines, cut) && cut.rest != []
    ensures |lines| > 0 && CutOf(c, lines[..|lines| - 1], Cut(cut.chunks, cut.rest[..|cut.rest| - 1]))
    ensures lines[|lines| - 1] == cut.rest[|cut.rest| - 1]
  {
    var n := |cut.rest| - 1;
    assert Size(c, cut.rest[..n]) <= Size(c, cut.rest);
    assert Flat(cut.chunks) + cut.rest[..n] == lines[..|lines| - 1];
  }

  lemma CutBeforeChunk<T>(c: Settings<T>, lines: seq<T>, cut: Cut<T>)
    requires CutOf(c, lines, cut) && cut.rest == [] && cut.chunks != []
    ensures var m := |cut.chunks| - 1; var chunk := cut.chunks[m];
            && JustFull(c, chunk) && |lines| > 0
            && CutOf(c, lines[..|lines| - 1], Cut(cut.chunks[..m], chunk[..|chunk| - 1]))
            && lines[|lines| - 1] == chunk[|chunk| - 1]
  {
    var m := |cut.chunks| - 1;
    var chunk := cut.chunks[m];
    assert JustFull(c, chunk);
    assert Flat(cut.chunks[..m]) + chunk == lines;
    assert Flat(cut.chunks[..m]) + chunk[..|chunk| - 1] == lines[..|lines| - 1];
  }

  lemma RestoreRest<T>(c: Settings<T>, lines: seq<T>, cut: Cut<T>)
    requires CutOf(c, lines, cut) && cut.rest != [] && lines != []
    requires Split(c, lines[..|lines| - 1]) == Cut(cut.chunks, cut.rest[..|cut.rest| - 1])
    requires lines[|lines| - 1] == cut.rest[|cut.rest| - 1]
    ensures cut == Split(c, lines)
  {
    SplitLast(cut.rest);
  }

  lemma RestoreChunk<T>(c: Settings<T>, lines: seq<T>, cut: Cut<T>)
    requires CutOf(c, lines, cut) && cut.rest == [] && cut.chunks != [] && lines != []
    requires var chunk := cut.chunks[|cut.chunks| - 1];
             && JustFull(c, chunk) && lines[|lines| - 1] == chunk[|chunk| - 1]
             && Split(c, lines[..|lines| - 1]) == Cut(cut.chunks[..|cut.chunks| - 1], chunk[..|chunk| - 1])
    ensures cut == Split(c, lines)
  {
    SplitLast(cut.chunks);
    SplitLast(cut.chunks[|cut.chunks| - 1]);
  }

  /** There is only one way to cut a history like that, so `Split` is the partition and not merely one of several. */
  lemma {:induction false} CutIsUnique<T>(c: Settings<T>, lines: seq<T>, cut: Cut<T>)
    requires CutOf(c, lines, cut)
    ensures cut == Split(c, lines)
    decreases |lines|
  {
    if cut.rest != [] {
      CutBeforeRest(c, lines, cut);
      CutIsUnique(c, lines[..|lines| - 1], Cut(cut.chunks, cut.rest[..|cut.rest| - 1]));
      RestoreRest(c, lines, cut);
    } else if cut.chunks != [] {
      var m := |cut.chunks| - 1;
      var chunk := cut.chunks[m];
      CutBeforeChunk(c, lines, cut);
      CutIsUnique(c, lines[..|lines| - 1], Cut(cut.chunks[..m], chunk[..|chunk| - 1]));
      RestoreChunk(c, lines, cut);
    }
  }

  // ---- The files against the reference ----

  function NewestCount(keep: nat, chunks: nat): nat {
    if chunks < keep then chunks else keep
  }

  /** The files are the newest chunks, numbered backwards from 1, and the live file is the rest. */
  ghost predicate HoldNewest<T>(c: Settings<T>, f: Files<T>, cut: Cut<T>) {
    && f.live == cut.rest
    && (forall i: int :: i in f.backups <==> 1 <= i <= NewestCount(c.Keep(), |cut.chunks|))
    && (forall i: int :: i in f.backups ==> f.backups[i] == cut.chunks[|cut.chunks| - i])
  }

  lemma RotateHoldsNewest<T>(c: Settings<T>, f: Files<T>, cut: Cut<T>)
    requires HoldNewest(c, f, cut)
    ensures HoldNewest(c, Rotate(c, f), Cut(cut.chunks + [f.live], []))
  {
    if c.backupCount > 0 {
      RotateFiles(c, f);
      var f', m := Rotate(c, f), |cut.chunks|;
      forall i: int
        ensures i in f'.backups <==> 1 <= i <= NewestCount(c.Keep(), m + 1)
        ensures i in f'.backups ==> f'.backups[i] == (cut.chunks + [f.live])[m + 1 - i]
      {
        assert Look(f'.backups, i) == Rotated(f, c.backupCount, i);
        assert Look(f.backups, i - 1) == if 1 <= i - 1 <= NewestCount(c.Keep(), m) then Some(cut.chunks[m - (i - 1)]) else None;
      }
    }
  }

  /** Whatever the settings, a directory that was empty holds exactly the newest chunks and the rest. */
  lemma {:induction false} FilesHoldNewestChunks<T>(c: Settings<T>, lines: seq<T>)
    ensures HoldNewest(c, After(c, lines), Split(c, lines))
  {
    if lines != [] {
      var last := |lines| - 1;
      FilesHoldNewestChunks(c, lines[..last]);
      var f, cut := After(c, lines[..last]), Split(c, lines[..last]);
      var rest := cut.rest + [lines[last]];
      var f' := f.(live := f.live + [lines[last]]);
      if Due(c, rest) {
        RotateHoldsNewest(c, f', Cut(cut.chunks, rest));
      }
    }
  }

  // ---- What a reader of the files gets ----

  /** The backups from number `k` down to 1, one after the other. */
  function Read<T>(b: map<int, seq<T>>, k: nat): seq<T>
    requires forall i :: 1 <= i <= k ==> i in b
  {
    if k == 0 then [] else b[k] + Read(b, k - 1)
  }

  lemma {:induction false} FlatConcat<T>(a: seq<seq<T>>, b: seq<seq<T>>)
    ensures Flat(a + b) == Flat(a) + Flat(b)
  {
    if b == [] {
      assert a + b == a;
    } else {
      var rest, last := b[..|b| - 1], b[|b| - 1];
      FlatConcat(a, rest);
      assert (a + b)[..|a + b| - 1] == a + rest;
      assert (Flat(a) + Flat(rest)) + last == Flat(a) + (Flat(rest) + last);
    }
  }

  lemma {:induction false} ReadIsFlat<T>(b: map<int, seq<T>>, chunks: seq<seq<T>>, k: nat)
    requires k <= |chunks|
    requires forall i :: 1 <= i <= k ==> i in b && b[i] == chunks[|chunks| - i]
    ensures Read(b, k) == Flat(chunks[|chunks| - k..])
  {
    if k != 0 {
      ReadIsFlat(b, chunks, k - 1);
      var first := [chunks[|chunks| - k]];
      assert chunks[|chunks| - k..] == first + chunks[|chunks| - (k - 1)..];
      FlatConcat(first, chunks[|chunks| - (k - 1)..]);
      assert first[..0] == [];
      assert Flat(first) == [] + b[k] == b[k];
    }
  }

  lemma {:induction false} SizeConcat<T>(c: Settings<T>, a: seq<T>, b: seq<T>)
    ensures Size(c, a + b) == Size(c, a) + Size(c, b)
  {
    if b == [] {
      assert a + b == a;
    } else {
      assert (a + b)[..|a + b| - 1] == a + b[..|b| - 1];
      SizeConcat(c, a, b[..|b| - 1]);
    }
  }

  /** The size of a file is that of its lines together. */
  lemma SizeAdds<T>(c: Settings<T>, a: seq<T>, line: T, b: seq<T>)
    ensures Size(c, []) == 0
    ensures Size(c, a + [line] + b) == Size(c, a) + c.sizeOf(line) + Size(c, b)
  {
    SizeConcat(c, a + [line], b);
    SizeConcat(c, a, [line]);
    assert Size(c, [line]) == Size(c, []) + c.sizeOf(line);
  }

  lemma {:induction false} ReadSize<T>(c: Settings<T>, b: map<int, seq<T>>, k: nat)
    requires forall i :: 1 <= i <= k ==> i in b && Size(c, b[i]) >= c.maxBytes
    ensures Size(c, Read(b, k)) >= k * c.maxBytes
  {
    if k != 0 {
      ReadSize(c, b, k - 1);
      SizeConcat(c, b[k], Read(b, k - 1));
      assert k * c.maxBytes == (k - 1) * c.maxBytes + c.maxBytes;
    }
  }

  /** Read in order, the files give everything but the chunks that are gone. */
  lemma ReadNewest<T>(c: Settings<T>, f: Files<T>, cut: Cut<T>, k: nat)
    requires HoldNewest(c, f, cut) && k == NewestCount(c.Keep(), |cut.chunks|)
    ensures Flat(cut.chunks) + cut.rest == Flat(cut.chunks[..|cut.chunks| - k]) + Read(f.backups, k) + f.live
  {
    var gone, here := cut.chunks[..|cut.chunks| - k], cut.chunks[|cut.chunks| - k..];
    assert cut.chunks == gone + here;
    FlatConcat(gone, here);
    ReadIsFlat(f.backups, cut.chunks, k);
  }

  lemma BackupIsJustFull<T>(c: Settings<T>, lines: seq<T>, i: int)
    requires i in After(c, lines).backups
    ensures JustFull(c, After(c, lines).backups[i])
  {
    FilesHoldNewestChunks(c, lines);
    SplitIsCut(c, lines);
  }

  /** How many backups exist after writing `lines`. */
  function BackupsAfter<T>(c: Settings<T>, lines: seq<T>): nat {
    NewestCount(c.Keep(), |Split(c, lines).chunks|)
  }

  /**
    The backups are numbered without a gap. From the oldest to the newest and then the live file, they are the
    lines written last, in order; `lost` is what is missing in front.
   */
  lemma FilesKeepSuffix<T>(c: Settings<T>, lines: seq<T>) returns (lost: seq<T>)
    ensures var f := After(c, lines); var k := BackupsAfter(c, lines);
            && k <= c.Keep()
            && (forall i: int :: i in f.backups <==> 1 <= i <= k)
            && lines == lost + Read(f.backups, k) + f.live
            && (lost != [] ==> k == c.Keep())
  {
    var f, cut, k := After(c, lines), Split(c, lines), BackupsAfter(c, lines);
    FilesHoldNewestChunks(c, lines);
    SplitIsCut(c, lines);
    ReadNewest(c, f, cut, k);
    lost := Flat(cut.chunks[..|cut.chunks| - k]);
  }

  /** Lines are lost only once `backupCount` backups exist, and those hold `backupCount * maxBytes` bytes or more. */
  lemma BackupsHoldBytes<T>(c: Settings<T>, lines: seq<T>)
    ensures var f := After(c, lines); var k := BackupsAfter(c, lines);
            && (forall i :: 1 <= i <= k ==> i in f.backups)
            && Size(c, Read(f.backups, k)) >= k * c.maxBytes
  {
    FilesHoldNewestChunks(c, lines);
    var f, k := After(c, lines), BackupsAfter(c, lines);
    forall i | 1 <= i <= k
      ensures Size(c, f.backups[i]) >= c.maxBytes
    {
      BackupIsJustFull(c, lines, i);
    }
    ReadSize(c, f.backups, k);
  }

  /** Every backup reaches `maxBytes`, but only with its last line; the live file stays below. */
  lemma FileSizes<T>(c: Settings<T>, lines: seq<T>)
    requires c.maxBytes > 0
    ensures Size(c, After(c, lines).live) < c.maxBytes
    ensures forall i: int :: i in After(c, lines).backups ==> EndsFull(c, After(c, lines).backups[i])
  {
    FilesHoldNewestChunks(c, lines);
    SplitIsCut(c, lines);
    forall i: int | i in After(c, lines).backups
      ensures EndsFull(c, After(c, lines).backups[i])
    {
      BackupIsJustFull(c, lines, i);
    }
  }

  predicate EndsFull<T>(c: Settings<T>, file: seq<T>) {
    file != [] && c.maxBytes <= Size(c, file) < c.maxBytes + c.sizeOf(file[|file| - 1])
  }

  /** What `Split` makes of one more line when rotation is off. */
  lemma SplitWithoutLimit<T>(c: Settings<T>, lines: seq<T>)
    requires c.maxBytes <= 0 && lines != []
    ensures var before := Split(c, lines[..|lines| - 1]);
            Split(c, lines) == Cut(before.chunks, before.rest + [lines[|lines| - 1]])
  {
  }

  lemma {:induction false} NothingIsCut<T>(c: Settings<T>, lines: seq<T>)
    requires c.maxBytes <= 0
    ensures Split(c, lines) == Cut([], lines)
  {
    if lines != [] {
      NothingIsCut(c, lines[..|lines| - 1]);
      SplitWithoutLimit(c, lines);
      SplitLast(lines);
    }
  }

  /** With rotation off, one file holds everything. */
  lemma {:induction false} WithoutRotation<T>(c: Settings<T>, lines: seq<T>)
    requires c.maxBytes <= 0
    ensures After(c, lines).live == lines && forall i: int :: i !in After(c, lines).backups
  {
    FilesHoldNewestChunks(c, lines);
    NothingIsCut(c, lines);
    assert HoldNewest(c, After(c, lines), Cut([], lines));
  }

  // ---- The object ----

  class FileTransport<T> {
    const settings: Settings<T>
    var live: seq<T>
    var backups: map<int, seq<T>>
    /** What the directory held when this instance opened it, and every line written since. */
    ghost var found: Files<T>
    ghost var written: seq<T>

    ghost predicate Valid()
      reads this
    {
      Files(live, backups) == WriteAll(settings, found, written)
    }

    /** Opens for appending; a live file that does not exist is as good as an empty one. */
    constructor (settings: Settings<T>, live: seq<T>, backups: map<int, seq<T>>)
      ensures Valid() && written == [] && found == Files(live, backups) && this.settings == settings
    {
      this.settings := settings;
      this.live, this.backups := live, backups;
      found, written := Files(live, backups), [];
    }

    method Write(line: T)
      requires Valid()
      modifies this
      ensures Valid() && written == old(written) + [line] && found == old(found)
    {
      AppendTake(written, line);
      written := written + [line];
      live := live + [line];
      var position := Size(settings, live);
      if 0 < settings.maxBytes <= position {
        RotateInPlace();
      }
    }

    method RotateInPlace()
      modifies this
      ensures Files(live, backups) == Rotate(settings, Files(old(live), old(backups)))
      ensures written == old(written) && found == old(found)
    {
      if settings.backupCount > 0 {
        var index := settings.backupCount - 1;
        while index > 0
          invariant 0 <= index
          invariant ShiftFrom(backups, index) == ShiftFrom(old(backups), settings.backupCount - 1)
          invariant live == old(live) && written == old(written) && found == old(found)
        {
          if index in backups {
            var source := backups[index];
            backups := backups - {index + 1};
            backups := backups - {index};
            backups := backups[index + 1 := source];
          }
          index := index - 1;
        }
        backups := backups - {1};
        backups := backups[1 := live];
      }
      live := [];
    }
  }
}
