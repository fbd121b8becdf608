/** Where the chunks of an update are found, told from the lines of the file. */
module PatchPlaces {
  import opened Wrappers
  import opened Text
  import opened PatchUpdate

  // ---- the best match of a pattern ----

  // The first place, in the strictest tier that matches anywhere from `from` on.
  ghost predicate IsBest(lines: Lines, pattern: Lines, from: int, i: int, t: Tier) {
    && from <= i && Matches(lines, pattern, i, t)
    && forall j, u :: from <= j && Matches(lines, pattern, j, u) ==> Looseness(t) <= Looseness(u) && (u == t ==> i <= j)
  }

  ghost predicate Best(lines: Lines, pattern: Lines, from: int, i: int) {
    exists t :: IsBest(lines, pattern, from, i, t)
  }

  ghost predicate Nowhere(lines: Lines, pattern: Lines, from: int) {
    forall j, t :: from <= j ==> !Matches(lines, pattern, j, t)
  }

  // An end-of-file chunk is looked for only where the file ends, if the file is long enough.
  ghost predicate SearchedFrom(lines: Lines, pattern: Lines, cursor: int, eof: bool, from: int) {
    if eof && |lines| >= |pattern| then from + |pattern| == |lines| else from == cursor
  }

  lemma SeekIs(lines: Lines, pattern: Lines, start: nat, eof: bool)
    requires pattern != []
    ensures var from := SearchStart(lines, pattern, start, eof);
            && SearchedFrom(lines, pattern, start, eof, from)
            && match Seek(lines, pattern, start, eof)
               case Some(i) => Best(lines, pattern, from, i)
               case None => Nowhere(lines, pattern, from)
  {
    hide Matches, SeekTiers;
    var from := SearchStart(lines, pattern, start, eof);
    if from + |pattern| > |lines| {
      PastTheEnd(lines, pattern, from);
    } else {
      var hit := SeekTiersIsBest(lines, pattern, from, Exact);
      var r := SeekTiers(lines, pattern, from, Exact);
      if r.Some? {
        assert IsBest(lines, pattern, from, r.value, hit);
      }
    }
  }

  lemma PastTheEnd(lines: Lines, pattern: Lines, from: int)
    requires from + |pattern| > |lines|
    ensures Nowhere(lines, pattern, from)
  {
  }

  // A pattern is in one best place at most.
  lemma BestIsUnique(lines: Lines, pattern: Lines, from: int, i: int, j: int)
    requires Best(lines, pattern, from, i) && Best(lines, pattern, from, j)
    ensures i == j && !Nowhere(lines, pattern, from)
  {
    hide Matches;
    var t :| IsBest(lines, pattern, from, i, t);
    var u :| IsBest(lines, pattern, from, j, u);
    SameLooseness(t, u);
  }

  lemma SameLooseness(t: Tier, u: Tier)
    ensures Looseness(t) == Looseness(u) ==> t == u
  {
  }

  // ---- one chunk ----

  // Where the search for the lines of a chunk starts: after its context line, if it has one.
  ghost predicate StartsFrom(lines: Lines, context: Option<string>, cursor: int, from: int) {
    if context == None || context == Some("") then from == cursor
    else Best(lines, [context.value], cursor, from - 1)
  }

  // The lines to look for and those to put in their place: as given, or, when those are nowhere and
  // end in a blank line, without the blank last lines.
  ghost predicate LooksFor(lines: Lines, chunk: Chunk, from: int, oldLines: Lines, newLines: Lines) {
    || (oldLines == chunk.oldLines && newLines == chunk.newLines)
    || (&& chunk.oldLines == oldLines + [""]
        && (chunk.newLines == newLines + [""] || (newLines == chunk.newLines && !EndsBlank(newLines)))
        && exists start :: SearchedFrom(lines, chunk.oldLines, from, chunk.isEndOfFile, start) && Nowhere(lines, chunk.oldLines, start))
  }

  // A pattern of no lines is found where the search starts.
  ghost predicate StandsAt(lines: Lines, pattern: Lines, from: int, eof: bool, i: int) {
    if pattern == [] then i == from
    else exists start :: SearchedFrom(lines, pattern, from, eof, start) && Best(lines, pattern, start, i)
  }

  ghost predicate IsNowhere(lines: Lines, pattern: Lines, from: int, eof: bool) {
    pattern != [] && exists start :: SearchedFrom(lines, pattern, from, eof, start) && Nowhere(lines, pattern, start)
  }

  // The replacement of a chunk whose search starts at `from`, and where the next search starts.
  ghost predicate PutAt(lines: Lines, chunk: Chunk, from: int, r: Replacement, next: int) {
    if chunk.oldLines == [] then
      && r.oldLen == 0 && r.newLines == chunk.newLines && next == from
      && (if lines != [] && lines[|lines| - 1] == "" then r.start + 1 == |lines| else r.start == |lines|)
    else
      exists oldLines :: LooksFor(lines, chunk, from, oldLines, r.newLines) && r.oldLen == |oldLines|
        && StandsAt(lines, oldLines, from, chunk.isEndOfFile, r.start) && next == r.start + |oldLines|
  }

  ghost predicate PlacedAt(lines: Lines, chunk: Chunk, cursor: int, r: Replacement, next: int) {
    exists from :: StartsFrom(lines, chunk.changeContext, cursor, from) && PutAt(lines, chunk, from, r, next)
  }

  // The context line is nowhere, or the lines are nowhere after it, not even without a blank last line.
  ghost predicate LostAt(lines: Lines, chunk: Chunk, cursor: int, error: Error) {
    match error
    case ContextNotFound(w) => chunk.changeContext == Some(w) && w != "" && Nowhere(lines, [w], cursor)
    case LinesNotFound(sought) =>
      sought == chunk.oldLines && sought != []
      && exists from :: StartsFrom(lines, chunk.changeContext, cursor, from) && NoPlaceFrom(lines, sought, from, chunk.isEndOfFile)
  }

  ghost predicate NoPlaceFrom(lines: Lines, sought: Lines, from: int, eof: bool)
    requires sought != []
  {
    IsNowhere(lines, sought, from, eof)
    && (sought[|sought| - 1] == "" ==> IsNowhere(lines, sought[..|sought| - 1], from, eof))
  }

  lemma AfterContextIs(lines: Lines, chunk: Chunk, cursor: nat)
    ensures match AfterContext(lines, chunk, cursor)
            case Some(from) => StartsFrom(lines, chunk.changeContext, cursor, from)
            case None => chunk.changeContext.Some? && chunk.changeContext.value != "" && Nowhere(lines, [chunk.changeContext.value], cursor)
  {
    hide Seek, Best, Nowhere;
    if chunk.changeContext.Some? && chunk.changeContext.value != "" {
      SeekIs(lines, [chunk.changeContext.value], cursor, false);
    }
  }

  lemma SeekPlaces(lines: Lines, pattern: Lines, from: nat, eof: bool)
    ensures match Seek(lines, pattern, from, eof)
            case Some(i) => StandsAt(lines, pattern, from, eof, i)
            case None => IsNowhere(lines, pattern, from, eof)
  {
    hide Best, Nowhere, SeekTiers;
    if pattern != [] {
      SeekIs(lines, pattern, from, eof);
    }
  }

  lemma LocateOldIs(lines: Lines, chunk: Chunk, from: nat)
    requires chunk.oldLines != []
    ensures match LocateOld(lines, chunk, from)
            case Some(r) => PutAt(lines, chunk, from, r, r.start + r.oldLen)
            case None => NoPlaceFrom(lines, chunk.oldLines, from, chunk.isEndOfFile)
  {
    hide Seek, Best, Nowhere, StandsAt;
    var sought, shorter := chunk.oldLines, WithoutLast(chunk.oldLines);
    SeekPlaces(lines, sought, from, chunk.isEndOfFile);
    SeekPlaces(lines, shorter, from, chunk.isEndOfFile);
    assert EndsBlank(sought) ==> sought == shorter + [""];
    assert EndsBlank(chunk.newLines) ==> chunk.newLines == WithoutLast(chunk.newLines) + [""];
    var found := LocateOld(lines, chunk, from);
    if found.Some? {
      var oldLines := if Seek(lines, sought, from, chunk.isEndOfFile).Some? then sought else shorter;
      assert LooksFor(lines, chunk, from, oldLines, found.value.newLines);
    }
  }

  // Where a chunk goes, or why it has no place, told from the lines of the file.
  lemma PlaceIs(lines: Lines, chunk: Chunk, cursor: nat)
    ensures match PlaceOf(lines, chunk, cursor)
            case Placed(r, next) => PlacedAt(lines, chunk, cursor, r, next)
            case Lost(error) => LostAt(lines, chunk, cursor, error)
  {
    hide AfterContext, LocateOld, StartsFrom, PutAt, NoPlaceFrom, Nowhere;
    AfterContextIs(lines, chunk, cursor);
    var from := AfterContext(lines, chunk, cursor);
    if from.Some? {
      if chunk.oldLines != [] {
        LocateOldIs(lines, chunk, from.value);
      } else {
        InsertionIs(lines, chunk, from.value);
      }
    }
  }

  lemma InsertionIs(lines: Lines, chunk: Chunk, from: nat)
    requires chunk.oldLines == []
    ensures PutAt(lines, chunk, from, Replacement(InsertionIndex(lines), 0, chunk.newLines), from)
  {
  }

  // ---- all chunks, and their order ----

  // Each chunk is placed from where the one before it left off.
  ghost predicate Chained(lines: Lines, chunks: seq<Chunk>, cursors: seq<int>, rs: seq<Replacement>) {
    && |rs| <= |chunks| && |cursors| == |rs| + 1
    && forall k :: 0 <= k < |rs| ==> PlacedAt(lines, chunks[k], cursors[k], rs[k], cursors[k + 1])
  }

  lemma ChainedFirst(lines: Lines, chunks: seq<Chunk>, cursor: int, r: Replacement, cursors: seq<int>, rs: seq<Replacement>)
    requires chunks != [] && Chained(lines, chunks[1..], cursors, rs) && PlacedAt(lines, chunks[0], cursor, r, cursors[0])
    ensures Chained(lines, chunks, [cursor] + cursors, [r] + rs)
  {
    hide PlacedAt;
    var all, places := [cursor] + cursors, [r] + rs;
    forall k | 0 <= k < |places| ensures PlacedAt(lines, chunks[k], all[k], places[k], all[k + 1]) {
      if k > 0 {
        assert PlacedAt(lines, chunks[1..][k - 1], cursors[k - 1], rs[k - 1], cursors[k]);
      }
    }
  }

  // All chunks are placed in a chain, or one is lost after a chain of those before it.
  lemma {:induction false} ChunksArePlaced(lines: Lines, chunks: seq<Chunk>, cursor: nat) returns (cursors: seq<int>, rs: seq<Replacement>)
    ensures Chained(lines, chunks, cursors, rs) && cursors[0] == cursor
    ensures match Locate(lines, chunks, cursor)
            case Located(found) => rs == found && |rs| == |chunks|
            case Failed(error) => |rs| < |chunks| && LostAt(lines, chunks[|rs|], cursors[|rs|], error)
    decreases |chunks|
  {
    hide PlacedAt, LostAt, PlaceOf;
    cursors, rs := [cursor], [];
    if chunks != [] {
      PlaceIs(lines, chunks[0], cursor);
      var place := PlaceOf(lines, chunks[0], cursor);
      if place.Placed? {
        var later, others := ChunksArePlaced(lines, chunks[1..], place.next);
        ChainedFirst(lines, chunks, cursor, place.replacement, later, others);
        cursors, rs := [cursor] + later, [place.replacement] + others;
      }
    }
  }

  predicate SortedByStart(rs: seq<Replacement>) {
    forall j, k :: 0 <= j < k < |rs| ==> rs[j].start <= rs[k].start
  }

  function StartingAt(rs: seq<Replacement>, start: nat): seq<Replacement> {
    if rs == [] then []
    else if rs[0].start == start then [rs[0]] + StartingAt(rs[1..], start)
    else StartingAt(rs[1..], start)
  }

  lemma {:induction false} InsertSorts(r: Replacement, sorted: seq<Replacement>, start: nat)
    requires SortedByStart(sorted)
    ensures SortedByStart(Insert(r, sorted)) && forall x <- Insert(r, sorted) :: x == r || x in sorted
    ensures StartingAt(Insert(r, sorted), start) == if r.start == start then [r] + StartingAt(sorted, start) else StartingAt(sorted, start)
  {
    if sorted == [] || r.start <= sorted[0].start {
      assert ([r] + sorted)[1..] == sorted;
    } else {
      InsertSorts(r, sorted[1..], start);
      var all := Insert(r, sorted);
      assert all[1..] == Insert(r, sorted[1..]);
      if r.start == start {
        NoneStarts(sorted, start);
      }
    }
  }

  // Nothing that comes before a later start starts there.
  lemma NoneStarts(sorted: seq<Replacement>, start: nat)
    requires sorted != [] && sorted[0].start < start
    ensures StartingAt(sorted, start) == StartingAt(sorted[1..], start)
  {
  }

  // The replacements are sorted by where they start, and those that start together keep their order.
  lemma {:induction false} SortIsStable(rs: seq<Replacement>, start: nat)
    ensures SortedByStart(StableSort(rs)) && StartingAt(StableSort(rs), start) == StartingAt(rs, start)
  {
    if rs != [] {
      SortIsStable(rs[1..], start);
      InsertSorts(rs[0], StableSort(rs[1..]), start);
    }
  }

  // The replacements of an update: those of the chain of its chunks, sorted, or the error of the
  // first chunk that has no place.
  lemma ReplacementsArePlaced(lines: Lines, chunks: seq<Chunk>) returns (cursors: seq<int>, rs: seq<Replacement>)
    ensures Chained(lines, chunks, cursors, rs) && cursors[0] == 0
    ensures match Replacements(lines, chunks)
            case Located(sorted) =>
              |rs| == |chunks| && SortedByStart(sorted) && forall start: nat :: StartingAt(sorted, start) == StartingAt(rs, start)
            case Failed(error) => |rs| < |chunks| && LostAt(lines, chunks[|rs|], cursors[|rs|], error)
  {
    hide Chained, LostAt, StableSort, StartingAt, SortedByStart;
    cursors, rs := ChunksArePlaced(lines, chunks, 0);
    if |rs| == |chunks| {
      SortIsStable(rs, 0);
      forall start: nat ensures StartingAt(StableSort(rs), start) == StartingAt(rs, start) {
        SortIsStable(rs, start);
      }
    }
  }

  // ---- when two lines are the same in a tier ----

  const DASHES := {'\U{2010}', '\U{2011}', '\U{2012}', '\U{2013}', '\U{2014}', '\U{2015}', '\U{2212}'}
  const SINGLE_QUOTES := {'\U{2018}', '\U{2019}', '\U{201A}', '\U{201B}'}
  const DOUBLE_QUOTES := {'\U{201C}', '\U{201D}', '\U{201E}', '\U{201F}'}
  const WIDE_SPACES := {'\U{A0}', '\U{2002}', '\U{2003}', '\U{2004}', '\U{2005}', '\U{2006}', '\U{2007}', '\U{2008}', '\U{2009}',
                        '\U{200A}', '\U{202F}', '\U{205F}', '\U{3000}'}

  ghost predicate SamePunctuation(a: char, b: char) {
    || a == b
    || (a in DASHES + {'-'} && b in DASHES + {'-'})
    || (a in SINGLE_QUOTES + {'\''} && b in SINGLE_QUOTES + {'\''})
    || (a in DOUBLE_QUOTES + {'"'} && b in DOUBLE_QUOTES + {'"'})
    || (a in WIDE_SPACES + {' '} && b in WIDE_SPACES + {' '})
  }

  lemma FoldCharIs(a: char)
    ensures FoldChar(a) == if a in DASHES then '-' else if a in SINGLE_QUOTES then '\'' else if a in DOUBLE_QUOTES then '"'
                           else if a in WIDE_SPACES then ' ' else a
  {
  }

  lemma FoldsTogetherIff(a: char, b: char)
    ensures FoldChar(a) == FoldChar(b) <==> SamePunctuation(a, b)
  {
    hide FoldChar;
    FoldCharIs(a);
    FoldCharIs(b);
  }

  ghost predicate SameText(tier: Tier, a: string, b: string) {
    match tier
    case Exact => a == b
    case IgnoreEnd => exists core :: TrimmedEnd(a, core) && TrimmedEnd(b, core)
    case IgnoreEnds => exists core :: Trimmed(a, core) && Trimmed(b, core)
    case IgnorePunctuation =>
      exists x, y :: Trimmed(a, x) && Trimmed(b, y) && |x| == |y| && forall k :: 0 <= k < |x| ==> SamePunctuation(x[k], y[k])
  }

  lemma SamePunctuationIff(x: string, y: string)
    ensures NormalizePunctuation(x) == NormalizePunctuation(y)
       <==> |x| == |y| && forall k :: 0 <= k < |x| ==> SamePunctuation(x[k], y[k])
  {
    hide FoldChar, SamePunctuation;
    var a, b := NormalizePunctuation(x), NormalizePunctuation(y);
    if a == b {
      forall k | 0 <= k < |x| ensures SamePunctuation(x[k], y[k]) {
        assert a[k] == b[k];
        FoldsTogetherIff(x[k], y[k]);
      }
    }
    if |x| == |y| && forall k :: 0 <= k < |x| ==> SamePunctuation(x[k], y[k]) {
      forall k | 0 <= k < |x| ensures a[k] == b[k] {
        FoldsTogetherIff(x[k], y[k]);
      }
    }
  }

  // Two lines are the same in a tier: as they are, up to white space at the end, up to white space
  // at both ends, or up to that and the kind of dashes, quotes and spaces.
  lemma SameTextIff(tier: Tier, a: string, b: string)
    ensures Normalize(tier, a) == Normalize(tier, b) <==> SameText(tier, a, b)
  {
    hide TrimmedEnd, TrimmedStart, Trimmed, SamePunctuation, Trim, TrimEnd, NormalizePunctuation;
    TrimEndIs(a);
    TrimEndIs(b);
    TrimIs(a);
    TrimIs(b);
    SamePunctuationIff(Trim(a), Trim(b));
    if SameText(tier, a, b) {
      match tier
      case Exact =>
      case IgnoreEnd =>
        var core :| TrimmedEnd(a, core) && TrimmedEnd(b, core);
        EndTrimmedOnce(a, core);
        EndTrimmedOnce(b, core);
      case IgnoreEnds =>
        var core :| Trimmed(a, core) && Trimmed(b, core);
        TrimmedOnce(a, core);
        TrimmedOnce(b, core);
      case IgnorePunctuation =>
        var x, y :| Trimmed(a, x) && Trimmed(b, y) && |x| == |y| && forall k :: 0 <= k < |x| ==> SamePunctuation(x[k], y[k]);
        TrimmedOnce(a, x);
        TrimmedOnce(b, y);
    }
  }
}
