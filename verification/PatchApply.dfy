/** Splicing the replacements into the lines, last one first, and when that is what was meant. */
module PatchApply {
  import opened Wrappers
  import opened PatchUpdate

  // ---- splice, with JavaScript's clamping ----

  function InsertAt(lines: Lines, at: nat, line: string): Lines {
    var k := if at <= |lines| then at else |lines|;
    lines[..k] + [line] + lines[k..]
  }

  // One replacement: oldLen lines go, as far as there are any, and the new lines come in.
  function ApplyOne(lines: Lines, r: Replacement): Lines {
    var start, end := Min(r.start, |lines|), Min(r.start + r.oldLen, |lines|);
    lines[..start] + r.newLines + lines[end..]
  }

  function ApplyAll(lines: Lines, rs: seq<Replacement>): Lines {
    if rs == [] then lines else ApplyOne(ApplyAll(lines, rs[1..]), rs[0])
  }

  method ApplyReplacement(lines: Lines, r: Replacement) returns (result: Lines)
    ensures result == ApplyOne(lines, r)
  {
    result := lines;
    var start := Min(r.start, |lines|);
    for i := 0 to r.oldLen
      invariant result == lines[..start] + lines[Min(r.start + i, |lines|)..]
    {
      if r.start < |result| {
        result := result[..r.start] + result[r.start + 1..];
      }
    }
    ghost var tail := lines[Min(r.start + r.oldLen, |lines|)..];
    for i := 0 to |r.newLines|
      invariant result == lines[..start] + r.newLines[..i] + tail
    {
      result := InsertAt(result, r.start + i, r.newLines[i]);
    }
  }

  method ApplyReplacements(lines: Lines, rs: seq<Replacement>) returns (result: Lines)
    ensures result == ApplyAll(lines, rs)
  {
    result := lines;
    var k: nat := |rs|;
    while k > 0
      invariant k <= |rs| && result == ApplyAll(lines, rs[k..])
    {
      k := k - 1;
      assert rs[k..][1..] == rs[k + 1..];
      result := ApplyReplacement(result, rs[k]);
    }
    assert rs[0..] == rs;
  }

  // ---- simultaneous replacement ----

  // Ascending, inside the lines from `from` on, and not overlapping.
  ghost predicate Disjoint(rs: seq<Replacement>, from: nat, length: nat) {
    if rs == [] then from <= length
    else from <= rs[0].start && Disjoint(rs[1..], rs[0].start + rs[0].oldLen, length)
  }

  lemma {:induction false} DisjointInRange(rs: seq<Replacement>, from: nat, length: nat)
    requires Disjoint(rs, from, length)
    ensures from <= length && forall r <- rs :: from <= r.start && r.start + r.oldLen <= length
  {
    if rs != [] {
      DisjointInRange(rs[1..], rs[0].start + rs[0].oldLen, length);
    }
  }

  // The lines from `from` on: the untouched segments with the new lines between them.
  function Interleave(lines: Lines, rs: seq<Replacement>, from: nat): Lines {
    if rs == [] then lines[Min(from, |lines|)..]
    else
      var r := rs[0];
      lines[Min(from, |lines|)..Min(AtLeast(from, r.start), |lines|)] + (r.newLines + Interleave(lines, rs[1..], r.start + r.oldLen))
  }

  lemma InterleaveInside(lines: Lines, rs: seq<Replacement>, from: nat)
    requires from <= |lines| && (rs != [] ==> from <= rs[0].start <= |lines|)
    ensures Interleave(lines, rs, from)
         == if rs == [] then lines[from..]
            else lines[from..rs[0].start] + (rs[0].newLines + Interleave(lines, rs[1..], rs[0].start + rs[0].oldLen))
  {
  }

  // Splicing from the back, in place, is replacing all regions at once.
  lemma {:induction false} SplicingIsInterleaving(lines: Lines, rs: seq<Replacement>, from: nat)
    requires Disjoint(rs, from, |lines|)
    ensures from <= |lines| && ApplyAll(lines, rs) == lines[..from] + Interleave(lines, rs, from)
  {
    hide ApplyOne, Interleave;
    DisjointInRange(rs, from, |lines|);
    InterleaveInside(lines, rs, from);
    if rs == [] {
      assert lines == lines[..from] + lines[from..];
    } else {
      var r := rs[0];
      var end := r.start + r.oldLen;
      SplicingIsInterleaving(lines, rs[1..], end);
      ApplyOneInside(lines, r, Interleave(lines, rs[1..], end));
      SplitLines(lines, from, r.start, r.newLines + Interleave(lines, rs[1..], end));
    }
  }

  lemma ApplyOneInside(lines: Lines, r: Replacement, later: Lines)
    requires r.start + r.oldLen <= |lines|
    ensures ApplyOne(lines[..r.start + r.oldLen] + later, r) == lines[..r.start] + (r.newLines + later)
  {
    var end := r.start + r.oldLen;
    assert (lines[..end] + later)[..r.start] == lines[..r.start];
    assert (lines[..end] + later)[end..] == later;
  }

  lemma SplitLines(lines: Lines, from: nat, start: nat, later: Lines)
    requires from <= start <= |lines|
    ensures lines[..start] + later == lines[..from] + (lines[from..start] + later)
  {
    assert lines[..start] == lines[..from] + lines[from..start];
  }

  // ---- the stable sort ----

  lemma {:induction false} InsertIsPermutation(r: Replacement, sorted: seq<Replacement>)
    ensures multiset(Insert(r, sorted)) == multiset{r} + multiset(sorted)
  {
    if sorted != [] && r.start > sorted[0].start {
      InsertIsPermutation(r, sorted[1..]);
      assert sorted == [sorted[0]] + sorted[1..];
    }
  }

  lemma {:induction false} SortIsPermutation(rs: seq<Replacement>)
    ensures multiset(StableSort(rs)) == multiset(rs)
  {
    if rs != [] {
      SortIsPermutation(rs[1..]);
      InsertIsPermutation(rs[0], StableSort(rs[1..]));
      assert rs == [rs[0]] + rs[1..];
    }
  }

  // Two replacements, a given before b, end up apart however they are sorted.
  predicate Apart(a: Replacement, b: Replacement) {
    if a.start <= b.start then a.start + a.oldLen <= b.start else b.start + b.oldLen <= a.start
  }

  ghost predicate AllApart(rs: seq<Replacement>) {
    forall i, j :: 0 <= i < j < |rs| ==> Apart(rs[i], rs[j])
  }

  lemma {:induction false} InsertKeepsDisjoint(r: Replacement, sorted: seq<Replacement>, from: nat, length: nat)
    requires Disjoint(sorted, from, length) && from <= r.start && r.start + r.oldLen <= length
    requires forall x <- sorted :: Apart(r, x)
    ensures Disjoint(Insert(r, sorted), from, length)
  {
    if sorted != [] {
      assert Apart(r, sorted[0]);
      if r.start > sorted[0].start {
        InsertKeepsDisjoint(r, sorted[1..], sorted[0].start + sorted[0].oldLen, length);
      }
    }
  }

  lemma {:induction false} SortedApartIsDisjoint(rs: seq<Replacement>, length: nat)
    requires AllApart(rs) && forall r <- rs :: r.start + r.oldLen <= length
    ensures Disjoint(StableSort(rs), 0, length)
  {
    if rs != [] {
      var r, rest := rs[0], rs[1..];
      assert AllApart(rest) by {
        forall i, j | 0 <= i < j < |rest| ensures Apart(rest[i], rest[j]) {
          assert Apart(rs[i + 1], rs[j + 1]);
        }
      }
      SortedApartIsDisjoint(rest, length);
      SortIsPermutation(rest);
      forall x <- StableSort(rest) ensures Apart(r, x) {
        assert x in multiset(StableSort(rest)) && x in multiset(rest);
        var j :| 0 <= j < |rest| && rest[j] == x;
        assert Apart(rs[0], rs[j + 1]);
      }
      InsertKeepsDisjoint(r, StableSort(rest), 0, length);
    }
  }

  lemma {:induction false} InsertedIsThere(r: Replacement, sorted: seq<Replacement>)
    ensures r in Insert(r, sorted)
  {
    if sorted != [] && r.start > sorted[0].start {
      InsertedIsThere(r, sorted[1..]);
    }
  }

  // One step of an insertion: in front of the first, or among the rest.
  lemma InsertStep(r: Replacement, sorted: seq<Replacement>, from: nat, length: nat)
    requires sorted != [] && Disjoint(Insert(r, sorted), from, length)
    ensures var s := sorted[0];
            if r.start <= s.start then from <= r.start && Disjoint(sorted, r.start + r.oldLen, length)
            else from <= s.start && Disjoint(Insert(r, sorted[1..]), s.start + s.oldLen, length)
  {
    if r.start <= sorted[0].start {
      assert Insert(r, sorted)[1..] == sorted;
    } else {
      assert Insert(r, sorted)[1..] == Insert(r, sorted[1..]);
    }
  }

  lemma {:induction false} InsertedIsApart(r: Replacement, sorted: seq<Replacement>, from: nat, length: nat)
    requires Disjoint(Insert(r, sorted), from, length)
    ensures Disjoint(sorted, from, length) && forall x <- sorted :: Apart(r, x)
  {
    hide Insert;
    if sorted != [] {
      var s, rest := sorted[0], sorted[1..];
      InsertStep(r, sorted, from, length);
      if r.start <= s.start {
        DisjointInRange(sorted, r.start + r.oldLen, length);
        DisjointFrom(sorted, r.start + r.oldLen, from, length);
      } else {
        InsertedIsApart(r, rest, s.start + s.oldLen, length);
        InsertedIsThere(r, rest);
        DisjointInRange(Insert(r, rest), s.start + s.oldLen, length);
        assert sorted == [s] + rest;
      }
    } else {
      OneIsInRange(r, from, length);
    }
  }

  lemma OneIsInRange(r: Replacement, from: nat, length: nat)
    requires Disjoint(Insert(r, []), from, length)
    ensures from <= length
  {
    assert Insert(r, [])[1..] == [];
  }

  lemma DisjointFrom(rs: seq<Replacement>, from: nat, lower: nat, length: nat)
    requires Disjoint(rs, from, length) && lower <= from
    ensures Disjoint(rs, lower, length)
  {
  }

  lemma {:induction false} SortedDisjointIsApart(rs: seq<Replacement>, length: nat)
    requires Disjoint(StableSort(rs), 0, length)
    ensures AllApart(rs)
  {
    if rs != [] {
      var r, rest := rs[0], rs[1..];
      InsertedIsApart(r, StableSort(rest), 0, length);
      SortedDisjointIsApart(rest, length);
      SortIsPermutation(rest);
      forall i, j | 0 <= i < j < |rs| ensures Apart(rs[i], rs[j]) {
        if i == 0 {
          assert rs[j] == rest[j - 1] && rest[j - 1] in multiset(rest);
          assert rs[j] in multiset(StableSort(rest));
        } else {
          assert Apart(rest[i - 1], rest[j - 1]);
        }
      }
    }
  }

  // Sorting by start puts replacements apart exactly when they were, taken two by two.
  lemma SortedDisjointIff(rs: seq<Replacement>, length: nat)
    requires forall r <- rs :: r.start + r.oldLen <= length
    ensures Disjoint(StableSort(rs), 0, length) <==> AllApart(rs)
  {
    if Disjoint(StableSort(rs), 0, length) {
      SortedDisjointIsApart(rs, length);
    }
    if AllApart(rs) {
      SortedApartIsDisjoint(rs, length);
    }
  }

  // ---- when located chunks are apart ----

  lemma SeekInRange(lines: Lines, pattern: Lines, start: nat, eof: bool)
    requires start <= |lines| && Seek(lines, pattern, start, eof).Some?
    ensures Seek(lines, pattern, start, eof).value + |pattern| <= |lines|
    ensures Seek(lines, pattern, start, eof).value >= start
       <==> pattern == [] || !eof || start + |pattern| <= |lines|
  {
    if pattern != [] {
      var hit := SeekTiersIsBest(lines, pattern, SearchStart(lines, pattern, start, eof), Exact);
      if eof {
        assert Seek(lines, pattern, start, eof).value == |lines| - |pattern|;
      }
    }
  }

  // The place of a chunk is inside the lines, and at or after the cursor exactly when it is not
  // an end-of-file chunk too long for the rest of the file.
  lemma PlaceInRange(lines: Lines, chunk: Chunk, cursor: nat)
    requires cursor <= |lines| && PlaceOf(lines, chunk, cursor).Placed?
    ensures var Placed(r, next) := PlaceOf(lines, chunk, cursor);
            var from := AfterContext(lines, chunk, cursor).value;
            && cursor <= from && from <= |lines| && next <= |lines|
            && r.start + r.oldLen <= |lines|
            && (chunk.oldLines != [] ==> next == r.start + r.oldLen)
            && (chunk.oldLines != [] ==> (r.start >= from <==> !chunk.isEndOfFile || from + r.oldLen <= |lines|))
            && (chunk.oldLines == [] ==> r.oldLen == 0 && next == from)
  {
    if chunk.changeContext.Some? && chunk.changeContext.value != "" {
      SeekInRange(lines, [chunk.changeContext.value], cursor, false);
    }
    var from := AfterContext(lines, chunk, cursor).value;
    if chunk.oldLines != [] {
      if Seek(lines, chunk.oldLines, from, chunk.isEndOfFile).Some? {
        SeekInRange(lines, chunk.oldLines, from, chunk.isEndOfFile);
      } else {
        SeekInRange(lines, WithoutLast(chunk.oldLines), from, chunk.isEndOfFile);
      }
    }
  }

  // The end of the furthest region taken so far. A region that starts at the end of the file is
  // empty and in nobody's way.
  function Furthest(lines: Lines, taken: nat, r: Replacement): nat {
    if r.start < |lines| && r.start + r.oldLen > taken then r.start + r.oldLen else taken
  }

  // The two ways in which located chunks may overlap are shut out. `taken` is the end of the
  // furthest region so far, `inserted` says whether something goes in front of a blank last line.
  // An end-of-file chunk starts at or after the end of every region before it; the blank last line
  // is in no region before the insertion, and in none after it that starts earlier.
  predicate FitsIn(lines: Lines, chunk: Chunk, r: Replacement, taken: nat, inserted: bool) {
    if chunk.oldLines == [] then EndsBlank(lines) ==> taken < |lines|
    else
      && (chunk.isEndOfFile ==> taken <= r.start)
      && (inserted && r.start + 1 < |lines| ==> r.start + r.oldLen < |lines|)
  }

  predicate Clear(lines: Lines, chunks: seq<Chunk>, cursor: nat, taken: nat, inserted: bool)
    decreases |chunks|
  {
    chunks == []
    || match PlaceOf(lines, chunks[0], cursor)
       case Lost(_) => true
       case Placed(r, next) =>
         && FitsIn(lines, chunks[0], r, taken, inserted)
         && Clear(lines, chunks[1..], next, TakenAfter(lines, chunks[0], r, taken), InsertedAfter(lines, chunks[0], inserted))
  }

  function TakenAfter(lines: Lines, chunk: Chunk, r: Replacement, taken: nat): nat {
    if chunk.oldLines == [] then taken else Furthest(lines, taken, r)
  }

  function InsertedAfter(lines: Lines, chunk: Chunk, inserted: bool): bool {
    inserted || (chunk.oldLines == [] && EndsBlank(lines))
  }

  // What `taken` and `inserted` say about the replacements placed so far.
  ghost predicate Summary(lines: Lines, done: seq<Replacement>, cursor: nat, taken: nat, inserted: bool) {
    && taken <= cursor <= |lines|
    && (forall a <- done :: a.start + a.oldLen <= |lines|)
    && (forall a <- done :: a.start == |lines| || a.start + a.oldLen <= taken || IsBlankInsertion(lines, a, inserted))
    && (taken > 0 ==> exists a <- done :: a.start < |lines| && a.start + a.oldLen == taken)
    && (inserted ==> EndsBlank(lines) && exists a <- done :: a.start + 1 == |lines| && a.oldLen == 0)
  }

  predicate IsBlankInsertion(lines: Lines, a: Replacement, inserted: bool) {
    inserted && EndsBlank(lines) && a.start + 1 == |lines| && a.oldLen == 0
  }

  ghost predicate ApartFrom(done: seq<Replacement>, r: Replacement) {
    forall a <- done :: Apart(a, r)
  }

  lemma InsertionApartIff(lines: Lines, done: seq<Replacement>, cursor: nat, taken: nat, inserted: bool, r: Replacement)
    requires Summary(lines, done, cursor, taken, inserted) && r.start == InsertionIndex(lines) && r.oldLen == 0
    ensures ApartFrom(done, r) <==> (EndsBlank(lines) ==> taken < |lines|)
  {
  }

  // Where a region ends up: at or after the cursor, or, for an end-of-file chunk, at the end.
  ghost predicate RegionPlaced(lines: Lines, r: Replacement, cursor: nat, eof: bool) {
    r.start + r.oldLen <= |lines| && (cursor <= r.start || (eof && r.start + r.oldLen == |lines| && r.start < |lines|))
  }

  lemma RegionApartIff(lines: Lines, done: seq<Replacement>, cursor: nat, taken: nat, inserted: bool, r: Replacement, eof: bool)
    requires Summary(lines, done, cursor, taken, inserted) && RegionPlaced(lines, r, cursor, eof)
    ensures ApartFrom(done, r)
       <==> (eof ==> taken <= r.start) && (inserted && r.start + 1 < |lines| ==> r.start + r.oldLen < |lines|)
  {
    if ApartFrom(done, r) {
      if taken > 0 {
        var a :| a in done && a.start < |lines| && a.start + a.oldLen == taken;
        assert Apart(a, r);
      }
      if inserted {
        var a :| a in done && a.start + 1 == |lines| && a.oldLen == 0;
        assert Apart(a, r);
      }
    }
  }

  lemma SummaryAfterInsertion(lines: Lines, done: seq<Replacement>, cursor: nat, taken: nat, inserted: bool, r: Replacement, next: nat)
    requires Summary(lines, done, cursor, taken, inserted) && cursor <= next <= |lines|
    requires r.start == InsertionIndex(lines) && r.oldLen == 0
    ensures Summary(lines, done + [r], next, taken, inserted || EndsBlank(lines))
  {
    assert r in done + [r] && forall a <- done :: a in done + [r];
  }

  lemma SummaryAfterRegion(lines: Lines, done: seq<Replacement>, cursor: nat, taken: nat, inserted: bool, r: Replacement, eof: bool)
    requires Summary(lines, done, cursor, taken, inserted) && RegionPlaced(lines, r, cursor, eof)
    ensures Summary(lines, done + [r], r.start + r.oldLen, Furthest(lines, taken, r), inserted)
  {
    assert r in done + [r] && forall a <- done :: a in done + [r];
  }

  lemma AllApartSnoc(done: seq<Replacement>, r: Replacement)
    ensures AllApart(done + [r]) <==> AllApart(done) && ApartFrom(done, r)
  {
    var all := done + [r];
    if AllApart(all) {
      forall i, j | 0 <= i < j < |done| ensures Apart(done[i], done[j]) {
        assert Apart(all[i], all[j]);
      }
      forall a <- done ensures Apart(a, r) {
        var i :| 0 <= i < |done| && done[i] == a;
        assert Apart(all[i], all[|done|]);
      }
    }
    if AllApart(done) && ApartFrom(done, r) {
      forall i, j | 0 <= i < j < |all| ensures Apart(all[i], all[j]) {
        if j == |done| {
          assert done[i] in done;
        } else {
          assert Apart(done[i], done[j]);
        }
      }
    }
  }

  lemma AllApartPrefix(done: seq<Replacement>, later: seq<Replacement>)
    requires AllApart(done + later)
    ensures AllApart(done)
  {
    forall i, j | 0 <= i < j < |done| ensures Apart(done[i], done[j]) {
      assert Apart((done + later)[i], (done + later)[j]);
    }
  }

  lemma PlacedRegion(lines: Lines, chunk: Chunk, cursor: nat)
    requires cursor <= |lines| && chunk.oldLines != [] && PlaceOf(lines, chunk, cursor).Placed?
    ensures var Placed(r, next) := PlaceOf(lines, chunk, cursor);
            RegionPlaced(lines, r, cursor, chunk.isEndOfFile) && next == r.start + r.oldLen
  {
    hide Seek, RegionPlaced;
    var from := AfterContext(lines, chunk, cursor).value;
    ContextGoesOn(lines, chunk, cursor);
    var found := if Seek(lines, chunk.oldLines, from, chunk.isEndOfFile).Some? then chunk.oldLines else WithoutLast(chunk.oldLines);
    FoundRegion(lines, found, cursor, from, chunk.isEndOfFile, LocateOld(lines, chunk, from).value);
  }

  lemma ContextGoesOn(lines: Lines, chunk: Chunk, cursor: nat)
    requires cursor <= |lines| && AfterContext(lines, chunk, cursor).Some?
    ensures cursor <= AfterContext(lines, chunk, cursor).value <= |lines|
  {
    if chunk.changeContext.Some? && chunk.changeContext.value != "" {
      SeekInRange(lines, [chunk.changeContext.value], cursor, false);
    }
  }

  lemma FoundRegion(lines: Lines, pattern: Lines, cursor: nat, from: nat, eof: bool, r: Replacement)
    requires cursor <= from <= |lines| && Seek(lines, pattern, from, eof) == Some(r.start) && r.oldLen == |pattern|
    ensures RegionPlaced(lines, r, cursor, eof)
  {
    SeekInRange(lines, pattern, from, eof);
    if eof && pattern != [] {
      EofEnds(lines, pattern, from);
    }
  }

  lemma EofEnds(lines: Lines, pattern: Lines, start: nat)
    requires pattern != [] && Seek(lines, pattern, start, true).Some?
    ensures Seek(lines, pattern, start, true).value + |pattern| == |lines|
  {
    var hit := SeekTiersIsBest(lines, pattern, SearchStart(lines, pattern, start, true), Exact);
  }

  lemma ChunkApartIff(lines: Lines, chunk: Chunk, cursor: nat, taken: nat, inserted: bool, done: seq<Replacement>)
    requires Summary(lines, done, cursor, taken, inserted) && PlaceOf(lines, chunk, cursor).Placed?
    ensures var Placed(r, next) := PlaceOf(lines, chunk, cursor);
            && (ApartFrom(done, r) <==> FitsIn(lines, chunk, r, taken, inserted))
            && Summary(lines, done + [r], next, TakenAfter(lines, chunk, r, taken), InsertedAfter(lines, chunk, inserted))
  {
    var Placed(r, next) := PlaceOf(lines, chunk, cursor);
    PlaceInRange(lines, chunk, cursor);
    if chunk.oldLines == [] {
      InsertionApartIff(lines, done, cursor, taken, inserted, r);
      SummaryAfterInsertion(lines, done, cursor, taken, inserted, r, next);
    } else {
      PlacedRegion(lines, chunk, cursor);
      RegionApartIff(lines, done, cursor, taken, inserted, r, chunk.isEndOfFile);
      SummaryAfterRegion(lines, done, cursor, taken, inserted, r, chunk.isEndOfFile);
    }
  }

  lemma {:induction false} ApartIff(lines: Lines, chunks: seq<Chunk>, cursor: nat, taken: nat, inserted: bool, done: seq<Replacement>)
    requires Summary(lines, done, cursor, taken, inserted) && AllApart(done)
    requires Locate(lines, chunks, cursor).Located?
    ensures AllApart(done + Locate(lines, chunks, cursor).replacements) <==> Clear(lines, chunks, cursor, taken, inserted)
    decreases |chunks|
  {
    hide Summary, AllApart, ApartFrom, FitsIn, PlaceOf, TakenAfter, InsertedAfter;
    if chunks == [] {
      assert done + [] == done;
    } else {
      ChunkApartIff(lines, chunks[0], cursor, taken, inserted, done);
      var Placed(r, next) := PlaceOf(lines, chunks[0], cursor);
      var later := Locate(lines, chunks[1..], next).replacements;
      AllApartSnoc(done, r);
      Regroup(done, [r], later);
      if FitsIn(lines, chunks[0], r, taken, inserted) {
        ApartIff(lines, chunks[1..], next, TakenAfter(lines, chunks[0], r, taken), InsertedAfter(lines, chunks[0], inserted), done + [r]);
      } else if AllApart(done + [r] + later) {
        AllApartPrefix(done + [r], later);
      }
    }
  }

  lemma {:induction false} LocatedInRange(lines: Lines, chunks: seq<Chunk>, cursor: nat)
    requires cursor <= |lines| && Locate(lines, chunks, cursor).Located?
    ensures forall r <- Locate(lines, chunks, cursor).replacements :: r.start + r.oldLen <= |lines|
    decreases |chunks|
  {
    if chunks != [] {
      PlaceInRange(lines, chunks[0], cursor);
      LocatedInRange(lines, chunks[1..], PlaceOf(lines, chunks[0], cursor).next);
    }
  }

  // The sorted replacements are in order, inside the file and disjoint exactly when the chunks
  // are clear of the two backward cases.
  lemma ReplacementsDisjointIff(lines: Lines, chunks: seq<Chunk>)
    requires Replacements(lines, chunks).Located?
    ensures Disjoint(Replacements(lines, chunks).replacements, 0, |lines|) <==> Clear(lines, chunks, 0, 0, false)
  {
    var rs := Locate(lines, chunks, 0).replacements;
    LocatedInRange(lines, chunks, 0);
    SortedDisjointIff(rs, |lines|);
    ApartIff(lines, chunks, 0, 0, false, []);
    assert [] + rs == rs;
  }

  // And then splicing them from the back is replacing all the regions at once.
  lemma UpdateIsSimultaneous(lines: Lines, chunks: seq<Chunk>)
    requires Clear(lines, chunks, 0, 0, false) && Replacements(lines, chunks).Located?
    ensures ApplyAll(lines, Replacements(lines, chunks).replacements) == Interleave(lines, Replacements(lines, chunks).replacements, 0)
  {
    ReplacementsDisjointIff(lines, chunks);
    SplicingIsInterleaving(lines, Replacements(lines, chunks).replacements, 0);
  }

  // An end-of-file chunk located before the cursor: its edit is lost.
  lemma BackwardEofExample(rs: seq<Replacement>)
    requires rs == [Replacement(0, 2, ["x"]), Replacement(1, 1, ["y"])]
    ensures !Disjoint(rs, 0, 2) && ApplyAll(["a", "b"], rs) == ["x"]
  {
    assert rs[1..] == [rs[1]] && rs[1..][1..] == [];
    assert ApplyAll(["a", "b"], []) == ["a", "b"];
    assert ApplyAll(["a", "b"], rs[1..]) == ["a", "y"];
  }

  lemma BackwardEofIsLocated(first: Chunk, second: Chunk)
    requires first == Chunk(None, ["a", "b"], ["x"], false) && second == Chunk(None, ["b"], ["y"], true)
    ensures Replacements(["a", "b"], [first, second]) == Located([Replacement(0, 2, ["x"]), Replacement(1, 1, ["y"])])
    ensures !Clear(["a", "b"], [first, second], 0, 0, false)
  {
    var lines, chunks := ["a", "b"], [first, second];
    assert Matches(lines, ["a", "b"], 0, Exact);
    assert SeekTier(lines, ["a", "b"], 0, Exact) == Some(0);
    assert Seek(lines, ["a", "b"], 0, false) == Some(0);
    assert PlaceOf(lines, first, 0) == Placed(Replacement(0, 2, ["x"]), 2);
    assert Matches(lines, ["b"], 1, Exact);
    assert SeekTier(lines, ["b"], 1, Exact) == Some(1);
    assert Seek(lines, ["b"], 2, true) == Some(1);
    assert PlaceOf(lines, second, 2) == Placed(Replacement(1, 1, ["y"]), 2);
    assert chunks[1..] == [second] && chunks[1..][1..] == [];
    assert Locate(lines, [], 2) == Located([]);
    assert Locate(lines, [second], 2) == Located([Replacement(1, 1, ["y"])]);
    var rs := [Replacement(0, 2, ["x"]), Replacement(1, 1, ["y"])];
    assert Locate(lines, chunks, 0) == Located(rs);
    assert rs[1..] == [rs[1]] && rs[1..][1..] == [];
    assert StableSort(rs[1..]) == rs[1..];
  }

  // A pure insertion in front of a blank last line that another chunk replaces: it is lost too.
  lemma BlankLastLineExample(rs: seq<Replacement>)
    requires rs == [Replacement(0, 2, ["b", ""]), Replacement(InsertionIndex(["a", ""]), 0, ["c"])]
    ensures !Disjoint(rs, 0, 2) && ApplyAll(["a", ""], rs) == ["b", "", ""]
  {
    assert rs[1..] == [rs[1]] && rs[1..][1..] == [] && rs[1].start == 1;
    assert ApplyAll(["a", ""], []) == ["a", ""];
    assert ApplyAll(["a", ""], rs[1..]) == ["a", "c", ""];
  }

  lemma BlankLastLineIsLocated(first: Chunk, second: Chunk)
    requires first == Chunk(None, ["a", ""], ["b", ""], false) && second == Chunk(None, [], ["c"], false)
    ensures Replacements(["a", ""], [first, second])
         == Located([Replacement(0, 2, ["b", ""]), Replacement(InsertionIndex(["a", ""]), 0, ["c"])])
    ensures !Clear(["a", ""], [first, second], 0, 0, false)
  {
    var lines, chunks := ["a", ""], [first, second];
    assert Matches(lines, ["a", ""], 0, Exact);
    assert SeekTier(lines, ["a", ""], 0, Exact) == Some(0);
    assert Seek(lines, ["a", ""], 0, false) == Some(0);
    assert PlaceOf(lines, first, 0) == Placed(Replacement(0, 2, ["b", ""]), 2);
    assert PlaceOf(lines, second, 2) == Placed(Replacement(1, 0, ["c"]), 2);
    assert chunks[1..] == [second] && chunks[1..][1..] == [];
    assert Locate(lines, [], 2) == Located([]);
    assert Locate(lines, [second], 2) == Located([Replacement(1, 0, ["c"])]);
    var rs := [Replacement(0, 2, ["b", ""]), Replacement(1, 0, ["c"])];
    assert Locate(lines, chunks, 0) == Located(rs);
    assert rs[1..] == [rs[1]] && rs[1..][1..] == [];
    assert StableSort(rs[1..]) == rs[1..];
  }

  // ---- the file as a whole ----

  // The lines that are split off the contents lose one blank last line; the result gets one back.
  function FileLines(split: Lines): Lines {
    if EndsBlank(split) then WithoutLast(split) else split
  }

  function WithFinalNewline(lines: Lines): Lines {
    if lines == [] || lines[|lines| - 1] != "" then lines + [""] else lines
  }

  // One blank last line is taken off, if there is one, and a blank last line is added, unless there is one.
  lemma LastLineIs(split: Lines, lines: Lines)
    ensures split != [] && split[|split| - 1] == "" ==> FileLines(split) + [""] == split
    ensures split == [] || split[|split| - 1] != "" ==> FileLines(split) == split
    ensures WithFinalNewline(lines) != [] && WithFinalNewline(lines)[|WithFinalNewline(lines)| - 1] == ""
    ensures WithFinalNewline(lines) == lines || WithFinalNewline(lines) == lines + [""]
    ensures lines != [] && lines[|lines| - 1] == "" ==> WithFinalNewline(lines) == lines
  {
  }

  method ApplyUpdateHunk(split: Lines, chunks: seq<Chunk>) returns (r: Located, updated: Lines)
    ensures r == Replacements(FileLines(split), chunks)
    ensures r.Located? ==> updated == WithFinalNewline(ApplyAll(FileLines(split), r.replacements))
  {
    var lines := split;
    if |lines| > 0 && lines[|lines| - 1] == "" {
      lines := lines[..|lines| - 1];
    }
    r := ComputeReplacements(lines, chunks);
    updated := [];
    if r.Located? {
      updated := ApplyReplacements(lines, r.replacements);
      if |updated| == 0 || updated[|updated| - 1] != "" {
        updated := updated + [""];
      }
    }
  }
}
