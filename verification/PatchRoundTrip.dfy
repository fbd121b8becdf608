/** Printing hunks in canonical form, and reading them back. */
module PatchRoundTrip {
  import opened Wrappers
  import opened Text
  import opened PatchParser
  import opened PatchGrammar

  // ---- the canonical form: removed lines, then added ones ----

  function Removes(lines: seq<string>): seq<Edit> {
    if lines == [] then [] else [Remove(lines[0])] + Removes(lines[1..])
  }

  function Adds(lines: seq<string>): seq<Edit> {
    if lines == [] then [] else [Add(lines[0])] + Adds(lines[1..])
  }

  function ChunkDraftOf(c: Chunk): ChunkDraft {
    ChunkDraft(if c.changeContext.Some? then Context(c.changeContext.value) else Plain, Removes(c.oldLines) + Adds(c.newLines), c.isEndOfFile)
  }

  function Pieces(cs: seq<Chunk>): seq<Item> {
    if cs == [] then [] else [Piece(ChunkDraftOf(cs[0]))] + Pieces(cs[1..])
  }

  // The lines of the contents of a new file, each ended by a line feed.
  function ContentLines(line: string, contents: string): seq<string>
    decreases |contents|
  {
    if contents == "" then []
    else if contents[0] == '\n' then [line] + ContentLines("", contents[1..])
    else ContentLines(line + [contents[0]], contents[1..])
  }

  function DraftOf(h: Hunk): Draft {
    match h
    case AddFile(path, contents) => AddDraft(ADD_FILE_MARKER + path, ContentLines("", contents))
    case DeleteFile(path) => DeleteDraft(DELETE_FILE_MARKER + path)
    case UpdateFile(path, move, chunks) =>
      UpdateDraft(UPDATE_FILE_MARKER + path, if move.Some? then Some(MOVE_TO_MARKER + move.value) else None, Pieces(chunks))
  }

  function DraftsOf(hs: seq<Hunk>): seq<Draft> {
    if hs == [] then [] else [DraftOf(hs[0])] + DraftsOf(hs[1..])
  }

  function RenderPatch(hs: seq<Hunk>): seq<string> {
    [BEGIN_PATCH] + AllDraftLines(DraftsOf(hs)) + [END_PATCH]
  }

  // ---- well-formed hunks ----

  predicate GoodPath(path: string) {
    path != "" && !IsSpace(path[|path| - 1])
  }

  predicate HasLines(c: Chunk) {
    c.oldLines != [] || c.newLines != []
  }

  predicate GoodHunk(h: Hunk) {
    match h
    case AddFile(path, contents) => GoodPath(path) && (contents == "" || contents[|contents| - 1] == '\n')
    case DeleteFile(path) => GoodPath(path)
    case UpdateFile(path, move, chunks) =>
      GoodPath(path) && (move.Some? ==> GoodPath(move.value)) && chunks != [] && forall k :: 0 <= k < |chunks| ==> HasLines(chunks[k])
  }

  // ---- one chunk ----

  lemma {:induction false} SidesOfRemoves(lines: seq<string>, more: seq<Edit>)
    ensures Olds(Removes(lines) + more) == lines + Olds(more) && News(Removes(lines) + more) == News(more)
  {
    if lines == [] {
      assert [] + more == more;
    } else {
      var later := Removes(lines[1..]) + more;
      assert Removes(lines) + more == [Remove(lines[0])] + later;
      SidesOfRemoves(lines[1..], more);
      SidesOfRemove(lines[0], later);
      assert lines == [lines[0]] + lines[1..];
      hide Removes, Olds, News;
      Regroup([lines[0]], lines[1..], Olds(more));
    }
  }

  lemma SidesOfRemove(line: string, later: seq<Edit>)
    ensures Olds([Remove(line)] + later) == [line] + Olds(later) && News([Remove(line)] + later) == News(later)
  {
    assert ([Remove(line)] + later)[1..] == later;
  }

  lemma {:induction false} SidesOfAdds(lines: seq<string>)
    ensures Olds(Adds(lines)) == [] && News(Adds(lines)) == lines && (lines != [] ==> Adds(lines) != [])
  {
    if lines != [] {
      SidesOfAdds(lines[1..]);
    }
  }

  // The canonical lines of a chunk are lines of that chunk.
  lemma CanonicalChunk(c: Chunk)
    requires HasLines(c)
    ensures GoodChunk(ChunkDraftOf(c)) && ChunkOf(ChunkDraftOf(c)) == c && !ChunkDraftOf(c).header.NoHeader?
  {
    SidesOfRemoves(c.oldLines, Adds(c.newLines));
    SidesOfAdds(c.newLines);
    assert c.oldLines + [] == c.oldLines;
  }

  lemma {:induction false} CanonicalPieces(cs: seq<Chunk>, first: bool, open: bool)
    requires forall k :: 0 <= k < |cs| ==> HasLines(cs[k])
    ensures GoodItems(Pieces(cs), first, open) && ChunksOf(Pieces(cs)) == cs
    decreases |cs|
  {
    if cs != [] {
      hide ChunkDraftOf, ChunkOf, HasLines, GoodChunk;
      CanonicalChunk(cs[0]);
      CanonicalPieces(cs[1..], false, !ChunkDraftOf(cs[0]).eof);
    }
  }

  // ---- one hunk ----

  lemma {:induction false} ContentsRoundTrip(line: string, contents: string)
    requires contents == "" || contents[|contents| - 1] == '\n'
    ensures contents != "" ==> Terminated(ContentLines(line, contents)) == line + contents
    ensures contents == "" ==> Terminated(ContentLines(line, contents)) == ""
    decreases |contents|
  {
    if contents != "" {
      var rest := contents[1..];
      assert contents == [contents[0]] + rest;
      if contents[0] == '\n' {
        ContentsRoundTrip("", rest);
        assert line + "\n" + Terminated(ContentLines("", rest)) == line + contents;
      } else {
        assert rest != "";
        ContentsRoundTrip(line + [contents[0]], rest);
        assert line + [contents[0]] + rest == line + contents;
      }
    }
  }

  lemma MarkedPath(marker: string, path: string)
    requires marker != "" && !IsSpace(marker[0]) && GoodPath(path)
    ensures IsHeader(marker + path, marker, path)
  {
    assert (marker + path)[|marker + path| - 1] == path[|path| - 1];
  }

  lemma CanonicalHunk(h: Hunk)
    requires GoodHunk(h)
    ensures GoodDraft(DraftOf(h)) && IsFor(DraftOf(h), h)
    ensures StartsWith(DraftLines(DraftOf(h))[0], "***")
  {
    hide Trim, GoodItems, ChunksOf, AllItemLines, IsHeader;
    match h
    case AddFile(path, contents) =>
      MarkedPath(ADD_FILE_MARKER, path);
      ContentsRoundTrip("", contents);
      assert "" + contents == contents;
    case DeleteFile(path) => MarkedPath(DELETE_FILE_MARKER, path);
    case UpdateFile(path, move, cs) =>
      MarkedPath(UPDATE_FILE_MARKER, path);
      if move.Some? {
        MarkedPath(MOVE_TO_MARKER, move.value);
      }
      CanonicalPieces(cs, true, false);
      FirstPiece(cs);
  }

  lemma FirstPiece(cs: seq<Chunk>)
    requires cs != [] && HasLines(cs[0])
    ensures AllItemLines(Pieces(cs)) != [] && !IsMoveLine(AllItemLines(Pieces(cs))[0])
  {
    hide ChunkLines, Trim;
    CanonicalChunk(cs[0]);
    HeaderIs(ChunkDraftOf(cs[0]));
    ChunkStarts(ChunkDraftOf(cs[0]));
  }

  lemma HeadsFollow(d: Draft, line: string, rest: seq<string>)
    requires GoodDraft(d) && StartsWith(line, "***") && line != EOF_MARKER
    ensures MayFollow(d, [line] + rest) && MayFollow(d, [])
  {
    assert line[0] == "***"[0] == '*';
    KeepsFirst(line);
  }

  // ---- the whole patch ----

  lemma HeadIsNoEnd(h: Hunk)
    requires GoodHunk(h)
    ensures DraftLines(DraftOf(h))[0] != EOF_MARKER
  {
    assert DraftLines(DraftOf(h))[0][4] != EOF_MARKER[4];
  }

  lemma FirstOfDrafts(hs: seq<Hunk>)
    requires hs != []
    ensures DraftsOf(hs) == [DraftOf(hs[0])] + DraftsOf(hs[1..])
  {
    hide DraftOf;
  }

  lemma FirstLineOf(hs: seq<Hunk>)
    requires hs != []
    ensures AllDraftLines(DraftsOf(hs)) != [] && DraftLines(DraftOf(hs[0])) != []
    ensures AllDraftLines(DraftsOf(hs))[0] == DraftLines(DraftOf(hs[0]))[0]
  {
    hide *;
    FirstOfDrafts(hs);
    FirstDraft(DraftOf(hs[0]), DraftsOf(hs[1..]));
    DraftHasLines(DraftOf(hs[0]));
  }

  // Hunks whose first line does not end a hunk may follow any other.
  lemma CanonicalFollows(d: Draft, rest: seq<Hunk>)
    requires GoodDraft(d) && (rest != [] ==> GoodHunk(rest[0]))
    ensures MayFollow(d, AllDraftLines(DraftsOf(rest)))
  {
    hide GoodHunk, GoodDraft, MayFollow, DraftLines, IsFor;
    if rest != [] {
      var tail := AllDraftLines(DraftsOf(rest));
      FirstLineOf(rest);
      CanonicalHunk(rest[0]);
      HeadIsNoEnd(rest[0]);
      hide *;
      HeadsFollow(d, tail[0], tail[1..]);
      assert tail == [tail[0]] + tail[1..];
    } else {
      HeadsFollow(d, "***", []);
    }
  }

  lemma {:induction false} CanonicalHunks(hs: seq<Hunk>)
    requires forall k :: 0 <= k < |hs| ==> GoodHunk(hs[k])
    ensures GoodDrafts(DraftsOf(hs)) && AreFor(DraftsOf(hs), hs)
    decreases |hs|
  {
    if hs != [] {
      hide *;
      CanonicalHunks(hs[1..]);
      CanonicalMore(hs);
    }
  }

  lemma CanonicalMore(hs: seq<Hunk>)
    requires hs != [] && GoodHunk(hs[0]) && (hs[1..] != [] ==> GoodHunk(hs[1]))
    requires GoodDrafts(DraftsOf(hs[1..])) && AreFor(DraftsOf(hs[1..]), hs[1..])
    ensures GoodDrafts(DraftsOf(hs)) && AreFor(DraftsOf(hs), hs)
  {
    hide *;
    var d, rest := DraftOf(hs[0]), hs[1..];
    assert hs == [hs[0]] + rest;
    CanonicalHunk(hs[0]);
    CanonicalFollows(d, rest);
    FirstOfDrafts(hs);
    FirstDraft(d, DraftsOf(rest));
    FirstFor(DraftsOf(rest), rest, d, hs[0]);
  }

  // Reading a printed patch gives the hunks that were printed.
  lemma PatchRoundTrips(hs: seq<Hunk>)
    requires forall k :: 0 <= k < |hs| ==> GoodHunk(hs[k])
    ensures ParseLines(RenderPatch(hs)) == Ok(hs)
  {
    hide AllDraftLines, GoodDrafts, AreFor, ParseLines, GoodHunk;
    var lines := RenderPatch(hs);
    MarkersTrimmed();
    CanonicalHunks(hs);
    assert lines[1..|lines| - 1] == AllDraftLines(DraftsOf(hs));
    PatchIsReadIff(lines, hs);
  }

  lemma MarkersTrimmed()
    ensures Trim(BEGIN_PATCH) == BEGIN_PATCH && Trim(END_PATCH) == END_PATCH
  {
  }

  // ---- the text of a patch ----

  function JoinLines(lines: seq<string>): string {
    if lines == [] then "" else if |lines| == 1 then lines[0] else lines[0] + ("\n" + JoinLines(lines[1..]))
  }

  // A line that comes back whole from a split at line ends.
  predicate OneLine(line: string) {
    (forall k :: 0 <= k < |line| ==> line[k] != '\n') && (line != "" ==> line[|line| - 1] != '\r')
  }

  lemma {:induction false} SplitAfterLine(before: string, line: string, rest: string)
    requires OneLine(line)
    ensures SplitFrom(before, line + ("\n" + rest)) == [before + line] + SplitFrom("", rest)
    decreases |line|
  {
    var all := line + ("\n" + rest);
    if line == "" {
      assert all == "\n" + rest && all[1..] == rest && before + line == before;
    } else {
      assert all[0] == line[0] && all[1..] == line[1..] + ("\n" + rest);
      assert |line| > 1 ==> all[1] == line[1];
      assert before + [line[0]] + line[1..] == before + line;
      SplitAfterLine(before + [line[0]], line[1..], rest);
    }
  }

  lemma {:induction false} SplitLastLine(before: string, line: string)
    requires OneLine(line)
    ensures SplitFrom(before, line) == [before + line]
    decreases |line|
  {
    if line == "" {
      assert before + line == before;
    } else {
      assert before + [line[0]] + line[1..] == before + line;
      SplitLastLine(before + [line[0]], line[1..]);
    }
  }

  lemma {:induction false} SplitJoined(lines: seq<string>)
    requires lines != [] && forall k :: 0 <= k < |lines| ==> OneLine(lines[k])
    ensures SplitLines(JoinLines(lines)) == lines
    decreases |lines|
  {
    hide OneLine, SplitFrom;
    assert "" + lines[0] == lines[0];
    if |lines| == 1 {
      SplitLastLine("", lines[0]);
    } else {
      SplitAfterLine("", lines[0], JoinLines(lines[1..]));
      SplitJoined(lines[1..]);
      assert [lines[0]] + lines[1..] == lines;
    }
  }

  lemma {:induction false} JoinedEnds(lines: seq<string>)
    requires lines != [] && lines[0] != "" && lines[|lines| - 1] != ""
    ensures var text, last := JoinLines(lines), lines[|lines| - 1];
            text != "" && text[0] == lines[0][0] && text[|text| - 1] == last[|last| - 1]
    decreases |lines|
  {
    if |lines| > 1 {
      JoinedLast(lines);
    }
  }

  lemma {:induction false} JoinedLast(lines: seq<string>)
    requires lines != [] && lines[|lines| - 1] != ""
    ensures var text, last := JoinLines(lines), lines[|lines| - 1];
            text != "" && text[|text| - 1] == last[|last| - 1]
    decreases |lines|
  {
    if |lines| > 1 {
      JoinedLast(lines[1..]);
    }
  }

  lemma TrimmedText(text: string)
    requires text != "" && !IsSpace(text[0]) && !IsSpace(text[|text| - 1])
    ensures Trim(text) == text
  {
  }

  lemma RenderedPatchEnds(hs: seq<Hunk>)
    ensures var lines := RenderPatch(hs); lines != [] && lines[0] == BEGIN_PATCH && lines[|lines| - 1] == END_PATCH
    ensures !IsSpace(BEGIN_PATCH[0]) && END_PATCH != "" && !IsSpace(END_PATCH[|END_PATCH| - 1])
  {
  }

  // So does reading the text of the patch, when no printed line holds a line end.
  lemma PatchTextRoundTrips(hs: seq<Hunk>)
    requires forall k :: 0 <= k < |hs| ==> GoodHunk(hs[k])
    requires forall k :: 0 <= k < |RenderPatch(hs)| ==> OneLine(RenderPatch(hs)[k])
    ensures ParsePatchText(JoinLines(RenderPatch(hs))) == Ok(hs)
  {
    hide RenderPatch, ParseLines, OneLine, SplitLines, JoinLines, Trim;
    var lines := RenderPatch(hs);
    RenderedPatchEnds(hs);
    JoinedEnds(lines);
    TrimmedText(JoinLines(lines));
    SplitJoined(lines);
    PatchRoundTrips(hs);
  }
}
