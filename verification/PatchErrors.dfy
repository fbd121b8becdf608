/** What is reported for a patch that cannot be read: the kind of the error, and the line it names. */
module PatchErrors {
  import opened Wrappers
  import opened Text
  import opened PatchParser
  import opened PatchGrammar

  // ---- a chunk ----

  predicate IsEdit(line: string) {
    line == "" || line[0] == ' ' || line[0] == '+' || line[0] == '-'
  }

  predicate IsAt(line: string) {
    line == "@@" || StartsWith(line, "@@ ")
  }

  // A body without a first line, or whose first line is no edit; n is the line before the body.
  predicate BodyFails(lines: seq<string>, n: nat, e: Error) {
    if lines == [] || lines[0] == "*** End of File" then e == NoLines(n + 1)
    else !IsEdit(lines[0]) && e == UnexpectedLine(n + 1, lines[0])
  }

  // A chunk at line n. Without its header, the line named is the one after the unexpected one.
  predicate ChunkFails(lines: seq<string>, n: nat, allow: bool, e: Error)
    requires lines != []
  {
    if IsAt(lines[0]) then BodyFails(lines[1..], n, e)
    else if allow then BodyFails(lines, n, e)
    else e == MissingContext(n, lines[0])
  }

  lemma {:induction false} BodyGoesOn(lines: seq<string>, c: Chunk, parsed: nat, n: nat)
    requires parsed > 0
    ensures ParseBody(lines, c, parsed, n).Ok?
    decreases |lines|
  {
    hide TakeLine;
    if lines != [] && lines[0] != EOF_MARKER && TakeLine(c, lines[0]).Some? {
      BodyGoesOn(lines[1..], TakeLine(c, lines[0]).value, parsed + 1, n);
    }
  }

  lemma BodyFailsIff(lines: seq<string>, c: Chunk, n: nat, e: Error)
    requires lines != []
    ensures ParseBody(lines, c, 0, n) == Err(e) <==> BodyFails(lines, n, e)
  {
    if lines[0] != EOF_MARKER && TakeLine(c, lines[0]).Some? {
      BodyGoesOn(lines[1..], TakeLine(c, lines[0]).value, 1, n);
    }
  }

  lemma ChunkFailsIff(lines: seq<string>, n: nat, allow: bool, e: Error)
    requires lines != []
    ensures ParseChunk(lines, n, allow) == Err(e) <==> ChunkFails(lines, n, allow, e)
  {
    hide ParseBody;
    var header := HeaderContext(lines[0]);
    var start, context := if header.Some? then 1 else 0, if header.Some? then header.value else None;
    if start < |lines| {
      BodyFailsIff(lines[start..], EmptyChunk(context), n, e);
    }
    assert lines[0..] == lines;
  }

  // ---- the chunks of an update ----

  // Some items are fine, and the chunk after them is not; n is the number of the first line.
  ghost predicate BreaksAfter(items: seq<Item>, rest: seq<string>, first: bool, open: bool, n: nat, e: Error) {
    && GoodItems(items, first, open) && (LeftOpen(items, open) ==> StopsBody(rest))
    && rest != [] && Trim(rest[0]) != "" && !StartsWith(rest[0], "***")
    && ChunkFails(rest, n + |AllItemLines(items)|, first && ChunksOf(items) == [], e)
  }

  lemma ErrorStep(rest: seq<string>, n: nat, done: seq<Chunk>, consumed: nat, e: Error)
    requires rest != [] && Trim(rest[0]) != "" && !StartsWith(rest[0], "***")
    ensures ParseChunk(rest, n + consumed, done == []) == Err(e) ==> ParseChunks(rest, n, done, consumed) == Err(e)
  {
    hide Trim, ParseChunk;
  }

  lemma BrokenItems(items: seq<Item>, rest: seq<string>, n: nat, e: Error, consumed: nat)
    requires BreaksAfter(items, rest, true, false, n + consumed, e)
    ensures ParseChunks(AllItemLines(items) + rest, n, [], consumed) == Err(e)
  {
    hide ParseChunks, ParseChunk, Trim, StopsBody, GoodItems, LeftOpen, ChunkFails, AllItemLines, ChunksOf;
    ItemsThen(items, false, rest, n, [], consumed);
    var size := consumed + |AllItemLines(items)|;
    assert [] + ChunksOf(items) == ChunksOf(items);
    ChunkFailsIff(rest, n + size, ChunksOf(items) == [], e);
    ErrorStep(rest, n, ChunksOf(items), size, e);
  }

  // Chunks that are not read break off like that.
  lemma {:induction false} ItemsBreak(lines: seq<string>, open: bool, n: nat, done: seq<Chunk>, consumed: nat) returns (items: seq<Item>, rest: seq<string>)
    requires ParseChunks(lines, n, done, consumed).Err? && (open ==> StopsBody(lines) && done != [])
    ensures lines == AllItemLines(items) + rest
    ensures BreaksAfter(items, rest, done == [], open, n + consumed, ParseChunks(lines, n, done, consumed).error)
    decreases |lines|
  {
    hide ParseChunks, ParseChunk, Trim, StopsBody, ChunkLines, ChunkOf, ChunkFails;
    if lines == [] || (Trim(lines[0]) != "" && StartsWith(lines[0], "***")) {
      EndStep(lines, n, done, consumed);
      assert false;
    } else if Trim(lines[0]) == "" {
      GapStep(lines, n, done, consumed);
      var others;
      others, rest := ItemsBreak(lines[1..], false, n, done, consumed + 1);
      items := [Gap(lines[0])] + others;
      GapFirst(lines, others, rest);
      FirstOnlyStops(lines);
    } else if ParseChunk(lines, n + consumed, done == []).Ok? {
      var d, tail := PieceIsRead(lines, n, done, consumed);
      var others;
      others, rest := ItemsBreak(tail, !d.eof, n, done + [ChunkOf(d)], consumed + |ChunkLines(d)|);
      items := [Piece(d)] + others;
      PieceFirst(d, others, rest);
    } else {
      items, rest := [], lines;
      var e := ParseChunk(lines, n + consumed, done == []).error;
      ErrorStep(lines, n, done, consumed, e);
      ChunkFailsIff(lines, n + consumed, done == [], e);
      assert [] + rest == rest;
    }
  }

  // The line after the header is the move, if it is one.
  ghost predicate MoveTaken(lines: seq<string>, move: Option<string>, body: seq<string>) {
    && lines == MoveLines(move) + body
    && if move.Some? then IsMoveLine(move.value) else body == [] || !IsMoveLine(body[0])
  }

  lemma MoveIsTaken(lines: seq<string>) returns (move: Option<string>, body: seq<string>)
    ensures MoveTaken(lines, move, body)
  {
    hide Trim;
    move, body := None, lines;
    assert [] + lines == lines;
    if lines != [] && IsMoveLine(lines[0]) {
      move, body := Some(lines[0]), lines[1..];
      assert lines == [lines[0]] + lines[1..];
    }
  }

  lemma TakenMoveIs(lines: seq<string>, move: Option<string>, body: seq<string>)
    requires MoveTaken(lines, move, body)
    ensures MovePath(lines).Some? == move.Some? && lines[|MoveLines(move)|..] == body
  {
    hide Trim;
    TailOf(MoveLines(move), body);
    assert move.None? ==> lines == body;
  }

  // An update whose header is at line n: it has no chunk, or one of its chunks is broken.
  ghost predicate UpdateBreaks(items: seq<Item>, rest: seq<string>, path: string, n: nat, first: nat, e: Error) {
    || (GoodItems(items, true, false) && ChunksOf(items) == [] && EndsUpdate(rest, LeftOpen(items, false)) && e == EmptyUpdate(n, path))
    || BreaksAfter(items, rest, true, false, first, e)
  }

  ghost predicate BodyBreaks(body: seq<string>, path: string, n: nat, first: nat, e: Error) {
    exists items, rest :: body == AllItemLines(items) + rest && UpdateBreaks(items, rest, path, n, first, e)
  }

  ghost predicate UpdateFails(lines: seq<string>, path: string, n: nat, e: Error) {
    exists move, body :: MoveTaken(lines, move, body) && BodyBreaks(body, path, n, n + 1 + |MoveLines(move)|, e)
  }

  lemma BodyBreaksIff(body: seq<string>, path: string, n: nat, consumed: nat, e: Error)
    ensures var r := ParseChunks(body, n, [], consumed);
            BodyBreaks(body, path, n, n + consumed, e) <==> r == Err(e) || (r.Ok? && r.value.value == [] && e == EmptyUpdate(n, path))
  {
    hide ParseChunks, Trim, GoodItems, LeftOpen, AllItemLines, ChunksOf, EndsUpdate, BreaksAfter;
    var r := ParseChunks(body, n, [], consumed);
    if BodyBreaks(body, path, n, n + consumed, e) {
      var items, rest :| body == AllItemLines(items) + rest && UpdateBreaks(items, rest, path, n, n + consumed, e);
      if BreaksAfter(items, rest, true, false, n + consumed, e) {
        BrokenItems(items, rest, n, e, consumed);
      } else {
        ItemsRead(items, false, rest, n, [], consumed);
      }
    }
    if r == Err(e) {
      var items, rest := ItemsBreak(body, false, n, [], consumed);
    }
    if r.Ok? && r.value.value == [] && e == EmptyUpdate(n, path) {
      var items, rest := ItemsAreRead(body, false, n, [], consumed);
      assert [] + ChunksOf(items) == ChunksOf(items);
    }
  }

  lemma UpdateFailsIff(lines: seq<string>, path: string, n: nat, e: Error)
    ensures ParseUpdate(path, lines, n) == Err(e) <==> UpdateFails(lines, path, n, e)
  {
    hide ParseChunks, Trim, BodyBreaks, MoveTaken, MovePath;
    var move, body := MoveIsTaken(lines);
    TakenMoveIs(lines, move, body);
    BodyBreaksIff(body, path, n, 1 + |MoveLines(move)|, e);
    if UpdateFails(lines, path, n, e) {
      var to, others :| MoveTaken(lines, to, others) && BodyBreaks(others, path, n, n + 1 + |MoveLines(to)|, e);
      TakenMoveIs(lines, to, others);
      BodyBreaksIff(others, path, n, 1 + |MoveLines(to)|, e);
    }
  }

  // ---- a hunk ----

  // A line that is no header, or a broken update; n is the number of the first line.
  ghost predicate HunkFails(lines: seq<string>, n: nat, e: Error)
    requires lines != []
  {
    var head := Trim(lines[0]);
    && !StartsWith(head, "*** Add File: ") && !StartsWith(head, "*** Delete File: ")
    && if StartsWith(head, "*** Update File: ") then UpdateFails(lines[1..], head[17..], n, e) else e == BadHeader(n, lines[0])
  }

  lemma HunkFailsIff(lines: seq<string>, n: nat, e: Error)
    requires lines != []
    ensures ParseOneHunk(lines, n) == Err(e) <==> HunkFails(lines, n, e)
  {
    hide Trim, ParseUpdate, UpdateFails;
    assert |UPDATE_FILE_MARKER| == 17;
    if StartsWith(Trim(lines[0]), UPDATE_FILE_MARKER) {
      UpdateFailsIff(lines[1..], Trim(lines[0])[17..], n, e);
    }
  }

  // ---- the hunks of a patch ----

  // Drafts that are fine in front of these lines.
  predicate GoodBefore(ds: seq<Draft>, rest: seq<string>) {
    ds != [] ==> GoodDraft(ds[0]) && MayFollow(ds[0], AllDraftLines(ds[1..]) + rest) && GoodBefore(ds[1..], rest)
  }

  // Some hunks are fine, and the one after them is not.
  ghost predicate HunksBreak(lines: seq<string>, n: nat, e: Error, ds: seq<Draft>, hs: seq<Hunk>, rest: seq<string>) {
    && lines == AllDraftLines(ds) + rest && GoodBefore(ds, rest) && AreFor(ds, hs)
    && rest != [] && HunkFails(rest, n + |AllDraftLines(ds)|, e)
  }

  lemma HunkErrorStep(lines: seq<string>, n: nat, e: Error)
    requires lines != [] && ParseOneHunk(lines, n) == Err(e)
    ensures ParseHunks(lines, n) == Err(e)
  {
    hide ParseOneHunk;
  }

  lemma DraftsParts(ds: seq<Draft>, rest: seq<string>)
    requires ds != []
    ensures AllDraftLines(ds) + rest == DraftLines(ds[0]) + (AllDraftLines(ds[1..]) + rest)
    ensures |AllDraftLines(ds)| == |DraftLines(ds[0])| + |AllDraftLines(ds[1..])|
  {
    hide DraftLines;
    Regroup(DraftLines(ds[0]), AllDraftLines(ds[1..]), rest);
  }

  lemma {:induction false} BrokenHunks(lines: seq<string>, n: nat, e: Error, ds: seq<Draft>, hs: seq<Hunk>, rest: seq<string>)
    requires HunksBreak(lines, n, e, ds, hs, rest)
    ensures ParseHunks(lines, n) == Err(e)
    decreases |ds|
  {
    hide ParseOneHunk, ParseHunks, GoodDraft, MayFollow, DraftLines, IsFor, HunkFails;
    if ds == [] {
      assert lines == rest;
      HunkFailsIff(rest, n, e);
      HunkErrorStep(rest, n, e);
    } else {
      var d, h, tail := ds[0], hs[0], AllDraftLines(ds[1..]) + rest;
      assert ds == [d] + ds[1..] && hs == [h] + hs[1..];
      FirstFor(ds[1..], hs[1..], d, h);
      DraftsParts(ds, rest);
      BrokenHunks(tail, n + |DraftLines(d)|, e, ds[1..], hs[1..], rest);
      DraftReads(d, h, tail, n);
      DraftHasLines(d);
      TailOf(DraftLines(d), tail);
      HunkStep(lines, h, |DraftLines(d)|, n);
    }
  }

  lemma FirstBefore(d: Draft, ds: seq<Draft>, rest: seq<string>)
    ensures GoodBefore([d] + ds, rest) <==> GoodDraft(d) && MayFollow(d, AllDraftLines(ds) + rest) && GoodBefore(ds, rest)
  {
    hide GoodDraft, MayFollow, AllDraftLines;
    assert ([d] + ds)[1..] == ds;
  }

  lemma LaterHunksFail(lines: seq<string>, d: Draft, h: Hunk, tail: seq<string>, n: nat)
    requires lines == DraftLines(d) + tail && ParseOneHunk(lines, n) == Ok(Parsed(h, |DraftLines(d)|)) && ParseHunks(lines, n).Err?
    ensures ParseHunks(tail, n + |DraftLines(d)|) == ParseHunks(lines, n) && |tail| < |lines|
  {
    hide *;
    DraftHasLines(d);
    TailOf(DraftLines(d), tail);
    HunkStep(lines, h, |DraftLines(d)|, n);
  }

  lemma NoHunkFails(n: nat)
    ensures ParseHunks([], n).Ok?
  {
  }

  lemma FirstBreaks(lines: seq<string>, n: nat, e: Error)
    requires lines != [] && HunkFails(lines, n, e)
    ensures HunksBreak(lines, n, e, [], [], lines)
  {
    hide HunkFails;
    assert [] + lines == lines;
  }

  lemma LaterBreaks(lines: seq<string>, n: nat, e: Error, d: Draft, h: Hunk, tail: seq<string>, ds: seq<Draft>, hs: seq<Hunk>, rest: seq<string>)
    requires lines == DraftLines(d) + tail && GoodDraft(d) && IsFor(d, h) && MayFollow(d, tail)
    requires HunksBreak(tail, n + |DraftLines(d)|, e, ds, hs, rest)
    ensures HunksBreak(lines, n, e, [d] + ds, [h] + hs, rest)
  {
    hide GoodDraft, MayFollow, DraftLines, IsFor, HunkFails, AreFor, GoodBefore, AllDraftLines;
    FirstFor(ds, hs, d, h);
    FirstBefore(d, ds, rest);
    assert ([d] + ds)[1..] == ds;
    DraftsParts([d] + ds, rest);
  }

  // A patch that is not read breaks off like that.
  lemma {:induction false} SomeHunkBreaks(lines: seq<string>, n: nat) returns (ds: seq<Draft>, hs: seq<Hunk>, rest: seq<string>)
    requires ParseHunks(lines, n).Err?
    ensures HunksBreak(lines, n, ParseHunks(lines, n).error, ds, hs, rest)
    decreases |lines|
  {
    hide *;
    NoHunkFails(n);
    if ParseOneHunk(lines, n).Err? {
      var e := ParseOneHunk(lines, n).error;
      HunkErrorStep(lines, n, e);
      HunkFailsIff(lines, n, e);
      FirstBreaks(lines, n, e);
      ds, hs, rest := [], [], lines;
    } else {
      var d, h, tail := DraftIsRead(lines, n);
      LaterHunksFail(lines, d, h, tail, n);
      ds, hs, rest := SomeHunkBreaks(tail, n + |DraftLines(d)|);
      LaterBreaks(lines, n, ParseHunks(lines, n).error, d, h, tail, ds, hs, rest);
      ds, hs := [d] + ds, [h] + hs;
    }
  }

  // ---- the whole patch ----

  ghost predicate HunksFail(lines: seq<string>, n: nat, e: Error) {
    exists ds, hs, rest :: HunksBreak(lines, n, e, ds, hs, rest)
  }

  lemma HunksFailIff(lines: seq<string>, n: nat, e: Error)
    ensures ParseHunks(lines, n) == Err(e) <==> HunksFail(lines, n, e)
  {
    hide ParseHunks, HunksBreak;
    if HunksFail(lines, n, e) {
      var ds, hs, rest :| HunksBreak(lines, n, e, ds, hs, rest);
      BrokenHunks(lines, n, e, ds, hs, rest);
    }
    if ParseHunks(lines, n) == Err(e) {
      var ds, hs, rest := SomeHunkBreaks(lines, n);
    }
  }

  // The first line is not the beginning of a patch, or the last one not its end, or the hunks
  // between them break off. The beginning is line one.
  ghost predicate BareFails(lines: seq<string>, e: Error) {
    if lines == [] || Trim(lines[0]) != "*** Begin Patch" then e == BadFirstLine
    else if Trim(lines[|lines| - 1]) != "*** End Patch" then e == BadLastLine
    else |lines| >= 2 && HunksFail(lines[1..|lines| - 1], 2, e)
  }

  // In a here-document the lines are counted from its second one.
  ghost predicate PatchFails(lines: seq<string>, e: Error) {
    if |lines| >= 4 && lines[0] in {"<<EOF", "<<'EOF'", "<<\"EOF\""} && EndsWith(lines[|lines| - 1], "EOF") then
      BareFails(lines[1..|lines| - 1], e)
    else BareFails(lines, e)
  }

  lemma BareFailsIff(lines: seq<string>, e: Error)
    ensures BareFails(lines, e) <==> (match StrictError(lines) case Some(bad) => e == bad case None => ParseHunks(Between(lines), 2) == Err(e))
  {
    hide Trim, ParseHunks, HunksFail;
    MarkersDiffer();
    HunksFailIff(Between(lines), 2, e);
  }

  // The parser reports exactly the first thing that is wrong with a patch, and where.
  lemma PatchFailsIff(lines: seq<string>, e: Error)
    ensures ParseLines(lines) == Err(e) <==> PatchFails(lines, e)
  {
    hide Trim, ParseHunks, BareFails, Between;
    MarkersDiffer();
    BareFailsIff(lines, e);
    if |lines| >= 4 {
      BareFailsIff(lines[1..|lines| - 1], e);
    }
  }

  // A text is blank, or it fails as its lines do once white space is taken off both its ends.
  lemma TextFailsIff(input: string, lines: seq<TextLine>, last: string, e: Error)
    requires (forall k :: 0 <= k < |lines| ==> IsTextLine(lines[k])) && '\n' !in last
    requires Trimmed(input, LinesText(lines, last))
    ensures ParsePatchText(input) == Err(e)
       <==> if LinesText(lines, last) == "" then e == EmptyInput else PatchFails(Texts(lines) + [last], e)
  {
    hide ParseLines, SplitLines, PatchFails, Trimmed, LinesText, Trim;
    TrimmedOnce(input, LinesText(lines, last));
    TextIsSplit(lines, last);
    PatchFailsIff(Texts(lines) + [last], e);
  }

  lemma FooIsNoEdit(e: Error)
    requires e == UnexpectedLine(4, "foo")
    ensures UpdateFails(["foo"], "f", 2, e)
  {
    NoSpaceAround("foo");
    hide Trim;
    assert "foo"[0] == 'f' && "***"[0] == '*' && "*** Move to: "[0] == '*' && "@@ "[0] == '@' && "*** End of File"[0] == '*' && "@@"[0] == '@';
    assert ChunkFails(["foo"], 3, true, e);
    assert [] + ["foo"] == ["foo"];
    assert UpdateBreaks([], ["foo"], "f", 2, 3, e);
    assert BodyBreaks(["foo"], "f", 2, 3, e);
    assert MoveTaken(["foo"], None, ["foo"]);
  }

  lemma FooHeader(head: string)
    requires head == "*** Update File: f"
    ensures Trim(head) == head && !StartsWith(head, "*** Add File: ") && !StartsWith(head, "*** Delete File: ")
    ensures StartsWith(head, "*** Update File: ") && head[17..] == "f"
  {
    NoSpaceAround(head);
    hide Trim;
    assert head[4] == 'U' && "*** Add File: "[4] == 'A' && "*** Delete File: "[4] == 'D';
    assert head == "*** Update File: " + "f";
  }

  lemma FooBreaks(between: seq<string>, head: string, e: Error)
    requires between == [head, "foo"] && head == "*** Update File: f" && e == UnexpectedLine(4, "foo")
    ensures HunksFail(between, 2, e)
  {
    FooHeader(head);
    FooIsNoEdit(e);
    hide Trim, UpdateFails, HunksBreak;
    assert between[1..] == ["foo"];
    FirstBreaks(between, 2, e);
  }

  // An update whose first line is neither a header nor an edit: the third line is unexpected, and the
  // fourth is named.
  lemma WrongLineExample(lines: seq<string>)
    requires lines == ["*** Begin Patch", "*** Update File: f", "foo", "*** End Patch"]
    ensures ParseLines(lines) == Err(UnexpectedLine(4, "foo"))
  {
    var e := UnexpectedLine(4, "foo");
    NoSpaceAround(lines[0]);
    NoSpaceAround(lines[3]);
    assert lines[0][0] == '*' && "<<EOF"[0] == '<' && "<<'EOF'"[0] == '<' && "<<\"EOF\""[0] == '<';
    hide Trim, HunksFail;
    FooBreaks(lines[1..3], lines[1], e);
    PatchFailsIff(lines, e);
  }

  lemma NoSpaceAround(s: string)
    requires s != "" && !IsSpace(s[0]) && !IsSpace(s[|s| - 1])
    ensures Trim(s) == s
  {
  }
}
