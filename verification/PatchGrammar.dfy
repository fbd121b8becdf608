/** The lines of a patch as they may be written, and that the parser reads exactly these. */
module PatchGrammar {
  import opened Wrappers
  import opened Text
  import opened PatchParser
  import PatchUpdate

  // ---- the lines of one chunk ----

  // A line of a body: kept, kept and empty without its space, removed or added.
  datatype Edit = Keep(text: string) | Blank | Remove(text: string) | Add(text: string)

  datatype Header = NoHeader | Plain | Context(text: string)

  datatype ChunkDraft = ChunkDraft(header: Header, edits: seq<Edit>, eof: bool)

  function EditLine(e: Edit): string {
    match e
    case Keep(text) => " " + text
    case Blank => ""
    case Remove(text) => "-" + text
    case Add(text) => "+" + text
  }

  function EditLines(es: seq<Edit>): seq<string> {
    if es == [] then [] else [EditLine(es[0])] + EditLines(es[1..])
  }

  // The kept and removed texts, in order.
  function Olds(es: seq<Edit>): seq<string> {
    if es == [] then []
    else
      match es[0]
      case Keep(text) => [text] + Olds(es[1..])
      case Blank => [""] + Olds(es[1..])
      case Remove(text) => [text] + Olds(es[1..])
      case Add(_) => Olds(es[1..])
  }

  // The kept and added texts, in order.
  function News(es: seq<Edit>): seq<string> {
    if es == [] then []
    else
      match es[0]
      case Keep(text) => [text] + News(es[1..])
      case Blank => [""] + News(es[1..])
      case Remove(_) => News(es[1..])
      case Add(text) => [text] + News(es[1..])
  }

  function HeaderLines(h: Header): seq<string> {
    match h
    case NoHeader => []
    case Plain => ["@@"]
    case Context(text) => ["@@ " + text]
  }

  function Ending(eof: bool): seq<string> {
    if eof then ["*** End of File"] else []
  }

  function ChunkLines(d: ChunkDraft): seq<string> {
    HeaderLines(d.header) + (EditLines(d.edits) + Ending(d.eof))
  }

  function ChunkOf(d: ChunkDraft): Chunk {
    PatchUpdate.Chunk(if d.header.Context? then Some(d.header.text) else None, Olds(d.edits), News(d.edits), d.eof)
  }

  // A line that no body goes on with.
  predicate StopsBody(lines: seq<string>) {
    lines == [] || (lines[0] != EOF_MARKER && TakeLine(EmptyChunk(None), lines[0]).None?)
  }

  // The body of a chunk ends here: by its end-of-file line, or before a line that is no edit.
  predicate EndsBody(eof: bool, rest: seq<string>) {
    eof || StopsBody(rest)
  }

  // ---- a body is read edit by edit ----

  function WithEdits(c: Chunk, es: seq<Edit>): Chunk {
    c.(oldLines := c.oldLines + Olds(es), newLines := c.newLines + News(es))
  }

  lemma OneEdit(e: Edit)
    ensures Olds([e]) == if e.Blank? then [""] else if e.Add? then [] else [e.text]
    ensures News([e]) == if e.Blank? then [""] else if e.Remove? then [] else [e.text]
  {
    assert [e][1..] == [];
  }

  lemma SidesOfEdits(e: Edit, es: seq<Edit>)
    ensures Olds([e] + es) == Olds([e]) + Olds(es) && News([e] + es) == News([e]) + News(es)
  {
    assert ([e] + es)[1..] == es;
    OneEdit(e);
  }

  lemma TakesEdit(c: Chunk, e: Edit)
    ensures TakeLine(c, EditLine(e)) == Some(WithEdits(c, [e])) && EditLine(e) != EOF_MARKER
  {
    var line := EditLine(e);
    OneEdit(e);
    assert EOF_MARKER[0] == '*';
    assert line != "" ==> line[1..] == e.text;
    assert c.oldLines + [] == c.oldLines && c.newLines + [] == c.newLines;
  }

  // A line that is taken is the line of an edit.
  lemma TakenIsEdit(c: Chunk, line: string) returns (e: Edit)
    requires TakeLine(c, line).Some?
    ensures EditLine(e) == line && TakeLine(c, line) == Some(WithEdits(c, [e]))
  {
    e := if line == "" then Blank else if line[0] == ' ' then Keep(line[1..]) else if line[0] == '+' then Add(line[1..]) else Remove(line[1..]);
    assert line != "" ==> line == [line[0]] + line[1..];
    TakesEdit(c, e);
  }

  lemma EditsStep(c: Chunk, e: Edit, es: seq<Edit>)
    ensures WithEdits(WithEdits(c, [e]), es) == WithEdits(c, [e] + es)
    ensures EditLines([e] + es) == [EditLine(e)] + EditLines(es)
  {
    assert ([e] + es)[1..] == es;
    SidesOfEdits(e, es);
    Regroup(c.oldLines, Olds([e]), Olds(es));
    Regroup(c.newLines, News([e]), News(es));
  }

  lemma {:induction false} LinesOfEdits(es: seq<Edit>)
    ensures |EditLines(es)| == |es|
  {
    if es != [] {
      LinesOfEdits(es[1..]);
    }
  }

  lemma TakeStep(lines: seq<string>, c: Chunk, e: Edit, parsed: nat, n: nat)
    requires lines != [] && lines[0] == EditLine(e)
    ensures ParseBody(lines, c, parsed, n) == ParseBody(lines[1..], WithEdits(c, [e]), parsed + 1, n)
  {
    hide TakeLine;
    TakesEdit(c, e);
  }

  lemma BodyEnds(c: Chunk, eof: bool, rest: seq<string>, parsed: nat, n: nat)
    requires parsed > 0 && !c.isEndOfFile && EndsBody(eof, rest)
    ensures ParseBody(Ending(eof) + rest, c, parsed, n) == Ok(Parsed(c.(isEndOfFile := eof), parsed + |Ending(eof)|))
  {
    if eof {
      assert ([EOF_MARKER] + rest)[0] == EOF_MARKER;
    } else {
      assert [] + rest == rest;
      assert c.(isEndOfFile := false) == c;
    }
  }

  lemma {:induction false} BodyReads(es: seq<Edit>, eof: bool, rest: seq<string>, c: Chunk, parsed: nat, n: nat)
    requires parsed + |es| > 0 && !c.isEndOfFile && EndsBody(eof, rest)
    ensures ParseBody(EditLines(es) + (Ending(eof) + rest), c, parsed, n)
         == Ok(Parsed(WithEdits(c, es).(isEndOfFile := eof), parsed + |es| + |Ending(eof)|))
    decreases |es|
  {
    hide ParseBody, StopsBody;
    if es == [] {
      assert [] + (Ending(eof) + rest) == Ending(eof) + rest;
      assert c.oldLines + [] == c.oldLines && c.newLines + [] == c.newLines;
      BodyEnds(c, eof, rest, parsed, n);
    } else {
      var e, others := es[0], es[1..];
      assert es == [e] + others;
      EditsStep(c, e, others);
      var all := EditLines(es) + (Ending(eof) + rest);
      assert all[1..] == EditLines(others) + (Ending(eof) + rest);
      TakeStep(all, c, e, parsed, n);
      BodyReads(others, eof, rest, WithEdits(c, [e]), parsed + 1, n);
    }
  }

  // A body that is read is that of some edits.
  lemma {:induction false} BodyIsRead(lines: seq<string>, c: Chunk, parsed: nat, n: nat) returns (es: seq<Edit>, eof: bool, rest: seq<string>)
    requires ParseBody(lines, c, parsed, n).Ok? && !c.isEndOfFile
    ensures lines == EditLines(es) + (Ending(eof) + rest) && EndsBody(eof, rest)
    ensures ParseBody(lines, c, parsed, n).value == Parsed(WithEdits(c, es).(isEndOfFile := eof), parsed + |es| + |Ending(eof)|)
    ensures lines == [] || parsed + |es| > 0
    decreases |lines|
  {
    hide WithEdits, Olds, News, TakeLine;
    NoEdits(c);
    if lines == [] {
      es, eof, rest := [], false, [];
    } else if lines[0] == EOF_MARKER {
      es, eof, rest := [], true, lines[1..];
      assert lines == [EOF_MARKER] + lines[1..];
    } else if TakeLine(c, lines[0]).Some? {
      var e := TakenIsEdit(c, lines[0]);
      var others;
      others, eof, rest := BodyIsRead(lines[1..], WithEdits(c, [e]), parsed + 1, n);
      es := [e] + others;
      EditsStep(c, e, others);
      Regroup([EditLine(e)], EditLines(others), Ending(eof) + rest);
      assert lines == [lines[0]] + lines[1..];
    } else {
      es, eof, rest := [], false, lines;
      StopsAnyBody(c, lines[0]);
    }
  }

  lemma NoEdits(c: Chunk)
    ensures WithEdits(c, []) == c && (forall e :: !c.isEndOfFile ==> !WithEdits(c, [e]).isEndOfFile)
    ensures !c.isEndOfFile ==> c.(isEndOfFile := false) == c
  {
    assert c.oldLines + [] == c.oldLines && c.newLines + [] == c.newLines;
  }

  lemma StopsAnyBody(c: Chunk, line: string)
    ensures TakeLine(c, line).None? <==> TakeLine(EmptyChunk(None), line).None?
  {
  }

  // ---- a chunk ----

  predicate GoodChunk(d: ChunkDraft) {
    d.edits != []
  }

  lemma HeaderIs(d: ChunkDraft)
    requires GoodChunk(d)
    ensures var lines := ChunkLines(d);
            && lines != [] && HeaderContext(lines[0]) == (if d.header.NoHeader? then None else Some(ChunkOf(d).changeContext))
            && lines[|HeaderLines(d.header)|..] == EditLines(d.edits) + Ending(d.eof)
  {
    var lines := ChunkLines(d);
    match d.header
    case NoHeader =>
      assert lines[0] == EditLine(d.edits[0]);
      assert EMPTY_CONTEXT_MARKER[0] == '@' && CONTEXT_MARKER[0] == '@';
    case Plain => assert lines[0] == EMPTY_CONTEXT_MARKER;
    case Context(text) =>
      assert lines[0] == CONTEXT_MARKER + text && lines[0][2] == ' ' && |EMPTY_CONTEXT_MARKER| == 2;
      assert lines[0][|CONTEXT_MARKER|..] == text;
  }

  lemma ChunkSize(d: ChunkDraft)
    ensures |ChunkLines(d)| == |HeaderLines(d.header)| + |d.edits| + |Ending(d.eof)|
  {
    LinesOfEdits(d.edits);
  }

  lemma ChunkParts(d: ChunkDraft, rest: seq<string>)
    ensures ChunkLines(d) + rest == HeaderLines(d.header) + (EditLines(d.edits) + (Ending(d.eof) + rest))
  {
    Regroup(HeaderLines(d.header), EditLines(d.edits) + Ending(d.eof), rest);
    Regroup(EditLines(d.edits), Ending(d.eof), rest);
  }

  lemma HeaderThenBody(lines: seq<string>, start: nat, context: Option<string>, n: nat, allow: bool)
    requires start < |lines| && start <= 1 && (start == 0 ==> allow && context == None)
    requires HeaderContext(lines[0]) == if start == 0 then None else Some(context)
    ensures ParseChunk(lines, n, allow)
         == match ParseBody(lines[start..], EmptyChunk(context), 0, n)
            case Ok(p) => Ok(Parsed(p.value, p.consumed + start))
            case Err(e) => Err(e)
  {
    hide ParseBody, HeaderContext;
  }

  // A chunk that is written is read, whatever follows it.
  lemma ChunkReads(d: ChunkDraft, rest: seq<string>, n: nat, allow: bool)
    requires GoodChunk(d) && (d.header.NoHeader? ==> allow) && EndsBody(d.eof, rest)
    ensures ParseChunk(ChunkLines(d) + rest, n, allow) == Ok(Parsed(ChunkOf(d), |ChunkLines(d)|))
  {
    hide ParseBody, HeaderContext, EndsBody, ParseChunk, EditLines, Olds, News;
    var all, start, context := ChunkLines(d) + rest, |HeaderLines(d.header)|, ChunkOf(d).changeContext;
    HeaderIs(d);
    ChunkSize(d);
    ChunkParts(d, rest);
    assert all[0] == ChunkLines(d)[0];
    assert all[start..] == EditLines(d.edits) + (Ending(d.eof) + rest);
    HeaderThenBody(all, start, context, n, allow);
    BodyReads(d.edits, d.eof, rest, EmptyChunk(context), 0, n);
    assert [] + Olds(d.edits) == Olds(d.edits) && [] + News(d.edits) == News(d.edits);
  }

  lemma HeaderOf(line: string) returns (h: Header)
    requires HeaderContext(line).Some?
    ensures !h.NoHeader? && HeaderLines(h) == [line] && HeaderContext(line) == Some(if h.Context? then Some(h.text) else None)
  {
    h := if line == EMPTY_CONTEXT_MARKER then Plain else Context(line[|CONTEXT_MARKER|..]);
    assert StartsWith(line, CONTEXT_MARKER) ==> line == CONTEXT_MARKER + line[|CONTEXT_MARKER|..];
  }

  // A chunk that is read is one that can be written.
  lemma ChunkIsRead(lines: seq<string>, n: nat, allow: bool) returns (d: ChunkDraft, rest: seq<string>)
    requires lines != [] && ParseChunk(lines, n, allow).Ok?
    ensures lines == ChunkLines(d) + rest && EndsBody(d.eof, rest)
    ensures GoodChunk(d) && (d.header.NoHeader? ==> allow)
    ensures ParseChunk(lines, n, allow).value == Parsed(ChunkOf(d), |ChunkLines(d)|)
  {
    hide ParseBody, HeaderContext, EndsBody, EditLines, Olds, News;
    var header := HeaderContext(lines[0]);
    var h := NoHeader;
    if header.Some? {
      h := HeaderOf(lines[0]);
    }
    var start, context := |HeaderLines(h)|, if h.Context? then Some(h.text) else None;
    HeaderThenBody(lines, start, context, n, allow);
    var es, eof, tail := BodyIsRead(lines[start..], EmptyChunk(context), 0, n);
    d, rest := ChunkDraft(h, es, eof), tail;
    assert lines == HeaderLines(h) + lines[start..];
    ChunkParts(d, rest);
    ChunkSize(d);
    assert [] + Olds(es) == Olds(es) && [] + News(es) == News(es);
  }

  // ---- the chunks of an update, with blank lines between them ----

  datatype Item = Gap(line: string) | Piece(chunk: ChunkDraft)

  function ItemLines(item: Item): seq<string> {
    if item.Gap? then [item.line] else ChunkLines(item.chunk)
  }

  function AllItemLines(items: seq<Item>): seq<string> {
    if items == [] then [] else ItemLines(items[0]) + AllItemLines(items[1..])
  }

  function ChunksOf(items: seq<Item>): seq<Chunk> {
    if items == [] then []
    else if items[0].Gap? then ChunksOf(items[1..])
    else [ChunkOf(items[0].chunk)] + ChunksOf(items[1..])
  }

  // `first` as long as there has been no chunk; `open` while the body before is not ended by an
  // end-of-file line. Only the first chunk may come without a header, and then not with a blank line.
  predicate GoodItems(items: seq<Item>, first: bool, open: bool) {
    items != [] ==>
      match items[0]
      case Gap(line) => Trim(line) == "" && (open ==> StopsBody([line])) && GoodItems(items[1..], first, false)
      case Piece(d) =>
        && GoodChunk(d) && (d.header.NoHeader? ==> first && Trim(ChunkLines(d)[0]) != "")
        && GoodItems(items[1..], false, !d.eof)
  }

  // The body of the last item is still open.
  predicate LeftOpen(items: seq<Item>, open: bool) {
    if items == [] then open else LeftOpen(items[1..], items[0].Piece? && !items[0].chunk.eof)
  }

  // After the chunks of an update: nothing, or the header of another hunk.
  predicate EndsUpdate(rest: seq<string>, open: bool) {
    (rest == [] || (StartsWith(rest[0], "***") && Trim(rest[0]) != "")) && (open ==> StopsBody(rest))
  }

  lemma ChunkStarts(d: ChunkDraft)
    requires GoodChunk(d)
    ensures var line := ChunkLines(d)[0];
            && !StartsWith(line, "***") && (!d.header.NoHeader? ==> Trim(line) != "" && StopsBody([line]))
            && (!d.header.NoHeader? ==> !StartsWith(Trim(line), MOVE_TO_MARKER))
  {
    var line := ChunkLines(d)[0];
    assert "***"[0] == '*' && EOF_MARKER[0] == '*' && MOVE_TO_MARKER[0] == '*';
    if d.header.NoHeader? {
      assert line == EditLine(d.edits[0]);
    } else {
      assert line == HeaderLines(d.header)[0] && line[0] == '@';
      KeepsFirst(line);
    }
  }

  lemma {:induction false} EndKeepsFirst(s: string)
    requires s != "" && !IsSpace(s[0])
    ensures TrimEnd(s) != "" && TrimEnd(s)[0] == s[0]
  {
    if IsSpace(s[|s| - 1]) {
      EndKeepsFirst(s[..|s| - 1]);
    }
  }

  lemma KeepsFirst(s: string)
    requires s != "" && !IsSpace(s[0])
    ensures Trim(s) != "" && Trim(s)[0] == s[0]
  {
    EndKeepsFirst(s);
  }

  lemma GapStep(lines: seq<string>, n: nat, done: seq<Chunk>, consumed: nat)
    requires lines != [] && Trim(lines[0]) == ""
    ensures ParseChunks(lines, n, done, consumed) == ParseChunks(lines[1..], n, done, consumed + 1)
  {
    hide Trim, ParseChunk;
  }

  lemma PieceStep(lines: seq<string>, n: nat, done: seq<Chunk>, consumed: nat, c: Chunk, size: nat)
    requires lines != [] && Trim(lines[0]) != "" && !StartsWith(lines[0], "***")
    requires size <= |lines| && ParseChunk(lines, n + consumed, done == []) == Ok(Parsed(c, size))
    ensures ParseChunks(lines, n, done, consumed) == ParseChunks(lines[size..], n, done + [c], consumed + size)
  {
    hide Trim, ParseChunk;
  }

  lemma EndStep(rest: seq<string>, n: nat, done: seq<Chunk>, consumed: nat)
    requires rest == [] || (StartsWith(rest[0], "***") && Trim(rest[0]) != "")
    ensures ParseChunks(rest, n, done, consumed) == Ok(Parsed(done, consumed))
  {
    hide Trim, ParseChunk;
  }

  lemma TailOf<T>(a: seq<T>, b: seq<T>)
    ensures (a + b)[|a|..] == b
  {
  }

  // What follows a body that is left open does not go on with it.
  lemma ItemsStop(items: seq<Item>, first: bool, open: bool, rest: seq<string>)
    requires GoodItems(items, first, open) && open && !first && (LeftOpen(items, open) ==> StopsBody(rest))
    ensures StopsBody(AllItemLines(items) + rest)
  {
    if items == [] {
      assert [] + rest == rest;
    } else if items[0].Gap? {
      assert (AllItemLines(items) + rest)[0] == items[0].line;
    } else {
      ChunkStarts(items[0].chunk);
      assert (AllItemLines(items) + rest)[0] == ChunkLines(items[0].chunk)[0];
    }
  }

  lemma ItemsParts(items: seq<Item>, rest: seq<string>)
    requires items != []
    ensures AllItemLines(items) + rest == ItemLines(items[0]) + (AllItemLines(items[1..]) + rest)
    ensures |AllItemLines(items)| == |ItemLines(items[0])| + |AllItemLines(items[1..])|
  {
    Regroup(ItemLines(items[0]), AllItemLines(items[1..]), rest);
  }

  // The items at the front are read, and then what follows them.
  lemma {:induction false} ItemsThen(items: seq<Item>, open: bool, rest: seq<string>, n: nat, done: seq<Chunk>, consumed: nat)
    requires GoodItems(items, done == [], open) && (LeftOpen(items, open) ==> StopsBody(rest)) && (open ==> done != [])
    ensures ParseChunks(AllItemLines(items) + rest, n, done, consumed)
         == ParseChunks(rest, n, done + ChunksOf(items), consumed + |AllItemLines(items)|)
    decreases |items|
  {
    hide ParseChunks, ParseChunk, Trim, StopsBody, ChunkLines, ChunkOf;
    if items == [] {
      assert [] + rest == rest && done + [] == done;
    } else {
      var item, others := items[0], items[1..];
      var all, tail := AllItemLines(items) + rest, AllItemLines(others) + rest;
      ItemsParts(items, rest);
      TailOf(ItemLines(item), tail);
      match item
      case Gap(line) =>
        assert all[0] == line && all[1..] == tail;
        GapStep(all, n, done, consumed);
        ItemsThen(others, false, rest, n, done, consumed + 1);
      case Piece(d) =>
        FirstPieceReads(d, others, rest, n, done, consumed);
        ItemsThen(others, !d.eof, rest, n, done + [ChunkOf(d)], consumed + |ChunkLines(d)|);
        Regroup(done, [ChunkOf(d)], ChunksOf(others));
    }
  }

  lemma ItemsRead(items: seq<Item>, open: bool, rest: seq<string>, n: nat, done: seq<Chunk>, consumed: nat)
    requires GoodItems(items, done == [], open) && EndsUpdate(rest, LeftOpen(items, open)) && (open ==> done != [])
    ensures ParseChunks(AllItemLines(items) + rest, n, done, consumed) == Ok(Parsed(done + ChunksOf(items), consumed + |AllItemLines(items)|))
  {
    hide ParseChunks, Trim, StopsBody, GoodItems, LeftOpen;
    ItemsThen(items, open, rest, n, done, consumed);
    EndStep(rest, n, done + ChunksOf(items), consumed + |AllItemLines(items)|);
  }

  lemma FirstPieceReads(d: ChunkDraft, others: seq<Item>, rest: seq<string>, n: nat, done: seq<Chunk>, consumed: nat)
    requires GoodChunk(d) && (d.header.NoHeader? ==> done == [] && Trim(ChunkLines(d)[0]) != "")
    requires GoodItems(others, false, !d.eof) && (LeftOpen(others, !d.eof) ==> StopsBody(rest))
    ensures var tail := AllItemLines(others) + rest;
            ParseChunks(ChunkLines(d) + tail, n, done, consumed) == ParseChunks(tail, n, done + [ChunkOf(d)], consumed + |ChunkLines(d)|)
  {
    hide ParseChunks, ParseChunk, Trim, StopsBody, ChunkOf, ChunkLines;
    var tail := AllItemLines(others) + rest;
    var all := ChunkLines(d) + tail;
    if !d.eof {
      ItemsStop(others, false, true, rest);
    }
    ChunkReads(d, tail, n + consumed, done == []);
    HeaderIs(d);
    ChunkStarts(d);
    assert all[0] == ChunkLines(d)[0];
    TailOf(ChunkLines(d), tail);
    PieceStep(all, n, done, consumed, ChunkOf(d), |ChunkLines(d)|);
  }

  // The chunks that are read are those of some items.
  lemma {:induction false} ItemsAreRead(lines: seq<string>, open: bool, n: nat, done: seq<Chunk>, consumed: nat) returns (items: seq<Item>, rest: seq<string>)
    requires ParseChunks(lines, n, done, consumed).Ok? && (open ==> StopsBody(lines) && done != [])
    ensures lines == AllItemLines(items) + rest && GoodItems(items, done == [], open) && EndsUpdate(rest, LeftOpen(items, open))
    ensures ParseChunks(lines, n, done, consumed).value == Parsed(done + ChunksOf(items), consumed + |AllItemLines(items)|)
    decreases |lines|
  {
    hide ParseChunks, ParseChunk, Trim, StopsBody, ChunkLines, ChunkOf;
    if lines == [] || (Trim(lines[0]) != "" && StartsWith(lines[0], "***")) {
      items, rest := [], lines;
      EndStep(lines, n, done, consumed);
      assert [] + rest == rest && done + [] == done;
    } else if Trim(lines[0]) == "" {
      GapStep(lines, n, done, consumed);
      var others;
      others, rest := ItemsAreRead(lines[1..], false, n, done, consumed + 1);
      items := [Gap(lines[0])] + others;
      GapFirst(lines, others, rest);
      FirstOnlyStops(lines);
    } else {
      ParseChunksFails(lines, n, done, consumed);
      var d, tail := PieceIsRead(lines, n, done, consumed);
      var others;
      others, rest := ItemsAreRead(tail, !d.eof, n, done + [ChunkOf(d)], consumed + |ChunkLines(d)|);
      items := [Piece(d)] + others;
      PieceFirst(d, others, rest);
      Regroup(done, [ChunkOf(d)], ChunksOf(others));
    }
  }

  lemma FirstOnlyStops(lines: seq<string>)
    requires lines != []
    ensures StopsBody(lines) <==> StopsBody([lines[0]])
  {
  }

  lemma GapFirst(lines: seq<string>, others: seq<Item>, rest: seq<string>)
    requires lines != [] && lines[1..] == AllItemLines(others) + rest
    ensures var items := [Gap(lines[0])] + others;
            && lines == AllItemLines(items) + rest && |AllItemLines(items)| == 1 + |AllItemLines(others)|
            && items[1..] == others && ChunksOf(items) == ChunksOf(others)
  {
    var items := [Gap(lines[0])] + others;
    assert items[1..] == others;
    ItemsParts(items, rest);
    assert lines == [lines[0]] + lines[1..];
  }

  lemma PieceFirst(d: ChunkDraft, others: seq<Item>, rest: seq<string>)
    ensures var items := [Piece(d)] + others;
            && ChunkLines(d) + (AllItemLines(others) + rest) == AllItemLines(items) + rest
            && |AllItemLines(items)| == |ChunkLines(d)| + |AllItemLines(others)|
            && items[1..] == others && ChunksOf(items) == [ChunkOf(d)] + ChunksOf(others)
  {
    hide ChunkLines, ChunkOf;
    var items := [Piece(d)] + others;
    assert items[1..] == others;
    ItemsParts(items, rest);
  }

  lemma PieceIsRead(lines: seq<string>, n: nat, done: seq<Chunk>, consumed: nat) returns (d: ChunkDraft, tail: seq<string>)
    requires lines != [] && Trim(lines[0]) != "" && !StartsWith(lines[0], "***") && ParseChunk(lines, n + consumed, done == []).Ok?
    ensures lines == ChunkLines(d) + tail && |tail| < |lines| && EndsBody(d.eof, tail)
    ensures GoodChunk(d) && (d.header.NoHeader? ==> done == [] && Trim(ChunkLines(d)[0]) != "")
    ensures ParseChunks(lines, n, done, consumed) == ParseChunks(tail, n, done + [ChunkOf(d)], consumed + |ChunkLines(d)|)
  {
    hide ParseChunks, ParseChunk, Trim, StopsBody, ChunkOf, ChunkLines;
    d, tail := ChunkIsRead(lines, n + consumed, done == []);
    HeaderIs(d);
    TailOf(ChunkLines(d), tail);
    assert lines[0] == ChunkLines(d)[0];
    PieceStep(lines, n, done, consumed, ChunkOf(d), |ChunkLines(d)|);
  }

  lemma ParseChunksFails(lines: seq<string>, n: nat, done: seq<Chunk>, consumed: nat)
    requires lines != [] && Trim(lines[0]) != "" && !StartsWith(lines[0], "***") && ParseChunks(lines, n, done, consumed).Ok?
    ensures ParseChunk(lines, n + consumed, done == []).Ok?
  {
    hide Trim, ParseChunk;
  }

  // ---- the hunks of a patch ----

  // The header line of a hunk, and of a move, as it stands: white space around it does not matter.
  datatype Draft =
    | AddDraft(head: string, lines: seq<string>)
    | DeleteDraft(head: string)
    | UpdateDraft(head: string, move: Option<string>, items: seq<Item>)

  // What a line is a header for, and the text after its marker.
  predicate IsHeader(line: string, marker: string, text: string) {
    Trim(line) == marker + text
  }

  function AddedLines(lines: seq<string>): seq<string> {
    if lines == [] then [] else ["+" + lines[0]] + AddedLines(lines[1..])
  }

  function Terminated(lines: seq<string>): string {
    if lines == [] then "" else lines[0] + "\n" + Terminated(lines[1..])
  }

  function MoveLines(move: Option<string>): seq<string> {
    if move.Some? then [move.value] else []
  }

  function DraftLines(d: Draft): seq<string> {
    match d
    case AddDraft(head, lines) => [head] + AddedLines(lines)
    case DeleteDraft(head) => [head]
    case UpdateDraft(head, move, items) => [head] + (MoveLines(move) + AllItemLines(items))
  }

  // The hunk that a draft is for.
  ghost predicate IsFor(d: Draft, h: Hunk) {
    match d
    case AddDraft(head, lines) => h.AddFile? && IsHeader(head, "*** Add File: ", h.path) && h.contents == Terminated(lines)
    case DeleteDraft(head) => h.DeleteFile? && IsHeader(head, "*** Delete File: ", h.path)
    case UpdateDraft(head, move, items) =>
      && h.UpdateFile? && IsHeader(head, "*** Update File: ", h.path) && h.chunks == ChunksOf(items)
      && (if move.None? then h.movePath.None? else h.movePath.Some? && IsHeader(move.value, "*** Move to: ", h.movePath.value))
  }

  predicate IsMoveLine(line: string) {
    StartsWith(Trim(line), MOVE_TO_MARKER)
  }

  // An update has a chunk, and its first line is no move unless it is the move.
  predicate GoodDraft(d: Draft) {
    d.UpdateDraft? ==>
      && ChunksOf(d.items) != [] && GoodItems(d.items, true, false)
      && (d.move.None? && AllItemLines(d.items) != [] ==> !IsMoveLine(AllItemLines(d.items)[0]))
  }

  // What may follow a hunk: after an update only a line that starts with three stars.
  predicate MayFollow(d: Draft, rest: seq<string>) {
    match d
    case AddDraft(_, _) => rest == [] || !StartsWith(rest[0], "+")
    case DeleteDraft(_) => true
    case UpdateDraft(_, _, items) => EndsUpdate(rest, LeftOpen(items, false))
  }

  lemma HeadersDiffer(text: string)
    ensures !StartsWith(DELETE_FILE_MARKER + text, ADD_FILE_MARKER)
    ensures !StartsWith(UPDATE_FILE_MARKER + text, ADD_FILE_MARKER)
    ensures !StartsWith(UPDATE_FILE_MARKER + text, DELETE_FILE_MARKER)
  {
    assert (DELETE_FILE_MARKER + text)[4] == 'D' && (UPDATE_FILE_MARKER + text)[4] == 'U';
    assert ADD_FILE_MARKER[4] == 'A' && DELETE_FILE_MARKER[4] == 'D';
  }

  lemma MarkerIff(line: string, marker: string)
    ensures StartsWith(Trim(line), marker) ==> IsHeader(line, marker, Trim(line)[|marker|..])
    ensures forall text :: IsHeader(line, marker, text) ==> StartsWith(Trim(line), marker) && Trim(line)[|marker|..] == text
  {
    hide Trim;
    if StartsWith(Trim(line), marker) {
      assert Trim(line) == marker + Trim(line)[|marker|..];
    }
  }

  lemma {:induction false} AddedReads(lines: seq<string>, rest: seq<string>)
    requires rest == [] || !StartsWith(rest[0], "+")
    ensures AddedText(AddedLines(lines) + rest) == Parsed(Terminated(lines), |lines|)
    ensures |AddedLines(lines)| == |lines|
  {
    if lines == [] {
      assert AddedLines(lines) + rest == rest;
    } else {
      var all := AddedLines(lines) + rest;
      assert all[0] == "+" + lines[0] && all[0][1..] == lines[0];
      Regroup(["+" + lines[0]], AddedLines(lines[1..]), rest);
      assert all[1..] == AddedLines(lines[1..]) + rest;
      AddedReads(lines[1..], rest);
    }
  }

  lemma {:induction false} AddedIsRead(all: seq<string>) returns (lines: seq<string>, rest: seq<string>)
    ensures all == AddedLines(lines) + rest && (rest == [] || !StartsWith(rest[0], "+"))
    ensures AddedText(all) == Parsed(Terminated(lines), |lines|) && |AddedLines(lines)| == |lines|
    decreases |all|
  {
    if all == [] || !StartsWith(all[0], "+") {
      lines, rest := [], all;
    } else {
      var later;
      later, rest := AddedIsRead(all[1..]);
      lines := [all[0][1..]] + later;
      assert lines[1..] == later && all[0] == "+" + all[0][1..];
      assert all == [all[0]] + all[1..];
      Regroup([all[0]], AddedLines(later), rest);
    }
  }

  // ---- one hunk ----

  lemma AddReads(head: string, lines: seq<string>, path: string, rest: seq<string>, n: nat)
    requires IsHeader(head, ADD_FILE_MARKER, path) && (rest == [] || !StartsWith(rest[0], "+"))
    ensures ParseOneHunk([head] + (AddedLines(lines) + rest), n) == Ok(Parsed(AddFile(path, Terminated(lines)), 1 + |AddedLines(lines)|))
  {
    hide Trim;
    AddedReads(lines, rest);
    MarkerIff(head, ADD_FILE_MARKER);
    assert ([head] + (AddedLines(lines) + rest))[1..] == AddedLines(lines) + rest;
  }

  lemma DeleteReads(head: string, path: string, rest: seq<string>, n: nat)
    requires IsHeader(head, DELETE_FILE_MARKER, path)
    ensures ParseOneHunk([head] + rest, n) == Ok(Parsed(DeleteFile(path), 1))
  {
    hide Trim;
    MarkerIff(head, DELETE_FILE_MARKER);
    HeadersDiffer(path);
  }

  lemma UpdateHeadReads(head: string, path: string, rest: seq<string>, n: nat)
    requires IsHeader(head, UPDATE_FILE_MARKER, path)
    ensures ParseOneHunk([head] + rest, n) == ParseUpdate(path, rest, n)
  {
    hide Trim, ParseUpdate;
    MarkerIff(head, UPDATE_FILE_MARKER);
    HeadersDiffer(path);
    assert ([head] + rest)[1..] == rest;
  }

  lemma MoveIs(move: Option<string>, to: Option<string>, body: seq<string>)
    requires if move.None? then to.None? else to.Some? && IsHeader(move.value, MOVE_TO_MARKER, to.value)
    requires move.None? && body != [] ==> !IsMoveLine(body[0])
    ensures MovePath(MoveLines(move) + body) == to && (MoveLines(move) + body)[|MoveLines(move)|..] == body
  {
    hide Trim;
    if move.Some? {
      MarkerIff(move.value, MOVE_TO_MARKER);
      assert (MoveLines(move) + body)[0] == move.value;
    } else {
      assert MoveLines(move) + body == body;
    }
  }

  lemma UpdateReads(d: Draft, h: Hunk, rest: seq<string>, n: nat)
    requires d.UpdateDraft? && GoodDraft(d) && IsFor(d, h) && MayFollow(d, rest)
    ensures ParseUpdate(h.path, MoveLines(d.move) + (AllItemLines(d.items) + rest), n)
         == Ok(Parsed(h, 1 + |MoveLines(d.move)| + |AllItemLines(d.items)|))
  {
    hide Trim, ParseChunks, GoodItems, AllItemLines, ChunksOf, EndsUpdate, IsMoveLine;
    var body := AllItemLines(d.items) + rest;
    ItemsRead(d.items, false, rest, n, [], 1 + |MoveLines(d.move)|);
    assert [] + ChunksOf(d.items) == ChunksOf(d.items);
    SomeLines(d.items);
    assert body[0] == AllItemLines(d.items)[0];
    MoveIs(d.move, h.movePath, body);
  }

  lemma {:induction false} SomeLines(items: seq<Item>)
    requires ChunksOf(items) != [] && GoodItems(items, true, false)
    ensures AllItemLines(items) != []
  {
    if items[0].Piece? {
      HeaderIs(items[0].chunk);
    }
  }

  // A hunk that is written is read.
  lemma DraftReads(d: Draft, h: Hunk, rest: seq<string>, n: nat)
    requires GoodDraft(d) && IsFor(d, h) && MayFollow(d, rest)
    ensures ParseOneHunk(DraftLines(d) + rest, n) == Ok(Parsed(h, |DraftLines(d)|))
  {
    hide ParseOneHunk, ParseUpdate, Trim, AllItemLines, ChunksOf, GoodItems, EndsUpdate, IsHeader;
    match d
    case AddDraft(head, lines) =>
      AddReads(head, lines, h.path, rest, n);
      Regroup([head], AddedLines(lines), rest);
    case DeleteDraft(head) => DeleteReads(head, h.path, rest, n);
    case UpdateDraft(head, move, items) =>
      UpdateReads(d, h, rest, n);
      UpdateHeadReads(head, h.path, MoveLines(move) + (AllItemLines(items) + rest), n);
      Regroup([head], MoveLines(move) + AllItemLines(items), rest);
      Regroup(MoveLines(move), AllItemLines(items), rest);
  }

  lemma UpdateIsRead(head: string, path: string, tail: seq<string>, n: nat) returns (d: Draft, h: Hunk, rest: seq<string>)
    requires IsHeader(head, UPDATE_FILE_MARKER, path) && ParseUpdate(path, tail, n).Ok?
    ensures d.UpdateDraft? && GoodDraft(d) && IsFor(d, h) && MayFollow(d, rest)
    ensures [head] + tail == DraftLines(d) + rest && ParseUpdate(path, tail, n).value == Parsed(h, |DraftLines(d)|)
  {
    hide Trim, ParseChunks, GoodItems, AllItemLines, ChunksOf, EndsUpdate;
    var move := MovePath(tail);
    var taken := if move.Some? then 1 else 0;
    var line := if move.Some? then Some(tail[0]) else None;
    if move.Some? {
      MarkerIff(tail[0], MOVE_TO_MARKER);
    }
    var items, after := ItemsAreRead(tail[taken..], false, n, [], 1 + taken);
    assert [] + ChunksOf(items) == ChunksOf(items);
    d, h, rest := UpdateDraft(head, line, items), UpdateFile(path, move, ChunksOf(items)), after;
    assert tail == MoveLines(line) + tail[taken..];
    Regroup(MoveLines(line), AllItemLines(items), rest);
    Regroup([head], MoveLines(line) + AllItemLines(items), rest);
    FirstOfItems(tail, items, rest, taken);
  }

  lemma FirstOfItems(tail: seq<string>, items: seq<Item>, rest: seq<string>, taken: nat)
    requires taken <= |tail| && tail[taken..] == AllItemLines(items) + rest
    ensures taken == 0 && AllItemLines(items) != [] ==> tail != [] && tail[0] == AllItemLines(items)[0]
  {
    hide AllItemLines;
    if taken == 0 && AllItemLines(items) != [] {
      assert tail[0] == tail[taken..][0];
    }
  }

  // A hunk that is read is one that can be written.
  lemma DraftIsRead(lines: seq<string>, n: nat) returns (d: Draft, h: Hunk, rest: seq<string>)
    requires lines != [] && ParseOneHunk(lines, n).Ok?
    ensures GoodDraft(d) && IsFor(d, h) && MayFollow(d, rest)
    ensures lines == DraftLines(d) + rest && ParseOneHunk(lines, n).value == Parsed(h, |DraftLines(d)|)
  {
    var head, tail := lines[0], lines[1..];
    assert lines == [head] + tail;
    var first := Trim(head);
    MarkerIff(head, ADD_FILE_MARKER);
    MarkerIff(head, DELETE_FILE_MARKER);
    MarkerIff(head, UPDATE_FILE_MARKER);
    hide Trim, ParseUpdate, AllItemLines, GoodItems, EndsUpdate, IsHeader;
    if StartsWith(first, ADD_FILE_MARKER) {
      var added;
      added, rest := AddedIsRead(tail);
      d, h := AddDraft(head, added), AddFile(first[|ADD_FILE_MARKER|..], Terminated(added));
      Regroup([head], AddedLines(added), rest);
    } else if StartsWith(first, DELETE_FILE_MARKER) {
      d, h, rest := DeleteDraft(head), DeleteFile(first[|DELETE_FILE_MARKER|..]), tail;
    } else {
      d, h, rest := UpdateIsRead(head, first[|UPDATE_FILE_MARKER|..], tail, n);
    }
  }

  // ---- all hunks ----

  function AllDraftLines(ds: seq<Draft>): seq<string> {
    if ds == [] then [] else DraftLines(ds[0]) + AllDraftLines(ds[1..])
  }

  predicate GoodDrafts(ds: seq<Draft>) {
    ds != [] ==> GoodDraft(ds[0]) && MayFollow(ds[0], AllDraftLines(ds[1..])) && GoodDrafts(ds[1..])
  }

  ghost predicate AreFor(ds: seq<Draft>, hs: seq<Hunk>) {
    |ds| == |hs| && forall k :: 0 <= k < |ds| ==> IsFor(ds[k], hs[k])
  }

  lemma HunkStep(lines: seq<string>, h: Hunk, size: nat, n: nat)
    requires 1 <= size <= |lines| && ParseOneHunk(lines, n) == Ok(Parsed(h, size))
    ensures ParseHunks(lines, n)
         == match ParseHunks(lines[size..], n + size)
            case Err(e) => Err(e)
            case Ok(hs) => Ok([h] + hs)
  {
    hide ParseOneHunk;
  }

  lemma DraftHasLines(d: Draft)
    ensures |DraftLines(d)| >= 1
  {
    hide AllItemLines;
  }

  lemma FirstFor(ds: seq<Draft>, hs: seq<Hunk>, d: Draft, h: Hunk)
    ensures AreFor([d] + ds, [h] + hs) <==> IsFor(d, h) && AreFor(ds, hs)
  {
    hide IsFor;
    var all, every := [d] + ds, [h] + hs;
    if AreFor(all, every) {
      assert all[0] == d && every[0] == h;
      forall k | 0 <= k < |ds| ensures IsFor(ds[k], hs[k]) {
        assert IsFor(all[k + 1], every[k + 1]);
      }
    }
  }

  lemma {:induction false} HunksRead(ds: seq<Draft>, hs: seq<Hunk>, n: nat)
    requires GoodDrafts(ds) && AreFor(ds, hs)
    ensures ParseHunks(AllDraftLines(ds), n) == Ok(hs)
    decreases |ds|
  {
    hide ParseOneHunk, GoodDraft, MayFollow, DraftLines, IsFor;
    if ds != [] {
      var d, h, tail := ds[0], hs[0], AllDraftLines(ds[1..]);
      assert ds == [d] + ds[1..] && hs == [h] + hs[1..];
      FirstFor(ds[1..], hs[1..], d, h);
      HunksRead(ds[1..], hs[1..], n + |DraftLines(d)|);
      DraftReads(d, h, tail, n);
      DraftHasLines(d);
      TailOf(DraftLines(d), tail);
      HunkStep(AllDraftLines(ds), h, |DraftLines(d)|, n);
    }
  }

  lemma HunksFail(lines: seq<string>, n: nat)
    requires lines != [] && ParseHunks(lines, n).Ok?
    ensures ParseOneHunk(lines, n).Ok?
  {
    hide ParseOneHunk;
  }

  lemma FirstDraft(d: Draft, ds: seq<Draft>)
    ensures AllDraftLines([d] + ds) == DraftLines(d) + AllDraftLines(ds)
    ensures GoodDrafts([d] + ds) <==> GoodDraft(d) && MayFollow(d, AllDraftLines(ds)) && GoodDrafts(ds)
  {
    hide GoodDraft, MayFollow, DraftLines;
    assert ([d] + ds)[1..] == ds;
  }

  lemma HunksGoOn(lines: seq<string>, d: Draft, h: Hunk, rest: seq<string>, n: nat)
    requires lines == DraftLines(d) + rest && ParseOneHunk(lines, n) == Ok(Parsed(h, |DraftLines(d)|)) && ParseHunks(lines, n).Ok?
    ensures ParseHunks(rest, n + |DraftLines(d)|).Ok? && |rest| < |lines|
    ensures ParseHunks(lines, n).value == [h] + ParseHunks(rest, n + |DraftLines(d)|).value
  {
    hide *;
    DraftHasLines(d);
    TailOf(DraftLines(d), rest);
    HunkStep(lines, h, |DraftLines(d)|, n);
  }

  lemma {:induction false} HunksAreRead(lines: seq<string>, n: nat) returns (ds: seq<Draft>)
    requires ParseHunks(lines, n).Ok?
    ensures lines == AllDraftLines(ds) && GoodDrafts(ds) && AreFor(ds, ParseHunks(lines, n).value)
    decreases |lines|
  {
    hide *;
    if lines == [] {
      ds := [];
      NoDrafts(n);
    } else {
      HunksFail(lines, n);
      var d, h, rest := DraftIsRead(lines, n);
      HunksGoOn(lines, d, h, rest, n);
      var others := HunksAreRead(rest, n + |DraftLines(d)|);
      FirstFor(others, ParseHunks(rest, n + |DraftLines(d)|).value, d, h);
      FirstDraft(d, others);
      ds := [d] + others;
    }
  }

  lemma NoDrafts(n: nat)
    ensures AllDraftLines([]) == [] && GoodDrafts([]) && ParseHunks([], n) == Ok([]) && AreFor([], [])
  {
  }

  // ---- the whole patch ----

  // The lines of a patch for these hunks, from its first line to its last.
  ghost predicate IsBarePatch(lines: seq<string>, hs: seq<Hunk>) {
    && |lines| >= 2 && Trim(lines[0]) == "*** Begin Patch" && Trim(lines[|lines| - 1]) == "*** End Patch"
    && exists ds :: lines[1..|lines| - 1] == AllDraftLines(ds) && GoodDrafts(ds) && AreFor(ds, hs)
  }

  // The same inside a here-document.
  ghost predicate IsPatch(lines: seq<string>, hs: seq<Hunk>) {
    || IsBarePatch(lines, hs)
    || (&& |lines| >= 4 && lines[0] in {"<<EOF", "<<'EOF'", "<<\"EOF\""} && EndsWith(lines[|lines| - 1], "EOF")
        && IsBarePatch(lines[1..|lines| - 1], hs))
  }

  lemma MarkersDiffer()
    ensures BEGIN_PATCH != END_PATCH && forall s :: s in {"<<EOF", "<<'EOF'", "<<\"EOF\""} ==> Trim(s) != BEGIN_PATCH
  {
    assert BEGIN_PATCH[4] == 'B' && END_PATCH[4] == 'E';
    forall s | s in {"<<EOF", "<<'EOF'", "<<\"EOF\""} ensures Trim(s) != BEGIN_PATCH {
      assert s[0] == '<';
      KeepsFirst(s);
      assert BEGIN_PATCH[0] == '*';
    }
  }

  lemma BareIff(lines: seq<string>, hs: seq<Hunk>)
    ensures IsBarePatch(lines, hs) <==> StrictError(lines).None? && ParseHunks(Between(lines), 2) == Ok(hs)
  {
    hide Trim, ParseHunks, AllDraftLines, GoodDrafts, AreFor;
    MarkersDiffer();
    if IsBarePatch(lines, hs) {
      var ds :| lines[1..|lines| - 1] == AllDraftLines(ds) && GoodDrafts(ds) && AreFor(ds, hs);
      HunksRead(ds, hs, 2);
    }
    if StrictError(lines).None? && ParseHunks(Between(lines), 2) == Ok(hs) {
      var ds := HunksAreRead(Between(lines), 2);
    }
  }

  // The parser reads exactly the patches that can be written, and gives their hunks.
  lemma PatchIsReadIff(lines: seq<string>, hs: seq<Hunk>)
    ensures ParseLines(lines) == Ok(hs) <==> IsPatch(lines, hs)
  {
    hide Trim, ParseHunks, IsBarePatch;
    MarkersDiffer();
    BareIff(lines, hs);
    if |lines| >= 4 {
      BareIff(lines[1..|lines| - 1], hs);
    }
  }

  // ---- the lines of a text ----

  // One line and what ends it: a line feed, with a carriage return before it or not.
  datatype TextLine = TextLine(text: string, crlf: bool)

  function LinesText(lines: seq<TextLine>, last: string): string {
    if lines == [] then last
    else lines[0].text + ((if lines[0].crlf then "\r\n" else "\n") + LinesText(lines[1..], last))
  }

  function Texts(lines: seq<TextLine>): seq<string> {
    if lines == [] then [] else [lines[0].text] + Texts(lines[1..])
  }

  // No line end inside; a line feed alone does not follow a carriage return.
  predicate IsTextLine(line: TextLine) {
    '\n' !in line.text && (!line.crlf && line.text != "" ==> line.text[|line.text| - 1] != '\r')
  }

  lemma {:induction false} SplitAfter(before: string, line: TextLine, rest: string)
    requires IsTextLine(line)
    ensures SplitFrom(before, line.text + ((if line.crlf then "\r\n" else "\n") + rest)) == [before + line.text] + SplitFrom("", rest)
    decreases |line.text|
  {
    var end := if line.crlf then "\r\n" else "\n";
    var all := line.text + (end + rest);
    if line.text == "" {
      assert all == end + rest && before + "" == before;
      assert all[|end|..] == rest;
    } else {
      var later := line.(text := line.text[1..]);
      assert all[0] == line.text[0] && all[1..] == later.text + (end + rest);
      assert |line.text| > 1 ==> all[1] == line.text[1];
      assert |line.text| == 1 ==> all[1] == end[0];
      assert before + [line.text[0]] + later.text == before + line.text;
      SplitAfter(before + [line.text[0]], later, rest);
    }
  }

  lemma {:induction false} SplitLast(before: string, last: string)
    requires '\n' !in last
    ensures SplitFrom(before, last) == [before + last]
    decreases |last|
  {
    if last == "" {
      assert before + last == before;
    } else {
      assert last == [last[0]] + last[1..];
      assert before + [last[0]] + last[1..] == before + last;
      SplitLast(before + [last[0]], last[1..]);
    }
  }

  // A text is split into its lines, whichever way each of them ends.
  lemma {:induction false} TextIsSplit(lines: seq<TextLine>, last: string)
    requires (forall k :: 0 <= k < |lines| ==> IsTextLine(lines[k])) && '\n' !in last
    ensures SplitLines(LinesText(lines, last)) == Texts(lines) + [last]
    decreases |lines|
  {
    hide IsTextLine, SplitFrom;
    assert "" + last == last;
    if lines == [] {
      SplitLast("", last);
    } else {
      assert "" + lines[0].text == lines[0].text;
      SplitAfter("", lines[0], LinesText(lines[1..], last));
      TextIsSplit(lines[1..], last);
      Regroup([lines[0].text], Texts(lines[1..]), [last]);
    }
  }

  // Every text has such lines.
  lemma {:induction false} TextHasLines(text: string) returns (lines: seq<TextLine>, last: string)
    ensures text == LinesText(lines, last) && '\n' !in last && forall k :: 0 <= k < |lines| ==> IsTextLine(lines[k])
    decreases |text|
  {
    lines, last := [], text;
    if text != "" {
      lines, last := TextHasLines(text[1..]);
      lines, last := AddFirst(text[0], lines, last);
      assert text == [text[0]] + text[1..];
    }
  }

  lemma LongerLine(c: char, first: TextLine, rest: string) returns (longer: TextLine)
    requires c != '\n' && IsTextLine(first)
    ensures IsTextLine(longer)
    ensures longer.text + ((if longer.crlf then "\r\n" else "\n") + rest) == [c] + (first.text + ((if first.crlf then "\r\n" else "\n") + rest))
  {
    if first.text == "" && !first.crlf && c == '\r' {
      longer := TextLine("", true);
      assert "\r\n" + rest == "\r" + ("\n" + rest);
    } else {
      longer := first.(text := [c] + first.text);
    }
  }

  lemma AddFirst(c: char, lines: seq<TextLine>, last: string) returns (more: seq<TextLine>, end: string)
    requires '\n' !in last && forall k :: 0 <= k < |lines| ==> IsTextLine(lines[k])
    ensures LinesText(more, end) == [c] + LinesText(lines, last)
    ensures '\n' !in end && forall k :: 0 <= k < |more| ==> IsTextLine(more[k])
  {
    hide IsTextLine;
    if c == '\n' {
      more, end := [TextLine("", false)] + lines, last;
      EmptyTextLine();
      assert more[1..] == lines;
    } else if lines == [] {
      more, end := [], [c] + last;
    } else {
      var longer := LongerLine(c, lines[0], LinesText(lines[1..], last));
      more, end := [longer] + lines[1..], last;
      assert more[1..] == lines[1..];
    }
  }

  lemma EmptyTextLine()
    ensures IsTextLine(TextLine("", false))
  {
  }

  // A text is read exactly when it is not blank and its lines, white space at both ends taken off,
  // are those of a patch.
  lemma TextIsReadIff(input: string, lines: seq<TextLine>, last: string, hs: seq<Hunk>)
    requires (forall k :: 0 <= k < |lines| ==> IsTextLine(lines[k])) && '\n' !in last
    requires Trimmed(input, LinesText(lines, last))
    ensures ParsePatchText(input) == Ok(hs) <==> LinesText(lines, last) != "" && IsPatch(Texts(lines) + [last], hs)
  {
    hide ParseLines, SplitLines, IsPatch, Trimmed, LinesText, Trim;
    TrimmedOnce(input, LinesText(lines, last));
    TextIsSplit(lines, last);
    PatchIsReadIff(Texts(lines) + [last], hs);
  }
}
