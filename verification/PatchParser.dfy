/** Parsing the `*** Begin Patch` format into hunks. */
module PatchParser {
  import opened Wrappers
  import opened Text
  import PatchUpdate

  type Chunk = PatchUpdate.Chunk

  const BEGIN_PATCH := "*** Begin Patch"
  const END_PATCH := "*** End Patch"
  const ADD_FILE_MARKER := "*** Add File: "
  const DELETE_FILE_MARKER := "*** Delete File: "
  const UPDATE_FILE_MARKER := "*** Update File: "
  const MOVE_TO_MARKER := "*** Move to: "
  const EOF_MARKER := "*** End of File"
  const CONTEXT_MARKER := "@@ "
  const EMPTY_CONTEXT_MARKER := "@@"

  datatype Hunk =
    | AddFile(path: string, contents: string)
    | DeleteFile(path: string)
    | UpdateFile(path: string, movePath: Option<string>, chunks: seq<Chunk>)

  datatype Error =
    | EmptyInput
    | BadFirstLine
    | BadLastLine
    | BadHeader(line: nat, text: string)
    | EmptyUpdate(line: nat, path: string)
    | MissingContext(line: nat, text: string)
    | NoLines(line: nat)
    | UnexpectedLine(line: nat, text: string)

  datatype Result<+T> = Ok(value: T) | Err(error: Error)

  // A parsed piece and the number of lines it took.
  datatype Parsed<+T> = Parsed(value: T, consumed: nat)

  // ---- one chunk of an update ----

  function AddOld(c: Chunk, line: string): Chunk {
    c.(oldLines := c.oldLines + [line])
  }

  function AddNew(c: Chunk, line: string): Chunk {
    c.(newLines := c.newLines + [line])
  }

  // The effect of a body line on the chunk, or None when the line ends the body.
  function TakeLine(c: Chunk, line: string): Option<Chunk> {
    if line == "" then Some(AddNew(AddOld(c, ""), ""))
    else if line[0] == ' ' then Some(AddNew(AddOld(c, line[1..]), line[1..]))
    else if line[0] == '+' then Some(AddNew(c, line[1..]))
    else if line[0] == '-' then Some(AddOld(c, line[1..]))
    else None
  }

  // The body from its first unread line; `parsed` lines of it have been read.
  function ParseBody(lines: seq<string>, c: Chunk, parsed: nat, lineNumber: nat): (r: Result<Parsed<Chunk>>)
    ensures r.Ok? ==> parsed <= r.value.consumed <= parsed + |lines|
    ensures r.Ok? && lines != [] ==> r.value.consumed >= 1
    decreases |lines|
  {
    if lines == [] then Ok(Parsed(c, parsed))
    else if lines[0] == EOF_MARKER then
      if parsed == 0 then Err(NoLines(lineNumber + 1)) else Ok(Parsed(c.(isEndOfFile := true), parsed + 1))
    else
      match TakeLine(c, lines[0])
      case Some(next) => ParseBody(lines[1..], next, parsed + 1, lineNumber)
      case None => if parsed == 0 then Err(UnexpectedLine(lineNumber + 1, lines[0])) else Ok(Parsed(c, parsed))
  }

  function EmptyChunk(context: Option<string>): Chunk {
    PatchUpdate.Chunk(context, [], [], false)
  }

  // The context given by a header line, if the line is a header.
  function HeaderContext(line: string): Option<Option<string>> {
    if line == EMPTY_CONTEXT_MARKER then Some(None)
    else if StartsWith(line, CONTEXT_MARKER) then Some(Some(line[|CONTEXT_MARKER|..]))
    else None
  }

  function ParseChunk(lines: seq<string>, lineNumber: nat, allowMissingContext: bool): (r: Result<Parsed<Chunk>>)
    requires lines != []
    ensures r.Ok? ==> 1 <= r.value.consumed <= |lines|
  {
    var header := HeaderContext(lines[0]);
    if header.None? && !allowMissingContext then Err(MissingContext(lineNumber, lines[0]))
    else
      var start := if header.Some? then 1 else 0;
      var context := if header.Some? then header.value else None;
      if start >= |lines| then Err(NoLines(lineNumber + 1))
      else
        match ParseBody(lines[start..], EmptyChunk(context), 0, lineNumber)
        case Ok(p) => Ok(Parsed(p.value, p.consumed + start))
        case Err(e) => Err(e)
  }

  // ---- the chunks of an update ----

  function ParseChunks(lines: seq<string>, lineNumber: nat, chunks: seq<Chunk>, consumed: nat): (r: Result<Parsed<seq<Chunk>>>)
    ensures r.Ok? ==> consumed <= r.value.consumed <= consumed + |lines|
    decreases |lines|
  {
    if lines == [] then Ok(Parsed(chunks, consumed))
    else if Trim(lines[0]) == "" then ParseChunks(lines[1..], lineNumber, chunks, consumed + 1)
    else if StartsWith(lines[0], "***") then Ok(Parsed(chunks, consumed))
    else
      match ParseChunk(lines, lineNumber + consumed, chunks == [])
      case Err(e) => Err(e)
      case Ok(p) => ParseChunks(lines[p.consumed..], lineNumber, chunks + [p.value], consumed + p.consumed)
  }

  // ---- one hunk ----

  function AddedText(lines: seq<string>): (r: Parsed<string>)
    ensures r.consumed <= |lines|
  {
    if lines == [] || !StartsWith(lines[0], "+") then Parsed("", 0)
    else
      var rest := AddedText(lines[1..]);
      Parsed(lines[0][1..] + "\n" + rest.value, rest.consumed + 1)
  }

  function MovePath(lines: seq<string>): Option<string> {
    if lines != [] && StartsWith(Trim(lines[0]), MOVE_TO_MARKER) then Some(Trim(lines[0])[|MOVE_TO_MARKER|..]) else None
  }

  function ParseUpdate(path: string, rest: seq<string>, lineNumber: nat): (r: Result<Parsed<Hunk>>)
    ensures r.Ok? ==> 1 <= r.value.consumed <= |rest| + 1
  {
    var move := MovePath(rest);
    var taken := if move.Some? then 1 else 0;
    match ParseChunks(rest[taken..], lineNumber, [], 1 + taken)
    case Err(e) => Err(e)
    case Ok(p) =>
      if p.value == [] then Err(EmptyUpdate(lineNumber, path))
      else Ok(Parsed(UpdateFile(path, move, p.value), p.consumed))
  }

  function ParseOneHunk(lines: seq<string>, lineNumber: nat): (r: Result<Parsed<Hunk>>)
    requires lines != []
    ensures r.Ok? ==> 1 <= r.value.consumed <= |lines|
  {
    var first := Trim(lines[0]);
    if StartsWith(first, ADD_FILE_MARKER) then
      var added := AddedText(lines[1..]);
      Ok(Parsed(AddFile(first[|ADD_FILE_MARKER|..], added.value), 1 + added.consumed))
    else if StartsWith(first, DELETE_FILE_MARKER) then Ok(Parsed(DeleteFile(first[|DELETE_FILE_MARKER|..]), 1))
    else if StartsWith(first, UPDATE_FILE_MARKER) then ParseUpdate(first[|UPDATE_FILE_MARKER|..], lines[1..], lineNumber)
    else Err(BadHeader(lineNumber, lines[0]))
  }

  // ---- the whole patch ----

  function ParseHunks(lines: seq<string>, lineNumber: nat): Result<seq<Hunk>>
    decreases |lines|
  {
    if lines == [] then Ok([])
    else
      match ParseOneHunk(lines, lineNumber)
      case Err(e) => Err(e)
      case Ok(p) =>
        match ParseHunks(lines[p.consumed..], lineNumber + p.consumed)
        case Err(e) => Err(e)
        case Ok(hunks) => Ok([p.value] + hunks)
  }

  function StrictError(lines: seq<string>): Option<Error> {
    if lines == [] || Trim(lines[0]) != BEGIN_PATCH then Some(BadFirstLine)
    else if Trim(lines[|lines| - 1]) != END_PATCH then Some(BadLastLine)
    else None
  }

  predicate IsHeredoc(lines: seq<string>) {
    && |lines| >= 4
    && (lines[0] == "<<EOF" || lines[0] == "<<'EOF'" || lines[0] == "<<\"EOF\"")
    && EndsWith(lines[|lines| - 1], "EOF")
  }

  function Boundaries(lines: seq<string>): Result<seq<string>> {
    var e := StrictError(lines);
    if e.None? then Ok(lines)
    else if IsHeredoc(lines) then
      var inner := lines[1..|lines| - 1];
      if StrictError(inner).None? then Ok(inner) else Err(StrictError(inner).value)
    else Err(e.value)
  }

  // The lines between the boundaries; a patch of one line has none.
  function Between(lines: seq<string>): seq<string> {
    if |lines| <= 1 then [] else lines[1..|lines| - 1]
  }

  function ParseLines(lines: seq<string>): Result<seq<Hunk>> {
    match Boundaries(lines)
    case Err(e) => Err(e)
    case Ok(validated) => ParseHunks(Between(validated), 2)
  }

  // Splitting at line feeds, each with the carriage return before it, if there is one.
  function SplitLines(s: string): seq<string> {
    SplitFrom("", s)
  }

  function SplitFrom(line: string, s: string): seq<string>
    decreases |s|
  {
    if s == "" then [line]
    else if s[0] == '\n' then [line] + SplitFrom("", s[1..])
    else if |s| > 1 && s[0] == '\r' && s[1] == '\n' then [line] + SplitFrom("", s[2..])
    else SplitFrom(line + [s[0]], s[1..])
  }

  function ParsePatchText(input: string): Result<seq<Hunk>> {
    if Trim(input) == "" then Err(EmptyInput) else ParseLines(SplitLines(Trim(input)))
  }

  // ---- the loops of the source ----

  method ParseUpdateFileChunk(lines: seq<string>, lineNumber: nat, allowMissingContext: bool) returns (r: Result<Parsed<Chunk>>)
    requires lines != []
    ensures r == ParseChunk(lines, lineNumber, allowMissingContext)
  {
    var context, start := None, 0;
    if lines[0] == EMPTY_CONTEXT_MARKER {
      start := 1;
    } else if StartsWith(lines[0], CONTEXT_MARKER) {
      context, start := Some(lines[0][|CONTEXT_MARKER|..]), 1;
    } else if !allowMissingContext {
      return Err(MissingContext(lineNumber, lines[0]));
    }
    if start >= |lines| {
      return Err(NoLines(lineNumber + 1));
    }
    var body := ReadBody(lines[start..], EmptyChunk(context), lineNumber);
    r := if body.Ok? then Ok(Parsed(body.value.value, body.value.consumed + start)) else Err(body.error);
  }

  method ReadBody(lines: seq<string>, empty: Chunk, lineNumber: nat) returns (r: Result<Parsed<Chunk>>)
    ensures r == ParseBody(lines, empty, 0, lineNumber)
  {
    var chunk, parsedLines: nat := empty, 0;
    for k := 0 to |lines|
      invariant parsedLines == k
      invariant ParseBody(lines[k..], chunk, parsedLines, lineNumber) == ParseBody(lines, empty, 0, lineNumber)
    {
      var line := lines[k];
      assert lines[k..][1..] == lines[k + 1..];
      if line == EOF_MARKER {
        if parsedLines == 0 {
          return Err(NoLines(lineNumber + 1));
        }
        return Ok(Parsed(chunk.(isEndOfFile := true), parsedLines + 1));
      }
      if line == "" {
        chunk := AddNew(AddOld(chunk, ""), "");
      } else if line[0] == ' ' {
        chunk := AddNew(AddOld(chunk, line[1..]), line[1..]);
      } else if line[0] == '+' {
        chunk := AddNew(chunk, line[1..]);
      } else if line[0] == '-' {
        chunk := AddOld(chunk, line[1..]);
      } else {
        if parsedLines == 0 {
          return Err(UnexpectedLine(lineNumber + 1, line));
        }
        return Ok(Parsed(chunk, parsedLines));
      }
      parsedLines := parsedLines + 1;
    }
    r := Ok(Parsed(chunk, parsedLines));
  }

  method ReadChunks(lines: seq<string>, lineNumber: nat, start: nat) returns (r: Result<Parsed<seq<Chunk>>>)
    ensures r == ParseChunks(lines, lineNumber, [], start)
  {
    hide ParseChunk, Trim;
    var remaining, consumed: nat, chunks := lines, start, [];
    while remaining != []
      invariant ParseChunks(remaining, lineNumber, chunks, consumed) == ParseChunks(lines, lineNumber, [], start)
      decreases |remaining|
    {
      if Trim(remaining[0]) == "" {
        remaining, consumed := remaining[1..], consumed + 1;
      } else if StartsWith(remaining[0], "***") {
        break;
      } else {
        var p := ParseUpdateFileChunk(remaining, lineNumber + consumed, chunks == []);
        if p.Err? {
          return Err(p.error);
        }
        chunks := chunks + [p.value.value];
        remaining, consumed := remaining[p.value.consumed..], consumed + p.value.consumed;
      }
    }
    r := Ok(Parsed(chunks, consumed));
  }

  method ReadAdded(lines: seq<string>) returns (contents: string, count: nat)
    ensures Parsed(contents, count) == AddedText(lines)
  {
    contents, count := "", 0;
    assert lines[0..] == lines && "" + AddedText(lines).value == AddedText(lines).value;
    while count < |lines| && StartsWith(lines[count], "+")
      invariant count <= |lines|
      invariant AddedText(lines) == var rest := AddedText(lines[count..]); Parsed(contents + rest.value, count + rest.consumed)
    {
      assert lines[count..][1..] == lines[count + 1..];
      var line := lines[count][1..] + "\n";
      assert contents + (line + AddedText(lines[count + 1..]).value) == contents + line + AddedText(lines[count + 1..]).value;
      contents, count := contents + line, count + 1;
    }
    assert contents + "" == contents;
  }

  method ReadOneHunk(lines: seq<string>, lineNumber: nat) returns (r: Result<Parsed<Hunk>>)
    requires lines != []
    ensures r == ParseOneHunk(lines, lineNumber)
  {
    var first := Trim(lines[0]);
    if StartsWith(first, ADD_FILE_MARKER) {
      var contents, count := ReadAdded(lines[1..]);
      return Ok(Parsed(AddFile(first[|ADD_FILE_MARKER|..], contents), 1 + count));
    }
    if StartsWith(first, DELETE_FILE_MARKER) {
      return Ok(Parsed(DeleteFile(first[|DELETE_FILE_MARKER|..]), 1));
    }
    if StartsWith(first, UPDATE_FILE_MARKER) {
      r := ReadUpdate(first[|UPDATE_FILE_MARKER|..], lines[1..], lineNumber);
      return;
    }
    return Err(BadHeader(lineNumber, lines[0]));
  }

  method ReadUpdate(path: string, rest: seq<string>, lineNumber: nat) returns (r: Result<Parsed<Hunk>>)
    ensures r == ParseUpdate(path, rest, lineNumber)
  {
    var remaining, consumed, movePath := rest, 1, None;
    if remaining != [] && StartsWith(Trim(remaining[0]), MOVE_TO_MARKER) {
      movePath := Some(Trim(remaining[0])[|MOVE_TO_MARKER|..]);
      remaining, consumed := remaining[1..], consumed + 1;
    }
    assert rest[0..] == rest;
    var chunks := ReadChunks(remaining, lineNumber, consumed);
    if chunks.Err? {
      return Err(chunks.error);
    }
    if chunks.value.value == [] {
      return Err(EmptyUpdate(lineNumber, path));
    }
    return Ok(Parsed(UpdateFile(path, movePath, chunks.value.value), chunks.value.consumed));
  }

  ghost function Continue(done: seq<Hunk>, later: Result<seq<Hunk>>): Result<seq<Hunk>> {
    if later.Err? then later else Ok(done + later.value)
  }

  lemma ContinueOne(done: seq<Hunk>, hunk: Hunk, later: Result<seq<Hunk>>)
    ensures Continue(done, if later.Err? then later else Ok([hunk] + later.value)) == Continue(done + [hunk], later)
  {
    if later.Ok? {
      assert done + ([hunk] + later.value) == done + [hunk] + later.value;
    }
  }

  lemma ContinueNone(later: Result<seq<Hunk>>)
    ensures Continue([], later) == later
  {
    if later.Ok? {
      assert [] + later.value == later.value;
    }
  }

  method ReadHunks(lines: seq<string>) returns (r: Result<seq<Hunk>>)
    ensures r == ParseHunks(lines, 2)
  {
    hide ParseOneHunk;
    var remaining, lineNumber: nat, hunks := lines, 2, [];
    ContinueNone(ParseHunks(lines, 2));
    while remaining != []
      invariant Continue(hunks, ParseHunks(remaining, lineNumber)) == ParseHunks(lines, 2)
      decreases |remaining|
    {
      var p := ReadOneHunk(remaining, lineNumber);
      if p.Err? {
        return Err(p.error);
      }
      ContinueOne(hunks, p.value.value, ParseHunks(remaining[p.value.consumed..], lineNumber + p.value.consumed));
      hunks := hunks + [p.value.value];
      lineNumber, remaining := lineNumber + p.value.consumed, remaining[p.value.consumed..];
    }
    assert hunks + [] == hunks;
    r := Ok(hunks);
  }

  method ParsePatch(input: string) returns (r: Result<seq<Hunk>>)
    ensures r == ParsePatchText(input)
  {
    var trimmed := Trim(input);
    if trimmed == "" {
      return Err(EmptyInput);
    }
    var validated := Boundaries(SplitLines(trimmed));
    if validated.Err? {
      return Err(validated.error);
    }
    r := ReadHunks(Between(validated.value));
  }
}
