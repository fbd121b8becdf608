/** Applying the chunks of an update hunk to the lines of a file. */
module PatchUpdate {
  import opened Wrappers
  import opened Text

  type Lines = seq<string>

  datatype Chunk = Chunk(changeContext: Option<string>, oldLines: Lines, newLines: Lines, isEndOfFile: bool)

  datatype Replacement = Replacement(start: nat, oldLen: nat, newLines: Lines)

  datatype Error = ContextNotFound(context: string) | LinesNotFound(oldLines: Lines)

  datatype Located = Located(replacements: seq<Replacement>) | Failed(error: Error)

  // ---- finding a pattern, in four tiers from exact to loose ----

  function FoldChar(c: char): char {
    if '\U{2010}' <= c <= '\U{2015}' || c == '\U{2212}' then '-'
    else if '\U{2018}' <= c <= '\U{201B}' then '\''
    else if '\U{201C}' <= c <= '\U{201F}' then '"'
    else if c == '\U{A0}' || '\U{2002}' <= c <= '\U{200A}' || c == '\U{202F}' || c == '\U{205F}' || c == '\U{3000}' then ' '
    else c
  }

  function NormalizePunctuation(s: string): string {
    seq(|s|, i requires 0 <= i < |s| => FoldChar(s[i]))
  }

  datatype Tier = Exact | IgnoreEnd | IgnoreEnds | IgnorePunctuation

  function Normalize(tier: Tier, s: string): string {
    match tier
    case Exact => s
    case IgnoreEnd => TrimEnd(s)
    case IgnoreEnds => Trim(s)
    case IgnorePunctuation => NormalizePunctuation(Trim(s))
  }

  predicate Matches(lines: Lines, pattern: Lines, at: int, tier: Tier) {
    && 0 <= at && at + |pattern| <= |lines|
    && forall k :: 0 <= k < |pattern| ==> SameLine(tier, lines, at + k, pattern[k])
  }

  predicate SameLine(tier: Tier, lines: Lines, at: int, line: string) {
    0 <= at < |lines| && Normalize(tier, lines[at]) == Normalize(tier, line)
  }

  // The first place from `from` on.
  function SeekTier(lines: Lines, pattern: Lines, from: nat, tier: Tier): Option<nat>
    decreases |lines| - from
  {
    if from + |pattern| > |lines| then None
    else if Matches(lines, pattern, from, tier) then Some(from)
    else SeekTier(lines, pattern, from + 1, tier)
  }

  lemma {:induction false} SeekTierFindsFirst(lines: Lines, pattern: Lines, from: nat, tier: Tier)
    ensures var r := SeekTier(lines, pattern, from, tier);
            && (r.Some? ==> from <= r.value && Matches(lines, pattern, r.value, tier))
            && (forall i :: from <= i && (r.Some? ==> i < r.value) ==> !Matches(lines, pattern, i, tier))
    decreases |lines| - from
  {
    hide SameLine;
    if from + |pattern| <= |lines| && !Matches(lines, pattern, from, tier) {
      SeekTierFindsFirst(lines, pattern, from + 1, tier);
    }
  }

  function Looser(tier: Tier): Tier {
    match tier
    case Exact => IgnoreEnd
    case IgnoreEnd => IgnoreEnds
    case _ => IgnorePunctuation
  }

  function Looseness(tier: Tier): nat {
    match tier
    case Exact => 0
    case IgnoreEnd => 1
    case IgnoreEnds => 2
    case IgnorePunctuation => 3
  }

  // The first place in the strictest tier that has one.
  function SeekTiers(lines: Lines, pattern: Lines, from: nat, tier: Tier): Option<nat>
    decreases 3 - Looseness(tier)
  {
    var r := SeekTier(lines, pattern, from, tier);
    if r.Some? || tier == IgnorePunctuation then r else SeekTiers(lines, pattern, from, Looser(tier))
  }

  function SearchStart(lines: Lines, pattern: Lines, start: nat, eof: bool): nat {
    if eof && |pattern| <= |lines| then |lines| - |pattern| else start
  }

  function Seek(lines: Lines, pattern: Lines, start: nat, eof: bool): Option<nat> {
    var from := SearchStart(lines, pattern, start, eof);
    if pattern == [] then Some(start)
    else if from + |pattern| > |lines| then None
    else SeekTiers(lines, pattern, from, Exact)
  }

  method LinesMatch(lines: Lines, pattern: Lines, start: nat, tier: Tier) returns (b: bool)
    requires start + |pattern| <= |lines|
    ensures b <==> Matches(lines, pattern, start, tier)
  {
    for k := 0 to |pattern|
      invariant forall j :: 0 <= j < k ==> SameLine(tier, lines, start + j, pattern[j])
    {
      if Normalize(tier, lines[start + k]) != Normalize(tier, pattern[k]) {
        assert !SameLine(tier, lines, start + k, pattern[k]);
        return false;
      }
    }
    return true;
  }

  method SeekOneTier(lines: Lines, pattern: Lines, from: nat, tier: Tier) returns (r: Option<nat>)
    requires from + |pattern| <= |lines|
    ensures r == SeekTier(lines, pattern, from, tier)
  {
    hide Matches;
    for i := from to |lines| - |pattern| + 1
      invariant SeekTier(lines, pattern, from, tier) == SeekTier(lines, pattern, i, tier)
    {
      var here := LinesMatch(lines, pattern, i, tier);
      if here {
        return Some(i);
      }
    }
    return None;
  }

  method SeekSequence(lines: Lines, pattern: Lines, start: nat, eof: bool) returns (r: Option<nat>)
    ensures r == Seek(lines, pattern, start, eof)
  {
    if pattern == [] {
      return Some(start);
    }
    if |pattern| > |lines| {
      return None;
    }
    var maxStart := |lines| - |pattern|;
    var searchStart := if eof && |lines| >= |pattern| then maxStart else start;
    if searchStart > maxStart {
      return None;
    }
    r := SeekEachTier(lines, pattern, searchStart);
  }

  method SeekEachTier(lines: Lines, pattern: Lines, from: nat) returns (r: Option<nat>)
    requires from + |pattern| <= |lines|
    ensures r == SeekTiers(lines, pattern, from, Exact)
  {
    var tier := Exact;
    r := SeekOneTier(lines, pattern, from, tier);
    while r.None? && tier != IgnorePunctuation
      invariant r == SeekTier(lines, pattern, from, tier)
      invariant SeekTiers(lines, pattern, from, Exact) == SeekTiers(lines, pattern, from, tier)
      decreases 3 - Looseness(tier)
    {
      tier := Looser(tier);
      r := SeekOneTier(lines, pattern, from, tier);
    }
  }

  // What matches in one tier matches in the next.
  lemma TiersAreNested(lines: Lines, pattern: Lines, at: int, tier: Tier)
    requires Matches(lines, pattern, at, tier)
    ensures Matches(lines, pattern, at, Looser(tier))
  {
    forall k | 0 <= k < |pattern|
      ensures SameLine(Looser(tier), lines, at + k, pattern[k])
    {
      assert SameLine(tier, lines, at + k, pattern[k]);
    }
  }

  // A hit is the first place of its tier, and no stricter tier matches anywhere in the range;
  // without a hit, no tier matches anywhere.
  lemma {:induction false} SeekTiersIsBest(lines: Lines, pattern: Lines, from: nat, tier: Tier) returns (hit: Tier)
    ensures var r := SeekTiers(lines, pattern, from, tier);
            && (r.Some? ==> from <= r.value && Matches(lines, pattern, r.value, hit) && Looseness(tier) <= Looseness(hit))
            && (forall i, t :: from <= i && Looseness(tier) <= Looseness(t) && Matches(lines, pattern, i, t)
                  ==> r.Some? && Looseness(hit) <= Looseness(t) && (t == hit ==> r.value <= i))
    decreases 3 - Looseness(tier)
  {
    hide Matches, SeekTier;
    SeekTierFindsFirst(lines, pattern, from, tier);
    if SeekTier(lines, pattern, from, tier).Some? || tier == IgnorePunctuation {
      hit := tier;
    } else {
      hit := SeekTiersIsBest(lines, pattern, from, Looser(tier));
    }
  }

  // The search fails exactly when even the loosest tier matches nowhere in its range.
  lemma SeekFailsIff(lines: Lines, pattern: Lines, start: nat, eof: bool)
    requires pattern != []
    ensures Seek(lines, pattern, start, eof).None?
       <==> forall i :: SearchStart(lines, pattern, start, eof) <= i ==> !Matches(lines, pattern, i, IgnorePunctuation)
  {
    var r, from := Seek(lines, pattern, start, eof), SearchStart(lines, pattern, start, eof);
    var hit := SeekTiersIsBest(lines, pattern, from, Exact);
    if r.Some? {
      MatchesInLoosest(lines, pattern, r.value, hit);
    }
  }

  lemma {:induction false} MatchesInLoosest(lines: Lines, pattern: Lines, at: int, tier: Tier)
    requires Matches(lines, pattern, at, tier)
    ensures Matches(lines, pattern, at, IgnorePunctuation)
    decreases 3 - Looseness(tier)
  {
    if tier != IgnorePunctuation {
      TiersAreNested(lines, pattern, at, tier);
      MatchesInLoosest(lines, pattern, at, Looser(tier));
    }
  }

  // ---- locating the chunks ----

  function WithoutLast(lines: Lines): Lines {
    if lines == [] then [] else lines[..|lines| - 1]
  }

  predicate EndsBlank(lines: Lines) {
    lines != [] && lines[|lines| - 1] == ""
  }

  // Where the search for a chunk starts, after its context line.
  function AfterContext(lines: Lines, chunk: Chunk, cursor: nat): Option<nat> {
    if chunk.changeContext.Some? && chunk.changeContext.value != "" then
      match Seek(lines, [chunk.changeContext.value], cursor, false)
      case Some(i) => Some(i + 1)
      case None => None
    else Some(cursor)
  }

  function InsertionIndex(lines: Lines): nat {
    if EndsBlank(lines) then |lines| - 1 else |lines|
  }

  // The pattern is tried as given, then without a blank last line.
  function LocateOld(lines: Lines, chunk: Chunk, cursor: nat): Option<Replacement>
    requires chunk.oldLines != []
  {
    match Seek(lines, chunk.oldLines, cursor, chunk.isEndOfFile)
    case Some(i) => Some(Replacement(i, |chunk.oldLines|, chunk.newLines))
    case None =>
      if !EndsBlank(chunk.oldLines) then None
      else
        var pattern := WithoutLast(chunk.oldLines);
        var fresh' := if EndsBlank(chunk.newLines) then WithoutLast(chunk.newLines) else chunk.newLines;
        match Seek(lines, pattern, cursor, chunk.isEndOfFile)
        case Some(i) => Some(Replacement(i, |pattern|, fresh'))
        case None => None
  }

  // The place of one chunk, and where the search for the next one starts.
  datatype Place = Placed(replacement: Replacement, next: nat) | Lost(error: Error)

  function PlaceOf(lines: Lines, chunk: Chunk, cursor: nat): Place {
    match AfterContext(lines, chunk, cursor)
    case None => Lost(ContextNotFound(chunk.changeContext.value))
    case Some(from) =>
      if chunk.oldLines == [] then Placed(Replacement(InsertionIndex(lines), 0, chunk.newLines), from)
      else
        match LocateOld(lines, chunk, from)
        case None => Lost(LinesNotFound(chunk.oldLines))
        case Some(r) => Placed(r, r.start + r.oldLen)
  }

  // The replacements in chunk order.
  function Locate(lines: Lines, chunks: seq<Chunk>, cursor: nat): Located
    decreases |chunks|
  {
    if chunks == [] then Located([])
    else
      match PlaceOf(lines, chunks[0], cursor)
      case Lost(error) => Failed(error)
      case Placed(r, next) => Prepend(r, Locate(lines, chunks[1..], next))
  }

  function Prepend(r: Replacement, later: Located): Located {
    if later.Failed? then later else Located([r] + later.replacements)
  }

  // A stable sort by start index.
  function Insert(r: Replacement, sorted: seq<Replacement>): seq<Replacement> {
    if sorted == [] || r.start <= sorted[0].start then [r] + sorted
    else [sorted[0]] + Insert(r, sorted[1..])
  }

  function StableSort(rs: seq<Replacement>): seq<Replacement> {
    if rs == [] then [] else Insert(rs[0], StableSort(rs[1..]))
  }

  function Replacements(lines: Lines, chunks: seq<Chunk>): Located {
    var located := Locate(lines, chunks, 0);
    if located.Failed? then located else Located(StableSort(located.replacements))
  }

  ghost function Continue(done: seq<Replacement>, later: Located): Located {
    if later.Failed? then later else Located(done + later.replacements)
  }

  method LocateOldLines(lines: Lines, chunk: Chunk, cursor: nat) returns (r: Option<Replacement>)
    requires chunk.oldLines != []
    ensures r == LocateOld(lines, chunk, cursor)
  {
    var pattern, newSlice := chunk.oldLines, chunk.newLines;
    var found := SeekSequence(lines, pattern, cursor, chunk.isEndOfFile);
    if found.None? && pattern[|pattern| - 1] == "" {
      pattern := pattern[..|pattern| - 1];
      if |newSlice| > 0 && newSlice[|newSlice| - 1] == "" {
        newSlice := newSlice[..|newSlice| - 1];
      }
      found := SeekSequence(lines, pattern, cursor, chunk.isEndOfFile);
    }
    if found.None? {
      return None;
    }
    return Some(Replacement(found.value, |pattern|, newSlice));
  }

  method SkipContext(lines: Lines, chunk: Chunk, cursor: nat) returns (from: Option<nat>)
    ensures from == AfterContext(lines, chunk, cursor)
    ensures from.None? ==> chunk.changeContext.Some?
  {
    if chunk.changeContext.None? || chunk.changeContext.value == "" {
      return Some(cursor);
    }
    var ctxIndex := SeekSequence(lines, [chunk.changeContext.value], cursor, false);
    if ctxIndex.None? {
      return None;
    }
    return Some(ctxIndex.value + 1);
  }

  method PlaceChunk(lines: Lines, chunk: Chunk, cursor: nat) returns (place: Place)
    ensures place == PlaceOf(lines, chunk, cursor)
  {
    var from := SkipContext(lines, chunk, cursor);
    if from.None? {
      return Lost(ContextNotFound(chunk.changeContext.value));
    }
    var lineIndex := from.value;
    if chunk.oldLines == [] {
      var insertionIndex := if |lines| > 0 && lines[|lines| - 1] == "" then |lines| - 1 else |lines|;
      return Placed(Replacement(insertionIndex, 0, chunk.newLines), lineIndex);
    }
    var r := LocateOldLines(lines, chunk, lineIndex);
    if r.None? {
      return Lost(LinesNotFound(chunk.oldLines));
    }
    return Placed(r.value, r.value.start + r.value.oldLen);
  }

  method ComputeReplacements(lines: Lines, chunks: seq<Chunk>) returns (located: Located)
    ensures located == Replacements(lines, chunks)
  {
    var replacements, lineIndex: nat := [], 0;
    for k := 0 to |chunks|
      invariant Continue(replacements, Locate(lines, chunks[k..], lineIndex)) == Locate(lines, chunks, 0)
    {
      assert chunks[k..][1..] == chunks[k + 1..];
      var place := PlaceChunk(lines, chunks[k], lineIndex);
      if place.Lost? {
        return Failed(place.error);
      }
      ContinueOne(replacements, place.replacement, Locate(lines, chunks[k + 1..], place.next));
      replacements, lineIndex := replacements + [place.replacement], place.next;
    }
    assert chunks[|chunks|..] == [];
    assert replacements + [] == replacements;
    located := Located(StableSort(replacements));
  }

  lemma ContinueOne(done: seq<Replacement>, r: Replacement, later: Located)
    ensures Continue(done, Prepend(r, later)) == Continue(done + [r], later)
  {
    if later.Located? {
      assert done + ([r] + later.replacements) == done + [r] + later.replacements;
    }
  }
}
