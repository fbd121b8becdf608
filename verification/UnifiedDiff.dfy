/** Applying the hunks of a unified diff to the lines of a file, and applying them again. */
module UnifiedDiff {
  import opened Wrappers

  type Lines = seq<string>

  // The header's counts, and the body lines with their markers.
  datatype Hunk = Hunk(oldStart: int, oldLines: int, newLines: int, lines: Lines)

  // A failed hunk throws and leaves the lines as they were at that point.
  datatype Outcome = Applied(lines: Lines, offset: int) | Thrown(lines: Lines)

  predicate HasMarker(raw: string, marker: char) {
    raw != "" && raw[0] == marker
  }

  predicate WellMarked(body: Lines) {
    forall k :: 0 <= k < |body| ==> HasMarker(body[k], ' ') || HasMarker(body[k], '-') || HasMarker(body[k], '+')
  }

  function OldSide(body: Lines): Lines {
    if body == [] then []
    else if HasMarker(body[0], ' ') || HasMarker(body[0], '-') then [body[0][1..]] + OldSide(body[1..])
    else OldSide(body[1..])
  }

  function NewSide(body: Lines): Lines {
    if body == [] then []
    else if HasMarker(body[0], ' ') || HasMarker(body[0], '+') then [body[0][1..]] + NewSide(body[1..])
    else NewSide(body[1..])
  }

  // An index outside the array reads as undefined.
  function LineAt(lines: Lines, i: int): Option<string> {
    if 0 <= i < |lines| then Some(lines[i]) else None
  }

  // splice(at, 0, line), with its treatment of indices outside the array.
  function SpliceIn(lines: Lines, at: int, line: string): Lines {
    var k := if at > |lines| then |lines| else if at >= 0 then at else if |lines| + at >= 0 then |lines| + at else 0;
    lines[..k] + [line] + lines[k..]
  }

  datatype Progress = Ok(lines: Lines, cursor: int) | Stuck(lines: Lines)

  function ApplyLine(lines: Lines, cursor: int, raw: string): Progress {
    if HasMarker(raw, ' ') then
      if LineAt(lines, cursor) == Some(raw[1..]) then Ok(lines, cursor + 1) else Stuck(lines)
    else if HasMarker(raw, '-') then
      if LineAt(lines, cursor) == Some(raw[1..]) then Ok(lines[..cursor] + lines[cursor + 1..], cursor) else Stuck(lines)
    else if HasMarker(raw, '+') then Ok(SpliceIn(lines, cursor, raw[1..]), cursor + 1)
    else Stuck(lines)
  }

  function ApplyBody(lines: Lines, cursor: int, body: Lines): Progress
    decreases |body|
  {
    if body == [] then Ok(lines, cursor)
    else
      match ApplyLine(lines, cursor, body[0])
      case Ok(next, c) => ApplyBody(next, c, body[1..])
      case Stuck(at) => Stuck(at)
  }

  predicate Holds(lines: Lines, cursor: int, expected: Lines) {
    0 <= cursor && cursor + |expected| <= |lines| && lines[cursor..cursor + |expected|] == expected
  }

  function Cursor(hunk: Hunk, offset: int): int {
    hunk.oldStart - 1 + offset
  }

  function Delta(hunk: Hunk): int {
    hunk.newLines - hunk.oldLines
  }

  function HunkOutcome(lines: Lines, hunk: Hunk, offset: int): Outcome {
    if Holds(lines, Cursor(hunk, offset), NewSide(hunk.lines)) then Applied(lines, offset + Delta(hunk))
    else
      match ApplyBody(lines, Cursor(hunk, offset), hunk.lines)
      case Ok(next, _) => Applied(next, offset + Delta(hunk))
      case Stuck(at) => Thrown(at)
  }

  function PassOutcome(lines: Lines, hunks: seq<Hunk>, offset: int): Outcome
    decreases |hunks|
  {
    if hunks == [] then Applied(lines, offset)
    else
      match HunkOutcome(lines, hunks[0], offset)
      case Applied(next, o) => PassOutcome(next, hunks[1..], o)
      case Thrown(at) => Thrown(at)
  }

  lemma BodyStep(lines: Lines, cursor: int, body: Lines, k: nat)
    requires k < |body|
    ensures ApplyBody(lines, cursor, body[k..])
         == match ApplyLine(lines, cursor, body[k])
            case Ok(next, c) => ApplyBody(next, c, body[k + 1..])
            case Stuck(at) => Stuck(at)
  {
    hide ApplyLine;
    assert body[k..][1..] == body[k + 1..];
  }

  lemma BodyEnd(lines: Lines, cursor: int, body: Lines)
    ensures ApplyBody(lines, cursor, body[|body|..]) == Ok(lines, cursor) && body[0..] == body
  {
  }

  class PatchTarget {
    var lines: Lines

    constructor (lines: Lines)
      ensures this.lines == lines
    {
      this.lines := lines;
    }

    method ApplyHunk(hunk: Hunk, offset: int) returns (r: Option<int>)
      modifies this
      ensures HunkOutcome(old(lines), hunk, offset) == if r.Some? then Applied(lines, r.value) else Thrown(lines)
    {
      var cursor := hunk.oldStart - 1 + offset;
      var expected := Expected(hunk.lines);
      if cursor >= 0 && cursor + |expected| <= |lines| {
        var alreadyApplied := Compare(cursor, expected);
        if alreadyApplied {
          return Some(offset + (hunk.newLines - hunk.oldLines));
        }
      }
      var end := ApplyLines(hunk.lines, cursor);
      return if end.Some? then Some(offset + (hunk.newLines - hunk.oldLines)) else None;
    }

    // The second loop of the hunk; None where the source throws.
    method ApplyLines(body: Lines, start: int) returns (end: Option<int>)
      modifies this
      ensures ApplyBody(old(lines), start, body) == if end.Some? then Ok(lines, end.value) else Stuck(lines)
    {
      hide ApplyBody, SpliceIn;
      var cursor := start;
      for k := 0 to |body|
        invariant ApplyBody(lines, cursor, body[k..]) == ApplyBody(old(lines), start, body)
      {
        var raw := body[k];
        BodyStep(lines, cursor, body, k);
        if HasMarker(raw, ' ') {
          if !(0 <= cursor < |lines| && lines[cursor] == raw[1..]) {
            return None;
          }
          cursor := cursor + 1;
        } else if HasMarker(raw, '-') {
          if !(0 <= cursor < |lines| && lines[cursor] == raw[1..]) {
            return None;
          }
          lines := lines[..cursor] + lines[cursor + 1..];
        } else if HasMarker(raw, '+') {
          lines := SpliceIn(lines, cursor, raw[1..]);
          cursor := cursor + 1;
        } else {
          return None;
        }
      }
      BodyEnd(lines, cursor, body);
      return Some(cursor);
    }

    method Compare(cursor: nat, expected: Lines) returns (same: bool)
      requires cursor + |expected| <= |lines|
      ensures same <==> Holds(lines, cursor, expected)
    {
      for i := 0 to |expected|
        invariant forall j :: 0 <= j < i ==> lines[cursor + j] == expected[j]
      {
        if lines[cursor + i] != expected[i] {
          assert lines[cursor..cursor + |expected|][i] != expected[i];
          return false;
        }
      }
      assert lines[cursor..cursor + |expected|] == expected;
      return true;
    }

    method ApplyHunks(hunks: seq<Hunk>) returns (ok: bool)
      modifies this
      ensures ok <==> PassOutcome(old(lines), hunks, 0).Applied?
      ensures PassOutcome(old(lines), hunks, 0).lines == lines
    {
      var offset := 0;
      for k := 0 to |hunks|
        invariant PassOutcome(lines, hunks[k..], offset) == PassOutcome(old(lines), hunks, 0)
      {
        assert hunks[k..][1..] == hunks[k + 1..];
        var next := ApplyHunk(hunks[k], offset);
        if next.None? {
          return false;
        }
        offset := next.value;
      }
      return true;
    }
  }

  method Expected(body: Lines) returns (expected: Lines)
    ensures expected == NewSide(body)
  {
    expected := [];
    for k := 0 to |body|
      invariant expected + NewSide(body[k..]) == NewSide(body)
    {
      assert body[k..][1..] == body[k + 1..];
      if HasMarker(body[k], ' ') || HasMarker(body[k], '+') {
        expected := expected + [body[k][1..]];
      }
    }
  }

  // ---- what one hunk does ----

  // The body goes through exactly when its old side stands at the cursor, and then the new side
  // stands there instead.
  ghost predicate BodyEffect(done: Lines, rest: Lines, body: Lines) {
    var after := ApplyBody(done + rest, |done|, body);
    && (after.Ok? <==> WellMarked(body) && OldSide(body) <= rest)
    && (after.Ok? ==> after.lines == done + NewSide(body) + rest[|OldSide(body)|..])
  }

  lemma WellMarkedStep(body: Lines)
    requires body != []
    ensures WellMarked(body) <==> WellMarked(body[1..]) && WellMarked([body[0]])
  {
    assert body == [body[0]] + body[1..];
  }

  lemma PrefixStep(line: string, side: Lines, rest: Lines)
    ensures [line] + side <= rest <==> rest != [] && rest[0] == line && side <= rest[1..]
    ensures [line] + side <= rest ==> rest[|[line] + side|..] == rest[1..][|side|..]
  {
    if rest != [] {
      assert rest == [rest[0]] + rest[1..];
    }
  }

  lemma AddedLine(done: Lines, rest: Lines, body: Lines)
    requires body != [] && HasMarker(body[0], '+') && BodyEffect(done + [body[0][1..]], rest, body[1..])
    ensures BodyEffect(done, rest, body)
  {
    WellMarkedStep(body);
    assert SpliceIn(done + rest, |done|, body[0][1..]) == done + [body[0][1..]] + rest;
    assert done + [body[0][1..]] + NewSide(body[1..]) == done + NewSide(body);
  }

  lemma ContextLine(done: Lines, rest: Lines, body: Lines)
    requires body != [] && HasMarker(body[0], ' ')
    requires rest != [] ==> BodyEffect(done + [rest[0]], rest[1..], body[1..])
    ensures BodyEffect(done, rest, body)
  {
    var text := body[0][1..];
    WellMarkedStep(body);
    PrefixStep(text, OldSide(body[1..]), rest);
    assert LineAt(done + rest, |done|) == if rest != [] then Some(rest[0]) else None;
    if rest != [] {
      assert rest == [rest[0]] + rest[1..];
      Regroup(done, [rest[0]], rest[1..]);
      Regroup(done, [text], NewSide(body[1..]));
    }
  }

  lemma RemovedLine(done: Lines, rest: Lines, body: Lines)
    requires body != [] && HasMarker(body[0], '-')
    requires rest != [] ==> BodyEffect(done, rest[1..], body[1..])
    ensures BodyEffect(done, rest, body)
  {
    WellMarkedStep(body);
    PrefixStep(body[0][1..], OldSide(body[1..]), rest);
    assert LineAt(done + rest, |done|) == if rest != [] then Some(rest[0]) else None;
    if rest != [] {
      assert (done + rest)[..|done|] + (done + rest)[|done| + 1..] == done + rest[1..];
    }
  }

  lemma {:induction false} BodyReplacesOldSide(done: Lines, rest: Lines, body: Lines)
    ensures BodyEffect(done, rest, body)
    decreases |body|
  {
    if body == [] {
      assert done + [] + rest == done + rest;
    } else if HasMarker(body[0], '+') {
      BodyReplacesOldSide(done + [body[0][1..]], rest, body[1..]);
      AddedLine(done, rest, body);
    } else if HasMarker(body[0], ' ') {
      if rest != [] {
        BodyReplacesOldSide(done + [rest[0]], rest[1..], body[1..]);
      }
      ContextLine(done, rest, body);
    } else if HasMarker(body[0], '-') {
      if rest != [] {
        BodyReplacesOldSide(done, rest[1..], body[1..]);
      }
      RemovedLine(done, rest, body);
    }
  }

  // Past the end of the file, a body with any old line is refused.
  lemma {:induction false} OldSideNeedsTheFile(lines: Lines, cursor: int, body: Lines)
    requires cursor > |lines| && OldSide(body) != []
    ensures ApplyBody(lines, cursor, body).Stuck?
    decreases |body|
  {
    if HasMarker(body[0], '+') {
      OldSideNeedsTheFile(SpliceIn(lines, cursor, body[0][1..]), cursor + 1, body[1..]);
    }
  }

  // ---- a pass over the file ----

  // The header counts are those of the body, and the hunk starts at a line of the file.
  predicate Accurate(hunk: Hunk) {
    hunk.oldStart >= 1 && hunk.oldLines == |OldSide(hunk.lines)| && hunk.newLines == |NewSide(hunk.lines)|
  }

  // Accurate hunks in file order, without overlap.
  predicate Ordered(hunks: seq<Hunk>) {
    hunks != [] ==>
      && Accurate(hunks[0])
      && (|hunks| > 1 ==> hunks[1].oldStart >= hunks[0].oldStart + hunks[0].oldLines)
      && Ordered(hunks[1..])
  }

  // No hunk adds lines past the end of the file.
  predicate InsideFile(lines: Lines, hunks: seq<Hunk>, offset: int)
    decreases |hunks|
  {
    hunks != [] ==>
      && !AddsOutside(lines, hunks[0], offset)
      && match HunkOutcome(lines, hunks[0], offset)
         case Applied(next, o) => InsideFile(next, hunks[1..], o)
         case Thrown(_) => true
  }

  // A hunk without old lines that starts past the end of the file, where splice clamps.
  predicate AddsOutside(lines: Lines, hunk: Hunk, offset: int) {
    hunk.lines != [] && OldSide(hunk.lines) == [] && Cursor(hunk, offset) > |lines|
  }

  // A hunk that goes through, skipped or not, leaves its new side at its place and touches
  // nothing before it.
  lemma HunkLeavesNewSide(lines: Lines, hunk: Hunk, offset: int)
    requires HunkOutcome(lines, hunk, offset).Applied? && Cursor(hunk, offset) >= 0
    requires OldSide(hunk.lines) == [] ==> Cursor(hunk, offset) <= |lines|
    ensures var next, cursor := HunkOutcome(lines, hunk, offset).lines, Cursor(hunk, offset);
            && Holds(next, cursor, NewSide(hunk.lines))
            && cursor <= |lines| && next[..cursor] == lines[..cursor]
  {
    var cursor := Cursor(hunk, offset);
    if !Holds(lines, cursor, NewSide(hunk.lines)) {
      if cursor > |lines| {
        OldSideNeedsTheFile(lines, cursor, hunk.lines);
      }
      assert lines == lines[..cursor] + lines[cursor..];
      BodyReplacesOldSide(lines[..cursor], lines[cursor..], hunk.lines);
    }
  }

  // A hunk that goes through keeps what stands before both its place and the end of the file.
  lemma HunkKeepsFront(lines: Lines, hunk: Hunk, offset: int, low: nat)
    requires HunkOutcome(lines, hunk, offset).Applied? && low <= |lines| && low <= Cursor(hunk, offset)
    ensures var next := HunkOutcome(lines, hunk, offset).lines; low <= |next| && next[..low] == lines[..low]
  {
    var next, cursor := HunkOutcome(lines, hunk, offset).lines, Cursor(hunk, offset);
    if cursor <= |lines| {
      HunkLeavesNewSide(lines, hunk, offset);
      assert next[..low] == next[..cursor][..low] == lines[..low];
    } else {
      OutsideAddsOnly(lines, hunk, offset);
      AddingKeepsFront(lines, cursor, hunk.lines, low);
    }
  }

  // Past the end of the file only a hunk without old lines goes through.
  lemma OutsideAddsOnly(lines: Lines, hunk: Hunk, offset: int)
    requires HunkOutcome(lines, hunk, offset).Applied? && Cursor(hunk, offset) > |lines|
    ensures AddsOnly(hunk.lines) && OldSide(hunk.lines) == []
    ensures HunkOutcome(lines, hunk, offset).lines == ApplyBody(lines, Cursor(hunk, offset), hunk.lines).lines
  {
    if OldSide(hunk.lines) != [] {
      OldSideNeedsTheFile(lines, Cursor(hunk, offset), hunk.lines);
    }
    AppliedAddsOnly(lines, Cursor(hunk, offset), hunk.lines);
  }

  lemma {:induction false} AppliedAddsOnly(lines: Lines, cursor: int, body: Lines)
    requires ApplyBody(lines, cursor, body).Ok? && OldSide(body) == []
    ensures AddsOnly(body)
    decreases |body|
  {
    if body != [] {
      AppliedAddsOnly(SpliceIn(lines, cursor, body[0][1..]), cursor + 1, body[1..]);
      assert body == [body[0]] + body[1..];
    }
  }

  lemma {:induction false} AddingKeepsFront(lines: Lines, cursor: int, body: Lines, low: nat)
    requires AddsOnly(body) && cursor > |lines| && low <= |lines|
    ensures var after := ApplyBody(lines, cursor, body);
            after.Ok? && low <= |after.lines| && after.lines[..low] == lines[..low]
    decreases |body|
  {
    if body != [] {
      var next := SpliceIn(lines, cursor, body[0][1..]);
      AddingKeepsFront(next, cursor + 1, body[1..], low);
      assert next[..low] == lines[..low];
    }
  }

  lemma NextStartsAfter(hunks: seq<Hunk>, offset: int)
    requires Ordered(hunks) && |hunks| > 1
    ensures Cursor(hunks[1], offset + Delta(hunks[0])) >= Cursor(hunks[0], offset) + |NewSide(hunks[0].lines)|
  {
  }

  // Later hunks keep what comes before them, whether or not they are inside the file.
  lemma {:induction false} PassKeepsFront(lines: Lines, hunks: seq<Hunk>, offset: int, low: nat)
    requires Ordered(hunks) && PassOutcome(lines, hunks, offset).Applied? && low <= |lines|
    requires hunks != [] ==> low <= Cursor(hunks[0], offset)
    ensures var after := PassOutcome(lines, hunks, offset).lines; low <= |after| && after[..low] == lines[..low]
    decreases |hunks|
  {
    if hunks != [] {
      hide HunkOutcome;
      HunkKeepsFront(lines, hunks[0], offset, low);
      if |hunks| > 1 {
        NextStartsAfter(hunks, offset);
      }
      OutcomeOffset(lines, hunks[0], offset);
      PassKeepsFront(HunkOutcome(lines, hunks[0], offset).lines, hunks[1..], offset + Delta(hunks[0]), low);
    }
  }

  lemma OutcomeOffset(lines: Lines, hunk: Hunk, offset: int)
    ensures HunkOutcome(lines, hunk, offset).Applied? ==> HunkOutcome(lines, hunk, offset).offset == offset + Delta(hunk)
  {
  }

  // ---- a hunk inside the file is skipped the second time ----

  // After the whole pass the first hunk still finds its new side at its place.
  lemma FirstRegionStays(lines: Lines, hunks: seq<Hunk>, offset: int)
    requires Ordered(hunks) && hunks != [] && hunks[0].lines != [] && PassOutcome(lines, hunks, offset).Applied?
    requires !AddsOutside(lines, hunks[0], offset) && Cursor(hunks[0], offset) >= 0
    ensures Holds(PassOutcome(lines, hunks, offset).lines, Cursor(hunks[0], offset), NewSide(hunks[0].lines))
  {
    hide HunkOutcome, NewSide, OldSide;
    var hunk, cursor := hunks[0], Cursor(hunks[0], offset);
    var next, region := HunkOutcome(lines, hunk, offset).lines, NewSide(hunk.lines);
    OutcomeOffset(lines, hunk, offset);
    HunkLeavesNewSide(lines, hunk, offset);
    if |hunks| > 1 {
      NextStartsAfter(hunks, offset);
    }
    PassKeepsFront(next, hunks[1..], offset + Delta(hunk), cursor + |region|);
    RegionStays(next, PassOutcome(lines, hunks, offset).lines, cursor, region);
  }

  // So it is skipped; a hunk without lines changes nothing anyway.
  lemma SecondTimeSkipped(lines: Lines, hunks: seq<Hunk>, offset: int)
    requires Ordered(hunks) && hunks != [] && PassOutcome(lines, hunks, offset).Applied?
    requires !AddsOutside(lines, hunks[0], offset) && Cursor(hunks[0], offset) >= 0
    ensures HunkOutcome(PassOutcome(lines, hunks, offset).lines, hunks[0], offset)
         == Applied(PassOutcome(lines, hunks, offset).lines, offset + Delta(hunks[0]))
  {
    hide PassOutcome, NewSide, OldSide, Ordered;
    if hunks[0].lines != [] {
      FirstRegionStays(lines, hunks, offset);
    }
  }

  lemma RegionStays(next: Lines, after: Lines, cursor: nat, region: Lines)
    requires cursor + |region| <= |next| && cursor + |region| <= |after|
    requires next[cursor..cursor + |region|] == region
    requires after[..cursor + |region|] == next[..cursor + |region|]
    ensures after[cursor..cursor + |region|] == region
  {
    assert after[cursor..cursor + |region|] == after[..cursor + |region|][cursor..];
    assert next[cursor..cursor + |region|] == next[..cursor + |region|][cursor..];
  }

  // Every hunk finds its new side at its place, so a pass skips them all.
  predicate Settled(lines: Lines, hunks: seq<Hunk>, offset: int)
    decreases |hunks|
  {
    hunks != [] ==>
      && (hunks[0].lines != [] ==> Holds(lines, Cursor(hunks[0], offset), NewSide(hunks[0].lines)))
      && Settled(lines, hunks[1..], offset + Delta(hunks[0]))
  }

  // A pass inside the file settles its hunks: later ones disturb no earlier region.
  lemma {:induction false} PassSettles(lines: Lines, hunks: seq<Hunk>, offset: int)
    requires Ordered(hunks) && InsideFile(lines, hunks, offset) && (hunks != [] ==> Cursor(hunks[0], offset) >= 0)
    requires PassOutcome(lines, hunks, offset).Applied?
    ensures Settled(PassOutcome(lines, hunks, offset).lines, hunks, offset)
    decreases |hunks|
  {
    if hunks != [] {
      hide HunkOutcome, NewSide, OldSide;
      OutcomeOffset(lines, hunks[0], offset);
      if |hunks| > 1 {
        NextStartsAfter(hunks, offset);
      }
      PassSettles(HunkOutcome(lines, hunks[0], offset).lines, hunks[1..], offset + Delta(hunks[0]));
      if hunks[0].lines != [] {
        FirstRegionStays(lines, hunks, offset);
      }
    }
  }

  // ---- a hunk outside the file ----

  function Total(hunks: seq<Hunk>): nat {
    if hunks == [] then 0 else |hunks[0].lines| + Total(hunks[1..])
  }

  predicate AllAddOnly(hunks: seq<Hunk>) {
    forall k :: 0 <= k < |hunks| ==> AddsOnly(hunks[k].lines)
  }

  // Once a hunk is past the end of the file, so are all later ones; they only add, and each adds
  // all of its lines.
  lemma {:induction false} OutsideStaysOutside(lines: Lines, hunks: seq<Hunk>, offset: int)
    requires Ordered(hunks) && PassOutcome(lines, hunks, offset).Applied?
    requires hunks != [] ==> Cursor(hunks[0], offset) > |lines|
    ensures AllAddOnly(hunks) && |PassOutcome(lines, hunks, offset).lines| == |lines| + Total(hunks)
    decreases |hunks|
  {
    if hunks != [] {
      var hunk := hunks[0];
      OutsideAddsOnly(lines, hunk, offset);
      AddingGrows(lines, Cursor(hunk, offset), hunk.lines);
      OutcomeOffset(lines, hunk, offset);
      if |hunks| > 1 {
        NextStartsAfter(hunks, offset);
      }
      OutsideStaysOutside(HunkOutcome(lines, hunk, offset).lines, hunks[1..], offset + Delta(hunk));
      forall k | 0 <= k < |hunks| ensures AddsOnly(hunks[k].lines) {
        assert k > 0 ==> hunks[k] == hunks[1..][k - 1];
      }
    }
  }

  lemma AddOnlyOutcome(lines: Lines, hunk: Hunk, offset: int)
    requires AddsOnly(hunk.lines)
    ensures var o := HunkOutcome(lines, hunk, offset);
            && o.Applied? && o.offset == offset + Delta(hunk)
            && if Holds(lines, Cursor(hunk, offset), NewSide(hunk.lines)) then o.lines == lines
               else |o.lines| == |lines| + |hunk.lines|
    ensures |NewSide(hunk.lines)| == |hunk.lines|
  {
    AddingGrows(lines, Cursor(hunk, offset), hunk.lines);
  }

  lemma AllAddOnlyRest(hunks: seq<Hunk>)
    requires hunks != [] && AllAddOnly(hunks)
    ensures AddsOnly(hunks[0].lines) && AllAddOnly(hunks[1..])
  {
  }

  lemma {:induction false} AddOnlyPassGrows(lines: Lines, hunks: seq<Hunk>, offset: int)
    requires AllAddOnly(hunks)
    ensures PassOutcome(lines, hunks, offset).Applied? && |PassOutcome(lines, hunks, offset).lines| >= |lines|
    decreases |hunks|
  {
    if hunks != [] {
      hide HunkOutcome;
      AllAddOnlyRest(hunks);
      AddOnlyOutcome(lines, hunks[0], offset);
      AddOnlyPassGrows(HunkOutcome(lines, hunks[0], offset).lines, hunks[1..], offset + Delta(hunks[0]));
    }
  }

  // Hunks that only add and do not all fit into the file cannot all be skipped.
  lemma {:induction false} SecondTimeGrows(lines: Lines, hunks: seq<Hunk>, offset: int)
    requires Ordered(hunks) && AllAddOnly(hunks) && hunks != []
    requires Total(hunks) > 0 && Cursor(hunks[0], offset) + Total(hunks) > |lines|
    ensures PassOutcome(lines, hunks, offset).Applied? && |PassOutcome(lines, hunks, offset).lines| > |lines|
    decreases |hunks|
  {
    hide HunkOutcome;
    AllAddOnlyRest(hunks);
    AddOnlyOutcome(lines, hunks[0], offset);
    var next, rest := HunkOutcome(lines, hunks[0], offset).lines, hunks[1..];
    if hunks[0].lines != [] && !Holds(lines, Cursor(hunks[0], offset), NewSide(hunks[0].lines)) {
      AddOnlyPassGrows(next, rest, offset + Delta(hunks[0]));
    } else {
      assert |next| == |lines|;
      if rest != [] {
        NextStartsAfter(hunks, offset);
      }
      NothingElse(lines, hunks[0], offset);
      SecondTimeGrows(next, rest, offset + Delta(hunks[0]));
    }
  }

  lemma NothingElse(lines: Lines, hunk: Hunk, offset: int)
    requires AddsOnly(hunk.lines) && (hunk.lines == [] || Holds(lines, Cursor(hunk, offset), NewSide(hunk.lines)))
    ensures HunkOutcome(lines, hunk, offset).lines == lines
  {
  }

  // ---- applying the diff a second time ----

  ghost predicate Unchanged(lines: Lines, hunks: seq<Hunk>, offset: int) {
    PassOutcome(lines, hunks, offset).Applied? && PassOutcome(lines, hunks, offset).lines == lines
  }

  lemma {:induction false} SecondPassIff(lines: Lines, hunks: seq<Hunk>, offset: int)
    requires Ordered(hunks) && (hunks != [] ==> Cursor(hunks[0], offset) >= 0)
    requires PassOutcome(lines, hunks, offset).Applied?
    ensures Unchanged(PassOutcome(lines, hunks, offset).lines, hunks, offset) <==> InsideFile(lines, hunks, offset)
    decreases |hunks|
  {
    if hunks != [] {
      hide HunkOutcome, OldSide, NewSide;
      var after := PassOutcome(lines, hunks, offset).lines;
      OutcomeOffset(lines, hunks[0], offset);
      if AddsOutside(lines, hunks[0], offset) {
        OutsideStaysOutside(lines, hunks, offset);
        SecondTimeGrows(after, hunks, offset);
      } else {
        SecondTimeSkipped(lines, hunks, offset);
        if |hunks| > 1 {
          NextStartsAfter(hunks, offset);
        }
        SecondPassIff(HunkOutcome(lines, hunks[0], offset).lines, hunks[1..], offset + Delta(hunks[0]));
      }
    }
  }

  // For accurate hunks in order, a second pass goes through and changes nothing if and only if the
  // first one added no lines past the end of the file.
  lemma PassIsIdempotentIff(lines: Lines, hunks: seq<Hunk>)
    requires Ordered(hunks) && PassOutcome(lines, hunks, 0).Applied?
    ensures var after := PassOutcome(lines, hunks, 0).lines;
            PassOutcome(after, hunks, 0).Applied? && PassOutcome(after, hunks, 0).lines == after <==> InsideFile(lines, hunks, 0)
  {
    SecondPassIff(lines, hunks, 0);
  }

  predicate AddsOnly(body: Lines) {
    forall k :: 0 <= k < |body| ==> HasMarker(body[k], '+')
  }

  lemma {:induction false} AddingGrows(lines: Lines, cursor: int, body: Lines)
    requires AddsOnly(body)
    ensures ApplyBody(lines, cursor, body).Ok? && |ApplyBody(lines, cursor, body).lines| == |lines| + |body|
    ensures |NewSide(body)| == |body| && OldSide(body) == []
    decreases |body|
  {
    if body != [] {
      AddingGrows(SpliceIn(lines, cursor, body[0][1..]), cursor + 1, body[1..]);
    }
  }

  // For a hunk that only adds lines, the second application is harmless exactly when the hunk
  // did not start past the end of the file; otherwise it adds its lines again.
  lemma AddingAgainIsHarmlessIff(lines: Lines, hunk: Hunk)
    requires hunk.oldStart >= 1 && AddsOnly(hunk.lines) && hunk.lines != []
    requires !Holds(lines, Cursor(hunk, 0), NewSide(hunk.lines))
    ensures var once := HunkOutcome(lines, hunk, 0).lines;
            HunkOutcome(once, hunk, 0).lines == once <==> Cursor(hunk, 0) <= |lines|
  {
    var once, cursor := HunkOutcome(lines, hunk, 0).lines, Cursor(hunk, 0);
    AddingGrows(lines, cursor, hunk.lines);
    AddingGrows(once, cursor, hunk.lines);
    if cursor <= |lines| {
      HunkLeavesNewSide(lines, hunk, 0);
    } else {
      assert |once| < cursor + |NewSide(hunk.lines)|;
    }
  }

  lemma LineAdded(lines: Lines)
    requires |lines| <= 1
    ensures ApplyLine(lines, 1, "+x") == Ok(lines + ["x"], 2)
  {
    assert "+x"[1..] == "x";
    assert lines + ["x"] + [] == lines + ["x"];
  }

  lemma BodyAdded(lines: Lines)
    requires |lines| <= 1
    ensures ApplyBody(lines, 1, ["+x"]) == Ok(lines + ["x"], 2)
  {
    hide ApplyLine;
    LineAdded(lines);
    assert ["+x"][1..] == [];
  }

  // A hunk of one added line that starts at the second line of a file adds it when it is not there.
  lemma AddsOneLine(lines: Lines, hunk: Hunk)
    requires hunk == Hunk(2, 0, 1, ["+x"]) && |lines| <= 1
    ensures PassOutcome(lines, [hunk], 0) == Applied(lines + ["x"], 1)
  {
    hide ApplyBody, NewSide;
    BodyAdded(lines);
    OneLineNewSide();
    assert HunkOutcome(lines, hunk, 0) == Applied(lines + ["x"], 1);
    assert [hunk][1..] == [];
  }

  lemma OneLineNewSide()
    ensures |NewSide(["+x"])| == 1 && OldSide(["+x"]) == []
  {
    assert ["+x"][1..] == [];
  }

  // An empty file and a hunk that adds a line at its second line: each pass adds it again.
  lemma AddedTwiceExample(hunk: Hunk)
    requires hunk == Hunk(2, 0, 1, ["+x"])
    ensures Ordered([hunk]) && !InsideFile([], [hunk], 0)
    ensures PassOutcome([], [hunk], 0) == Applied(["x"], 1) && PassOutcome(["x"], [hunk], 0) == Applied(["x", "x"], 1)
  {
    hide PassOutcome, HunkOutcome, NewSide, OldSide;
    assert [hunk][1..] == [];
    OneLineNewSide();
    AddsOneLine([], hunk);
    AddsOneLine(["x"], hunk);
    assert [] + ["x"] == ["x"] && ["x"] + ["x"] == ["x", "x"];
  }
}
