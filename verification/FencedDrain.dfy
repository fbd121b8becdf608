/** Draining with the parser the chunker really uses: when it ends, and when it does not. */
module FencedDrain {
  import opened Wrappers
  import opened Text
  import opened BlockChunker
  import opened BlockChunkerDrain
  import opened Fences

  // Every line of the text, line end included, is shorter than max.
  ghost predicate LinesShorter(text: string, max: int) {
    forall i :: 0 <= i <= |text| ==> LineEnd(text, i) - i + 1 < max
  }

  lemma {:induction false} LineEndOfSuffix(text: string, k: nat, i: nat)
    requires k + i <= |text|
    ensures LineEnd(text[k..], i) == LineEnd(text, k + i) - k
    decreases |text| - i
  {
    if k + i < |text| && text[k + i] != '\n' {
      LineEndOfSuffix(text, k, i + 1);
    }
  }

  lemma SuffixLinesShorter(text: string, k: nat, max: int)
    requires k <= |text| && LinesShorter(text, max)
    ensures LinesShorter(text[k..], max)
  {
    forall i | 0 <= i <= |text| - k ensures LineEnd(text[k..], i) - i + 1 < max {
      LineEndOfSuffix(text, k, i);
    }
  }

  lemma {:induction false} LineEndOfFirst(text: string, i: nat, end: nat)
    requires i <= end < |text| && text[end] == '\n' && forall k :: i <= k < end ==> text[k] != '\n'
    ensures LineEnd(text, i) == end
    decreases end - i
  {
    if i < end {
      LineEndOfFirst(text, i + 1, end);
    }
  }

  // One line, then a text: its lines are that line and the lines of the text.
  lemma LineInFront(line: string, rest: string, max: int)
    requires (forall k :: 0 <= k < |line| ==> line[k] != '\n') && |line| + 1 < max && LinesShorter(rest, max)
    ensures LinesShorter(line + "\n" + rest, max)
  {
    var all := line + "\n" + rest;
    assert all[|line| + 1..] == rest;
    forall i | 0 <= i <= |all| ensures LineEnd(all, i) - i + 1 < max {
      if i <= |line| {
        LineEndOfFirst(all, i, |line|);
      } else {
        LineEndOfSuffix(all, |line| + 1, i - |line| - 1);
        assert LineEnd(rest, i - |line| - 1) - (i - |line| - 1) + 1 < max;
      }
    }
  }

  lemma {:induction false} StripIsSuffix(s: string) returns (k: nat)
    ensures k <= |s| && StripLeadingNewlines(s) == s[k..]
  {
    if s != "" && s[0] == '\n' {
      k := StripIsSuffix(s[1..]);
      k := k + 1;
    } else {
      k := 0;
    }
  }

  lemma {:induction false} TrimStartIsSuffix(s: string) returns (k: nat)
    ensures k <= |s| && TrimStart(s) == s[k..]
  {
    if s != "" && IsSpace(s[0]) {
      k := TrimStartIsSuffix(s[1..]);
      k := k + 1;
    } else {
      k := 0;
    }
  }

  lemma StrippedLinesShorter(s: string, max: int)
    requires LinesShorter(s, max)
    ensures LinesShorter(StripLeadingNewlines(s), max) && LinesShorter(TrimStart(StripLeadingNewlines(s)), max)
  {
    var k := StripIsSuffix(s);
    SuffixLinesShorter(s, k, max);
    var j := TrimStartIsSuffix(s[k..]);
    SuffixLinesShorter(s[k..], j, max);
  }

  // The line a fence is opened again with is a line of the buffer.
  lemma ReopenIsLine(c: Chunking, buffer: string, force: bool)
    requires HardBreak(c, Spans, buffer, force).InFence?
    ensures var line := HardBreak(c, Spans, buffer, force).split.reopenFenceLine;
            exists i :: 0 <= i <= |buffer| && line == buffer[i..LineEnd(buffer, i)]
  {
    var max := BreakMax(c, force);
    SpansAreFences(buffer);
    var k := FoundIsListed(Spans(buffer), max);
    var s := Spans(buffer)[k];
    assert IsFence(buffer, s) && s.openLine == buffer[s.start..LineEnd(buffer, s.start)];
  }

  lemma LineIsShort(buffer: string, i: nat, max: int)
    requires i <= |buffer| && LinesShorter(buffer, max)
    ensures var line := buffer[i..LineEnd(buffer, i)];
            |line| + 1 < max && ReopenFence(line) == line + "\n" && forall k :: 0 <= k < |line| ==> line[k] != '\n'
  {
    var line := buffer[i..LineEnd(buffer, i)];
    forall k | 0 <= k < |line| ensures line[k] != '\n' {
      assert line[k] == buffer[i + k];
    }
    ReopenedLine(line);
  }

  lemma ReopenedLine(line: string)
    requires forall k :: 0 <= k < |line| ==> line[k] != '\n'
    ensures ReopenFence(line) == line + "\n"
  {
    if line != "" {
      assert line[|line| - 1..][0] == line[|line| - 1];
    }
  }

  lemma ShortReopen(c: Chunking, buffer: string, force: bool, max: int)
    requires LinesShorter(buffer, max) && HardBreak(c, Spans, buffer, force).InFence?
    ensures var line := HardBreak(c, Spans, buffer, force).split.reopenFenceLine;
            |line| + 1 < max && ReopenFence(line) == line + "\n" && forall k :: 0 <= k < |line| ==> line[k] != '\n'
  {
    ReopenIsLine(c, buffer, force);
    var line := HardBreak(c, Spans, buffer, force).split.reopenFenceLine;
    var i :| 0 <= i <= |buffer| && line == buffer[i..LineEnd(buffer, i)];
    LineIsShort(buffer, i, max);
  }

  lemma RestLinesShorter(buffer: string, index: nat, max: int)
    requires index <= |buffer| && LinesShorter(buffer, max)
    ensures var rest := buffer[index..];
            && LinesShorter(rest, max) && LinesShorter(TrimStart(StripLeadingNewlines(rest)), max)
            && LinesShorter(StripLeadingNewlines(if rest != "" && IsSpace(rest[0]) then rest[1..] else rest), max)
  {
    hide LinesShorter;
    var rest := buffer[index..];
    SuffixLinesShorter(buffer, index, max);
    StrippedLinesShorter(rest, max);
    if rest != "" {
      SuffixLinesShorter(rest, 1, max);
      StrippedLinesShorter(rest[1..], max);
    }
  }

  lemma CutKeepsLinesShort(c: Chunking, buffer: string, force: bool, cut: Break, max: int)
    requires FitsBuffer(cut, buffer) && RoundAt(c, buffer, force, cut).More? && LinesShorter(buffer, max)
    requires cut.InFence? ==> LinesShorter(ReopenFence(cut.split.reopenFenceLine) + buffer[cut.index..], max)
    ensures LinesShorter(RoundAt(c, buffer, force, cut).buffer, max)
  {
    hide LinesShorter, StripLeadingNewlines, TrimStart, ReopenFence, CloseFence;
    RestLinesShorter(buffer, cut.index, max);
  }

  // Whatever bound the lines of the buffer keep, those of the next buffer keep it too.
  lemma RoundKeepsLinesShort(c: Chunking, buffer: string, force: bool, max: int)
    requires LinesShorter(buffer, max) && DrainRound(c, Spans, buffer, force).More?
    ensures LinesShorter(DrainRound(c, Spans, buffer, force).buffer, max)
  {
    hide LinesShorter, RoundAt;
    var cut := ChooseBreak(c, Spans, buffer, force);
    if cut.InFence? {
      ShortReopen(c, buffer, force, max);
      SuffixLinesShorter(buffer, cut.index, max);
      LineInFront(cut.split.reopenFenceLine, buffer[cut.index..], max);
    }
    CutKeepsLinesShort(c, buffer, force, cut, max);
  }

  lemma {:induction false} LeftKeepsLinesShort(c: Chunking, buffer: string, force: bool, max: int, n: nat)
    requires LinesShorter(buffer, max)
    ensures LinesShorter(Left(RoundOf(c, Spans, force), buffer, n), max)
    decreases n
  {
    hide LinesShorter, DrainRound, Spans;
    if n > 0 && DrainRound(c, Spans, buffer, force).More? {
      RoundKeepsLinesShort(c, buffer, force, max);
      LeftKeepsLinesShort(c, DrainRound(c, Spans, buffer, force).buffer, force, max, n - 1);
    }
  }

  lemma ShortLinesPutNothingLongBack(c: Chunking, buffer: string, force: bool)
    requires LinesShorter(buffer, BreakMax(c, force))
    ensures !PutsBackLong(c, Spans, buffer, force)
  {
    hide LinesShorter;
    if ChooseBreak(c, Spans, buffer, force).InFence? {
      ShortReopen(c, buffer, force, BreakMax(c, force));
    }
  }

  // When every line of the buffer is shorter than a hard break, a drain ends, fences and all.
  lemma ShortLinesDrain(c: Chunking, buffer: string, force: bool)
    requires LinesShorter(buffer, BreakMax(c, force))
    ensures NeverPutsBackLong(c, Spans, force, buffer)
    ensures Drained(c, Spans, buffer, force, |buffer| + 1).finished
  {
    hide LinesShorter, PutsBackLong, RoundOf, Drained;
    forall n: nat ensures !PutsBackLong(c, Spans, Left(RoundOf(c, Spans, force), buffer, n), force) {
      LeftKeepsLinesShort(c, buffer, force, BreakMax(c, force), n);
      ShortLinesPutNothingLongBack(c, Left(RoundOf(c, Spans, force), buffer, n), force);
    }
    DrainFinishes(c, Spans, buffer, force);
  }

  // ---- a fence line as long as a hard break ----

  // An open fence gives the first span, which ends at the end of the text or of a later line.
  lemma {:induction false} OpenFenceComesFirst(text: string, from: nat, o: Open)
    requires LineStart(text, from) && IsOpen(text, from, o)
    ensures var spans := SpansFrom(text, from, Some(o));
            && spans != [] && spans[0].start == o.start && spans[0].openLine == o.line
            && (spans[0].end == |text| || from + 3 <= spans[0].end)
    decreases |text| - from
  {
    hide LineEnd, LineStart, IsOpen, MatchFence, AfterLine, SpansFrom;
    StartsInside(text, from);
    var end := LineEnd(text, from);
    var (next, closed) := AfterLine(text, from, Some(o));
    SpansAfterLine(text, from, Some(o));
    NextOpen(text, from, Some(o));
    ClosingLine(text, from, o);
    if closed == [] && end < |text| {
      OpenFenceComesFirst(text, end + 1, o);
    }
  }

  // A line that closes a fence holds at least a marker; any other line leaves it open.
  lemma ClosingLine(text: string, from: nat, o: Open)
    requires from <= |text|
    ensures var (next, closed) := AfterLine(text, from, Some(o));
            if closed == [] then next == Some(o) else from + 3 <= LineEnd(text, from)
  {
    var line := text[from..LineEnd(text, from)];
    if MatchFence(line).Some? {
      assert |MatchFence(line).value.marker| >= 3;
    }
  }

  // The text starts with a fence line.
  ghost predicate StartsFenced(text: string, line: string) {
    && MatchFence(line).Some? && (forall k :: 0 <= k < |line| ==> line[k] != '\n')
    && |text| > |line| && text[..|line|] == line && text[|line|] == '\n'
  }

  lemma FirstLineOpens(text: string, line: string)
    requires StartsFenced(text, line)
    ensures var o := Open(0, line, MatchFence(line).value);
            && AfterLine(text, 0, None) == (Some(o), []) && IsOpen(text, |line| + 1, o)
            && LineEnd(text, 0) == |line| && LineStart(text, |line| + 1)
  {
    hide MatchFence;
    forall k | 0 <= k < |line| ensures text[k] != '\n' {
      assert text[k] == text[..|line|][k];
    }
    LineEndOfFirst(text, 0, |line|);
    assert text[0..|line|] == text[..|line|];
  }

  lemma FenceAtStart(text: string, line: string)
    requires StartsFenced(text, line)
    ensures var spans := Spans(text);
            && spans != [] && spans[0].start == 0 && spans[0].openLine == line
            && (spans[0].end == |text| || |line| + 4 <= spans[0].end)
  {
    hide MatchFence, LineEnd, LineStart, IsOpen, AfterLine, SpansFrom;
    var o := Open(0, line, MatchFence(line).value);
    FirstLineOpens(text, line);
    SpansAfterLine(text, 0, None);
    OpenFenceComesFirst(text, |line| + 1, o);
    assert [] + SpansFrom(text, |line| + 1, Some(o)) == SpansFrom(text, |line| + 1, Some(o));
  }

  // Nothing up to the limit is outside the fence, so the limit splits it.
  lemma FencedIsSplit(c: Chunking, text: string, line: string, force: bool)
    requires StartsFenced(text, line) && |line| + 1 >= BreakMax(c, force) && |text| > BreakMax(c, force)
    ensures var cut := HardBreak(c, Spans, text, force);
            cut.InFence? && cut.index == BreakMax(c, force) && cut.split.reopenFenceLine == line
  {
    hide Spans, PreferredBreak, SpaceBreak, Window;
    FenceAtStart(text, line);
    var spans, max := Spans(text), BreakMax(c, force);
    assert forall i :: 0 < i <= max ==> FindFenceSpanAt(spans, i) == Some(spans[0]);
    var cut := HardBreak(c, Spans, text, force);
    assert !cut.NoBreak?;
    assert !IsSafeFenceBreak(spans, max);
    assert cut.At? ==> !IsSafeFenceBreak(spans, cut.index);
  }

  // More than a chunk is left, it starts with the long fence line, and a hard break takes ink.
  ghost predicate Stuck(c: Chunking, force: bool, text: string, line: string) {
    && StartsFenced(text, line) && |line| + 1 >= BreakMax(c, force) && |text| > MaxChars(c)
    && !IsBlank((line + "\n")[..BreakMax(c, force)])
  }

  lemma StuckStaysStuck(c: Chunking, force: bool, text: string, line: string)
    requires Stuck(c, force, text, line)
    ensures DrainRound(c, Spans, text, force).More?
    ensures Stuck(c, force, DrainRound(c, Spans, text, force).buffer, line)
  {
    hide Spans, HardBreak, MatchFence, IsBlank;
    var max := BreakMax(c, force);
    FencedIsSplit(c, text, line, force);
    ReopenedLine(line);
    StuckPrefix(text, line, max);
    var next := line + "\n" + text[max..];
    assert next[..|line|] == line;
  }

  lemma StuckPrefix(text: string, line: string, max: nat)
    requires |text| > |line| && text[..|line|] == line && text[|line|] == '\n' && max <= |line| + 1
    ensures text[..max] == (line + "\n")[..max]
  {
    assert text[..|line| + 1] == text[..|line|] + [text[|line|]];
    assert text[..max] == text[..|line| + 1][..max];
  }

  lemma {:induction false} StuckNeverFinishes(c: Chunking, force: bool, text: string, line: string, n: nat)
    requires Stuck(c, force, text, line)
    ensures !Rounds(RoundOf(c, Spans, force), text, n).finished
    decreases n
  {
    hide Stuck, DrainRound, Spans;
    if n > 0 {
      StuckStaysStuck(c, force, text, line);
      StuckNeverFinishes(c, force, DrainRound(c, Spans, text, force).buffer, line, n - 1);
    }
  }

  // With a fence line of a hard break or more at the front of an overfull buffer, each round
  // puts back at least what it cuts off, and the drain never ends.
  lemma LongFenceLineNeverDrains(c: Chunking, force: bool, text: string, line: string, n: nat)
    requires Stuck(c, force, text, line)
    ensures !Drained(c, Spans, text, force, n).finished
  {
    StuckNeverFinishes(c, force, text, line, n);
  }

  // ---- exactly when a drain ends ----

  // The line that is put back opens a fence, and the buffer goes on after the cut.
  lemma SplitLine(c: Chunking, buffer: string, force: bool)
    requires HardBreak(c, Spans, buffer, force).InFence?
    ensures var line := HardBreak(c, Spans, buffer, force).split.reopenFenceLine;
            && MatchFence(line).Some? && (forall k :: 0 <= k < |line| ==> line[k] != '\n')
            && |buffer| > BreakMax(c, force)
  {
    hide HardBreak, MatchFence, Spans, FindFenceSpanAt;
    SpansAreFences(buffer);
    var k := FoundIsListed(Spans(buffer), BreakMax(c, force));
    var s := Spans(buffer)[k];
    assert IsFence(buffer, s);
    forall k | 0 <= k < |s.openLine| ensures s.openLine[k] != '\n' {
      assert s.openLine[k] == buffer[s.start + k];
    }
  }

  lemma LongRoundGoesOn(c: Chunking, buffer: string, force: bool)
    requires PutsBackLong(c, Spans, buffer, force)
    ensures var round, line := DrainRound(c, Spans, buffer, force), HardBreak(c, Spans, buffer, force).split.reopenFenceLine;
            && round.More? && round.buffer == line + "\n" + buffer[BreakMax(c, force)..]
            && HardBreak(c, Spans, buffer, force).InFence? && |buffer| > MaxChars(c)
            && |round.buffer| > MaxChars(c) && |line| + 1 >= BreakMax(c, force)
            && |round.buffer| + BreakMax(c, force) == |line| + 1 + |buffer|
            && StartsFenced(round.buffer, line)
  {
    hide Spans, HardBreak, SoftBreak, MatchFence, IsBlank, ReopenFence, CloseFence, StartsFenced;
    SplitLine(c, buffer, force);
    var line := HardBreak(c, Spans, buffer, force).split.reopenFenceLine;
    ReopenedLine(line);
    LineInFrontStarts(line, buffer[BreakMax(c, force)..]);
  }

  lemma LineInFrontStarts(line: string, rest: string)
    requires MatchFence(line).Some? && forall k :: 0 <= k < |line| ==> line[k] != '\n'
    ensures StartsFenced(line + "\n" + rest, line)
  {
    hide MatchFence;
    assert (line + "\n" + rest)[..|line|] == line;
  }

  // A fence line without its indent is a fence line.
  lemma Unindented(line: string)
    requires MatchFence(line).Some?
    ensures var n := |MatchFence(line).value.indent|;
            && n <= 3 && n + 3 <= |line| && !IsSpace(line[n]) && MatchFence(line[n..]).Some?
            && forall k :: 0 <= k < n ==> line[k] == ' '
  {
    var n := RunLength(line, ' ', 3);
    var rest := line[n..];
    assert rest[0] == '`' || rest[0] == '~';
    assert RunLength(rest, ' ', 3) == 0 && rest[0..] == rest;
  }

  lemma {:induction false} TrimsSpaces(s: string, n: nat)
    requires n < |s| && !IsSpace(s[n]) && forall k :: 0 <= k < n ==> s[k] == ' '
    ensures TrimStart(s) == s[n..] && StripLeadingNewlines(s) == s
  {
    if n > 0 {
      TrimsSpaces(s[1..], n - 1);
    }
  }

  lemma BlankWithinIndent(line: string, n: nat, max: nat)
    requires n < |line| && !IsSpace(line[n]) && max <= |line| + 1 && IsBlank((line + "\n")[..max])
    ensures max <= n
  {
    var front := (line + "\n")[..max];
    assert forall k :: 0 <= k < max && k < |line| ==> front[k] == line[k];
  }

  // When the front of the long line is blank, the next round drops its indent and no more.
  lemma BlankFrontIsDropped(c: Chunking, force: bool, text: string, line: string)
    requires StartsFenced(text, line) && |line| + 1 >= BreakMax(c, force) && |text| > MaxChars(c)
    requires IsBlank((line + "\n")[..BreakMax(c, force)])
    ensures var round, n := DrainRound(c, Spans, text, force), |MatchFence(line).value.indent|;
            round.More? && round.buffer == text[n..] && BreakMax(c, force) <= n <= 3
  {
    hide Spans, HardBreak, MatchFence;
    var max, n := BreakMax(c, force), |MatchFence(line).value.indent|;
    Unindented(line);
    FencedIsSplit(c, text, line, force);
    StuckPrefix(text, line, max);
    forall k | 0 <= k < |line| ensures text[k] == line[k] {
      assert text[k] == text[..|line|][k];
    }
    BlankWithinIndent(line, n, max);
    TrimsSpaces(text[max..], n - max);
    assert text[max..][n - max..] == text[n..];
  }

  lemma DroppedIsStuck(c: Chunking, force: bool, text: string, line: string)
    requires StartsFenced(text, line) && BreakMax(c, force) <= |MatchFence(line).value.indent| <= 3
    requires |text| > MaxChars(c) + |MatchFence(line).value.indent|
    ensures var n := |MatchFence(line).value.indent|; Stuck(c, force, text[n..], line[n..])
  {
    hide MatchFence;
    Unindented(line);
    var n, max := |MatchFence(line).value.indent|, BreakMax(c, force);
    var rest := line[n..];
    assert text[n..][..|rest|] == text[..|line|][n..];
    assert (rest + "\n")[..max][0] == line[n];
  }

  // One round that puts back at least what it cut off, and the drain never ends.
  lemma LongRoundNeverFinishes(c: Chunking, buffer: string, force: bool, m: nat)
    requires PutsBackLong(c, Spans, buffer, force)
    ensures !Rounds(RoundOf(c, Spans, force), buffer, m).finished
  {
    hide Spans, MatchFence, PutsBackLong, Stuck, StartsFenced, DrainRound, IsBlank;
    LongRoundGoesOn(c, buffer, force);
    SplitLine(c, buffer, force);
    var round, line, max := RoundOf(c, Spans, force), HardBreak(c, Spans, buffer, force).split.reopenFenceLine, BreakMax(c, force);
    var next := round(buffer).buffer;
    if m > 0 {
      if IsBlank((line + "\n")[..max]) {
        BlankFrontIsDropped(c, force, next, line);
        Unindented(line);
        DroppedIsStuck(c, force, next, line);
        var n := |MatchFence(line).value.indent|;
        if m > 1 {
          StuckNeverFinishes(c, force, next[n..], line[n..], m - 2);
        }
      } else {
        LongFrontIsStuck(c, force, next, line);
        StuckNeverFinishes(c, force, next, line, m - 1);
      }
    }
  }

  lemma LongFrontIsStuck(c: Chunking, force: bool, text: string, line: string)
    requires StartsFenced(text, line) && |line| + 1 >= BreakMax(c, force) && |text| > MaxChars(c)
    requires !IsBlank((line + "\n")[..BreakMax(c, force)])
    ensures Stuck(c, force, text, line)
  {
  }

  // A drain ends exactly when none of its rounds splits a fence and puts back at least what it
  // cut off; when it ends, it does so within one round for each character.
  lemma DrainEndsIff(c: Chunking, buffer: string, force: bool)
    ensures NeverPutsBackLong(c, Spans, force, buffer) <==> exists n: nat :: Drained(c, Spans, buffer, force, n).finished
    ensures NeverPutsBackLong(c, Spans, force, buffer) ==> Drained(c, Spans, buffer, force, |buffer| + 1).finished
  {
    hide Spans, PutsBackLong, Rounds, RoundOf;
    if NeverPutsBackLong(c, Spans, force, buffer) {
      DrainFinishes(c, Spans, buffer, force);
    } else {
      var k: nat :| PutsBackLong(c, Spans, Left(RoundOf(c, Spans, force), buffer, k), force);
      NoEarlyExit(c, buffer, force, k);
      forall n: nat ensures !Drained(c, Spans, buffer, force, n).finished {
        if Rounds(RoundOf(c, Spans, force), buffer, n).finished {
          FinishesFromLeft(RoundOf(c, Spans, force), buffer, k, n);
        }
        LongRoundNeverFinishes(c, Left(RoundOf(c, Spans, force), buffer, k), force, n);
      }
    }
  }

  // The early exits of drain come before any round that could split a fence.
  lemma {:induction false} NoEarlyExit(c: Chunking, buffer: string, force: bool, k: nat)
    requires PutsBackLong(c, Spans, Left(RoundOf(c, Spans, force), buffer, k), force)
    ensures |buffer| >= MinChars(c) && (force ==> |buffer| > MaxChars(c))
    decreases k
  {
    hide DrainRound, PutsBackLong, Spans;
    if k > 0 && DrainRound(c, Spans, buffer, force).More? {
      NoEarlyExit(c, DrainRound(c, Spans, buffer, force).buffer, force, k - 1);
      RoundIsNoEarlyExit(c, buffer, force);
    } else {
      LongRoundGoesOn(c, buffer, force);
    }
  }

  // A round that goes on to a long buffer was no early exit.
  lemma RoundIsNoEarlyExit(c: Chunking, buffer: string, force: bool)
    requires DrainRound(c, Spans, buffer, force).More?
    requires force ==> |DrainRound(c, Spans, buffer, force).buffer| > MaxChars(c)
    ensures |buffer| >= MinChars(c) && (force ==> |buffer| > MaxChars(c))
  {
    hide ChooseBreak, RoundAt;
    if force && |buffer| <= MaxChars(c) {
      SoftRoundShortens(c, buffer, force);
    }
  }

  lemma SoftRoundShortens(c: Chunking, buffer: string, force: bool)
    requires force && |buffer| <= MaxChars(c) && DrainRound(c, Spans, buffer, force).More?
    ensures |DrainRound(c, Spans, buffer, force).buffer| <= |buffer|
  {
    hide Spans, SoftBreak;
    RoundAtShortens(c, buffer, force, ChooseBreak(c, Spans, buffer, force));
  }

  // A fence line of four characters, with hard breaks at four.
  lemma LongFenceLineExample(n: nat)
    ensures Stuck(Chunking(1.0, 4.0, Newline), false, "```a\nbc", "```a")
    ensures !Drained(Chunking(1.0, 4.0, Newline), Spans, "```a\nbc", false, n).finished
  {
    hide MatchFence, Drained;
    var line := "```a";
    InfoLineIsFence();
    assert "```a\nbc"[..4] == line && (line + "\n")[..4][0] == '`';
    LongFenceLineNeverDrains(Chunking(1.0, 4.0, Newline), false, "```a\nbc", line, n);
  }

  lemma InfoLineIsFence()
    ensures MatchFence("```a").Some?
  {
    var line := "```a";
    RunLengthIs(line, ' ', 3, 0);
    assert line[0..] == line;
    RunLengthIs(line, '`', 4, 3);
  }
}
