/** The fenced blocks of a text, told from its characters: which lines open and close them. */
module FenceLaws {
  import opened Wrappers
  import opened BlockChunker
  import opened Fences

  // ---- one line ----

  predicate AllAre(s: string, c: char) {
    forall k :: 0 <= k < |s| ==> s[k] == c
  }

  // The two marks, a backtick and a tilde, by their codes, and the characters that end a line.
  predicate IsMark(c: char) {
    c as int == 96 || c as int == 126
  }

  predicate OnOneLine(s: string) {
    forall k :: 0 <= k < |s| ==> s[k] as int != 10 && s[k] as int != 13 && s[k] as int != 8232 && s[k] as int != 8233
  }

  // At most three spaces, three or more of one mark, and anything on the same line that does not go
  // on with that mark.
  predicate FenceParts(line: string, indent: string, marker: string, info: string) {
    && line == indent + (marker + info) && |indent| <= 3 && AllAre(indent, ' ')
    && |marker| >= 3 && IsMark(marker[0]) && AllAre(marker, marker[0])
    && (info != "" ==> info[0] != marker[0]) && OnOneLine(info)
  }

  ghost predicate IsFenceLine(line: string, indent: string, marker: string) {
    exists info :: FenceParts(line, indent, marker, info)
  }

  lemma RunThen(run: string, c: char, rest: string, max: nat)
    requires |run| <= max && AllAre(run, c) && (|run| == max || rest == "" || rest[0] != c)
    ensures RunLength(run + rest, c, max) == |run| && (run + rest)[|run|..] == rest && (run + rest)[..|run|] == run
  {
    RunLengthIs(run + rest, c, max, |run|);
  }

  lemma {:induction false} RunEnds(s: string, c: char, max: nat)
    ensures var n := RunLength(s, c, max); n < max && n < |s| ==> s[n] != c
  {
    if max > 0 && s != "" && s[0] == c {
      RunEnds(s[1..], c, max - 1);
    }
  }

  lemma RunParts(s: string, c: char, max: nat) returns (run: string, rest: string)
    ensures s == run + rest && |run| == RunLength(s, c, max) <= max && AllAre(run, c)
    ensures run == s[..|run|] && rest == s[|run|..] && (|run| < max && rest != "" ==> rest[0] != c)
  {
    RunEnds(s, c, max);
    run, rest := s[..RunLength(s, c, max)], s[RunLength(s, c, max)..];
  }

  lemma EndsLineIff(info: string)
    ensures OnOneLine(info) <==> forall i :: 0 <= i < |info| ==> !EndsLine(info[i])
  {
  }

  lemma EndsLineAfter(rest: string, marker: string, info: string)
    requires rest == marker + info
    ensures (exists i :: |marker| <= i < |rest| && EndsLine(rest[i])) <==> exists i :: 0 <= i < |info| && EndsLine(info[i])
  {
    if j :| 0 <= j < |info| && EndsLine(info[j]) {
      assert rest[|marker| + j] == info[j];
    }
    if j :| |marker| <= j < |rest| && EndsLine(rest[j]) {
      assert info[j - |marker|] == rest[j];
    }
  }

  lemma MatchedIsFence(line: string)
    requires MatchFence(line).Some?
    ensures IsFenceLine(line, MatchFence(line).value.indent, MatchFence(line).value.marker)
  {
    hide RunLength;
    var indent, rest := RunParts(line, ' ', 3);
    var marker, info := RunParts(rest, rest[0], |rest|);
    EndsLineIff(info);
    EndsLineAfter(rest, marker, info);
    hide EndsLine, OnOneLine, AllAre;
    assert FenceParts(line, indent, marker, info);
  }

  lemma PartsAreMatched(line: string, indent: string, marker: string, info: string)
    requires FenceParts(line, indent, marker, info)
    ensures MatchFence(line) == Some(FenceLine(indent, marker))
  {
    var rest := marker + info;
    RunThen(indent, ' ', rest, 3);
    RunThen(marker, marker[0], info, |rest|);
    EndsLineIff(info);
    EndsLineAfter(rest, marker, info);
    hide RunLength, EndsLine, OnOneLine, AllAre;
  }

  lemma FenceIsMatched(line: string, indent: string, marker: string)
    requires IsFenceLine(line, indent, marker)
    ensures MatchFence(line) == Some(FenceLine(indent, marker))
  {
    hide FenceParts;
    var info :| FenceParts(line, indent, marker, info);
    PartsAreMatched(line, indent, marker, info);
  }

  // The pattern of the scan matches exactly such lines.
  lemma MatchFenceIff(line: string, indent: string, marker: string)
    ensures MatchFence(line) == Some(FenceLine(indent, marker)) <==> IsFenceLine(line, indent, marker)
  {
    if MatchFence(line) == Some(FenceLine(indent, marker)) {
      MatchedIsFence(line);
    }
    if IsFenceLine(line, indent, marker) {
      FenceIsMatched(line, indent, marker);
    }
  }

  // ---- the lines of a text ----

  // A line starts at i, ends before end, and is a fence line.
  ghost predicate FenceAt(text: string, i: int, end: int, indent: string, marker: string) {
    && 0 <= i <= end <= |text| && (i > 0 ==> text[i - 1] == '\n') && (end < |text| ==> text[end] == '\n')
    && '\n' !in text[i..end] && IsFenceLine(text[i..end], indent, marker)
  }

  // It closes a fence with this marker: the same mark, at least as often.
  ghost predicate ClosesAt(text: string, i: int, end: int, marker: string) {
    exists indent, other :: FenceAt(text, i, end, indent, other) && |other| >= |marker| > 0 && other[0] == marker[0]
  }

  ghost predicate NoFence(text: string, low: int, high: int) {
    forall i, end, indent, marker :: low <= i < high ==> !FenceAt(text, i, end, indent, marker)
  }

  ghost predicate NoneCloses(text: string, low: int, high: int, marker: string) {
    forall i, end :: low <= i < high ==> !ClosesAt(text, i, end, marker)
  }

  // From `low` on: the first fence line opens a block, the first line after it that closes it ends
  // it, and so on after that line; without such a line the block goes to the end of the text.
  ghost predicate AreBlocks(text: string, low: int, spans: seq<FenceSpan>)
    decreases |spans|, 1
  {
    if spans == [] then NoFence(text, low, |text| + 1)
    else
      var s := spans[0];
      && low <= s.start && NoFence(text, low, s.start) && s.start + |s.openLine| <= |text|
      && s.openLine == text[s.start..s.start + |s.openLine|]
      && FenceAt(text, s.start, s.start + |s.openLine|, s.indent, s.marker)
      && BlockEnds(text, s.start + |s.openLine| + 1, s.marker, s.end, spans[1..])
  }

  ghost predicate BlockEnds(text: string, low: int, marker: string, end: int, later: seq<FenceSpan>)
    decreases |later|, 2
  {
    || (NoneCloses(text, low, |text| + 1, marker) && end == |text| && later == [])
    || exists i :: low <= i && NoneCloses(text, low, i, marker) && ClosesAt(text, i, end, marker) && AreBlocks(text, end + 1, later)
  }

  // ---- the scan ----

  lemma FenceAtIff(text: string, i: int, end: int, indent: string, marker: string)
    requires LineStart(text, i)
    ensures FenceAt(text, i, end, indent, marker)
       <==> end == LineEnd(text, i) && MatchFence(text[i..LineEnd(text, i)]) == Some(FenceLine(indent, marker))
  {
    hide IsFenceLine, MatchFence;
    var stop := LineEnd(text, i);
    MatchFenceIff(text[i..stop], indent, marker);
    if FenceAt(text, i, end, indent, marker) {
      assert end == stop;
    }
  }

  lemma OnlyLine(text: string, from: nat, i: int, end: int, indent: string, marker: string)
    requires LineStart(text, from) && from < i <= LineEnd(text, from)
    ensures !FenceAt(text, i, end, indent, marker)
  {
  }

  lemma NoFenceHere(text: string, from: nat)
    requires LineStart(text, from) && MatchFence(text[from..LineEnd(text, from)]).None?
    ensures NoFence(text, from, LineEnd(text, from) + 1)
  {
    hide IsFenceLine, MatchFence, FenceAt;
    forall i, end, indent, marker | from <= i < LineEnd(text, from) + 1 ensures !FenceAt(text, i, end, indent, marker) {
      if i == from {
        FenceAtIff(text, from, end, indent, marker);
      } else {
        OnlyLine(text, from, i, end, indent, marker);
      }
    }
  }

  lemma NoneClosesHere(text: string, from: nat, o: Open)
    requires LineStart(text, from)
    requires var f := MatchFence(text[from..LineEnd(text, from)]); f.None? || !Fences.Closes(o, f.value)
    ensures NoneCloses(text, from, LineEnd(text, from) + 1, o.fence.marker)
  {
    hide IsFenceLine, MatchFence, FenceAt;
    forall i, end | from <= i < LineEnd(text, from) + 1 ensures !ClosesAt(text, i, end, o.fence.marker) {
      if ClosesAt(text, i, end, o.fence.marker) {
        var indent, other :| FenceAt(text, i, end, indent, other) && |other| >= |o.fence.marker| > 0 && other[0] == o.fence.marker[0];
        if i == from {
          FenceAtIff(text, from, end, indent, other);
          ClosesHere(o, FenceLine(indent, other));
        } else {
          OnlyLine(text, from, i, end, indent, other);
        }
      }
    }
  }

  lemma ClosesHere(o: Open, f: FenceLine)
    ensures Fences.Closes(o, f) <==> |f.marker| >= |o.fence.marker| > 0 && f.marker[0] == o.fence.marker[0]
  {
  }

  lemma PastTheText(text: string, marker: string)
    ensures NoFence(text, |text| + 1, |text| + 1) && NoneCloses(text, |text| + 1, |text| + 1, marker)
    ensures AreBlocks(text, |text| + 1, []) && BlockEnds(text, |text| + 1, marker, |text|, [])
  {
  }

  // A line that is no fence, or closes nothing, is passed over.
  lemma NoFenceJoins(text: string, low: int, middle: int, high: int)
    requires NoFence(text, low, middle) && NoFence(text, middle, high)
    ensures NoFence(text, low, high)
  {
    hide FenceAt;
  }

  lemma NoneClosesJoins(text: string, low: int, middle: int, high: int, marker: string)
    requires NoneCloses(text, low, middle, marker) && NoneCloses(text, middle, high, marker)
    ensures NoneCloses(text, low, high, marker)
  {
    hide ClosesAt;
  }

  lemma BlocksAfter(text: string, low: int, middle: int, spans: seq<FenceSpan>)
    requires low <= middle && NoFence(text, low, middle) && AreBlocks(text, middle, spans)
    ensures AreBlocks(text, low, spans)
  {
    hide NoFence, FenceAt, BlockEnds;
    if spans == [] {
      NoFenceJoins(text, low, middle, |text| + 1);
    } else {
      NoFenceJoins(text, low, middle, spans[0].start);
    }
  }

  lemma EndsAfter(text: string, low: int, middle: int, marker: string, end: int, later: seq<FenceSpan>)
    requires low <= middle && NoneCloses(text, low, middle, marker) && BlockEnds(text, middle, marker, end, later)
    ensures BlockEnds(text, low, marker, end, later)
  {
    hide NoneCloses, ClosesAt, AreBlocks;
    if NoneCloses(text, middle, |text| + 1, marker) && end == |text| && later == [] {
      NoneClosesJoins(text, low, middle, |text| + 1, marker);
    } else {
      var i :| middle <= i && NoneCloses(text, middle, i, marker) && ClosesAt(text, i, end, marker) && AreBlocks(text, end + 1, later);
      NoneClosesJoins(text, low, middle, i, marker);
    }
  }

  // What is found from a line on, with the fence that is open there.
  ghost predicate GoesOn(text: string, from: int, open: Option<Open>, spans: seq<FenceSpan>) {
    match open
    case None => AreBlocks(text, from, spans)
    case Some(o) =>
      && spans != [] && spans[0].start == o.start && spans[0].openLine == o.line
      && spans[0].marker == o.fence.marker && spans[0].indent == o.fence.indent
      && BlockEnds(text, from, o.fence.marker, spans[0].end, spans[1..])
  }

  lemma Opens(text: string, from: nat, fence: FenceLine, spans: seq<FenceSpan>)
    requires LineStart(text, from) && MatchFence(text[from..LineEnd(text, from)]) == Some(fence)
    requires GoesOn(text, LineEnd(text, from) + 1, Some(Open(from, text[from..LineEnd(text, from)], fence)), spans)
    ensures AreBlocks(text, from, spans)
  {
    hide BlockEnds, FenceAt, MatchFence;
    FenceAtIff(text, from, LineEnd(text, from), fence.indent, fence.marker);
    assert NoFence(text, from, from);
  }

  lemma Ends(text: string, from: nat, o: Open, fence: FenceLine, later: seq<FenceSpan>)
    requires LineStart(text, from) && MatchFence(text[from..LineEnd(text, from)]) == Some(fence) && Fences.Closes(o, fence)
    requires AreBlocks(text, LineEnd(text, from) + 1, later)
    ensures GoesOn(text, from, Some(o), [SpanOf(o, LineEnd(text, from))] + later)
  {
    hide AreBlocks, FenceAt, MatchFence;
    var end := LineEnd(text, from);
    FenceAtIff(text, from, end, fence.indent, fence.marker);
    ClosesHere(o, fence);
    assert ClosesAt(text, from, end, o.fence.marker);
    assert NoneCloses(text, from, from, o.fence.marker);
    assert ([SpanOf(o, end)] + later)[1..] == later;
  }

  lemma Unended(text: string, open: Option<Open>)
    ensures GoesOn(text, |text| + 1, open, Unclosed(text, open))
  {
    if open.Some? {
      PastTheText(text, open.value.fence.marker);
    } else {
      PastTheText(text, "");
    }
  }

  lemma OneLine(text: string, from: nat, open: Option<Open>, later: seq<FenceSpan>)
    requires LineStart(text, from)
    requires GoesOn(text, LineEnd(text, from) + 1, AfterLine(text, from, open).0, later)
    ensures GoesOn(text, from, open, AfterLine(text, from, open).1 + later)
  {
    hide AreBlocks, BlockEnds, MatchFence, Fences.Closes, NoFence, NoneCloses;
    var end := LineEnd(text, from);
    var line := MatchFence(text[from..end]);
    var (next, closed) := AfterLine(text, from, open);
    assert closed == [] ==> closed + later == later;
    if open.None? {
      if line.None? {
        NoFenceHere(text, from);
        BlocksAfter(text, from, end + 1, later);
      } else {
        Opens(text, from, line.value, later);
      }
    } else if line.None? || !Fences.Closes(open.value, line.value) {
      NoneClosesHere(text, from, open.value);
      EndsAfter(text, from, end + 1, open.value.fence.marker, later[0].end, later[1..]);
    } else {
      Ends(text, from, open.value, line.value, later);
    }
  }

  lemma {:induction false} ScanFindsBlocks(text: string, from: nat, open: Option<Open>)
    requires LineStart(text, from)
    ensures GoesOn(text, from, open, SpansFrom(text, from, open))
    decreases |text| - from
  {
    hide *;
    StartsInside(text, from);
    var end := LineEnd(text, from);
    var next := AfterLine(text, from, open).0;
    if end < |text| {
      ScanFindsBlocks(text, end + 1, next);
      OneLine(text, from, open, SpansFrom(text, end + 1, next));
    } else {
      Unended(text, next);
      OneLine(text, from, open, Unclosed(text, next));
    }
    SpansAfterLine(text, from, open);
  }

  // The spans of a text are its fenced blocks, told line by line from its characters.
  lemma SpansAreBlocks(text: string)
    ensures AreBlocks(text, 0, Spans(text))
  {
    hide AreBlocks, SpansFrom;
    ScanFindsBlocks(text, 0, None);
  }
}
