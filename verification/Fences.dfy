/** The fenced blocks of a Markdown text, as the chunker's own parser finds them. */
module Fences {
  import opened Wrappers
  import opened BlockChunker

  // A line that opens or closes a fence: the white space before its marker, and the marker.
  datatype FenceLine = FenceLine(indent: string, marker: string)

  // The fence being read: where its first line starts, and that line.
  datatype Open = Open(start: nat, line: string, fence: FenceLine)

  // The length of the run of c at the start of s, counted up to max.
  function RunLength(s: string, c: char, max: nat): (n: nat)
    ensures n <= |s| && n <= max
    ensures forall i :: 0 <= i < n ==> s[i] == c
  {
    if max == 0 || s == "" || s[0] != c then 0 else 1 + RunLength(s[1..], c, max - 1)
  }

  lemma {:induction false} RunLengthIs(s: string, c: char, max: nat, n: nat)
    requires n <= |s| && n <= max && (n == max || n == |s| || s[n] != c) && forall k :: 0 <= k < n ==> s[k] == c
    ensures RunLength(s, c, max) == n
    decreases n
  {
    if n > 0 {
      RunLengthIs(s[1..], c, max - 1, n - 1);
    }
  }

  // The dot of a regular expression does not match these.
  predicate EndsLine(c: char) {
    c == '\n' || c == '\r' || c == '\U{2028}' || c == '\U{2029}'
  }

  function MatchFence(line: string): Option<FenceLine> {
    var n := RunLength(line, ' ', 3);
    var rest := line[n..];
    if rest == "" || (rest[0] != '`' && rest[0] != '~') then None
    else
      var m := RunLength(rest, rest[0], |rest|);
      if m < 3 || exists i :: m <= i < |rest| && EndsLine(rest[i]) then None
      else Some(FenceLine(line[..n], rest[..m]))
  }

  // A carriage return at the end of a line hides its fence.
  lemma CarriageReturnHidesFence(line: string)
    ensures MatchFence(line + "\r").None?
  {
    var s := line + "\r";
    assert s[|line|] == '\r';
    var n := RunLength(s, ' ', 3);
    var rest := s[n..];
    assert n <= |line| && rest[|line| - n] == '\r';
    if rest[0] == '`' || rest[0] == '~' {
      var m := RunLength(rest, rest[0], |rest|);
      assert m <= |line| - n;
      assert EndsLine(rest[|line| - n]);
    }
  }

  predicate Closes(open: Open, fence: FenceLine) {
    fence.marker != "" && open.fence.marker != "" && fence.marker[0] == open.fence.marker[0]
    && |fence.marker| >= |open.fence.marker|
  }

  function LineEnd(text: string, from: nat): (end: nat)
    requires from <= |text|
    ensures from <= end <= |text| && (end < |text| ==> text[end] == '\n')
    ensures forall i :: from <= i < end ==> text[i] != '\n'
    decreases |text| - from
  {
    if from == |text| || text[from] == '\n' then from else LineEnd(text, from + 1)
  }

  function SpanOf(open: Open, end: nat): FenceSpan {
    FenceSpan(open.start, end, open.line, open.fence.marker, open.fence.indent)
  }

  // What a line does to the fence being read, and the span it closes, if it closes one.
  function AfterLine(text: string, from: nat, open: Option<Open>): (Option<Open>, seq<FenceSpan>)
    requires from <= |text|
  {
    var end := LineEnd(text, from);
    match MatchFence(text[from..end])
    case None => (open, [])
    case Some(fence) =>
      if open.None? then (Some(Open(from, text[from..end], fence)), [])
      else if Closes(open.value, fence) then (None, [SpanOf(open.value, end)])
      else (open, [])
  }

  // A fence that is still open at the end reaches to the end.
  function Unclosed(text: string, open: Option<Open>): seq<FenceSpan> {
    if open.Some? then [SpanOf(open.value, |text|)] else []
  }

  // The spans from a line start on.
  function SpansFrom(text: string, from: nat, open: Option<Open>): seq<FenceSpan>
    requires from <= |text|
    decreases |text| - from
  {
    var end := LineEnd(text, from);
    var (next, closed) := AfterLine(text, from, open);
    closed + if end < |text| then SpansFrom(text, end + 1, next) else Unclosed(text, next)
  }

  function Spans(text: string): seq<FenceSpan> {
    SpansFrom(text, 0, None)
  }

  method ParseFenceSpans(buffer: string) returns (spans: seq<FenceSpan>)
    ensures spans == Spans(buffer)
  {
    hide SpansFrom, LineEnd, MatchFence, Closes;
    spans := [];
    var open, offset := None, 0;
    assert [] + SpansFrom(buffer, 0, None) == SpansFrom(buffer, 0, None);
    while true
      invariant offset <= |buffer|
      invariant spans + SpansFrom(buffer, offset, open) == Spans(buffer)
      decreases |buffer| - offset
    {
      var lineEnd := LineEnd(buffer, offset);
      var line := buffer[offset..lineEnd];
      ghost var before := open;
      var closed := [];
      var fence := MatchFence(line);
      if fence.Some? {
        if open.None? {
          open := Some(Open(offset, line, fence.value));
        } else if Closes(open.value, fence.value) {
          closed := [SpanOf(open.value, lineEnd)];
          open := None;
        }
      }
      LineRead(buffer, offset, before, open, closed, spans);
      spans := spans + closed;
      if lineEnd == |buffer| {
        break;
      }
      offset := lineEnd + 1;
    }
    if open.Some? {
      spans := spans + [SpanOf(open.value, |buffer|)];
    } else {
      assert spans + [] == spans;
    }
  }

  lemma LineRead(text: string, from: nat, open: Option<Open>, next: Option<Open>, closed: seq<FenceSpan>, spans: seq<FenceSpan>)
    requires from <= |text| && (next, closed) == AfterLine(text, from, open)
    ensures var end := LineEnd(text, from);
            var later := if end < |text| then SpansFrom(text, end + 1, next) else Unclosed(text, next);
            spans + SpansFrom(text, from, open) == spans + closed + later
  {
    hide AfterLine, LineEnd;
    var end := LineEnd(text, from);
    Regroup(spans, closed, if end < |text| then SpansFrom(text, end + 1, next) else Unclosed(text, next));
  }

  // ---- what the spans are ----

  // A line starts at this place.
  predicate LineStart(text: string, i: int) {
    0 <= i <= |text| && (i == 0 || text[i - 1] == '\n')
  }

  // A span starts with a fence line of the text and reaches to the end of a line.
  ghost predicate IsFence(text: string, s: FenceSpan) {
    && LineStart(text, s.start) && LineEnd(text, s.start) <= s.end <= |text|
    && s.openLine == text[s.start..LineEnd(text, s.start)]
    && MatchFence(s.openLine) == Some(FenceLine(s.indent, s.marker))
    && (s.end < |text| ==> text[s.end] == '\n')
  }

  ghost predicate IsOpen(text: string, from: nat, o: Open) {
    && LineStart(text, o.start) && LineEnd(text, o.start) < from
    && o.line == text[o.start..LineEnd(text, o.start)]
    && MatchFence(o.line) == Some(o.fence)
  }

  // Every span is a fence, they come in order, and none starts before `low`.
  ghost predicate AreFences(text: string, spans: seq<FenceSpan>, low: nat) {
    (forall s <- spans :: IsFence(text, s) && s.start >= low) && InOrder(spans)
  }

  predicate InOrder(spans: seq<FenceSpan>) {
    forall j, k :: 0 <= j < k < |spans| ==> spans[j].end < spans[k].start
  }

  lemma ClosedIsFence(text: string, from: nat, o: Open, end: nat)
    requires IsOpen(text, from, o) && from <= end + 1 && end <= |text| && (end < |text| ==> text[end] == '\n')
    ensures IsFence(text, SpanOf(o, end))
  {
  }

  lemma EndsAfterStart(text: string, s: FenceSpan)
    requires IsFence(text, s)
    ensures s.start <= s.end
  {
  }

  lemma InOrderBefore(s: FenceSpan, later: seq<FenceSpan>)
    requires InOrder(later) && forall t <- later :: s.end < t.start
    ensures InOrder([s] + later)
  {
    var all := [s] + later;
    forall j, k | 0 <= j < k < |all| ensures all[j].end < all[k].start {
      assert all[k] == later[k - 1] && later[k - 1] in later;
      if j > 0 {
        assert all[j] == later[j - 1];
      }
    }
  }

  lemma FencesBefore(text: string, s: FenceSpan, later: seq<FenceSpan>, low: nat)
    requires IsFence(text, s) && s.start >= low && AreFences(text, later, s.end + 1)
    ensures AreFences(text, [s] + later, low)
  {
    EndsAfterStart(text, s);
    hide IsFence, InOrder;
    InOrderBefore(s, later);
  }

  lemma FencesFrom(text: string, spans: seq<FenceSpan>, low: nat, lower: nat)
    requires AreFences(text, spans, low) && lower <= low
    ensures AreFences(text, spans, lower)
  {
  }

  // Where the spans from a line on may start: at the open fence, or from that line on.
  ghost function Low(from: nat, open: Option<Open>): nat {
    if open.Some? then open.value.start else from
  }

  lemma StartsInside(text: string, from: nat)
    requires LineStart(text, from)
    ensures from <= |text|
    ensures LineEnd(text, from) < |text| ==> LineStart(text, LineEnd(text, from) + 1)
  {
  }

  lemma NextOpen(text: string, from: nat, open: Option<Open>)
    requires LineStart(text, from) && (open.Some? ==> IsOpen(text, from, open.value))
    ensures var (next, closed) := AfterLine(text, from, open);
            var end := LineEnd(text, from);
            && (next.Some? ==> IsOpen(text, end + 1, next.value))
            && (closed == [] ==> Low(end + 1, next) >= Low(from, open))
            && (closed != [] ==> next.None? && open.Some? && closed == [SpanOf(open.value, end)])
  {
    hide MatchFence, Closes;
  }

  lemma {:induction false} SpansFromAreFences(text: string, from: nat, open: Option<Open>)
    requires LineStart(text, from) && (open.Some? ==> IsOpen(text, from, open.value))
    ensures AreFences(text, SpansFrom(text, from, open), Low(from, open))
    decreases |text| - from
  {
    hide *;
    StartsInside(text, from);
    var end := LineEnd(text, from);
    var (next, closed) := AfterLine(text, from, open);
    NextOpen(text, from, open);
    if end < |text| {
      SpansFromAreFences(text, end + 1, next);
    } else {
      UnclosedIsFence(text, next);
    }
    AfterOneLine(text, from, open);
  }

  lemma UnclosedIsFence(text: string, open: Option<Open>)
    requires open.Some? ==> IsOpen(text, |text| + 1, open.value)
    ensures AreFences(text, Unclosed(text, open), Low(|text| + 1, open))
  {
    hide MatchFence, LineEnd;
    if open.Some? {
      ClosedIsFence(text, |text| + 1, open.value, |text|);
    }
  }

  lemma AfterOneLine(text: string, from: nat, open: Option<Open>)
    requires LineStart(text, from) && (open.Some? ==> IsOpen(text, from, open.value))
    requires var end, next := LineEnd(text, from), AfterLine(text, from, open).0;
             AreFences(text, if end < |text| then SpansFrom(text, end + 1, next) else Unclosed(text, next), Low(end + 1, next))
    ensures AreFences(text, SpansFrom(text, from, open), Low(from, open))
  {
    hide AreFences, IsFence, IsOpen, LineEnd, SpansFrom, AfterLine, MatchFence, SpanOf, LineStart;
    var end := LineEnd(text, from);
    var (next, closed) := AfterLine(text, from, open);
    var later := if end < |text| then SpansFrom(text, end + 1, next) else Unclosed(text, next);
    SpansAfterLine(text, from, open);
    NextOpen(text, from, open);
    if closed == [] {
      assert closed + later == later;
      FencesFrom(text, later, Low(end + 1, next), Low(from, open));
    } else {
      ClosedComesFirst(text, from, open.value, later);
    }
  }

  lemma SpansAfterLine(text: string, from: nat, open: Option<Open>)
    requires from <= |text|
    ensures var end := LineEnd(text, from);
            var (next, closed) := AfterLine(text, from, open);
            var later := if end < |text| then SpansFrom(text, end + 1, next) else Unclosed(text, next);
            SpansFrom(text, from, open) == closed + later
  {
    hide AfterLine, LineEnd;
  }

  lemma ClosedComesFirst(text: string, from: nat, o: Open, later: seq<FenceSpan>)
    requires from <= |text| && IsOpen(text, from, o) && AreFences(text, later, LineEnd(text, from) + 1)
    ensures AreFences(text, [SpanOf(o, LineEnd(text, from))] + later, o.start)
  {
    hide MatchFence;
    ClosedIsFence(text, from, o, LineEnd(text, from));
    FencesBefore(text, SpanOf(o, LineEnd(text, from)), later, o.start);
  }

  // Every span of a text starts with one of its lines, a fence line, and ends at a line end;
  // the spans come in order and apart.
  lemma SpansAreFences(text: string)
    ensures AreFences(text, Spans(text), 0)
  {
    SpansFromAreFences(text, 0, None);
  }
}
