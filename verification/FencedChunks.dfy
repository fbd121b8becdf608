/** Whether the chunks cut out of a text with fences have every fence closed. */
module FencedChunks {
  import opened Wrappers
  import opened Text
  import opened BlockChunker
  import opened BlockChunkerDrain
  import opened Fences
  import opened FencedDrain

  // The fence that is open after the last line.
  function OpenFrom(text: string, from: nat, open: Option<Open>): Option<Open>
    requires from <= |text|
    decreases |text| - from
  {
    var end, next := LineEnd(text, from), AfterLine(text, from, open).0;
    if end < |text| then OpenFrom(text, end + 1, next) else next
  }

  function OpenOf(s: FenceSpan): Open {
    Open(s.start, s.openLine, FenceLine(s.indent, s.marker))
  }

  // The span ends with a line, after its first, that closes its fence.
  ghost predicate IsClosed(text: string, s: FenceSpan) {
    s.end <= |text| && exists j :: s.start < j && LineCloses(text, j, s)
  }

  ghost predicate LineCloses(text: string, j: nat, s: FenceSpan)
    requires s.end <= |text|
  {
    && LineStart(text, j) && LineEnd(text, j) == s.end
    && MatchFence(text[j..s.end]).Some? && Closes(OpenOf(s), MatchFence(text[j..s.end]).value)
  }

  // Every fence of the text is closed.
  ghost predicate AllClosed(text: string) {
    forall s <- Spans(text) :: IsClosed(text, s)
  }

  lemma ClosedHere(text: string, from: nat, open: Option<Open>)
    requires LineStart(text, from) && (open.Some? ==> IsOpen(text, from, open.value))
    ensures forall s <- AfterLine(text, from, open).1 :: IsClosed(text, s)
  {
    hide MatchFence, Closes, LineEnd, LineStart;
    StartsInside(text, from);
    var (next, here) := AfterLine(text, from, open);
    if here != [] {
      assert LineCloses(text, from, here[0]);
    }
  }

  lemma LastLineStart(text: string, from: nat, j: nat)
    requires LineStart(text, from) && LineEnd(text, from) == |text| && LineStart(text, j) && LineEnd(text, j) == |text|
    ensures j == from
  {
  }

  lemma LeftOpenIsNotClosed(text: string, from: nat, open: Option<Open>)
    requires LineStart(text, from) && LineEnd(text, from) == |text| && AfterLine(text, from, open).0.Some?
    ensures !IsClosed(text, SpanOf(AfterLine(text, from, open).0.value, |text|))
  {
    hide MatchFence, Closes, LineEnd, LineStart;
    var o := AfterLine(text, from, open).0.value;
    var s := SpanOf(o, |text|);
    assert OpenOf(s) == o;
    if IsClosed(text, s) {
      var j :| s.start < j && LineCloses(text, j, s);
      LastLineStart(text, from, j);
    }
  }

  lemma {:induction false} ClosedFromIff(text: string, from: nat, open: Option<Open>)
    requires LineStart(text, from) && (open.Some? ==> IsOpen(text, from, open.value))
    ensures OpenFrom(text, from, open).None? <==> forall s <- SpansFrom(text, from, open) :: IsClosed(text, s)
    decreases |text| - from
  {
    hide IsClosed, IsOpen, AfterLine, LineEnd, LineStart, SpansFrom, SpanOf;
    StartsInside(text, from);
    var end := LineEnd(text, from);
    var (next, here) := AfterLine(text, from, open);
    SpansAfterLine(text, from, open);
    ClosedHere(text, from, open);
    if end < |text| {
      NextOpen(text, from, open);
      ClosedFromIff(text, end + 1, next);
    } else if next.Some? {
      LeftOpenIsNotClosed(text, from, open);
      assert SpanOf(next.value, |text|) in here + [SpanOf(next.value, |text|)];
    }
  }

  // That is so exactly when no fence is open after the last line.
  lemma AllClosedIff(text: string)
    ensures AllClosed(text) <==> OpenFrom(text, 0, None).None?
  {
    hide OpenFrom, IsClosed;
    ClosedFromIff(text, 0, None);
  }

  // ---- the fence that is open at the start of a line ----

  function StateAt(text: string, from: nat, open: Option<Open>, k: nat): Option<Open>
    requires from <= |text|
    decreases |text| - from
  {
    var end := LineEnd(text, from);
    if from >= k || end >= |text| then open else StateAt(text, end + 1, AfterLine(text, from, open).0, k)
  }

  // No line that starts before a line start goes past it.
  lemma LineEndsBefore(text: string, from: nat, k: nat)
    requires from < k && LineStart(text, k)
    ensures LineEnd(text, from) < k
  {
  }

  // Texts with the same first k characters have the same lines before k.
  lemma {:induction false} SameLineEnd(a: string, b: string, from: nat, k: nat)
    requires k <= |a| && k <= |b| && a[..k] == b[..k] && from < k && LineEnd(a, from) < k
    ensures LineEnd(b, from) == LineEnd(a, from)
    decreases k - from
  {
    assert a[..k][from] == b[..k][from];
    if a[from] != '\n' {
      SameLineEnd(a, b, from + 1, k);
    }
  }

  lemma SameLineRead(a: string, b: string, from: nat, open: Option<Open>, k: nat)
    requires k <= |a| && k <= |b| && a[..k] == b[..k] && from < k && LineEnd(a, from) < k
    ensures AfterLine(b, from, open) == AfterLine(a, from, open) && LineEnd(b, from) == LineEnd(a, from)
  {
    hide MatchFence, Closes;
    SameLineEnd(a, b, from, k);
    var end := LineEnd(a, from);
    assert a[from..end] == a[..k][from..end] == b[..k][from..end] == b[from..end];
  }

  lemma {:induction false} StateOfPrefix(a: string, b: string, from: nat, open: Option<Open>, k: nat)
    requires LineStart(a, k) && LineStart(b, k) && a[..k] == b[..k] && from <= k
    ensures StateAt(a, from, open, k) == StateAt(b, from, open, k)
    decreases |a| - from
  {
    hide AfterLine;
    if from < k {
      LineEndsBefore(a, from, k);
      SameLineRead(a, b, from, open, k);
      StateOfPrefix(a, b, LineEnd(a, from) + 1, AfterLine(a, from, open).0, k);
    }
  }

  // Reading a text is reading up to k, and then the rest from there.
  lemma {:induction false} OpenFromState(text: string, from: nat, open: Option<Open>, k: nat)
    requires LineStart(text, k) && from <= k
    ensures OpenFrom(text, from, open) == OpenFrom(text, k, StateAt(text, from, open, k))
    decreases |text| - from
  {
    hide AfterLine, LineEnd;
    if from < k {
      LineEndsBefore(text, from, k);
      OpenFromState(text, LineEnd(text, from) + 1, AfterLine(text, from, open).0, k);
    }
  }

  lemma StateStep(text: string, from: nat, open: Option<Open>, k: nat)
    requires LineStart(text, k) && from <= k
    ensures from == k ==> StateAt(text, from, open, k) == open
    ensures from < k ==> LineEnd(text, from) < k
    ensures from < k ==> StateAt(text, from, open, k) == StateAt(text, LineEnd(text, from) + 1, AfterLine(text, from, open).0, k)
  {
    hide AfterLine, LineEnd;
    if from < k {
      LineEndsBefore(text, from, k);
    }
  }

  lemma {:induction false} SpansFromState(text: string, from: nat, open: Option<Open>, k: nat) returns (closed: seq<FenceSpan>)
    requires LineStart(text, k) && from <= k <= |text|
    ensures SpansFrom(text, from, open) == closed + SpansFrom(text, k, StateAt(text, from, open, k))
    ensures forall s <- closed :: s.end < k
    decreases |text| - from
  {
    hide *;
    StateStep(text, from, open, k);
    if from < k {
      var end := LineEnd(text, from);
      var (next, here) := AfterLine(text, from, open);
      SpansAfterLine(text, from, open);
      var later := SpansFromState(text, end + 1, next, k);
      ClosedEndsHere(text, from, open);
      closed := here + later;
      Regroup(here, later, SpansFrom(text, k, StateAt(text, from, open, k)));
    } else {
      closed := [];
      assert [] + SpansFrom(text, k, open) == SpansFrom(text, k, open);
    }
  }

  lemma ClosedEndsHere(text: string, from: nat, open: Option<Open>)
    requires from <= |text|
    ensures forall s <- AfterLine(text, from, open).1 :: s.end == LineEnd(text, from)
  {
    hide MatchFence, Closes;
  }

  lemma {:induction false} StateIsOpen(text: string, from: nat, open: Option<Open>, k: nat)
    requires LineStart(text, from) && LineStart(text, k) && from <= k && (open.Some? ==> IsOpen(text, from, open.value))
    ensures var st := StateAt(text, from, open, k); st.Some? ==> IsOpen(text, k, st.value)
    decreases |text| - from
  {
    hide AfterLine, IsOpen, MatchFence;
    if from < k {
      LineEndsBefore(text, from, k);
      NextOpen(text, from, open);
      StateIsOpen(text, LineEnd(text, from) + 1, AfterLine(text, from, open).0, k);
    }
  }

  // ---- one piece of a line, and what it does to the open fence ----

  function AfterPiece(piece: string, at: nat, open: Option<Open>): Option<Open> {
    match MatchFence(piece)
    case None => open
    case Some(fence) =>
      if open.None? then Some(Open(at, piece, fence)) else if Closes(open.value, fence) then None else open
  }

  // A text that is cut inside a line, at i, ends with the piece of that line before the cut.
  ghost predicate CutInLine(text: string, k: nat, i: nat) {
    k <= i <= |text| && LineStart(text, k) && forall j :: k <= j < i ==> text[j] != '\n'
  }

  lemma PrefixOpen(text: string, k: nat, i: nat)
    requires CutInLine(text, k, i)
    ensures OpenFrom(text[..i], 0, None) == AfterPiece(text[k..i], k, StateAt(text, 0, None, k))
  {
    hide MatchFence, Closes;
    var raw := text[..i];
    assert raw[..k] == text[..k];
    OpenFromState(raw, 0, None, k);
    StateOfPrefix(text, raw, 0, None, k);
    NoLineEnd(raw, k);
    assert raw[k..] == text[k..i];
    PieceRead(raw, k, StateAt(text, 0, None, k));
  }

  lemma PieceRead(text: string, k: nat, open: Option<Open>)
    requires k <= |text| && LineEnd(text, k) == |text|
    ensures OpenFrom(text, k, open) == AfterPiece(text[k..], k, open)
  {
    hide MatchFence, Closes;
    assert text[k..|text|] == text[k..];
  }

  lemma {:induction false} NoLineEnd(text: string, k: nat)
    requires k <= |text| && forall j :: k <= j < |text| ==> text[j] != '\n'
    ensures LineEnd(text, k) == |text|
    decreases |text| - k
  {
    if k < |text| {
      NoLineEnd(text, k + 1);
    }
  }

  // ---- fence lines, whole and cut ----

  // The line a fence is closed with is a fence line of the same indent and marker.
  lemma ClosingLineMatches(line: string)
    requires MatchFence(line).Some?
    ensures var fence := MatchFence(line).value;
            && MatchFence(fence.indent + fence.marker) == Some(fence) && fence.marker != ""
            && forall k :: 0 <= k < |fence.indent + fence.marker| ==> (fence.indent + fence.marker)[k] != '\n'
  {
    var n := RunLength(line, ' ', 3);
    var rest := line[n..];
    var m := RunLength(rest, rest[0], |rest|);
    var close := line[..n] + rest[..m];
    RunLengthIs(close, ' ', 3, n);
    assert close[n..] == rest[..m];
    RunLengthIs(rest[..m], rest[0], m, m);
    assert rest[..m][..m] == rest[..m] && close[..n] == line[..n];
  }

  // A fence line cut short opens a fence that the whole line's marker closes.
  lemma CutFenceLine(line: string, i: nat)
    requires i <= |line| && MatchFence(line).Some? && MatchFence(line[..i]).Some?
    ensures 0 < |MatchFence(line[..i]).value.marker| <= |MatchFence(line).value.marker|
    ensures MatchFence(line[..i]).value.marker[0] == MatchFence(line).value.marker[0]
  {
    var piece := line[..i];
    var n := RunLength(piece, ' ', 3);
    assert piece[n] == line[n];
    RunLengthIs(line, ' ', 3, n);
    var rest := line[n..];
    var m := RunLength(piece[n..], rest[0], i - n);
    assert piece[n..] == rest[..i - n];
    RunOfPrefix(rest, rest[0], |rest|, i - n);
  }

  lemma {:induction false} RunOfPrefix(s: string, c: char, max: nat, i: nat)
    requires i <= |s| && i <= max
    ensures RunLength(s[..i], c, i) <= RunLength(s, c, max)
    decreases i
  {
    if i > 0 && s[0] == c {
      assert s[..i][1..] == s[1..][..i - 1];
      RunOfPrefix(s[1..], c, max - 1, i - 1);
    }
  }

  // ---- the fence at the start of the line that a cut is in ----

  function LineStartOf(text: string, i: nat): (k: nat)
    requires i <= |text|
    ensures CutInLine(text, k, i)
  {
    if i == 0 || text[i - 1] == '\n' then i else LineStartOf(text, i - 1)
  }

  // The line the cut at i is in, and the piece of it before the cut.
  function LineAt(text: string, i: nat): string
    requires i <= |text|
  {
    var k := LineStartOf(text, i);
    text[k..LineEnd(text, k)]
  }

  function PieceAt(text: string, i: nat): string
    requires i <= |text|
  {
    text[LineStartOf(text, i)..i]
  }

  lemma CutWithinLine(text: string, k: nat, i: nat)
    requires CutInLine(text, k, i)
    ensures i <= LineEnd(text, k) && text[k..LineEnd(text, k)][..i - k] == text[k..i]
  {
  }

  // The fence that is open at a line start is the one whose span reaches past it.
  lemma OpenSpan(text: string, k: nat) returns (s: FenceSpan)
    requires LineStart(text, k) && StateAt(text, 0, None, k).Some?
    ensures s in Spans(text) && s.start < k && (s.end == |text| || k + 3 <= s.end)
    ensures StateAt(text, 0, None, k) == Some(Open(s.start, s.openLine, FenceLine(s.indent, s.marker)))
    ensures forall t <- Spans(text) :: t == s || t.end < k || t.start > s.end
  {
    hide MatchFence, LineEnd, SpansFrom, StateAt;
    var st := StateAt(text, 0, None, k);
    var closed := SpansFromState(text, 0, None, k);
    StateIsOpen(text, 0, None, k);
    OpenFenceComesFirst(text, k, st.value);
    var spans := SpansFrom(text, k, st);
    SpansAreFences(text);
    SpansFromAreFences(text, k, st);
    s := spans[0];
    assert s in closed + spans;
    assert IsFence(text, s);
    forall t <- Spans(text) ensures t == s || t.end < k || t.start > s.end {
      if t !in closed {
        var j :| 0 <= j < |spans| && spans[j] == t;
      }
    }
  }

  // ---- a chunk cut without a split ----

  // The piece before the cut is no fence line, unless the whole line is one.
  predicate CutsNoFence(text: string, i: nat)
    requires i <= |text|
  {
    MatchFence(PieceAt(text, i)).Some? ==> MatchFence(LineAt(text, i)).Some?
  }

  lemma {:induction false} ListedIsFound(spans: seq<FenceSpan>, s: FenceSpan, index: int)
    requires s in spans && s.start < index < s.end
    ensures FindFenceSpanAt(spans, index).Some?
  {
    if !(spans[0].start < index < spans[0].end) {
      ListedIsFound(spans[1..], s, index);
    }
  }

  // A fence that is open after a line has a span that reaches past that line.
  lemma OpenAfter(text: string, k: nat) returns (s: FenceSpan)
    requires LineStart(text, k) && AfterLine(text, k, StateAt(text, 0, None, k)).0.Some?
    ensures s in Spans(text) && s.start == AfterLine(text, k, StateAt(text, 0, None, k)).0.value.start <= k
    ensures s.end == |text| || LineEnd(text, k) < s.end
  {
    hide MatchFence, LineEnd, SpansFrom, StateAt, AfterLine;
    var st, end := StateAt(text, 0, None, k), LineEnd(text, k);
    var closed := SpansFromState(text, 0, None, k);
    StateIsOpen(text, 0, None, k);
    StartsInside(text, k);
    NextOpen(text, k, st);
    SpansAfterLine(text, k, st);
    var (next, here) := AfterLine(text, k, st);
    var later := if end < |text| then SpansFrom(text, end + 1, next) else Unclosed(text, next);
    if end < |text| {
      OpenFenceComesFirst(text, end + 1, next.value);
    }
    s := later[0];
    assert s in here + later;
    assert s in closed + SpansFrom(text, k, st);
    OpensUpTo(text, k, st);
  }

  lemma OpensUpTo(text: string, k: nat, open: Option<Open>)
    requires k <= |text| && (open.Some? ==> open.value.start < k)
    ensures AfterLine(text, k, open).0.Some? ==> AfterLine(text, k, open).0.value.start <= k
  {
  }

  // A fence that is open at the line of a safe cut is closed by that line, at the cut.
  lemma SafeCutCloses(text: string, i: nat, s: FenceSpan)
    requires i < |text| && IsSafeFenceBreak(Spans(text), i)
    requires s in Spans(text) && s.start < LineStartOf(text, i) && (s.end == |text| || LineStartOf(text, i) + 3 <= s.end)
    ensures s.end == i && PieceAt(text, i) == LineAt(text, i)
  {
    hide MatchFence, FindFenceSpanAt, Spans, LineStartOf;
    if i < s.end {
      ListedIsFound(Spans(text), s, i);
    }
    SpansAreFences(text);
    assert IsFence(text, s);
    var k := LineStartOf(text, i);
    LineEndOfFirst(text, k, i);
  }

  lemma NothingIsNoFence()
    ensures MatchFence("").None?
  {
  }

  // A cut outside every fence, before the end: nothing is open at the end of the chunk, unless
  // the cut makes a fence line out of a line that is none.
  lemma PlainCutClosedIff(text: string, i: nat)
    requires i < |text| && IsSafeFenceBreak(Spans(text), i)
    ensures AllClosed(text[..i]) <==> CutsNoFence(text, i)
  {
    hide MatchFence, FindFenceSpanAt, Spans, LineStartOf, StateAt, LineEnd, OpenFrom, Closes, AllClosed;
    var k := LineStartOf(text, i);
    var st := StateAt(text, 0, None, k);
    PrefixOpen(text, k, i);
    CutWithinLine(text, k, i);
    NothingIsNoFence();
    AllClosedIff(text[..i]);
    var next := AfterLine(text, k, st).0;
    if st.Some? {
      var s := OpenSpan(text, k);
      SafeCutCloses(text, i, s);
    }
    if next.Some? && next.value.start < i {
      var s := OpenAfter(text, k);
      if i < s.end {
        ListedIsFound(Spans(text), s, i);
      }
    }
  }

  // ---- a chunk that splits a fence ----

  // The piece before the cut leaves the fence as it was: it does not close a fence of an earlier
  // line, and it already opens a fence of its own line.
  predicate SplitKeepsFence(text: string, s: FenceSpan, i: nat)
    requires i <= |text|
  {
    var fence := MatchFence(PieceAt(text, i));
    if s.start < LineStartOf(text, i) then fence.None? || !Closes(OpenOf(s), fence.value) else fence.Some?
  }

  lemma LineStep(text: string, k: nat, end: nat, open: Option<Open>)
    requires CutInLine(text, k, end) && end < |text| && text[end] == '\n'
    ensures OpenFrom(text, k, open) == OpenFrom(text, end + 1, AfterPiece(text[k..end], k, open))
  {
    hide MatchFence, Closes;
    LineEndOfFirst(text, k, end);
  }

  lemma AtTheEnd(text: string, open: Option<Open>)
    ensures OpenFrom(text, |text|, open) == open
  {
    hide MatchFence, Closes;
    NothingIsNoFence();
    assert text[|text|..|text|] == "";
  }

  // Text up to a line start, then one more line.
  lemma LastLineRead(text: string, k: nat, line: string, open: Option<Open>)
    requires LineStart(text, k) && text[k..] == line + "\n" && forall j :: 0 <= j < |line| ==> line[j] != '\n'
    ensures OpenFrom(text, k, open) == AfterPiece(line, k, open)
  {
    hide AfterPiece, OpenFrom;
    var end := k + |line|;
    forall j | k <= j < end ensures text[j] != '\n' {
      assert text[j] == text[k..][j - k] == line[j - k];
    }
    assert text[end] == text[k..][|line|] == '\n';
    assert text[k..end] == text[k..][..|line|] == line;
    LineStep(text, k, end, open);
    AtTheEnd(text, AfterPiece(line, k, open));
  }

  // The fences of a chunk that was cut at i and given a closing line.
  lemma SplitRead(text: string, i: nat, line: string)
    requires 0 < i <= |text| && forall j :: 0 <= j < |line| ==> line[j] != '\n'
    ensures var k, all := LineStartOf(text, i), text[..i] + CloseFence(text[..i], line);
            OpenFrom(all, 0, None) == AfterPiece(line, if k < i then i + 1 else i, AfterPiece(PieceAt(text, i), k, StateAt(text, 0, None, k)))
  {
    hide AfterPiece, OpenFrom, StateAt, LineStartOf;
    var k, raw := LineStartOf(text, i), text[..i];
    var all := raw + CloseFence(raw, line);
    assert raw[i - 1..] == [text[i - 1]];
    assert all[..k] == text[..k] && all[..i] == raw;
    assert k < i ==> text[i - 1] != '\n';
    var st := StateAt(text, 0, None, k);
    SameBefore(text, all, i, k);
    OpenFromState(all, 0, None, k);
    StateOfPrefix(text, all, 0, None, k);
    if k < i {
      assert all[k..i] == text[k..i];
      LineStep(all, k, i, st);
      assert all[i + 1..] == line + "\n";
      LastLineRead(all, i + 1, line, AfterPiece(text[k..i], k, st));
    } else {
      NoPiece(k, st);
      assert text[k..i] == "";
      assert all[k..] == line + "\n";
      LastLineRead(all, k, line, st);
    }
  }

  lemma NoPiece(k: nat, open: Option<Open>)
    ensures AfterPiece("", k, open) == open
  {
  }

  lemma SameBefore(a: string, b: string, i: nat, k: nat)
    requires i <= |a| && i <= |b| && a[..i] == b[..i] && CutInLine(a, k, i)
    ensures CutInLine(b, k, i)
  {
    forall j | 0 <= j < i ensures a[j] == b[j] {
      assert a[..i][j] == b[..i][j];
    }
  }

  // Where the split fence starts: it is the one open at the line of the cut, or that line opens it.
  lemma SplitState(text: string, i: nat, s: FenceSpan)
    requires i <= |text| && s in Spans(text) && s.start < i < s.end
    ensures var k := LineStartOf(text, i);
            && s.start <= k && StateAt(text, 0, None, k) == (if s.start < k then Some(OpenOf(s)) else None)
            && (s.start == k ==> s.openLine == LineAt(text, i))
            && MatchFence(s.openLine) == Some(FenceLine(s.indent, s.marker))
  {
    hide MatchFence, FindFenceSpanAt, Spans, LineStartOf, StateAt, LineEnd;
    SpansAreFences(text);
    assert IsFence(text, s);
    var k := LineStartOf(text, i);
    if StateAt(text, 0, None, k).Some? {
      var t := OpenSpan(text, k);
    } else if s.start < k {
      NothingOpen(text, k, s);
    }
  }

  // When nothing is open at a line start, no span reaches across it.
  lemma NothingOpen(text: string, k: nat, s: FenceSpan)
    requires LineStart(text, k) && StateAt(text, 0, None, k).None? && s in Spans(text)
    ensures s.end < k || s.start >= k
  {
    hide MatchFence, LineEnd, SpansFrom, StateAt;
    var closed := SpansFromState(text, 0, None, k);
    SpansFromAreFences(text, k, None);
  }

  // The closing line does its work exactly when the piece before the cut leaves the fence alone.
  lemma SplitClosedIff(text: string, i: nat, s: FenceSpan)
    requires i <= |text| && s in Spans(text) && s.start < i < s.end
    ensures AllClosed(text[..i] + CloseFence(text[..i], s.indent + s.marker)) <==> SplitKeepsFence(text, s, i)
  {
    hide MatchFence, Spans, LineStartOf, StateAt, LineEnd, OpenFrom, CloseFence, AllClosed;
    var k := LineStartOf(text, i);
    SplitState(text, i, s);
    ClosingLineMatches(s.openLine);
    SplitRead(text, i, s.indent + s.marker);
    AllClosedIff(text[..i] + CloseFence(text[..i], s.indent + s.marker));
    if s.start == k && MatchFence(PieceAt(text, i)).Some? {
      CutWithinLine(text, k, i);
      CutFenceLine(s.openLine, i - k);
      assert s.openLine[..i - k] == PieceAt(text, i);
    }
  }

  // ---- the chunks of a drain ----

  // What decides it for the cut of a round: no fence is left open by it.
  ghost predicate CutKeepsFences(buffer: string, cut: Break)
    requires FitsBuffer(cut, buffer)
  {
    match cut
    case NoBreak => AllClosed(buffer)
    case At(i) => if i < |buffer| then CutsNoFence(buffer, i) else AllClosed(buffer)
    case InFence(i, _) =>
      var s := FindFenceSpanAt(Spans(buffer), i);
      s.Some? && SplitKeepsFence(buffer, s.value, i)
  }

  lemma CutIsOfRound(c: Chunking, buffer: string, force: bool)
    ensures var cut := ChooseBreak(c, Spans, buffer, force);
            && FitsBuffer(cut, buffer) && (cut.At? ==> IsSafeFenceBreak(Spans(buffer), cut.index))
            && (cut.InFence? ==> cut == ForcedBreak(Spans(buffer), cut.index))
  {
    hide HardBreak, SoftBreak, Spans;
  }

  // For the chunk of every round: with its closing line, every fence in it is closed if and only
  // if the cut leaves none open.
  lemma ChunkIsClosedIff(c: Chunking, buffer: string, force: bool)
    requires DrainRound(c, Spans, buffer, force).emitted != []
    ensures var e, cut := DrainRound(c, Spans, buffer, force).emitted[0], ChooseBreak(c, Spans, buffer, force);
            FitsBuffer(cut, buffer) && (AllClosed(e.raw + e.close) <==> CutKeepsFences(buffer, cut))
  {
    hide ChooseBreak, Spans, AllClosed, CutsNoFence, SplitKeepsFence, IsBlank, CloseFence, FindFenceSpanAt;
    CutIsOfRound(c, buffer, force);
    var e, cut := DrainRound(c, Spans, buffer, force).emitted[0], ChooseBreak(c, Spans, buffer, force);
    match cut
    case NoBreak => assert e.raw + e.close == buffer;
    case At(i) =>
      assert e.raw + e.close == buffer[..i];
      if i < |buffer| {
        PlainCutClosedIff(buffer, i);
      } else {
        assert buffer[..i] == buffer;
      }
    case InFence(i, split) =>
      var k := FoundIsListed(Spans(buffer), i);
      SplitClosedIff(buffer, i, Spans(buffer)[k]);
  }

  // ---- the chunks of a whole drain ----

  ghost predicate AllChunksClosed(emitted: seq<Emission>) {
    forall e <- emitted :: AllClosed(e.raw + e.close)
  }

  ghost predicate RoundKeepsFences(c: Chunking, force: bool, buffer: string) {
    var cut := ChooseBreak(c, Spans, buffer, force);
    DrainRound(c, Spans, buffer, force).emitted != [] ==> FitsBuffer(cut, buffer) && CutKeepsFences(buffer, cut)
  }

  ghost predicate RoundsKeepFences(c: Chunking, force: bool, buffer: string, n: nat) {
    forall m: nat :: m < n ==> RoundKeepsFences(c, force, Left(RoundOf(c, Spans, force), buffer, m))
  }

  lemma RoundChunkIsClosedIff(c: Chunking, force: bool, buffer: string)
    ensures AllChunksClosed(DrainRound(c, Spans, buffer, force).emitted) <==> RoundKeepsFences(c, force, buffer)
  {
    hide ChooseBreak, Spans, AllClosed, CutKeepsFences, FitsBuffer, CloseFence, ReopenFence, IsBlank;
    if DrainRound(c, Spans, buffer, force).emitted != [] {
      ChunkIsClosedIff(c, buffer, force);
      assert DrainRound(c, Spans, buffer, force).emitted == [DrainRound(c, Spans, buffer, force).emitted[0]];
    }
  }

  lemma RoundsKeepNext(c: Chunking, force: bool, buffer: string, n: nat)
    requires n > 0
    ensures var round := DrainRound(c, Spans, buffer, force);
            RoundsKeepFences(c, force, buffer, n)
            <==> RoundKeepsFences(c, force, buffer) && (round.More? ==> RoundsKeepFences(c, force, round.buffer, n - 1))
  {
    hide DrainRound, RoundKeepsFences, Spans;
    var round := RoundOf(c, Spans, force);
    assert Left(round, buffer, 0) == buffer;
    if round(buffer).More? {
      assert forall m: nat :: Left(round, buffer, m + 1) == Left(round, round(buffer).buffer, m);
      if RoundsKeepFences(c, force, buffer, n) {
        forall m: nat | m < n - 1 ensures RoundKeepsFences(c, force, Left(round, round(buffer).buffer, m)) {
          assert RoundKeepsFences(c, force, Left(round, buffer, m + 1));
        }
      }
      if RoundKeepsFences(c, force, buffer) && RoundsKeepFences(c, force, round(buffer).buffer, n - 1) {
        forall m: nat | m < n ensures RoundKeepsFences(c, force, Left(round, buffer, m)) {
          if m > 0 {
            assert Left(round, buffer, m) == Left(round, round(buffer).buffer, m - 1);
          }
        }
      }
    }
  }

  lemma {:induction false} RoundsClosedIff(c: Chunking, force: bool, buffer: string, n: nat)
    ensures AllChunksClosed(Rounds(RoundOf(c, Spans, force), buffer, n).emitted) <==> RoundsKeepFences(c, force, buffer, n)
    decreases n
  {
    hide DrainRound, RoundKeepsFences, RoundsKeepFences, Spans, AllClosed;
    if n > 0 {
      RoundChunkIsClosedIff(c, force, buffer);
      RoundsKeepNext(c, force, buffer, n);
      if DrainRound(c, Spans, buffer, force).More? {
        RoundsClosedIff(c, force, DrainRound(c, Spans, buffer, force).buffer, n - 1);
      }
    } else {
      NoRounds(c, force, buffer);
    }
  }

  // What decides it for a drain: the text left for a last chunk, or else the cut of each round.
  ghost predicate DrainKeepsFences(c: Chunking, force: bool, buffer: string, n: nat) {
    if |buffer| < MinChars(c) && !force then true
    else if force && |buffer| <= MaxChars(c) then IsBlank(buffer) || AllClosed(buffer)
    else RoundsKeepFences(c, force, buffer, n)
  }

  // The chunks of a drain, with their closing lines, have every fence closed if and only if no
  // cut of it leaves one open.
  lemma DrainChunksClosedIff(c: Chunking, force: bool, buffer: string, n: nat)
    ensures AllChunksClosed(Drained(c, Spans, buffer, force, n).emitted) <==> DrainKeepsFences(c, force, buffer, n)
  {
    hide Rounds, RoundOf, RoundsKeepFences, Spans, AllClosed, IsBlank;
    RoundsClosedIff(c, force, buffer, n);
    assert buffer + "" == buffer;
    assert Emission(buffer, "", "") in [Emission(buffer, "", "")];
  }

  lemma NoRounds(c: Chunking, force: bool, buffer: string)
    ensures RoundsKeepFences(c, force, buffer, 0)
  {
  }

  // ---- chunks that leave a fence open ----

  lemma BareFence(line: string, m: nat)
    requires 3 <= m == |line| && forall k :: 0 <= k < m ==> line[k] == '`'
    ensures MatchFence(line) == Some(FenceLine("", line))
  {
    RunLengthIs(line, ' ', 3, 0);
    assert line[0..] == line && line[..m] == line;
    RunLengthIs(line, '`', m, m);
  }

  lemma NoNewlineBreak(spans: seq<FenceSpan>, window: string, min: nat)
    requires forall k :: 0 <= k < |window| ==> window[k] == '\n' ==> !IsSafeFenceBreak(spans, k)
    ensures PreferredBreak(Newline, spans, window, min).NoBreak?
  {
    hide IsSafeFenceBreak;
    forall i ensures !NewlineAt(spans, window)(i) {
      if Occurs(window, "\n", i) {
        assert window[i..i + 1][0] == window[i];
      }
    }
  }

  lemma LastSpaceIsTaken(spans: seq<FenceSpan>, window: string, min: nat)
    requires min < |window| && IsSpace(window[|window| - 1]) && IsSafeFenceBreak(spans, |window| - 1)
    ensures SpaceBreak(spans, window, min) == At(|window| - 1)
  {
    hide IsSafeFenceBreak;
    assert SpaceAt(spans, window)(|window| - 1);
  }

  lemma ReturnHidesSpan()
    ensures Spans("```\rab") == []
  {
    hide MatchFence, Closes;
    var text := "```\rab";
    NoLineEnd(text, 0);
    assert text[0..|text|] == text;
    ReturnHidesFence();
  }

  lemma ReturnHidesFence()
    ensures MatchFence("```\rab").None?
  {
    var text := "```\rab";
    RunLengthIs(text, ' ', 3, 0);
    assert text[0..] == text;
    RunLengthIs(text, '`', |text|, 3);
    assert EndsLine(text[3]);
  }

  // A fence line with a carriage return is no fence, but a chunk cut before the return opens one.
  lemma CarriageReturnExample()
    ensures DrainRound(Chunking(1.0, 4.0, Newline), Spans, "```\rab", false).emitted == [Emission("```", "", "")]
    ensures !AllClosed("```")
  {
    hide AllClosed, Spans, PreferredBreak, SpaceBreak, MatchFence, LineEnd;
    var text := "```\rab";
    ReturnHidesSpan();
    assert Window(text, 4) == "```\r";
    NoNewlineBreak([], "```\r", 1);
    LastSpaceIsTaken([], "```\r", 1);
    PlainCutClosedIff(text, 3);
    NoLineEnd(text, 0);
    assert LineStartOf(text, 3) == 0;
    assert text[0..3] == "```" && text[0..|text|] == text;
    BareFence("```", 3);
    ReturnHidesFence();
    CutChunk(Chunking(1.0, 4.0, Newline), text, 3);
  }

  lemma CutChunk(c: Chunking, text: string, i: nat)
    requires HardBreak(c, Spans, text, false) == At(i) && |text| >= MinChars(c) && 0 < i <= |text| && !IsBlank(text[..i])
    ensures DrainRound(c, Spans, text, false).emitted == [Emission(text[..i], "", "")]
  {
    hide HardBreak, Spans, IsBlank;
  }

  const TWO_LINE_FENCE := FenceSpan(0, 8, "```", "```", "")

  // A fence of two lines, the second closing the first with a longer marker.
  lemma TwoLineFence()
    ensures Spans("```\n````") == [TWO_LINE_FENCE]
  {
    hide MatchFence, LineEnd, AfterLine, SpansFrom;
    var text := "```\n````";
    BareFence("```", 3);
    BareFence("````", 4);
    FirstLineOpens(text, "```");
    var o := Open(0, "```", FenceLine("", "```"));
    SpansAfterLine(text, 0, None);
    NoLineEnd(text, 4);
    SpansAfterLine(text, 4, Some(o));
    assert text[4..8] == "````";
    SecondLineCloses(text, o);
    assert [SpanOf(o, 8)] + [] == [SpanOf(o, 8)];
    assert [] + SpansFrom(text, 4, Some(o)) == SpansFrom(text, 4, Some(o));
  }

  lemma SecondLineCloses(text: string, o: Open)
    requires |text| == 8 && LineEnd(text, 4) == 8 && MatchFence(text[4..8]) == Some(FenceLine("", "````")) && o.fence.marker == "```"
    ensures AfterLine(text, 4, Some(o)) == (None, [SpanOf(o, 8)])
  {
    hide MatchFence, LineEnd;
  }

  lemma TwoLineFenceIsSplit()
    ensures HardBreak(Chunking(1.0, 7.0, Newline), Spans, "```\n````", false) == InFence(7, FenceSplit("```", "```"))
  {
    hide Spans, PreferredBreak, SpaceBreak;
    var text := "```\n````";
    TwoLineFence();
    var spans := Spans(text);
    assert Window(text, 7) == "```\n```";
    assert forall i :: 1 <= i < 8 ==> !IsSafeFenceBreak(spans, i);
    NoNewlineBreak(spans, "```\n```", 1);
    assert SpaceBreak(spans, "```\n```", 1).NoBreak?;
    assert "" + "```" == "```";
  }

  lemma ClosedAndReopened()
    ensures CloseFence("```\n```", "```") == "\n```\n" && ReopenFence("```") == "```\n"
  {
    assert "```\n```"[6..] == "`" && "```"[2..] == "`";
  }

  lemma CutInClosingLine()
    ensures !SplitKeepsFence("```\n````", TWO_LINE_FENCE, 7)
  {
    hide MatchFence;
    var text := "```\n````";
    assert LineStartOf(text, 7) == 4;
    assert text[4..7] == "```";
    BareFence("```", 3);
  }

  lemma TwoLineFenceStaysOpen()
    ensures !AllClosed("```\n```" + "\n```\n")
  {
    hide AllClosed, Spans, CloseFence, ReopenFence, SplitKeepsFence;
    var text := "```\n````";
    TwoLineFence();
    CutInClosingLine();
    ClosedAndReopened();
    assert text[..7] == "```\n```" && "" + "```" == "```";
    SplitClosedIff(text, 7, TWO_LINE_FENCE);
  }

  // A fence split in its closing line, after enough of the marker, is closed and opened again.
  lemma SplitInClosingLineExample()
    ensures DrainRound(Chunking(1.0, 7.0, Newline), Spans, "```\n````", false).emitted
         == [Emission("```\n```", "\n```\n", "```\n")]
    ensures !AllClosed("```\n```" + "\n```\n")
  {
    hide DrainRound, AllClosed, Spans, CloseFence, ReopenFence, HardBreak;
    var text := "```\n````";
    TwoLineFenceIsSplit();
    ClosedAndReopened();
    TwoLineFenceStaysOpen();
    assert text[..7] == "```\n```";
    assert !IsSpace(text[..7][0]);
    SplitChunk(Chunking(1.0, 7.0, Newline), text, 7, FenceSplit("```", "```"));
  }

  lemma SplitChunk(c: Chunking, text: string, i: nat, split: FenceSplit)
    requires HardBreak(c, Spans, text, false) == InFence(i, split) && |text| >= MinChars(c) && 0 < i <= |text| && !IsBlank(text[..i])
    ensures DrainRound(c, Spans, text, false).emitted
         == [Emission(text[..i], CloseFence(text[..i], split.closeFenceLine), ReopenFence(split.reopenFenceLine))]
  {
    hide HardBreak, Spans, IsBlank, CloseFence, ReopenFence;
  }

  // A sentence that ends inside an open fence, at the end of the buffer: no span reaches past the
  // cut, so the fence is not split, and the chunk leaves it open.
  lemma OpenAtTheEndExample()
    ensures DrainRound(Chunking(1.0, 10.0, Sentence), Spans, "```\na.", false).emitted == [Emission("```\na.", "", "")]
    ensures !AllClosed("```\na.")
  {
    hide DrainRound, AllClosed, Spans, HardBreak;
    var text := "```\na.";
    UnclosedFence();
    SentenceAtTheEnd();
    assert text[..6] == text && !IsSpace(text[..6][0]);
    CutChunk(Chunking(1.0, 10.0, Sentence), text, 6);
    AllClosedIff(text);
  }

  lemma UnclosedFence()
    ensures Spans("```\na.") == [FenceSpan(0, 6, "```", "```", "")] && OpenFrom("```\na.", 0, None).Some?
  {
    hide MatchFence, LineEnd, AfterLine, SpansFrom, Closes;
    var text, o := "```\na.", Open(0, "```", FenceLine("", "```"));
    BareFence("```", 3);
    FirstLineOpens(text, "```");
    SpansAfterLine(text, 0, None);
    NoLineEnd(text, 4);
    assert text[4..6] == "a.";
    PlainLineStays(text, o);
    SpansAfterLine(text, 4, Some(o));
    assert [] + [SpanOf(o, 6)] == [SpanOf(o, 6)];
    assert [] + SpansFrom(text, 4, Some(o)) == SpansFrom(text, 4, Some(o));
  }

  lemma PlainLineStays(text: string, o: Open)
    requires |text| == 6 && LineEnd(text, 4) == 6 && text[4..6] == "a."
    ensures AfterLine(text, 4, Some(o)) == (Some(o), [])
  {
    assert RunLength("a.", ' ', 3) == 0 && "a."[0..] == "a.";
  }

  lemma SentenceAtTheEnd()
    requires Spans("```\na.") == [FenceSpan(0, 6, "```", "```", "")]
    ensures HardBreak(Chunking(1.0, 10.0, Sentence), Spans, "```\na.", false) == At(6)
  {
    hide Spans, SpaceBreak;
    var spans := Spans("```\na.");
    assert IsSafeFenceBreak(spans, 6);
    assert SentenceAt(spans, "```\na.")(5);
  }
}
