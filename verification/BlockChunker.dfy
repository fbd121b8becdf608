/** Streaming a reply in chunks: where the buffer is cut, and what each cut emits. */
module BlockChunker {
  import opened Wrappers
  import opened Text

  datatype FenceSpan = FenceSpan(start: nat, end: nat, openLine: string, marker: string, indent: string)

  // The fence parser is any function from the buffer to spans.
  type FenceParser = string -> seq<FenceSpan>

  datatype Preference = Paragraph | Newline | Sentence

  datatype Chunking = Chunking(minChars: real, maxChars: real, preference: Preference)

  datatype FenceSplit = FenceSplit(closeFenceLine: string, reopenFenceLine: string)

  datatype Break = NoBreak | At(index: nat) | InFence(index: nat, split: FenceSplit)

  function FindFenceSpanAt(spans: seq<FenceSpan>, index: int): Option<FenceSpan> {
    if spans == [] then None
    else if spans[0].start < index < spans[0].end then Some(spans[0])
    else FindFenceSpanAt(spans[1..], index)
  }

  predicate IsSafeFenceBreak(spans: seq<FenceSpan>, index: int) {
    FindFenceSpanAt(spans, index).None?
  }

  // The limits of drain, and the ones the hard break uses when drain is forced.
  function MinChars(c: Chunking): (n: int) ensures n >= 1 {
    AtLeast(1, c.minChars.Floor)
  }

  function MaxChars(c: Chunking): (n: int) ensures n >= MinChars(c) {
    AtLeast(MinChars(c), c.maxChars.Floor)
  }

  function BreakMin(c: Chunking, force: bool): (n: int) ensures n >= 1 {
    if force then 1 else MinChars(c)
  }

  function BreakMax(c: Chunking, force: bool): (n: int) ensures BreakMin(c, force) <= n <= MaxChars(c) {
    AtLeast(BreakMin(c, force), c.maxChars.Floor)
  }

  // ---- candidates for a break, as tests on an index ----

  predicate Occurs(s: string, needle: string, i: int) {
    0 <= i && i + |needle| <= |s| && s[i..i + |needle|] == needle
  }

  function NewlineAt(spans: seq<FenceSpan>, s: string): int -> bool {
    i => Occurs(s, "\n", i) && IsSafeFenceBreak(spans, i)
  }

  function ParagraphAt(spans: seq<FenceSpan>, s: string): int -> bool {
    i => Occurs(s, "\n\n", i) && (IsSafeFenceBreak(spans, i) || IsSafeFenceBreak(spans, i + 1))
  }

  function SentenceAt(spans: seq<FenceSpan>, s: string): int -> bool {
    i => 0 <= i < |s| && (s[i] == '.' || s[i] == '!' || s[i] == '?')
      && (i + 1 == |s| || IsSpace(s[i + 1])) && IsSafeFenceBreak(spans, i + 1)
  }

  function SpaceAt(spans: seq<FenceSpan>, s: string): int -> bool {
    i => 0 <= i < |s| && IsSpace(s[i]) && IsSafeFenceBreak(spans, i)
  }

  // The largest index from lo up to hi that passes the test.
  function LastWhere(test: int -> bool, lo: nat, hi: int): (r: Option<nat>)
    ensures r.Some? ==> lo <= r.value < hi && test(r.value) && forall i :: r.value < i < hi ==> !test(i)
    ensures r.None? ==> forall i :: lo <= i < hi ==> !test(i)
    decreases hi - lo
  {
    if hi <= lo then None
    else if test(hi - 1) then Some(hi - 1)
    else LastWhere(test, lo, hi - 1)
  }

  // The smallest one.
  function FirstWhere(test: int -> bool, lo: nat, hi: int): (r: Option<nat>)
    ensures r.Some? ==> lo <= r.value < hi && test(r.value) && forall i :: lo <= i < r.value ==> !test(i)
    ensures r.None? ==> forall i :: lo <= i < hi ==> !test(i)
    decreases hi - lo
  {
    if hi <= lo then None
    else if test(lo) then Some(lo)
    else FirstWhere(test, lo + 1, hi)
  }

  // A plain break in the window, from min on, outside any fence.
  ghost predicate Natural(b: Break, spans: seq<FenceSpan>, window: string, min: nat) {
    !b.InFence? && (b.At? ==> min <= b.index <= |window| && IsSafeFenceBreak(spans, b.index))
  }

  function SentenceBreak(spans: seq<FenceSpan>, s: string, min: nat): (b: Break)
    ensures Natural(b, spans, s, min) && (b.At? ==> min < b.index)
  {
    match LastWhere(SentenceAt(spans, s), min, |s|)
    case Some(i) => At(i + 1)
    case None => NoBreak
  }

  function ParagraphBreak(spans: seq<FenceSpan>, s: string, min: nat): (b: Break)
    ensures Natural(b, spans, s, min)
  {
    match LastWhere(ParagraphAt(spans, s), min, |s|)
    case Some(i) => At(if IsSafeFenceBreak(spans, i) then i else i + 1)
    case None => NoBreak
  }

  function NewlineBreak(spans: seq<FenceSpan>, s: string, min: nat): (b: Break)
    ensures Natural(b, spans, s, min)
  {
    match LastWhere(NewlineAt(spans, s), min, |s|)
    case Some(i) => At(i)
    case None => NoBreak
  }

  function SpaceBreak(spans: seq<FenceSpan>, s: string, min: nat): (b: Break)
    ensures Natural(b, spans, s, min)
  {
    match LastWhere(SpaceAt(spans, s), min, |s|)
    case Some(i) => At(i)
    case None => NoBreak
  }

  // The last paragraph, line or sentence end in the window, by preference.
  function PreferredBreak(preference: Preference, spans: seq<FenceSpan>, window: string, min: nat): (b: Break)
    ensures Natural(b, spans, window, min)
  {
    var paragraph := if preference == Paragraph then ParagraphBreak(spans, window, min) else NoBreak;
    var newline := if preference != Sentence then NewlineBreak(spans, window, min) else NoBreak;
    if paragraph.At? then paragraph
    else if newline.At? then newline
    else if preference != Newline then SentenceBreak(spans, window, min)
    else NoBreak
  }

  // The break at the limit itself: a plain one, or a split of the fence there.
  function ForcedBreak(spans: seq<FenceSpan>, max: nat): (b: Break)
    ensures !b.NoBreak? && b.index == max && (b.At? <==> IsSafeFenceBreak(spans, max))
  {
    match FindFenceSpanAt(spans, max)
    case None => At(max)
    case Some(f) => InFence(max, FenceSplit(f.indent + f.marker, f.openLine))
  }

  function Window(buffer: string, max: nat): string {
    if |buffer| <= max then buffer else buffer[..max]
  }

  // The hard break: the preferred break in the window, then the last white space, then the
  // window's end, splitting a fence that spans it.
  function HardBreak(c: Chunking, parse: FenceParser, buffer: string, force: bool): (b: Break)
    ensures b.At? ==> BreakMin(c, force) <= b.index <= BreakMax(c, force) && b.index <= |buffer|
    ensures b.At? ==> IsSafeFenceBreak(parse(buffer), b.index)
    ensures b.InFence? ==> b == ForcedBreak(parse(buffer), BreakMax(c, force)) && b.index <= |buffer|
    ensures b.NoBreak? ==> |buffer| < BreakMax(c, force)
  {
    var min, max := BreakMin(c, force), BreakMax(c, force);
    var spans, window := parse(buffer), Window(buffer, max);
    var preferred := PreferredBreak(c.preference, spans, window, min);
    var space := SpaceBreak(spans, window, min);
    if |buffer| < min then NoBreak
    else if preferred.At? then preferred
    else if c.preference == Newline && |buffer| < max then NoBreak
    else if space.At? then space
    else if |buffer| < max then NoBreak
    else ForcedBreak(spans, max)
  }

  // A fence is split only when no white space outside the fences is left to break at.
  lemma FenceSplitIsLastResort(c: Chunking, parse: FenceParser, buffer: string, force: bool, i: int)
    requires HardBreak(c, parse, buffer, force).InFence? && BreakMin(c, force) <= i < BreakMax(c, force)
    ensures i < |buffer| && !(IsSpace(buffer[i]) && IsSafeFenceBreak(parse(buffer), i))
  {
    hide PreferredBreak;
    var spans, window := parse(buffer), Window(buffer, BreakMax(c, force));
    assert SpaceBreak(spans, window, BreakMin(c, force)).NoBreak?;
    assert !SpaceAt(spans, window)(i);
  }

  lemma OccursInWindow(buffer: string, max: nat, i: int)
    ensures Occurs(Window(buffer, max), "\n\n", i) <==> Occurs(buffer, "\n\n", i) && i + 2 <= max
  {
    if 0 <= i && i + 2 <= |Window(buffer, max)| {
      assert Window(buffer, max)[i..i + 2] == buffer[i..i + 2];
    }
  }

  lemma LastParagraphIn(spans: seq<FenceSpan>, window: string, min: nat, i: int)
    requires min <= i && Occurs(window, "\n\n", i) && (IsSafeFenceBreak(spans, i) || IsSafeFenceBreak(spans, i + 1))
    ensures var cut := ParagraphBreak(spans, window, min);
            cut.At? && i <= cut.index && (Occurs(window, "\n\n", cut.index) || Occurs(window, "\n\n", cut.index - 1))
  {
    hide IsSafeFenceBreak;
    assert ParagraphAt(spans, window)(i);
  }

  // When paragraphs are preferred and one ends in the window, the break is at the last that does.
  lemma LastParagraphWins(c: Chunking, parse: FenceParser, buffer: string, force: bool, i: int)
    requires c.preference == Paragraph && BreakMin(c, force) <= i <= BreakMax(c, force) - 2
    requires Occurs(buffer, "\n\n", i) && (IsSafeFenceBreak(parse(buffer), i) || IsSafeFenceBreak(parse(buffer), i + 1))
    ensures var cut := HardBreak(c, parse, buffer, force);
            cut.At? && i <= cut.index && (Occurs(buffer, "\n\n", cut.index) || Occurs(buffer, "\n\n", cut.index - 1))
  {
    hide SpaceBreak, ForcedBreak, ParagraphBreak, SentenceBreak, NewlineBreak, Occurs, Window, IsSafeFenceBreak;
    var min, max, spans := BreakMin(c, force), BreakMax(c, force), parse(buffer);
    OccursInWindow(buffer, max, i);
    LastParagraphIn(spans, Window(buffer, max), min, i);
    var cut := ParagraphBreak(spans, Window(buffer, max), min);
    OccursInWindow(buffer, max, cut.index);
    OccursInWindow(buffer, max, cut.index - 1);
    InsideBuffer(buffer, i);
  }

  lemma InsideBuffer(buffer: string, i: int)
    requires Occurs(buffer, "\n\n", i)
    ensures 0 <= i && i + 2 <= |buffer|
  {
  }

  // Paragraph ends are met left to right, two characters at a time.
  function FirstParagraph(spans: seq<FenceSpan>, s: string, from: nat): (r: Option<nat>)
    ensures r.Some? ==> 1 <= r.value < |s| && IsSafeFenceBreak(spans, r.value)
    decreases |s| - from
  {
    if from + 1 >= |s| then None
    else if !Occurs(s, "\n\n", from) then FirstParagraph(spans, s, from + 1)
    else if from >= 1 && IsSafeFenceBreak(spans, from) then Some(from)
    else if IsSafeFenceBreak(spans, from + 1) then Some(from + 1)
    else FirstParagraph(spans, s, from + 2)
  }

  // The soft break, used when a forced drain is down to its last chunk: the first paragraph or
  // line end, or else the last sentence end.
  function SoftBreak(c: Chunking, parse: FenceParser, buffer: string): (b: Break)
    ensures !b.InFence? && (b.At? ==> 1 <= b.index <= |buffer| && IsSafeFenceBreak(parse(buffer), b.index))
  {
    var spans := parse(buffer);
    var paragraph := if c.preference == Paragraph then FirstParagraph(spans, buffer, 0) else None;
    var newline := if c.preference != Sentence then FirstWhere(NewlineAt(spans, buffer), 1, |buffer|) else None;
    if |buffer| < 1 then NoBreak
    else if paragraph.Some? then At(paragraph.value)
    else if newline.Some? then At(newline.value)
    else if c.preference != Newline then SentenceBreak(spans, buffer, 1)
    else NoBreak
  }

  // ---- one round of drain ----

  // A chunk is the cut text followed by the closing fence line; reopen is what was put in
  // front of the rest of the buffer.
  datatype Emission = Emission(raw: string, close: string, reopen: string)

  datatype Round = Stop(emitted: seq<Emission>, buffer: string) | More(emitted: seq<Emission>, buffer: string)

  function StripLeadingNewlines(s: string): string {
    if s != "" && s[0] == '\n' then StripLeadingNewlines(s[1..]) else s
  }

  function CloseFence(raw: string, line: string): string {
    if EndsWith(raw, "\n") then line + "\n" else "\n" + line + "\n"
  }

  function ReopenFence(line: string): string {
    if EndsWith(line, "\n") then line else line + "\n"
  }

  function ChooseBreak(c: Chunking, parse: FenceParser, buffer: string, force: bool): Break {
    if force && |buffer| <= MaxChars(c) then SoftBreak(c, parse, buffer) else HardBreak(c, parse, buffer, force)
  }

  predicate Drains(c: Chunking, buffer: string, force: bool) {
    |buffer| >= MinChars(c) || (force && |buffer| > 0)
  }

  function AfterEmit(c: Chunking, force: bool, emission: Emission, rest: string): Round {
    if !force && |rest| < MaxChars(c) then Stop([emission], rest) else More([emission], rest)
  }

  predicate FitsBuffer(cut: Break, buffer: string) {
    !cut.NoBreak? ==> 1 <= cut.index <= |buffer|
  }

  function RoundAt(c: Chunking, buffer: string, force: bool, cut: Break): Round
    requires FitsBuffer(cut, buffer)
  {
    if cut.NoBreak? then
      if force then Stop([Emission(buffer, "", "")], "") else Stop([], buffer)
    else
      var raw, rest := buffer[..cut.index], buffer[cut.index..];
      if IsBlank(raw) then More([], TrimStart(StripLeadingNewlines(rest)))
      else if cut.InFence? then
        var reopen := ReopenFence(cut.split.reopenFenceLine);
        AfterEmit(c, force, Emission(raw, CloseFence(raw, cut.split.closeFenceLine), reopen), reopen + rest)
      else
        var next := if rest != "" && IsSpace(rest[0]) then rest[1..] else rest;
        AfterEmit(c, force, Emission(raw, "", ""), StripLeadingNewlines(next))
  }

  function DrainRound(c: Chunking, parse: FenceParser, buffer: string, force: bool): Round {
    if !Drains(c, buffer, force) then Stop([], buffer)
    else RoundAt(c, buffer, force, ChooseBreak(c, parse, buffer, force))
  }

  // The rounds of a drain, as a function of the buffer alone.
  function RoundOf(c: Chunking, parse: FenceParser, force: bool): string -> Round {
    buffer => DrainRound(c, parse, buffer, force)
  }

  datatype Run = Run(emitted: seq<Emission>, buffer: string, finished: bool)

  // At most n rounds, until one stops.
  function Rounds(round: string -> Round, buffer: string, n: nat): Run
    decreases n
  {
    if n == 0 then Run([], buffer, false)
    else
      match round(buffer)
      case Stop(emitted, rest) => Run(emitted, rest, true)
      case More(emitted, rest) => Prepend(emitted, Rounds(round, rest, n - 1))
  }

  function Prepend(emitted: seq<Emission>, later: Run): Run {
    Run(emitted + later.emitted, later.buffer, later.finished)
  }

  // ---- the loops of the source ----

  // lastIndexOf from an index that is not negative.
  function LastIndexOf(s: string, needle: string, from: int): (r: int)
    ensures -1 <= r && (r >= 0 ==> r <= from && Occurs(s, needle, r))
    ensures forall i :: r < i <= from ==> !Occurs(s, needle, i)
    decreases from
  {
    if from < 0 then -1 else if Occurs(s, needle, from) then from else LastIndexOf(s, needle, from - 1)
  }

  function IndexOf(s: string, needle: string, from: nat): (r: int)
    ensures -1 <= r && (r >= 0 ==> from <= r && Occurs(s, needle, r))
    ensures forall i :: from <= i && (r >= 0 ==> i < r) ==> !Occurs(s, needle, i)
    decreases |s| - from
  {
    if from + |needle| > |s| then -1 else if Occurs(s, needle, from) then from else IndexOf(s, needle, from + 1)
  }

  lemma LastWhereIs(test: int -> bool, lo: nat, hi: int, r: int)
    requires lo <= r < hi && test(r) && forall i :: r < i < hi ==> !test(i)
    ensures LastWhere(test, lo, hi) == Some(r)
  {
  }

  lemma FirstWhereIs(test: int -> bool, lo: nat, hi: int, r: int)
    requires lo <= r < hi && test(r) && forall i :: lo <= i < r ==> !test(i)
    ensures FirstWhere(test, lo, hi) == Some(r)
  {
  }

  method LastParagraph(spans: seq<FenceSpan>, window: string, min: nat) returns (r: Option<nat>)
    requires min >= 1
    ensures r == LastWhere(ParagraphAt(spans, window), min, |window|)
  {
    ghost var test := ParagraphAt(spans, window);
    var idx := LastIndexOf(window, "\n\n", |window|);
    while idx >= min
      invariant idx >= 0 ==> Occurs(window, "\n\n", idx)
      invariant forall i :: idx < i < |window| ==> !test(i)
      decreases idx
    {
      if IsSafeFenceBreak(spans, idx) || IsSafeFenceBreak(spans, idx + 1) {
        LastWhereIs(test, min, |window|, idx);
        return Some(idx);
      }
      idx := LastIndexOf(window, "\n\n", idx - 1);
    }
    return None;
  }

  method LastNewline(spans: seq<FenceSpan>, window: string, min: nat) returns (r: Option<nat>)
    requires min >= 1
    ensures r == LastWhere(NewlineAt(spans, window), min, |window|)
  {
    ghost var test := NewlineAt(spans, window);
    var idx := LastIndexOf(window, "\n", |window|);
    while idx >= min
      invariant idx >= 0 ==> Occurs(window, "\n", idx)
      invariant forall i :: idx < i < |window| ==> !test(i)
      decreases idx
    {
      if IsSafeFenceBreak(spans, idx) {
        LastWhereIs(test, min, |window|, idx);
        return Some(idx);
      }
      idx := LastIndexOf(window, "\n", idx - 1);
    }
    return None;
  }

  method LastSentence(spans: seq<FenceSpan>, text: string, min: nat) returns (r: Break)
    ensures r == SentenceBreak(spans, text, min)
  {
    ghost var test := SentenceAt(spans, text);
    r := NoBreak;
    for i := 0 to |text|
      invariant r.NoBreak? ==> forall k :: min <= k < i ==> !test(k)
      invariant !r.InFence? && (r.At? ==> min < r.index <= i && test(r.index - 1) && forall k :: r.index - 1 < k < i ==> !test(k))
    {
      var ends := (text[i] == '.' || text[i] == '!' || text[i] == '?') && (i + 1 == |text| || IsSpace(text[i + 1]));
      if ends && i >= min && IsSafeFenceBreak(spans, i + 1) {
        r := At(i + 1);
      }
    }
    if r.At? {
      LastWhereIs(test, min, |text|, r.index - 1);
    }
  }

  method LastSpace(spans: seq<FenceSpan>, window: string, min: nat) returns (r: Option<nat>)
    ensures r == LastWhere(SpaceAt(spans, window), min, |window|)
  {
    ghost var test := SpaceAt(spans, window);
    var i := |window| - 1;
    while i >= min
      invariant i < |window|
      invariant forall k :: i < k < |window| && k >= min ==> !test(k)
    {
      if IsSpace(window[i]) && IsSafeFenceBreak(spans, i) {
        LastWhereIs(test, min, |window|, i);
        return Some(i);
      }
      i := i - 1;
    }
    return None;
  }

  method PickBreakIndex(c: Chunking, parse: FenceParser, buffer: string, force: bool) returns (r: Break)
    ensures r == HardBreak(c, parse, buffer, force)
  {
    hide LastWhere, SentenceBreak;
    var min, max := BreakMin(c, force), BreakMax(c, force);
    if |buffer| < min {
      return NoBreak;
    }
    var window := Window(buffer, max);
    var spans := parse(buffer);
    if c.preference == Paragraph {
      var p := LastParagraph(spans, window, min);
      if p.Some? {
        return At(if IsSafeFenceBreak(spans, p.value) then p.value else p.value + 1);
      }
    }
    if c.preference == Paragraph || c.preference == Newline {
      var n := LastNewline(spans, window, min);
      if n.Some? {
        return At(n.value);
      }
    }
    if c.preference != Newline {
      var s := LastSentence(spans, window, min);
      if s.At? {
        return s;
      }
    }
    if c.preference == Newline && |buffer| < max {
      return NoBreak;
    }
    var space := LastSpace(spans, window, min);
    if space.Some? {
      return At(space.value);
    }
    if |buffer| >= max {
      if IsSafeFenceBreak(spans, max) {
        return At(max);
      }
      var fence := FindFenceSpanAt(spans, max).value;
      return InFence(max, FenceSplit(fence.indent + fence.marker, fence.openLine));
    }
    return NoBreak;
  }

  lemma {:induction false} FirstParagraphSkips(spans: seq<FenceSpan>, s: string, from: nat, next: int)
    requires from <= next <= |s| && forall i :: from <= i < next ==> !Occurs(s, "\n\n", i)
    ensures FirstParagraph(spans, s, from) == FirstParagraph(spans, s, next)
    decreases next - from
  {
    if from < next {
      assert !Occurs(s, "\n\n", from);
      FirstParagraphSkips(spans, s, from + 1, next);
    }
  }

  method PickSoftBreakIndex(c: Chunking, parse: FenceParser, buffer: string) returns (r: Break)
    ensures r == SoftBreak(c, parse, buffer)
  {
    if |buffer| < 1 {
      return NoBreak;
    }
    var spans := parse(buffer);
    if c.preference == Paragraph {
      var p := SoftParagraph(spans, buffer);
      if p.Some? {
        return At(p.value);
      }
    }
    if c.preference == Paragraph || c.preference == Newline {
      var n := SoftNewline(spans, buffer);
      if n.Some? {
        return At(n.value);
      }
    }
    if c.preference != Newline {
      r := LastSentence(spans, buffer, 1);
      return;
    }
    return NoBreak;
  }

  method SoftParagraph(spans: seq<FenceSpan>, buffer: string) returns (r: Option<nat>)
    ensures r == FirstParagraph(spans, buffer, 0)
  {
    hide IsSafeFenceBreak, IndexOf;
    var idx := IndexOf(buffer, "\n\n", 0);
    FirstParagraphSkips(spans, buffer, 0, if idx == -1 then |buffer| else idx);
    while idx != -1
      invariant idx >= 0 ==> Occurs(buffer, "\n\n", idx)
      invariant -1 <= idx
      invariant FirstParagraph(spans, buffer, 0) == FirstParagraph(spans, buffer, if idx == -1 then |buffer| else idx)
      decreases if idx == -1 then 0 else |buffer| - idx
    {
      if idx >= 1 && IsSafeFenceBreak(spans, idx) {
        return Some(idx);
      }
      if IsSafeFenceBreak(spans, idx + 1) {
        return Some(idx + 1);
      }
      var next := IndexOf(buffer, "\n\n", idx + 2);
      FirstParagraphSkips(spans, buffer, idx + 2, if next == -1 then |buffer| else next);
      idx := next;
    }
    return None;
  }

  method SoftNewline(spans: seq<FenceSpan>, buffer: string) returns (r: Option<nat>)
    ensures r == FirstWhere(NewlineAt(spans, buffer), 1, |buffer|)
  {
    ghost var test := NewlineAt(spans, buffer);
    var idx := IndexOf(buffer, "\n", 0);
    while idx != -1
      invariant -1 <= idx && (idx >= 0 ==> Occurs(buffer, "\n", idx))
      invariant forall i :: 1 <= i < (if idx == -1 then |buffer| else idx) ==> !test(i)
      decreases if idx == -1 then 0 else |buffer| - idx
    {
      if idx >= 1 && IsSafeFenceBreak(spans, idx) {
        FirstWhereIs(test, 1, |buffer|, idx);
        return Some(idx);
      }
      idx := IndexOf(buffer, "\n", idx + 1);
    }
    return None;
  }
}
