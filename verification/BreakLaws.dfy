/** Where the chunker cuts, told from the characters of the buffer and the fences around them. */
module BreakLaws {
  import opened Text
  import opened BlockChunker

  // ---- places in a text ----

  // No fence spans the place.
  ghost predicate Safe(spans: seq<FenceSpan>, k: int) {
    forall s <- spans :: !(s.start < k < s.end)
  }

  lemma {:induction false} SafeIff(spans: seq<FenceSpan>, k: int)
    ensures IsSafeFenceBreak(spans, k) <==> Safe(spans, k)
  {
    if spans != [] {
      SafeIff(spans[1..], k);
      assert spans == [spans[0]] + spans[1..];
    }
  }

  // A fence that spans the place is the first one that does.
  lemma {:induction false} FoundIsFirst(spans: seq<FenceSpan>, k: int)
    ensures match FindFenceSpanAt(spans, k)
            case None => Safe(spans, k)
            case Some(f) => exists j :: 0 <= j < |spans| && spans[j] == f && f.start < k < f.end && Safe(spans[..j], k)
  {
    if spans != [] && !(spans[0].start < k < spans[0].end) {
      FoundIsFirst(spans[1..], k);
      SafeIff(spans, k);
      if FindFenceSpanAt(spans, k).Some? {
        var f := FindFenceSpanAt(spans, k).value;
        var j :| 0 <= j < |spans[1..]| && spans[1..][j] == f && f.start < k < f.end && Safe(spans[1..][..j], k);
        assert spans[..j + 1] == [spans[0]] + spans[1..][..j];
        assert spans[j + 1] == f;
      }
    } else if spans != [] {
      assert spans[..0] == [];
    }
  }

  predicate LineEndAt(text: string, k: int) {
    0 <= k < |text| && text[k] == '\n'
  }

  // An empty line starts right after the line end at k.
  predicate ParagraphEndAt(text: string, k: int) {
    LineEndAt(text, k) && LineEndAt(text, k + 1)
  }

  // A sentence ends right before k.
  predicate SentenceEndAt(text: string, k: int) {
    && 0 < k <= |text| && text[k - 1] in {'.', '!', '?'}
    && (k == |text| || IsSpace(text[k]))
  }

  predicate SpaceCharAt(text: string, k: int) {
    0 <= k < |text| && IsSpace(text[k])
  }

  ghost predicate SafeLineEnd(spans: seq<FenceSpan>, text: string, k: int) {
    LineEndAt(text, k) && Safe(spans, k)
  }

  ghost predicate SafeParagraphEnd(spans: seq<FenceSpan>, text: string, k: int) {
    ParagraphEndAt(text, k) && (Safe(spans, k) || Safe(spans, k + 1))
  }

  ghost predicate SafeSentenceEnd(spans: seq<FenceSpan>, text: string, k: int) {
    SentenceEndAt(text, k) && Safe(spans, k)
  }

  ghost predicate SafeSpace(spans: seq<FenceSpan>, text: string, k: int) {
    SpaceCharAt(text, k) && Safe(spans, k)
  }

  // The cut for a paragraph end: at its first line end when that is safe, or else at the second.
  ghost function ParagraphCut(spans: seq<FenceSpan>, k: nat): nat {
    if Safe(spans, k) then k else k + 1
  }

  // ---- the part of the buffer that is searched, and the limits ----

  // Without force the limits are those of the settings, at least one; with force the smaller is one.
  lemma LimitsAre(c: Chunking, force: bool)
    ensures MinChars(c) >= 1 && MinChars(c) >= c.minChars.Floor && (MinChars(c) == 1 || MinChars(c) == c.minChars.Floor)
    ensures MaxChars(c) >= MinChars(c) && MaxChars(c) >= c.maxChars.Floor && (MaxChars(c) == MinChars(c) || MaxChars(c) == c.maxChars.Floor)
    ensures BreakMin(c, force) == if force then 1 else MinChars(c)
    ensures BreakMax(c, false) == MaxChars(c)
    ensures BreakMax(c, true) >= 1 && BreakMax(c, true) >= c.maxChars.Floor && (BreakMax(c, true) == 1 || BreakMax(c, true) == c.maxChars.Floor)
  {
  }

  ghost predicate Searched(buffer: string, max: nat, window: string) {
    window <= buffer && (|window| == max || (window == buffer && |buffer| < max))
  }

  lemma WindowIsSearched(buffer: string, max: nat)
    ensures Searched(buffer, max, Window(buffer, max))
  {
  }

  lemma LineEndIff(spans: seq<FenceSpan>, text: string, k: int)
    ensures NewlineAt(spans, text)(k) <==> SafeLineEnd(spans, text, k)
  {
    SafeIff(spans, k);
    if 0 <= k < |text| {
      assert text[k..k + 1] == [text[k]];
    }
  }

  lemma ParagraphEndIff(spans: seq<FenceSpan>, text: string, k: int)
    ensures ParagraphAt(spans, text)(k) <==> SafeParagraphEnd(spans, text, k)
  {
    SafeIff(spans, k);
    SafeIff(spans, k + 1);
    if 0 <= k && k + 2 <= |text| {
      assert text[k..k + 2] == [text[k], text[k + 1]];
    }
  }

  lemma SentenceEndIff(spans: seq<FenceSpan>, text: string, k: int)
    ensures SentenceAt(spans, text)(k) <==> SafeSentenceEnd(spans, text, k + 1)
  {
    SafeIff(spans, k + 1);
  }

  lemma SpaceIff(spans: seq<FenceSpan>, text: string, k: int)
    ensures SpaceAt(spans, text)(k) <==> SafeSpace(spans, text, k)
  {
    SafeIff(spans, k);
  }

  // ---- the hard break ----

  ghost predicate LastParagraphEnd(spans: seq<FenceSpan>, text: string, min: nat, k: int) {
    min <= k && SafeParagraphEnd(spans, text, k) && forall j :: k < j ==> !SafeParagraphEnd(spans, text, j)
  }

  ghost predicate LastLineEnd(spans: seq<FenceSpan>, text: string, min: nat, k: int) {
    min <= k && SafeLineEnd(spans, text, k) && forall j :: k < j ==> !SafeLineEnd(spans, text, j)
  }

  ghost predicate LastSentenceEnd(spans: seq<FenceSpan>, text: string, min: nat, k: int) {
    min < k && SafeSentenceEnd(spans, text, k) && forall j :: k < j ==> !SafeSentenceEnd(spans, text, j)
  }

  ghost predicate LastSpaceChar(spans: seq<FenceSpan>, text: string, min: nat, k: int) {
    min <= k && SafeSpace(spans, text, k) && forall j :: k < j ==> !SafeSpace(spans, text, j)
  }

  ghost predicate NoParagraphEnd(spans: seq<FenceSpan>, text: string, min: nat) {
    forall j :: min <= j ==> !SafeParagraphEnd(spans, text, j)
  }

  ghost predicate NoLineEnd(spans: seq<FenceSpan>, text: string, min: nat) {
    forall j :: min <= j ==> !SafeLineEnd(spans, text, j)
  }

  ghost predicate NoSentenceEnd(spans: seq<FenceSpan>, text: string, min: nat) {
    forall j :: min < j ==> !SafeSentenceEnd(spans, text, j)
  }

  ghost predicate NoSpace(spans: seq<FenceSpan>, text: string, min: nat) {
    forall j :: min <= j ==> !SafeSpace(spans, text, j)
  }

  lemma ParagraphBreakIs(spans: seq<FenceSpan>, text: string, min: nat)
    ensures match ParagraphBreak(spans, text, min)
            case NoBreak => NoParagraphEnd(spans, text, min)
            case At(i) => exists k :: k >= 0 && LastParagraphEnd(spans, text, min, k) && i == ParagraphCut(spans, k)
            case InFence(_, _) => false
  {
    hide IsSafeFenceBreak;
    forall k: int ensures ParagraphAt(spans, text)(k) <==> SafeParagraphEnd(spans, text, k) {
      ParagraphEndIff(spans, text, k);
    }
    var r := LastWhere(ParagraphAt(spans, text), min, |text|);
    if r.Some? {
      SafeIff(spans, r.value);
      assert LastParagraphEnd(spans, text, min, r.value);
    }
  }

  lemma NewlineBreakIs(spans: seq<FenceSpan>, text: string, min: nat)
    ensures match NewlineBreak(spans, text, min)
            case NoBreak => NoLineEnd(spans, text, min)
            case At(i) => LastLineEnd(spans, text, min, i)
            case InFence(_, _) => false
  {
    forall k: int ensures NewlineAt(spans, text)(k) <==> SafeLineEnd(spans, text, k) {
      LineEndIff(spans, text, k);
    }
  }

  lemma SentenceBreakIs(spans: seq<FenceSpan>, text: string, min: nat)
    ensures match SentenceBreak(spans, text, min)
            case NoBreak => NoSentenceEnd(spans, text, min)
            case At(i) => LastSentenceEnd(spans, text, min, i)
            case InFence(_, _) => false
  {
    hide IsSafeFenceBreak;
    var test := SentenceAt(spans, text);
    forall j: int ensures test(j - 1) <==> SafeSentenceEnd(spans, text, j) {
      SentenceEndIff(spans, text, j - 1);
    }
    forall k: int ensures test(k) <==> SafeSentenceEnd(spans, text, k + 1) {
      SentenceEndIff(spans, text, k);
    }
  }

  lemma SpaceBreakIs(spans: seq<FenceSpan>, text: string, min: nat)
    ensures match SpaceBreak(spans, text, min)
            case NoBreak => NoSpace(spans, text, min)
            case At(i) => LastSpaceChar(spans, text, min, i)
            case InFence(_, _) => false
  {
    forall k: int ensures SpaceAt(spans, text)(k) <==> SafeSpace(spans, text, k) {
      SpaceIff(spans, text, k);
    }
  }

  // The four searches of the hard break in the window, one for each kind of place.
  ghost predicate Searches(c: Chunking, parse: FenceParser, buffer: string, force: bool) {
    |buffer| >= BreakMin(c, force)
  }

  lemma HardBreakCases(c: Chunking, parse: FenceParser, buffer: string, force: bool)
    requires Searches(c, parse, buffer, force)
    ensures var min, max := BreakMin(c, force), BreakMax(c, force);
            var spans, window := parse(buffer), Window(buffer, max);
            var p, n := ParagraphBreak(spans, window, min), NewlineBreak(spans, window, min);
            var s, w := SentenceBreak(spans, window, min), SpaceBreak(spans, window, min);
            HardBreak(c, parse, buffer, force)
            == if c.preference == Paragraph && p.At? then p
               else if c.preference != Sentence && n.At? then n
               else if c.preference != Newline && s.At? then s
               else if c.preference == Newline && |buffer| < max then NoBreak
               else if w.At? then w
               else if |buffer| < max then NoBreak
               else ForcedBreak(spans, max)
  {
    hide ParagraphBreak, NewlineBreak, SentenceBreak, SpaceBreak, ForcedBreak, Window;
  }

  // Paragraphs preferred, and one ends in the window: the cut is at the last that does.
  lemma CutAtParagraphEnd(c: Chunking, parse: FenceParser, buffer: string, force: bool)
    requires Searches(c, parse, buffer, force) && c.preference == Paragraph
    requires !NoParagraphEnd(parse(buffer), Window(buffer, BreakMax(c, force)), BreakMin(c, force))
    ensures var spans, window := parse(buffer), Window(buffer, BreakMax(c, force));
            exists k :: k >= 0 && LastParagraphEnd(spans, window, BreakMin(c, force), k)
              && HardBreak(c, parse, buffer, force) == At(ParagraphCut(spans, k))
  {
    hide *;
    HardBreakCases(c, parse, buffer, force);
    ParagraphBreakIs(parse(buffer), Window(buffer, BreakMax(c, force)), BreakMin(c, force));
  }

  // Lines preferred, or paragraphs with none that ends in the window, and a line ends there: the
  // cut is at the last line end.
  lemma CutAtLineEnd(c: Chunking, parse: FenceParser, buffer: string, force: bool)
    requires Searches(c, parse, buffer, force)
    requires var spans, window, min := parse(buffer), Window(buffer, BreakMax(c, force)), BreakMin(c, force);
             && (c.preference == Newline || (c.preference == Paragraph && NoParagraphEnd(spans, window, min)))
             && !NoLineEnd(spans, window, min)
    ensures var spans, window := parse(buffer), Window(buffer, BreakMax(c, force));
            exists k :: k >= 0 && HardBreak(c, parse, buffer, force) == At(k) && LastLineEnd(spans, window, BreakMin(c, force), k)
  {
    hide NoParagraphEnd, NoLineEnd, LastParagraphEnd, LastLineEnd, HardBreak, ParagraphBreak, NewlineBreak, SentenceBreak, SpaceBreak, Window;
    var spans, window, min := parse(buffer), Window(buffer, BreakMax(c, force)), BreakMin(c, force);
    HardBreakCases(c, parse, buffer, force);
    ParagraphBreakIs(spans, window, min);
    NewlineBreakIs(spans, window, min);
    NotBoth(spans, window, min);
  }

  lemma NotBoth(spans: seq<FenceSpan>, text: string, min: nat)
    ensures NoParagraphEnd(spans, text, min) ==> forall k :: !LastParagraphEnd(spans, text, min, k)
    ensures NoLineEnd(spans, text, min) ==> forall k :: !LastLineEnd(spans, text, min, k)
    ensures NoSentenceEnd(spans, text, min) ==> forall k :: !LastSentenceEnd(spans, text, min, k)
    ensures NoSpace(spans, text, min) ==> forall k :: !LastSpaceChar(spans, text, min, k)
  {
    hide SafeParagraphEnd, SafeLineEnd, SafeSentenceEnd, SafeSpace;
  }

  // No paragraph or line end that is preferred is in the window, sentences are not ruled out, and
  // one ends there: the cut is right after the last.
  lemma CutAtSentenceEnd(c: Chunking, parse: FenceParser, buffer: string, force: bool)
    requires Searches(c, parse, buffer, force)
    requires var spans, window, min := parse(buffer), Window(buffer, BreakMax(c, force)), BreakMin(c, force);
             && (c.preference == Sentence || (c.preference == Paragraph && NoParagraphEnd(spans, window, min) && NoLineEnd(spans, window, min)))
             && !NoSentenceEnd(spans, window, min)
    ensures var spans, window := parse(buffer), Window(buffer, BreakMax(c, force));
            exists k :: k >= 0 && HardBreak(c, parse, buffer, force) == At(k) && LastSentenceEnd(spans, window, BreakMin(c, force), k)
  {
    hide NoParagraphEnd, NoLineEnd, NoSentenceEnd, LastParagraphEnd, LastLineEnd, LastSentenceEnd;
    hide HardBreak, ParagraphBreak, NewlineBreak, SentenceBreak, SpaceBreak, Window;
    var spans, window, min := parse(buffer), Window(buffer, BreakMax(c, force)), BreakMin(c, force);
    HardBreakCases(c, parse, buffer, force);
    ParagraphBreakIs(spans, window, min);
    NewlineBreakIs(spans, window, min);
    SentenceBreakIs(spans, window, min);
    NotBoth(spans, window, min);
  }

  // Nothing that is preferred is in the window.
  ghost predicate NonePreferred(preference: Preference, spans: seq<FenceSpan>, window: string, min: nat) {
    && (preference == Paragraph ==> NoParagraphEnd(spans, window, min))
    && (preference != Sentence ==> NoLineEnd(spans, window, min))
    && (preference != Newline ==> NoSentenceEnd(spans, window, min))
  }

  // Then the cut is at the last white space, except that lines are waited for while the buffer is
  // short; without any it is at the limit, which splits the first fence there, if there is one.
  lemma CutAtSpaceOrLimit(c: Chunking, parse: FenceParser, buffer: string, force: bool)
    requires Searches(c, parse, buffer, force)
    requires NonePreferred(c.preference, parse(buffer), Window(buffer, BreakMax(c, force)), BreakMin(c, force))
    ensures var spans, window, min, max := parse(buffer), Window(buffer, BreakMax(c, force)), BreakMin(c, force), BreakMax(c, force);
            var cut := HardBreak(c, parse, buffer, force);
            && (c.preference == Newline && |buffer| < max ==> cut.NoBreak?)
            && ((c.preference == Newline ==> |buffer| >= max) && !NoSpace(spans, window, min) ==>
                  cut.At? && LastSpaceChar(spans, window, min, cut.index))
            && (NoSpace(spans, window, min) && |buffer| < max ==> cut.NoBreak?)
            && (NoSpace(spans, window, min) && |buffer| >= max ==> cut == ForcedBreak(spans, max))
  {
    hide NoParagraphEnd, NoLineEnd, NoSentenceEnd, NoSpace, LastParagraphEnd, LastLineEnd, LastSentenceEnd, LastSpaceChar;
    hide HardBreak, ParagraphBreak, NewlineBreak, SentenceBreak, SpaceBreak, Window, ForcedBreak;
    var spans, window, min := parse(buffer), Window(buffer, BreakMax(c, force)), BreakMin(c, force);
    HardBreakCases(c, parse, buffer, force);
    ParagraphBreakIs(spans, window, min);
    NewlineBreakIs(spans, window, min);
    SentenceBreakIs(spans, window, min);
    SpaceBreakIs(spans, window, min);
    NotBoth(spans, window, min);
  }

  // The break at the limit: a plain cut outside the fences, and otherwise a split of the first fence
  // there, closed by its indent and marker and opened again by its first line.
  lemma ForcedBreakIs(spans: seq<FenceSpan>, max: nat)
    ensures Safe(spans, max) ==> ForcedBreak(spans, max) == At(max)
    ensures !Safe(spans, max) ==>
      exists j :: 0 <= j < |spans| && spans[j].start < max < spans[j].end && Safe(spans[..j], max)
        && ForcedBreak(spans, max) == InFence(max, FenceSplit(spans[j].indent + spans[j].marker, spans[j].openLine))
  {
    FoundIsFirst(spans, max);
    SafeIff(spans, max);
  }

  // ---- the soft break ----

  // How many line ends stand right before the place.
  function LineEndsBefore(text: string, k: nat): nat {
    if k == 0 || k > |text| || text[k - 1] != '\n' then 0 else 1 + LineEndsBefore(text, k - 1)
  }

  // The soft search meets the paragraph ends of a run of line ends two characters at a time.
  predicate Met(text: string, k: nat) {
    ParagraphEndAt(text, k) && LineEndsBefore(text, k) % 2 == 0
  }

  ghost predicate SoftParagraphEnd(spans: seq<FenceSpan>, text: string, k: nat) {
    Met(text, k) && ((k >= 1 && Safe(spans, k)) || Safe(spans, k + 1))
  }

  ghost function SoftParagraphCut(spans: seq<FenceSpan>, k: nat): nat {
    if k >= 1 && Safe(spans, k) then k else k + 1
  }

  ghost predicate FirstSoftParagraph(spans: seq<FenceSpan>, text: string, from: nat, k: nat) {
    from <= k && SoftParagraphEnd(spans, text, k) && forall j: nat :: from <= j < k ==> !SoftParagraphEnd(spans, text, j)
  }

  lemma {:induction false} FirstParagraphIs(spans: seq<FenceSpan>, text: string, from: nat)
    requires LineEndAt(text, from) ==> LineEndsBefore(text, from) % 2 == 0
    ensures match FirstParagraph(spans, text, from)
            case None => forall k: nat :: from <= k ==> !SoftParagraphEnd(spans, text, k)
            case Some(r) => exists k: nat :: FirstSoftParagraph(spans, text, from, k) && r == SoftParagraphCut(spans, k)
    decreases |text| - from
  {
    hide Safe, IsSafeFenceBreak;
    if from + 1 < |text| {
      SafeIff(spans, from);
      SafeIff(spans, from + 1);
      assert text[from..from + 2] == [text[from], text[from + 1]];
      if !Occurs(text, "\n\n", from) {
        FirstParagraphIs(spans, text, from + 1);
        SkipsOne(spans, text, from, from + 1);
      } else if !SoftParagraphEnd(spans, text, from) {
        FirstParagraphIs(spans, text, from + 2);
        SkipsOne(spans, text, from, from + 2);
      } else {
        assert FirstSoftParagraph(spans, text, from, from);
      }
    }
  }

  // Nothing is met between the places the search goes on from.
  lemma SkipsOne(spans: seq<FenceSpan>, text: string, from: nat, next: nat)
    requires from < next <= from + 2 && !SoftParagraphEnd(spans, text, from)
    requires next == from + 2 ==> LineEndAt(text, from) && LineEndsBefore(text, from) % 2 == 0
    ensures forall k: nat :: FirstSoftParagraph(spans, text, next, k) ==> FirstSoftParagraph(spans, text, from, k)
    ensures (forall k: nat :: next <= k ==> !SoftParagraphEnd(spans, text, k)) ==> forall k: nat :: from <= k ==> !SoftParagraphEnd(spans, text, k)
  {
    hide Safe;
  }

  ghost predicate FirstLineEndAfter(spans: seq<FenceSpan>, text: string, k: int) {
    1 <= k && SafeLineEnd(spans, text, k) && forall j :: 1 <= j < k ==> !SafeLineEnd(spans, text, j)
  }

  lemma FirstLineEndIs(spans: seq<FenceSpan>, text: string)
    ensures match FirstWhere(NewlineAt(spans, text), 1, |text|)
            case None => NoLineEnd(spans, text, 1)
            case Some(k) => FirstLineEndAfter(spans, text, k)
  {
    forall k: int ensures NewlineAt(spans, text)(k) <==> SafeLineEnd(spans, text, k) {
      LineEndIff(spans, text, k);
    }
  }

  // The soft break of the last chunk: at the first paragraph end the search meets, if paragraphs are
  // preferred; or else at the first line end, unless sentences are; or else after the last sentence,
  // unless lines are.
  lemma SoftBreakIs(c: Chunking, parse: FenceParser, buffer: string)
    requires buffer != ""
    ensures var spans, cut := parse(buffer), SoftBreak(c, parse, buffer);
            var paragraph := c.preference == Paragraph && exists k: nat :: SoftParagraphEnd(spans, buffer, k);
            var line := c.preference != Sentence && !NoLineEnd(spans, buffer, 1);
            && (paragraph ==> exists k: nat :: FirstSoftParagraph(spans, buffer, 0, k) && cut == At(SoftParagraphCut(spans, k)))
            && (!paragraph && line ==> cut.At? && FirstLineEndAfter(spans, buffer, cut.index))
            && (!paragraph && !line && c.preference != Newline && !NoSentenceEnd(spans, buffer, 1) ==>
                  cut.At? && LastSentenceEnd(spans, buffer, 1, cut.index))
            && (!paragraph && !line && (c.preference == Newline || NoSentenceEnd(spans, buffer, 1)) ==> cut.NoBreak?)
  {
    hide Safe, SafeLineEnd, SafeSentenceEnd, SoftParagraphEnd, FirstWhere, SentenceBreak, FirstParagraph, FirstLineEndAfter, NoLineEnd;
    var spans := parse(buffer);
    FirstParagraphIs(spans, buffer, 0);
    FirstLineEndIs(spans, buffer);
    SentenceBreakIs(spans, buffer, 1);
    NotBoth(spans, buffer, 1);
    SomeLineEnd(spans, buffer);
  }

  lemma SomeLineEnd(spans: seq<FenceSpan>, text: string)
    ensures NoLineEnd(spans, text, 1) ==> forall k :: !FirstLineEndAfter(spans, text, k)
  {
    hide SafeLineEnd;
  }
}
