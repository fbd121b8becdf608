/** The chunker object: draining conserves the text, bounds the chunks and terminates. */
module BlockChunkerDrain {
  import opened Wrappers
  import opened Text
  import opened BlockChunker

  // The early exits of drain, then rounds until one stops.
  function Drained(c: Chunking, parse: FenceParser, buffer: string, force: bool, n: nat): Run {
    if |buffer| < MinChars(c) && !force then Run([], buffer, true)
    else if force && |buffer| <= MaxChars(c) then
      Run(if IsBlank(buffer) then [] else [Emission(buffer, "", "")], "", true)
    else Rounds(RoundOf(c, parse, force), buffer, n)
  }

  // ---- termination ----

  // The buffer after n rounds, or where the drain stopped before that.
  function Left(round: string -> Round, buffer: string, n: nat): string
    decreases n
  {
    if n == 0 || round(buffer).Stop? then buffer else Left(round, round(buffer).buffer, n - 1)
  }

  // A round splits a fence, and puts back in front of the buffer at least what it cut off.
  predicate PutsBackLong(c: Chunking, parse: FenceParser, buffer: string, force: bool) {
    var cut := ChooseBreak(c, parse, buffer, force);
    && Drains(c, buffer, force) && cut.InFence? && !IsBlank(buffer[..cut.index])
    && |ReopenFence(cut.split.reopenFenceLine)| >= cut.index
  }

  // No round of this drain does.
  ghost predicate NeverPutsBackLong(c: Chunking, parse: FenceParser, force: bool, buffer: string) {
    forall n: nat :: !PutsBackLong(c, parse, Left(RoundOf(c, parse, force), buffer, n), force)
  }

  ghost predicate Shortens(round: string -> Round, buffer: string) {
    round(buffer).More? ==> |round(buffer).buffer| < |buffer|
  }

  ghost predicate ShortensAlong(round: string -> Round, buffer: string) {
    forall n: nat :: Shortens(round, Left(round, buffer, n))
  }

  lemma {:induction false} StripShortens(s: string)
    ensures |StripLeadingNewlines(s)| <= |s| && Ink(StripLeadingNewlines(s)) == Ink(s)
  {
    if s != "" && s[0] == '\n' {
      StripShortens(s[1..]);
    }
  }

  lemma RoundAtShortens(c: Chunking, buffer: string, force: bool, cut: Break)
    requires FitsBuffer(cut, buffer)
    requires cut.InFence? && !IsBlank(buffer[..cut.index]) ==> |ReopenFence(cut.split.reopenFenceLine)| < cut.index
    ensures RoundAt(c, buffer, force, cut).More? ==> |RoundAt(c, buffer, force, cut).buffer| < |buffer|
  {
    if !cut.NoBreak? {
      var rest := buffer[cut.index..];
      StripShortens(rest);
      TrimStartKeepsInk(StripLeadingNewlines(rest));
      if rest != "" {
        StripShortens(rest[1..]);
      }
    }
  }

  lemma DrainRoundShortens(c: Chunking, parse: FenceParser, buffer: string, force: bool)
    requires !PutsBackLong(c, parse, buffer, force)
    ensures Shortens(RoundOf(c, parse, force), buffer)
  {
    if Drains(c, buffer, force) {
      RoundAtShortens(c, buffer, force, ChooseBreak(c, parse, buffer, force));
    }
  }

  // A round that goes on leaves a shorter buffer, also when it puts a fence line back.
  lemma RoundShortens(c: Chunking, parse: FenceParser, force: bool, buffer: string)
    requires NeverPutsBackLong(c, parse, force, buffer)
    ensures ShortensAlong(RoundOf(c, parse, force), buffer)
  {
    forall n: nat ensures Shortens(RoundOf(c, parse, force), Left(RoundOf(c, parse, force), buffer, n)) {
      hide *;
      NeverAt(c, parse, force, buffer, n);
      DrainRoundShortens(c, parse, Left(RoundOf(c, parse, force), buffer, n), force);
    }
  }

  lemma NeverAt(c: Chunking, parse: FenceParser, force: bool, buffer: string, n: nat)
    requires NeverPutsBackLong(c, parse, force, buffer)
    ensures !PutsBackLong(c, parse, Left(RoundOf(c, parse, force), buffer, n), force)
  {
    hide PutsBackLong, RoundOf, Left;
  }

  lemma ShortensNext(round: string -> Round, buffer: string)
    requires ShortensAlong(round, buffer)
    ensures round(buffer).More? ==> |round(buffer).buffer| < |buffer| && ShortensAlong(round, round(buffer).buffer)
  {
    assert Left(round, buffer, 0) == buffer;
    if round(buffer).More? {
      forall n: nat ensures Shortens(round, Left(round, round(buffer).buffer, n)) {
        assert Left(round, buffer, n + 1) == Left(round, round(buffer).buffer, n);
      }
    }
  }

  lemma {:induction false} RoundsFinish(round: string -> Round, buffer: string, n: nat)
    requires ShortensAlong(round, buffer) && n > |buffer|
    ensures Rounds(round, buffer, n).finished
    decreases n
  {
    ShortensNext(round, buffer);
    if round(buffer).More? {
      RoundsFinish(round, round(buffer).buffer, n - 1);
    }
  }

  // Once a drain has finished, more rounds change nothing.
  lemma {:induction false} FinishedStays(round: string -> Round, buffer: string, n: nat, more: nat)
    requires Rounds(round, buffer, n).finished && n <= more
    ensures Rounds(round, buffer, more) == Rounds(round, buffer, n)
    decreases n
  {
    if round(buffer).More? {
      FinishedStays(round, round(buffer).buffer, n - 1, more - 1);
    }
  }

  class EmbeddedBlockChunker {
    const chunking: Chunking
    const parse: FenceParser
    var buffer: string

    constructor (chunking: Chunking, parse: FenceParser)
      ensures this.chunking == chunking && this.parse == parse && buffer == ""
    {
      this.chunking, this.parse, buffer := chunking, parse, "";
    }

    method Append(text: string)
      modifies this
      ensures buffer == old(buffer) + text
    {
      if text == "" {
        return;
      }
      buffer := buffer + text;
    }

    method Reset()
      modifies this
      ensures buffer == ""
    {
      buffer := "";
    }

    method Round(force: bool) returns (emitted: seq<Emission>, more: bool)
      modifies this
      ensures RoundOf(chunking, parse, force)(old(buffer)) == if more then More(emitted, buffer) else Stop(emitted, buffer)
    {
      if !(|buffer| >= MinChars(chunking) || (force && |buffer| > 0)) {
        return [], false;
      }
      var cut;
      if force && |buffer| <= MaxChars(chunking) {
        cut := PickSoftBreakIndex(chunking, parse, buffer);
      } else {
        cut := PickBreakIndex(chunking, parse, buffer, force);
      }
      emitted, more := CutAt(cut, force);
    }

    method CutAt(cut: Break, force: bool) returns (emitted: seq<Emission>, more: bool)
      requires FitsBuffer(cut, buffer)
      modifies this
      ensures RoundAt(chunking, old(buffer), force, cut) == if more then More(emitted, buffer) else Stop(emitted, buffer)
    {
      if cut.NoBreak? {
        if force {
          emitted := [Emission(buffer, "", "")];
          buffer := "";
          return emitted, false;
        }
        return [], false;
      }
      var raw, rest := buffer[..cut.index], buffer[cut.index..];
      if IsBlank(raw) {
        buffer := TrimStart(StripLeadingNewlines(rest));
        return [], true;
      }
      if cut.InFence? {
        var reopen := ReopenFence(cut.split.reopenFenceLine);
        emitted := [Emission(raw, CloseFence(raw, cut.split.closeFenceLine), reopen)];
        buffer := reopen + rest;
      } else {
        emitted := [Emission(raw, "", "")];
        var nextStart := if cut.index < |buffer| && IsSpace(buffer[cut.index]) then cut.index + 1 else cut.index;
        assert nextStart == cut.index + 1 ==> buffer[nextStart..] == rest[1..];
        buffer := StripLeadingNewlines(buffer[nextStart..]);
      }
      more := force || !(|buffer| < MinChars(chunking) || |buffer| < MaxChars(chunking));
    }

    method Drain(force: bool) returns (emitted: seq<Emission>)
      requires NeverPutsBackLong(chunking, parse, force, buffer)
      modifies this
      ensures Run(emitted, buffer, true) == Drained(chunking, parse, old(buffer), force, |old(buffer)| + 1)
    {
      emitted := [];
      if |buffer| < MinChars(chunking) && !force {
        return;
      }
      if force && |buffer| <= MaxChars(chunking) {
        if !IsBlank(buffer) {
          emitted := [Emission(buffer, "", "")];
        }
        buffer := "";
        return;
      }
      RoundShortens(chunking, parse, force, buffer);
      emitted := Loop(force);
    }

    method Loop(force: bool) returns (emitted: seq<Emission>)
      requires ShortensAlong(RoundOf(chunking, parse, force), buffer)
      modifies this
      ensures Run(emitted, buffer, true) == Rounds(RoundOf(chunking, parse, force), old(buffer), |old(buffer)| + 1)
    {
      hide *;
      ghost var round, n := RoundOf(chunking, parse, force), |buffer| + 1;
      ghost var all := Rounds(round, buffer, n);
      RoundsFinish(round, buffer, n);
      PrependNothing(all);
      emitted := [];
      var more := true;
      while more
        invariant more ==> n > |buffer| && ShortensAlong(round, buffer) && Prepend(emitted, Rounds(round, buffer, n)) == all
        invariant !more ==> Run(emitted, buffer, true) == all
        decreases if more then |buffer| + 1 else 0
      {
        var chunk;
        PrependRound(round, buffer, n, emitted);
        ShortensNext(round, buffer);
        chunk, more := Round(force);
        emitted, n := emitted + chunk, n - 1;
      }
    }
  }

  lemma PrependNothing(run: Run)
    ensures Prepend([], run) == run
  {
  }

  lemma PrependRound(round: string -> Round, buffer: string, n: nat, emitted: seq<Emission>)
    requires n > 0
    ensures Prepend(emitted, Rounds(round, buffer, n))
         == match round(buffer)
            case Stop(chunk, rest) => Run(emitted + chunk, rest, true)
            case More(chunk, rest) => Prepend(emitted + chunk, Rounds(round, rest, n - 1))
  {
    if round(buffer).More? {
      var later := Rounds(round, round(buffer).buffer, n - 1);
      assert emitted + (round(buffer).emitted + later.emitted) == emitted + round(buffer).emitted + later.emitted;
    }
  }

  // ---- conservation ----

  // The ink of a drain put back together: each reopening line is taken off the text after it.
  ghost function Unsplice(emitted: seq<Emission>, left: string): string {
    if emitted == [] then left
    else
      var after, reopened := Unsplice(emitted[1..], left), Ink(emitted[0].reopen);
      Ink(emitted[0].raw) + (if reopened <= after then after[|reopened|..] else after)
  }

  // A round spells the old buffer, and what it reopened starts the new one.
  ghost predicate SpellsBack(buffer: string, emitted: seq<Emission>, left: string) {
    && |emitted| <= 1 && Unsplice(emitted, Ink(left)) == Ink(buffer)
    && (emitted != [] ==> Ink(emitted[0].reopen) <= Ink(left))
  }

  lemma CutSpellsBack(raw: string, reopen: string, rest: string, next: string)
    requires Ink(next) == Ink(reopen) + Ink(rest)
    ensures Unsplice([Emission(raw, "", reopen)], Ink(next)) == Ink(raw + rest)
  {
    InkConcat(raw, rest);
    assert [Emission(raw, "", reopen)][1..] == [];
  }

  lemma UnspliceIgnoresClose(e: Emission, left: string)
    ensures Unsplice([e], left) == Unsplice([e.(close := "")], left)
  {
    assert [e][1..] == [] && [e.(close := "")][1..] == [];
  }

  lemma BlankCutSpellsBack(raw: string, rest: string)
    requires IsBlank(raw)
    ensures SpellsBack(raw + rest, [], TrimStart(StripLeadingNewlines(rest)))
  {
    InkConcat(raw, rest);
    BlankHasNoInk(raw);
    StripShortens(rest);
    TrimStartKeepsInk(StripLeadingNewlines(rest));
    assert "" + Ink(rest) == Ink(rest);
  }

  lemma FenceCutSpellsBack(raw: string, rest: string, close: string, reopen: string)
    ensures SpellsBack(raw + rest, [Emission(raw, close, reopen)], reopen + rest)
  {
    hide Ink, Unsplice;
    InkConcat(reopen, rest);
    CutSpellsBack(raw, reopen, rest, reopen + rest);
    UnspliceIgnoresClose(Emission(raw, close, reopen), Ink(reopen + rest));
  }

  lemma PlainCutSpellsBack(raw: string, rest: string)
    ensures var next := if rest != "" && IsSpace(rest[0]) then rest[1..] else rest;
            SpellsBack(raw + rest, [Emission(raw, "", "")], StripLeadingNewlines(next))
  {
    hide Unsplice;
    var next := if rest != "" && IsSpace(rest[0]) then rest[1..] else rest;
    StripShortens(next);
    assert Ink("") + Ink(rest) == Ink(rest);
    CutSpellsBack(raw, "", rest, StripLeadingNewlines(next));
  }

  lemma WholeSpellsBack(buffer: string)
    ensures SpellsBack(buffer, [Emission(buffer, "", "")], "") && SpellsBack(buffer, [], buffer)
  {
    CutSpellsBack(buffer, "", "", "");
    assert buffer + "" == buffer;
  }

  lemma RoundAtSpellsBack(c: Chunking, buffer: string, force: bool, cut: Break)
    requires FitsBuffer(cut, buffer)
    ensures SpellsBack(buffer, RoundAt(c, buffer, force, cut).emitted, RoundAt(c, buffer, force, cut).buffer)
  {
    hide SpellsBack, IsBlank, TrimStart, StripLeadingNewlines, ReopenFence, CloseFence;
    if cut.NoBreak? {
      WholeSpellsBack(buffer);
    } else {
      var raw, rest := buffer[..cut.index], buffer[cut.index..];
      assert buffer == raw + rest;
      if IsBlank(raw) {
        BlankCutSpellsBack(raw, rest);
      } else if cut.InFence? {
        FenceCutSpellsBack(raw, rest, CloseFence(raw, cut.split.closeFenceLine), ReopenFence(cut.split.reopenFenceLine));
      } else {
        PlainCutSpellsBack(raw, rest);
      }
    }
  }

  lemma UnspliceStep(e: Emission, later: seq<Emission>, left: string)
    ensures Unsplice([e] + later, left) == Unsplice([e], Unsplice(later, left))
  {
    assert ([e] + later)[1..] == later && [e][1..] == [];
  }

  lemma UnspliceUnsplit(e: Emission, left: string)
    requires e.reopen == ""
    ensures Unsplice([e], left) == Ink(e.raw) + left
  {
    assert [e][1..] == [] && left[0..] == left;
  }

  ghost predicate AllSpellBack(round: string -> Round) {
    forall b :: SpellsBack(b, round(b).emitted, round(b).buffer)
  }

  lemma RoundsSpellBack(c: Chunking, parse: FenceParser, force: bool)
    ensures AllSpellBack(RoundOf(c, parse, force))
  {
    forall b ensures SpellsBack(b, DrainRound(c, parse, b, force).emitted, DrainRound(c, parse, b, force).buffer) {
      if Drains(c, b, force) {
        RoundAtSpellsBack(c, b, force, ChooseBreak(c, parse, b, force));
      }
    }
  }

  lemma {:induction false} RoundsKeepInk(round: string -> Round, buffer: string, n: nat)
    requires AllSpellBack(round)
    ensures Unsplice(Rounds(round, buffer, n).emitted, Ink(Rounds(round, buffer, n).buffer)) == Ink(buffer)
    decreases n
  {
    hide Ink;
    UnspliceNothing(Ink(buffer));
    hide Unsplice;
    if n > 0 {
      assert SpellsBack(buffer, round(buffer).emitted, round(buffer).buffer);
      if round(buffer).More? {
        var first, later := round(buffer).emitted, Rounds(round, round(buffer).buffer, n - 1);
        RoundsKeepInk(round, round(buffer).buffer, n - 1);
        UnspliceFirst(first, later.emitted, Ink(later.buffer));
      }
    }
  }

  lemma UnspliceNothing(left: string)
    ensures Unsplice([], left) == left
  {
  }

  lemma UnspliceFirst(first: seq<Emission>, later: seq<Emission>, left: string)
    requires |first| <= 1
    ensures Unsplice(first + later, left) == Unsplice(first, Unsplice(later, left))
  {
    if first == [] {
      assert first + later == later;
    } else {
      assert first == [first[0]];
      UnspliceStep(first[0], later, left);
    }
  }

  // For any fence parser and any number of rounds, the chunks without their closing lines, then
  // the rest of the buffer, spell the old buffer, white space and reopening lines aside.
  lemma DrainConservesInk(c: Chunking, parse: FenceParser, buffer: string, force: bool, n: nat)
    ensures var run := Drained(c, parse, buffer, force, n);
            Unsplice(run.emitted, Ink(run.buffer)) == Ink(buffer)
  {
    if |buffer| < MinChars(c) && !force {
    } else if force && |buffer| <= MaxChars(c) {
      if IsBlank(buffer) {
        BlankHasNoInk(buffer);
      } else {
        CutSpellsBack(buffer, "", "", "");
        assert buffer + "" == buffer;
      }
    } else {
      RoundsSpellBack(c, parse, force);
      RoundsKeepInk(RoundOf(c, parse, force), buffer, n);
    }
  }

  function RawText(emitted: seq<Emission>): string {
    if emitted == [] then "" else emitted[0].raw + RawText(emitted[1..])
  }

  // With no fence split, nothing is inserted: the chunks and the rest have the old ink.
  lemma {:induction false} NoSplitsNothingInserted(emitted: seq<Emission>, left: string)
    requires forall k :: 0 <= k < |emitted| ==> emitted[k].reopen == ""
    ensures Unsplice(emitted, left) == Ink(RawText(emitted)) + left
  {
    if emitted == [] {
      assert Ink("") + left == left;
    } else {
      var e, later := emitted[0], emitted[1..];
      assert RawText(emitted) == e.raw + RawText(later);
      hide *;
      NoSplitsNothingInserted(later, left);
      assert emitted == [e] + later;
      UnspliceStep(e, later, left);
      UnspliceUnsplit(e, Unsplice(later, left));
      InkConcat(e.raw, RawText(later));
      Regroup(Ink(e.raw), Ink(RawText(later)), left);
    }
  }

  // So a drain that split no fence emitted exactly the old ink that is no longer in the buffer.
  lemma UnsplitDrainIsPlain(c: Chunking, parse: FenceParser, buffer: string, force: bool, n: nat)
    ensures var run := Drained(c, parse, buffer, force, n);
            (forall k :: 0 <= k < |run.emitted| ==> run.emitted[k].reopen == "")
            ==> Ink(RawText(run.emitted)) + Ink(run.buffer) == Ink(buffer)
  {
    hide Drained;
    var run := Drained(c, parse, buffer, force, n);
    DrainConservesInk(c, parse, buffer, force, n);
    if forall k :: 0 <= k < |run.emitted| ==> run.emitted[k].reopen == "" {
      NoSplitsNothingInserted(run.emitted, Ink(run.buffer));
    }
  }

  // ---- size, and where a drain ends ----

  // The text of a chunk is within the limit, and a closing line comes only with a full hard break.
  ghost predicate WithinLimit(c: Chunking, force: bool, e: Emission) {
    && |e.raw| <= MaxChars(c)
    && (e.close != "" || e.reopen != "" ==> |e.raw| == BreakMax(c, force))
  }

  ghost predicate AllWithinLimit(c: Chunking, force: bool, emitted: seq<Emission>) {
    forall e <- emitted :: WithinLimit(c, force, e)
  }

  // A round that stops leaves less than a full chunk, and nothing when it is forced.
  ghost predicate GoodRound(c: Chunking, force: bool, round: Round) {
    && AllWithinLimit(c, force, round.emitted)
    && (round.Stop? ==> |round.buffer| < MaxChars(c) && (force ==> round.buffer == ""))
  }

  lemma RoundAtIsGood(c: Chunking, buffer: string, force: bool, cut: Break)
    requires FitsBuffer(cut, buffer)
    requires cut.At? ==> cut.index <= MaxChars(c)
    requires cut.InFence? ==> cut.index == BreakMax(c, force)
    requires cut.NoBreak? ==> |buffer| <= MaxChars(c) && (!force ==> |buffer| < MaxChars(c))
    ensures GoodRound(c, force, RoundAt(c, buffer, force, cut))
  {
  }

  lemma RoundsAreGood(c: Chunking, parse: FenceParser, force: bool)
    ensures forall b :: GoodRound(c, force, RoundOf(c, parse, force)(b))
  {
    forall b ensures GoodRound(c, force, DrainRound(c, parse, b, force)) {
      if Drains(c, b, force) {
        RoundAtIsGood(c, b, force, ChooseBreak(c, parse, b, force));
      }
    }
  }

  lemma {:induction false} RoundsStayGood(c: Chunking, force: bool, round: string -> Round, buffer: string, n: nat)
    requires forall b :: GoodRound(c, force, round(b))
    ensures AllWithinLimit(c, force, Rounds(round, buffer, n).emitted)
    ensures Rounds(round, buffer, n).finished ==>
      |Rounds(round, buffer, n).buffer| < MaxChars(c) && (force ==> Rounds(round, buffer, n).buffer == "")
    decreases n
  {
    if n > 0 {
      assert GoodRound(c, force, round(buffer));
      if round(buffer).More? {
        RoundsStayGood(c, force, round, round(buffer).buffer, n - 1);
      }
    }
  }

  // No chunk exceeds the limit, for any fence parser and any number of rounds; a finished drain
  // leaves less than a full chunk, and nothing at all when it was forced.
  lemma DrainStaysWithinLimit(c: Chunking, parse: FenceParser, buffer: string, force: bool, n: nat)
    ensures var run := Drained(c, parse, buffer, force, n);
            && AllWithinLimit(c, force, run.emitted)
            && (run.finished ==> |run.buffer| < MaxChars(c) && (force ==> run.buffer == ""))
  {
    RoundsAreGood(c, parse, force);
    RoundsStayGood(c, force, RoundOf(c, parse, force), buffer, n);
  }

  lemma DrainFinishes(c: Chunking, parse: FenceParser, buffer: string, force: bool)
    requires NeverPutsBackLong(c, parse, force, buffer)
    ensures Drained(c, parse, buffer, force, |buffer| + 1).finished
  {
    RoundShortens(c, parse, force, buffer);
    RoundsFinish(RoundOf(c, parse, force), buffer, |buffer| + 1);
  }

  // A drain that ends also ends from every buffer it passes through.
  lemma {:induction false} FinishesFromLeft(round: string -> Round, buffer: string, n: nat, m: nat)
    requires Rounds(round, buffer, m).finished
    ensures Rounds(round, Left(round, buffer, n), m).finished
    decreases n
  {
    if n > 0 && round(buffer).More? {
      var next := round(buffer).buffer;
      FinishedStays(round, next, m - 1, m);
      FinishesFromLeft(round, next, n - 1, m);
    }
  }

  lemma {:induction false} FoundIsListed(spans: seq<FenceSpan>, index: int) returns (k: nat)
    requires FindFenceSpanAt(spans, index).Some?
    ensures k < |spans| && spans[k] == FindFenceSpanAt(spans, index).value && spans[k].start < index < spans[k].end
  {
    if spans[0].start < index < spans[0].end {
      k := 0;
    } else {
      k := FoundIsListed(spans[1..], index);
      k := k + 1;
    }
  }

  // The parser only ever finds fences whose reopening line is shorter than a hard break.
  ghost predicate ShortFenceLines(parse: FenceParser, max: int) {
    forall text: string, s: FenceSpan :: s in parse(text) ==> |ReopenFence(s.openLine)| < max
  }

  lemma ShortFenceLinesPutBackLess(c: Chunking, parse: FenceParser, buffer: string, force: bool)
    requires ShortFenceLines(parse, BreakMax(c, force))
    ensures !PutsBackLong(c, parse, buffer, force)
  {
    hide HardBreak, SoftBreak, FindFenceSpanAt, ReopenFence, IsBlank;
    if ChooseBreak(c, parse, buffer, force).InFence? {
      var k := FoundIsListed(parse(buffer), BreakMax(c, force));
      assert parse(buffer)[k] in parse(buffer);
    }
  }

  // With such a parser every drain ends.
  lemma ShortFenceLinesDrain(c: Chunking, parse: FenceParser, buffer: string, force: bool)
    requires ShortFenceLines(parse, BreakMax(c, force))
    ensures NeverPutsBackLong(c, parse, force, buffer)
    ensures Drained(c, parse, buffer, force, |buffer| + 1).finished
  {
    hide ShortFenceLines, PutsBackLong, Drained;
    forall n: nat ensures !PutsBackLong(c, parse, Left(RoundOf(c, parse, force), buffer, n), force) {
      ShortFenceLinesPutBackLess(c, parse, Left(RoundOf(c, parse, force), buffer, n), force);
    }
    DrainFinishes(c, parse, buffer, force);
  }

  // ---- what a round emits and leaves, character by character ----

  // later is text without a front of these characters, and does not go on with one of them.
  ghost predicate Stripped(text: string, later: string, skip: char -> bool) {
    && |later| <= |text| && text[|text| - |later|..] == later
    && (forall k :: 0 <= k < |text| - |later| ==> skip(text[k]))
    && (later != "" ==> !skip(later[0]))
  }

  lemma StrippedMore(s: string, later: string, skip: char -> bool)
    requires s != "" && skip(s[0]) && Stripped(s[1..], later, skip)
    ensures Stripped(s, later, skip)
  {
    forall k | 0 <= k < |s| - |later| ensures skip(s[k]) {
      assert k > 0 ==> s[k] == s[1..][k - 1];
    }
    assert s[|s| - |later|..] == s[1..][|s[1..]| - |later|..];
  }

  lemma StrippedHere(s: string, skip: char -> bool)
    requires s != "" ==> !skip(s[0])
    ensures Stripped(s, s, skip)
  {
    assert s[0..] == s;
  }

  const LINE_ENDS := (ch: char) => ch == '\n'

  lemma {:induction false} StrippedNewlines(s: string)
    ensures Stripped(s, StripLeadingNewlines(s), LINE_ENDS)
  {
    hide Stripped;
    if s != "" && s[0] == '\n' {
      StrippedNewlines(s[1..]);
      StrippedMore(s, StripLeadingNewlines(s[1..]), LINE_ENDS);
    } else {
      StrippedHere(s, LINE_ENDS);
    }
  }

  lemma {:induction false} StrippedSpace(s: string)
    ensures Stripped(s, TrimStart(s), IsSpace)
  {
    hide Stripped;
    if s != "" && IsSpace(s[0]) {
      StrippedSpace(s[1..]);
      StrippedMore(s, TrimStart(s[1..]), IsSpace);
    } else {
      StrippedHere(s, IsSpace);
    }
  }

  lemma {:induction false} StrippedBoth(s: string)
    ensures Stripped(s, TrimStart(StripLeadingNewlines(s)), IsSpace)
  {
    hide Stripped;
    if s != "" && s[0] == '\n' {
      StrippedBoth(s[1..]);
      StrippedMore(s, TrimStart(StripLeadingNewlines(s[1..])), IsSpace);
    } else {
      StrippedSpace(s);
    }
  }

  // What is left after a plain cut: one white space character is dropped, and the line ends after it.
  ghost predicate LeftAfterCut(rest: string, left: string) {
    Stripped(if rest != "" && IsSpace(rest[0]) then rest[1..] else rest, left, LINE_ENDS)
  }

  // A round without a cut emits all there is when drain is forced, and waits otherwise.
  lemma UncutRoundIs(c: Chunking, parse: FenceParser, buffer: string, force: bool)
    requires Drains(c, buffer, force) && ChooseBreak(c, parse, buffer, force).NoBreak?
    ensures DrainRound(c, parse, buffer, force) == if force then Stop([Emission(buffer, "", "")], "") else Stop([], buffer)
  {
    hide ChooseBreak;
  }

  // A cut of blank text emits nothing and drops all white space after it.
  lemma BlankRoundIs(c: Chunking, parse: FenceParser, buffer: string, force: bool)
    requires Drains(c, buffer, force) && !ChooseBreak(c, parse, buffer, force).NoBreak?
    requires IsBlank(buffer[..ChooseBreak(c, parse, buffer, force).index])
    ensures var round := DrainRound(c, parse, buffer, force);
            round.More? && round.emitted == [] && Stripped(buffer[ChooseBreak(c, parse, buffer, force).index..], round.buffer, IsSpace)
  {
    StrippedBoth(buffer[ChooseBreak(c, parse, buffer, force).index..]);
    hide ChooseBreak, Stripped, TrimStart, StripLeadingNewlines;
  }

  lemma LeftIs(rest: string)
    ensures LeftAfterCut(rest, StripLeadingNewlines(if rest != "" && IsSpace(rest[0]) then rest[1..] else rest))
  {
    hide Stripped;
    StrippedNewlines(if rest != "" && IsSpace(rest[0]) then rest[1..] else rest);
  }

  // Any other plain cut emits the text before it.
  lemma PlainRoundIs(c: Chunking, parse: FenceParser, buffer: string, force: bool)
    requires Drains(c, buffer, force) && ChooseBreak(c, parse, buffer, force).At?
    requires !IsBlank(buffer[..ChooseBreak(c, parse, buffer, force).index])
    ensures var round, i := DrainRound(c, parse, buffer, force), ChooseBreak(c, parse, buffer, force).index;
            round.emitted == [Emission(buffer[..i], "", "")] && LeftAfterCut(buffer[i..], round.buffer)
  {
    LeftIs(buffer[ChooseBreak(c, parse, buffer, force).index..]);
    hide ChooseBreak, LeftAfterCut, IsBlank, StripLeadingNewlines;
  }

  // A split emits the text before it with a closing line, and puts the opening line in front of the rest.
  lemma SplitRoundIs(c: Chunking, parse: FenceParser, buffer: string, force: bool)
    requires Drains(c, buffer, force) && ChooseBreak(c, parse, buffer, force).InFence?
    requires !IsBlank(buffer[..ChooseBreak(c, parse, buffer, force).index])
    ensures var round, cut := DrainRound(c, parse, buffer, force), ChooseBreak(c, parse, buffer, force);
            var raw, reopen := buffer[..cut.index], ReopenFence(cut.split.reopenFenceLine);
            && round.emitted == [Emission(raw, CloseFence(raw, cut.split.closeFenceLine), reopen)]
            && round.buffer == reopen + buffer[cut.index..]
  {
    hide ChooseBreak, IsBlank, CloseFence, ReopenFence;
  }

  // After an emission a drain goes on exactly when it is forced or a full chunk is left.
  lemma DrainGoesOnIff(c: Chunking, parse: FenceParser, buffer: string, force: bool)
    requires Drains(c, buffer, force) && !ChooseBreak(c, parse, buffer, force).NoBreak?
    requires !IsBlank(buffer[..ChooseBreak(c, parse, buffer, force).index])
    ensures var round := DrainRound(c, parse, buffer, force); round.More? <==> force || |round.buffer| >= MaxChars(c)
  {
    hide ChooseBreak, IsBlank, CloseFence, ReopenFence, StripLeadingNewlines;
  }

  // The first paragraph, line or sentence is looked for only when a forced drain has at most one
  // chunk left; every other round cuts as late as it may.
  lemma BreakChosen(c: Chunking, parse: FenceParser, buffer: string, force: bool)
    ensures force && |buffer| <= MaxChars(c) ==> ChooseBreak(c, parse, buffer, force) == SoftBreak(c, parse, buffer)
    ensures !force || |buffer| > MaxChars(c) ==> ChooseBreak(c, parse, buffer, force) == HardBreak(c, parse, buffer, force)
    ensures Drains(c, buffer, force) <==> |buffer| >= MinChars(c) || (force && buffer != "")
  {
  }

  // The lines that are put in are lines of their own.
  lemma FenceLines(raw: string, line: string)
    ensures raw != "" && raw[|raw| - 1] == '\n' ==> CloseFence(raw, line) == line + "\n"
    ensures raw == "" || raw[|raw| - 1] != '\n' ==> CloseFence(raw, line) == "\n" + line + "\n"
    ensures line != "" && line[|line| - 1] == '\n' ==> ReopenFence(line) == line
    ensures line == "" || line[|line| - 1] != '\n' ==> ReopenFence(line) == line + "\n"
  {
    if raw != "" {
      assert raw[|raw| - 1..] == [raw[|raw| - 1]];
    }
    if line != "" {
      assert line[|line| - 1..] == [line[|line| - 1]];
    }
  }

  // Before the first round: a buffer below the lower limit waits, unless drain is forced; a forced
  // drain of at most one chunk emits it as it is, unless it is blank.
  lemma ShortDrain(c: Chunking, parse: FenceParser, buffer: string, force: bool, n: nat)
    ensures !force && |buffer| < MinChars(c) ==> Drained(c, parse, buffer, force, n) == Run([], buffer, true)
    ensures force && |buffer| <= MaxChars(c) ==>
      Drained(c, parse, buffer, force, n) == Run(if forall k :: 0 <= k < |buffer| ==> IsSpace(buffer[k]) then [] else [Emission(buffer, "", "")], "", true)
  {
  }
}
