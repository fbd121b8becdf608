/** What a pass over a file makes of it, told from the original lines. */
module DiffPasses {
  import opened Wrappers
  import opened UnifiedDiff

  // Where the old side of the hunk stands in the original file.
  predicate StandsIn(original: Lines, from: nat, hunk: Hunk) {
    var p := hunk.oldStart - 1;
    from <= p && p + |OldSide(hunk.lines)| <= |original| && original[p..p + |OldSide(hunk.lines)|] == OldSide(hunk.lines)
  }

  // Accurate, well-marked hunks, one after the other, each of whose old sides stands in the original
  // file at the line its header gives.
  predicate Fits(original: Lines, hunks: seq<Hunk>, from: nat)
    decreases |hunks|
  {
    hunks != [] ==>
      && Accurate(hunks[0]) && WellMarked(hunks[0].lines) && StandsIn(original, from, hunks[0])
      && Fits(original, hunks[1..], hunks[0].oldStart - 1 + |OldSide(hunks[0].lines)|)
  }

  function End(hunk: Hunk): int {
    hunk.oldStart - 1 + |OldSide(hunk.lines)|
  }

  // The original lines from `from` on, with the new side of each hunk in place of its old side.
  function Patched(original: Lines, hunks: seq<Hunk>, from: nat): Lines
    requires from <= |original| && Fits(original, hunks, from)
    decreases |hunks|
  {
    if hunks == [] then original[from..]
    else original[from..hunks[0].oldStart - 1] + NewSide(hunks[0].lines) + Patched(original, hunks[1..], End(hunks[0]))
  }

  // The same with only some of the hunks applied.
  function Mixed(original: Lines, hunks: seq<Hunk>, applied: seq<bool>, from: nat): Lines
    requires from <= |original| && Fits(original, hunks, from) && |applied| == |hunks|
    decreases |hunks|
  {
    if hunks == [] then original[from..]
    else
      original[from..hunks[0].oldStart - 1] + (if applied[0] then NewSide(hunks[0].lines) else OldSide(hunks[0].lines))
      + Mixed(original, hunks[1..], applied[1..], End(hunks[0]))
  }

  // The new side of no hunk that is still to be applied already stands at its place.
  predicate NotThereYet(original: Lines, hunks: seq<Hunk>, applied: seq<bool>, from: nat)
    requires from <= |original| && Fits(original, hunks, from) && |applied| == |hunks|
    decreases |hunks|
  {
    hunks != [] ==>
      var rest := Mixed(original, hunks[1..], applied[1..], End(hunks[0]));
      && (applied[0] || !(NewSide(hunks[0].lines) <= OldSide(hunks[0].lines) + rest))
      && NotThereYet(original, hunks[1..], applied[1..], End(hunks[0]))
  }

  // ---- one hunk ----

  lemma HoldsIff(front: Lines, rest: Lines, side: Lines)
    ensures Holds(front + rest, |front|, side) <==> side <= rest
  {
    if |side| <= |rest| {
      assert (front + rest)[|front|..|front| + |side|] == rest[..|side|];
    }
  }

  lemma HunkGoesThrough(front: Lines, rest: Lines, hunk: Hunk, offset: int, applied: bool)
    requires Accurate(hunk) && WellMarked(hunk.lines) && hunk.oldStart - 1 + offset == |front|
    requires applied || !(NewSide(hunk.lines) <= OldSide(hunk.lines) + rest)
    ensures HunkOutcome(front + ((if applied then NewSide(hunk.lines) else OldSide(hunk.lines)) + rest), hunk, offset)
         == Applied(front + (NewSide(hunk.lines) + rest), offset + |NewSide(hunk.lines)| - |OldSide(hunk.lines)|)
  {
    hide WellMarked, ApplyBody, NewSide, OldSide, Holds;
    var side := if applied then NewSide(hunk.lines) else OldSide(hunk.lines);
    HoldsIff(front, side + rest, NewSide(hunk.lines));
    if !applied {
      BodyReplacesOldSide(front, side + rest, hunk.lines);
      OldSideTaken(front, rest, hunk.lines);
    }
  }

  lemma OldSideTaken(front: Lines, rest: Lines, body: Lines)
    requires WellMarked(body) && BodyEffect(front, OldSide(body) + rest, body)
    ensures ApplyBody(front + (OldSide(body) + rest), |front|, body).Ok?
    ensures ApplyBody(front + (OldSide(body) + rest), |front|, body).lines == front + (NewSide(body) + rest)
  {
    hide WellMarked, ApplyBody, NewSide, OldSide;
    assert (OldSide(body) + rest)[|OldSide(body)|..] == rest;
    Regroup(front, NewSide(body), rest);
  }

  // ---- the pass ----

  lemma PassStep(lines: Lines, hunks: seq<Hunk>, offset: int, next: Lines, o: int)
    requires hunks != [] && HunkOutcome(lines, hunks[0], offset) == Applied(next, o)
    ensures PassOutcome(lines, hunks, offset) == PassOutcome(next, hunks[1..], o)
  {
    hide HunkOutcome;
  }

  // The first hunk, the lines before it, and the lines after it.
  lemma Unfolded(original: Lines, hunks: seq<Hunk>, applied: seq<bool>, from: nat)
    requires hunks != [] && from <= |original| && Fits(original, hunks, from) && |applied| == |hunks|
    ensures Accurate(hunks[0]) && WellMarked(hunks[0].lines) && from <= hunks[0].oldStart - 1 <= End(hunks[0]) <= |original|
    ensures End(hunks[0]) == hunks[0].oldStart - 1 + |OldSide(hunks[0].lines)|
    ensures original[hunks[0].oldStart - 1..End(hunks[0])] == OldSide(hunks[0].lines) && Fits(original, hunks[1..], End(hunks[0]))
    ensures Mixed(original, hunks, applied, from)
         == original[from..hunks[0].oldStart - 1] + ((if applied[0] then NewSide(hunks[0].lines) else OldSide(hunks[0].lines))
                                                     + Mixed(original, hunks[1..], applied[1..], End(hunks[0])))
    ensures Patched(original, hunks, from)
         == original[from..hunks[0].oldStart - 1] + (NewSide(hunks[0].lines) + Patched(original, hunks[1..], End(hunks[0])))
  {
    hide NewSide, OldSide, WellMarked;
    var hunk := hunks[0];
    var kept := original[from..hunk.oldStart - 1];
    Regroup(kept, if applied[0] then NewSide(hunk.lines) else OldSide(hunk.lines), Mixed(original, hunks[1..], applied[1..], End(hunk)));
    Regroup(kept, NewSide(hunk.lines), Patched(original, hunks[1..], End(hunk)));
  }

  lemma StillToApply(original: Lines, hunks: seq<Hunk>, applied: seq<bool>, from: nat)
    requires hunks != [] && from <= |original| && Fits(original, hunks, from) && |applied| == |hunks|
    requires NotThereYet(original, hunks, applied, from)
    ensures End(hunks[0]) <= |original| && Fits(original, hunks[1..], End(hunks[0]))
    ensures NotThereYet(original, hunks[1..], applied[1..], End(hunks[0]))
    ensures applied[0] || !(NewSide(hunks[0].lines) <= OldSide(hunks[0].lines) + Mixed(original, hunks[1..], applied[1..], End(hunks[0])))
  {
    hide NewSide, OldSide, WellMarked, Mixed;
  }

  lemma {:induction false} PassFrom(original: Lines, hunks: seq<Hunk>, applied: seq<bool>, from: nat, done: Lines, offset: int)
    requires from <= |original| && Fits(original, hunks, from) && |applied| == |hunks|
    requires NotThereYet(original, hunks, applied, from) && |done| == from + offset
    ensures PassOutcome(done + Mixed(original, hunks, applied, from), hunks, offset)
         == Applied(done + Patched(original, hunks, from), |done| + |Patched(original, hunks, from)| - |original|)
    decreases |hunks|
  {
    hide HunkOutcome, NewSide, OldSide, WellMarked;
    if hunks != [] {
      hide *;
      Unfolded(original, hunks, applied, from);
      StillToApply(original, hunks, applied, from);
      var hunk := hunks[0];
      var kept, rest := original[from..hunk.oldStart - 1], Mixed(original, hunks[1..], applied[1..], End(hunk));
      var side := if applied[0] then NewSide(hunk.lines) else OldSide(hunk.lines);
      var front, later := done + kept, Patched(original, hunks[1..], End(hunk));
      HunkGoesThrough(front, rest, hunk, offset, applied[0]);
      Regroup(done, kept, side + rest);
      var next, o := front + NewSide(hunk.lines), offset + |NewSide(hunk.lines)| - |OldSide(hunk.lines)|;
      Regroup(front, NewSide(hunk.lines), rest);
      PassStep(front + (side + rest), hunks, offset, next + rest, o);
      PassFrom(original, hunks[1..], applied[1..], End(hunk), next, o);
      Regroup(done, kept, NewSide(hunk.lines) + later);
      Regroup(front, NewSide(hunk.lines), later);
    }
  }

  // A file that is the original with some of the hunks already applied: the pass goes through and
  // leaves the original with all of them applied, and the offset is what the file has grown by,
  // unless a hunk that is still to be applied finds its new side at its place by accident.
  lemma PassPatches(original: Lines, hunks: seq<Hunk>, applied: seq<bool>)
    requires Fits(original, hunks, 0) && |applied| == |hunks| && NotThereYet(original, hunks, applied, 0)
    ensures var after := Patched(original, hunks, 0);
            PassOutcome(Mixed(original, hunks, applied, 0), hunks, 0) == Applied(after, |after| - |original|)
  {
    hide PassOutcome, Patched, Mixed;
    PassFrom(original, hunks, applied, 0, [], 0);
    var mixed, after := Mixed(original, hunks, applied, 0), Patched(original, hunks, 0);
    assert [] + mixed == mixed && [] + after == after;
  }

  lemma {:induction false} NoneApplied(original: Lines, hunks: seq<Hunk>, applied: seq<bool>, from: nat)
    requires from <= |original| && Fits(original, hunks, from) && |applied| == |hunks| && forall k :: 0 <= k < |applied| ==> !applied[k]
    ensures Mixed(original, hunks, applied, from) == original[from..]
    decreases |hunks|
  {
    if hunks != [] {
      hide *;
      Unfolded(original, hunks, applied, from);
      NoneApplied(original, hunks[1..], applied[1..], End(hunks[0]));
      ThreeParts(original, from, hunks[0].oldStart - 1, End(hunks[0]));
    }
  }

  lemma ThreeParts(lines: Lines, a: nat, b: nat, c: nat)
    requires a <= b <= c <= |lines|
    ensures lines[a..] == lines[a..b] + (lines[b..c] + lines[c..])
  {
  }

  // In particular a diff that fits a file patches it.
  lemma GoodDiffPatches(original: Lines, hunks: seq<Hunk>, applied: seq<bool>)
    requires Fits(original, hunks, 0) && applied == seq(|hunks|, i => false) && NotThereYet(original, hunks, applied, 0)
    ensures var after := Patched(original, hunks, 0); PassOutcome(original, hunks, 0) == Applied(after, |after| - |original|)
  {
    hide PassOutcome, Patched, NotThereYet;
    NoneApplied(original, hunks, applied, 0);
    assert original[0..] == original;
    PassPatches(original, hunks, applied);
  }

  // ---- the two sides of a body ----

  predicate Marked(raw: string, markers: set<char>) {
    raw != "" && raw[0] in markers
  }

  // The lines with one of the markers, in order, without their markers.
  ghost predicate IsSide(body: Lines, markers: set<char>, side: Lines, at: seq<int>) {
    && Increasing(at) && |at| == |side|
    && (forall i :: 0 <= i < |body| ==> (Marked(body[i], markers) <==> i in at))
    && forall k :: 0 <= k < |at| ==> 0 <= at[k] < |body| && body[at[k]] != "" && side[k] == body[at[k]][1..]
  }

  lemma SideSnoc(body: Lines, markers: set<char>, side: Lines, at: seq<int>, raw: string)
    requires IsSide(body, markers, side, at)
    ensures if Marked(raw, markers) then IsSide(body + [raw], markers, side + [raw[1..]], at + [|body|])
            else IsSide(body + [raw], markers, side, at)
  {
    var all, places := body + [raw], if Marked(raw, markers) then at + [|body|] else at;
    PlacesSnoc(at, |body|);
    forall i | 0 <= i < |all| ensures Marked(all[i], markers) <==> i in places {
      if i < |body| {
        assert all[i] == body[i];
        assert i in at + [|body|] <==> i in at;
      } else {
        assert i !in at;
      }
    }
  }

  lemma {:induction false} SidesSnoc(body: Lines, raw: string)
    ensures OldSide(body + [raw]) == OldSide(body) + if Marked(raw, {' ', '-'}) then [raw[1..]] else []
    ensures NewSide(body + [raw]) == NewSide(body) + if Marked(raw, {' ', '+'}) then [raw[1..]] else []
  {
    if body == [] {
      assert body + [raw] == [raw] && [raw][1..] == [];
    } else {
      assert (body + [raw])[1..] == body[1..] + [raw];
      SidesSnoc(body[1..], raw);
    }
  }

  // The old side is the context lines and the removed ones; the new side is the context lines and
  // the added ones.
  lemma {:induction false} SidesAre(body: Lines) returns (olds: seq<int>, news: seq<int>)
    ensures IsSide(body, {' ', '-'}, OldSide(body), olds) && IsSide(body, {' ', '+'}, NewSide(body), news)
  {
    if body == [] {
      olds, news := [], [];
    } else {
      hide IsSide;
      var front, raw := body[..|body| - 1], body[|body| - 1];
      assert body == front + [raw];
      olds, news := SidesAre(front);
      SidesSnoc(front, raw);
      SideSnoc(front, {' ', '-'}, OldSide(front), olds, raw);
      SideSnoc(front, {' ', '+'}, NewSide(front), news, raw);
      olds := if Marked(raw, {' ', '-'}) then olds + [|front|] else olds;
      news := if Marked(raw, {' ', '+'}) then news + [|front|] else news;
    }
  }

  // ---- a hunk that does not fit ----

  // A body does not go on with this line before these lines of the file: its marker is unknown, or
  // it is not an added line and its text does not stand there.
  predicate Unfit(raw: string, rest: Lines) {
    || raw == "" || (raw[0] != ' ' && raw[0] != '-' && raw[0] != '+')
    || (raw[0] != '+' && (rest == [] || rest[0] != raw[1..]))
  }

  lemma TakeFirst(front: Lines, text: string, later: Lines)
    ensures front + ([text] + later) == front + [text] + later
    ensures LineAt(front + ([text] + later), |front|) == Some(text)
    ensures (front + ([text] + later))[..|front|] + (front + ([text] + later))[|front| + 1..] == front + later
    ensures SpliceIn(front + later, |front|, text) == front + [text] + later
  {
  }

  lemma OneLineGoesOn(front: Lines, raw: string, later: Lines)
    requires HasMarker(raw, ' ') || HasMarker(raw, '-') || HasMarker(raw, '+')
    ensures HasMarker(raw, ' ') ==>
      ApplyLine(front + ([raw[1..]] + later), |front|, raw) == Ok(front + ([raw[1..]] + later), |front| + 1)
    ensures HasMarker(raw, '-') ==> ApplyLine(front + ([raw[1..]] + later), |front|, raw) == Ok(front + later, |front|)
    ensures HasMarker(raw, '+') ==> ApplyLine(front + later, |front|, raw) == Ok(front + [raw[1..]] + later, |front| + 1)
  {
    TakeFirst(front, raw[1..], later);
    hide LineAt, SpliceIn;
  }

  lemma LineGoesOn(front: Lines, raw: string, later: Lines)
    requires WellMarked([raw])
    ensures ApplyLine(front + (OldSide([raw]) + later), |front|, raw) == Ok(front + NewSide([raw]) + later, |front| + |NewSide([raw])|)
  {
    SidesOfLine(raw);
    OneLineGoesOn(front, raw, later);
    TakeFirst(front, raw[1..], later);
    hide *;
    assert [] + later == later && front + [] == front;
  }

  lemma SidesOfLine(raw: string)
    requires WellMarked([raw])
    ensures raw != "" && (HasMarker(raw, ' ') || HasMarker(raw, '-') || HasMarker(raw, '+'))
    ensures OldSide([raw]) == if HasMarker(raw, '+') then [] else [raw[1..]]
    ensures NewSide([raw]) == if HasMarker(raw, '-') then [] else [raw[1..]]
  {
    assert [raw][1..] == [] && [raw][0] == raw;
  }

  lemma LineStops(front: Lines, raw: string, rest: Lines)
    requires Unfit(raw, rest)
    ensures ApplyLine(front + rest, |front|, raw) == Stuck(front + rest)
  {
    assert LineAt(front + rest, |front|) == if rest == [] then None else Some(rest[0]);
  }

  lemma SidesFirst(body: Lines, k: nat)
    requires 0 < k <= |body| && WellMarked(body[..k])
    ensures WellMarked([body[0]]) && WellMarked(body[1..][..k - 1])
    ensures OldSide(body[..k]) == OldSide([body[0]]) + OldSide(body[1..][..k - 1])
    ensures NewSide(body[..k]) == NewSide([body[0]]) + NewSide(body[1..][..k - 1])
  {
    var part := body[..k];
    assert part[1..] == body[1..][..k - 1] && part[0] == body[0] && [part[0]][1..] == [];
    assert [part[0]] + part[1..] == part;
    WellMarkedStep(part);
  }

  lemma {:induction false} BodyStopsAt(front: Lines, rest: Lines, body: Lines, k: nat)
    requires k < |body| && WellMarked(body[..k]) && Unfit(body[k], rest)
    ensures ApplyBody(front + (OldSide(body[..k]) + rest), |front|, body) == Stuck(front + (NewSide(body[..k]) + rest))
    decreases k
  {
    hide ApplyLine, WellMarked, OldSide, NewSide, Unfit;
    if k == 0 {
      NoSides(body);
      assert front + ([] + rest) == front + rest;
      LineStops(front, body[0], rest);
    } else {
      SidesFirst(body, k);
      var first, later := [body[0]], body[1..][..k - 1];
      LineGoesOn(front, body[0], OldSide(later) + rest);
      BodyStopsAt(front + NewSide(first), rest, body[1..], k - 1);
      Regroup(OldSide(first), OldSide(later), rest);
      Regroup(NewSide(first), NewSide(later), rest);
      Regroup(front, NewSide(first), OldSide(later) + rest);
      Regroup(front, NewSide(first), NewSide(later) + rest);
    }
  }

  lemma NoSides(body: Lines)
    ensures OldSide(body[..0]) == [] && NewSide(body[..0]) == []
  {
  }

  // A hunk with a line that does not fit throws, and leaves the lines before it replaced and the
  // others as they are.
  lemma HunkStopsAt(front: Lines, rest: Lines, hunk: Hunk, offset: int, k: nat)
    requires k < |hunk.lines| && WellMarked(hunk.lines[..k]) && Unfit(hunk.lines[k], rest)
    requires |front| == hunk.oldStart - 1 + offset && !(NewSide(hunk.lines) <= OldSide(hunk.lines[..k]) + rest)
    ensures HunkOutcome(front + (OldSide(hunk.lines[..k]) + rest), hunk, offset) == Thrown(front + (NewSide(hunk.lines[..k]) + rest))
  {
    hide ApplyBody, WellMarked, OldSide, NewSide, Unfit, Holds;
    HoldsIff(front, OldSide(hunk.lines[..k]) + rest, NewSide(hunk.lines));
    BodyStopsAt(front, rest, hunk.lines, k);
  }

  // A pass takes the hunks in order, and stops with the first that throws.
  lemma {:induction false} PassGoesOn(lines: Lines, hunks: seq<Hunk>, hunk: Hunk, offset: int)
    ensures PassOutcome(lines, hunks + [hunk], offset)
         == match PassOutcome(lines, hunks, offset)
            case Applied(next, o) => HunkOutcome(next, hunk, o)
            case Thrown(at) => Thrown(at)
    decreases |hunks|
  {
    hide HunkOutcome;
    if hunks == [] {
      assert [] + [hunk] == [hunk] && [hunk][1..] == [];
    } else {
      assert (hunks + [hunk])[1..] == hunks[1..] + [hunk];
      match HunkOutcome(lines, hunks[0], offset)
      case Applied(next, o) => PassGoesOn(next, hunks[1..], hunk, o);
      case Thrown(_) =>
    }
  }

  // A line is put in at its place: at the end when that is past it, and from the end when it is negative.
  lemma SpliceIs(lines: Lines, at: int, line: string) returns (k: nat)
    ensures k <= |lines| && SpliceIn(lines, at, line) == lines[..k] + [line] + lines[k..]
    ensures 0 <= at <= |lines| ==> k == at
    ensures at > |lines| ==> k == |lines|
    ensures at < 0 ==> k == AtLeast(0, |lines| + at)
  {
    k := if at > |lines| then |lines| else if at >= 0 then at else AtLeast(0, |lines| + at);
  }
}
