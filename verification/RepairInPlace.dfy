/** Which transcripts repair leaves as they are. */
module RepairInPlace {
  import opened Wrappers
  import opened Transcript
  import opened TranscriptRepair
  import opened RepairProperties
  import opened RepairCompleteness

  // The call ids not answered before, each once, in call order.
  function NewCallIds(calls: seq<ToolCall>, seen: set<string>): seq<string> {
    if calls == [] then []
    else if calls[0].id in seen then NewCallIds(calls[1..], seen)
    else [calls[0].id] + NewCallIds(calls[1..], seen + {calls[0].id})
  }

  // The span starts with one result for each of the ids, in order, and holds no other result.
  predicate SpanInPlace(ids: seq<string>, span: seq<Message>) {
    && |ids| <= |span|
    && (forall t :: 0 <= t < |ids| ==> ResultId(span[t]) == Some(ids[t]))
    && forall t :: |ids| <= t < |span| ==> !span[t].ToolResult?
  }

  // Reading a transcript in order: the ids whose results are due next, and the call ids met so far.
  datatype Reader = Reader(due: seq<string>, seen: set<string>)

  const AT_START := Reader([], {})

  // A result must be the one that is due; anything else must not come before the results due.
  function Read(ms: seq<Message>, r: Reader): Option<Reader>
    decreases |ms|
  {
    if ms == [] then Some(r)
    else if ms[0].ToolResult? then
      if r.due != [] && ResultId(ms[0]) == Some(r.due[0]) then Read(ms[1..], r.(due := r.due[1..])) else None
    else if r.due != [] then None
    else Read(ms[1..], Reader(NewCallIds(Calls(ms[0]), r.seen), r.seen + Ids(Calls(ms[0]))))
  }

  // Every result is the one that is due, and none is missing.
  predicate InPlace(ms: seq<Message>, r: Reader) {
    Read(ms, r).Some? && Read(ms, r).value.due == []
  }

  lemma {:induction false} ReadConcat(a: seq<Message>, b: seq<Message>, r: Reader)
    ensures Read(a + b, r) == if Read(a, r).None? then None else Read(b, Read(a, r).value)
    decreases |a|
  {
    if a == [] {
      assert a + b == b;
    } else {
      assert (a + b)[0] == a[0] && (a + b)[1..] == a[1..] + b;
      if a[0].ToolResult? {
        if r.due != [] {
          ReadConcat(a[1..], b, r.(due := r.due[1..]));
        }
      } else {
        ReadConcat(a[1..], b, Reader(NewCallIds(Calls(a[0]), r.seen), r.seen + Ids(Calls(a[0]))));
      }
    }
  }

  // ---- one turn ----

  ghost predicate Answering(answers: seq<Message>, ids: seq<string>) {
    |answers| == |ids| && forall t :: 0 <= t < |ids| ==> ResultId(answers[t]) == Some(ids[t])
  }

  lemma AnsweringFirst(answer: Message, answers: seq<Message>, id: string, ids: seq<string>)
    ensures Answering([answer] + answers, [id] + ids) <==> ResultId(answer) == Some(id) && Answering(answers, ids)
  {
    var all, every := [answer] + answers, [id] + ids;
    if Answering(all, every) {
      assert all[0] == answer && every[0] == id;
      forall t | 0 <= t < |ids| ensures ResultId(answers[t]) == Some(ids[t]) {
        assert all[t + 1] == answers[t] && every[t + 1] == ids[t];
      }
    }
  }

  lemma {:induction false} AnswersAreAnswering(calls: seq<ToolCall>, span: seq<Message>, seen: set<string>)
    requires forall c <- calls :: c.id != ""
    ensures Answering(Answers(calls, span, seen), NewCallIds(calls, seen))
  {
    if calls != [] {
      hide Answering, Answer;
      var id, rest := calls[0].id, calls[1..];
      if id in seen {
        AnswersAreAnswering(rest, span, seen);
      } else {
        AnswersAreAnswering(rest, span, seen + {id});
        AnswerFits(calls[0], span);
        AnsweringFirst(Answer(calls[0], span), Answers(rest, span, seen + {id}), id, NewCallIds(rest, seen + {id}));
      }
    } else {
      assert Answering([], []);
    }
  }

  // Results that stand in place are found again, whatever results of seen ids come before them.
  lemma {:induction false} InPlaceIsFound(calls: seq<ToolCall>, seen: set<string>, before: seq<Message>,
                                          answers: seq<Message>, after: seq<Message>)
    requires forall c <- calls :: c.id != ""
    requires (forall m <- before :: Matches(m, seen)) && Answering(answers, NewCallIds(calls, seen))
    ensures Answers(calls, before + (answers + after), seen) == answers
    decreases |calls|
  {
    if calls == [] {
    } else if calls[0].id in seen {
      InPlaceIsFound(calls[1..], seen, before, answers, after);
    } else {
      var id, answer, others := calls[0].id, answers[0], answers[1..];
      assert answers == [answer] + others;
      AnsweringFirst(answer, others, id, NewCallIds(calls[1..], seen + {id}));
      InPlaceIsFound(calls[1..], seen + {id}, before + [answer], others, after);
      Regroup([answer], others, after);
      Regroup(before, [answer], others + after);
      FirstResultSkips(before, [answer] + (others + after), id);
      assert ([answer] + (others + after))[0] == answer;
    }
  }

  lemma SpanParts(ids: seq<string>, span: seq<Message>) returns (answers: seq<Message>, others: seq<Message>)
    requires SpanInPlace(ids, span)
    ensures span == answers + others && Answering(answers, ids)
    ensures (forall m <- answers :: m.ToolResult?) && forall m <- others :: !m.ToolResult?
  {
    answers, others := span[..|ids|], span[|ids|..];
    forall t | 0 <= t < |ids| ensures answers[t] == span[t] && answers[t].ToolResult? {
      assert ResultId(span[t]) == Some(ids[t]);
    }
  }

  lemma PartsInPlace(ids: seq<string>, answers: seq<Message>, others: seq<Message>)
    requires Answering(answers, ids) && forall m <- others :: !m.ToolResult?
    ensures SpanInPlace(ids, answers + others)
  {
  }

  lemma PlacedIffInPlace(calls: seq<ToolCall>, span: seq<Message>, seen: set<string>)
    requires forall c <- calls :: c.id != ""
    ensures Placed(calls, span, seen) == span <==> SpanInPlace(NewCallIds(calls, seen), span)
  {
    hide SpanInPlace, Answering, Answers, NonResults, NewCallIds;
    var ids := NewCallIds(calls, seen);
    if SpanInPlace(ids, span) {
      var answers, others := SpanParts(ids, span);
      InPlaceIsFound(calls, seen, [], answers, others);
      assert [] + (answers + others) == span;
      PlacedKeepsOthers(answers, others);
    }
    if Placed(calls, span, seen) == span {
      AnswersAreAnswering(calls, span, seen);
      PartsInPlace(ids, Answers(calls, span, seen), NonResults(span));
    }
  }

  // ---- the whole transcript ----

  ghost predicate KeptIffInPlace(ms: seq<Message>, seen: set<string>) {
    Scan(ms, seen).out == ms <==> InPlace(ms, Reader([], seen))
  }

  lemma FirstInPlaceIff(ms: seq<Message>, seen: set<string>)
    requires ms != [] && Calls(ms[0]) == []
    ensures InPlace(ms, Reader([], seen)) <==> !ms[0].ToolResult? && InPlace(ms[1..], Reader([], seen))
  {
    assert seen + Ids(Calls(ms[0])) == seen;
  }

  lemma FirstKeptIff(ms: seq<Message>, seen: set<string>)
    requires ms != [] && Calls(ms[0]) == [] && KeptIffInPlace(ms[1..], seen)
    ensures KeptIffInPlace(ms, seen)
  {
    hide Scan, InPlace;
    var tail := Scan(ms[1..], seen).out;
    FirstInPlaceIff(ms, seen);
    FirstWithoutCalls(ms, seen);
    ScanStartsWithoutResult(ms[1..], seen);
    assert ([ms[0]] + tail)[1..] == tail;
    assert ms == [ms[0]] + ms[1..];
  }

  // What the scan puts out starts with an assistant when its input does.
  lemma ScanStartsWithAssistant(ms: seq<Message>, seen: set<string>)
    requires ms == [] || ms[0].Assistant?
    ensures Scan(ms, seen).out == [] || Scan(ms, seen).out[0].Assistant?
  {
    hide SpanLength, Placed;
  }

  // The first part without assistants is where a list is cut.
  lemma CutAtAssistant(a: seq<Message>, x: seq<Message>, b: seq<Message>, y: seq<Message>)
    requires (forall m <- a :: !m.Assistant?) && (forall m <- b :: !m.Assistant?)
    requires (x == [] || x[0].Assistant?) && (y == [] || y[0].Assistant?)
    ensures a + x == b + y <==> a == b && x == y
  {
    SpanEndsAt(a, x);
    SpanEndsAt(b, y);
    if a + x == b + y {
      assert a == (a + x)[..|a|] && b == (b + y)[..|b|];
      assert x == (a + x)[|a|..] && y == (b + y)[|b|..];
    }
  }

  lemma HeadsAgree(msg: Message, a: seq<Message>, x: seq<Message>, b: seq<Message>, y: seq<Message>)
    ensures [msg] + a + x == [msg] + b + y <==> a + x == b + y
  {
    assert ([msg] + a + x)[1..] == a + x && ([msg] + b + y)[1..] == b + y;
    Regroup([msg], a, x);
    Regroup([msg], b, y);
  }

  // After a turn, the results of its new ids are due; after them, nothing is.
  lemma {:induction false} SpanInPlaceIff(span: seq<Message>, rest: seq<Message>, due: seq<string>, seen: set<string>)
    requires (forall m <- span :: !m.Assistant?) && (rest == [] || rest[0].Assistant?)
    ensures InPlace(span + rest, Reader(due, seen)) <==> SpanInPlace(due, span) && InPlace(rest, Reader([], seen))
    decreases |span|
  {
    if span == [] {
      assert span + rest == rest;
    } else {
      assert (span + rest)[0] == span[0] && (span + rest)[1..] == span[1..] + rest;
      if !span[0].ToolResult? {
        assert seen + Ids(Calls(span[0])) == seen;
        SpanInPlaceIff(span[1..], rest, [], seen);
        OthersInPlaceIff(span, due);
      } else if due != [] {
        SpanInPlaceIff(span[1..], rest, due[1..], seen);
        ResultInPlaceIff(span, due);
      }
    }
  }

  lemma OthersInPlaceIff(span: seq<Message>, due: seq<string>)
    requires span != [] && !span[0].ToolResult?
    ensures SpanInPlace(due, span) <==> due == [] && SpanInPlace([], span[1..])
  {
    if due == [] && SpanInPlace([], span[1..]) {
      forall t | 0 <= t < |span| ensures !span[t].ToolResult? {
        if t > 0 {
          assert span[t] == span[1..][t - 1];
        }
      }
    }
  }

  lemma ResultInPlaceIff(span: seq<Message>, due: seq<string>)
    requires span != [] && due != []
    ensures SpanInPlace(due, span) <==> ResultId(span[0]) == Some(due[0]) && SpanInPlace(due[1..], span[1..])
  {
    var ids, others := due[1..], span[1..];
    if SpanInPlace(due, span) {
      forall t | 0 <= t < |ids| ensures ResultId(others[t]) == Some(ids[t]) {
        assert ResultId(span[t + 1]) == Some(due[t + 1]);
      }
    }
    if ResultId(span[0]) == Some(due[0]) && SpanInPlace(ids, others) {
      forall t | 0 <= t < |due| ensures ResultId(span[t]) == Some(due[t]) {
        assert t > 0 ==> ResultId(others[t - 1]) == Some(ids[t - 1]);
      }
      forall t | |due| <= t < |span| ensures !span[t].ToolResult? {
        assert span[t] == others[t - 1];
      }
    }
  }

  lemma InPlaceTurnIff(ms: seq<Message>, seen: set<string>, span: seq<Message>, rest: seq<Message>)
    requires ms != [] && Calls(ms[0]) != [] && ms == [ms[0]] + span + rest
    requires (forall m <- span :: !m.Assistant?) && (rest == [] || rest[0].Assistant?)
    ensures InPlace(ms, Reader([], seen))
       <==> SpanInPlace(NewCallIds(Calls(ms[0]), seen), span) && InPlace(rest, Reader([], seen + Ids(Calls(ms[0]))))
  {
    hide SpanInPlace, NewCallIds, Ids;
    Regroup([ms[0]], span, rest);
    assert ms[1..] == span + rest;
    SpanInPlaceIff(span, rest, NewCallIds(Calls(ms[0]), seen), seen + Ids(Calls(ms[0])));
  }

  lemma TurnKeptIff(ms: seq<Message>, seen: set<string>, span: seq<Message>, rest: seq<Message>)
    requires ms != [] && Calls(ms[0]) != [] && ms == [ms[0]] + span + rest
    requires (forall m <- span :: !m.Assistant?) && (rest == [] || rest[0].Assistant?)
    requires Scan(ms, seen) == Plus(Turn(ms[0], span, seen), Scan(rest, seen + Ids(Calls(ms[0]))))
    requires KeptIffInPlace(rest, seen + Ids(Calls(ms[0])))
    ensures KeptIffInPlace(ms, seen)
  {
    hide Placed, InPlace, SpanInPlace, NewCallIds, Scan, Ids;
    var calls, next := Calls(ms[0]), seen + Ids(Calls(ms[0]));
    var placed, tail := Placed(calls, span, seen), Scan(rest, next).out;
    TurnCallsUsable(ms[0]);
    PlacedIffInPlace(calls, span, seen);
    PlacedIsSpan(calls, span, seen);
    ScanStartsWithAssistant(rest, next);
    CutAtAssistant(placed, tail, span, rest);
    HeadsAgree(ms[0], placed, tail, span, rest);
    InPlaceTurnIff(ms, seen, span, rest);
  }

  lemma {:induction false} ScanKeepsIff(ms: seq<Message>, seen: set<string>)
    ensures KeptIffInPlace(ms, seen)
    decreases |ms|
  {
    if ms == [] {
    } else if Calls(ms[0]) == [] {
      ScanKeepsIff(ms[1..], seen);
      FirstKeptIff(ms, seen);
    } else {
      var span, rest := UnfoldTurn(ms, seen);
      ScanKeepsIff(rest, seen + Ids(Calls(ms[0])));
      TurnKeptIff(ms, seen, span, rest);
    }
  }

  // The list that repair builds is its input exactly when every result is in place; the list it
  // hands back is its input exactly when that is so or no change is reported.
  lemma RepairKeepsIff(ms: seq<Message>)
    ensures RepairedList(ms) == ms <==> InPlace(ms, AT_START)
    ensures RepairReport(ms).messages == ms <==> InPlace(ms, AT_START) || Tidy(ms, {})
  {
    hide Scan, InPlace, Tidy;
    ScanKeepsIff(ms, {});
    ScanUnchangedIff(ms, {});
  }

  // A user message right after the result of a call: a change is reported where there is none.
  lemma ReportedButKeptExample(call: Message, answer: Message, user: Message)
    requires call == Assistant(Blocks([CallBlock(ToolCallMark, Some("a"), None, 0)]), 0)
    requires answer == ToolResult(Some("a"), None, None, Recorded(1)) && user.Other?
    ensures RepairReport([call, answer, user]).moved
    ensures RepairedList([call, answer, user]) == [call, answer, user]
  {
    hide Scan, InPlace, Tidy, Turn;
    var ms, span := [call, answer, user], [answer, user];
    assert Calls(call) == [ToolCall("a", None)] by {
      assert CallsOfBlocks(call.content.blocks[1..]) == [];
    }
    assert ms == [call] + span + [];
    assert Calls(call)[1..] == [] && NewCallIds(Calls(call), {}) == ["a"];
    InPlaceTurnIff(ms, {}, span, []);
    assert InPlace([], Reader([], {} + Ids(Calls(call)))) by { NothingInPlace({} + Ids(Calls(call))); }
    ScanKeepsIff(ms, {});
    assert user in span;
    OthersAreNotTidy(ms, span, {});
    ChangeIsReportedIff(ms);
  }

  lemma NothingInPlace(seen: set<string>)
    ensures InPlace([], Reader([], seen))
  {
  }

  lemma OthersAreNotTidy(ms: seq<Message>, span: seq<Message>, seen: set<string>)
    requires ms != [] && Calls(ms[0]) != [] && ms == [ms[0]] + span + []
    requires (forall m <- span :: !m.Assistant?) && exists m <- span :: !m.ToolResult?
    ensures !Tidy(ms, seen)
  {
    hide NewIds, Ids;
    assert ms[1..] == span + [];
    SpanEndsAt(span, []);
    assert ms[1..1 + |span|] == span;
    var m :| m in span && !m.ToolResult?;
    assert !Matches(m, Ids(Calls(ms[0])));
  }
}
