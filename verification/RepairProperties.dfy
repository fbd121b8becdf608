/** What the repaired transcript promises, stated on positions rather than on the scan. */
module RepairProperties {
  import opened Wrappers
  import opened Transcript
  import opened TranscriptRepair

  // The result at position i answers a call of the turn at k, with only results between them.
  ghost predicate AttachedAt(ms: seq<Message>, k: int, i: int) {
    && 0 <= k < i < |ms|
    && Matches(ms[i], Ids(Calls(ms[k])))
    && forall t :: k < t <= i ==> ms[t].ToolResult?
  }

  ghost predicate Attached(ms: seq<Message>) {
    forall i :: 0 <= i < |ms| && ms[i].ToolResult? ==> exists k :: AttachedAt(ms, k, i)
  }

  ghost predicate NoRepeats(ms: seq<Message>) {
    forall i, j :: 0 <= i < j < |ms| && ms[i].ToolResult? && ms[j].ToolResult? ==> ResultId(ms[i]) != ResultId(ms[j])
  }

  // Every result of ms has an id, and none of these ids is in `ids`.
  ghost predicate Avoids(ms: seq<Message>, ids: set<string>) {
    forall m <- ms :: m.ToolResult? ==> ResultId(m).Some? && ResultId(m).value !in ids
  }

  ghost predicate Paired(ms: seq<Message>) {
    Attached(ms) && NoRepeats(ms)
  }

  // The t-th message after position k is a result for the t-th call there.
  ghost predicate AnswersCall(ms: seq<Message>, k: int, t: int) {
    && 0 <= k && 0 <= t && k + 1 + t < |ms| && t < |Calls(ms[k])|
    && ResultId(ms[k + 1 + t]) == Some(Calls(ms[k])[t].id)
  }

  // Right after each turn come exactly the results of its calls, in call order.
  ghost predicate FollowedByItsResults(ms: seq<Message>, k: int)
    requires 0 <= k < |ms|
  {
    var calls := Calls(ms[k]);
    && k + |calls| < |ms|
    && (forall t :: 0 <= t < |calls| ==> AnswersCall(ms, k, t))
    && (k + |calls| + 1 < |ms| ==> !ms[k + |calls| + 1].ToolResult?)
  }

  ghost predicate CompletelyPaired(ms: seq<Message>) {
    forall k :: 0 <= k < |ms| && !ms[k].ToolResult? ==> FollowedByItsResults(ms, k)
  }

  lemma {:induction false} CallsUsable(blocks: seq<Block>)
    ensures forall c <- CallsOfBlocks(blocks) :: c.id != ""
  {
    if blocks != [] {
      CallsUsable(blocks[1..]);
    }
  }

  lemma TurnCallsUsable(m: Message)
    ensures forall c <- Calls(m) :: c.id != ""
  {
    if m.Assistant? && m.content.Blocks? {
      CallsUsable(m.content.blocks);
    }
  }

  lemma AnswerFits(call: ToolCall, span: seq<Message>)
    requires call.id != ""
    ensures ResultId(Answer(call, span)) == Some(call.id)
  {
    FirstResultFound(span, call.id);
  }

  lemma {:induction false} AnswersFit(calls: seq<ToolCall>, span: seq<Message>, seen: set<string>)
    requires forall c <- calls :: c.id != ""
    ensures forall m <- Answers(calls, span, seen) :: Matches(m, Ids(calls))
    ensures Avoids(Answers(calls, span, seen), seen) && NoRepeats(Answers(calls, span, seen))
  {
    if calls != [] {
      var next := if calls[0].id in seen then seen else seen + {calls[0].id};
      AnswersFit(calls[1..], span, next);
      AnswerFits(calls[0], span);
    }
  }

  lemma AttachedConcat(a: seq<Message>, b: seq<Message>)
    requires Attached(a) && Attached(b)
    ensures Attached(a + b)
  {
    var s := a + b;
    forall i | 0 <= i < |s| && s[i].ToolResult?
      ensures exists k :: AttachedAt(s, k, i)
    {
      if i < |a| {
        var k :| AttachedAt(a, k, i);
        assert AttachedAt(s, k, i);
      } else {
        var k :| AttachedAt(b, k, i - |a|);
        assert AttachedAt(s, |a| + k, i) by {
          forall t | |a| + k < t <= i ensures s[t].ToolResult? {
            assert b[t - |a|].ToolResult?;
          }
        }
      }
    }
  }

  lemma AttachedTurn(msg: Message, results: seq<Message>, others: seq<Message>)
    requires !msg.ToolResult? && forall m <- results :: Matches(m, Ids(Calls(msg)))
    requires forall m <- others :: !m.ToolResult?
    ensures Attached([msg] + (results + others))
  {
    var s := [msg] + results;
    forall i | 0 <= i < |s| && s[i].ToolResult?
      ensures exists k :: AttachedAt(s, k, i)
    {
      assert forall t :: 0 < t <= i ==> s[t] in results;
      assert AttachedAt(s, 0, i);
    }
    assert Attached(s) && Attached(others);
    AttachedConcat(s, others);
    assert s + others == [msg] + (results + others);
  }

  lemma NoRepeatsConcat(a: seq<Message>, b: seq<Message>, ids: set<string>)
    requires NoRepeats(a) && NoRepeats(b)
    requires forall m <- a :: m.ToolResult? ==> Matches(m, ids)
    requires Avoids(b, ids)
    ensures NoRepeats(a + b)
  {
    var s := a + b;
    forall i, j | 0 <= i < j < |s| && s[i].ToolResult? && s[j].ToolResult?
      ensures ResultId(s[i]) != ResultId(s[j])
    {
      if i < |a| && j >= |a| {
        assert s[i] in a && s[j] in b;
      } else if i >= |a| {
        assert s[i] == b[i - |a|] && s[j] == b[j - |a|];
      }
    }
  }

  lemma TurnPaired(msg: Message, span: seq<Message>, seen: set<string>)
    requires !msg.ToolResult?
    ensures Paired(Turn(msg, span, seen).out) && Avoids(Turn(msg, span, seen).out, seen)
    ensures forall m <- Turn(msg, span, seen).out :: m.ToolResult? ==> Matches(m, Ids(Calls(msg)))
  {
    TurnCallsUsable(msg);
    var answers := Answers(Calls(msg), span, seen);
    AnswersFit(Calls(msg), span, seen);
    AttachedTurn(msg, answers, NonResults(span));
  }

  // One turn of the scan: the messages up to the next assistant, and what follows.
  lemma UnfoldTurn(ms: seq<Message>, seen: set<string>) returns (span: seq<Message>, rest: seq<Message>)
    requires ms != [] && Calls(ms[0]) != []
    ensures ms == [ms[0]] + span + rest && span == ms[1..1 + |span|]
    ensures forall m <- span :: !m.Assistant?
    ensures rest == [] || rest[0].Assistant?
    ensures Scan(ms, seen) == Plus(Turn(ms[0], span, seen), Scan(rest, seen + Ids(Calls(ms[0]))))
  {
    hide Turn, SpanLength;
    var n := SpanLength(ms[1..]);
    span, rest := ms[1..1 + n], ms[1 + n..];
    assert !ms[0].ToolResult?;
    assert ms[1..] == span + rest;
    forall m <- span ensures !m.Assistant? {
      var k :| 0 <= k < n && m == ms[1..][k];
    }
  }

  lemma {:induction false} ScanPaired(ms: seq<Message>, seen: set<string>)
    ensures Paired(Scan(ms, seen).out) && Avoids(Scan(ms, seen).out, seen)
    decreases |ms|
  {
    if ms != [] {
      if Calls(ms[0]) == [] {
        ScanPaired(ms[1..], seen);
        if ms[0].ToolResult? {
          assert Scan(ms, seen).out == Scan(ms[1..], seen).out;
        } else {
          AttachedConcat([ms[0]], Scan(ms[1..], seen).out);
          NoRepeatsConcat([ms[0]], Scan(ms[1..], seen).out, {});
        }
      } else {
        var span, rest := UnfoldTurn(ms, seen);
        var ids := Ids(Calls(ms[0]));
        var head, tail := Turn(ms[0], span, seen).out, Scan(rest, seen + ids).out;
        ScanPaired(rest, seen + ids);
        TurnPaired(ms[0], span, seen);
        AttachedConcat(head, tail);
        NoRepeatsConcat(head, tail, ids);
      }
    }
  }

  // No result id repeats, and each result sits in the block right after a turn with that call.
  lemma RepairedIsPaired(ms: seq<Message>)
    ensures Paired(RepairedList(ms))
  {
    ScanPaired(ms, {});
  }

  lemma {:induction false} AnswersAreResults(calls: seq<ToolCall>, span: seq<Message>, seen: set<string>)
    ensures forall m <- Answers(calls, span, seen) :: m.ToolResult?
  {
    if calls != [] {
      var next := if calls[0].id in seen then seen else seen + {calls[0].id};
      AnswersAreResults(calls[1..], span, next);
      FirstResultFound(span, calls[0].id);
    }
  }

  lemma NonResultsAround(msg: Message, results: seq<Message>, others: seq<Message>)
    requires !msg.ToolResult? && forall m <- results :: m.ToolResult?
    ensures NonResults([msg] + (results + others)) == [msg] + NonResults(others)
  {
    NonResultsEmpty(results);
    NonResultsConcat(results, others);
    NonResultsConcat([msg], results + others);
  }

  lemma TurnKeepsOthers(msg: Message, span: seq<Message>, seen: set<string>)
    requires !msg.ToolResult?
    ensures NonResults(Turn(msg, span, seen).out) == [msg] + NonResults(span)
  {
    AnswersAreResults(Calls(msg), span, seen);
    NonResultsIdentity(NonResults(span));
    NonResultsAround(msg, Answers(Calls(msg), span, seen), NonResults(span));
  }

  // Messages that are not tool results survive, in order.
  lemma {:induction false} ScanKeepsOthers(ms: seq<Message>, seen: set<string>)
    ensures NonResults(Scan(ms, seen).out) == NonResults(ms)
    decreases |ms|
  {
    if ms != [] {
      if Calls(ms[0]) == [] {
        ScanKeepsOthers(ms[1..], seen);
        if ms[0].ToolResult? {
          assert Scan(ms, seen).out == Scan(ms[1..], seen).out;
        } else {
          NonResultsConcat([ms[0]], Scan(ms[1..], seen).out);
        }
      } else {
        var span, rest := UnfoldTurn(ms, seen);
        var next := seen + Ids(Calls(ms[0]));
        ScanKeepsOthers(rest, next);
        TurnKeepsOthers(ms[0], span, seen);
        NonResultsConcat(Turn(ms[0], span, seen).out, Scan(rest, next).out);
        NonResultsConcat([ms[0]] + span, rest);
        NonResultsConcat([ms[0]], span);
      }
    }
  }

  lemma RepairedKeepsOthers(ms: seq<Message>)
    ensures NonResults(RepairedList(ms)) == NonResults(ms)
    ensures AllCallIds(RepairedList(ms)) == AllCallIds(ms)
  {
    ScanKeepsOthers(ms, {});
    AllCallIdsIgnoreResults(ms);
    AllCallIdsIgnoreResults(RepairedList(ms));
  }

  // ---- repairing twice ----

  lemma {:induction false} SpanEndsAt(span: seq<Message>, rest: seq<Message>)
    requires forall m <- span :: !m.Assistant?
    requires rest == [] || rest[0].Assistant?
    ensures SpanLength(span + rest) == |span|
  {
    if span == [] {
      assert span + rest == rest;
    } else {
      assert (span + rest)[1..] == span[1..] + rest;
      SpanEndsAt(span[1..], rest);
    }
  }

  lemma {:induction false} FirstResultSkips(skipped: seq<Message>, span: seq<Message>, id: string)
    requires forall m <- skipped :: ResultId(m) != Some(id)
    ensures FirstResult(skipped + span, id) == FirstResult(span, id)
  {
    if skipped == [] {
      assert skipped + span == span;
    } else {
      assert (skipped + span)[1..] == skipped[1..] + span;
      FirstResultSkips(skipped[1..], span, id);
    }
  }

  // Answers found again in a span that starts with results of seen ids, then the answers.
  lemma {:induction false} AnswersFoundAgain(calls: seq<ToolCall>, span: seq<Message>, seen: set<string>,
                                             before: seq<Message>, after: seq<Message>)
    requires forall c <- calls :: c.id != ""
    requires forall m <- before :: Matches(m, seen)
    ensures Answers(calls, before + (Answers(calls, span, seen) + after), seen) == Answers(calls, span, seen)
  {
    if calls == [] {
    } else if calls[0].id in seen {
      AnswersFoundAgain(calls[1..], span, seen, before, after);
    } else {
      var id, answer := calls[0].id, Answer(calls[0], span);
      var others := Answers(calls[1..], span, seen + {id});
      AnswerFits(calls[0], span);
      AnswersFoundAgain(calls[1..], span, seen + {id}, before + [answer], after);
      Regroup([answer], others, after);
      Regroup(before, [answer], others + after);
      FirstResultSkips(before, [answer] + (others + after), id);
      assert ([answer] + (others + after))[0] == answer;
    }
  }

  lemma PlacedAgain(calls: seq<ToolCall>, span: seq<Message>, seen: set<string>)
    requires forall c <- calls :: c.id != ""
    ensures Placed(calls, Placed(calls, span, seen), seen) == Placed(calls, span, seen)
  {
    var answers, others := Answers(calls, span, seen), NonResults(span);
    AnswersFoundAgain(calls, span, seen, [], others);
    assert [] + (answers + others) == answers + others;
    AnswersAreResults(calls, span, seen);
    PlacedKeepsOthers(answers, others);
  }

  lemma PlacedKeepsOthers(answers: seq<Message>, others: seq<Message>)
    requires (forall m <- answers :: m.ToolResult?) && forall m <- others :: !m.ToolResult?
    ensures NonResults(answers + others) == others
  {
    NonResultsEmpty(answers);
    NonResultsConcat(answers, others);
    NonResultsIdentity(others);
  }

  lemma {:induction false} NonResultsOfSpan(span: seq<Message>)
    requires forall m <- span :: !m.Assistant?
    ensures forall m <- NonResults(span) :: !m.Assistant?
  {
    if span != [] {
      NonResultsOfSpan(span[1..]);
    }
  }

  lemma PlacedIsSpan(calls: seq<ToolCall>, span: seq<Message>, seen: set<string>)
    requires forall m <- span :: !m.Assistant?
    ensures forall m <- Placed(calls, span, seen) :: !m.Assistant?
  {
    AnswersAreResults(calls, span, seen);
    NonResultsOfSpan(span);
  }

  lemma ScanOfTurn(msg: Message, span: seq<Message>, rest: seq<Message>, seen: set<string>)
    requires Calls(msg) != [] && forall m <- span :: !m.Assistant?
    requires rest == [] || rest[0].Assistant?
    ensures Scan([msg] + span + rest, seen) == Plus(Turn(msg, span, seen), Scan(rest, seen + Ids(Calls(msg))))
  {
    var ms := [msg] + span + rest;
    SpanEndsAt(span, rest);
    assert ms[1..] == span + rest;
    assert ms[1..1 + |span|] == span && ms[1 + |span|..] == rest;
  }

  lemma {:induction false} ScanAgain(ms: seq<Message>, seen: set<string>)
    ensures Scan(Scan(ms, seen).out, seen).out == Scan(ms, seen).out
    decreases |ms|
  {
    if ms != [] {
      if Calls(ms[0]) == [] {
        ScanAgain(ms[1..], seen);
        if ms[0].ToolResult? {
          assert Scan(ms, seen).out == Scan(ms[1..], seen).out;
        } else {
          assert ([ms[0]] + Scan(ms[1..], seen).out)[1..] == Scan(ms[1..], seen).out;
        }
      } else {
        var span, rest := UnfoldTurn(ms, seen);
        var next := seen + Ids(Calls(ms[0]));
        var calls, tail := Calls(ms[0]), Scan(rest, next).out;
        ScanAgain(rest, next);
        TurnCallsUsable(ms[0]);
        PlacedAgain(calls, span, seen);
        PlacedIsSpan(calls, span, seen);
        ScanOfTurn(ms[0], Placed(calls, span, seen), tail, seen);
      }
    }
  }

  // A second repair changes neither the repaired list nor the returned one.
  lemma RepairIsIdempotent(ms: seq<Message>)
    ensures RepairedList(RepairedList(ms)) == RepairedList(ms)
    ensures RepairReport(RepairReport(ms).messages).messages == RepairReport(ms).messages
  {
    ScanAgain(ms, {});
  }
}
