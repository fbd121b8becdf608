/** When the repaired transcript answers every call, and what the returned list may still miss. */
module RepairCompleteness {
  import opened Wrappers
  import opened Transcript
  import opened TranscriptRepair
  import opened RepairProperties

  ghost predicate Disjoint(ids: seq<string>, seen: set<string>) {
    forall id <- ids :: id !in seen
  }

  lemma NoDuplicatesConcat(a: seq<string>, b: seq<string>)
    ensures NoDuplicates(a + b) <==> NoDuplicates(a) && NoDuplicates(b) && forall x <- a :: x !in b
  {
    var s := a + b;
    if NoDuplicates(s) {
      forall i, j | 0 <= i < j < |a| ensures a[i] != a[j] { assert s[i] != s[j]; }
      forall i, j | 0 <= i < j < |b| ensures b[i] != b[j] { assert s[|a| + i] != s[|a| + j]; }
      forall x <- a ensures x !in b {
        var i :| 0 <= i < |a| && a[i] == x;
        forall j | 0 <= j < |b| ensures b[j] != x { assert s[i] != s[|a| + j]; }
      }
    }
    if NoDuplicates(a) && NoDuplicates(b) && forall x <- a :: x !in b {
      forall i, j | 0 <= i < j < |s| ensures s[i] != s[j] {
        if i < |a| <= j {
          assert s[i] in a && s[j] in b;
        }
      }
    }
  }

  lemma {:induction false} IdsAreCallIds(calls: seq<ToolCall>)
    ensures forall id :: id in Ids(calls) <==> id in CallIds(calls)
  {
    if calls != [] {
      IdsAreCallIds(calls[1..]);
      assert CallIds(calls) == [calls[0].id] + CallIds(calls[1..]);
    }
  }

  ghost predicate AllNew(calls: seq<ToolCall>, seen: set<string>) {
    calls == [] || (calls[0].id !in seen && AllNew(calls[1..], seen + {calls[0].id}))
  }

  lemma {:induction false} AllNewIff(calls: seq<ToolCall>, seen: set<string>)
    ensures AllNew(calls, seen) <==> NoDuplicates(CallIds(calls)) && Disjoint(CallIds(calls), seen)
  {
    if calls != [] {
      var id, rest := calls[0].id, CallIds(calls[1..]);
      assert CallIds(calls) == [id] + rest;
      AllNewIff(calls[1..], seen + {id});
      NoDuplicatesConcat([id], rest);
      assert id in CallIds(calls);
      assert Disjoint([id] + rest, seen) ==> Disjoint(rest, seen) by {
        assert forall x <- rest :: x in [id] + rest;
      }
    }
  }

  // A turn gets all its results exactly when its ids are distinct and new.
  lemma {:induction false} AnswersCount(calls: seq<ToolCall>, span: seq<Message>, seen: set<string>)
    requires forall c <- calls :: c.id != ""
    ensures |Answers(calls, span, seen)| <= |calls|
    ensures |Answers(calls, span, seen)| == |calls| <==> AllNew(calls, seen)
    ensures AllNew(calls, seen) ==>
      forall t :: 0 <= t < |calls| ==> ResultId(Answers(calls, span, seen)[t]) == Some(calls[t].id)
  {
    if calls != [] {
      AnswerFits(calls[0], span);
      AnswersCount(calls[1..], span, if calls[0].id in seen then seen else seen + {calls[0].id});
    }
  }

  // b is the end of s, from position n on.
  ghost predicate EndsWith(s: seq<Message>, n: nat, b: seq<Message>) {
    |s| == n + |b| && forall t :: 0 <= t < |b| ==> s[n + t] == b[t]
  }

  lemma AnswersCallShift(s: seq<Message>, n: nat, b: seq<Message>, k: nat, t: nat)
    requires EndsWith(s, n, b) && k < |b|
    ensures AnswersCall(s, n + k, t) <==> AnswersCall(b, k, t)
  {
    assert s[n + k] == b[k];
    if k + 1 + t < |b| {
      assert s[n + (k + 1 + t)] == b[k + 1 + t];
    }
  }

  lemma FollowedShift(s: seq<Message>, n: nat, b: seq<Message>, k: nat)
    requires EndsWith(s, n, b) && k < |b|
    ensures FollowedByItsResults(s, n + k) <==> FollowedByItsResults(b, k)
  {
    var c := |Calls(b[k])|;
    assert s[n + k] == b[k];
    if k + c + 1 < |b| {
      assert s[n + (k + c + 1)] == b[k + c + 1];
    }
    if FollowedByItsResults(s, n + k) {
      forall t | 0 <= t < c ensures AnswersCall(b, k, t) {
        assert AnswersCall(s, n + k, t);
        AnswersCallShift(s, n, b, k, t);
      }
    }
    if FollowedByItsResults(b, k) {
      var j := n + k;
      forall t | 0 <= t < c ensures AnswersCall(s, j, t) {
        assert AnswersCall(b, k, t);
        AnswersCallShift(s, n, b, k, t);
      }
    }
  }

  // A list made of a turn, its answers, other messages, and a tail that starts a new part.
  ghost predicate TurnShape(msg: Message, answers: seq<Message>, others: seq<Message>, tail: seq<Message>) {
    && !msg.ToolResult?
    && |answers| <= |Calls(msg)|
    && (forall m <- answers :: m.ToolResult?)
    && (|answers| == |Calls(msg)| ==> forall t :: 0 <= t < |answers| ==> ResultId(answers[t]) == Some(Calls(msg)[t].id))
    && (forall m <- others :: !m.ToolResult? && !m.Assistant?)
    && (tail == [] || !tail[0].ToolResult?)
  }

  // s lists the turn, its answers, the other messages and the tail, in this order.
  ghost predicate Lists(s: seq<Message>, msg: Message, answers: seq<Message>, others: seq<Message>, tail: seq<Message>) {
    && EndsWith(s, 1 + |answers| + |others|, tail)
    && s[0] == msg
    && (forall t :: 0 <= t < |answers| ==> s[1 + t] == answers[t])
    && (forall t :: 0 <= t < |others| ==> s[1 + |answers| + t] == others[t])
  }

  lemma TurnIsListed(msg: Message, answers: seq<Message>, others: seq<Message>, tail: seq<Message>)
    ensures Lists([msg] + (answers + others) + tail, msg, answers, others, tail)
  {
    var placed := answers + others;
    var head := [msg] + placed;
    var s := head + tail;
    forall t | 0 <= t < |placed| ensures s[1 + t] == placed[t] {
      assert s[1 + t] == head[1 + t];
    }
    forall t | 0 <= t < |answers| ensures s[1 + t] == answers[t] {
      assert placed[t] == answers[t];
    }
    forall t | 0 <= t < |others| ensures s[1 + |answers| + t] == others[t] {
      assert placed[|answers| + t] == others[t];
      assert s[1 + (|answers| + t)] == placed[|answers| + t];
    }
    assert EndsWith(s, |head|, tail);
  }

  lemma TurnFollowedIff(s: seq<Message>, msg: Message, answers: seq<Message>, others: seq<Message>, tail: seq<Message>)
    requires Lists(s, msg, answers, others, tail) && TurnShape(msg, answers, others, tail)
    ensures FollowedByItsResults(s, 0) <==> |answers| == |Calls(msg)|
  {
    var n := |answers|;
    NextIsNoResult(s, msg, answers, others, tail, n);
    assert FollowedByItsResults(s, 0) && n < |Calls(msg)| ==> AnswersCall(s, 0, n);
    if n == |Calls(msg)| {
      forall t | 0 <= t < n ensures AnswersCall(s, 0, t) {
        assert s[1 + t] == answers[t];
      }
    }
  }

  // From the answers on, the next message is not a result.
  lemma NextIsNoResult(s: seq<Message>, msg: Message, answers: seq<Message>, others: seq<Message>, tail: seq<Message>, k: nat)
    requires Lists(s, msg, answers, others, tail) && TurnShape(msg, answers, others, tail)
    requires |answers| <= k <= |answers| + |others|
    ensures k + 1 < |s| ==> !s[k + 1].ToolResult?
  {
    if k < |answers| + |others| {
      assert s[1 + |answers| + (k - |answers|)] == others[k - |answers|];
    } else if tail != [] {
      assert s[1 + |answers| + |others| + 0] == tail[0];
    }
  }

  lemma OtherIsFollowed(s: seq<Message>, msg: Message, answers: seq<Message>, others: seq<Message>, tail: seq<Message>, k: nat)
    requires Lists(s, msg, answers, others, tail) && TurnShape(msg, answers, others, tail)
    requires |answers| < k <= |answers| + |others|
    ensures FollowedByItsResults(s, k)
  {
    assert s[1 + |answers| + (k - 1 - |answers|)] == others[k - 1 - |answers|];
    assert Calls(s[k]) == [];
    NextIsNoResult(s, msg, answers, others, tail, k);
  }

  // In front of the tail, only the turn itself has results to follow it.
  lemma FrontIsFollowedIff(s: seq<Message>, msg: Message, answers: seq<Message>, others: seq<Message>, tail: seq<Message>, k: nat)
    requires Lists(s, msg, answers, others, tail) && TurnShape(msg, answers, others, tail)
    requires k == 0 || |answers| < k <= |answers| + |others|
    ensures FollowedByItsResults(s, k) <==> k > 0 || |answers| == |Calls(msg)|
  {
    hide FollowedByItsResults, Calls;
    if k == 0 {
      TurnFollowedIff(s, msg, answers, others, tail);
    } else {
      OtherIsFollowed(s, msg, answers, others, tail, k);
    }
  }

  lemma TailIsFollowedIff(s: seq<Message>, msg: Message, answers: seq<Message>, others: seq<Message>, tail: seq<Message>, k: nat)
    requires Lists(s, msg, answers, others, tail) && k < |tail|
    ensures var n := 1 + |answers| + |others|;
            s[n + k] == tail[k] && (FollowedByItsResults(s, n + k) <==> FollowedByItsResults(tail, k))
  {
    hide FollowedByItsResults;
    FollowedShift(s, 1 + |answers| + |others|, tail, k);
  }

  lemma TurnIsFirst(s: seq<Message>, msg: Message, answers: seq<Message>, others: seq<Message>, tail: seq<Message>)
    requires Lists(s, msg, answers, others, tail) && TurnShape(msg, answers, others, tail)
    ensures |s| == 1 + |answers| + |others| + |tail| && !s[0].ToolResult?
    ensures forall k :: 1 <= k <= |answers| ==> s[k].ToolResult?
  {
    forall k | 1 <= k <= |answers| ensures s[k].ToolResult? {
      assert s[1 + (k - 1)] == answers[k - 1];
    }
  }

  // The list is completely paired exactly when the turn is fully answered and the tail is paired.
  lemma CompleteTurnIff(s: seq<Message>, msg: Message, answers: seq<Message>, others: seq<Message>, tail: seq<Message>)
    requires Lists(s, msg, answers, others, tail) && TurnShape(msg, answers, others, tail)
    ensures CompletelyPaired(s) <==> |answers| == |Calls(msg)| && CompletelyPaired(tail)
  {
    hide FollowedByItsResults, Lists, TurnShape, Calls;
    var n := 1 + |answers| + |others|;
    TurnIsFirst(s, msg, answers, others, tail);
    if CompletelyPaired(s) {
      FrontIsFollowedIff(s, msg, answers, others, tail, 0);
      forall k | 0 <= k < |tail| && !tail[k].ToolResult? ensures FollowedByItsResults(tail, k) {
        TailIsFollowedIff(s, msg, answers, others, tail, k);
      }
    }
    if |answers| == |Calls(msg)| && CompletelyPaired(tail) {
      forall k | 0 <= k < |s| && !s[k].ToolResult? ensures FollowedByItsResults(s, k) {
        if k < n {
          FrontIsFollowedIff(s, msg, answers, others, tail, k);
        } else {
          TailIsFollowedIff(s, msg, answers, others, tail, k - n);
        }
      }
    }
  }

  lemma {:induction false} ScanStartsWithoutResult(ms: seq<Message>, seen: set<string>)
    ensures Scan(ms, seen).out == [] || !Scan(ms, seen).out[0].ToolResult?
    decreases |ms|
  {
    if ms != [] && ms[0].ToolResult? {
      ScanStartsWithoutResult(ms[1..], seen);
    }
  }

  lemma {:induction false} SpanHasNoCalls(span: seq<Message>)
    requires forall m <- span :: !m.Assistant?
    ensures AllCallIds(span) == []
  {
    if span != [] {
      SpanHasNoCalls(span[1..]);
    }
  }

  lemma CallIdsOfTurn(ms: seq<Message>, span: seq<Message>, rest: seq<Message>)
    requires ms != [] && ms == [ms[0]] + span + rest && forall m <- span :: !m.Assistant?
    ensures AllCallIds(ms) == CallIds(Calls(ms[0])) + AllCallIds(rest)
  {
    Regroup([ms[0]], span, rest);
    assert ms[1..] == span + rest;
    SpanHasNoCalls(span);
    AllCallIdsConcat(span, rest);
    assert AllCallIds(span) + AllCallIds(rest) == AllCallIds(rest);
  }

  lemma DisjointTurn(calls: seq<ToolCall>, rest: seq<string>, seen: set<string>)
    ensures Disjoint(CallIds(calls) + rest, seen) && (forall x <- CallIds(calls) :: x !in rest)
       <==> Disjoint(CallIds(calls), seen) && Disjoint(rest, seen + Ids(calls))
  {
    IdsAreCallIds(calls);
    if Disjoint(CallIds(calls) + rest, seen) {
      forall x <- CallIds(calls) ensures x !in seen { assert x in CallIds(calls) + rest; }
      forall x <- rest ensures x !in seen { assert x in CallIds(calls) + rest; }
    }
  }

  ghost predicate CompleteIff(ms: seq<Message>, seen: set<string>) {
    CompletelyPaired(Scan(ms, seen).out) <==> NoDuplicates(AllCallIds(ms)) && Disjoint(AllCallIds(ms), seen)
  }

  lemma CompletePlain(msg: Message, tail: seq<Message>)
    requires !msg.ToolResult? && Calls(msg) == [] && (tail == [] || !tail[0].ToolResult?)
    ensures CompletelyPaired([msg] + tail) <==> CompletelyPaired(tail)
  {
    CompleteTurnIff([msg] + tail, msg, [], [], tail);
  }

  lemma CompleteIffPlain(ms: seq<Message>, seen: set<string>)
    requires ms != [] && Calls(ms[0]) == [] && CompleteIff(ms[1..], seen)
    ensures CompleteIff(ms, seen)
  {
    var tail := Scan(ms[1..], seen).out;
    FirstWithoutCalls(ms, seen);
    ScanStartsWithoutResult(ms[1..], seen);
    if !ms[0].ToolResult? {
      CompletePlain(ms[0], tail);
    }
  }

  lemma FirstWithoutCalls(ms: seq<Message>, seen: set<string>)
    requires ms != [] && Calls(ms[0]) == []
    ensures AllCallIds(ms) == AllCallIds(ms[1..])
    ensures var tail := Scan(ms[1..], seen).out;
            Scan(ms, seen).out == if ms[0].ToolResult? then tail else [ms[0]] + tail
  {
    hide Turn, SpanLength;
    assert CallIds([]) == [];
    assert [] + Scan(ms[1..], seen).out == Scan(ms[1..], seen).out;
    assert [] + AllCallIds(ms[1..]) == AllCallIds(ms[1..]);
  }

  lemma TurnIsShaped(msg: Message, span: seq<Message>, rest: seq<Message>, seen: set<string>, next: set<string>)
    requires !msg.ToolResult? && forall m <- span :: !m.Assistant?
    ensures TurnShape(msg, Answers(Calls(msg), span, seen), NonResults(span), Scan(rest, next).out)
  {
    ScanStartsWithoutResult(rest, next);
    TurnCallsUsable(msg);
    AnswersCount(Calls(msg), span, seen);
    AnswersAreResults(Calls(msg), span, seen);
    NonResultsOfSpan(span);
  }

  lemma IdsOfTurnIff(ms: seq<Message>, seen: set<string>, span: seq<Message>, rest: seq<Message>)
    requires ms != [] && ms == [ms[0]] + span + rest && forall m <- span :: !m.Assistant?
    ensures NoDuplicates(AllCallIds(ms)) && Disjoint(AllCallIds(ms), seen)
       <==> && |Answers(Calls(ms[0]), span, seen)| == |Calls(ms[0])|
            && NoDuplicates(AllCallIds(rest)) && Disjoint(AllCallIds(rest), seen + Ids(Calls(ms[0])))
  {
    var calls := Calls(ms[0]);
    TurnCallsUsable(ms[0]);
    AnswersCount(calls, span, seen);
    AllNewIff(calls, seen);
    CallIdsOfTurn(ms, span, rest);
    NoDuplicatesConcat(CallIds(calls), AllCallIds(rest));
    DisjointTurn(calls, AllCallIds(rest), seen);
  }

  lemma CompleteIffTurn(ms: seq<Message>, seen: set<string>, span: seq<Message>, rest: seq<Message>)
    requires ms != [] && ms == [ms[0]] + span + rest && forall m <- span :: !m.Assistant?
    requires Scan(ms, seen) == Plus(Turn(ms[0], span, seen), Scan(rest, seen + Ids(Calls(ms[0]))))
    requires !ms[0].ToolResult? && CompleteIff(rest, seen + Ids(Calls(ms[0])))
    ensures CompleteIff(ms, seen)
  {
    var next := seen + Ids(Calls(ms[0]));
    var answers, others, tail := Answers(Calls(ms[0]), span, seen), NonResults(span), Scan(rest, next).out;
    TurnIsShaped(ms[0], span, rest, seen, next);
    TurnIsListed(ms[0], answers, others, tail);
    CompleteTurnIff(Scan(ms, seen).out, ms[0], answers, others, tail);
    IdsOfTurnIff(ms, seen, span, rest);
  }

  lemma {:induction false} ScanCompleteIff(ms: seq<Message>, seen: set<string>)
    ensures CompleteIff(ms, seen)
    decreases |ms|
  {
    if ms != [] {
      if Calls(ms[0]) == [] {
        ScanCompleteIff(ms[1..], seen);
        CompleteIffPlain(ms, seen);
      } else {
        var span, rest := UnfoldTurn(ms, seen);
        ScanCompleteIff(rest, seen + Ids(Calls(ms[0])));
        CompleteIffTurn(ms, seen, span, rest);
      }
    }
  }

  // The repaired list answers every turn completely exactly when no call id is reused.
  lemma RepairedIsCompleteIffIdsDistinct(ms: seq<Message>)
    ensures CompletelyPaired(RepairedList(ms)) <==> NoDuplicates(AllCallIds(ms))
  {
    ScanCompleteIff(ms, {});
  }

  // ---- the list that is handed back when nothing counts as a change ----

  // Two results of one span answer the same open call; the later one is skipped without a trace.
  predicate SpanRepeats(span: seq<Message>, open: set<string>) {
    && span != []
    && (|| (Matches(span[0], open) && FirstResult(span[1..], ResultId(span[0]).value).Some?)
        || SpanRepeats(span[1..], open))
  }

  predicate SilentRepeat(ms: seq<Message>, seen: set<string>)
    decreases |ms|
  {
    if ms == [] then false
    else if Calls(ms[0]) == [] then SilentRepeat(ms[1..], seen)
    else
      var n, ids := SpanLength(ms[1..]), Ids(Calls(ms[0]));
      SpanRepeats(ms[1..1 + n], ids - seen) || SilentRepeat(ms[1 + n..], seen + ids)
  }

  lemma {:induction false} NothingDropped(span: seq<Message>, ids: set<string>, seen: set<string>)
    requires Orphans(span, ids) == 0 && Repeats(span, ids * seen) == 0
    ensures forall m <- span :: m.ToolResult? ==> Matches(m, ids - seen)
  {
    if span != [] {
      NothingDropped(span[1..], ids, seen);
    }
  }

  lemma {:induction false} NonResultsAll(ms: seq<Message>)
    requires NonResults(ms) == []
    ensures forall m <- ms :: m.ToolResult?
  {
    if ms != [] {
      NonResultsAll(ms[1..]);
    }
  }

  lemma UntouchedTurn(msg: Message, span: seq<Message>, seen: set<string>)
    requires Calls(msg) != [] && !Changed(Turn(msg, span, seen))
    ensures forall m <- span :: Matches(m, Ids(Calls(msg)) - seen)
  {
    var calls := Calls(msg);
    NothingDropped(span, Ids(calls), seen);
    assert FirstResult(span, calls[0].id).Some? && calls[0].id !in seen;
    FirstResultFound(span, calls[0].id);
    var m := FirstResult(span, calls[0].id).value;
    assert m in span && Matches(m, Ids(calls) - seen);
    NonResultsAll(span);
  }

  lemma {:induction false} NoRepeatsInSpan(span: seq<Message>, open: set<string>)
    requires forall m <- span :: Matches(m, open)
    ensures NoRepeats(span) <==> !SpanRepeats(span, open)
  {
    if span != [] {
      var head, tail := span[0], span[1..];
      NoRepeatsInSpan(tail, open);
      assert Matches(head, open);
      FirstResultFound(tail, ResultId(head).value);
      if NoRepeats(span) {
        forall i, j | 0 <= i < j < |tail| ensures ResultId(tail[i]) != ResultId(tail[j]) {
          assert span[i + 1] in span && span[j + 1] in span;
          assert ResultId(span[i + 1]) != ResultId(span[j + 1]);
        }
        forall j | 0 <= j < |tail| ensures ResultId(tail[j]) != ResultId(head) {
          assert ResultId(span[0]) != ResultId(span[j + 1]);
        }
      }
      if NoRepeats(tail) && forall m <- tail :: ResultId(m) != ResultId(head) {
        assert NoRepeats([head] + tail) by {
          forall i, j | 0 <= i < j < |span| ensures ResultId(span[i]) != ResultId(span[j]) {
            if i > 0 {
              assert span[i] == tail[i - 1] && span[j] == tail[j - 1];
            } else {
              assert span[j] in tail;
            }
          }
        }
      }
    }
  }

  lemma NoRepeatsParts(a: seq<Message>, b: seq<Message>)
    requires NoRepeats(a + b)
    ensures NoRepeats(a) && NoRepeats(b)
  {
    var s := a + b;
    forall i, j | 0 <= i < j < |a| && a[i].ToolResult? && a[j].ToolResult? ensures ResultId(a[i]) != ResultId(a[j]) {
      assert ResultId(s[i]) != ResultId(s[j]);
    }
    forall i, j | 0 <= i < j < |b| && b[i].ToolResult? && b[j].ToolResult? ensures ResultId(b[i]) != ResultId(b[j]) {
      assert ResultId(s[|a| + i]) != ResultId(s[|a| + j]);
    }
  }

  ghost predicate Untouched(ms: seq<Message>, seen: set<string>) {
    && Attached(ms) && Avoids(ms, seen)
    && (NoRepeats(ms) <==> !SilentRepeat(ms, seen))
  }

  lemma UntouchedTurnPart(msg: Message, span: seq<Message>, rest: seq<Message>, seen: set<string>)
    requires !msg.ToolResult? && forall m <- span :: Matches(m, Ids(Calls(msg)) - seen)
    requires Attached(rest) && Avoids(rest, seen + Ids(Calls(msg)))
    ensures Attached([msg] + span + rest) && Avoids([msg] + span + rest, seen)
    ensures NoRepeats([msg] + span + rest) <==> !SpanRepeats(span, Ids(Calls(msg)) - seen) && NoRepeats(rest)
  {
    var ids := Ids(Calls(msg));
    AttachedTurn(msg, span, []);
    assert [msg] + (span + []) == [msg] + span;
    AttachedConcat([msg] + span, rest);
    NoRepeatsInSpan(span, ids - seen);
    if NoRepeats([msg] + span + rest) {
      NoRepeatsParts([msg] + span, rest);
      NoRepeatsParts([msg], span);
    }
    if NoRepeats(span) && NoRepeats(rest) {
      NoRepeatsConcat([msg], span, {});
      NoRepeatsConcat([msg] + span, rest, ids);
    }
  }

  lemma UntouchedPlain(msg: Message, rest: seq<Message>)
    requires !msg.ToolResult? && Attached(rest)
    ensures Attached([msg] + rest) && (NoRepeats([msg] + rest) <==> NoRepeats(rest))
  {
    AttachedConcat([msg], rest);
    if NoRepeats([msg] + rest) {
      NoRepeatsParts([msg], rest);
    }
    if NoRepeats(rest) {
      NoRepeatsConcat([msg], rest, {});
    }
  }

  lemma UntouchedFirst(ms: seq<Message>, msg: Message, rest: seq<Message>, seen: set<string>)
    requires ms == [msg] + rest && Calls(msg) == [] && !msg.ToolResult? && Untouched(rest, seen)
    ensures Untouched(ms, seen)
  {
    UntouchedPlain(msg, rest);
    SilentRepeatOfFirst(msg, rest, seen);
  }

  lemma SilentRepeatOfFirst(msg: Message, rest: seq<Message>, seen: set<string>)
    requires Calls(msg) == []
    ensures SilentRepeat([msg] + rest, seen) <==> SilentRepeat(rest, seen)
  {
    assert ([msg] + rest)[1..] == rest;
  }

  lemma UntouchedStart(ms: seq<Message>, seen: set<string>, span: seq<Message>, rest: seq<Message>)
    requires ms != [] && Calls(ms[0]) != [] && !Changed(Turn(ms[0], span, seen))
    requires ms == [ms[0]] + span + rest && (forall m <- span :: !m.Assistant?) && (rest == [] || rest[0].Assistant?)
    requires Untouched(rest, seen + Ids(Calls(ms[0])))
    ensures Untouched(ms, seen)
  {
    UntouchedTurn(ms[0], span, seen);
    UntouchedTurnPart(ms[0], span, rest, seen);
    SilentRepeatOfTurn(ms[0], span, rest, seen);
  }

  lemma SilentRepeatOfTurn(msg: Message, span: seq<Message>, rest: seq<Message>, seen: set<string>)
    requires Calls(msg) != [] && (forall m <- span :: !m.Assistant?) && (rest == [] || rest[0].Assistant?)
    ensures SilentRepeat([msg] + span + rest, seen)
       <==> SpanRepeats(span, Ids(Calls(msg)) - seen) || SilentRepeat(rest, seen + Ids(Calls(msg)))
  {
    var ms := [msg] + span + rest;
    assert ms == [msg] + (span + rest);
    assert ms[1..] == span + rest;
    SpanEndsAt(span, rest);
    assert ms[1..1 + |span|] == span && ms[1 + |span|..] == rest;
  }

  lemma PlusChanged(a: Tally, b: Tally)
    ensures Changed(Plus(a, b)) <==> Changed(a) || Changed(b)
  {
  }

  lemma UnchangedFirst(ms: seq<Message>, seen: set<string>)
    requires ms != [] && Calls(ms[0]) == [] && !Changed(Scan(ms, seen))
    ensures !ms[0].ToolResult? && !Changed(Scan(ms[1..], seen))
  {
    PlusChanged(Tally([], [], 0, 1, false), Scan(ms[1..], seen));
    PlusChanged(Tally([ms[0]], [], 0, 0, false), Scan(ms[1..], seen));
  }

  lemma {:induction false} UnchangedIsUntouched(ms: seq<Message>, seen: set<string>)
    requires !Changed(Scan(ms, seen))
    ensures Untouched(ms, seen)
    decreases |ms|
  {
    if ms == [] {
    } else if Calls(ms[0]) == [] {
      UnchangedFirstIsUntouched(ms, seen);
    } else {
      UnchangedTurnIsUntouched(ms, seen);
    }
  }

  lemma {:induction false} UnchangedFirstIsUntouched(ms: seq<Message>, seen: set<string>)
    requires ms != [] && Calls(ms[0]) == [] && !Changed(Scan(ms, seen))
    ensures Untouched(ms, seen)
    decreases |ms|, 0
  {
    UnchangedFirst(ms, seen);
    UnchangedIsUntouched(ms[1..], seen);
    UntouchedFirst(ms, ms[0], ms[1..], seen);
  }

  lemma {:induction false} UnchangedTurnIsUntouched(ms: seq<Message>, seen: set<string>)
    requires ms != [] && Calls(ms[0]) != [] && !Changed(Scan(ms, seen))
    ensures Untouched(ms, seen)
    decreases |ms|, 0
  {
    var span, rest := UnfoldTurn(ms, seen);
    var next := seen + Ids(Calls(ms[0]));
    PlusChanged(Turn(ms[0], span, seen), Scan(rest, next));
    UnchangedIsUntouched(rest, next);
    UntouchedStart(ms, seen, span, rest);
  }

  // ---- which inputs count as unchanged ----

  // The span of a turn is in order: it holds results for the calls of the turn and nothing else,
  // and at least one for each call.
  predicate TidySpan(calls: seq<ToolCall>, span: seq<Message>) {
    && (forall m <- span :: Matches(m, Ids(calls)))
    && forall c <- calls :: exists m <- span :: ResultId(m) == Some(c.id)
  }

  // No result stands before its turn, the call ids of each turn are new and distinct, and its span
  // is in order.
  predicate Tidy(ms: seq<Message>, seen: set<string>)
    decreases |ms|
  {
    if ms == [] then true
    else if Calls(ms[0]) == [] then !ms[0].ToolResult? && Tidy(ms[1..], seen)
    else
      var n, calls := SpanLength(ms[1..]), Calls(ms[0]);
      && NewIds(calls, seen) && TidySpan(calls, ms[1..1 + n])
      && Tidy(ms[1 + n..], seen + Ids(calls))
  }

  predicate NewIds(calls: seq<ToolCall>, seen: set<string>) {
    && (forall j, k :: 0 <= j < k < |calls| ==> calls[j].id != calls[k].id)
    && forall c <- calls :: c.id !in seen
  }

  lemma NewIdsIff(calls: seq<ToolCall>, seen: set<string>)
    ensures NewIds(calls, seen) <==> AllNew(calls, seen)
  {
    AllNewIff(calls, seen);
    if NewIds(calls, seen) {
      forall id <- CallIds(calls) ensures id !in seen {
        var k :| 0 <= k < |calls| && CallIds(calls)[k] == id;
        assert calls[k] in calls;
      }
    }
    if AllNew(calls, seen) {
      forall j, k | 0 <= j < k < |calls| ensures calls[j].id != calls[k].id {
        assert CallIds(calls)[j] != CallIds(calls)[k];
      }
      forall c <- calls ensures c.id !in seen {
        var k :| 0 <= k < |calls| && calls[k] == c;
        assert CallIds(calls)[k] in CallIds(calls);
      }
    }
  }

  lemma {:induction false} NothingRefusedIff(calls: seq<ToolCall>, seen: set<string>)
    ensures RefusedPushes(calls, seen) == 0 <==> AllNew(calls, seen)
  {
    if calls != [] {
      NothingRefusedIff(calls[1..], seen + {calls[0].id});
    }
  }

  lemma {:induction false} NothingAddedIff(calls: seq<ToolCall>, span: seq<Message>, seen: set<string>)
    ensures AddedNotices(calls, span, seen) == []
       <==> forall c <- calls :: c.id !in seen && exists m <- span :: ResultId(m) == Some(c.id)
  {
    if calls != [] {
      NothingAddedIff(calls[1..], span, seen);
      FirstResultFound(span, calls[0].id);
    }
  }

  lemma {:induction false} OrphansIff(span: seq<Message>, ids: set<string>)
    ensures Orphans(span, ids) == 0 <==> forall m <- span :: m.ToolResult? ==> Matches(m, ids)
  {
    if span != [] {
      OrphansIff(span[1..], ids);
    }
  }

  lemma {:induction false} RepeatsIff(span: seq<Message>, ids: set<string>)
    ensures Repeats(span, ids) == 0 <==> forall m <- span :: !Matches(m, ids)
  {
    if span != [] {
      RepeatsIff(span[1..], ids);
    }
  }

  lemma CallIdsAreIds(calls: seq<ToolCall>)
    ensures forall c <- calls :: c.id in Ids(calls)
    ensures forall id <- Ids(calls) :: exists c <- calls :: c.id == id
  {
    IdsAreCallIds(calls);
    forall c <- calls ensures c.id in Ids(calls) {
      var k :| 0 <= k < |calls| && calls[k] == c;
      assert CallIds(calls)[k] in CallIds(calls);
    }
    forall id <- Ids(calls) ensures exists c <- calls :: c.id == id {
      var k :| 0 <= k < |calls| && CallIds(calls)[k] == id;
      assert calls[k] in calls;
    }
  }

  lemma TurnIsTidy(msg: Message, span: seq<Message>, seen: set<string>)
    requires Calls(msg) != [] && !Changed(Turn(msg, span, seen))
    ensures NewIds(Calls(msg), seen) && TidySpan(Calls(msg), span)
  {
    var calls := Calls(msg);
    UntouchedTurn(msg, span, seen);
    NothingRefusedIff(calls, seen);
    NewIdsIff(calls, seen);
    NothingAddedIff(calls, span, seen);
  }

  lemma TidyTurnIsUnchanged(msg: Message, span: seq<Message>, seen: set<string>)
    requires NewIds(Calls(msg), seen) && TidySpan(Calls(msg), span)
    ensures !Changed(Turn(msg, span, seen))
  {
    var calls := Calls(msg);
    CallIdsAreIds(calls);
    NewIdsIff(calls, seen);
    NothingRefusedIff(calls, seen);
    NothingAddedIff(calls, span, seen);
    OrphansIff(span, Ids(calls));
    RepeatsIff(span, Ids(calls) * seen);
    assert forall m <- span :: m.ToolResult?;
    NonResultsEmpty(span);
  }

  ghost predicate UnchangedIffTidy(ms: seq<Message>, seen: set<string>) {
    !Changed(Scan(ms, seen)) <==> Tidy(ms, seen)
  }

  lemma FirstTidyIff(ms: seq<Message>, seen: set<string>)
    requires ms != [] && Calls(ms[0]) == [] && UnchangedIffTidy(ms[1..], seen)
    ensures UnchangedIffTidy(ms, seen)
  {
    PlusChanged(Tally([], [], 0, 1, false), Scan(ms[1..], seen));
    PlusChanged(Tally([ms[0]], [], 0, 0, false), Scan(ms[1..], seen));
  }

  lemma TurnUnfolds(ms: seq<Message>, seen: set<string>, n: nat)
    requires ms != [] && Calls(ms[0]) != [] && n == SpanLength(ms[1..])
    ensures var span, rest, next := ms[1..1 + n], ms[1 + n..], seen + Ids(Calls(ms[0]));
            && Scan(ms, seen) == Plus(Turn(ms[0], span, seen), Scan(rest, next))
            && (Tidy(ms, seen) <==> NewIds(Calls(ms[0]), seen) && TidySpan(Calls(ms[0]), span) && Tidy(rest, next))
  {
    hide *;
    TurnScanned(ms, seen, n);
    TurnIsTidyIff(ms, seen, n);
  }

  lemma TurnScanned(ms: seq<Message>, seen: set<string>, n: nat)
    requires ms != [] && Calls(ms[0]) != [] && n == SpanLength(ms[1..])
    ensures Scan(ms, seen) == Plus(Turn(ms[0], ms[1..1 + n], seen), Scan(ms[1 + n..], seen + Ids(Calls(ms[0]))))
  {
    hide Turn, Plus, SpanLength, CallsOfBlocks, Ids;
  }

  lemma TurnIsTidyIff(ms: seq<Message>, seen: set<string>, n: nat)
    requires ms != [] && Calls(ms[0]) != [] && n == SpanLength(ms[1..])
    ensures var span, rest, next := ms[1..1 + n], ms[1 + n..], seen + Ids(Calls(ms[0]));
            Tidy(ms, seen) <==> NewIds(Calls(ms[0]), seen) && TidySpan(Calls(ms[0]), span) && Tidy(rest, next)
  {
    hide NewIds, TidySpan, SpanLength, CallsOfBlocks, Ids;
  }

  lemma TurnTidyIff(ms: seq<Message>, seen: set<string>, n: nat)
    requires ms != [] && Calls(ms[0]) != [] && n == SpanLength(ms[1..])
    requires UnchangedIffTidy(ms[1 + n..], seen + Ids(Calls(ms[0])))
    ensures UnchangedIffTidy(ms, seen)
  {
    hide Turn, Changed, NewIds, TidySpan, SpanLength, Scan, Tidy, Plus;
    TurnUnfolds(ms, seen, n);
    var span, rest, next := ms[1..1 + n], ms[1 + n..], seen + Ids(Calls(ms[0]));
    PlusChanged(Turn(ms[0], span, seen), Scan(rest, next));
    if !Changed(Turn(ms[0], span, seen)) {
      TurnIsTidy(ms[0], span, seen);
    }
    if NewIds(Calls(ms[0]), seen) && TidySpan(Calls(ms[0]), span) {
      TidyTurnIsUnchanged(ms[0], span, seen);
    }
  }

  lemma {:induction false} ScanUnchangedIff(ms: seq<Message>, seen: set<string>)
    ensures UnchangedIffTidy(ms, seen)
    decreases |ms|
  {
    if ms == [] {
    } else if Calls(ms[0]) == [] {
      ScanUnchangedIff(ms[1..], seen);
      FirstTidyIff(ms, seen);
    } else {
      var n := SpanLength(ms[1..]);
      ScanUnchangedIff(ms[1 + n..], seen + Ids(Calls(ms[0])));
      TurnTidyIff(ms, seen, n);
    }
  }

  // A change is reported exactly when the input is not in order.
  lemma ChangeIsReportedIff(ms: seq<Message>)
    ensures RepairReport(ms).moved <==> !Tidy(ms, {})
  {
    ScanUnchangedIff(ms, {});
  }

  // The list handed back is paired unless the only defect of the input is a silent repeat.
  lemma ReturnedIsPairedIff(ms: seq<Message>)
    ensures Paired(RepairReport(ms).messages) <==> !(Tidy(ms, {}) && SilentRepeat(ms, {}))
  {
    ScanUnchangedIff(ms, {});
    if Changed(Scan(ms, {})) {
      RepairedIsPaired(ms);
    } else {
      UnchangedIsUntouched(ms, {});
    }
  }

  // A turn of one new call, answered by the one message after it.
  lemma AnsweredTurn(turn: Message, call: ToolCall, answer: Message, seen: set<string>)
    requires Calls(turn) == [call] && ResultId(answer) == Some(call.id) && call.id !in seen
    ensures Turn(turn, [answer], seen) == Tally([turn, answer], [], 0, 0, false)
  {
    var calls, span, ids := [call], [answer], {call.id};
    assert calls[1..] == [] && span[1..] == [] && Ids(calls) == ids && NonResults(span) == [];
    assert Matches(answer, ids) && ids * seen == {};
    assert Answers(calls, span, seen) == [answer] + Answers(calls[1..], span, seen + ids);
    assert RefusedPushes(calls, seen) == RefusedPushes(calls[1..], seen + ids);
    assert AddedNotices(calls, span, seen) == AddedNotices(calls[1..], span, seen);
    assert Orphans(span, ids) == Orphans(span[1..], ids) && Repeats(span, {}) == Repeats(span[1..], {});
  }

  // The same turn when its id has been answered before.
  lemma RefusedTurn(turn: Message, call: ToolCall, answer: Message)
    requires Calls(turn) == [call] && ResultId(answer) == Some(call.id)
    ensures Turn(turn, [answer], {call.id}) == Tally([turn], [MissingResult(call)], 2, 0, false)
  {
    var calls, span, ids := [call], [answer], {call.id};
    assert calls[1..] == [] && span[1..] == [] && Ids(calls) == ids && NonResults(span) == [];
    assert Matches(answer, ids) && ids * ids == ids;
    assert Answers(calls, span, ids) == Answers(calls[1..], span, ids) == [];
    assert RefusedPushes(calls, ids) == 1 + RefusedPushes(calls[1..], ids);
    assert AddedNotices(calls, span, ids) == [MissingResult(calls[0])] + AddedNotices(calls[1..], span, ids);
    assert Orphans(span, ids) == Orphans(span[1..], ids) && Repeats(span, ids) == 1 + Repeats(span[1..], ids);
  }

  lemma OneCallIds(call: ToolCall)
    ensures Ids([call]) == {call.id} && {} + Ids([call]) == {call.id}
  {
    assert [call][1..] == [];
  }

  // Two turns with one call each, both of the same id: the second turn gets no result, though a
  // notice is counted as added.
  lemma ReusedId(turn: Message, call: ToolCall, first: Message, again: Message, second: Message)
    requires Calls(turn) == Calls(again) == [call] && ResultId(first) == ResultId(second) == Some(call.id)
    ensures Scan([turn, first, again, second], {}) == Tally([turn, first, again], [MissingResult(call)], 2, 0, false)
  {
    hide Turn, Scan, Calls, Ids, MissingResult;
    var none: set<string> := {};
    var tail := [again, second];
    OneCallIds(call);
    AnsweredTurn(turn, call, first, none);
    RefusedTurn(again, call, second);
    assert [again] + [second] + [] == tail && [turn] + [first] + tail == [turn, first, again, second];
    LastTurn(again, second, none + Ids([call]));
    FirstOfTurns(turn, first, tail, none);
  }

  lemma LastTurn(turn: Message, answer: Message, seen: set<string>)
    requires Calls(turn) != [] && ResultId(answer).Some?
    ensures Scan([turn, answer], seen) == Turn(turn, [answer], seen)
  {
    hide Turn;
    ScanOfTurn(turn, [answer], [], seen);
    assert [turn] + [answer] + [] == [turn, answer];
    assert Scan([], seen + Ids(Calls(turn))) == NOTHING;
  }

  lemma FirstOfTurns(turn: Message, answer: Message, rest: seq<Message>, seen: set<string>)
    requires Calls(turn) != [] && ResultId(answer).Some? && rest != [] && Calls(rest[0]) != []
    ensures Scan([turn] + [answer] + rest, seen) == Plus(Turn(turn, [answer], seen), Scan(rest, seen + Ids(Calls(turn))))
  {
    hide Turn, Scan;
    ScanOfTurn(turn, [answer], rest, seen);
  }

  // For instance, with nothing else wrong.
  lemma ReusedIdExample(call: Message, first: Message, second: Message)
    requires call == Assistant(Blocks([CallBlock(ToolCallMark, Some("a"), None, 0)]), 0)
    requires first == ToolResult(Some("a"), None, None, Recorded(1))
    requires second == ToolResult(Some("a"), None, None, Recorded(2))
    ensures RepairedList([call, first, call, second]) == [call, first, call]
    ensures !CompletelyPaired(RepairedList([call, first, call, second]))
    ensures RepairReport([call, first, call, second]).added == [MissingResult(ToolCall("a", None))]
  {
    hide Scan;
    assert Calls(call) == [ToolCall("a", None)] by {
      assert CallsOfBlocks(call.content.blocks[1..]) == [];
    }
    ReusedId(call, ToolCall("a", None), first, call, second);
    assert !FollowedByItsResults([call, first, call], 2);
  }

  // A second result with the same id, and nothing else wrong: the input comes back as it was.
  lemma SilentRepeatExample(call: Message, first: Message, second: Message)
    requires call == Assistant(Blocks([CallBlock(ToolCallMark, Some("a"), None, 0)]), 0)
    requires first == ToolResult(Some("a"), None, None, Recorded(1))
    requires second == ToolResult(Some("a"), None, None, Recorded(2))
    ensures RepairReport([call, first, second]).messages == [call, first, second]
    ensures RepairedList([call, first, second]) == [call, first]
  {
    var span := [first, second];
    assert Calls(call) == [ToolCall("a", None)] by {
      assert CallsOfBlocks(call.content.blocks[1..]) == [];
    }
    ScanOfTurn(call, span, [], {});
    assert [call] + span + [] == [call, first, second];
    SilentRepeatTurn(call, first, second);
    assert Scan([], Ids(Calls(call))) == NOTHING;
  }

  lemma SilentRepeatTurn(call: Message, first: Message, second: Message)
    requires Calls(call) == [ToolCall("a", None)]
    requires ResultId(first) == ResultId(second) == Some("a")
    ensures Turn(call, [first, second], {}) == Tally([call, first], [], 0, 0, false)
  {
    var calls, span := Calls(call), [first, second];
    assert calls[1..] == [] && span[1..] == [second] && span[1..][1..] == [];
    var ids: set<string> := {"a"};
    assert Ids(calls) == ids;
    assert NonResults(span) == [];
    assert Matches(first, ids) && Matches(second, ids);
    assert Orphans([second], ids) == 0 && Repeats([second], {}) == 0;
    assert ids * {} == {} && {} + ids == ids;
    assert Answers(calls, span, {}) == [first] + Answers(calls[1..], span, {} + ids);
    assert RefusedPushes(calls, {}) == RefusedPushes(calls[1..], {} + ids);
    assert AddedNotices(calls, span, {}) == AddedNotices(calls[1..], span, {});
    assert Placed(calls, span, {}) == [first];
  }
}
