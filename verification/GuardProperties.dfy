/** A log written through the guard: what repair would add to it is exactly what is still pending. */
module GuardProperties {
  import opened Wrappers
  import opened Transcript
  import opened TranscriptRepair
  import opened RepairProperties
  import opened RepairCompleteness
  import opened SessionGuard

  ghost predicate IdPreserving(transform: (Message, Meta) -> Message) {
    forall m: Message, meta: Meta :: m.ToolResult? ==>
      transform(m, meta).ToolResult? && ResultId(transform(m, meta)) == ResultId(m)
  }

  // ---- the calls of a log that no result in their span answers ----

  function OpenCalls(calls: seq<ToolCall>, span: seq<Message>): seq<ToolCall> {
    if calls == [] then []
    else if FirstResult(span, calls[0].id).None? then [calls[0]] + OpenCalls(calls[1..], span)
    else OpenCalls(calls[1..], span)
  }

  function SpanOf(ms: seq<Message>): seq<Message> {
    ms[..SpanLength(ms)]
  }

  function Unanswered(ms: seq<Message>): seq<ToolCall> {
    if ms == [] then [] else OpenCalls(Calls(ms[0]), SpanOf(ms[1..])) + Unanswered(ms[1..])
  }

  lemma {:induction false} SpanHasNoOpenCalls(span: seq<Message>, rest: seq<Message>)
    requires forall m <- span :: !m.Assistant?
    ensures Unanswered(span + rest) == Unanswered(rest)
  {
    if span == [] {
      assert span + rest == rest;
    } else {
      assert (span + rest)[1..] == span[1..] + rest;
      SpanHasNoOpenCalls(span[1..], rest);
    }
  }

  lemma {:induction false} SpanUnaffected(front: seq<Message>, turn: Message, tail: seq<Message>)
    requires turn.Assistant?
    ensures SpanOf(front + ([turn] + tail)) == SpanOf(front)
  {
    var ms := front + ([turn] + tail);
    if front == [] {
      assert ms == [turn] + tail;
    } else {
      assert ms[1..] == front[1..] + ([turn] + tail);
      SpanUnaffected(front[1..], turn, tail);
      if !front[0].Assistant? {
        assert SpanOf(ms) == [ms[0]] + SpanOf(ms[1..]);
        assert SpanOf(front) == [front[0]] + SpanOf(front[1..]);
      }
    }
  }

  lemma UnansweredOfLast(turn: Message, tail: seq<Message>)
    requires forall m <- tail :: !m.Assistant?
    ensures Unanswered([turn] + tail) == OpenCalls(Calls(turn), tail)
  {
    assert ([turn] + tail)[1..] == tail && tail + [] == tail;
    SpanEndsAt(tail, []);
    assert SpanOf(tail) == tail;
    SpanHasNoOpenCalls(tail, []);
  }

  // The last assistant's span reaches the end of the log, so it can be split off.
  lemma {:induction false} UnansweredSplit(front: seq<Message>, turn: Message, tail: seq<Message>)
    requires turn.Assistant? && forall m <- tail :: !m.Assistant?
    ensures Unanswered(front + ([turn] + tail)) == Unanswered(front) + OpenCalls(Calls(turn), tail)
  {
    var ms := front + ([turn] + tail);
    if front == [] {
      assert ms == [turn] + tail;
      UnansweredOfLast(turn, tail);
    } else {
      assert ms[0] == front[0] && ms[1..] == front[1..] + ([turn] + tail);
      UnansweredSplit(front[1..], turn, tail);
      SpanUnaffected(front[1..], turn, tail);
    }
  }

  // ---- one more result in the last span ----

  lemma {:induction false} FirstResultSnoc(span: seq<Message>, m: Message, id: string)
    ensures FirstResult(span + [m], id) == if FirstResult(span, id).Some? then FirstResult(span, id)
                                           else if ResultId(m) == Some(id) then Some(m) else None
  {
    if span == [] {
      assert span + [m] == [m];
    } else {
      assert (span + [m])[1..] == span[1..] + [m];
      FirstResultSnoc(span[1..], m, id);
    }
  }

  lemma {:induction false} OpenCallsSnoc(calls: seq<ToolCall>, span: seq<Message>, m: Message)
    ensures OpenCalls(calls, span + [m])
         == if ResultId(m).Some? then Delete(OpenCalls(calls, span), ResultId(m).value) else OpenCalls(calls, span)
  {
    if calls != [] {
      OpenCallsSnoc(calls[1..], span, m);
      FirstResultSnoc(span, m, calls[0].id);
    }
  }

  lemma {:induction false} DeleteHead(calls: seq<ToolCall>, id: string)
    requires forall c <- calls :: c.id != id
    ensures Delete(calls, id) == calls
  {
    if calls != [] {
      DeleteHead(calls[1..], id);
    }
  }

  lemma {:induction false} NothingOpenBefore(calls: seq<ToolCall>)
    ensures OpenCalls(calls, []) == calls
  {
    if calls != [] {
      NothingOpenBefore(calls[1..]);
    }
  }

  // ---- the map of pending calls ----

  ghost predicate DistinctIds(calls: seq<ToolCall>) {
    forall i, j :: 0 <= i < j < |calls| ==> calls[i].id != calls[j].id
  }

  lemma {:induction false} SetPendingNew(pending: seq<ToolCall>, call: ToolCall)
    requires forall k :: 0 <= k < |pending| ==> pending[k].id != call.id
    ensures SetPending(pending, call) == pending + [call]
  {
    if pending != [] {
      SetPendingNew(pending[1..], call);
      assert pending + [call] == [pending[0]] + (pending[1..] + [call]);
    }
  }

  lemma {:induction false} SetAllNew(pending: seq<ToolCall>, calls: seq<ToolCall>)
    requires DistinctIds(pending + calls)
    ensures SetAll(pending, calls) == pending + calls
    decreases |calls|
  {
    if calls == [] {
      assert pending + calls == pending;
    } else {
      assert (pending + calls)[|pending|] == calls[0];
      forall k | 0 <= k < |pending| ensures pending[k].id != calls[0].id {
        assert (pending + calls)[k] == pending[k];
      }
      SetPendingNew(pending, calls[0]);
      assert (pending + [calls[0]]) + calls[1..] == pending + calls;
      SetAllNew(pending + [calls[0]], calls[1..]);
    }
  }

  // ---- the invariant of a guarded log ----

  // The turn at k is the last assistant, everything before it is answered, only results follow it.
  ghost predicate OpenTurnAt(log: seq<Message>, k: int) {
    && 0 <= k < |log| && log[k].Assistant?
    && Unanswered(log[..k]) == []
    && forall t :: k < t < |log| ==> log[t].ToolResult?
  }

  // Whatever is not a result was logged with no call left unanswered before it.
  ghost predicate ClosedBeforeOthers(log: seq<Message>) {
    forall k :: 0 <= k < |log| && !log[k].ToolResult? ==> Unanswered(log[..k]) == []
  }

  // The pending calls are the unanswered calls of the log, all of its last turn.
  ghost predicate Tracks(log: seq<Message>, pending: seq<ToolCall>) {
    && Unanswered(log) == pending
    && (pending != [] ==> exists k :: OpenTurnAt(log, k))
  }

  ghost predicate WellKeyed(pending: seq<ToolCall>) {
    DistinctIds(pending) && forall c <- pending :: c.id != ""
  }

  ghost predicate Invariant(s: State) {
    Tracks(s.log, s.pending) && ClosedBeforeOthers(s.log) && WellKeyed(s.pending)
  }

  lemma ClosedSnoc(log: seq<Message>, m: Message)
    requires ClosedBeforeOthers(log) && (m.ToolResult? || Unanswered(log) == [])
    ensures ClosedBeforeOthers(log + [m])
  {
    forall k | 0 <= k < |log| + 1 && !(log + [m])[k].ToolResult?
      ensures Unanswered((log + [m])[..k]) == []
    {
      assert (log + [m])[..k] == log[..k];
      assert k == |log| ==> log[..k] == log;
    }
  }

  lemma {:induction false} LastAssistant(log: seq<Message>) returns (k: int)
    ensures -1 <= k < |log|
    ensures k >= 0 ==> log[k].Assistant?
    ensures forall t :: k < t < |log| ==> !log[t].Assistant?
  {
    k := |log| - 1;
    while k >= 0 && !log[k].Assistant?
      invariant -1 <= k < |log|
      invariant forall t :: k < t < |log| ==> !log[t].Assistant?
    {
      k := k - 1;
    }
  }

  function Without(pending: seq<ToolCall>, id: Field): seq<ToolCall> {
    if id.Some? then Delete(pending, id.value) else pending
  }

  lemma SplitAround(log: seq<Message>, k: nat)
    requires k < |log|
    ensures log == log[..k] + ([log[k]] + log[k + 1..])
  {
  }

  lemma AppendInside(front: seq<Message>, turn: Message, tail: seq<Message>, m: Message)
    ensures front + ([turn] + tail) + [m] == front + ([turn] + (tail + [m]))
  {
    Regroup([turn], tail, [m]);
    Regroup(front, [turn] + tail, [m]);
  }

  lemma SnocAfterTurn(log: seq<Message>, k: nat, m: Message)
    requires k < |log| && log[k].Assistant? && !m.Assistant?
    requires forall t :: k < t < |log| ==> !log[t].Assistant?
    ensures Unanswered(log) == Unanswered(log[..k]) + OpenCalls(Calls(log[k]), log[k + 1..])
    ensures Unanswered(log + [m]) == Unanswered(log[..k]) + Without(OpenCalls(Calls(log[k]), log[k + 1..]), ResultId(m))
  {
    SplitAround(log, k);
    AppendInside(log[..k], log[k], log[k + 1..], m);
    UnansweredSplit(log[..k], log[k], log[k + 1..]);
    UnansweredWithOneMore(log[..k], log[k], log[k + 1..], m);
  }

  lemma UnansweredWithOneMore(front: seq<Message>, turn: Message, tail: seq<Message>, m: Message)
    requires turn.Assistant? && !m.Assistant? && forall t <- tail :: !t.Assistant?
    ensures Unanswered(front + ([turn] + (tail + [m]))) == Unanswered(front) + Without(OpenCalls(Calls(turn), tail), ResultId(m))
  {
    UnansweredSplit(front, turn, tail + [m]);
    OpenCallsSnoc(Calls(turn), tail, m);
  }

  lemma {:induction false} DeleteKeeps(pending: seq<ToolCall>, id: string)
    requires DistinctIds(pending)
    ensures DistinctIds(Delete(pending, id))
    ensures forall c <- Delete(pending, id) :: c in pending
    ensures pending != [] && pending[0].id == id ==> Delete(pending, id) == pending[1..]
  {
    if pending != [] {
      var tail := pending[1..];
      assert DistinctIds(tail) by {
        forall i, j | 0 <= i < j < |tail| ensures tail[i].id != tail[j].id {
          assert pending[i + 1].id != pending[j + 1].id;
        }
      }
      DeleteKeeps(tail, id);
      if pending[0].id == id {
        forall c <- tail ensures c.id != id {
          var j :| 0 <= j < |tail| && tail[j] == c;
          assert pending[0].id != pending[j + 1].id;
        }
        DeleteHead(tail, id);
      } else {
        forall c <- Delete(tail, id) ensures c.id != pending[0].id {
          var j :| 0 <= j < |tail| && tail[j] == c;
          assert pending[0].id != pending[j + 1].id;
        }
      }
    }
  }

  lemma UnansweredSnocClosed(log: seq<Message>, m: Message)
    requires Unanswered(log) == [] && !m.Assistant?
    ensures Unanswered(log + [m]) == []
  {
    var k := LastAssistant(log);
    if k >= 0 {
      SnocAfterTurn(log, k, m);
    } else {
      SpanHasNoOpenCalls(log + [m], []);
      assert log + [m] + [] == log + [m];
    }
  }

  lemma OpenTurnSnoc(log: seq<Message>, k: int, r: Message)
    requires OpenTurnAt(log, k) && r.ToolResult?
    ensures OpenTurnAt(log + [r], k)
  {
    assert (log + [r])[..k] == log[..k];
  }

  lemma UnansweredResult(log: seq<Message>, k: int, r: Message)
    requires OpenTurnAt(log, k) && r.ToolResult?
    ensures Unanswered(log + [r]) == Without(Unanswered(log), ResultId(r))
  {
    var open := OpenCalls(Calls(log[k]), log[k + 1..]);
    SnocAfterTurn(log, k, r);
    NothingPrepended(open);
    NothingPrepended(Without(open, ResultId(r)));
  }

  lemma NothingPrepended(calls: seq<ToolCall>)
    ensures [] + calls == calls
  {
  }

  lemma TracksResult(log: seq<Message>, pending: seq<ToolCall>, r: Message)
    requires Tracks(log, pending) && r.ToolResult?
    ensures Tracks(log + [r], Without(pending, ResultId(r)))
  {
    if pending == [] {
      UnansweredSnocClosed(log, r);
    } else {
      var k :| OpenTurnAt(log, k);
      UnansweredResult(log, k, r);
      OpenTurnSnoc(log, k, r);
    }
  }

  // A logged result takes its id off the pending calls.
  lemma ResultStep(s: State, r: Message)
    requires Invariant(s) && r.ToolResult?
    ensures Invariant(State(s.log + [r], Without(s.pending, ResultId(r))))
  {
    TracksResult(s.log, s.pending, r);
    ClosedSnoc(s.log, r);
    if ResultId(r).Some? {
      DeleteKeeps(s.pending, ResultId(r).value);
    }
  }

  lemma TracksOther(log: seq<Message>, m: Message)
    requires Unanswered(log) == [] && !m.ToolResult?
    ensures Tracks(log + [m], Calls(m))
  {
    if m.Assistant? {
      assert log + ([m] + []) == log + [m];
      UnansweredSplit(log, m, []);
      NothingOpenBefore(Calls(m));
      assert (log + [m])[..|log|] == log;
      assert OpenTurnAt(log + [m], |log|);
    } else {
      UnansweredSnocClosed(log, m);
    }
  }

  lemma OtherStep(s: State, m: Message)
    requires Invariant(s) && s.pending == [] && !m.ToolResult? && DistinctIds(Calls(m))
    ensures Invariant(State(s.log + [m], SetAll([], Calls(m))))
  {
    TracksOther(s.log, m);
    ClosedSnoc(s.log, m);
    assert [] + Calls(m) == Calls(m);
    SetAllNew([], Calls(m));
    TurnCallsUsable(m);
  }

  lemma FlushUnfolds(config: Config, s: State)
    requires s.pending != [] && config.allowSynthetic
    ensures Flushed(config, s) == Flushed(config, State(s.log + [Synthetic(config, s.pending[0])], s.pending[1..]))
  {
    var first, others := [Synthetic(config, s.pending[0])], SyntheticResults(config, s.pending[1..]);
    assert s.log + (first + others) == s.log + first + others;
  }

  lemma FlushFirst(config: Config, s: State)
    requires Invariant(s) && s.pending != [] && IdPreserving(config.transform)
    ensures Invariant(State(s.log + [Synthetic(config, s.pending[0])], s.pending[1..]))
  {
    var call := s.pending[0];
    assert call in s.pending && ResultId(MissingResult(call)) == Some(call.id);
    DeleteKeeps(s.pending, call.id);
    ResultStep(s, Synthetic(config, call));
  }

  lemma {:induction false} FlushStep(config: Config, s: State)
    requires Invariant(s) && config.allowSynthetic && IdPreserving(config.transform)
    ensures Invariant(Flushed(config, s))
    decreases |s.pending|
  {
    if s.pending == [] {
      assert s.log + [] == s.log;
    } else {
      FlushFirst(config, s);
      FlushUnfolds(config, s);
      FlushStep(config, State(s.log + [Synthetic(config, s.pending[0])], s.pending[1..]));
    }
  }

  ghost predicate TurnsDistinct(ops: seq<Op>) {
    forall op <- ops :: op.Append? ==> DistinctIds(Calls(op.message))
  }

  lemma StepKeepsInvariant(config: Config, s: State, op: Op)
    requires Invariant(s) && config.allowSynthetic && IdPreserving(config.transform)
    requires op.Append? ==> DistinctIds(Calls(op.message))
    ensures Invariant(Step(config, s, op))
  {
    match op
    case Flush => FlushStep(config, s);
    case Append(m) =>
      if m.ToolResult? {
        ResultStep(s, Appended(config, s, m).log[|s.log|]);
      } else {
        FlushStep(config, s);
        OtherStep(Flushed(config, s), m);
      }
  }

  lemma {:induction false} RunKeepsInvariant(config: Config, s: State, ops: seq<Op>)
    requires Invariant(s) && config.allowSynthetic && IdPreserving(config.transform) && TurnsDistinct(ops)
    ensures Invariant(Run(config, s, ops))
    decreases |ops|
  {
    if ops != [] {
      assert ops[0] in ops;
      StepKeepsInvariant(config, s, ops[0]);
      RunKeepsInvariant(config, Step(config, s, ops[0]), ops[1..]);
    }
  }

  // ---- what repair adds to a guarded log ----

  function Notices(calls: seq<ToolCall>): seq<Message> {
    if calls == [] then [] else [MissingResult(calls[0])] + Notices(calls[1..])
  }

  lemma {:induction false} NoticesConcat(a: seq<ToolCall>, b: seq<ToolCall>)
    ensures Notices(a + b) == Notices(a) + Notices(b)
  {
    if a == [] {
      assert a + b == b;
    } else {
      assert (a + b)[1..] == a[1..] + b;
      NoticesConcat(a[1..], b);
    }
  }

  lemma {:induction false} AddedForNewCalls(calls: seq<ToolCall>, span: seq<Message>, seen: set<string>)
    requires forall c <- calls :: c.id !in seen
    ensures AddedNotices(calls, span, seen) == Notices(OpenCalls(calls, span))
  {
    if calls != [] {
      AddedForNewCalls(calls[1..], span, seen);
    }
  }

  lemma NewCalls(calls: seq<ToolCall>, rest: seq<string>, seen: set<string>)
    requires NoDuplicates(CallIds(calls) + rest) && Disjoint(CallIds(calls) + rest, seen)
    ensures forall c <- calls :: c.id !in seen
    ensures NoDuplicates(rest) && Disjoint(rest, seen + Ids(calls))
  {
    NoDuplicatesConcat(CallIds(calls), rest);
    DisjointTurn(calls, rest, seen);
    forall c <- calls ensures c.id !in seen {
      var k :| 0 <= k < |calls| && calls[k] == c;
      assert (CallIds(calls) + rest)[k] == c.id;
    }
  }

  // With distinct call ids, repair adds one notice for each unanswered call, in order.
  lemma {:induction false} AddedIsUnanswered(ms: seq<Message>, seen: set<string>)
    requires NoDuplicates(AllCallIds(ms)) && Disjoint(AllCallIds(ms), seen)
    ensures Scan(ms, seen).added == Notices(Unanswered(ms))
    decreases |ms|
  {
    if ms != [] {
      if Calls(ms[0]) == [] {
        assert AllCallIds(ms) == AllCallIds(ms[1..]);
        assert Scan(ms, seen).added == Scan(ms[1..], seen).added;
        NothingPrepended(Unanswered(ms[1..]));
        AddedIsUnanswered(ms[1..], seen);
      } else {
        var span, rest := UnfoldTurn(ms, seen);
        var calls := Calls(ms[0]);
        CallIdsOfTurn(ms, span, rest);
        NewCalls(calls, AllCallIds(rest), seen);
        AddedIsUnanswered(rest, seen + Ids(calls));
        AddedForNewCalls(calls, span, seen);
        UnansweredOfTurn(ms[0], span, rest);
        NoticesConcat(OpenCalls(calls, span), Unanswered(rest));
      }
    }
  }

  lemma UnansweredOfTurn(turn: Message, span: seq<Message>, rest: seq<Message>)
    requires (forall m <- span :: !m.Assistant?) && (rest == [] || rest[0].Assistant?)
    ensures Unanswered([turn] + span + rest) == OpenCalls(Calls(turn), span) + Unanswered(rest)
  {
    var ms := [turn] + span + rest;
    assert ms == [turn] + (span + rest);
    assert ms[1..] == span + rest;
    SpanEndsAt(span, rest);
    assert SpanOf(span + rest) == span;
    SpanHasNoOpenCalls(span, rest);
  }

  // ---- the appended messages and the logged ones ----

  function Given(op: Op): seq<Message> {
    if op.Append? then [op.message] else []
  }

  function AppendedMessages(ops: seq<Op>): seq<Message> {
    if ops == [] then [] else Given(ops[0]) + AppendedMessages(ops[1..])
  }

  lemma {:induction false} SyntheticAreResults(config: Config, pending: seq<ToolCall>)
    requires IdPreserving(config.transform)
    ensures forall m <- SyntheticResults(config, pending) :: m.ToolResult?
  {
    if pending != [] {
      SyntheticAreResults(config, pending[1..]);
    }
  }

  lemma FlushKeepsOthers(config: Config, s: State)
    requires IdPreserving(config.transform)
    ensures NonResults(Flushed(config, s).log) == NonResults(s.log)
  {
    SyntheticAreResults(config, s.pending);
    NonResultsEmpty(SyntheticResults(config, s.pending));
    NonResultsConcat(s.log, SyntheticResults(config, s.pending));
  }

  lemma StepKeepsOthers(config: Config, s: State, op: Op)
    requires IdPreserving(config.transform)
    ensures NonResults(Step(config, s, op).log) == NonResults(s.log) + NonResults(Given(op))
  {
    FlushKeepsOthers(config, s);
    if op.Append? {
      var before := if op.message.ToolResult? || !config.allowSynthetic then s else Flushed(config, s);
      var last := Step(config, s, op).log[|before.log|];
      assert Step(config, s, op).log == before.log + [last];
      NonResultsConcat(before.log, [last]);
    }
  }

  // The guard logs every non-result message it is given, in order, and makes up none.
  lemma {:induction false} GuardKeepsOthers(config: Config, s: State, ops: seq<Op>)
    requires IdPreserving(config.transform)
    ensures NonResults(Run(config, s, ops).log) == NonResults(s.log) + NonResults(AppendedMessages(ops))
    decreases |ops|
  {
    if ops != [] {
      var rest := AppendedMessages(ops[1..]);
      StepKeepsOthers(config, s, ops[0]);
      GuardKeepsOthers(config, Step(config, s, ops[0]), ops[1..]);
      NonResultsConcat(Given(ops[0]), rest);
      Regroup(NonResults(s.log), NonResults(Given(ops[0])), NonResults(rest));
    }
  }

  lemma {:induction false} DistinctTurns(ops: seq<Op>)
    requires NoDuplicates(AllCallIds(AppendedMessages(ops)))
    ensures TurnsDistinct(ops)
  {
    if ops != [] {
      var rest := AppendedMessages(ops[1..]);
      if ops[0].Append? {
        var m := ops[0].message;
        assert ([m] + rest)[1..] == rest;
        NoDuplicatesConcat(CallIds(Calls(m)), AllCallIds(rest));
        assert AllCallIds([m] + rest) == CallIds(Calls(m)) + AllCallIds(rest);
        forall i, j | 0 <= i < j < |Calls(m)| ensures Calls(m)[i].id != Calls(m)[j].id {
          assert CallIds(Calls(m))[i] != CallIds(Calls(m))[j];
        }
      }
      if ops[0].Flush? {
        assert AppendedMessages(ops) == rest;
      }
      DistinctTurns(ops[1..]);
    }
  }

  lemma LogCallIds(config: Config, ops: seq<Op>)
    requires IdPreserving(config.transform)
    ensures AllCallIds(Run(config, FRESH, ops).log) == AllCallIds(AppendedMessages(ops))
  {
    var log := Run(config, FRESH, ops).log;
    GuardKeepsOthers(config, FRESH, ops);
    assert NonResults(log) == NonResults(AppendedMessages(ops));
    AllCallIdsIgnoreResults(AppendedMessages(ops));
    AllCallIdsIgnoreResults(log);
  }

  lemma RunKeepsInvariantFromStart(config: Config, ops: seq<Op>)
    requires config.allowSynthetic && IdPreserving(config.transform) && TurnsDistinct(ops)
    ensures Invariant(Run(config, FRESH, ops))
  {
    assert Invariant(FRESH);
    RunKeepsInvariant(config, FRESH, ops);
  }

  // Over any run with distinct call ids, repairing the log adds exactly one notice per pending
  // call, and nothing but results is ever logged while a call is unanswered.
  lemma GuardedLogRepair(config: Config, ops: seq<Op>)
    requires config.allowSynthetic && IdPreserving(config.transform)
    requires NoDuplicates(AllCallIds(AppendedMessages(ops)))
    ensures RepairReport(Run(config, FRESH, ops).log).added == Notices(Run(config, FRESH, ops).pending)
    ensures ClosedBeforeOthers(Run(config, FRESH, ops).log)
  {
    DistinctTurns(ops);
    RunKeepsInvariantFromStart(config, ops);
    LogCallIds(config, ops);
    AddedIsUnanswered(Run(config, FRESH, ops).log, {});
  }

  lemma {:induction false} RunSnoc(config: Config, s: State, ops: seq<Op>, op: Op)
    ensures Run(config, s, ops + [op]) == Step(config, Run(config, s, ops), op)
    ensures AppendedMessages(ops + [Flush]) == AppendedMessages(ops)
    decreases |ops|
  {
    if ops == [] {
      assert ops + [op] == [op] && ops + [Flush] == [Flush];
    } else {
      assert (ops + [op])[1..] == ops[1..] + [op] && (ops + [Flush])[1..] == ops[1..] + [Flush];
      RunSnoc(config, Step(config, s, ops[0]), ops[1..], op);
    }
  }

  // What the guard gives out as pending ids: after any run whose turns do not repeat an id, they are
  // the ids of the calls in the log that no result of their span answers, each once.
  lemma PendingIdsAreUnanswered(config: Config, ops: seq<Op>)
    requires config.allowSynthetic && IdPreserving(config.transform) && TurnsDistinct(ops)
    ensures var s := Run(config, FRESH, ops);
            CallIds(s.pending) == CallIds(Unanswered(s.log)) && NoDuplicates(CallIds(s.pending))
  {
    RunKeepsInvariantFromStart(config, ops);
    var pending := Run(config, FRESH, ops).pending;
    forall i, j | 0 <= i < j < |pending| ensures CallIds(pending)[i] != CallIds(pending)[j] {
      assert pending[i].id != pending[j].id;
    }
  }

  // Repair adds nothing to a log whose run ended in a flush.
  lemma FlushedLogNeedsNoNotice(config: Config, ops: seq<Op>)
    requires config.allowSynthetic && IdPreserving(config.transform)
    requires NoDuplicates(AllCallIds(AppendedMessages(ops)))
    ensures RepairReport(Run(config, FRESH, ops + [Flush]).log).added == []
  {
    RunSnoc(config, FRESH, ops, Flush);
    GuardedLogRepair(config, ops + [Flush]);
  }
}
