/** When repair leaves a log written through the guard as it is. */
module GuardInPlace {
  import opened Wrappers
  import opened Transcript
  import opened TranscriptRepair
  import opened RepairProperties
  import opened RepairCompleteness
  import opened RepairInPlace
  import opened SessionGuard
  import opened GuardProperties

  // The appended message, if it is a result, carries the id of the call that has waited longest.
  predicate AnswersFirst(s: State, op: Op) {
    op.Append? && op.message.ToolResult? ==> s.pending != [] && ResultId(op.message) == Some(s.pending[0].id)
  }

  // Every result of the run does.
  predicate InTurn(config: Config, s: State, ops: seq<Op>)
    decreases |ops|
  {
    ops == [] || (AnswersFirst(s, ops[0]) && InTurn(config, Step(config, s, ops[0]), ops[1..]))
  }

  // The log so far is in place, and what is due is what the guard waits for.
  ghost predicate Follows(s: State, r: Reader) {
    && Read(s.log, AT_START) == Some(r)
    && r.due == CallIds(s.pending) && WellKeyed(s.pending)
  }

  ghost predicate Careful(config: Config) {
    config.allowSynthetic && IdPreserving(config.transform)
  }

  lemma ReadOne(log: seq<Message>, m: Message)
    ensures Read(log + [m], AT_START)
         == if Read(log, AT_START).None? then None else Read([m], Read(log, AT_START).value)
  {
    ReadConcat(log, [m], AT_START);
  }

  lemma ReadResult(m: Message, r: Reader)
    requires m.ToolResult?
    ensures Read([m], r) == if r.due != [] && ResultId(m) == Some(r.due[0]) then Some(r.(due := r.due[1..])) else None
  {
    assert [m][1..] == [];
  }

  lemma ReadOther(m: Message, r: Reader)
    requires !m.ToolResult? && r.due == []
    ensures Read([m], r) == Some(Reader(NewCallIds(Calls(m), r.seen), r.seen + Ids(Calls(m))))
  {
    assert [m][1..] == [];
  }

  lemma FirstAnswered(pending: seq<ToolCall>)
    requires pending != [] && WellKeyed(pending)
    ensures Delete(pending, pending[0].id) == pending[1..] && WellKeyed(pending[1..])
    ensures CallIds(pending)[1..] == CallIds(pending[1..])
  {
    DeleteKeeps(pending, pending[0].id);
  }

  // A result that is logged is read, if it is the first one due, and is out of place otherwise.
  lemma ResultFollows(s: State, r: Reader, m: Message)
    requires Follows(s, r) && m.ToolResult?
    ensures var log, pending := s.log + [m], Without(s.pending, ResultId(m));
            if s.pending != [] && ResultId(m) == Some(s.pending[0].id)
            then Follows(State(log, pending), r.(due := r.due[1..])) else Read(log, AT_START).None?
  {
    hide Read, Delete;
    ReadOne(s.log, m);
    ReadResult(m, r);
    if s.pending != [] {
      FirstAnswered(s.pending);
    }
  }

  // A flush answers what is due, in order.
  lemma {:induction false} FlushFollows(config: Config, s: State, r: Reader)
    requires Careful(config) && Follows(s, r)
    ensures Follows(Flushed(config, s), Reader([], r.seen))
    decreases |s.pending|
  {
    hide Read, Follows;
    if s.pending == [] {
      FlushOfNothing(config, s, r);
    } else {
      var call := s.pending[0];
      FirstIsUsable(s, r);
      assert ResultId(Synthetic(config, call)) == Some(call.id) by {
        assert ResultId(MissingResult(call)) == Some(call.id);
      }
      ResultFollows(s, r, Synthetic(config, call));
      FlushUnfolds(config, s);
      FlushFollows(config, State(s.log + [Synthetic(config, call)], s.pending[1..]), r.(due := r.due[1..]));
    }
  }

  lemma FlushOfNothing(config: Config, s: State, r: Reader)
    requires Follows(s, r) && s.pending == []
    ensures Follows(Flushed(config, s), Reader([], r.seen))
  {
    assert s.log + [] == s.log;
  }

  lemma FirstIsUsable(s: State, r: Reader)
    requires Follows(s, r) && s.pending != []
    ensures s.pending[0].id != "" && r.due != [] && Delete(s.pending, s.pending[0].id) == s.pending[1..]
  {
    assert s.pending[0] in s.pending;
    FirstAnswered(s.pending);
  }

  // The ids of calls that are new and distinct are all new.
  lemma {:induction false} AllAreNew(calls: seq<ToolCall>, seen: set<string>)
    requires DistinctIds(calls) && forall c <- calls :: c.id !in seen
    ensures NewCallIds(calls, seen) == CallIds(calls)
  {
    if calls != [] {
      var rest := calls[1..];
      forall i, j | 0 <= i < j < |rest| ensures rest[i].id != rest[j].id {
        assert calls[i + 1].id != calls[j + 1].id;
      }
      forall c <- rest ensures c.id !in seen + {calls[0].id} {
        var j :| 0 <= j < |rest| && rest[j] == c;
        assert calls[0].id != calls[j + 1].id;
      }
      AllAreNew(rest, seen + {calls[0].id});
    }
  }

  lemma OtherFollows(s: State, r: Reader, m: Message)
    requires Follows(s, r) && s.pending == [] && !m.ToolResult?
    requires DistinctIds(Calls(m)) && forall c <- Calls(m) :: c.id !in r.seen
    ensures Follows(State(s.log + [m], SetAll([], Calls(m))), Reader(CallIds(Calls(m)), r.seen + Ids(Calls(m))))
  {
    hide Read, SetAll, NewCallIds;
    ReadOne(s.log, m);
    ReadOther(m, r);
    AllAreNew(Calls(m), r.seen);
    assert [] + Calls(m) == Calls(m);
    SetAllNew([], Calls(m));
    TurnCallsUsable(m);
  }

  // What has been read of the calls after one operation.
  function SeenAfter(seen: set<string>, op: Op): set<string> {
    if op.Append? && !op.message.ToolResult? then seen + Ids(Calls(op.message)) else seen
  }

  function DueAfter(config: Config, s: State, op: Op): seq<string> {
    CallIds(Step(config, s, op).pending)
  }

  lemma StepFollows(config: Config, s: State, r: Reader, op: Op)
    requires Careful(config) && Follows(s, r)
    requires op.Append? ==> DistinctIds(Calls(op.message)) && forall c <- Calls(op.message) :: c.id !in r.seen
    ensures if AnswersFirst(s, op) then Follows(Step(config, s, op), Reader(DueAfter(config, s, op), SeenAfter(r.seen, op)))
            else Read(Step(config, s, op).log, AT_START).None?
  {
    match op
    case Flush =>
      FlushFollows(config, s, r);
    case Append(m) =>
      if m.ToolResult? {
        ResultFollows(s, r, Appended(config, s, m).log[|s.log|]);
      } else {
        FlushFollows(config, s, r);
        OtherFollows(Flushed(config, s), Reader([], r.seen), m);
      }
  }

  // The log only grows.
  lemma StepGrows(config: Config, s: State, op: Op) returns (more: seq<Message>)
    ensures Step(config, s, op).log == s.log + more
  {
    more := Step(config, s, op).log[|s.log|..];
  }

  lemma {:induction false} RunGrows(config: Config, s: State, ops: seq<Op>)
    requires Read(s.log, AT_START).None?
    ensures Read(Run(config, s, ops).log, AT_START).None?
    decreases |ops|
  {
    if ops != [] {
      hide Read, Step;
      var more := StepGrows(config, s, ops[0]);
      ReadConcat(s.log, more, AT_START);
      RunGrows(config, Step(config, s, ops[0]), ops[1..]);
    }
  }

  // The first operation of a run with distinct call ids, and the rest of it.
  lemma FirstOp(ops: seq<Op>, seen: set<string>)
    requires ops != [] && NoDuplicates(AllCallIds(AppendedMessages(ops))) && Disjoint(AllCallIds(AppendedMessages(ops)), seen)
    ensures ops[0].Append? ==> DistinctIds(Calls(ops[0].message)) && forall c <- Calls(ops[0].message) :: c.id !in seen
    ensures NoDuplicates(AllCallIds(AppendedMessages(ops[1..])))
    ensures Disjoint(AllCallIds(AppendedMessages(ops[1..])), SeenAfter(seen, ops[0]))
  {
    var rest := AppendedMessages(ops[1..]);
    if ops[0].Append? {
      var m := ops[0].message;
      assert ([m] + rest)[1..] == rest;
      assert AllCallIds([m] + rest) == CallIds(Calls(m)) + AllCallIds(rest);
      NewCalls(Calls(m), AllCallIds(rest), seen);
      DistinctTurns(ops);
      assert ops[0] in ops;
    } else {
      assert AppendedMessages(ops) == rest;
    }
  }

  lemma {:induction false} RunFollows(config: Config, s: State, r: Reader, ops: seq<Op>)
    requires Careful(config) && Follows(s, r)
    requires NoDuplicates(AllCallIds(AppendedMessages(ops))) && Disjoint(AllCallIds(AppendedMessages(ops)), r.seen)
    ensures InTurn(config, s, ops) <==> Read(Run(config, s, ops).log, AT_START).Some?
    ensures InTurn(config, s, ops) ==>
      Read(Run(config, s, ops).log, AT_START).value.due == CallIds(Run(config, s, ops).pending)
    decreases |ops|
  {
    if ops != [] {
      hide Read, Step, Follows, AnswersFirst, Careful;
      var op := ops[0];
      FirstOp(ops, r.seen);
      StepFollows(config, s, r, op);
      if AnswersFirst(s, op) {
        RunFollows(config, Step(config, s, op), Reader(DueAfter(config, s, op), SeenAfter(r.seen, op)), ops[1..]);
      } else {
        RunGrows(config, Step(config, s, op), ops[1..]);
      }
    }
  }

  lemma NothingFollows()
    ensures Follows(FRESH, AT_START)
  {
  }

  lemma {:induction false} InTurnSnoc(config: Config, s: State, ops: seq<Op>)
    ensures InTurn(config, s, ops + [Flush]) <==> InTurn(config, s, ops)
    decreases |ops|
  {
    if ops == [] {
      assert ops + [Flush] == [Flush] && [Flush][1..] == [];
    } else {
      assert (ops + [Flush])[0] == ops[0] && (ops + [Flush])[1..] == ops[1..] + [Flush];
      InTurnSnoc(config, Step(config, s, ops[0]), ops[1..]);
    }
  }

  // Over every run with distinct call ids and a final flush: repair builds the log as it is if and
  // only if each appended result carried the id of the call that had waited longest.
  lemma FlushedLogIsKeptIff(config: Config, ops: seq<Op>)
    requires config.allowSynthetic && IdPreserving(config.transform)
    requires NoDuplicates(AllCallIds(AppendedMessages(ops)))
    ensures var log := Run(config, FRESH, ops + [Flush]).log; RepairedList(log) == log <==> InTurn(config, FRESH, ops)
  {
    hide Read, RepairedList, Follows;
    var all := ops + [Flush];
    RunSnoc(config, FRESH, ops, Flush);
    assert AppendedMessages(all) == AppendedMessages(ops);
    NothingFollows();
    RunFollows(config, FRESH, AT_START, all);
    InTurnSnoc(config, FRESH, ops);
    RepairKeepsIff(Run(config, FRESH, all).log);
  }
}
