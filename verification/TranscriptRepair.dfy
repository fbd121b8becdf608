/** Re-pairing of tool calls and tool results in a stored transcript. */
module TranscriptRepair {
  import opened Wrappers
  import opened Transcript

  // What one pass over a transcript has produced so far.
  datatype Tally = Tally(out: seq<Message>, added: seq<Message>, duplicates: nat, orphans: nat, moved: bool)

  datatype Report = Report(messages: seq<Message>, added: seq<Message>, droppedDuplicates: nat, droppedOrphans: nat, moved: bool)

  function Plus(a: Tally, b: Tally): Tally {
    Tally(a.out + b.out, a.added + b.added, a.duplicates + b.duplicates, a.orphans + b.orphans, a.moved || b.moved)
  }

  const NOTHING := Tally([], [], 0, 0, false)

  predicate Changed(t: Tally) {
    t.added != [] || t.duplicates > 0 || t.orphans > 0 || t.moved
  }

  // ---- one assistant turn and the messages up to the next assistant ----

  function SpanLength(ms: seq<Message>): (n: nat)
    ensures n <= |ms|
    ensures forall k :: 0 <= k < n ==> !ms[k].Assistant?
    ensures n < |ms| ==> ms[n].Assistant?
  {
    if ms == [] || ms[0].Assistant? then 0 else 1 + SpanLength(ms[1..])
  }

  function FirstResult(span: seq<Message>, id: string): Option<Message> {
    if span == [] then None
    else if ResultId(span[0]) == Some(id) then Some(span[0])
    else FirstResult(span[1..], id)
  }

  function Answer(call: ToolCall, span: seq<Message>): Message {
    match FirstResult(span, call.id)
    case Some(r) => r
    case None => MissingResult(call)
  }

  // The results placed after the turn: one for each call id not answered before.
  function Answers(calls: seq<ToolCall>, span: seq<Message>, seen: set<string>): seq<Message> {
    if calls == [] then []
    else if calls[0].id in seen then Answers(calls[1..], span, seen)
    else [Answer(calls[0], span)] + Answers(calls[1..], span, seen + {calls[0].id})
  }

  // The notices reported as added, among them those for ids answered in an earlier
  // turn, which are then dropped as duplicates.
  function AddedNotices(calls: seq<ToolCall>, span: seq<Message>, seen: set<string>): seq<Message> {
    if calls == [] then []
    else if calls[0].id in seen || FirstResult(span, calls[0].id).None? then
      [MissingResult(calls[0])] + AddedNotices(calls[1..], span, seen)
    else AddedNotices(calls[1..], span, seen)
  }

  // Pushes refused because the id already has a result.
  function RefusedPushes(calls: seq<ToolCall>, seen: set<string>): nat {
    if calls == [] then 0
    else if calls[0].id in seen then 1 + RefusedPushes(calls[1..], seen)
    else RefusedPushes(calls[1..], seen + {calls[0].id})
  }

  predicate Matches(m: Message, ids: set<string>) {
    ResultId(m).Some? && ResultId(m).value in ids
  }

  function Orphans(span: seq<Message>, ids: set<string>): nat {
    if span == [] then 0
    else (if span[0].ToolResult? && !Matches(span[0], ids) then 1 else 0) + Orphans(span[1..], ids)
  }

  function Repeats(span: seq<Message>, ids: set<string>): nat {
    if span == [] then 0
    else (if Matches(span[0], ids) then 1 else 0) + Repeats(span[1..], ids)
  }

  predicate Moves(span: seq<Message>, open: set<string>) {
    (exists m <- span :: Matches(m, open)) && NonResults(span) != []
  }

  function Ids(calls: seq<ToolCall>): set<string> {
    if calls == [] then {} else {calls[0].id} + Ids(calls[1..])
  }

  // What follows the turn in the output: its answers, then the other messages of the span.
  function Placed(calls: seq<ToolCall>, span: seq<Message>, seen: set<string>): seq<Message> {
    Answers(calls, span, seen) + NonResults(span)
  }

  function Turn(msg: Message, span: seq<Message>, seen: set<string>): Tally {
    var calls := Calls(msg);
    var ids := Ids(calls);
    Tally([msg] + Placed(calls, span, seen),
          AddedNotices(calls, span, seen),
          Repeats(span, ids * seen) + RefusedPushes(calls, seen),
          Orphans(span, ids),
          Moves(span, ids - seen))
  }

  // ---- the whole transcript ----

  function Scan(ms: seq<Message>, seen: set<string>): Tally
    decreases |ms|
  {
    if ms == [] then NOTHING
    else if ms[0].ToolResult? then Plus(Tally([], [], 0, 1, false), Scan(ms[1..], seen))
    else if Calls(ms[0]) == [] then Plus(Tally([ms[0]], [], 0, 0, false), Scan(ms[1..], seen))
    else
      var n := SpanLength(ms[1..]);
      Plus(Turn(ms[0], ms[1..1 + n], seen), Scan(ms[1 + n..], seen + Ids(Calls(ms[0]))))
  }

  function RepairedList(ms: seq<Message>): seq<Message> {
    Scan(ms, {}).out
  }

  function RepairReport(ms: seq<Message>): Report {
    var t := Scan(ms, {});
    Report(if Changed(t) then t.out else ms, t.added, t.duplicates, t.orphans, Changed(t))
  }

  // ---- the loops of the source ----

  // The span from start reaches to the next assistant, or to the end of the list.
  ghost predicate IsSpan(ms: seq<Message>, start: nat, end: nat) {
    && start <= end <= |ms|
    && (forall k :: start <= k < end ==> !ms[k].Assistant?)
    && (end < |ms| ==> ms[end].Assistant?)
  }

  lemma SpanFromStart(ms: seq<Message>, start: nat)
    requires start <= |ms|
    ensures IsSpan(ms, start, start + SpanLength(ms[start..]))
  {
    var n := SpanLength(ms[start..]);
    forall k | start <= k < start + n ensures !ms[k].Assistant? {
      assert !ms[start..][k - start].Assistant?;
    }
  }

  method CollectSpan(ms: seq<Message>, start: nat, ghost end: nat, ids: set<string>, seen: set<string>)
      returns (next: nat, results: map<string, Message>, remainder: seq<Message>, repeats: nat, orphans: nat)
    requires IsSpan(ms, start, end)
    ensures next == end
    ensures remainder == NonResults(ms[start..end])
    ensures repeats == Repeats(ms[start..end], ids * seen)
    ensures orphans == Orphans(ms[start..end], ids)
    ensures Collected(results, ms[start..end], ids - seen)
  {
    next, results, remainder, repeats, orphans := start, map[], [], 0, 0;
    ghost var span := ms[start..end];
    hide NonResults, Repeats, Orphans, FirstResult;
    while next < |ms|
      invariant start <= next <= end
      invariant remainder + NonResults(ms[next..end]) == NonResults(span)
      invariant repeats + Repeats(ms[next..end], ids * seen) == Repeats(span, ids * seen)
      invariant orphans + Orphans(ms[next..end], ids) == Orphans(span, ids)
      invariant PartlyCollected(results, ms[next..end], span, ids - seen)
    {
      var m := ms[next];
      if m.Assistant? {
        assert next == end;
        break;
      }
      SpanStep(ms, next, end, results, span, ids, seen);
      var id := ResultId(m);
      if m.ToolResult? && id.Some? && id.value in ids {
        if id.value in seen {
          repeats := repeats + 1;
        } else if id.value !in results {
          results := results[id.value := m];
        }
      } else if !m.ToolResult? {
        Regroup(remainder, [m], NonResults(ms[next + 1..end]));
        remainder := remainder + [m];
      } else {
        orphans := orphans + 1;
      }
      next := next + 1;
    }
    assert ms[next..end] == [];
    EmptySpan(ids, seen);
  }

  lemma EmptySpan(ids: set<string>, seen: set<string>)
    ensures NonResults([]) == [] && Repeats([], ids * seen) == 0 && Orphans([], ids) == 0
    ensures forall id :: FirstResult([], id).None?
  {
  }

  // What one message of the span adds to the remainder, the counts and the map.
  lemma SpanStep(ms: seq<Message>, next: nat, end: nat, results: map<string, Message>, span: seq<Message>, ids: set<string>, seen: set<string>)
    requires next < end <= |ms| && PartlyCollected(results, ms[next..end], span, ids - seen)
    ensures var m, rest := ms[next], ms[next + 1..end];
            && NonResults(ms[next..end]) == (if m.ToolResult? then NonResults(rest) else [m] + NonResults(rest))
            && Repeats(ms[next..end], ids * seen) == (if Matches(m, ids * seen) then 1 else 0) + Repeats(rest, ids * seen)
            && Orphans(ms[next..end], ids) == (if m.ToolResult? && !Matches(m, ids) then 1 else 0) + Orphans(rest, ids)
            && PartlyCollected(if Matches(m, ids - seen) && ResultId(m).value !in results then results[ResultId(m).value := m] else results,
                               rest, span, ids - seen)
  {
    var m, rest, open := ms[next], ms[next + 1..end], ids - seen;
    assert ms[next..end][1..] == rest;
    var later := if Matches(m, open) && ResultId(m).value !in results then results[ResultId(m).value := m] else results;
    forall id <- open
      ensures (if id in later then Lookup(later, id) else FirstResult(rest, id)) == FirstResult(span, id)
    {
      assert (if id in results then Lookup(results, id) else FirstResult(ms[next..end], id)) == FirstResult(span, id);
    }
  }

  // The map of the span: each open id goes to its first result.
  ghost predicate Collected(results: map<string, Message>, span: seq<Message>, open: set<string>) {
    && results.Keys <= open
    && forall id <- open :: Lookup(results, id) == FirstResult(span, id)
  }

  ghost predicate PartlyCollected(results: map<string, Message>, rest: seq<Message>, span: seq<Message>, open: set<string>) {
    && results.Keys <= open
    && forall id <- open :: (if id in results then Lookup(results, id) else FirstResult(rest, id)) == FirstResult(span, id)
  }

  function Lookup(results: map<string, Message>, id: string): Option<Message> {
    if id in results then Some(results[id]) else None
  }

  method PushResults(calls: seq<ToolCall>, results: map<string, Message>, seen: set<string>, ghost span: seq<Message>)
      returns (pushed: seq<Message>, added: seq<Message>, refused: nat, seenAfter: set<string>)
    requires Collected(results, span, Ids(calls) - seen)
    ensures pushed == Answers(calls, span, seen)
    ensures added == AddedNotices(calls, span, seen)
    ensures refused == RefusedPushes(calls, seen)
    ensures seenAfter == seen + Ids(calls)
  {
    pushed, added, refused, seenAfter := [], [], 0, seen;
    for k := 0 to |calls|
      invariant seen <= seenAfter
      invariant seenAfter + Ids(calls[k..]) == seen + Ids(calls)
      invariant pushed + Answers(calls[k..], span, seenAfter) == Answers(calls, span, seen)
      invariant added + AddedNotices(calls[k..], span, seen) == AddedNotices(calls, span, seen)
      invariant refused + RefusedPushes(calls[k..], seenAfter) == RefusedPushes(calls, seen)
    {
      var call := calls[k];
      PushStep(calls, k, results, span, seen, seenAfter);
      var message;
      if call.id in results {
        message := results[call.id];
      } else {
        message := MissingResult(call);
        Regroup(added, [message], AddedNotices(calls[k + 1..], span, seen));
        added := added + [message];
      }
      if call.id in seenAfter {
        refused := refused + 1;
      } else {
        seenAfter := seenAfter + {call.id};
        Regroup(pushed, [message], Answers(calls[k + 1..], span, seenAfter));
        pushed := pushed + [message];
      }
    }
  }

  // What one call adds to the results, the notices, the refusals and the seen ids.
  lemma PushStep(calls: seq<ToolCall>, k: nat, results: map<string, Message>, span: seq<Message>, seen: set<string>, now: set<string>)
    requires k < |calls| && seen <= now && Collected(results, span, Ids(calls) - seen)
    ensures var call, rest := calls[k], calls[k + 1..];
            && Ids(calls[k..]) == {call.id} + Ids(rest)
            && (call.id in results ==> call.id !in seen)
            && (call.id !in now ==> Answer(call, span) == if call.id in results then results[call.id] else MissingResult(call))
            && Answers(calls[k..], span, now)
               == (if call.id in now then Answers(rest, span, now) else [Answer(call, span)] + Answers(rest, span, now + {call.id}))
            && AddedNotices(calls[k..], span, seen)
               == (if call.id in results then AddedNotices(rest, span, seen) else [MissingResult(call)] + AddedNotices(rest, span, seen))
            && RefusedPushes(calls[k..], now)
               == (if call.id in now then 1 + RefusedPushes(rest, now) else RefusedPushes(rest, now + {call.id}))
  {
    var call := calls[k];
    assert calls[k..][1..] == calls[k + 1..];
    CallIdListed(calls, k);
    assert call.id !in seen ==> Lookup(results, call.id) == FirstResult(span, call.id);
  }

  method RepairTurn(messages: seq<Message>, i: nat, calls: seq<ToolCall>, seen: set<string>)
      returns (turn: Tally, next: nat, seenAfter: set<string>)
    requires i < |messages| && calls == Calls(messages[i])
    ensures next == i + 1 + SpanLength(messages[i + 1..])
    ensures turn == Turn(messages[i], messages[i + 1..next], seen)
    ensures seenAfter == seen + Ids(calls)
  {
    var results, remainder, repeats, stray;
    ghost var end := i + 1 + SpanLength(messages[i + 1..]);
    SpanFromStart(messages, i + 1);
    next, results, remainder, repeats, stray := CollectSpan(messages, i + 1, end, Ids(calls), seen);
    var pushed, missing, refused;
    pushed, missing, refused, seenAfter := PushResults(calls, results, seen, messages[i + 1..next]);
    CollectedIffMatched(results, messages[i + 1..next], Ids(calls) - seen);
    var moves := results != map[] && remainder != [];
    turn := Tally([messages[i]] + (pushed + remainder), missing, repeats + refused, stray, moves);
  }

  // One round of the outer loop: a message outside a turn, or a turn with its span.
  method RepairRound(messages: seq<Message>, i: nat, done: Tally, seen: set<string>)
      returns (tally: Tally, next: nat, seenAfter: set<string>)
    requires i < |messages|
    ensures i < next <= |messages|
    ensures Finish(tally, messages[next..], seenAfter) == Finish(done, messages[i..], seen)
    ensures Changed(done) ==> Changed(tally)
  {
    var msg := messages[i];
    var calls := ExtractToolCalls(msg);
    if calls == [] {
      FinishOne(done, messages, i, seen);
      tally := if msg.ToolResult? then done.(orphans := done.orphans + 1) else done.(out := done.out + [msg]);
      next, seenAfter := i + 1, seen;
    } else {
      var turn;
      turn, next, seenAfter := RepairTurn(messages, i, calls, seen);
      FinishTurn(done, messages, i, next, seen);
      tally := Plus(done, turn);
    }
  }

  method RepairToolUseResultPairing(messages: seq<Message>) returns (report: Report)
    ensures report == RepairReport(messages)
  {
    var done, seen, i := NOTHING, {}, 0;
    FinishStart(messages);
    while i < |messages|
      invariant i <= |messages|
      invariant Finish(done, messages[i..], seen) == Scan(messages, {})
    {
      done, i, seen := RepairRound(messages, i, done, seen);
    }
    FinishEnd(done, messages[i..], seen);
    report := Report(if Changed(done) then done.out else messages, done.added, done.duplicates, done.orphans, Changed(done));
  }

  lemma NothingPlus(t: Tally)
    ensures Plus(NOTHING, t) == t
  {
  }

  lemma FinishStart(ms: seq<Message>)
    ensures Finish(NOTHING, ms[0..], {}) == Scan(ms, {})
  {
    NothingPlus(Scan(ms, {}));
    assert ms[0..] == ms;
  }

  lemma FinishEnd(done: Tally, rest: seq<Message>, seen: set<string>)
    requires rest == []
    ensures Finish(done, rest, seen) == done
  {
  }

  // What the loop will have produced in the end, given what it has produced so far.
  ghost function Finish(done: Tally, rest: seq<Message>, seen: set<string>): Tally {
    Plus(done, Scan(rest, seen))
  }

  lemma FinishOne(done: Tally, ms: seq<Message>, i: nat, seen: set<string>)
    requires i < |ms| && (ms[i].ToolResult? || Calls(ms[i]) == [])
    ensures Finish(done, ms[i..], seen)
         == if ms[i].ToolResult? then Finish(done.(orphans := done.orphans + 1), ms[i + 1..], seen)
            else Finish(done.(out := done.out + [ms[i]]), ms[i + 1..], seen)
  {
    assert ms[i..][1..] == ms[i + 1..];
    var one := if ms[i].ToolResult? then Tally([], [], 0, 1, false) else Tally([ms[i]], [], 0, 0, false);
    PlusAssociates(done, one, Scan(ms[i + 1..], seen));
    assert Plus(done, one) == if ms[i].ToolResult? then done.(orphans := done.orphans + 1) else done.(out := done.out + [ms[i]]);
  }

  lemma FinishTurn(done: Tally, ms: seq<Message>, i: nat, next: nat, seen: set<string>)
    requires i < |ms| && Calls(ms[i]) != [] && next == i + 1 + SpanLength(ms[i + 1..])
    ensures Finish(done, ms[i..], seen)
         == Finish(Plus(done, Turn(ms[i], ms[i + 1..next], seen)), ms[next..], seen + Ids(Calls(ms[i])))
  {
    var tail := ms[i..];
    assert tail[1..] == ms[i + 1..];
    assert tail[1..1 + SpanLength(tail[1..])] == ms[i + 1..next];
    assert tail[1 + SpanLength(tail[1..])..] == ms[next..];
    PlusAssociates(done, Turn(ms[i], ms[i + 1..next], seen), Scan(ms[next..], seen + Ids(Calls(ms[i]))));
  }

  lemma {:induction false} CallIdListed(calls: seq<ToolCall>, k: nat)
    requires k < |calls|
    ensures calls[k].id in Ids(calls)
  {
    if k > 0 {
      CallIdListed(calls[1..], k - 1);
    }
  }

  lemma PlusAssociates(a: Tally, b: Tally, c: Tally)
    ensures Plus(Plus(a, b), c) == Plus(a, Plus(b, c))
  {
    assert a.out + b.out + c.out == a.out + (b.out + c.out);
    assert a.added + b.added + c.added == a.added + (b.added + c.added);
  }

  lemma {:induction false} FirstResultFound(span: seq<Message>, id: string)
    ensures FirstResult(span, id).Some? <==> exists m <- span :: ResultId(m) == Some(id)
    ensures FirstResult(span, id).Some? ==> FirstResult(span, id).value in span && ResultId(FirstResult(span, id).value) == Some(id)
  {
    if span != [] {
      FirstResultFound(span[1..], id);
    }
  }

  lemma CollectedIffMatched(results: map<string, Message>, span: seq<Message>, open: set<string>)
    requires Collected(results, span, open)
    ensures results != map[] <==> exists m <- span :: Matches(m, open)
  {
    if results != map[] {
      var id :| id in results;
      FirstResultFound(span, id);
    }
    if exists m <- span :: Matches(m, open) {
      var m :| m in span && Matches(m, open);
      FirstResultFound(span, ResultId(m).value);
      assert Lookup(results, ResultId(m).value).Some?;
    }
  }
}
