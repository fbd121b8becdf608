/** What the guard logs and what it leaves pending, told from the fields of the messages alone. */
module GuardLaws {
  import opened Wrappers
  import opened Transcript
  import opened SessionGuard
  import opened GuardProperties
  import opened RepairFields

  // ---- the pending map ----

  lemma {:induction false} DeleteSnoc(pending: seq<ToolCall>, id: string, call: ToolCall)
    ensures Delete(pending + [call], id) == if call.id != id then Delete(pending, id) + [call] else Delete(pending, id)
  {
    if pending == [] {
      assert (pending + [call])[1..] == [];
    } else {
      assert (pending + [call])[1..] == pending[1..] + [call];
      DeleteSnoc(pending[1..], id, call);
    }
  }

  function OtherThan(id: string): ToolCall -> bool {
    (call: ToolCall) => call.id != id
  }

  // Deleting an id leaves all other calls, in order.
  lemma {:induction false} DeleteSelects(pending: seq<ToolCall>, id: string) returns (at: seq<int>)
    ensures Selects(pending, OtherThan(id), Delete(pending, id), at)
  {
    if pending == [] {
      at := [];
    } else {
      hide Delete, Selects;
      var front, last := pending[..|pending| - 1], pending[|pending| - 1];
      assert pending == front + [last];
      at := DeleteSelects(front, id);
      DeleteSnoc(front, id, last);
      SelectsSnoc(front, OtherThan(id), Delete(front, id), at, last);
      if last.id != id {
        at := at + [|front|];
      }
    }
  }

  ghost predicate IdAt(pending: seq<ToolCall>, k: int, id: string) {
    0 <= k < |pending| && pending[k].id == id
  }

  ghost predicate Holds(pending: seq<ToolCall>, id: string) {
    exists k :: IdAt(pending, k, id)
  }

  // The keys of a map: no id twice.
  ghost predicate IsMap(pending: seq<ToolCall>) {
    forall j, k, id :: IdAt(pending, j, id) && IdAt(pending, k, id) ==> j == k
  }

  lemma {:induction false} NameIs(pending: seq<ToolCall>, id: string)
    ensures !Holds(pending, id) ==> NameOf(pending, id) == None
    ensures IsMap(pending) ==> forall k :: IdAt(pending, k, id) ==> NameOf(pending, id) == pending[k].name
  {
    if pending != [] {
      var rest := pending[1..];
      NameIs(rest, id);
      assert IdAt(pending, 0, pending[0].id);
      assert forall k, x :: IdAt(rest, k, x) ==> IdAt(pending, k + 1, x);
      assert forall k :: IdAt(pending, k, id) && k > 0 ==> IdAt(rest, k - 1, id);
    }
  }

  // Setting a call replaces the one of its id in place, or adds it at the end.
  lemma {:induction false} SetPendingIs(pending: seq<ToolCall>, call: ToolCall)
    ensures !Holds(pending, call.id) ==> SetPending(pending, call) == pending + [call]
    ensures IsMap(pending) ==> forall k :: IdAt(pending, k, call.id) ==> SetPending(pending, call) == pending[k := call]
  {
    if pending != [] {
      var rest := pending[1..];
      SetPendingIs(rest, call);
      assert IdAt(pending, 0, pending[0].id);
      assert forall k, x :: IdAt(rest, k, x) ==> IdAt(pending, k + 1, x);
      forall k | IdAt(pending, k, call.id) && k > 0 && IsMap(pending)
        ensures SetPending(pending, call) == pending[k := call]
      {
        assert IdAt(rest, k - 1, call.id);
        assert !IdAt(pending, 0, call.id);
        assert pending[k := call] == [pending[0]] + rest[k - 1 := call];
      }
    }
  }

  lemma {:induction false} SetAllSnoc(pending: seq<ToolCall>, calls: seq<ToolCall>, call: ToolCall)
    ensures SetAll(pending, calls + [call]) == SetPending(SetAll(pending, calls), call)
    decreases |calls|
  {
    if calls == [] {
      assert (calls + [call])[1..] == [];
    } else {
      assert (calls + [call])[1..] == calls[1..] + [call];
      SetAllSnoc(SetPending(pending, calls[0]), calls[1..], call);
    }
  }

  // The last call with this id is at k.
  ghost predicate LastIdAt(calls: seq<ToolCall>, k: int, id: string) {
    IdAt(calls, k, id) && forall j :: IdAt(calls, j, id) ==> j <= k
  }

  // The keys: each once, those that were there in their places, and those of the calls.
  ghost predicate KeysSet(before: seq<ToolCall>, calls: seq<ToolCall>, after: seq<ToolCall>) {
    && IsMap(after) && |before| <= |after|
    && (forall k :: 0 <= k < |before| ==> IdAt(after, k, before[k].id))
    && forall id :: Holds(after, id) <==> Holds(before, id) || Holds(calls, id)
  }

  // An id of the calls has the name of its last call, and any other id keeps its name.
  ghost predicate NamesSet(before: seq<ToolCall>, calls: seq<ToolCall>, after: seq<ToolCall>) {
    forall j :: 0 <= j < |after| ==> NameSet(before, calls, after[j], j)
  }

  ghost predicate NameSet(before: seq<ToolCall>, calls: seq<ToolCall>, entry: ToolCall, j: int) {
    && (forall k :: LastIdAt(calls, k, entry.id) ==> entry.name == calls[k].name)
    && (!Holds(calls, entry.id) && 0 <= j < |before| ==> entry == before[j])
  }

  ghost predicate SetByLast(before: seq<ToolCall>, calls: seq<ToolCall>, after: seq<ToolCall>) {
    KeysSet(before, calls, after) && NamesSet(before, calls, after)
  }

  // One more call at the end of the calls: its id is last there, and the last calls of other ids stay.
  lemma OneMoreCall(calls: seq<ToolCall>, call: ToolCall)
    ensures forall k, id :: IdAt(calls + [call], k, id) <==> IdAt(calls, k, id) || (k == |calls| && id == call.id)
    ensures forall k, id :: LastIdAt(calls + [call], k, id) ==> if id == call.id then k == |calls| else LastIdAt(calls, k, id)
    ensures forall id :: Holds(calls + [call], id) <==> Holds(calls, id) || id == call.id
  {
    var all := calls + [call];
    assert IdAt(all, |calls|, call.id);
    assert forall k, id :: IdAt(calls, k, id) ==> IdAt(all, k, id);
    assert forall k, id :: IdAt(all, k, id) && k < |calls| ==> IdAt(calls, k, id);
  }

  lemma ReplacedCall(after: seq<ToolCall>, call: ToolCall, at: int)
    requires IdAt(after, at, call.id)
    ensures forall k, id :: IdAt(after[at := call], k, id) <==> IdAt(after, k, id)
    ensures forall id :: Holds(after[at := call], id) <==> Holds(after, id)
    ensures IsMap(after) ==> IsMap(after[at := call])
  {
    var next := after[at := call];
    assert forall k, id :: IdAt(next, k, id) <==> IdAt(after, k, id);
  }

  lemma NameStays(before: seq<ToolCall>, calls: seq<ToolCall>, call: ToolCall, entry: ToolCall, j: int)
    requires NameSet(before, calls, entry, j) && entry.id != call.id
    ensures NameSet(before, calls + [call], entry, j)
  {
    OneMoreCall(calls, call);
  }

  lemma NameOfLast(before: seq<ToolCall>, calls: seq<ToolCall>, call: ToolCall, j: int)
    ensures NameSet(before, calls + [call], call, j)
  {
    OneMoreCall(calls, call);
  }

  lemma SetInPlace(before: seq<ToolCall>, calls: seq<ToolCall>, after: seq<ToolCall>, call: ToolCall, at: int)
    requires SetByLast(before, calls, after) && IdAt(after, at, call.id)
    ensures SetByLast(before, calls + [call], after[at := call])
  {
    var next := after[at := call];
    forall j | 0 <= j < |next| ensures NameSet(before, calls + [call], next[j], j) {
      NameOfLast(before, calls, call, j);
      if j != at {
        OnlyAt(after, at, call.id, j);
        NameStays(before, calls, call, after[j], j);
      }
    }
    KeysInPlace(before, calls, after, call, at);
  }

  lemma KeysInPlace(before: seq<ToolCall>, calls: seq<ToolCall>, after: seq<ToolCall>, call: ToolCall, at: int)
    requires KeysSet(before, calls, after) && IdAt(after, at, call.id)
    ensures KeysSet(before, calls + [call], after[at := call])
  {
    OneMoreCall(calls, call);
    ReplacedCall(after, call, at);
    hide IsMap, IdAt;
  }

  lemma OnlyAt(pending: seq<ToolCall>, at: int, id: string, k: int)
    requires IsMap(pending) && IdAt(pending, at, id)
    ensures IdAt(pending, k, id) <==> k == at
  {
  }

  lemma SetAtEnd(before: seq<ToolCall>, calls: seq<ToolCall>, after: seq<ToolCall>, call: ToolCall)
    requires SetByLast(before, calls, after) && !Holds(after, call.id)
    ensures SetByLast(before, calls + [call], after + [call])
  {
    var next := after + [call];
    forall j | 0 <= j < |next| ensures NameSet(before, calls + [call], next[j], j) {
      NameOfLast(before, calls, call, j);
      if j < |after| {
        assert IdAt(after, j, after[j].id);
        NameStays(before, calls, call, after[j], j);
      }
    }
    KeysAtEnd(before, calls, after, call);
  }

  lemma KeysAtEnd(before: seq<ToolCall>, calls: seq<ToolCall>, after: seq<ToolCall>, call: ToolCall)
    requires KeysSet(before, calls, after) && !Holds(after, call.id)
    ensures KeysSet(before, calls + [call], after + [call])
  {
    OneMoreCall(calls, call);
    OneMoreCall(after, call);
    assert forall k :: !IdAt(after, k, call.id);
    hide Holds, LastIdAt;
    assert IsMap(after + [call]);
  }

  lemma SetOneMore(before: seq<ToolCall>, calls: seq<ToolCall>, after: seq<ToolCall>, call: ToolCall)
    requires SetByLast(before, calls, after)
    ensures SetByLast(before, calls + [call], SetPending(after, call))
  {
    SetPendingIs(after, call);
    if Holds(after, call.id) {
      var at :| IdAt(after, at, call.id);
      SetInPlace(before, calls, after, call, at);
    } else {
      SetAtEnd(before, calls, after, call);
    }
  }

  lemma {:induction false} SetAllIs(pending: seq<ToolCall>, calls: seq<ToolCall>)
    requires IsMap(pending)
    ensures SetByLast(pending, calls, SetAll(pending, calls))
    decreases |calls|
  {
    if calls != [] {
      var front, last := calls[..|calls| - 1], calls[|calls| - 1];
      assert front + [last] == calls;
      SetAllIs(pending, front);
      SetAllSnoc(pending, front, last);
      SetOneMore(pending, front, SetAll(pending, front), last);
    }
  }

  // ---- one append, one flush ----

  // A result is logged transformed, with the id it carries and the name of the pending call of that
  // id, and takes exactly that call off; one without a usable id leaves the pending calls alone.
  lemma ResultIsLogged(config: Config, s: State, m: Message) returns (at: seq<int>)
    requires m.ToolResult? && IsMap(s.pending)
    ensures Unusable(m.toolCallId) && Unusable(m.toolUseId) ==>
      Appended(config, s, m) == State(s.log + [config.transform(m, Meta(None, None, false))], s.pending)
    ensures forall id :: CarriesId(m, id) ==>
      && Selects(s.pending, OtherThan(id), Appended(config, s, m).pending, at)
      && (!Holds(s.pending, id) ==> Appended(config, s, m).log == s.log + [config.transform(m, Meta(Some(id), None, false))])
      && forall k :: IdAt(s.pending, k, id) ==>
        Appended(config, s, m).log == s.log + [config.transform(m, Meta(Some(id), s.pending[k].name, false))]
  {
    at := [];
    ResultIdIsUsable(m);
    if ResultId(m).Some? {
      var id := ResultId(m).value;
      at := DeleteSelects(s.pending, id);
      NameIs(s.pending, id);
      assert forall x :: CarriesId(m, x) ==> x == id;
    }
  }

  function NoticeOf(config: Config, call: ToolCall): Message {
    config.transform(Notice(call.id, call.name), Meta(Some(call.id), call.name, true))
  }

  lemma {:induction false} NoticesAre(config: Config, pending: seq<ToolCall>)
    ensures SyntheticResults(config, pending) == seq(|pending|, k requires 0 <= k < |pending| => NoticeOf(config, pending[k]))
  {
    if pending != [] {
      NoticesAre(config, pending[1..]);
    }
  }

  // A flush leaves nothing pending, and logs a notice for each pending call, in order, or nothing
  // where notices are switched off.
  lemma FlushIs(config: Config, s: State)
    ensures Flushed(config, s).pending == []
    ensures !config.allowSynthetic ==> Flushed(config, s).log == s.log
    ensures config.allowSynthetic ==>
      Flushed(config, s).log == s.log + seq(|s.pending|, k requires 0 <= k < |s.pending| => NoticeOf(config, s.pending[k]))
  {
    NoticesAre(config, s.pending);
  }

  // Any other message is logged as it is, after a flush where notices are allowed, and its calls
  // become pending; without notices the calls already pending stay so.
  lemma OtherIsLogged(config: Config, s: State, m: Message)
    requires !m.ToolResult? && IsMap(s.pending)
    ensures var ready := if config.allowSynthetic then Flushed(config, s) else s;
            Appended(config, s, m).log == ready.log + [m] && SetByLast(ready.pending, Calls(m), Appended(config, s, m).pending)
  {
    SetAllIs(if config.allowSynthetic then [] else s.pending, Calls(m));
  }

  lemma SelectedIsMap(pending: seq<ToolCall>, id: string, left: seq<ToolCall>, at: seq<int>)
    requires IsMap(pending) && Selects(pending, OtherThan(id), left, at)
    ensures IsMap(left)
  {
    forall j, k, x | IdAt(left, j, x) && IdAt(left, k, x) ensures j == k {
      assert IdAt(pending, at[j], x) && IdAt(pending, at[k], x);
    }
  }

  // Whatever is appended or flushed, no id is pending twice.
  lemma StepKeepsMap(config: Config, s: State, op: Op)
    requires IsMap(s.pending)
    ensures IsMap(Step(config, s, op).pending)
  {
    hide IsMap;
    if op.Append? && op.message.ToolResult? {
      if ResultId(op.message).Some? {
        var id := ResultId(op.message).value;
        var at := DeleteSelects(s.pending, id);
        SelectedIsMap(s.pending, id, Delete(s.pending, id), at);
      }
    } else {
      NothingIsMap();
      if op.Append? {
        OtherIsLogged(config, s, op.message);
      }
    }
  }

  lemma NothingIsMap()
    ensures IsMap([])
  {
  }

  // ---- whole runs ----

  lemma {:induction false} PendingIsMap(config: Config, s: State, ops: seq<Op>)
    requires IsMap(s.pending)
    ensures IsMap(Run(config, s, ops).pending)
    decreases |ops|
  {
    hide IsMap, Step;
    if ops != [] {
      StepKeepsMap(config, s, ops[0]);
      PendingIsMap(config, Step(config, s, ops[0]), ops[1..]);
    }
  }

  // A result is logged transformed, and told by the id it carries; any other message as it is.
  ghost predicate LoggedAs(config: Config, m: Message, n: Message) {
    if m.ToolResult? then
      exists meta :: n == config.transform(m, meta) && !meta.isSynthetic && forall id :: meta.toolCallId == Some(id) <==> CarriesId(m, id)
    else n == m
  }

  ghost predicate IsNotice(config: Config, n: Message) {
    exists call :: n == NoticeOf(config, call)
  }

  // The log after a run: the messages are at these places, in order, and only notices stand between
  // them; without notices there is nothing else.
  ghost predicate RunLogs(config: Config, before: seq<Message>, messages: seq<Message>, log: seq<Message>, at: seq<int>) {
    && before <= log && Increasing(at) && |at| == |messages|
    && (forall k :: 0 <= k < |at| ==> |before| <= at[k] < |log| && LoggedAs(config, messages[k], log[at[k]]))
    && (forall i :: |before| <= i < |log| && i !in at ==> config.allowSynthetic && IsNotice(config, log[i]))
  }

  lemma StepLogs(config: Config, s: State, op: Op) returns (at: seq<int>)
    ensures RunLogs(config, s.log, Given(op), Step(config, s, op).log, at)
    ensures !config.allowSynthetic ==> |Step(config, s, op).log| == |s.log| + |Given(op)|
  {
    hide Delete, SetAll, SyntheticResults;
    var log := Step(config, s, op).log;
    NoticesAre(config, s.pending);
    at := [];
    if op.Append? {
      at := [|log| - 1];
      if op.message.ToolResult? {
        ResultIdIsUsable(op.message);
      }
    }
    forall i | |s.log| <= i < |log| && i !in at ensures config.allowSynthetic && IsNotice(config, log[i]) {
      assert log[i] == NoticeOf(config, s.pending[i - |s.log|]);
    }
  }

  lemma LogsInTurn(config: Config, before: seq<Message>, a: seq<Message>, middle: seq<Message>, at: seq<int>,
                   b: seq<Message>, log: seq<Message>, later: seq<int>)
    requires RunLogs(config, before, a, middle, at) && RunLogs(config, middle, b, log, later)
    ensures RunLogs(config, before, a + b, log, at + later)
  {
    hide LoggedAs, IsNotice;
    var all := at + later;
    forall k | 0 <= k < |all| ensures |before| <= all[k] < |log| && LoggedAs(config, (a + b)[k], log[all[k]]) {
      if k < |at| {
        assert all[k] == at[k];
      } else {
        assert all[k] == later[k - |at|];
      }
    }
    forall i | |before| <= i < |log| && i !in all ensures config.allowSynthetic && IsNotice(config, log[i]) {
      assert forall k <- at :: k in all;
      assert forall k <- later :: k in all;
      assert i < |middle| ==> log[i] == middle[i];
    }
  }

  // Over every run, from any state: the log keeps what it had and gets each message once, in order,
  // results transformed and told by their id, and nothing else but notices; none where these are off.
  lemma {:induction false} EveryMessageIsLogged(config: Config, s: State, ops: seq<Op>) returns (at: seq<int>)
    ensures RunLogs(config, s.log, AppendedMessages(ops), Run(config, s, ops).log, at)
    ensures !config.allowSynthetic ==> |Run(config, s, ops).log| == |s.log| + |AppendedMessages(ops)|
    decreases |ops|
  {
    hide Step, LoggedAs, IsNotice, RunLogs, Given;
    at := [];
    if ops == [] {
      NothingLogged(config, s.log);
    } else {
      var middle := Step(config, s, ops[0]);
      var first := StepLogs(config, s, ops[0]);
      var later := EveryMessageIsLogged(config, middle, ops[1..]);
      LogsInTurn(config, s.log, Given(ops[0]), middle.log, first, AppendedMessages(ops[1..]), Run(config, s, ops).log, later);
      at := first + later;
    }
  }

  lemma NothingLogged(config: Config, log: seq<Message>)
    ensures RunLogs(config, log, [], log, [])
  {
  }

  // Without notices a run logs the results and messages one by one: the one given k-th stands at k.
  lemma QuietRunLogsEach(config: Config, s: State, ops: seq<Op>, k: nat)
    requires !config.allowSynthetic && k < |AppendedMessages(ops)|
    ensures |Run(config, s, ops).log| == |s.log| + |AppendedMessages(ops)| && s.log <= Run(config, s, ops).log
    ensures LoggedAs(config, AppendedMessages(ops)[k], Run(config, s, ops).log[|s.log| + k])
  {
    hide LoggedAs, IsNotice, Run, AppendedMessages;
    var at := EveryMessageIsLogged(config, s, ops);
    PlacesInARow(at, |s.log|, k);
  }

  // Increasing places within a range of as many numbers are all of them, in order.
  lemma PlacesInARow(at: seq<int>, low: int, k: nat)
    requires Increasing(at) && k < |at| && forall j :: 0 <= j < |at| ==> low <= at[j] < low + |at|
    ensures at[k] == low + k
  {
    PlacesAtLeast(at, low, k);
    PlacesAtMost(at, low, k);
  }

  lemma {:induction false} PlacesAtLeast(at: seq<int>, low: int, k: nat)
    requires Increasing(at) && k < |at| && forall j :: 0 <= j < |at| ==> low <= at[j]
    ensures at[k] >= low + k
  {
    if k > 0 {
      PlacesAtLeast(at, low, k - 1);
    }
  }

  lemma {:induction false} PlacesAtMost(at: seq<int>, low: int, k: nat)
    requires Increasing(at) && k < |at| && forall j :: 0 <= j < |at| ==> at[j] < low + |at|
    ensures at[k] <= low + k
    decreases |at| - k
  {
    if k + 1 < |at| {
      PlacesAtMost(at, low, k + 1);
    }
  }
}
