/** Agent messages as the transcript code sees them: only the fields it reads or writes. */
module Transcript {
  import opened Wrappers

  // A string field that the source reads with a `typeof` test: None stands for a
  // field that is absent or not a string.
  type Field = Option<string>

  datatype Mark = ToolCallMark | ToolUseMark | FunctionCallMark

  datatype Block =
    | CallBlock(mark: Mark, id: Field, name: Field, rest: nat)
    | PlainBlock(rest: nat)

  datatype Content = Blocks(blocks: seq<Block>) | NotArray(text: string)

  // The payload of a tool result; the notice is the fixed text of makeMissingToolResult.
  datatype Payload = Recorded(value: nat) | MissingNotice

  datatype Message =
    | NonObject(value: nat)
    | Assistant(content: Content, rest: nat)
    | ToolResult(toolCallId: Field, toolUseId: Field, toolName: Field, payload: Payload)
    | Other(role: nat, rest: nat)

  datatype ToolCall = ToolCall(id: string, name: Field)

  predicate Usable(f: Field) {
    f.Some? && f.value != ""
  }

  function CallsOfBlocks(blocks: seq<Block>): seq<ToolCall> {
    if blocks == [] then []
    else if blocks[0].CallBlock? && Usable(blocks[0].id) then
      [ToolCall(blocks[0].id.value, blocks[0].name)] + CallsOfBlocks(blocks[1..])
    else CallsOfBlocks(blocks[1..])
  }

  // The tool calls of a message; a message that is not an assistant turn has none.
  function Calls(m: Message): seq<ToolCall> {
    if m.Assistant? && m.content.Blocks? then CallsOfBlocks(m.content.blocks) else []
  }

  method ExtractToolCalls(m: Message) returns (calls: seq<ToolCall>)
    ensures calls == Calls(m)
  {
    calls := [];
    if !m.Assistant? || !m.content.Blocks? {
      return;
    }
    var blocks := m.content.blocks;
    for i := 0 to |blocks|
      invariant calls + CallsOfBlocks(blocks[i..]) == CallsOfBlocks(blocks)
    {
      assert blocks[i..][1..] == blocks[i + 1..];
      if blocks[i].CallBlock? && Usable(blocks[i].id) {
        calls := calls + [ToolCall(blocks[i].id.value, blocks[i].name)];
      }
    }
  }

  // toolCallId when it is usable, otherwise toolUseId when that is.
  function ResultId(m: Message): Field {
    if !m.ToolResult? then None
    else if Usable(m.toolCallId) then m.toolCallId
    else if Usable(m.toolUseId) then m.toolUseId
    else None
  }

  function MissingResult(call: ToolCall): Message {
    ToolResult(Some(call.id), None, Some(if call.name.Some? then call.name.value else "unknown"), MissingNotice)
  }

  function CallIds(calls: seq<ToolCall>): (ids: seq<string>)
    ensures |ids| == |calls|
    ensures forall k :: 0 <= k < |ids| ==> ids[k] == calls[k].id
  {
    seq(|calls|, k requires 0 <= k < |calls| => calls[k].id)
  }

  // Every call id of the transcript, in order, repetitions included.
  function AllCallIds(ms: seq<Message>): seq<string> {
    if ms == [] then [] else CallIds(Calls(ms[0])) + AllCallIds(ms[1..])
  }

  // The messages that are not tool results, in order.
  function NonResults(ms: seq<Message>): (r: seq<Message>)
    ensures forall m <- r :: !m.ToolResult? && m in ms
    ensures |r| <= |ms|
  {
    if ms == [] then []
    else if ms[0].ToolResult? then NonResults(ms[1..])
    else [ms[0]] + NonResults(ms[1..])
  }

  ghost predicate NoDuplicates<T>(s: seq<T>) {
    forall i, j :: 0 <= i < j < |s| ==> s[i] != s[j]
  }

  lemma {:induction false} NonResultsConcat(a: seq<Message>, b: seq<Message>)
    ensures NonResults(a + b) == NonResults(a) + NonResults(b)
  {
    if a == [] {
      assert a + b == b;
    } else {
      assert (a + b)[1..] == a[1..] + b;
      NonResultsConcat(a[1..], b);
    }
  }

  lemma {:induction false} NonResultsIdentity(ms: seq<Message>)
    requires forall m <- ms :: !m.ToolResult?
    ensures NonResults(ms) == ms
  {
    if ms != [] {
      NonResultsIdentity(ms[1..]);
    }
  }

  lemma {:induction false} NonResultsEmpty(ms: seq<Message>)
    requires forall m <- ms :: m.ToolResult?
    ensures NonResults(ms) == []
  {
    if ms != [] {
      NonResultsEmpty(ms[1..]);
    }
  }

  lemma {:induction false} AllCallIdsConcat(a: seq<Message>, b: seq<Message>)
    ensures AllCallIds(a + b) == AllCallIds(a) + AllCallIds(b)
  {
    hide Calls, CallIds;
    if a == [] {
      assert a + b == b;
      assert AllCallIds(a) + AllCallIds(b) == AllCallIds(b);
    } else {
      assert (a + b)[1..] == a[1..] + b;
      AllCallIdsConcat(a[1..], b);
      Regroup(CallIds(Calls(a[0])), AllCallIds(a[1..]), AllCallIds(b));
    }
  }

  // Tool results carry no calls, so dropping them loses no call id.
  lemma {:induction false} AllCallIdsIgnoreResults(ms: seq<Message>)
    ensures AllCallIds(NonResults(ms)) == AllCallIds(ms)
  {
    if ms != [] {
      AllCallIdsIgnoreResults(ms[1..]);
      if !ms[0].ToolResult? {
        assert ([ms[0]] + NonResults(ms[1..]))[1..] == NonResults(ms[1..]);
      }
    }
  }
}
