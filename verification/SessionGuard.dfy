/** The guard around the session log: it answers pending calls before anything else is logged. */
module SessionGuard {
  import opened Wrappers
  import opened Transcript

  datatype Meta = Meta(toolCallId: Field, toolName: Field, isSynthetic: bool)

  // The transform applied to results before they are logged, and whether missing results are made up.
  datatype Config = Config(transform: (Message, Meta) -> Message, allowSynthetic: bool)

  // pending is the insertion-ordered map from call id to tool name.
  datatype State = State(log: seq<Message>, pending: seq<ToolCall>)

  datatype Op = Append(message: Message) | Flush

  function SetPending(pending: seq<ToolCall>, call: ToolCall): seq<ToolCall> {
    if pending == [] then [call]
    else if pending[0].id == call.id then [call] + pending[1..]
    else [pending[0]] + SetPending(pending[1..], call)
  }

  function SetAll(pending: seq<ToolCall>, calls: seq<ToolCall>): seq<ToolCall>
    decreases |calls|
  {
    if calls == [] then pending else SetAll(SetPending(pending, calls[0]), calls[1..])
  }

  function Delete(pending: seq<ToolCall>, id: string): seq<ToolCall> {
    if pending == [] then []
    else if pending[0].id == id then Delete(pending[1..], id)
    else [pending[0]] + Delete(pending[1..], id)
  }

  function NameOf(pending: seq<ToolCall>, id: string): Field {
    if pending == [] then None
    else if pending[0].id == id then pending[0].name
    else NameOf(pending[1..], id)
  }

  function Synthetic(config: Config, call: ToolCall): Message {
    config.transform(MissingResult(call), Meta(Some(call.id), call.name, true))
  }

  function SyntheticResults(config: Config, pending: seq<ToolCall>): seq<Message> {
    if pending == [] then [] else [Synthetic(config, pending[0])] + SyntheticResults(config, pending[1..])
  }

  function Flushed(config: Config, s: State): State {
    State(if config.allowSynthetic then s.log + SyntheticResults(config, s.pending) else s.log, [])
  }

  function Appended(config: Config, s: State, m: Message): State {
    if m.ToolResult? then
      var id := ResultId(m);
      var name := if id.Some? then NameOf(s.pending, id.value) else None;
      State(s.log + [config.transform(m, Meta(id, name, false))],
            if id.Some? then Delete(s.pending, id.value) else s.pending)
    else
      var ready := if config.allowSynthetic then Flushed(config, s) else s;
      State(ready.log + [m], SetAll(ready.pending, Calls(m)))
  }

  function Step(config: Config, s: State, op: Op): State {
    match op
    case Append(m) => Appended(config, s, m)
    case Flush => Flushed(config, s)
  }

  function Run(config: Config, s: State, ops: seq<Op>): State
    decreases |ops|
  {
    if ops == [] then s else Run(config, Step(config, s, ops[0]), ops[1..])
  }

  const FRESH := State([], [])

  class SessionToolResultGuard {
    const config: Config
    var log: seq<Message>
    var pending: seq<ToolCall>

    function Current(): State
      reads this
    {
      State(log, pending)
    }

    constructor (config: Config)
      ensures this.config == config && Current() == FRESH
    {
      this.config, log, pending := config, [], [];
    }

    method FlushPendingToolResults()
      modifies this
      ensures Current() == Flushed(config, old(Current()))
    {
      if pending == [] {
        return;
      }
      if config.allowSynthetic {
        for k := 0 to |pending|
          invariant pending == old(pending)
          invariant log + SyntheticResults(config, pending[k..]) == old(log) + SyntheticResults(config, pending)
        {
          assert pending[k..][1..] == pending[k + 1..];
          Regroup(log, [Synthetic(config, pending[k])], SyntheticResults(config, pending[k + 1..]));
          log := log + [Synthetic(config, pending[k])];
        }
      }
      pending := [];
    }

    method GuardedAppend(message: Message)
      modifies this
      ensures Current() == Appended(config, old(Current()), message)
    {
      if message.ToolResult? {
        var id := ResultId(message);
        var name := None;
        if id.Some? {
          name := NameOf(pending, id.value);
          pending := Delete(pending, id.value);
        }
        log := log + [config.transform(message, Meta(id, name, false))];
        return;
      }
      var calls := ExtractToolCalls(message);
      if config.allowSynthetic {
        if |pending| > 0 && (calls == [] || !message.Assistant?) {
          FlushPendingToolResults();
        }
        if |pending| > 0 && calls != [] {
          FlushPendingToolResults();
        }
      }
      log := log + [message];
      ghost var start := pending;
      for k := 0 to |calls|
        invariant log == Appended(config, old(Current()), message).log
        invariant SetAll(pending, calls[k..]) == SetAll(start, calls)
      {
        assert calls[k..][1..] == calls[k + 1..];
        pending := SetPending(pending, calls[k]);
      }
    }

    method GetPendingIds() returns (ids: seq<string>)
      ensures |ids| == |pending| && forall k :: 0 <= k < |ids| ==> ids[k] == pending[k].id
    {
      ids := CallIds(pending);
    }
  }
}
