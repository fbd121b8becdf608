/** The transcript-wide renaming of tool call ids. */
module ToolCallIdSanitizer {
  import opened Wrappers
  import opened Transcript
  import opened ToolCallIds

  // ---- renaming by a map ----

  function RenameField(names: map<string, string>, f: Field): Field {
    if Usable(f) && f.value in names then Some(names[f.value]) else f
  }

  function RenameBlock(names: map<string, string>, b: Block): Block {
    if b.CallBlock? then b.(id := RenameField(names, b.id)) else b
  }

  function RenameBlocks(names: map<string, string>, blocks: seq<Block>): seq<Block> {
    if blocks == [] then [] else [RenameBlock(names, blocks[0])] + RenameBlocks(names, blocks[1..])
  }

  function RenameMessage(names: map<string, string>, m: Message): Message {
    if m.Assistant? && m.content.Blocks? then
      m.(content := Blocks(RenameBlocks(names, m.content.blocks)))
    else if m.ToolResult? then
      m.(toolCallId := RenameField(names, m.toolCallId), toolUseId := RenameField(names, m.toolUseId))
    else m
  }

  function Rename(names: map<string, string>, ms: seq<Message>): seq<Message> {
    if ms == [] then [] else [RenameMessage(names, ms[0])] + Rename(names, ms[1..])
  }

  // ---- the ids of a transcript, in the order in which they are met ----

  function FieldIds(f: Field): seq<string> {
    if Usable(f) then [f.value] else []
  }

  function MessageIds(m: Message): seq<string> {
    if m.Assistant? then CallIds(Calls(m))
    else if m.ToolResult? then FieldIds(m.toolCallId) + FieldIds(m.toolUseId)
    else []
  }

  function TranscriptIds(ms: seq<Message>): seq<string> {
    if ms == [] then [] else MessageIds(ms[0]) + TranscriptIds(ms[1..])
  }

  function BlockIds(b: Block): seq<string> {
    if b.CallBlock? then FieldIds(b.id) else []
  }

  function BlocksIds(blocks: seq<Block>): seq<string> {
    if blocks == [] then [] else BlockIds(blocks[0]) + BlocksIds(blocks[1..])
  }

  lemma {:induction false} IdsOfBlocks(blocks: seq<Block>)
    ensures BlocksIds(blocks) == CallIds(CallsOfBlocks(blocks))
  {
    if blocks != [] {
      IdsOfBlocks(blocks[1..]);
    }
  }

  // ---- the map that is built up ----

  function Learn(env: Env, mode: Mode, names: map<string, string>, id: string): map<string, string> {
    if id in names then names else names[id := UniqueToolId(env, id, names.Values, mode)]
  }

  function LearnAll(env: Env, mode: Mode, names: map<string, string>, ids: seq<string>): map<string, string>
    decreases |ids|
  {
    if ids == [] then names else LearnAll(env, mode, Learn(env, mode, names, ids[0]), ids[1..])
  }

  function FinalNames(env: Env, mode: Mode, ms: seq<Message>): map<string, string> {
    LearnAll(env, mode, map[], TranscriptIds(ms))
  }

  function Sanitized(env: Env, mode: Mode, ms: seq<Message>): seq<Message> {
    Rename(FinalNames(env, mode, ms), ms)
  }

  ghost predicate Extends(big: map<string, string>, small: map<string, string>) {
    forall id <- small :: id in big && big[id] == small[id]
  }

  lemma {:induction false} LearnAllExtends(env: Env, mode: Mode, names: map<string, string>, ids: seq<string>)
    ensures Extends(LearnAll(env, mode, names, ids), names)
    ensures forall id <- ids :: id in LearnAll(env, mode, names, ids)
    ensures forall id <- LearnAll(env, mode, names, ids) :: id in names || id in ids
    decreases |ids|
  {
    if ids != [] {
      LearnAllExtends(env, mode, Learn(env, mode, names, ids[0]), ids[1..]);
      assert ids[0] in Learn(env, mode, names, ids[0]);
    }
  }

  lemma {:induction false} LearnAllConcat(env: Env, mode: Mode, names: map<string, string>, a: seq<string>, b: seq<string>)
    ensures LearnAll(env, mode, names, a + b) == LearnAll(env, mode, LearnAll(env, mode, names, a), b)
    decreases |a|
  {
    if a == [] {
      assert a + b == b;
    } else {
      assert (a + b)[0] == a[0] && (a + b)[1..] == a[1..] + b;
      LearnAllConcat(env, mode, Learn(env, mode, names, a[0]), a[1..], b);
    }
  }

  // Learning some ids first: they keep their names when the rest is learned.
  lemma LearnStep(env: Env, mode: Mode, names: map<string, string>, ids: seq<string>, rest: seq<string>)
    ensures var middle := LearnAll(env, mode, names, ids);
            && LearnAll(env, mode, names, ids + rest) == LearnAll(env, mode, middle, rest)
            && Extends(LearnAll(env, mode, names, ids + rest), middle)
            && forall id <- ids :: id in middle
  {
    LearnAllConcat(env, mode, names, ids, rest);
    LearnAllExtends(env, mode, names, ids);
    LearnAllExtends(env, mode, LearnAll(env, mode, names, ids), rest);
  }

  // ---- the closures of the source: one resolver shared by the whole transcript ----

  class IdResolver {
    const env: Env
    const mode: Mode
    var names: map<string, string>
    var used: set<string>

    ghost predicate Valid()
      reads this
    {
      used == names.Values
    }

    constructor (env: Env, mode: Mode)
      ensures this.env == env && this.mode == mode && names == map[] && Valid()
    {
      this.env, this.mode, names, used := env, mode, map[], {};
    }

    method Resolve(id: string) returns (r: string)
      requires Valid()
      modifies this
      ensures Valid() && names == Learn(env, mode, old(names), id)
      ensures id in names && r == names[id]
    {
      if id in names {
        return names[id];
      }
      r := MakeUniqueToolId(env, id, used, mode);
      ghost var before := names;
      names := names[id := r];
      used := used + {r};
      forall v ensures v in names.Values <==> v in before.Values + {r} {
        if v in before.Values {
          var k :| k in before && before[k] == v;
          assert k in names && names[k] == v;
        }
        if v == r {
          assert names[id] == v;
        }
      }
    }

    method ResolveField(f: Field) returns (r: Field)
      requires Valid()
      modifies this
      ensures Valid() && names == LearnAll(env, mode, old(names), FieldIds(f))
      ensures r == RenameField(names, f)
      ensures Usable(f) ==> f.value in names
    {
      r := f;
      if Usable(f) {
        var next := Resolve(f.value);
        r := Some(next);
        assert FieldIds(f)[1..] == [];
        assert LearnAll(env, mode, names, []) == names;
      }
    }

    method RewriteBlock(b: Block) returns (next: Block)
      requires Valid()
      modifies this
      ensures Valid() && names == LearnAll(env, mode, old(names), BlockIds(b))
      ensures next == RenameBlock(names, b)
    {
      next := b;
      if b.CallBlock? {
        var id := ResolveField(b.id);
        next := b.(id := id);
      }
    }

    method RewriteBlocks(blocks: seq<Block>) returns (next: seq<Block>)
      requires Valid()
      modifies this
      ensures Valid() && names == LearnAll(env, mode, old(names), BlocksIds(blocks))
      ensures next == RenameBlocks(names, blocks)
    {
      hide Learn;
      next := [];
      ghost var final := LearnAll(env, mode, names, BlocksIds(blocks));
      for k := 0 to |blocks|
        invariant Valid()
        invariant LearnAll(env, mode, names, BlocksIds(blocks[k..])) == final
        invariant next + RenameBlocks(final, blocks[k..]) == RenameBlocks(final, blocks)
      {
        assert blocks[k..][1..] == blocks[k + 1..];
        LearnStep(env, mode, names, BlockIds(blocks[k]), BlocksIds(blocks[k + 1..]));
        var b := RewriteBlock(blocks[k]);
        assert b == RenameBlock(final, blocks[k]);
        Regroup(next, [b], RenameBlocks(final, blocks[k + 1..]));
        next := next + [b];
      }
      assert blocks[|blocks|..] == [];
    }

    method RewriteMessage(m: Message) returns (next: Message)
      requires Valid()
      modifies this
      ensures Valid() && names == LearnAll(env, mode, old(names), MessageIds(m))
      ensures next == RenameMessage(names, m)
    {
      next := m;
      if m.Assistant? && m.content.Blocks? {
        IdsOfBlocks(m.content.blocks);
        var blocks := RewriteBlocks(m.content.blocks);
        next := m.(content := Blocks(blocks));
      } else if m.ToolResult? {
        ghost var start := names;
        var callId := ResolveField(m.toolCallId);
        ghost var middle := names;
        var useId := ResolveField(m.toolUseId);
        LearnAllExtends(env, mode, middle, FieldIds(m.toolUseId));
        LearnAllConcat(env, mode, start, FieldIds(m.toolCallId), FieldIds(m.toolUseId));
        next := m.(toolCallId := callId, toolUseId := useId);
      } else {
        assert MessageIds(m) == [];
      }
    }

    method RewriteTranscript(messages: seq<Message>) returns (out: seq<Message>)
      requires Valid()
      modifies this
      ensures Valid() && names == LearnAll(env, mode, old(names), TranscriptIds(messages))
      ensures out == Rename(names, messages)
    {
      out := [];
      ghost var final := LearnAll(env, mode, names, TranscriptIds(messages));
      for i := 0 to |messages|
        invariant Valid()
        invariant LearnAll(env, mode, names, TranscriptIds(messages[i..])) == final
        invariant out + Rename(final, messages[i..]) == Rename(final, messages)
      {
        assert messages[i..][1..] == messages[i + 1..];
        LearnStep(env, mode, names, MessageIds(messages[i]), TranscriptIds(messages[i + 1..]));
        var next := RewriteMessage(messages[i]);
        RenameStable(names, final, messages[i]);
        out := out + [next];
      }
      assert messages[|messages|..] == [];
    }
  }

  method SanitizeToolCallIds(env: Env, mode: Mode, messages: seq<Message>) returns (out: seq<Message>)
    ensures out == Sanitized(env, mode, messages)
  {
    var resolver := new IdResolver(env, mode);
    out := resolver.RewriteTranscript(messages);
  }

  // A larger map renames a message in the same way once its ids are known.
  lemma RenameStable(small: map<string, string>, big: map<string, string>, m: Message)
    requires Extends(big, small) && forall id <- MessageIds(m) :: id in small
    ensures RenameMessage(small, m) == RenameMessage(big, m)
  {
    if m.Assistant? && m.content.Blocks? {
      IdsOfBlocks(m.content.blocks);
      RenameBlocksStable(small, big, m.content.blocks);
    }
  }

  lemma {:induction false} RenameBlocksStable(small: map<string, string>, big: map<string, string>, blocks: seq<Block>)
    requires Extends(big, small) && forall id <- BlocksIds(blocks) :: id in small
    ensures RenameBlocks(small, blocks) == RenameBlocks(big, blocks)
  {
    if blocks != [] {
      assert forall id <- BlockIds(blocks[0]) :: id in BlocksIds(blocks);
      assert forall id <- BlocksIds(blocks[1..]) :: id in BlocksIds(blocks);
      RenameBlocksStable(small, big, blocks[1..]);
    }
  }
}
