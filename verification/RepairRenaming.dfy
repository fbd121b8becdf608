/** Repair commutes with an injective renaming of the ids, so it commutes with sanitizing. */
module RepairRenaming {
  import opened Wrappers
  import opened Transcript
  import opened TranscriptRepair
  import opened RepairProperties
  import opened ToolCallIds
  import opened ToolCallIdSanitizer
  import opened SanitizerProperties

  // An injective renaming into usable ids.
  ghost predicate IsRenaming(names: map<string, string>) {
    Injective(names) && forall id <- names :: names[id] != ""
  }

  ghost predicate Covers(names: map<string, string>, ids: seq<string>) {
    forall id <- ids :: id in names
  }

  function RenameCalls(names: map<string, string>, calls: seq<ToolCall>): seq<ToolCall> {
    if calls == [] then []
    else
      var c := calls[0];
      [ToolCall(if c.id in names then names[c.id] else c.id, c.name)] + RenameCalls(names, calls[1..])
  }

  ghost function Image(names: map<string, string>, ids: set<string>): set<string> {
    set id <- ids | id in names :: names[id]
  }

  function RenameTally(names: map<string, string>, t: Tally): Tally {
    t.(out := Rename(names, t.out), added := Rename(names, t.added))
  }

  ghost predicate MessagesCovered(names: map<string, string>, ms: seq<Message>) {
    forall m <- ms :: Covers(names, MessageIds(m))
  }

  lemma {:induction false} RenameConcat(names: map<string, string>, a: seq<Message>, b: seq<Message>)
    ensures Rename(names, a + b) == Rename(names, a) + Rename(names, b)
  {
    if a == [] {
      assert a + b == b;
    } else {
      assert (a + b)[1..] == a[1..] + b;
      RenameConcat(names, a[1..], b);
    }
  }

  // ---- calls and result ids ----

  lemma {:induction false} CallsOfRenamedBlocks(names: map<string, string>, blocks: seq<Block>)
    requires IsRenaming(names)
    ensures CallsOfBlocks(RenameBlocks(names, blocks)) == RenameCalls(names, CallsOfBlocks(blocks))
  {
    if blocks != [] {
      CallsOfRenamedBlocks(names, blocks[1..]);
    }
  }

  lemma CallsOfRenamed(names: map<string, string>, m: Message)
    requires IsRenaming(names)
    ensures Calls(RenameMessage(names, m)) == RenameCalls(names, Calls(m))
    ensures Calls(RenameMessage(names, m)) == [] <==> Calls(m) == []
  {
    if m.Assistant? && m.content.Blocks? {
      CallsOfRenamedBlocks(names, m.content.blocks);
    }
  }

  lemma ResultIdOfRenamed(names: map<string, string>, m: Message)
    requires IsRenaming(names) && Covers(names, MessageIds(m))
    ensures ResultId(RenameMessage(names, m)) == RenameField(names, ResultId(m))
    ensures ResultId(m).Some? ==> ResultId(m).value in names && Usable(ResultId(m))
  {
    if m.ToolResult? {
      assert forall id <- FieldIds(m.toolCallId) :: id in MessageIds(m);
      assert forall id <- FieldIds(m.toolUseId) :: id in MessageIds(m);
      assert Usable(m.toolCallId) ==> m.toolCallId.value in FieldIds(m.toolCallId);
      assert Usable(m.toolUseId) ==> m.toolUseId.value in FieldIds(m.toolUseId);
    }
  }

  lemma ImageMember(names: map<string, string>, ids: set<string>, id: string)
    requires IsRenaming(names) && id in names
    ensures names[id] in Image(names, ids) <==> id in ids
  {
  }

  lemma MatchesRenamed(names: map<string, string>, m: Message, ids: set<string>)
    requires IsRenaming(names) && Covers(names, MessageIds(m))
    ensures Matches(RenameMessage(names, m), Image(names, ids)) <==> Matches(m, ids)
  {
    ResultIdOfRenamed(names, m);
    if ResultId(m).Some? {
      ImageMember(names, ids, ResultId(m).value);
    }
  }

  // ---- the parts of a turn ----

  lemma {:induction false} FirstResultRenamed(names: map<string, string>, span: seq<Message>, id: string)
    requires IsRenaming(names) && MessagesCovered(names, span) && id in names
    ensures FirstResult(Rename(names, span), names[id])
         == match FirstResult(span, id) case Some(m) => Some(RenameMessage(names, m)) case None => None
  {
    if span != [] {
      assert span[0] in span;
      ResultIdOfRenamed(names, span[0]);
      FirstResultRenamed(names, span[1..], id);
    }
  }

  lemma AnswerRenamed(names: map<string, string>, call: ToolCall, span: seq<Message>)
    requires IsRenaming(names) && MessagesCovered(names, span) && call.id in names && call.id != ""
    ensures Answer(ToolCall(names[call.id], call.name), Rename(names, span)) == RenameMessage(names, Answer(call, span))
    ensures RenameMessage(names, MissingResult(call)) == MissingResult(ToolCall(names[call.id], call.name))
  {
    FirstResultRenamed(names, span, call.id);
  }

  lemma ImagePlus(names: map<string, string>, seen: set<string>, id: string)
    requires id in names
    ensures Image(names, seen + {id}) == Image(names, seen) + {names[id]}
  {
  }

  ghost predicate GoodCalls(names: map<string, string>, calls: seq<ToolCall>) {
    forall c <- calls :: c.id in names && c.id != ""
  }

  lemma {:induction false} AnswersRenamed(names: map<string, string>, calls: seq<ToolCall>, span: seq<Message>, seen: set<string>)
    requires IsRenaming(names) && MessagesCovered(names, span) && GoodCalls(names, calls)
    ensures Answers(RenameCalls(names, calls), Rename(names, span), Image(names, seen)) == Rename(names, Answers(calls, span, seen))
  {
    if calls != [] {
      var call := calls[0];
      assert call in calls;
      ImageMember(names, seen, call.id);
      AnswerRenamed(names, call, span);
      if call.id in seen {
        AnswersRenamed(names, calls[1..], span, seen);
      } else {
        ImagePlus(names, seen, call.id);
        AnswersRenamed(names, calls[1..], span, seen + {call.id});
      }
    }
  }

  lemma {:induction false} AddedRenamed(names: map<string, string>, calls: seq<ToolCall>, span: seq<Message>, seen: set<string>)
    requires IsRenaming(names) && MessagesCovered(names, span) && GoodCalls(names, calls)
    ensures AddedNotices(RenameCalls(names, calls), Rename(names, span), Image(names, seen)) == Rename(names, AddedNotices(calls, span, seen))
  {
    if calls != [] {
      var call := calls[0];
      assert call in calls;
      ImageMember(names, seen, call.id);
      AnswerRenamed(names, call, span);
      FirstResultRenamed(names, span, call.id);
      AddedRenamed(names, calls[1..], span, seen);
    }
  }

  lemma {:induction false} RefusedRenamed(names: map<string, string>, calls: seq<ToolCall>, seen: set<string>)
    requires IsRenaming(names) && GoodCalls(names, calls)
    ensures RefusedPushes(RenameCalls(names, calls), Image(names, seen)) == RefusedPushes(calls, seen)
  {
    if calls != [] {
      assert calls[0] in calls;
      ImageMember(names, seen, calls[0].id);
      ImagePlus(names, seen, calls[0].id);
      RefusedRenamed(names, calls[1..], if calls[0].id in seen then seen else seen + {calls[0].id});
    }
  }

  lemma {:induction false} SpanRenamed(names: map<string, string>, span: seq<Message>, ids: set<string>)
    requires IsRenaming(names) && MessagesCovered(names, span)
    ensures Orphans(Rename(names, span), Image(names, ids)) == Orphans(span, ids)
    ensures Repeats(Rename(names, span), Image(names, ids)) == Repeats(span, ids)
    ensures NonResults(Rename(names, span)) == Rename(names, NonResults(span))
  {
    hide Matches, Image, IsRenaming, Covers;
    if span != [] {
      assert span[0] in span;
      MatchesRenamed(names, span[0], ids);
      SpanRenamed(names, span[1..], ids);
      assert Rename(names, span) == [RenameMessage(names, span[0])] + Rename(names, span[1..]);
    }
  }

  lemma {:induction false} SomeMatchRenamed(names: map<string, string>, span: seq<Message>, ids: set<string>)
    requires IsRenaming(names) && MessagesCovered(names, span)
    ensures (exists m <- Rename(names, span) :: Matches(m, Image(names, ids))) <==> exists m <- span :: Matches(m, ids)
  {
    hide Matches, Image, IsRenaming, Covers, RenameMessage;
    if span != [] {
      assert span[0] in span;
      MatchesRenamed(names, span[0], ids);
      SomeMatchRenamed(names, span[1..], ids);
      assert Rename(names, span) == [RenameMessage(names, span[0])] + Rename(names, span[1..]);
      assert span == [span[0]] + span[1..];
    }
  }

  lemma {:induction false} IdsRenamed(names: map<string, string>, calls: seq<ToolCall>)
    requires GoodCalls(names, calls)
    ensures Ids(RenameCalls(names, calls)) == Image(names, Ids(calls))
    ensures forall id <- Ids(calls) :: id in names
  {
    if calls != [] {
      assert calls[0] in calls;
      IdsRenamed(names, calls[1..]);
    }
  }

  lemma ImageSets(names: map<string, string>, a: set<string>, b: set<string>)
    requires IsRenaming(names) && (forall id <- a :: id in names)
    ensures Image(names, a * b) == Image(names, a) * Image(names, b)
    ensures Image(names, a - b) == Image(names, a) - Image(names, b)
    ensures Image(names, a + b) == Image(names, a) + Image(names, b)
  {
    forall id | id in names ensures (names[id] in Image(names, a) <==> id in a) && (names[id] in Image(names, b) <==> id in b) {
      ImageMember(names, a, id);
      ImageMember(names, b, id);
    }
  }

  lemma TurnCovered(names: map<string, string>, m: Message)
    requires Covers(names, MessageIds(m))
    ensures GoodCalls(names, Calls(m))
  {
    TurnCallsUsable(m);
    if m.Assistant? {
      forall c <- Calls(m) ensures c.id in names {
        var k :| 0 <= k < |Calls(m)| && Calls(m)[k] == c;
        assert CallIds(Calls(m))[k] in MessageIds(m);
      }
    }
  }

  lemma PlacedRenamed(names: map<string, string>, calls: seq<ToolCall>, span: seq<Message>, seen: set<string>)
    requires IsRenaming(names) && MessagesCovered(names, span) && GoodCalls(names, calls)
    ensures Placed(RenameCalls(names, calls), Rename(names, span), Image(names, seen)) == Rename(names, Placed(calls, span, seen))
  {
    AnswersRenamed(names, calls, span, seen);
    SpanRenamed(names, span, {});
    RenameConcat(names, Answers(calls, span, seen), NonResults(span));
  }

  lemma {:induction false} RenameEmpty(names: map<string, string>, ms: seq<Message>)
    ensures |Rename(names, ms)| == |ms|
  {
    if ms != [] {
      RenameEmpty(names, ms[1..]);
    }
  }

  lemma MovesRenamed(names: map<string, string>, span: seq<Message>, open: set<string>)
    requires IsRenaming(names) && MessagesCovered(names, span)
    ensures Moves(Rename(names, span), Image(names, open)) <==> Moves(span, open)
  {
    SpanRenamed(names, span, open);
    SomeMatchRenamed(names, span, open);
    RenameEmpty(names, NonResults(span));
  }

  lemma TurnRenamed(names: map<string, string>, msg: Message, span: seq<Message>, seen: set<string>)
    requires IsRenaming(names) && MessagesCovered(names, span) && Covers(names, MessageIds(msg))
    ensures Turn(RenameMessage(names, msg), Rename(names, span), Image(names, seen)) == RenameTally(names, Turn(msg, span, seen))
  {
    var calls := Calls(msg);
    TurnCovered(names, msg);
    CallsOfRenamed(names, msg);
    PlacedRenamed(names, calls, span, seen);
    AddedRenamed(names, calls, span, seen);
    RefusedRenamed(names, calls, seen);
    IdsRenamed(names, calls);
    ImageSets(names, Ids(calls), seen);
    SpanRenamed(names, span, Ids(calls));
    SpanRenamed(names, span, Ids(calls) * seen);
    MovesRenamed(names, span, Ids(calls) - seen);
  }

  // ---- the whole scan ----

  lemma RenamedSpan(names: map<string, string>, span: seq<Message>, rest: seq<Message>)
    requires (forall m <- span :: !m.Assistant?) && (rest == [] || rest[0].Assistant?)
    ensures forall m <- Rename(names, span) :: !m.Assistant?
    ensures Rename(names, rest) == [] || Rename(names, rest)[0].Assistant?
  {
    RenamedKinds(names, span);
  }

  lemma {:induction false} RenamedKinds(names: map<string, string>, span: seq<Message>)
    requires forall m <- span :: !m.Assistant?
    ensures forall m <- Rename(names, span) :: !m.Assistant?
  {
    if span != [] {
      RenamedKinds(names, span[1..]);
    }
  }

  lemma RenamePlus(names: map<string, string>, a: Tally, b: Tally)
    ensures RenameTally(names, Plus(a, b)) == Plus(RenameTally(names, a), RenameTally(names, b))
  {
    RenameConcat(names, a.out, b.out);
    RenameConcat(names, a.added, b.added);
  }

  lemma SeenAfterTurn(names: map<string, string>, msg: Message, seen: set<string>)
    requires IsRenaming(names) && Covers(names, MessageIds(msg))
    ensures Image(names, seen + Ids(Calls(msg))) == Image(names, seen) + Ids(Calls(RenameMessage(names, msg)))
  {
    CallsOfRenamed(names, msg);
    TurnCovered(names, msg);
    IdsRenamed(names, Calls(msg));
    ImageSets(names, Ids(Calls(msg)), seen);
    assert seen + Ids(Calls(msg)) == Ids(Calls(msg)) + seen;
  }

  lemma ScanRenamedTurn(names: map<string, string>, msg: Message, span: seq<Message>, rest: seq<Message>, seen: set<string>)
    requires IsRenaming(names) && MessagesCovered(names, span) && Covers(names, MessageIds(msg)) && Calls(msg) != []
    requires (forall m <- span :: !m.Assistant?) && (rest == [] || rest[0].Assistant?)
    requires Scan(Rename(names, rest), Image(names, seen + Ids(Calls(msg)))) == RenameTally(names, Scan(rest, seen + Ids(Calls(msg))))
    ensures Scan([RenameMessage(names, msg)] + Rename(names, span) + Rename(names, rest), Image(names, seen))
         == RenameTally(names, Plus(Turn(msg, span, seen), Scan(rest, seen + Ids(Calls(msg)))))
  {
    var renamed := RenameMessage(names, msg);
    CallsOfRenamed(names, msg);
    SeenAfterTurn(names, msg, seen);
    RenamedSpan(names, span, rest);
    ScanOfTurn(renamed, Rename(names, span), Rename(names, rest), Image(names, seen));
    TurnRenamed(names, msg, span, seen);
    RenamePlus(names, Turn(msg, span, seen), Scan(rest, seen + Ids(Calls(msg))));
  }

  // What a message without calls adds to the tally.
  function First(m: Message): Tally {
    if m.ToolResult? then Tally([], [], 0, 1, false) else Tally([m], [], 0, 0, false)
  }

  lemma ScanFirst(ms: seq<Message>, seen: set<string>)
    requires ms != [] && Calls(ms[0]) == []
    ensures Scan(ms, seen) == Plus(First(ms[0]), Scan(ms[1..], seen))
  {
    hide Turn, SpanLength, Plus;
  }

  lemma FirstRenamed(names: map<string, string>, m: Message)
    ensures First(RenameMessage(names, m)) == RenameTally(names, First(m))
  {
    assert [m][1..] == [];
  }

  lemma ScanRenamedFirst(names: map<string, string>, ms: seq<Message>, seen: set<string>)
    requires IsRenaming(names) && ms != [] && Calls(ms[0]) == []
    requires Scan(Rename(names, ms[1..]), Image(names, seen)) == RenameTally(names, Scan(ms[1..], seen))
    ensures Scan(Rename(names, ms), Image(names, seen)) == RenameTally(names, Scan(ms, seen))
  {
    CallsOfRenamed(names, ms[0]);
    assert Rename(names, ms)[0] == RenameMessage(names, ms[0]) && Rename(names, ms)[1..] == Rename(names, ms[1..]);
    hide *;
    FirstRenamed(names, ms[0]);
    RenamePlus(names, First(ms[0]), Scan(ms[1..], seen));
    ScanFirst(ms, seen);
    ScanFirst(Rename(names, ms), Image(names, seen));
  }

  lemma {:induction false} ScanRenamed(names: map<string, string>, ms: seq<Message>, seen: set<string>)
    requires IsRenaming(names) && MessagesCovered(names, ms)
    ensures Scan(Rename(names, ms), Image(names, seen)) == RenameTally(names, Scan(ms, seen))
    decreases |ms|
  {
    if ms != [] {
      if Calls(ms[0]) == [] {
        ScanRenamed(names, ms[1..], seen);
        ScanRenamedFirst(names, ms, seen);
      } else {
        var span, rest := UnfoldTurn(ms, seen);
        assert ms[0] in ms && (forall m <- span :: m in ms) && (forall m <- rest :: m in ms);
        ScanRenamed(names, rest, seen + Ids(Calls(ms[0])));
        ScanRenamedTurn(names, ms[0], span, rest, seen);
        RenameConcat(names, [ms[0]] + span, rest);
        RenameConcat(names, [ms[0]], span);
        assert Rename(names, [ms[0]]) == [RenameMessage(names, ms[0])];
      }
    }
  }

  function RenameReport(names: map<string, string>, r: Report): Report {
    r.(messages := Rename(names, r.messages), added := Rename(names, r.added))
  }

  // Repairing a renamed transcript gives the renamed report, notices and counts included.
  lemma RepairCommutesWithRenaming(names: map<string, string>, ms: seq<Message>)
    requires IsRenaming(names) && MessagesCovered(names, ms)
    ensures RepairReport(Rename(names, ms)) == RenameReport(names, RepairReport(ms))
    ensures RepairedList(Rename(names, ms)) == Rename(names, RepairedList(ms))
  {
    ScanRenamed(names, ms, {});
    assert Image(names, {}) == {};
    RenameEmpty(names, Scan(ms, {}).added);
  }

  lemma {:induction false} FinalNamesCover(ms: seq<Message>, names: map<string, string>)
    requires forall id <- TranscriptIds(ms) :: id in names
    ensures MessagesCovered(names, ms)
  {
    if ms != [] {
      assert forall id <- MessageIds(ms[0]) :: id in TranscriptIds(ms);
      assert forall id <- TranscriptIds(ms[1..]) :: id in TranscriptIds(ms);
      FinalNamesCover(ms[1..], names);
    }
  }

  // When no two ids get the same name, the map of a transcript is such a renaming, in either mode.
  lemma DistinctNamesRename(env: Env, mode: Mode, ms: seq<Message>)
    requires AllFindNew(env, mode, map[], TranscriptIds(ms))
    ensures IsRenaming(FinalNames(env, mode, ms)) && MessagesCovered(FinalNames(env, mode, ms), ms)
  {
    NamesAreInjectiveIff(env, mode, ms);
    LearnedAreAcceptable(env, mode, map[], TranscriptIds(ms));
    LearnAllExtends(env, mode, map[], TranscriptIds(ms));
    FinalNamesCover(ms, FinalNames(env, mode, ms));
  }

  // And then repairing the sanitized transcript is renaming the outcome of repairing the
  // transcript by the map of the transcript.
  lemma RepairCommutesWithSanitizing(env: Env, mode: Mode, ms: seq<Message>)
    requires AllFindNew(env, mode, map[], TranscriptIds(ms))
    ensures RepairReport(Sanitized(env, mode, ms)) == RenameReport(FinalNames(env, mode, ms), RepairReport(ms))
    ensures RepairedList(Sanitized(env, mode, ms)) == Rename(FinalNames(env, mode, ms), RepairedList(ms))
  {
    DistinctNamesRename(env, mode, ms);
    RepairCommutesWithRenaming(FinalNames(env, mode, ms), ms);
  }
}
