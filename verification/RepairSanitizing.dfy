/** Whether repairing and sanitizing a transcript can be exchanged. */
module RepairSanitizing {
  import opened Wrappers
  import opened Transcript
  import opened TranscriptRepair
  import opened RepairProperties
  import opened RepairCompleteness
  import opened ToolCallIds
  import opened ToolCallIdSanitizer
  import opened SanitizerProperties
  import opened RepairRenaming

  // ---- repairing first and sanitizing then ----

  // Each result carries only ids that a call at or before its turn has introduced.
  predicate ResultsKnown(ms: seq<Message>, known: set<string>)
    decreases |ms|
  {
    ms == []
    || (&& (ms[0].ToolResult? ==> forall id <- MessageIds(ms[0]) :: id in known)
        && ResultsKnown(ms[1..], known + Ids(Calls(ms[0]))))
  }

  lemma {:induction false} KnownLearnNothing(env: Env, mode: Mode, names: map<string, string>, ids: seq<string>)
    requires forall id <- ids :: id in names
    ensures LearnAll(env, mode, names, ids) == names
    decreases |ids|
  {
    if ids != [] {
      KnownLearnNothing(env, mode, names, ids[1..]);
    }
  }

  lemma LearnAllKeys(env: Env, mode: Mode, names: map<string, string>, calls: seq<ToolCall>)
    ensures LearnAll(env, mode, names, CallIds(calls)).Keys == names.Keys + Ids(calls)
  {
    LearnAllExtends(env, mode, names, CallIds(calls));
    IdsAreCallIds(calls);
  }

  // Then only the calls teach the map anything.
  lemma {:induction false} CallsTeach(env: Env, mode: Mode, names: map<string, string>, ms: seq<Message>)
    requires ResultsKnown(ms, names.Keys)
    ensures LearnAll(env, mode, names, TranscriptIds(ms)) == LearnAll(env, mode, names, AllCallIds(ms))
    decreases |ms|
  {
    if ms != [] {
      var own := CallIds(Calls(ms[0]));
      var next := LearnAll(env, mode, names, own);
      LearnAllConcat(env, mode, names, MessageIds(ms[0]), TranscriptIds(ms[1..]));
      LearnAllConcat(env, mode, names, own, AllCallIds(ms[1..]));
      if ms[0].ToolResult? {
        KnownLearnNothing(env, mode, names, MessageIds(ms[0]));
      }
      LearnAllKeys(env, mode, names, Calls(ms[0]));
      CallsTeach(env, mode, next, ms[1..]);
    }
  }

  lemma {:induction false} KnownGrows(ms: seq<Message>, known: set<string>, more: set<string>)
    requires ResultsKnown(ms, known) && known <= more
    ensures ResultsKnown(ms, more)
    decreases |ms|
  {
    if ms != [] {
      KnownGrows(ms[1..], known + Ids(Calls(ms[0])), more + Ids(Calls(ms[0])));
    }
  }

  lemma {:induction false} KnownResults(results: seq<Message>, known: set<string>)
    requires forall m <- results :: !m.Assistant? && (m.ToolResult? ==> forall id <- MessageIds(m) :: id in known)
    ensures ResultsKnown(results, known)
    decreases |results|
  {
    if results != [] {
      assert results[0] in results;
      assert known + Ids(Calls(results[0])) == known;
      KnownResults(results[1..], known);
    }
  }

  lemma {:induction false} SpanKnown(span: seq<Message>, rest: seq<Message>, known: set<string>)
    requires (forall m <- span :: !m.Assistant?) && ResultsKnown(span + rest, known)
    ensures forall m <- span :: m.ToolResult? ==> forall id <- MessageIds(m) :: id in known
    ensures ResultsKnown(rest, known)
    decreases |span|
  {
    if span == [] {
      assert span + rest == rest;
    } else {
      assert (span + rest)[0] == span[0] && (span + rest)[1..] == span[1..] + rest;
      assert known + Ids(Calls(span[0])) == known;
      SpanKnown(span[1..], rest, known);
    }
  }

  lemma {:induction false} KnownConcat(a: seq<Message>, b: seq<Message>, known: set<string>)
    requires (forall m <- a :: !m.Assistant?) && ResultsKnown(a, known) && ResultsKnown(b, known)
    ensures ResultsKnown(a + b, known)
    decreases |a|
  {
    if a == [] {
      assert a + b == b;
    } else {
      assert (a + b)[1..] == a[1..] + b;
      assert known + Ids(Calls(a[0])) == known;
      KnownConcat(a[1..], b, known);
    }
  }

  lemma {:induction false} AnswersKnown(calls: seq<ToolCall>, span: seq<Message>, seen: set<string>, known: set<string>)
    requires forall m <- span :: m.ToolResult? ==> forall id <- MessageIds(m) :: id in known
    requires Ids(calls) <= known
    ensures forall m <- Answers(calls, span, seen) :: m.ToolResult? && forall id <- MessageIds(m) :: id in known
    decreases |calls|
  {
    if calls != [] {
      AnswersKnown(calls[1..], span, if calls[0].id in seen then seen else seen + {calls[0].id}, known);
      FirstResultFound(span, calls[0].id);
    }
  }

  lemma PlacedKnown(calls: seq<ToolCall>, span: seq<Message>, seen: set<string>, known: set<string>)
    requires (forall m <- span :: !m.Assistant? && (m.ToolResult? ==> forall id <- MessageIds(m) :: id in known))
    requires Ids(calls) <= known
    ensures ResultsKnown(Placed(calls, span, seen), known)
    ensures forall m <- Placed(calls, span, seen) :: !m.Assistant?
  {
    AnswersKnown(calls, span, seen, known);
    NonResultsOfSpan(span);
    KnownResults(Placed(calls, span, seen), known);
  }

  lemma KnownTurn(msg: Message, rest: seq<Message>, known: set<string>)
    requires !msg.ToolResult?
    ensures ResultsKnown([msg] + rest, known) <==> ResultsKnown(rest, known + Ids(Calls(msg)))
  {
    assert ([msg] + rest)[1..] == rest;
  }

  // Repair keeps it so: a result moves only to its turn, and a notice carries the id of its call.
  lemma {:induction false} ScanKeepsKnown(ms: seq<Message>, seen: set<string>, known: set<string>)
    requires ResultsKnown(ms, known)
    ensures ResultsKnown(Scan(ms, seen).out, known)
    decreases |ms|
  {
    if ms != [] {
      if Calls(ms[0]) == [] {
        ScanKeepsKnown(ms[1..], seen, known + Ids(Calls(ms[0])));
        assert known + Ids(Calls(ms[0])) == known;
        FirstWithoutCalls(ms, seen);
        if !ms[0].ToolResult? {
          KnownTurn(ms[0], Scan(ms[1..], seen).out, known);
        }
      } else {
        KnownTurnScan(ms, seen, known);
      }
    }
  }

  lemma {:induction false} KnownTurnScan(ms: seq<Message>, seen: set<string>, known: set<string>)
    requires ms != [] && Calls(ms[0]) != [] && ResultsKnown(ms, known)
    ensures ResultsKnown(Scan(ms, seen).out, known)
    decreases |ms|, 0
  {
    hide ResultsKnown, Placed;
    var span, rest := UnfoldTurn(ms, seen);
    var calls := Calls(ms[0]);
    var more, tail := known + Ids(calls), Scan(rest, seen + Ids(calls)).out;
    Regroup([ms[0]], span, rest);
    KnownTurn(ms[0], span + rest, known);
    SpanKnown(span, rest, more);
    ScanKeepsKnown(rest, seen + Ids(calls), more);
    PlacedKnown(calls, span, seen, more);
    KnownConcat(Placed(calls, span, seen), tail, more);
    KnownTurn(ms[0], Placed(calls, span, seen) + tail, known);
    Regroup([ms[0]], Placed(calls, span, seen), tail);
  }

  // When results only carry ids that earlier calls introduced, the repaired transcript gives rise
  // to the same names, in either mode.
  lemma RepairKeepsNames(env: Env, mode: Mode, ms: seq<Message>)
    requires ResultsKnown(ms, {})
    ensures FinalNames(env, mode, RepairedList(ms)) == FinalNames(env, mode, ms)
  {
    var none: map<string, string> := map[];
    assert none.Keys == {};
    ScanKeepsKnown(ms, {}, {});
    CallsTeach(env, mode, none, ms);
    CallsTeach(env, mode, none, RepairedList(ms));
    RepairedKeepsOthers(ms);
  }

  // So repairing the sanitized transcript is sanitizing the repaired one.
  lemma RepairThenSanitize(env: Env, mode: Mode, ms: seq<Message>)
    requires AllFindNew(env, mode, map[], TranscriptIds(ms)) && ResultsKnown(ms, {})
    ensures RepairedList(Sanitized(env, mode, ms)) == Sanitized(env, mode, RepairedList(ms))
  {
    hide *;
    RepairKeepsNames(env, mode, ms);
    RepairCommutesWithSanitizing(env, mode, ms);
    SanitizedIsRenamed(env, mode, RepairedList(ms));
  }

  lemma SanitizedIsRenamed(env: Env, mode: Mode, ms: seq<Message>)
    ensures Sanitized(env, mode, ms) == Rename(FinalNames(env, mode, ms), ms)
  {
  }

  // ---- the exact condition ----

  function Named(names: map<string, string>, id: string): string {
    if id in names then names[id] else id
  }

  ghost predicate Agree(a: map<string, string>, b: map<string, string>, ids: seq<string>) {
    forall id <- ids :: Named(a, id) == Named(b, id)
  }

  lemma AgreeConcat(a: map<string, string>, b: map<string, string>, ids: seq<string>, more: seq<string>)
    ensures Agree(a, b, ids + more) <==> Agree(a, b, ids) && Agree(a, b, more)
  {
    assert forall id <- ids :: id in ids + more;
    assert forall id <- more :: id in ids + more;
  }

  lemma FieldsAgreeIff(a: map<string, string>, b: map<string, string>, f: Field)
    ensures RenameField(a, f) == RenameField(b, f) <==> Agree(a, b, FieldIds(f))
  {
    if Usable(f) {
      assert FieldIds(f) == [f.value] && f.value in FieldIds(f);
    }
  }

  lemma {:induction false} BlocksAgreeIff(a: map<string, string>, b: map<string, string>, blocks: seq<Block>)
    ensures RenameBlocks(a, blocks) == RenameBlocks(b, blocks) <==> Agree(a, b, BlocksIds(blocks))
  {
    if blocks != [] {
      hide Agree, RenameField;
      BlocksAgreeIff(a, b, blocks[1..]);
      AgreeConcat(a, b, BlockIds(blocks[0]), BlocksIds(blocks[1..]));
      BlockAgreesIff(a, b, blocks[0]);
      HeadsAndTails(RenameBlock(a, blocks[0]), RenameBlocks(a, blocks[1..]), RenameBlock(b, blocks[0]), RenameBlocks(b, blocks[1..]));
    }
  }

  lemma BlockAgreesIff(a: map<string, string>, b: map<string, string>, block: Block)
    ensures RenameBlock(a, block) == RenameBlock(b, block) <==> Agree(a, b, BlockIds(block))
  {
    if block.CallBlock? {
      FieldsAgreeIff(a, b, block.id);
    }
  }

  lemma HeadsAndTails<T>(x: T, xs: seq<T>, y: T, ys: seq<T>)
    ensures [x] + xs == [y] + ys <==> x == y && xs == ys
  {
    if [x] + xs == [y] + ys {
      assert ([x] + xs)[0] == x && ([y] + ys)[0] == y;
      assert ([x] + xs)[1..] == xs && ([y] + ys)[1..] == ys;
    }
  }

  lemma MessagesAgreeIff(a: map<string, string>, b: map<string, string>, m: Message)
    ensures RenameMessage(a, m) == RenameMessage(b, m) <==> Agree(a, b, MessageIds(m))
  {
    hide Agree, RenameField;
    NothingToAgree(a, b);
    if m.Assistant? && m.content.Blocks? {
      BlocksAgreeIff(a, b, m.content.blocks);
      IdsOfBlocks(m.content.blocks);
    } else if m.ToolResult? {
      FieldsAgreeIff(a, b, m.toolCallId);
      FieldsAgreeIff(a, b, m.toolUseId);
      AgreeConcat(a, b, FieldIds(m.toolCallId), FieldIds(m.toolUseId));
    }
  }

  lemma NothingToAgree(a: map<string, string>, b: map<string, string>)
    ensures Agree(a, b, []) && CallIds([]) == []
  {
  }

  lemma {:induction false} RenamesAgreeIff(a: map<string, string>, b: map<string, string>, ms: seq<Message>)
    ensures Rename(a, ms) == Rename(b, ms) <==> Agree(a, b, TranscriptIds(ms))
  {
    if ms != [] {
      hide Agree, RenameMessage, MessageIds;
      RenamesAgreeIff(a, b, ms[1..]);
      MessagesAgreeIff(a, b, ms[0]);
      AgreeConcat(a, b, MessageIds(ms[0]), TranscriptIds(ms[1..]));
      HeadsAndTails(RenameMessage(a, ms[0]), Rename(a, ms[1..]), RenameMessage(b, ms[0]), Rename(b, ms[1..]));
    }
  }

  // When no two ids of the transcript get the same name, the order of repairing and sanitizing does
  // not matter exactly when the repaired transcript gives the same names to the ids that are left.
  lemma RepairThenSanitizeIff(env: Env, mode: Mode, ms: seq<Message>)
    requires AllFindNew(env, mode, map[], TranscriptIds(ms))
    ensures RepairedList(Sanitized(env, mode, ms)) == Sanitized(env, mode, RepairedList(ms))
       <==> Agree(FinalNames(env, mode, ms), FinalNames(env, mode, RepairedList(ms)), TranscriptIds(RepairedList(ms)))
  {
    hide *;
    RepairCommutesWithSanitizing(env, mode, ms);
    SanitizedIsRenamed(env, mode, RepairedList(ms));
    RenamesAgreeIff(FinalNames(env, mode, ms), FinalNames(env, mode, RepairedList(ms)), RepairedList(ms));
  }

  // ---- transcripts whose ids are told apart by the first form that is tried ----

  ghost predicate IdsAmong(ids: set<string>, ms: seq<Message>) {
    forall m <- ms :: forall id <- MessageIds(m) :: id in ids
  }

  lemma {:induction false} IdsAmongIff(ids: set<string>, ms: seq<Message>)
    ensures IdsAmong(ids, ms) <==> forall id <- TranscriptIds(ms) :: id in ids
  {
    if ms != [] {
      hide MessageIds, IdsAmong;
      IdsAmongFirst(ids, ms);
      IdsAmongIff(ids, ms[1..]);
      AllInConcat(ids, MessageIds(ms[0]), TranscriptIds(ms[1..]));
    }
  }

  lemma IdsAmongFirst(ids: set<string>, ms: seq<Message>)
    requires ms != []
    ensures IdsAmong(ids, ms) <==> (forall id <- MessageIds(ms[0]) :: id in ids) && IdsAmong(ids, ms[1..])
  {
    hide MessageIds;
    assert ms == [ms[0]] + ms[1..];
  }

  lemma AllInConcat(ids: set<string>, a: seq<string>, b: seq<string>)
    ensures (forall id <- a + b :: id in ids) <==> (forall id <- a :: id in ids) && forall id <- b :: id in ids
  {
    assert forall id <- a :: id in a + b;
    assert forall id <- b :: id in a + b;
  }

  lemma CallsAmong(ids: set<string>, m: Message)
    requires forall id <- MessageIds(m) :: id in ids
    ensures Ids(Calls(m)) <= ids
  {
    IdsAreCallIds(Calls(m));
  }

  lemma PlacedAmong(ids: set<string>, calls: seq<ToolCall>, span: seq<Message>, seen: set<string>)
    requires IdsAmong(ids, span) && Ids(calls) <= ids
    ensures IdsAmong(ids, Placed(calls, span, seen))
  {
    hide MessageIds, Answers, NonResults;
    AnswersKnown(calls, span, seen, ids);
  }

  // Repair brings in no new ids.
  lemma {:induction false} RepairAddsNoIds(ids: set<string>, ms: seq<Message>, seen: set<string>)
    requires IdsAmong(ids, ms)
    ensures IdsAmong(ids, Scan(ms, seen).out)
    decreases |ms|
  {
    if ms != [] {
      hide MessageIds, Placed;
      if Calls(ms[0]) == [] {
        RepairAddsNoIds(ids, ms[1..], seen);
        FirstWithoutCalls(ms, seen);
      } else {
        var span, rest := UnfoldTurn(ms, seen);
        assert ms[0] in ms && (forall m <- span :: m in ms) && (forall m <- rest :: m in ms);
        RepairAddsNoIds(ids, rest, seen + Ids(Calls(ms[0])));
        CallsAmong(ids, ms[0]);
        PlacedAmong(ids, Calls(ms[0]), span, seen);
      }
    }
  }

  lemma RepairedIdsAmong(ms: seq<Message>)
    ensures Elements(TranscriptIds(RepairedList(ms))) <= Elements(TranscriptIds(ms))
  {
    hide TranscriptIds, IdsAmong, Elements;
    var ids := Elements(TranscriptIds(ms));
    ElementsAreMembers(TranscriptIds(ms));
    ElementsAreMembers(TranscriptIds(RepairedList(ms)));
    IdsAmongIff(ids, ms);
    RepairAddsNoIds(ids, ms, {});
    IdsAmongIff(ids, RepairedList(ms));
  }

  // In either mode and for any number of ids: when the forms that are tried first are pairwise
  // different, the order of repairing and sanitizing does not matter.
  lemma DifferentFormsCommute(env: Env, mode: Mode, ms: seq<Message>)
    requires FormsDiffer(env, mode, Elements(TranscriptIds(ms)))
    ensures RepairedList(Sanitized(env, mode, ms)) == Sanitized(env, mode, RepairedList(ms))
  {
    hide Form, FinalNames, Sanitized, RepairedList, TranscriptIds;
    var repaired := RepairedList(ms);
    RepairedIdsAmong(ms);
    ElementsAreMembers(TranscriptIds(ms));
    ElementsAreMembers(TranscriptIds(repaired));
    DifferentFormsNeverCollide(env, mode, ms);
    DifferentFormsNeverCollide(env, mode, repaired);
    DifferentFormsFindNew(env, mode, ms);
    RepairThenSanitizeIff(env, mode, ms);
  }

  // At most 998 ids in strict mode: the outcome is that of repairing, renamed, and when results
  // only carry ids of earlier calls the order does not matter.
  lemma FewStrictIdsCommute(env: Env, ms: seq<Message>)
    requires |Elements(TranscriptIds(ms))| <= 998
    ensures RepairReport(Sanitized(env, Strict, ms)) == RenameReport(FinalNames(env, Strict, ms), RepairReport(ms))
    ensures ResultsKnown(ms, {}) ==> RepairedList(Sanitized(env, Strict, ms)) == Sanitized(env, Strict, RepairedList(ms))
  {
    hide *;
    FewIdsFindNew(env, ms);
    RepairCommutesWithSanitizing(env, Strict, ms);
    if ResultsKnown(ms, {}) {
      RepairThenSanitize(env, Strict, ms);
    }
  }

  // ---- a stray result ----

  lemma NamesOfTwo(env: Env)
    ensures FinalNamesOf(env, ["a|b", "ab"]) == map["a|b" := "ab", "ab" := Hashed(env, "ab")]
    ensures FinalNamesOf(env, ["ab"]) == map["ab" := "ab"]
    ensures Hashed(env, "ab") != "ab"
  {
    var none: map<string, string> := map[];
    assert KeepAlnum("b") == "b" && KeepAlnum("ab") == "ab" by {
      assert "b"[1..] == "" && "ab"[1..] == "b";
    }
    assert KeepAlnum("a|b") == "ab" by {
      assert "a|b"[1..] == "|b" && "|b"[1..] == "b";
    }
    assert Base(env, "ab") == "ab" && Base(env, "a|b") == "ab";
    assert |Hashed(env, "ab")| == 10;
    FirstOfCandidates(env, "a|b", none.Values);
    FirstOfCandidates(env, "ab", none.Values);
    var one := Learn(env, Strict, none, "a|b");
    assert one == map["a|b" := "ab"];
    assert one.Values == {"ab"} by {
      assert one["a|b"] == "ab";
    }
    SecondOfCandidates(env, "ab", one.Values);
    assert "a|b" != "ab" by { assert |"a|b"| != |"ab"|; }
    assert ["a|b", "ab"][1..] == ["ab"] && ["ab"][1..] == [];
    var two := Learn(env, Strict, one, "ab");
    assert LearnAll(env, Strict, two, []) == two;
    assert LearnAll(env, Strict, one, ["ab"]) == two;
    assert LearnAll(env, Strict, Learn(env, Strict, none, "ab"), []) == Learn(env, Strict, none, "ab");
  }

  function FinalNamesOf(env: Env, ids: seq<string>): map<string, string> {
    LearnAll(env, Strict, map[], ids)
  }

  lemma FirstOfCandidates(env: Env, id: string, used: set<string>)
    requires Base(env, id) !in used
    ensures UniqueToolId(env, id, used, Strict) == Base(env, id)
  {
    assert Candidates(env, id, Strict)[0] == Base(env, id);
  }

  lemma SecondOfCandidates(env: Env, id: string, used: set<string>)
    requires Base(env, id) in used && Hashed(env, id) !in used
    ensures UniqueToolId(env, id, used, Strict) == Hashed(env, id)
  {
    var all := Candidates(env, id, Strict);
    var last := LastResort(env, id, Strict);
    assert all[0] == Base(env, id) && all[1..][0] == Hashed(env, id);
    assert FirstFree(all, used, last) == FirstFree(all[1..], used, last);
  }

  // A stray result "a|b" before a call "ab" takes the name "ab", and repair drops it: sanitizing
  // the repaired transcript leaves the call alone, repairing the sanitized one does not.
  lemma SanitizingFirstMayDiffer(env: Env, stray: Message, call: Message, answer: Message)
    requires stray == ToolResult(Some("a|b"), None, None, Recorded(0))
    requires call == Assistant(Blocks([CallBlock(ToolCallMark, Some("ab"), None, 0)]), 0)
    requires answer == ToolResult(Some("ab"), None, None, Recorded(1))
    ensures RepairedList(Sanitized(env, Strict, [stray, call, answer])) != Sanitized(env, Strict, RepairedList([stray, call, answer]))
  {
    var ms := [stray, call, answer];
    StrayIds(stray, call, answer);
    NamesOfTwo(env);
    var names := FinalNames(env, Strict, ms);
    KnownLearnNothing(env, Strict, FinalNamesOf(env, ["a|b", "ab"]), ["ab"]);
    LearnAllConcat(env, Strict, map[], ["a|b", "ab"], ["ab"]);
    KnownLearnNothing(env, Strict, FinalNamesOf(env, ["ab"]), ["ab"]);
    LearnAllConcat(env, Strict, map[], ["ab"], ["ab"]);
    assert Named(names, "ab") != Named(FinalNames(env, Strict, RepairedList(ms)), "ab");
    assert "ab" in TranscriptIds(RepairedList(ms));
    ElementsAtMost(TranscriptIds(ms));
    FewIdsFindNew(env, ms);
    RepairThenSanitizeIff(env, Strict, ms);
  }

  lemma {:induction false} ElementsAtMost(ids: seq<string>)
    ensures |Elements(ids)| <= |ids|
  {
    if ids != [] {
      ElementsAtMost(ids[1..]);
      SubsetSize(Elements(ids), {ids[0]} + Elements(ids[1..]));
    }
  }

  lemma StrayIds(stray: Message, call: Message, answer: Message)
    requires stray == ToolResult(Some("a|b"), None, None, Recorded(0))
    requires call == Assistant(Blocks([CallBlock(ToolCallMark, Some("ab"), None, 0)]), 0)
    requires answer == ToolResult(Some("ab"), None, None, Recorded(1))
    ensures TranscriptIds([stray, call, answer]) == ["a|b", "ab"] + ["ab"]
    ensures RepairedList([stray, call, answer]) == [call, answer]
    ensures TranscriptIds([call, answer]) == ["ab"] + ["ab"]
  {
    assert Calls(call) == [ToolCall("ab", None)] by {
      assert call.content.blocks[1..] == [];
    }
    assert MessageIds(call) == ["ab"];
    assert [stray, call, answer][1..] == [call, answer] && [call, answer][1..] == [answer] && [answer][1..] == [];
    assert TranscriptIds([answer]) == ["ab"];
    StrayRepair(call, answer);
    assert Scan([stray, call, answer], {}).out == [] + Scan([call, answer], {}).out;
  }

  lemma StrayRepair(call: Message, answer: Message)
    requires Calls(call) == [ToolCall("ab", None)] && ResultId(answer) == Some("ab")
    ensures Scan([call, answer], {}).out == [call, answer]
  {
    var span := [answer];
    ScanOfTurn(call, span, [], {});
    assert [call] + span + [] == [call, answer];
    assert Calls(call)[1..] == [] && span[1..] == [];
    assert Answers(Calls(call), span, {}) == [answer] + Answers([], span, {} + {"ab"});
    assert NonResults(span) == [];
  }

  // ---- ids that get the same name ----

  lemma CollidingNames(env: Env, digest: Digest)
    requires forall s :: env.digest(s) == digest
    ensures LearnAll(env, Strict9, map[], ["?", "?", "!", "!"]) == map["?" := digest[..9], "!" := digest[..9]]
  {
    var none: map<string, string> := map[];
    ConstantDigestNames(env, "?", none.Values, digest);
    var one := Learn(env, Strict9, none, "?");
    ConstantDigestNames(env, "!", one.Values, digest);
    var two := Learn(env, Strict9, one, "!");
    assert "?"[0] != "!"[0];
    assert ["?", "?", "!", "!"][1..] == ["?", "!", "!"] && ["?", "!", "!"][1..] == ["!", "!"];
    assert ["!", "!"][1..] == ["!"] && ["!"][1..] == [];
    assert LearnAll(env, Strict9, two, ["!"]) == LearnAll(env, Strict9, two, []);
    assert LearnAll(env, Strict9, one, ["?", "!", "!"]) == LearnAll(env, Strict9, one, ["!", "!"]) == LearnAll(env, Strict9, two, ["!"]);
  }

  function CallOf(id: string): Message {
    Assistant(Blocks([CallBlock(ToolCallMark, Some(id), None, 0)]), 0)
  }

  function AnswerOf(id: string): Message {
    ToolResult(Some(id), None, None, Recorded(0))
  }

  function TwoTurns(a: string, b: string): seq<Message> {
    [CallOf(a), AnswerOf(a), CallOf(b), AnswerOf(b)]
  }

  lemma OneCallTurn(id: string)
    requires id != ""
    ensures Calls(CallOf(id)) == [ToolCall(id, None)] && ResultId(AnswerOf(id)) == Some(id)
    ensures MessageIds(CallOf(id)) == [id] && MessageIds(AnswerOf(id)) == [id]
  {
    var blocks := CallOf(id).content.blocks;
    assert blocks[1..] == [] && CallsOfBlocks(blocks[1..]) == [];
  }

  lemma RenamedTurn(names: map<string, string>, id: string)
    requires id != "" && id in names
    ensures RenameMessage(names, CallOf(id)) == CallOf(names[id]) && RenameMessage(names, AnswerOf(id)) == AnswerOf(names[id])
  {
    var blocks := CallOf(id).content.blocks;
    assert blocks[1..] == [] && RenameBlocks(names, blocks[1..]) == [];
    assert RenameBlocks(names, blocks) == [RenameBlock(names, blocks[0])] == CallOf(names[id]).content.blocks;
  }

  lemma TwoTurnsKept(a: string, b: string)
    requires a != "" && b != "" && a != b
    ensures RepairedList(TwoTurns(a, b)) == TwoTurns(a, b)
  {
    hide Scan, Turn, Calls;
    var none: set<string> := {};
    var tail := [CallOf(b), AnswerOf(b)];
    OneCallTurn(a);
    OneCallTurn(b);
    OneCallIds(ToolCall(a, None));
    AnsweredTurn(CallOf(a), ToolCall(a, None), AnswerOf(a), none);
    AnsweredTurn(CallOf(b), ToolCall(b, None), AnswerOf(b), none + {a});
    LastTurn(CallOf(b), AnswerOf(b), none + {a});
    FirstOfTurns(CallOf(a), AnswerOf(a), tail, none);
    assert [CallOf(a)] + [AnswerOf(a)] + tail == TwoTurns(a, b) == [CallOf(a), AnswerOf(a)] + tail;
  }

  lemma TwoTurnsRenamed(names: map<string, string>, a: string, b: string)
    requires a != "" && b != "" && a in names && b in names
    ensures Rename(names, TwoTurns(a, b)) == TwoTurns(names[a], names[b])
  {
    hide RenameMessage;
    RenamedTurn(names, a);
    RenamedTurn(names, b);
    var ms := TwoTurns(a, b);
    assert ms[1..] == [AnswerOf(a), CallOf(b), AnswerOf(b)] && ms[1..][1..] == [CallOf(b), AnswerOf(b)];
    assert [CallOf(b), AnswerOf(b)][1..] == [AnswerOf(b)] && [AnswerOf(b)][1..] == [];
    assert Rename(names, [AnswerOf(b)]) == [AnswerOf(names[b])];
    assert Rename(names, [CallOf(b), AnswerOf(b)]) == [CallOf(names[b]), AnswerOf(names[b])];
  }

  lemma TwoTurnsIds(a: string, b: string)
    requires a != "" && b != ""
    ensures TranscriptIds(TwoTurns(a, b)) == [a, a, b, b]
  {
    hide MessageIds;
    OneCallTurn(a);
    OneCallTurn(b);
    var ms := TwoTurns(a, b);
    assert ms[1..] == [AnswerOf(a), CallOf(b), AnswerOf(b)] && ms[1..][1..] == [CallOf(b), AnswerOf(b)];
    assert [CallOf(b), AnswerOf(b)][1..] == [AnswerOf(b)] && [AnswerOf(b)][1..] == [];
    assert TranscriptIds([AnswerOf(b)]) == [b];
    assert TranscriptIds([CallOf(b), AnswerOf(b)]) == [b, b];
  }

  // Two names must differ: with a constant function in place of the digest, the calls "?" and "!"
  // get one name, and the second result is lost when sanitizing comes first.
  lemma CollidingNamesMayDiffer(env: Env, digest: Digest)
    requires forall s :: env.digest(s) == digest
    ensures var ms := TwoTurns("?", "!");
            |RepairedList(Sanitized(env, Strict9, ms))| == 3 && |Sanitized(env, Strict9, RepairedList(ms))| == 4
  {
    hide Scan, Rename, Calls, TranscriptIds, LearnAll, CallOf, AnswerOf;
    var ms, name := TwoTurns("?", "!"), digest[..9];
    assert "?" != "!" by { assert "?"[0] != "!"[0]; }
    TwoTurnsKept("?", "!");
    TwoTurnsIds("?", "!");
    CollidingNames(env, digest);
    TwoTurnsRenamed(FinalNames(env, Strict9, ms), "?", "!");
    OneCallTurn(name);
    ReusedId(CallOf(name), ToolCall(name, None), AnswerOf(name), CallOf(name), AnswerOf(name));
  }
}
