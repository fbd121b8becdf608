/** What the counters of a repair count, and how many results are left. */
module RepairCounts {
  import opened Wrappers
  import opened Transcript
  import opened TranscriptRepair
  import opened RepairProperties
  import opened RepairCompleteness
  import opened RepairFields

  ghost predicate CarriesOneOf(m: Message, ids: set<string>) {
    exists id :: id in ids && CarriesId(m, id)
  }

  // Results for none of the calls of the last assistant before them; `ids` are those calls' ids.
  ghost function Strays(ms: seq<Message>, ids: set<string>): nat
    decreases |ms|
  {
    if ms == [] then 0
    else if ms[0].Assistant? then Strays(ms[1..], Ids(Calls(ms[0])))
    else (if ms[0].ToolResult? && !CarriesOneOf(ms[0], ids) then 1 else 0) + Strays(ms[1..], ids)
  }

  // Results for a call of the last assistant whose id a call of an earlier assistant had.
  ghost function LateResults(ms: seq<Message>, ids: set<string>, before: set<string>): nat
    decreases |ms|
  {
    if ms == [] then 0
    else if ms[0].Assistant? then LateResults(ms[1..], Ids(Calls(ms[0])), before + ids)
    else (if CarriesOneOf(ms[0], ids * before) then 1 else 0) + LateResults(ms[1..], ids, before)
  }

  function CalledIds(ms: seq<Message>): set<string> {
    if ms == [] then {} else Ids(Calls(ms[0])) + CalledIds(ms[1..])
  }

  lemma MatchesIff(m: Message, ids: set<string>)
    ensures Matches(m, ids) <==> CarriesOneOf(m, ids)
  {
    if Matches(m, ids) {
      ResultIdIs(m, ResultId(m).value);
    }
    if CarriesOneOf(m, ids) {
      var id :| id in ids && CarriesId(m, id);
      ResultIdIs(m, id);
    }
  }

  lemma {:induction false} SpanStrays(span: seq<Message>, rest: seq<Message>, ids: set<string>)
    requires (forall m <- span :: !m.Assistant?) && (rest == [] || rest[0].Assistant?)
    ensures Strays(span + rest, ids) == Orphans(span, ids) + Strays(rest, {})
  {
    hide Matches, CarriesOneOf;
    if span == [] {
      assert span + rest == rest;
    } else {
      assert (span + rest)[0] == span[0] && (span + rest)[1..] == span[1..] + rest;
      MatchesIff(span[0], ids);
      SpanStrays(span[1..], rest, ids);
    }
  }

  lemma {:induction false} SpanLate(span: seq<Message>, rest: seq<Message>, ids: set<string>, before: set<string>)
    requires (forall m <- span :: !m.Assistant?) && (rest == [] || rest[0].Assistant?)
    ensures LateResults(span + rest, ids, before) == Repeats(span, ids * before) + LateResults(rest, {}, before + ids)
  {
    hide Matches, CarriesOneOf;
    if span == [] {
      assert span + rest == rest;
      assert before + ids + {} == before + ids;
    } else {
      assert (span + rest)[0] == span[0] && (span + rest)[1..] == span[1..] + rest;
      MatchesIff(span[0], ids * before);
      SpanLate(span[1..], rest, ids, before);
    }
  }

  lemma {:induction false} RefusedIs(calls: seq<ToolCall>, seen: set<string>)
    ensures RefusedPushes(calls, seen) == |calls| - |Ids(calls) - seen|
    ensures forall span :: |Answers(calls, span, seen)| == |Ids(calls) - seen|
  {
    if calls == [] {
      assert Ids(calls) - seen == {};
    } else {
      var id := calls[0].id;
      if id in seen {
        RefusedIs(calls[1..], seen);
        assert Ids(calls) - seen == Ids(calls[1..]) - seen;
      } else {
        RefusedIs(calls[1..], seen + {id});
        var others := Ids(calls[1..]) - (seen + {id});
        assert Ids(calls) - seen == {id} + others && id !in others;
      }
    }
  }

  // What a scan has counted, and the results it has placed.
  ghost predicate Counted(ms: seq<Message>, seen: set<string>) {
    var t, fresh' := Scan(ms, seen), CalledIds(ms) - seen;
    && t.orphans == Strays(ms, {})
    && t.duplicates == LateResults(ms, {}, seen) + |AllCallIds(ms)| - |fresh'|
    && |t.out| == |NonResults(ms)| + |fresh'|
  }

  lemma NothingCarried(m: Message, ids: set<string>)
    requires ids == {}
    ensures !CarriesOneOf(m, ids)
  {
  }

  lemma CountedFirst(ms: seq<Message>, seen: set<string>)
    requires ms != [] && Calls(ms[0]) == [] && Counted(ms[1..], seen)
    ensures Counted(ms, seen)
  {
    hide Turn, Scan, CarriesOneOf, Strays, LateResults, CalledIds, AllCallIds, NonResults, Calls, Ids;
    FirstWithoutCalls(ms, seen);
    FirstCounts(ms, seen);
    FirstCallsNothing(ms);
    var none: set<string> := {};
    FirstStrays(ms, none, seen);
  }

  lemma FirstCallsNothing(ms: seq<Message>)
    requires ms != [] && Calls(ms[0]) == []
    ensures CalledIds(ms) == CalledIds(ms[1..]) && |AllCallIds(ms)| == |AllCallIds(ms[1..])|
  {
    hide Calls;
  }

  lemma FirstCounts(ms: seq<Message>, seen: set<string>)
    requires ms != [] && Calls(ms[0]) == []
    ensures Scan(ms, seen).orphans == (if ms[0].ToolResult? then 1 else 0) + Scan(ms[1..], seen).orphans
    ensures Scan(ms, seen).duplicates == Scan(ms[1..], seen).duplicates
    ensures |NonResults(ms)| == (if ms[0].ToolResult? then 0 else 1) + |NonResults(ms[1..])|
  {
    hide Turn;
  }

  lemma FirstStrays(ms: seq<Message>, none: set<string>, seen: set<string>)
    requires ms != [] && Calls(ms[0]) == [] && none == {}
    ensures Strays(ms, none) == (if ms[0].ToolResult? then 1 else 0) + Strays(ms[1..], none)
    ensures LateResults(ms, none, seen) == LateResults(ms[1..], none, seen)
  {
    hide CarriesOneOf, Calls;
    NothingCarried(ms[0], none);
    NothingCarried(ms[0], none * seen);
    assert seen + none == seen && Ids([]) == none;
  }

  lemma CountedTurn(ms: seq<Message>, seen: set<string>, span: seq<Message>, rest: seq<Message>)
    requires ms != [] && Calls(ms[0]) != [] && ms == [ms[0]] + span + rest
    requires (forall m <- span :: !m.Assistant?) && (rest == [] || rest[0].Assistant?)
    requires Scan(ms, seen) == Plus(Turn(ms[0], span, seen), Scan(rest, seen + Ids(Calls(ms[0]))))
    requires Counted(rest, seen + Ids(Calls(ms[0])))
    ensures Counted(ms, seen)
  {
    hide Scan, Strays, LateResults, AllCallIds, CalledIds, Calls, Ids, NonResults, Answers, Repeats, RefusedPushes, Orphans;
    var calls, ids := Calls(ms[0]), Ids(Calls(ms[0]));
    TurnStrays(ms, seen, span, rest);
    CallIdsOfTurn(ms, span, rest);
    CalledInTurn(ms, span, rest);
    RefusedIs(calls, seen);
    var here, later := ids - seen, CalledIds(rest) - (seen + ids);
    assert CalledIds(ms) - seen == here + later && here !! later;
    NonResultsConcat([ms[0]], span);
    NonResultsConcat([ms[0]] + span, rest);
    OneOther(ms[0]);
  }

  lemma OneOther(m: Message)
    requires Calls(m) != []
    ensures |NonResults([m])| == 1
  {
    assert [m][1..] == [];
  }

  lemma CalledInTurn(ms: seq<Message>, span: seq<Message>, rest: seq<Message>)
    requires ms != [] && ms == [ms[0]] + span + rest && forall m <- span :: !m.Assistant?
    ensures CalledIds(ms) == Ids(Calls(ms[0])) + CalledIds(rest)
  {
    Regroup([ms[0]], span, rest);
    assert ms[1..] == span + rest;
    SpanCallsNothing(span, rest);
  }

  lemma {:induction false} SpanCallsNothing(span: seq<Message>, rest: seq<Message>)
    requires forall m <- span :: !m.Assistant?
    ensures CalledIds(span + rest) == CalledIds(rest)
  {
    if span == [] {
      assert span + rest == rest;
    } else {
      assert (span + rest)[1..] == span[1..] + rest;
      SpanCallsNothing(span[1..], rest);
    }
  }

  lemma TurnStrays(ms: seq<Message>, seen: set<string>, span: seq<Message>, rest: seq<Message>)
    requires ms != [] && Calls(ms[0]) != [] && ms == [ms[0]] + span + rest
    requires (forall m <- span :: !m.Assistant?) && (rest == [] || rest[0].Assistant?)
    ensures var ids := Ids(Calls(ms[0]));
            && Strays(ms, {}) == Orphans(span, ids) + Strays(rest, {})
            && LateResults(ms, {}, seen) == Repeats(span, ids * seen) + LateResults(rest, {}, seen + ids)
  {
    var ids := Ids(Calls(ms[0]));
    Regroup([ms[0]], span, rest);
    assert ms[1..] == span + rest && seen + {} == seen;
    SpanStrays(span, rest, ids);
    SpanLate(span, rest, ids, seen);
  }

  lemma {:induction false} ScanCounts(ms: seq<Message>, seen: set<string>)
    ensures Counted(ms, seen)
    decreases |ms|
  {
    if ms == [] {
    } else if Calls(ms[0]) == [] {
      ScanCounts(ms[1..], seen);
      CountedFirst(ms, seen);
    } else {
      var span, rest := UnfoldTurn(ms, seen);
      ScanCounts(rest, seen + Ids(Calls(ms[0])));
      CountedTurn(ms, seen, span, rest);
    }
  }

  // Orphans are the results for no call of their turn. Duplicates are the results for calls of their
  // turn whose id is of an earlier turn, and one for each call beyond the first of its id. The list
  // that is built has one result for each id.
  lemma CountersAre(ms: seq<Message>)
    ensures var r := RepairReport(ms);
            && r.droppedOrphans == Strays(ms, {})
            && r.droppedDuplicates == LateResults(ms, {}, {}) + |AllCallIds(ms)| - |CalledIds(ms)|
    ensures |RepairedList(ms)| == |NonResults(ms)| + |CalledIds(ms)|
  {
    hide Scan;
    ScanCounts(ms, {});
    assert CalledIds(ms) - {} == CalledIds(ms);
  }

  // ---- the other messages ----

  lemma {:induction false} NonResultsAreSelected(ms: seq<Message>) returns (at: seq<int>)
    ensures Selects(ms, (m: Message) => !m.ToolResult?, NonResults(ms), at)
  {
    if ms == [] {
      at := [];
    } else {
      var front, last := ms[..|ms| - 1], ms[|ms| - 1];
      assert ms == front + [last];
      NonResultsConcat(front, [last]);
      assert NonResults([last]) == if last.ToolResult? then [] else [last];
      at := NonResultsAreSelected(front);
      SelectsSnoc(front, (m: Message) => !m.ToolResult?, NonResults(front), at, last);
      at := if last.ToolResult? then at else at + [|front|];
    }
  }

  // The same messages that are no results stand in the input and in the repaired list, in order.
  lemma OthersKeepTheirOrder(ms: seq<Message>) returns (others: seq<Message>, before: seq<int>, after: seq<int>)
    ensures Selects(ms, (m: Message) => !m.ToolResult?, others, before)
    ensures Selects(RepairedList(ms), (m: Message) => !m.ToolResult?, others, after)
  {
    hide Scan;
    others := NonResults(ms);
    RepairedKeepsOthers(ms);
    before := NonResultsAreSelected(ms);
    after := NonResultsAreSelected(RepairedList(ms));
  }
}
