/** Where the result of a call ends up, told from the fields of the messages alone. */
module RepairFields {
  import opened Wrappers
  import opened Transcript
  import opened TranscriptRepair
  import opened RepairProperties
  import opened RepairCompleteness

  // ---- what the fields say ----

  predicate Unusable(f: Field) {
    f == None || f == Some("")
  }

  // A tool result for this id: by its toolCallId, or by its toolUseId when it has no usable toolCallId.
  predicate CarriesId(m: Message, id: string) {
    && m.ToolResult? && id != ""
    && (m.toolCallId == Some(id) || (Unusable(m.toolCallId) && m.toolUseId == Some(id)))
  }

  // Block p of the message at i is a tool call, of any kind, with this id.
  predicate CallAt(ms: seq<Message>, i: int, p: int, id: string) {
    && 0 <= i < |ms| && ms[i].Assistant? && ms[i].content.Blocks?
    && 0 <= p < |ms[i].content.blocks| && ms[i].content.blocks[p].CallBlock?
    && ms[i].content.blocks[p].id == Some(id) && id != ""
  }

  // No block before it is a call with the same id.
  ghost predicate FirstCallAt(ms: seq<Message>, i: int, p: int, id: string) {
    && CallAt(ms, i, p, id)
    && forall j, q :: CallAt(ms, j, q, id) ==> i < j || (i == j && p <= q)
  }

  // The message at j comes before the next assistant after i.
  predicate InSpanOf(ms: seq<Message>, i: int, j: int) {
    0 <= i < j < |ms| && forall t :: i < t <= j ==> !ms[t].Assistant?
  }

  ghost predicate AnswerAt(ms: seq<Message>, i: int, j: int, id: string) {
    InSpanOf(ms, i, j) && CarriesId(ms[j], id)
  }

  ghost predicate FirstAnswerAt(ms: seq<Message>, i: int, j: int, id: string) {
    AnswerAt(ms, i, j, id) && forall t :: AnswerAt(ms, i, t, id) ==> j <= t
  }

  function Notice(id: string, name: Field): Message {
    ToolResult(Some(id), None, if name == None then Some("unknown") else name, MissingNotice)
  }

  // ---- the ids and calls of the model are those of the fields ----

  lemma ResultIdIs(m: Message, id: string)
    ensures ResultId(m) == Some(id) <==> CarriesId(m, id)
  {
  }

  lemma ResultIdIsUsable(m: Message)
    ensures ResultId(m).Some? ==> CarriesId(m, ResultId(m).value)
    ensures ResultId(m).None? <==> !m.ToolResult? || (Unusable(m.toolCallId) && Unusable(m.toolUseId))
  {
  }

  predicate IsCall(blocks: seq<Block>, p: int) {
    0 <= p < |blocks| && blocks[p].CallBlock? && blocks[p].id.Some? && blocks[p].id.value != ""
  }

  // The calls are the call blocks with a usable id, in order, each with its name.
  lemma CallsAreBlocks(blocks: seq<Block>) returns (at: seq<int>)
    ensures Increasing(at) && |at| == |CallsOfBlocks(blocks)|
    ensures forall p :: IsCall(blocks, p) <==> p in at
    ensures forall k :: 0 <= k < |at| ==>
      IsCall(blocks, at[k]) && CallsOfBlocks(blocks)[k] == ToolCall(blocks[at[k]].id.value, blocks[at[k]].name)
  {
    at := [];
    for n := 0 to |blocks|
      invariant Increasing(at) && |at| == |CallsOfBlocks(blocks[..n])| && forall p <- at :: p < n
      invariant forall p :: p < n && IsCall(blocks, p) <==> p in at
      invariant forall k :: 0 <= k < |at| ==>
        IsCall(blocks, at[k]) && CallsOfBlocks(blocks[..n])[k] == ToolCall(blocks[at[k]].id.value, blocks[at[k]].name)
    {
      CallsSnoc(blocks[..n], blocks[n]);
      assert blocks[..n + 1] == blocks[..n] + [blocks[n]];
      if IsCall(blocks, n) {
        at := at + [n];
      }
    }
    assert blocks[..|blocks|] == blocks;
  }

  lemma {:induction false} CallsSnoc(blocks: seq<Block>, b: Block)
    ensures CallsOfBlocks(blocks + [b])
         == CallsOfBlocks(blocks) + if b.CallBlock? && b.id.Some? && b.id.value != "" then [ToolCall(b.id.value, b.name)] else []
  {
    if blocks == [] {
      assert blocks + [b] == [b] && [b][1..] == [];
    } else {
      assert (blocks + [b])[1..] == blocks[1..] + [b];
      CallsSnoc(blocks[1..], b);
    }
  }

  ghost predicate EarlierBlock(ms: seq<Message>, i: int, p: int, id: string) {
    exists o :: o < p && CallAt(ms, i, o, id)
  }

  // The call of block p among the calls of its turn: those before it are of earlier blocks.
  lemma CallOfBlock(ms: seq<Message>, i: int, p: int, id: string) returns (q: nat)
    requires CallAt(ms, i, p, id)
    ensures q < |Calls(ms[i])| && Calls(ms[i])[q] == ToolCall(id, ms[i].content.blocks[p].name)
    ensures forall r :: 0 <= r < q ==> EarlierBlock(ms, i, p, Calls(ms[i])[r].id)
  {
    var blocks := ms[i].content.blocks;
    var at := CallsAreBlocks(blocks);
    assert IsCall(blocks, p);
    q :| 0 <= q < |at| && at[q] == p;
    forall r | 0 <= r < q ensures EarlierBlock(ms, i, p, Calls(ms[i])[r].id) {
      assert IsCall(blocks, at[r]) && at[r] < p;
      assert CallAt(ms, i, at[r], Calls(ms[i])[r].id);
    }
  }

  lemma IdsComeFromBlocks(ms: seq<Message>, i: int, id: string)
    requires 0 <= i < |ms| && id in Ids(Calls(ms[i]))
    ensures exists p :: CallAt(ms, i, p, id)
  {
    CallIdsAreIds(Calls(ms[i]));
    var at := CallsAreBlocks(ms[i].content.blocks);
    var k :| 0 <= k < |at| && Calls(ms[i])[k].id == id;
    assert IsCall(ms[i].content.blocks, at[k]);
    assert CallAt(ms, i, at[k], id);
  }

  // ---- one turn ----

  // The answer to a new call is its first result in the span, or the notice.
  lemma {:induction false} AnswerOfCall(calls: seq<ToolCall>, span: seq<Message>, seen: set<string>, q: nat) returns (a: nat)
    requires q < |calls| && calls[q].id !in seen && forall r :: 0 <= r < q ==> calls[r].id != calls[q].id
    ensures a < |Answers(calls, span, seen)| && Answers(calls, span, seen)[a] == Answer(calls[q], span)
  {
    if q == 0 {
      a := 0;
    } else {
      var next := if calls[0].id in seen then seen else seen + {calls[0].id};
      assert calls[q] == calls[1..][q - 1];
      a := AnswerOfCall(calls[1..], span, next, q - 1);
      a := if calls[0].id in seen then a else a + 1;
    }
  }

  lemma {:induction false} FirstResultAt(span: seq<Message>, id: string)
    ensures FirstResult(span, id).None? ==> forall j :: 0 <= j < |span| ==> !CarriesId(span[j], id)
    ensures FirstResult(span, id).Some? ==>
      exists j :: 0 <= j < |span| && FirstResult(span, id) == Some(span[j]) && CarriesId(span[j], id)
        && forall t :: 0 <= t < j ==> !CarriesId(span[t], id)
  {
    if span != [] {
      ResultIdIs(span[0], id);
      if ResultId(span[0]) != Some(id) {
        FirstResultAt(span[1..], id);
        if FirstResult(span[1..], id).Some? {
          var j :| 0 <= j < |span[1..]| && FirstResult(span[1..], id) == Some(span[1..][j]) && CarriesId(span[1..][j], id)
            && forall t :: 0 <= t < j ==> !CarriesId(span[1..][t], id);
          forall t | 0 <= t < j + 1 ensures !CarriesId(span[t], id) {
            assert t > 0 ==> span[t] == span[1..][t - 1];
          }
          assert span[j + 1] == span[1..][j];
        } else {
          forall j | 0 <= j < |span| ensures !CarriesId(span[j], id) {
            assert j > 0 ==> span[j] == span[1..][j - 1];
          }
        }
      } else {
        assert FirstResult(span, id) == Some(span[0]);
      }
    }
  }

  // What stands for a call in the repaired list.
  ghost predicate IsAnswer(ms: seq<Message>, i: int, id: string, name: Field, m: Message) {
    && (forall j :: FirstAnswerAt(ms, i, j, id) ==> 0 <= j < |ms| && m == ms[j])
    && ((forall j :: !AnswerAt(ms, i, j, id)) ==> m == Notice(id, name))
  }

  lemma AnswerIs(ms: seq<Message>, span: seq<Message>, rest: seq<Message>, id: string, name: Field)
    requires ms != [] && ms == [ms[0]] + span + rest && id != ""
    requires (forall m <- span :: !m.Assistant?) && (rest == [] || rest[0].Assistant?)
    ensures IsAnswer(ms, 0, id, name, Answer(ToolCall(id, name), span))
  {
    FirstResultAt(span, id);
    forall t | 1 <= t <= |span| ensures ms[t] == span[t - 1] && InSpanOf(ms, 0, t) {
      forall u | 0 < u <= t ensures !ms[u].Assistant? {
        assert ms[u] == span[u - 1] && span[u - 1] in span;
      }
    }
    assert rest != [] ==> ms[1 + |span|] == rest[0];
    assert forall j :: InSpanOf(ms, 0, j) ==> 1 <= j <= |span|;
    if FirstResult(span, id).Some? {
      var j :| 0 <= j < |span| && FirstResult(span, id) == Some(span[j]) && CarriesId(span[j], id)
        && forall t :: 0 <= t < j ==> !CarriesId(span[t], id);
      assert AnswerAt(ms, 0, j + 1, id);
      forall t | AnswerAt(ms, 0, t, id) ensures j + 1 <= t {
        assert ms[t] == span[t - 1];
      }
    }
  }

  // ---- the whole transcript ----

  // Between the turn at k and the place a there are only results.
  predicate InBlock(out: seq<Message>, k: int, a: int) {
    0 <= k < a < |out| && !out[k].ToolResult? && forall t :: k < t <= a ==> out[t].ToolResult?
  }

  lemma InBlockShift(front: seq<Message>, out: seq<Message>, k: int, a: int)
    requires InBlock(out, k, a)
    ensures InBlock(front + out, |front| + k, |front| + a) && (front + out)[|front| + k] == out[k] && (front + out)[|front| + a] == out[a]
  {
    forall t | |front| + k < t <= |front| + a ensures (front + out)[t].ToolResult? {
      assert (front + out)[t] == out[t - |front|];
    }
  }

  lemma CallShift(front: seq<Message>, rest: seq<Message>, i: int, p: int, id: string)
    requires i >= |front|
    ensures CallAt(front + rest, i, p, id) <==> CallAt(rest, i - |front|, p, id)
  {
  }

  lemma FirstCallShift(front: seq<Message>, rest: seq<Message>, i: int, p: int, id: string)
    requires i >= |front| && FirstCallAt(front + rest, i, p, id)
    ensures FirstCallAt(rest, i - |front|, p, id)
  {
    CallShift(front, rest, i, p, id);
    forall j, q | CallAt(rest, j, q, id) ensures i - |front| < j || (i - |front| == j && p <= q) {
      CallShift(front, rest, j + |front|, q, id);
      assert CallAt(front + rest, j + |front|, q, id);
    }
  }

  lemma AnswerInRange(ms: seq<Message>, i: int, j: int, id: string)
    requires AnswerAt(ms, i, j, id)
    ensures 0 <= i < j < |ms|
  {
  }

  lemma FirstAnswerShift(front: seq<Message>, rest: seq<Message>, i: int, j: int, id: string)
    requires 0 <= i < |rest| && FirstAnswerAt(front + rest, i + |front|, j, id)
    ensures FirstAnswerAt(rest, i, j - |front|, id)
    ensures 0 <= j < |front + rest| && 0 <= j - |front| < |rest| && (front + rest)[j] == rest[j - |front|]
  {
    hide InSpanOf, CarriesId, AnswerAt;
    var n := |front|;
    AnswerInRange(front + rest, i + n, j, id);
    AnswerAtShift(front, rest, i, j - n, id);
    forall t | AnswerAt(rest, i, t, id) ensures j - n <= t {
      AnswerAtShift(front, rest, i, t, id);
      assert AnswerAt(front + rest, i + n, t + n, id);
    }
  }

  lemma AnswerShift(front: seq<Message>, rest: seq<Message>, i: int, id: string, name: Field, m: Message)
    requires 0 <= i < |rest| && IsAnswer(rest, i, id, name, m)
    ensures IsAnswer(front + rest, i + |front|, id, name, m)
  {
    hide AnswerAt, FirstAnswerAt;
    var ms, o := front + rest, i + |front|;
    forall j | FirstAnswerAt(ms, o, j, id) ensures 0 <= j < |ms| && m == ms[j] {
      FirstAnswerShift(front, rest, i, j, id);
    }
    if forall j :: !AnswerAt(ms, o, j, id) {
      NoAnswerShift(front, rest, i, id);
    }
  }

  lemma NoAnswerShift(front: seq<Message>, rest: seq<Message>, i: int, id: string)
    requires 0 <= i < |rest|
    requires var o := i + |front|; forall j :: !AnswerAt(front + rest, o, j, id)
    ensures forall j :: !AnswerAt(rest, i, j, id)
  {
    hide AnswerAt;
    var o := i + |front|;
    forall j ensures !AnswerAt(rest, i, j, id) {
      AnswerAtShift(front, rest, i, j, id);
      assert !AnswerAt(front + rest, o, j + |front|, id);
    }
  }

  lemma AnswerAtShift(front: seq<Message>, rest: seq<Message>, i: int, j: int, id: string)
    requires 0 <= i < |rest|
    ensures AnswerAt(front + rest, i + |front|, j + |front|, id) <==> AnswerAt(rest, i, j, id)
    ensures AnswerAt(rest, i, j, id) ==> 0 <= j < |rest| && (front + rest)[j + |front|] == rest[j]
  {
    SpanShift(front, rest, i, j + |front|);
  }

  lemma SpanShift(front: seq<Message>, rest: seq<Message>, i: int, j: int)
    requires 0 <= i < |rest|
    ensures InSpanOf(front + rest, i + |front|, j) <==> InSpanOf(rest, i, j - |front|)
  {
    var ms, n := front + rest, |front|;
    if InSpanOf(ms, i + n, j) {
      forall t | i < t <= j - n ensures !rest[t].Assistant? {
        assert !ms[t + n].Assistant?;
      }
    }
    if InSpanOf(rest, i, j - n) {
      forall t | i + n < t <= j ensures !ms[t].Assistant? {
        assert ms[t] == rest[t - n];
      }
    }
  }

  // Where the turn at i ends up: as many messages that are no results come before it as before.
  ghost predicate SamePlace(ms: seq<Message>, i: int, out: seq<Message>, k: int) {
    && 0 <= i < |ms| && 0 <= k < |out| && out[k] == ms[i]
    && |NonResults(out[..k])| == |NonResults(ms[..i])|
  }

  lemma SamePlaceShift(front: seq<Message>, rest: seq<Message>, i: int, kept: seq<Message>, out: seq<Message>, k: int)
    requires SamePlace(rest, i, out, k) && |NonResults(kept)| == |NonResults(front)|
    ensures SamePlace(front + rest, i + |front|, kept + out, k + |kept|)
  {
    hide NonResults;
    RankShift(front, rest, i);
    RankShift(kept, out, k);
  }

  lemma RankShift(front: seq<Message>, rest: seq<Message>, i: nat)
    requires i <= |rest|
    ensures |NonResults((front + rest)[..i + |front|])| == |NonResults(front)| + |NonResults(rest[..i])|
  {
    hide NonResults;
    assert (front + rest)[..i + |front|] == front + rest[..i];
    NonResultsConcat(front, rest[..i]);
  }

  // Whatever the scan has put out for a front of the list, the rest follows it.
  lemma AnsweredLater(front: seq<Message>, rest: seq<Message>, i: int, id: string, name: Field,
                      kept: seq<Message>, out: seq<Message>, k: int, a: int)
    requires |NonResults(kept)| == |NonResults(front)| && AnsweredAt(rest, i, id, name, out, k, a)
    ensures AnsweredAt(front + rest, i + |front|, id, name, kept + out, k + |kept|, a + |kept|)
  {
    hide NonResults, IsAnswer;
    SamePlaceShift(front, rest, i, kept, out, k);
    InBlockShift(kept, out, k, a);
    AnswerShift(front, rest, i, id, name, out[a]);
  }

  // The first call with this id, and the name it has.
  ghost predicate Called(ms: seq<Message>, i: int, p: int, id: string, name: Field) {
    FirstCallAt(ms, i, p, id) && ms[i].content.blocks[p].name == name
  }

  lemma CalledShift(front: seq<Message>, rest: seq<Message>, i: int, p: int, id: string, name: Field)
    requires i >= |front| && Called(front + rest, i, p, id, name)
    ensures Called(rest, i - |front|, p, id, name) && i - |front| < |rest|
  {
    FirstCallShift(front, rest, i, p, id);
  }

  // A call in the rest of the list is not one of the calls before it.
  lemma NotCalledBefore(ms: seq<Message>, i: int, p: int, id: string, name: Field)
    requires Called(ms, i, p, id, name) && i > 0
    ensures id !in Ids(Calls(ms[0]))
  {
    if id in Ids(Calls(ms[0])) {
      IdsComeFromBlocks(ms, 0, id);
    }
  }

  lemma HasCalls(ms: seq<Message>, i: int, p: int, id: string, name: Field)
    requires Called(ms, i, p, id, name)
    ensures 0 <= i < |ms| && Calls(ms[i]) != [] && ms[i].Assistant?
  {
    var q := CallOfBlock(ms, i, p, id);
  }

  lemma FirstTurnAnswers(ms: seq<Message>, seen: set<string>, span: seq<Message>, rest: seq<Message>, p: int, id: string, name: Field)
      returns (a: nat)
    requires ms != [] && ms == [ms[0]] + span + rest && Called(ms, 0, p, id, name) && id !in seen
    requires (forall m <- span :: !m.Assistant?) && (rest == [] || rest[0].Assistant?)
    ensures var out := Turn(ms[0], span, seen).out; InBlock(out, 0, a) && IsAnswer(ms, 0, id, name, out[a]) && out[0] == ms[0]
  {
    hide IsAnswer, CarriesId, InSpanOf, Answers, NonResults, CallsOfBlocks, AnswerAt;
    var calls := Calls(ms[0]);
    var q := CallOfBlock(ms, 0, p, id);
    NewAmongCalls(ms, p, id, q);
    a := AnswerOfCall(calls, span, seen, q);
    AnswersAreResults(calls, span, seen);
    AnswerIs(ms, span, rest, id, name);
    TurnStarts(ms[0], Answers(calls, span, seen), NonResults(span), a);
    a := a + 1;
  }

  lemma NewAmongCalls(ms: seq<Message>, p: int, id: string, q: nat)
    requires FirstCallAt(ms, 0, p, id) && q <= |Calls(ms[0])|
    requires forall r :: 0 <= r < q ==> EarlierBlock(ms, 0, p, Calls(ms[0])[r].id)
    ensures forall r :: 0 <= r < q ==> Calls(ms[0])[r].id != id
  {
    hide Calls;
    forall r | 0 <= r < q ensures Calls(ms[0])[r].id != id {
      assert EarlierBlock(ms, 0, p, Calls(ms[0])[r].id);
    }
  }

  lemma TurnStarts(msg: Message, answers: seq<Message>, others: seq<Message>, a: nat)
    requires a < |answers| && !msg.ToolResult? && forall m <- answers :: m.ToolResult?
    ensures var out := [msg] + (answers + others); InBlock(out, 0, a + 1) && out[a + 1] == answers[a] && out[0] == msg
  {
    var out := [msg] + (answers + others);
    forall t | 1 <= t <= a + 1 ensures out[t].ToolResult? {
      assert out[t] == answers[t - 1];
    }
  }

  ghost predicate AnsweredAt(ms: seq<Message>, i: int, id: string, name: Field, out: seq<Message>, k: int, a: int) {
    SamePlace(ms, i, out, k) && InBlock(out, k, a) && IsAnswer(ms, i, id, name, out[a])
  }

  lemma {:induction false} ScanAnswers(ms: seq<Message>, seen: set<string>, i: int, p: int, id: string, name: Field)
      returns (k: nat, a: nat)
    requires Called(ms, i, p, id, name) && id !in seen
    ensures AnsweredAt(ms, i, id, name, Scan(ms, seen).out, k, a)
    decreases |ms|
  {
    hide *;
    HasCalls(ms, i, p, id, name);
    if Calls(ms[0]) == [] {
      k, a := AnswersAfterFirst(ms, seen, i, p, id, name);
    } else {
      var span, rest := UnfoldTurn(ms, seen);
      var front, out, next := [ms[0]] + span, Turn(ms[0], span, seen).out, seen + Ids(Calls(ms[0]));
      OutOfTurn(ms, seen, span, rest);
      if i == 0 {
        a := FirstTurnAnswers(ms, seen, span, rest, p, id, name);
        k := 0;
        AnsweredStays(ms, id, name, out, Scan(rest, next).out, a);
      } else {
        AssistantsAfterSpan(ms, span, rest);
        NotCalledBefore(ms, i, p, id, name);
        CalledShift(front, rest, i, p, id, name);
        k, a := ScanAnswers(rest, next, i - |front|, p, id, name);
        TurnKeepsRank(ms[0], span, seen);
        AnsweredLater(front, rest, i - |front|, id, name, out, Scan(rest, next).out, k, a);
        k, a := k + |out|, a + |out|;
      }
    }
  }

  lemma OutOfTurn(ms: seq<Message>, seen: set<string>, span: seq<Message>, rest: seq<Message>)
    requires ms != [] && Calls(ms[0]) != []
    requires Scan(ms, seen) == Plus(Turn(ms[0], span, seen), Scan(rest, seen + Ids(Calls(ms[0]))))
    ensures Scan(ms, seen).out == Turn(ms[0], span, seen).out + Scan(rest, seen + Ids(Calls(ms[0]))).out && !ms[0].ToolResult?
  {
    hide Turn, Scan;
  }

  lemma AssistantsAfterSpan(ms: seq<Message>, span: seq<Message>, rest: seq<Message>)
    requires ms != [] && ms == [ms[0]] + span + rest && forall m <- span :: !m.Assistant?
    ensures forall t :: 0 < t < |ms| && ms[t].Assistant? ==> t > |span|
  {
    forall t | 1 <= t <= |span| ensures !ms[t].Assistant? {
      assert ms[t] == span[t - 1] && span[t - 1] in span;
    }
  }

  lemma TurnKeepsRank(msg: Message, span: seq<Message>, seen: set<string>)
    requires !msg.ToolResult?
    ensures |NonResults(Turn(msg, span, seen).out)| == |NonResults([msg] + span)|
  {
    hide Turn;
    TurnKeepsOthers(msg, span, seen);
    NonResultsConcat([msg], span);
  }

  lemma AnsweredStays(ms: seq<Message>, id: string, name: Field, out: seq<Message>, tail: seq<Message>, a: nat)
    requires ms != [] && InBlock(out, 0, a) && out[0] == ms[0] && IsAnswer(ms, 0, id, name, out[a])
    ensures AnsweredAt(ms, 0, id, name, out + tail, 0, a)
  {
    hide IsAnswer;
    assert (out + tail)[..0] == [] && ms[..0] == [];
    forall t | 0 < t <= a ensures (out + tail)[t].ToolResult? {
      assert (out + tail)[t] == out[t];
    }
  }

  lemma {:induction false} AnswersAfterFirst(ms: seq<Message>, seen: set<string>, i: int, p: int, id: string, name: Field)
      returns (k: nat, a: nat)
    requires ms != [] && Called(ms, i, p, id, name) && id !in seen && Calls(ms[0]) == []
    ensures AnsweredAt(ms, i, id, name, Scan(ms, seen).out, k, a)
    decreases |ms|, 0
  {
    hide *;
    var front, rest := [ms[0]], ms[1..];
    assert ms == front + rest;
    HasCalls(ms, i, p, id, name);
    CalledShift(front, rest, i, p, id, name);
    k, a := ScanAnswers(rest, seen, i - 1, p, id, name);
    FirstWithoutCalls(ms, seen);
    var kept, out := if ms[0].ToolResult? then [] else front, Scan(rest, seen).out;
    assert [] + out == out;
    KeptFirst(ms[0]);
    AnsweredLater(front, rest, i - 1, id, name, kept, out, k, a);
    k, a := k + |kept|, a + |kept|;
  }

  lemma KeptFirst(m: Message)
    ensures |NonResults(if m.ToolResult? then [] else [m])| == |NonResults([m])|
  {
    assert [m][1..] == [];
  }

  // The first call with an id is answered in the block of results right after its turn: by the first
  // result for that id in the turn's span, itself, or by a notice with the name of the call, and by
  // the notice only when there is no such result.
  lemma CallIsAnswered(ms: seq<Message>, i: int, p: int, id: string) returns (k: nat, a: nat)
    requires FirstCallAt(ms, i, p, id)
    ensures var out := RepairedList(ms);
            SamePlace(ms, i, out, k) && InBlock(out, k, a) && IsAnswer(ms, i, id, ms[i].content.blocks[p].name, out[a])
  {
    hide Scan;
    k, a := ScanAnswers(ms, {}, i, p, id, ms[i].content.blocks[p].name);
  }
}
