/** Splitting a history into shares of its tokens, and pruning it to a budget. */
module ContextShare {
  import opened Wrappers
  import opened Compaction

  // A `number` argument: a finite value, or NaN or an infinity.
  datatype Number = Finite(value: real) | NotFinite

  function NormalizeParts(parts: Number, count: nat): (p: nat)
    ensures 1 <= p && (count > 0 ==> p <= count)
    ensures p >= 2 <==> parts.Finite? && parts.value >= 2.0 && count >= 2
  {
    if parts.NotFinite? || parts.value <= 1.0 then 1
    else
      var whole := if parts.value.Floor > 1 then parts.value.Floor else 1;
      var most := if count > 1 then count else 1;
      if whole < most then whole else most
  }

  // The loop of the split: `closed` chunks are already pushed, `open` is being filled. The
  // comparison with total / p is multiplied out.
  function SplitFrom<M>(est: M -> nat, open: seq<M>, rest: seq<M>, closed: nat, p: nat, total: nat): seq<seq<M>>
    decreases |rest|
  {
    if rest == [] then if open == [] then [] else [open]
    else if closed + 1 < p && open != [] && (Tokens(est, open) + est(rest[0])) * p > total then
      [open] + SplitFrom(est, [rest[0]], rest[1..], closed + 1, p, total)
    else SplitFrom(est, open + [rest[0]], rest[1..], closed, p, total)
  }

  function Split<M>(est: M -> nat, ms: seq<M>, parts: Number): seq<seq<M>> {
    if ms == [] then []
    else
      var p := NormalizeParts(parts, |ms|);
      if p <= 1 then [ms] else SplitFrom(est, [], ms, 0, p, Tokens(est, ms))
  }

  // One message of the split: it closes the open chunk, or joins it.
  lemma SplitFromStep<M>(est: M -> nat, open: seq<M>, ms: seq<M>, i: nat, closed: nat, p: nat, total: nat)
    requires i < |ms|
    ensures SplitFrom(est, open, ms[i..], closed, p, total)
         == if closed + 1 < p && open != [] && (Tokens(est, open) + est(ms[i])) * p > total
            then [open] + SplitFrom(est, [ms[i]], ms[i + 1..], closed + 1, p, total)
            else SplitFrom(est, open + [ms[i]], ms[i + 1..], closed, p, total)
    ensures Tokens(est, [ms[i]]) == est(ms[i]) && Tokens(est, open + [ms[i]]) == Tokens(est, open) + est(ms[i])
  {
    assert ms[i..][1..] == ms[i + 1..];
    assert [ms[i]][1..] == [];
    TokensConcat(est, open, [ms[i]]);
  }

  lemma SplitFromEnd<M>(est: M -> nat, open: seq<M>, ms: seq<M>, closed: nat, p: nat, total: nat)
    ensures SplitFrom(est, open, ms[|ms|..], closed, p, total) == if open == [] then [] else [open]
    ensures ms[0..] == ms && [] + SplitFrom(est, open, ms, closed, p, total) == SplitFrom(est, open, ms, closed, p, total)
  {
  }

  method SplitMessagesByTokenShare<M>(est: M -> nat, messages: seq<M>, parts: Number) returns (chunks: seq<seq<M>>)
    ensures chunks == Split(est, messages, parts)
  {
    if messages == [] {
      return [];
    }
    var p := NormalizeParts(parts, |messages|);
    if p <= 1 {
      return [messages];
    }
    chunks := SplitLoop(est, messages, p);
  }

  method SplitLoop<M>(est: M -> nat, messages: seq<M>, p: nat) returns (chunks: seq<seq<M>>)
    requires messages != [] && p >= 2
    ensures chunks == SplitFrom(est, [], messages, 0, p, Tokens(est, messages))
  {
    var total := Tokens(est, messages);
    var current, currentTokens := [], 0;
    chunks := [];
    ghost var goal := SplitFrom(est, [], messages, 0, p, total);
    SplitFromEnd(est, [], messages, 0, p, total);
    for i := 0 to |messages|
      invariant currentTokens == Tokens(est, current) && |chunks| < p
      invariant chunks + SplitFrom(est, current, messages[i..], |chunks|, p, total) == goal
    {
      hide SplitFrom, Tokens;
      var messageTokens := est(messages[i]);
      SplitFromStep(est, current, messages, i, |chunks|, p, total);
      if |chunks| < p - 1 && current != [] && (currentTokens + messageTokens) * p > total {
        Regroup(chunks, [current], SplitFrom(est, [messages[i]], messages[i + 1..], |chunks| + 1, p, total));
        chunks := chunks + [current];
        current, currentTokens := [messages[i]], messageTokens;
      } else {
        current, currentTokens := current + [messages[i]], currentTokens + messageTokens;
      }
    }
    SplitFromEnd(est, current, messages, |chunks|, p, total);
    if current != [] {
      chunks := chunks + [current];
    } else {
      assert chunks + [] == chunks;
    }
  }

  // ---- shape of a split ----

  // A chunk closed before the last: its tokens are at most the share, or it is one message.
  ghost predicate WithinShare<M>(est: M -> nat, chunk: seq<M>, p: nat, total: nat) {
    |chunk| <= 1 || Tokens(est, chunk) * p <= total
  }

  ghost predicate AllNonEmpty<M>(chunks: seq<seq<M>>) {
    forall c <- chunks :: c != []
  }

  lemma {:induction false} SplitFromPartition<M>(est: M -> nat, open: seq<M>, rest: seq<M>, closed: nat, p: nat, total: nat)
    ensures Flatten(SplitFrom(est, open, rest, closed, p, total)) == open + rest
    ensures AllNonEmpty(SplitFrom(est, open, rest, closed, p, total))
    ensures closed < p ==> closed + |SplitFrom(est, open, rest, closed, p, total)| <= p
    decreases |rest|
  {
    if rest == [] {
      assert open + rest == open;
    } else if closed + 1 < p && open != [] && (Tokens(est, open) + est(rest[0])) * p > total {
      SplitFromPartition(est, [rest[0]], rest[1..], closed + 1, p, total);
      assert open + ([rest[0]] + rest[1..]) == open + rest;
    } else {
      SplitFromPartition(est, open + [rest[0]], rest[1..], closed, p, total);
      assert (open + [rest[0]]) + rest[1..] == open + rest;
    }
  }

  // All chunks but the last, and the last one too when the split stopped short of p chunks.
  ghost predicate EarlyWithinShare<M>(est: M -> nat, chunks: seq<seq<M>>, closed: nat, p: nat, total: nat) {
    forall k :: 0 <= k < |chunks| && (k + 1 < |chunks| || closed + |chunks| < p) ==> WithinShare(est, chunks[k], p, total)
  }

  lemma EarlyAfterClosing<M>(est: M -> nat, chunk: seq<M>, chunks: seq<seq<M>>, closed: nat, p: nat, total: nat)
    requires WithinShare(est, chunk, p, total) && EarlyWithinShare(est, chunks, closed + 1, p, total)
    ensures EarlyWithinShare(est, [chunk] + chunks, closed, p, total)
  {
    var all := [chunk] + chunks;
    forall k | 0 <= k < |all| && (k + 1 < |all| || closed + |all| < p) ensures WithinShare(est, all[k], p, total) {
      if k > 0 {
        assert all[k] == chunks[k - 1];
      }
    }
  }

  lemma {:induction false} SplitFromShares<M>(est: M -> nat, open: seq<M>, rest: seq<M>, closed: nat, p: nat, total: nat)
    requires closed + 1 < p ==> WithinShare(est, open, p, total)
    ensures EarlyWithinShare(est, SplitFrom(est, open, rest, closed, p, total), closed, p, total)
    decreases |rest|
  {
    if rest == [] {
    } else if closed + 1 < p && open != [] && (Tokens(est, open) + est(rest[0])) * p > total {
      SplitFromShares(est, [rest[0]], rest[1..], closed + 1, p, total);
      EarlyAfterClosing(est, open, SplitFrom(est, [rest[0]], rest[1..], closed + 1, p, total), closed, p, total);
    } else {
      TokensConcat(est, open, [rest[0]]);
      SplitFromShares(est, open + [rest[0]], rest[1..], closed, p, total);
    }
  }

  // ---- the balance bound ----

  ghost predicate AtMost<M>(est: M -> nat, ms: seq<M>, largest: nat) {
    forall m <- ms :: est(m) <= largest
  }

  // Tokens of each chunk, times p, are at most total + (p - 1) * (largest * p).
  ghost predicate Balanced<M>(est: M -> nat, chunks: seq<seq<M>>, p: nat, total: nat, slack: nat) {
    forall c <- chunks :: Tokens(est, c) * p <= total + (p - 1) * slack
  }

  // The closed chunks together hold at least their share, less one largest message each.
  ghost predicate EnoughClosed(closedTokens: nat, closed: nat, p: nat, total: nat, slack: nat) {
    closedTokens * p + closed * slack >= closed * total
  }

  lemma EnoughAfterClosing(closedTokens: nat, closed: nat, openTokens: nat, p: nat, total: nat, slack: nat)
    requires EnoughClosed(closedTokens, closed, p, total, slack) && openTokens * p + slack >= total
    ensures EnoughClosed(closedTokens + openTokens, closed + 1, p, total, slack)
  {
    assert (closedTokens + openTokens) * p == closedTokens * p + openTokens * p;
    assert (closed + 1) * slack == closed * slack + slack;
    assert (closed + 1) * total == closed * total + total;
  }

  lemma LastChunkBound(closedTokens: nat, openTokens: nat, p: nat, total: nat, slack: nat)
    requires p >= 1 && closedTokens + openTokens == total && EnoughClosed(closedTokens, p - 1, p, total, slack)
    ensures openTokens * p <= total + (p - 1) * slack
  {
    assert openTokens * p == total * p - closedTokens * p by {
      assert (closedTokens + openTokens) * p == closedTokens * p + openTokens * p;
    }
    assert (p - 1) * total == total * p - total;
  }

  lemma TimesGrows(a: nat, b: nat, n: nat)
    requires a <= b
    ensures a * n <= b * n
  {
  }

  lemma SmallChunkBound<M>(est: M -> nat, chunk: seq<M>, p: nat, total: nat, largest: nat)
    requires p >= 2 && WithinShare(est, chunk, p, total) && AtMost(est, chunk, largest)
    ensures Tokens(est, chunk) * p <= total + (p - 1) * (largest * p)
  {
    var slack := largest * p;
    TimesGrows(1, p - 1, slack);
    if |chunk| <= 1 {
      assert Tokens(est, chunk) <= largest by {
        assert |chunk| == 1 ==> chunk[0] in chunk && chunk[1..] == [];
      }
      TimesGrows(Tokens(est, chunk), largest, p);
    }
  }

  lemma ClosingIsEnough(openTokens: nat, next: nat, p: nat, total: nat, largest: nat)
    requires (openTokens + next) * p > total && next <= largest
    ensures openTokens * p + largest * p >= total
  {
    assert (openTokens + next) * p == openTokens * p + next * p;
    assert next * p <= largest * p;
  }

  lemma AtMostMoves<M>(est: M -> nat, open: seq<M>, rest: seq<M>, largest: nat)
    requires rest != [] && AtMost(est, open + rest, largest)
    ensures AtMost(est, open, largest) && AtMost(est, [rest[0]] + rest[1..], largest) && est(rest[0]) <= largest
    ensures open + [rest[0]] + rest[1..] == open + rest
  {
    assert forall m <- open :: m in open + rest;
    assert forall m <- rest :: m in open + rest;
    assert [rest[0]] + rest[1..] == rest && rest[0] in rest;
  }

  lemma TokensMove<M>(est: M -> nat, open: seq<M>, rest: seq<M>)
    requires rest != []
    ensures Tokens(est, open + rest) == Tokens(est, open) + Tokens(est, [rest[0]] + rest[1..])
    ensures Tokens(est, open + [rest[0]]) == Tokens(est, open) + est(rest[0])
    ensures Tokens(est, [rest[0]]) == est(rest[0])
  {
    assert [rest[0]] + rest[1..] == rest && [rest[0]][1..] == [];
    TokensConcat(est, open, rest);
    TokensConcat(est, open, [rest[0]]);
  }

  lemma {:induction false} SplitFromBalanced<M>(est: M -> nat, open: seq<M>, rest: seq<M>, closed: nat, closedTokens: nat,
                                                p: nat, total: nat, largest: nat)
    requires p >= 2 && closed < p && AtMost(est, open + rest, largest)
    requires closedTokens + Tokens(est, open + rest) == total
    requires EnoughClosed(closedTokens, closed, p, total, largest * p)
    requires closed + 1 < p ==> WithinShare(est, open, p, total)
    ensures Balanced(est, SplitFrom(est, open, rest, closed, p, total), p, total, largest * p)
    decreases |rest|
  {
    hide Tokens, AtMost, EnoughClosed;
    if rest == [] {
      assert open + rest == open;
      if closed + 1 < p {
        SmallChunkBound(est, open, p, total, largest);
      } else {
        LastChunkBound(closedTokens, Tokens(est, open), p, total, largest * p);
      }
    } else {
      AtMostMoves(est, open, rest, largest);
      TokensMove(est, open, rest);
      if closed + 1 < p && open != [] && (Tokens(est, open) + est(rest[0])) * p > total {
        SmallChunkBound(est, open, p, total, largest);
        ClosingIsEnough(Tokens(est, open), est(rest[0]), p, total, largest);
        EnoughAfterClosing(closedTokens, closed, Tokens(est, open), p, total, largest * p);
        SplitFromBalanced(est, [rest[0]], rest[1..], closed + 1, closedTokens + Tokens(est, open), p, total, largest);
      } else {
        SplitFromBalanced(est, open + [rest[0]], rest[1..], closed, closedTokens, p, total, largest);
      }
    }
  }

  // The split contract: a partition into at most p non-empty chunks, each but the last within
  // its share or a single message, and all of them within share + (p - 1) * largest.
  lemma SplitIsBalanced<M>(est: M -> nat, ms: seq<M>, parts: Number, largest: nat)
    requires ms != [] && AtMost(est, ms, largest)
    ensures var chunks, p := Split(est, ms, parts), NormalizeParts(parts, |ms|);
            && Flatten(chunks) == ms && AllNonEmpty(chunks) && 1 <= |chunks| <= p
            && (forall k :: 0 <= k < |chunks| - 1 ==> WithinShare(est, chunks[k], p, Tokens(est, ms)))
            && Balanced(est, chunks, p, Tokens(est, ms), largest * p)
  {
    var p := NormalizeParts(parts, |ms|);
    if p >= 2 {
      assert [] + ms == ms;
      SplitFromPartition(est, [], ms, 0, p, Tokens(est, ms));
      SplitFromShares(est, [], ms, 0, p, Tokens(est, ms));
      SplitFromBalanced(est, [], ms, 0, 0, p, Tokens(est, ms), largest);
    } else {
      assert Flatten([ms]) == ms + [];
    }
  }

  lemma {:induction false} SplitFromIsProper<M>(est: M -> nat, open: seq<M>, rest: seq<M>, p: nat, total: nat)
    requires p >= 2 && total > 0 && Tokens(est, open + rest) == total && |open + rest| >= 2
    requires WithinShare(est, open, p, total)
    ensures |SplitFrom(est, open, rest, 0, p, total)| >= 2
    decreases |rest|
  {
    TokensConcat(est, open, rest);
    assert total * p >= total * 2 && (rest == [] ==> open + rest == open);
    if rest == [] {
    } else if open != [] && (Tokens(est, open) + est(rest[0])) * p > total {
      SplitFromPartition(est, [rest[0]], rest[1..], 1, p, total);
    } else {
      TokensConcat(est, open, [rest[0]]);
      assert (open + [rest[0]]) + rest[1..] == open + rest;
      SplitFromIsProper(est, open + [rest[0]], rest[1..], p, total);
    }
  }

  // Two or more messages with tokens, and two or more parts, always give two or more chunks.
  lemma SplitIsProper<M>(est: M -> nat, ms: seq<M>, parts: Number)
    requires |ms| >= 2 && Tokens(est, ms) > 0 && NormalizeParts(parts, |ms|) >= 2
    ensures |Split(est, ms, parts)| >= 2
  {
    assert [] + ms == ms;
    SplitFromIsProper(est, [], ms, NormalizeParts(parts, |ms|), Tokens(est, ms));
  }

  // ---- pruning to a budget ----

  datatype Pruned<M> = Pruned(messages: seq<M>, dropped: seq<M>, droppedChunks: nat, droppedMessages: nat,
                              droppedTokens: nat, keptTokens: nat, budgetTokens: int)

  const DEFAULT_SHARE := 0.5
  const DEFAULT_PARTS := Finite(2.0)

  function BudgetTokens(maxContextTokens: real, share: Option<real>): (budget: int)
    ensures budget >= 1
  {
    var whole := (maxContextTokens * (if share.Some? then share.value else DEFAULT_SHARE)).Floor;
    if whole > 1 then whole else 1
  }

  // The chunks dropped from the front, oldest first.
  function DroppedChunks<M>(est: M -> nat, ms: seq<M>, p: nat, budget: int): seq<seq<M>>
    decreases |ms|
  {
    if ms == [] || Tokens(est, ms) <= budget then []
    else
      var chunks := Split(est, ms, Finite(p as real));
      if |chunks| <= 1 then []
      else
        FirstOfSplit(est, ms, Finite(p as real));
        [chunks[0]] + DroppedChunks(est, Flatten(chunks[1..]), p, budget)
  }

  lemma FirstOfSplit<M>(est: M -> nat, ms: seq<M>, parts: Number)
    requires ms != []
    ensures var chunks := Split(est, ms, parts);
            chunks != [] && chunks[0] != [] && chunks[0] + Flatten(chunks[1..]) == ms && AllNonEmpty(chunks)
  {
    SplitIsPartition(est, ms, parts);
    FlattenHead(Split(est, ms, parts));
  }

  lemma FlattenHead<M>(chunks: seq<seq<M>>)
    requires Flatten(chunks) != [] && AllNonEmpty(chunks)
    ensures chunks != [] && chunks[0] != [] && chunks[0] + Flatten(chunks[1..]) == Flatten(chunks)
  {
    assert chunks[0] in chunks;
  }

  lemma SplitIsPartition<M>(est: M -> nat, ms: seq<M>, parts: Number)
    ensures Flatten(Split(est, ms, parts)) == ms && AllNonEmpty(Split(est, ms, parts))
  {
    var p := NormalizeParts(parts, |ms|);
    if p >= 2 {
      assert [] + ms == ms;
      SplitFromPartition(est, [], ms, 0, p, Tokens(est, ms));
    } else if ms != [] {
      assert Flatten([ms]) == ms + Flatten([ms][1..]) == ms;
    }
  }

  function Kept<M>(est: M -> nat, ms: seq<M>, p: nat, budget: int): seq<M>
    decreases |ms|
  {
    if ms == [] || Tokens(est, ms) <= budget then ms
    else
      var chunks := Split(est, ms, Finite(p as real));
      if |chunks| <= 1 then ms
      else
        FirstOfSplit(est, ms, Finite(p as real));
        Kept(est, Flatten(chunks[1..]), p, budget)
  }

  function Parts(parts: Option<Number>, count: nat): nat {
    NormalizeParts(if parts.Some? then parts.value else DEFAULT_PARTS, count)
  }

  lemma PruneStep<M>(est: M -> nat, ms: seq<M>, p: nat, budget: int)
    requires ms != [] && Tokens(est, ms) > budget && |Split(est, ms, Finite(p as real))| > 1
    ensures var chunks := Split(est, ms, Finite(p as real));
            && DroppedChunks(est, ms, p, budget) == [chunks[0]] + DroppedChunks(est, Flatten(chunks[1..]), p, budget)
            && Kept(est, ms, p, budget) == Kept(est, Flatten(chunks[1..]), p, budget)
  {
    hide Split, Tokens, Flatten;
  }

  lemma PruneEnd<M>(est: M -> nat, ms: seq<M>, p: nat, budget: int)
    requires ms == [] || Tokens(est, ms) <= budget || |Split(est, ms, Finite(p as real))| <= 1
    ensures DroppedChunks(est, ms, p, budget) == [] && Kept(est, ms, p, budget) == ms
  {
    hide Split, Tokens, Flatten;
  }

  method PruneHistoryForContextShare<M>(est: M -> nat, messages: seq<M>, maxContextTokens: real, share: Option<real>, parts: Option<Number>)
      returns (r: Pruned<M>)
    ensures r.budgetTokens == BudgetTokens(maxContextTokens, share)
    ensures r.dropped == Flatten(DroppedChunks(est, messages, Parts(parts, |messages|), r.budgetTokens))
    ensures r.droppedChunks == |DroppedChunks(est, messages, Parts(parts, |messages|), r.budgetTokens)|
    ensures r.messages == Kept(est, messages, Parts(parts, |messages|), r.budgetTokens)
    ensures r.dropped + r.messages == messages
    ensures r.droppedMessages == |r.dropped|
    ensures r.droppedTokens == Tokens(est, r.dropped) && r.keptTokens == Tokens(est, r.messages)
  {
    var budget, p := BudgetTokens(maxContextTokens, share), Parts(parts, |messages|);
    var kept, dropped := messages, [];
    var chunkCount: nat, messageCount: nat, tokenCount: nat := 0, 0, 0;
    ghost var gone: seq<seq<M>>, all := [], DroppedChunks(est, messages, p, budget);
    assert Tokens(est, dropped) == 0 && Flatten(gone) == [];
    assert [] + all == all;
    hide Tokens, Flatten, Split, DroppedChunks, Kept, AllNonEmpty;
    while kept != [] && Tokens(est, kept) > budget
      invariant dropped + kept == messages && dropped == Flatten(gone)
      invariant chunkCount == |gone| && messageCount == |dropped| && tokenCount == Tokens(est, dropped)
      invariant gone + DroppedChunks(est, kept, p, budget) == all
      invariant Kept(est, kept, p, budget) == Kept(est, messages, p, budget)
      decreases |kept|
    {
      var chunks := SplitMessagesByTokenShare(est, kept, Finite(p as real));
      if |chunks| <= 1 {
        break;
      }
      FirstOfSplit(est, kept, Finite(p as real));
      PruneStep(est, kept, p, budget);
      TokensConcat(est, dropped, chunks[0]);
      FlattenSnoc(gone, chunks[0]);
      Regroup(dropped, chunks[0], Flatten(chunks[1..]));
      Regroup(gone, [chunks[0]], DroppedChunks(est, Flatten(chunks[1..]), p, budget));
      chunkCount, messageCount, tokenCount := chunkCount + 1, messageCount + |chunks[0]|, tokenCount + Tokens(est, chunks[0]);
      gone, dropped, kept := gone + [chunks[0]], dropped + chunks[0], Flatten(chunks[1..]);
    }
    PruneEnd(est, kept, p, budget);
    assert gone + [] == gone;
    r := Pruned(kept, dropped, chunkCount, messageCount, tokenCount, Tokens(est, kept), budget);
  }

  lemma FlattenSnoc<M>(chunks: seq<seq<M>>, last: seq<M>)
    ensures Flatten(chunks + [last]) == Flatten(chunks) + last
  {
    FlattenConcat(chunks, [last]);
    assert Flatten([last]) == last;
  }

  // With two or more parts, what is kept fits the budget or is a single message.
  lemma {:induction false} PruningReachesBudget<M>(est: M -> nat, ms: seq<M>, p: nat, budget: int)
    requires ms != [] && budget >= 1 && (p >= 2 || |ms| <= 1)
    ensures Kept(est, ms, p, budget) != []
    ensures Tokens(est, Kept(est, ms, p, budget)) <= budget || |Kept(est, ms, p, budget)| == 1
    decreases |ms|
  {
    var chunks := Split(est, ms, Finite(p as real));
    FirstOfSplit(est, ms, Finite(p as real));
    if Tokens(est, ms) > budget && |ms| >= 2 {
      SplitIsProper(est, ms, Finite(p as real));
      assert chunks[1] in chunks;
      PruningReachesBudget(est, Flatten(chunks[1..]), p, budget);
    }
  }

  // With fewer than two parts nothing is ever dropped, whatever the budget.
  lemma OnePartPrunesNothing<M>(est: M -> nat, ms: seq<M>, p: nat, budget: int)
    requires p <= 1
    ensures Kept(est, ms, p, budget) == ms && DroppedChunks(est, ms, p, budget) == []
  {
  }

  // Pruning stops as early as it can: each dropped chunk was dropped from a history over budget.
  lemma {:induction false} PruningIsNeeded<M>(est: M -> nat, ms: seq<M>, p: nat, budget: int, k: nat)
    requires k < |DroppedChunks(est, ms, p, budget)|
    ensures Tokens(est, Flatten(DroppedChunks(est, ms, p, budget)[k..]) + Kept(est, ms, p, budget)) > budget
    decreases |ms|
  {
    FirstOfSplit(est, ms, Finite(p as real));
    var rest := Flatten(Split(est, ms, Finite(p as real))[1..]);
    var dropped := DroppedChunks(est, ms, p, budget);
    assert dropped[1..] == DroppedChunks(est, rest, p, budget);
    DroppedThenKept(est, ms, p, budget);
    if k == 0 {
      assert dropped[0..] == dropped;
    } else {
      PruningIsNeeded(est, rest, p, budget, k - 1);
      assert dropped[k..] == dropped[1..][k - 1..];
    }
  }

  lemma {:induction false} DroppedThenKept<M>(est: M -> nat, ms: seq<M>, p: nat, budget: int)
    ensures Flatten(DroppedChunks(est, ms, p, budget)) + Kept(est, ms, p, budget) == ms
    decreases |ms|
  {
    if ms != [] && Tokens(est, ms) > budget {
      var chunks := Split(est, ms, Finite(p as real));
      if |chunks| > 1 {
        FirstOfSplit(est, ms, Finite(p as real));
        var rest := Flatten(chunks[1..]);
        DroppedThenKept(est, rest, p, budget);
        Regroup(chunks[0], Flatten(DroppedChunks(est, rest, p, budget)), Kept(est, rest, p, budget));
      }
    }
  }

  // ---- the split and the pruning, step by step ----

  // The number of parts: as given, rounded down, but at least one and at most one for each message.
  lemma NormalizeIs(parts: Number, count: nat)
    ensures parts.NotFinite? ==> NormalizeParts(parts, count) == 1
    ensures parts.Finite? && parts.value < 2.0 ==> NormalizeParts(parts, count) == 1
    ensures parts.Finite? && 1.0 < parts.value && parts.value.Floor <= count ==> NormalizeParts(parts, count) == parts.value.Floor
    ensures parts.Finite? && 1.0 < parts.value && 1 <= count < parts.value.Floor ==> NormalizeParts(parts, count) == count
  {
  }

  // The first message of the next chunk would have taken the chunk over the share.
  ghost predicate FullBefore<M>(est: M -> nat, chunk: seq<M>, next: seq<M>, p: nat, total: nat) {
    next != [] && (Tokens(est, chunk) + est(next[0])) * p > total
  }

  ghost predicate ClosedWhenFull<M>(est: M -> nat, chunks: seq<seq<M>>, p: nat, total: nat) {
    forall j, k :: 0 <= j && k == j + 1 && k < |chunks| ==> FullBefore(est, chunks[j], chunks[k], p, total)
  }

  // The first chunk starts with what is already in it, or with the next message.
  lemma {:induction false} SplitStartsWith<M>(est: M -> nat, open: seq<M>, rest: seq<M>, closed: nat, p: nat, total: nat)
    requires open != []
    ensures SplitFrom(est, open, rest, closed, p, total) != [] && open <= SplitFrom(est, open, rest, closed, p, total)[0]
    decreases |rest|
  {
    if rest != [] && !(closed + 1 < p && (Tokens(est, open) + est(rest[0])) * p > total) {
      SplitStartsWith(est, open + [rest[0]], rest[1..], closed, p, total);
    }
  }

  lemma ClosedFirst<M>(est: M -> nat, chunk: seq<M>, chunks: seq<seq<M>>, p: nat, total: nat)
    requires ClosedWhenFull(est, chunks, p, total) && chunks != [] && FullBefore(est, chunk, chunks[0], p, total)
    ensures ClosedWhenFull(est, [chunk] + chunks, p, total)
  {
    hide FullBefore;
    var all := [chunk] + chunks;
    forall j, k | 0 <= j && k == j + 1 && k < |all| ensures FullBefore(est, all[j], all[k], p, total) {
      assert all[k] == chunks[k - 1] && (j > 0 ==> all[j] == chunks[j - 1]);
    }
  }

  lemma {:induction false} SplitClosesFull<M>(est: M -> nat, open: seq<M>, rest: seq<M>, closed: nat, p: nat, total: nat)
    ensures ClosedWhenFull(est, SplitFrom(est, open, rest, closed, p, total), p, total)
    decreases |rest|
  {
    if rest == [] {
    } else if closed + 1 < p && open != [] && (Tokens(est, open) + est(rest[0])) * p > total {
      SplitClosesFull(est, [rest[0]], rest[1..], closed + 1, p, total);
      SplitStartsWith(est, [rest[0]], rest[1..], closed + 1, p, total);
      var later := SplitFrom(est, [rest[0]], rest[1..], closed + 1, p, total);
      assert later[0][0] == rest[0];
      ClosedFirst(est, open, later, p, total);
    } else {
      SplitClosesFull(est, open + [rest[0]], rest[1..], closed, p, total);
    }
  }

  // The split is greedy: no chunk is closed before the next message would take it over its share of
  // the tokens, and with fewer than two parts there is one chunk.
  lemma SplitIsGreedy<M>(est: M -> nat, ms: seq<M>, parts: Number)
    ensures var p, chunks := NormalizeParts(parts, |ms|), Split(est, ms, parts);
            ClosedWhenFull(est, chunks, p, Tokens(est, ms)) && (p < 2 && ms != [] ==> chunks == [ms])
  {
    if ms != [] {
      SplitClosesFull(est, [], ms, 0, NormalizeParts(parts, |ms|), Tokens(est, ms));
    }
  }

  // What is dropped each time is the first chunk of a split of what is left, and pruning ends only
  // within the budget, or when there is nothing to split.
  lemma {:induction false} DroppedIsFirstOfSplit<M>(est: M -> nat, ms: seq<M>, p: nat, budget: int, k: nat)
    requires k < |DroppedChunks(est, ms, p, budget)|
    ensures var left := Flatten(DroppedChunks(est, ms, p, budget)[k..]) + Kept(est, ms, p, budget);
            |Split(est, left, Finite(p as real))| > 1 && DroppedChunks(est, ms, p, budget)[k] == Split(est, left, Finite(p as real))[0]
    decreases |ms|
  {
    FirstOfSplit(est, ms, Finite(p as real));
    var rest := Flatten(Split(est, ms, Finite(p as real))[1..]);
    var dropped := DroppedChunks(est, ms, p, budget);
    assert dropped[1..] == DroppedChunks(est, rest, p, budget);
    DroppedThenKept(est, ms, p, budget);
    if k == 0 {
      assert dropped[0..] == dropped;
    } else {
      DroppedIsFirstOfSplit(est, rest, p, budget, k - 1);
      assert dropped[k..] == dropped[1..][k - 1..];
    }
  }

  lemma {:induction false} PruningEnds<M>(est: M -> nat, ms: seq<M>, p: nat, budget: int)
    ensures var kept := Kept(est, ms, p, budget); kept == [] || Tokens(est, kept) <= budget || |Split(est, kept, Finite(p as real))| <= 1
    decreases |ms|
  {
    if ms != [] && Tokens(est, ms) > budget && |Split(est, ms, Finite(p as real))| > 1 {
      FirstOfSplit(est, ms, Finite(p as real));
      PruningEnds(est, Flatten(Split(est, ms, Finite(p as real))[1..]), p, budget);
    }
  }

  // The budget is the share of the window, one half when none is given, rounded down but at least
  // one; without a number of parts there are two.
  lemma BudgetIs(maxContextTokens: real, share: Option<real>, parts: Option<Number>, count: nat)
    ensures var part, budget := if share.Some? then share.value else 0.5, BudgetTokens(maxContextTokens, share);
            budget >= 1 && budget >= (maxContextTokens * part).Floor && (budget == 1 || budget == (maxContextTokens * part).Floor)
    ensures Parts(parts, count) == NormalizeParts(if parts.Some? then parts.value else Finite(2.0), count)
  {
  }
}
