/** Cutting a message history into chunks by token counts, for any token estimate. */
module Compaction {
  import opened Wrappers

  function Tokens<M>(est: M -> nat, ms: seq<M>): nat {
    if ms == [] then 0 else est(ms[0]) + Tokens(est, ms[1..])
  }

  function Flatten<M>(chunks: seq<seq<M>>): seq<M> {
    if chunks == [] then [] else chunks[0] + Flatten(chunks[1..])
  }

  lemma {:induction false} TokensConcat<M>(est: M -> nat, a: seq<M>, b: seq<M>)
    ensures Tokens(est, a + b) == Tokens(est, a) + Tokens(est, b)
  {
    if a == [] {
      assert a + b == b;
    } else {
      assert (a + b)[1..] == a[1..] + b;
      TokensConcat(est, a[1..], b);
    }
  }

  lemma {:induction false} FlattenConcat<M>(a: seq<seq<M>>, b: seq<seq<M>>)
    ensures Flatten(a + b) == Flatten(a) + Flatten(b)
  {
    if a == [] {
      assert a + b == b;
    } else {
      assert (a + b)[1..] == a[1..] + b;
      FlattenConcat(a[1..], b);
    }
  }

  // ---- chunks of at most maxTokens ----

  // A chunk is within the limit, or is one message on its own.
  ghost predicate Fits<M>(est: M -> nat, chunk: seq<M>, maxTokens: int) {
    chunk != [] && (Tokens(est, chunk) <= maxTokens || |chunk| == 1)
  }

  ghost predicate AllFit<M>(est: M -> nat, chunks: seq<seq<M>>, maxTokens: int) {
    forall c <- chunks :: Fits(est, c, maxTokens)
  }

  function Fill<M>(est: M -> nat, ms: seq<M>, room: int): (n: nat)
    ensures n <= |ms|
  {
    if ms == [] || est(ms[0]) > room then 0 else 1 + Fill(est, ms[1..], room - est(ms[0]))
  }

  function FirstChunk<M>(est: M -> nat, ms: seq<M>, maxTokens: int): (n: nat)
    requires ms != []
    ensures 1 <= n <= |ms|
  {
    if est(ms[0]) > maxTokens then 1 else 1 + Fill(est, ms[1..], maxTokens - est(ms[0]))
  }

  function Chunks<M>(est: M -> nat, ms: seq<M>, maxTokens: int): seq<seq<M>>
    decreases |ms|
  {
    if ms == [] then []
    else
      var n := FirstChunk(est, ms, maxTokens);
      [ms[..n]] + Chunks(est, ms[n..], maxTokens)
  }

  lemma {:induction false} FillExactly<M>(est: M -> nat, filled: seq<M>, rest: seq<M>, room: int)
    requires Tokens(est, filled) <= room
    requires rest != [] ==> Tokens(est, filled) + est(rest[0]) > room
    ensures Fill(est, filled + rest, room) == |filled|
  {
    if filled == [] {
      assert filled + rest == rest;
    } else {
      assert (filled + rest)[1..] == filled[1..] + rest;
      FillExactly(est, filled[1..], rest, room - est(filled[0]));
    }
  }

  // A chunk that takes no further message is the first chunk.
  lemma ClosedChunkIsFirst<M>(est: M -> nat, chunk: seq<M>, rest: seq<M>, maxTokens: int)
    requires chunk != [] && Tokens(est, chunk) <= maxTokens
    requires rest != [] ==> Tokens(est, chunk) + est(rest[0]) > maxTokens
    ensures Chunks(est, chunk + rest, maxTokens) == [chunk] + Chunks(est, rest, maxTokens)
  {
    var all := chunk + rest;
    assert all[1..] == chunk[1..] + rest;
    FillExactly(est, chunk[1..], rest, maxTokens - est(chunk[0]));
    assert all[..|chunk|] == chunk && all[|chunk|..] == rest;
  }

  lemma OversizedIsFirst<M>(est: M -> nat, m: M, rest: seq<M>, maxTokens: int)
    requires est(m) > maxTokens
    ensures Chunks(est, [m] + rest, maxTokens) == [[m]] + Chunks(est, rest, maxTokens)
  {
    assert ([m] + rest)[1..] == rest && ([m] + rest)[..1] == [m];
  }

  // The final chunks, given the closed chunks, the open chunk and the messages to come.
  ghost function Outcome<M>(est: M -> nat, closed: seq<seq<M>>, open: seq<M>, rest: seq<M>, maxTokens: int): seq<seq<M>> {
    closed + Chunks(est, open + rest, maxTokens)
  }

  lemma OutcomeOfClosing<M>(est: M -> nat, closed: seq<seq<M>>, open: seq<M>, rest: seq<M>, maxTokens: int)
    requires open != [] && Tokens(est, open) <= maxTokens
    requires rest != [] ==> Tokens(est, open) + est(rest[0]) > maxTokens
    ensures Outcome(est, closed, open, rest, maxTokens) == Outcome(est, closed + [open], [], rest, maxTokens)
  {
    ClosedChunkIsFirst(est, open, rest, maxTokens);
    Regroup(closed, [open], Chunks(est, rest, maxTokens));
    assert [] + rest == rest;
  }

  lemma OutcomeOfOversized<M>(est: M -> nat, closed: seq<seq<M>>, m: M, rest: seq<M>, maxTokens: int)
    requires est(m) > maxTokens
    ensures Outcome(est, closed, [m], rest, maxTokens) == Outcome(est, closed + [[m]], [], rest, maxTokens)
  {
    OversizedIsFirst(est, m, rest, maxTokens);
    Regroup(closed, [[m]], Chunks(est, rest, maxTokens));
    assert [] + rest == rest;
  }

  lemma OutcomeOfTaking<M>(est: M -> nat, closed: seq<seq<M>>, open: seq<M>, ms: seq<M>, i: nat, maxTokens: int)
    requires i < |ms|
    ensures Outcome(est, closed, open, ms[i..], maxTokens) == Outcome(est, closed, open + [ms[i]], ms[i + 1..], maxTokens)
    ensures Tokens(est, open + [ms[i]]) == Tokens(est, open) + est(ms[i])
  {
    assert open + ms[i..] == (open + [ms[i]]) + ms[i + 1..];
    TokensConcat(est, open, [ms[i]]);
  }

  method ChunkMessagesByMaxTokens<M>(est: M -> nat, messages: seq<M>, maxTokens: int) returns (chunks: seq<seq<M>>)
    ensures chunks == Chunks(est, messages, maxTokens)
  {
    chunks := [];
    if messages == [] {
      return;
    }
    var current, currentTokens := [], 0;
    assert [] + messages[0..] == messages;
    for i := 0 to |messages|
      invariant currentTokens == Tokens(est, current)
      invariant current != [] ==> currentTokens <= maxTokens
      invariant Outcome(est, chunks, current, messages[i..], maxTokens) == Chunks(est, messages, maxTokens)
    {
      var messageTokens := est(messages[i]);
      if current != [] && currentTokens + messageTokens > maxTokens {
        OutcomeOfClosing(est, chunks, current, messages[i..], maxTokens);
        chunks := chunks + [current];
        current, currentTokens := [], 0;
      }
      OutcomeOfTaking(est, chunks, current, messages, i, maxTokens);
      current := current + [messages[i]];
      currentTokens := currentTokens + messageTokens;
      if messageTokens > maxTokens {
        assert current == [messages[i]];
        OutcomeOfOversized(est, chunks, messages[i], messages[i + 1..], maxTokens);
        chunks := chunks + [current];
        current, currentTokens := [], 0;
      }
    }
    assert messages[|messages|..] == [];
    if current != [] {
      OutcomeOfClosing(est, chunks, current, [], maxTokens);
      chunks := chunks + [current];
    }
  }

  // ---- greedy chunking is optimal ----

  lemma {:induction false} FillWithinRoom<M>(est: M -> nat, ms: seq<M>, room: int)
    requires room >= 0
    ensures Tokens(est, ms[..Fill(est, ms, room)]) <= room
  {
    if ms != [] && est(ms[0]) <= room {
      var n := Fill(est, ms[1..], room - est(ms[0]));
      FillWithinRoom(est, ms[1..], room - est(ms[0]));
      assert ms[..1 + n][1..] == ms[1..][..n];
    }
  }

  lemma {:induction false} FillIsMaximal<M>(est: M -> nat, ms: seq<M>, room: int, j: nat)
    requires j <= |ms| && Tokens(est, ms[..j]) <= room
    ensures Fill(est, ms, room) >= j
  {
    if j > 0 {
      assert ms[..j][1..] == ms[1..][..j - 1];
      FillIsMaximal(est, ms[1..], room - est(ms[0]), j - 1);
    }
  }

  lemma FirstChunkFits<M>(est: M -> nat, ms: seq<M>, maxTokens: int)
    requires ms != []
    ensures Fits(est, ms[..FirstChunk(est, ms, maxTokens)], maxTokens)
    ensures FirstChunk(est, ms, maxTokens) > 1 ==> Tokens(est, ms[..FirstChunk(est, ms, maxTokens)]) <= maxTokens
  {
    if est(ms[0]) <= maxTokens {
      var n := Fill(est, ms[1..], maxTokens - est(ms[0]));
      FillWithinRoom(est, ms[1..], maxTokens - est(ms[0]));
      assert ms[..1 + n][1..] == ms[1..][..n];
    }
  }

  lemma FirstChunkIsLongest<M>(est: M -> nat, ms: seq<M>, maxTokens: int, j: nat)
    requires 1 <= j <= |ms| && Fits(est, ms[..j], maxTokens)
    ensures j <= FirstChunk(est, ms, maxTokens)
  {
    if j > 1 {
      assert ms[..j][1..] == ms[1..][..j - 1];
      FillIsMaximal(est, ms[1..], maxTokens - est(ms[0]), j - 1);
    }
  }

  lemma ChunksFirst<M>(est: M -> nat, ms: seq<M>, maxTokens: int)
    requires ms != []
    ensures var n := FirstChunk(est, ms, maxTokens);
            Chunks(est, ms, maxTokens) == [ms[..n]] + Chunks(est, ms[n..], maxTokens)
  {
    hide FirstChunk;
  }

  lemma FlattenFirst<M>(chunk: seq<M>, others: seq<seq<M>>)
    ensures Flatten([chunk] + others) == chunk + Flatten(others)
  {
    assert ([chunk] + others)[1..] == others;
  }

  lemma AllFitFirst<M>(est: M -> nat, chunk: seq<M>, others: seq<seq<M>>, maxTokens: int)
    ensures AllFit(est, [chunk] + others, maxTokens) <==> Fits(est, chunk, maxTokens) && AllFit(est, others, maxTokens)
  {
    hide Fits;
    var all := [chunk] + others;
    assert all[0] == chunk && forall k :: 0 <= k < |others| ==> all[k + 1] == others[k];
  }

  lemma NothingFits<M>(est: M -> nat, maxTokens: int)
    ensures AllFit(est, [], maxTokens)
  {
  }

  lemma CutAndJoin<M>(ms: seq<M>, n: nat)
    requires n <= |ms|
    ensures ms[..n] + ms[n..] == ms
  {
  }

  // The chunks are a partition of the input into pieces that fit.
  lemma {:induction false} ChunksPartition<M>(est: M -> nat, ms: seq<M>, maxTokens: int)
    ensures Flatten(Chunks(est, ms, maxTokens)) == ms && AllFit(est, Chunks(est, ms, maxTokens), maxTokens)
    decreases |ms|
  {
    hide *;
    if ms == [] {
      NothingToCut(est, maxTokens);
      NothingFits(est, maxTokens);
    } else {
      var n := FirstChunk(est, ms, maxTokens);
      var later := Chunks(est, ms[n..], maxTokens);
      FirstChunkFits(est, ms, maxTokens);
      ChunksPartition(est, ms[n..], maxTokens);
      ChunksFirst(est, ms, maxTokens);
      FlattenFirst(ms[..n], later);
      AllFitFirst(est, ms[..n], later, maxTokens);
      CutAndJoin(ms, n);
    }
  }

  // Dropping messages from the front never needs more chunks.
  lemma {:induction false} SuffixNeedsNoMore<M>(est: M -> nat, ms: seq<M>, maxTokens: int, k: nat)
    requires k <= |ms|
    ensures |Chunks(est, ms[k..], maxTokens)| <= |Chunks(est, ms, maxTokens)|
    decreases |ms|
  {
    hide *;
    if k == 0 {
      assert ms[k..] == ms;
    } else if k == |ms| {
      assert ms[k..] == [];
      NothingToCut(est, maxTokens);
    } else {
      var n := FirstChunk(est, ms, maxTokens);
      ChunksFirst(est, ms, maxTokens);
      if k >= n {
        assert ms[n..][k - n..] == ms[k..];
        SuffixNeedsNoMore(est, ms[n..], maxTokens, k - n);
      } else {
        var s := ms[k..];
        var n' := FirstChunk(est, s, maxTokens);
        SuffixReachesFurther(est, ms, maxTokens, k);
        ChunksFirst(est, s, maxTokens);
        assert s[n'..] == ms[n..][k + n' - n..];
        SuffixNeedsNoMore(est, ms[n..], maxTokens, k + n' - n);
      }
    }
  }

  // The first chunk of a suffix that starts inside the first chunk ends no earlier.
  lemma SuffixReachesFurther<M>(est: M -> nat, ms: seq<M>, maxTokens: int, k: nat)
    requires 0 < k < |ms| && k < FirstChunk(est, ms, maxTokens)
    ensures FirstChunk(est, ms, maxTokens) <= k + FirstChunk(est, ms[k..], maxTokens)
  {
    hide FirstChunk;
    var n, s := FirstChunk(est, ms, maxTokens), ms[k..];
    FirstChunkFits(est, ms, maxTokens);
    TokensConcat(est, ms[..k], ms[k..n]);
    assert ms[..k] + ms[k..n] == ms[..n] && s[..n - k] == ms[k..n];
    FirstChunkIsLongest(est, s, maxTokens, n - k);
  }

  lemma NothingToCut<M>(est: M -> nat, maxTokens: int)
    ensures Flatten<M>([]) == [] && Chunks(est, [], maxTokens) == []
  {
  }

  lemma CutAfter<T>(a: seq<T>, b: seq<T>)
    ensures (a + b)[..|a|] == a && (a + b)[|a|..] == b
  {
  }

  lemma PartitionFirst<M>(est: M -> nat, ms: seq<M>, maxTokens: int, partition: seq<seq<M>>)
    requires partition != [] && Flatten(partition) == ms && AllFit(est, partition, maxTokens)
    ensures var first, others := partition[0], partition[1..];
            && 1 <= |first| <= |ms| && Fits(est, ms[..|first|], maxTokens)
            && Flatten(others) == ms[|first|..] && AllFit(est, others, maxTokens)
  {
    hide Tokens, Flatten, AllFit;
    var first, others := partition[0], partition[1..];
    assert partition == [first] + others;
    FlattenFirst(first, others);
    AllFitFirst(est, first, others, maxTokens);
    CutAfter(first, Flatten(others));
  }

  // No partition of the input into pieces that fit has fewer pieces.
  lemma {:induction false} ChunksAreFewest<M>(est: M -> nat, ms: seq<M>, maxTokens: int, partition: seq<seq<M>>)
    requires Flatten(partition) == ms && AllFit(est, partition, maxTokens)
    ensures |Chunks(est, ms, maxTokens)| <= |partition|
    decreases |partition|
  {
    hide *;
    if partition == [] {
      NothingToCut(est, maxTokens);
    } else {
      PartitionFirst(est, ms, maxTokens, partition);
      var k, n := |partition[0]|, FirstChunk(est, ms, maxTokens);
      ChunksFirst(est, ms, maxTokens);
      FirstChunkIsLongest(est, ms, maxTokens, k);
      ChunksAreFewest(est, ms[k..], maxTokens, partition[1..]);
      assert ms[k..][n - k..] == ms[n..];
      SuffixNeedsNoMore(est, ms[k..], maxTokens, n - k);
    }
  }
}
