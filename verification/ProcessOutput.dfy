/** Capped output buffers of a running process, and the streams they are the ends of. */
module ProcessOutput {
  import opened Wrappers

  const DEFAULT_PENDING_CHARS := 30000
  const TAIL_CHARS := 2000

  datatype Stream = Stdout | Stderr

  // The last n characters of a text.
  function Last(s: string, n: nat): string {
    if |s| <= n then s else s[|s| - n..]
  }

  function Join(pieces: seq<string>): string {
    if pieces == [] then "" else pieces[0] + Join(pieces[1..])
  }

  lemma {:induction false} JoinConcat(a: seq<string>, b: seq<string>)
    ensures Join(a + b) == Join(a) + Join(b)
  {
    if a == [] {
      assert a + b == b;
    } else {
      assert (a + b)[1..] == a[1..] + b;
      JoinConcat(a[1..], b);
    }
  }

  lemma JoinSnoc(pieces: seq<string>, piece: string)
    ensures Join(pieces + [piece]) == Join(pieces) + piece
  {
    JoinConcat(pieces, [piece]);
    assert Join([piece]) == piece;
  }

  lemma LastLength(s: string, n: nat)
    ensures |Last(s, n)| == Min(|s|, n)
  {
  }

  // Capping as the text arrives keeps the same end as capping the whole text once.
  lemma LastOfLast(s: string, t: string, n: nat)
    ensures Last(Last(s, n) + t, n) == Last(s + t, n)
  {
  }

  ghost predicate IsEnd(all: string, end: string) {
    |end| <= |all| && all[|all| - |end|..] == end
  }

  // Dropping the first part of an end of a text leaves a shorter end.
  lemma EndWithoutFirst(all: string, first: string, others: string)
    requires IsEnd(all, first + others)
    ensures IsEnd(all, others)
  {
    var s := first + others;
    assert s[|first|..] == others;
    assert all[|all| - |s|..][|first|..] == all[|all| - |others|..];
  }

  lemma LastPieceLongEnough(buffer: seq<string>, cap: nat)
    requires buffer != [] && |buffer[|buffer| - 1]| >= cap
    ensures var last := buffer[|buffer| - 1]; Last(Join(buffer), cap) == last[|last| - cap..]
  {
    var front, last := Join(buffer[..|buffer| - 1]), buffer[|buffer| - 1];
    assert buffer == buffer[..|buffer| - 1] + [last];
    JoinSnoc(buffer[..|buffer| - 1], last);
    LastWithin(front, last, cap);
  }

  lemma LastWithin(front: string, last: string, cap: nat)
    requires |last| >= cap
    ensures Last(front + last, cap) == last[|last| - cap..]
  {
  }

  lemma JoinFirst(pieces: seq<string>, overflow: nat)
    requires pieces != [] && overflow <= |pieces[0]|
    ensures Join([pieces[0][overflow..]] + pieces[1..]) == Join(pieces)[overflow..]
  {
    var cut := [pieces[0][overflow..]] + pieces[1..];
    assert cut[1..] == pieces[1..];
    assert (pieces[0] + Join(pieces[1..]))[overflow..] == pieces[0][overflow..] + Join(pieces[1..]);
  }

  lemma JoinOne(piece: string)
    ensures Join([piece]) == piece
  {
    assert [piece][1..] == [];
  }

  lemma JoinStep(pieces: seq<string>)
    ensures pieces == [] ==> Join(pieces) == ""
    ensures pieces != [] ==> Join(pieces) == pieces[0] + Join(pieces[1..])
  {
  }

  // An end of the text that is long enough, cut down to n characters.
  lemma LastOfEnd(all: string, end: string, n: nat)
    requires IsEnd(all, end) && n <= |end|
    ensures Last(all, n) == end[|end| - n..]
  {
    assert all[|all| - |end|..][|end| - n..] == all[|all| - n..];
  }

  lemma WholeIsEnd(all: string)
    ensures IsEnd(all, all)
  {
  }

  lemma ShortIsKept(all: string, n: nat)
    requires |all| <= n
    ensures Last(all, n) == all
  {
  }

  method CapPendingBuffer(buffer: seq<string>, pendingChars: nat, cap: nat) returns (capped: seq<string>, chars: nat)
    requires pendingChars == |Join(buffer)|
    ensures Join(capped) == Last(Join(buffer), cap) && chars == |Join(capped)|
  {
    hide Join, Last, IsEnd;
    capped, chars := buffer, pendingChars;
    if pendingChars <= cap {
      ShortIsKept(Join(buffer), cap);
      return;
    }
    JoinStep(buffer);
    var last := buffer[|buffer| - 1];
    if last != "" && |last| >= cap {
      capped, chars := [last[|last| - cap..]], cap;
      LastPieceLongEnough(buffer, cap);
      JoinOne(last[|last| - cap..]);
      return;
    }
    ghost var all := Join(buffer);
    WholeIsEnd(all);
    while capped != [] && chars - |capped[0]| >= cap
      invariant chars == |Join(capped)| && cap <= chars && IsEnd(all, Join(capped))
      decreases |capped|
    {
      JoinStep(capped);
      EndWithoutFirst(all, capped[0], Join(capped[1..]));
      chars := chars - |capped[0]|;
      capped := capped[1..];
    }
    JoinStep(capped);
    LastOfEnd(all, Join(capped), cap);
    if capped != [] && chars > cap {
      var overflow := chars - cap;
      JoinFirst(capped, overflow);
      capped := [capped[0][overflow..]] + capped[1..];
      chars := cap;
    }
  }

  method PushCapped(buffer: seq<string>, pendingChars: nat, chunk: string, cap: nat)
      returns (pushed: seq<string>, chars: nat, over: bool)
    requires pendingChars == |Join(buffer)|
    ensures Join(pushed) == Last(Join(buffer) + chunk, cap) && chars == |Join(pushed)|
    ensures over <==> |Join(buffer) + chunk| > cap
  {
    JoinSnoc(buffer, chunk);
    pushed, chars, over := buffer + [chunk], pendingChars + |chunk|, false;
    if chars > cap {
      over := true;
      pushed, chars := CapPendingBuffer(pushed, chars, cap);
    }
  }

  method ChunkString(input: string, limit: nat) returns (pieces: seq<string>)
    requires limit > 0
    ensures Join(pieces) == input
    ensures forall p <- pieces :: 0 < |p| <= limit
  {
    pieces := [];
    var i := 0;
    while i < |input|
      invariant i <= |input| + limit
      invariant Join(pieces) == input[..Min(i, |input|)]
      invariant forall p <- pieces :: 0 < |p| <= limit
    {
      var end := Min(i + limit, |input|);
      JoinSnoc(pieces, input[i..end]);
      pieces := pieces + [input[i..end]];
      i := i + limit;
    }
  }

  // ---- the session as text ----

  // What the buffers hold, as text; the counters are the lengths.
  datatype Buffers = Buffers(stdout: string, stderr: string, aggregated: string, truncated: bool, total: nat)

  datatype Limits = Limits(maxOutputChars: nat, pendingMaxOutputChars: Option<nat>)

  function PendingCap(limits: Limits): nat {
    Min(if limits.pendingMaxOutputChars.Some? then limits.pendingMaxOutputChars.value else DEFAULT_PENDING_CHARS, limits.maxOutputChars)
  }

  // A pending buffer holds no more than asked for, thirty thousand characters when nothing is, and no
  // more than the whole output may.
  lemma PendingCapIs(limits: Limits)
    ensures PendingCap(limits) <= limits.maxOutputChars && TAIL_CHARS == 2000
    ensures match limits.pendingMaxOutputChars
            case None => PendingCap(limits) <= 30000 && PendingCap(limits) in {30000, limits.maxOutputChars}
            case Some(n) => PendingCap(limits) <= n && PendingCap(limits) in {n, limits.maxOutputChars}
  {
  }

  function Pending(b: Buffers, stream: Stream): string {
    if stream.Stdout? then b.stdout else b.stderr
  }

  function Appended(limits: Limits, b: Buffers, stream: Stream, chunk: string): Buffers {
    var whole, cap := Pending(b, stream) + chunk, PendingCap(limits);
    Buffers(if stream.Stdout? then Last(whole, cap) else b.stdout,
            if stream.Stderr? then Last(whole, cap) else b.stderr,
            Last(b.aggregated + chunk, limits.maxOutputChars),
            b.truncated || |whole| > cap || |b.aggregated + chunk| > limits.maxOutputChars,
            b.total + |chunk|)
  }

  function Drained(b: Buffers): Buffers {
    b.(stdout := "", stderr := "")
  }

  class ProcessSession {
    const limits: Limits
    var totalOutputChars: nat
    var pendingStdout: seq<string>
    var pendingStderr: seq<string>
    var pendingStdoutChars: nat
    var pendingStderrChars: nat
    var aggregated: string
    var tail: string
    var truncated: bool

    // The counters are exact, and the tail is the end of the aggregated text.
    ghost predicate Valid()
      reads this
    {
      && pendingStdoutChars == |Join(pendingStdout)|
      && pendingStderrChars == |Join(pendingStderr)|
      && tail == Last(aggregated, TAIL_CHARS)
    }

    function Text(): Buffers
      reads this
    {
      Buffers(Join(pendingStdout), Join(pendingStderr), aggregated, truncated, totalOutputChars)
    }

    constructor (limits: Limits)
      ensures Valid() && this.limits == limits && Text() == EMPTY
    {
      this.limits := limits;
      totalOutputChars, pendingStdout, pendingStderr := 0, [], [];
      pendingStdoutChars, pendingStderrChars := 0, 0;
      aggregated, tail, truncated := "", "", false;
    }

    method AppendOutput(stream: Stream, chunk: string)
      requires Valid()
      modifies this
      ensures Valid() && Text() == Appended(limits, old(Text()), stream, chunk)
    {
      hide PendingCap, Last, Join;
      LastLength(aggregated + chunk, limits.maxOutputChars);
      var cap := PendingCap(limits);
      var over;
      if stream.Stdout? {
        pendingStdout, pendingStdoutChars, over := PushCapped(pendingStdout, pendingStdoutChars, chunk, cap);
      } else {
        pendingStderr, pendingStderrChars, over := PushCapped(pendingStderr, pendingStderrChars, chunk, cap);
      }
      truncated := truncated || over;
      totalOutputChars := totalOutputChars + |chunk|;
      var next := Last(aggregated + chunk, limits.maxOutputChars);
      truncated := truncated || |next| < |aggregated| + |chunk|;
      aggregated := next;
      tail := Last(aggregated, TAIL_CHARS);
    }

    method DrainSession() returns (stdout: string, stderr: string)
      requires Valid()
      modifies this
      ensures Valid() && Text() == Drained(old(Text()))
      ensures stdout == old(Text()).stdout && stderr == old(Text()).stderr
    {
      stdout, stderr := Join(pendingStdout), Join(pendingStderr);
      pendingStdout, pendingStderr := [], [];
      pendingStdoutChars, pendingStderrChars := 0, 0;
    }
  }

  const EMPTY := Buffers("", "", "", false, 0)

  // ---- whole runs ----

  datatype Event = Append(stream: Stream, chunk: string) | Drain

  function After(limits: Limits, b: Buffers, events: seq<Event>): Buffers
    decreases |events|
  {
    if events == [] then b
    else
      match events[0]
      case Append(stream, chunk) => After(limits, Appended(limits, b, stream, chunk), events[1..])
      case Drain => After(limits, Drained(b), events[1..])
  }

  // The text written to a stream since the last drain, after what was written before.
  function SinceDrain(before: string, stream: Stream, events: seq<Event>): string
    decreases |events|
  {
    if events == [] then before
    else
      match events[0]
      case Append(s, chunk) => SinceDrain(if s == stream then before + chunk else before, stream, events[1..])
      case Drain => SinceDrain("", stream, events[1..])
  }

  function Written(events: seq<Event>): string {
    if events == [] then ""
    else (if events[0].Append? then events[0].chunk else "") + Written(events[1..])
  }

  function WrittenTo(stream: Stream, events: seq<Event>): string {
    if events == [] then ""
    else (if events[0].Append? && events[0].stream == stream then events[0].chunk else "") + WrittenTo(stream, events[1..])
  }

  // What the drains handed out for a stream, in order.
  function DrainedTo(limits: Limits, b: Buffers, stream: Stream, events: seq<Event>): string
    decreases |events|
  {
    if events == [] then ""
    else
      match events[0]
      case Append(s, chunk) => DrainedTo(limits, Appended(limits, b, s, chunk), stream, events[1..])
      case Drain => Pending(b, stream) + DrainedTo(limits, Drained(b), stream, events[1..])
  }

  // Each pending buffer is the capped end of its stream since the last drain.
  lemma {:induction false} PendingIsEndOfStream(limits: Limits, b: Buffers, before: string, stream: Stream, events: seq<Event>)
    requires Pending(b, stream) == Last(before, PendingCap(limits))
    ensures Pending(After(limits, b, events), stream) == Last(SinceDrain(before, stream, events), PendingCap(limits))
    decreases |events|
  {
    if events != [] {
      match events[0]
      case Append(s, chunk) =>
        LastOfLast(before, chunk, PendingCap(limits));
        PendingIsEndOfStream(limits, Appended(limits, b, s, chunk), if s == stream then before + chunk else before, stream, events[1..]);
      case Drain =>
        PendingIsEndOfStream(limits, Drained(b), "", stream, events[1..]);
    }
  }

  // The aggregated text is the capped end of all output, and the total is its length.
  lemma {:induction false} AggregatedIsEndOfOutput(limits: Limits, b: Buffers, before: string, events: seq<Event>)
    requires b.aggregated == Last(before, limits.maxOutputChars) && b.total == |before|
    ensures After(limits, b, events).aggregated == Last(before + Written(events), limits.maxOutputChars)
    ensures After(limits, b, events).total == |before + Written(events)|
    decreases |events|
  {
    if events == [] {
      assert before + Written(events) == before;
    } else {
      match events[0]
      case Append(s, chunk) =>
        LastOfLast(before, chunk, limits.maxOutputChars);
        AggregatedIsEndOfOutput(limits, Appended(limits, b, s, chunk), before + chunk, events[1..]);
        Regroup(before, chunk, Written(events[1..]));
      case Drain =>
        AggregatedIsEndOfOutput(limits, Drained(b), before, events[1..]);
        assert "" + Written(events[1..]) == Written(events[1..]);
    }
  }

  // The run loses a character exactly when some buffer overflows its cap at some point.
  ghost predicate Overflows(limits: Limits, out: string, err: string, all: string, events: seq<Event>)
    decreases |events|
  {
    && events != []
    && match events[0]
       case Append(s, chunk) =>
         var out' := if s.Stdout? then out + chunk else out;
         var err' := if s.Stderr? then err + chunk else err;
         || |out'| > PendingCap(limits) || |err'| > PendingCap(limits) || |all + chunk| > limits.maxOutputChars
         || Overflows(limits, out', err', all + chunk, events[1..])
       case Drain => Overflows(limits, "", "", all, events[1..])
  }

  lemma {:induction false} TruncatedStays(limits: Limits, b: Buffers, events: seq<Event>)
    requires b.truncated
    ensures After(limits, b, events).truncated
    decreases |events|
  {
    if events != [] {
      match events[0]
      case Append(s, chunk) => TruncatedStays(limits, Appended(limits, b, s, chunk), events[1..]);
      case Drain => TruncatedStays(limits, Drained(b), events[1..]);
    }
  }

  lemma {:induction false} TruncatedIffOverflows(limits: Limits, b: Buffers, events: seq<Event>)
    requires !b.truncated && |b.stdout| <= PendingCap(limits) && |b.stderr| <= PendingCap(limits)
    requires |b.aggregated| <= limits.maxOutputChars
    ensures After(limits, b, events).truncated <==> Overflows(limits, b.stdout, b.stderr, b.aggregated, events)
    decreases |events|
  {
    if events != [] {
      match events[0]
      case Append(s, chunk) =>
        var next := Appended(limits, b, s, chunk);
        if next.truncated {
          TruncatedStays(limits, next, events[1..]);
        } else {
          TruncatedIffOverflows(limits, next, events[1..]);
        }
      case Drain => TruncatedIffOverflows(limits, Drained(b), events[1..]);
    }
  }

  lemma DrainedFirst(limits: Limits, b: Buffers, stream: Stream, events: seq<Event>)
    requires events != []
    ensures var rest, first := events[1..], events[0];
            var next := if first.Append? then Appended(limits, b, first.stream, first.chunk) else Drained(b);
            && After(limits, b, events) == After(limits, next, rest)
            && DrainedTo(limits, b, stream, events) == (if first.Append? then "" else Pending(b, stream)) + DrainedTo(limits, next, stream, rest)
            && WrittenTo(stream, events) == (if first.Append? && first.stream == stream then first.chunk else "") + WrittenTo(stream, rest)
  {
    hide Appended, Drained;
    var first := events[0];
    if first.Append? {
      var later := DrainedTo(limits, Appended(limits, b, first.stream, first.chunk), stream, events[1..]);
      assert "" + later == later;
    }
  }

  lemma UntruncatedAppend(limits: Limits, b: Buffers, s: Stream, chunk: string, stream: Stream)
    requires !Appended(limits, b, s, chunk).truncated
    ensures Pending(Appended(limits, b, s, chunk), stream) == Pending(b, stream) + if s == stream then chunk else ""
  {
  }

  // While nothing was truncated, the drained text and what is still pending are the whole stream.
  lemma {:induction false} UntruncatedLosesNothing(limits: Limits, b: Buffers, stream: Stream, events: seq<Event>)
    requires !After(limits, b, events).truncated
    ensures DrainedTo(limits, b, stream, events) + Pending(After(limits, b, events), stream)
         == Pending(b, stream) + WrittenTo(stream, events)
    decreases |events|
  {
    if events == [] {
      assert "" + Pending(b, stream) == Pending(b, stream) + "";
    } else {
      hide *;
      var rest, end := events[1..], Pending(After(limits, b, events), stream);
      DrainedFirst(limits, b, stream, events);
      match events[0]
      case Append(s, chunk) =>
        var next := Appended(limits, b, s, chunk);
        if next.truncated {
          TruncatedStays(limits, next, rest);
        }
        UntruncatedLosesNothing(limits, next, stream, rest);
        UntruncatedAppend(limits, b, s, chunk, stream);
        Regroup("", DrainedTo(limits, next, stream, rest), end);
        Regroup(Pending(b, stream), if s == stream then chunk else "", WrittenTo(stream, rest));
        assert "" + (Pending(next, stream) + WrittenTo(stream, rest)) == Pending(next, stream) + WrittenTo(stream, rest);
      case Drain =>
        UntruncatedLosesNothing(limits, Drained(b), stream, rest);
        DrainedIsEmpty(b, stream);
        Regroup(Pending(b, stream), DrainedTo(limits, Drained(b), stream, rest), end);
        Regroup(Pending(b, stream), "", WrittenTo(stream, rest));
        assert Pending(b, stream) + "" == Pending(b, stream);
    }
  }

  lemma DrainedIsEmpty(b: Buffers, stream: Stream)
    ensures Pending(Drained(b), stream) == ""
  {
  }

  function Appends(stream: Stream, pieces: seq<string>): seq<Event> {
    if pieces == [] then [] else [Append(stream, pieces[0])] + Appends(stream, pieces[1..])
  }

  // Buffers within their caps, as every run from EMPTY leaves them.
  ghost predicate WithinCaps(limits: Limits, b: Buffers) {
    |b.stdout| <= PendingCap(limits) && |b.stderr| <= PendingCap(limits) && |b.aggregated| <= limits.maxOutputChars
  }

  lemma LastTwice(s: string, first: string, second: string, n: nat)
    requires |s| <= n
    ensures Last(Last(s + first, n) + second, n) == Last(s + (first + second), n)
    ensures |s + first| > n || |Last(s + first, n) + second| > n <==> |s + (first + second)| > n
  {
    LastOfLast(s + first, second, n);
    Regroup(s, first, second);
  }

  lemma AppendTwice(limits: Limits, b: Buffers, stream: Stream, first: string, second: string)
    requires WithinCaps(limits, b)
    ensures Appended(limits, Appended(limits, b, stream, first), stream, second) == Appended(limits, b, stream, first + second)
  {
    hide Last, PendingCap;
    LastTwice(Pending(b, stream), first, second, PendingCap(limits));
    LastTwice(b.aggregated, first, second, limits.maxOutputChars);
  }

  // Appending in pieces leaves the session exactly as appending the whole text, flag included.
  lemma {:induction false} PiecesEqualWhole(limits: Limits, b: Buffers, stream: Stream, pieces: seq<string>)
    requires WithinCaps(limits, b)
    ensures After(limits, b, Appends(stream, pieces)) == Appended(limits, b, stream, Join(pieces))
    decreases |pieces|
  {
    if pieces == [] {
      assert Pending(b, stream) + "" == Pending(b, stream) && b.aggregated + "" == b.aggregated;
    } else {
      AppendTwice(limits, b, stream, pieces[0], Join(pieces[1..]));
      PiecesEqualWhole(limits, Appended(limits, b, stream, pieces[0]), stream, pieces[1..]);
      assert Appends(stream, pieces)[1..] == Appends(stream, pieces[1..]);
    }
  }
}
