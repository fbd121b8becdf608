/** Waiting for context compaction: one promise, shared by all who wait, and its resolution. */
module CompactionWait {
  import opened Wrappers

  // Promises are numbered as they are created; `resolved` lists those resolved, in order.
  datatype Status = Status(inFlight: bool, pendingRetry: nat, promise: Option<nat>, resolver: Option<nat>,
                           created: nat, resolved: seq<nat>)

  const IDLE := Status(false, 0, None, None, 0, [])

  predicate Busy(s: Status) {
    s.inFlight || s.pendingRetry > 0
  }

  function Ensured(s: Status): Status {
    if s.promise.Some? then s
    else s.(promise := Some(s.created), resolver := Some(s.created), created := s.created + 1)
  }

  // Resolving calls the resolver, if there is one, and clears the slot.
  function Released(s: Status): Status {
    s.(resolved := if s.resolver.Some? then s.resolved + [s.resolver.value] else s.resolved, resolver := None, promise := None)
  }

  function MaybeResolved(s: Status): Status {
    if s.pendingRetry == 0 && !s.inFlight then Released(s) else s
  }

  function RetryResolved(s: Status): Status {
    if s.pendingRetry == 0 then s else MaybeResolved(s.(pendingRetry := s.pendingRetry - 1))
  }

  function AfterStart(s: Status): Status {
    Ensured(s.(inFlight := true))
  }

  function AfterEnd(s: Status, willRetry: bool): Status {
    var ended := s.(inFlight := false);
    if willRetry then Ensured(ended.(pendingRetry := s.pendingRetry + 1)) else MaybeResolved(ended)
  }

  function AfterAgentEnd(s: Status): Status {
    if s.pendingRetry > 0 then RetryResolved(s) else MaybeResolved(s)
  }

  class CompactionState {
    var compactionInFlight: bool
    var pendingCompactionRetry: nat
    var compactionRetryPromise: Option<nat>
    var compactionRetryResolve: Option<nat>
    var created: nat
    ghost var resolved: seq<nat>

    ghost function Now(): Status
      reads this
    {
      Status(compactionInFlight, pendingCompactionRetry, compactionRetryPromise, compactionRetryResolve, created, resolved)
    }

    constructor ()
      ensures Now() == IDLE
    {
      compactionInFlight, pendingCompactionRetry := false, 0;
      compactionRetryPromise, compactionRetryResolve := None, None;
      created, resolved := 0, [];
    }

    method EnsureCompactionPromise()
      modifies this
      ensures Now() == Ensured(old(Now()))
    {
      if compactionRetryPromise.None? {
        compactionRetryPromise, compactionRetryResolve := Some(created), Some(created);
        created := created + 1;
      }
    }

    method Release()
      modifies this
      ensures Now() == Released(old(Now()))
    {
      if compactionRetryResolve.Some? {
        resolved := resolved + [compactionRetryResolve.value];
      }
      compactionRetryResolve, compactionRetryPromise := None, None;
    }

    method NoteCompactionRetry()
      modifies this
      ensures Now() == Ensured(old(Now()).(pendingRetry := old(Now()).pendingRetry + 1))
    {
      pendingCompactionRetry := pendingCompactionRetry + 1;
      EnsureCompactionPromise();
    }

    method ResolveCompactionRetry()
      modifies this
      ensures Now() == RetryResolved(old(Now()))
    {
      if pendingCompactionRetry == 0 {
        return;
      }
      pendingCompactionRetry := pendingCompactionRetry - 1;
      if pendingCompactionRetry == 0 && !compactionInFlight {
        Release();
      }
    }

    method MaybeResolveCompactionWait()
      modifies this
      ensures Now() == MaybeResolved(old(Now()))
    {
      if pendingCompactionRetry == 0 && !compactionInFlight {
        Release();
      }
    }

    method HandleAutoCompactionStart()
      modifies this
      ensures Now() == AfterStart(old(Now()))
    {
      compactionInFlight := true;
      EnsureCompactionPromise();
    }

    method HandleAutoCompactionEnd(willRetry: bool)
      modifies this
      ensures Now() == AfterEnd(old(Now()), willRetry)
    {
      compactionInFlight := false;
      if willRetry {
        NoteCompactionRetry();
      } else {
        MaybeResolveCompactionWait();
      }
    }

    method HandleAgentEnd()
      modifies this
      ensures Now() == AfterAgentEnd(old(Now()))
    {
      if pendingCompactionRetry > 0 {
        ResolveCompactionRetry();
      } else {
        MaybeResolveCompactionWait();
      }
    }

    // The promise a waiter gets at once, or none when it has to ask again in a microtask.
    method WaitForCompactionRetry() returns (p: Option<nat>)
      modifies this
      ensures Now() == if Busy(old(Now())) then Ensured(old(Now())) else old(Now())
      ensures p == if Busy(old(Now())) then Ensured(old(Now())).promise else None
    {
      p := None;
      if compactionInFlight || pendingCompactionRetry > 0 {
        EnsureCompactionPromise();
        p := compactionRetryPromise;
      }
    }
  }

  // ---- waiters, in every interleaving ----

  // A waiter has asked and waits for its microtask, or waits for a promise, or is through.
  datatype Waiter = Asked | On(promise: nat) | Through

  datatype World = World(status: Status, waiters: seq<Waiter>)

  datatype Event = CompactionStart | CompactionEnd(willRetry: bool) | AgentEnd | Wait | Microtask(waiter: nat) | Wake(waiter: nat)

  predicate Enabled(w: World, e: Event) {
    match e
    case Microtask(k) => k < |w.waiters| && w.waiters[k].Asked?
    case Wake(k) => k < |w.waiters| && w.waiters[k].On? && w.waiters[k].promise in w.status.resolved
    case _ => true
  }

  // Waiting while busy joins the promise of the moment.
  function Joined(s: Status): Waiter {
    if Ensured(s).promise.Some? then On(Ensured(s).promise.value) else Through
  }

  function Next(w: World, e: Event): World
    requires Enabled(w, e)
  {
    match e
    case CompactionStart => w.(status := AfterStart(w.status))
    case CompactionEnd(willRetry) => w.(status := AfterEnd(w.status, willRetry))
    case AgentEnd => w.(status := AfterAgentEnd(w.status))
    case Wait =>
      if Busy(w.status) then World(Ensured(w.status), w.waiters + [Joined(w.status)])
      else w.(waiters := w.waiters + [Asked])
    case Microtask(k) =>
      if Busy(w.status) then World(Ensured(w.status), w.waiters[k := Joined(w.status)])
      else w.(waiters := w.waiters[k := Through])
    case Wake(k) => w.(waiters := w.waiters[k := Through])
  }

  // A promise exists exactly while compaction is in flight or a retry is pending; all promises
  // before it have been resolved, once each, in order.
  ghost predicate StatusSound(s: Status) {
    && (s.promise.Some? <==> Busy(s))
    && s.resolver == s.promise
    && (if s.promise.Some? then s.created > 0 && s.promise.value == s.created - 1 && s.resolved == UpTo(s.created - 1)
        else s.resolved == UpTo(s.created))
  }

  // Nobody waits for anything but the promise of the moment or one already resolved.
  ghost predicate Sound(w: World) {
    && StatusSound(w.status)
    && forall k :: 0 <= k < |w.waiters| && w.waiters[k].On? ==>
         w.waiters[k].promise in w.status.resolved || w.status.promise == Some(w.waiters[k].promise)
  }

  // Every event keeps the slot sound: the promise of the moment stays, or is resolved, once, in a
  // quiescent state; it is never replaced before.
  lemma EventKeepsStatus(w: World, e: Event)
    requires Sound(w) && Enabled(w, e)
    ensures var s, t := w.status, Next(w, e).status;
            && StatusSound(t)
            && (s.promise.Some? ==>
                  || (t.promise == s.promise && t.resolved == s.resolved)
                  || (!Busy(t) && t.promise.None? && t.resolved == s.resolved + [s.promise.value]))
            && (s.promise.None? ==> t.resolved == s.resolved)
  {
  }

  lemma StepKeepsSound(w: World, e: Event)
    requires Sound(w) && Enabled(w, e)
    ensures Sound(Next(w, e))
  {
    EventKeepsStatus(w, e);
  }

  predicate AllEnabled(w: World, events: seq<Event>)
    decreases |events|
  {
    events != [] ==> Enabled(w, events[0]) && AllEnabled(Next(w, events[0]), events[1..])
  }

  function After(w: World, events: seq<Event>): World
    requires AllEnabled(w, events)
    decreases |events|
  {
    if events == [] then w else After(Next(w, events[0]), events[1..])
  }

  lemma {:induction false} RunKeepsSound(w: World, events: seq<Event>)
    requires Sound(w) && AllEnabled(w, events)
    ensures Sound(After(w, events))
    decreases |events|
  {
    if events != [] {
      StepKeepsSound(w, events[0]);
      RunKeepsSound(Next(w, events[0]), events[1..]);
    }
  }

  // In every reachable state: the promise exists exactly while there is something to wait for,
  // every promise was resolved at most once and in order, and when nothing is in flight no
  // waiter is left on an unresolved promise.
  lemma WaitersAreNeverLost(events: seq<Event>)
    requires AllEnabled(World(IDLE, []), events)
    ensures var w := After(World(IDLE, []), events);
            && (w.status.promise.Some? <==> w.status.inFlight || w.status.pendingRetry > 0)
            && w.status.resolved == UpTo(|w.status.resolved|)
            && (!Busy(w.status) ==> forall k :: 0 <= k < |w.waiters| && w.waiters[k].On? ==> Enabled(w, Wake(k)))
  {
    assert UpTo(0) == [];
    RunKeepsSound(World(IDLE, []), events);
  }

  // A promise is only ever resolved by an event that leaves nothing in flight and nothing pending.
  lemma PromisesResolveWhenQuiet(w: World, e: Event, p: nat)
    requires Sound(w) && Enabled(w, e)
    requires p !in w.status.resolved && p in Next(w, e).status.resolved
    ensures w.status.promise == Some(p) && !Busy(Next(w, e).status)
  {
    EventKeepsStatus(w, e);
  }

  // No waiter gets through, or on to another promise, while its promise is open.
  lemma {:induction false} WaitersStayUntilResolved(w: World, events: seq<Event>, k: nat)
    requires AllEnabled(w, events) && Sound(w) && k < |w.waiters| && w.waiters[k].On?
    ensures var v := After(w, events);
            && k < |v.waiters|
            && (v.waiters[k] == w.waiters[k] || (v.waiters[k].Through? && w.waiters[k].promise in v.status.resolved))
    decreases |events|
  {
    if events != [] {
      var next := Next(w, events[0]);
      StepKeepsSound(w, events[0]);
      if next.waiters[k] == w.waiters[k] {
        WaitersStayUntilResolved(next, events[1..], k);
      } else {
        ThroughStays(next, events[1..], k, w.waiters[k].promise);
      }
    }
  }

  lemma {:induction false} ThroughStays(w: World, events: seq<Event>, k: nat, p: nat)
    requires AllEnabled(w, events) && Sound(w) && k < |w.waiters| && w.waiters[k].Through? && p in w.status.resolved
    ensures var v := After(w, events);
            k < |v.waiters| && v.waiters[k].Through? && p in v.status.resolved
    decreases |events|
  {
    if events != [] {
      EventKeepsStatus(w, events[0]);
      StepKeepsSound(w, events[0]);
      ThroughStays(Next(w, events[0]), events[1..], k, p);
    }
  }

  // ---- how many agent ends a waiter waits for ----

  // The retries noted and not yet closed by an agent end, counted over the events alone.
  function Due(events: seq<Event>, due: nat): nat
    decreases |events|
  {
    if events == [] then due
    else if events[0] == CompactionEnd(true) then Due(events[1..], due + 1)
    else if events[0] == AgentEnd && due > 0 then Due(events[1..], due - 1)
    else Due(events[1..], due)
  }

  // Whether the last compaction that started has not ended.
  function Compacting(events: seq<Event>, inFlight: bool): bool
    decreases |events|
  {
    if events == [] then inFlight
    else Compacting(events[1..], if events[0] == CompactionStart then true else if events[0].CompactionEnd? then false else inFlight)
  }

  // Over every run the state counts what is due and whether a compaction is under way.
  lemma {:induction false} StateCounts(w: World, events: seq<Event>)
    requires AllEnabled(w, events)
    ensures var s := After(w, events).status;
            s.pendingRetry == Due(events, w.status.pendingRetry) && s.inFlight == Compacting(events, w.status.inFlight)
    decreases |events|
  {
    if events != [] {
      StateCounts(Next(w, events[0]), events[1..]);
    }
  }

  // After the first i events nothing is due and no compaction is under way.
  predicate QuietAt(w: World, events: seq<Event>, i: nat)
    requires i <= |events|
  {
    Due(events[..i], w.status.pendingRetry) == 0 && !Compacting(events[..i], w.status.inFlight)
  }

  lemma QuietLater(w: World, events: seq<Event>, i: nat)
    requires events != [] && i < |events| && Enabled(w, events[0])
    ensures QuietAt(w, events, i + 1) <==> QuietAt(Next(w, events[0]), events[1..], i)
  {
    assert events[..i + 1][1..] == events[1..][..i];
  }

  // Once resolved, a promise stays resolved.
  lemma {:induction false} ResolvedStays(w: World, events: seq<Event>, p: nat)
    requires AllEnabled(w, events) && Sound(w) && p in w.status.resolved
    ensures p in After(w, events).status.resolved
    decreases |events|
  {
    if events != [] {
      EventKeepsStatus(w, events[0]);
      StepKeepsSound(w, events[0]);
      ResolvedStays(Next(w, events[0]), events[1..], p);
    }
  }

  // The promise of the moment is resolved by a run if and only if at some point of the run as many
  // agent ends have come as retries were noted, and no compaction is under way.
  lemma {:induction false} ResolvedIffQuiet(w: World, events: seq<Event>, p: nat)
    requires AllEnabled(w, events) && Sound(w) && w.status.promise == Some(p)
    ensures p in After(w, events).status.resolved <==> exists i: nat :: i <= |events| && QuietAt(w, events, i)
    decreases |events|
  {
    hide Due, Compacting;
    assert !QuietAt(w, events, 0) by { NotQuietAtFirst(w, events); }
    if events == [] {
      NotResolvedYet(w.status, p);
    } else {
      var next := Next(w, events[0]);
      EventKeepsStatus(w, events[0]);
      StepKeepsSound(w, events[0]);
      forall i: nat | i < |events| ensures QuietAt(w, events, i + 1) <==> QuietAt(next, events[1..], i) {
        QuietLater(w, events, i);
      }
      QuietNow(next, events[1..]);
      if next.status.promise == Some(p) {
        ResolvedIffQuiet(next, events[1..], p);
        SomeQuiet(w, next, events);
      } else {
        assert p in next.status.resolved;
        ResolvedStays(next, events[1..], p);
        assert QuietAt(w, events, 0 + 1);
      }
    }
  }

  lemma SomeQuiet(w: World, next: World, events: seq<Event>)
    requires events != [] && !QuietAt(w, events, 0)
    requires forall i: nat :: i < |events| ==> (QuietAt(w, events, i + 1) <==> QuietAt(next, events[1..], i))
    ensures (exists i: nat :: i <= |events| && QuietAt(w, events, i)) <==> exists i: nat :: i <= |events[1..]| && QuietAt(next, events[1..], i)
  {
    hide QuietAt;
    if exists i: nat :: i <= |events| && QuietAt(w, events, i) {
      var i: nat :| i <= |events| && QuietAt(w, events, i);
      assert QuietAt(w, events, i - 1 + 1);
      assert QuietAt(next, events[1..], i - 1);
    }
    if exists i: nat :: i <= |events[1..]| && QuietAt(next, events[1..], i) {
      var i: nat :| i <= |events[1..]| && QuietAt(next, events[1..], i);
      assert QuietAt(w, events, i + 1);
    }
  }

  lemma QuietNow(w: World, events: seq<Event>)
    ensures QuietAt(w, events, 0) <==> !Busy(w.status)
  {
    assert events[..0] == [];
  }

  lemma NotQuietAtFirst(w: World, events: seq<Event>)
    requires Sound(w) && w.status.promise.Some?
    ensures !QuietAt(w, events, 0)
  {
    QuietNow(w, events);
  }

  lemma NotResolvedYet(s: Status, p: nat)
    requires StatusSound(s) && s.promise == Some(p)
    ensures p !in s.resolved
  {
  }

  function AgentEnds(n: nat): seq<Event> {
    if n == 0 then [] else [AgentEnd] + AgentEnds(n - 1)
  }

  // With n retries due and no compaction under way, exactly the n-th agent end releases the waiters.
  lemma {:induction false} ReleasedAfterAgentEnds(w: World, n: nat)
    requires Sound(w) && w.status.promise.Some? && !w.status.inFlight
    ensures AllEnabled(w, AgentEnds(n))
    ensures w.status.promise.value in After(w, AgentEnds(n)).status.resolved <==> n >= w.status.pendingRetry
    decreases n
  {
    var p := w.status.promise.value;
    if n == 0 {
      NotResolvedYet(w.status, p);
    } else {
      var next := Next(w, AgentEnd);
      assert AgentEnds(n)[1..] == AgentEnds(n - 1);
      EventKeepsStatus(w, AgentEnd);
      StepKeepsSound(w, AgentEnd);
      if next.status.promise == Some(p) {
        ReleasedAfterAgentEnds(next, n - 1);
      } else {
        AgentEndsEnabled(next, n - 1);
        ResolvedStays(next, AgentEnds(n - 1), p);
      }
    }
  }

  lemma {:induction false} AgentEndsEnabled(w: World, n: nat)
    ensures AllEnabled(w, AgentEnds(n))
    decreases n
  {
    if n > 0 {
      assert AgentEnds(n)[1..] == AgentEnds(n - 1);
      AgentEndsEnabled(Next(w, AgentEnd), n - 1);
    }
  }

  // Who asks while something is under way waits for the promise of the moment; who asks in a quiet
  // state asks once more in a microtask, and then either waits for the promise of that moment or is
  // through.
  lemma WaitersJoin(w: World, k: nat)
    requires Sound(w)
    ensures var v := Next(w, Wait);
            && |v.waiters| == |w.waiters| + 1 && v.waiters[..|w.waiters|] == w.waiters && v.status == w.status
            && v.waiters[|w.waiters|] == if w.status.inFlight || w.status.pendingRetry > 0 then On(w.status.promise.value) else Asked
    ensures k < |w.waiters| && w.waiters[k].Asked? ==>
      Next(w, Microtask(k)) == w.(waiters := w.waiters[k := if w.status.inFlight || w.status.pendingRetry > 0 then On(w.status.promise.value) else Through])
  {
  }

  // In any state: an agent end with nothing due, and the end of a compaction that is not retried
  // with nothing due, resolve the promise that is there, unless a compaction is in flight.
  lemma QuietEndsResolve(s: Status)
    requires s.pendingRetry == 0
    ensures var after := if s.inFlight then AfterEnd(s, false) else AfterAgentEnd(s);
            && after.promise.None? && after.resolver.None? && !after.inFlight && after.pendingRetry == 0
            && after.resolved == s.resolved + (if s.resolver.Some? then [s.resolver.value] else [])
    ensures s.inFlight ==> AfterAgentEnd(s) == s
  {
    assert s.resolved + [] == s.resolved;
  }
}
