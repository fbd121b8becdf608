/** Workers that share one index counter, in every interleaving of their steps. */
module WorkerPool {
  import opened Wrappers

  datatype Worker = Ready | Busy(index: nat) | Exited

  // Shared state, and a log of the indices claimed and of the progress reported.
  datatype Pool<!R> = Pool(nextIndex: nat, completed: nat, results: seq<Option<R>>, workers: seq<Worker>,
                           claims: seq<nat>, progress: seq<nat>)

  // A step of one worker: it takes the next index, or its call returns.
  datatype Step = Claim(worker: nat) | Return(worker: nat)

  function Limit(concurrency: real): (n: int)
    ensures n >= 1
  {
    if concurrency.Floor > 1 then concurrency.Floor else 1
  }

  function WorkerCount(concurrency: real, items: nat): nat {
    if Limit(concurrency) < items then Limit(concurrency) else items
  }

  function Start<R>(concurrency: real, items: nat): Pool<R> {
    Pool(0, 0, seq(items, _ => None), seq(WorkerCount(concurrency, items), _ => Ready), [], [])
  }

  // As many workers as asked for, at least one, but not more than there are items; all start ready,
  // with nothing claimed or done.
  lemma StartIs<R>(concurrency: real, items: nat)
    ensures var p: Pool<R>, n := Start(concurrency, items), |Start<R>(concurrency, items).workers|;
            && n <= items && (concurrency >= 1.0 ==> n as real <= concurrency) && (concurrency < 1.0 ==> n <= 1)
            && (n == items || (n >= 1 && concurrency < (n + 1) as real))
            && (forall w <- p.workers :: w == Ready) && |p.results| == items && (forall r <- p.results :: r == None)
            && p.nextIndex == 0 && p.completed == 0 && p.claims == [] && p.progress == []
  {
  }

  predicate Enabled<R>(p: Pool<R>, step: Step) {
    && step.worker < |p.workers|
    && (if step.Claim? then p.workers[step.worker].Ready?
        else p.workers[step.worker].Busy? && p.workers[step.worker].index < |p.results|)
  }

  function Claimed<R>(p: Pool<R>, w: nat): Pool<R>
    requires w < |p.workers|
  {
    var current := p.nextIndex;
    if current >= |p.results| then p.(nextIndex := current + 1, workers := p.workers[w := Exited])
    else p.(nextIndex := current + 1, workers := p.workers[w := Busy(current)], claims := p.claims + [current])
  }

  function Returned<T, R>(fn: (T, nat) -> R, items: seq<T>, p: Pool<R>, w: nat): Pool<R>
    requires w < |p.workers| && p.workers[w].Busy? && p.workers[w].index < |p.results| == |items|
  {
    var i := p.workers[w].index;
    p.(results := p.results[i := Some(fn(items[i], i))], completed := p.completed + 1,
       workers := p.workers[w := Ready], progress := p.progress + [p.completed + 1])
  }

  // The variables that the workers share.
  class SharedPool<T, !R> {
    const fn: (T, nat) -> R
    const items: seq<T>
    var nextIndex: nat
    var completed: nat
    var results: seq<Option<R>>
    var workers: seq<Worker>
    ghost var claims: seq<nat>
    var progress: seq<nat>

    ghost function State(): Pool<R>
      reads this
    {
      Pool(nextIndex, completed, results, workers, claims, progress)
    }

    constructor (fn: (T, nat) -> R, items: seq<T>, concurrency: real)
      ensures this.fn == fn && this.items == items && State() == Start(concurrency, |items|)
    {
      this.fn, this.items := fn, items;
      nextIndex, completed := 0, 0;
      results := seq(|items|, _ => None);
      workers := seq(WorkerCount(concurrency, |items|), _ => Ready);
      claims, progress := [], [];
      new;
      ghost var start: Pool<R> := Start(concurrency, |items|);
      assert results == start.results && workers == start.workers;
    }

    method ClaimNext(w: nat)
      requires w < |workers|
      modifies this
      ensures State() == Claimed(old(State()), w)
    {
      var current := nextIndex;
      nextIndex := nextIndex + 1;
      if current >= |results| {
        workers := workers[w := Exited];
        return;
      }
      claims := claims + [current];
      workers := workers[w := Busy(current)];
    }

    method CallReturns(w: nat)
      requires w < |workers| && workers[w].Busy? && workers[w].index < |results| == |items|
      modifies this
      ensures State() == Returned(fn, items, old(State()), w)
    {
      var i := workers[w].index;
      results := results[i := Some(fn(items[i], i))];
      completed := completed + 1;
      progress := progress + [completed];
      workers := workers[w := Ready];
    }
  }

  // ---- the invariant ----

  function CountBusy(workers: seq<Worker>): nat {
    if workers == [] then 0 else (if workers[0].Busy? then 1 else 0) + CountBusy(workers[1..])
  }

  function CountReady(workers: seq<Worker>): nat {
    if workers == [] then 0 else (if workers[0].Ready? then 1 else 0) + CountReady(workers[1..])
  }

  function ClaimedCount<R>(p: Pool<R>): nat {
    if p.nextIndex < |p.results| then p.nextIndex else |p.results|
  }

  // Index i is unclaimed, in the hands of exactly one worker, or done with the right result.
  ghost predicate IndexSound<T, R>(fn: (T, nat) -> R, items: seq<T>, p: Pool<R>, i: nat)
    requires i < |p.results| == |items|
  {
    if i >= p.nextIndex then p.results[i].None? && forall w :: 0 <= w < |p.workers| ==> p.workers[w] != Busy(i)
    else if p.results[i].None? then exists w :: 0 <= w < |p.workers| && p.workers[w] == Busy(i)
    else p.results[i] == Some(fn(items[i], i)) && forall w :: 0 <= w < |p.workers| ==> p.workers[w] != Busy(i)
  }

  ghost predicate OneWorkerEach(workers: seq<Worker>) {
    forall v, w :: 0 <= v < w < |workers| && workers[v].Busy? ==> workers[v] != workers[w]
  }

  ghost predicate Sound<T, R>(fn: (T, nat) -> R, items: seq<T>, p: Pool<R>) {
    && |p.results| == |items|
    && (forall w :: 0 <= w < |p.workers| && p.workers[w].Busy? ==> p.workers[w].index < |items|)
    && OneWorkerEach(p.workers)
    && (forall i :: 0 <= i < |items| ==> IndexSound(fn, items, p, i))
    && p.claims == UpTo(ClaimedCount(p))
    && p.completed + CountBusy(p.workers) == ClaimedCount(p)
    && p.progress == seq(p.completed, i => i + 1)
    && (forall w :: 0 <= w < |p.workers| && p.workers[w].Exited? ==> p.nextIndex >= |items|)
  }

  function Next<T, R>(fn: (T, nat) -> R, items: seq<T>, p: Pool<R>, step: Step): Pool<R>
    requires Enabled(p, step) && |p.results| == |items|
  {
    match step
    case Claim(w) => Claimed(p, w)
    case Return(w) => Returned(fn, items, p, w)
  }

  lemma {:induction false} CountUpdate(workers: seq<Worker>, w: nat, next: Worker)
    requires w < |workers|
    ensures CountBusy(workers[w := next])
         == CountBusy(workers) - (if workers[w].Busy? then 1 else 0) + (if next.Busy? then 1 else 0)
    ensures CountReady(workers[w := next])
         == CountReady(workers) - (if workers[w].Ready? then 1 else 0) + (if next.Ready? then 1 else 0)
  {
    if w > 0 {
      assert workers[w := next][1..] == workers[1..][w - 1 := next];
      CountUpdate(workers[1..], w - 1, next);
    } else {
      assert workers[w := next][1..] == workers[1..];
    }
  }

  lemma {:induction false} CountsAtMost(workers: seq<Worker>)
    ensures CountBusy(workers) + CountReady(workers) <= |workers|
    ensures (forall w :: 0 <= w < |workers| ==> workers[w].Exited?) <==> CountBusy(workers) == 0 && CountReady(workers) == 0
  {
    if workers != [] {
      CountsAtMost(workers[1..]);
      assert forall w :: 1 <= w < |workers| ==> workers[w] == workers[1..][w - 1];
      if forall w :: 0 <= w < |workers[1..]| ==> workers[1..][w].Exited? {
        assert forall w :: 1 <= w < |workers| ==> workers[w].Exited?;
      } else {
        var w :| 0 <= w < |workers[1..]| && !workers[1..][w].Exited?;
        assert !workers[w + 1].Exited?;
      }
    }
  }

  lemma {:induction false} AllReady(workers: seq<Worker>)
    requires forall w :: 0 <= w < |workers| ==> workers[w].Ready?
    ensures CountBusy(workers) == 0
  {
    if workers != [] {
      AllReady(workers[1..]);
    }
  }

  lemma StartIsSound<T, R>(fn: (T, nat) -> R, items: seq<T>, concurrency: real)
    ensures Sound(fn, items, Start(concurrency, |items|))
  {
    var p: Pool<R> := Start(concurrency, |items|);
    AllReady(p.workers);
    assert UpTo(0) == [];
  }

  // ---- each step keeps the invariant ----

  lemma ClaimKeepsIndex<T, R>(fn: (T, nat) -> R, items: seq<T>, p: Pool<R>, w: nat, i: nat)
    requires Sound(fn, items, p) && Enabled(p, Claim(w)) && i < |items|
    ensures IndexSound(fn, items, Claimed(p, w), i)
  {
    var q := Claimed(p, w);
    assert IndexSound(fn, items, p, i);
    if i < p.nextIndex && p.results[i].None? {
      var v :| 0 <= v < |p.workers| && p.workers[v] == Busy(i);
      assert q.workers[v] == Busy(i);
    } else if i == p.nextIndex {
      assert q.workers[w] == Busy(i);
    }
  }

  lemma ClaimKeepsOneWorker<T, R>(fn: (T, nat) -> R, items: seq<T>, p: Pool<R>, w: nat)
    requires Sound(fn, items, p) && Enabled(p, Claim(w))
    ensures OneWorkerEach(Claimed(p, w).workers)
  {
    if p.nextIndex < |items| {
      assert IndexSound(fn, items, p, p.nextIndex);
    }
  }

  lemma ClaimKeepsSound<T, R>(fn: (T, nat) -> R, items: seq<T>, p: Pool<R>, w: nat)
    requires Sound(fn, items, p) && Enabled(p, Claim(w))
    ensures Sound(fn, items, Claimed(p, w))
  {
    forall i | 0 <= i < |items| ensures IndexSound(fn, items, Claimed(p, w), i) {
      ClaimKeepsIndex(fn, items, p, w, i);
    }
    ClaimKeepsOneWorker(fn, items, p, w);
    CountUpdate(p.workers, w, if p.nextIndex >= |items| then Exited else Busy(p.nextIndex));
    assert p.nextIndex < |items| ==> UpTo(p.nextIndex) + [p.nextIndex] == UpTo(p.nextIndex + 1);
  }

  lemma ReturnKeepsIndex<T, R>(fn: (T, nat) -> R, items: seq<T>, p: Pool<R>, w: nat, i: nat)
    requires Sound(fn, items, p) && Enabled(p, Return(w)) && i < |items|
    ensures IndexSound(fn, items, Returned(fn, items, p, w), i)
  {
    var q, j := Returned(fn, items, p, w), p.workers[w].index;
    assert IndexSound(fn, items, p, i) && IndexSound(fn, items, p, j);
    if i != j && i < p.nextIndex && p.results[i].None? {
      var v :| 0 <= v < |p.workers| && p.workers[v] == Busy(i);
      assert q.workers[v] == Busy(i);
    }
  }

  lemma ReturnKeepsSound<T, R>(fn: (T, nat) -> R, items: seq<T>, p: Pool<R>, w: nat)
    requires Sound(fn, items, p) && Enabled(p, Return(w))
    ensures Sound(fn, items, Returned(fn, items, p, w))
  {
    forall i | 0 <= i < |items| ensures IndexSound(fn, items, Returned(fn, items, p, w), i) {
      ReturnKeepsIndex(fn, items, p, w, i);
    }
    CountUpdate(p.workers, w, Ready);
  }

  lemma StepKeepsSound<T, R>(fn: (T, nat) -> R, items: seq<T>, p: Pool<R>, step: Step)
    requires Sound(fn, items, p) && Enabled(p, step)
    ensures Sound(fn, items, Next(fn, items, p, step)) && |Next(fn, items, p, step).workers| == |p.workers|
  {
    match step
    case Claim(w) => ClaimKeepsSound(fn, items, p, w);
    case Return(w) => ReturnKeepsSound(fn, items, p, w);
  }

  // ---- whole runs ----

  ghost predicate IsRun<T, R>(fn: (T, nat) -> R, items: seq<T>, p: Pool<R>, steps: seq<Step>, q: Pool<R>)
    decreases |steps|
  {
    if steps == [] then p == q
    else |p.results| == |items| && Enabled(p, steps[0]) && IsRun(fn, items, Next(fn, items, p, steps[0]), steps[1..], q)
  }

  // Work still to be done; every step takes some of it away.
  function Work<R>(p: Pool<R>): int {
    3 * (|p.results| - ClaimedCount(p)) + 2 * CountBusy(p.workers) + CountReady(p.workers)
  }

  lemma StepTakesWork<T, R>(fn: (T, nat) -> R, items: seq<T>, p: Pool<R>, step: Step)
    requires Sound(fn, items, p) && Enabled(p, step)
    ensures 0 <= Work(Next(fn, items, p, step)) < Work(p)
  {
    StepKeepsSound(fn, items, p, step);
    CountUpdate(p.workers, step.worker, Next(fn, items, p, step).workers[step.worker]);
  }

  lemma {:induction false} RunKeepsSound<T, R>(fn: (T, nat) -> R, items: seq<T>, p: Pool<R>, steps: seq<Step>, q: Pool<R>)
    requires Sound(fn, items, p) && IsRun(fn, items, p, steps, q)
    ensures Sound(fn, items, q) && |q.workers| == |p.workers| && |steps| <= Work(p) - Work(q)
    decreases |steps|
  {
    if steps != [] {
      StepKeepsSound(fn, items, p, steps[0]);
      StepTakesWork(fn, items, p, steps[0]);
      RunKeepsSound(fn, items, Next(fn, items, p, steps[0]), steps[1..], q);
    }
  }

  // In every state of every run: the indices were claimed once each, in order; at most
  // min(limit, n) calls are in flight; completed and in-flight calls are the claimed ones; and
  // progress was reported as 1, 2, 3 and so on.
  lemma PoolIsOrderly<T, R>(fn: (T, nat) -> R, items: seq<T>, concurrency: real, steps: seq<Step>, q: Pool<R>)
    requires IsRun(fn, items, Start(concurrency, |items|), steps, q)
    ensures q.claims == UpTo(|q.claims|) && |q.claims| <= |items|
    ensures CountBusy(q.workers) <= WorkerCount(concurrency, |items|)
    ensures q.completed + CountBusy(q.workers) == |q.claims|
    ensures q.progress == seq(q.completed, i => i + 1)
  {
    StartIsSound(fn, items, concurrency);
    RunKeepsSound(fn, items, Start(concurrency, |items|), steps, q);
    CountsAtMost(q.workers);
  }

  lemma StartWork<R>(p: Pool<R>, concurrency: real, items: nat)
    requires p == Start(concurrency, items)
    ensures Work(p) <= 3 * items + WorkerCount(concurrency, items)
  {
    AllReady(p.workers);
    CountsAtMost(p.workers);
  }

  // No run is longer than three steps an item and one a worker.
  lemma PoolRunsAreShort<T, R>(fn: (T, nat) -> R, items: seq<T>, concurrency: real, steps: seq<Step>, q: Pool<R>)
    requires IsRun(fn, items, Start(concurrency, |items|), steps, q)
    ensures |steps| <= 3 * |items| + WorkerCount(concurrency, |items|)
  {
    var p: Pool<R> := Start(concurrency, |items|);
    StartIsSound(fn, items, concurrency);
    RunKeepsSound(fn, items, p, steps, q);
    StartWork(p, concurrency, |items|);
    assert Work(q) >= 0;
  }

  ghost predicate AllExited<R>(p: Pool<R>) {
    forall w :: 0 <= w < |p.workers| ==> p.workers[w].Exited?
  }

  // A pool with nobody left to move has exited everywhere, with every result in its place.
  lemma StuckPoolIsDone<T, R>(fn: (T, nat) -> R, items: seq<T>, p: Pool<R>)
    requires Sound(fn, items, p) && p.workers != [] && forall step :: !Enabled(p, step)
    ensures AllExited(p) && p.completed == |items|
    ensures forall i :: 0 <= i < |items| ==> p.results[i] == Some(fn(items[i], i))
  {
    forall w | 0 <= w < |p.workers| ensures p.workers[w].Exited? {
      assert !Enabled(p, Claim(w)) && !Enabled(p, Return(w));
    }
    assert p.workers[0].Exited?;
    CountsAtMost(p.workers);
    forall i | 0 <= i < |items| ensures p.results[i] == Some(fn(items[i], i)) {
      assert IndexSound(fn, items, p, i);
    }
  }

  // A run that cannot go on leaves fn(items[i]) in results[i], for every i.
  lemma PoolFinishes<T, R>(fn: (T, nat) -> R, items: seq<T>, concurrency: real, steps: seq<Step>, q: Pool<R>)
    requires items != [] && IsRun(fn, items, Start(concurrency, |items|), steps, q)
    requires forall step :: !Enabled(q, step)
    ensures q.completed == |items| && |q.results| == |items|
    ensures forall i :: 0 <= i < |items| ==> q.results[i] == Some(fn(items[i], i))
  {
    StartIsSound(fn, items, concurrency);
    RunKeepsSound(fn, items, Start(concurrency, |items|), steps, q);
    StuckPoolIsDone(fn, items, q);
  }
}
