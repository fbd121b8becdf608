/** Every interleaving of the registry's handlers with crashes and restores: one announcement at most. */
module AnnounceOnce {
  import opened Wrappers
  import opened SubagentRegistry

  // The registry and its surroundings. flows are the announce flows in flight in this process;
  // reports are finished flows whose continuation has not run yet, with what they reported;
  // successes count the flows that ever reported success; used are the ids ever registered.
  datatype World = World(
    reg: Registry,
    flows: multiset<string>,
    captured: map<string, Cleanup>,
    reports: multiset<(string, bool)>,
    waits: multiset<string>,
    successes: multiset<string>,
    used: set<string>)

  datatype Step =
    | Register(id: string, cleanup: Cleanup, archiveAt: Option<int>)
    | Lifecycle(id: string, phase: Phase, startKnown: bool, endedAt: Option<int>, now: int)
    | WaitDone(id: string, status: WaitStatus, endedAt: Option<int>, now: int)
    | FlowReports(id: string, didAnnounce: bool)
    | Finalize(id: string, didAnnounce: bool)
    | SweepDelete(id: string, now: int)
    | SweepSave
    | Release(id: string)
    | Restore(order: seq<string>)
    | Crash

  const START := World(Registry(map[], map[], {}, false, false), multiset{}, map[], multiset{}, multiset{}, multiset{}, {})

  predicate Enabled(w: World, step: Step) {
    match step
    case Register(id, _, _) => id !in w.used
    case Lifecycle(_, _, _, _, _) => w.reg.listening
    case WaitDone(id, _, _, _) => id in w.waits
    case FlowReports(id, _) => id in w.flows
    case Finalize(id, didAnnounce) => (id, didAnnounce) in w.reports
    case _ => true
  }

  function WithEffect(w: World, reg: Registry, effect: Effect): World {
    match effect
    case Nothing => w.(reg := reg)
    case FlowStarted(id) =>
      w.(reg := reg, flows := w.flows + multiset{id},
         captured := if id in reg.runs then w.captured[id := reg.runs[id].cleanup] else w.captured)
    case WaitStarted(id) => w.(reg := reg, waits := w.waits + multiset{id})
  }

  // The resumes of a restore, one after the other, with their effects.
  function ResumeEach(w: World, ids: seq<string>): World
    decreases |ids|
  {
    if ids == [] then w
    else ResumeEach(WithEffect(w, Resumed(w.reg, ids[0]), ResumeEffect(w.reg, ids[0])), ids[1..])
  }

  function CapturedCleanup(w: World, id: string): Cleanup {
    if id in w.captured then w.captured[id] else KeepRun
  }

  function Next(w: World, step: Step): World
    requires Enabled(w, step)
  {
    match step
    case Register(id, cleanup, archiveAt) =>
      WithEffect(w, Registered(w.reg, id, cleanup, archiveAt), WaitStarted(id)).(used := w.used + {id})
    case Lifecycle(id, phase, startKnown, endedAt, now) =>
      WithEffect(w, AfterLifecycle(w.reg, id, phase, startKnown, endedAt, now), LifecycleEffect(w.reg, id, phase))
    case WaitDone(id, status, endedAt, now) =>
      WithEffect(w.(waits := w.waits - multiset{id}), AfterWait(w.reg, id, status, endedAt, now), WaitEffect(w.reg, id, status))
    case FlowReports(id, didAnnounce) =>
      w.(flows := w.flows - multiset{id}, reports := w.reports + multiset{(id, didAnnounce)},
         successes := if didAnnounce then w.successes + multiset{id} else w.successes)
    case Finalize(id, didAnnounce) =>
      w.(reg := Finalized(w.reg, id, CapturedCleanup(w, id), didAnnounce), reports := w.reports - multiset{(id, didAnnounce)})
    case SweepDelete(id, now) => w.(reg := Swept(w.reg, id, now))
    case SweepSave => w.(reg := Persist(w.reg))
    case Release(id) => w.(reg := Released(w.reg, id))
    case Restore(order) =>
      if Restores(w.reg) then ResumeEach(w.(reg := Merged(w.reg)), order) else w.(reg := Merged(w.reg))
    case Crash => w.(reg := Crashed(w.reg), flows := multiset{}, captured := map[], reports := multiset{}, waits := multiset{})
  }

  // The resumes as the class performs them leave the registry in the same state.
  lemma {:induction false} ResumeEachIsResumedAll(w: World, ids: seq<string>)
    ensures ResumeEach(w, ids).reg == ResumedAll(w.reg, ids)
    decreases |ids|
  {
    if ids != [] {
      ResumeEachIsResumedAll(WithEffect(w, Resumed(w.reg, ids[0]), ResumeEffect(w.reg, ids[0])), ids[1..]);
    }
  }

  // ---- the invariant, run id by run id ----

  // Flows of this id that are in flight or about to be finalized.
  function InFlight(w: World, id: string): nat {
    w.flows[id] + w.reports[(id, true)] + w.reports[(id, false)]
  }

  // No handler can begin an announcement of this id, now or after a restore.
  predicate Claimed(r: Registry, id: string) {
    (id in r.runs ==> r.runs[id].handled) && (id in r.disk ==> r.disk[id].handled)
  }

  predicate Absent(r: Registry, id: string) {
    id !in r.runs && id !in r.disk
  }

  predicate Sound(w: World, id: string) {
    && InFlight(w, id) <= 1
    && (InFlight(w, id) == 1 ==> Claimed(w.reg, id))
    && w.successes[id] <= 1
    && (w.successes[id] == 1 ==> Claimed(w.reg, id) && w.flows[id] == 0 && w.reports[(id, false)] == 0)
    && (id !in w.used ==> Absent(w.reg, id) && InFlight(w, id) == 0 && w.successes[id] == 0)
  }

  // What a handler may do to another id's records, or to its own without beginning anything: a
  // record never loses its claim, and disk records come from memory.
  predicate KeepsClaim(before: Registry, after: Registry, id: string) {
    && (Claimed(before, id) ==> Claimed(after, id))
    && (Absent(before, id) ==> Absent(after, id))
  }

  // An effect on a sound world: at most one flow starts, and only where nothing is in flight.
  lemma EffectKeepsSound(w: World, reg: Registry, effect: Effect, id: string)
    requires Sound(w, id) && KeepsClaim(w.reg, reg, id)
    requires effect == FlowStarted(id) ==> !Claimed(w.reg, id) && !Absent(w.reg, id) && Claimed(reg, id)
    ensures Sound(WithEffect(w, reg, effect), id)
  {
  }

  lemma LifecycleKeepsSound(w: World, e: string, phase: Phase, startKnown: bool, endedAt: Option<int>, now: int, id: string)
    requires Sound(w, id)
    ensures Sound(WithEffect(w, AfterLifecycle(w.reg, e, phase, startKnown, endedAt, now), LifecycleEffect(w.reg, e, phase)), id)
  {
    EffectKeepsSound(w, AfterLifecycle(w.reg, e, phase, startKnown, endedAt, now), LifecycleEffect(w.reg, e, phase), id);
  }

  lemma WaitKeepsSound(w: World, e: string, status: WaitStatus, endedAt: Option<int>, now: int, id: string)
    requires Sound(w, id)
    ensures Sound(WithEffect(w, AfterWait(w.reg, e, status, endedAt, now), WaitEffect(w.reg, e, status)), id)
  {
    EffectKeepsSound(w, AfterWait(w.reg, e, status, endedAt, now), WaitEffect(w.reg, e, status), id);
  }

  lemma ResumeKeepsSound(w: World, e: string, id: string)
    requires Sound(w, id)
    ensures Sound(WithEffect(w, Resumed(w.reg, e), ResumeEffect(w.reg, e)), id)
  {
    EffectKeepsSound(w, Resumed(w.reg, e), ResumeEffect(w.reg, e), id);
  }

  lemma {:induction false} ResumeEachKeepsSound(w: World, ids: seq<string>, id: string)
    requires Sound(w, id)
    ensures Sound(ResumeEach(w, ids), id)
    decreases |ids|
  {
    if ids != [] {
      ResumeKeepsSound(w, ids[0], id);
      ResumeEachKeepsSound(WithEffect(w, Resumed(w.reg, ids[0]), ResumeEffect(w.reg, ids[0])), ids[1..], id);
    }
  }

  lemma FinalizeKeepsSound(w: World, e: string, didAnnounce: bool, id: string)
    requires Sound(w, id) && (e, didAnnounce) in w.reports
    ensures Sound(Next(w, Finalize(e, didAnnounce)), id)
  {
  }

  lemma RegistryKeepsSound(w: World, step: Step, id: string)
    requires Enabled(w, step) && Sound(w, id)
    requires step.Register? || step.SweepDelete? || step.SweepSave? || step.Release?
    ensures Sound(Next(w, step), id)
  {
  }

  lemma FlowsKeepSound(w: World, step: Step, id: string)
    requires Enabled(w, step) && Sound(w, id)
    requires step.FlowReports? || step.Crash?
    ensures Sound(Next(w, step), id)
  {
  }

  lemma MergeKeepsSound(w: World, id: string)
    requires Sound(w, id)
    ensures Sound(w.(reg := Merged(w.reg)), id)
  {
  }

  lemma StepKeepsSound(w: World, step: Step, id: string)
    requires Enabled(w, step) && Sound(w, id)
    ensures Sound(Next(w, step), id)
  {
    hide Sound, WithEffect, Merged, ResumeEach, AfterLifecycle, AfterWait, LifecycleEffect, WaitEffect, Finalized;
    match step
    case Lifecycle(e, phase, startKnown, endedAt, now) => LifecycleKeepsSound(w, e, phase, startKnown, endedAt, now, id);
    case WaitDone(e, status, endedAt, now) =>
      WaitTaken(w, e, id);
      WaitKeepsSound(w.(waits := w.waits - multiset{e}), e, status, endedAt, now, id);
    case Finalize(e, didAnnounce) => FinalizeKeepsSound(w, e, didAnnounce, id);
    case Restore(order) =>
      MergeKeepsSound(w, id);
      ResumeEachKeepsSound(w.(reg := Merged(w.reg)), order, id);
    case FlowReports(_, _) => FlowsKeepSound(w, step, id);
    case Crash => FlowsKeepSound(w, step, id);
    case _ => RegistryKeepsSound(w, step, id);
  }

  lemma WaitTaken(w: World, e: string, id: string)
    requires Sound(w, id)
    ensures Sound(w.(waits := w.waits - multiset{e}), id)
  {
  }

  // ---- whole runs ----

  predicate AllEnabled(w: World, steps: seq<Step>)
    decreases |steps|
  {
    steps != [] ==> Enabled(w, steps[0]) && AllEnabled(Next(w, steps[0]), steps[1..])
  }

  function After(w: World, steps: seq<Step>): World
    requires AllEnabled(w, steps)
    decreases |steps|
  {
    if steps == [] then w else After(Next(w, steps[0]), steps[1..])
  }

  lemma {:induction false} RunKeepsSound(w: World, steps: seq<Step>, id: string)
    requires AllEnabled(w, steps) && Sound(w, id)
    ensures Sound(After(w, steps), id)
    decreases |steps|
  {
    if steps != [] {
      StepKeepsSound(w, steps[0], id);
      RunKeepsSound(Next(w, steps[0]), steps[1..], id);
    }
  }

  // Over every interleaving, crashes and restores included, each run has at most one announce
  // flow in flight, and at most one flow ever reports success.
  lemma AnnouncedAtMostOnce(steps: seq<Step>, id: string)
    requires AllEnabled(START, steps)
    ensures var w := After(START, steps); w.flows[id] <= 1 && InFlight(w, id) <= 1 && w.successes[id] <= 1
  {
    RunKeepsSound(START, steps, id);
  }

  // ---- what is given up for it ----

  // A run whose claim is saved but whose flow is gone.
  predicate Abandoned(w: World, id: string) {
    id in w.used && InFlight(w, id) == 0 && Claimed(w.reg, id)
  }

  lemma ResumeKeepsAbandoned(w: World, e: string, id: string)
    requires Abandoned(w, id)
    ensures Abandoned(WithEffect(w, Resumed(w.reg, e), ResumeEffect(w.reg, e)), id)
  {
  }

  lemma {:induction false} ResumeEachKeepsAbandoned(w: World, ids: seq<string>, id: string)
    requires Abandoned(w, id)
    ensures Abandoned(ResumeEach(w, ids), id)
    ensures ResumeEach(w, ids).successes == w.successes
    decreases |ids|
  {
    if ids != [] {
      ResumeKeepsAbandoned(w, ids[0], id);
      ResumeEachKeepsAbandoned(WithEffect(w, Resumed(w.reg, ids[0]), ResumeEffect(w.reg, ids[0])), ids[1..], id);
    }
  }

  // A crash during an announcement abandons it: no later step starts a flow for that run again.
  lemma CrashAbandons(w: World, id: string)
    requires Sound(w, id) && InFlight(w, id) == 1
    ensures Abandoned(Next(w, Crash), id)
  {
  }

  lemma EffectKeepsAbandoned(w: World, reg: Registry, effect: Effect, id: string)
    requires Abandoned(w, id) && Claimed(reg, id) && effect != FlowStarted(id)
    ensures Abandoned(WithEffect(w, reg, effect), id)
  {
  }

  lemma HandlerKeepsAbandoned(w: World, step: Step, id: string)
    requires Enabled(w, step) && Abandoned(w, id) && (step.Lifecycle? || step.WaitDone?)
    ensures Abandoned(Next(w, step), id) && Next(w, step).successes == w.successes
  {
    match step
    case Lifecycle(e, phase, startKnown, endedAt, now) =>
      EffectKeepsAbandoned(w, AfterLifecycle(w.reg, e, phase, startKnown, endedAt, now), LifecycleEffect(w.reg, e, phase), id);
    case WaitDone(e, status, endedAt, now) =>
      EffectKeepsAbandoned(w.(waits := w.waits - multiset{e}), AfterWait(w.reg, e, status, endedAt, now), WaitEffect(w.reg, e, status), id);
  }

  lemma FlowKeepsAbandoned(w: World, step: Step, id: string)
    requires Enabled(w, step) && Abandoned(w, id) && (step.FlowReports? || step.Finalize?)
    ensures Abandoned(Next(w, step), id) && Next(w, step).successes[id] == w.successes[id]
  {
  }

  lemma RegistryKeepsAbandoned(w: World, step: Step, id: string)
    requires Enabled(w, step) && Abandoned(w, id)
    requires step.Register? || step.SweepDelete? || step.SweepSave? || step.Release? || step.Crash?
    ensures Abandoned(Next(w, step), id) && Next(w, step).successes == w.successes
  {
  }

  lemma AbandonedStaysAbandoned(w: World, step: Step, id: string)
    requires Enabled(w, step) && Abandoned(w, id)
    ensures Abandoned(Next(w, step), id) && Next(w, step).successes[id] == w.successes[id]
  {
    match step
    case Restore(order) => ResumeEachKeepsAbandoned(w.(reg := Merged(w.reg)), order, id);
    case Lifecycle(_, _, _, _, _) => HandlerKeepsAbandoned(w, step, id);
    case WaitDone(_, _, _, _) => HandlerKeepsAbandoned(w, step, id);
    case FlowReports(_, _) => FlowKeepsAbandoned(w, step, id);
    case Finalize(_, _) => FlowKeepsAbandoned(w, step, id);
    case _ => RegistryKeepsAbandoned(w, step, id);
  }

  // An announcement cut off by a crash is never tried again, whatever happens afterwards.
  lemma {:induction false} AbandonedForever(w: World, steps: seq<Step>, id: string)
    requires AllEnabled(w, steps) && Abandoned(w, id)
    ensures After(w, steps).flows[id] == 0 && After(w, steps).successes[id] == w.successes[id]
    decreases |steps|
  {
    if steps != [] {
      AbandonedStaysAbandoned(w, steps[0], id);
      AbandonedForever(Next(w, steps[0]), steps[1..], id);
    }
  }

  lemma AfterFirst(w: World, step: Step, steps: seq<Step>)
    requires Enabled(w, step) && AllEnabled(Next(w, step), steps)
    ensures AllEnabled(w, [step] + steps) && After(w, [step] + steps) == After(Next(w, step), steps)
  {
    hide Next, Enabled;
    assert ([step] + steps)[1..] == steps;
  }

  const RAN := Record(KeepRun, Some(1), Succeeded, None, false, true)

  lemma RegisteredExample(w: World)
    requires w == Next(START, Register("r", KeepRun, None))
    ensures w.reg.runs == map["r" := Record(KeepRun, None, NoOutcome, None, false, false)]
    ensures w.flows == multiset{} && w.reports == multiset{} && w.successes == multiset{} && w.waits == multiset{"r"} && w.used == {"r"}
  {
  }

  // A run that has ended is announced: one flow is in flight, and the claim is on disk.
  lemma BegunExample(w: World, begun: World)
    requires w == Next(START, Register("r", KeepRun, None))
    requires "r" in w.waits && begun == Next(w, WaitDone("r", WaitOk, None, 1))
    ensures begun.flows["r"] == 1 && InFlight(begun, "r") == 1 && begun.reg.disk == begun.reg.runs == map["r" := RAN]
    ensures begun.successes == multiset{} && begun.used == {"r"}
  {
    RegisteredExample(w);
    assert WaitedRecord(w.reg.runs["r"], WaitOk, None, 1) == RAN.(handled := false);
    assert begun.reg.runs == map["r" := RAN];
  }

  // After a crash, a restart finds the run claimed and starts nothing for it.
  lemma RestartedExample(begun: World, restarted: World)
    requires begun.reg.disk == map["r" := RAN] && begun.successes == multiset{}
    requires restarted == Next(Next(begun, Crash), Restore(["r"]))
    ensures restarted.flows["r"] == 0 && restarted.waits["r"] == 0 && restarted.successes["r"] == 0
  {
    var crashed := Next(begun, Crash);
    var merged := crashed.(reg := Merged(crashed.reg));
    assert merged.reg.runs["r"] == RAN && ResumeEffect(merged.reg, "r") == Nothing;
    assert ["r"][1..] == [];
    assert restarted == WithEffect(merged, Resumed(merged.reg, "r"), Nothing);
  }

  // A run that has ended, and its process dies while it is announced: after the restart nothing
  // is in flight, nothing waits, no flow has reported success, and none ever will.
  lemma CrashExample(begin: seq<Step>, die: seq<Step>)
    requires begin == [Register("r", KeepRun, None)] + ([WaitDone("r", WaitOk, None, 1)] + [])
    requires die == [Crash] + ([Restore(["r"])] + [])
    ensures AllEnabled(START, begin) && After(START, begin).flows["r"] == 1
    ensures AllEnabled(After(START, begin), die)
    ensures var w := After(After(START, begin), die);
            Abandoned(w, "r") && w.waits["r"] == 0 && w.successes["r"] == 0
  {
    hide Next, Abandoned, Sound;
    RegisterIsEnabled();
    var registered := Next(START, Register("r", KeepRun, None));
    RegisteredExample(registered);
    var begun := Next(registered, WaitDone("r", WaitOk, None, 1));
    BegunExample(registered, begun);
    AfterFirst(registered, WaitDone("r", WaitOk, None, 1), []);
    AfterFirst(START, Register("r", KeepRun, None), [WaitDone("r", WaitOk, None, 1)] + []);
    var crashed := Next(begun, Crash);
    var restarted := Next(crashed, Restore(["r"]));
    AfterFirst(crashed, Restore(["r"]), []);
    AfterFirst(begun, Crash, [Restore(["r"])] + []);
    RestartedExample(begun, restarted);
    StartIsSound("r");
    RunKeepsSound(START, begin, "r");
    CrashAbandons(begun, "r");
    AbandonedStaysAbandoned(crashed, Restore(["r"]), "r");
  }

  lemma RegisterIsEnabled()
    ensures Enabled(START, Register("r", KeepRun, None))
  {
  }

  lemma StartIsSound(id: string)
    ensures Sound(START, id)
  {
  }

  // ---- what a restart takes up again ----

  // A resume of this run would start an announcement, or a wait.
  predicate Announces(r: Registry, id: string) {
    MayResume(r, id) && Ended(r.runs[id]) && !r.runs[id].handled
  }

  predicate WaitsAgain(r: Registry, id: string) {
    MayResume(r, id) && !Ended(r.runs[id])
  }

  lemma ResumeOfAnother(r: Registry, e: string, id: string)
    requires e != id
    ensures Announces(Resumed(r, e), id) <==> Announces(r, id)
    ensures WaitsAgain(Resumed(r, e), id) <==> WaitsAgain(r, id)
  {
  }

  lemma ResumeOfItself(r: Registry, id: string)
    ensures ResumeEffect(r, id) == if Announces(r, id) then FlowStarted(id) else if WaitsAgain(r, id) then WaitStarted(id) else Nothing
    ensures !Announces(Resumed(r, id), id) && !WaitsAgain(Resumed(r, id), id)
  {
  }

  function Count(effects: seq<Effect>, effect: Effect): nat {
    if effects == [] then 0 else (if effects[0] == effect then 1 else 0) + Count(effects[1..], effect)
  }

  lemma {:induction false} ResumesStartExactly(r: Registry, ids: seq<string>, id: string)
    ensures Count(ResumeEffects(r, ids), FlowStarted(id)) == if id in ids && Announces(r, id) then 1 else 0
    ensures Count(ResumeEffects(r, ids), WaitStarted(id)) == if id in ids && WaitsAgain(r, id) then 1 else 0
    decreases |ids|
  {
    if ids != [] {
      ResumesStartExactly(Resumed(r, ids[0]), ids[1..], id);
      ResumeOfItself(r, ids[0]);
      if ids[0] != id {
        ResumeOfAnother(r, ids[0], id);
      }
      assert ResumeEffects(r, ids)[1..] == ResumeEffects(Resumed(r, ids[0]), ids[1..]);
    }
  }

  // After a restart each run on disk is taken up once: an ended one that nobody claimed is
  // announced, an unfinished one is waited for, and a claimed or completed one is left alone.
  lemma RestartResumesExactly(disk: map<string, Record>, order: seq<string>, id: string)
    requires disk != map[]
    ensures var effects := RestoreEffects(Registry(map[], disk, {}, false, false), order);
            var listed := id != "" && id in order && id in disk && !disk[id].completed;
            && Count(effects, FlowStarted(id)) == (if listed && Ended(disk[id]) && !disk[id].handled then 1 else 0)
            && Count(effects, WaitStarted(id)) == (if listed && !Ended(disk[id]) then 1 else 0)
  {
    ResumesStartExactly(Merged(Registry(map[], disk, {}, false, false)), order, id);
  }
}
