/** What each handler of the registry does to the fields of a record, and that a failed announcement is tried again. */
module RegistryLaws {
  import opened Wrappers
  import opened SubagentRegistry
  import opened AnnounceOnce

  // ---- one handler at a time, field by field ----

  // The records of all other runs, and what the registry knows beside its records, stay.
  ghost predicate OthersStay(before: Registry, after: Registry, id: string) {
    && (forall other :: other != id ==> (other in after.runs <==> other in before.runs))
    && (forall other :: other != id && other in before.runs && other in after.runs ==> after.runs[other] == before.runs[other])
    && after.resumed == before.resumed && after.restoreAttempted == before.restoreAttempted && after.listening == before.listening
  }

  ghost predicate SavedAll(r: Registry) {
    r.disk == r.runs
  }

  // The gate opens for a run that is neither completed nor claimed; it is then claimed, also on disk.
  lemma BeginIs(r: Registry, id: string)
    ensures BeginEffect(r, id) == FlowStarted(id) || BeginEffect(r, id) == Nothing
    ensures BeginEffect(r, id) == FlowStarted(id) <==> id in r.runs && r.runs[id].completed == false && r.runs[id].handled == false
    ensures BeginEffect(r, id) == Nothing ==> Begun(r, id) == r
    ensures var after := Begun(r, id);
            BeginEffect(r, id) == FlowStarted(id)
            ==> && OthersStay(r, after, id) && SavedAll(after) && id in after.runs
                && var a, b := r.runs[id], after.runs[id]; b == Record(a.cleanup, a.endedAt, a.outcome, a.archiveAt, false, true)
  {
  }

  // After an announcement: a run to be deleted is gone whether it succeeded or not; a kept run is
  // completed and stays claimed after a success, and loses its claim after a failure.
  lemma FinalizeIs(r: Registry, id: string, cleanup: Cleanup, didAnnounce: bool)
    ensures id !in r.runs ==> Finalized(r, id, cleanup, didAnnounce) == r
    ensures var after := Finalized(r, id, cleanup, didAnnounce);
            id in r.runs
            ==> && OthersStay(r, after, id) && SavedAll(after) && (id in after.runs <==> cleanup == KeepRun)
                && (cleanup == KeepRun
                    ==> var a, b := r.runs[id], after.runs[id];
                        && b.cleanup == a.cleanup && b.endedAt == a.endedAt && b.outcome == a.outcome && b.archiveAt == a.archiveAt
                        && (didAnnounce ==> b.completed == true && b.handled == a.handled)
                        && (!didAnnounce ==> b.completed == a.completed && b.handled == false))
  {
  }

  // The record of a run that is over: when it ended, how, and that it is claimed unless it was
  // already completed; all saved.
  ghost predicate Closes(before: Registry, after: Registry, id: string, effect: Effect, endedAt: int, outcome: RunOutcome) {
    && id in before.runs && id in after.runs && OthersStay(before, after, id) && SavedAll(after)
    && (var a, b := before.runs[id], after.runs[id];
        && b.cleanup == a.cleanup && b.archiveAt == a.archiveAt && b.completed == a.completed
        && b.endedAt == Some(endedAt) && b.outcome == outcome && b.handled == (a.handled || !a.completed)
        && effect == if !a.completed && !a.handled then FlowStarted(id) else Nothing)
  }

  lemma ClosesIs(r: Registry, id: string, next: Record)
    requires id in r.runs && next.endedAt.Some? && next == r.runs[id].(endedAt := next.endedAt, outcome := next.outcome)
    ensures Closes(r, Begun(Persist(Update(r, id, next)), id), id, BeginEffect(r, id), next.endedAt.value, next.outcome)
  {
  }

  // A lifecycle event: the end or an error closes the record at the time it tells, or else at the
  // time of the clock; a start saves when it tells a time; anything else does nothing.
  lemma LifecycleIs(r: Registry, id: string, phase: Phase, startKnown: bool, endedAt: Option<int>, now: int)
    ensures var after, effect := AfterLifecycle(r, id, phase, startKnown, endedAt, now), LifecycleEffect(r, id, phase);
            && (id in r.runs && phase == EndPhase ==>
                  Closes(r, after, id, effect, match endedAt case Some(t) => t case None => now, Succeeded))
            && (id in r.runs && phase == ErrorPhase ==>
                  Closes(r, after, id, effect, match endedAt case Some(t) => t case None => now, Erred))
            && (id !in r.runs || phase in {StartPhase, OtherPhase} ==> effect == Nothing && after.runs == r.runs && OthersStay(r, after, id))
            && (id in r.runs && phase == StartPhase && startKnown ==> SavedAll(after))
            && (id !in r.runs || phase == OtherPhase || (phase == StartPhase && !startKnown) ==> after.disk == r.disk)
  {
    hide Closes, Begun;
    if id in r.runs {
      ClosesIs(r, id, Closed(r.runs[id], phase, endedAt, now));
    }
  }

  // The gateway's answer: success or error closes the record at the time it tells, or else at the
  // time already known, or else at the time of the clock; zero is no time. Anything else does nothing.
  lemma WaitIs(r: Registry, id: string, status: WaitStatus, endedAt: Option<int>, now: int)
    ensures var after, effect := AfterWait(r, id, status, endedAt, now), WaitEffect(r, id, status);
            && (status == WaitOther || id !in r.runs ==> after == r && effect == Nothing)
            && (status != WaitOther && id in r.runs && endedAt.Some? && endedAt.value != 0 ==>
                  Closes(r, after, id, effect, endedAt.value, if status == WaitOk then Succeeded else Erred))
            && (status != WaitOther && id in r.runs && endedAt.None? && r.runs[id].endedAt.Some? && r.runs[id].endedAt.value != 0 ==>
                  Closes(r, after, id, effect, r.runs[id].endedAt.value, if status == WaitOk then Succeeded else Erred))
            && (status != WaitOther && id in r.runs && endedAt == Some(0) ==>
                  Closes(r, after, id, effect, now, if status == WaitOk then Succeeded else Erred))
            && (status != WaitOther && id in r.runs && endedAt.None? && r.runs[id].endedAt in {None, Some(0)} ==>
                  Closes(r, after, id, effect, now, if status == WaitOk then Succeeded else Erred))
  {
    hide Closes, Begun;
    if id in r.runs {
      ClosesIs(r, id, WaitedRecord(r.runs[id], status, endedAt, now));
    }
  }

  // A new run is unfinished, unclaimed and saved; a release takes a run off memory and disk; a sweep
  // takes it off the memory alone, once its time has come.
  lemma RecordsComeAndGo(r: Registry, id: string, cleanup: Cleanup, archiveAt: Option<int>, now: int)
    ensures var after := Registered(r, id, cleanup, archiveAt);
            && after.runs == r.runs[id := Record(cleanup, None, NoOutcome, archiveAt, false, false)] && SavedAll(after)
            && after.listening && after.resumed == r.resumed && after.restoreAttempted == r.restoreAttempted
    ensures var after := Released(r, id);
            && OthersStay(r, after, id) && id !in after.runs
            && (id in r.runs ==> SavedAll(after)) && (id !in r.runs ==> after.disk == r.disk)
    ensures var after := Swept(r, id, now);
            && OthersStay(r, after, id) && after.disk == r.disk
            && (id in after.runs <==> id in r.runs && (match r.runs[id].archiveAt case None => true case Some(t) => t == 0 || now < t))
            && (id in after.runs ==> after.runs[id] == r.runs[id])
  {
  }

  // A process starts with its disk only, and the first restore brings back each record on disk that
  // has a name and no newer one in memory; a second restore does nothing.
  lemma MergeIs(r: Registry)
    ensures var start := Crashed(r);
            start.runs == map[] && start.disk == r.disk && start.resumed == {} && !start.restoreAttempted && !start.listening
    ensures r.restoreAttempted ==> Merged(r) == r
    ensures var after := Merged(r);
            && after.disk == r.disk && after.resumed == r.resumed && after.restoreAttempted
            && (!r.restoreAttempted ==>
                  && (after.listening <==> r.listening || r.disk != map[])
                  && (forall id :: id in after.runs <==> id in r.runs || (id != "" && id in r.disk))
                  && forall id <- after.runs :: after.runs[id] == if id in r.runs then r.runs[id] else r.disk[id])
  {
  }

  // A resume of a run that is not completed and was not resumed before: one that has a positive time
  // of its end is claimed and announced, unless somebody has claimed it; any other is waited for.
  lemma ResumeIs(r: Registry, id: string)
    ensures id == "" || id in r.resumed || id !in r.runs || r.runs[id].completed ==>
      ResumeEffect(r, id) == Nothing && Resumed(r, id) == r
    ensures id != "" && id !in r.resumed && id in r.runs && !r.runs[id].completed ==>
      match r.runs[id].endedAt
      case None => ResumeEffect(r, id) == WaitStarted(id) && Resumed(r, id) == r.(resumed := r.resumed + {id})
      case Some(t) =>
        if t <= 0 then ResumeEffect(r, id) == WaitStarted(id) && Resumed(r, id) == r.(resumed := r.resumed + {id})
        else if r.runs[id].handled then ResumeEffect(r, id) == Nothing && Resumed(r, id) == r
        else ResumeEffect(r, id) == FlowStarted(id) && Resumed(r, id) == Begun(r, id).(resumed := r.resumed + {id})
  {
  }

  // ---- a failed announcement ----

  // What each handler keeps of a run: who reported success, and how the run is to be cleaned up.
  ghost predicate CompletedIn(records: map<string, Record>, id: string) {
    id in records && records[id].completed
  }

  ghost predicate CleanedAs(records: map<string, Record>, id: string, cleanup: Cleanup) {
    id in records ==> records[id].cleanup == cleanup
  }

  ghost predicate Honest(w: World, id: string, cleanup: Cleanup) {
    && w.reports[(id, true)] <= w.successes[id]
    && (CompletedIn(w.reg.runs, id) || CompletedIn(w.reg.disk, id) ==> w.successes[id] > 0)
    && CleanedAs(w.reg.runs, id, cleanup) && CleanedAs(w.reg.disk, id, cleanup)
    && (id in w.captured ==> w.captured[id] == cleanup)
  }

  // What a step does to the records of one run when nobody finishes it and nobody registers it.
  ghost predicate KeepsRecord(before: Registry, after: Registry, id: string, cleanup: Cleanup) {
    && (CompletedIn(after.runs, id) || CompletedIn(after.disk, id) ==> CompletedIn(before.runs, id) || CompletedIn(before.disk, id))
    && (CleanedAs(before.runs, id, cleanup) && CleanedAs(before.disk, id, cleanup) ==>
          CleanedAs(after.runs, id, cleanup) && CleanedAs(after.disk, id, cleanup))
  }

  // The step registers this run, if at all, with this cleanup.
  ghost predicate RegistersAs(step: Step, id: string, cleanup: Cleanup) {
    step.Register? && step.id == id ==> step.cleanup == cleanup
  }

  lemma EffectKeepsHonest(w: World, reg: Registry, effect: Effect, id: string, cleanup: Cleanup)
    requires Honest(w, id, cleanup) && KeepsRecord(w.reg, reg, id, cleanup)
    ensures Honest(WithEffect(w, reg, effect), id, cleanup)
  {
    hide CompletedIn;
  }

  lemma LifecycleKeepsRecord(r: Registry, e: string, phase: Phase, startKnown: bool, endedAt: Option<int>, now: int, id: string, cleanup: Cleanup)
    ensures KeepsRecord(r, AfterLifecycle(r, e, phase, startKnown, endedAt, now), id, cleanup)
  {
  }

  lemma WaitKeepsRecord(r: Registry, e: string, status: WaitStatus, endedAt: Option<int>, now: int, id: string, cleanup: Cleanup)
    ensures KeepsRecord(r, AfterWait(r, e, status, endedAt, now), id, cleanup)
  {
  }

  lemma ResumeKeepsRecord(r: Registry, e: string, id: string, cleanup: Cleanup)
    ensures KeepsRecord(r, Resumed(r, e), id, cleanup)
  {
  }

  lemma {:induction false} ResumeEachKeepsHonest(w: World, ids: seq<string>, id: string, cleanup: Cleanup)
    requires Honest(w, id, cleanup)
    ensures Honest(ResumeEach(w, ids), id, cleanup)
    decreases |ids|
  {
    hide Honest, KeepsRecord, Resumed, ResumeEffect, WithEffect;
    if ids != [] {
      ResumeKeepsRecord(w.reg, ids[0], id, cleanup);
      EffectKeepsHonest(w, Resumed(w.reg, ids[0]), ResumeEffect(w.reg, ids[0]), id, cleanup);
      ResumeEachKeepsHonest(WithEffect(w, Resumed(w.reg, ids[0]), ResumeEffect(w.reg, ids[0])), ids[1..], id, cleanup);
    }
  }

  lemma MergeKeepsHonest(w: World, id: string, cleanup: Cleanup)
    requires Honest(w, id, cleanup)
    ensures Honest(w.(reg := Merged(w.reg)), id, cleanup)
  {
  }

  lemma FinalizeKeepsHonest(w: World, e: string, didAnnounce: bool, id: string, cleanup: Cleanup)
    requires Honest(w, id, cleanup) && (e, didAnnounce) in w.reports
    ensures Honest(Next(w, Finalize(e, didAnnounce)), id, cleanup)
  {
  }

  lemma FlowsKeepHonest(w: World, step: Step, id: string, cleanup: Cleanup)
    requires Enabled(w, step) && Honest(w, id, cleanup) && (step.FlowReports? || step.Crash?)
    ensures Honest(Next(w, step), id, cleanup)
  {
  }

  lemma RegistryKeepsHonest(w: World, step: Step, id: string, cleanup: Cleanup)
    requires Enabled(w, step) && Honest(w, id, cleanup) && RegistersAs(step, id, cleanup)
    requires step.SweepDelete? || step.SweepSave? || step.Release? || step.Register?
    ensures Honest(Next(w, step), id, cleanup)
  {
  }

  lemma WaitTakenStaysHonest(w: World, e: string, id: string, cleanup: Cleanup)
    requires Honest(w, id, cleanup)
    ensures Honest(w.(waits := w.waits - multiset{e}), id, cleanup)
  {
  }

  lemma StepKeepsHonest(w: World, step: Step, id: string, cleanup: Cleanup)
    requires Enabled(w, step) && Honest(w, id, cleanup) && RegistersAs(step, id, cleanup)
    ensures Honest(Next(w, step), id, cleanup)
  {
    hide Honest, KeepsRecord, WithEffect, Merged, ResumeEach, AfterLifecycle, AfterWait, LifecycleEffect, WaitEffect, Finalized;
    match step
    case Lifecycle(e, phase, startKnown, endedAt, now) =>
      LifecycleKeepsRecord(w.reg, e, phase, startKnown, endedAt, now, id, cleanup);
      EffectKeepsHonest(w, AfterLifecycle(w.reg, e, phase, startKnown, endedAt, now), LifecycleEffect(w.reg, e, phase), id, cleanup);
    case WaitDone(e, status, endedAt, now) =>
      WaitTakenStaysHonest(w, e, id, cleanup);
      WaitKeepsRecord(w.reg, e, status, endedAt, now, id, cleanup);
      EffectKeepsHonest(w.(waits := w.waits - multiset{e}), AfterWait(w.reg, e, status, endedAt, now), WaitEffect(w.reg, e, status), id, cleanup);
    case Finalize(e, didAnnounce) => FinalizeKeepsHonest(w, e, didAnnounce, id, cleanup);
    case Restore(order) =>
      MergeKeepsHonest(w, id, cleanup);
      ResumeEachKeepsHonest(w.(reg := Merged(w.reg)), order, id, cleanup);
    case FlowReports(_, _) => FlowsKeepHonest(w, step, id, cleanup);
    case Crash => FlowsKeepHonest(w, step, id, cleanup);
    case _ => RegistryKeepsHonest(w, step, id, cleanup);
  }

  lemma {:induction false} RunKeepsHonest(w: World, steps: seq<Step>, id: string, cleanup: Cleanup)
    requires AllEnabled(w, steps) && Honest(w, id, cleanup) && forall step <- steps :: RegistersAs(step, id, cleanup)
    ensures Honest(After(w, steps), id, cleanup)
    decreases |steps|
  {
    hide Honest, Next, Enabled, RegistersAs;
    if steps != [] {
      StepKeepsHonest(w, steps[0], id, cleanup);
      RunKeepsHonest(Next(w, steps[0]), steps[1..], id, cleanup);
    }
  }

  lemma StartIsHonest(id: string, cleanup: Cleanup)
    ensures Honest(START, id, cleanup)
  {
  }

  lemma {:induction false} ResumesCount(w: World, ids: seq<string>, id: string)
    ensures ResumeEach(w, ids).flows[id] == w.flows[id] + Count(ResumeEffects(w.reg, ids), FlowStarted(id))
    ensures ResumeEach(w, ids).waits[id] == w.waits[id] + Count(ResumeEffects(w.reg, ids), WaitStarted(id))
    decreases |ids|
  {
    if ids != [] {
      hide Resumed, ResumeEffect;
      var effect, next := ResumeEffect(w.reg, ids[0]), Resumed(w.reg, ids[0]);
      ResumesCount(WithEffect(w, next, effect), ids[1..], id);
      assert ResumeEffects(w.reg, ids)[1..] == ResumeEffects(next, ids[1..]);
    }
  }

  // A restart takes up an unclaimed, uncompleted run from the disk: it announces it if it has ended,
  // and waits for it otherwise.
  lemma RestartTakesUp(w: World, order: seq<string>, id: string)
    requires id != "" && id in order && id in w.reg.disk && !w.reg.disk[id].completed && !w.reg.disk[id].handled
    ensures var restarted := Next(Next(w, Crash), Restore(order));
            && restarted.flows[id] == (if Ended(w.reg.disk[id]) then 1 else 0)
            && restarted.waits[id] == (if Ended(w.reg.disk[id]) then 0 else 1)
  {
    hide ResumeEach, ResumeEffects, Merged, Count, Ended;
    var crashed := Next(w, Crash);
    assert crashed.reg == Registry(map[], w.reg.disk, {}, false, false) && Restores(crashed.reg);
    RestartResumesExactly(w.reg.disk, order, id);
    ResumesCount(crashed.(reg := Merged(crashed.reg)), order, id);
  }

  // Over every run: when the announcement of a kept run has failed, the run is unclaimed as soon as
  // the failure is noted, in memory and on disk, no success was ever reported, and a process that
  // starts from that disk announces it, or waits for it if it has no time of its end.
  lemma FailedAnnouncementIsRetried(steps: seq<Step>, id: string, order: seq<string>)
    requires AllEnabled(START, steps) && forall step <- steps :: RegistersAs(step, id, KeepRun)
    requires var w := After(START, steps); (id, false) in w.reports && id in w.reg.runs
    requires id != "" && id in order
    ensures var w := After(START, steps);
            var failed := Next(w, Finalize(id, false));
            var restarted := Next(Next(failed, Crash), Restore(order));
            && id in failed.reg.runs && !failed.reg.runs[id].handled && !failed.reg.runs[id].completed && SavedAll(failed.reg)
            && restarted.flows[id] == (if Ended(w.reg.runs[id]) then 1 else 0)
            && restarted.waits[id] == (if Ended(w.reg.runs[id]) then 0 else 1)
            && restarted.successes[id] == 0
  {
    var w := After(START, steps);
    StartIsHonest(id, KeepRun);
    RunKeepsHonest(START, steps, id, KeepRun);
    StartIsSound(id);
    RunKeepsSound(START, steps, id);
    FailureIsNoted(w, id);
    var failed := Next(w, Finalize(id, false));
    RestartTakesUp(failed, order, id);
    RestartReportsNothing(failed, order);
  }

  lemma FailureIsNoted(w: World, id: string)
    requires Sound(w, id) && Honest(w, id, KeepRun) && (id, false) in w.reports && id in w.reg.runs
    ensures var failed := Next(w, Finalize(id, false));
            && id in failed.reg.runs && !failed.reg.runs[id].handled && !failed.reg.runs[id].completed && SavedAll(failed.reg)
            && failed.reg.runs[id].endedAt == w.reg.runs[id].endedAt && failed.successes[id] == 0
  {
  }

  lemma RestartReportsNothing(w: World, order: seq<string>)
    ensures Next(Next(w, Crash), Restore(order)).successes == w.successes
  {
    hide Merged;
    var crashed := Next(w, Crash);
    ResumesReportNothing(crashed.(reg := Merged(crashed.reg)), order);
  }

  lemma {:induction false} ResumesReportNothing(w: World, ids: seq<string>)
    ensures ResumeEach(w, ids).successes == w.successes
    decreases |ids|
  {
    hide Resumed, ResumeEffect;
    if ids != [] {
      ResumesReportNothing(WithEffect(w, Resumed(w.reg, ids[0]), ResumeEffect(w.reg, ids[0])), ids[1..]);
    }
  }
}
