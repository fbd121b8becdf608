/** The registry of subagent runs: its handlers, and the copy it keeps on disk. */
module SubagentRegistry {
  import opened Wrappers

  datatype Cleanup = DeleteRun | KeepRun

  datatype RunOutcome = NoOutcome | Succeeded | Erred

  datatype Record = Record(cleanup: Cleanup, endedAt: Option<int>, outcome: RunOutcome, archiveAt: Option<int>,
                           completed: bool, handled: bool)

  datatype Registry = Registry(runs: map<string, Record>, disk: map<string, Record>, resumed: set<string>,
                               restoreAttempted: bool, listening: bool)

  datatype Phase = StartPhase | EndPhase | ErrorPhase | OtherPhase

  datatype WaitStatus = WaitOk | WaitError | WaitOther

  // What a handler set going.
  datatype Effect = Nothing | FlowStarted(id: string) | WaitStarted(id: string)

  // Saving is assumed to succeed; it writes the whole map.
  function Persist(r: Registry): Registry {
    r.(disk := r.runs)
  }

  function Update(r: Registry, id: string, record: Record): Registry {
    r.(runs := r.runs[id := record])
  }

  predicate MayBegin(r: Registry, id: string) {
    id in r.runs && !r.runs[id].completed && !r.runs[id].handled
  }

  function Begun(r: Registry, id: string): Registry {
    if MayBegin(r, id) then Persist(Update(r, id, r.runs[id].(handled := true))) else r
  }

  function BeginEffect(r: Registry, id: string): Effect {
    if MayBegin(r, id) then FlowStarted(id) else Nothing
  }

  function Finalized(r: Registry, id: string, cleanup: Cleanup, didAnnounce: bool): Registry {
    if id !in r.runs then r
    else if cleanup == DeleteRun then Persist(r.(runs := r.runs - {id}))
    else if !didAnnounce then Persist(Update(r, id, r.runs[id].(handled := false)))
    else Persist(Update(r, id, r.runs[id].(completed := true)))
  }

  // The run has ended, as far as the resume step can tell.
  predicate Ended(record: Record) {
    record.endedAt.Some? && record.endedAt.value > 0
  }

  predicate MayResume(r: Registry, id: string) {
    id != "" && id !in r.resumed && id in r.runs && !r.runs[id].completed
  }

  function Resumed(r: Registry, id: string): Registry {
    if !MayResume(r, id) then r
    else if !Ended(r.runs[id]) then r.(resumed := r.resumed + {id})
    else if !MayBegin(r, id) then r
    else
      var begun := Begun(r, id);
      begun.(resumed := begun.resumed + {id})
  }

  function ResumeEffect(r: Registry, id: string): Effect {
    if !MayResume(r, id) then Nothing
    else if !Ended(r.runs[id]) then WaitStarted(id)
    else BeginEffect(r, id)
  }

  function ResumedAll(r: Registry, ids: seq<string>): Registry
    decreases |ids|
  {
    if ids == [] then r else ResumedAll(Resumed(r, ids[0]), ids[1..])
  }

  function ResumeEffects(r: Registry, ids: seq<string>): seq<Effect>
    decreases |ids|
  {
    if ids == [] then [] else [ResumeEffect(r, ids[0])] + ResumeEffects(Resumed(r, ids[0]), ids[1..])
  }

  // Records on disk come back unless there is a newer one in memory.
  function Merged(r: Registry): Registry {
    if r.restoreAttempted then r
    else if r.disk == map[] then r.(restoreAttempted := true)
    else
      r.(restoreAttempted := true, listening := true,
         runs := (map id | id in r.disk && id != "" :: r.disk[id]) + r.runs)
  }

  predicate Restores(r: Registry) {
    !r.restoreAttempted && r.disk != map[]
  }

  // `order` lists the keys of the merged map.
  function Restored(r: Registry, order: seq<string>): Registry {
    if Restores(r) then ResumedAll(Merged(r), order) else Merged(r)
  }

  function RestoreEffects(r: Registry, order: seq<string>): seq<Effect> {
    if Restores(r) then ResumeEffects(Merged(r), order) else []
  }

  // The record after a lifecycle end or error.
  function Closed(record: Record, phase: Phase, endedAt: Option<int>, now: int): Record {
    record.(endedAt := Some(if endedAt.Some? then endedAt.value else now),
            outcome := if phase == ErrorPhase then Erred else Succeeded)
  }

  function AfterLifecycle(r: Registry, id: string, phase: Phase, startKnown: bool, endedAt: Option<int>, now: int): Registry {
    if id !in r.runs || phase == OtherPhase then r
    else if phase == StartPhase then if startKnown then Persist(r) else r
    else Begun(Persist(Update(r, id, Closed(r.runs[id], phase, endedAt, now))), id)
  }

  function LifecycleEffect(r: Registry, id: string, phase: Phase): Effect {
    if phase == EndPhase || phase == ErrorPhase then BeginEffect(r, id) else Nothing
  }

  // The record after the gateway reports that the run is over.
  function WaitedRecord(record: Record, status: WaitStatus, endedAt: Option<int>, now: int): Record {
    var told := if endedAt.Some? then endedAt else record.endedAt;
    record.(endedAt := if told.None? || told.value == 0 then Some(now) else told,
            outcome := if status == WaitError then Erred else Succeeded)
  }

  function AfterWait(r: Registry, id: string, status: WaitStatus, endedAt: Option<int>, now: int): Registry {
    if status == WaitOther || id !in r.runs then r
    else Begun(Persist(Update(r, id, WaitedRecord(r.runs[id], status, endedAt, now))), id)
  }

  function WaitEffect(r: Registry, id: string, status: WaitStatus): Effect {
    if status == WaitOther then Nothing else BeginEffect(r, id)
  }

  predicate Expired(r: Registry, id: string, now: int) {
    id in r.runs && r.runs[id].archiveAt.Some? && r.runs[id].archiveAt.value != 0 && r.runs[id].archiveAt.value <= now
  }

  // One deletion of a sweep: memory only, since the sweep saves when it is through.
  function Swept(r: Registry, id: string, now: int): Registry {
    if Expired(r, id, now) then r.(runs := r.runs - {id}) else r
  }

  function Registered(r: Registry, id: string, cleanup: Cleanup, archiveAt: Option<int>): Registry {
    Persist(Update(r, id, Record(cleanup, None, NoOutcome, archiveAt, false, false)).(listening := true))
  }

  function Released(r: Registry, id: string): Registry {
    if id in r.runs then Persist(r.(runs := r.runs - {id})) else r
  }

  // A new process starts with nothing but the disk.
  function Crashed(r: Registry): Registry {
    Registry(map[], r.disk, {}, false, false)
  }

  class SubagentRuns {
    var runs: map<string, Record>
    var disk: map<string, Record>
    var resumedRuns: set<string>
    var restoreAttempted: bool
    var listenerStarted: bool

    function Snapshot(): Registry
      reads this
    {
      Registry(runs, disk, resumedRuns, restoreAttempted, listenerStarted)
    }

    // A process start: module state is empty, the disk is what the last process left.
    constructor (disk: map<string, Record>)
      ensures Snapshot() == Registry(map[], disk, {}, false, false)
    {
      runs, this.disk, resumedRuns := map[], disk, {};
      restoreAttempted, listenerStarted := false, false;
    }

    method PersistSubagentRuns()
      modifies this
      ensures Snapshot() == Persist(old(Snapshot()))
    {
      disk := runs;
    }

    method BeginSubagentCleanup(id: string) returns (ok: bool)
      modifies this
      ensures Snapshot() == Begun(old(Snapshot()), id)
      ensures ok <==> BeginEffect(old(Snapshot()), id) == FlowStarted(id)
    {
      if id !in runs || runs[id].completed || runs[id].handled {
        return false;
      }
      runs := runs[id := runs[id].(handled := true)];
      PersistSubagentRuns();
      return true;
    }

    method FinalizeSubagentCleanup(id: string, cleanup: Cleanup, didAnnounce: bool)
      modifies this
      ensures Snapshot() == Finalized(old(Snapshot()), id, cleanup, didAnnounce)
    {
      if id !in runs {
        return;
      }
      if cleanup == DeleteRun {
        runs := runs - {id};
        PersistSubagentRuns();
        return;
      }
      if !didAnnounce {
        runs := runs[id := runs[id].(handled := false)];
        PersistSubagentRuns();
        return;
      }
      runs := runs[id := runs[id].(completed := true)];
      PersistSubagentRuns();
    }

    method ResumeSubagentRun(id: string) returns (effect: Effect)
      modifies this
      ensures Snapshot() == Resumed(old(Snapshot()), id)
      ensures effect == ResumeEffect(old(Snapshot()), id)
    {
      if id == "" || id in resumedRuns || id !in runs || runs[id].completed {
        return Nothing;
      }
      if runs[id].endedAt.Some? && runs[id].endedAt.value > 0 {
        var ok := BeginSubagentCleanup(id);
        if !ok {
          return Nothing;
        }
        resumedRuns := resumedRuns + {id};
        return FlowStarted(id);
      }
      resumedRuns := resumedRuns + {id};
      return WaitStarted(id);
    }

    method RestoreSubagentRunsOnce(order: seq<string>) returns (effects: seq<Effect>)
      modifies this
      ensures Snapshot() == Restored(old(Snapshot()), order)
      ensures effects == RestoreEffects(old(Snapshot()), order)
    {
      effects := [];
      if restoreAttempted {
        return;
      }
      restoreAttempted := true;
      if disk == map[] {
        return;
      }
      runs := (map id | id in disk && id != "" :: disk[id]) + runs;
      listenerStarted := true;
      ghost var merged := Snapshot();
      for k := 0 to |order|
        invariant ResumedAll(Snapshot(), order[k..]) == ResumedAll(merged, order)
        invariant effects + ResumeEffects(Snapshot(), order[k..]) == ResumeEffects(merged, order)
      {
        assert order[k..][1..] == order[k + 1..];
        var effect := ResumeSubagentRun(order[k]);
        effects := effects + [effect];
      }
      assert order[|order|..] == [];
    }

    method OnLifecycle(id: string, phase: Phase, startKnown: bool, endedAt: Option<int>, now: int) returns (effect: Effect)
      modifies this
      ensures Snapshot() == AfterLifecycle(old(Snapshot()), id, phase, startKnown, endedAt, now)
      ensures effect == LifecycleEffect(old(Snapshot()), id, phase)
    {
      if id !in runs {
        return Nothing;
      }
      if phase == StartPhase {
        if startKnown {
          PersistSubagentRuns();
        }
        return Nothing;
      }
      if phase != EndPhase && phase != ErrorPhase {
        return Nothing;
      }
      runs := runs[id := Closed(runs[id], phase, endedAt, now)];
      PersistSubagentRuns();
      var ok := BeginSubagentCleanup(id);
      return if ok then FlowStarted(id) else Nothing;
    }

    method OnWaitDone(id: string, status: WaitStatus, endedAt: Option<int>, now: int) returns (effect: Effect)
      modifies this
      ensures Snapshot() == AfterWait(old(Snapshot()), id, status, endedAt, now)
      ensures effect == WaitEffect(old(Snapshot()), id, status)
    {
      if status == WaitOther || id !in runs {
        return Nothing;
      }
      runs := runs[id := WaitedRecord(runs[id], status, endedAt, now)];
      PersistSubagentRuns();
      var ok := BeginSubagentCleanup(id);
      return if ok then FlowStarted(id) else Nothing;
    }

    method SweepOne(id: string, now: int)
      modifies this
      ensures Snapshot() == Swept(old(Snapshot()), id, now)
    {
      if id !in runs || runs[id].archiveAt.None? || runs[id].archiveAt.value == 0 || runs[id].archiveAt.value > now {
        return;
      }
      runs := runs - {id};
    }

    method RegisterSubagentRun(id: string, cleanup: Cleanup, archiveAt: Option<int>) returns (effect: Effect)
      modifies this
      ensures Snapshot() == Registered(old(Snapshot()), id, cleanup, archiveAt)
      ensures effect == WaitStarted(id)
    {
      runs := runs[id := Record(cleanup, None, NoOutcome, archiveAt, false, false)];
      listenerStarted := true;
      PersistSubagentRuns();
      return WaitStarted(id);
    }

    method ReleaseSubagentRun(id: string)
      modifies this
      ensures Snapshot() == Released(old(Snapshot()), id)
    {
      if id in runs {
        runs := runs - {id};
        PersistSubagentRuns();
      }
    }
  }
}
