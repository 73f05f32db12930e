// Scheduling of background work: at most one call is ever outstanding, and there is one
// whenever there is something to do or somebody asleep waiting for it.

module Background {

  const L0_COMPACTION_TRIGGER: nat := 4
  const L0_STOP_WRITES_TRIGGER: nat := 12

  /** What the mutex protects.  `score` is the best score of the levels above 0 that are not empty, and
      `seekFile` says a file has used up its seeks; `calls` counts calls handed to the environment and not
      finished, `sleeping` the threads asleep on the background condition. */
  datatype State = State(
    imm: bool,
    manual: bool,
    level0: nat,
    score: real,
    seekFile: bool,
    scheduled: bool,
    running: bool,
    calls: nat,
    shuttingDown: bool,
    error: bool,
    sleeping: nat)

  const INITIAL: State := State(false, false, 0, 0.0, false, false, false, 0, false, false, 0)

  function CompactionScore(st: State): real {
    var first := st.level0 as real / L0_COMPACTION_TRIGGER as real;
    if st.score > first then st.score else first
  }

  predicate NeedsCompaction(st: State) {
    CompactionScore(st) >= 1.0 || st.seekFile
  }

  predicate HasWork(st: State) {
    st.imm || st.manual || NeedsCompaction(st)
  }

  function MaybeSchedule(st: State): State {
    if st.scheduled then st
    else if st.shuttingDown then st
    else if st.error then st
    else if !st.imm && !st.manual && !NeedsCompaction(st) then st
    else st.(scheduled := true, calls := st.calls + 1)
  }

  datatype Step =
    | SwitchMemtable
    | SleepForRoom
    | SleepForManual
    | SleepForShutdown
    | RequestManual
    | CancelManual
    | ReadUsedUpSeeks(found: bool)
    | SyncFails
    | ShutDown
    | CallStarts
    | CallWorks(flushed: bool, manualDone: bool, level0: nat, score: real, seekFile: bool, fails: bool)
    | CallEnds

  predicate Enabled(st: State, step: Step) {
    match step
    case SwitchMemtable => !st.error && !st.imm && st.level0 < L0_STOP_WRITES_TRIGGER
    case SleepForRoom => !st.error && (st.imm || st.level0 >= L0_STOP_WRITES_TRIGGER)
    case SleepForManual => st.manual && !st.error && !st.shuttingDown
    case SleepForShutdown => st.shuttingDown && st.scheduled
    case RequestManual => !st.manual && !st.error && !st.shuttingDown
    case CancelManual => st.manual
    case ReadUsedUpSeeks(_) => true
    case SyncFails => true
    case ShutDown => true
    case CallStarts => st.scheduled && !st.running
    case CallWorks(_, _, _, _, _, _) => st.running && !st.error
    case CallEnds => st.running
  }

  /** An error is recorded once, and wakes everybody. */
  function RecordError(st: State): State {
    if st.error then st else st.(error := true, sleeping := 0)
  }

  function Do(st: State, step: Step): State {
    match step
    case SwitchMemtable => MaybeSchedule(st.(imm := true))
    case SleepForRoom => st.(sleeping := st.sleeping + 1)
    case SleepForManual => st.(sleeping := st.sleeping + 1)
    case SleepForShutdown => st.(sleeping := st.sleeping + 1)
    case RequestManual => MaybeSchedule(st.(manual := true))
    case CancelManual => st.(manual := false)
    case ReadUsedUpSeeks(found) => if found then MaybeSchedule(st.(seekFile := true)) else st
    case SyncFails => RecordError(st)
    case ShutDown => st.(shuttingDown := true)
    case CallStarts => st.(running := true)
    case CallWorks(flushed, manualDone, level0, score, seekFile, fails) =>
      var worked := st.(imm := st.imm && !flushed, manual := st.manual && !manualDone,
                        level0 := level0, score := score, seekFile := seekFile);
      if fails then RecordError(worked) else worked
    case CallEnds =>
      var ended := st.(scheduled := false, running := false, calls := if st.calls > 0 then st.calls - 1 else 0);
      MaybeSchedule(ended).(sleeping := 0)
  }

  predicate Inv(st: State) {
    && st.calls == (if st.scheduled then 1 else 0)
    && (st.running ==> st.scheduled)
    && (HasWork(st) ==> st.scheduled || st.error || st.shuttingDown)
    && (st.sleeping > 0 ==> st.scheduled || st.shuttingDown)
  }

  lemma {:induction false} StepKeepsInv(st: State, step: Step)
    requires Inv(st) && Enabled(st, step)
    ensures Inv(Do(st, step))
  {
    if step.SleepForRoom? && !st.imm {
      assert st.level0 as real >= 12.0;
      assert CompactionScore(st) >= 1.0;
    }
  }

  predicate Runs(st: State, steps: seq<Step>, end: State)
    decreases |steps|
  {
    if steps == [] then st == end
    else Enabled(st, steps[0]) && Runs(Do(st, steps[0]), steps[1..], end)
  }

  /** Whatever happens in whatever order: with the mutex free, if a memtable waits to be flushed, a manual
      compaction was asked for, a file has used up its seeks, level 0 has four files or some other level is at
      its limit, then a call is outstanding, or an error is recorded, or shutdown has begun; never more than
      one call is outstanding; and nobody sleeps without a call outstanding that will wake everybody, unless
      shutdown has begun. */
  lemma {:induction false} NoLostWork(st: State, steps: seq<Step>, end: State)
    requires Inv(st) && Runs(st, steps, end)
    ensures end.calls == (if end.scheduled then 1 else 0)
    ensures end.imm || end.manual || end.seekFile || end.level0 >= 4 || end.score >= 1.0 ==>
              end.scheduled || end.error || end.shuttingDown
    ensures end.sleeping > 0 ==> end.scheduled || end.shuttingDown
    ensures Inv(end)
    decreases |steps|
  {
    hide Inv;
    if steps == [] {
      InvSays(end);
      WorkIs(end);
    } else {
      StepKeepsInv(st, steps[0]);
      NoLostWork(Do(st, steps[0]), steps[1..], end);
    }
  }

  /** What counts as work, in terms of what there is to do. */
  lemma {:induction false} WorkIs(st: State)
    ensures HasWork(st) <==> st.imm || st.manual || st.seekFile || st.level0 >= 4 || st.score >= 1.0
  {
    assert st.level0 >= 4 <==> st.level0 as real / 4.0 >= 1.0;
  }

  /** A call is started exactly when there is something to do and nothing in the way, and nothing else changes. */
  lemma {:induction false} SchedulesIff(st: State)
    ensures var work := st.imm || st.manual || st.seekFile || st.level0 >= 4 || st.score >= 1.0;
            MaybeSchedule(st) == if work && !st.scheduled && !st.shuttingDown && !st.error
                                 then st.(scheduled := true, calls := st.calls + 1) else st
  {
    WorkIs(st);
  }

  lemma {:induction false} InvSays(st: State)
    requires Inv(st)
    ensures st.calls == (if st.scheduled then 1 else 0)
    ensures HasWork(st) ==> st.scheduled || st.error || st.shuttingDown
    ensures st.sleeping > 0 ==> st.scheduled || st.shuttingDown
  {
  }

  /** A moment of the run at which nobody is asleep any more, with another call scheduled if there is work left. */
  ghost predicate WokenAt(st: State, steps: seq<Step>, k: nat, mid: State) {
    && k <= |steps| && Runs(st, steps[..k], mid) && mid.sleeping == 0
    && (HasWork(mid) && !mid.error && !mid.shuttingDown ==> mid.scheduled)
  }

  /** Until the outstanding call ends it stays outstanding, and its next move stays possible. */
  lemma {:induction false} CallStaysOutstanding(st: State, steps: seq<Step>, end: State)
    requires Inv(st) && st.scheduled && Runs(st, steps, end) && CallEnds !in steps
    ensures end.scheduled && end.calls == 1 && (Enabled(end, CallStarts) || Enabled(end, CallEnds))
    decreases |steps|
  {
    hide Inv;
    if steps == [] {
      InvSays(end);
    } else {
      assert steps[0] in steps && steps[0] != CallEnds;
      StepKeepsInv(st, steps[0]);
      assert forall s :: s in steps[1..] ==> s in steps;
      CallStaysOutstanding(Do(st, steps[0]), steps[1..], end);
    }
  }

  lemma {:induction false} EndWakesAll(st: State, steps: seq<Step>, end: State)
    requires Inv(st) && Runs(st, steps, end) && CallEnds in steps
    ensures exists k: nat, mid :: WokenAt(st, steps, k, mid)
    decreases |steps|
  {
    StepKeepsInv(st, steps[0]);
    if steps[0] == CallEnds {
      var mid := Do(st, CallEnds);
      assert steps[..1] == [CallEnds] && [CallEnds][1..] == [];
      assert Runs(mid, [], mid);
      assert WokenAt(st, steps, 1, mid);
    } else {
      assert CallEnds in steps[1..];
      EndWakesAll(Do(st, steps[0]), steps[1..], end);
      var k: nat, mid :| WokenAt(Do(st, steps[0]), steps[1..], k, mid);
      assert steps[..k + 1][1..] == steps[1..][..k];
      assert WokenAt(st, steps, k + 1, mid);
    }
  }

  /** From any reachable state with somebody asleep and shutdown not begun, whatever happens next: as long as
      the outstanding call has not ended it is outstanding and can go on, and in every schedule in which it
      ends everybody is woken, with another call scheduled if there is work left. */
  lemma {:induction false} SleepersAreWoken(past: seq<Step>, st: State, steps: seq<Step>, end: State)
    requires Runs(INITIAL, past, st) && st.sleeping > 0 && !st.shuttingDown
    requires Runs(st, steps, end)
    ensures CallEnds !in steps ==> end.calls == 1 && (Enabled(end, CallStarts) || Enabled(end, CallEnds))
    ensures CallEnds in steps ==> exists k: nat, mid :: WokenAt(st, steps, k, mid)
  {
    NoLostWork(INITIAL, past, st);
    if CallEnds in steps {
      EndWakesAll(st, steps, end);
    } else {
      CallStaysOutstanding(st, steps, end);
    }
  }

  /** The end of a call leaves a call outstanding exactly if there is more to do and nothing in the way. */
  lemma {:induction false} CallsEnd(past: seq<Step>, st: State)
    requires Runs(INITIAL, past, st) && Enabled(st, CallEnds)
    ensures var end := Do(st, CallEnds);
            var work := st.imm || st.manual || st.seekFile || st.level0 >= 4 || st.score >= 1.0;
            && !end.running && end.sleeping == 0
            && end.calls == (if work && !st.error && !st.shuttingDown then 1 else 0)
            && (end.scheduled <==> end.calls == 1)
            && end == st.(scheduled := end.scheduled, running := false, calls := end.calls, sleeping := 0)
  {
    NoLostWork(INITIAL, past, st);
    WorkIs(st);
  }

  /** Once shutdown has begun no more calls are made: as soon as the outstanding one has ended there is none, for good,
      so whoever waits for that to close the database gets there. */
  lemma {:induction false} ShutdownSettles(st: State, steps: seq<Step>, end: State)
    requires Inv(st) && st.shuttingDown && Runs(st, steps, end)
    requires CallEnds in steps || !st.scheduled
    ensures end.shuttingDown && !end.scheduled && end.calls == 0
    decreases |steps|
  {
    if steps != [] {
      StepKeepsInv(st, steps[0]);
      assert steps[0] == CallEnds || !st.scheduled || CallEnds in steps[1..];
      ShutdownSettles(Do(st, steps[0]), steps[1..], end);
    }
  }
}
