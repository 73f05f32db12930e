// The engine over its files: the log is written before the memtable, the manifest before a new
// version is used, obsolete files are deleted, and the process may die between any two steps.

module Storage {
  import opened Keys
  import opened Levels
  import opened Overlaps
  import opened Compactions
  import opened VersionBuilder
  import opened LevelEdits
  import opened Manifest
  import E = Engine

  /** What the manifest rebuilds. */
  datatype Meta = Meta(version: Version, logNumber: nat, lastSequence: SequenceNumber, nextFile: nat)

  /** Where the background thread is: building tables for a job; done with the manifest record that makes the
      job permanent but not yet back under the mutex to use it; called away from a compaction it is building,
      to come back to it after deleting obsolete files; or done with a job and about to delete them. */
  datatype Work =
    | NoWork
    | Building(job: E.Step)
    | Written(job: E.Step)
    | Interrupted(job: E.Step)
    | Cleaning

  /** The files: `logs` are the whole records of each log, `descriptors` what the records of each manifest
      rebuild, `current` the manifest that CURRENT names, `tables` the tables there are.  In memory:
      `logged` says the group being applied is in the current log already, `descriptor` is the manifest
      the version set writes to, `pending` protects tables being built and `created` are those of the job
      that are built; `pinned` are versions readers hold on to. */
  datatype Store = Store(
    db: E.Db,
    logged: bool,
    logs: map<nat, seq<seq<Entry>>>,
    logFile: nat,
    descriptors: map<nat, Meta>,
    current: nat,
    descriptor: nat,
    tables: set<nat>,
    pending: set<nat>,
    created: set<nat>,
    pinned: multiset<Version>,
    work: Work)

  const INITIAL: Store :=
    Store(E.INITIAL, false, map[3 := []], 3, map[2 := Meta(EMPTY_VERSION, 3, 0, 2)], 2, 2, {}, {}, {}, multiset{}, Cleaning)

  /** What opening the database would find in the manifest. */
  function Named(st: Store): Meta {
    if st.current in st.descriptors then st.descriptors[st.current] else Meta(EMPTY_VERSION, 0, 0, 0)
  }

  // ----- files -----

  function Outputs(job: E.Step): set<nat> {
    match job
    case Flush(_, f) => {f.number}
    case Compact(_, _, _, outputs, _) => set f | f in outputs :: f.number
    case _ => {}
  }

  function Numbers(v: Version): set<nat> {
    set l, f | 0 <= l < |v| && f in v[l] :: f.number
  }

  function LogEntries(log: seq<seq<Entry>>): set<Entry> {
    set i, e | 0 <= i < |log| && e in log[i] :: e
  }

  /** The entries in the logs numbered at least `from` and below `to`. */
  function Logged(logs: map<nat, seq<seq<Entry>>>, from: nat, to: nat): set<Entry> {
    set n, e | n in logs && from <= n < to && e in LogEntries(logs[n]) :: e
  }

  function LiveEntries(logs: map<nat, seq<seq<Entry>>>, from: nat): set<Entry> {
    set n, e | n in logs && from <= n && e in LogEntries(logs[n]) :: e
  }

  function Group(st: Store): set<Entry> {
    if st.logged then set e | e in st.db.batch else {}
  }

  // ----- steps -----

  predicate IsJob(step: E.Step) {
    step.Flush? || step.FlushEmpty? || step.Compact? || step.Move?
  }

  datatype Action =
    | Begin(ops: seq<E.Op>)
    | AppendLog
    | Insert
    | Publish
    | CreateLog(number: nat)
    | Switch(id: nat, number: nat)
    | Snapshot(step: E.Step)
    | Pin
    | Unpin(version: Version)
    | Start(job: E.Step)
    | CreateTable(number: nat)
    | WriteManifest
    | Install
    | Interrupt
    | Collect

  ghost predicate Enabled(st: Store, a: Action)
    requires Shape(st.db.version)
  {
    match a
    case Begin(ops) => E.Enabled(st.db, E.BeginGroup(ops))
    case AppendLog => st.db.batch != [] && !st.logged && st.logFile in st.logs
    case Insert => st.logged && E.Enabled(st.db, E.InsertOne)
    case Publish => st.logged && E.Enabled(st.db, E.PublishGroup)
    case CreateLog(n) => forall m :: m in st.logs ==> m < n
    case Switch(id, n) => n in st.logs && n > st.logFile && E.Enabled(st.db, E.SwitchMemtable(id))
    case Snapshot(step) => (step.TakeSnapshot? || step.ReleaseSnapshot?) && E.Enabled(st.db, step)
    case Pin => true
    case Unpin(v) => v in st.pinned
    case Start(job) => st.work.NoWork? && IsJob(job) && E.Enabled(st.db, job)
    case CreateTable(n) => st.work.Building? && n in Outputs(st.work.job)
    case WriteManifest => st.work.Building? && st.created == Outputs(st.work.job) && st.descriptor in st.descriptors
    case Install => st.work.Written?
    case Interrupt => st.work.Building? && st.work.job.Compact?
    case Collect => st.work.Cleaning? || st.work.Interrupted?
  }

  /** What the version set keeps: the tables of the current version and of every pinned one. */
  function Live(st: Store): set<nat> {
    Numbers(st.db.version) + set v, n | v in st.pinned && n in Numbers(v) :: n
  }

  function Do(st: Store, a: Action): Store
    requires st.db.mem in st.db.tables
  {
    match a
    case Begin(ops) => st.(db := E.Do(st.db, E.BeginGroup(ops)), logged := false)
    case AppendLog =>
      if st.logFile in st.logs then
        st.(logs := st.logs[st.logFile := st.logs[st.logFile] + [st.db.batch]], logged := true)
      else st
    case Insert => st.(db := E.Do(st.db, E.InsertOne))
    case Publish => st.(db := E.Do(st.db, E.PublishGroup), logged := false)
    case CreateLog(n) => st.(logs := st.logs[n := []])
    case Switch(id, n) => st.(db := E.Do(st.db, E.SwitchMemtable(id)), logFile := n)
    case Snapshot(step) => st.(db := E.Do(st.db, step))
    case Pin => st.(pinned := st.pinned + multiset{st.db.version})
    case Unpin(v) => st.(pinned := st.pinned - multiset{v})
    case Start(job) => st.(work := Building(job), pending := st.pending + Outputs(job), created := {})
    case CreateTable(n) => st.(tables := st.tables + {n}, created := st.created + {n})
    case WriteManifest =>
      // A flush forgets its pending output before this, a compaction after it is installed.
      if st.work.Building? then
        var job := st.work.job;
        var db2 := E.Do(st.db, job);
        var flush := IsFlush(job);
        st.(descriptors := st.descriptors[st.descriptor := Meta(db2.version, if flush then st.logFile else Named(st).logNumber,
                                                                st.db.lastSequence, db2.nextFile)],
            pending := if flush then st.pending - Outputs(job) else st.pending,
            work := Written(job))
      else st
    case Install =>
      if st.work.Written? then
        st.(db := E.Do(st.db, st.work.job), pending := st.pending - Outputs(st.work.job), work := Cleaning)
      else st
    case Interrupt => if st.work.Building? then st.(work := Interrupted(st.work.job)) else st
    case Collect =>
      st.(tables := st.tables * (Live(st) + st.pending),
          logs := map n | n in st.logs && n >= Named(st).logNumber :: st.logs[n],
          descriptors := map n | n in st.descriptors && n >= st.descriptor :: st.descriptors[n],
          work := if st.work.Interrupted? then Building(st.work.job) else NoWork)
  }

  // ----- the invariant -----

  /** The engine state the manifest is for. */
  function Target(st: Store): E.Db
    requires st.db.mem in st.db.tables
  {
    if st.work.Written? then E.Do(st.db, st.work.job) else st.db
  }

  /** What has been inserted of the group is in the current memtable. */
  ghost predicate BatchInMem(db: E.Db) {
    && db.inserted <= |db.batch|
    && forall i :: 0 <= i < db.inserted ==> db.batch[i] in E.Contents(db, Some(db.mem))
  }

  predicate HasJob(work: Work) {
    work.Building? || work.Written? || work.Interrupted?
  }

  ghost predicate EngineOk(st: Store) {
    && E.BaseInv(st.db)
    && (HasJob(st.work) ==> IsJob(st.work.job) && E.Enabled(st.db, st.work.job))
    && BatchInMem(st.db)
  }

  predicate IsFlush(job: E.Step) {
    job.Flush? || job.FlushEmpty?
  }

  /** The memtable whose entries are in no table of the manifest's version yet. */
  function Waiting(st: Store): set<Entry> {
    if st.work.Written? && IsFlush(st.work.job) then {} else E.Contents(st.db, st.db.imm)
  }

  /** The log `at` holds `current`, the ones before it, from `from` on, hold `waiting`, and the ones after
      it nothing. */
  ghost predicate LogsHold(logs: map<nat, seq<seq<Entry>>>, from: nat, at: nat, current: set<Entry>, waiting: set<Entry>) {
    && at in logs && from <= at
    && LogEntries(logs[at]) == current
    && Logged(logs, from, at) == waiting
    && (forall n :: n in logs && n > at ==> logs[n] == [])
  }

  /** The logs from the manifest's log number on hold exactly what is in no table of its version. */
  ghost predicate LogsOk(st: Store) {
    && LogsHold(st.logs, Named(st).logNumber, st.logFile, E.Contents(st.db, Some(st.db.mem)) + Group(st), Waiting(st))
    && (!st.logged ==> st.db.inserted == 0)
    && (st.db.batch == [] ==> !st.logged)
  }

  ghost predicate ManifestOk(st: Store)
    requires st.db.mem in st.db.tables
  {
    && st.current == st.descriptor && st.current in st.descriptors
    && Named(st).version == Target(st).version
    && Named(st).nextFile == Target(st).nextFile
    && Named(st).lastSequence <= st.db.lastSequence
    && (forall e :: e in VersionEntries(Named(st).version) ==> e.key.sequence <= Named(st).lastSequence)
    && (forall e :: e in st.db.history ==>
          e in LiveEntries(st.logs, Named(st).logNumber) || e.key.sequence <= Named(st).lastSequence)
  }

  /** Every table that is needed is there. */
  ghost predicate TablesOk(st: Store) {
    && Live(st) <= st.tables
    && Numbers(Named(st).version) <= st.tables
    && (st.work.Building? || st.work.Interrupted? ==>
          Outputs(st.work.job) <= st.pending && st.created <= Outputs(st.work.job) && st.created <= st.tables)
  }

  ghost predicate Inv(st: Store) {
    EngineOk(st) && LogsOk(st) && ManifestOk(st) && TablesOk(st)
  }

  // ----- lemmas about logs -----

  lemma {:induction false} LiveIsLogged(logs: map<nat, seq<seq<Entry>>>, from: nat, at: nat)
    requires at in logs && from <= at && forall n :: n in logs && n > at ==> logs[n] == []
    ensures LiveEntries(logs, from) == Logged(logs, from, at) + LogEntries(logs[at])
  {
    forall e
      ensures e in LiveEntries(logs, from) <==> e in Logged(logs, from, at) || e in LogEntries(logs[at])
    {
      if e in LiveEntries(logs, from) {
        var n: nat :| n in logs && from <= n && e in LogEntries(logs[n]);
        assert n <= at;
      }
      if e in Logged(logs, from, at) {
        var n: nat :| n in logs && from <= n < at && e in LogEntries(logs[n]);
      }
    }
  }

  lemma {:induction false} LogGrows(log: seq<seq<Entry>>, record: seq<Entry>)
    ensures LogEntries(log + [record]) == LogEntries(log) + set e | e in record
  {
    var more := log + [record];
    forall e
      ensures e in LogEntries(more) <==> e in LogEntries(log) || e in record
    {
      if e in LogEntries(log) {
        var i :| 0 <= i < |log| && e in log[i];
        assert more[i] == log[i];
      }
      if e in record {
        assert more[|log|] == record;
      }
    }
  }

  // ----- the engine's jobs and its foreground -----

  predicate IsForeground(step: E.Step) {
    step.BeginGroup? || step.InsertOne? || step.PublishGroup? || step.SwitchMemtable? || step.TakeSnapshot?
    || step.ReleaseSnapshot?
  }

  /** What the foreground does leaves a job that is under way possible, with the same effect on the version. */
  lemma {:induction false} ForegroundKeepsJob(db: E.Db, step: E.Step, job: E.Step)
    requires E.BaseInv(db) && IsForeground(step) && E.Enabled(db, step) && IsJob(job) && E.Enabled(db, job)
    ensures var db2 := E.Do(db, step);
            && db2.version == db.version && db2.nextFile == db.nextFile && db2.mem in db2.tables
            && E.Enabled(db2, job)
            && E.Do(db2, job).version == E.Do(db, job).version && E.Do(db2, job).nextFile == E.Do(db, job).nextFile
            && (IsFlush(job) ==> !step.SwitchMemtable?)
  {
    hide WellFormed, E.ReadsOk, E.HistoryOk, E.NumbersBelow, ApplyEdit, InputsClosed, FlushPlacement,
      GoodFile, Kept, GoodOutputs, Sorted, E.Layered, E.Contents, E.CompactEnabled;
    var db2 := E.Do(db, step);
    if !step.SwitchMemtable? {
      SameWaiting(db, step);
    }
    if job.Compact? {
      HasShape(db);
      CompactStaysEnabled(db, db2, job);
    }
  }

  lemma {:induction false} HasShape(db: E.Db)
    requires E.BaseInv(db)
    ensures Shape(db.version) && db.mem in db.tables
  {
  }

  lemma {:induction false} SameWaiting(db: E.Db, step: E.Step)
    requires E.MemOk(db) && IsForeground(step) && !step.SwitchMemtable?
    ensures E.Contents(E.Do(db, step), db.imm) == E.Contents(db, db.imm) && E.Do(db, step).imm == db.imm
  {
  }

  lemma {:induction false} CompactStaysEnabled(db: E.Db, db2: E.Db, job: E.Step)
    requires job.Compact? && Shape(db.version) && E.CompactEnabled(db, job.c, job.ss, job.input, job.outputs, job.next)
    requires db2.version == db.version && db2.nextFile == db.nextFile && db2.lastSequence >= db.lastSequence
    requires db2.snapshots <= db.snapshots + multiset{db.lastSequence}
    ensures E.CompactEnabled(db2, job.c, job.ss, job.input, job.outputs, job.next)
  {
    hide Shape, InputsClosed, Sorted, Kept, GoodOutputs, FilesEntries, Elements;
    forall n | n in db2.snapshots
      ensures job.ss <= n
    {
      assert n in db.snapshots || n == db.lastSequence;
    }
  }

  /** A job changes the version, the file counter and at most the memtable waiting to be flushed. */
  lemma {:induction false} JobEffect(db: E.Db, job: E.Step)
    requires E.BaseInv(db) && IsJob(job) && E.Enabled(db, job)
    ensures var db2 := E.Do(db, job);
            && E.BaseInv(db2)
            && db2 == db.(version := db2.version, nextFile := db2.nextFile, imm := db2.imm)
            && db2.imm == (if IsFlush(job) then None else db.imm)
            && Numbers(db2.version) <= Numbers(db.version) + Outputs(job)
  {
    E.StepKeepsBase(db, job);
    JobFiles(db, job);
  }

  lemma {:induction false} JobFiles(db: E.Db, job: E.Step)
    requires E.BaseInv(db) && IsJob(job) && E.Enabled(db, job)
    ensures Numbers(E.Do(db, job).version) <= Numbers(db.version) + Outputs(job)
  {
    hide ApplyEdit, E.ReadsOk, GoodFile, FlushPlacement, Kept, Sorted;
    var w := E.Do(db, job).version;
    forall l, f | 0 <= l < |w| && f in w[l]
      ensures f.number in Numbers(db.version) + Outputs(job)
    {
      JobFile(db, job, l, f);
    }
  }

  lemma {:induction false} JobFile(db: E.Db, job: E.Step, l: nat, f: File)
    requires E.BaseInv(db) && IsJob(job) && E.Enabled(db, job)
    requires l < |E.Do(db, job).version| && f in E.Do(db, job).version[l]
    ensures f.number in Numbers(db.version) + Outputs(job)
  {
    hide ApplyEdit, E.ReadsOk, E.GroupOk, GoodFile, FlushPlacement, Kept, Sorted, GoodOutputs, InputsClosed,
      UniqueSequences, VersionEntries, WellFormed, E.NumbersBelow, E.HistoryOk, FilesEntries, Shape;
    var v, w := db.version, E.Do(db, job).version;
    match job
    case Flush(level, g) =>
      E.FlushIsNewest(db, level, g);
      FlushKeepsWellFormed(v, level, g);
      WidthIs(v);
      WidthIs(w);
    case FlushEmpty =>
    case Compact(c, ss, input, outputs, next) =>
      E.BaseShape(v, c);
      E.StepKeepsBase(db, job);
      E.CompactKeepsBase(db, c, ss, input, outputs, next);
      WidthIs(v);
      WidthIs(w);
      InstalledFile(v, w, c, outputs, l, f);
    case Move(c, maxFileSize) =>
      E.BaseShape(v, c);
      E.StepKeepsBase(db, job);
      E.MoveKeepsBase(db, c, maxFileSize);
      WidthIs(v);
      WidthIs(w);
      InstalledFile(v, w, c, c.upper, l, f);
      UpperIsMember(v, c);
  }

  lemma {:induction false} WidthIs(v: Version)
    ensures |v| == NUM_LEVELS
  {
  }

  lemma {:induction false} InstalledFile(v: Version, w: Version, c: Inputs, outputs: seq<File>, l: nat, f: File)
    requires c.level + 1 < NUM_LEVELS && |v| == |w| == NUM_LEVELS && l < NUM_LEVELS
    requires Installed(v, w, c, outputs) && f in w[l]
    ensures f in v[l] || f in outputs
  {
  }

  /** Nothing in a table or in a memtable waiting for its flush is unpublished. */
  lemma {:induction false} TablesArePublished(db: E.Db, e: Entry)
    requires E.BaseInv(db) && (e in VersionEntries(db.version) || e in E.Contents(db, db.imm))
    requires BatchInMem(db)
    ensures e.key.sequence <= db.lastSequence
  {
    hide WellFormed, E.ReadsOk, VersionEntries, UniqueSequences, E.NumbersBelow;
    assert e in E.Entries(db);
    if db.inserted > 0 {
      var first := db.batch[0];
      assert first in E.Contents(db, Some(db.mem));
    }
  }

  // ----- every action keeps the invariant -----

  lemma {:induction false} InitialInv()
    ensures Inv(INITIAL)
  {
    E.InitialInv();
    assert forall l :: 0 <= l < NUM_LEVELS ==> EMPTY_VERSION[l] == [];
    assert VersionEntries(EMPTY_VERSION) == {};
    assert Numbers(EMPTY_VERSION) == {};
    assert LogEntries([]) == {};
    assert E.Contents(E.INITIAL, None) == {};
    assert Logged(INITIAL.logs, 3, 3) == {};
  }

  /** An action of the foreground on the engine, with what it means for the logs still to be shown. */
  lemma {:induction false} ForegroundKeepsInv(st: Store, st2: Store, step: E.Step)
    requires Shape(st.db.version) && st.db.mem in st.db.tables
    requires IsForeground(step) && E.Enabled(st.db, step)
    requires Inv(st)
    requires st2 == st.(db := E.Do(st.db, step), logged := st2.logged, logFile := st2.logFile)
    requires BatchInMem(st2.db)
    requires st2.db.mem in st2.db.tables
    requires E.BaseInv(st2.db) ==> LogsOk(st2)
    requires forall e :: e in st2.db.history ==> e in st.db.history || e in LiveEntries(st.logs, Named(st).logNumber)
    ensures Inv(st2)
  {
    hide E.Enabled, E.Do, LogsOk, VersionEntries, LiveEntries, Numbers;
    E.StepKeepsBase(st.db, step);
    SequencesGrow(st.db, step);
    if HasJob(st.work) {
      ForegroundKeepsJob(st.db, step, st.work.job);
    } else {
      ForegroundKeepsVersion(st.db, step);
    }
  }

  lemma {:induction false} SequencesGrow(db: E.Db, step: E.Step)
    requires IsForeground(step) && db.mem in db.tables
    ensures E.Do(db, step).lastSequence >= db.lastSequence
  {
  }

  lemma {:induction false} ForegroundKeepsVersion(db: E.Db, step: E.Step)
    requires IsForeground(step) && db.mem in db.tables
    ensures E.Do(db, step).version == db.version && E.Do(db, step).nextFile == db.nextFile
  {
  }

  lemma {:induction false} WaitingStays(st: Store, st2: Store, step: E.Step)
    requires E.MemOk(st.db) && IsForeground(step) && !step.SwitchMemtable?
    requires st2.db == E.Do(st.db, step) && st2.work == st.work
    ensures Waiting(st2) == Waiting(st)
  {
    SameWaiting(st.db, step);
  }

  lemma {:induction false} BeginKeepsInv(st: Store, ops: seq<E.Op>)
    requires Inv(st) && Enabled(st, Begin(ops))
    ensures Inv(Do(st, Begin(ops)))
  {
    hide ManifestOk, TablesOk, LogsHold, E.ReadsOk, E.HistoryOk, WellFormed, E.NumbersBelow, E.Layered;
    var st2 := Do(st, Begin(ops));
    WaitingStays(st, st2, E.BeginGroup(ops));
    assert E.Contents(st2.db, Some(st2.db.mem)) == E.Contents(st.db, Some(st.db.mem));
    assert Group(st2) == {} && Group(st) == {};
    HasShape(st.db);
    ForegroundKeepsInv(st, st2, E.BeginGroup(ops));
  }

  lemma {:induction false} InsertKeepsInv(st: Store)
    requires Inv(st) && Enabled(st, Insert)
    ensures Inv(Do(st, Insert))
  {
    hide ManifestOk, TablesOk, LogsHold, E.ReadsOk, E.HistoryOk, WellFormed, E.NumbersBelow, E.Layered, LiveEntries;
    var st2, e := Do(st, Insert), st.db.batch[st.db.inserted];
    WaitingStays(st, st2, E.InsertOne);
    assert E.Contents(st2.db, Some(st2.db.mem)) == E.Contents(st.db, Some(st.db.mem)) + {e};
    assert e in Group(st) && Group(st2) == Group(st);
    assert E.Contents(st2.db, Some(st2.db.mem)) + Group(st2) == E.Contents(st.db, Some(st.db.mem)) + Group(st);
    CurrentIsLive(st, e);
    HasShape(st.db);
    ForegroundKeepsInv(st, st2, E.InsertOne);
  }

  lemma {:induction false} CurrentIsLive(st: Store, e: Entry)
    requires LogsOk(st) && (e in E.Contents(st.db, Some(st.db.mem)) || e in Group(st))
    ensures e in LiveEntries(st.logs, Named(st).logNumber)
  {
    assert e in LogEntries(st.logs[st.logFile]);
  }

  lemma {:induction false} PublishKeepsInv(st: Store)
    requires Inv(st) && Enabled(st, Publish)
    ensures Inv(Do(st, Publish))
  {
    hide ManifestOk, TablesOk, LogsHold, E.ReadsOk, E.HistoryOk, WellFormed, E.NumbersBelow, E.Layered, LiveEntries;
    var st2 := Do(st, Publish);
    WaitingStays(st, st2, E.PublishGroup);
    var mem := E.Contents(st.db, Some(st.db.mem));
    assert E.Contents(st2.db, Some(st2.db.mem)) == mem && Group(st2) == {};
    assert mem + Group(st) == mem + {};
    HasShape(st.db);
    ForegroundKeepsInv(st, st2, E.PublishGroup);
  }

  lemma {:induction false} SnapshotKeepsInv(st: Store, step: E.Step)
    requires Inv(st) && Enabled(st, Snapshot(step))
    ensures Inv(Do(st, Snapshot(step)))
  {
    hide ManifestOk, TablesOk, LogsHold, E.ReadsOk, E.HistoryOk, WellFormed, E.NumbersBelow, E.Layered;
    var st2 := Do(st, Snapshot(step));
    WaitingStays(st, st2, step);
    HasShape(st.db);
    ForegroundKeepsInv(st, st2, step);
  }

  lemma {:induction false} SwitchKeepsInv(st: Store, id: nat, number: nat)
    requires Inv(st) && Enabled(st, Switch(id, number))
    ensures Inv(Do(st, Switch(id, number)))
  {
    hide ManifestOk, TablesOk, E.ReadsOk, E.HistoryOk, WellFormed, E.NumbersBelow, E.Layered, LogEntries, Logged;
    var st2 := Do(st, Switch(id, number));
    assert !(st.work.Written? && IsFlush(st.work.job));
    assert E.Contents(st2.db, Some(st2.db.mem)) == {} && Group(st2) == {};
    assert Waiting(st2) == E.Contents(st.db, Some(st.db.mem));
    assert Waiting(st) == {};
    NextLog(st.logs, Named(st).logNumber, st.logFile, number);
    HasShape(st.db);
    ForegroundKeepsInv(st, st2, E.SwitchMemtable(id));
  }

  lemma {:induction false} NextLog(logs: map<nat, seq<seq<Entry>>>, from: nat, at: nat, next: nat)
    requires at in logs && next in logs && from <= at < next && forall n :: n in logs && n > at ==> logs[n] == []
    ensures Logged(logs, from, next) == Logged(logs, from, at) + LogEntries(logs[at])
    ensures LogEntries(logs[next]) == {}
  {
    forall e
      ensures e in Logged(logs, from, next) <==> e in Logged(logs, from, at) || e in LogEntries(logs[at])
    {
      if e in Logged(logs, from, next) {
        var n: nat :| n in logs && from <= n < next && e in LogEntries(logs[n]);
        assert n <= at;
      }
      if e in Logged(logs, from, at) {
        var n: nat :| n in logs && from <= n < at && e in LogEntries(logs[n]);
      }
    }
  }

  lemma {:induction false} AppendKeepsInv(st: Store)
    requires Inv(st) && Enabled(st, AppendLog)
    ensures Inv(Do(st, AppendLog))
  {
    hide Numbers, LogEntries, Logged, LiveEntries, VersionEntries, E.BaseInv;
    HasShape(st.db);
    var st2 := Do(st, AppendLog);
    assert Group(st) == {};
    LogGrows(st.logs[st.logFile], st.db.batch);
    OlderLogsStay(st.logs, st2.logs, Named(st).logNumber, st.logFile);
    MoreIsLive(st.logs, st2.logs, Named(st).logNumber, st.logFile);
    assert E.Contents(st.db, Some(st.db.mem)) + {} + Group(st2) == E.Contents(st.db, Some(st.db.mem)) + Group(st2);
  }

  lemma {:induction false} OlderLogsStay(logs: map<nat, seq<seq<Entry>>>, more: map<nat, seq<seq<Entry>>>, from: nat, at: nat)
    requires forall n :: n < at ==> (n in logs <==> n in more) && (n in logs ==> logs[n] == more[n])
    ensures Logged(more, from, at) == Logged(logs, from, at)
  {
  }

  lemma {:induction false} MoreIsLive(logs: map<nat, seq<seq<Entry>>>, more: map<nat, seq<seq<Entry>>>, from: nat, at: nat)
    requires at in logs && at in more && LogEntries(logs[at]) <= LogEntries(more[at])
    requires forall n :: n in logs && n != at ==> n in more && logs[n] == more[n]
    ensures LiveEntries(logs, from) <= LiveEntries(more, from)
  {
    forall e | e in LiveEntries(logs, from)
      ensures e in LiveEntries(more, from)
    {
      var n: nat :| n in logs && from <= n && e in LogEntries(logs[n]);
      assert e in LogEntries(more[n]);
    }
  }

  lemma {:induction false} CreateLogKeepsInv(st: Store, number: nat)
    requires Inv(st) && Enabled(st, CreateLog(number))
    ensures Inv(Do(st, CreateLog(number)))
  {
    hide Numbers, LogEntries, Logged, LiveEntries, VersionEntries, E.BaseInv;
    HasShape(st.db);
    var st2 := Do(st, CreateLog(number));
    OlderLogsStay(st.logs, st2.logs, Named(st).logNumber, st.logFile);
    MoreIsLive(st.logs, st2.logs, Named(st).logNumber, st.logFile);
  }

  lemma {:induction false} PinsKeepInv(st: Store, a: Action)
    requires Inv(st) && Enabled(st, a) && (a.Pin? || a.Unpin?)
    ensures Inv(Do(st, a))
  {
    hide LogsHold, Numbers, VersionEntries, LiveEntries, E.BaseInv, E.Do, E.Enabled;
  }

  lemma {:induction false} StartKeepsInv(st: Store, a: Action)
    requires Inv(st) && Enabled(st, a) && (a.Start? || a.CreateTable?)
    ensures Inv(Do(st, a))
  {
    hide LogsHold, Numbers, VersionEntries, LiveEntries, E.BaseInv, E.Do, E.Enabled, Outputs;
  }

  lemma {:induction false} InterruptKeepsInv(st: Store)
    requires Inv(st) && Enabled(st, Interrupt)
    ensures Inv(Do(st, Interrupt))
  {
    hide LogsHold, Numbers, VersionEntries, LiveEntries, E.BaseInv, E.Do, E.Enabled, Outputs;
  }

  lemma {:induction false} InstallKeepsInv(st: Store)
    requires Inv(st) && Enabled(st, Install)
    ensures Inv(Do(st, Install))
  {
    hide LogsHold, Numbers, VersionEntries, LiveEntries, E.BaseInv, E.Do, E.Enabled, Outputs;
    HasShape(st.db);
    var st2 := Do(st, Install);
    JobEffect(st.db, st.work.job);
    assert BatchInMem(st2.db);
    assert Waiting(st2) == Waiting(st);
  }

  lemma {:induction false} WriteManifestKeepsInv(st: Store)
    requires Inv(st) && Enabled(st, WriteManifest)
    ensures Inv(Do(st, WriteManifest))
  {
    hide Numbers, VersionEntries, E.BaseInv, E.Do, E.Enabled, Outputs, LogEntries, Logged, LiveEntries;
    HasShape(st.db);
    var st2, job := Do(st, WriteManifest), st.work.job;
    JobEffect(st.db, job);
    var db2 := E.Do(st.db, job);
    forall e | e in VersionEntries(db2.version)
      ensures e.key.sequence <= st.db.lastSequence
    {
      TablesArePublished(db2, e);
    }
    if IsFlush(job) {
      NothingBefore(st.logs, st.logFile);
    }
    forall e | e in st.db.history
      ensures e in LiveEntries(st2.logs, Named(st2).logNumber) || e.key.sequence <= Named(st2).lastSequence
    {
      HistoryStaysCovered(st, job, e);
    }
  }

  lemma {:induction false} NothingBefore(logs: map<nat, seq<seq<Entry>>>, at: nat)
    ensures Logged(logs, at, at) == {}
  {
  }

  lemma {:induction false} HistoryStaysCovered(st: Store, job: E.Step, e: Entry)
    requires Inv(st) && st.work == Building(job) && e in st.db.history
    ensures e in LiveEntries(st.logs, if IsFlush(job) then st.logFile else Named(st).logNumber)
            || e.key.sequence <= st.db.lastSequence
  {
    hide VersionEntries, Numbers, E.BaseInv, E.Do, E.Enabled;
    if IsFlush(job) && e in LiveEntries(st.logs, Named(st).logNumber) {
      LiveIsLogged(st.logs, Named(st).logNumber, st.logFile);
      LiveIsLogged(st.logs, st.logFile, st.logFile);
      if e in Logged(st.logs, Named(st).logNumber, st.logFile) {
        TablesArePublished(st.db, e);
      }
    }
  }

  lemma {:induction false} CollectKeepsInv(st: Store)
    requires Inv(st) && Enabled(st, Collect)
    ensures Inv(Do(st, Collect))
  {
    hide Numbers, VersionEntries, E.BaseInv, E.Do, E.Enabled, Outputs, LogEntries, Logged, LiveEntries;
    HasShape(st.db);
    var st2 := Do(st, Collect);
    var from := Named(st).logNumber;
    CollectedLogs(st.logs, st2.logs, from, st.logFile);
    assert Live(st2) == Live(st);
    assert Numbers(Named(st).version) <= Live(st);
  }

  lemma {:induction false} CollectedLogs(logs: map<nat, seq<seq<Entry>>>, fewer: map<nat, seq<seq<Entry>>>, from: nat, at: nat)
    requires fewer == map n | n in logs && n >= from :: logs[n]
    ensures Logged(fewer, from, at) == Logged(logs, from, at)
    ensures LiveEntries(fewer, from) == LiveEntries(logs, from)
  {
    forall e
      ensures e in LiveEntries(fewer, from) <==> e in LiveEntries(logs, from)
      ensures e in Logged(fewer, from, at) <==> e in Logged(logs, from, at)
    {
      if e in LiveEntries(logs, from) {
        var n: nat :| n in logs && from <= n && e in LogEntries(logs[n]);
        assert n in fewer;
      }
      if e in Logged(logs, from, at) {
        var n: nat :| n in logs && from <= n < at && e in LogEntries(logs[n]);
        assert n in fewer;
      }
    }
  }

  /** Whatever the foreground, the background thread and the readers do, in any order. */
  lemma {:induction false} StepKeepsInv(st: Store, a: Action)
    requires Inv(st) && Enabled(st, a)
    ensures Inv(Do(st, a))
  {
    match a
    case Begin(ops) => BeginKeepsInv(st, ops);
    case AppendLog => AppendKeepsInv(st);
    case Insert => InsertKeepsInv(st);
    case Publish => PublishKeepsInv(st);
    case CreateLog(n) => CreateLogKeepsInv(st, n);
    case Switch(id, n) => SwitchKeepsInv(st, id, n);
    case Snapshot(step) => SnapshotKeepsInv(st, step);
    case Pin => PinsKeepInv(st, a);
    case Unpin(v) => PinsKeepInv(st, a);
    case Start(job) => StartKeepsInv(st, a);
    case CreateTable(n) => StartKeepsInv(st, a);
    case WriteManifest => WriteManifestKeepsInv(st);
    case Install => InstallKeepsInv(st);
    case Interrupt => InterruptKeepsInv(st);
    case Collect => CollectKeepsInv(st);
  }

  // ----- a crash, and opening again -----

  /** The largest sequence number recovery comes across: the manifest's, or that of a log entry. */
  ghost predicate RecoveredLast(st: Store, last: SequenceNumber) {
    && last >= Named(st).lastSequence
    && (forall e :: e in LiveEntries(st.logs, Named(st).logNumber) ==> e.key.sequence <= last)
    && (last == Named(st).lastSequence
        || exists e :: e in LiveEntries(st.logs, Named(st).logNumber) && e.key.sequence == last)
  }

  /** What was written so far, with the whole of a group that is in the log. */
  ghost function Everything(st: Store): set<Entry> {
    st.db.history + Group(st)
  }

  /** The engine as rebuilt from the files alone: the manifest's version, and a memtable with what the
      logs from its log number on hold.  `history` says what it has to agree with. */
  ghost function Recovered(st: Store, last: SequenceNumber): E.Db {
    E.Db(map[0 := LiveEntries(st.logs, Named(st).logNumber)], 0, None, Named(st).version, last, [], 0,
         Named(st).nextFile, multiset{}, Everything(st))
  }

  lemma {:induction false} LiveIs(st: Store)
    requires LogsOk(st)
    ensures LiveEntries(st.logs, Named(st).logNumber) == E.Contents(st.db, Some(st.db.mem)) + Waiting(st) + Group(st)
  {
    hide LogEntries, Logged, LiveEntries;
    LiveIsLogged(st.logs, Named(st).logNumber, st.logFile);
  }

  /** The engine state the manifest is for is a good one. */
  lemma {:induction false} TargetInv(st: Store)
    requires Inv(st)
    ensures E.BaseInv(Target(st))
    ensures E.Contents(Target(st), Target(st).imm) == Waiting(st)
    ensures Target(st) == st.db.(version := Target(st).version, nextFile := Target(st).nextFile, imm := Target(st).imm)
  {
    hide LogsOk, ManifestOk, TablesOk, E.BaseInv, E.Enabled, E.Do;
    HasShape(st.db);
    if st.work.Written? {
      JobEffect(st.db, st.work.job);
    }
  }

  /** Published writes have lower sequence numbers than the group, and what of the group is in the history
      is the group's. */
  lemma {:induction false} GroupIsNewer(st: Store)
    requires Inv(st)
    ensures forall x :: x in Group(st) ==> st.db.lastSequence < x.key.sequence <= st.db.lastSequence + |st.db.batch|
    ensures forall x :: x in st.db.history ==> x in Group(st) || x.key.sequence <= st.db.lastSequence
    ensures UniqueSequences(Everything(st))
  {
    hide LogsHold, ManifestOk, TablesOk, E.Enabled, E.Do, E.ReadsOk, E.NumbersBelow, WellFormed, VersionEntries, E.Layered;
    var db := st.db;
    forall x | x in db.history
      ensures x in Group(st) || x.key.sequence <= db.lastSequence
    {
      if x.key.sequence > db.lastSequence {
        var i := x.key.sequence - db.lastSequence - 1;
        assert db.batch[i] in E.Contents(db, Some(db.mem));
        assert db.batch[i] in db.history;
      }
    }
  }

  lemma {:induction false} AddGroup(a: set<Entry>, h: set<Entry>, g: set<Entry>, at: SequenceNumber, u: UserKey, s: SequenceNumber)
    requires a <= h && UniqueSequences(h + g) && UniqueSequences(a + g) && UniqueSequences(a) && UniqueSequences(h)
    requires forall x :: x in g ==> x.key.sequence > at
    requires forall x :: x in h ==> x in g || x.key.sequence <= at
    requires Lookup(a, u, s) == Lookup(h, u, s)
    ensures Lookup(a + g, u, s) == Lookup(h + g, u, s)
  {
    if x :| x in g && Visible(x, u, s) {
      var e := NewestExists(g, u, s, x);
      assert IsNewest(a + g, u, s, e) && IsNewest(h + g, u, s, e);
      LookupIs(a + g, u, s, e);
      LookupIs(h + g, u, s, e);
    } else {
      LookupLocal(a + g, a, u, s);
      LookupLocal(h + g, h, u, s);
    }
  }

  lemma {:induction false} RecoveredSequences(st: Store, last: SequenceNumber)
    requires Inv(st) && RecoveredLast(st, last)
    ensures forall e :: e in Everything(st) ==> e.key.sequence <= last
    ensures last < MAX_SEQUENCE_NUMBER
  {
    hide LogsHold, TablesOk, E.Enabled, E.Do, E.ReadsOk, E.NumbersBelow, WellFormed, VersionEntries, LiveEntries, E.Layered,
      UniqueSequences;
    LiveIs(st);
    GroupIsNewer(st);
    forall e | e in LiveEntries(st.logs, Named(st).logNumber)
      ensures e in Everything(st)
    {
    }
  }

  lemma {:induction false} RecoveredEntries(st: Store, last: SequenceNumber)
    requires Inv(st)
    ensures E.Entries(Recovered(st, last)) == E.Entries(Target(st)) + Group(st)
    ensures E.Contents(Recovered(st, last), Some(0)) == E.Contents(st.db, Some(st.db.mem)) + Waiting(st) + Group(st)
  {
    hide LogsHold, TablesOk, E.Enabled, E.Do, E.BaseInv, VersionEntries, LiveEntries;
    HasShape(st.db);
    TargetInv(st);
    LiveIs(st);
  }

  lemma {:induction false} RecoveredInHistory(st: Store, last: SequenceNumber)
    requires Inv(st)
    ensures E.Entries(Recovered(st, last)) <= Everything(st)
    ensures E.Entries(Target(st)) <= st.db.history
  {
    hide LogsHold, TablesOk, LogsOk, ManifestOk, E.Enabled, E.Do, E.NumbersBelow, WellFormed, VersionEntries, LiveEntries,
      E.MemOk, E.GroupOk, UniqueSequences, E.Entries;
    HasShape(st.db);
    TargetInv(st);
    RecoveredEntries(st, last);
  }

  lemma {:induction false} TargetSame(st: Store)
    requires Inv(st)
    ensures st.db.mem in st.db.tables
    ensures Target(st).lastSequence == st.db.lastSequence && Target(st).history == st.db.history
  {
    hide Inv, Target;
    HasShapeHere(st);
    TargetInv(st);
  }

  lemma {:induction false} RecoveredRead(st: Store, last: SequenceNumber, u: UserKey, s: SequenceNumber)
    requires Inv(st) && RecoveredLast(st, last) && st.db.mem in st.db.tables && E.ReadsOk(Target(st)) && s >= last
    ensures Lookup(E.Entries(Recovered(st, last)), u, s) == Lookup(Everything(st), u, s)
  {
    hide Inv, RecoveredLast, Lookup, UniqueSequences, E.Entries, Recovered, Target, Group;
    TargetSame(st);
    var r, t, g, h := E.Entries(Recovered(st, last)), Target(st), Group(st), Everything(st);
    RecoveredEntries(st, last);
    GroupIsNewer(st);
    RecoveredSequences(st, last);
    RecoveredInHistory(st, last);
    E.SubsetUnique(r, h);
    E.SubsetUnique(E.Entries(t), h);
    E.SubsetUnique(st.db.history, h);
    var later := s + st.db.lastSequence;
    assert E.Readable(t, later);
    AddGroup(E.Entries(t), st.db.history, g, st.db.lastSequence, u, later);
    E.SameAnswerLater(r, u, s, later);
    E.SameAnswerLater(h, u, s, later);
  }

  lemma {:induction false} RecoveredReads(st: Store, last: SequenceNumber)
    requires Inv(st) && RecoveredLast(st, last) && st.db.mem in st.db.tables && E.ReadsOk(Target(st))
    ensures E.ReadsOk(Recovered(st, last))
  {
    hide Inv, RecoveredLast, Lookup, E.Entries, Target, Everything, Group, LiveEntries;
    forall u, s: SequenceNumber | E.Readable(Recovered(st, last), s)
      ensures Lookup(E.Entries(Recovered(st, last)), u, s) == Lookup(Recovered(st, last).history, u, s)
    {
      RecoveredRead(st, last, u, s);
    }
  }

  lemma {:induction false} RecoveredLayers(st: Store, last: SequenceNumber)
    requires Inv(st)
    ensures E.MemOk(Recovered(st, last))
  {
    hide LogsHold, TablesOk, LogsOk, E.Enabled, E.Do, E.NumbersBelow, WellFormed, VersionEntries, LiveEntries,
      E.ReadsOk, E.HistoryOk, E.GroupOk, UniqueSequences;
    TargetInv(st);
    RecoveredEntries(st, last);
    GroupIsNewer(st);
    var r, t := Recovered(st, last), Target(st);
    assert E.Contents(r, r.imm) == {};
    assert E.Contents(t, Some(t.mem)) == E.Contents(st.db, Some(st.db.mem));
    assert E.Above(E.Contents(r, Some(0)), VersionEntries(r.version));
  }

  /** A crash at any moment: what is rebuilt from the files is a well-formed engine state.  It holds what the
      manifest's version and the logs had, a group that was under way is there whole or not at all, and the
      last sequence number covers every entry.  If readers of the engine got what was written, readers of
      what is rebuilt do. */
  lemma {:induction false} CrashRecovers(st: Store, last: SequenceNumber)
    requires Inv(st) && RecoveredLast(st, last) && st.db.mem in st.db.tables
    ensures E.BaseInv(Recovered(st, last))
    ensures E.Inv(Target(st)) ==> E.Inv(Recovered(st, last))
    ensures E.Entries(Recovered(st, last)) == E.Entries(Target(st)) + Group(st)
    ensures Recovered(st, last).history == st.db.history + (if st.logged then set e | e in st.db.batch else {})
    ensures !st.logged ==> forall e :: e in st.db.batch ==> e !in Recovered(st, last).history
    ensures forall e :: e in Recovered(st, last).history ==> e.key.sequence <= last
  {
    hide LogsHold, TablesOk, RecoveredLast, E.Enabled, E.Do, VersionEntries, LiveEntries, E.ReadsOk, E.MemOk,
      E.Entries, UniqueSequences, NewerAbove;
    TargetInv(st);
    GroupIsNewer(st);
    RecoveredSequences(st, last);
    RecoveredInHistory(st, last);
    RecoveredLayers(st, last);
    RecoveredEntries(st, last);
    assert forall i :: 0 <= i < |st.db.batch| ==> st.db.batch[i].key.sequence == st.db.lastSequence + 1 + i;
    if E.Inv(Target(st)) {
      RecoveredReads(st, last);
    }
  }

  // ----- recovery writes what it read from the logs to level-0 tables, chunk by chunk -----

  /** A memtable's worth of what is left to write: all of it older than the rest. */
  ghost predicate ChunkOk(r: E.Db, f: File) {
    && 0 in r.tables && GoodFile(f) && f.number >= r.nextFile
    && Elements(f.entries) <= r.tables[0]
    && E.Above(r.tables[0] - Elements(f.entries), Elements(f.entries))
  }

  function ChunkWritten(r: E.Db, f: File): E.Db
    requires 0 in r.tables
  {
    r.(tables := map[0 := r.tables[0] - set e | e in f.entries],
       version := ApplyEdit(r.version, FlushEdit(0, f)), nextFile := f.number + 1)
  }

  ghost predicate ChunksOk(r: E.Db, files: seq<File>)
    decreases |files|
  {
    files == [] || (ChunkOk(r, files[0]) && ChunksOk(ChunkWritten(r, files[0]), files[1..]))
  }

  function ChunksWritten(r: E.Db, files: seq<File>): (r2: E.Db)
    requires 0 in r.tables
    ensures 0 in r2.tables
    decreases |files|
  {
    if files == [] then r else ChunksWritten(ChunkWritten(r, files[0]), files[1..])
  }

  /** A database with nothing going on: one memtable, no group, no snapshot. */
  predicate Quiet(r: E.Db) {
    r.tables.Keys == {0} && r.mem == 0 && r.imm.None? && r.batch == [] && r.inserted == 0 && r.snapshots == multiset{}
  }

  /** Setting a chunk of the memtable aside as one waiting to be flushed changes nothing. */
  lemma {:induction false} SetAside(r: E.Db, f: File)
    requires E.BaseInv(r) && Quiet(r) && ChunkOk(r, f)
    ensures var r2 := r.(tables := map[0 := r.tables[0] - Elements(f.entries), 1 := Elements(f.entries)], imm := Some(1));
            E.BaseInv(r2) && (E.ReadsOk(r) ==> E.ReadsOk(r2))
  {
    hide WellFormed, E.NumbersBelow, VersionEntries, UniqueSequences, GoodFile, E.ReadsOk;
    var chunk := Elements(f.entries);
    var r2 := r.(tables := map[0 := r.tables[0] - chunk, 1 := chunk], imm := Some(1));
    assert E.Contents(r2, Some(0)) == r.tables[0] - chunk && E.Contents(r2, Some(1)) == chunk;
    assert E.Contents(r, Some(0)) == r.tables[0] && E.Contents(r, None) == {};
    assert E.Entries(r2) == E.Entries(r);
    if E.ReadsOk(r) { E.QuietKeepsReads(r, r2); }
  }

  lemma {:induction false} ChunkKeepsInv(r: E.Db, f: File)
    requires E.BaseInv(r) && Quiet(r) && ChunkOk(r, f)
    ensures E.BaseInv(ChunkWritten(r, f)) && Quiet(ChunkWritten(r, f))
    ensures E.Inv(r) ==> E.Inv(ChunkWritten(r, f))
  {
    hide WellFormed, NewerAbove, E.NumbersBelow, VersionEntries, UniqueSequences, GoodFile, E.HistoryOk, E.ReadsOk, ApplyEdit;
    var chunk := Elements(f.entries);
    var r2 := r.(tables := map[0 := r.tables[0] - chunk, 1 := chunk], imm := Some(1));
    SetAside(r, f);
    assert E.Contents(r2, r2.imm) == chunk;
    E.FlushKeepsBase(r2, 0, f);
    var r3, r4 := E.Do(r2, E.Flush(0, f)), ChunkWritten(r, f);
    assert r4 == r3.(tables := map[0 := r3.tables[0]]);
    ForgetTables(r3, r4);
    if E.Inv(r) {
      E.FlushKeepsInv(r2, 0, f);
    }
  }

  /** Memtables nobody refers to any more may go. */
  lemma {:induction false} ForgetTables(r: E.Db, r2: E.Db)
    requires E.BaseInv(r) && r.mem == 0 && r.imm.None? && r2 == r.(tables := map[0 := r.tables[0]])
    ensures E.BaseInv(r2) && (E.ReadsOk(r) ==> E.ReadsOk(r2))
  {
    hide WellFormed, E.NumbersBelow, VersionEntries, UniqueSequences, E.ReadsOk;
    assert E.Contents(r2, Some(0)) == E.Contents(r, Some(0)) && E.Contents(r2, None) == E.Contents(r, None);
    assert E.Entries(r2) == E.Entries(r);
    if E.ReadsOk(r) { E.QuietKeepsReads(r, r2); }
  }

  lemma {:induction false} ChunksKeepInv(r: E.Db, files: seq<File>)
    requires E.BaseInv(r) && Quiet(r) && ChunksOk(r, files)
    ensures E.BaseInv(ChunksWritten(r, files)) && Quiet(ChunksWritten(r, files))
    ensures E.Inv(r) ==> E.Inv(ChunksWritten(r, files))
    ensures ChunksWritten(r, files).history == r.history && ChunksWritten(r, files).lastSequence == r.lastSequence
    decreases |files|
  {
    hide E.BaseInv, E.Inv, ChunkOk;
    if files != [] {
      ChunkKeepsInv(r, files[0]);
      ChunksKeepInv(ChunkWritten(r, files[0]), files[1..]);
    }
  }

  /** Everything recovery does, up to the manifest record that makes it permanent: tables for all that the
      logs held, an empty log under a new number, and a manifest that needs no older log. */
  ghost predicate Reopens(st: Store, last: SequenceNumber, files: seq<File>, log: nat, file: nat, tables: set<nat>) {
    var r := Recovered(st, last);
    && RecoveredLast(st, last)
    && ChunksOk(r, files)
    && ChunksWritten(r, files).tables[0] == {}
    && (forall n :: n in st.logs ==> n < log)
    && file > st.current
    && st.tables <= tables && Numbers(ChunksWritten(r, files).version) <= tables
  }

  ghost function Reopened(st: Store, last: SequenceNumber, files: seq<File>, log: nat, file: nat, tables: set<nat>): Store {
    var db := ChunksWritten(Recovered(st, last), files);
    Store(db, false, st.logs[log := []], log, st.descriptors[file := Meta(db.version, log, last, db.nextFile)], file, file,
          tables, {}, {}, multiset{}, Cleaning)
  }

  /** After a crash at any moment the database opens in a state from which all of this holds again. */
  lemma {:induction false} ReopenKeepsInv(st: Store, last: SequenceNumber, files: seq<File>, log: nat, file: nat, tables: set<nat>)
    requires Inv(st) && Reopens(st, last, files, log, file, tables)
    ensures Inv(Reopened(st, last, files, log, file, tables))
    ensures Good(st) ==> Good(Reopened(st, last, files, log, file, tables))
    ensures Reopened(st, last, files, log, file, tables).db.history == Everything(st)
    ensures Reopened(st, last, files, log, file, tables).db.lastSequence == last
  {
    hide Inv, E.BaseInv, E.Inv, RecoveredLast, ChunksOk, ChunksWritten, VersionEntries, Numbers, LogEntries, Logged, Target;
    var r, st2 := Recovered(st, last), Reopened(st, last, files, log, file, tables);
    HasShapeHere(st);
    CrashRecovers(st, last);
    ChunksKeepInv(r, files);
    NewLogIsEmpty(st.logs, log);
    ReopenedIsOk(st2);
    NoJobNoTarget(st2);
  }

  lemma {:induction false} NoJobNoTarget(st: Store)
    requires !st.work.Written? && st.db.mem in st.db.tables
    ensures Target(st) == st.db
  {
  }

  lemma {:induction false} NewLogIsEmpty(logs: map<nat, seq<seq<Entry>>>, log: nat)
    requires forall n :: n in logs ==> n < log
    ensures LogsHold(logs[log := []], log, log, {}, {})
  {
  }

  /** A fresh start over a good engine state with nothing in memory. */
  lemma {:induction false} ReopenedIsOk(st: Store)
    requires E.BaseInv(st.db) && Quiet(st.db) && st.db.tables[0] == {} && !st.logged && st.work.Cleaning?
    requires st.current == st.descriptor && st.current in st.descriptors
    requires Named(st) == Meta(st.db.version, st.logFile, st.db.lastSequence, st.db.nextFile)
    requires LogsHold(st.logs, st.logFile, st.logFile, {}, {})
    requires Numbers(st.db.version) <= st.tables && st.pinned == multiset{}
    ensures Inv(st)
  {
    hide WellFormed, E.NumbersBelow, VersionEntries, UniqueSequences, E.ReadsOk, LogsHold, LiveEntries, Numbers;
    assert E.Contents(st.db, Some(0)) == {} && E.Contents(st.db, None) == {} && Group(st) == {};
    assert {} + Group(st) == {} && Waiting(st) == {};
    assert Live(st) == Numbers(st.db.version);
    forall e | e in VersionEntries(st.db.version)
      ensures e.key.sequence <= st.db.lastSequence
    {
      TablesArePublished(st.db, e);
    }
  }

  // ----- runs, with crashes -----

  datatype Event = Acts(action: Action) | Crashes(last: SequenceNumber, files: seq<File>, log: nat, file: nat, tables: set<nat>)

  /** The first two conjuncts only make the others well defined; they hold in every state with `Inv`. */
  ghost predicate Happens(st: Store, ev: Event, st2: Store) {
    && Shape(st.db.version) && st.db.mem in st.db.tables
    && match ev
       case Acts(a) => Enabled(st, a) && st2 == Do(st, a)
       case Crashes(last, files, log, file, tables) =>
         Reopens(st, last, files, log, file, tables) && st2 == Reopened(st, last, files, log, file, tables)
  }

  ghost predicate Runs(states: seq<Store>, events: seq<Event>) {
    && |states| == |events| + 1 && states[0] == INITIAL
    && forall i :: 0 <= i < |events| ==> Happens(states[i], events[i], states[i + 1])
  }

  lemma {:induction false} EventKeepsInv(st: Store, ev: Event, st2: Store)
    requires Inv(st) && Happens(st, ev, st2)
    ensures Inv(st2)
    ensures st.db.history <= st2.db.history
  {
    hide Inv, Enabled, Reopens;
    match ev
    case Acts(a) =>
      HasShapeHere(st);
      StepKeepsInv(st, a);
      HistoryGrows(st, a);
    case Crashes(last, files, log, file, tables) =>
      ReopenKeepsInv(st, last, files, log, file, tables);
  }

  lemma {:induction false} HasShapeHere(st: Store)
    requires Inv(st)
    ensures Shape(st.db.version) && st.db.mem in st.db.tables
  {
  }

  lemma {:induction false} HistoryGrows(st: Store, a: Action)
    requires Inv(st) && Enabled(st, a)
    ensures st.db.history <= Do(st, a).db.history
  {
    hide LogsOk, ManifestOk, TablesOk, E.BaseInv, E.Do, E.Enabled;
    HasShape(st.db);
    match a
    case Install => JobEffect(st.db, st.work.job);
    case Begin(ops) => HistoryOnly(st.db, E.BeginGroup(ops));
    case Insert => HistoryOnly(st.db, E.InsertOne);
    case Publish => HistoryOnly(st.db, E.PublishGroup);
    case Switch(id, n) => HistoryOnly(st.db, E.SwitchMemtable(id));
    case Snapshot(step) => HistoryOnly(st.db, step);
    case _ =>
  }

  lemma {:induction false} HistoryOnly(db: E.Db, step: E.Step)
    requires IsForeground(step) && db.mem in db.tables
    ensures db.history <= E.Do(db, step).history
  {
  }

  lemma {:induction false} RunKeepsInv(states: seq<Store>, events: seq<Event>, i: nat, j: nat)
    requires Runs(states, events) && i <= j < |states|
    ensures Inv(states[j])
    ensures states[i].db.history <= states[j].db.history
    decreases j
  {
    hide Inv, Happens;
    if j == 0 {
      InitialInv();
    } else {
      RunKeepsInv(states, events, if i < j then i else j - 1, j - 1);
      assert Happens(states[j - 1], events[j - 1], states[j]);
      EventKeepsInv(states[j - 1], events[j - 1], states[j]);
    }
  }

  /** In every reachable state, crashes or not and whatever is compacted, all the files that anybody needs
      exist: the manifest that CURRENT names; the tables of its version, of the current version and of every
      version a reader holds; and of a job's tables those that are built, each of them protected, so that the
      manifest never names a table that was deleted.  The logs recovery would read have all that is in memory
      only. */
  lemma {:induction false} NeededFilesExist(states: seq<Store>, events: seq<Event>, j: nat)
    requires Runs(states, events) && j < |states|
    ensures var st := states[j];
            && st.current in st.descriptors
            && Live(st) <= st.tables && Numbers(Named(st).version) <= st.tables
            && (st.work.Building? || st.work.Interrupted? ==>
                  st.created <= Outputs(st.work.job) <= st.pending && st.created <= st.tables)
            && E.Contents(st.db, Some(st.db.mem)) + Waiting(st) <= LiveEntries(st.logs, Named(st).logNumber)
  {
    hide Runs;
    RunKeepsInv(states, events, j, j);
    LiveIs(states[j]);
    FilesAre(states[j]);
  }

  lemma {:induction false} FilesAre(st: Store)
    requires Inv(st)
    ensures TablesOk(st) && LogsOk(st) && st.current in st.descriptors
  {
    hide TablesOk, LogsOk, EngineOk, VersionEntries, LiveEntries, E.Do;
  }

  // ----- what readers get, over runs with crashes -----

  /** Readers of the engine get what was written, and so would readers after a crash now. */
  ghost predicate Good(st: Store) {
    st.db.mem in st.db.tables && E.Inv(st.db) && E.Inv(Target(st))
  }

  /** A job is safe when it is made permanent. */
  ghost predicate SafeAction(st: Store, a: Action) {
    a.WriteManifest? && st.work.Building? ==> E.Safe(st.db, st.work.job)
  }

  ghost predicate SafeEvent(st: Store, ev: Event) {
    ev.Acts? ==> SafeAction(st, ev.action)
  }

  /** The foreground looks neither at the version nor at the file counter, and a switch of memtables waits for
      the flush before it. */
  lemma {:induction false} ForegroundBlind(db: E.Db, db1: E.Db, step: E.Step)
    requires IsForeground(step) && db.mem in db.tables
    requires db1 == db.(version := db1.version, nextFile := db1.nextFile, imm := db1.imm)
    ensures E.Do(db1, step) == E.Do(db, step).(version := db1.version, nextFile := db1.nextFile,
                                               imm := if step.SwitchMemtable? then E.Do(db, step).imm else db1.imm)
    ensures E.Do(db, step).mem in E.Do(db, step).tables
  {
  }

  lemma {:induction false} StillEnabled(db: E.Db, db1: E.Db, step: E.Step)
    requires IsForeground(step) && Shape(db.version) && Shape(db1.version) && E.Enabled(db, step)
    requires db1 == db.(version := db1.version, nextFile := db1.nextFile, imm := db1.imm)
    requires db1.imm == db.imm || db1.imm.None?
    ensures E.Enabled(db1, step)
  {
  }

  /** What the foreground does and what a job does commute. */
  lemma {:induction false} ForegroundCommutes(db: E.Db, step: E.Step, job: E.Step)
    requires E.BaseInv(db) && IsForeground(step) && E.Enabled(db, step) && IsJob(job) && E.Enabled(db, job)
    ensures E.Do(db, job).mem in E.Do(db, job).tables && E.Do(db, step).mem in E.Do(db, step).tables
    ensures E.BaseInv(E.Do(db, job)) && E.Enabled(E.Do(db, job), step)
    ensures E.Do(E.Do(db, step), job) == E.Do(E.Do(db, job), step)
  {
    hide E.BaseInv, E.Do, E.Enabled, Numbers, Outputs;
    HasShape(db);
    JobEffect(db, job);
    var db1 := E.Do(db, job);
    HasShape(db1);
    ForegroundBlind(db, db1, step);
    StillEnabled(db, db1, step);
    E.StepKeepsBase(db, step);
    ForegroundKeepsJob(db, step, job);
    JobEffect(E.Do(db, step), job);
    ForegroundKeepsImm(db, step);
  }

  lemma {:induction false} ForegroundKeepsImm(db: E.Db, step: E.Step)
    requires IsForeground(step) && db.mem in db.tables
    ensures !step.SwitchMemtable? ==> E.Do(db, step).imm == db.imm
  {
  }

  lemma {:induction false} ForegroundIsSafe(db: E.Db, step: E.Step)
    requires E.Inv(db) && IsForeground(step) && E.Enabled(db, step)
    ensures E.Inv(E.Do(db, step))
  {
    hide E.Inv, E.Enabled, E.Do;
    assert E.Safe(db, step);
    E.StepIsSafeIff(db, step);
  }

  lemma {:induction false} ForegroundKeepsGood(st: Store, st2: Store, step: E.Step)
    requires Inv(st) && Good(st) && IsForeground(step) && E.Enabled(st.db, step)
    requires st2.db == E.Do(st.db, step) && st2.work == st.work
    ensures Good(st2)
  {
    hide E.Inv, E.BaseInv, E.Enabled, E.Do, LogsOk, ManifestOk, TablesOk;
    ForegroundIsSafe(st.db, step);
    BaseOf(st2.db);
    if st.work.Written? {
      ForegroundCommutes(st.db, step, st.work.job);
      ForegroundIsSafe(Target(st), step);
    }
  }

  lemma {:induction false} BaseOf(db: E.Db)
    requires E.Inv(db)
    ensures E.BaseInv(db) && db.mem in db.tables
  {
  }

  lemma {:induction false} SameEngineStaysGood(st: Store, st2: Store)
    requires Good(st) && st2.db == st.db && (st2.work == st.work || (!st.work.Written? && !st2.work.Written?))
    ensures Good(st2)
  {
    hide E.Inv, E.Do;
  }

  /** An action keeps what readers get, now and after a crash, if and only if it makes no unsafe job permanent. */
  lemma {:induction false} ActionIsGoodIff(st: Store, a: Action)
    requires Inv(st) && Good(st) && Enabled(st, a)
    ensures Good(Do(st, a)) <==> SafeAction(st, a)
  {
    hide Inv, Good, E.Inv, E.Enabled, E.Do, E.Safe, Outputs, Live, Named;
    HasShapeHere(st);
    match a
    case Begin(ops) => ForegroundKeepsGood(st, Do(st, a), E.BeginGroup(ops));
    case Insert => ForegroundKeepsGood(st, Do(st, a), E.InsertOne);
    case Publish => ForegroundKeepsGood(st, Do(st, a), E.PublishGroup);
    case Switch(id, n) => ForegroundKeepsGood(st, Do(st, a), E.SwitchMemtable(id));
    case Snapshot(step) => ForegroundKeepsGood(st, Do(st, a), step);
    case Install => InstallKeepsGood(st);
    case WriteManifest => WriteManifestIsGoodIff(st);
    case _ => SameEngineStaysGood(st, Do(st, a));
  }

  lemma {:induction false} InstallKeepsGood(st: Store)
    requires Inv(st) && Good(st) && Enabled(st, Install)
    ensures Good(Do(st, Install))
  {
    hide E.Inv, E.Enabled, E.Do, Inv;
    BaseOf(Target(st));
  }

  lemma {:induction false} WriteManifestIsGoodIff(st: Store)
    requires Shape(st.db.version) && st.db.mem in st.db.tables && st.work.Building?
    requires Inv(st) && Good(st) && Enabled(st, WriteManifest)
    ensures Good(Do(st, WriteManifest)) <==> E.Safe(st.db, st.work.job)
  {
    hide E.Inv, E.Enabled, E.Do, E.BaseInv, E.Safe, Inv, Do;
    JobIsEnabled(st);
    E.StepIsSafeIff(st.db, st.work.job);
    AfterManifest(st);
    if E.Inv(E.Do(st.db, st.work.job)) { BaseOf(E.Do(st.db, st.work.job)); }
  }

  lemma {:induction false} JobIsEnabled(st: Store)
    requires Inv(st) && st.work.Building?
    ensures st.db.mem in st.db.tables && Shape(st.db.version) && E.Enabled(st.db, st.work.job)
  {
    hide LogsOk, ManifestOk, TablesOk, E.Enabled;
  }

  lemma {:induction false} AfterManifest(st: Store)
    requires st.work.Building? && st.db.mem in st.db.tables
    ensures Do(st, WriteManifest).db == st.db && Do(st, WriteManifest).work == Written(st.work.job)
  {
    hide E.Do, Outputs, Named;
  }

  lemma {:induction false} EventIsGoodIff(st: Store, ev: Event, st2: Store)
    requires Inv(st) && Good(st) && Happens(st, ev, st2)
    ensures Good(st2) <==> SafeEvent(st, ev)
  {
    hide Inv, Good, Enabled, Reopens, SafeAction;
    match ev
    case Acts(a) => ActionIsGoodIff(st, a);
    case Crashes(last, files, log, file, tables) => ReopenKeepsInv(st, last, files, log, file, tables);
  }

  lemma {:induction false} InitialGood()
    ensures Inv(INITIAL) && Good(INITIAL)
  {
    hide Inv, E.Inv;
    InitialInv();
    E.InitialInv();
  }

  /** Over any run with any number of crashes: in every state on the way readers of the engine, and of what a
      crash would leave, get what was written, if and only if no unsafe job was made permanent on the way. */
  lemma {:induction false} NothingIsLost(states: seq<Store>, events: seq<Event>, n: nat)
    requires Runs(states, events) && n < |states|
    ensures (forall j :: 0 <= j <= n ==> Good(states[j])) <==> forall i :: 0 <= i < n ==> SafeEvent(states[i], events[i])
  {
    hide Inv, Good, Happens, SafeEvent;
    if n == 0 {
      InitialGood();
    } else {
      NothingIsLost(states, events, n - 1);
      RunKeepsInv(states, events, n - 1, n - 1);
      assert Happens(states[n - 1], events[n - 1], states[n]);
      if Good(states[n - 1]) {
        EventIsGoodIff(states[n - 1], events[n - 1], states[n]);
      }
    }
  }
}
