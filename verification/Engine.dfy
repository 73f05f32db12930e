// The engine as a state machine: group inserts, memtable switches, flushes, compactions
// and trivial moves in any order, and what every reader sees in every reachable state.

module Engine {
  import opened Keys
  import opened Levels
  import opened Overlaps
  import opened Compactions
  import opened VersionBuilder
  import opened Manifest
  import opened LevelEdits
  import opened Boundaries

  datatype Op = Op(typ: ValueType, user: UserKey, value: Bytes)

  /** `tables` holds the contents of every memtable that was ever current, by identity: readers keep
      references to memtables the engine has let go of.  `batch` is the write group being applied,
      its first `inserted` entries already in the current memtable.  `history` is every entry ever
      inserted: the abstract map. */
  datatype Db = Db(
    tables: map<nat, set<Entry>>,
    mem: nat,
    imm: Option<nat>,
    version: Version,
    lastSequence: SequenceNumber,
    batch: seq<Entry>,
    inserted: nat,
    nextFile: nat,
    snapshots: multiset<SequenceNumber>,
    history: set<Entry>)

  const INITIAL: Db := Db(map[0 := {}], 0, None, EMPTY_VERSION, 0, [], 0, 2, multiset{}, {})

  function Contents(db: Db, id: Option<nat>): set<Entry> {
    if id.Some? && id.value in db.tables then db.tables[id.value] else {}
  }

  ghost function Entries(db: Db): set<Entry> {
    Contents(db, Some(db.mem)) + Contents(db, db.imm) + VersionEntries(db.version)
  }

  datatype Step =
    | BeginGroup(ops: seq<Op>)
    | InsertOne
    | PublishGroup
    | SwitchMemtable(id: nat)
    | Flush(level: nat, file: File)
    | FlushEmpty
    | TakeSnapshot
    | ReleaseSnapshot(number: SequenceNumber)
    | Compact(c: Inputs, ss: SequenceNumber, input: seq<Entry>, outputs: seq<File>, next: nat)
    | Move(c: Inputs, maxFileSize: nat)

  function Numbered(ops: seq<Op>, first: SequenceNumber): seq<Entry> {
    seq(|ops|, i requires 0 <= i < |ops| => Entry(InternalKey(ops[i].user, first + i, ops[i].typ), ops[i].value))
  }

  /** `s` can still be read: it is the last sequence or later, or at or after a live snapshot. */
  ghost predicate Readable(db: Db, s: SequenceNumber) {
    s >= db.lastSequence || exists n :: n in db.snapshots && n <= s
  }

  ghost predicate CompactEnabled(db: Db, c: Inputs, ss: SequenceNumber, input: seq<Entry>, outputs: seq<File>, next: nat)
    requires Shape(db.version)
  {
    && InputsClosed(db.version, c)
    && ss <= db.lastSequence
    && (forall n :: n in db.snapshots ==> ss <= n)
    && Sorted(input)
    && Elements(input) == FilesEntries(c.upper) + FilesEntries(c.lower)
    && Concat(outputs) == Kept(db.version, c.level, input, ss, |input|)
    && GoodOutputs(outputs, db.nextFile, next)
    && db.nextFile <= next
  }

  ghost predicate FlushEnabled(db: Db, level: nat, f: File) {
    && db.imm.Some?
    && f.number >= db.nextFile
    && GoodFile(f)
    && Elements(f.entries) == Contents(db, db.imm)
    && FlushPlacement(db.version, level, f)
  }

  ghost predicate Enabled(db: Db, step: Step)
    requires Shape(db.version)
  {
    match step
    case BeginGroup(ops) => db.batch == [] && |ops| > 0 && db.lastSequence + |ops| < MAX_SEQUENCE_NUMBER
    case InsertOne => db.inserted < |db.batch|
    case PublishGroup => db.batch != [] && db.inserted == |db.batch|
    case SwitchMemtable(id) => db.batch == [] && db.imm.None? && id !in db.tables
    case Flush(level, f) => FlushEnabled(db, level, f)
    case FlushEmpty => db.imm.Some? && Contents(db, db.imm) == {}
    case TakeSnapshot => true
    case ReleaseSnapshot(n) => n in db.snapshots
    case Compact(c, ss, input, outputs, next) => CompactEnabled(db, c, ss, input, outputs, next)
    case Move(c, maxFileSize) => InputsClosed(db.version, c) && GrandparentsMatch(db.version, c) && IsTrivialMove(c, maxFileSize)
  }

  function Do(db: Db, step: Step): Db
    requires db.mem in db.tables
  {
    match step
    case BeginGroup(ops) => db.(batch := Numbered(ops, db.lastSequence + 1), inserted := 0)
    case InsertOne =>
      if db.inserted < |db.batch| then
        var e := db.batch[db.inserted];
        db.(tables := db.tables[db.mem := db.tables[db.mem] + {e}],
            inserted := db.inserted + 1,
            history := db.history + {e})
      else db
    case PublishGroup => db.(lastSequence := db.lastSequence + |db.batch|, batch := [], inserted := 0)
    case SwitchMemtable(id) => db.(tables := db.tables[id := {}], mem := id, imm := Some(db.mem))
    case Flush(level, f) =>
      db.(version := ApplyEdit(db.version, FlushEdit(level, f)), imm := None, nextFile := f.number + 1)
    case FlushEmpty => db.(imm := None)
    case TakeSnapshot => db.(snapshots := db.snapshots + multiset{db.lastSequence})
    case ReleaseSnapshot(n) => db.(snapshots := db.snapshots - multiset{n})
    case Compact(c, ss, input, outputs, next) =>
      db.(version := ApplyEdit(db.version, InstallEdit(c, outputs)), nextFile := next)
    case Move(c, _) =>
      if |c.upper| == 1 then db.(version := ApplyEdit(db.version, MoveEdit(c))) else db
  }

  ghost predicate Above(a: set<Entry>, b: set<Entry>) {
    forall x, y :: x in a && y in b ==> x.key.sequence > y.key.sequence
  }

  /** Newer memtables hold only later sequence numbers. */
  ghost predicate Layered(mem: set<Entry>, imm: set<Entry>, below: set<Entry>) {
    Above(mem, imm) && Above(mem, below) && Above(imm, below)
  }

  ghost predicate NumbersBelow(v: Version, next: nat) {
    forall l, f :: 0 <= l < NUM_LEVELS && f in v[l] ==> f.number < next
  }

  ghost predicate GroupOk(db: Db) {
    && db.inserted <= |db.batch|
    && db.lastSequence + |db.batch| < MAX_SEQUENCE_NUMBER
    && (forall i :: 0 <= i < |db.batch| ==> db.batch[i].key.sequence == db.lastSequence + 1 + i)
  }

  ghost predicate HistoryOk(db: Db) {
    && UniqueSequences(db.history)
    && Entries(db) <= db.history
    && (forall id :: id in db.tables ==> db.tables[id] <= db.history)
    && (forall e :: e in db.history ==> e.key.sequence <= db.lastSequence + db.inserted)
  }

  /** Every readable lookup over what the engine holds equals the lookup over everything written. */
  ghost predicate ReadsOk(db: Db) {
    forall u, s :: Readable(db, s) ==> Lookup(Entries(db), u, s) == Lookup(db.history, u, s)
  }

  ghost predicate MemOk(db: Db) {
    && db.mem in db.tables
    && (db.imm.Some? ==> db.imm.value in db.tables && db.imm.value != db.mem)
    && Layered(Contents(db, Some(db.mem)), Contents(db, db.imm), VersionEntries(db.version))
    && (forall n :: n in db.snapshots ==> n <= db.lastSequence)
  }

  /** What every step keeps, whatever is compacted or moved. */
  ghost predicate BaseInv(db: Db) {
    && WellFormed(db.version)
    && NumbersBelow(db.version, db.nextFile)
    && MemOk(db)
    && GroupOk(db)
    && HistoryOk(db)
  }

  /** And what readers rely on: newer data further up, and nothing lost or brought back. */
  ghost predicate Inv(db: Db) {
    BaseInv(db) && NewerAbove(db.version) && ReadsOk(db)
  }

  lemma {:induction false} InitialInv()
    ensures Inv(INITIAL)
  {
    assert forall l :: 0 <= l < NUM_LEVELS ==> EMPTY_VERSION[l] == [];
    assert VersionEntries(EMPTY_VERSION) == {};
    assert Entries(INITIAL) == {};
    NewerAboveByFile(EMPTY_VERSION);
  }

  // ----- lookups under insertion -----

  lemma {:induction false} AddNewest(a: set<Entry>, h: set<Entry>, e: Entry, u: UserKey, s: SequenceNumber)
    requires UniqueSequences(h + {e}) && a <= h
    requires forall x :: x in h ==> x.key.sequence < e.key.sequence
    requires Lookup(a, u, s) == Lookup(h, u, s)
    ensures Lookup(a + {e}, u, s) == Lookup(h + {e}, u, s)
  {
    if Visible(e, u, s) {
      assert IsNewest(a + {e}, u, s, e) && IsNewest(h + {e}, u, s, e);
      LookupIs(a + {e}, u, s, e);
      LookupIs(h + {e}, u, s, e);
    } else {
      LookupLocal(a + {e}, a, u, s);
      LookupLocal(h + {e}, h, u, s);
    }
  }

  // ----- every step keeps the base invariant -----

  lemma {:induction false} InsertKeepsBase(db: Db)
    requires BaseInv(db) && db.inserted < |db.batch|
    ensures BaseInv(Do(db, InsertOne))
    ensures Entries(Do(db, InsertOne)) == Entries(db) + {db.batch[db.inserted]}
    ensures forall x :: x in db.history ==> x.key.sequence < db.batch[db.inserted].key.sequence
  {
    hide WellFormed, NumbersBelow;
    var e := db.batch[db.inserted];
    var db2 := Do(db, InsertOne);
    assert Contents(db2, Some(db2.mem)) == Contents(db, Some(db.mem)) + {e};
    assert Contents(db2, db2.imm) == Contents(db, db.imm);
  }

  lemma {:induction false} InsertKeepsReads(db: Db)
    requires BaseInv(db) && ReadsOk(db) && db.inserted < |db.batch|
    ensures ReadsOk(Do(db, InsertOne))
  {
    hide WellFormed, NumbersBelow, Layered, Entries;
    var e := db.batch[db.inserted];
    var db2 := Do(db, InsertOne);
    InsertKeepsBase(db);
    forall u, s | Readable(db2, s)
      ensures Lookup(Entries(db2), u, s) == Lookup(db2.history, u, s)
    {
      assert Readable(db, s);
      AddNewest(Entries(db), db.history, e, u, s);
    }
  }

  /** Steps that change neither the entries held nor the history, and only make fewer reads possible. */
  lemma {:induction false} QuietKeepsReads(db: Db, db2: Db)
    requires ReadsOk(db)
    requires Entries(db2) == Entries(db) && db2.history == db.history
    requires forall s :: Readable(db2, s) ==> Readable(db, s)
    ensures ReadsOk(db2)
  {
  }

  predicate IsQuiet(step: Step) {
    step.BeginGroup? || step.PublishGroup? || step.SwitchMemtable? || step.FlushEmpty? || step.TakeSnapshot?
    || step.ReleaseSnapshot?
  }

  lemma {:induction false} QuietKeepsBase(db: Db, step: Step)
    requires BaseInv(db) && Enabled(db, step) && IsQuiet(step)
    ensures BaseInv(Do(db, step)) && Untouched(db, Do(db, step))
  {
    hide BaseInv, Enabled, Do, Untouched;
    match step
    case BeginGroup(ops) => BeginKeepsBase(db, ops);
    case PublishGroup => PublishKeepsBase(db);
    case SwitchMemtable(id) => SwitchKeepsBase(db, id);
    case FlushEmpty => FlushEmptyKeepsBase(db);
    case TakeSnapshot => SnapshotKeepsBase(db, step);
    case ReleaseSnapshot(_) => SnapshotKeepsBase(db, step);
  }

  /** Nothing held or written changed, and no more reads can be asked for. */
  ghost predicate Untouched(db: Db, db2: Db) {
    && Entries(db2) == Entries(db) && db2.history == db.history && db2.version == db.version
    && forall s :: Readable(db2, s) ==> Readable(db, s)
  }

  lemma {:induction false} BeginKeepsBase(db: Db, ops: seq<Op>)
    requires BaseInv(db) && Enabled(db, BeginGroup(ops))
    ensures BaseInv(Do(db, BeginGroup(ops))) && Untouched(db, Do(db, BeginGroup(ops)))
  {
    hide WellFormed, NumbersBelow, VersionEntries, UniqueSequences;
  }

  lemma {:induction false} PublishKeepsBase(db: Db)
    requires BaseInv(db) && Enabled(db, PublishGroup)
    ensures BaseInv(Do(db, PublishGroup)) && Untouched(db, Do(db, PublishGroup))
  {
    hide WellFormed, NumbersBelow, VersionEntries, UniqueSequences;
  }

  lemma {:induction false} FlushEmptyKeepsBase(db: Db)
    requires BaseInv(db) && Enabled(db, FlushEmpty)
    ensures BaseInv(Do(db, FlushEmpty)) && Untouched(db, Do(db, FlushEmpty))
  {
    hide WellFormed, NumbersBelow, VersionEntries, UniqueSequences;
    assert Entries(Do(db, FlushEmpty)) == Entries(db);
  }

  lemma {:induction false} SnapshotKeepsBase(db: Db, step: Step)
    requires BaseInv(db) && Enabled(db, step) && (step.TakeSnapshot? || step.ReleaseSnapshot?)
    ensures BaseInv(Do(db, step)) && Untouched(db, Do(db, step))
  {
    hide BaseInv, Entries;
    BaseGroup(db);
    var db2 := Do(db, step);
    OnlySnapshots(db, db2);
  }

  lemma {:induction false} OnlySnapshots(db: Db, db2: Db)
    requires BaseInv(db) && db2 == db.(snapshots := db2.snapshots)
    requires forall n :: n in db2.snapshots ==> n <= db.lastSequence
    ensures BaseInv(db2) && Entries(db2) == Entries(db)
  {
    hide WellFormed, NumbersBelow, VersionEntries, UniqueSequences, Layered;
  }

  lemma {:induction false} SwitchKeepsBase(db: Db, id: nat)
    requires BaseInv(db) && Enabled(db, SwitchMemtable(id))
    ensures BaseInv(Do(db, SwitchMemtable(id))) && Untouched(db, Do(db, SwitchMemtable(id)))
  {
    hide WellFormed, NumbersBelow, VersionEntries, UniqueSequences;
    var db2 := Do(db, SwitchMemtable(id));
    assert Contents(db2, Some(db2.mem)) == {};
    assert Contents(db2, db2.imm) == Contents(db, Some(db.mem));
    assert Entries(db2) == Entries(db);
  }

  // ----- flush -----

  lemma {:induction false} FlushedEntries(v: Version, w: Version, level: nat, f: File)
    requires Flushed(v, w, level, f) && level < NUM_LEVELS
    ensures VersionEntries(w) == VersionEntries(v) + Elements(f.entries)
  {
    forall e
      ensures e in VersionEntries(w) <==> e in VersionEntries(v) || e in f.entries
    {
      if e in f.entries {
        assert f in w[level];
        assert InLevel(w[level], e);
      }
      if e in VersionEntries(v) {
        var l :| 0 <= l < NUM_LEVELS && e in FilesEntries(v[l]);
        var g :| g in v[l] && e in g.entries;
        assert g in w[l];
        assert InLevel(w[l], e);
      }
      if e in VersionEntries(w) {
        var l :| 0 <= l < NUM_LEVELS && e in FilesEntries(w[l]);
        var g :| g in w[l] && e in g.entries;
        assert g in v[l] || g == f;
        if g in v[l] { assert InLevel(v[l], e); }
      }
    }
  }

  lemma {:induction false} FlushIsNewest(db: Db, level: nat, f: File)
    requires NumbersBelow(db.version, db.nextFile) && MemOk(db)
    requires FlushEnabled(db, level, f)
    ensures HighestNumber(db.version, f) && NewestFile(db.version, f)
  {
    forall l, g | 0 <= l < NUM_LEVELS && g in db.version[l]
      ensures g.number < f.number && NewerFile(f, g)
    {
      forall y | y in g.entries
        ensures y in VersionEntries(db.version)
      {
        assert InLevel(db.version[l], y);
      }
      assert forall x :: x in f.entries ==> x in Contents(db, db.imm);
    }
  }

  lemma {:induction false} FlushKeepsBase(db: Db, level: nat, f: File)
    requires BaseInv(db) && FlushEnabled(db, level, f)
    ensures BaseInv(Do(db, Flush(level, f)))
    ensures Entries(Do(db, Flush(level, f))) == Entries(db)
  {
    hide ApplyEdit, WellFormed, GoodFile, FlushPlacement;
    var db2 := Do(db, Flush(level, f));
    FlushIsNewest(db, level, f);
    FlushKeepsWellFormed(db.version, level, f);
    assert level < NUM_LEVELS by { PlacementLevel(db.version, level, f); }
    FlushedEntries(db.version, db2.version, level, f);
    assert Entries(db2) == Entries(db);
    assert NumbersBelow(db2.version, db2.nextFile);
  }

  /** A flush at a level the picker allows keeps everything. */
  lemma {:induction false} FlushKeepsInv(db: Db, level: nat, f: File)
    requires Inv(db) && FlushEnabled(db, level, f)
    ensures Inv(Do(db, Flush(level, f)))
  {
    hide ApplyEdit, WellFormed, NewerAbove, GoodFile, FlushPlacement, HistoryOk, GroupOk;
    var db2 := Do(db, Flush(level, f));
    FlushKeepsBase(db, level, f);
    FlushIsNewest(db, level, f);
    FlushKeepsGood(db.version, level, f);
    QuietKeepsReads(db, db2);
  }

  lemma {:induction false} PlacementLevel(v: Version, level: nat, f: File)
    requires FlushPlacement(v, level, f)
    ensures level < NUM_LEVELS
  {
  }

  // ----- compaction -----

  /** Entries of the files that are no inputs. */
  ghost predicate InRest(v: Version, c: Inputs, e: Entry)
    requires c.level + 1 < NUM_LEVELS
  {
    exists l, f :: 0 <= l < NUM_LEVELS && f in v[l] && e in f.entries
                   && !(l == c.level && f in c.upper) && !(l == c.level + 1 && f in c.lower)
  }

  ghost function RestEntries(v: Version, c: Inputs): set<Entry>
    requires c.level + 1 < NUM_LEVELS
  {
    set e | e in VersionEntries(v) && InRest(v, c, e)
  }

  lemma {:induction false} EntryInVersion(v: Version, l: nat, f: File, e: Entry)
    requires l < NUM_LEVELS && f in v[l] && e in f.entries
    ensures e in VersionEntries(v)
  {
    assert InLevel(v[l], e);
  }

  lemma {:induction false} SplitVersion(v: Version, c: Inputs)
    requires Shape(v) && InputsClosed(v, c)
    ensures VersionEntries(v) == RestEntries(v, c) + (FilesEntries(c.upper) + FilesEntries(c.lower))
  {
    hide Shape, UpperClosed, LowerMatches;
    UpperIsMember(v, c);
    LowerIsMember(v, c);
    forall e
      ensures e in VersionEntries(v) <==> e in RestEntries(v, c) || InLevel(c.upper, e) || InLevel(c.lower, e)
    {
      if InLevel(c.upper, e) {
        var f :| f in c.upper && e in f.entries;
        EntryInVersion(v, c.level, f, e);
      }
      if InLevel(c.lower, e) {
        var f :| f in c.lower && e in f.entries;
        EntryInVersion(v, c.level + 1, f, e);
      }
      if e in VersionEntries(v) {
        var l :| 0 <= l < NUM_LEVELS && e in FilesEntries(v[l]);
        var f :| f in v[l] && e in f.entries;
      }
    }
  }

  lemma {:induction false} SplitInstalled(v: Version, w: Version, c: Inputs, outputs: seq<File>)
    requires c.level + 1 < NUM_LEVELS && Installed(v, w, c, outputs)
    ensures VersionEntries(w) == RestEntries(v, c) + FilesEntries(outputs)
  {
    hide Installed, InRest;
    forall e
      ensures e in VersionEntries(w) <==> e in RestEntries(v, c) || e in FilesEntries(outputs)
    {
      if e in VersionEntries(w) { InstalledComesFrom(v, w, c, outputs, e); }
      if e in RestEntries(v, c) { RestIsKept(v, w, c, outputs, e); }
      if e in FilesEntries(outputs) { OutputIsKept(v, w, c, outputs, e); }
    }
  }

  lemma {:induction false} RestIsKept(v: Version, w: Version, c: Inputs, outputs: seq<File>, e: Entry)
    requires c.level + 1 < NUM_LEVELS && Installed(v, w, c, outputs)
    requires e in RestEntries(v, c)
    ensures e in VersionEntries(w)
  {
    var l, f :| 0 <= l < NUM_LEVELS && f in v[l] && e in f.entries
                && !(l == c.level && f in c.upper) && !(l == c.level + 1 && f in c.lower);
    assert f in w[l];
    EntryInVersion(w, l, f, e);
  }

  lemma {:induction false} OutputIsKept(v: Version, w: Version, c: Inputs, outputs: seq<File>, e: Entry)
    requires c.level + 1 < NUM_LEVELS && Installed(v, w, c, outputs)
    requires e in FilesEntries(outputs)
    ensures e in VersionEntries(w)
  {
    var f :| f in outputs && e in f.entries;
    assert f in w[c.level + 1];
    EntryInVersion(w, c.level + 1, f, e);
  }

  lemma {:induction false} InstalledComesFrom(v: Version, w: Version, c: Inputs, outputs: seq<File>, e: Entry)
    requires c.level + 1 < NUM_LEVELS && Installed(v, w, c, outputs)
    requires e in VersionEntries(w)
    ensures e in RestEntries(v, c) || e in FilesEntries(outputs)
  {
    var l :| 0 <= l < NUM_LEVELS && e in FilesEntries(w[l]);
    var f :| f in w[l] && e in f.entries;
    if l == c.level + 1 && f in outputs {
      assert InLevel(outputs, e);
    } else {
      assert f in v[l];
      EntryInVersion(v, l, f, e);
    }
  }

  lemma {:induction false} NotTouchingUpper(v: Version, c: Inputs, f: File, g: File, x: Entry, e: Entry)
    requires Shape(v) && InputsClosed(v, c)
    requires f in v[c.level + 1] && f !in c.lower && g in c.upper
    requires x in f.entries && e in g.entries
    ensures x.key.user != e.key.user
  {
    LowerMembers(v, c);
    UpperIsMember(v, c);
    GoodMember(v[c.level], g);
    GoodMember(v[c.level + 1], f);
    EntryBounds(g, e);
    EntryBounds(f, x);
    var lo, hi :| IsUserRange(c.upper, lo, hi)
                  && forall f :: f in c.lower <==> f in v[c.level + 1] && Touches(f, Some(lo), Some(hi));
    assert !Touches(f, Some(lo), Some(hi));
  }

  lemma {:induction false} SubsetUnique(a: set<Entry>, h: set<Entry>)
    requires UniqueSequences(h) && a <= h
    ensures UniqueSequences(a)
  {
  }

  lemma {:induction false} VersionUnique(db: Db)
    requires HistoryOk(db)
    ensures UniqueSequences(VersionEntries(db.version))
  {
    hide UniqueSequences, VersionEntries;
    SubsetUnique(VersionEntries(db.version), db.history);
  }

  /** The outputs of an enabled compaction are files the level can take. */
  lemma {:induction false} OutputsFit(db: Db, c: Inputs, ss: SequenceNumber, input: seq<Entry>, outputs: seq<File>, next: nat)
    requires NumbersBelow(db.version, db.nextFile) && Shape(db.version)
    requires CompactEnabled(db, c, ss, input, outputs, next)
    requires forall e :: e in input ==> e.key.sequence < MAX_SEQUENCE_NUMBER
    ensures GoodFiles(outputs) && DisjointSorted(outputs) && FromInputs(c, outputs)
    ensures OutputNumbers(db.version, c, outputs)
    ensures FilesEntries(outputs) == Elements(Kept(db.version, c.level, input, ss, |input|))
    ensures FilesEntries(outputs) <= FilesEntries(c.upper) + FilesEntries(c.lower)
  {
    hide Shape, UpperClosed, LowerMatches, Sorted, Kept, GoodOutputs, GoodFiles, DisjointSorted, OutputNumbers,
      NumbersBelow;
    KeptSorted(db.version, c.level, input, ss, |input|);
    KeptSubset(db.version, c.level, input, ss);
    OutputsAreALevel(outputs, db.nextFile, next);
    ConcatMembers(outputs);
    FreshOutputs(db.version, c, outputs, db.nextFile, next);
    forall o, e | o in outputs && e in o.entries
      ensures InLevel(c.upper, e) || InLevel(c.lower, e)
    {
      assert InLevel(outputs, e);
      assert e in Elements(input);
    }
  }

  lemma {:induction false} KeptSubset(v: Version, level: nat, input: seq<Entry>, ss: SequenceNumber)
    ensures forall e :: e in Kept(v, level, input, ss, |input|) ==> e in input
    ensures Elements(Kept(v, level, input, ss, |input|)) <= Elements(input)
  {
    hide Dropped;
    KeptMembers(v, level, input, ss, |input|);
  }

  lemma {:induction false} FreshOutputs(v: Version, c: Inputs, outputs: seq<File>, next: nat, next2: nat)
    requires c.level + 1 < NUM_LEVELS
    requires NumbersBelow(v, next) && GoodOutputs(outputs, next, next2)
    ensures OutputNumbers(v, c, outputs)
  {
  }

  lemma {:induction false} InputsInHistory(db: Db, c: Inputs, input: seq<Entry>)
    requires Shape(db.version) && InputsClosed(db.version, c) && GroupOk(db) && HistoryOk(db)
    requires Elements(input) == FilesEntries(c.upper) + FilesEntries(c.lower)
    ensures forall e :: e in input ==> e in VersionEntries(db.version) && e.key.sequence < MAX_SEQUENCE_NUMBER
  {
    hide Shape, InputsClosed, UniqueSequences;
    SplitVersion(db.version, c);
    forall e | e in input
      ensures e in VersionEntries(db.version) && e.key.sequence < MAX_SEQUENCE_NUMBER
    {
      assert e in Elements(input);
      assert e in Entries(db);
    }
  }

  /** Everything the engine holds outside the inputs of a compaction. */
  ghost function Rest(db: Db, c: Inputs): set<Entry>
    requires c.level + 1 < NUM_LEVELS
  {
    Contents(db, Some(db.mem)) + Contents(db, db.imm) + RestEntries(db.version, c)
  }

  lemma {:induction false} BaseShape(v: Version, c: Inputs)
    requires WellFormed(v) && InputsClosed(v, c)
    ensures Shape(v) && c.level + 1 < NUM_LEVELS
  {
  }

  lemma {:induction false} CompactEntries(db: Db, db2: Db, c: Inputs, input: seq<Entry>, kept: seq<Entry>, outputs: seq<File>)
    requires Shape(db.version) && InputsClosed(db.version, c) && c.level + 1 < NUM_LEVELS
    requires Elements(input) == FilesEntries(c.upper) + FilesEntries(c.lower)
    requires Installed(db.version, db2.version, c, outputs)
    requires FilesEntries(outputs) == Elements(kept)
    requires db2 == db.(version := db2.version, nextFile := db2.nextFile)
    ensures Entries(db) == Rest(db, c) + Elements(input)
    ensures Entries(db2) == Rest(db, c) + Elements(kept)
  {
    hide Shape, InputsClosed, Installed, FilesEntries, VersionEntries, RestEntries, Elements;
    SplitVersion(db.version, c);
    SplitInstalled(db.version, db2.version, c, outputs);
  }

  lemma {:induction false} ReadableNotBefore(db: Db, s: SequenceNumber, ss: SequenceNumber)
    requires Readable(db, s) && ss <= db.lastSequence && forall n :: n in db.snapshots ==> ss <= n
    ensures ss <= s
  {
  }

  lemma {:induction false} CompactKeepsBase(db: Db, c: Inputs, ss: SequenceNumber, input: seq<Entry>,
                                            outputs: seq<File>, next: nat)
    requires BaseInv(db) && CompactEnabled(db, c, ss, input, outputs, next)
    ensures BaseInv(Do(db, Compact(c, ss, input, outputs, next)))
    ensures Installed(db.version, Do(db, Compact(c, ss, input, outputs, next)).version, c, outputs)
  {
    hide ApplyEdit, WellFormed, InputsClosed, UniqueSequences, Kept, Sorted, Shape, GoodFiles, DisjointSorted,
      FromInputs, OutputNumbers, Installed, GoodOutputs, NumbersBelow, FilesEntries, VersionEntries, Entries, Elements;
    var db2 := Do(db, Compact(c, ss, input, outputs, next));
    BaseShape(db.version, c);
    InputsInHistory(db, c, input);
    OutputsFit(db, c, ss, input, outputs, next);
    InstallKeepsWellFormed(db.version, c, outputs);
    ShrunkVersion(db, db2, c, outputs);
    InstalledBelow(db.version, db2.version, c, outputs, db.nextFile, next);
  }

  lemma {:induction false} ShrunkVersion(db: Db, db2: Db, c: Inputs, outputs: seq<File>)
    requires MemOk(db) && HistoryOk(db) && Shape(db.version) && InputsClosed(db.version, c)
    requires c.level + 1 < NUM_LEVELS
    requires db2 == db.(version := db2.version, nextFile := db2.nextFile)
    requires Installed(db.version, db2.version, c, outputs)
    requires FilesEntries(outputs) <= FilesEntries(c.upper) + FilesEntries(c.lower)
    ensures MemOk(db2) && HistoryOk(db2)
  {
    hide Shape, InputsClosed, UniqueSequences, Installed;
    SplitVersion(db.version, c);
    SplitInstalled(db.version, db2.version, c, outputs);
    assert VersionEntries(db2.version) <= VersionEntries(db.version);
  }

  lemma {:induction false} InstalledBelow(v: Version, w: Version, c: Inputs, outputs: seq<File>, next: nat, next2: nat)
    requires c.level + 1 < NUM_LEVELS && Installed(v, w, c, outputs)
    requires NumbersBelow(v, next) && GoodOutputs(outputs, next, next2) && next <= next2
    ensures NumbersBelow(w, next2)
  {
  }

  // ----- trivial move -----

  lemma {:induction false} MoveKeepsBase(db: Db, c: Inputs, maxFileSize: nat)
    requires BaseInv(db) && Enabled(db, Move(c, maxFileSize))
    ensures BaseInv(Do(db, Move(c, maxFileSize)))
    ensures Entries(Do(db, Move(c, maxFileSize))) == Entries(db)
    ensures Installed(db.version, Do(db, Move(c, maxFileSize)).version, c, c.upper)
  {
    hide ApplyEdit, WellFormed, InputsClosed, UniqueSequences, Shape, GoodFiles, DisjointSorted, FromInputs,
      OutputNumbers, Installed, NumbersBelow, VersionEntries, RestEntries;
    var db2 := Do(db, Move(c, maxFileSize));
    BaseShape(db.version, c);
    MoveIsInstall(c);
    MovedFileFits(db.version, c);
    InstallKeepsWellFormed(db.version, c, c.upper);
    SplitVersion(db.version, c);
    SplitInstalled(db.version, db2.version, c, c.upper);
    ShrunkVersion(db, db2, c, c.upper);
    assert FilesEntries(c.lower) == {};
    assert Entries(db2) == Entries(db);
    MovedBelow(db.version, db2.version, c, db.nextFile);
  }

  lemma {:induction false} MovedBelow(v: Version, w: Version, c: Inputs, next: nat)
    requires Shape(v) && InputsClosed(v, c) && Installed(v, w, c, c.upper) && NumbersBelow(v, next)
    ensures NumbersBelow(w, next)
  {
    UpperIsMember(v, c);
  }

  // ----- any run keeps the shape of the levels -----

  lemma {:induction false} StepKeepsBase(db: Db, step: Step)
    requires BaseInv(db) && Enabled(db, step)
    ensures BaseInv(Do(db, step))
  {
    match step
    case InsertOne => InsertKeepsBase(db);
    case Flush(level, f) => FlushKeepsBase(db, level, f);
    case Compact(c, ss, input, outputs, next) => CompactKeepsBase(db, c, ss, input, outputs, next);
    case Move(c, maxFileSize) => MoveKeepsBase(db, c, maxFileSize);
    case _ => QuietKeepsBase(db, step);
  }

  /** The first two conjuncts only make the others well defined; they hold in every state with `BaseInv`. */
  ghost predicate Happens(db: Db, step: Step, db2: Db) {
    Shape(db.version) && db.mem in db.tables && Enabled(db, step) && db2 == Do(db, step)
  }

  /** A run: every step enabled where it is taken. */
  ghost predicate Path(states: seq<Db>, steps: seq<Step>) {
    && |states| == |steps| + 1
    && forall i :: 0 <= i < |steps| ==> Happens(states[i], steps[i], states[i + 1])
  }

  lemma {:induction false} PathKeepsBase(states: seq<Db>, steps: seq<Step>, j: nat)
    requires Path(states, steps) && BaseInv(states[0]) && j < |states|
    ensures BaseInv(states[j])
  {
    hide BaseInv, Enabled, Do;
    if j > 0 {
      PathKeepsBase(states, steps, j - 1);
      assert Happens(states[j - 1], steps[j - 1], states[j]);
      StepKeepsBase(states[j - 1], steps[j - 1]);
    }
  }

  /** In every reachable state, whatever was compacted or moved: every level is sorted, its files hold sorted
      entries within their bounds, below level 0 their ranges of internal keys are disjoint, and no file
      number is used twice. */
  lemma {:induction false} LevelsKeepTheirShape(states: seq<Db>, steps: seq<Step>, j: nat)
    requires Path(states, steps) && states[0] == INITIAL && j < |states|
    ensures WellFormed(states[j].version) && NumbersBelow(states[j].version, states[j].nextFile)
  {
    InitialInv();
    PathKeepsBase(states, steps, j);
  }

  // ----- exactly which steps readers cannot tell -----

  /** An input of `c` ends in `u`, and a file left behind after it starts in `u`. */
  ghost predicate AtBoundary(v: Version, c: Inputs, u: UserKey)
    requires c.level + 1 < NUM_LEVELS
  {
    (c.level > 0 && Straddled(v[c.level], c.upper, u)) || Straddled(v[c.level + 1], c.lower, u)
  }

  /** What the compaction leaves behind at its two levels. */
  ghost predicate IsLeftBehind(v: Version, c: Inputs, e: Entry)
    requires c.level + 1 < NUM_LEVELS
  {
    (exists f :: f in v[c.level] && f !in c.upper && e in f.entries)
    || (exists f :: f in v[c.level + 1] && f !in c.lower && e in f.entries)
  }

  ghost function LeftBehindEntries(v: Version, c: Inputs): set<Entry>
    requires c.level + 1 < NUM_LEVELS
  {
    set e | e in VersionEntries(v) && IsLeftBehind(v, c, e)
  }

  /** The newest entry of `u` seen at `s` is an input and an obsolete deletion, and in what is left behind
      there is an older value. */
  ghost predicate Reappears(db: Db, c: Inputs, ss: SequenceNumber, input: seq<Entry>, u: UserKey, s: SequenceNumber)
    requires c.level + 1 < NUM_LEVELS
  {
    && (exists i :: 0 <= i < |input| && ObsoleteDeletion(db.version, c.level, input, ss, i)
                    && IsNewest(Entries(db), u, s, input[i]))
    && Lookup(LeftBehindEntries(db.version, c), u, s) != None
  }

  /** For no user key at a boundary does a deleted value reappear. */
  ghost predicate ReadsSafe(db: Db, c: Inputs, ss: SequenceNumber, input: seq<Entry>)
    requires c.level + 1 < NUM_LEVELS
  {
    forall u, s :: Readable(db, s) && AtBoundary(db.version, c, u) ==> !Reappears(db, c, ss, input, u, s)
  }

  /** The steps after which every reader still gets what was written. */
  ghost predicate Safe(db: Db, step: Step) {
    match step
    case Compact(c, ss, input, _, _) =>
      c.level + 1 < NUM_LEVELS && OrderSafe(db.version, c, ss, input) && ReadsSafe(db, c, ss, input)
    case Move(c, _) => c.level == 0 || (c.level < NUM_LEVELS && NoStraddle(db.version[c.level], c.upper))
    case _ => true
  }

  /** No file left behind at either level shares an input's last user key. */
  ghost predicate BoundaryClosed(v: Version, c: Inputs)
    requires c.level + 1 < NUM_LEVELS
  {
    && (c.level > 0 ==> NoStraddle(v[c.level], c.upper))
    && NoStraddle(v[c.level + 1], c.lower)
  }

  /** Boundary closure is enough, and needs nothing but file bounds to check. */
  lemma {:induction false} ClosedIsSafe(db: Db, step: Step)
    requires step.Compact? || step.Move?
    requires step.c.level + 1 < NUM_LEVELS && BoundaryClosed(db.version, step.c)
    ensures Safe(db, step)
  {
    hide Reappears, LeavesNothing;
  }

  lemma {:induction false} BaseFacts(db: Db, c: Inputs)
    requires BaseInv(db) && InputsClosed(db.version, c)
    ensures Shape(db.version) && WellFormed(db.version) && MemOk(db) && HistoryOk(db) && c.level + 1 < NUM_LEVELS
  {
  }

  lemma {:induction false} NotInMemory(db: Db, e: Entry)
    requires MemOk(db) && e in VersionEntries(db.version)
    ensures forall x :: x in Contents(db, Some(db.mem)) || x in Contents(db, db.imm) ==> x.key.sequence > e.key.sequence
  {
  }

  /** The file an input entry comes from. */
  lemma {:induction false} InputFile(v: Version, c: Inputs, input: seq<Entry>, e: Entry) returns (l: nat, g: File)
    requires Shape(v) && InputsClosed(v, c) && e in Elements(input)
    requires Elements(input) == FilesEntries(c.upper) + FilesEntries(c.lower)
    ensures l < NUM_LEVELS && g in v[l] && e in g.entries && e in VersionEntries(v)
    ensures (l == c.level && g in c.upper) || (l == c.level + 1 && g in c.lower)
  {
    hide Shape, UpperClosed, LowerMatches;
    UpperIsMember(v, c);
    LowerIsMember(v, c);
    if f :| f in c.upper && e in f.entries {
      l, g := c.level, f;
    } else {
      l := c.level + 1;
      g := InLower(c, e);
    }
    EntryInVersion(v, l, g, e);
  }

  lemma {:induction false} InLower(c: Inputs, e: Entry) returns (f: File)
    requires e in FilesEntries(c.lower)
    ensures f in c.lower && e in f.entries
  {
    f :| f in c.lower && e in f.entries;
  }

  /** The file that an entry outside the inputs is in. */
  lemma {:induction false} RestFile(v: Version, c: Inputs, x: Entry) returns (m: nat, f: File)
    requires c.level + 1 < NUM_LEVELS && x in RestEntries(v, c)
    ensures m < NUM_LEVELS && f in v[m] && x in f.entries
    ensures !(m == c.level && f in c.upper) && !(m == c.level + 1 && f in c.lower)
  {
    m, f :| 0 <= m < NUM_LEVELS && f in v[m] && x in f.entries
            && !(m == c.level && f in c.upper) && !(m == c.level + 1 && f in c.lower);
  }

  /** No entry is in two files of a good version. */
  lemma {:induction false} InOneFile(v: Version, l: nat, g: File, m: nat, f: File, e: Entry)
    requires WellFormed(v) && NewerAbove(v)
    requires l < NUM_LEVELS && m < NUM_LEVELS && g in v[l] && f in v[m] && (l != m || f != g)
    requires e in g.entries
    ensures e !in f.entries
  {
    NewerAboveByFile(v);
    if l < m {
      assert NewerFile(g, f);
    } else if m < l {
      assert NewerFile(f, g);
    } else if l == 0 {
      assert f.number > g.number ==> NewerFile(f, g);
      assert g.number > f.number ==> NewerFile(g, f);
    } else {
      LevelFilesApart(v[l], f, g);
      GoodMember(v[l], f);
      GoodMember(v[l], g);
      EntryBounds(g, e);
      if e in f.entries { EntryBounds(f, e); }
    }
  }

  lemma {:induction false} RestStaysApart(db: Db, c: Inputs, input: seq<Entry>)
    requires Inv(db) && InputsClosed(db.version, c) && c.level + 1 < NUM_LEVELS
    requires Elements(input) == FilesEntries(c.upper) + FilesEntries(c.lower)
    ensures Elements(input) !! Rest(db, c)
  {
    hide BaseInv, ReadsOk, NewerAbove, Shape, InputsClosed, Elements, FilesEntries, RestEntries, WellFormed, VersionEntries;
    BaseFacts(db, c);
    forall e | e in Elements(input)
      ensures e !in Rest(db, c)
    {
      var l, g := InputFile(db.version, c, input, e);
      NotInMemory(db, e);
      if e in RestEntries(db.version, c) {
        var m, f := RestFile(db.version, c, e);
        InOneFile(db.version, l, g, m, f, e);
      }
    }
  }

  /** Older entries of an obsolete deletion's user key can only be where the key straddles a boundary. */
  lemma {:induction false} OlderIsLeftBehind(db: Db, c: Inputs, ss: SequenceNumber, input: seq<Entry>, i: nat, x: Entry)
    requires Inv(db) && InputsClosed(db.version, c) && c.level + 1 < NUM_LEVELS
    requires Elements(input) == FilesEntries(c.upper) + FilesEntries(c.lower)
    requires i < |input| && ObsoleteDeletion(db.version, c.level, input, ss, i)
    requires x in Rest(db, c) && x.key.user == input[i].key.user && x.key.sequence <= input[i].key.sequence
    ensures x in LeftBehindEntries(db.version, c) && AtBoundary(db.version, c, x.key.user)
  {
    hide BaseInv, ReadsOk, NewerAbove, Shape, InputsClosed, FilesEntries, RestEntries, WellFormed, VersionEntries, AtBoundary,
      ObsoleteDeletion, UniqueSequences, LeftBehindEntries;
    BaseFacts(db, c);
    assert input[i] in Elements(input);
    var l, g := InputFile(db.version, c, input, input[i]);
    NotInMemory(db, input[i]);
    assert x in RestEntries(db.version, c);
    var m, f := RestFile(db.version, c, x);
    VersionUnique(db);
    OlderFile(db.version, c, ss, input, i, l, g, m, f, x);
    InLeftBehind(db.version, c, m, f, x);
  }

  lemma {:induction false} InLeftBehind(v: Version, c: Inputs, m: nat, f: File, x: Entry)
    requires c.level + 1 < NUM_LEVELS && (m == c.level || m == c.level + 1)
    requires f in v[m] && x in f.entries && !(m == c.level && f in c.upper) && !(m == c.level + 1 && f in c.lower)
    ensures x in LeftBehindEntries(v, c)
  {
    EntryInVersion(v, m, f, x);
  }

  lemma {:induction false} OlderFile(v: Version, c: Inputs, ss: SequenceNumber, input: seq<Entry>, i: nat,
                                     l: nat, g: File, m: nat, f: File, x: Entry)
    requires WellFormed(v) && NewerAbove(v) && InputsClosed(v, c) && UniqueSequences(VersionEntries(v))
    requires i < |input| && ObsoleteDeletion(v, c.level, input, ss, i) && input[i] in g.entries
    requires (l == c.level && g in c.upper) || (l == c.level + 1 && g in c.lower)
    requires m < NUM_LEVELS && f in v[m] && x in f.entries
    requires !(m == c.level && f in c.upper) && !(m == c.level + 1 && f in c.lower)
    requires x.key.user == input[i].key.user
    ensures x.key.sequence > input[i].key.sequence
            || ((m == c.level || m == c.level + 1) && AtBoundary(v, c, x.key.user))
  {
    hide SortedVersion, GlobalNumbers, UpperClosed, LowerMatches, Straddled, UniqueSequences, VersionEntries, NewerAbove, Shape,
      IsBaseLevel, Less;
    UpperIsMember(v, c);
    LowerIsMember(v, c);
    var e := input[i];
    if m >= c.level + 2 {
      assert InLevel(v[m], x);
      DeeperIsNotBase(v, c.level, x);
    } else if m < l {
      NewerAboveByFile(v);
      assert NewerFile(f, g);
    } else if m > l {
      NotTouchingUpper(v, c, f, g, x, e);
    } else if m == c.level {
      LeftBehindUpper(v, c, f, g, x, e);
    } else {
      LevelUnique(v, m);
      LevelIsGood(v, m);
      LeftBehindOrStraddled(v[m], c.lower, f, g, x, e);
    }
  }

  /** Where the deletion is the newest entry seen, what is left behind decides what reappears. */
  lemma {:induction false} BringsBackIff(db: Db, c: Inputs, ss: SequenceNumber, input: seq<Entry>, u: UserKey, s: SequenceNumber)
    requires Inv(db) && InputsClosed(db.version, c) && c.level + 1 < NUM_LEVELS
    requires Elements(input) == FilesEntries(c.upper) + FilesEntries(c.lower)
    requires Entries(db) == Rest(db, c) + Elements(input)
    ensures BringsBack(db.version, c.level, input, ss, Rest(db, c), u, s)
            <==> AtBoundary(db.version, c, u) && Reappears(db, c, ss, input, u, s)
  {
    hide Inv, InputsClosed, Entries, Rest, Lookup, ObsoleteDeletion, AtBoundary, LeftBehindEntries, Elements, FilesEntries;
    if i :| 0 <= i < |input| && ObsoleteDeletion(db.version, c.level, input, ss, i) && IsNewest(Entries(db), u, s, input[i]) {
      forall x | x in Rest(db, c) && Visible(x, u, s)
        ensures x in LeftBehindEntries(db.version, c) && AtBoundary(db.version, c, u)
      {
        assert x in Entries(db);
        OlderIsLeftBehind(db, c, ss, input, i, x);
      }
      LeftBehindInRest(db, c);
      RestUnique(db, c, input);
      LookupLocal(Rest(db, c), LeftBehindEntries(db.version, c), u, s);
      if Lookup(Rest(db, c), u, s) != None { SomethingVisible(Rest(db, c), u, s); }
    }
  }

  lemma {:induction false} SomethingVisible(es: set<Entry>, u: UserKey, s: SequenceNumber)
    requires Lookup(es, u, s) != None
    ensures exists x :: x in es && Visible(x, u, s)
  {
    if forall x :: x in es ==> !Visible(x, u, s) { LookupNothing(es, u, s); }
  }

  lemma {:induction false} LeftBehindInRest(db: Db, c: Inputs)
    requires Inv(db) && InputsClosed(db.version, c) && c.level + 1 < NUM_LEVELS
    ensures LeftBehindEntries(db.version, c) <= Rest(db, c)
  {
    hide BaseInv, ReadsOk, NewerAbove, InputsClosed;
    forall e | e in LeftBehindEntries(db.version, c)
      ensures InRest(db.version, c, e)
    {
      if f :| f in db.version[c.level] && f !in c.upper && e in f.entries {
        assert f in db.version[c.level];
      } else {
        var f :| f in db.version[c.level + 1] && f !in c.lower && e in f.entries;
      }
    }
  }

  lemma {:induction false} RestUnique(db: Db, c: Inputs, input: seq<Entry>)
    requires Inv(db) && c.level + 1 < NUM_LEVELS && Entries(db) == Rest(db, c) + Elements(input)
    requires LeftBehindEntries(db.version, c) <= Rest(db, c)
    ensures UniqueSequences(Rest(db, c)) && UniqueSequences(LeftBehindEntries(db.version, c))
    ensures UniqueSequences(Rest(db, c) + Elements(input))
  {
    hide WellFormed, ReadsOk, NewerAbove, UniqueSequences, Rest, LeftBehindEntries, Entries;
    SubsetUnique(Entries(db), db.history);
    SubsetUnique(Rest(db, c), db.history);
    SubsetUnique(LeftBehindEntries(db.version, c), db.history);
  }

  /** A compaction preserves every read that can still be asked for if and only if no deleted value reappears
      from a file left behind at a boundary. */
  lemma {:induction false} CompactKeepsReadsIff(db: Db, c: Inputs, ss: SequenceNumber, input: seq<Entry>,
                                                outputs: seq<File>, next: nat)
    requires Inv(db) && CompactEnabled(db, c, ss, input, outputs, next)
    ensures ReadsOk(Do(db, Compact(c, ss, input, outputs, next))) <==> ReadsSafe(db, c, ss, input)
  {
    hide BaseInv, NewerAbove, InputsClosed, UniqueSequences, Installed, Kept, Sorted, Lookup, Entries, Rest, Elements,
      FilesEntries, GoodOutputs, ApplyEdit, Shape, BringsBack, Reappears, AtBoundary;
    BaseFacts(db, c);
    var db2 := Do(db, Compact(c, ss, input, outputs, next));
    var kept := Kept(db.version, c.level, input, ss, |input|);
    CompactKeepsBase(db, c, ss, input, outputs, next);
    CompactWrites(db, c, ss, input, outputs, next);
    CompactEntries(db, db2, c, input, kept, outputs);
    RestStaysApart(db, c, input);
    LeftBehindInRest(db, c);
    RestUnique(db, c, input);
    forall u, s | Readable(db2, s)
      ensures Lookup(Entries(db2), u, s) == Lookup(db2.history, u, s)
              <==> !(AtBoundary(db.version, c, u) && Reappears(db, c, ss, input, u, s))
    {
      ReadableNotBefore(db, s, ss);
      ReadKeptIff(db.version, c.level, input, ss, Rest(db, c), u, s);
      BringsBackIff(db, c, ss, input, u, s);
      assert Readable(db, s);
    }
    assert forall s :: Readable(db2, s) <==> Readable(db, s);
  }

  lemma {:induction false} CompactWrites(db: Db, c: Inputs, ss: SequenceNumber, input: seq<Entry>, outputs: seq<File>, next: nat)
    requires BaseInv(db) && CompactEnabled(db, c, ss, input, outputs, next)
    ensures GoodFiles(outputs) && DisjointSorted(outputs) && FromInputs(c, outputs)
    ensures OutputNumbers(db.version, c, outputs) && Writes(db.version, c, ss, input, outputs)
  {
    hide InputsClosed, UniqueSequences, Kept, Sorted, GoodFiles, DisjointSorted, FromInputs, OutputNumbers, GoodOutputs,
      NumbersBelow, FilesEntries, VersionEntries, Entries, Elements;
    InputsInHistory(db, c, input);
    OutputsFit(db, c, ss, input, outputs, next);
  }

  /** Exactly which compactions keep the whole invariant. */
  lemma {:induction false} CompactIsSafeIff(db: Db, c: Inputs, ss: SequenceNumber, input: seq<Entry>,
                                            outputs: seq<File>, next: nat)
    requires Inv(db) && CompactEnabled(db, c, ss, input, outputs, next)
    ensures Inv(Do(db, Compact(c, ss, input, outputs, next)))
            <==> OrderSafe(db.version, c, ss, input) && ReadsSafe(db, c, ss, input)
  {
    hide BaseInv, ReadsOk, NewerAbove, InputsClosed, UniqueSequences, Installed, Kept, Sorted, Entries, Elements, Writes,
      FilesEntries, GoodOutputs, ApplyEdit, Shape, OrderSafe, ReadsSafe, GoodFiles, DisjointSorted, FromInputs, OutputNumbers,
      VersionEntries, WellFormed;
    BaseFacts(db, c);
    CompactKeepsBase(db, c, ss, input, outputs, next);
    CompactWrites(db, c, ss, input, outputs, next);
    CompactKeepsReadsIff(db, c, ss, input, outputs, next);
    VersionUnique(db);
    InstallIsGoodIff(db.version, c, ss, input, outputs);
    BaseWellFormed(Do(db, Compact(c, ss, input, outputs, next)));
  }

  lemma {:induction false} BaseWellFormed(db: Db)
    requires BaseInv(db)
    ensures WellFormed(db.version)
  {
  }

  /** Exactly which trivial moves keep the whole invariant. */
  lemma {:induction false} MoveStepIsSafeIff(db: Db, c: Inputs, maxFileSize: nat)
    requires Inv(db) && Enabled(db, Move(c, maxFileSize))
    ensures Inv(Do(db, Move(c, maxFileSize))) <==> c.level == 0 || NoStraddle(db.version[c.level], c.upper)
  {
    hide BaseInv, ReadsOk, NewerAbove, InputsClosed, UniqueSequences, Installed, Entries, ApplyEdit, Shape, NoStraddle,
      VersionEntries, WellFormed;
    BaseFacts(db, c);
    var db2 := Do(db, Move(c, maxFileSize));
    MoveKeepsBase(db, c, maxFileSize);
    QuietKeepsReads(db, db2);
    VersionUnique(db);
    MoveIsSafeIff(db.version, c);
    BaseWellFormed(db2);
  }

  lemma {:induction false} InsertKeepsInv(db: Db)
    requires Inv(db) && db.inserted < |db.batch|
    ensures Inv(Do(db, InsertOne))
  {
    hide BaseInv, ReadsOk;
    InsertKeepsBase(db);
    InsertKeepsReads(db);
    assert GroupOk(db) by { BaseGroup(db); }
  }

  lemma {:induction false} BaseGroup(db: Db)
    requires BaseInv(db)
    ensures GroupOk(db) && MemOk(db) && HistoryOk(db)
  {
  }

  lemma {:induction false} QuietKeepsInv(db: Db, step: Step)
    requires Inv(db) && Enabled(db, step) && IsQuiet(step)
    ensures Inv(Do(db, step))
  {
    hide BaseInv, ReadsOk, NewerAbove, Entries, Readable;
    BaseGroup(db);
    QuietKeepsBase(db, step);
    QuietKeepsReads(db, Do(db, step));
  }

  /** In any state in which readers get what was written, a step keeps it so if and only if it is safe. */
  lemma {:induction false} StepIsSafeIff(db: Db, step: Step)
    requires Inv(db) && Enabled(db, step)
    ensures Inv(Do(db, step)) <==> Safe(db, step)
  {
    hide Inv, ReadsSafe, OrderSafe;
    match step
    case InsertOne => InsertKeepsInv(db);
    case Flush(level, f) => FlushKeepsInv(db, level, f);
    case Compact(c, ss, input, outputs, next) => CompactIsSafeIff(db, c, ss, input, outputs, next);
    case Move(c, maxFileSize) => MoveStepIsSafeIff(db, c, maxFileSize);
    case _ => QuietKeepsInv(db, step);
  }

  /** Over any run from the empty database: in every state on the way the levels are good and every read that
      can still be asked for gets what was written, if and only if every step on the way was safe. */
  lemma {:induction false} RunIsGoodIffSafe(states: seq<Db>, steps: seq<Step>, n: nat)
    requires Path(states, steps) && states[0] == INITIAL && n < |states|
    ensures (forall j :: 0 <= j <= n ==> Inv(states[j])) <==> forall i :: 0 <= i < n ==> Safe(states[i], steps[i])
  {
    hide Inv, Enabled, Do, Safe;
    if n == 0 {
      InitialInv();
    } else {
      RunIsGoodIffSafe(states, steps, n - 1);
      assert Happens(states[n - 1], steps[n - 1], states[n]);
      if Inv(states[n - 1]) {
        StepIsSafeIff(states[n - 1], steps[n - 1]);
      }
    }
  }

  // ----- readers -----

  /** What a reader captures under the mutex: its sequence number and its references. */
  datatype View = View(mem: nat, imm: Option<nat>, version: Version, s: SequenceNumber)

  function TakeView(db: Db, s: SequenceNumber): View {
    View(db.mem, db.imm, db.version, s)
  }

  /** DBImpl::Get: the current memtable, then the immutable one, then the version; the first that has
      a visible entry answers. */
  ghost function LayeredGet(mem: set<Entry>, imm: set<Entry>, below: set<Entry>, u: UserKey, s: SequenceNumber): Option<Bytes> {
    if exists e :: e in mem && Visible(e, u, s) then Lookup(mem, u, s)
    else if exists e :: e in imm && Visible(e, u, s) then Lookup(imm, u, s)
    else Lookup(below, u, s)
  }

  ghost function ReaderGet(db: Db, view: View, u: UserKey): Option<Bytes> {
    LayeredGet(Contents(db, Some(view.mem)), Contents(db, view.imm), VersionEntries(view.version), u, view.s)
  }

  lemma {:induction false} FirstLayerDecides(a: set<Entry>, b: set<Entry>, u: UserKey, s: SequenceNumber, x: Entry)
    requires UniqueSequences(a + b) && Above(a, b)
    requires x in a && Visible(x, u, s)
    ensures Lookup(a + b, u, s) == Lookup(a, u, s)
  {
    SubsetUnique(a, a + b);
    var e := NewestExists(a, u, s, x);
    assert IsNewest(a + b, u, s, e);
    LookupIs(a, u, s, e);
    LookupIs(a + b, u, s, e);
  }

  lemma {:induction false} EmptyLayerIsSkipped(a: set<Entry>, b: set<Entry>, u: UserKey, s: SequenceNumber)
    requires UniqueSequences(a + b)
    requires forall e :: e in a ==> !Visible(e, u, s)
    ensures Lookup(a + b, u, s) == Lookup(b, u, s)
  {
    SubsetUnique(b, a + b);
    LookupLocal(a + b, b, u, s);
  }

  /** The layered search is the lookup over everything it searches. */
  lemma {:induction false} LayeredIsLookup(mem: set<Entry>, imm: set<Entry>, below: set<Entry>, u: UserKey, s: SequenceNumber)
    requires Layered(mem, imm, below) && UniqueSequences(mem + imm + below)
    ensures LayeredGet(mem, imm, below, u, s) == Lookup(mem + imm + below, u, s)
  {
    assert mem + imm + below == mem + (imm + below);
    if x :| x in mem && Visible(x, u, s) {
      FirstLayerDecides(mem, imm + below, u, s, x);
    } else {
      EmptyLayerIsSkipped(mem, imm + below, u, s);
      SubsetUnique(imm + below, mem + (imm + below));
      if y :| y in imm && Visible(y, u, s) {
        FirstLayerDecides(imm, below, u, s, y);
      } else {
        EmptyLayerIsSkipped(imm, below, u, s);
      }
    }
  }

  ghost function ViewEntries(db: Db, view: View): set<Entry> {
    Contents(db, Some(view.mem)) + Contents(db, view.imm) + VersionEntries(view.version)
  }

  /** What stays true of a view while the engine runs on: its tables may gain entries, but none the
      reader can see, and its answers stay those of the history. */
  ghost predicate ViewOk(db: Db, view: View) {
    && view.mem in db.tables
    && (view.imm.Some? ==> view.imm.value in db.tables && view.imm.value != db.mem)
    && view.s <= db.lastSequence
    && Layered(Contents(db, Some(view.mem)), Contents(db, view.imm), VersionEntries(view.version))
    && ViewEntries(db, view) <= db.history
    && forall u :: Lookup(ViewEntries(db, view), u, view.s) == Lookup(db.history, u, view.s)
  }

  lemma {:induction false} FreshViewOk(db: Db, s: SequenceNumber)
    requires BaseInv(db) && ReadsOk(db) && Readable(db, s) && s <= db.lastSequence
    ensures ViewOk(db, TakeView(db, s))
  {
    hide WellFormed, NumbersBelow, GroupOk;
    assert ViewEntries(db, TakeView(db, s)) == Entries(db);
  }

  lemma {:induction false} LayeredInsert(mem: set<Entry>, imm: set<Entry>, below: set<Entry>, h: set<Entry>,
                                         e: Entry, added: set<Entry>)
    requires Layered(mem, imm, below) && imm + below <= h && added <= {e}
    requires forall x :: x in h ==> x.key.sequence < e.key.sequence
    ensures Layered(mem + added, imm, below)
  {
  }

  lemma {:induction false} InsertKeepsView(db: Db, view: View)
    requires BaseInv(db) && ViewOk(db, view) && db.inserted < |db.batch|
    ensures ViewOk(Do(db, InsertOne), view)
    ensures forall u :: Lookup(Do(db, InsertOne).history, u, view.s) == Lookup(db.history, u, view.s)
  {
    hide WellFormed, NumbersBelow, ReadsOk, MemOk, Layered, Lookup, VersionEntries, UniqueSequences;
    var e := db.batch[db.inserted];
    assert db.mem in db.tables by { MemInTables(db); }
    var db2 := Do(db, InsertOne);
    InsertKeepsBase(db);
    var added := if view.mem == db.mem then {e} else {};
    assert Contents(db2, Some(view.mem)) == Contents(db, Some(view.mem)) + added;
    assert Contents(db2, view.imm) == Contents(db, view.imm);
    assert ViewEntries(db2, view) == ViewEntries(db, view) + added;
    LayeredInsert(Contents(db, Some(view.mem)), Contents(db, view.imm), VersionEntries(view.version), db.history, e, added);
    forall u
      ensures Lookup(db2.history, u, view.s) == Lookup(db.history, u, view.s)
      ensures Lookup(ViewEntries(db2, view), u, view.s) == Lookup(db2.history, u, view.s)
    {
      InvisibleInsert(ViewEntries(db, view), ViewEntries(db2, view), db.history, e, u, view.s);
    }
  }

  lemma {:induction false} InvisibleInsert(a: set<Entry>, a2: set<Entry>, h: set<Entry>, e: Entry, u: UserKey, s: SequenceNumber)
    requires UniqueSequences(h + {e}) && a <= h && (a2 == a || a2 == a + {e})
    requires e.key.sequence > s && Lookup(a, u, s) == Lookup(h, u, s)
    ensures Lookup(h + {e}, u, s) == Lookup(h, u, s)
    ensures Lookup(a2, u, s) == Lookup(h + {e}, u, s)
  {
    LookupLocal(h + {e}, h, u, s);
    LookupLocal(a2, a, u, s);
  }

  lemma {:induction false} MemInTables(db: Db)
    requires MemOk(db)
    ensures db.mem in db.tables
  {
  }

  /** A step that inserts nothing leaves every memtable there is as it was. */
  lemma {:induction false} TablesStay(db: Db, step: Step)
    requires Shape(db.version) && db.mem in db.tables && Enabled(db, step) && !step.InsertOne?
    ensures var db2 := Do(db, step);
            && db2.history == db.history && db2.lastSequence >= db.lastSequence
            && (db2.mem == db.mem || db2.mem !in db.tables)
            && forall id :: id in db.tables ==> id in db2.tables && db2.tables[id] == db.tables[id]
  {
    hide FlushEnabled, CompactEnabled, InputsClosed, ApplyEdit, Shape;
  }

  /** No step changes what a view sees, or what the history says at the view's sequence number. */
  lemma {:induction false} StepKeepsView(db: Db, step: Step, view: View)
    requires BaseInv(db) && Enabled(db, step) && ViewOk(db, view)
    ensures ViewOk(Do(db, step), view)
    ensures forall u :: Lookup(Do(db, step).history, u, view.s) == Lookup(db.history, u, view.s)
  {
    hide WellFormed, NumbersBelow, HistoryOk, GroupOk, Enabled, Do, Lookup, VersionEntries, Layered;
    BaseGroup(db);
    BaseWellFormed(db);
    if step.InsertOne? {
      ViewKeptByInsert(db, view);
    } else {
      TablesStay(db, step);
      var db2 := Do(db, step);
      assert Contents(db2, Some(view.mem)) == Contents(db, Some(view.mem));
      assert Contents(db2, view.imm) == Contents(db, view.imm);
      assert ViewEntries(db2, view) == ViewEntries(db, view);
    }
  }

  lemma {:induction false} ViewKeptByInsert(db: Db, view: View)
    requires BaseInv(db) && Enabled(db, InsertOne) && ViewOk(db, view)
    ensures ViewOk(Do(db, InsertOne), view)
    ensures forall u :: Lookup(Do(db, InsertOne).history, u, view.s) == Lookup(db.history, u, view.s)
  {
    hide BaseInv, ViewOk;
    InsertKeepsView(db, view);
  }

  /** Snapshot stability: whatever the engine does after a reader took its sequence number and its
      references, the reader's answer is the abstract map's value at that sequence number when it did. */
  lemma {:induction false} ReaderSeesSnapshot(states: seq<Db>, steps: seq<Step>, j: nat, s: SequenceNumber, u: UserKey)
    requires Path(states, steps) && j < |states| && BaseInv(states[0]) && ReadsOk(states[0])
    requires Readable(states[0], s) && s <= states[0].lastSequence
    ensures ReaderGet(states[j], TakeView(states[0], s), u) == Lookup(states[0].history, u, s)
  {
    hide Lookup, BaseInv, ReadsOk, Readable, Enabled, Do, VersionEntries, UniqueSequences;
    FreshViewOk(states[0], s);
    var view := TakeView(states[0], s);
    ViewStaysOk(states, steps, j, view, u);
    PathKeepsBase(states, steps, j);
    var end := states[j];
    BaseGroup(end);
    SubsetUnique(ViewEntries(end, view), end.history);
    LayeredIsLookup(Contents(end, Some(view.mem)), Contents(end, view.imm), VersionEntries(view.version), u, s);
  }

  lemma {:induction false} ViewStaysOk(states: seq<Db>, steps: seq<Step>, j: nat, view: View, u: UserKey)
    requires Path(states, steps) && j < |states| && BaseInv(states[0]) && ViewOk(states[0], view)
    ensures ViewOk(states[j], view)
    ensures Lookup(states[j].history, u, view.s) == Lookup(states[0].history, u, view.s)
  {
    hide Lookup, BaseInv, Enabled, Do, ViewOk;
    if j > 0 {
      ViewStaysOk(states, steps, j - 1, view, u);
      PathKeepsBase(states, steps, j - 1);
      assert Happens(states[j - 1], steps[j - 1], states[j]);
      StepKeepsView(states[j - 1], steps[j - 1], view);
    }
  }

  // ----- batch atomicity -----

  /** What applying the operations one by one leaves for `u`. */
  function Applied(before: Option<Bytes>, ops: seq<Op>, u: UserKey): Option<Bytes> {
    if ops == [] then before
    else
      var last := ops[|ops| - 1];
      if last.user == u then (if last.typ.Value? then Some(last.value) else None)
      else Applied(before, ops[..|ops| - 1], u)
  }

  /** The history after a group of operations has been inserted. */
  ghost function Grown(h: set<Entry>, ops: seq<Op>, last: SequenceNumber): set<Entry> {
    h + Elements(Numbered(ops, last + 1))
  }

  lemma {:induction false} GrownSnoc(h: set<Entry>, ops: seq<Op>, last: SequenceNumber)
    requires ops != []
    ensures Grown(h, ops, last) == Grown(h, ops[..|ops| - 1], last) + {Numbered(ops, last + 1)[|ops| - 1]}
  {
    NumberedSnoc(ops, last + 1);
  }

  lemma {:induction false} GrownBounds(h: set<Entry>, ops: seq<Op>, last: SequenceNumber)
    requires UniqueSequences(h) && forall e :: e in h ==> e.key.sequence <= last
    ensures UniqueSequences(Grown(h, ops, last))
    ensures forall e :: e in Grown(h, ops, last) ==> e.key.sequence <= last + |ops|
    decreases |ops|
  {
    if ops != [] {
      GrownBounds(h, ops[..|ops| - 1], last);
      GrownSnoc(h, ops, last);
    }
  }

  /** One more entry, newer than everything: the map changes at its user key only, from its sequence
      number on. */
  lemma {:induction false} OneMoreEntry(es: set<Entry>, e: Entry, last: SequenceNumber, u: UserKey)
    requires UniqueSequences(es) && (forall x :: x in es ==> x.key.sequence <= last)
    requires e.key.sequence == last + 1
    ensures Lookup(es + {e}, u, last + 1) == if e.key.user == u then Reveals(e) else Lookup(es, u, last)
    ensures forall s: SequenceNumber :: s <= last ==> Lookup(es + {e}, u, s) == Lookup(es, u, s)
  {
    assert UniqueSequences(es + {e});
    if e.key.user == u {
      assert IsNewest(es + {e}, u, last + 1, e);
      LookupIs(es + {e}, u, last + 1, e);
    } else {
      LookupLocal(es + {e}, es, u, last + 1);
      SameAnswerLater(es, u, last, last + 1);
    }
    forall s: SequenceNumber | s <= last
      ensures Lookup(es + {e}, u, s) == Lookup(es, u, s)
    {
      LookupLocal(es + {e}, es, u, s);
    }
  }

  /** A whole group becomes visible at once: at the sequence number it is published with the map has
      all of it, applied in order; at every earlier number it has none of it. */
  lemma {:induction false} GroupIsAtomic(h: set<Entry>, ops: seq<Op>, last: SequenceNumber, u: UserKey)
    requires UniqueSequences(h) && forall e :: e in h ==> e.key.sequence <= last
    ensures Lookup(Grown(h, ops, last), u, last + |ops|) == Applied(Lookup(h, u, last), ops, u)
    ensures forall s: SequenceNumber :: s <= last ==> Lookup(Grown(h, ops, last), u, s) == Lookup(h, u, s)
    decreases |ops|
  {
    hide Lookup, UniqueSequences;
    if ops == [] {
      assert Grown(h, ops, last) == h;
    } else {
      hide Grown;
      var n := |ops| - 1;
      var e := Entry(InternalKey(ops[n].user, last + 1 + n, ops[n].typ), ops[n].value);
      GroupIsAtomic(h, ops[..n], last, u);
      LastOfGroup(h, ops, last, e, u);
    }
  }

  lemma {:induction false} LastOfGroup(h: set<Entry>, ops: seq<Op>, last: SequenceNumber, e: Entry, u: UserKey)
    requires UniqueSequences(h) && forall e :: e in h ==> e.key.sequence <= last
    requires ops != []
    requires e == Entry(InternalKey(ops[|ops| - 1].user, last + |ops|, ops[|ops| - 1].typ), ops[|ops| - 1].value)
    ensures Lookup(Grown(h, ops, last), u, last + |ops|)
         == if e.key.user == u then Reveals(e) else Lookup(Grown(h, ops[..|ops| - 1], last), u, last + |ops| - 1)
    ensures forall s: SequenceNumber :: s < last + |ops| ==>
              Lookup(Grown(h, ops, last), u, s) == Lookup(Grown(h, ops[..|ops| - 1], last), u, s)
  {
    hide Grown, Lookup, UniqueSequences;
    var n := |ops| - 1;
    GrownBounds(h, ops[..n], last);
    GrownSnoc(h, ops, last);
    OneMoreEntry(Grown(h, ops[..n], last), e, last + n, u);
  }

  lemma {:induction false} SameAnswerLater(es: set<Entry>, u: UserKey, s: SequenceNumber, t: SequenceNumber)
    requires UniqueSequences(es) && s <= t
    requires forall e :: e in es ==> e.key.sequence <= s
    ensures Lookup(es, u, s) == Lookup(es, u, t)
  {
    LookupAgrees(es, u, s, t);
  }

  lemma {:induction false} NumberedSnoc(ops: seq<Op>, first: SequenceNumber)
    requires ops != []
    ensures Elements(Numbered(ops, first))
         == Elements(Numbered(ops[..|ops| - 1], first)) + {Numbered(ops, first)[|ops| - 1]}
  {
    var n := |ops| - 1;
    assert Numbered(ops, first) == Numbered(ops[..n], first) + [Numbered(ops, first)[n]];
  }

  /** In every reachable state the group being inserted is invisible to every reader there can be. */
  lemma {:induction false} UnpublishedIsInvisible(db: Db, s: SequenceNumber, i: nat)
    requires BaseInv(db) && s <= db.lastSequence && i < |db.batch|
    ensures !Visible(db.batch[i], db.batch[i].key.user, s)
  {
    hide WellFormed, NumbersBelow, ReadsOk, MemOk, HistoryOk;
  }
}
