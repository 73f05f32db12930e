// One run of the engine, from the empty database, to a user key that straddles two files; and the two
// ways from there to a reader who finds a deleted value again.

module Straddle {
  import opened Keys
  import opened Levels
  import opened Overlaps
  import opened Compactions
  import opened VersionBuilder
  import opened Manifest
  import opened LevelEdits
  import opened Boundaries
  import opened Engine

  // ----- what can be reached by safe steps -----

  ghost predicate LeadsTo(states: seq<Db>, steps: seq<Step>, db: Db) {
    Path(states, steps) && states[0] == INITIAL && states[|steps|] == db
  }

  /** A state reached from the empty database in which every reader still gets what was written. */
  ghost predicate Reached(db: Db) {
    Inv(db) && exists states, steps :: LeadsTo(states, steps, db)
  }

  lemma {:induction false} StartIsReached()
    ensures Reached(INITIAL)
  {
    InitialInv();
    assert LeadsTo([INITIAL], [], INITIAL);
  }

  lemma {:induction false} CanHappen(db: Db, step: Step)
    requires BaseInv(db) && Enabled(db, step)
    ensures Happens(db, step, Do(db, step))
  {
  }

  lemma {:induction false} SafeStepReaches(db: Db, step: Step)
    requires Reached(db) && Enabled(db, step) && Safe(db, step)
    ensures Reached(Do(db, step))
  {
    hide BaseInv, NewerAbove, ReadsOk, Enabled, Do, Safe, Happens;
    var states, steps :| LeadsTo(states, steps, db);
    StepIsSafeIff(db, step);
    CanHappen(db, step);
    var more, taken := states + [Do(db, step)], steps + [step];
    forall i | 0 <= i < |taken|
      ensures Happens(more[i], taken[i], more[i + 1])
    {
      if i < |steps| { assert Happens(states[i], steps[i], states[i + 1]); }
    }
    assert LeadsTo(more, taken, Do(db, step));
  }

  // ----- whole groups, and flushes of what they wrote -----

  /** A quiet database: `mem` holds `young`, the version is `version`, and nothing is going on. */
  ghost predicate At(db: Db, version: Version, next: nat, last: SequenceNumber, snapshots: multiset<SequenceNumber>,
                     young: set<Entry>, history: set<Entry>)
  {
    && Reached(db)
    && db.version == version && db.nextFile == next && db.lastSequence == last && db.snapshots == snapshots
    && db.batch == [] && db.imm.None? && Contents(db, Some(db.mem)) == young && db.history == history
  }

  /** A group under way, its first `n` operations in. */
  ghost predicate Midway(db: Db, db2: Db, ops: seq<Op>, n: nat) {
    && n <= |ops| && db.mem in db.tables
    && db2 == db.(tables := db2.tables, batch := Numbered(ops, db.lastSequence + 1), inserted := n,
                  history := db.history + Elements(Numbered(ops, db.lastSequence + 1)[..n]))
    && db2.tables == db.tables[db.mem := db.tables[db.mem] + Elements(Numbered(ops, db.lastSequence + 1)[..n])]
  }

  lemma {:induction false} InsertAll(db: Db, ops: seq<Op>, n: nat) returns (db2: Db)
    requires Reached(db) && db.mem in db.tables && db.batch == [] && |ops| > 0 && n <= |ops|
    requires db.lastSequence + |ops| < MAX_SEQUENCE_NUMBER
    ensures Reached(db2) && Midway(db, db2, ops, n)
  {
    hide Reached, Midway, Elements, Numbered;
    ReachedShape(db);
    if n == 0 {
      SafeStepReaches(db, BeginGroup(ops));
      db2 := Do(db, BeginGroup(ops));
      NothingInserted(db, ops);
    } else {
      var db1 := InsertAll(db, ops, n - 1);
      ReachedShape(db1);
      OneMoreInserted(db, db1, ops, n);
      SafeStepReaches(db1, InsertOne);
      db2 := Do(db1, InsertOne);
    }
  }

  lemma {:induction false} NothingInserted(db: Db, ops: seq<Op>)
    requires db.mem in db.tables
    ensures Midway(db, Do(db, BeginGroup(ops)), ops, 0)
  {
    assert Elements(Numbered(ops, db.lastSequence + 1)[..0]) == {};
    assert db.tables[db.mem] + {} == db.tables[db.mem] && db.history + {} == db.history;
    assert db.tables[db.mem := db.tables[db.mem]] == db.tables;
  }

  lemma {:induction false} OneMoreInserted(db: Db, db1: Db, ops: seq<Op>, n: nat)
    requires 0 < n <= |ops| && Midway(db, db1, ops, n - 1)
    requires Shape(db1.version)
    ensures Enabled(db1, InsertOne) && Midway(db, Do(db1, InsertOne), ops, n)
  {
    var es := Numbered(ops, db.lastSequence + 1);
    assert Elements(es[..n]) == Elements(es[..n - 1]) + {es[n - 1]};
    assert db.tables[db.mem] + Elements(es[..n]) == db.tables[db.mem] + Elements(es[..n - 1]) + {es[n - 1]};
    assert db.history + Elements(es[..n]) == db.history + Elements(es[..n - 1]) + {es[n - 1]};
  }

  lemma {:induction false} ReachedShape(db: Db)
    requires Reached(db)
    ensures Shape(db.version) && db.mem in db.tables
    ensures db.imm.Some? ==> db.imm.value in db.tables && db.imm.value != db.mem
  {
  }

  /** A group is written, and the memtable with it is flushed. */
  lemma {:induction false} WriteGroup(db: Db, ops: seq<Op>, version: Version, next: nat, last: SequenceNumber,
                                      snapshots: multiset<SequenceNumber>, young: set<Entry>, history: set<Entry>) returns (db2: Db)
    requires At(db, version, next, last, snapshots, young, history)
    requires |ops| > 0 && last + |ops| < MAX_SEQUENCE_NUMBER
    ensures var es := Elements(Numbered(ops, last + 1));
            At(db2, version, next, last + |ops|, snapshots, young + es, history + es)
  {
    hide Reached;
    ReachedShape(db);
    var db1 := InsertAll(db, ops, |ops|);
    var es := Numbered(ops, last + 1);
    assert es[..|ops|] == es;
    ReachedShape(db1);
    SafeStepReaches(db1, PublishGroup);
    db2 := Do(db1, PublishGroup);
  }

  lemma {:induction false} FreshId(ids: set<nat>) returns (id: nat)
    ensures id !in ids && forall n :: n in ids ==> n < id
  {
    if ids == {} {
      id := 0;
    } else {
      var n :| n in ids;
      var below := FreshId(ids - {n});
      id := if n < below then below else n + 1;
      forall m | m in ids
        ensures m < id
      {
        assert m == n || m in ids - {n};
      }
    }
  }

  lemma {:induction false} FlushAll(db: Db, level: nat, f: File, version: Version, next: nat, last: SequenceNumber,
                                    snapshots: multiset<SequenceNumber>, young: set<Entry>, history: set<Entry>) returns (db2: Db)
    requires At(db, version, next, last, snapshots, young, history)
    requires f.number == next && GoodFile(f) && Elements(f.entries) == young && FlushPlacement(version, level, f)
    ensures At(db2, ApplyEdit(version, FlushEdit(level, f)), next + 1, last, snapshots, {}, history)
  {
    hide Reached, GoodFile, FlushPlacement, ApplyEdit;
    ReachedShape(db);
    var id := FreshId(db.tables.Keys);
    SafeStepReaches(db, SwitchMemtable(id));
    var db1 := Do(db, SwitchMemtable(id));
    assert Contents(db1, db1.imm) == young && Contents(db1, Some(db1.mem)) == {};
    ReachedShape(db1);
    SafeStepReaches(db1, Flush(level, f));
    db2 := Do(db1, Flush(level, f));
    assert Contents(db2, Some(db2.mem)) == {};
  }

  /** A version is known by the members of its levels. */
  lemma {:induction false} SameVersion(v: Version, w: Version)
    requires SortedVersion(v) && SortedVersion(w)
    requires forall l, f :: 0 <= l < NUM_LEVELS ==> (f in v[l] <==> f in w[l])
    ensures v == w
  {
    forall l | 0 <= l < NUM_LEVELS
      ensures v[l] == w[l]
    {
      SortedUnique(v[l], w[l]);
    }
  }

  // ----- the entries and files of the run -----

  const OLD: Entry := Entry(InternalKey(1.0, 1, Value), [5])
  const LOW: Entry := Entry(InternalKey(0.25, 2, Value), [3])
  const DELETION: Entry := Entry(InternalKey(1.0, 3, Deletion), [])
  const MIDDLE: Entry := Entry(InternalKey(0.5, 4, Value), [20])

  const OLD_FILE: File := File(2, 100, OLD.key, OLD.key, [OLD])
  const UPPER_FILE: File := File(3, 100, LOW.key, DELETION.key, [LOW, DELETION])
  const FIRST_FILE: File := File(4, 100, LOW.key, DELETION.key, [LOW, DELETION])
  const SECOND_FILE: File := File(5, 100, OLD.key, OLD.key, [OLD])
  const TOP_FILE: File := File(6, 100, MIDDLE.key, MIDDLE.key, [MIDDLE])
  const LAST_FILE: File := File(7, 100, LOW.key, MIDDLE.key, [LOW, MIDDLE])

  /** A version with files at levels 2, 3 and 4 only. */
  function Three(two: seq<File>, three: seq<File>, four: seq<File>): Version {
    [[], [], two, three, four, [], []]
  }

  lemma {:induction false} ThreeLevels(two: seq<File>, three: seq<File>, four: seq<File>, l: nat)
    requires l < NUM_LEVELS
    ensures Three(two, three, four)[l] == if l == 2 then two else if l == 3 then three else if l == 4 then four else []
  {
  }

  lemma {:induction false} FilesAreGood()
    ensures GoodFile(OLD_FILE) && GoodFile(UPPER_FILE) && GoodFile(FIRST_FILE) && GoodFile(SECOND_FILE)
    ensures GoodFile(TOP_FILE) && GoodFile(LAST_FILE)
  {
  }

  lemma {:induction false} ThreeSorted(two: seq<File>, three: seq<File>, four: seq<File>)
    requires SortedFiles(two) && SortedFiles(three) && SortedFiles(four)
    ensures SortedVersion(Three(two, three, four))
  {
    hide SortedFiles, Three;
    forall l | 0 <= l < NUM_LEVELS
      ensures SortedFiles(Three(two, three, four)[l])
    {
      ThreeLevels(two, three, four, l);
      EmptySorted();
    }
  }

  lemma {:induction false} EmptySorted()
    ensures SortedFiles([])
  {
  }

  /** Flushing one file to an empty level 2. */
  lemma {:induction false} FlushedToTwo(f: File, three: seq<File>)
    requires SortedFiles(three) && WellFormed(Three([], three, []))
    requires forall g :: g in three ==> g.number < f.number
    ensures FlushPlacement(Three([], three, []), 2, f)
    ensures ApplyEdit(Three([], three, []), FlushEdit(2, f)) == Three([f], three, [])
  {
    hide ApplyEdit, Three, GoodFile;
    var v := Three([], three, []);
    forall l | 0 <= l < NUM_LEVELS
      ensures v[l] == (if l == 3 then three else [])
      ensures Three([f], three, [])[l] == if l == 2 then [f] else if l == 3 then three else []
    {
      ThreeLevels([], three, [], l);
      ThreeLevels([f], three, [], l);
    }
    FlushMembers(v, 2, f);
    ThreeSorted([f], three, []);
    SameVersion(ApplyEdit(v, FlushEdit(2, f)), Three([f], three, []));
  }

  lemma {:induction false} SameLevel(v: Version, w: Version, w2: Version, c: Inputs, outputs: seq<File>, l: nat, f: File)
    requires c.level + 1 < NUM_LEVELS && l < NUM_LEVELS
    requires Installed(v, w, c, outputs) && Installed(v, w2, c, outputs)
    ensures f in w2[l] <==> f in w[l]
  {
    if l == c.level {
      assert f in w[c.level] <==> f in w2[c.level];
    } else if l == c.level + 1 {
      assert f in w[l] <==> (f in v[l] && f !in c.lower) || f in outputs;
    } else {
      assert f in w[l] <==> f in v[l];
    }
  }

  /** Installing a compaction or a move from level `c.level`. */
  lemma {:induction false} InstalledIs(v: Version, c: Inputs, outputs: seq<File>, w: Version)
    requires WellFormed(v) && InputsClosed(v, c)
    requires GoodFiles(outputs) && DisjointSorted(outputs) && FromInputs(c, outputs) && OutputNumbers(v, c, outputs)
    requires Installed(v, w, c, outputs) && SortedVersion(w)
    ensures ApplyEdit(v, InstallEdit(c, outputs)) == w
  {
    hide ApplyEdit, UpperClosed, LowerMatches, GoodFiles, DisjointSorted, FromInputs, OutputNumbers;
    InstallKeepsWellFormed(v, c, outputs);
    var w2 := ApplyEdit(v, InstallEdit(c, outputs));
    forall l, f | 0 <= l < NUM_LEVELS
      ensures f in w2[l] <==> f in w[l]
    {
      SameLevel(v, w, w2, c, outputs, l, f);
    }
    SameVersion(ApplyEdit(v, InstallEdit(c, outputs)), w);
  }

  // ----- the run to the cut -----

  const PUT_OLD: Op := Op(Value, 1.0, [5])
  const PUT_LOW: Op := Op(Value, 0.25, [3])
  const DELETE_OLD: Op := Op(Deletion, 1.0, [])
  const PUT_MIDDLE: Op := Op(Value, 0.5, [20])

  lemma {:induction false} Groups()
    ensures Elements(Numbered([PUT_OLD], 1)) == {OLD}
    ensures Elements(Numbered([PUT_LOW, DELETE_OLD], 2)) == {LOW, DELETION}
    ensures Elements(Numbered([PUT_MIDDLE], 4)) == {MIDDLE}
  {
    assert Numbered([PUT_OLD], 1) == [OLD];
    assert Numbered([PUT_LOW, DELETE_OLD], 2) == [LOW, DELETION];
    assert Numbered([PUT_MIDDLE], 4) == [MIDDLE];
  }

  const SOME_SNAPSHOT: multiset<SequenceNumber> := multiset{1}

  /** A value is written, a snapshot taken, and the value flushed to level 2. */
  lemma {:induction false} OldIsFlushed() returns (db: Db)
    ensures At(db, Three([OLD_FILE], [], []), 3, 1, SOME_SNAPSHOT, {}, {OLD})
  {
    hide Reached, ApplyEdit, Three, GoodFile, FlushPlacement, Numbered, Elements;
    StartIsReached();
    Groups();
    EmptyIsThree();
    var db1 := WriteGroup(INITIAL, [PUT_OLD], EMPTY_VERSION, 2, 0, multiset{}, {}, {});
    var db2 := Snapshotted(db1, EMPTY_VERSION, 2, 1, multiset{}, {OLD}, {OLD});
    WellFormedHere(db2);
    FilesAreGood();
    EmptySorted();
    FlushedToTwo(OLD_FILE, []);
    assert Elements([OLD]) == {OLD} by { OneElement(OLD); }
    db := FlushAll(db2, 2, OLD_FILE, EMPTY_VERSION, 2, 1, SOME_SNAPSHOT, {OLD}, {OLD});
  }

  lemma {:induction false} EmptyIsThree()
    ensures EMPTY_VERSION == Three([], [], [])
    ensures At(INITIAL, EMPTY_VERSION, 2, 0, multiset{}, {}, {}) <==> Reached(INITIAL)
  {
  }

  lemma {:induction false} OneElement(e: Entry)
    ensures Elements([e]) == {e}
  {
  }

  lemma {:induction false} WellFormedHere(db: Db)
    requires Reached(db)
    ensures WellFormed(db.version)
  {
  }

  lemma {:induction false} Snapshotted(db: Db, version: Version, next: nat, last: SequenceNumber, snapshots: multiset<SequenceNumber>,
                                       young: set<Entry>, history: set<Entry>) returns (db2: Db)
    requires At(db, version, next, last, snapshots, young, history)
    ensures At(db2, version, next, last, snapshots + multiset{last}, young, history)
  {
    hide Reached;
    ReachedShape(db);
    SafeStepReaches(db, TakeSnapshot);
    db2 := Do(db, TakeSnapshot);
  }

  // ----- from level 2 to level 3 -----

  /** The inputs of a compaction from level `level` with one upper file. */
  function From(level: nat, upper: File, lower: seq<File>): Inputs {
    Inputs(level, [upper], lower, [], upper.largest)
  }

  lemma {:induction false} OneFileRange(f: File, lo: UserKey, hi: UserKey)
    ensures IsUserRange([f], lo, hi) <==> lo == f.smallest.user && hi == f.largest.user
  {
    assert f in [f];
    if IsUserRange([f], lo, hi) {
      var g :| g in [f] && g.smallest.user == lo;
      var h :| h in [f] && h.largest.user == hi;
    }
  }

  lemma {:induction false} OneFileInputs(v: Version, level: nat, upper: File, lower: seq<File>)
    requires Shape(v) && 0 < level && level + 1 < NUM_LEVELS && upper in v[level]
    requires lower == Select(v[level + 1], Some(upper.smallest.user), Some(upper.largest.user))
    ensures InputsClosed(v, From(level, upper, lower))
  {
    hide Shape, Select, IsUserRange;
    forall lo, hi
      ensures IsUserRange([upper], lo, hi) <==> lo == upper.smallest.user && hi == upper.largest.user
    {
      OneFileRange(upper, lo, hi);
    }
    assert IsUserRange([upper], upper.smallest.user, upper.largest.user);
  }

  /** Replacing inputs at levels 2 and 3, or 3 and 4. */
  lemma {:induction false} ThreeInstalled(v2: seq<File>, v3: seq<File>, v4: seq<File>, w2: seq<File>, w3: seq<File>, w4: seq<File>,
                                          c: Inputs, outputs: seq<File>)
    requires c.level == 2 ==> (forall f :: f in w2 <==> f in v2 && f !in c.upper)
                              && (forall f :: f in w3 <==> (f in v3 && f !in c.lower) || f in outputs) && w4 == v4
    requires c.level == 3 ==> w2 == v2 && (forall f :: f in w3 <==> f in v3 && f !in c.upper)
                              && (forall f :: f in w4 <==> (f in v4 && f !in c.lower) || f in outputs)
    requires c.level == 2 || c.level == 3
    ensures Installed(Three(v2, v3, v4), Three(w2, w3, w4), c, outputs)
  {
    hide Three;
    forall l | 0 <= l < NUM_LEVELS
      ensures Three(v2, v3, v4)[l] == if l == 2 then v2 else if l == 3 then v3 else if l == 4 then v4 else []
      ensures Three(w2, w3, w4)[l] == if l == 2 then w2 else if l == 3 then w3 else if l == 4 then w4 else []
    {
      ThreeLevels(v2, v3, v4, l);
      ThreeLevels(w2, w3, w4, l);
    }
  }

  lemma {:induction false} MovedIs(v: Version, c: Inputs, w: Version)
    requires WellFormed(v) && InputsClosed(v, c) && |c.upper| == 1 && c.lower == []
    requires Installed(v, w, c, c.upper) && SortedVersion(w)
    ensures ApplyEdit(v, MoveEdit(c)) == w
  {
    hide ApplyEdit, WellFormed, InputsClosed, GoodFiles, DisjointSorted, FromInputs, OutputNumbers, Installed, SortedVersion;
    assert c.level + 1 < NUM_LEVELS && Shape(v) by { BaseShape(v, c); }
    MoveIsInstall(c);
    MovedFileFits(v, c);
    InstalledIs(v, c, c.upper, w);
  }

  /** A step of a quiet database that changes the version and nothing else. */
  lemma {:induction false} VersionStep(db: Db, step: Step, version: Version, next: nat, last: SequenceNumber,
                                       snapshots: multiset<SequenceNumber>, young: set<Entry>, history: set<Entry>) returns (db2: Db)
    requires At(db, version, next, last, snapshots, young, history)
    requires (step.Compact? || (step.Move? && |step.c.upper| == 1)) && Shape(db.version) && Enabled(db, step) && Safe(db, step)
    ensures At(db2, if step.Compact? then ApplyEdit(version, InstallEdit(step.c, step.outputs)) else ApplyEdit(version, MoveEdit(step.c)),
               if step.Compact? then step.next else next, last, snapshots, young, history)
  {
    hide Reached, Enabled, Safe, ApplyEdit;
    ReachedShape(db);
    SafeStepReaches(db, step);
    db2 := Do(db, step);
  }

  /** The flushed value is moved to level 3. */
  lemma {:induction false} OldIsMoved() returns (db: Db)
    ensures At(db, Three([], [OLD_FILE], []), 3, 1, SOME_SNAPSHOT, {}, {OLD})
  {
    hide Reached, ApplyEdit, Three, Select, InputsClosed;
    var v, w := Three([OLD_FILE], [], []), Three([], [OLD_FILE], []);
    var db1 := OldIsFlushed();
    ReachedShape(db1);
    WellFormedHere(db1);
    var c := From(2, OLD_FILE, []);
    OldMoves(v, w, c);
    db := VersionStep(db1, Move(c, 100), v, 3, 1, SOME_SNAPSHOT, {}, {OLD});
  }

  lemma {:induction false} OldMoves(v: Version, w: Version, c: Inputs)
    requires v == Three([OLD_FILE], [], []) && w == Three([], [OLD_FILE], []) && c == From(2, OLD_FILE, [])
    requires WellFormed(v)
    ensures InputsClosed(v, c) && GrandparentsMatch(v, c) && IsTrivialMove(c, 100) && NoStraddle(v[2], c.upper)
    ensures ApplyEdit(v, MoveEdit(c)) == w
  {
    hide ApplyEdit, Three, InputsClosed;
    ThreeLevels([OLD_FILE], [], [], 2);
    ThreeLevels([OLD_FILE], [], [], 3);
    ThreeLevels([OLD_FILE], [], [], 4);
    OneFileInputs(v, 2, OLD_FILE, []);
    ThreeInstalled([OLD_FILE], [], [], [], [OLD_FILE], [], c, [OLD_FILE]);
    EmptySorted();
    ThreeSorted([], [OLD_FILE], []);
    MovedIs(v, c, w);
  }

  /** A newer value and a deletion of the old one are flushed above it. */
  lemma {:induction false} DeletionIsFlushed() returns (db: Db)
    ensures At(db, Three([UPPER_FILE], [OLD_FILE], []), 4, 3, SOME_SNAPSHOT, {}, {OLD, LOW, DELETION})
  {
    hide Reached, ApplyEdit, Three, GoodFile, FlushPlacement, Numbered, Elements;
    Groups();
    var db1 := OldIsMoved();
    var db2 := WriteGroup(db1, [PUT_LOW, DELETE_OLD], Three([], [OLD_FILE], []), 3, 1, SOME_SNAPSHOT, {}, {OLD});
    assert {OLD} + {LOW, DELETION} == {OLD, LOW, DELETION} && {} + {LOW, DELETION} == {LOW, DELETION};
    WellFormedHere(db2);
    FilesAreGood();
    FlushedToTwo(UPPER_FILE, [OLD_FILE]);
    TwoElements(LOW, DELETION);
    db := FlushAll(db2, 2, UPPER_FILE, Three([], [OLD_FILE], []), 3, 3, SOME_SNAPSHOT, {LOW, DELETION}, {OLD, LOW, DELETION});
  }

  lemma {:induction false} TwoElements(a: Entry, b: Entry)
    ensures Elements([a, b]) == {a, b}
  {
  }

  // ----- the compaction that cuts a user key in two -----

  // Where an output is cut depends on sizes, which the engine's steps leave open; the second entry of
  // the key is the first of a new file.
  const CUT_INPUT: seq<Entry> := [LOW, DELETION, OLD]
  const CUT_OUTPUTS: seq<File> := [FIRST_FILE, SECOND_FILE]

  /** One user key at the end of a level-3 file and at the start of the next. */
  function Cut(): Version {
    Three([], CUT_OUTPUTS, [])
  }

  /** The snapshot keeps both entries of the key, so everything survives. */
  lemma {:induction false} AllAreKept(v: Version)
    ensures Kept(v, 2, CUT_INPUT, 1, 3) == CUT_INPUT
  {
    hide IsBaseLevel, Kept;
    assert !Dropped(v, 2, CUT_INPUT, 1, 0) && !Dropped(v, 2, CUT_INPUT, 1, 1) && !Dropped(v, 2, CUT_INPUT, 1, 2);
    NothingKept(v, 2, CUT_INPUT, 1);
    KeptStep(v, 2, CUT_INPUT, 1, 0);
    KeptStep(v, 2, CUT_INPUT, 1, 1);
    KeptStep(v, 2, CUT_INPUT, 1, 2);
  }

  lemma {:induction false} ConcatTwo(a: File, b: File)
    ensures Concat([a, b]) == a.entries + b.entries
    ensures Concat([a]) == a.entries
  {
    assert [a, b][..1] == [a] && [a][..0] == [];
    assert Concat([]) == [];
    assert Concat([a]) == Concat([]) + a.entries;
  }

  lemma {:induction false} OneFileEntries(f: File)
    ensures FilesEntries([f]) == Elements(f.entries)
  {
    forall e
      ensures InLevel([f], e) <==> e in f.entries
    {
      assert f in [f];
    }
  }

  lemma {:induction false} CutIsEnabled(db: Db, v: Version, c: Inputs)
    requires v == Three([UPPER_FILE], [OLD_FILE], []) && c == From(2, UPPER_FILE, [OLD_FILE]) && Shape(v)
    requires At(db, v, 4, 3, SOME_SNAPSHOT, {}, {OLD, LOW, DELETION})
    ensures CompactEnabled(db, c, 1, CUT_INPUT, CUT_OUTPUTS, 6) && BoundaryClosed(v, c)
  {
    hide Reached, Three, InputsClosed, Kept, FilesEntries, Concat, GoodOutputs, Select;
    ThreeLevels([UPPER_FILE], [OLD_FILE], [], 2);
    ThreeLevels([UPPER_FILE], [OLD_FILE], [], 3);
    OneFileSelect(OLD_FILE, 0.25, 1.0);
    OneFileInputs(v, 2, UPPER_FILE, [OLD_FILE]);
    AllAreKept(v);
    ConcatTwo(FIRST_FILE, SECOND_FILE);
    OneFileEntries(UPPER_FILE);
    OneFileEntries(OLD_FILE);
    CutOutputsFit();
  }

  lemma {:induction false} OneFileSelect(f: File, lo: UserKey, hi: UserKey)
    ensures Select([f], Some(lo), Some(hi)) == if Touches(f, Some(lo), Some(hi)) then [f] else []
  {
    assert [f][..0] == [];
  }

  lemma {:induction false} CutOutputsFit()
    ensures GoodOutputs(CUT_OUTPUTS, 4, 6) && SortedFiles(CUT_OUTPUTS)
  {
  }

  /** The straddling version is reached, with nothing lost so far. */
  lemma {:induction false} CutIsReached() returns (db: Db)
    ensures At(db, Cut(), 6, 3, SOME_SNAPSHOT, {}, {OLD, LOW, DELETION})
  {
    hide Reached, ApplyEdit, Three, Select, InputsClosed, CompactEnabled, BoundaryClosed;
    var v, c := Three([UPPER_FILE], [OLD_FILE], []), From(2, UPPER_FILE, [OLD_FILE]);
    var db1 := DeletionIsFlushed();
    ReachedShape(db1);
    CutIsEnabled(db1, v, c);
    var step := Compact(c, 1, CUT_INPUT, CUT_OUTPUTS, 6);
    ClosedIsSafe(db1, step);
    CutIsInstalled(db1, v, c);
    db := VersionStep(db1, step, v, 4, 3, SOME_SNAPSHOT, {}, {OLD, LOW, DELETION});
  }

  lemma {:induction false} CutIsInstalled(db: Db, v: Version, c: Inputs)
    requires v == Three([UPPER_FILE], [OLD_FILE], []) && c == From(2, UPPER_FILE, [OLD_FILE])
    requires Reached(db) && db.version == v
    requires Shape(v) && CompactEnabled(db, c, 1, CUT_INPUT, CUT_OUTPUTS, 6)
    ensures ApplyEdit(v, InstallEdit(c, CUT_OUTPUTS)) == Cut()
  {
    hide BaseInv, NewerAbove, ReadsOk, ApplyEdit, Three, InputsClosed, CompactEnabled, Installed, SortedFiles, GoodFiles, DisjointSorted,
      FromInputs, OutputNumbers, Writes;
    CompactWrites(db, c, 1, CUT_INPUT, CUT_OUTPUTS, 6);
    EnabledInputs(db, c, 1, CUT_INPUT, CUT_OUTPUTS, 6);
    ThreeInstalled([UPPER_FILE], [OLD_FILE], [], [], CUT_OUTPUTS, [], c, CUT_OUTPUTS);
    CutOutputsFit();
    EmptySorted();
    ThreeSorted([], CUT_OUTPUTS, []);
    WellFormedHere(db);
    InstalledIs(v, c, CUT_OUTPUTS, Cut());
  }

  lemma {:induction false} EnabledInputs(db: Db, c: Inputs, ss: SequenceNumber, input: seq<Entry>, outputs: seq<File>, next: nat)
    requires Shape(db.version) && CompactEnabled(db, c, ss, input, outputs, next)
    ensures InputsClosed(db.version, c)
  {
  }

  lemma {:induction false} EntriesOfThree(two: seq<File>, three: seq<File>, four: seq<File>)
    ensures VersionEntries(Three(two, three, four)) == FilesEntries(two) + FilesEntries(three) + FilesEntries(four)
  {
    hide Three, FilesEntries;
    forall l | 0 <= l < NUM_LEVELS
      ensures Three(two, three, four)[l] == if l == 2 then two else if l == 3 then three else if l == 4 then four else []
    {
      ThreeLevels(two, three, four, l);
    }
    var v := Three(two, three, four);
    assert v[2] == two && v[3] == three && v[4] == four;
    forall e
      ensures e in VersionEntries(v) <==> e in FilesEntries(two) + FilesEntries(three) + FilesEntries(four)
    {
      if e in VersionEntries(v) {
        var l :| 0 <= l < NUM_LEVELS && e in FilesEntries(v[l]);
        assert !InLevel([], e);
      }
    }
  }

  lemma {:induction false} TwoFilesEntries(a: File, b: File)
    ensures FilesEntries([a, b]) == Elements(a.entries) + Elements(b.entries)
  {
    forall e
      ensures InLevel([a, b], e) <==> e in a.entries || e in b.entries
    {
      assert a in [a, b] && b in [a, b];
    }
  }

  // ----- the first way: a trivial move -----

  const FIRST_ONLY: Inputs := Inputs(3, [FIRST_FILE], [], [], DELETION.key)

  /** Moving the first of the two files down puts the deletion below the value it deletes. */
  lemma {:induction false} MoveHidesDeletion() returns (db: Db)
    ensures Reached(db) && db.version == Cut() && Enabled(db, Move(FIRST_ONLY, 100))
    ensures var db2 := Do(db, Move(FIRST_ONLY, 100));
            && BaseInv(db2) && !Inv(db2)
            && Contents(db2, Some(db2.mem)) == {} && db2.imm.None?
            && (forall l :: 0 <= l < 3 ==> db2.version[l] == [])
            && IsNewest(FilesEntries(db2.version[3]), 1.0, 3, OLD) && Reveals(OLD) == Some([5])
            && Lookup(Entries(db2), 1.0, 3) == None && Lookup(db2.history, 1.0, 3) == None
  {
    hide Reached, ApplyEdit, Three, InputsClosed, NoStraddle, BaseInv, NewerAbove, ReadsOk, Lookup, IsNewest;
    db := CutIsReached();
    ReachedInv(db);
    ReachedShape(db);
    FirstMoves();
    var step := Move(FIRST_ONLY, 100);
    StepIsSafeIff(db, step);
    StepKeepsBase(db, step);
    MoveKeepsBase(db, FIRST_ONLY, 100);
    var db2 := Do(db, step);
    forall l | 0 <= l <= 3
      ensures db2.version[l] == if l == 3 then [SECOND_FILE] else []
    {
      ThreeLevels([], [SECOND_FILE], [FIRST_FILE], l);
    }
    OneFileEntries(SECOND_FILE);
    OldIsNewest();
    DeletionIsNewest(db2);
  }

  lemma {:induction false} ReachedInv(db: Db)
    requires Reached(db)
    ensures Inv(db) && BaseInv(db)
  {
  }

  lemma {:induction false} OldIsNewest()
    ensures IsNewest(Elements([OLD]), 1.0, 3, OLD)
  {
    OneElement(OLD);
  }

  lemma {:induction false} DeletionIsNewest(db: Db)
    requires Entries(db) == VersionEntries(Cut()) && db.history == {OLD, LOW, DELETION}
    ensures Lookup(Entries(db), 1.0, 3) == None && Lookup(db.history, 1.0, 3) == None
  {
    hide Lookup, Three, FilesEntries, VersionEntries;
    EntriesOfThree([], CUT_OUTPUTS, []);
    TwoFilesEntries(FIRST_FILE, SECOND_FILE);
    TwoElements(LOW, DELETION);
    OneElement(OLD);
    assert FilesEntries([]) == {};
    var es := {OLD, LOW, DELETION};
    assert Entries(db) == es;
    assert UniqueSequences(es) && IsNewest(es, 1.0, 3, DELETION);
    LookupIs(es, 1.0, 3, DELETION);
  }

  lemma {:induction false} FirstMoves()
    ensures Shape(Cut()) ==> InputsClosed(Cut(), FIRST_ONLY) && GrandparentsMatch(Cut(), FIRST_ONLY)
    ensures IsTrivialMove(FIRST_ONLY, 100) && !NoStraddle(Cut()[3], FIRST_ONLY.upper)
    ensures WellFormed(Cut()) ==> ApplyEdit(Cut(), MoveEdit(FIRST_ONLY)) == Three([], [SECOND_FILE], [FIRST_FILE])
  {
    hide ApplyEdit, Three, InputsClosed;
    ThreeLevels([], CUT_OUTPUTS, [], 3);
    ThreeLevels([], CUT_OUTPUTS, [], 4);
    ThreeLevels([], CUT_OUTPUTS, [], 5);
    assert Cut()[3][0] in FIRST_ONLY.upper && Cut()[3][1] !in FIRST_ONLY.upper;
    if Shape(Cut()) {
      OneFileInputs(Cut(), 3, FIRST_FILE, []);
    }
    if WellFormed(Cut()) {
      ThreeInstalled([], CUT_OUTPUTS, [], [], [SECOND_FILE], [FIRST_FILE], FIRST_ONLY, [FIRST_FILE]);
      EmptySorted();
      ThreeSorted([], [SECOND_FILE], [FIRST_FILE]);
      MovedIs(Cut(), FIRST_ONLY, Three([], [SECOND_FILE], [FIRST_FILE]));
    }
  }

  // ----- the second way: a compaction that picks up the first file only -----

  const TOP_AND_FIRST: Inputs := Inputs(2, [TOP_FILE], [FIRST_FILE], [], MIDDLE.key)
  const LAST_INPUT: seq<Entry> := [LOW, MIDDLE, DELETION]

  function Topped(): Version {
    Three([TOP_FILE], CUT_OUTPUTS, [])
  }

  /** The snapshot is released, and a value in the range of the first file is flushed above it. */
  lemma {:induction false} ToppedIsReached() returns (db: Db)
    ensures At(db, Topped(), 7, 4, multiset{}, {}, {OLD, LOW, DELETION, MIDDLE})
  {
    hide Reached, ApplyEdit, Three, GoodFile, FlushPlacement, Numbered, Elements;
    Groups();
    var db1 := CutIsReached();
    var db2 := SnapshotReleased(db1);
    var db3 := WriteGroup(db2, [PUT_MIDDLE], Cut(), 6, 3, multiset{}, {}, {OLD, LOW, DELETION});
    assert {OLD, LOW, DELETION} + {MIDDLE} == {OLD, LOW, DELETION, MIDDLE} && {} + {MIDDLE} == {MIDDLE};
    WellFormedHere(db3);
    FilesAreGood();
    CutOutputsFit();
    FlushedToTwo(TOP_FILE, CUT_OUTPUTS);
    OneElement(MIDDLE);
    db := FlushAll(db3, 2, TOP_FILE, Cut(), 6, 4, multiset{}, {MIDDLE}, {OLD, LOW, DELETION, MIDDLE});
  }

  lemma {:induction false} SnapshotReleased(db: Db) returns (db2: Db)
    requires At(db, Cut(), 6, 3, SOME_SNAPSHOT, {}, {OLD, LOW, DELETION})
    ensures At(db2, Cut(), 6, 3, multiset{}, {}, {OLD, LOW, DELETION})
  {
    hide Reached, Three;
    ReachedShape(db);
    SafeStepReaches(db, ReleaseSnapshot(1));
    db2 := Do(db, ReleaseSnapshot(1));
  }

  lemma {:induction false} DeletionIsDropped(v: Version)
    requires v == Topped()
    ensures ObsoleteDeletion(v, 2, LAST_INPUT, 4, 2)
    ensures Kept(v, 2, LAST_INPUT, 4, 3) == [LOW, MIDDLE]
  {
    hide Kept, Three;
    forall l | 4 <= l < NUM_LEVELS
      ensures v[l] == []
    {
      ThreeLevels([TOP_FILE], CUT_OUTPUTS, [], l);
    }
    assert !Dropped(v, 2, LAST_INPUT, 4, 0) && !Dropped(v, 2, LAST_INPUT, 4, 1) && Dropped(v, 2, LAST_INPUT, 4, 2);
    NothingKept(v, 2, LAST_INPUT, 4);
    KeptStep(v, 2, LAST_INPUT, 4, 0);
    KeptStep(v, 2, LAST_INPUT, 4, 1);
    KeptStep(v, 2, LAST_INPUT, 4, 2);
  }

  lemma {:induction false} FirstIsSelected()
    ensures Select(CUT_OUTPUTS, Some(0.5), Some(0.5)) == [FIRST_FILE]
  {
    assert CUT_OUTPUTS[..1] == [FIRST_FILE];
    OneFileSelect(FIRST_FILE, 0.5, 0.5);
  }

  lemma {:induction false} LastIsEnabled(db: Db)
    requires At(db, Topped(), 7, 4, multiset{}, {}, {OLD, LOW, DELETION, MIDDLE}) && Shape(Topped())
    ensures CompactEnabled(db, TOP_AND_FIRST, 4, LAST_INPUT, [LAST_FILE], 8)
  {
    hide Reached, Three, InputsClosed, Kept, FilesEntries, Concat, Select;
    var v := Topped();
    ThreeLevels([TOP_FILE], CUT_OUTPUTS, [], 2);
    ThreeLevels([TOP_FILE], CUT_OUTPUTS, [], 3);
    FirstIsSelected();
    OneFileInputs(v, 2, TOP_FILE, [FIRST_FILE]);
    DeletionIsDropped(v);
    ConcatTwo(LAST_FILE, LAST_FILE);
    OneFileEntries(TOP_FILE);
    OneFileEntries(FIRST_FILE);
    assert GoodOutputs([LAST_FILE], 7, 8);
  }

  lemma {:induction false} LastIsInstalled(db: Db)
    requires At(db, Topped(), 7, 4, multiset{}, {}, {OLD, LOW, DELETION, MIDDLE}) && Shape(Topped())
    requires CompactEnabled(db, TOP_AND_FIRST, 4, LAST_INPUT, [LAST_FILE], 8)
    ensures ApplyEdit(Topped(), InstallEdit(TOP_AND_FIRST, [LAST_FILE])) == Three([], [LAST_FILE, SECOND_FILE], [])
  {
    hide BaseInv, NewerAbove, ReadsOk, ApplyEdit, Three, InputsClosed, CompactEnabled, Installed, GoodFiles, DisjointSorted,
      FromInputs, OutputNumbers, Writes;
    CompactWrites(db, TOP_AND_FIRST, 4, LAST_INPUT, [LAST_FILE], 8);
    EnabledInputs(db, TOP_AND_FIRST, 4, LAST_INPUT, [LAST_FILE], 8);
    ThreeInstalled([TOP_FILE], CUT_OUTPUTS, [], [], [LAST_FILE, SECOND_FILE], [], TOP_AND_FIRST, [LAST_FILE]);
    ThreeSorted([], [LAST_FILE, SECOND_FILE], []);
    WellFormedHere(db);
    InstalledIs(Topped(), TOP_AND_FIRST, [LAST_FILE], Three([], [LAST_FILE, SECOND_FILE], []));
  }

  /** The selected inputs contain the deletion but not the value it hides, so the drop rule throws the deletion
      away and the deleted value comes back. */
  lemma {:induction false} DroppedDeletionResurrects() returns (db: Db)
    ensures Reached(db) && db.version == Topped()
    ensures Enabled(db, Compact(TOP_AND_FIRST, 4, LAST_INPUT, [LAST_FILE], 8))
    ensures var db2 := Do(db, Compact(TOP_AND_FIRST, 4, LAST_INPUT, [LAST_FILE], 8));
            && BaseInv(db2) && !ReadsOk(db2) && Readable(db2, 4)
            && Lookup(db2.history, 1.0, 4) == None && Lookup(Entries(db2), 1.0, 4) == Some([5])
  {
    hide Reached, ApplyEdit, Three, CompactEnabled, BaseInv, Lookup, Entries;
    db := ToppedIsReached();
    ReachedInv(db);
    ReachedShape(db);
    LastIsEnabled(db);
    LastIsInstalled(db);
    var step := Compact(TOP_AND_FIRST, 4, LAST_INPUT, [LAST_FILE], 8);
    StepKeepsBase(db, step);
    ValueIsBack(Do(db, step));
  }

  lemma {:induction false} ValueIsBack(db: Db)
    requires db.version == Three([], [LAST_FILE, SECOND_FILE], []) && Contents(db, Some(db.mem)) == {} && db.imm.None?
    requires db.history == {OLD, LOW, DELETION, MIDDLE}
    ensures Lookup(db.history, 1.0, 4) == None && Lookup(Entries(db), 1.0, 4) == Some([5])
  {
    hide Lookup, Three, FilesEntries, VersionEntries;
    EntriesOfThree([], [LAST_FILE, SECOND_FILE], []);
    TwoFilesEntries(LAST_FILE, SECOND_FILE);
    TwoElements(LOW, MIDDLE);
    OneElement(OLD);
    assert FilesEntries([]) == {};
    var h, es := {OLD, LOW, DELETION, MIDDLE}, {LOW, MIDDLE, OLD};
    assert Entries(db) == es;
    assert UniqueSequences(h) && UniqueSequences(es);
    assert IsNewest(h, 1.0, 4, DELETION) && IsNewest(es, 1.0, 4, OLD);
    LookupIs(h, 1.0, 4, DELETION);
    LookupIs(es, 1.0, 4, OLD);
  }
}
