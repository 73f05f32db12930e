// The version set: its counters, the manifest it writes, and recovery from it.  A database is opened,
// edited and opened again any number of times, and the manifest always rebuilds what was in memory.

module VersionSets {
  import opened Keys
  import opened Levels
  import opened VersionBuilder
  import opened Manifest

  // ----- what a manifest says -----

  datatype EditField = LogNumber | PrevLogNumber | NextFile | LastSequence

  function FieldOf(field: EditField, e: VersionEdit): Option<nat> {
    match field
    case LogNumber => e.logNumber
    case PrevLogNumber => e.prevLogNumber
    case NextFile => e.nextFileNumber
    case LastSequence => e.lastSequence
  }

  /** The value of a field in the last edit that sets it. */
  function LastOf(field: EditField, edits: seq<VersionEdit>): Option<nat> {
    if edits == [] then None
    else
      var n := |edits| - 1;
      if FieldOf(field, edits[n]).Some? then FieldOf(field, edits[n]) else LastOf(field, edits[..n])
  }

  /** Older manifests, and that of a new database, have no previous log number. */
  function PrevLogOf(manifest: seq<VersionEdit>): nat {
    if LastOf(PrevLogNumber, manifest).Some? then LastOf(PrevLogNumber, manifest).value else 0
  }

  function PointersOf(manifest: seq<VersionEdit>): map<nat, InternalKey> {
    if manifest == [] then map[]
    else
      var n := |manifest| - 1;
      ApplyPointers(PointersOf(manifest[..n]), manifest[n].compactPointers)
  }

  /** All files of a version as additions of one edit, level by level. */
  function FilesFrom(v: Version, level: nat): seq<(nat, File)>
    requires level <= NUM_LEVELS
    decreases NUM_LEVELS - level
  {
    if level == NUM_LEVELS then [] else Tagged(level, v[level]) + FilesFrom(v, level + 1)
  }

  /** The compaction pointers there are, level by level. */
  function PointersFrom(pointers: map<nat, InternalKey>, level: nat): seq<(nat, InternalKey)>
    requires level <= NUM_LEVELS
  {
    if level == 0 then []
    else PointersFrom(pointers, level - 1) + if level - 1 in pointers then [(level - 1, pointers[level - 1])] else []
  }

  /** The record WriteSnapshot starts a new manifest with. */
  function SnapshotEdit(v: Version, pointers: map<nat, InternalKey>): VersionEdit {
    EMPTY_EDIT.(compactPointers := PointersFrom(pointers, NUM_LEVELS), newFiles := FilesFrom(v, 0))
  }

  /** A manifest that recovery accepts: every (level, number) is added once, and file numbers and the log
      number are below the next file number recorded. */
  ghost predicate Replayable(manifest: seq<VersionEdit>) {
    && (forall e :: e in manifest ==> GoodEdit(e))
    && AddsOnce(EMPTY_VERSION, manifest)
    && LastOf(LogNumber, manifest).Some? && LastOf(NextFile, manifest).Some? && LastOf(LastSequence, manifest).Some?
    && LastOf(LogNumber, manifest).value < LastOf(NextFile, manifest).value
    && NumbersUnder(ApplyInTurn(EMPTY_VERSION, manifest), LastOf(NextFile, manifest).value)
  }

  ghost predicate NumbersUnder(v: Version, next: nat) {
    forall l, f :: 0 <= l < NUM_LEVELS && f in v[l] ==> f.number < next
  }

  // ----- the version set on values -----

  /** What the version set knows, and the records of the manifest that CURRENT names; `open` says that
      manifest is open for appending. */
  datatype Book = Book(
    current: Version,
    nextFile: nat,
    last: SequenceNumber,
    logNumber: nat,
    prevLogNumber: nat,
    pointers: map<nat, InternalKey>,
    manifest: seq<VersionEdit>,
    open: bool)

  /** The manifest on disk describes the state in memory.  Compaction pointers are ahead of it between the
      choice of a compaction and its edit. */
  ghost predicate BookOk(b: Book) {
    && Replayable(b.manifest)
    && ApplyInTurn(EMPTY_VERSION, b.manifest) == b.current
    && LastOf(LogNumber, b.manifest) == Some(b.logNumber)
    && PrevLogOf(b.manifest) == b.prevLogNumber
    && LastOf(LastSequence, b.manifest).value <= b.last
    && b.logNumber < b.nextFile && NumbersUnder(b.current, b.nextFile)
    && (forall l :: l in b.pointers ==> l < NUM_LEVELS)
  }

  datatype Step =
    | AllocateNumber
    | ReuseNumber(number: nat)
    | AdvanceSequence(sequence: SequenceNumber)
    | AdvancePointer(level: nat, key: InternalKey)
    | Apply(edit: VersionEdit)
    | Reopen

  /** The records an edit is appended to: a snapshot of the version, if no manifest is open. */
  function Before(b: Book): seq<VersionEdit> {
    if b.open then b.manifest else [SnapshotEdit(b.current, b.pointers)]
  }

  /** An edit with the fields the version set fills in. */
  function Completed(b: Book, edit: VersionEdit): VersionEdit {
    edit.(logNumber := if edit.logNumber.Some? then edit.logNumber else Some(b.logNumber),
          prevLogNumber := if edit.prevLogNumber.Some? then edit.prevLogNumber else Some(b.prevLogNumber),
          nextFileNumber := Some(b.nextFile),
          lastSequence := Some(b.last))
  }

  /** What callers have to see to: numbers only go up, a number given back is nobody's, an edit's files have
      numbers that were handed out, and no file number is added to a level twice. */
  ghost predicate Enabled(b: Book, step: Step) {
    match step
    case AllocateNumber => true
    case ReuseNumber(n) => n != b.logNumber && forall l, f :: 0 <= l < NUM_LEVELS && f in b.current[l] ==> f.number != n
    case AdvanceSequence(s) => s >= b.last
    case AdvancePointer(level, _) => level < NUM_LEVELS
    case Apply(edit) =>
      && GoodEdit(edit)
      && (edit.logNumber.Some? ==> b.logNumber <= edit.logNumber.value < b.nextFile)
      && (forall p :: p in edit.newFiles ==> p.1.number < b.nextFile)
      && AddsOnce(EMPTY_VERSION, Before(b) + [edit])
    case Reopen => true
  }

  /** What recovery makes of the records of a manifest. */
  function Recovered(manifest: seq<VersionEdit>): Book
    requires LastOf(LogNumber, manifest).Some? && LastOf(NextFile, manifest).Some? && LastOf(LastSequence, manifest).Some?
  {
    Book(SaveLevels(EMPTY_VERSION, BuildAll(manifest)), LastOf(NextFile, manifest).value + 1,
         LastOf(LastSequence, manifest).value, LastOf(LogNumber, manifest).value, PrevLogOf(manifest),
         PointersOf(manifest), manifest, false)
  }

  function Do(b: Book, step: Step): Book
    requires LastOf(LogNumber, b.manifest).Some? && LastOf(NextFile, b.manifest).Some? && LastOf(LastSequence, b.manifest).Some?
  {
    match step
    case AllocateNumber => b.(nextFile := b.nextFile + 1)
    case ReuseNumber(n) => if b.nextFile == n + 1 then b.(nextFile := n) else b
    case AdvanceSequence(s) => b.(last := s)
    case AdvancePointer(level, key) => b.(pointers := b.pointers[level := key])
    case Apply(edit) =>
      var full := Completed(b, edit);
      b.(current := ApplyEdit(b.current, edit),
         logNumber := full.logNumber.value,
         prevLogNumber := full.prevLogNumber.value,
         pointers := ApplyPointers(b.pointers, edit.compactPointers),
         manifest := Before(b) + [full],
         open := true)
    case Reopen => Recovered(b.manifest)
  }

  // ----- the class -----

  class VersionSet {
    var current: Version
    var nextFileNumber: nat
    var manifestFileNumber: nat
    var lastSequence: SequenceNumber
    var logNumber: nat
    var prevLogNumber: nat
    var compactPointers: map<nat, InternalKey>

    // The records of the manifest that CURRENT names, and whether it is open for appending.
    var manifest: seq<VersionEdit>
    var descriptorOpen: bool

    ghost function View(): Book
      reads this
    {
      Book(current, nextFileNumber, lastSequence, logNumber, prevLogNumber, compactPointers, manifest, descriptorOpen)
    }

    ghost predicate Valid()
      reads this
    {
      BookOk(View())
    }

    constructor ()
      ensures View() == Book(EMPTY_VERSION, 2, 0, 0, 0, map[], [], false)
    {
      current := EMPTY_VERSION;
      nextFileNumber, manifestFileNumber, lastSequence := 2, 0, 0;
      logNumber, prevLogNumber := 0, 0;
      compactPointers := map[];
      manifest, descriptorOpen := [], false;
    }

    method NewFileNumber() returns (n: nat)
      modifies this`nextFileNumber
      ensures n == old(nextFileNumber) && nextFileNumber == n + 1
      ensures old(Valid()) ==> Valid() && View() == Do(old(View()), AllocateNumber)
    {
      hide Replayable, ApplyInTurn, LastOf, PrevLogOf;
      n := nextFileNumber;
      nextFileNumber := nextFileNumber + 1;
    }

    /** Gives back a number, unless a newer one has been allocated since. */
    method ReuseFileNumber(n: nat)
      modifies this`nextFileNumber
      ensures nextFileNumber == if old(nextFileNumber) == n + 1 then n else old(nextFileNumber)
      ensures old(Valid()) && old(Enabled(View(), ReuseNumber(n))) ==> Valid() && View() == Do(old(View()), ReuseNumber(n))
    {
      hide Replayable, ApplyInTurn, LastOf, PrevLogOf;
      if nextFileNumber == n + 1 {
        nextFileNumber := n;
      }
    }

    method MarkFileNumberUsed(n: nat)
      modifies this`nextFileNumber
      ensures nextFileNumber > n && nextFileNumber >= old(nextFileNumber)
      ensures old(nextFileNumber) > n ==> nextFileNumber == old(nextFileNumber)
    {
      if nextFileNumber <= n {
        nextFileNumber := n + 1;
      }
    }

    method SetLastSequence(s: SequenceNumber)
      requires s >= lastSequence
      modifies this`lastSequence
      ensures lastSequence == s
      ensures old(Valid()) ==> Valid() && View() == Do(old(View()), AdvanceSequence(s))
    {
      hide Replayable, ApplyInTurn, LastOf, PrevLogOf;
      lastSequence := s;
    }

    /** The choice of a compaction's inputs moves the pointer of its level at once. */
    method SetCompactPointer(level: nat, key: InternalKey)
      requires level < NUM_LEVELS
      modifies this`compactPointers
      ensures compactPointers == old(compactPointers)[level := key]
      ensures old(Valid()) ==> Valid() && View() == Do(old(View()), AdvancePointer(level, key))
    {
      hide Replayable, ApplyInTurn, LastOf, PrevLogOf;
      compactPointers := compactPointers[level := key];
    }

    /** Applies an edit, appends it to the manifest (starting a new manifest with a snapshot if none
        is open) and installs the new version. */
    method LogAndApply(edit: VersionEdit)
      requires Valid() && Enabled(View(), Apply(edit))
      modifies this
      ensures Valid() && View() == Do(old(View()), Apply(edit))
      ensures LastOf(NextFile, manifest) == Some(nextFileNumber)
      ensures LastOf(LastSequence, manifest) == Some(lastSequence)
    {
      hide BookOk, AddsOnce, ApplyInTurn, ApplyEdit, LastOf, PrevLogOf, SnapshotEdit, Enabled, ApplyPointers;
      var full := edit;
      if full.logNumber.None? { full := full.(logNumber := Some(logNumber)); }
      if full.prevLogNumber.None? { full := full.(prevLogNumber := Some(prevLogNumber)); }
      full := full.(nextFileNumber := Some(nextFileNumber), lastSequence := Some(lastSequence));
      ghost var b := View();
      assert full == Completed(b, edit);
      HasFields(b);
      GoodCompleted(b, edit);
      ApplyKeepsBook(b, edit);

      var v, pointers := ApplyAndSave(current, compactPointers, full);
      OnlyFilesMatter(current, edit, full);
      if !descriptorOpen {
        manifest := [SnapshotEdit(current, compactPointers)];
      }
      manifest := manifest + [full];
      descriptorOpen := true;
      current := v;
      logNumber := full.logNumber.value;
      prevLogNumber := full.prevLogNumber.value;
      compactPointers := pointers;
      LastRecord(b, edit);
    }

    /** Rebuilds the state of a fresh version set from the records of a manifest. */
    method Recover(records: seq<VersionEdit>) returns (ok: bool)
      requires forall e :: e in records ==> GoodEdit(e)
      requires current == EMPTY_VERSION && compactPointers == map[]
      modifies this
      ensures ok <==> LastOf(NextFile, records).Some? && LastOf(LogNumber, records).Some?
                      && LastOf(LastSequence, records).Some?
      ensures ok ==> View() == Recovered(records) && Some(manifestFileNumber) == LastOf(NextFile, records)
      ensures ok && Replayable(records) ==> Valid()
    {
      hide Replayable, BookOk, SaveLevels, ApplyPointers, ApplyLevels, AddsOnce, ApplyInTurn, LastOf, BuildAll, PointersOf;
      NoRecords();
      var log: Option<nat>, prevLog: Option<nat>, nextFile: Option<nat>, last: Option<nat> := None, None, None, None;
      var builder := new Builder(EMPTY_VERSION, compactPointers);
      assert builder.levels == NO_LEVEL_STATES;
      for i := 0 to |records|
        invariant builder.Valid() && builder.base == EMPTY_VERSION
        invariant builder.levels == BuildAll(records[..i])
        invariant builder.compactPointers == PointersOf(records[..i])
        invariant log == LastOf(LogNumber, records[..i])
        invariant prevLog == LastOf(PrevLogNumber, records[..i])
        invariant nextFile == LastOf(NextFile, records[..i])
        invariant last == LastOf(LastSequence, records[..i])
      {
        var edit := records[i];
        assert edit in records;
        RecordStep(records, i);
        builder.Apply(edit);
        if edit.logNumber.Some? { log := edit.logNumber; }
        if edit.prevLogNumber.Some? { prevLog := edit.prevLogNumber; }
        if edit.nextFileNumber.Some? { nextFile := edit.nextFileNumber; }
        if edit.lastSequence.Some? { last := edit.lastSequence; }
      }
      assert records[..|records|] == records;
      if nextFile.None? || log.None? || last.None? {
        return false;
      }
      if prevLog.None? {
        prevLog := Some(0);
      }
      MarkFileNumberUsed(prevLog.value);
      MarkFileNumberUsed(log.value);
      var v := builder.SaveTo();
      current := v;
      compactPointers := builder.compactPointers;
      manifestFileNumber := nextFile.value;
      nextFileNumber := nextFile.value + 1;
      lastSequence := last.value;
      logNumber := log.value;
      prevLogNumber := prevLog.value;
      manifest := records;
      descriptorOpen := false;
      ok := true;
      if Replayable(records) { RecoveredIsOk(records); }
    }
  }

  lemma {:induction false} NoRecords()
    ensures BuildAll([]) == NO_LEVEL_STATES && PointersOf([]) == map[]
    ensures forall field :: LastOf(field, []) == None
  {
  }

  /** What one more record adds to what was read. */
  lemma {:induction false} RecordStep(records: seq<VersionEdit>, i: nat)
    requires i < |records|
    ensures BuildAll(records[..i + 1]) == ApplyLevels(BuildAll(records[..i]), records[i])
    ensures PointersOf(records[..i + 1]) == ApplyPointers(PointersOf(records[..i]), records[i].compactPointers)
    ensures forall field :: LastOf(field, records[..i + 1])
              == if FieldOf(field, records[i]).Some? then FieldOf(field, records[i]) else LastOf(field, records[..i])
  {
    hide ApplyLevels, ApplyPointers;
    assert records[..i + 1][..i] == records[..i];
  }

  method ApplyAndSave(v: Version, pointers: map<nat, InternalKey>, edit: VersionEdit)
    returns (v2: Version, pointers2: map<nat, InternalKey>)
    requires GoodEdit(edit)
    ensures v2 == ApplyEdit(v, edit)
    ensures pointers2 == ApplyPointers(pointers, edit.compactPointers)
  {
    var builder := new Builder(v, pointers);
    builder.Apply(edit);
    v2 := builder.SaveTo();
    pointers2 := builder.compactPointers;
  }

  // ----- every step keeps the manifest a description of the state in memory -----

  lemma {:induction false} SubsetDistinct(a: seq<File>, b: seq<File>)
    requires SortedFiles(a) && DistinctNumbers(b)
    requires forall f :: f in a ==> f in b
    ensures DistinctNumbers(a)
  {
    forall i, j | 0 <= i < j < |a|
      ensures a[i].number != a[j].number
    {
      assert a[i] in b && a[j] in b;
      var k :| 0 <= k < |b| && b[k] == a[i];
      var m :| 0 <= m < |b| && b[m] == a[j];
      assert FileLess(a[i], a[j]);
      assert k != m;
    }
  }

  lemma {:induction false} InTurnDistinct(ops: seq<LevelOp>)
    requires DistinctNumbers([] + AllAdded(ops))
    ensures SortedFiles(InTurn([], ops)) && DistinctNumbers(InTurn([], ops))
  {
    BatchedIsInTurn([], ops);
    assert [] + AllAdded(ops) == AllAdded(ops);
    SubsetDistinct(InTurn([], ops), AllAdded(ops));
  }

  lemma {:induction false} ReplaySortedNow(records: seq<VersionEdit>, current: Version)
    requires AddsOnce(EMPTY_VERSION, records) && ApplyInTurn(EMPTY_VERSION, records) == current
    ensures SortedVersion(current)
    ensures forall l :: 0 <= l < NUM_LEVELS ==> DistinctNumbers(current[l])
  {
    hide ApplyInTurn;
    forall l | 0 <= l < NUM_LEVELS
      ensures SortedFiles(current[l]) && DistinctNumbers(current[l])
    {
      LevelOfApplyInTurn(EMPTY_VERSION, records, l);
      InTurnDistinct(Ops(records, l));
    }
  }

  lemma {:induction false} AddedAtConcat(a: seq<(nat, File)>, b: seq<(nat, File)>, l: nat)
    ensures AddedAt(a + b, l) == AddedAt(a, l) + AddedAt(b, l)
  {
    if b == [] {
      assert a + b == a;
    } else {
      var n := |b| - 1;
      assert (a + b)[..|a + b| - 1] == a + b[..n];
      AddedAtConcat(a, b[..n], l);
    }
  }

  lemma {:induction false} AddedAtFilesFrom(v: Version, level: nat, l: nat)
    requires level <= NUM_LEVELS && l < NUM_LEVELS
    ensures AddedAt(FilesFrom(v, level), l) == if level <= l then v[l] else []
    decreases NUM_LEVELS - level
  {
    if level < NUM_LEVELS {
      AddedAtTagged(v[level], level, l);
      AddedAtFilesFrom(v, level + 1, l);
      AddedAtConcat(Tagged(level, v[level]), FilesFrom(v, level + 1), l);
    }
  }

  lemma {:induction false} FilesFromLevels(v: Version, level: nat)
    requires level <= NUM_LEVELS
    ensures forall p :: p in FilesFrom(v, level) ==> p.0 < NUM_LEVELS
    decreases NUM_LEVELS - level
  {
    if level < NUM_LEVELS {
      AddedAtTagged(v[level], level, level);
      FilesFromLevels(v, level + 1);
    }
  }

  lemma {:induction false} AddToNothing(files: seq<File>)
    requires SortedFiles(files) && DistinctNumbers(files)
    ensures SaveLevel([], ApplyOp(NOTHING, LevelOp({}, files))) == files
  {
    AddAllFacts(LevelState({} + {}, []), files);
    SaveLevelFacts([], ApplyOp(NOTHING, LevelOp({}, files)));
    SortedUnique(SaveLevel([], ApplyOp(NOTHING, LevelOp({}, files))), files);
  }

  /** Only the file lists of an edit decide the version it leads to. */
  lemma {:induction false} SameOpsIfSameFiles(start: seq<VersionEdit>, edit: VersionEdit, full: VersionEdit)
    requires edit.deletedFiles == full.deletedFiles && edit.newFiles == full.newFiles
    requires AddsOnce(EMPTY_VERSION, start + [edit])
    ensures AddsOnce(EMPTY_VERSION, start + [full])
    ensures forall v: Version :: ApplyEdit(v, edit) == ApplyEdit(v, full)
    ensures ApplyInTurn(EMPTY_VERSION, start + [full]) == ApplyEdit(ApplyInTurn(EMPTY_VERSION, start), edit)
  {
    assert (start + [full])[..|start|] == start && (start + [edit])[..|start|] == start;
    forall l | 0 <= l < NUM_LEVELS
      ensures Ops(start + [full], l) == Ops(start + [edit], l)
    {
    }
    forall v: Version
      ensures ApplyEdit(v, edit) == ApplyEdit(v, full)
    {
      assert ApplyLevels(NO_LEVEL_STATES, edit) == ApplyLevels(NO_LEVEL_STATES, full);
    }
  }

  lemma {:induction false} InsertSubset(f: File, added: seq<File>)
    ensures forall g :: g in InsertFile(f, added) ==> g == f || g in added
  {
    if added != [] && !FileLess(f, added[0]) && FileLess(added[0], f) {
      InsertSubset(f, added[1..]);
    }
  }

  lemma {:induction false} AddAllSubset(ls: LevelState, files: seq<File>)
    ensures forall f :: f in AddAll(ls, files).added ==> f in ls.added || f in files
  {
    if files != [] {
      var n := |files| - 1;
      AddAllSubset(ls, files[..n]);
      InsertSubset(files[n], AddAll(ls, files[..n]).added);
    }
  }

  lemma {:induction false} AddedAtMembers(newFiles: seq<(nat, File)>, l: nat)
    ensures forall f :: f in AddedAt(newFiles, l) <==> (l, f) in newFiles
  {
    if newFiles != [] {
      var n := |newFiles| - 1;
      AddedAtMembers(newFiles[..n], l);
      assert newFiles == newFiles[..n] + [newFiles[n]];
    }
  }

  lemma {:induction false} NewVersionNumbers(v: Version, edit: VersionEdit, next: nat)
    requires forall l, f :: 0 <= l < NUM_LEVELS && f in v[l] ==> f.number < next
    requires forall p :: p in edit.newFiles ==> p.1.number < next
    ensures forall l, f :: 0 <= l < NUM_LEVELS && f in ApplyEdit(v, edit)[l] ==> f.number < next
  {
    hide ApplyEdit;
    forall l, f | 0 <= l < NUM_LEVELS && f in ApplyEdit(v, edit)[l]
      ensures f.number < next
    {
      NewVersionFile(v, edit, l, f);
    }
  }

  /** A file of a new version was there before or is in the edit. */
  lemma {:induction false} NewVersionFile(v: Version, edit: VersionEdit, l: nat, f: File)
    requires l < NUM_LEVELS && f in ApplyEdit(v, edit)[l]
    ensures f in v[l] || (l, f) in edit.newFiles
  {
    hide Merge, Surviving, AddAll, AddedAt, DeletedAt;
    var ls := ApplyLevel(NOTHING, edit, l);
    assert ApplyEdit(v, edit)[l] == SaveLevel(v[l], ls);
    SurvivingFacts(Merge(v[l], ls.added), ls.deleted);
    MergeMembers(v[l], ls.added);
    AddAllSubset(LevelState({} + DeletedAt(edit.deletedFiles, l), []), AddedAt(edit.newFiles, l));
    AddedAtMembers(edit.newFiles, l);
  }

  // ----- compaction pointers -----

  lemma {:induction false} PointersBack(pointers: map<nat, InternalKey>, level: nat)
    requires level <= NUM_LEVELS
    ensures ApplyPointers(map[], PointersFrom(pointers, level)) == map l | l in pointers && l < level :: pointers[l]
    ensures forall p :: p in PointersFrom(pointers, level) ==> p.0 < NUM_LEVELS
  {
    if level > 0 {
      PointersBack(pointers, level - 1);
      var front, all := PointersFrom(pointers, level - 1), PointersFrom(pointers, level);
      if level - 1 in pointers {
        assert all[..|all| - 1] == front;
      } else {
        assert all == front;
      }
    }
  }

  lemma {:induction false} PointerLevels(m: map<nat, InternalKey>, ps: seq<(nat, InternalKey)>)
    requires (forall l :: l in m ==> l < NUM_LEVELS) && forall p :: p in ps ==> p.0 < NUM_LEVELS
    ensures forall l :: l in ApplyPointers(m, ps) ==> l < NUM_LEVELS
  {
    if ps != [] {
      PointerLevels(m, ps[..|ps| - 1]);
    }
  }

  lemma {:induction false} ManifestPointerLevels(manifest: seq<VersionEdit>)
    requires forall e :: e in manifest ==> GoodEdit(e)
    ensures forall l :: l in PointersOf(manifest) ==> l < NUM_LEVELS
  {
    if manifest != [] {
      var n := |manifest| - 1;
      ManifestPointerLevels(manifest[..n]);
      assert manifest[n] in manifest;
      PointerLevels(PointersOf(manifest[..n]), manifest[n].compactPointers);
    }
  }

  // ----- a snapshot record -----

  /** A new manifest's first record rebuilds the version and the compaction pointers it was taken from. */
  lemma {:induction false} SnapshotRebuilds(v: Version, pointers: map<nat, InternalKey>)
    requires SortedVersion(v)
    requires forall l :: 0 <= l < NUM_LEVELS ==> DistinctNumbers(v[l])
    requires forall l :: l in pointers ==> l < NUM_LEVELS
    ensures GoodEdit(SnapshotEdit(v, pointers))
    ensures ApplyInTurn(EMPTY_VERSION, [SnapshotEdit(v, pointers)]) == v
    ensures PointersOf([SnapshotEdit(v, pointers)]) == pointers
  {
    hide ApplyEdit, FilesFrom, SaveLevel, ApplyOp, SortedFiles;
    FilesFromLevels(v, 0);
    PointersBack(pointers, NUM_LEVELS);
    var edits := [SnapshotEdit(v, pointers)];
    assert edits[..0] == [];
    assert ApplyInTurn(EMPTY_VERSION, edits) == ApplyEdit(EMPTY_VERSION, SnapshotEdit(v, pointers));
    assert PointersOf(edits) == ApplyPointers(map[], PointersFrom(pointers, NUM_LEVELS));
    forall l | 0 <= l < NUM_LEVELS
      ensures ApplyEdit(EMPTY_VERSION, SnapshotEdit(v, pointers))[l] == v[l]
    {
      SnapshotLevel(v, pointers, l);
    }
  }

  lemma {:induction false} SnapshotLevel(v: Version, pointers: map<nat, InternalKey>, l: nat)
    requires l < NUM_LEVELS && SortedFiles(v[l]) && DistinctNumbers(v[l])
    ensures ApplyEdit(EMPTY_VERSION, SnapshotEdit(v, pointers))[l] == v[l]
  {
    hide ApplyEdit, FilesFrom, SaveLevel, ApplyOp, SortedFiles, PointersFrom;
    LevelOfApplyEdit(EMPTY_VERSION, SnapshotEdit(v, pointers), l);
    AddedAtFilesFrom(v, 0, l);
    assert OpAt(SnapshotEdit(v, pointers), l) == LevelOp({}, v[l]);
    AddToNothing(v[l]);
  }

  // ----- steps -----

  lemma {:induction false} HasFields(b: Book)
    requires BookOk(b)
    ensures LastOf(LogNumber, b.manifest).Some? && LastOf(NextFile, b.manifest).Some? && LastOf(LastSequence, b.manifest).Some?
  {
    hide AddsOnce, ApplyInTurn, LastOf, NumbersUnder;
  }

  lemma {:induction false} GoodCompleted(b: Book, edit: VersionEdit)
    requires Enabled(b, Apply(edit))
    ensures GoodEdit(Completed(b, edit))
  {
    hide AddsOnce;
  }

  lemma {:induction false} OnlyFilesMatter(v: Version, edit: VersionEdit, full: VersionEdit)
    requires edit.deletedFiles == full.deletedFiles && edit.newFiles == full.newFiles
    ensures ApplyEdit(v, edit) == ApplyEdit(v, full)
  {
    assert ApplyLevels(NO_LEVEL_STATES, edit) == ApplyLevels(NO_LEVEL_STATES, full);
  }

  lemma {:induction false} LastRecord(b: Book, edit: VersionEdit)
    ensures LastOf(NextFile, Before(b) + [Completed(b, edit)]) == Some(b.nextFile)
    ensures LastOf(LastSequence, Before(b) + [Completed(b, edit)]) == Some(b.last)
    ensures LastOf(LogNumber, Before(b) + [Completed(b, edit)]) == Completed(b, edit).logNumber
    ensures Some(PrevLogOf(Before(b) + [Completed(b, edit)])) == Completed(b, edit).prevLogNumber
  {
    var log := Before(b) + [Completed(b, edit)];
    assert log[|log| - 1] == Completed(b, edit);
  }

  /** The records an edit is appended to rebuild the current version. */
  lemma {:induction false} BeforeRebuilds(b: Book)
    requires BookOk(b)
    ensures ApplyInTurn(EMPTY_VERSION, Before(b)) == b.current
    ensures forall e :: e in Before(b) ==> GoodEdit(e)
  {
    hide ApplyInTurn, LastOf, SnapshotEdit;
    if !b.open {
      ReplaySortedNow(b.manifest, b.current);
      SnapshotRebuilds(b.current, b.pointers);
    }
  }

  lemma {:induction false} ApplyKeepsBook(b: Book, edit: VersionEdit)
    requires BookOk(b) && Enabled(b, Apply(edit))
    requires LastOf(LogNumber, b.manifest).Some? && LastOf(NextFile, b.manifest).Some? && LastOf(LastSequence, b.manifest).Some?
    ensures BookOk(Do(b, Apply(edit)))
  {
    hide ApplyInTurn, ApplyEdit, LastOf, PrevLogOf, SnapshotEdit, AddsOnce, Before, ApplyPointers;
    var full := Completed(b, edit);
    BeforeRebuilds(b);
    SameOpsIfSameFiles(Before(b), edit, full);
    LastRecord(b, edit);
    NewVersionNumbers(b.current, edit, b.nextFile);
    PointerLevels(b.pointers, edit.compactPointers);
  }

  /** Recovery from a manifest that describes a state rebuilds it. */
  lemma {:induction false} RecoveredIsOk(manifest: seq<VersionEdit>)
    requires Replayable(manifest)
    ensures BookOk(Recovered(manifest))
    ensures Recovered(manifest).current == ApplyInTurn(EMPTY_VERSION, manifest)
  {
    hide ApplyInTurn, LastOf, PrevLogOf, AddsOnce, BuildAll, SaveLevels;
    SortedEmpty();
    ReplayOnceIsReplayInTurn(EMPTY_VERSION, manifest);
    ManifestPointerLevels(manifest);
  }

  lemma {:induction false} SortedEmpty()
    ensures SortedVersion(EMPTY_VERSION)
  {
  }

  lemma {:induction false} StepKeepsBook(b: Book, step: Step)
    requires BookOk(b) && Enabled(b, step)
    requires LastOf(LogNumber, b.manifest).Some? && LastOf(NextFile, b.manifest).Some? && LastOf(LastSequence, b.manifest).Some?
    ensures BookOk(Do(b, step))
  {
    hide ApplyInTurn, LastOf, PrevLogOf, AddsOnce, Replayable, Recovered, Before, ApplyEdit;
    match step
    case Apply(edit) => ApplyKeepsBook(b, edit);
    case Reopen => RecoveredIsOk(b.manifest);
    case _ =>
  }

  // ----- runs -----

  /** What a new database's manifest holds. */
  const NEW_DB: VersionEdit := EMPTY_EDIT.(logNumber := Some(0), nextFileNumber := Some(2), lastSequence := Some(0))

  lemma {:induction false} NewFields()
    ensures LastOf(NextFile, [NEW_DB]) == Some(2) && LastOf(LastSequence, [NEW_DB]) == Some(0)
    ensures LastOf(LogNumber, [NEW_DB]) == Some(0) && PrevLogOf([NEW_DB]) == 0
  {
    assert [NEW_DB][..0] == [];
    assert LastOf(PrevLogNumber, []) == None;
    assert LastOf(PrevLogNumber, [NEW_DB]) == LastOf(PrevLogNumber, []);
  }

  lemma {:induction false} NewManifest()
    ensures Replayable([NEW_DB])
    ensures Recovered([NEW_DB]).current == EMPTY_VERSION
    ensures LastOf(NextFile, [NEW_DB]) == Some(2) && LastOf(LastSequence, [NEW_DB]) == Some(0)
    ensures LastOf(LogNumber, [NEW_DB]) == Some(0) && PrevLogOf([NEW_DB]) == 0
  {
    NewFields();
    forall l | 0 <= l < NUM_LEVELS
      ensures ApplyInTurn(EMPTY_VERSION, [NEW_DB])[l] == [] && DistinctNumbers(EMPTY_VERSION[l] + AllAdded(Ops([NEW_DB], l)))
    {
      NothingAdded(l);
    }
    assert ApplyInTurn(EMPTY_VERSION, [NEW_DB]) == EMPTY_VERSION;
    RecoveredIsOk([NEW_DB]);
  }

  lemma {:induction false} NothingAdded(l: nat)
    requires l < NUM_LEVELS
    ensures ApplyInTurn(EMPTY_VERSION, [NEW_DB])[l] == [] && AllAdded(Ops([NEW_DB], l)) == []
  {
    assert [NEW_DB][..0] == [];
    LevelOfApplyInTurn(EMPTY_VERSION, [NEW_DB], l);
    assert Ops([NEW_DB], l) == [OpAt(NEW_DB, l)];
    assert OpAt(NEW_DB, l) == LevelOp({}, []);
    assert [LevelOp({}, [])][..0] == [];
    SaveNothing([]);
  }

  ghost predicate Happens(b: Book, step: Step, b2: Book) {
    && LastOf(LogNumber, b.manifest).Some? && LastOf(NextFile, b.manifest).Some? && LastOf(LastSequence, b.manifest).Some?
    && Enabled(b, step) && b2 == Do(b, step)
  }

  /** A new database is opened, and then anything happens, opening again included. */
  ghost predicate Runs(states: seq<Book>, steps: seq<Step>) {
    && |states| == |steps| + 1
    && states[0] == Book(EMPTY_VERSION, 3, 0, 0, 0, map[], [NEW_DB], false)
    && forall i :: 0 <= i < |steps| ==> Happens(states[i], steps[i], states[i + 1])
  }

  /** All edits a run applied, in order. */
  function Applied(steps: seq<Step>): seq<VersionEdit> {
    if steps == [] then []
    else
      var n := |steps| - 1;
      Applied(steps[..n]) + if steps[n].Apply? then [steps[n].edit] else []
  }

  /** Over any run from a new database, opened again any number of times: the version is what all edits so far
      give when they are applied one by one, whatever manifests were started on the way; and opening again
      rebuilds it with the same log numbers, the last sequence number recorded, and a next file number that no
      table and no log has. */
  lemma {:induction false} ManifestRebuilds(states: seq<Book>, steps: seq<Step>, n: nat)
    requires Runs(states, steps) && n < |states|
    ensures BookOk(states[n]) && states[n].current == ApplyInTurn(EMPTY_VERSION, Applied(steps[..n]))
    ensures var b := states[n];
            && LastOf(LogNumber, b.manifest).Some? && LastOf(NextFile, b.manifest).Some? && LastOf(LastSequence, b.manifest).Some?
            && var r := Recovered(b.manifest);
               && r.current == b.current && r.logNumber == b.logNumber && r.prevLogNumber == b.prevLogNumber
               && r.last <= b.last && r.logNumber < r.nextFile && NumbersUnder(r.current, r.nextFile)
  {
    hide BookOk, Replayable, LastOf, PrevLogOf, Enabled, SaveLevels, ApplyEdit, Do, ApplyInTurn, Recovered;
    if n == 0 {
      StartIsOk(states[0]);
      assert steps[..0] == [];
      NoEdits();
    } else {
      ManifestRebuilds(states, steps, n - 1);
      assert Happens(states[n - 1], steps[n - 1], states[n]);
      StepKeepsBook(states[n - 1], steps[n - 1]);
      OneMoreStep(states[n - 1], steps[n - 1], steps[..n - 1], steps[..n]);
    }
    OpeningRebuilds(states[n]);
  }

  lemma {:induction false} NoEdits()
    ensures Applied([]) == [] && ApplyInTurn(EMPTY_VERSION, []) == EMPTY_VERSION
  {
  }

  lemma {:induction false} StartIsOk(b: Book)
    requires b == Book(EMPTY_VERSION, 3, 0, 0, 0, map[], [NEW_DB], false)
    ensures BookOk(b)
  {
    hide ApplyInTurn, BuildAll, SaveLevels, BookOk;
    NewManifest();
    RecoveredIsOk([NEW_DB]);
    assert [NEW_DB][..0] == [];
    assert PointersOf([NEW_DB]) == map[];
    assert Recovered([NEW_DB]) == b;
  }

  lemma {:induction false} OneMoreStep(b: Book, step: Step, before: seq<Step>, after: seq<Step>)
    requires BookOk(b) && |after| == |before| + 1 && after[..|before|] == before && after[|before|] == step
    requires LastOf(LogNumber, b.manifest).Some? && LastOf(NextFile, b.manifest).Some? && LastOf(LastSequence, b.manifest).Some?
    requires b.current == ApplyInTurn(EMPTY_VERSION, Applied(before))
    ensures Do(b, step).current == ApplyInTurn(EMPTY_VERSION, Applied(after))
  {
    hide BookOk, Replayable, LastOf, PrevLogOf, SaveLevels, ApplyEdit, Completed, Before;
    if step.Apply? {
      var edits := Applied(before) + [step.edit];
      assert edits[..|edits| - 1] == Applied(before);
    } else {
      assert after[..|after| - 1] == before && after[|after| - 1] == step;
      assert Applied(after) == Applied(before) + [] == Applied(before);
      OpeningRebuilds(b);
    }
  }

  lemma {:induction false} OpeningRebuilds(b: Book)
    requires BookOk(b)
    ensures LastOf(LogNumber, b.manifest).Some? && LastOf(NextFile, b.manifest).Some? && LastOf(LastSequence, b.manifest).Some?
    ensures var r := Recovered(b.manifest);
            && r.current == b.current && r.logNumber == b.logNumber && r.prevLogNumber == b.prevLogNumber
            && r.last <= b.last && r.logNumber < r.nextFile && NumbersUnder(r.current, r.nextFile)
  {
    hide ApplyInTurn, LastOf, PrevLogOf, AddsOnce, BuildAll, SaveLevels;
    RecoveredIsOk(b.manifest);
  }
}
