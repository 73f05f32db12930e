// What a flush, a trivial move and a compaction install do to the levels: the shape
// every level keeps, the newer-is-shallower order, and exactly when a move breaks it.

module LevelEdits {
  import opened Keys
  import opened Levels
  import opened Overlaps
  import opened Compactions
  import opened VersionBuilder
  import opened Manifest

  /** No file number is used twice, within a level or across levels. */
  ghost predicate GlobalNumbers(v: Version) {
    && (forall l :: 0 <= l < NUM_LEVELS ==> DistinctNumbers(v[l]))
    && (forall l, m, f, g :: 0 <= l < NUM_LEVELS && 0 <= m < NUM_LEVELS && f in v[l] && g in v[m] && l != m ==>
          f.number != g.number)
  }

  /** What every version has, whatever was compacted: sorted levels, disjoint below level 0, no number
      used twice. */
  ghost predicate WellFormed(v: Version) {
    Shape(v) && SortedVersion(v) && GlobalNumbers(v)
  }

  /** What a lookup level by level relies on besides: newer data further up. */
  ghost predicate GoodVersion(v: Version) {
    WellFormed(v) && NewerAbove(v)
  }

  // ----- order at the level of files -----

  ghost predicate NewerFile(f: File, g: File) {
    NewerThan(Elements(f.entries), Elements(g.entries))
  }

  lemma {:induction false} LevelsNewerByFile(a: seq<File>, b: seq<File>)
    ensures NewerThan(FilesEntries(a), FilesEntries(b)) <==> forall f, g :: f in a && g in b ==> NewerFile(f, g)
  {
    if NewerThan(FilesEntries(a), FilesEntries(b)) {
      forall f, g | f in a && g in b
        ensures NewerFile(f, g)
      {
        assert forall e :: e in f.entries ==> e in FilesEntries(a);
        assert forall e :: e in g.entries ==> e in FilesEntries(b);
      }
    }
    if forall f, g :: f in a && g in b ==> NewerFile(f, g) {
      forall x, y | x in FilesEntries(a) && y in FilesEntries(b) && x.key.user == y.key.user
        ensures x.key.sequence > y.key.sequence
      {
        var f :| f in a && x in f.entries;
        var g :| g in b && y in g.entries;
        assert NewerFile(f, g);
      }
    }
  }

  ghost predicate FilesNewerAbove(v: Version) {
    forall i, j, f, g :: 0 <= i < j < NUM_LEVELS && f in v[i] && g in v[j] ==> NewerFile(f, g)
  }

  lemma {:induction false} NewerAboveByFile(v: Version)
    ensures NewerAbove(v) <==> FilesNewerAbove(v) && Level0ByAge(v[0])
  {
    forall i, j | 0 <= i < j < NUM_LEVELS
      ensures NewerThan(FilesEntries(v[i]), FilesEntries(v[j]))
          <==> forall f, g :: f in v[i] && g in v[j] ==> NewerFile(f, g)
    {
      LevelsNewerByFile(v[i], v[j]);
    }
    if FilesNewerAbove(v) {
      forall i, j | 0 <= i < j < NUM_LEVELS
        ensures NewerThan(FilesEntries(v[i]), FilesEntries(v[j]))
      {
        assert forall f, g :: f in v[i] && g in v[j] ==> NewerFile(f, g);
      }
    }
  }

  /** Files whose user key ranges do not meet share no user key. */
  lemma {:induction false} ApartShareNothing(f: File, g: File)
    requires GoodFile(f) && GoodFile(g)
    requires f.largest.user < g.smallest.user || g.largest.user < f.smallest.user
    ensures forall x, y :: x in f.entries && y in g.entries ==> x.key.user != y.key.user
  {
    forall x, y | x in f.entries && y in g.entries
      ensures x.key.user != y.key.user
    {
      EntryBounds(f, x);
      EntryBounds(g, y);
    }
  }

  // ----- shape -----

  ghost predicate Apart(f: File, g: File) {
    Less(f.largest, g.smallest) || Less(g.largest, f.smallest)
  }

  lemma {:induction false} PairwiseApartIsDisjoint(files: seq<File>)
    requires GoodFiles(files) && SortedFiles(files)
    requires forall f, g :: f in files && g in files && f != g ==> Apart(f, g)
    ensures DisjointSorted(files)
  {
    forall i, j | 0 <= i < j < |files|
      ensures Less(files[i].largest, files[j].smallest)
    {
      assert FileLess(files[i], files[j]);
      FileBounds(files[i], |files[i].entries| - 1);
      FileBounds(files[j], |files[j].entries| - 1);
      assert Apart(files[i], files[j]);
    }
  }

  lemma {:induction false} LevelFilesApart(files: seq<File>, f: File, g: File)
    requires GoodFiles(files) && DisjointSorted(files)
    requires f in files && g in files && f != g
    ensures Apart(f, g)
  {
    var i :| 0 <= i < |files| && files[i] == f;
    var j :| 0 <= j < |files| && files[j] == g;
  }

  lemma {:induction false} MembersAreGood(files: seq<File>)
    requires forall f :: f in files ==> GoodFile(f)
    ensures GoodFiles(files)
  {
  }

  // ----- one edit on one level -----

  /** The members of a level after an edit. */
  lemma {:induction false} LevelAfterEdit(v: Version, edit: VersionEdit, l: nat, adds: seq<File>)
    requires l < NUM_LEVELS && SortedFiles(v[l])
    requires adds == AddedAt(edit.newFiles, l)
    requires DistinctNumbers(adds) && FreshNumbers(v[l], adds)
    ensures SortedFiles(ApplyEdit(v, edit)[l])
    ensures forall f :: f in ApplyEdit(v, edit)[l] <==>
              (f in v[l] && (l, f.number) !in edit.deletedFiles) || f in adds
  {
    LevelOfApplyEdit(v, edit, l);
    var op := OpAt(edit, l);
    AddAllFacts(LevelState({} + op.dels, []), op.adds);
    SaveLevelFacts(v[l], ApplyOp(NOTHING, op));
    forall f
      ensures f in ApplyEdit(v, edit)[l] <==>
              (f in v[l] && (l, f.number) !in edit.deletedFiles) || f in adds
    {
      assert (l, f.number) in edit.deletedFiles <==> f.number in op.dels;
      if f in v[l] { assert f.number !in Numbers(adds); }
      if f in adds { assert f.number in Numbers(adds); }
    }
  }

  // ----- flush -----

  function FlushEdit(level: nat, f: File): VersionEdit {
    EMPTY_EDIT.(newFiles := [(level, f)])
  }

  /** The placement rule: below level 0 only where nothing at or above the level overlaps. */
  ghost predicate FlushPlacement(v: Version, level: nat, f: File) {
    && level <= MAX_MEM_COMPACT_LEVEL
    && (level > 0 ==> forall l, g :: 0 <= l <= level && g in v[l] ==>
          !Touches(g, Some(f.smallest.user), Some(f.largest.user)))
  }

  lemma {:induction false} AddedAtOne(level: nat, f: File, l: nat)
    ensures AddedAt([(level, f)], l) == if l == level then [f] else []
  {
    assert [(level, f)][..0] == [];
  }

  /** A level that gains files apart from everything it keeps. */
  lemma {:induction false} ShapeAfter(was: seq<File>, now: seq<File>, added: seq<File>)
    requires GoodFiles(was) && DisjointSorted(was)
    requires GoodFiles(added) && DisjointSorted(added)
    requires SortedFiles(now)
    requires forall f :: f in now ==> f in was || f in added
    requires forall f, g :: f in now && f in was && f !in added && g in added ==> Apart(f, g)
    ensures GoodFiles(now) && DisjointSorted(now)
  {
    forall f | f in now
      ensures GoodFile(f)
    {
      if f in was {
        var i :| 0 <= i < |was| && was[i] == f;
      } else {
        var i :| 0 <= i < |added| && added[i] == f;
      }
    }
    MembersAreGood(now);
    forall f, g | f in now && g in now && f != g
      ensures Apart(f, g)
    {
      if f in added && g in added {
        LevelFilesApart(added, f, g);
      } else if f !in added && g !in added {
        LevelFilesApart(was, f, g);
      } else if f in added {
        assert Apart(g, f);
      }
    }
    PairwiseApartIsDisjoint(now);
  }

  lemma {:induction false} GoodMember(files: seq<File>, f: File)
    requires GoodFiles(files) && f in files
    ensures GoodFile(f)
  {
    var i :| 0 <= i < |files| && files[i] == f;
  }

  /** `w` is `v` with `f` added at `level`. */
  ghost predicate Flushed(v: Version, w: Version, level: nat, f: File) {
    forall l, g :: 0 <= l < NUM_LEVELS ==> (g in w[l] <==> g in v[l] || (l == level && g == f))
  }

  /** A flush at a level the placement rule allows keeps shape and numbering. */
  lemma {:induction false} FlushKeepsWellFormed(v: Version, level: nat, f: File)
    requires WellFormed(v) && GoodFile(f)
    requires FlushPlacement(v, level, f) && HighestNumber(v, f)
    ensures WellFormed(ApplyEdit(v, FlushEdit(level, f)))
    ensures Flushed(v, ApplyEdit(v, FlushEdit(level, f)), level, f)
  {
    hide ApplyEdit;
    var w := ApplyEdit(v, FlushEdit(level, f));
    FlushMembers(v, level, f);
    FlushedShape(v, w, level, f);
    FlushedNumbers(v, w, level, f);
  }

  /** A flushed memtable, newer than everything in the version, keeps the order of the levels too. */
  lemma {:induction false} FlushKeepsGood(v: Version, level: nat, f: File)
    requires GoodVersion(v) && GoodFile(f)
    requires FlushPlacement(v, level, f) && HighestNumber(v, f) && NewestFile(v, f)
    ensures GoodVersion(ApplyEdit(v, FlushEdit(level, f)))
    ensures Flushed(v, ApplyEdit(v, FlushEdit(level, f)), level, f)
  {
    hide ApplyEdit;
    FlushKeepsWellFormed(v, level, f);
    FlushedOrder(v, ApplyEdit(v, FlushEdit(level, f)), level, f);
  }

  /** Everything known when `f` was added to `v` and gave `w`. */
  ghost predicate FlushStep(v: Version, w: Version, level: nat, f: File) {
    && WellFormed(v)
    && GoodFile(f)
    && FlushPlacement(v, level, f)
    && HighestNumber(v, f)
    && Flushed(v, w, level, f)
    && SortedVersion(w)
  }

  ghost predicate HighestNumber(v: Version, f: File) {
    forall l, g :: 0 <= l < NUM_LEVELS && g in v[l] ==> g.number < f.number
  }

  /** A file with newer data than anything in the version. */
  ghost predicate NewestFile(v: Version, f: File) {
    forall l, g :: 0 <= l < NUM_LEVELS && g in v[l] ==> NewerFile(f, g)
  }

  lemma {:induction false} FlushMembers(v: Version, level: nat, f: File)
    requires SortedVersion(v)
    requires forall l, g :: 0 <= l < NUM_LEVELS && g in v[l] ==> g.number < f.number
    ensures Flushed(v, ApplyEdit(v, FlushEdit(level, f)), level, f)
    ensures SortedVersion(ApplyEdit(v, FlushEdit(level, f)))
  {
    var edit := FlushEdit(level, f);
    var w := ApplyEdit(v, edit);
    forall l | 0 <= l < NUM_LEVELS
      ensures SortedFiles(w[l])
      ensures forall g :: g in w[l] <==> g in v[l] || (l == level && g == f)
    {
      AddedAtOne(level, f, l);
      LevelAfterEdit(v, edit, l, AddedAt(edit.newFiles, l));
    }
  }

  lemma {:induction false} FlushedShape(v: Version, w: Version, level: nat, f: File)
    requires FlushStep(v, w, level, f)
    ensures Shape(w)
  {
    forall l | 0 <= l < NUM_LEVELS
      ensures GoodFiles(w[l]) && (l > 0 ==> DisjointSorted(w[l]))
    {
      assert forall g :: g in w[l] <==> g in v[l] || (l == level && g == f);
      FlushedLevel(v[l], w[l], l, if l == level then [f] else [],
                   Some(f.smallest.user), Some(f.largest.user));
    }
  }

  lemma {:induction false} FlushedLevel(was: seq<File>, now: seq<File>, l: nat, added: seq<File>,
                                        lo: Option<UserKey>, hi: Option<UserKey>)
    requires GoodFiles(was) && (l > 0 ==> DisjointSorted(was))
    requires added == [] || (|added| == 1 && GoodFile(added[0])
                             && lo == Some(added[0].smallest.user) && hi == Some(added[0].largest.user))
    requires l > 0 && added != [] ==> forall g :: g in was ==> !Touches(g, lo, hi)
    requires SortedFiles(now)
    requires forall g :: g in now <==> g in was || g in added
    ensures GoodFiles(now) && (l > 0 ==> DisjointSorted(now))
  {
    forall g | g in now
      ensures GoodFile(g)
    {
      if g in was { GoodMember(was, g); }
    }
    MembersAreGood(now);
    if l > 0 {
      forall g, f | g in was && f in added
        ensures Apart(g, f)
      {
        assert !Touches(g, lo, hi);
      }
      ShapeAfter(was, now, added);
    }
  }

  lemma {:induction false} FlushedNumbers(v: Version, w: Version, level: nat, f: File)
    requires GlobalNumbers(v) && SortedVersion(w)
    requires Flushed(v, w, level, f)
    requires forall l, g :: 0 <= l < NUM_LEVELS && g in v[l] ==> g.number < f.number
    ensures GlobalNumbers(w)
  {
    forall l | 0 <= l < NUM_LEVELS
      ensures DistinctNumbers(w[l])
    {
      forall g, h | g in w[l] && h in w[l] && g != h
        ensures g.number != h.number
      {
        if g in v[l] && h in v[l] && g.number == h.number {
          SameNumberSameFile(v[l], g, h);
        }
      }
      SortedAndFreshDistinct(w[l]);
    }
  }

  lemma {:induction false} FlushedOrder(v: Version, w: Version, level: nat, f: File)
    requires FlushStep(v, w, level, f) && NewerAbove(v) && NewestFile(v, f)
    ensures NewerAbove(w)
  {
    NewerAboveByFile(v);
    forall i, j, g, h | 0 <= i < j < NUM_LEVELS && g in w[i] && h in w[j]
      ensures NewerFile(g, h)
    {
      FlushedPair(v, w, level, f, i, j, g, h);
    }
    forall g, h | g in w[0] && h in w[0] && g.number > h.number
      ensures NewerThan(Elements(g.entries), Elements(h.entries))
    {
      assert h in v[0];
      assert g == f ==> NewerFile(f, h);
    }
    NewerAboveByFile(w);
  }

  lemma {:induction false} FlushedPair(v: Version, w: Version, level: nat, f: File, i: nat, j: nat, g: File, h: File)
    requires GoodFile(f) && (forall l :: 0 <= l < NUM_LEVELS ==> GoodFiles(v[l]))
    requires FilesNewerAbove(v)
    requires FlushPlacement(v, level, f) && Flushed(v, w, level, f)
    requires forall l, g :: 0 <= l < NUM_LEVELS && g in v[l] ==> NewerFile(f, g)
    requires i < j < NUM_LEVELS && g in w[i] && h in w[j]
    ensures NewerFile(g, h)
  {
    if g in v[i] && h in v[j] {
    } else if g in v[i] {
      assert h == f && j == level;
      GoodMember(v[i], g);
      assert !Touches(g, Some(f.smallest.user), Some(f.largest.user));
      ApartShareNothing(g, f);
    } else {
      assert g == f && i == level;
      assert h in v[j];
    }
  }

  lemma {:induction false} SortedAndFreshDistinct(files: seq<File>)
    requires SortedFiles(files)
    requires forall f, g :: f in files && g in files && f != g ==> f.number != g.number
    ensures DistinctNumbers(files)
  {
    forall i, j | 0 <= i < j < |files|
      ensures files[i].number != files[j].number
    {
      assert FileLess(files[i], files[j]);
    }
  }

  // ----- compaction install and trivial move -----

  /** The edit of a finished compaction: all inputs deleted, the outputs added one level down. */
  function InputDeletions(files: seq<File>, level: nat): set<(nat, nat)> {
    set f | f in files :: (level, f.number)
  }

  function InstallEdit(c: Inputs, outputs: seq<File>): VersionEdit {
    EMPTY_EDIT.(compactPointers := [(c.level, c.pointer)],
                deletedFiles := InputDeletions(c.upper, c.level) + InputDeletions(c.lower, c.level + 1),
                newFiles := Tagged(c.level + 1, outputs))
  }

  /** A trivial move is the install of the one input, unchanged, as the output. */
  function MoveEdit(c: Inputs): VersionEdit
    requires |c.upper| == 1
  {
    EMPTY_EDIT.(compactPointers := [(c.level, c.pointer)],
                deletedFiles := {(c.level, c.upper[0].number)},
                newFiles := [(c.level + 1, c.upper[0])])
  }

  /** `w` is `v` with the inputs of `c` replaced by `outputs`. */
  ghost predicate Installed(v: Version, w: Version, c: Inputs, outputs: seq<File>)
    requires c.level + 1 < NUM_LEVELS
  {
    && (forall f :: f in w[c.level] <==> f in v[c.level] && f !in c.upper)
    && (forall f :: f in w[c.level + 1] <==> (f in v[c.level + 1] && f !in c.lower) || f in outputs)
    && (forall l :: 0 <= l < NUM_LEVELS && l != c.level && l != c.level + 1 ==>
          forall f :: f in w[l] <==> f in v[l])
  }

  /** The outputs hold only entries of the inputs, within their key range. */
  ghost predicate FromInputs(c: Inputs, outputs: seq<File>) {
    forall o, e :: o in outputs && e in o.entries ==> InLevel(c.upper, e) || InLevel(c.lower, e)
  }

  ghost predicate OutputNumbers(v: Version, c: Inputs, outputs: seq<File>)
    requires c.level + 1 < NUM_LEVELS
  {
    && DistinctNumbers(outputs)
    && (forall l, f, o :: 0 <= l < NUM_LEVELS && f in v[l] && o in outputs && f.number == o.number ==>
          l == c.level && f in c.upper)
  }

  lemma {:induction false} InstallMembers(v: Version, c: Inputs, outputs: seq<File>)
    requires WellFormed(v) && InputsClosed(v, c)
    requires OutputNumbers(v, c, outputs)
    ensures Installed(v, ApplyEdit(v, InstallEdit(c, outputs)), c, outputs)
    ensures SortedVersion(ApplyEdit(v, InstallEdit(c, outputs)))
  {
    hide ApplyEdit, Shape, NewerAbove, UpperClosed, GlobalNumbers, OutputNumbers, LowerMatches;
    forall l | 0 <= l < NUM_LEVELS
      ensures SortedFiles(ApplyEdit(v, InstallEdit(c, outputs))[l])
      ensures InstalledLevel(v, ApplyEdit(v, InstallEdit(c, outputs)), c, outputs, l)
    {
      InstallMembersAt(v, c, outputs, l);
    }
    assert InstalledLevel(v, ApplyEdit(v, InstallEdit(c, outputs)), c, outputs, c.level);
    assert InstalledLevel(v, ApplyEdit(v, InstallEdit(c, outputs)), c, outputs, c.level + 1);
  }

  lemma {:induction false} LevelFacts(v: Version, c: Inputs, l: nat)
    requires WellFormed(v) && InputsClosed(v, c) && l < NUM_LEVELS
    ensures Shape(v) && SortedFiles(v[l]) && DistinctNumbers(v[l]) && c.level + 1 < NUM_LEVELS
  {
    hide NewerAbove, UpperClosed, LowerMatches;
  }

  lemma {:induction false} InstallMembersAt(v: Version, c: Inputs, outputs: seq<File>, l: nat)
    requires WellFormed(v) && InputsClosed(v, c)
    requires OutputNumbers(v, c, outputs) && l < NUM_LEVELS
    ensures SortedFiles(ApplyEdit(v, InstallEdit(c, outputs))[l])
    ensures InstalledLevel(v, ApplyEdit(v, InstallEdit(c, outputs)), c, outputs, l)
  {
    hide ApplyEdit, WellFormed, Shape, InputsClosed, SortedFiles, DistinctNumbers, FreshNumbers, OutputNumbers, AddedAt,
      UpperMembers;
    LevelFacts(v, c, l);
    UpperIsMember(v, c);
    LowerIsMember(v, c);
    OutputsFresh(v, c, outputs, l);
    AddedAtTagged(outputs, c.level + 1, l);
    LevelAfterEdit(v, InstallEdit(c, outputs), l, AddedAt(InstallEdit(c, outputs).newFiles, l));
    DeletedFromLevel(v, c, outputs, l);
  }

  ghost predicate UpperMembers(v: Version, c: Inputs)
    requires c.level < NUM_LEVELS
  {
    forall f :: f in c.upper ==> f in v[c.level]
  }

  lemma {:induction false} LowerIsMember(v: Version, c: Inputs)
    requires Shape(v) && InputsClosed(v, c)
    ensures forall f :: f in c.lower ==> f in v[c.level + 1]
  {
    LowerMembers(v, c);
  }

  lemma {:induction false} OutputsFresh(v: Version, c: Inputs, outputs: seq<File>, l: nat)
    requires c.level + 1 < NUM_LEVELS && l < NUM_LEVELS && OutputNumbers(v, c, outputs)
    ensures FreshNumbers(v[l], if l == c.level + 1 then outputs else [])
    ensures DistinctNumbers(if l == c.level + 1 then outputs else [])
  {
  }

  lemma {:induction false} UpperIsMember(v: Version, c: Inputs)
    requires Shape(v) && InputsClosed(v, c)
    ensures UpperMembers(v, c)
  {
  }

  ghost predicate InstalledLevel(v: Version, w: Version, c: Inputs, outputs: seq<File>, l: nat)
    requires l < NUM_LEVELS
  {
    forall f :: f in w[l] <==>
      (f in v[l] && !(l == c.level && f in c.upper) && !(l == c.level + 1 && f in c.lower))
      || (l == c.level + 1 && f in outputs)
  }

  lemma {:induction false} DeletedFromLevel(v: Version, c: Inputs, outputs: seq<File>, l: nat)
    requires c.level + 1 < NUM_LEVELS && l < NUM_LEVELS && DistinctNumbers(v[l])
    requires UpperMembers(v, c)
    requires forall f :: f in c.lower ==> f in v[c.level + 1]
    ensures forall f :: f in v[l] ==>
              ((l, f.number) in InstallEdit(c, outputs).deletedFiles
               <==> (l == c.level && f in c.upper) || (l == c.level + 1 && f in c.lower))
  {
    forall f | f in v[l]
      ensures (l, f.number) in InstallEdit(c, outputs).deletedFiles
          <==> (l == c.level && f in c.upper) || (l == c.level + 1 && f in c.lower)
    {
      if l == c.level { DeletedIsMember(v[l], c.upper, l, f); }
      if l == c.level + 1 { DeletedIsMember(v[l], c.lower, l, f); }
    }
  }

  lemma {:induction false} LowerMembers(v: Version, c: Inputs)
    requires Shape(v) && InputsClosed(v, c)
    ensures forall f :: f in c.lower ==> f in v[c.level + 1]
    ensures exists lo, hi :: IsUserRange(c.upper, lo, hi)
              && forall f :: f in c.lower <==> f in v[c.level + 1] && Touches(f, Some(lo), Some(hi))
  {
    var lo, hi :| IsUserRange(c.upper, lo, hi);
    assert c.lower == Select(v[c.level + 1], Some(lo), Some(hi));
  }

  lemma {:induction false} DeletedIsMember(files: seq<File>, inputs: seq<File>, level: nat, f: File)
    requires DistinctNumbers(files) && f in files
    requires forall g :: g in inputs ==> g in files
    ensures (level, f.number) in InputDeletions(inputs, level) <==> f in inputs
  {
    if (level, f.number) in InputDeletions(inputs, level) {
      var g :| g in inputs && g.number == f.number;
      SameNumberSameFile(files, f, g);
    }
  }

  /** Everything known when a compaction's outputs replaced its inputs. */
  ghost predicate InstallStep(v: Version, w: Version, c: Inputs, outputs: seq<File>) {
    && WellFormed(v)
    && InputsClosed(v, c)
    && GoodFiles(outputs)
    && DisjointSorted(outputs)
    && FromInputs(c, outputs)
    && OutputNumbers(v, c, outputs)
    && Installed(v, w, c, outputs)
    && SortedVersion(w)
  }

  /** A file left behind at the output level lies wholly on one side of every output. */
  lemma {:induction false} OutputsApart(v: Version, c: Inputs, outputs: seq<File>, f: File, o: File)
    requires Shape(v) && InputsClosed(v, c) && FromInputs(c, outputs)
    requires f in v[c.level + 1] && f !in c.lower
    requires o in outputs && GoodFile(o)
    ensures Apart(f, o)
  {
    LowerMembers(v, c);
    GoodMember(v[c.level + 1], f);
    FileBounds(f, |f.entries| - 1);
    var lo, hi :| IsUserRange(c.upper, lo, hi)
                  && forall f :: f in c.lower <==> f in v[c.level + 1] && Touches(f, Some(lo), Some(hi));
    assert !Touches(f, Some(lo), Some(hi));
    var first, last := o.entries[0], o.entries[|o.entries| - 1];
    assert first in o.entries && last in o.entries;
    OneSide(v, c, f, lo, hi, first);
    OneSide(v, c, f, lo, hi, last);
  }

  lemma {:induction false} OneSide(v: Version, c: Inputs, f: File, lo: UserKey, hi: UserKey, e: Entry)
    requires Shape(v) && InputsClosed(v, c)
    requires f in v[c.level + 1] && f !in c.lower && GoodFile(f)
    requires IsUserRange(c.upper, lo, hi) && !Touches(f, Some(lo), Some(hi))
    requires forall f :: f in c.lower <==> f in v[c.level + 1] && Touches(f, Some(lo), Some(hi))
    requires InLevel(c.upper, e) || InLevel(c.lower, e)
    ensures f.largest.user < lo ==> Less(f.largest, e.key)
    ensures f.smallest.user > hi ==> Less(e.key, f.smallest)
  {
    FileBounds(f, |f.entries| - 1);
    if InLevel(c.upper, e) {
      var g :| g in c.upper && e in g.entries;
      GoodMember(v[c.level], g);
      EntryBounds(g, e);
    } else {
      var g :| g in c.lower && e in g.entries;
      GoodMember(v[c.level + 1], g);
      EntryBounds(g, e);
      FileBounds(g, |g.entries| - 1);
      LevelFilesApart(v[c.level + 1], f, g);
    }
  }

  lemma {:induction false} InstalledShape(v: Version, w: Version, c: Inputs, outputs: seq<File>)
    requires InstallStep(v, w, c, outputs)
    ensures Shape(w)
  {
    hide NewerAbove, GlobalNumbers, OutputNumbers, SortedFiles, UpperClosed, LowerMatches, Apart, FromInputs;
    forall l | 0 <= l < NUM_LEVELS
      ensures GoodFiles(w[l]) && (l > 0 ==> DisjointSorted(w[l]))
    {
      if l == c.level + 1 {
        forall f, o | f in w[l] && f in v[l] && f !in outputs && o in outputs
          ensures Apart(f, o)
        {
          GoodMember(outputs, o);
          OutputsApart(v, c, outputs, f, o);
        }
        ShapeAfter(v[l], w[l], outputs);
      } else {
        assert forall f :: f in w[l] ==> f in v[l];
        SubsetShape(v[l], w[l], l);
      }
    }
  }

  lemma {:induction false} SubsetShape(was: seq<File>, now: seq<File>, l: nat)
    requires GoodFiles(was) && (l > 0 ==> DisjointSorted(was))
    requires SortedFiles(now)
    requires forall f :: f in now ==> f in was
    ensures GoodFiles(now) && (l > 0 ==> DisjointSorted(now))
  {
    forall f | f in now
      ensures GoodFile(f)
    {
      GoodMember(was, f);
    }
    MembersAreGood(now);
    if l > 0 { ShapeAfter(was, now, []); }
  }

  lemma {:induction false} InstalledNumbers(v: Version, w: Version, c: Inputs, outputs: seq<File>)
    requires InstallStep(v, w, c, outputs)
    ensures GlobalNumbers(w)
  {
    forall l, m, f, g | 0 <= l < NUM_LEVELS && 0 <= m < NUM_LEVELS && f in w[l] && g in w[m] && (l != m || f != g)
      ensures f.number != g.number
    {
      InstalledPair(v, w, c, outputs, l, m, f, g);
    }
    forall l | 0 <= l < NUM_LEVELS
      ensures DistinctNumbers(w[l])
    {
      assert forall f, g :: f in w[l] && g in w[l] && f != g ==> f.number != g.number;
      SortedAndFreshDistinct(w[l]);
    }
  }

  lemma {:induction false} InstalledPair(v: Version, w: Version, c: Inputs, outputs: seq<File>,
                                         l: nat, m: nat, f: File, g: File)
    requires InstallStep(v, w, c, outputs)
    requires l < NUM_LEVELS && m < NUM_LEVELS && f in w[l] && g in w[m] && (l != m || f != g)
    ensures f.number != g.number
  {
    hide Shape, NewerAbove, GoodFiles, DisjointSorted, SortedVersion, UpperClosed, LowerMatches, FromInputs;
    if f.number == g.number {
      var fOut, gOut := l == c.level + 1 && f in outputs, m == c.level + 1 && g in outputs;
      if fOut && gOut {
        SameNumberSameFile(outputs, f, g);
      } else if !fOut && !gOut && l == m {
        SameNumberSameFile(v[l], f, g);
      }
    }
  }

  /** An output is newer (older) than a file if every input is. */
  lemma {:induction false} OutputNewer(c: Inputs, outputs: seq<File>, o: File, h: File)
    requires FromInputs(c, outputs) && o in outputs
    requires forall g :: g in c.upper || g in c.lower ==> NewerFile(g, h)
    ensures NewerFile(o, h)
  {
    forall x, y | x in o.entries && y in h.entries && x.key.user == y.key.user
      ensures x.key.sequence > y.key.sequence
    {
      if InLevel(c.upper, x) {
        var g :| g in c.upper && x in g.entries;
        assert NewerFile(g, h);
      } else {
        var g :| g in c.lower && x in g.entries;
        assert NewerFile(g, h);
      }
    }
  }

  lemma {:induction false} OutputOlder(c: Inputs, outputs: seq<File>, o: File, h: File)
    requires FromInputs(c, outputs) && o in outputs
    requires forall g :: g in c.upper || g in c.lower ==> NewerFile(h, g)
    ensures NewerFile(h, o)
  {
    forall x, y | x in h.entries && y in o.entries && x.key.user == y.key.user
      ensures x.key.sequence > y.key.sequence
    {
      if InLevel(c.upper, y) {
        var g :| g in c.upper && y in g.entries;
        assert NewerFile(h, g);
      } else {
        var g :| g in c.lower && y in g.entries;
        assert NewerFile(h, g);
      }
    }
  }

  /** Installing a compaction, closed at its boundaries or not, keeps shape and numbering. */
  lemma {:induction false} InstallKeepsWellFormed(v: Version, c: Inputs, outputs: seq<File>)
    requires WellFormed(v) && InputsClosed(v, c)
    requires GoodFiles(outputs) && DisjointSorted(outputs) && FromInputs(c, outputs) && OutputNumbers(v, c, outputs)
    ensures Installed(v, ApplyEdit(v, InstallEdit(c, outputs)), c, outputs)
    ensures WellFormed(ApplyEdit(v, InstallEdit(c, outputs)))
  {
    hide ApplyEdit;
    var w := ApplyEdit(v, InstallEdit(c, outputs));
    InstallMembers(v, c, outputs);
    InstalledShape(v, w, c, outputs);
    InstalledNumbers(v, w, c, outputs);
  }

  // ----- a trivial move -----

  lemma {:induction false} MoveIsInstall(c: Inputs)
    requires |c.upper| == 1 && c.lower == []
    ensures MoveEdit(c) == InstallEdit(c, c.upper)
  {
    var f := c.upper[0];
    assert c.upper == [f];
    assert Tagged(c.level + 1, c.upper) == [(c.level + 1, f)] by {
      assert c.upper[..0] == [];
    }
    assert InputDeletions(c.upper, c.level) == {(c.level, f.number)};
    assert InputDeletions(c.lower, c.level + 1) == {};
  }

  lemma {:induction false} MovedFileFits(v: Version, c: Inputs)
    requires WellFormed(v) && InputsClosed(v, c)
    requires |c.upper| == 1 && c.lower == []
    ensures GoodFiles(c.upper) && DisjointSorted(c.upper) && FromInputs(c, c.upper) && OutputNumbers(v, c, c.upper)
  {
    hide NewerAbove, SortedVersion, LowerMatches;
    UpperIsMember(v, c);
    assert c.upper[0] in c.upper;
    GoodMember(v[c.level], c.upper[0]);
    forall l, f, o | 0 <= l < NUM_LEVELS && f in v[l] && o in c.upper && f.number == o.number
      ensures l == c.level && f in c.upper
    {
      if l == c.level { SameNumberSameFile(v[l], f, o); }
    }
  }
}
