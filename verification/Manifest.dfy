// The manifest: a log of version edits.  Replaying the whole log into one builder and
// saving once rebuilds the version that was reached by saving after every edit.

module Manifest {
  import opened Keys
  import opened Levels
  import opened VersionBuilder

  // ----- order facts -----

  lemma {:induction false} FileLessTrans(a: File, b: File, c: File)
    requires FileLess(a, b) && FileLess(b, c)
    ensures FileLess(a, c)
  {
  }

  lemma {:induction false} FileLessTotal(a: File, b: File)
    requires a.number != b.number
    ensures FileLess(a, b) <==> !FileLess(b, a)
  {
  }

  /** No two files of the two sequences share a number, and neither do two files of one. */
  ghost predicate FreshNumbers(a: seq<File>, b: seq<File>) {
    forall f, g :: f in a && g in b ==> f.number != g.number
  }

  /** A sorted file list is determined by its members. */
  lemma {:induction false} SortedUnique(a: seq<File>, b: seq<File>)
    requires SortedFiles(a) && SortedFiles(b)
    requires forall f :: f in a <==> f in b
    ensures a == b
  {
    assert b != [] ==> b[0] in b;
    if a != [] {
      assert a[0] in b;
      var i :| 0 <= i < |b| && b[i] == a[0];
      assert b[0] in a;
      var j :| 0 <= j < |a| && a[j] == b[0];
      assert i == 0;
      forall f
        ensures f in a[1..] <==> f in b[1..]
      {
        TailMembers(a, f);
        TailMembers(b, f);
      }
      SortedUnique(a[1..], b[1..]);
      assert a == [a[0]] + a[1..] && b == [b[0]] + b[1..];
    }
  }

  lemma {:induction false} TailMembers(a: seq<File>, f: File)
    requires SortedFiles(a) && a != []
    ensures f in a[1..] <==> f in a && f != a[0]
  {
    assert a == [a[0]] + a[1..];
  }

  // ----- members and order of the builder's pieces -----

  lemma {:induction false} InsertMembers(f: File, added: seq<File>)
    requires forall g :: g in added ==> g.number != f.number
    ensures forall g :: g in InsertFile(f, added) <==> g == f || g in added
  {
    if added == [] || FileLess(f, added[0]) {
    } else {
      FileLessTotal(added[0], f);
      InsertMembers(f, added[1..]);
      assert added == [added[0]] + added[1..];
    }
  }

  lemma {:induction false} InsertSorted(f: File, added: seq<File>)
    requires SortedFiles(added)
    requires forall g :: g in added ==> g.number != f.number
    ensures SortedFiles(InsertFile(f, added))
  {
    if added == [] {
    } else if FileLess(f, added[0]) {
      forall j | 0 <= j < |added|
        ensures FileLess(f, added[j])
      {
        if j > 0 { FileLessTrans(f, added[0], added[j]); }
      }
    } else {
      FileLessTotal(added[0], f);
      InsertSorted(f, added[1..]);
      InsertMembers(f, added[1..]);
      var tail := InsertFile(f, added[1..]);
      forall j | 0 <= j < |tail|
        ensures FileLess(added[0], tail[j])
      {
        assert tail[j] in tail;
        if tail[j] != f {
          var k :| 0 <= k < |added[1..]| && added[1..][k] == tail[j];
          assert FileLess(added[0], added[k + 1]);
        }
      }
    }
  }

  ghost function Numbers(files: seq<File>): set<nat> {
    set f | f in files :: f.number
  }

  lemma {:induction false} AddAllFacts(ls: LevelState, files: seq<File>)
    requires SortedFiles(ls.added)
    requires DistinctNumbers(files) && FreshNumbers(ls.added, files)
    ensures SortedFiles(AddAll(ls, files).added)
    ensures forall f :: f in AddAll(ls, files).added <==> f in ls.added || f in files
    ensures AddAll(ls, files).deleted == ls.deleted - Numbers(files)
  {
    if files != [] {
      var n := |files| - 1;
      AddAllFacts(ls, files[..n]);
      var before := AddAll(ls, files[..n]);
      assert files == files[..n] + [files[n]];
      assert Numbers(files) == Numbers(files[..n]) + {files[n].number};
      assert files[n] in files;
      NewNumber(ls, files, before.added);
      InsertMembers(files[n], before.added);
      InsertSorted(files[n], before.added);
    }
  }

  lemma {:induction false} NewNumber(ls: LevelState, files: seq<File>, before: seq<File>)
    requires files != [] && DistinctNumbers(files) && FreshNumbers(ls.added, files)
    requires forall f :: f in before <==> f in ls.added || f in files[..|files| - 1]
    ensures forall g :: g in before ==> g.number != files[|files| - 1].number
  {
    var n := |files| - 1;
    assert files[n] in files;
    forall g | g in before
      ensures g.number != files[n].number
    {
      if g in files[..n] {
        var i :| 0 <= i < n && files[i] == g;
      }
    }
  }

  lemma {:induction false} MergeMembers(base: seq<File>, added: seq<File>)
    ensures forall f :: f in Merge(base, added) <==> f in base || f in added
    decreases |base| + |added|
  {
    if added == [] || base == [] {
    } else if FileLess(added[0], base[0]) {
      MergeMembers(base, added[1..]);
      assert added == [added[0]] + added[1..];
    } else {
      MergeMembers(base[1..], added);
      assert base == [base[0]] + base[1..];
    }
  }

  lemma {:induction false} ConsSorted(f: File, tail: seq<File>)
    requires SortedFiles(tail)
    requires forall g :: g in tail ==> FileLess(f, g)
    ensures SortedFiles([f] + tail)
  {
  }

  lemma {:induction false} MergeSorted(base: seq<File>, added: seq<File>)
    requires SortedFiles(base) && SortedFiles(added) && FreshNumbers(base, added)
    ensures SortedFiles(Merge(base, added))
    decreases |base| + |added|
  {
    if added == [] || base == [] {
    } else if FileLess(added[0], base[0]) {
      MergeSorted(base, added[1..]);
      MergeMembers(base, added[1..]);
      forall g | g in Merge(base, added[1..])
        ensures FileLess(added[0], g)
      {
        if g in base {
          var i :| 0 <= i < |base| && base[i] == g;
          if i > 0 { FileLessTrans(added[0], base[0], base[i]); }
        }
      }
      ConsSorted(added[0], Merge(base, added[1..]));
    } else {
      FileLessTotal(added[0], base[0]);
      MergeSorted(base[1..], added);
      MergeMembers(base[1..], added);
      forall g | g in Merge(base[1..], added)
        ensures FileLess(base[0], g)
      {
        if g in added {
          var i :| 0 <= i < |added| && added[i] == g;
          if i > 0 { FileLessTrans(base[0], added[0], added[i]); }
        }
      }
      ConsSorted(base[0], Merge(base[1..], added));
    }
  }

  lemma {:induction false} SurvivingMembers(files: seq<File>, deleted: set<nat>)
    ensures forall f :: f in Surviving(files, deleted) <==> f in files && f.number !in deleted
  {
    if files != [] {
      var n := |files| - 1;
      SurvivingMembers(files[..n], deleted);
      assert files == files[..n] + [files[n]];
    }
  }

  /** What survives keeps any order of the files, of keys or of numbers. */
  lemma {:induction false} SurvivingFacts(files: seq<File>, deleted: set<nat>)
    ensures forall f :: f in Surviving(files, deleted) <==> f in files && f.number !in deleted
    ensures SortedFiles(files) ==> SortedFiles(Surviving(files, deleted))
    ensures DistinctNumbers(files) ==> DistinctNumbers(Surviving(files, deleted))
  {
    hide FileLess;
    SurvivingMembers(files, deleted);
    if files != [] {
      var n := |files| - 1;
      SurvivingFacts(files[..n], deleted);
      SurvivingBefore(files, deleted);
    }
  }

  lemma {:induction false} SurvivingBefore(files: seq<File>, deleted: set<nat>)
    requires files != []
    ensures var front := Surviving(files[..|files| - 1], deleted);
            forall i :: 0 <= i < |front| ==> (SortedFiles(files) ==> FileLess(front[i], files[|files| - 1]))
                                             && (DistinctNumbers(files) ==> front[i].number != files[|files| - 1].number)
  {
    hide FileLess;
    var n := |files| - 1;
    var front := Surviving(files[..n], deleted);
    SurvivingMembers(files[..n], deleted);
    forall i | 0 <= i < |front|
      ensures SortedFiles(files) ==> FileLess(front[i], files[n])
      ensures DistinctNumbers(files) ==> front[i].number != files[n].number
    {
      assert front[i] in front;
      var k :| 0 <= k < n && files[k] == front[i];
    }
  }

  lemma {:induction false} SaveLevelFacts(base: seq<File>, ls: LevelState)
    requires SortedFiles(base) && SortedFiles(ls.added) && FreshNumbers(base, ls.added)
    ensures SortedFiles(SaveLevel(base, ls))
    ensures forall f :: f in SaveLevel(base, ls) <==> (f in base || f in ls.added) && f.number !in ls.deleted
  {
    MergeSorted(base, ls.added);
    MergeMembers(base, ls.added);
    SurvivingFacts(Merge(base, ls.added), ls.deleted);
  }

  // ----- one builder for a whole history -----

  /** What a history of edits does to one level. */
  datatype LevelOp = LevelOp(dels: set<nat>, adds: seq<File>)

  function ApplyOp(ls: LevelState, op: LevelOp): LevelState {
    AddAll(LevelState(ls.deleted + op.dels, ls.added), op.adds)
  }

  function Batched(ops: seq<LevelOp>): LevelState {
    if ops == [] then NOTHING
    else ApplyOp(Batched(ops[..|ops| - 1]), ops[|ops| - 1])
  }

  function InTurn(base: seq<File>, ops: seq<LevelOp>): seq<File> {
    if ops == [] then base
    else SaveLevel(InTurn(base, ops[..|ops| - 1]), ApplyOp(NOTHING, ops[|ops| - 1]))
  }

  function AllAdded(ops: seq<LevelOp>): seq<File> {
    if ops == [] then [] else AllAdded(ops[..|ops| - 1]) + ops[|ops| - 1].adds
  }

  lemma {:induction false} DistinctAppend(a: seq<File>, b: seq<File>)
    requires DistinctNumbers(a + b)
    ensures DistinctNumbers(a) && DistinctNumbers(b) && FreshNumbers(a, b)
  {
    var ab := a + b;
    forall i, j | 0 <= i < j < |a|
      ensures a[i].number != a[j].number
    {
      assert ab[i].number != ab[j].number;
    }
    forall i, j | 0 <= i < j < |b|
      ensures b[i].number != b[j].number
    {
      assert ab[|a| + i].number != ab[|a| + j].number;
    }
    forall f, g | f in a && g in b
      ensures f.number != g.number
    {
      var i :| 0 <= i < |a| && a[i] == f;
      var j :| 0 <= j < |b| && b[j] == g;
      assert ab[i].number != ab[|a| + j].number;
    }
  }

  /** When no file number is added twice to a level, saving once at the end gives the same level as
      saving after every edit. */
  lemma {:induction false} BatchedIsInTurn(base: seq<File>, ops: seq<LevelOp>)
    requires SortedFiles(base)
    requires DistinctNumbers(base + AllAdded(ops))
    ensures SortedFiles(Batched(ops).added)
    ensures forall f :: f in Batched(ops).added ==> f in AllAdded(ops)
    ensures SaveLevel(base, Batched(ops)) == InTurn(base, ops)
    ensures SortedFiles(InTurn(base, ops))
    ensures forall f :: f in InTurn(base, ops) ==> f in base || f in AllAdded(ops)
  {
    if ops == [] {
      SaveNothing(base);
    } else {
      var n := |ops| - 1;
      var front, op := ops[..n], ops[n];
      assert base + AllAdded(ops) == base + AllAdded(front) + op.adds;
      DistinctAppend(base + AllAdded(front), op.adds);
      BatchedIsInTurn(base, front);
      DistinctAppend(base, AllAdded(front));
      OneMoreOp(base, Batched(front), InTurn(base, front), op);
      AddAllFacts(LevelState(Batched(front).deleted + op.dels, Batched(front).added), op.adds);
    }
  }

  lemma {:induction false} SaveNothing(base: seq<File>)
    requires SortedFiles(base)
    ensures SaveLevel(base, NOTHING) == base
  {
    SurvivingFacts(base, {});
    SortedUnique(SaveLevel(base, NOTHING), base);
  }

  lemma {:induction false} OneMoreOp(base: seq<File>, ls: LevelState, now: seq<File>, op: LevelOp)
    requires SortedFiles(base) && SortedFiles(ls.added) && FreshNumbers(base, ls.added)
    requires now == SaveLevel(base, ls)
    requires DistinctNumbers(op.adds) && FreshNumbers(base, op.adds) && FreshNumbers(ls.added, op.adds)
    ensures SaveLevel(base, ApplyOp(ls, op)) == SaveLevel(now, ApplyOp(NOTHING, op))
    ensures SortedFiles(SaveLevel(now, ApplyOp(NOTHING, op)))
    ensures forall f :: f in SaveLevel(now, ApplyOp(NOTHING, op)) ==> f in now || f in op.adds
  {
    SaveLevelFacts(base, ls);
    AddAllFacts(LevelState(ls.deleted + op.dels, ls.added), op.adds);
    AddAllFacts(LevelState({} + op.dels, []), op.adds);
    var batched := ApplyOp(ls, op);
    var single := ApplyOp(NOTHING, op);
    SaveLevelFacts(base, batched);
    SaveLevelFacts(now, single);
    forall f
      ensures f in SaveLevel(base, batched) <==> f in SaveLevel(now, single)
    {
      if f in op.adds {
        assert f.number in Numbers(op.adds);
      } else if f in base || f in ls.added {
        assert f.number !in Numbers(op.adds);
      }
    }
    SortedUnique(SaveLevel(base, batched), SaveLevel(now, single));
  }

  // ----- whole versions -----

  const EMPTY_VERSION: Version := [[], [], [], [], [], [], []]

  function BuildAll(edits: seq<VersionEdit>): (r: seq<LevelState>)
    ensures |r| == NUM_LEVELS
  {
    if edits == [] then NO_LEVEL_STATES
    else ApplyLevels(BuildAll(edits[..|edits| - 1]), edits[|edits| - 1])
  }

  function ApplyInTurn(v: Version, edits: seq<VersionEdit>): Version {
    if edits == [] then v
    else ApplyEdit(ApplyInTurn(v, edits[..|edits| - 1]), edits[|edits| - 1])
  }

  function Ops(edits: seq<VersionEdit>, level: nat): (r: seq<LevelOp>)
    ensures |r| == |edits|
  {
    if edits == [] then []
    else
      var n := |edits| - 1;
      Ops(edits[..n], level) + [OpAt(edits[n], level)]
  }

  /** Every (level, number) is added at most once, counting the files already there. */
  ghost predicate AddsOnce(v: Version, edits: seq<VersionEdit>) {
    forall l :: 0 <= l < NUM_LEVELS ==> DistinctNumbers(v[l] + AllAdded(Ops(edits, l)))
  }

  ghost predicate SortedVersion(v: Version) {
    forall l :: 0 <= l < NUM_LEVELS ==> SortedFiles(v[l])
  }

  lemma {:induction false} LevelOfBuildAll(edits: seq<VersionEdit>, l: nat)
    requires l < NUM_LEVELS
    ensures BuildAll(edits)[l] == Batched(Ops(edits, l))
  {
    if edits != [] {
      var n := |edits| - 1;
      LevelOfBuildAll(edits[..n], l);
      assert Ops(edits, l)[..n] == Ops(edits[..n], l);
    }
  }

  function OpAt(edit: VersionEdit, l: nat): LevelOp {
    LevelOp(DeletedAt(edit.deletedFiles, l), AddedAt(edit.newFiles, l))
  }

  lemma {:induction false} LevelOfApplyEdit(v: Version, edit: VersionEdit, l: nat)
    requires l < NUM_LEVELS
    ensures ApplyEdit(v, edit)[l] == SaveLevel(v[l], ApplyOp(NOTHING, OpAt(edit, l)))
  {
    assert NO_LEVEL_STATES[l] == NOTHING;
    assert ApplyLevels(NO_LEVEL_STATES, edit)[l] == ApplyLevel(NOTHING, edit, l);
  }

  lemma {:induction false} LevelOfApplyInTurn(v: Version, edits: seq<VersionEdit>, l: nat)
    requires l < NUM_LEVELS
    ensures ApplyInTurn(v, edits)[l] == InTurn(v[l], Ops(edits, l))
  {
    if edits != [] {
      var n := |edits| - 1;
      LevelOfApplyInTurn(v, edits[..n], l);
      LevelOfApplyEdit(ApplyInTurn(v, edits[..n]), edits[n], l);
      assert Ops(edits, l)[..n] == Ops(edits[..n], l);
    }
  }

  /** Applying all edits to one builder and saving once equals applying and saving each in turn. */
  lemma {:induction false} ReplayOnceIsReplayInTurn(v: Version, edits: seq<VersionEdit>)
    requires SortedVersion(v) && AddsOnce(v, edits)
    ensures SaveLevels(v, BuildAll(edits)) == ApplyInTurn(v, edits)
    ensures SortedVersion(ApplyInTurn(v, edits))
  {
    forall l | 0 <= l < NUM_LEVELS
      ensures SaveLevels(v, BuildAll(edits))[l] == ApplyInTurn(v, edits)[l]
      ensures SortedFiles(ApplyInTurn(v, edits)[l])
    {
      LevelOfBuildAll(edits, l);
      LevelOfApplyInTurn(v, edits, l);
      BatchedIsInTurn(v[l], Ops(edits, l));
    }
  }

  // ----- files as additions of one edit -----

  function Tagged(level: nat, files: seq<File>): seq<(nat, File)> {
    if files == [] then []
    else
      var n := |files| - 1;
      Tagged(level, files[..n]) + [(level, files[n])]
  }

  lemma {:induction false} AddedAtTagged(files: seq<File>, level: nat, l: nat)
    ensures AddedAt(Tagged(level, files), l) == if l == level then files else []
    ensures forall p :: p in Tagged(level, files) ==> p.0 == level
  {
    if files != [] {
      var n := |files| - 1;
      AddedAtTagged(files[..n], level, l);
      assert Tagged(level, files)[..|Tagged(level, files)| - 1] == Tagged(level, files[..n]);
      assert files == files[..n] + [files[n]];
    }
  }
}
