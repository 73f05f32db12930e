// Version edits and the builder that applies a run of them to a version in one go.

module VersionBuilder {
  import opened Keys
  import opened Levels

  /** One manifest record. */
  datatype VersionEdit = VersionEdit(
    logNumber: Option<nat>,
    prevLogNumber: Option<nat>,
    nextFileNumber: Option<nat>,
    lastSequence: Option<SequenceNumber>,
    compactPointers: seq<(nat, InternalKey)>,
    deletedFiles: set<(nat, nat)>,
    newFiles: seq<(nat, File)>)

  const EMPTY_EDIT: VersionEdit := VersionEdit(None, None, None, None, [], {}, [])

  predicate GoodEdit(edit: VersionEdit) {
    && (forall p :: p in edit.deletedFiles ==> p.0 < NUM_LEVELS)
    && (forall p :: p in edit.newFiles ==> p.0 < NUM_LEVELS)
    && (forall p :: p in edit.compactPointers ==> p.0 < NUM_LEVELS)
  }

  /** BySmallestKey: smallest internal key, ties broken by file number. */
  predicate FileLess(a: File, b: File) {
    Less(a.smallest, b.smallest) || (a.smallest == b.smallest && a.number < b.number)
  }

  ghost predicate SortedFiles(files: seq<File>) {
    forall i, j :: 0 <= i < j < |files| ==> FileLess(files[i], files[j])
  }

  /** What the builder remembers about one level. */
  datatype LevelState = LevelState(deleted: set<nat>, added: seq<File>)

  const NOTHING: LevelState := LevelState({}, [])

  const NO_LEVEL_STATES: seq<LevelState> := [NOTHING, NOTHING, NOTHING, NOTHING, NOTHING, NOTHING, NOTHING]

  /** Insertion into the ordered set of added files. */
  function InsertFile(f: File, added: seq<File>): seq<File> {
    if added == [] then [f]
    else if FileLess(f, added[0]) then [f] + added
    else if FileLess(added[0], f) then [added[0]] + InsertFile(f, added[1..])
    else added
  }

  function DeletedAt(deletedFiles: set<(nat, nat)>, level: nat): set<nat> {
    set p | p in deletedFiles && p.0 == level :: p.1
  }

  function AddedAt(newFiles: seq<(nat, File)>, level: nat): seq<File> {
    if newFiles == [] then []
    else
      var n := |newFiles| - 1;
      AddedAt(newFiles[..n], level) + if newFiles[n].0 == level then [newFiles[n].1] else []
  }

  /** Adding files in order: each one un-deletes its own number. */
  function AddAll(ls: LevelState, files: seq<File>): LevelState {
    if files == [] then ls
    else
      var n := |files| - 1;
      var before := AddAll(ls, files[..n]);
      LevelState(before.deleted - {files[n].number}, InsertFile(files[n], before.added))
  }

  function ApplyLevel(ls: LevelState, edit: VersionEdit, level: nat): LevelState {
    AddAll(LevelState(ls.deleted + DeletedAt(edit.deletedFiles, level), ls.added), AddedAt(edit.newFiles, level))
  }

  // ----- saving -----

  function Merge(base: seq<File>, added: seq<File>): seq<File>
    decreases |base| + |added|
  {
    if added == [] then base
    else if base == [] then added
    else if FileLess(added[0], base[0]) then [added[0]] + Merge(base, added[1..])
    else [base[0]] + Merge(base[1..], added)
  }

  function Surviving(files: seq<File>, deleted: set<nat>): seq<File> {
    if files == [] then []
    else
      var n := |files| - 1;
      Surviving(files[..n], deleted) + if files[n].number in deleted then [] else [files[n]]
  }

  function SaveLevel(base: seq<File>, ls: LevelState): seq<File> {
    Surviving(Merge(base, ls.added), ls.deleted)
  }

  lemma {:induction false} SurvivingConcat(a: seq<File>, b: seq<File>, deleted: set<nat>)
    ensures Surviving(a + b, deleted) == Surviving(a, deleted) + Surviving(b, deleted)
  {
    if b == [] {
      assert a + b == a;
    } else {
      var n := |b| - 1;
      assert (a + b)[..|a + b| - 1] == a + b[..n];
      SurvivingConcat(a, b[..n], deleted);
    }
  }

  /** Merging step: base files at or before the next added file come first. */
  lemma {:induction false} MergePrefix(base: seq<File>, added: seq<File>, k: nat)
    requires k <= |base|
    requires added != [] ==> forall i :: 0 <= i < k ==> !FileLess(added[0], base[i])
    ensures Merge(base, added) == base[..k] + Merge(base[k..], added)
    decreases k
  {
    hide Merge, FileLess;
    MergeStep(base, added);
    MergeStep(base[k..], added);
    assert base[..k] + base[k..] == base;
    if k == 0 {
      assert base[k..] == base;
    } else if added != [] {
      MergePrefix(base[1..], added, k - 1);
      assert base[1..][..k - 1] == base[1..k] && base[1..][k - 1..] == base[k..];
      assert [base[0]] + (base[1..k] + Merge(base[k..], added)) == base[..k] + Merge(base[k..], added);
    }
  }

  lemma {:induction false} MergeStep(base: seq<File>, added: seq<File>)
    ensures added == [] ==> Merge(base, added) == base
    ensures added != [] && base != [] && !FileLess(added[0], base[0]) ==>
              Merge(base, added) == [base[0]] + Merge(base[1..], added)
  {
  }

  class Builder {
    const base: Version
    var levels: seq<LevelState>
    var compactPointers: map<nat, InternalKey>

    ghost predicate Valid()
      reads this
    {
      |levels| == NUM_LEVELS
    }

    constructor (base: Version, pointers: map<nat, InternalKey>)
      ensures Valid() && this.base == base && compactPointers == pointers
      ensures levels == NO_LEVEL_STATES
    {
      this.base := base;
      levels := NO_LEVEL_STATES;
      compactPointers := pointers;
    }

    /** Apply all of the edits in `edit` to the current state. */
    method Apply(edit: VersionEdit)
      requires Valid() && GoodEdit(edit)
      modifies this
      ensures Valid()
      ensures levels == ApplyLevels(old(levels), edit)
      ensures compactPointers == ApplyPointers(old(compactPointers), edit.compactPointers)
    {
      // Update compaction pointers
      for i := 0 to |edit.compactPointers|
        invariant levels == old(levels)
        invariant compactPointers == ApplyPointers(old(compactPointers), edit.compactPointers[..i])
      {
        assert edit.compactPointers[..i + 1][..i] == edit.compactPointers[..i];
        compactPointers := compactPointers[edit.compactPointers[i].0 := edit.compactPointers[i].1];
      }
      assert edit.compactPointers[..|edit.compactPointers|] == edit.compactPointers;
      DeleteAll(edit);
      AddNew(edit);
      assert levels == ApplyLevels(old(levels), edit);
    }

    method DeleteAll(edit: VersionEdit)
      requires Valid() && GoodEdit(edit)
      modifies this`levels
      ensures Valid()
      ensures forall l :: 0 <= l < NUM_LEVELS ==>
                levels[l] == LevelState(old(levels)[l].deleted + DeletedAt(edit.deletedFiles, l), old(levels)[l].added)
    {
      var pending := edit.deletedFiles;
      while pending != {}
        invariant pending <= edit.deletedFiles
        invariant Valid()
        invariant forall l :: 0 <= l < NUM_LEVELS ==>
                    levels[l] == LevelState(old(levels)[l].deleted + DeletedAt(edit.deletedFiles - pending, l),
                                            old(levels)[l].added)
        decreases pending
      {
        var p :| p in pending;
        var (level, number) := p;
        ghost var done := edit.deletedFiles - pending;
        pending := pending - {p};
        assert edit.deletedFiles - pending == done + {p};
        forall l {
          DeletedAtInsert(done, p, l);
        }
        levels := levels[level := levels[level].(deleted := levels[level].deleted + {number})];
      }
      assert edit.deletedFiles - pending == edit.deletedFiles;
    }

    method AddNew(edit: VersionEdit)
      requires Valid() && GoodEdit(edit)
      modifies this`levels
      ensures Valid()
      ensures forall l :: 0 <= l < NUM_LEVELS ==> levels[l] == AddAll(old(levels)[l], AddedAt(edit.newFiles, l))
    {
      for i := 0 to |edit.newFiles|
        invariant Valid()
        invariant forall l :: 0 <= l < NUM_LEVELS ==>
                    levels[l] == AddAll(old(levels)[l], AddedAt(edit.newFiles[..i], l))
      {
        var (level, f) := edit.newFiles[i];
        assert edit.newFiles[i] in edit.newFiles;
        AddedAtSnoc(edit.newFiles, i);
        levels := levels[level := LevelState(levels[level].deleted - {f.number}, InsertFile(f, levels[level].added))];
      }
      assert edit.newFiles[..|edit.newFiles|] == edit.newFiles;
    }

    /** Save the current state: the added files merged into the pre-existing ones, deletions dropped. */
    method SaveTo() returns (v: Version)
      requires Valid()
      ensures v == SaveLevels(base, levels)
    {
      var files: seq<seq<File>> := [];
      for level := 0 to NUM_LEVELS
        invariant |files| == level
        invariant forall l :: 0 <= l < level ==> files[l] == SaveLevel(base[l], levels[l])
      {
        var out := SaveOneLevel(base[level], levels[level]);
        files := files + [out];
      }
      v := files;
    }
  }

  lemma {:induction false} DeletedAtInsert(done: set<(nat, nat)>, p: (nat, nat), l: nat)
    ensures DeletedAt(done + {p}, l) == DeletedAt(done, l) + if l == p.0 then {p.1} else {}
  {
    if l == p.0 {
      assert p in done + {p};
    }
  }

  lemma {:induction false} AddedAtSnoc(newFiles: seq<(nat, File)>, i: nat)
    requires i < |newFiles|
    ensures forall l, ls :: AddAll(ls, AddedAt(newFiles[..i + 1], l)) ==
              (var before := AddAll(ls, AddedAt(newFiles[..i], l));
               if l == newFiles[i].0
               then LevelState(before.deleted - {newFiles[i].1.number}, InsertFile(newFiles[i].1, before.added))
               else before)
  {
    assert newFiles[..i + 1][..i] == newFiles[..i];
    forall l, ls
      ensures AddAll(ls, AddedAt(newFiles[..i + 1], l)) ==
              (var before := AddAll(ls, AddedAt(newFiles[..i], l));
               if l == newFiles[i].0
               then LevelState(before.deleted - {newFiles[i].1.number}, InsertFile(newFiles[i].1, before.added))
               else before)
    {
      var was := AddedAt(newFiles[..i], l);
      assert AddedAt(newFiles[..i + 1], l) == was + if newFiles[i].0 == l then [newFiles[i].1] else [];
      if newFiles[i].0 == l {
        assert (was + [newFiles[i].1])[..|was|] == was;
      } else {
        assert was + [] == was;
      }
    }
  }

  /** MaybeAddFile over a stretch of base files. */
  method CopySurvivors(out: seq<File>, base: seq<File>, from: nat, to: nat, deleted: set<nat>) returns (out2: seq<File>)
    requires from <= to <= |base|
    ensures out2 == out + Surviving(base[from..to], deleted)
  {
    out2 := out;
    for b := from to to
      invariant out2 == out + Surviving(base[from..b], deleted)
    {
      assert base[from..b + 1][..b - from] == base[from..b];
      if base[b].number !in deleted {
        out2 := out2 + [base[b]];
      }
    }
  }

  /** The first base file at or after `b` that comes after `next`. */
  method UpperBound(base: seq<File>, b: nat, next: File) returns (pos: nat)
    requires b <= |base|
    ensures b <= pos <= |base|
    ensures forall i :: b <= i < pos ==> !FileLess(next, base[i])
    ensures pos < |base| ==> FileLess(next, base[pos])
  {
    pos := b;
    while pos < |base| && !FileLess(next, base[pos])
      invariant b <= pos <= |base|
      invariant forall i :: b <= i < pos ==> !FileLess(next, base[i])
    {
      pos := pos + 1;
    }
  }

  /** What is left to be written once the files before `b` and `a` are done. */
  ghost function Remaining(base: seq<File>, ls: LevelState, b: nat, a: nat): seq<File>
    requires b <= |base| && a <= |ls.added|
  {
    Surviving(Merge(base[b..], ls.added[a..]), ls.deleted)
  }

  lemma {:induction false} AllDone(base: seq<File>, ls: LevelState)
    ensures forall b :: 0 <= b <= |base| ==> Remaining(base, ls, b, |ls.added|) == Surviving(base[b..], ls.deleted)
    ensures Remaining(base, ls, 0, 0) == SaveLevel(base, ls)
  {
    assert ls.added[|ls.added|..] == [] && base[0..] == base && ls.added[0..] == ls.added;
  }

  method SaveOneLevel(base: seq<File>, ls: LevelState) returns (out: seq<File>)
    ensures out == SaveLevel(base, ls)
  {
    hide FileLess, Surviving, Merge;
    AllDone(base, ls);
    out := [];
    var b := 0;
    assert base[0..] == base && ls.added[0..] == ls.added;
    for a := 0 to |ls.added|
      invariant 0 <= b <= |base|
      invariant out + Remaining(base, ls, b, a) == SaveLevel(base, ls)
    {
      var next := ls.added[a];
      var bpos := UpperBound(base, b, next);
      AddedTurn(base, ls, b, bpos, a);
      ghost var before := out;
      out := CopySurvivors(out, base, b, bpos, ls.deleted);
      if next.number !in ls.deleted {
        out := out + [next];
      }
      assert out + Remaining(base, ls, bpos, a + 1) == before + Remaining(base, ls, b, a);
      b := bpos;
    }
    assert ls.added[|ls.added|..] == [];
    assert base[b..|base|] == base[b..];
    out := CopySurvivors(out, base, b, |base|, ls.deleted);
  }

  lemma {:induction false} SurvivingOne(f: File, deleted: set<nat>)
    ensures Surviving([f], deleted) == if f.number in deleted then [] else [f]
  {
    assert [f][..0] == [];
  }

  /** What one added file contributes: the base files before it, then itself. */
  lemma {:induction false} OneTurn(before: seq<File>, tail: seq<File>, next: File, rest: seq<File>, deleted: set<nat>)
    requires forall i :: 0 <= i < |before| ==> !FileLess(next, before[i])
    requires tail != [] ==> FileLess(next, tail[0])
    ensures Surviving(Merge(before + tail, [next] + rest), deleted)
         == Surviving(before, deleted) + (Surviving([next], deleted) + Surviving(Merge(tail, rest), deleted))
  {
    MergePrefix(before + tail, [next] + rest, |before|);
    assert (before + tail)[..|before|] == before && (before + tail)[|before|..] == tail;
    assert Merge(tail, [next] + rest) == [next] + Merge(tail, rest) by {
      assert ([next] + rest)[1..] == rest;
    }
    SurvivingConcat(before, [next] + Merge(tail, rest), deleted);
    SurvivingConcat([next], Merge(tail, rest), deleted);
  }

  lemma {:induction false} AddedTurn(base: seq<File>, ls: LevelState, b: nat, bpos: nat, a: nat)
    requires b <= bpos <= |base| && a < |ls.added|
    requires forall i :: b <= i < bpos ==> !FileLess(ls.added[a], base[i])
    requires bpos < |base| ==> FileLess(ls.added[a], base[bpos])
    ensures Remaining(base, ls, b, a)
         == Surviving(base[b..bpos], ls.deleted)
            + ((if ls.added[a].number in ls.deleted then [] else [ls.added[a]]) + Remaining(base, ls, bpos, a + 1))
  {
    hide Merge, Surviving, FileLess;
    OneTurn(base[b..bpos], base[bpos..], ls.added[a], ls.added[a + 1..], ls.deleted);
    assert base[b..bpos] + base[bpos..] == base[b..];
    assert [ls.added[a]] + ls.added[a + 1..] == ls.added[a..];
    SurvivingOne(ls.added[a], ls.deleted);
  }

  function ApplyPointers(m: map<nat, InternalKey>, ps: seq<(nat, InternalKey)>): map<nat, InternalKey> {
    if ps == [] then m
    else
      var n := |ps| - 1;
      ApplyPointers(m, ps[..n])[ps[n].0 := ps[n].1]
  }

  function ApplyLevels(levels: seq<LevelState>, edit: VersionEdit): seq<LevelState>
    requires |levels| == NUM_LEVELS
  {
    seq(NUM_LEVELS, l requires 0 <= l < NUM_LEVELS => ApplyLevel(levels[l], edit, l))
  }

  function SaveLevels(base: Version, levels: seq<LevelState>): Version
    requires |levels| == NUM_LEVELS
  {
    seq(NUM_LEVELS, l requires 0 <= l < NUM_LEVELS => SaveLevel(base[l], levels[l]))
  }

  /** One edit applied to a version and saved. */
  function ApplyEdit(v: Version, edit: VersionEdit): Version {
    SaveLevels(v, ApplyLevels(NO_LEVEL_STATES, edit))
  }
}
