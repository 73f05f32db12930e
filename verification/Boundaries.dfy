// Where the files a compaction leaves behind share a user key with its inputs, and exactly when
// a move or a compaction keeps newer data above older data all the same.

module Boundaries {
  import opened Keys
  import opened Levels
  import opened Overlaps
  import opened Compactions
  import opened VersionBuilder
  import opened Manifest
  import opened LevelEdits

  /** The files left behind at the compaction's two levels have no older data for a user key an
      input ends in.  Only a right-hand neighbour can. */
  ghost predicate NoStraddle(files: seq<File>, inputs: seq<File>) {
    forall i :: 0 <= i < |files| - 1 && files[i] in inputs && files[i + 1] !in inputs ==>
      files[i].largest.user != files[i + 1].smallest.user
  }

  /** The last user key of an input is the first of a file left behind right after it. */
  ghost predicate Straddled(files: seq<File>, inputs: seq<File>, u: UserKey) {
    exists i :: 0 <= i < |files| - 1 && files[i] in inputs && files[i + 1] !in inputs
                && files[i].largest.user == u && files[i + 1].smallest.user == u
  }

  /** Every file left behind is newer than every input for the user keys they share. */
  ghost predicate LeftBehindNewer(files: seq<File>, inputs: seq<File>) {
    forall g, f :: g in files && g !in inputs && f in inputs ==> NewerFile(g, f)
  }

  /** In a sorted level, the boundary test is exactly what keeps the files left behind newer. */
  lemma {:induction false} NoStraddleIffNewer(files: seq<File>, inputs: seq<File>)
    requires GoodFiles(files) && DisjointSorted(files) && UniqueSequences(FilesEntries(files))
    requires forall f :: f in inputs ==> f in files
    ensures NoStraddle(files, inputs) <==> LeftBehindNewer(files, inputs)
  {
    if NoStraddle(files, inputs) { NoStraddleIsNewer(files, inputs); }
    if LeftBehindNewer(files, inputs) { NewerIsNoStraddle(files, inputs); }
  }

  lemma {:induction false} NoStraddleIsNewer(files: seq<File>, inputs: seq<File>)
    requires GoodFiles(files) && DisjointSorted(files) && UniqueSequences(FilesEntries(files))
    requires forall f :: f in inputs ==> f in files
    requires NoStraddle(files, inputs)
    ensures LeftBehindNewer(files, inputs)
  {
    hide GoodFiles, DisjointSorted, UniqueSequences, FilesEntries;
    forall g, f, x, y | g in files && g !in inputs && f in inputs && x in g.entries && y in f.entries
                        && x.key.user == y.key.user
      ensures x.key.sequence > y.key.sequence
    {
      LeftBehindOrStraddled(files, inputs, g, f, x, y);
    }
  }

  lemma {:induction false} NewerIsNoStraddle(files: seq<File>, inputs: seq<File>)
    requires GoodFiles(files) && DisjointSorted(files)
    requires LeftBehindNewer(files, inputs)
    ensures NoStraddle(files, inputs)
  {
    forall i | 0 <= i < |files| - 1 && files[i] in inputs && files[i + 1] !in inputs
      ensures files[i].largest.user != files[i + 1].smallest.user
    {
      var f, g := files[i], files[i + 1];
      assert NewerFile(g, f) && Less(f.largest, g.smallest);
      assert g.entries[0] in g.entries && f.entries[|f.entries| - 1] in f.entries;
    }
  }

  lemma {:induction false} EarlierFileIsNewer(files: seq<File>, j: nat, i: nat)
    requires GoodFiles(files) && DisjointSorted(files) && UniqueSequences(FilesEntries(files))
    requires j < i < |files|
    ensures NewerFile(files[j], files[i])
  {
    forall x, y | x in files[j].entries && y in files[i].entries && x.key.user == y.key.user
      ensures x.key.sequence > y.key.sequence
    {
      assert InLevel(files, x) && InLevel(files, y) by {
        assert files[i] in files && files[j] in files;
      }
      EntryBounds(files[j], x);
      EntryBounds(files[i], y);
      assert Less(files[j].largest, files[i].smallest);
    }
  }

  /** From an input to a left-behind file on its right: they share a user key only if the boundary
      somewhere in between is straddled by it. */
  lemma {:induction false} StraddleChain(files: seq<File>, inputs: seq<File>, i: nat, j: nat)
    requires GoodFiles(files) && DisjointSorted(files)
    requires i < j < |files| && files[i] in inputs && files[j] !in inputs
    ensures files[i].largest.user < files[j].smallest.user
            || (files[i].largest.user == files[j].smallest.user && Straddled(files, inputs, files[i].largest.user))
    decreases j - i
  {
    FileBounds(files[i + 1], |files[i + 1].entries| - 1);
    assert Less(files[i].largest, files[i + 1].smallest);
    if files[i + 1] in inputs {
      StraddleChain(files, inputs, i + 1, j);
    } else if i + 1 < j {
      assert Less(files[i + 1].largest, files[j].smallest);
    }
  }

  /** Of a user key that an input shares with a file left behind, the file has the newer entries, or the
      key straddles a boundary of the inputs. */
  lemma {:induction false} LeftBehindOrStraddled(files: seq<File>, inputs: seq<File>, g: File, f: File, x: Entry, y: Entry)
    requires GoodFiles(files) && DisjointSorted(files) && UniqueSequences(FilesEntries(files))
    requires g in files && g !in inputs && f in files && f in inputs
    requires x in g.entries && y in f.entries && x.key.user == y.key.user
    ensures x.key.sequence > y.key.sequence || Straddled(files, inputs, y.key.user)
  {
    hide GoodFiles, DisjointSorted, UniqueSequences, FilesEntries, Straddled;
    var i :| 0 <= i < |files| && files[i] == f;
    var j :| 0 <= j < |files| && files[j] == g;
    GoodMember(files, f);
    GoodMember(files, g);
    EntryBounds(f, y);
    EntryBounds(g, x);
    if j < i {
      EarlierFileIsNewer(files, j, i);
    } else {
      StraddleChain(files, inputs, i, j);
    }
  }

  // ----- exactly when an install keeps newer data above older -----

  lemma {:induction false} InstalledOrder(v: Version, w: Version, c: Inputs, outputs: seq<File>)
    requires InstallStep(v, w, c, outputs) && NewerAbove(v)
    requires forall g, o :: g in v[c.level] && g !in c.upper && o in outputs ==> NewerFile(g, o)
    ensures NewerAbove(w)
  {
    hide NewerFile, Shape, SortedVersion, GlobalNumbers, GoodFiles, DisjointSorted, LowerMatches, FromInputs, OutputNumbers;
    NewerAboveByFile(v);
    LowerMembers(v, c);
    forall i, j, g, h | 0 <= i < j < NUM_LEVELS && g in w[i] && h in w[j]
      ensures NewerFile(g, h)
    {
      if g in v[i] && h in v[j] {
      } else if h in v[j] {
        assert i == c.level + 1 && g in outputs;
        OutputNewer(c, outputs, g, h);
      } else {
        assert j == c.level + 1 && h in outputs && g in v[i];
        if i < c.level { OutputOlder(c, outputs, h, g); }
      }
    }
    assert forall g :: g in w[0] ==> g in v[0];
    NewerAboveByFile(w);
  }

  lemma {:induction false} LevelUnique(v: Version, l: nat)
    requires UniqueSequences(VersionEntries(v)) && l < NUM_LEVELS
    ensures UniqueSequences(FilesEntries(v[l]))
  {
    assert forall e :: e in FilesEntries(v[l]) ==> e in VersionEntries(v);
  }

  /** A file of the input level that is left behind, and an upper input: at level 0 they share no user key,
      further down the file is newer unless the key straddles a boundary. */
  lemma {:induction false} LeftBehindUpper(v: Version, c: Inputs, g: File, f: File, x: Entry, y: Entry)
    requires Shape(v) && InputsClosed(v, c) && UniqueSequences(VersionEntries(v))
    requires g in v[c.level] && g !in c.upper && f in c.upper
    requires x in g.entries && y in f.entries && x.key.user == y.key.user
    ensures x.key.sequence > y.key.sequence || (c.level > 0 && Straddled(v[c.level], c.upper, y.key.user))
  {
    hide UniqueSequences, VersionEntries, LowerMatches, Straddled;
    GoodMember(v[c.level], f);
    GoodMember(v[c.level], g);
    if c.level == 0 {
      assert !Touches(g, Some(f.smallest.user), Some(f.largest.user));
      ApartShareNothing(g, f);
    } else {
      LevelUnique(v, c.level);
      LeftBehindOrStraddled(v[c.level], c.upper, g, f, x, y);
    }
  }

  /** What a compaction writes: everything its drop rule spares, and nothing else. */
  ghost predicate Writes(v: Version, c: Inputs, ss: SequenceNumber, input: seq<Entry>, outputs: seq<File>) {
    && Sorted(input)
    && Elements(input) == FilesEntries(c.upper) + FilesEntries(c.lower)
    && FilesEntries(outputs) == Elements(Kept(v, c.level, input, ss, |input|))
  }

  /** Of every user key that straddles the upper boundary, nothing survives. */
  ghost predicate OrderSafe(v: Version, c: Inputs, ss: SequenceNumber, input: seq<Entry>)
    requires c.level < NUM_LEVELS
  {
    c.level > 0 ==> forall u :: Straddled(v[c.level], c.upper, u) ==> LeavesNothing(v, c.level, input, ss, u)
  }

  /** Installing a compaction keeps newer data above older if and only if, of each user key shared by an
      input's end and the start of the file left behind after it, the newest input entry is a deletion
      that the drop rule takes for obsolete. */
  lemma {:induction false} InstallIsGoodIff(v: Version, c: Inputs, ss: SequenceNumber, input: seq<Entry>, outputs: seq<File>)
    requires GoodVersion(v) && InputsClosed(v, c) && UniqueSequences(VersionEntries(v))
    requires GoodFiles(outputs) && DisjointSorted(outputs) && FromInputs(c, outputs) && OutputNumbers(v, c, outputs)
    requires Writes(v, c, ss, input, outputs)
    ensures GoodVersion(ApplyEdit(v, InstallEdit(c, outputs))) <==> OrderSafe(v, c, ss, input)
  {
    hide ApplyEdit, WellFormed, GoodFiles, DisjointSorted, FromInputs, OutputNumbers, InputsClosed, Writes, UniqueSequences,
      VersionEntries, NewerAbove, Installed, NewerFile, OrderSafe;
    var w := ApplyEdit(v, InstallEdit(c, outputs));
    InstallKeepsWellFormed(v, c, outputs);
    InstalledStep(v, w, c, outputs);
    if OrderSafe(v, c, ss, input) {
      forall g, o | g in v[c.level] && g !in c.upper && o in outputs
        ensures NewerFile(g, o)
      {
        LeftBehindOutput(v, c, ss, input, outputs, g, o);
      }
      InstalledOrder(v, w, c, outputs);
    }
    if GoodVersion(w) {
      GoodIsSafe(v, w, c, ss, input, outputs);
    }
  }

  lemma {:induction false} InstalledStep(v: Version, w: Version, c: Inputs, outputs: seq<File>)
    requires WellFormed(v) && InputsClosed(v, c)
    requires GoodFiles(outputs) && DisjointSorted(outputs) && FromInputs(c, outputs) && OutputNumbers(v, c, outputs)
    requires c.level + 1 < NUM_LEVELS ==> Installed(v, w, c, outputs)
    requires WellFormed(w)
    ensures c.level + 1 < NUM_LEVELS && Shape(v) && InstallStep(v, w, c, outputs)
  {
  }

  /** A file left behind is newer than the outputs where nothing of a straddling key survives. */
  lemma {:induction false} LeftBehindOutput(v: Version, c: Inputs, ss: SequenceNumber, input: seq<Entry>, outputs: seq<File>,
                                            g: File, o: File)
    requires Shape(v) && NewerAbove(v) && InputsClosed(v, c) && UniqueSequences(VersionEntries(v))
    requires Writes(v, c, ss, input, outputs) && OrderSafe(v, c, ss, input)
    requires g in v[c.level] && g !in c.upper && o in outputs
    ensures NewerFile(g, o)
  {
    hide Shape, NewerAbove, InputsClosed, UniqueSequences, VersionEntries, Straddled, LeavesNothing, Kept, Sorted;
    forall x, y | x in g.entries && y in o.entries && x.key.user == y.key.user
      ensures x.key.sequence > y.key.sequence
    {
      assert InLevel(outputs, y);
      var kept := Kept(v, c.level, input, ss, |input|);
      assert y in Elements(kept);
      KeptMembers(v, c.level, input, ss, |input|);
      var i :| 0 <= i < |input| && input[i] == y;
      assert y in Elements(input);
      if InLevel(c.upper, y) {
        var f :| f in c.upper && y in f.entries;
        LeftBehindUpper(v, c, g, f, x, y);
        LeavesNothingIff(v, c.level, input, ss, y.key.user, i);
      } else {
        var f :| f in c.lower && y in f.entries;
        AboveLower(v, c, g, f);
      }
    }
  }

  lemma {:induction false} AboveLower(v: Version, c: Inputs, g: File, f: File)
    requires Shape(v) && NewerAbove(v) && InputsClosed(v, c)
    requires g in v[c.level] && f in c.lower
    ensures NewerFile(g, f)
  {
    hide Shape, LowerMatches, NewerFile;
    LowerIsMember(v, c);
    NewerAboveByFile(v);
  }

  lemma {:induction false} GoodIsSafe(v: Version, w: Version, c: Inputs, ss: SequenceNumber, input: seq<Entry>, outputs: seq<File>)
    requires Shape(v) && InputsClosed(v, c) && UniqueSequences(VersionEntries(v))
    requires Installed(v, w, c, outputs) && NewerAbove(w) && Writes(v, c, ss, input, outputs)
    ensures OrderSafe(v, c, ss, input)
  {
    hide Shape, NewerAbove, UpperClosed, LowerMatches, UniqueSequences, VersionEntries, LeavesNothing, Kept, Sorted, Installed, Writes;
    if c.level > 0 {
      NewerAboveByFile(w);
      forall u | Straddled(v[c.level], c.upper, u)
        ensures LeavesNothing(v, c.level, input, ss, u)
      {
        var i :| 0 <= i < |v[c.level]| - 1 && v[c.level][i] in c.upper && v[c.level][i + 1] !in c.upper
                 && v[c.level][i].largest.user == u && v[c.level][i + 1].smallest.user == u;
        LevelUnique(v, c.level);
        LevelIsGood(v, c.level);
        StraddledIsDropped(v, w, c, ss, input, outputs, i);
      }
    }
  }

  lemma {:induction false} LevelIsGood(v: Version, l: nat)
    requires Shape(v) && 0 < l < NUM_LEVELS
    ensures GoodFiles(v[l]) && DisjointSorted(v[l])
  {
  }

  lemma {:induction false} StraddledIsDropped(v: Version, w: Version, c: Inputs, ss: SequenceNumber, input: seq<Entry>,
                                              outputs: seq<File>, i: nat)
    requires c.level + 1 < NUM_LEVELS && i < |v[c.level]| - 1
    requires GoodFiles(v[c.level]) && DisjointSorted(v[c.level]) && UniqueSequences(FilesEntries(v[c.level]))
    requires Installed(v, w, c, outputs) && FilesNewerAbove(w) && Writes(v, c, ss, input, outputs)
    requires v[c.level][i] in c.upper && v[c.level][i + 1] !in c.upper
    requires v[c.level][i].largest.user == v[c.level][i + 1].smallest.user
    ensures LeavesNothing(v, c.level, input, ss, v[c.level][i].largest.user)
  {
    hide GoodFiles, DisjointSorted, UniqueSequences, LeavesNothing, Kept, FilesNewerAbove, Installed, Sorted, FirstOf, Elements;
    var e, x := BoundaryEntries(v[c.level], i);
    assert InLevel(c.upper, e);
    var n := NewestInput(input, e);
    if !LeavesNothing(v, c.level, input, ss, e.key.user) {
      NewestSurvives(v, c.level, input, ss, e.key.user, n);
      var o := OutputOf(outputs, input[n]);
      LeftAbove(v, w, c, outputs, v[c.level][i + 1], o);
      OlderThan(v[c.level][i + 1], o, x, input[n]);
    }
  }

  lemma {:induction false} OlderThan(g: File, o: File, x: Entry, y: Entry)
    requires NewerFile(g, o) && x in g.entries && y in o.entries && x.key.user == y.key.user
    ensures x.key.sequence > y.key.sequence
  {
  }

  /** The first input entry of a user key is its newest. */
  lemma {:induction false} NewestInput(input: seq<Entry>, e: Entry) returns (n: nat)
    requires Sorted(input) && e in Elements(input)
    ensures FirstOf(input, e.key.user, n) && input[n].key.sequence >= e.key.sequence
  {
    var k :| 0 <= k < |input| && input[k] == e;
    n := FindFirst(input, e.key.user, k);
    assert n < k ==> Less(input[n].key, input[k].key);
  }

  /** Where a user key straddles two neighbouring files, the first file has newer entries of it. */
  lemma {:induction false} BoundaryEntries(files: seq<File>, i: nat) returns (e: Entry, x: Entry)
    requires GoodFiles(files) && DisjointSorted(files) && UniqueSequences(FilesEntries(files))
    requires i < |files| - 1 && files[i].largest.user == files[i + 1].smallest.user
    ensures e in files[i].entries && x in files[i + 1].entries
    ensures e.key.user == x.key.user == files[i].largest.user && e.key.sequence > x.key.sequence
  {
    hide DisjointSorted, UniqueSequences, FilesEntries;
    e, x := files[i].entries[|files[i].entries| - 1], files[i + 1].entries[0];
    EarlierFileIsNewer(files, i, i + 1);
    assert e in files[i].entries && x in files[i + 1].entries;
  }

  lemma {:induction false} LeftAbove(v: Version, w: Version, c: Inputs, outputs: seq<File>, g: File, o: File)
    requires c.level + 1 < NUM_LEVELS && Installed(v, w, c, outputs) && FilesNewerAbove(w)
    requires g in v[c.level] && g !in c.upper && o in outputs
    ensures NewerFile(g, o)
  {
    hide NewerFile;
    assert g in w[c.level] && o in w[c.level + 1];
  }

  lemma {:induction false} OutputOf(outputs: seq<File>, e: Entry) returns (o: File)
    requires e in FilesEntries(outputs)
    ensures o in outputs && e in o.entries
  {
    o :| o in outputs && e in o.entries;
  }

  /** The newest input entry of a user key is written unless it is an obsolete deletion. */
  lemma {:induction false} NewestSurvives(v: Version, level: nat, input: seq<Entry>, ss: SequenceNumber, u: UserKey, n: nat)
    requires FirstOf(input, u, n) && !LeavesNothing(v, level, input, ss, u)
    ensures input[n].key.user == u && input[n] in Elements(Kept(v, level, input, ss, |input|))
  {
    hide ObsoleteDeletion, Kept;
    KeptMembers(v, level, input, ss, |input|);
    assert !Dropped(v, level, input, ss, n);
  }

  // ----- exactly when a trivial move is safe -----

  /** Moving one file down keeps the version good if and only if the next file of its level does not
      start with the user key the moved file ends with (level 0 is always safe). */
  lemma {:induction false} MoveIsSafeIff(v: Version, c: Inputs)
    requires GoodVersion(v) && InputsClosed(v, c) && UniqueSequences(VersionEntries(v))
    requires |c.upper| == 1 && c.lower == []
    ensures GoodVersion(ApplyEdit(v, MoveEdit(c))) <==> c.level == 0 || NoStraddle(v[c.level], c.upper)
  {
    hide ApplyEdit, WellFormed, InputsClosed, UniqueSequences, VersionEntries, NewerAbove, Installed, NewerFile, NoStraddle,
      GoodFiles, DisjointSorted, FromInputs, OutputNumbers;
    var w := ApplyEdit(v, MoveEdit(c));
    MoveIsInstall(c);
    MovedFileFits(v, c);
    InstallKeepsWellFormed(v, c, c.upper);
    InstalledStep(v, w, c, c.upper);
    if c.level == 0 || NoStraddle(v[c.level], c.upper) {
      LeftBehind(v, c);
      InstalledOrder(v, w, c, c.upper);
    }
    if GoodVersion(w) && c.level > 0 {
      GoodAfterMove(v, w, c);
    }
  }

  lemma {:induction false} LeftBehind(v: Version, c: Inputs)
    requires Shape(v) && InputsClosed(v, c) && UniqueSequences(VersionEntries(v))
    requires c.level > 0 ==> NoStraddle(v[c.level], c.upper)
    ensures LeftBehindNewer(v[c.level], c.upper)
  {
    hide Shape, UpperClosed, LowerMatches, UniqueSequences, VersionEntries;
    forall g, f, x, y | g in v[c.level] && g !in c.upper && f in c.upper && x in g.entries && y in f.entries
                        && x.key.user == y.key.user
      ensures x.key.sequence > y.key.sequence
    {
      LeftBehindUpper(v, c, g, f, x, y);
    }
  }

  lemma {:induction false} GoodAfterMove(v: Version, w: Version, c: Inputs)
    requires Shape(v) && InputsClosed(v, c) && c.level > 0
    requires Installed(v, w, c, c.upper) && NewerAbove(w)
    ensures NoStraddle(v[c.level], c.upper)
  {
    NewerAboveByFile(w);
    forall g, f | g in v[c.level] && g !in c.upper && f in c.upper
      ensures NewerFile(g, f)
    {
      assert g in w[c.level] && f in w[c.level + 1];
    }
    NewerIsNoStraddle(v[c.level], c.upper);
  }
}
