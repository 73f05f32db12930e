// The compaction work loop: which entries it drops, how it cuts its output, and
// why no reader can tell the difference.

module Compactions {
  import opened Keys
  import opened Levels
  import opened Overlaps

  /** No file two or more levels below `level` covers `u`. */
  ghost predicate IsBaseLevel(v: Version, level: nat, u: UserKey) {
    forall l, f :: level + 2 <= l < NUM_LEVELS && f in v[l] ==> !(f.smallest.user <= u <= f.largest.user)
  }

  // ----- the grandparent cursor -----

  /** How far the grandparent files have been passed, and how many bytes of them the open output overlaps. */
  datatype Cursor = Cursor(index: nat, seen: bool, bytes: nat)

  /** The first file from `i` on that does not end before the key. */
  function FirstNotBefore(files: seq<File>, i: nat, key: InternalKey): (j: nat)
    requires i <= |files|
    ensures i <= j <= |files|
    ensures forall k :: i <= k < j ==> Less(files[k].largest, key)
    ensures j < |files| ==> !Less(files[j].largest, key)
    decreases |files| - i
  {
    if i < |files| && Less(files[i].largest, key) then FirstNotBefore(files, i + 1, key) else i
  }

  /** The bytes overlapped up to a key: those of the files passed since the first key of the output count. */
  function Overlapped(files: seq<File>, cur: Cursor, key: InternalKey): nat
    requires cur.index <= |files|
  {
    cur.bytes + if cur.seen then TotalFileSize(files[cur.index..FirstNotBefore(files, cur.index, key)]) else 0
  }

  /** An output stops before a key that would make it overlap too many bytes. */
  predicate Stops(files: seq<File>, maxFileSize: nat, cur: Cursor, key: InternalKey)
    requires cur.index <= |files|
  {
    Overlapped(files, cur, key) > 10 * maxFileSize
  }

  function Advance(files: seq<File>, maxFileSize: nat, cur: Cursor, key: InternalKey): (next: Cursor)
    requires cur.index <= |files|
    ensures next.index <= |files|
  {
    Cursor(FirstNotBefore(files, cur.index, key), true,
           if Stops(files, maxFileSize, cur, key) then 0 else Overlapped(files, cur, key))
  }

  lemma {:induction false} SizeSnoc(files: seq<File>, f: File)
    ensures TotalFileSize(files + [f]) == TotalFileSize(files) + f.size
  {
    if files == [] {
      assert [f][1..] == [];
    } else {
      assert (files + [f])[1..] == files[1..] + [f];
      SizeSnoc(files[1..], f);
    }
  }

  lemma {:induction false} SizeNext(files: seq<File>, start: nat, i: nat)
    requires start <= i < |files|
    ensures TotalFileSize(files[start..i + 1]) == TotalFileSize(files[start..i]) + files[i].size
  {
    var before, after := files[start..i], files[start..i + 1];
    assert after[..|after| - 1] == before && after[|after| - 1] == files[i];
    assert after == before + [files[i]];
    SizeSnoc(before, files[i]);
  }

  class Compaction {
    const level: nat
    const inputVersion: Version
    const grandparents: seq<File>
    const maxFileSize: nat

    const levelPtrs: array<nat>
    var grandparentIndex: nat
    var seenKey: bool
    var overlappedBytes: nat

    // The largest user key the cursors have been asked about so far.
    ghost var asked: Option<UserKey>

    /** Every file a cursor has passed ends before the last key asked about. */
    ghost predicate CursorsValid()
      reads this`asked, levelPtrs
    {
      && levelPtrs.Length == NUM_LEVELS
      && Shape(inputVersion)
      && (forall l :: level + 2 <= l < NUM_LEVELS ==> levelPtrs[l] <= |inputVersion[l]|)
      && (forall l, i :: level + 2 <= l < NUM_LEVELS && 0 <= i < levelPtrs[l] ==>
            asked.Some? && inputVersion[l][i].largest.user < asked.value)
    }

    ghost predicate Valid()
      reads this, levelPtrs
    {
      CursorsValid() && grandparentIndex <= |grandparents|
    }

    ghost function Position(): Cursor
      reads this
    {
      Cursor(grandparentIndex, seenKey, overlappedBytes)
    }

    constructor (level: nat, inputVersion: Version, grandparents: seq<File>, maxFileSize: nat)
      requires Shape(inputVersion)
      ensures Valid() && fresh(levelPtrs)
      ensures this.level == level && this.inputVersion == inputVersion && this.maxFileSize == maxFileSize
      ensures this.grandparents == grandparents && asked == None && Position() == Cursor(0, false, 0)
    {
      this.level, this.inputVersion, this.grandparents := level, inputVersion, grandparents;
      this.maxFileSize := maxFileSize;
      levelPtrs := new nat[NUM_LEVELS](_ => 0);
      grandparentIndex, seenKey, overlappedBytes := 0, false, 0;
      asked := None;
    }

    /** The per-level cursors only move forward, yet over any nondecreasing run of questions the
        answer is exact. */
    method IsBaseLevelForKey(u: UserKey) returns (r: bool)
      requires Valid()
      requires asked.Some? ==> asked.value <= u
      modifies levelPtrs, this`asked
      ensures Valid() && asked == Some(u)
      ensures r <==> IsBaseLevel(inputVersion, level, u)
    {
      hide GoodFiles, DisjointSorted;
      asked := Some(u);
      var lvl := level + 2;
      while lvl < NUM_LEVELS
        invariant level + 2 <= lvl
        invariant Valid() && asked == Some(u)
        invariant forall l, f :: level + 2 <= l < lvl && l < NUM_LEVELS && f in inputVersion[l] ==>
                    !(f.smallest.user <= u <= f.largest.user)
        decreases NUM_LEVELS - lvl
      {
        var files := inputVersion[lvl];
        while levelPtrs[lvl] < |files| && u > files[levelPtrs[lvl]].largest.user
          invariant Valid() && asked == Some(u)
          decreases |files| - levelPtrs[lvl]
        {
          levelPtrs[lvl] := levelPtrs[lvl] + 1;
        }
        if levelPtrs[lvl] < |files| {
          var f := files[levelPtrs[lvl]];
          if u >= f.smallest.user {
            assert f in inputVersion[lvl];
            return false;
          }
          LaterFilesStartLater(files, levelPtrs[lvl], u);
        }
        lvl := lvl + 1;
      }
      r := true;
    }

    /** Whether the current output should be closed before `key`, because it already overlaps too
        many grandparent bytes. */
    method ShouldStopBefore(key: InternalKey) returns (stop: bool)
      requires Valid()
      modifies this`grandparentIndex, this`seenKey, this`overlappedBytes
      ensures Valid()
      ensures Position() == Advance(grandparents, maxFileSize, old(Position()), key)
      ensures stop == Stops(grandparents, maxFileSize, old(Position()), key)
    {
      hide CursorsValid, Less;
      ghost var start := grandparentIndex;
      ghost var end := FirstNotBefore(grandparents, start, key);
      while grandparentIndex < |grandparents| && Compare(key, grandparents[grandparentIndex].largest) > 0
        invariant CursorsValid() && start <= grandparentIndex <= |grandparents| && seenKey == old(seenKey)
        invariant FirstNotBefore(grandparents, grandparentIndex, key) == end
        invariant overlappedBytes
               == old(overlappedBytes) + if seenKey then TotalFileSize(grandparents[start..grandparentIndex]) else 0
        decreases |grandparents| - grandparentIndex
      {
        CompareIsLess(key, grandparents[grandparentIndex].largest);
        SizeNext(grandparents, start, grandparentIndex);
        if seenKey {
          overlappedBytes := overlappedBytes + grandparents[grandparentIndex].size;
        }
        grandparentIndex := grandparentIndex + 1;
      }
      if grandparentIndex < |grandparents| {
        CompareIsLess(key, grandparents[grandparentIndex].largest);
      }
      seenKey := true;
      if overlappedBytes > 10 * maxFileSize {
        overlappedBytes := 0;
        stop := true;
      } else {
        stop := false;
      }
    }
  }

  lemma {:induction false} LaterFilesStartLater(files: seq<File>, p: nat, u: UserKey)
    requires GoodFiles(files) && DisjointSorted(files)
    requires p < |files| && u < files[p].smallest.user
    ensures forall i :: p <= i < |files| ==> u < files[i].smallest.user
  {
    FileBounds(files[p], |files[p].entries| - 1);
    forall i | p < i < |files|
      ensures u < files[i].smallest.user
    {
      assert Less(files[p].largest, files[i].smallest);
    }
  }

  // ----- the drop rule -----

  /** A newer entry of the same user key is already visible to every snapshot. */
  ghost predicate Hidden(input: seq<Entry>, ss: SequenceNumber, i: nat)
    requires i < |input|
  {
    exists j :: 0 <= j < i && input[j].key.user == input[i].key.user && input[j].key.sequence <= ss
  }

  /** A deletion every snapshot sees, with nothing of its user key further down. */
  ghost predicate ObsoleteDeletion(v: Version, level: nat, input: seq<Entry>, ss: SequenceNumber, i: nat)
    requires i < |input|
  {
    && input[i].key.typ.Deletion?
    && input[i].key.sequence <= ss
    && IsBaseLevel(v, level, input[i].key.user)
  }

  ghost predicate Dropped(v: Version, level: nat, input: seq<Entry>, ss: SequenceNumber, i: nat)
    requires i < |input|
  {
    Hidden(input, ss, i) || ObsoleteDeletion(v, level, input, ss, i)
  }

  /** The entries among the first `n` that survive. */
  ghost function Kept(v: Version, level: nat, input: seq<Entry>, ss: SequenceNumber, n: nat): (r: seq<Entry>)
    requires n <= |input|
    ensures |r| <= n
  {
    if n == 0 then []
    else Kept(v, level, input, ss, n - 1) + if Dropped(v, level, input, ss, n - 1) then [] else [input[n - 1]]
  }

  lemma {:induction false} KeptMembers(v: Version, level: nat, input: seq<Entry>, ss: SequenceNumber, n: nat)
    requires n <= |input|
    ensures forall e :: e in Kept(v, level, input, ss, n) <==>
              exists i :: 0 <= i < n && input[i] == e && !Dropped(v, level, input, ss, i)
  {
    if n > 0 {
      KeptMembers(v, level, input, ss, n - 1);
    }
  }

  lemma {:induction false} KeptSorted(v: Version, level: nat, input: seq<Entry>, ss: SequenceNumber, n: nat)
    requires n <= |input| && Sorted(input)
    ensures Sorted(Kept(v, level, input, ss, n))
    ensures n < |input| ==> forall i :: 0 <= i < |Kept(v, level, input, ss, n)| ==>
              Less(Kept(v, level, input, ss, n)[i].key, input[n].key)
  {
    if n > 0 {
      KeptSorted(v, level, input, ss, n - 1);
      if n < |input| {
        assert Less(input[n - 1].key, input[n].key);
      }
    }
  }

  /** In a sorted run the entry just before decides whether an entry is hidden. */
  lemma {:induction false} HiddenByPredecessor(input: seq<Entry>, ss: SequenceNumber, i: nat)
    requires Sorted(input) && i < |input|
    ensures Hidden(input, ss, i) <==>
              i > 0 && input[i - 1].key.user == input[i].key.user && input[i - 1].key.sequence <= ss
  {
    if j :| 0 <= j < i && input[j].key.user == input[i].key.user && input[j].key.sequence <= ss {
      if j < i - 1 {
        assert Less(input[j].key, input[i - 1].key) && Less(input[i - 1].key, input[i].key);
      }
    }
  }

  /** The newest input entry of `u` is an obsolete deletion. */
  ghost predicate LeavesNothing(v: Version, level: nat, input: seq<Entry>, ss: SequenceNumber, u: UserKey) {
    exists k :: FirstOf(input, u, k) && ObsoleteDeletion(v, level, input, ss, k)
  }

  ghost predicate FirstOf(input: seq<Entry>, u: UserKey, k: nat) {
    k < |input| && input[k].key.user == u && forall j :: 0 <= j < k ==> input[j].key.user != u
  }

  lemma {:induction false} FindFirst(input: seq<Entry>, u: UserKey, i: nat) returns (k: nat)
    requires i < |input| && input[i].key.user == u
    ensures FirstOf(input, u, k) && k <= i
  {
    if j :| 0 <= j < i && input[j].key.user == u {
      k := FindFirst(input, u, j);
    } else {
      k := i;
    }
  }

  /** Nothing of a user key survives exactly when its newest entry is an obsolete deletion. */
  lemma {:induction false} LeavesNothingIff(v: Version, level: nat, input: seq<Entry>, ss: SequenceNumber, u: UserKey, i: nat)
    requires Sorted(input) && i < |input| && input[i].key.user == u
    ensures LeavesNothing(v, level, input, ss, u) <==> forall e :: e in Kept(v, level, input, ss, |input|) ==> e.key.user != u
  {
    hide Kept, IsBaseLevel, Sorted;
    KeptMembers(v, level, input, ss, |input|);
    var k := FindFirst(input, u, i);
    assert !Hidden(input, ss, k);
    if ObsoleteDeletion(v, level, input, ss, k) {
      assert LeavesNothing(v, level, input, ss, u);
      forall e | e in Kept(v, level, input, ss, |input|)
        ensures e.key.user != u
      {
        var m :| 0 <= m < |input| && input[m] == e && !Dropped(v, level, input, ss, m);
        assert !Hidden(input, ss, m);
      }
    } else {
      assert input[k] in Kept(v, level, input, ss, |input|);
      forall m | FirstOf(input, u, m)
        ensures m == k
      {
      }
    }
  }

  /** Which entries survive: exactly those of the input that no newer entry of their user key hides from every snapshot,
      but for the deletions every snapshot sees that have no file of a level from two below on to hide anything in. */
  lemma {:induction false} SurvivorsAre(v: Version, level: nat, input: seq<Entry>, ss: SequenceNumber, e: Entry)
    requires Sorted(input)
    ensures e in Kept(v, level, input, ss, |input|) <==>
              && e in input
              && (forall n :: n in input && n.key.user == e.key.user && Less(n.key, e.key) ==> n.key.sequence > ss)
              && (e.key.typ.Deletion? && e.key.sequence <= ss ==>
                    exists l, f :: level + 2 <= l < NUM_LEVELS && f in v[l] && f.smallest.user <= e.key.user <= f.largest.user)
  {
    hide Kept, Less;
    KeptMembers(v, level, input, ss, |input|);
    forall i | 0 <= i < |input| && input[i] == e
      ensures Hidden(input, ss, i) <==>
                exists n :: n in input && n.key.user == e.key.user && Less(n.key, e.key) && n.key.sequence <= ss
    {
      HiddenBySome(input, ss, i);
    }
  }

  lemma {:induction false} HiddenBySome(input: seq<Entry>, ss: SequenceNumber, i: nat)
    requires Sorted(input) && i < |input|
    ensures var e := input[i];
            Hidden(input, ss, i) <==>
              exists n :: n in input && n.key.user == e.key.user && Less(n.key, e.key) && n.key.sequence <= ss
  {
    var e := input[i];
    if n :| n in input && n.key.user == e.key.user && Less(n.key, e.key) && n.key.sequence <= ss {
      var j :| 0 <= j < |input| && input[j] == n;
      assert j > i ==> Less(e.key, n.key);
      assert j < i;
    }
  }

  // ----- the work loop -----

  ghost function Concat(outputs: seq<File>): seq<Entry> {
    if outputs == [] then [] else Concat(outputs[..|outputs| - 1]) + outputs[|outputs| - 1].entries
  }

  ghost predicate GoodOutputs(outputs: seq<File>, firstNumber: nat, nextNumber: nat) {
    && (forall f :: f in outputs ==> |f.entries| > 0 && f.smallest == f.entries[0].key
                                     && f.largest == f.entries[|f.entries| - 1].key)
    && (forall f :: f in outputs ==> firstNumber <= f.number < nextNumber)
    && (forall i, j :: 0 <= i < j < |outputs| ==> outputs[i].number < outputs[j].number)
  }

  /** The output side of a running compaction: closed files, the entries in the open one if any,
      its number, and the next file number. */
  datatype OutputState = OutputState(outputs: seq<File>, builder: Option<seq<Entry>>, number: nat, nextNumber: nat) {

    /** Everything written so far, closed or not, is `kept`. */
    ghost predicate Holds(firstNumber: nat, kept: seq<Entry>) {
      && GoodOutputs(outputs, firstNumber, nextNumber)
      && firstNumber <= nextNumber
      && (builder.Some? ==> |builder.value| > 0 && firstNumber <= number < nextNumber)
      && (builder.Some? ==> forall f :: f in outputs ==> f.number < number)
      && Concat(outputs) + (if builder.Some? then builder.value else []) == kept
    }
  }

  /** Closing the current output file, if one is open. */
  function FinishOutput(w: OutputState, fileSize: seq<Entry> -> nat): OutputState {
    if w.builder.None? || |w.builder.value| == 0 then w
    else
      var es := w.builder.value;
      w.(outputs := w.outputs + [File(w.number, fileSize(es), es[0].key, es[|es| - 1].key, es)], builder := None)
  }

  lemma {:induction false} OneMoreOutput(outputs: seq<File>, f: File, firstNumber: nat, nextNumber: nat)
    requires GoodOutputs(outputs, firstNumber, nextNumber) && firstNumber <= f.number < nextNumber
    requires |f.entries| > 0 && f.smallest == f.entries[0].key && f.largest == f.entries[|f.entries| - 1].key
    requires forall g :: g in outputs ==> g.number < f.number
    ensures GoodOutputs(outputs + [f], firstNumber, nextNumber)
  {
  }

  lemma {:induction false} FinishKeepsAll(w: OutputState, fileSize: seq<Entry> -> nat, firstNumber: nat, kept: seq<Entry>)
    requires w.Holds(firstNumber, kept)
    ensures FinishOutput(w, fileSize).Holds(firstNumber, kept) && FinishOutput(w, fileSize).builder.None?
  {
    if w.builder.Some? {
      hide GoodOutputs;
      var w2 := FinishOutput(w, fileSize);
      var n := |w.outputs|;
      assert w2.outputs[..n] == w.outputs;
      OneMoreOutput(w.outputs, w2.outputs[n], firstNumber, w.nextNumber);
    } else {
      assert Concat(w.outputs) + [] == Concat(w.outputs);
    }
  }

  /** The entries of the outputs closed so far, and those of the open one. */
  datatype Pieces = Pieces(closed: seq<seq<Entry>>, open: seq<Entry>) {

    function Close(): Pieces {
      if open == [] then this else Pieces(closed + [open], [])
    }

    /** One more entry: the output is closed as soon as it is big enough. */
    function Add(e: Entry, fileSize: seq<Entry> -> nat, maxFileSize: nat): Pieces {
      var now := Pieces(closed, open + [e]);
      if fileSize(now.open) >= maxFileSize then now.Close() else now
    }
  }

  function PieceEntries(outputs: seq<File>): (r: seq<seq<Entry>>)
    ensures |r| == |outputs|
  {
    if outputs == [] then [] else PieceEntries(outputs[..|outputs| - 1]) + [outputs[|outputs| - 1].entries]
  }

  function PiecesOf(w: OutputState): Pieces {
    Pieces(PieceEntries(w.outputs), if w.builder.Some? then w.builder.value else [])
  }

  lemma {:induction false} ClosedPieces(w: OutputState, fileSize: seq<Entry> -> nat)
    ensures PiecesOf(FinishOutput(w, fileSize)) == PiecesOf(w).Close()
  {
    var w2 := FinishOutput(w, fileSize);
    if w2 != w {
      assert w2.outputs[..|w.outputs|] == w.outputs;
    }
  }

  /** Adding one surviving entry: opens an output file if necessary, closes it when it is big
      enough.  Others may take file numbers in between. */
  method AddEntry(w: OutputState, e: Entry, fileSize: seq<Entry> -> nat, maxFileSize: nat,
                  ghost firstNumber: nat, ghost kept: seq<Entry>) returns (w2: OutputState)
    requires w.Holds(firstNumber, kept)
    ensures w2.Holds(firstNumber, kept + [e])
    ensures PiecesOf(w2) == PiecesOf(w).Add(e, fileSize, maxFileSize)
  {
    w2 := w;
    if w2.builder.None? {
      var number :| number >= w2.nextNumber;
      w2 := w2.(number := number, nextNumber := number + 1, builder := Some([]));
    }
    w2 := w2.(builder := Some(w2.builder.value + [e]));
    assert Concat(w2.outputs) + w2.builder.value == kept + [e];
    if fileSize(w2.builder.value) >= maxFileSize {
      FinishKeepsAll(w2, fileSize, firstNumber, kept + [e]);
      ClosedPieces(w2, fileSize);
      w2 := FinishOutput(w2, fileSize);
    }
  }

  /** Where a compaction cuts its output, after `n` input entries: before a survivor or not, every key moves the
      grandparent cursor and may close the open output; survivors are added. */
  ghost function CutAfter(v: Version, level: nat, input: seq<Entry>, ss: SequenceNumber, grandparents: seq<File>,
                          maxFileSize: nat, fileSize: seq<Entry> -> nat, n: nat): (r: (Pieces, Cursor))
    requires n <= |input|
    ensures r.1.index <= |grandparents|
  {
    if n == 0 then (Pieces([], []), Cursor(0, false, 0))
    else
      var before := CutAfter(v, level, input, ss, grandparents, maxFileSize, fileSize, n - 1);
      var e := input[n - 1];
      var pieces := if Stops(grandparents, maxFileSize, before.1, e.key) then before.0.Close() else before.0;
      (if Dropped(v, level, input, ss, n - 1) then pieces else pieces.Add(e, fileSize, maxFileSize),
       Advance(grandparents, maxFileSize, before.1, e.key))
  }

  lemma {:induction false} UsersAscend(input: seq<Entry>, i: nat)
    requires Sorted(input) && i < |input|
    ensures i > 0 ==> input[i - 1].key.user <= input[i].key.user
  {
    assert i > 0 ==> Less(input[i - 1].key, input[i].key);
  }

  lemma {:induction false} KeptStep(v: Version, level: nat, input: seq<Entry>, ss: SequenceNumber, i: nat)
    requires i < |input|
    ensures Kept(v, level, input, ss, i + 1)
            == if Dropped(v, level, input, ss, i) then Kept(v, level, input, ss, i)
               else Kept(v, level, input, ss, i) + [input[i]]
  {
  }

  lemma {:induction false} NothingKept(v: Version, level: nat, input: seq<Entry>, ss: SequenceNumber)
    ensures Kept(v, level, input, ss, 0) == []
  {
  }

  lemma {:induction false} DropRule(v: Version, level: nat, input: seq<Entry>, ss: SequenceNumber, i: nat)
    requires i < |input|
    ensures Dropped(v, level, input, ss, i)
            <==> Hidden(input, ss, i)
                 || (input[i].key.typ.Deletion? && input[i].key.sequence <= ss && IsBaseLevel(v, level, input[i].key.user))
  {
  }

  lemma {:induction false} NothingWritten(firstNumber: nat)
    ensures OutputState([], None, 0, firstNumber).Holds(firstNumber, [])
  {
  }

  lemma {:induction false} WorkIsDone(w: OutputState, firstNumber: nat, kept: seq<Entry>)
    requires w.Holds(firstNumber, kept)
    ensures GoodOutputs(w.outputs, firstNumber, w.nextNumber)
    ensures w.builder.None? ==> Concat(w.outputs) == kept
  {
    assert Concat(w.outputs) + [] == Concat(w.outputs);
  }

  lemma {:induction false} NothingCut(v: Version, level: nat, input: seq<Entry>, ss: SequenceNumber, grandparents: seq<File>,
                                      maxFileSize: nat, fileSize: seq<Entry> -> nat)
    ensures CutAfter(v, level, input, ss, grandparents, maxFileSize, fileSize, 0) == (Pieces([], []), Cursor(0, false, 0))
    ensures PiecesOf(OutputState([], None, 0, 0)) == Pieces([], [])
  {
  }

  lemma {:induction false} CutStep(v: Version, level: nat, input: seq<Entry>, ss: SequenceNumber, grandparents: seq<File>,
                                   maxFileSize: nat, fileSize: seq<Entry> -> nat, i: nat)
    requires i < |input|
    ensures var before := CutAfter(v, level, input, ss, grandparents, maxFileSize, fileSize, i);
            var pieces := if Stops(grandparents, maxFileSize, before.1, input[i].key) then before.0.Close() else before.0;
            CutAfter(v, level, input, ss, grandparents, maxFileSize, fileSize, i + 1)
            == (if Dropped(v, level, input, ss, i) then pieces else pieces.Add(input[i], fileSize, maxFileSize),
                Advance(grandparents, maxFileSize, before.1, input[i].key))
  {
    hide Stops, Advance, Dropped;
  }

  /** Merges the inputs into output files.  `fileSize` is what the table builder reports for the
      entries added so far. */
  method DoCompactionWork(c: Compaction, ss: SequenceNumber, input: seq<Entry>,
                          fileSize: seq<Entry> -> nat, firstNumber: nat)
    returns (ok: bool, outputs: seq<File>, nextNumber: nat)
    requires c.Valid() && c.asked == None && c.Position() == Cursor(0, false, 0)
    requires Sorted(input) && ss < MAX_SEQUENCE_NUMBER
    modifies c, c.levelPtrs
    ensures ok ==> Concat(outputs) == Kept(c.inputVersion, c.level, input, ss, |input|)
    ensures ok ==> PieceEntries(outputs) == CutAfter(c.inputVersion, c.level, input, ss, c.grandparents, c.maxFileSize,
                                                fileSize, |input|).0.Close().closed
    ensures GoodOutputs(outputs, firstNumber, nextNumber)
  {
    hide CutAfter, Stops, Advance, PieceEntries, Kept, Hidden, ObsoleteDeletion, Dropped, IsBaseLevel, Concat,
      GoodOutputs, OutputState.Holds, FinishOutput, Sorted, Less,
      Compaction.Valid;
    ghost var v, level := c.inputVersion, c.level;
    var w := OutputState([], None, 0, firstNumber);
    NothingWritten(firstNumber);
    NothingKept(v, level, input, ss);
    NothingCut(v, level, input, ss, c.grandparents, c.maxFileSize, fileSize);
    var currentUserKey: Option<UserKey> := None;
    var lastSequenceForKey := MAX_SEQUENCE_NUMBER;
    var i := 0;
    var shuttingDown: bool := *;
    while i < |input| && !shuttingDown
      invariant 0 <= i <= |input|
      invariant c.Valid()
      invariant c.asked.Some? ==> i > 0 && c.asked.value <= input[i - 1].key.user
      invariant i == 0 ==> currentUserKey == None
      invariant i > 0 ==> currentUserKey == Some(input[i - 1].key.user) && lastSequenceForKey == input[i - 1].key.sequence
      invariant w.Holds(firstNumber, Kept(v, level, input, ss, i))
      invariant (PiecesOf(w), c.Position()) == CutAfter(v, level, input, ss, c.grandparents, c.maxFileSize, fileSize, i)
      decreases |input| - i
    {
      var e := input[i];
      HiddenByPredecessor(input, ss, i);
      UsersAscend(input, i);
      CutStep(v, level, input, ss, c.grandparents, c.maxFileSize, fileSize, i);
      var stop := c.ShouldStopBefore(e.key);
      if stop && w.builder.Some? {
        FinishKeepsAll(w, fileSize, firstNumber, Kept(v, level, input, ss, i));
        ClosedPieces(w, fileSize);
        w := FinishOutput(w, fileSize);
      }

      var drop := false;
      if currentUserKey.None? || e.key.user != currentUserKey.value {
        currentUserKey := Some(e.key.user);
        lastSequenceForKey := MAX_SEQUENCE_NUMBER;
      }
      if lastSequenceForKey <= ss {
        drop := true;
      } else if e.key.typ == Deletion && e.key.sequence <= ss {
        drop := c.IsBaseLevelForKey(e.key.user);
      }
      lastSequenceForKey := e.key.sequence;
      DropRule(v, level, input, ss, i);
      assert drop <==> Dropped(v, level, input, ss, i);
      KeptStep(v, level, input, ss, i);

      if !drop {
        w := AddEntry(w, e, fileSize, c.maxFileSize, firstNumber, Kept(v, level, input, ss, i));
      }
      i := i + 1;
      shuttingDown := *;
    }
    ok := !shuttingDown;
    if ok && w.builder.Some? {
      FinishKeepsAll(w, fileSize, firstNumber, Kept(v, level, input, ss, i));
      ClosedPieces(w, fileSize);
      w := FinishOutput(w, fileSize);
    }
    WorkIsDone(w, firstNumber, Kept(v, level, input, ss, i));
    outputs, nextNumber := w.outputs, w.nextNumber;
  }

  // ----- what the outputs are -----

  lemma {:induction false} ConcatMembers(outputs: seq<File>)
    ensures forall e :: e in Concat(outputs) <==> InLevel(outputs, e)
  {
    if outputs != [] {
      var n := |outputs| - 1;
      ConcatMembers(outputs[..n]);
      forall e
        ensures e in Concat(outputs) <==> InLevel(outputs, e)
      {
        if e in outputs[n].entries { assert outputs[n] in outputs; }
        if InLevel(outputs[..n], e) {
          var f :| f in outputs[..n] && e in f.entries;
          assert f in outputs;
        }
        if InLevel(outputs, e) {
          var f :| f in outputs && e in f.entries;
          assert f == outputs[n] || f in outputs[..n];
        }
      }
    }
  }

  lemma {:induction false} SortedSlice(es: seq<Entry>, a: nat, b: nat)
    requires Sorted(es) && a <= b <= |es|
    ensures Sorted(es[a..b])
  {
    forall i, j | 0 <= i < j < b - a
      ensures Less(es[a..b][i].key, es[a..b][j].key)
    {
      assert Less(es[a + i].key, es[a + j].key);
    }
  }

  lemma {:induction false} PieceIsGood(f: File, all: seq<Entry>, m: nat)
    requires Sorted(all) && m <= |all| && all[m..|all|] == f.entries
    requires forall e :: e in all ==> e.key.sequence < MAX_SEQUENCE_NUMBER
    requires |f.entries| > 0 && f.smallest == f.entries[0].key && f.largest == f.entries[|f.entries| - 1].key
    ensures GoodFile(f)
  {
    SortedSlice(all, m, |all|);
    forall i | 0 <= i < |f.entries|
      ensures f.entries[i].key.sequence < MAX_SEQUENCE_NUMBER
    {
      assert f.entries[i] == all[m + i];
    }
  }

  /** The cut pieces of a sorted run form a valid level of their own. */
  lemma {:induction false} OutputsAreALevel(outputs: seq<File>, lo: nat, hi: nat)
    requires GoodOutputs(outputs, lo, hi)
    requires Sorted(Concat(outputs))
    requires forall e :: e in Concat(outputs) ==> e.key.sequence < MAX_SEQUENCE_NUMBER
    ensures GoodFiles(outputs) && DisjointSorted(outputs)
  {
    hide GoodOutputs, Sorted, Concat, GoodFile;
    if outputs != [] {
      var n := |outputs| - 1;
      var front, last := outputs[..n], outputs[n];
      LastPiece(outputs, lo, hi);
      FrontIsGood(outputs, lo, hi);
      OutputsAreALevel(front, lo, hi);
      forall i | 0 <= i < n
        ensures Less(outputs[i].largest, last.smallest)
      {
        BeforeLastPiece(front, last, i);
      }
    }
  }

  lemma {:induction false} LastPiece(outputs: seq<File>, lo: nat, hi: nat)
    requires GoodOutputs(outputs, lo, hi) && outputs != [] && Sorted(Concat(outputs))
    requires forall e :: e in Concat(outputs) ==> e.key.sequence < MAX_SEQUENCE_NUMBER
    ensures var front, last := outputs[..|outputs| - 1], outputs[|outputs| - 1];
            GoodFile(last) && Sorted(Concat(front)) && Sorted(Concat(front) + last.entries)
  {
    hide GoodFile, Sorted;
    var n := |outputs| - 1;
    var all, m := Concat(outputs), |Concat(outputs[..n])|;
    assert all[0..m] == Concat(outputs[..n]) && all[m..|all|] == outputs[n].entries;
    SortedSlice(all, 0, m);
    assert outputs[n] in outputs;
    PieceIsGood(outputs[n], all, m);
  }

  lemma {:induction false} FrontIsGood(outputs: seq<File>, lo: nat, hi: nat)
    requires GoodOutputs(outputs, lo, hi) && outputs != []
    requires forall e :: e in Concat(outputs) ==> e.key.sequence < MAX_SEQUENCE_NUMBER
    ensures GoodOutputs(outputs[..|outputs| - 1], lo, hi)
    ensures forall e :: e in Concat(outputs[..|outputs| - 1]) ==> e.key.sequence < MAX_SEQUENCE_NUMBER
  {
    var front := outputs[..|outputs| - 1];
    assert forall f :: f in front ==> f in outputs;
    assert forall e :: e in Concat(front) ==> e in Concat(outputs);
  }

  lemma {:induction false} BeforeLastPiece(front: seq<File>, last: File, i: nat)
    requires GoodFiles(front) && GoodFile(last)
    requires Sorted(Concat(front) + last.entries)
    requires i < |front|
    ensures Less(front[i].largest, last.smallest)
  {
    var f := front[i];
    ConcatMembers(front);
    var e := f.entries[|f.entries| - 1];
    assert f in front && e in f.entries;
    assert InLevel(front, e);
    var k :| 0 <= k < |Concat(front)| && Concat(front)[k] == e;
    var all := Concat(front) + last.entries;
    assert all[k] == e && all[|Concat(front)|] == last.entries[0];
  }

  // ----- no reader can tell -----

  /** Entries of the levels below the compaction's output level. */
  ghost predicate InDeeper(v: Version, level: nat, e: Entry) {
    exists l :: level + 2 <= l < NUM_LEVELS && e in FilesEntries(v[l])
  }

  /** Whatever is neither an input nor deeper than the output level holds newer data than the
      inputs for the user keys it shares with them. */
  ghost predicate RestIsNewerOrDeeper(v: Version, level: nat, input: seq<Entry>, rest: set<Entry>) {
    forall x, e :: x in rest && e in input && x.key.user == e.key.user ==>
      x.key.sequence > e.key.sequence || InDeeper(v, level, x)
  }

  /** The newest entry a reader of `u` at `s` sees is a deletion that the drop rule takes for obsolete, and
      outside the inputs there is an older value it hides. */
  ghost predicate BringsBack(v: Version, level: nat, input: seq<Entry>, ss: SequenceNumber, rest: set<Entry>,
                             u: UserKey, s: SequenceNumber)
  {
    && (exists i :: 0 <= i < |input| && ObsoleteDeletion(v, level, input, ss, i)
                    && IsNewest(rest + Elements(input), u, s, input[i]))
    && Lookup(rest, u, s) != None
  }

  /** Exactly when a reader of `u` at `s` cannot tell that the inputs were rewritten. */
  lemma {:induction false} ReadKeptIff(v: Version, level: nat, input: seq<Entry>, ss: SequenceNumber, rest: set<Entry>,
                                       u: UserKey, s: SequenceNumber)
    requires Sorted(input) && UniqueSequences(rest + Elements(input)) && Elements(input) !! rest
    requires ss <= s
    ensures Lookup(rest + Elements(Kept(v, level, input, ss, |input|)), u, s) == Lookup(rest + Elements(input), u, s)
            <==> !BringsBack(v, level, input, ss, rest, u, s)
  {
    hide Lookup, Sorted, Kept, ObsoleteDeletion, Hidden;
    var kept := Kept(v, level, input, ss, |input|);
    KeptMembers(v, level, input, ss, |input|);
    var before, after := rest + Elements(input), rest + Elements(kept);
    assert after <= before;
    if x :| x in before && Visible(x, u, s) {
      var e := NewestExists(before, u, s, x);
      LookupIs(before, u, s, e);
      if e in after {
        assert IsNewest(after, u, s, e);
        LookupIs(after, u, s, e);
        KeptIsNotObsolete(v, level, input, ss, rest, u, s, e);
      } else {
        NewestDropped(v, level, input, ss, rest, u, s, e);
        LookupLocal(after, rest, u, s);
      }
    } else {
      LookupNothing(before, u, s);
      LookupNothing(after, u, s);
    }
  }

  lemma {:induction false} KeptIsNotObsolete(v: Version, level: nat, input: seq<Entry>, ss: SequenceNumber, rest: set<Entry>,
                                             u: UserKey, s: SequenceNumber, e: Entry)
    requires Sorted(input) && UniqueSequences(rest + Elements(input)) && Elements(input) !! rest
    requires IsNewest(rest + Elements(input), u, s, e)
    requires e in rest + Elements(Kept(v, level, input, ss, |input|))
    ensures !BringsBack(v, level, input, ss, rest, u, s)
  {
    hide Lookup, Kept;
    KeptMembers(v, level, input, ss, |input|);
    forall i | 0 <= i < |input| && IsNewest(rest + Elements(input), u, s, input[i])
      ensures !ObsoleteDeletion(v, level, input, ss, i)
    {
      assert input[i] == e;
      assert e in Elements(input);
      var k :| 0 <= k < |input| && input[k] == e && !Dropped(v, level, input, ss, k);
      assert k < i ==> Less(input[k].key, input[i].key);
      assert i < k ==> Less(input[i].key, input[k].key);
    }
  }

  /** If the newest visible entry was dropped it was an obsolete deletion, and only what is outside the
      inputs can still be seen. */
  lemma {:induction false} NewestDropped(v: Version, level: nat, input: seq<Entry>, ss: SequenceNumber, rest: set<Entry>,
                                         u: UserKey, s: SequenceNumber, e: Entry)
    requires Sorted(input) && UniqueSequences(rest + Elements(input))
    requires ss <= s
    requires IsNewest(rest + Elements(input), u, s, e)
    requires e !in rest + Elements(Kept(v, level, input, ss, |input|))
    ensures e.key.typ.Deletion?
    ensures exists i :: 0 <= i < |input| && input[i] == e && ObsoleteDeletion(v, level, input, ss, i)
    ensures forall x :: x in Kept(v, level, input, ss, |input|) ==> !Visible(x, u, s)
  {
    hide Kept, IsBaseLevel, Sorted, Hidden, UniqueSequences;
    KeptMembers(v, level, input, ss, |input|);
    var i :| 0 <= i < |input| && input[i] == e;
    assert Dropped(v, level, input, ss, i);
    NewestNotHidden(input, ss, rest, u, s, i);
    forall x | x in Kept(v, level, input, ss, |input|)
      ensures !Visible(x, u, s)
    {
      var k :| 0 <= k < |input| && input[k] == x && !Dropped(v, level, input, ss, k);
      NotVisibleBesides(input, ss, rest, u, s, i, k);
    }
  }

  /** Next to a newest visible entry that every snapshot sees, nothing that is not hidden can be seen. */
  lemma {:induction false} NotVisibleBesides(input: seq<Entry>, ss: SequenceNumber, rest: set<Entry>, u: UserKey, s: SequenceNumber,
                                             i: nat, k: nat)
    requires Sorted(input) && UniqueSequences(rest + Elements(input)) && i < |input| && k < |input| && k != i
    requires IsNewest(rest + Elements(input), u, s, input[i]) && input[i].key.sequence <= ss && !Hidden(input, ss, k)
    ensures !Visible(input[k], u, s)
  {
    assert k < i ==> Less(input[k].key, input[i].key);
    assert input[k] in rest + Elements(input);
    assert i < k ==> input[k].key.user != u;
  }

  /** Exactly when compaction preserves every read that can still be asked for, at the smallest snapshot or
      later: for no user key does it bring back a value at the smallest snapshot. */
  lemma {:induction false} CompactionPreservesReadsIff(v: Version, level: nat, input: seq<Entry>, ss: SequenceNumber,
                                                       rest: set<Entry>)
    requires Sorted(input) && UniqueSequences(rest + Elements(input)) && Elements(input) !! rest
    ensures (forall u, s :: ss <= s ==>
               Lookup(rest + Elements(Kept(v, level, input, ss, |input|)), u, s) == Lookup(rest + Elements(input), u, s))
            <==> forall u :: !BringsBack(v, level, input, ss, rest, u, ss)
  {
    hide Lookup, Sorted, Kept, BringsBack, UniqueSequences;
    forall u, s: SequenceNumber | ss <= s
      ensures Lookup(rest + Elements(Kept(v, level, input, ss, |input|)), u, s) == Lookup(rest + Elements(input), u, s)
              <==> !BringsBack(v, level, input, ss, rest, u, s)
      ensures BringsBack(v, level, input, ss, rest, u, s) ==> BringsBack(v, level, input, ss, rest, u, ss)
    {
      ReadKeptIff(v, level, input, ss, rest, u, s);
      if BringsBack(v, level, input, ss, rest, u, s) { BroughtBackAtOnce(v, level, input, ss, rest, u, s); }
    }
  }

  /** What is brought back for a later reader is brought back for one at the smallest snapshot. */
  lemma {:induction false} BroughtBackAtOnce(v: Version, level: nat, input: seq<Entry>, ss: SequenceNumber, rest: set<Entry>,
                                             u: UserKey, s: SequenceNumber)
    requires UniqueSequences(rest + Elements(input)) && Elements(input) !! rest
    requires ss <= s && BringsBack(v, level, input, ss, rest, u, s)
    ensures BringsBack(v, level, input, ss, rest, u, ss)
  {
    hide Lookup, IsBaseLevel;
    var i :| 0 <= i < |input| && ObsoleteDeletion(v, level, input, ss, i) && IsNewest(rest + Elements(input), u, s, input[i]);
    assert IsNewest(rest + Elements(input), u, ss, input[i]);
    forall x | x in rest && Visible(x, u, s)
      ensures Visible(x, u, ss)
    {
      assert x in rest + Elements(input);
    }
    LookupAgrees(rest, u, ss, s);
  }

  /** The usual case: whatever is outside the inputs is newer than they are or deeper, and every read is
      preserved, dropped deletions included. */
  lemma {:induction false} CompactionPreservesReads(v: Version, level: nat, input: seq<Entry>, ss: SequenceNumber, rest: set<Entry>,
                                                    u: UserKey, s: SequenceNumber)
    requires Shape(v) && Sorted(input)
    requires UniqueSequences(rest + Elements(input)) && Elements(input) !! rest
    requires RestIsNewerOrDeeper(v, level, input, rest)
    requires ss <= s
    ensures Lookup(rest + Elements(Kept(v, level, input, ss, |input|)), u, s) == Lookup(rest + Elements(input), u, s)
  {
    hide Shape, Sorted, Lookup, Kept, InDeeper;
    ReadKeptIff(v, level, input, ss, rest, u, s);
    if i :| 0 <= i < |input| && ObsoleteDeletion(v, level, input, ss, i) && IsNewest(rest + Elements(input), u, s, input[i]) {
      forall x | x in rest
        ensures !Visible(x, u, s)
      {
        assert x in rest + Elements(input);
        DeeperIsNotBase(v, level, x);
      }
      LookupNothing(rest, u, s);
    }
  }

  lemma {:induction false} NewestNotHidden(input: seq<Entry>, ss: SequenceNumber, rest: set<Entry>,
                        u: UserKey, s: SequenceNumber, i: nat)
    requires Sorted(input) && i < |input| && ss <= s
    requires UniqueSequences(rest + Elements(input))
    requires IsNewest(rest + Elements(input), u, s, input[i])
    ensures !Hidden(input, ss, i)
  {
    forall j | 0 <= j < i && input[j].key.user == input[i].key.user
      ensures input[j].key.sequence > ss
    {
      assert Less(input[j].key, input[i].key);
      assert input[j] in rest + Elements(input);
      assert input[j].key.sequence > input[i].key.sequence;
      assert input[j].key.user == u;
      assert !Visible(input[j], u, s);
    }
  }

  lemma {:induction false} DeeperIsNotBase(v: Version, level: nat, x: Entry)
    requires Shape(v)
    ensures InDeeper(v, level, x) ==> !IsBaseLevel(v, level, x.key.user)
  {
    if InDeeper(v, level, x) {
      var l :| level + 2 <= l < NUM_LEVELS && x in FilesEntries(v[l]);
      var f :| f in v[l] && x in f.entries;
      var i :| 0 <= i < |v[l]| && v[l][i] == f;
      EntryBounds(f, x);
    }
  }
}
