// Where a compaction cuts its output: no output overlaps too many bytes of the files two levels down, and
// one that could have held more is cut only because it would have.

module OutputCuts {
  import opened Keys
  import opened Levels
  import opened Overlaps
  import opened Compactions

  // ----- bytes passed between two keys -----

  /** The sizes of the files that end at or after `a` and before `b`. */
  function Passed(files: seq<File>, a: InternalKey, b: InternalKey): nat {
    if files == [] then 0
    else
      Passed(files[1..], a, b)
      + if !Less(files[0].largest, a) && Less(files[0].largest, b) then files[0].size else 0
  }

  lemma {:induction false} PassedNothing(files: seq<File>, a: InternalKey, b: InternalKey)
    requires forall f :: f in files ==> Less(f.largest, a) || !Less(f.largest, b)
    ensures Passed(files, a, b) == 0
  {
    if files != [] {
      PassedNothing(files[1..], a, b);
    }
  }

  lemma {:induction false} PassedAll(files: seq<File>, a: InternalKey, b: InternalKey)
    requires forall f :: f in files ==> !Less(f.largest, a) && Less(f.largest, b)
    ensures Passed(files, a, b) == TotalFileSize(files)
  {
    if files != [] {
      PassedAll(files[1..], a, b);
    }
  }

  lemma {:induction false} PassedConcat(x: seq<File>, y: seq<File>, a: InternalKey, b: InternalKey)
    ensures Passed(x + y, a, b) == Passed(x, a, b) + Passed(y, a, b)
  {
    if x == [] {
      assert x + y == y;
    } else {
      assert (x + y)[1..] == x[1..] + y;
      PassedConcat(x[1..], y, a, b);
    }
  }

  /** Going on from one key to the next and to a third passes what going to the third does. */
  lemma {:induction false} PassedAdds(files: seq<File>, a: InternalKey, b: InternalKey, c: InternalKey)
    requires !Less(b, a) && !Less(c, b)
    ensures Passed(files, a, b) + Passed(files, b, c) == Passed(files, a, c)
  {
    if files != [] {
      PassedAdds(files[1..], a, b, c);
    }
  }

  /** The files between two positions of the cursor are those passed between the two keys. */
  lemma {:induction false} SlicePassed(files: seq<File>, i: nat, j: nat, a: InternalKey, b: InternalKey)
    requires i <= j <= |files|
    requires forall k :: 0 <= k < |files| ==> (k < i <==> Less(files[k].largest, a)) && (k < j <==> Less(files[k].largest, b))
    ensures Passed(files, a, b) == TotalFileSize(files[i..j])
  {
    hide Less, Passed, TotalFileSize;
    var x, y, z := files[..i], files[i..j], files[j..];
    assert files == x + y + z;
    PassedConcat(x + y, z, a, b);
    PassedConcat(x, y, a, b);
    forall f | f in x
      ensures Less(f.largest, a)
    {
      var k :| 0 <= k < i && files[k] == f;
    }
    forall f | f in y
      ensures !Less(f.largest, a) && Less(f.largest, b)
    {
      var k :| 0 <= k < j - i && y[k] == f;
      assert files[i + k] == f;
    }
    forall f | f in z
      ensures !Less(f.largest, b)
    {
      var k :| 0 <= k < |z| && z[k] == f;
      assert files[j + k] == f;
    }
    PassedNothing(x, a, b);
    PassedAll(y, a, b);
    PassedNothing(z, a, b);
  }

  // ----- the grandparent rule without a cursor -----

  /** Everything a compaction's cuts depend on. */
  datatype Work = Work(
    v: Version,
    level: nat,
    input: seq<Entry>,
    ss: SequenceNumber,
    files: seq<File>,
    maxFileSize: nat,
    fileSize: seq<Entry> -> nat)
  {
    ghost predicate Ok() {
      Sorted(input) && GoodFiles(files) && DisjointSorted(files)
    }

    ghost function After(n: nat): (r: (Pieces, Cursor))
      requires n <= |input|
      ensures r.1.index <= |files|
    {
      CutAfter(v, level, input, ss, files, maxFileSize, fileSize, n)
    }

    /** The last of the first `n` input keys at which an output had to stop, the first key if there is none:
        from one stop to the next, more than ten files' worth of bytes is passed. */
    ghost function LastStop(n: nat): (p: nat)
      requires 0 < n <= |input|
      ensures p < n
    {
      if n == 1 then 0
      else
        var p := LastStop(n - 1);
        if Passed(files, input[p].key, input[n - 1].key) > 10 * maxFileSize then n - 1 else p
    }

    /** More than that is passed from the last stop to this key. */
    ghost predicate IsStop(q: nat) {
      0 < q < |input| && Passed(files, input[LastStop(q)].key, input[q].key) > 10 * maxFileSize
    }

    /** An output that ends with `last`, followed by one that starts with `first`, was closed for its
        grandparents in between. */
    ghost predicate StoppedBetween(last: InternalKey, first: InternalKey) {
      exists q: nat :: IsStop(q) && Less(last, input[q].key) && !Less(first, input[q].key)
    }
  }

  // ----- the cursor computes it -----

  /** The cursor stands at the first file that does not end before `key`. */
  ghost predicate StandsAt(files: seq<File>, i: nat, key: InternalKey) {
    i <= |files| && forall k :: 0 <= k < |files| ==> (k < i <==> Less(files[k].largest, key))
  }

  lemma {:induction false} StandsNext(files: seq<File>, i: nat, key: InternalKey)
    requires GoodFiles(files) && DisjointSorted(files) && i <= |files|
    requires forall k :: 0 <= k < i ==> Less(files[k].largest, key)
    ensures StandsAt(files, FirstNotBefore(files, i, key), key)
  {
    var j := FirstNotBefore(files, i, key);
    if j < |files| {
      LargestAscend(files, j);
    }
  }

  /** What the cursor knows after `n` keys. */
  ghost predicate CursorIs(w: Work, n: nat)
    requires 0 < n <= |w.input|
  {
    var cur, key := w.After(n).1, w.input[n - 1].key;
    && cur.seen
    && StandsAt(w.files, cur.index, key)
    && cur.bytes == Passed(w.files, w.input[w.LastStop(n)].key, key)
  }

  lemma {:induction false} SortedKeys(input: seq<Entry>, i: nat, j: nat)
    requires Sorted(input) && i <= j < |input|
    ensures !Less(input[j].key, input[i].key)
  {
    if i < j { assert Less(input[i].key, input[j].key); }
  }

  lemma {:induction false} FirstKey(w: Work)
    requires w.Ok() && |w.input| > 0
    ensures CursorIs(w, 1)
    ensures !Stops(w.files, w.maxFileSize, w.After(0).1, w.input[0].key)
  {
    hide GoodFiles, DisjointSorted, Sorted, Less;
    var key := w.input[0].key;
    CutStep(w.v, w.level, w.input, w.ss, w.files, w.maxFileSize, w.fileSize, 0);
    NothingCut(w.v, w.level, w.input, w.ss, w.files, w.maxFileSize, w.fileSize);
    StandsNext(w.files, 0, key);
    PassedNothing(w.files, key, key);
  }

  /** One more key: the cursor's answer is the rule's. */
  lemma {:induction false} NextKey(w: Work, n: nat)
    requires w.Ok() && 0 < n < |w.input| && CursorIs(w, n)
    ensures Stops(w.files, w.maxFileSize, w.After(n).1, w.input[n].key) <==> w.IsStop(n)
    ensures CursorIs(w, n + 1)
  {
    hide GoodFiles, DisjointSorted, Sorted, Less, Passed, TotalFileSize, CutAfter, Dropped;
    var cur, before, key, p := w.After(n).1, w.input[n - 1].key, w.input[n].key, w.LastStop(n);
    CutStep(w.v, w.level, w.input, w.ss, w.files, w.maxFileSize, w.fileSize, n);
    SortedKeys(w.input, n - 1, n);
    SortedKeys(w.input, p, n - 1);
    OneStep(w.files, cur.index, before, key);
    PassedAdds(w.files, w.input[p].key, before, key);
    PassedSelf(w.files, key);
  }

  lemma {:induction false} PassedSelf(files: seq<File>, key: InternalKey)
    ensures Passed(files, key, key) == 0
  {
    PassedNothing(files, key, key);
  }

  lemma {:induction false} OneStep(files: seq<File>, i: nat, before: InternalKey, key: InternalKey)
    requires GoodFiles(files) && DisjointSorted(files) && StandsAt(files, i, before) && !Less(key, before)
    ensures var j := FirstNotBefore(files, i, key);
            StandsAt(files, j, key) && TotalFileSize(files[i..j]) == Passed(files, before, key)
  {
    hide GoodFiles, DisjointSorted, Passed, TotalFileSize;
    StandsNext(files, i, key);
    SlicePassed(files, i, FirstNotBefore(files, i, key), before, key);
  }

  lemma {:induction false} CursorAlways(w: Work, n: nat)
    requires w.Ok() && 0 < n <= |w.input|
    ensures CursorIs(w, n)
  {
    hide Work.Ok, CursorIs;
    if n == 1 {
      FirstKey(w);
    } else {
      CursorAlways(w, n - 1);
      NextKey(w, n - 1);
    }
  }

  /** The cursor's answer at every key, the first included. */
  lemma {:induction false} StopsIff(w: Work, n: nat)
    requires w.Ok() && n < |w.input|
    ensures Stops(w.files, w.maxFileSize, w.After(n).1, w.input[n].key) <==> w.IsStop(n)
  {
    hide Work.Ok, CursorIs, Stops;
    if n == 0 {
      FirstKey(w);
    } else {
      CursorAlways(w, n);
      NextKey(w, n);
    }
  }

  // ----- the pieces -----

  /** An output that is not too big and does not overlap too much. */
  ghost predicate PieceOk(w: Work, es: seq<Entry>) {
    && |es| > 0 && !Less(es[|es| - 1].key, es[0].key)
    && Passed(w.files, es[0].key, es[|es| - 1].key) <= 10 * w.maxFileSize
    && forall j :: 0 < j < |es| ==> w.fileSize(es[..j]) < w.maxFileSize
  }

  /** Why a closed output is followed by another: it had reached the file size, or had to stop. */
  ghost predicate CutOk(w: Work, es: seq<Entry>, next: seq<Entry>) {
    |es| > 0 && |next| > 0
    && (w.fileSize(es) >= w.maxFileSize || w.StoppedBetween(es[|es| - 1].key, next[0].key))
  }

  /** Why the last closed output was closed, while nothing has followed it among the first `n` keys. */
  ghost predicate ClosedOk(w: Work, es: seq<Entry>, n: nat)
    requires n <= |w.input|
  {
    |es| > 0
    && (w.fileSize(es) >= w.maxFileSize || exists q: nat :: q < n && w.IsStop(q) && Less(es[|es| - 1].key, w.input[q].key))
  }

  ghost predicate PiecesOk(w: Work, p: Pieces, n: nat)
    requires n <= |w.input|
  {
    && (forall k :: 0 <= k < |p.closed| ==> PieceOk(w, p.closed[k]))
    && (forall k :: 0 <= k < |p.closed| - 1 ==> CutOk(w, p.closed[k], p.closed[k + 1]))
    && (p.closed != [] ==> if p.open != [] then CutOk(w, p.closed[|p.closed| - 1], p.open)
                           else ClosedOk(w, p.closed[|p.closed| - 1], n))
    && (p.open != [] ==> n > 0 && OpenOk(w, p.open, n))
  }

  /** The open output began after the last stop and ends with a key that was read. */
  ghost predicate OpenOk(w: Work, open: seq<Entry>, n: nat)
    requires 0 < n <= |w.input|
  {
    && PieceOk(w, open) && w.fileSize(open) < w.maxFileSize
    && !Less(open[0].key, w.input[w.LastStop(n)].key)
    && !Less(w.input[n - 1].key, open[|open| - 1].key)
  }

  lemma {:induction false} ClosedLater(w: Work, es: seq<Entry>, n: nat)
    requires n < |w.input| && ClosedOk(w, es, n)
    ensures ClosedOk(w, es, n + 1)
  {
    hide Work.IsStop, Less;
  }

  /** A key at which nothing stops. */
  lemma {:induction false} PassOver(w: Work, p: Pieces, n: nat)
    requires w.Ok() && n < |w.input| && PiecesOk(w, p, n) && !w.IsStop(n)
    ensures PiecesOk(w, p, n + 1)
  {
    hide Work.Ok, PieceOk, CutOk, ClosedOk;
    if p.open != [] {
      StillOpen(w, p.open, n);
    } else if p.closed != [] {
      ClosedLater(w, p.closed[|p.closed| - 1], n);
    }
  }

  lemma {:induction false} StillOpen(w: Work, open: seq<Entry>, n: nat)
    requires w.Ok() && 0 < n < |w.input| && OpenOk(w, open, n) && !w.IsStop(n)
    ensures OpenOk(w, open, n + 1)
  {
    hide GoodFiles, DisjointSorted, PieceOk, Passed;
    assert Less(w.input[n - 1].key, w.input[n].key);
    assert PieceOk(w, open) ==> |open| > 0 by { PieceHasEntries(w, open); }
  }

  lemma {:induction false} PieceHasEntries(w: Work, es: seq<Entry>)
    ensures PieceOk(w, es) ==> |es| > 0
  {
  }

  /** A key at which the open output stops. */
  lemma {:induction false} StopHere(w: Work, p: Pieces, n: nat)
    requires w.Ok() && n < |w.input| && PiecesOk(w, p, n) && w.IsStop(n)
    ensures PiecesOk(w, p.Close(), n + 1)
  {
    hide Work.Ok, Work.IsStop, PieceOk, CutOk, ClosedOk;
    if p.open != [] {
      var closed := p.Close().closed;
      forall k | 0 <= k < |closed| - 1
        ensures CutOk(w, closed[k], closed[k + 1])
      {
      }
      StoppedOpen(w, p.open, n);
    } else if p.closed != [] {
      ClosedLater(w, p.closed[|p.closed| - 1], n);
    }
  }

  lemma {:induction false} StoppedOpen(w: Work, open: seq<Entry>, n: nat)
    requires w.Ok() && 0 < n < |w.input| && OpenOk(w, open, n) && w.IsStop(n)
    ensures PieceOk(w, open) && ClosedOk(w, open, n + 1)
  {
    hide GoodFiles, DisjointSorted, Passed, Work.IsStop;
    assert Less(w.input[n - 1].key, w.input[n].key);
  }

  /** The output that is open after one more survivor. */
  lemma {:induction false} Grown(w: Work, open: seq<Entry>, n: nat)
    requires w.Ok() && n < |w.input|
    requires open != [] ==> n > 0 && OpenOk(w, open, n + 1) && !w.IsStop(n)
    ensures var now := open + [w.input[n]];
            && PieceOk(w, now) && (w.fileSize(now) < w.maxFileSize ==> OpenOk(w, now, n + 1))
  {
    hide GoodFiles, DisjointSorted, Passed;
    var e := w.input[n];
    var now := open + [e];
    SortedKeys(w.input, w.LastStop(n + 1), n);
    if open == [] {
      PassedSelf(w.files, e.key);
    } else {
      var from := w.input[w.LastStop(n)].key;
      SortedKeys(w.input, w.LastStop(n), n);
      PassedAdds(w.files, from, open[0].key, e.key);
      forall j | 0 < j < |now|
        ensures w.fileSize(now[..j]) < w.maxFileSize
      {
        assert now[..j] == open[..j];
        assert open[..|open|] == open;
      }
    }
  }

  /** A survivor is added. */
  lemma {:induction false} AddHere(w: Work, p: Pieces, n: nat)
    requires w.Ok() && n < |w.input| && PiecesOk(w, p, n + 1)
    requires p.open != [] ==> n > 0 && !w.IsStop(n)
    ensures PiecesOk(w, p.Add(w.input[n], w.fileSize, w.maxFileSize), n + 1)
  {
    hide Work.Ok, Work.IsStop, PieceOk, OpenOk, Less;
    var now := p.open + [w.input[n]];
    Grown(w, p.open, n);
    if p.closed != [] {
      FollowedBy(w, p.closed[|p.closed| - 1], p.open, n);
    }
    var closed := p.closed + [now];
    assert now != [];
    forall k | 0 <= k < |closed| - 1
      ensures p.closed != [] ==> CutOk(w, closed[k], closed[k + 1])
    {
    }
  }

  lemma {:induction false} FollowedBy(w: Work, es: seq<Entry>, open: seq<Entry>, n: nat)
    requires w.Ok() && n < |w.input|
    requires if open != [] then CutOk(w, es, open) else ClosedOk(w, es, n + 1)
    ensures CutOk(w, es, open + [w.input[n]])
  {
    hide GoodFiles, DisjointSorted, Less, Work.IsStop;
    var now := open + [w.input[n]];
    if open == [] && w.fileSize(es) < w.maxFileSize {
      var q: nat :| q < n + 1 && w.IsStop(q) && Less(es[|es| - 1].key, w.input[q].key);
      SortedKeys(w.input, q, n);
    }
  }

  lemma {:induction false} PiecesAlways(w: Work, n: nat)
    requires w.Ok() && n <= |w.input|
    ensures PiecesOk(w, w.After(n).0, n)
  {
    hide Work.Ok, PiecesOk, Stops, CutAfter, Work.IsStop, Dropped, Advance;
    if n == 0 {
      NothingCut(w.v, w.level, w.input, w.ss, w.files, w.maxFileSize, w.fileSize);
      NoPieces(w);
    } else {
      var before := w.After(n - 1).0;
      PiecesAlways(w, n - 1);
      StopsIff(w, n - 1);
      CutStep(w.v, w.level, w.input, w.ss, w.files, w.maxFileSize, w.fileSize, n - 1);
      var pieces := if w.IsStop(n - 1) then before.Close() else before;
      if w.IsStop(n - 1) {
        StopHere(w, before, n - 1);
      } else {
        PassOver(w, before, n - 1);
        OpenNeedsKeys(w, before, n - 1);
      }
      if !Dropped(w.v, w.level, w.input, w.ss, n - 1) {
        AddHere(w, pieces, n - 1);
      }
    }
  }

  lemma {:induction false} NoPieces(w: Work)
    ensures PiecesOk(w, Pieces([], []), 0)
  {
  }

  lemma {:induction false} OpenNeedsKeys(w: Work, p: Pieces, n: nat)
    requires n <= |w.input| && PiecesOk(w, p, n)
    ensures p.open != [] ==> n > 0
  {
  }

  // ----- the theorem, on files -----

  lemma {:induction false} EntriesAt(outputs: seq<File>, k: nat)
    requires k < |outputs|
    ensures PieceEntries(outputs)[k] == outputs[k].entries
  {
    if k < |outputs| - 1 {
      EntriesAt(outputs[..|outputs| - 1], k);
    }
  }

  /** Of what a finished compaction wrote: every output passes at most ten files' worth of the files two levels
      down between its smallest and its largest key; none had reached the file size before its last entry; and
      one that is not the last and is below the file size was closed at a key to which more than ten files'
      worth is passed since the last such stop. */
  lemma {:induction false} OutputsOverlapLittle(w: Work, outputs: seq<File>, lo: nat, hi: nat)
    requires w.Ok() && GoodOutputs(outputs, lo, hi)
    requires PieceEntries(outputs) == w.After(|w.input|).0.Close().closed
    ensures forall o :: o in outputs ==> Passed(w.files, o.smallest, o.largest) <= 10 * w.maxFileSize
    ensures forall o, j :: o in outputs && 0 < j < |o.entries| ==> w.fileSize(o.entries[..j]) < w.maxFileSize
    ensures forall k :: 0 <= k < |outputs| - 1 && w.fileSize(outputs[k].entries) < w.maxFileSize ==>
              exists q: nat :: 0 < q < |w.input|
                && Less(outputs[k].largest, w.input[q].key) && !Less(outputs[k + 1].smallest, w.input[q].key)
                && Passed(w.files, w.input[w.LastStop(q)].key, w.input[q].key) > 10 * w.maxFileSize
  {
    hide Work.Ok, Passed, CutAfter, Less, Work.LastStop, PieceEntries;
    var p := w.After(|w.input|).0;
    PiecesAlways(w, |w.input|);
    var all := p.Close().closed;
    forall k | 0 <= k < |all|
      ensures PieceOk(w, all[k]) && all[k] == outputs[k].entries
      ensures k < |all| - 1 ==> CutOk(w, all[k], all[k + 1])
    {
      EntriesAt(outputs, k);
    }
    forall o | o in outputs
      ensures PieceOk(w, o.entries) && o.smallest == o.entries[0].key && o.largest == o.entries[|o.entries| - 1].key
    {
      var k :| 0 <= k < |outputs| && outputs[k] == o;
      assert all[k] == o.entries;
    }
    forall k | 0 <= k < |outputs| - 1 && w.fileSize(outputs[k].entries) < w.maxFileSize
      ensures exists q: nat :: 0 < q < |w.input|
                && Less(outputs[k].largest, w.input[q].key) && !Less(outputs[k + 1].smallest, w.input[q].key)
                && Passed(w.files, w.input[w.LastStop(q)].key, w.input[q].key) > 10 * w.maxFileSize
    {
      assert CutOk(w, all[k], all[k + 1]);
      assert outputs[k] in outputs && outputs[k + 1] in outputs;
      var q: nat :| w.IsStop(q) && Less(outputs[k].largest, w.input[q].key) && !Less(outputs[k + 1].smallest, w.input[q].key);
    }
  }
}
