// Which files overlap a user key range: the query used to place a flushed
// memtable, and the selection of the files a compaction reads.

module Overlaps {
  import opened Keys
  import opened Levels

  predicate AfterFile(u: Option<UserKey>, f: File)
  {
    u.Some? && u.value > f.largest.user
  }

  predicate BeforeFile(u: Option<UserKey>, f: File)
  {
    u.Some? && u.value < f.smallest.user
  }

  /** `f` overlaps the closed user key range; None is an open end. */
  predicate Touches(f: File, begin: Option<UserKey>, end: Option<UserKey>)
  {
    !AfterFile(begin, f) && !BeforeFile(end, f)
  }

  method SomeFileOverlapsRange(disjointSorted: bool, files: seq<File>,
                               smallest: Option<UserKey>, largest: Option<UserKey>) returns (r: bool)
    requires GoodFiles(files) && (disjointSorted ==> DisjointSorted(files))
    requires smallest.Some? && largest.Some? ==> smallest.value <= largest.value
    ensures r <==> exists f :: f in files && Touches(f, smallest, largest)
  {
    if !disjointSorted {
      for i := 0 to |files|
        invariant forall j :: 0 <= j < i ==> !Touches(files[j], smallest, largest)
      {
        if AfterFile(smallest, files[i]) || BeforeFile(largest, files[i]) {
        } else {
          assert Touches(files[i], smallest, largest);
          return true;
        }
      }
      return false;
    }
    var index := 0;
    if smallest.Some? {
      index := FindFile(files, InternalKey(smallest.value, MAX_SEQUENCE_NUMBER, Value));
    }
    forall j | 0 <= j < |files|
      ensures j < index <==> AfterFile(smallest, files[j])
    {
      FileBounds(files[j], |files[j].entries| - 1);
    }
    if index >= |files| {
      return false;
    }
    r := !BeforeFile(largest, files[index]);
    if r {
      assert Touches(files[index], smallest, largest);
    } else {
      forall j | index <= j < |files|
        ensures BeforeFile(largest, files[j])
      {
        if index < j {
          assert Less(files[index].largest, files[j].smallest);
          FileBounds(files[index], |files[index].entries| - 1);
        }
      }
    }
  }

  function TotalFileSize(files: seq<File>): (sum: nat) {
    if files == [] then 0 else files[0].size + TotalFileSize(files[1..])
  }

  // ----- GetOverlappingInputs -----

  /** The files of a level that overlap a range, in the level's order. */
  function Select(files: seq<File>, begin: Option<UserKey>, end: Option<UserKey>): (r: seq<File>)
    ensures forall f :: f in r <==> f in files && Touches(f, begin, end)
    ensures |r| <= |files|
  {
    if files == [] then []
    else
      var n := |files| - 1;
      var front := Select(files[..n], begin, end);
      if Touches(files[n], begin, end) then front + [files[n]] else front
  }

  /** `[b1, e1]` lies inside `[b2, e2]`. */
  predicate Within(b1: Option<UserKey>, e1: Option<UserKey>, b2: Option<UserKey>, e2: Option<UserKey>) {
    && (b2.Some? ==> b1.Some? && b2.value <= b1.value)
    && (e2.Some? ==> e1.Some? && e1.value <= e2.value)
  }

  /** Every file that overlaps the range lies inside it. */
  ghost predicate OverlapClosed(files: seq<File>, begin: Option<UserKey>, end: Option<UserKey>)
  {
    forall f :: f in files && Touches(f, begin, end) ==>
      Within(Some(f.smallest.user), Some(f.largest.user), begin, end)
  }

  /** How many files still reach out of the range on either side: what a restart uses up. */
  ghost function Outside(files: seq<File>, begin: Option<UserKey>, end: Option<UserKey>): (n: nat)
  {
    if files == [] then 0
    else
      Outside(files[1..], begin, end)
      + (if begin.Some? && files[0].smallest.user < begin.value then 1 else 0)
      + (if end.Some? && files[0].largest.user > end.value then 1 else 0)
  }

  lemma {:induction false} OutsideShrinks(files: seq<File>, b: Option<UserKey>, e: Option<UserKey>,
                                          b2: Option<UserKey>, e2: Option<UserKey>, f: File)
    requires Within(b, e, b2, e2) && (b.Some? <==> b2.Some?) && (e.Some? <==> e2.Some?)
    requires f in files
    requires (b.Some? && f.smallest.user < b.value && f.smallest.user >= b2.value)
             || (e.Some? && f.largest.user > e.value && f.largest.user <= e2.value)
    ensures Outside(files, b2, e2) < Outside(files, b, e)
  {
    OutsideMonotone(files[1..], b, e, b2, e2);
    if files[0] != f {
      OutsideShrinks(files[1..], b, e, b2, e2, f);
    }
  }

  lemma {:induction false} OutsideMonotone(files: seq<File>, b: Option<UserKey>, e: Option<UserKey>,
                                           b2: Option<UserKey>, e2: Option<UserKey>)
    requires Within(b, e, b2, e2) && (b.Some? <==> b2.Some?) && (e.Some? <==> e2.Some?)
    ensures Outside(files, b2, e2) <= Outside(files, b, e)
  {
    if files != [] {
      OutsideMonotone(files[1..], b, e, b2, e2);
    }
  }

  lemma {:induction false} SelectSnoc(files: seq<File>, n: nat, b: Option<UserKey>, e: Option<UserKey>)
    requires n < |files|
    ensures Select(files[..n + 1], b, e)
         == Select(files[..n], b, e) + if Touches(files[n], b, e) then [files[n]] else []
  {
    assert files[..n + 1][..n] == files[..n];
    assert files[..n + 1][n] == files[n];
  }

  /** No overlap-closed range around `[begin, end]` leaves out any of `[ub, ue]`. */
  ghost predicate Least(files: seq<File>, begin: Option<UserKey>, end: Option<UserKey>,
                        ub: Option<UserKey>, ue: Option<UserKey>)
  {
    forall b, e :: Within(begin, end, b, e) && OverlapClosed(files, b, e) ==> Within(ub, ue, b, e)
  }

  lemma {:induction false} WidenKeepsLeast(files: seq<File>, begin: Option<UserKey>, end: Option<UserKey>,
                        ub: Option<UserKey>, ue: Option<UserKey>, f: File)
    requires GoodFiles(files)
    requires f in files && Touches(f, ub, ue) && Least(files, begin, end, ub, ue)
    ensures ub.Some? ==> Least(files, begin, end, Some(f.smallest.user), ue)
    ensures ue.Some? ==> Least(files, begin, end, ub, Some(f.largest.user))
  {
    forall b, e | Within(begin, end, b, e) && OverlapClosed(files, b, e)
      ensures ub.Some? ==> Within(Some(f.smallest.user), ue, b, e)
      ensures ue.Some? ==> Within(ub, Some(f.largest.user), b, e)
    {
      assert Within(ub, ue, b, e);
      assert Touches(f, b, e);
    }
  }

  /** Progress of the scan: `inputs` is the selection among the first `i` files for a range that
      is no wider than it has to be. */
  ghost predicate Scanned(files: seq<File>, level: nat, begin: Option<UserKey>, end: Option<UserKey>,
                          ub: Option<UserKey>, ue: Option<UserKey>, i: nat, inputs: seq<File>)
    requires GoodFiles(files)
  {
    && i <= |files|
    && (level > 0 ==> ub == begin && ue == end)
    && (ub.Some? <==> begin.Some?)
    && (ue.Some? <==> end.Some?)
    && Within(begin, end, ub, ue)
    && inputs == Select(files[..i], ub, ue)
    && (level == 0 ==> OverlapClosed(files[..i], ub, ue))
    && Least(files, begin, end, ub, ue)
  }

  lemma {:induction false} StartScan(files: seq<File>, level: nat, begin: Option<UserKey>, end: Option<UserKey>)
    requires GoodFiles(files)
    ensures Scanned(files, level, begin, end, begin, end, 0, [])
  {
  }

  /** One file examined without a restart. */
  lemma {:induction false} ScanOne(files: seq<File>, level: nat, begin: Option<UserKey>, end: Option<UserKey>,
                ub: Option<UserKey>, ue: Option<UserKey>, i: nat, inputs: seq<File>)
    requires GoodFiles(files) && i < |files|
    requires Scanned(files, level, begin, end, ub, ue, i, inputs)
    requires level == 0 && Touches(files[i], ub, ue) ==>
               Within(Some(files[i].smallest.user), Some(files[i].largest.user), ub, ue)
    ensures Scanned(files, level, begin, end, ub, ue, i + 1,
                    inputs + if Touches(files[i], ub, ue) then [files[i]] else [])
  {
    hide Select, Least, Within, GoodFiles, Touches;
    SelectSnoc(files, i, ub, ue);
    assert files[..i + 1] == files[..i] + [files[i]];
  }

  /** A restart with a wider range. */
  lemma {:induction false} ScanRestart(files: seq<File>, begin: Option<UserKey>, end: Option<UserKey>,
                    ub: Option<UserKey>, ue: Option<UserKey>, i: nat, inputs: seq<File>,
                    ub2: Option<UserKey>, ue2: Option<UserKey>)
    requires GoodFiles(files) && i < |files|
    requires Scanned(files, 0, begin, end, ub, ue, i, inputs) && Touches(files[i], ub, ue)
    requires (ub2 == Some(files[i].smallest.user) && ue2 == ue && ub.Some? && ub2.value < ub.value)
             || (ub2 == ub && ue2 == Some(files[i].largest.user) && ue.Some? && ue2.value > ue.value)
    ensures Scanned(files, 0, begin, end, ub2, ue2, 0, [])
    ensures Outside(files, ub2, ue2) < Outside(files, ub, ue)
  {
    WidenKeepsLeast(files, begin, end, ub, ue, files[i]);
    OutsideShrinks(files, ub, ue, ub2, ue2, files[i]);
  }

  /** All files of a level that overlap the range.  In level 0, where files overlap one another,
      every file found widens the range and restarts the scan: the result is the selection for the
      least range around `[begin, end]` that is closed under overlap. */
  method GetOverlappingInputs(files: seq<File>, level: nat, begin: Option<UserKey>, end: Option<UserKey>)
    returns (inputs: seq<File>, userBegin: Option<UserKey>, userEnd: Option<UserKey>)
    requires GoodFiles(files)
    ensures level > 0 ==> userBegin == begin && userEnd == end
    ensures inputs == Select(files, userBegin, userEnd)
    ensures Within(begin, end, userBegin, userEnd)
    ensures level == 0 ==> OverlapClosed(files, userBegin, userEnd)
    ensures Least(files, begin, end, userBegin, userEnd)
  {
    hide Select, Least, OverlapClosed, Outside, GoodFiles;
    StartScan(files, level, begin, end);
    inputs := [];
    var ub, ue := begin, end;
    var i := 0;
    while i < |files|
      invariant Scanned(files, level, begin, end, ub, ue, i, inputs)
      decreases Outside(files, ub, ue), |files| - i
    {
      var f := files[i];
      var fileStart, fileLimit := f.smallest.user, f.largest.user;
      if ub.Some? && fileLimit < ub.value {
        ScanOne(files, level, begin, end, ub, ue, i, inputs);
        i := i + 1;
      } else if ue.Some? && fileStart > ue.value {
        ScanOne(files, level, begin, end, ub, ue, i, inputs);
        i := i + 1;
      } else if level == 0 && ub.Some? && fileStart < ub.value {
        ScanRestart(files, begin, end, ub, ue, i, inputs, Some(fileStart), ue);
        ub := Some(fileStart);
        inputs := [];
        i := 0;
      } else if level == 0 && ue.Some? && fileLimit > ue.value {
        ScanRestart(files, begin, end, ub, ue, i, inputs, ub, Some(fileLimit));
        ue := Some(fileLimit);
        inputs := [];
        i := 0;
      } else {
        ScanOne(files, level, begin, end, ub, ue, i, inputs);
        inputs := inputs + [f];
        i := i + 1;
      }
    }
    assert files[..|files|] == files;
    userBegin, userEnd := ub, ue;
  }

  // ----- ranges of input sets -----

  ghost predicate IsUserRange(files: seq<File>, lo: UserKey, hi: UserKey) {
    && (forall f :: f in files ==> lo <= f.smallest.user && f.largest.user <= hi)
    && (exists f :: f in files && f.smallest.user == lo)
    && (exists f :: f in files && f.largest.user == hi)
  }

  /** The minimal internal key range that covers all entries of the inputs. */
  method GetRange(inputs: seq<File>) returns (smallest: InternalKey, largest: InternalKey)
    requires |inputs| > 0 && GoodFiles(inputs)
    ensures forall f :: f in inputs ==> !Less(f.smallest, smallest) && !Less(largest, f.largest)
    ensures IsUserRange(inputs, smallest.user, largest.user) && IsLargest(inputs, largest)
  {
    smallest, largest := inputs[0].smallest, inputs[0].largest;
    for i := 1 to |inputs|
      invariant forall j :: 0 <= j < i ==> !Less(inputs[j].smallest, smallest) && !Less(largest, inputs[j].largest)
      invariant exists j :: 0 <= j < i && inputs[j].smallest == smallest
      invariant exists j :: 0 <= j < i && inputs[j].largest == largest
    {
      if Compare(inputs[i].smallest, smallest) < 0 {
        smallest := inputs[i].smallest;
      }
      if Compare(inputs[i].largest, largest) > 0 {
        largest := inputs[i].largest;
      }
    }
    var a :| 0 <= a < |inputs| && inputs[a].smallest == smallest;
    var b :| 0 <= b < |inputs| && inputs[b].largest == largest;
    assert inputs[a] in inputs && inputs[b] in inputs;
  }

  // ----- placing a flushed memtable -----

  ghost predicate SomeTouches(files: seq<File>, small: UserKey, large: UserKey) {
    exists f :: f in files && Touches(f, Some(small), Some(large))
  }

  /** A table may go one level deeper: nothing overlaps there, and not too many bytes in the level after. */
  ghost predicate MayDescend(v: Version, level: nat, small: UserKey, large: UserKey, maxFileSize: nat)
    requires level + 2 < NUM_LEVELS
  {
    && !SomeTouches(v[level + 1], small, large)
    && TotalFileSize(Select(v[level + 2], Some(small), Some(large))) <= 10 * maxFileSize
  }

  /** The level for a new table that covers `[small, large]`: level 0 if something overlaps there, otherwise
      as deep as it may go, but not below level 2. */
  method PickLevelForMemTableOutput(v: Version, small: UserKey, large: UserKey, maxFileSize: nat) returns (level: nat)
    requires Shape(v) && small <= large
    ensures level <= MAX_MEM_COMPACT_LEVEL
    ensures level > 0 ==> forall l :: 0 <= l <= level ==> !SomeTouches(v[l], small, large)
    ensures SomeTouches(v[0], small, large) ==> level == 0
    ensures !SomeTouches(v[0], small, large) ==>
              && (forall l :: 0 <= l < level ==> MayDescend(v, l, small, large, maxFileSize))
              && (level < MAX_MEM_COMPACT_LEVEL ==> !MayDescend(v, level, small, large, maxFileSize))
  {
    hide Touches, Select, TotalFileSize, GoodFiles, DisjointSorted;
    level := 0;
    var overlap0 := SomeFileOverlapsRange(false, v[0], Some(small), Some(large));
    if !overlap0 {
      while level < MAX_MEM_COMPACT_LEVEL
        invariant level <= MAX_MEM_COMPACT_LEVEL
        invariant forall l :: 0 <= l <= level ==> !SomeTouches(v[l], small, large)
        invariant forall l :: 0 <= l < level ==> MayDescend(v, l, small, large, maxFileSize)
      {
        var overlap := SomeFileOverlapsRange(true, v[level + 1], Some(small), Some(large));
        if overlap {
          break;
        }
        if level + 2 < NUM_LEVELS {
          var overlaps, _, _ := GetOverlappingInputs(v[level + 2], level + 2, Some(small), Some(large));
          if TotalFileSize(overlaps) > 10 * maxFileSize {
            break;
          }
        }
        level := level + 1;
      }
    }
  }

  // ----- choosing the inputs of a compaction -----

  lemma {:induction false} TouchesWider(f: File, b: Option<UserKey>, e: Option<UserKey>, b2: Option<UserKey>, e2: Option<UserKey>)
    requires Within(b, e, b2, e2) && Touches(f, b, e)
    ensures Touches(f, b2, e2)
  {
  }

  lemma {:induction false} SelectWider(files: seq<File>, b: Option<UserKey>, e: Option<UserKey>,
                                       b2: Option<UserKey>, e2: Option<UserKey>)
    requires Within(b, e, b2, e2)
    ensures |Select(files, b, e)| <= |Select(files, b2, e2)|
    ensures |Select(files, b, e)| == |Select(files, b2, e2)| ==> Select(files, b, e) == Select(files, b2, e2)
  {
    hide Touches, Within;
    if files != [] {
      var n := |files| - 1;
      SelectWider(files[..n], b, e, b2, e2);
      if Touches(files[n], b, e) {
        TouchesWider(files[n], b, e, b2, e2);
      }
    }
  }

  lemma {:induction false} RangeUnique(files: seq<File>, lo: UserKey, hi: UserKey, lo2: UserKey, hi2: UserKey)
    requires GoodFiles(files)
    requires IsUserRange(files, lo, hi) && IsUserRange(files, lo2, hi2)
    ensures lo == lo2 && hi == hi2
  {
  }

  datatype Inputs = Inputs(level: nat, upper: seq<File>, lower: seq<File>, grandparents: seq<File>,
                           pointer: InternalKey)

  ghost predicate UpperClosed(v: Version, level: nat, upper: seq<File>)
    requires Shape(v) && level < NUM_LEVELS
  {
    && |upper| > 0
    && (forall f :: f in upper ==> f in v[level])
    && (level == 0 ==> forall f, g :: f in upper && g in v[0] && g !in upper ==>
          !Touches(g, Some(f.smallest.user), Some(f.largest.user)))
  }

  /** What a finished selection promises: upper inputs no level-0 file was left out of, and exactly
      the files of the next level that overlap their user key range. */
  ghost predicate InputsClosed(v: Version, c: Inputs)
    requires Shape(v)
  {
    && c.level + 1 < NUM_LEVELS
    && UpperClosed(v, c.level, c.upper)
    && LowerMatches(v, c.level, c.upper, c.lower)
  }

  lemma {:induction false} ClosedSelection(v: Version, b: Option<UserKey>, e: Option<UserKey>, upper: seq<File>)
    requires Shape(v)
    requires upper == Select(v[0], b, e) && OverlapClosed(v[0], b, e)
    ensures forall f, g :: f in upper && g in v[0] && g !in upper ==>
              !Touches(g, Some(f.smallest.user), Some(f.largest.user))
  {
  }

  lemma {:induction false} UpperIsGood(v: Version, level: nat, upper: seq<File>)
    requires Shape(v) && level < NUM_LEVELS
    requires forall f :: f in upper ==> f in v[level]
    ensures GoodFiles(upper)
  {
    forall i | 0 <= i < |upper|
      ensures GoodFile(upper[i])
    {
      assert upper[i] in upper;
    }
  }

  /** The files of the next level for a set of upper inputs. */
  method LowerFor(v: Version, level: nat, upper: seq<File>) returns (lower: seq<File>, largest: InternalKey)
    requires Shape(v) && level + 1 < NUM_LEVELS && UpperClosed(v, level, upper)
    ensures LowerMatches(v, level, upper, lower)
    ensures forall f :: f in lower ==> f in v[level + 1]
    ensures IsLargest(upper, largest)
  {
    UpperIsGood(v, level, upper);
    var smallest, limit := GetRange(upper);
    ghost var b, e;
    lower, b, e := GetOverlappingInputs(v[level + 1], level + 1, Some(smallest.user), Some(limit.user));
    largest := limit;
    forall lo, hi | IsUserRange(upper, lo, hi)
      ensures lower == Select(v[level + 1], Some(lo), Some(hi))
    {
      RangeUnique(upper, smallest.user, limit.user, lo, hi);
    }
  }

  /** `lower` is exactly the files of the next level that overlap the user key range of `upper`. */
  ghost predicate LowerMatches(v: Version, level: nat, upper: seq<File>, lower: seq<File>)
    requires level + 1 < NUM_LEVELS
  {
    && (exists lo, hi :: IsUserRange(upper, lo, hi))
    && (forall lo, hi :: IsUserRange(upper, lo, hi) ==> lower == Select(v[level + 1], Some(lo), Some(hi)))
  }

  /** A larger upper set that picks up as many lower files picks up the same ones. */
  lemma {:induction false} SameCountSameLower(v: Version, level: nat, upper: seq<File>, lower: seq<File>,
                           upper2: seq<File>, lower2: seq<File>)
    requires Shape(v) && level + 1 < NUM_LEVELS
    requires LowerMatches(v, level, upper, lower) && LowerMatches(v, level, upper2, lower2)
    requires forall f :: f in upper ==> f in upper2
    requires |lower| == |lower2|
    ensures lower == lower2
  {
    var lo, hi :| IsUserRange(upper, lo, hi);
    var lo2, hi2 :| IsUserRange(upper2, lo2, hi2);
    SelectWider(v[level + 1], Some(lo), Some(hi), Some(lo2), Some(hi2));
  }

  /** `r` is what GetOverlappingInputs finds for `[lo, hi]`: the selection for the range itself, at level 0
      for the least range around it that is closed under overlap. */
  ghost predicate Covers(files: seq<File>, level: nat, lo: UserKey, hi: UserKey, r: seq<File>) {
    exists b, e ::
      && Within(Some(lo), Some(hi), b, e) && r == Select(files, b, e)
      && (if level == 0 then OverlapClosed(files, b, e) && Least(files, Some(lo), Some(hi), b, e)
          else b == Some(lo) && e == Some(hi))
  }

  /** The range of a set of files decides what it covers. */
  lemma {:induction false} CoversUnique(files: seq<File>, level: nat, lo: UserKey, hi: UserKey, r: seq<File>, r2: seq<File>)
    requires Covers(files, level, lo, hi, r) && Covers(files, level, lo, hi, r2)
    ensures r == r2
  {
    hide Select, OverlapClosed;
    var b, e :| Within(Some(lo), Some(hi), b, e) && r == Select(files, b, e)
                && (if level == 0 then OverlapClosed(files, b, e) && Least(files, Some(lo), Some(hi), b, e)
                    else b == Some(lo) && e == Some(hi));
    var b2, e2 :| Within(Some(lo), Some(hi), b2, e2) && r2 == Select(files, b2, e2)
                && (if level == 0 then OverlapClosed(files, b2, e2) && Least(files, Some(lo), Some(hi), b2, e2)
                    else b2 == Some(lo) && e2 == Some(hi));
    if level == 0 {
      assert Within(b, e, b2, e2) && Within(b2, e2, b, e);
    }
  }

  /** All upper-level files within the range the compaction covers anyway. */
  ghost predicate IsExpansion(v: Version, level: nat, inputs0: seq<File>, inputs1: seq<File>, expanded0: seq<File>)
    requires level < NUM_LEVELS
  {
    exists lo, hi :: IsUserRange(inputs0 + inputs1, lo, hi) && Covers(v[level], level, lo, hi, expanded0)
  }

  method Expand(v: Version, level: nat, inputs0: seq<File>, inputs1: seq<File>) returns (expanded0: seq<File>)
    requires Shape(v) && level + 1 < NUM_LEVELS && UpperClosed(v, level, inputs0)
    requires forall f :: f in inputs1 ==> f in v[level + 1]
    ensures IsExpansion(v, level, inputs0, inputs1, expanded0)
    ensures UpperClosed(v, level, expanded0)
    ensures forall f :: f in inputs0 ==> f in expanded0
  {
    UpperIsGood(v, level, inputs0);
    UpperIsGood(v, level + 1, inputs1);
    var allStart, allLimit := GetRange(inputs0 + inputs1);
    ghost var b, e;
    expanded0, b, e := GetOverlappingInputs(v[level], level, Some(allStart.user), Some(allLimit.user));
    assert Covers(v[level], level, allStart.user, allLimit.user, expanded0);
    AllTouch(v, level, inputs0, inputs1, allStart.user, allLimit.user, b, e);
    assert inputs0[0] in inputs0;
    if level == 0 { ClosedSelection(v, b, e, expanded0); }
  }

  lemma {:induction false} AllTouch(v: Version, level: nat, inputs0: seq<File>, inputs1: seq<File>, lo: UserKey, hi: UserKey,
                                    b: Option<UserKey>, e: Option<UserKey>)
    requires Shape(v) && level < NUM_LEVELS && (forall f :: f in inputs0 ==> f in v[level])
    requires IsUserRange(inputs0 + inputs1, lo, hi) && Within(Some(lo), Some(hi), b, e)
    ensures forall f :: f in inputs0 ==> f in Select(v[level], b, e)
  {
    forall f | f in inputs0
      ensures f in Select(v[level], b, e)
    {
      assert f in inputs0 + inputs1;
      var i :| 0 <= i < |v[level]| && v[level][i] == f;
      FileBounds(f, |f.entries| - 1);
    }
  }

  /** The upper inputs grow to everything in the range covered anyway, if that is more files, not too many
      bytes, and picks up no further file of the next level. */
  ghost predicate Grows(v: Version, level: nat, inputs0: seq<File>, inputs1: seq<File>, expanded0: seq<File>, maxFileSize: nat)
    requires level + 1 < NUM_LEVELS
  {
    && |inputs1| > 0
    && |expanded0| > |inputs0|
    && TotalFileSize(inputs1) + TotalFileSize(expanded0) < 25 * maxFileSize
    && LowerMatches(v, level, expanded0, inputs1)
  }

  /** The files two levels down that overlap the inputs. */
  ghost predicate GrandparentsMatch(v: Version, c: Inputs) {
    if c.level + 2 < NUM_LEVELS then
      forall lo, hi :: IsUserRange(c.upper + c.lower, lo, hi) ==> c.grandparents == Select(v[c.level + 2], Some(lo), Some(hi))
    else c.grandparents == []
  }

  /** The key the next compaction of the level starts after. */
  ghost predicate IsLargest(files: seq<File>, key: InternalKey) {
    && (exists f :: f in files && f.largest == key)
    && forall f :: f in files ==> !Less(key, f.largest)
  }

  /** `c` is what `inputs0` is completed to. */
  ghost predicate IsSetup(v: Version, level: nat, inputs0: seq<File>, maxFileSize: nat, c: Inputs)
    requires Shape(v) && level + 1 < NUM_LEVELS
  {
    && c.level == level
    && LowerMatches(v, level, inputs0, c.lower)
    && (exists expanded0 :: IsExpansion(v, level, inputs0, c.lower, expanded0)
          && c.upper == if Grows(v, level, inputs0, c.lower, expanded0, maxFileSize) then expanded0 else inputs0)
    && InputsClosed(v, c)
    && GrandparentsMatch(v, c)
    && IsLargest(c.upper, c.pointer)
  }

  method GrandparentsFor(v: Version, level: nat, upper: seq<File>, lower: seq<File>) returns (grandparents: seq<File>)
    requires Shape(v) && level + 1 < NUM_LEVELS && UpperClosed(v, level, upper)
    requires forall f :: f in lower ==> f in v[level + 1]
    ensures level + 2 < NUM_LEVELS ==> forall lo, hi :: IsUserRange(upper + lower, lo, hi) ==>
              grandparents == Select(v[level + 2], Some(lo), Some(hi))
    ensures level + 2 >= NUM_LEVELS ==> grandparents == []
  {
    grandparents := [];
    if level + 2 < NUM_LEVELS {
      UpperIsGood(v, level, upper);
      UpperIsGood(v, level + 1, lower);
      var allStart, allLimit := GetRange(upper + lower);
      var selected, _, _ := GetOverlappingInputs(v[level + 2], level + 2, Some(allStart.user), Some(allLimit.user));
      grandparents := selected;
      forall lo, hi | IsUserRange(upper + lower, lo, hi)
        ensures grandparents == Select(v[level + 2], Some(lo), Some(hi))
      {
        RangeUnique(upper + lower, allStart.user, allLimit.user, lo, hi);
      }
    }
  }

  /** Adds the overlapping files of the next level, and grows the upper inputs when that does not
      change which files of the next level are picked up. */
  method SetupOtherInputs(v: Version, level: nat, inputs0: seq<File>, maxFileSize: nat) returns (c: Inputs)
    requires Shape(v) && level + 1 < NUM_LEVELS && UpperClosed(v, level, inputs0)
    ensures IsSetup(v, level, inputs0, maxFileSize, c)
    ensures forall f :: f in inputs0 ==> f in c.upper
  {
    hide UpperClosed, LowerMatches, IsExpansion, Shape, IsUserRange, Select;
    var inputs1, largest := LowerFor(v, level, inputs0);
    var upper := inputs0;
    ghost var expanded0 := AnyExpansion(v, level, inputs0, inputs1);
    if |inputs1| > 0 {
      var found := Expand(v, level, inputs0, inputs1);
      ExpansionUnique(v, level, inputs0, inputs1, expanded0, found);
      if |found| > |inputs0|
         && TotalFileSize(inputs1) + TotalFileSize(found) < 25 * maxFileSize {
        var expanded1, newLimit := LowerFor(v, level, found);
        SameCount(v, level, inputs0, inputs1, found, expanded1);
        if |expanded1| == |inputs1| {
          largest := newLimit;
          upper := found;
          inputs1 := expanded1;
        }
      }
    }
    var grandparents := GrandparentsFor(v, level, upper, inputs1);
    c := Inputs(level, upper, inputs1, grandparents, largest);
  }

  /** A larger upper set picks up as many lower files exactly if it picks up the same ones. */
  lemma {:induction false} SameCount(v: Version, level: nat, upper: seq<File>, lower: seq<File>, upper2: seq<File>, lower2: seq<File>)
    requires Shape(v) && level + 1 < NUM_LEVELS
    requires LowerMatches(v, level, upper, lower) && LowerMatches(v, level, upper2, lower2)
    requires forall f :: f in upper ==> f in upper2
    ensures |lower| == |lower2| <==> LowerMatches(v, level, upper2, lower)
    ensures |lower| == |lower2| ==> lower == lower2
  {
    hide Shape, IsUserRange, Select;
    if |lower| == |lower2| {
      SameCountSameLower(v, level, upper, lower, upper2, lower2);
    }
    if LowerMatches(v, level, upper2, lower) {
      var lo, hi :| IsUserRange(upper2, lo, hi);
    }
  }

  /** There is an expansion whether or not anybody asks for it. */
  lemma {:induction false} AnyExpansion(v: Version, level: nat, inputs0: seq<File>, inputs1: seq<File>) returns (expanded0: seq<File>)
    requires Shape(v) && level + 1 < NUM_LEVELS && UpperClosed(v, level, inputs0)
    requires forall f :: f in inputs1 ==> f in v[level + 1]
    ensures IsExpansion(v, level, inputs0, inputs1, expanded0)
  {
    hide Select, OverlapClosed, Least;
    var lo, hi := RangeExists(inputs0 + inputs1);
    var b, e := Some(lo), Some(hi);
    if level == 0 {
      LeastFromStart(v[0], Some(lo), Some(hi));
      b, e := LeastClosed(v[0], lo, hi, lo, hi);
    }
    expanded0 := Select(v[level], b, e);
    assert Within(Some(lo), Some(hi), b, e);
    assert Covers(v[level], level, lo, hi, expanded0);
  }

  lemma {:induction false} LeastFromStart(files: seq<File>, b: Option<UserKey>, e: Option<UserKey>)
    ensures Least(files, b, e, b, e)
  {
  }

  lemma {:induction false} RangeExists(files: seq<File>) returns (lo: UserKey, hi: UserKey)
    requires files != []
    ensures IsUserRange(files, lo, hi)
  {
    var n := |files| - 1;
    if n == 0 {
      lo, hi := files[0].smallest.user, files[0].largest.user;
      assert files[0] in files;
    } else {
      var front := files[..n];
      var l, h := RangeExists(front);
      lo := if files[n].smallest.user < l then files[n].smallest.user else l;
      hi := if files[n].largest.user > h then files[n].largest.user else h;
      assert files == front + [files[n]] && files[n] in files;
    }
  }

  /** Widening step by step ends in the least closed range. */
  lemma {:induction false} LeastClosed(files: seq<File>, begin: UserKey, end: UserKey, lo: UserKey, hi: UserKey)
    returns (b: Option<UserKey>, e: Option<UserKey>)
    requires GoodFiles(files) && Within(Some(begin), Some(end), Some(lo), Some(hi))
    requires Least(files, Some(begin), Some(end), Some(lo), Some(hi))
    ensures Within(Some(begin), Some(end), b, e) && OverlapClosed(files, b, e) && Least(files, Some(begin), Some(end), b, e)
    decreases Outside(files, Some(lo), Some(hi))
  {
    hide Outside, Least, GoodFiles;
    if f :| f in files && Touches(f, Some(lo), Some(hi)) && f.smallest.user < lo {
      WidenKeepsLeast(files, Some(begin), Some(end), Some(lo), Some(hi), f);
      OutsideShrinks(files, Some(lo), Some(hi), Some(f.smallest.user), Some(hi), f);
      b, e := LeastClosed(files, begin, end, f.smallest.user, hi);
    } else if f :| f in files && Touches(f, Some(lo), Some(hi)) && f.largest.user > hi {
      WidenKeepsLeast(files, Some(begin), Some(end), Some(lo), Some(hi), f);
      OutsideShrinks(files, Some(lo), Some(hi), Some(lo), Some(f.largest.user), f);
      b, e := LeastClosed(files, begin, end, lo, f.largest.user);
    } else {
      b, e := Some(lo), Some(hi);
    }
  }

  lemma {:induction false} ExpansionUnique(v: Version, level: nat, inputs0: seq<File>, inputs1: seq<File>,
                                           a: seq<File>, b: seq<File>)
    requires Shape(v) && level + 1 < NUM_LEVELS && UpperClosed(v, level, inputs0)
    requires forall f :: f in inputs1 ==> f in v[level + 1]
    requires IsExpansion(v, level, inputs0, inputs1, a) && IsExpansion(v, level, inputs0, inputs1, b)
    ensures a == b
  {
    hide Covers, IsUserRange, Shape;
    UpperIsGood(v, level, inputs0);
    UpperIsGood(v, level + 1, inputs1);
    var lo, hi :| IsUserRange(inputs0 + inputs1, lo, hi) && Covers(v[level], level, lo, hi, a);
    var lo2, hi2 :| IsUserRange(inputs0 + inputs1, lo2, hi2) && Covers(v[level], level, lo2, hi2, b);
    RangeUnique(inputs0 + inputs1, lo, hi, lo2, hi2);
    CoversUnique(v[level], level, lo, hi, a, b);
  }

  predicate IsAfter(pointer: Option<InternalKey>, f: File) {
    pointer.None? || Less(pointer.value, f.largest)
  }

  /** The first file of the level after the pointer, or the first of all if there is none. */
  ghost predicate IsNext(files: seq<File>, pointer: Option<InternalKey>, i: nat) {
    && i < |files|
    && (if exists j :: 0 <= j < |files| && IsAfter(pointer, files[j]) then
          IsAfter(pointer, files[i]) && forall j :: 0 <= j < i ==> !IsAfter(pointer, files[j])
        else i == 0)
  }

  /** Where a size-triggered compaction of the level starts. */
  method PickFile(files: seq<File>, pointer: Option<InternalKey>) returns (i: nat)
    requires |files| > 0
    ensures IsNext(files, pointer, i)
  {
    i := 0;
    while i < |files|
      invariant 0 <= i <= |files|
      invariant forall j :: 0 <= j < i ==> !IsAfter(pointer, files[j])
    {
      if pointer.Some? { CompareIsLess(pointer.value, files[i].largest); }
      if pointer.None? || Compare(files[i].largest, pointer.value) > 0 {
        return;
      }
      i := i + 1;
    }
    i := 0;
  }

  /** A size-triggered pick: the first file after the level's compaction pointer, wrapping around; at level 0
      with everything that overlaps it, and what overlaps that; completed by SetupOtherInputs. */
  method PickCompaction(v: Version, level: nat, pointer: Option<InternalKey>, maxFileSize: nat)
    returns (c: Inputs, start: seq<File>, picked: nat)
    requires Shape(v) && level + 1 < NUM_LEVELS && |v[level]| > 0
    ensures IsNext(v[level], pointer, picked)
    ensures level > 0 ==> start == [v[level][picked]]
    ensures level == 0 ==> Covers(v[0], 0, v[0][picked].smallest.user, v[0][picked].largest.user, start)
    ensures IsSetup(v, level, start, maxFileSize, c) && v[level][picked] in c.upper
  {
    hide Shape, Select, UpperClosed, IsSetup, OverlapClosed, Least;
    var i := PickFile(v[level], pointer);
    picked := i;
    var inputs0 := [v[level][i]];
    if level == 0 {
      inputs0 := CloseLevel0(v, i);
    } else {
      OneIsClosed(v, level, i);
    }
    start := inputs0;
    assert v[level][picked] in start;
    c := SetupOtherInputs(v, level, inputs0, maxFileSize);
  }

  lemma {:induction false} OneIsClosed(v: Version, level: nat, i: nat)
    requires Shape(v) && 0 < level < NUM_LEVELS && i < |v[level]|
    ensures UpperClosed(v, level, [v[level][i]])
  {
  }

  method CloseLevel0(v: Version, i: nat) returns (closed: seq<File>)
    requires Shape(v) && i < |v[0]|
    ensures Covers(v[0], 0, v[0][i].smallest.user, v[0][i].largest.user, closed)
    ensures UpperClosed(v, 0, closed) && v[0][i] in closed
  {
    var f := v[0][i];
    assert f in [f];
    var smallest, largest := GetRange([f]);
    ghost var b, e;
    closed, b, e := GetOverlappingInputs(v[0], 0, Some(smallest.user), Some(largest.user));
    ClosedSelection(v, b, e, closed);
    FileBounds(f, |f.entries| - 1);
    assert f in closed;
    assert smallest.user == f.smallest.user && largest.user == f.largest.user;
  }

  predicate IsTrivialMove(c: Inputs, maxFileSize: nat) {
    |c.upper| == 1 && |c.lower| == 0 && TotalFileSize(c.grandparents) <= 10 * maxFileSize
  }
}
