// Tables, levels and versions: binary search over a level, and the point lookup that
// probes one file per level.

module Levels {
  import opened Keys

  const NUM_LEVELS := 7
  const MAX_MEM_COMPACT_LEVEL := 2

  /** A table file: its metadata together with the entries the table holds. */
  datatype File = File(number: nat, size: nat, smallest: InternalKey, largest: InternalKey, entries: seq<Entry>)

  ghost predicate GoodFile(f: File) {
    && |f.entries| > 0
    && f.smallest == f.entries[0].key
    && f.largest == f.entries[|f.entries| - 1].key
    && Sorted(f.entries)
    && forall i :: 0 <= i < |f.entries| ==> f.entries[i].key.sequence < MAX_SEQUENCE_NUMBER
  }

  ghost predicate GoodFiles(files: seq<File>) {
    forall i :: 0 <= i < |files| ==> GoodFile(files[i])
  }

  /** The shape of every level below level 0: sorted, with disjoint internal key ranges. */
  ghost predicate DisjointSorted(files: seq<File>) {
    forall i, j :: 0 <= i < j < |files| ==> Less(files[i].largest, files[j].smallest)
  }

  type Version = v: seq<seq<File>> | |v| == NUM_LEVELS witness seq(NUM_LEVELS, _ => [])

  ghost predicate Shape(v: Version) {
    && (forall l :: 0 <= l < NUM_LEVELS ==> GoodFiles(v[l]))
    && (forall l :: 1 <= l < NUM_LEVELS ==> DisjointSorted(v[l]))
  }

  ghost predicate InLevel(files: seq<File>, e: Entry) {
    exists f :: f in files && e in f.entries
  }

  ghost function FilesEntries(files: seq<File>): (r: set<Entry>)
    ensures forall e :: e in r <==> InLevel(files, e)
  {
    set f, e | f in files && e in f.entries :: e
  }

  ghost function VersionEntries(v: Version): (r: set<Entry>)
    ensures forall e :: e in r <==> exists l :: 0 <= l < NUM_LEVELS && e in FilesEntries(v[l])
  {
    set l, e | 0 <= l < NUM_LEVELS && e in FilesEntries(v[l]) :: e
  }

  /** `a` holds newer data than `b` for every user key they share. */
  ghost predicate NewerThan(a: set<Entry>, b: set<Entry>) {
    forall x, y :: x in a && y in b && x.key.user == y.key.user ==> x.key.sequence > y.key.sequence
  }

  /** Entries never hop across levels: shallower levels are newer, and within level 0
      a larger file number is newer. */
  ghost predicate NewerAbove(v: Version) {
    && (forall i, j :: 0 <= i < j < NUM_LEVELS ==> NewerThan(FilesEntries(v[i]), FilesEntries(v[j])))
    && Level0ByAge(v[0])
  }

  ghost predicate Level0ByAge(files: seq<File>) {
    forall f, g :: f in files && g in files && f.number > g.number ==>
      NewerThan(Elements(f.entries), Elements(g.entries))
  }

  ghost predicate DistinctNumbers(files: seq<File>) {
    forall i, j :: 0 <= i < j < |files| ==> files[i].number != files[j].number
  }

  // ----- order facts about files -----

  lemma {:induction false} FileBounds(f: File, i: nat)
    requires GoodFile(f)
    requires i < |f.entries|
    ensures !Less(f.entries[i].key, f.smallest)
    ensures !Less(f.largest, f.entries[i].key)
    ensures f.smallest.user <= f.entries[i].key.user <= f.largest.user
  {
    var last := |f.entries| - 1;
    if 0 < i { assert Less(f.entries[0].key, f.entries[i].key); }
    if i < last { assert Less(f.entries[i].key, f.entries[last].key); }
  }

  lemma {:induction false} EntryBounds(f: File, e: Entry)
    requires GoodFile(f)
    requires e in f.entries
    ensures !Less(e.key, f.smallest) && !Less(f.largest, e.key)
    ensures f.smallest.user <= e.key.user <= f.largest.user
    ensures e.key.sequence < MAX_SEQUENCE_NUMBER
  {
    var i :| 0 <= i < |f.entries| && f.entries[i] == e;
    FileBounds(f, i);
  }

  // ----- binary search -----

  /** The smallest index whose largest key is at or after `key`. */
  method FindFile(files: seq<File>, key: InternalKey) returns (right: nat)
    requires GoodFiles(files) && DisjointSorted(files)
    ensures right <= |files|
    ensures forall i :: 0 <= i < right ==> Less(files[i].largest, key)
    ensures forall i :: right <= i < |files| ==> !Less(files[i].largest, key)
  {
    var left := 0;
    right := |files|;
    while left < right
      invariant 0 <= left <= right <= |files|
      invariant forall i :: 0 <= i < left ==> Less(files[i].largest, key)
      invariant forall i :: right <= i < |files| ==> !Less(files[i].largest, key)
    {
      var mid := (left + right) / 2;
      LargestAscend(files, mid);
      if Compare(files[mid].largest, key) < 0 {
        left := mid + 1;
      } else {
        right := mid;
      }
    }
  }

  lemma {:induction false} LargestAscend(files: seq<File>, m: nat)
    requires GoodFiles(files) && DisjointSorted(files)
    requires m < |files|
    ensures forall i :: 0 <= i < m ==> Less(files[i].largest, files[m].largest)
    ensures forall i :: m < i < |files| ==> Less(files[m].largest, files[i].largest)
  {
    forall i | 0 <= i < m
      ensures Less(files[i].largest, files[m].largest)
    {
      FileBounds(files[m], 0);
      FileBounds(files[m], |files[m].entries| - 1);
    }
    forall i | m < i < |files|
      ensures Less(files[m].largest, files[i].largest)
    {
      FileBounds(files[i], |files[i].entries| - 1);
    }
  }

  // ----- point lookup -----

  /** Position of the first entry at or after `key` in a table. */
  method SeekInTable(f: File, key: InternalKey) returns (i: nat)
    requires GoodFile(f)
    ensures i <= |f.entries|
    ensures forall j :: 0 <= j < i ==> Less(f.entries[j].key, key)
    ensures forall j :: i <= j < |f.entries| ==> !Less(f.entries[j].key, key)
  {
    i := 0;
    while i < |f.entries| && Compare(f.entries[i].key, key) < 0
      invariant i <= |f.entries|
      invariant forall j :: 0 <= j < i ==> Less(f.entries[j].key, key)
    {
      i := i + 1;
    }
    if i < |f.entries| {
      forall j | i < j < |f.entries|
        ensures !Less(f.entries[j].key, key)
      {
        assert Less(f.entries[i].key, f.entries[j].key);
      }
    }
  }

  /** Table lookup with the SaveValue callback: the newest visible entry of `u` in one table. */
  method TableGet(f: File, u: UserKey, s: SequenceNumber) returns (r: Option<Entry>)
    requires GoodFile(f)
    ensures r.Some? ==> IsNewest(Elements(f.entries), u, s, r.value)
    ensures r.None? ==> forall e :: e in f.entries ==> !Visible(e, u, s)
  {
    var i := SeekInTable(f, SeekKey(u, s));
    if i < |f.entries| && f.entries[i].key.user == u {
      r := Some(f.entries[i]);
      forall x | x in f.entries && Visible(x, u, s)
        ensures x.key.sequence <= f.entries[i].key.sequence
      {
        var j :| 0 <= j < |f.entries| && f.entries[j] == x;
        if i < j { assert Less(f.entries[i].key, f.entries[j].key); }
      }
    } else {
      r := None;
      forall e | e in f.entries
        ensures !Visible(e, u, s)
      {
        var j :| 0 <= j < |f.entries| && f.entries[j] == e;
        if i < j { assert Less(f.entries[i].key, f.entries[j].key); }
      }
    }
  }

  function InsertNewestFirst(f: File, files: seq<File>): (r: seq<File>)
    ensures |r| == |files| + 1
    ensures forall g :: g in r <==> g == f || g in files
  {
    if files == [] then [f]
    else if f.number > files[0].number then [f] + files
    else [files[0]] + InsertNewestFirst(f, files[1..])
  }

  /** The order std::sort establishes with the NewestFirst comparison. */
  function SortNewestFirst(files: seq<File>): (r: seq<File>)
    ensures |r| == |files|
    ensures forall g :: g in r <==> g in files
  {
    if files == [] then [] else InsertNewestFirst(files[0], SortNewestFirst(files[1..]))
  }

  ghost predicate NewestFirst(files: seq<File>) {
    forall i, j :: 0 <= i < j < |files| ==> files[i].number >= files[j].number
  }

  lemma {:induction false} InsertKeepsOrder(f: File, files: seq<File>)
    requires NewestFirst(files)
    ensures NewestFirst(InsertNewestFirst(f, files))
  {
    if files == [] || f.number > files[0].number {
    } else {
      InsertKeepsOrder(f, files[1..]);
      var tail := InsertNewestFirst(f, files[1..]);
      forall j | 0 <= j < |tail|
        ensures files[0].number >= tail[j].number
      {
        assert tail[j] in tail;
      }
    }
  }

  lemma {:induction false} SortIsNewestFirst(files: seq<File>)
    ensures NewestFirst(SortNewestFirst(files))
  {
    if files != [] {
      SortIsNewestFirst(files[1..]);
      InsertKeepsOrder(files[0], SortNewestFirst(files[1..]));
    }
  }

  /** The level-0 files whose user key range contains `u`. */
  method CollectLevel0(files: seq<File>, u: UserKey) returns (tmp: seq<File>)
    requires GoodFiles(files)
    ensures forall f :: f in tmp <==> f in files && f.smallest.user <= u <= f.largest.user
  {
    tmp := [];
    for i := 0 to |files|
      invariant forall f :: f in tmp <==> f in files[..i] && f.smallest.user <= u <= f.largest.user
    {
      if files[i].smallest.user <= u && u <= files[i].largest.user {
        tmp := tmp + [files[i]];
      }
    }
    assert files[..|files|] == files;
  }

  /** Probes tables from newest to oldest and stops at the first that has `u`. */
  method ProbeNewestFirst(tmp: seq<File>, u: UserKey, s: SequenceNumber) returns (r: Option<Entry>)
    requires GoodFiles(tmp) && NewestFirst(tmp) && Level0ByAge(tmp)
    requires forall f, g :: f in tmp && g in tmp && f.number == g.number ==> f == g
    ensures r.Some? ==> IsNewest(FilesEntries(tmp), u, s, r.value)
    ensures r.None? ==> forall e :: e in FilesEntries(tmp) ==> !Visible(e, u, s)
  {
    for i := 0 to |tmp|
      invariant forall j, e :: 0 <= j < i && e in tmp[j].entries ==> !Visible(e, u, s)
    {
      r := TableGet(tmp[i], u, s);
      if r.Some? {
        NewestProbeDecides(tmp, u, s, i, r.value);
        return;
      }
    }
    r := None;
  }

  lemma {:induction false} NewestProbeDecides(tmp: seq<File>, u: UserKey, s: SequenceNumber, i: nat, e: Entry)
    requires NewestFirst(tmp) && Level0ByAge(tmp)
    requires forall f, g :: f in tmp && g in tmp && f.number == g.number ==> f == g
    requires i < |tmp| && IsNewest(Elements(tmp[i].entries), u, s, e)
    requires forall j, x :: 0 <= j < i && x in tmp[j].entries ==> !Visible(x, u, s)
    ensures IsNewest(FilesEntries(tmp), u, s, e)
  {
    assert tmp[i] in tmp && e in tmp[i].entries;
    forall x | x in FilesEntries(tmp) && Visible(x, u, s)
      ensures x.key.sequence <= e.key.sequence
    {
      var g :| g in tmp && x in g.entries;
      var j :| 0 <= j < |tmp| && tmp[j] == g;
      if g != tmp[i] {
        assert tmp[i].number > g.number;
        assert NewerThan(Elements(tmp[i].entries), Elements(g.entries));
      }
    }
  }

  /** Level-0 part of the search: every file whose user key range contains `u`, newest first. */
  method GetFromLevel0(files: seq<File>, u: UserKey, s: SequenceNumber) returns (r: Option<Entry>)
    requires GoodFiles(files) && Level0ByAge(files) && DistinctNumbers(files)
    ensures r.Some? ==> IsNewest(FilesEntries(files), u, s, r.value)
    ensures r.None? ==> forall e :: e in FilesEntries(files) ==> !Visible(e, u, s)
  {
    var tmp := CollectLevel0(files, u);
    forall e | e in FilesEntries(files) && Visible(e, u, s)
      ensures e in FilesEntries(tmp)
    {
      var f :| f in files && e in f.entries;
      EntryBounds(f, e);
    }
    SortIsNewestFirst(tmp);
    forall f, g | f in tmp && g in tmp && f.number == g.number
      ensures f == g
    {
      SameNumberSameFile(files, f, g);
    }
    var sorted := SortNewestFirst(tmp);
    forall e
      ensures e in FilesEntries(sorted) <==> e in FilesEntries(tmp)
    {
      assert forall f :: f in sorted <==> f in tmp;
    }
    r := ProbeNewestFirst(sorted, u, s);
  }

  lemma {:induction false} SameNumberSameFile(files: seq<File>, f: File, g: File)
    requires DistinctNumbers(files)
    requires f in files && g in files
    requires f.number == g.number
    ensures f == g
  {
    var i :| 0 <= i < |files| && files[i] == f;
    var j :| 0 <= j < |files| && files[j] == g;
  }

  /** Search of a level below level 0: binary search, then at most one file is probed. */
  method GetFromSortedLevel(files: seq<File>, u: UserKey, s: SequenceNumber) returns (r: Option<Entry>)
    requires GoodFiles(files) && DisjointSorted(files)
    ensures r.Some? ==> IsNewest(FilesEntries(files), u, s, r.value)
    ensures r.None? ==> forall e :: e in FilesEntries(files) ==> !Visible(e, u, s)
  {
    hide GoodFile, Less;
    var index := FindFile(files, SeekKey(u, s));
    forall j, e | 0 <= j < index && e in files[j].entries
      ensures !Visible(e, u, s)
    {
      EarlierHasNothing(files[j], u, s, e);
    }
    if index >= |files| {
      return None;
    }
    var probe := files[index];
    forall j, e | index < j < |files| && e in files[j].entries && Visible(e, u, s)
      ensures LastEntry(probe) in probe.entries && Visible(LastEntry(probe), u, s)
      ensures e.key.sequence <= LastEntry(probe).key.sequence
    {
      LaterIsOlder(probe, files[j], u, s, e);
    }
    if u < probe.smallest.user {
      r := None;
      SmallestBounds(probe, u);
    } else {
      r := TableGet(probe, u, s);
    }
    forall e | e in FilesEntries(files) && Visible(e, u, s)
      ensures r.Some? && e.key.sequence <= r.value.key.sequence
    {
      var f :| f in files && e in f.entries;
      var j :| 0 <= j < |files| && files[j] == f;
    }
    if r.Some? { assert InLevel(files, r.value); }
  }

  function LastEntry(f: File): Entry {
    if f.entries == [] then Entry(f.largest, []) else f.entries[|f.entries| - 1]
  }

  lemma {:induction false} SmallestBounds(f: File, u: UserKey)
    requires GoodFile(f) && u < f.smallest.user
    ensures forall e :: e in f.entries ==> e.key.user != u
    ensures LastEntry(f).key.user != u
  {
    forall e | e in f.entries
      ensures e.key.user != u
    {
      EntryBounds(f, e);
    }
    assert LastEntry(f) in f.entries;
  }

  /** A file that ends before the seek key holds nothing visible. */
  lemma {:induction false} EarlierHasNothing(f: File, u: UserKey, s: SequenceNumber, e: Entry)
    requires GoodFile(f) && Less(f.largest, SeekKey(u, s)) && e in f.entries
    ensures !Visible(e, u, s)
  {
    EntryBounds(f, e);
    SeekKeySeparates(u, s, e.key);
  }

  /** Later files start after this file's largest key, which is at or after the seek key: what they hold
      of `u` is older than what this file holds. */
  lemma {:induction false} LaterIsOlder(probe: File, f: File, u: UserKey, s: SequenceNumber, e: Entry)
    requires GoodFile(probe) && GoodFile(f) && !Less(probe.largest, SeekKey(u, s)) && Less(probe.largest, f.smallest)
    requires e in f.entries && Visible(e, u, s)
    ensures LastEntry(probe) in probe.entries && Visible(LastEntry(probe), u, s)
    ensures e.key.sequence <= LastEntry(probe).key.sequence
  {
    EntryBounds(f, e);
    FileBounds(probe, |probe.entries| - 1);
    SeekKeySeparates(u, s, probe.largest);
  }

  /** Version::Get: level by level, the first level that has the key decides. */
  method Get(v: Version, u: UserKey, s: SequenceNumber) returns (r: Option<Entry>)
    requires Shape(v) && NewerAbove(v) && DistinctNumbers(v[0])
    ensures r.Some? ==> IsNewest(VersionEntries(v), u, s, r.value)
    ensures r.None? ==> forall e :: e in VersionEntries(v) ==> !Visible(e, u, s)
    ensures UniqueSequences(VersionEntries(v)) ==>
              Lookup(VersionEntries(v), u, s) == if r.Some? then Reveals(r.value) else None
  {
    for level := 0 to NUM_LEVELS
      invariant forall l, e :: 0 <= l < level && e in FilesEntries(v[l]) ==> !Visible(e, u, s)
    {
      if level == 0 {
        r := GetFromLevel0(v[0], u, s);
      } else {
        r := GetFromSortedLevel(v[level], u, s);
      }
      if r.Some? {
        FirstLevelDecides(v, u, s, level, r.value);
        return;
      }
    }
    r := None;
  }

  lemma {:induction false} FirstLevelDecides(v: Version, u: UserKey, s: SequenceNumber, level: nat, e: Entry)
    requires Shape(v) && NewerAbove(v)
    requires level < NUM_LEVELS
    requires IsNewest(FilesEntries(v[level]), u, s, e)
    requires forall l, x :: 0 <= l < level && x in FilesEntries(v[l]) ==> !Visible(x, u, s)
    ensures IsNewest(VersionEntries(v), u, s, e)
    ensures UniqueSequences(VersionEntries(v)) ==> Lookup(VersionEntries(v), u, s) == Reveals(e)
  {
    assert e in VersionEntries(v);
    forall x | x in VersionEntries(v) && Visible(x, u, s)
      ensures x.key.sequence <= e.key.sequence
    {
      var l :| 0 <= l < NUM_LEVELS && x in FilesEntries(v[l]);
      if level < l {
        assert NewerThan(FilesEntries(v[level]), FilesEntries(v[l]));
      }
    }
    if UniqueSequences(VersionEntries(v)) {
      LookupIs(VersionEntries(v), u, s, e);
    }
  }
}
