// Version edits as manifest bytes: tagged fields appended one after another, and the
// parser that fills an edit from them.

module EditCodec {
  import opened Keys
  import opened Coding
  import opened Levels

  const COMPARATOR: nat := 1
  const LOG_NUMBER: nat := 2
  const NEXT_FILE_NUMBER: nat := 3
  const LAST_SEQUENCE: nat := 4
  const COMPACT_POINTER: nat := 5
  const DELETED_FILE: nat := 6
  const NEW_FILE: nat := 7
  const PREV_LOG_NUMBER: nat := 9

  datatype FileMetaData = FileMetaData(number: nat, fileSize: nat, smallest: Bytes, largest: Bytes)

  /** Everything an edit holds.  The set of deleted files is the ordered sequence it is iterated in. */
  datatype Fields = Fields(
    comparator: Option<Bytes>,
    logNumber: Option<nat>,
    prevLogNumber: Option<nat>,
    nextFileNumber: Option<nat>,
    lastSequence: Option<nat>,
    compactPointers: seq<(nat, Bytes)>,
    deletedFiles: seq<(nat, nat)>,
    newFiles: seq<(nat, FileMetaData)>)

  const NO_FIELDS: Fields := Fields(None, None, None, None, None, [], [], [])

  predicate PairLess(a: (nat, nat), b: (nat, nat)) {
    a.0 < b.0 || (a.0 == b.0 && a.1 < b.1)
  }

  ghost predicate Ordered(s: seq<(nat, nat)>) {
    forall i, j :: 0 <= i < j < |s| ==> PairLess(s[i], s[j])
  }

  /** Insertion into the ordered set; what is there already is not added twice. */
  function InsertPair(s: seq<(nat, nat)>, p: (nat, nat)): seq<(nat, nat)> {
    if s == [] then [p]
    else
      var last := s[|s| - 1];
      if PairLess(last, p) then s + [p]
      else if last == p then s
      else InsertPair(s[..|s| - 1], p) + [last]
  }

  lemma {:induction false} InsertPairIsSetInsertion(s: seq<(nat, nat)>, p: (nat, nat))
    requires Ordered(s)
    ensures Ordered(InsertPair(s, p))
    ensures forall q :: q in InsertPair(s, p) <==> q in s || q == p
  {
    if s != [] {
      var n := |s| - 1;
      var last := s[n];
      assert s == s[..n] + [last];
      if !PairLess(last, p) && last != p {
        InsertPairIsSetInsertion(s[..n], p);
        var t := InsertPair(s[..n], p);
        forall i | 0 <= i < |t|
          ensures PairLess(t[i], last)
        {
          assert t[i] in s[..n] || t[i] == p;
        }
      }
    }
  }

  // ----- one tagged field -----

  datatype Item =
    | Comparator(name: Bytes)
    | LogNumber(number: nat)
    | PrevLogNumber(number: nat)
    | NextFileNumber(number: nat)
    | LastSequence(number: nat)
    | CompactPointer(level: nat, key: Bytes)
    | DeletedFile(level: nat, number: nat)
    | NewFile(level: nat, file: FileMetaData)

  function EncodeFile(f: FileMetaData): Bytes {
    Varint(f.number) + (Varint(f.fileSize) + (LengthPrefixed(f.smallest) + LengthPrefixed(f.largest)))
  }

  function EncodeItem(item: Item): (r: Bytes)
    ensures |r| > 0
  {
    match item
    case Comparator(name) => Varint(COMPARATOR) + LengthPrefixed(name)
    case LogNumber(number) => Varint(LOG_NUMBER) + Varint(number)
    case PrevLogNumber(number) => Varint(PREV_LOG_NUMBER) + Varint(number)
    case NextFileNumber(number) => Varint(NEXT_FILE_NUMBER) + Varint(number)
    case LastSequence(number) => Varint(LAST_SEQUENCE) + Varint(number)
    case CompactPointer(level, key) => Varint(COMPACT_POINTER) + (Varint(level) + LengthPrefixed(key))
    case DeletedFile(level, number) => Varint(DELETED_FILE) + (Varint(level) + Varint(number))
    case NewFile(level, file) => Varint(NEW_FILE) + (Varint(level) + EncodeFile(file))
  }

  predicate ItemFits(item: Item) {
    match item
    case Comparator(name) => |name| < TWO_32
    case CompactPointer(level, key) => level < NUM_LEVELS && |key| < TWO_32
    case DeletedFile(level, number) => level < NUM_LEVELS && number < TWO_64
    case NewFile(level, f) =>
      && level < NUM_LEVELS && f.number < TWO_64 && f.fileSize < TWO_64
      && |f.smallest| < TWO_32 && |f.largest| < TWO_32
    case _ => item.number < TWO_64
  }

  // ----- parsing -----

  datatype Parsed = Parsed(item: Item, rest: Bytes) | NoTag | Wrong(message: string)

  function GetLevel(input: Bytes): (r: Option<(nat, Bytes)>)
    ensures r.Some? ==> |r.value.1| < |input|
  {
    match GetVarint32(input)
    case None => None
    case Some(p) => if p.0 < NUM_LEVELS then Some(p) else None
  }

  function GetFile(input: Bytes): (r: Option<(FileMetaData, Bytes)>)
    ensures r.Some? ==> |r.value.1| < |input|
  {
    match GetVarint64(input)
    case None => None
    case Some(number) =>
      match GetVarint64(number.1)
      case None => None
      case Some(size) =>
        match GetLengthPrefixed(size.1)
        case None => None
        case Some(smallest) =>
          match GetLengthPrefixed(smallest.1)
          case None => None
          case Some(largest) => Some((FileMetaData(number.0, size.0, smallest.0, largest.0), largest.1))
  }

  /** The tag at the front of the input and what it says follows. */
  function NextItem(input: Bytes): (r: Parsed)
    ensures r.Parsed? ==> |r.rest| < |input|
  {
    match GetVarint32(input)
    case None => NoTag
    case Some(t) =>
      var tag, rest := t.0, t.1;
      if tag == COMPARATOR then
        match GetLengthPrefixed(rest)
        case None => Wrong("comparator name")
        case Some(p) => Parsed(Comparator(p.0), p.1)
      else if tag == LOG_NUMBER then
        match GetVarint64(rest)
        case None => Wrong("log number")
        case Some(p) => Parsed(LogNumber(p.0), p.1)
      else if tag == PREV_LOG_NUMBER then
        match GetVarint64(rest)
        case None => Wrong("previous log number")
        case Some(p) => Parsed(PrevLogNumber(p.0), p.1)
      else if tag == NEXT_FILE_NUMBER then
        match GetVarint64(rest)
        case None => Wrong("next file number")
        case Some(p) => Parsed(NextFileNumber(p.0), p.1)
      else if tag == LAST_SEQUENCE then
        match GetVarint64(rest)
        case None => Wrong("last sequence number")
        case Some(p) => Parsed(LastSequence(p.0), p.1)
      else
        LevelItem(tag, rest)
  }

  function LevelItem(tag: nat, rest: Bytes): (r: Parsed)
    ensures r.Parsed? ==> |r.rest| < |rest|
  {
    if tag == COMPACT_POINTER then
      match GetLevel(rest)
      case None => Wrong("compaction pointer")
      case Some(level) =>
        match GetLengthPrefixed(level.1)
        case None => Wrong("compaction pointer")
        case Some(p) => Parsed(CompactPointer(level.0, p.0), p.1)
    else if tag == DELETED_FILE then
      match GetLevel(rest)
      case None => Wrong("deleted file")
      case Some(level) =>
        match GetVarint64(level.1)
        case None => Wrong("deleted file")
        case Some(p) => Parsed(DeletedFile(level.0, p.0), p.1)
    else if tag == NEW_FILE then
      match GetLevel(rest)
      case None => Wrong("new-file entry")
      case Some(level) =>
        match GetFile(level.1)
        case None => Wrong("new-file entry")
        case Some(p) => Parsed(NewFile(level.0, p.0), p.1)
    else
      Wrong("unknown tag")
  }

  function Absorb(f: Fields, item: Item): Fields {
    match item
    case Comparator(name) => f.(comparator := Some(name))
    case LogNumber(number) => f.(logNumber := Some(number))
    case PrevLogNumber(number) => f.(prevLogNumber := Some(number))
    case NextFileNumber(number) => f.(nextFileNumber := Some(number))
    case LastSequence(number) => f.(lastSequence := Some(number))
    case CompactPointer(level, key) => f.(compactPointers := f.compactPointers + [(level, key)])
    case DeletedFile(level, number) => f.(deletedFiles := InsertPair(f.deletedFiles, (level, number)))
    case NewFile(level, file) => f.(newFiles := f.newFiles + [(level, file)])
  }

  datatype Decoding = Decoding(fields: Fields, message: Option<string>)

  /** The fields an input fills in, up to the first thing wrong with it. */
  function Decoded(input: Bytes, f: Fields): Decoding
    decreases |input|
  {
    match NextItem(input)
    case NoTag => Decoding(f, if input == [] then None else Some("invalid tag"))
    case Wrong(message) => Decoding(f, Some(message))
    case Parsed(item, rest) => Decoded(rest, Absorb(f, item))
  }

  // ----- what an edit is written as -----

  function EncodeItems(items: seq<Item>): Bytes {
    if items == [] then [] else EncodeItem(items[0]) + EncodeItems(items[1..])
  }

  function Only(present: bool, item: Item): seq<Item> {
    if present then [item] else []
  }

  function OrZero(n: Option<nat>): nat {
    if n.Some? then n.value else 0
  }

  function HeadItems(f: Fields): seq<Item> {
    Only(f.comparator.Some?, Comparator(if f.comparator.Some? then f.comparator.value else []))
    + Only(f.logNumber.Some?, LogNumber(OrZero(f.logNumber)))
    + Only(f.prevLogNumber.Some?, PrevLogNumber(OrZero(f.prevLogNumber)))
    + Only(f.nextFileNumber.Some?, NextFileNumber(OrZero(f.nextFileNumber)))
    + Only(f.lastSequence.Some?, LastSequence(OrZero(f.lastSequence)))
  }

  function PointerItems(ps: seq<(nat, Bytes)>): (r: seq<Item>)
    ensures |r| == |ps|
  {
    if ps == [] then [] else PointerItems(ps[..|ps| - 1]) + [CompactPointer(ps[|ps| - 1].0, ps[|ps| - 1].1)]
  }

  function DeletedItems(ps: seq<(nat, nat)>): (r: seq<Item>)
    ensures |r| == |ps|
  {
    if ps == [] then [] else DeletedItems(ps[..|ps| - 1]) + [DeletedFile(ps[|ps| - 1].0, ps[|ps| - 1].1)]
  }

  function NewItems(ps: seq<(nat, FileMetaData)>): (r: seq<Item>)
    ensures |r| == |ps|
  {
    if ps == [] then [] else NewItems(ps[..|ps| - 1]) + [NewFile(ps[|ps| - 1].0, ps[|ps| - 1].1)]
  }

  function Items(f: Fields): seq<Item> {
    HeadItems(f) + PointerItems(f.compactPointers) + DeletedItems(f.deletedFiles) + NewItems(f.newFiles)
  }

  function AbsorbAll(f: Fields, items: seq<Item>): Fields
    decreases |items|
  {
    if items == [] then f else AbsorbAll(Absorb(f, items[0]), items[1..])
  }

  // ----- lemmas -----

  lemma {:induction false} EncodeConcat(a: seq<Item>, b: seq<Item>)
    ensures EncodeItems(a + b) == EncodeItems(a) + EncodeItems(b)
  {
    hide EncodeItem;
    if a == [] {
      assert a + b == b;
    } else {
      EncodeConcat(a[1..], b);
      assert (a + b)[1..] == a[1..] + b;
    }
  }

  lemma {:induction false} AbsorbConcat(f: Fields, a: seq<Item>, b: seq<Item>)
    ensures AbsorbAll(f, a + b) == AbsorbAll(AbsorbAll(f, a), b)
    decreases |a|
  {
    hide Absorb;
    if a == [] {
      assert a + b == b;
    } else {
      AbsorbConcat(Absorb(f, a[0]), a[1..], b);
      assert (a + b)[1..] == a[1..] + b;
    }
  }

  lemma {:induction false} FileRoundTrip(f: FileMetaData, rest: Bytes)
    requires f.number < TWO_64 && f.fileSize < TWO_64 && |f.smallest| < TWO_32 && |f.largest| < TWO_32
    ensures GetFile(EncodeFile(f) + rest) == Some((f, rest))
  {
    hide Varint, GetVarint64, LengthPrefixed, GetLengthPrefixed;
    var b, c, d := Varint(f.fileSize), LengthPrefixed(f.smallest), LengthPrefixed(f.largest);
    assert EncodeFile(f) + rest == Varint(f.number) + (b + (c + (d + rest)));
    Varint64RoundTrip(f.number, b + (c + (d + rest)));
    Varint64RoundTrip(f.fileSize, c + (d + rest));
    LengthPrefixedRoundTrip(f.smallest, d + rest);
    LengthPrefixedRoundTrip(f.largest, rest);
  }

  lemma {:induction false} LevelRoundTrip(level: nat, rest: Bytes)
    requires level < NUM_LEVELS
    ensures GetLevel(Varint(level) + rest) == Some((level, rest))
  {
    Varint32RoundTrip(level, rest);
  }

  /** The parser takes off exactly one field, whatever follows it. */
  lemma {:induction false} ItemRoundTrip(item: Item, rest: Bytes)
    requires ItemFits(item)
    ensures NextItem(EncodeItem(item) + rest) == Parsed(item, rest)
  {
    hide Varint, GetVarint32, GetVarint64, LengthPrefixed, GetLengthPrefixed, GetLevel, GetFile, EncodeFile;
    match item
    case Comparator(name) =>
      assert EncodeItem(item) + rest == Varint(COMPARATOR) + (LengthPrefixed(name) + rest);
      Varint32RoundTrip(COMPARATOR, LengthPrefixed(name) + rest);
      LengthPrefixedRoundTrip(name, rest);
    case LogNumber(number) => NumberRoundTrip(item, LOG_NUMBER, number, rest);
    case PrevLogNumber(number) => NumberRoundTrip(item, PREV_LOG_NUMBER, number, rest);
    case NextFileNumber(number) => NumberRoundTrip(item, NEXT_FILE_NUMBER, number, rest);
    case LastSequence(number) => NumberRoundTrip(item, LAST_SEQUENCE, number, rest);
    case CompactPointer(level, key) =>
      LevelItemRoundTrip(item, COMPACT_POINTER, level, LengthPrefixed(key), rest);
      LengthPrefixedRoundTrip(key, rest);
    case DeletedFile(level, number) =>
      LevelItemRoundTrip(item, DELETED_FILE, level, Varint(number), rest);
      Varint64RoundTrip(number, rest);
    case NewFile(level, file) =>
      LevelItemRoundTrip(item, NEW_FILE, level, EncodeFile(file), rest);
      FileRoundTrip(file, rest);
  }

  lemma {:induction false} NumberRoundTrip(item: Item, tag: nat, number: nat, rest: Bytes)
    requires tag < TWO_32 && number < TWO_64 && EncodeItem(item) == Varint(tag) + Varint(number)
    ensures GetVarint32(EncodeItem(item) + rest) == Some((tag, Varint(number) + rest))
    ensures GetVarint64(Varint(number) + rest) == Some((number, rest))
  {
    hide Varint, EncodeItem, GetVarint32, GetVarint64;
    assert EncodeItem(item) + rest == Varint(tag) + (Varint(number) + rest);
    Varint32RoundTrip(tag, Varint(number) + rest);
    Varint64RoundTrip(number, rest);
  }

  lemma {:induction false} LevelItemRoundTrip(item: Item, tag: nat, level: nat, body: Bytes, rest: Bytes)
    requires tag < TWO_32 && level < NUM_LEVELS && EncodeItem(item) == Varint(tag) + (Varint(level) + body)
    ensures GetVarint32(EncodeItem(item) + rest) == Some((tag, Varint(level) + (body + rest)))
    ensures GetLevel(Varint(level) + (body + rest)) == Some((level, body + rest))
  {
    hide Varint, EncodeItem, GetVarint32, GetLevel;
    assert EncodeItem(item) + rest == Varint(tag) + (Varint(level) + (body + rest));
    Varint32RoundTrip(tag, Varint(level) + (body + rest));
    LevelRoundTrip(level, body + rest);
  }

  lemma {:induction false} ItemsRoundTrip(items: seq<Item>, f: Fields)
    requires forall i :: 0 <= i < |items| ==> ItemFits(items[i])
    ensures Decoded(EncodeItems(items), f) == Decoding(AbsorbAll(f, items), None)
  {
    hide EncodeItem, NextItem, ItemFits, Absorb;
    if items == [] {
      NothingToParse();
    } else {
      ItemRoundTrip(items[0], EncodeItems(items[1..]));
      ItemsRoundTrip(items[1..], Absorb(f, items[0]));
    }
  }

  lemma {:induction false} NothingToParse()
    ensures NextItem([]) == NoTag
  {
  }

  lemma {:induction false} AbsorbPointers(f: Fields, ps: seq<(nat, Bytes)>)
    ensures AbsorbAll(f, PointerItems(ps)) == f.(compactPointers := f.compactPointers + ps)
  {
    if ps == [] {
      assert f.compactPointers + ps == f.compactPointers;
    } else {
      var n := |ps| - 1;
      AbsorbPointers(f, ps[..n]);
      AbsorbLast(f, PointerItems(ps[..n]), CompactPointer(ps[n].0, ps[n].1));
      assert f.compactPointers + ps[..n] + [ps[n]] == f.compactPointers + ps;
    }
  }

  lemma {:induction false} AbsorbNew(f: Fields, ps: seq<(nat, FileMetaData)>)
    ensures AbsorbAll(f, NewItems(ps)) == f.(newFiles := f.newFiles + ps)
  {
    if ps == [] {
      assert f.newFiles + ps == f.newFiles;
    } else {
      var n := |ps| - 1;
      AbsorbNew(f, ps[..n]);
      AbsorbLast(f, NewItems(ps[..n]), NewFile(ps[n].0, ps[n].1));
      assert f.newFiles + ps[..n] + [ps[n]] == f.newFiles + ps;
    }
  }

  /** Inserting an ordered run into an empty set, element by element, makes that run. */
  lemma {:induction false} AbsorbDeleted(f: Fields, ps: seq<(nat, nat)>)
    requires Ordered(ps) && f.deletedFiles == []
    ensures AbsorbAll(f, DeletedItems(ps)) == f.(deletedFiles := ps)
  {
    if ps != [] {
      var n := |ps| - 1;
      AbsorbDeleted(f, ps[..n]);
      AbsorbLast(f, DeletedItems(ps[..n]), DeletedFile(ps[n].0, ps[n].1));
      assert ps[..n] + [ps[n]] == ps;
      assert n > 0 ==> PairLess(ps[n - 1], ps[n]);
    }
  }

  lemma {:induction false} AbsorbLast(f: Fields, items: seq<Item>, last: Item)
    ensures AbsorbAll(f, items + [last]) == Absorb(AbsorbAll(f, items), last)
  {
    hide Absorb;
    AbsorbConcat(f, items, [last]);
    var g := AbsorbAll(f, items);
    assert AbsorbAll(Absorb(g, last), [last][1..]) == Absorb(g, last);
  }

  lemma {:induction false} AbsorbHead(f: Fields, g: Fields)
    requires f.comparator.None? && f.logNumber.None? && f.prevLogNumber.None? && f.nextFileNumber.None? && f.lastSequence.None?
    ensures AbsorbAll(f, HeadItems(g))
            == f.(comparator := g.comparator, logNumber := g.logNumber, prevLogNumber := g.prevLogNumber,
                  nextFileNumber := g.nextFileNumber, lastSequence := g.lastSequence)
  {
    var a := Only(g.comparator.Some?, Comparator(if g.comparator.Some? then g.comparator.value else []));
    var b := Only(g.logNumber.Some?, LogNumber(OrZero(g.logNumber)));
    var c := Only(g.prevLogNumber.Some?, PrevLogNumber(OrZero(g.prevLogNumber)));
    var d := Only(g.nextFileNumber.Some?, NextFileNumber(OrZero(g.nextFileNumber)));
    var e := Only(g.lastSequence.Some?, LastSequence(OrZero(g.lastSequence)));
    AbsorbConcat(f, a + b + c + d, e);
    AbsorbConcat(f, a + b + c, d);
    AbsorbConcat(f, a + b, c);
    AbsorbConcat(f, a, b);
    AbsorbOne(f, a);
    var fa := AbsorbAll(f, a);
    AbsorbOne(fa, b);
    var fb := AbsorbAll(fa, b);
    AbsorbOne(fb, c);
    var fc := AbsorbAll(fb, c);
    AbsorbOne(fc, d);
    AbsorbOne(AbsorbAll(fc, d), e);
  }

  lemma {:induction false} AbsorbOne(f: Fields, items: seq<Item>)
    requires |items| <= 1
    ensures AbsorbAll(f, items) == if items == [] then f else Absorb(f, items[0])
  {
    hide Absorb;
    if items != [] {
      assert AbsorbAll(Absorb(f, items[0]), items[1..]) == Absorb(f, items[0]);
    }
  }

  /** What an edit may hold: numbers of 64 bits, levels there are, keys of less than four gigabytes. */
  ghost predicate Encodable(f: Fields) {
    && Ordered(f.deletedFiles)
    && forall i :: 0 <= i < |Items(f)| ==> ItemFits(Items(f)[i])
  }

  /** An edit decoded over one that was used before: everything is restored, except that compaction
      pointers are added to the ones it had. */
  lemma {:induction false} EditRoundTrip(f: Fields, pointers: seq<(nat, Bytes)>)
    requires Encodable(f)
    ensures Decoded(EncodeItems(Items(f)), NO_FIELDS.(compactPointers := pointers))
            == Decoding(f.(compactPointers := pointers + f.compactPointers), None)
    ensures pointers == [] ==> Decoded(EncodeItems(Items(f)), NO_FIELDS) == Decoding(f, None)
  {
    hide Absorb, EncodeItems, Decoded, ItemFits;
    var start := NO_FIELDS.(compactPointers := pointers);
    ItemsRoundTrip(Items(f), start);
    var head, ps, ds, ns := HeadItems(f), PointerItems(f.compactPointers), DeletedItems(f.deletedFiles), NewItems(f.newFiles);
    AbsorbConcat(start, head + ps + ds, ns);
    AbsorbConcat(start, head + ps, ds);
    AbsorbConcat(start, head, ps);
    AbsorbHead(start, f);
    var a := AbsorbAll(start, head);
    AbsorbPointers(a, f.compactPointers);
    var b := AbsorbAll(a, ps);
    AbsorbDeleted(b, f.deletedFiles);
    AbsorbNew(AbsorbAll(b, ds), f.newFiles);
    assert [] + f.newFiles == f.newFiles && [] + f.compactPointers == f.compactPointers;
  }

  // ----- the edit as the program holds it -----

  class VersionEdit {
    var comparator: Option<Bytes>
    var logNumber: Option<nat>
    var prevLogNumber: Option<nat>
    var nextFileNumber: Option<nat>
    var lastSequence: Option<nat>
    var compactPointers: seq<(nat, Bytes)>
    var deletedFiles: seq<(nat, nat)>
    var newFiles: seq<(nat, FileMetaData)>

    function Held(): Fields
      reads this
    {
      Fields(comparator, logNumber, prevLogNumber, nextFileNumber, lastSequence, compactPointers, deletedFiles, newFiles)
    }

    constructor ()
      ensures Held() == NO_FIELDS
    {
      comparator, logNumber, prevLogNumber, nextFileNumber, lastSequence := None, None, None, None, None;
      compactPointers, deletedFiles, newFiles := [], [], [];
    }

    /** The compaction pointers stay. */
    method Clear()
      modifies this
      ensures Held() == NO_FIELDS.(compactPointers := old(compactPointers))
    {
      comparator, logNumber, prevLogNumber, nextFileNumber, lastSequence := None, None, None, None, None;
      deletedFiles, newFiles := [], [];
    }

    method DeleteFile(level: nat, file: nat)
      modifies this`deletedFiles
      requires Ordered(deletedFiles)
      ensures Ordered(deletedFiles)
      ensures forall q :: q in deletedFiles <==> q in old(deletedFiles) || q == (level, file)
    {
      InsertPairIsSetInsertion(deletedFiles, (level, file));
      deletedFiles := InsertPair(deletedFiles, (level, file));
    }

    method EncodeTo(dst: Bytes) returns (r: Bytes)
      ensures r == dst + EncodeItems(Items(Held()))
    {
      hide EncodeItem, EncodeItems, Items, HeadItems, PointerItems, DeletedItems, NewItems;
      var head := EncodeHead(dst);
      var pointers := EncodePointers(head);
      var deleted := EncodeDeleted(pointers);
      r := EncodeNew(deleted);
      FourParts(dst, Held());
    }

    method EncodeHead(dst: Bytes) returns (r: Bytes)
      ensures r == dst + EncodeItems(HeadItems(Held()))
    {
      hide EncodeItem, EncodeItems, Only;
      ghost var f := Held();
      ghost var items: seq<Item> := [];
      EncodeNone();
      r := dst;
      r, items := PutIf(dst, r, items, comparator.Some?,
                        Comparator(if comparator.Some? then comparator.value else []));
      r, items := PutIf(dst, r, items, logNumber.Some?, LogNumber(OrZero(logNumber)));
      r, items := PutIf(dst, r, items, prevLogNumber.Some?, PrevLogNumber(OrZero(prevLogNumber)));
      r, items := PutIf(dst, r, items, nextFileNumber.Some?, NextFileNumber(OrZero(nextFileNumber)));
      r, items := PutIf(dst, r, items, lastSequence.Some?, LastSequence(OrZero(lastSequence)));
      assert items == HeadItems(f);
    }

    method PutIf(ghost dst: Bytes, sofar: Bytes, ghost items: seq<Item>, present: bool, item: Item)
      returns (r: Bytes, ghost more: seq<Item>)
      requires sofar == dst + EncodeItems(items)
      ensures r == dst + EncodeItems(more) && more == items + Only(present, item)
    {
      hide EncodeItem, EncodeItems;
      r, more := sofar, items;
      if present {
        r, more := Put(dst, sofar, items, item);
      }
    }

    method EncodePointers(dst: Bytes) returns (r: Bytes)
      ensures r == dst + EncodeItems(PointerItems(compactPointers))
    {
      hide EncodeItem, EncodeItems;
      ghost var items: seq<Item> := [];
      EncodeNone();
      r := dst;
      for i := 0 to |compactPointers|
        invariant r == dst + EncodeItems(items) && items == PointerItems(compactPointers[..i])
      {
        assert compactPointers[..i + 1][..i] == compactPointers[..i];
        r, items := Put(dst, r, items, CompactPointer(compactPointers[i].0, compactPointers[i].1));
      }
      assert compactPointers[..|compactPointers|] == compactPointers;
    }

    method EncodeDeleted(dst: Bytes) returns (r: Bytes)
      ensures r == dst + EncodeItems(DeletedItems(deletedFiles))
    {
      hide EncodeItem, EncodeItems;
      ghost var items: seq<Item> := [];
      EncodeNone();
      r := dst;
      for i := 0 to |deletedFiles|
        invariant r == dst + EncodeItems(items) && items == DeletedItems(deletedFiles[..i])
      {
        assert deletedFiles[..i + 1][..i] == deletedFiles[..i];
        r, items := Put(dst, r, items, DeletedFile(deletedFiles[i].0, deletedFiles[i].1));
      }
      assert deletedFiles[..|deletedFiles|] == deletedFiles;
    }

    method EncodeNew(dst: Bytes) returns (r: Bytes)
      ensures r == dst + EncodeItems(NewItems(newFiles))
    {
      hide EncodeItem, EncodeItems;
      ghost var items: seq<Item> := [];
      EncodeNone();
      r := dst;
      for i := 0 to |newFiles|
        invariant r == dst + EncodeItems(items) && items == NewItems(newFiles[..i])
      {
        assert newFiles[..i + 1][..i] == newFiles[..i];
        r, items := Put(dst, r, items, NewFile(newFiles[i].0, newFiles[i].1));
      }
      assert newFiles[..|newFiles|] == newFiles;
    }

    method Put(ghost dst: Bytes, sofar: Bytes, ghost items: seq<Item>, item: Item) returns (r: Bytes, ghost more: seq<Item>)
      requires sofar == dst + EncodeItems(items)
      ensures r == dst + EncodeItems(more) && more == items + [item]
    {
      hide EncodeItem;
      r := sofar + EncodeItem(item);
      more := items + [item];
      EncodeConcat(items, [item]);
      assert EncodeItems([item]) == EncodeItem(item) + EncodeItems([item][1..]);
    }

    /** Returns what is wrong with the input, if anything is. */
    method DecodeFrom(src: Bytes) returns (message: Option<string>)
      modifies this
      ensures Decoding(Held(), message) == Decoded(src, NO_FIELDS.(compactPointers := old(compactPointers)))
    {
      hide NextItem;
      Clear();
      var input := src;
      while true
        invariant Decoded(input, Held()) == Decoded(src, NO_FIELDS.(compactPointers := old(compactPointers)))
        decreases |input|
      {
        match NextItem(input)
        case NoTag =>
          return if input == [] then None else Some("invalid tag");
        case Wrong(wrong) =>
          return Some(wrong);
        case Parsed(item, rest) =>
          Fill(item);
          input := rest;
      }
    }

    method Fill(item: Item)
      modifies this
      ensures Held() == Absorb(old(Held()), item)
    {
      match item
      case Comparator(name) => comparator := Some(name);
      case LogNumber(number) => logNumber := Some(number);
      case PrevLogNumber(number) => prevLogNumber := Some(number);
      case NextFileNumber(number) => nextFileNumber := Some(number);
      case LastSequence(number) => lastSequence := Some(number);
      case CompactPointer(level, key) => compactPointers := compactPointers + [(level, key)];
      case DeletedFile(level, number) => deletedFiles := InsertPair(deletedFiles, (level, number));
      case NewFile(level, file) => newFiles := newFiles + [(level, file)];
    }
  }

  lemma {:induction false} EncodeNone()
    ensures EncodeItems([]) == []
  {
  }

  lemma {:induction false} FourParts(dst: Bytes, f: Fields)
    ensures dst + EncodeItems(Items(f))
            == dst + EncodeItems(HeadItems(f)) + EncodeItems(PointerItems(f.compactPointers))
             + EncodeItems(DeletedItems(f.deletedFiles)) + EncodeItems(NewItems(f.newFiles))
  {
    hide EncodeItems, HeadItems, PointerItems, DeletedItems, NewItems;
    var a, b := HeadItems(f), PointerItems(f.compactPointers);
    var c, d := DeletedItems(f.deletedFiles), NewItems(f.newFiles);
    EncodeConcat(a + b + c, d);
    EncodeConcat(a + b, c);
    EncodeConcat(a, b);
  }
}
