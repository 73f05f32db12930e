// The memtable over its skip list: `Get` is one seek and one comparison of user keys, and
// it answers as of its sequence number even while later entries are being inserted.

module MemTables {
  import opened Keys
  import opened SkipLists

  /** What a search for the seek key of `u` at `s` stops at: the newest visible entry of `u` if it
      stops at an entry of `u`, and otherwise there is none. */
  lemma {:induction false} SeekIsNewest(c: seq<Node>, u: UserKey, s: SequenceNumber, idx: nat)
    requires Ascending(c) && SplitsAt(c, SeekKey(u, s), idx)
    ensures idx + 1 < |c| && c[idx + 1].entry.key.user == u ==> IsNewest(EntriesOn(c), u, s, c[idx + 1].entry)
    ensures !(idx + 1 < |c| && c[idx + 1].entry.key.user == u) ==> forall e :: e in EntriesOn(c) ==> !Visible(e, u, s)
  {
    forall i | 1 <= i < |c|
      ensures Visible(c[i].entry, u, s) ==> idx < i
      ensures idx + 1 < i ==> Less(c[idx + 1].entry.key, c[i].entry.key)
      ensures idx + 1 == i ==> !Less(c[i].entry.key, SeekKey(u, s))
    {
      SeekKeySeparates(u, s, c[i].entry.key);
    }
    if idx + 1 < |c| {
      SeekKeySeparates(u, s, c[idx + 1].entry.key);
      assert c[idx + 1].entry in EntriesOn(c);
    }
  }

  /** Found nothing, found a tombstone, or found a value. */
  datatype Answer = NotHere | Deleted | Found(value: Bytes)

  function AnswerOf(r: Option<Bytes>): Answer {
    if r.Some? then Found(r.value) else Deleted
  }

  /** The one right answer over the entries `es`. */
  ghost predicate Answers(es: set<Entry>, u: UserKey, s: SequenceNumber, a: Answer) {
    if a.NotHere? then
      forall e :: e in es ==> !Visible(e, u, s)
    else
      exists e :: IsNewest(es, u, s, e) && a == AnswerOf(Reveals(e))
  }

  lemma {:induction false} AnswersIsLookup(es: set<Entry>, u: UserKey, s: SequenceNumber, a: Answer)
    requires UniqueSequences(es) && Answers(es, u, s, a)
    ensures Lookup(es, u, s) == if a.Found? then Some(a.value) else None
  {
    if a.NotHere? {
      LookupNothing(es, u, s);
    } else {
      var e :| IsNewest(es, u, s, e) && a == AnswerOf(Reveals(e));
      LookupIs(es, u, s, e);
    }
  }

  function Examine(n: Node?, u: UserKey): Answer {
    if n != null && n.entry.key.user == u then
      match n.entry.key.typ
      case Value => Found(n.entry.value)
      case Deletion => Deleted
    else
      NotHere
  }

  class MemTable {
    const table: SkipList

    ghost predicate Valid()
      reads table, table.repr
    {
      table.Valid() && table.x == null
    }

    constructor ()
      ensures Valid() && fresh(table) && fresh(table.repr) && table.Linked() == {}
    {
      table := new SkipList();
    }

    /** `height` is the one drawn by the random number generator. */
    method Add(s: SequenceNumber, typ: ValueType, key: UserKey, value: Bytes, height: nat)
      requires Valid() && 1 <= height <= MAX_HEIGHT
      requires forall e :: e in table.Linked() ==> e.key != InternalKey(key, s, typ)
      modifies table, table.repr
      ensures Valid() && fresh(table.repr - old(table.repr)) && old(table.repr) <= table.repr
      ensures table.Linked() == old(table.Linked()) + {Entry(InternalKey(key, s, typ), value)}
    {
      table.Insert(Entry(InternalKey(key, s, typ), value), height);
    }

    method Get(u: UserKey, s: SequenceNumber) returns (a: Answer)
      requires Valid()
      ensures Answers(table.Linked(), u, s, a)
    {
      var iter := new Iterator(table);
      iter.Seek(SeekKey(u, s), table.maxHeight);
      ghost var idx: nat :| SplitsAt(table.chains[0], SeekKey(u, s), idx) && iter.node == At(table.chains[0], idx + 1);
      table.NodeOk(0, 0);
      SeekIsNewest(table.chains[0], u, s, idx);
      a := Examine(iter.node, u);
    }

    /** `Get` without a lock, from any height it may read, while the writer links entries newer than
        its snapshot: the answer is the one of the moment it started. */
    method GetWhileWriting(u: UserKey, s: SequenceNumber, height: nat, schedule: seq<Action>, ghost late: set<Entry>)
      returns (done: bool, a: Answer)
      requires table.Valid() && 1 <= height <= MAX_HEIGHT
      requires table.x != null ==> table.x.entry in late
      requires forall t :: 0 <= t < |schedule| && schedule[t].InsertBegins? ==> schedule[t].entry in late
      requires forall e :: e in late ==> e.key.sequence > s
      modifies table, table.repr
      ensures table.Valid()
      ensures done ==> Answers(old(table.Linked()), u, s, a)
    {
      ghost var was := table.Linked();
      var reader := Interleave(table, AtOrAfter(SeekKey(u, s)), height, schedule, late);
      done := reader.done;
      a := Examine(reader.next, u);
      if done {
        ghost var idx: nat :| SkipLists.Found(reader.what, reader.seen, idx)
                              && reader.node == At(reader.seen, idx) && reader.next == At(reader.seen, idx + 1);
        SeekIsNewest(reader.seen, u, s, idx);
        SameVisible(was, EntriesOn(reader.seen), late, u, s, a);
      }
    }
  }

  lemma {:induction false} SameVisible(was: set<Entry>, seen: set<Entry>, late: set<Entry>, u: UserKey, s: SequenceNumber,
                                       a: Answer)
    requires was <= seen <= was + late && forall e :: e in late ==> e.key.sequence > s
    requires Answers(seen, u, s, a)
    ensures Answers(was, u, s, a)
  {
    if !a.NotHere? {
      var e :| IsNewest(seen, u, s, e) && a == AnswerOf(Reveals(e));
      assert IsNewest(was, u, s, e);
    }
  }
}
