// Internal keys, their order, and the specification every reader and every
// rewrite of the data has to agree with: the newest visible entry of a user key.

module Keys {

  type byte = b: int | 0 <= b < 256
  type Bytes = seq<byte>

  // The engine only ever compares user keys, so a user key is represented by its
  // rank in the comparator's order.  `RankIsBytewiseOrder` shows that the default
  // bytewise comparator embeds into this order.
  type UserKey = real

  type SequenceNumber = nat

  const MAX_SEQUENCE_NUMBER: SequenceNumber := 0x100_0000_0000_0000 - 1

  datatype Option<+T> = None | Some(value: T)

  datatype ValueType = Deletion | Value

  datatype InternalKey = InternalKey(user: UserKey, sequence: SequenceNumber, typ: ValueType)

  datatype Entry = Entry(key: InternalKey, value: Bytes)

  /** Sequence number and type packed into one number, the type in the low byte. */
  function PackSequenceAndType(sequence: SequenceNumber, typ: ValueType): nat {
    sequence * 256 + if typ.Value? then 1 else 0
  }

  /** Three-way comparison: user key ascending, then packed number descending. */
  function Compare(a: InternalKey, b: InternalKey): int {
    if a.user < b.user then -1
    else if a.user > b.user then 1
    else
      var anum := PackSequenceAndType(a.sequence, a.typ);
      var bnum := PackSequenceAndType(b.sequence, b.typ);
      if anum > bnum then -1 else if anum < bnum then 1 else 0
  }

  predicate Less(a: InternalKey, b: InternalKey) {
    a.user < b.user
    || (a.user == b.user
        && (a.sequence > b.sequence || (a.sequence == b.sequence && a.typ.Value? && b.typ.Deletion?)))
  }

  lemma {:induction false} CompareIsLess(a: InternalKey, b: InternalKey)
    ensures Compare(a, b) < 0 <==> Less(a, b)
    ensures Compare(a, b) > 0 <==> Less(b, a)
    ensures Compare(a, b) == 0 <==> a == b
  {
  }

  /** The key a lookup of `u` at snapshot `s` seeks to: it sorts just before every
      entry of `u` visible at `s` and after every entry of `u` that is too new. */
  function SeekKey(u: UserKey, s: SequenceNumber): InternalKey {
    InternalKey(u, s, Value)
  }

  lemma {:induction false} SeekKeySeparates(u: UserKey, s: SequenceNumber, k: InternalKey)
    ensures !Less(k, SeekKey(u, s)) <==> k.user > u || (k.user == u && k.sequence <= s)
  {
  }

  // ----- sorted runs of entries -----

  ghost predicate Sorted(es: seq<Entry>) {
    forall i, j :: 0 <= i < j < |es| ==> Less(es[i].key, es[j].key)
  }

  ghost function Elements(es: seq<Entry>): set<Entry> {
    set e | e in es
  }

  // ----- the specification: newest visible entry -----

  predicate Visible(e: Entry, u: UserKey, s: SequenceNumber) {
    e.key.user == u && e.key.sequence <= s
  }

  ghost predicate IsNewest(es: set<Entry>, u: UserKey, s: SequenceNumber, e: Entry) {
    && e in es
    && Visible(e, u, s)
    && forall x :: x in es && Visible(x, u, s) ==> x.key.sequence <= e.key.sequence
  }

  /** Every write gets a sequence number of its own. */
  ghost predicate UniqueSequences(es: set<Entry>) {
    forall x, y :: x in es && y in es && x.key.sequence == y.key.sequence ==> x == y
  }

  /** What a read of `u` at snapshot `s` must return over the entries `es`. */
  ghost function Lookup(es: set<Entry>, u: UserKey, s: SequenceNumber): (r: Option<Bytes>)
  {
    if exists e :: IsNewest(es, u, s, e) then
      var e :| IsNewest(es, u, s, e);
      Reveals(e)
    else
      None
  }

  /** The answer an entry gives to the reader that stops at it. */
  function Reveals(e: Entry): Option<Bytes> {
    if e.key.typ.Value? then Some(e.value) else None
  }

  lemma {:induction false} LookupIs(es: set<Entry>, u: UserKey, s: SequenceNumber, e: Entry)
    requires UniqueSequences(es)
    requires IsNewest(es, u, s, e)
    ensures Lookup(es, u, s) == Reveals(e)
  {
    var x :| IsNewest(es, u, s, x) && Lookup(es, u, s) == Reveals(x);
    assert IsNewest(es, u, s, x);
    assert x in es;
    assert Visible(x, u, s);
    assert Visible(e, u, s);
  }

  lemma {:induction false} LookupNothing(es: set<Entry>, u: UserKey, s: SequenceNumber)
    requires forall x :: x in es ==> !Visible(x, u, s)
    ensures Lookup(es, u, s) == None
  {
  }

  lemma {:induction false} NewestExists(es: set<Entry>, u: UserKey, s: SequenceNumber, x: Entry)
    returns (e: Entry)
    requires x in es && Visible(x, u, s)
    ensures IsNewest(es, u, s, e)
    decreases es
  {
    if y :| y in es && Visible(y, u, s) && y.key.sequence > x.key.sequence {
      var rest := es - {x};
      e := NewestExists(rest, u, s, y);
    } else {
      e := x;
    }
  }

  /** A lookup depends on the entries of its own user key that are visible, and on nothing else. */
  lemma {:induction false} LookupLocal(a: set<Entry>, b: set<Entry>, u: UserKey, s: SequenceNumber)
    requires UniqueSequences(a)
    requires UniqueSequences(b)
    requires forall e :: Visible(e, u, s) ==> (e in a <==> e in b)
    ensures Lookup(a, u, s) == Lookup(b, u, s)
  {
    if e :| IsNewest(a, u, s, e) {
      assert IsNewest(b, u, s, e);
      LookupIs(a, u, s, e);
      LookupIs(b, u, s, e);
    } else if x :| x in b && Visible(x, u, s) {
      var e := NewestExists(a, u, s, x);
    }
  }

  /** Two readers that see the same entries get the same answer. */
  lemma {:induction false} LookupAgrees(es: set<Entry>, u: UserKey, s: SequenceNumber, t: SequenceNumber)
    requires UniqueSequences(es) && forall x :: x in es ==> (Visible(x, u, s) <==> Visible(x, u, t))
    ensures Lookup(es, u, s) == Lookup(es, u, t)
  {
    if e :| IsNewest(es, u, s, e) {
      assert IsNewest(es, u, t, e);
      LookupIs(es, u, s, e);
      LookupIs(es, u, t, e);
    } else {
      assert forall e :: !IsNewest(es, u, t, e) by {
        forall e ensures IsNewest(es, u, t, e) ==> IsNewest(es, u, s, e) { }
      }
    }
  }

  // ----- the bytewise comparator -----

  /** Slice comparison: the first differing byte decides, then the shorter one is first. */
  predicate BytewiseLess(a: Bytes, b: Bytes) {
    if b == [] then false
    else if a == [] then true
    else if a[0] != b[0] then a[0] < b[0]
    else BytewiseLess(a[1..], b[1..])
  }

  function Rank(a: Bytes): (r: UserKey)
    ensures 0.0 <= r < 1.0
    ensures r == 0.0 <==> a == []
  {
    if a == [] then 0.0 else ((a[0] as real + 1.0) + Rank(a[1..])) / 257.0
  }

  /** Ranks order byte strings exactly as the bytewise comparator does, and distinct
      strings get distinct ranks. */
  lemma {:induction false} RankIsBytewiseOrder(a: Bytes, b: Bytes)
    ensures BytewiseLess(a, b) <==> Rank(a) < Rank(b)
    ensures a == b <==> Rank(a) == Rank(b)
  {
    if a == [] || b == [] {
    } else if a[0] != b[0] {
      var ra, rb := Rank(a[1..]), Rank(b[1..]);
      assert Rank(a) * 257.0 == (a[0] as real + 1.0) + ra;
      assert Rank(b) * 257.0 == (b[0] as real + 1.0) + rb;
    } else {
      RankIsBytewiseOrder(a[1..], b[1..]);
      assert a == b <==> a[1..] == b[1..] by {
        assert a == [a[0]] + a[1..] && b == [b[0]] + b[1..];
      }
      var ra, rb := Rank(a[1..]), Rank(b[1..]);
      assert Rank(a) * 257.0 == (a[0] as real + 1.0) + ra;
      assert Rank(b) * 257.0 == (b[0] as real + 1.0) + rb;
    }
  }
}
