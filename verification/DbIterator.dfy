// DBIter: the bidirectional cursor that hides overwritten, deleted and too-new entries
// of a sorted internal sequence.

module DbIterator {
  import opened Keys

  /** The merged internal iterator: a position in the sorted sequence, or invalid. */
  class InternalIterator {
    const entries: seq<Entry>
    var pos: Option<nat>

    ghost predicate Ok()
      reads this
    {
      Sorted(entries) && (pos.Some? ==> pos.value < |entries|)
    }

    constructor (entries: seq<Entry>)
      requires Sorted(entries)
      ensures Ok() && this.entries == entries && pos == None
    {
      this.entries := entries;
      pos := None;
    }

    predicate Valid()
      reads this
    {
      pos.Some?
    }

    function Current(): Entry
      requires Ok() && Valid()
      reads this
    {
      entries[pos.value]
    }

    method SeekToFirst()
      requires Ok()
      modifies this
      ensures Ok() && pos == if entries == [] then None else Some(0)
    {
      pos := if |entries| == 0 then None else Some(0);
    }

    method SeekToLast()
      requires Ok()
      modifies this
      ensures Ok() && pos == if entries == [] then None else Some(|entries| - 1)
    {
      pos := if |entries| == 0 then None else Some(|entries| - 1);
    }

    /** Positions at the first entry at or after `target`. */
    method Seek(target: InternalKey)
      requires Ok()
      modifies this
      ensures Ok()
      ensures pos.None? ==> forall i :: 0 <= i < |entries| ==> Less(entries[i].key, target)
      ensures pos.Some? ==> !Less(entries[pos.value].key, target)
                            && forall i :: 0 <= i < pos.value ==> Less(entries[i].key, target)
    {
      var i := 0;
      while i < |entries| && Less(entries[i].key, target)
        invariant 0 <= i <= |entries|
        invariant forall j :: 0 <= j < i ==> Less(entries[j].key, target)
      {
        i := i + 1;
      }
      pos := if i == |entries| then None else Some(i);
    }

    method Next()
      requires Ok() && Valid()
      modifies this
      ensures Ok() && pos == if old(pos).value + 1 < |entries| then Some(old(pos).value + 1) else None
    {
      pos := if pos.value + 1 < |entries| then Some(pos.value + 1) else None;
    }

    method Prev()
      requires Ok() && Valid()
      modifies this
      ensures Ok() && pos == if old(pos).value > 0 then Some(old(pos).value - 1) else None
    {
      pos := if pos.value > 0 then Some(pos.value - 1) else None;
    }
  }

  // ----- live pairs -----

  /** Entry `i` is the one that gives its user key a value at snapshot `s`. */
  ghost predicate Live(es: seq<Entry>, s: SequenceNumber, i: int) {
    && 0 <= i < |es|
    && es[i].key.sequence <= s
    && es[i].key.typ.Value?
    && forall j :: 0 <= j < i && es[j].key.sequence <= s ==> es[j].key.user != es[i].key.user
  }

  ghost predicate LiveKey(es: seq<Entry>, s: SequenceNumber, u: UserKey) {
    Lookup(Elements(es), u, s).Some?
  }

  /** Live entries are exactly the pairs of the abstract map. */
  lemma {:induction false} LiveIsLookup(es: seq<Entry>, s: SequenceNumber, i: nat)
    requires Sorted(es) && UniqueSequences(Elements(es)) && Live(es, s, i)
    ensures Lookup(Elements(es), es[i].key.user, s) == Some(es[i].value)
  {
    forall x | x in Elements(es) && Visible(x, es[i].key.user, s)
      ensures x.key.sequence <= es[i].key.sequence
    {
      var j :| 0 <= j < |es| && es[j] == x;
      assert i < j ==> Less(es[i].key, es[j].key);
    }
    assert IsNewest(Elements(es), es[i].key.user, s, es[i]);
    LookupIs(Elements(es), es[i].key.user, s, es[i]);
  }

  lemma {:induction false} LookupIsLive(es: seq<Entry>, s: SequenceNumber, u: UserKey) returns (i: nat)
    requires Sorted(es) && UniqueSequences(Elements(es)) && LiveKey(es, s, u)
    ensures Live(es, s, i) && es[i].key.user == u
  {
    var e :| IsNewest(Elements(es), u, s, e);
    LookupIs(Elements(es), u, s, e);
    i :| 0 <= i < |es| && es[i] == e;
    forall j | 0 <= j < i && es[j].key.sequence <= s
      ensures es[j].key.user != u
    {
      assert es[j] in Elements(es);
      assert Less(es[j].key, es[i].key);
      if es[j].key.user == u { assert Visible(es[j], u, s); }
    }
  }

  datatype Direction = Forward | Reverse

  class DBIter {
    const iter: InternalIterator
    const sequence: SequenceNumber
    var savedKey: Option<UserKey>
    var savedValue: Bytes
    var direction: Direction
    var valid: bool

    ghost predicate Ok()
      reads this, iter
    {
      && iter.Ok()
      && UniqueSequences(Elements(iter.entries))
      && (valid && direction.Forward? ==> iter.Valid() && Live(iter.entries, sequence, iter.pos.value))
      && (valid && direction.Reverse? ==>
            exists i :: Live(iter.entries, sequence, i)
              && savedKey == Some(iter.entries[i].key.user)
              && savedValue == iter.entries[i].value
              && JustBefore(iter.entries, sequence, iter.pos, savedKey.value))
    }

    constructor (iter: InternalIterator, sequence: SequenceNumber)
      requires iter.Ok() && UniqueSequences(Elements(iter.entries))
      ensures Ok() && !valid && this.iter == iter && this.sequence == sequence
    {
      this.iter, this.sequence := iter, sequence;
      savedKey, savedValue := None, [];
      direction, valid := Forward, false;
    }

    function CurrentKey(): UserKey
      requires Ok() && valid
      reads this, iter
    {
      if direction.Forward? then iter.Current().key.user else savedKey.value
    }

    function CurrentValue(): Bytes
      requires Ok() && valid
      reads this, iter
    {
      if direction.Forward? then iter.Current().value else savedValue
    }

    // ----- the abstract cursor -----

    /** The cursor stands on the pair of the abstract map with the least key above (at) a bound. */
    ghost predicate AtFirstFrom(bound: Option<UserKey>, strict: bool)
      requires Ok()
      reads this, iter
    {
      && (valid ==>
            && Lookup(Elements(iter.entries), CurrentKey(), sequence) == Some(CurrentValue())
            && Beyond(bound, strict, CurrentKey())
            && forall u :: LiveKey(iter.entries, sequence, u) && Beyond(bound, strict, u) ==> CurrentKey() <= u)
      && (!valid ==> forall u :: LiveKey(iter.entries, sequence, u) ==> !Beyond(bound, strict, u))
    }

    /** The cursor stands on the pair with the greatest key below a bound. */
    ghost predicate AtLastBefore(bound: Option<UserKey>)
      requires Ok()
      reads this, iter
    {
      && (valid ==>
            && Lookup(Elements(iter.entries), CurrentKey(), sequence) == Some(CurrentValue())
            && (bound.Some? ==> CurrentKey() < bound.value)
            && forall u :: LiveKey(iter.entries, sequence, u) && (bound.Some? ==> u < bound.value) ==> u <= CurrentKey())
      && (!valid ==> forall u :: LiveKey(iter.entries, sequence, u) ==> bound.Some? && u >= bound.value)
    }

    // ----- forward -----

    /** Advances to the next acceptable entry; `skip` is the key whose remaining entries are hidden. */
    method FindNextUserEntry(startSkipping: bool, startSkip: Option<UserKey>,
                             ghost bound: Option<UserKey>, ghost strict: bool)
      requires iter.Ok() && iter.Valid() && direction == Forward
      requires UniqueSequences(Elements(iter.entries))
      requires startSkipping ==> startSkip.Some?
      requires Scanning(iter.entries, sequence, bound, strict, startSkipping, startSkip, iter.pos.value)
      modifies this`valid, this`savedKey, iter
      ensures Ok() && direction == Forward
      ensures AtFirstFrom(bound, strict)
    {
      hide Scanning, Live, Sorted, Lookup;
      var skipping, skip := startSkipping, startSkip;
      ghost var es := iter.entries;
      while true
        invariant iter.Ok() && direction == Forward && iter.pos.Some?
        invariant skipping ==> skip.Some?
        invariant Scanning(es, sequence, bound, strict, skipping, skip, iter.pos.value)
        decreases |es| - iter.pos.value
      {
        ghost var i := iter.pos.value;
        var e := iter.Current();
        if e.key.sequence <= sequence {
          match e.key.typ {
            case Deletion =>
              PassDeletion(es, sequence, bound, strict, skipping, skip, i);
              skip := Some(e.key.user);
              skipping := true;
            case Value =>
              if skipping && e.key.user <= skip.value {
                // Entry hidden
                PassHidden(es, sequence, bound, strict, skipping, skip, i);
              } else {
                valid := true;
                savedKey := None;
                FoundNext(bound, strict, skipping, skip, i);
                return;
              }
          }
        } else {
          PassTooNew(es, sequence, bound, strict, skipping, skip, i);
        }
        iter.Next();
        if !iter.Valid() { break; }
      }
      savedKey := None;
      valid := false;
      NothingNext(bound, strict, skipping, skip);
    }

    lemma {:induction false} FoundNext(bound: Option<UserKey>, strict: bool, skipping: bool, skip: Option<UserKey>, i: nat)
      requires iter.Ok() && UniqueSequences(Elements(iter.entries))
      requires iter.pos == Some(i) && Scanning(iter.entries, sequence, bound, strict, skipping, skip, i)
      requires valid && direction == Forward
      requires iter.entries[i].key.sequence <= sequence && iter.entries[i].key.typ.Value?
      requires !(skipping && iter.entries[i].key.user <= skip.value)
      ensures Ok() && AtFirstFrom(bound, strict)
    {
      LiveIsLookup(iter.entries, sequence, i);
      forall u | LiveKey(iter.entries, sequence, u) && Beyond(bound, strict, u)
        ensures iter.entries[i].key.user <= u
      {
        var k := LookupIsLive(iter.entries, sequence, u);
        assert i < k ==> Less(iter.entries[i].key, iter.entries[k].key);
      }
    }

    lemma {:induction false} NothingNext(bound: Option<UserKey>, strict: bool, skipping: bool, skip: Option<UserKey>)
      requires iter.Ok() && UniqueSequences(Elements(iter.entries))
      requires Scanning(iter.entries, sequence, bound, strict, skipping, skip, |iter.entries|)
      requires !valid
      ensures Ok() && AtFirstFrom(bound, strict)
    {
      forall u | LiveKey(iter.entries, sequence, u)
        ensures !Beyond(bound, strict, u)
      {
        var k := LookupIsLive(iter.entries, sequence, u);
      }
    }

    method SeekToFirst()
      requires iter.Ok() && UniqueSequences(Elements(iter.entries))
      modifies this, iter
      ensures Ok() && AtFirstFrom(None, false)
    {
      direction := Forward;
      savedValue := [];
      iter.SeekToFirst();
      if iter.Valid() {
        FindNextUserEntry(false, savedKey, None, false);
      } else {
        valid := false;
        NothingNext(None, false, false, None);
      }
    }

    method Seek(target: UserKey)
      requires iter.Ok() && UniqueSequences(Elements(iter.entries))
      modifies this, iter
      ensures Ok() && AtFirstFrom(Some(target), false)
    {
      direction := Forward;
      savedValue := [];
      savedKey := None;
      iter.Seek(SeekKey(target, sequence));
      SeekScans(iter.entries, sequence, target, if iter.pos.Some? then iter.pos.value else |iter.entries|);
      if iter.Valid() {
        FindNextUserEntry(false, savedKey, Some(target), false);
      } else {
        valid := false;
        NothingNext(Some(target), false, false, None);
      }
    }

    method Next()
      requires Ok() && valid
      modifies this, iter
      ensures Ok() && AtFirstFrom(Some(old(CurrentKey())), true)
    {
      hide Scanning, UniqueSequences, Lookup;
      ghost var key := CurrentKey();
      ghost var es := iter.entries;
      if direction == Reverse {
        direction := Forward;
        // The iterator is just before the entries of the current key.
        ghost var p := iter.pos;
        if !iter.Valid() {
          iter.SeekToFirst();
        } else {
          iter.Next();
        }
        NextFromReverse(es, sequence, p, key);
        if !iter.Valid() {
          // The source gives up here; the current key's entries are still ahead, so it never does.
          assert false;
        }
      } else {
        savedKey := Some(iter.Current().key.user);
        NextFromForward(es, sequence, iter.pos.value);
      }
      FindNextUserEntry(true, savedKey, Some(key), true);
    }

    // ----- backward -----

    /** Scans backward for the last live entry at or before the position. */
    method FindPrevUserEntry(ghost bound: Option<UserKey>)
      requires iter.Ok() && direction == Reverse
      requires UniqueSequences(Elements(iter.entries))
      requires ScanStart(iter.entries, sequence, iter.pos, bound)
      modifies this, iter
      ensures Ok() && AtLastBefore(bound)
    {
      var valueType, j := ScanBack(bound);
      if valueType == Deletion {
        valid := false;
        savedKey := None;
        savedValue := [];
        direction := Forward;
        NothingPrev(bound, j);
      } else {
        valid := true;
        PrevIsCursor(bound, j.value);
      }
    }

    /** The scanning loop: ends at the candidate's predecessor, or before the first entry. */
    method ScanBack(ghost bound: Option<UserKey>) returns (valueType: ValueType, ghost j: Option<nat>)
      requires iter.Ok() && direction == Reverse
      requires ScanStart(iter.entries, sequence, iter.pos, bound)
      modifies this`savedKey, this`savedValue, iter
      ensures iter.Ok()
      ensures j.Some? ==> j.value < |iter.entries|
      ensures valueType == Candidate(iter.entries, j)
      ensures valueType == Deletion ==> BackScan(iter.entries, sequence, bound, 0, j)
      ensures valueType == Value ==> savedKey == Some(iter.entries[j.value].key.user)
                                     && savedValue == iter.entries[j.value].value
                                     && PrevFound(iter.entries, sequence, bound, iter.pos, j.value)
    {
      hide JustBefore, Live, Sorted, BackScan, ScanStart, PrevFound;
      ghost var es := iter.entries;
      j := None;
      valueType := Deletion;
      BackStart(es, sequence, iter.pos, bound);
      if iter.Valid() {
        while true
          invariant iter.Ok() && iter.pos.Some?
          invariant BackScan(es, sequence, bound, iter.pos.value + 1, j)
          invariant j.Some? ==> j.value < |es|
          invariant valueType == Candidate(es, j)
          invariant valueType == Value ==> savedKey == Some(es[j.value].key.user) && savedValue == es[j.value].value
          decreases iter.pos.value
        {
          ghost var i := iter.pos.value;
          var e := iter.Current();
          if e.key.sequence <= sequence {
            if valueType != Deletion && e.key.user < savedKey.value {
              // A visible entry of an earlier key: the candidate stands.
              FoundPrev(es, sequence, bound, i + 1, j.value);
              return;
            }
            BackVisible(es, sequence, bound, i, j);
            j := Some(i);
            valueType := e.key.typ;
            if valueType == Deletion {
              savedKey := None;
              savedValue := [];
            } else {
              savedKey := Some(e.key.user);
              savedValue := e.value;
            }
          } else {
            BackTooNew(es, sequence, bound, i, j);
          }
          iter.Prev();
          if !iter.Valid() {
            if valueType == Value { FoundPrev(es, sequence, bound, 0, j.value); }
            return;
          }
        }
      }
    }

    lemma {:induction false} NothingPrev(bound: Option<UserKey>, j: Option<nat>)
      requires iter.Ok() && UniqueSequences(Elements(iter.entries)) && !valid
      requires BackScan(iter.entries, sequence, bound, 0, j)
      requires Candidate(iter.entries, j) == Deletion
      ensures Ok() && AtLastBefore(bound)
    {
      forall u | LiveKey(iter.entries, sequence, u)
        ensures bound.Some? && u >= bound.value
      {
        var k := LookupIsLive(iter.entries, sequence, u);
      }
    }

    lemma {:induction false} PrevIsCursor(bound: Option<UserKey>, j: nat)
      requires iter.Ok() && UniqueSequences(Elements(iter.entries)) && valid && direction == Reverse
      requires PrevFound(iter.entries, sequence, bound, iter.pos, j)
      requires savedKey == Some(iter.entries[j].key.user) && savedValue == iter.entries[j].value
      ensures Ok() && AtLastBefore(bound)
    {
      LiveIsLookup(iter.entries, sequence, j);
      forall u | LiveKey(iter.entries, sequence, u) && (bound.Some? ==> u < bound.value)
        ensures u <= CurrentKey()
      {
        var k := LookupIsLive(iter.entries, sequence, u);
      }
    }

    method SeekToLast()
      requires iter.Ok() && UniqueSequences(Elements(iter.entries))
      modifies this, iter
      ensures Ok() && AtLastBefore(None)
    {
      direction := Reverse;
      savedValue := [];
      iter.SeekToLast();
      FindPrevUserEntry(None);
    }

    method Prev()
      requires Ok() && valid
      modifies this, iter
      ensures Ok() && AtLastBefore(Some(old(CurrentKey())))
    {
      hide JustBefore, ScanStart, BackScan, PrevFound, Live, UniqueSequences, Lookup;
      ghost var key := CurrentKey();
      ghost var es := iter.entries;
      if direction == Forward {
        // Scan backward until the key changes.
        savedKey := Some(iter.Current().key.user);
        ghost var p := iter.pos.value;
        while true
          invariant iter.Ok() && iter.pos.Some? && iter.pos.value <= p && direction == Forward
          invariant savedKey == Some(key)
          invariant forall k :: iter.pos.value <= k <= p ==> es[k].key.user == key
          decreases iter.pos.value
        {
          ghost var i := iter.pos.value;
          iter.Prev();
          if !iter.Valid() {
            valid := false;
            savedKey := None;
            savedValue := [];
            BackedOff(es, sequence, key, p, 0);
            BackStart(es, sequence, None, Some(key));
            NothingPrev(Some(key), None);
            return;
          }
          if iter.Current().key.user < savedKey.value {
            BackedOff(es, sequence, key, p, i);
            break;
          }
          assert Less(es[i - 1].key, es[i].key);
        }
        direction := Reverse;
      } else {
        PrevFromReverse(es, sequence, iter.pos, key);
      }
      FindPrevUserEntry(Some(key));
    }
  }

  lemma {:induction false} SeekScans(es: seq<Entry>, s: SequenceNumber, target: UserKey, i: nat)
    requires Sorted(es) && i <= |es|
    requires forall k :: 0 <= k < i ==> Less(es[k].key, SeekKey(target, s))
    requires i < |es| ==> !Less(es[i].key, SeekKey(target, s))
    ensures Scanning(es, s, Some(target), false, false, None, i)
  {
    forall k | 0 <= k < i
      ensures es[k].key.user < target || (es[k].key.user == target && es[k].key.sequence > s)
    {
      SeekKeySeparates(target, s, es[k].key);
    }
    forall m | i <= m < |es|
      ensures es[m].key.user >= target
    {
      SeekKeySeparates(target, s, es[i].key);
      assert i < m ==> Less(es[i].key, es[m].key);
    }
  }

  /** Leaving the current entry forward: its key is what to skip. */
  lemma {:induction false} NextFromForward(es: seq<Entry>, s: SequenceNumber, i: nat)
    requires Sorted(es) && Live(es, s, i)
    ensures Scanning(es, s, Some(es[i].key.user), true, true, Some(es[i].key.user), i)
  {
    forall k | 0 <= k < i
      ensures es[k].key.user <= es[i].key.user
    {
      assert Less(es[k].key, es[i].key);
    }
    forall m | i <= m < |es|
      ensures es[i].key.user <= es[m].key.user
    {
      assert i < m ==> Less(es[i].key, es[m].key);
    }
  }

  /** Backing off the entries of the current key leaves exactly the earlier keys. */
  lemma {:induction false} BackedOff(es: seq<Entry>, s: SequenceNumber, key: UserKey, p: nat, i: nat)
    requires Sorted(es) && i <= p < |es|
    requires forall k :: i <= k <= p ==> es[k].key.user == key
    requires i > 0 ==> es[i - 1].key.user < key
    ensures ScanStart(es, s, if i > 0 then Some(i - 1) else None, Some(key))
  {
    forall k | i <= k < |es|
      ensures es[k].key.user >= key
    {
      assert p < k ==> Less(es[p].key, es[k].key);
    }
    forall k | 0 <= k < i
      ensures es[k].key.user < key
    {
      assert k < i - 1 ==> Less(es[k].key, es[i - 1].key);
    }
  }

  lemma {:induction false} PrevFromReverse(es: seq<Entry>, s: SequenceNumber, p: Option<nat>, key: UserKey)
    requires Sorted(es) && JustBefore(es, s, p, key)
    ensures ScanStart(es, s, p, Some(key))
  {
  }

  /** Switching to forward: the saved key is what to skip. */
  lemma {:induction false} NextFromReverse(es: seq<Entry>, s: SequenceNumber, p: Option<nat>, key: UserKey)
    requires Sorted(es) && JustBefore(es, s, p, key)
    ensures Scanning(es, s, Some(key), true, true, Some(key), if p.Some? then p.value + 1 else 0)
  {
  }

  /** State of a forward scan that has reached `i`: no live entry with a wanted key has been passed, what
      was passed and is visible is covered by `skip`, and what `skip` hides is not wanted. */
  ghost predicate Scanning(es: seq<Entry>, s: SequenceNumber, bound: Option<UserKey>, strict: bool,
                           skipping: bool, skip: Option<UserKey>, i: nat)
  {
    && i <= |es|
    && (skipping ==> skip.Some?)
    && (forall k :: 0 <= k < i && Live(es, s, k) ==> !Beyond(bound, strict, es[k].key.user))
    && (forall k, m :: 0 <= k < i <= m < |es| && es[k].key.sequence <= s && es[k].key.user == es[m].key.user ==>
          skipping && es[m].key.user <= skip.value)
    && (forall m :: i <= m < |es| && Live(es, s, m) && skipping && es[m].key.user <= skip.value ==>
          !Beyond(bound, strict, es[m].key.user))
    && (forall m :: i <= m < |es| && es[m].key.sequence <= s && skipping ==> skip.value <= es[m].key.user)
    && (forall m :: i <= m < |es| && !(skipping && es[m].key.user <= skip.value) ==>
          Beyond(bound, strict, es[m].key.user))
  }

  lemma {:induction false} PassTooNew(es: seq<Entry>, s: SequenceNumber, bound: Option<UserKey>, strict: bool,
                                      skipping: bool, skip: Option<UserKey>, i: nat)
    requires Sorted(es) && i < |es| && Scanning(es, s, bound, strict, skipping, skip, i)
    requires es[i].key.sequence > s
    ensures Scanning(es, s, bound, strict, skipping, skip, i + 1)
  {
  }

  lemma {:induction false} PassHidden(es: seq<Entry>, s: SequenceNumber, bound: Option<UserKey>, strict: bool,
                                      skipping: bool, skip: Option<UserKey>, i: nat)
    requires Sorted(es) && i < |es| && Scanning(es, s, bound, strict, skipping, skip, i)
    requires es[i].key.sequence <= s && skipping && es[i].key.user <= skip.value
    ensures Scanning(es, s, bound, strict, skipping, skip, i + 1)
  {
  }

  /** A visible deletion hides all later entries of its key, and none of them is live. */
  lemma {:induction false} PassDeletion(es: seq<Entry>, s: SequenceNumber, bound: Option<UserKey>, strict: bool,
                                        skipping: bool, skip: Option<UserKey>, i: nat)
    requires Sorted(es) && i < |es| && Scanning(es, s, bound, strict, skipping, skip, i)
    requires es[i].key.sequence <= s && es[i].key.typ.Deletion?
    ensures Scanning(es, s, bound, strict, true, Some(es[i].key.user), i + 1)
  {
    forall m | i < m < |es|
      ensures es[i].key.user <= es[m].key.user
    {
      assert Less(es[i].key, es[m].key);
    }
  }

  predicate Beyond(bound: Option<UserKey>, strict: bool, u: UserKey) {
    bound.None? || u > bound.value || (!strict && u == bound.value)
  }

  /** The iterator is positioned just before all entries whose user key is `key`; entries after the
      position with a smaller user key are too new to be seen. */
  ghost predicate JustBefore(es: seq<Entry>, s: SequenceNumber, pos: Option<nat>, key: UserKey) {
    && (pos.Some? ==> pos.value < |es| && forall i :: 0 <= i <= pos.value ==> es[i].key.user < key)
    && (forall i :: (if pos.Some? then pos.value + 1 else 0) <= i < |es| && es[i].key.user < key ==> es[i].key.sequence > s)
  }

  // ----- backward scans -----

  /** The live keys below the bound are exactly the live entries at or before the position. */
  ghost predicate ScanStart(es: seq<Entry>, s: SequenceNumber, pos: Option<nat>, bound: Option<UserKey>) {
    && (pos.Some? ==> pos.value < |es|)
    && (forall i :: (if pos.Some? then pos.value + 1 else 0) <= i < |es| && es[i].key.sequence <= s ==>
          bound.Some? && es[i].key.user >= bound.value)
    && (pos.Some? && bound.Some? ==> forall i :: 0 <= i <= pos.value ==> es[i].key.user < bound.value)
  }

  function Candidate(es: seq<Entry>, j: Option<nat>): ValueType
    requires j.Some? ==> j.value < |es|
  {
    if j.Some? then es[j.value].key.typ else Deletion
  }

  /** State of a backward scan that has processed everything from `i` on: `j` is the last visible entry
      processed, and no live entry below the bound has been processed other than `j`. */
  ghost predicate BackScan(es: seq<Entry>, s: SequenceNumber, bound: Option<UserKey>, i: nat, j: Option<nat>) {
    && i <= |es|
    && (forall k :: 0 <= k < i && bound.Some? ==> es[k].key.user < bound.value)
    && (j.Some? ==> i <= j.value < |es| && es[j.value].key.sequence <= s
                    && (bound.Some? ==> es[j.value].key.user < bound.value)
                    && forall k :: i <= k < j.value ==> es[k].key.sequence > s)
    && (j.None? ==> forall k :: i <= k < |es| && es[k].key.sequence <= s ==>
          bound.Some? && es[k].key.user >= bound.value)
    && (forall k :: i <= k < |es| && Live(es, s, k) && j != Some(k) ==> bound.Some? && es[k].key.user >= bound.value)
  }

  lemma {:induction false} BackStart(es: seq<Entry>, s: SequenceNumber, pos: Option<nat>, bound: Option<UserKey>)
    requires Sorted(es) && ScanStart(es, s, pos, bound)
    ensures BackScan(es, s, bound, if pos.Some? then pos.value + 1 else 0, None)
  {
  }

  lemma {:induction false} BackTooNew(es: seq<Entry>, s: SequenceNumber, bound: Option<UserKey>, i: nat, j: Option<nat>)
    requires Sorted(es) && i < |es| && BackScan(es, s, bound, i + 1, j)
    requires es[i].key.sequence > s
    ensures BackScan(es, s, bound, i, j)
  {
  }

  /** A visible entry replaces the candidate: either it is a newer entry of the same key, or the
      candidate was a deletion. */
  lemma {:induction false} BackVisible(es: seq<Entry>, s: SequenceNumber, bound: Option<UserKey>, i: nat, j: Option<nat>)
    requires Sorted(es) && i < |es| && BackScan(es, s, bound, i + 1, j)
    requires es[i].key.sequence <= s
    requires Candidate(es, j) == Value ==> es[i].key.user >= es[j.value].key.user
    ensures BackScan(es, s, bound, i, Some(i))
  {
    if j.Some? {
      assert Less(es[i].key, es[j.value].key);
      assert es[i].key.user == es[j.value].key.user ==> !Live(es, s, j.value);
    }
  }

  /** Entry `j` is the last live one below the bound, and the position is just before its key. */
  ghost predicate PrevFound(es: seq<Entry>, s: SequenceNumber, bound: Option<UserKey>, pos: Option<nat>, j: nat) {
    && Live(es, s, j)
    && (bound.Some? ==> es[j].key.user < bound.value)
    && JustBefore(es, s, pos, es[j].key.user)
    && forall k :: 0 <= k < |es| && Live(es, s, k) && (bound.Some? ==> es[k].key.user < bound.value) ==>
         es[k].key.user <= es[j].key.user
  }

  /** The candidate is live once every visible entry before it has an earlier key. */
  lemma {:induction false} FoundPrev(es: seq<Entry>, s: SequenceNumber, bound: Option<UserKey>, i: nat, j: nat)
    requires Sorted(es) && BackScan(es, s, bound, i, Some(j)) && es[j].key.typ.Value?
    requires i > 0 ==> es[i - 1].key.user < es[j].key.user
    ensures PrevFound(es, s, bound, if i > 0 then Some(i - 1) else None, j)
  {
    forall k | 0 <= k < i
      ensures es[k].key.user < es[j].key.user
    {
      assert k < i - 1 ==> Less(es[k].key, es[i - 1].key);
    }
    forall k | j < k < |es|
      ensures es[j].key.user <= es[k].key.user
    {
      assert Less(es[j].key, es[k].key);
    }
  }
}
