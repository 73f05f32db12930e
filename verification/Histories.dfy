// What a run of the engine means to those who hold snapshots and to those who write: a snapshot stays
// readable, with the contents it was taken with, until it is released; a group takes effect as a whole.

module Histories {
  import opened Keys
  import opened Levels
  import opened VersionBuilder
  import opened LevelEdits
  import opened Engine

  // ----- how often a snapshot is held -----

  /** How often a snapshot of number `n` was taken in the first `j` steps. */
  ghost function Takes(states: seq<Db>, steps: seq<Step>, j: nat, n: SequenceNumber): nat
    requires j <= |steps| < |states|
  {
    if j == 0 then 0
    else Takes(states, steps, j - 1, n) + if steps[j - 1].TakeSnapshot? && states[j - 1].lastSequence == n then 1 else 0
  }

  function Releases(steps: seq<Step>, n: SequenceNumber): nat {
    if steps == [] then 0
    else Releases(steps[..|steps| - 1], n) + if steps[|steps| - 1] == ReleaseSnapshot(n) then 1 else 0
  }

  lemma {:induction false} StepCounts(db: Db, step: Step, n: SequenceNumber)
    requires Shape(db.version) && db.mem in db.tables && Enabled(db, step)
    ensures Do(db, step).snapshots[n] + (if step == ReleaseSnapshot(n) then 1 else 0)
         == db.snapshots[n] + if step.TakeSnapshot? && db.lastSequence == n then 1 else 0
  {
    hide Shape, FlushEnabled, CompactEnabled;
  }

  /** A number is held as often as it was taken and not released. */
  lemma {:induction false} SnapshotsAreCounted(states: seq<Db>, steps: seq<Step>, j: nat, n: SequenceNumber)
    requires Path(states, steps) && j <= |steps|
    ensures states[j].snapshots[n] + Releases(steps[..j], n) == states[0].snapshots[n] + Takes(states, steps, j, n)
  {
    hide Enabled, Do;
    if j > 0 {
      SnapshotsAreCounted(states, steps, j - 1, n);
      assert Happens(states[j - 1], steps[j - 1], states[j]);
      StepCounts(states[j - 1], steps[j - 1], n);
      assert steps[..j][..j - 1] == steps[..j - 1];
    }
  }

  /** Held more often than it was released since, a snapshot can still be read, and so can everything later. */
  lemma {:induction false} HeldIsReadable(states: seq<Db>, steps: seq<Step>, j: nat, n: SequenceNumber, s: SequenceNumber)
    requires Path(states, steps) && j <= |steps| && n <= s
    requires Releases(steps[..j], n) < states[0].snapshots[n]
    ensures Readable(states[j], s)
  {
    SnapshotsAreCounted(states, steps, j, n);
    assert n in states[j].snapshots;
  }

  // ----- what it reads -----

  lemma {:induction false} StepKeepsPast(db: Db, step: Step, u: UserKey, s: SequenceNumber)
    requires BaseInv(db) && Enabled(db, step) && s <= db.lastSequence
    ensures Lookup(Do(db, step).history, u, s) == Lookup(db.history, u, s) && s <= Do(db, step).lastSequence
  {
    hide BaseInv, Lookup, Enabled, Do;
    BaseGroup(db);
    BaseWellFormed(db);
    if step.InsertOne? {
      PastOfInsert(db, u, s);
    } else {
      TablesStay(db, step);
    }
  }

  lemma {:induction false} PastOfInsert(db: Db, u: UserKey, s: SequenceNumber)
    requires BaseInv(db) && Enabled(db, InsertOne) && s <= db.lastSequence
    ensures Lookup(Do(db, InsertOne).history, u, s) == Lookup(db.history, u, s)
    ensures Do(db, InsertOne).lastSequence == db.lastSequence
  {
    hide WellFormed, NumbersBelow, Layered, Entries, Lookup;
    InsertKeepsBase(db);
    LookupLocal(Do(db, InsertOne).history, db.history, u, s);
  }

  lemma {:induction false} PathKeepsPast(states: seq<Db>, steps: seq<Step>, j: nat, u: UserKey, s: SequenceNumber)
    requires Path(states, steps) && j <= |steps| && BaseInv(states[0]) && s <= states[0].lastSequence
    ensures Lookup(states[j].history, u, s) == Lookup(states[0].history, u, s) && s <= states[j].lastSequence
  {
    hide BaseInv, Lookup, Enabled, Do;
    if j > 0 {
      PathKeepsPast(states, steps, j - 1, u, s);
      PathKeepsBase(states, steps, j - 1);
      assert Happens(states[j - 1], steps[j - 1], states[j]);
      StepKeepsPast(states[j - 1], steps[j - 1], u, s);
    }
  }

  lemma {:induction false} SafePathKeepsInv(states: seq<Db>, steps: seq<Step>, j: nat)
    requires Path(states, steps) && j <= |steps| && Inv(states[0])
    requires forall i :: 0 <= i < j ==> Safe(states[i], steps[i])
    ensures Inv(states[j])
  {
    hide Inv, Enabled, Do, Safe;
    if j > 0 {
      SafePathKeepsInv(states, steps, j - 1);
      assert Happens(states[j - 1], steps[j - 1], states[j]);
      StepIsSafeIff(states[j - 1], steps[j - 1]);
    }
  }

  /** A snapshot held on to reads, over what the engine still keeps, exactly what it read at first. */
  lemma {:induction false} HeldReadsTheSame(states: seq<Db>, steps: seq<Step>, j: nat, n: SequenceNumber, u: UserKey)
    requires Path(states, steps) && j <= |steps| && Inv(states[0])
    requires forall i :: 0 <= i < j ==> Safe(states[i], steps[i])
    requires Releases(steps[..j], n) < states[0].snapshots[n]
    ensures Readable(states[j], n)
    ensures Lookup(Entries(states[j]), u, n) == Lookup(states[0].history, u, n)
  {
    hide BaseInv, NewerAbove, Enabled, Do, Safe, Lookup, Entries;
    HeldIsReadable(states, steps, j, n, n);
    SafePathKeepsInv(states, steps, j);
    BaseGroup(states[0]);
    assert n in states[0].snapshots;
    PathKeepsPast(states, steps, j, u, n);
  }

  lemma {:induction false} PathFrom(states: seq<Db>, steps: seq<Step>, i: nat)
    requires Path(states, steps) && i <= |steps|
    ensures Path(states[i..], steps[i..])
  {
    hide Happens;
    forall k | 0 <= k < |steps[i..]|
      ensures Happens(states[i..][k], steps[i..][k], states[i..][k + 1])
    {
      assert Happens(states[i + k], steps[i + k], states[i + k + 1]);
    }
  }

  /** A snapshot taken on the way reads, as long as it is not released, what had been written when it was taken. */
  lemma {:induction false} TakenReadsTheSame(states: seq<Db>, steps: seq<Step>, i: nat, j: nat, u: UserKey)
    requires Path(states, steps) && states[0] == INITIAL && i < j <= |steps| && steps[i].TakeSnapshot?
    requires forall k :: 0 <= k < j ==> Safe(states[k], steps[k])
    requires Releases(steps[i + 1..j], states[i].lastSequence) <= states[i].snapshots[states[i].lastSequence]
    ensures Readable(states[j], states[i].lastSequence)
    ensures Lookup(Entries(states[j]), u, states[i].lastSequence) == Lookup(states[i].history, u, states[i].lastSequence)
  {
    hide Inv, BaseInv, Enabled, Do, Safe, Lookup, Entries, Readable;
    var n := states[i].lastSequence;
    InitialInv();
    SafePathKeepsInv(states, steps, i + 1);
    PathFrom(states, steps, i + 1);
    var later, rest := states[i + 1..], steps[i + 1..];
    assert rest[..j - i - 1] == steps[i + 1..j];
    assert later[j - i - 1] == states[j];
    assert Happens(states[i], steps[i], states[i + 1]);
    TakenOnce(states[i], states[i + 1]);
    forall k | 0 <= k < j - i - 1
      ensures Safe(later[k], rest[k])
    {
      assert Safe(states[i + 1 + k], steps[i + 1 + k]);
    }
    HeldReadsTheSame(later, rest, j - i - 1, n, u);
  }

  lemma {:induction false} TakenOnce(db: Db, db2: Db)
    requires Happens(db, TakeSnapshot, db2)
    ensures db2.snapshots[db.lastSequence] == db.snapshots[db.lastSequence] + 1 && db2.history == db.history
  {
  }

  // ----- a group takes effect as a whole -----

  /** A group is under way: `db` is where it began. */
  ghost predicate Under(db: Db, db2: Db, ops: seq<Op>) {
    && db2.batch == Numbered(ops, db.lastSequence + 1) && db2.inserted <= |ops|
    && db2.lastSequence == db.lastSequence
    && db2.history == db.history + Elements(Numbered(ops, db.lastSequence + 1)[..db2.inserted])
  }

  lemma {:induction false} GroupBegins(db: Db, ops: seq<Op>)
    requires db.mem in db.tables
    ensures Under(db, Do(db, BeginGroup(ops)), ops)
  {
    assert Elements(Numbered(ops, db.lastSequence + 1)[..0]) == {};
  }

  lemma {:induction false} GroupGoesOn(db: Db, db2: Db, ops: seq<Op>, step: Step)
    requires Under(db, db2, ops) && |ops| > 0 && Shape(db2.version) && db2.mem in db2.tables && Enabled(db2, step)
    requires !step.PublishGroup?
    ensures Under(db, Do(db2, step), ops)
  {
    hide Shape, FlushEnabled, CompactEnabled, ApplyEdit;
    if step.InsertOne? {
      var es, k := Numbered(ops, db.lastSequence + 1), db2.inserted;
      assert Elements(es[..k + 1]) == Elements(es[..k]) + {es[k]};
    }
  }

  lemma {:induction false} GroupUnderWay(states: seq<Db>, steps: seq<Step>, i: nat, k: nat, ops: seq<Op>)
    requires Path(states, steps) && i < k <= |steps| && steps[i] == BeginGroup(ops)
    requires forall m :: i < m < k ==> !steps[m].PublishGroup?
    ensures Under(states[i], states[k], ops) && |ops| > 0
  {
    hide Enabled, Do, Under;
    assert Happens(states[i], steps[i], states[i + 1]);
    assert |ops| > 0 by { HasOps(states[i], ops); }
    if k == i + 1 {
      GroupBegins(states[i], ops);
    } else {
      GroupUnderWay(states, steps, i, k - 1, ops);
      assert Happens(states[k - 1], steps[k - 1], states[k]);
      GroupGoesOn(states[i], states[k - 1], ops, steps[k - 1]);
    }
  }

  lemma {:induction false} HasOps(db: Db, ops: seq<Op>)
    requires Shape(db.version) && Enabled(db, BeginGroup(ops))
    ensures |ops| > 0 && db.batch == []
  {
  }

  /** Whatever comes between, from the state in which a group began to the one in which it is published: it has
      the next sequence numbers, and a reader at the end finds what its operations leave, applied in order to
      what was there; nothing else was written. */
  lemma {:induction false} GroupTakesEffect(states: seq<Db>, steps: seq<Step>, i: nat, k: nat, ops: seq<Op>, u: UserKey)
    requires Path(states, steps) && BaseInv(states[0]) && i < k < |steps|
    requires steps[i] == BeginGroup(ops) && steps[k].PublishGroup?
    requires forall m :: i < m < k ==> !steps[m].PublishGroup?
    ensures states[k + 1].lastSequence == states[i].lastSequence + |ops|
    ensures states[k + 1].history == states[i].history + Elements(Numbered(ops, states[i].lastSequence + 1))
    ensures Lookup(states[k + 1].history, u, states[k + 1].lastSequence)
         == Applied(Lookup(states[i].history, u, states[i].lastSequence), ops, u)
    ensures ReadsOk(states[k + 1]) ==>
              Lookup(Entries(states[k + 1]), u, states[k + 1].lastSequence)
              == Applied(Lookup(states[i].history, u, states[i].lastSequence), ops, u)
  {
    hide BaseInv, Lookup, Entries, Applied, UniqueSequences;
    GroupUnderWay(states, steps, i, k, ops);
    PathKeepsBase(states, steps, i);
    assert Happens(states[i], steps[i], states[i + 1]);
    HasOps(states[i], ops);
    assert Happens(states[k], steps[k], states[k + 1]);
    Published(states[i], states[k], states[k + 1], ops);
    PastIsBounded(states[i]);
    GroupIsAtomic(states[i].history, ops, states[i].lastSequence, u);
  }

  lemma {:induction false} Published(db: Db, db2: Db, db3: Db, ops: seq<Op>)
    requires Under(db, db2, ops) && Happens(db2, PublishGroup, db3)
    ensures db3.lastSequence == db.lastSequence + |ops|
    ensures db3.history == Grown(db.history, ops, db.lastSequence)
  {
    var es := Numbered(ops, db.lastSequence + 1);
    assert es[..|ops|] == es;
  }

  lemma {:induction false} PastIsBounded(db: Db)
    requires BaseInv(db) && db.batch == []
    ensures UniqueSequences(db.history) && forall e :: e in db.history ==> e.key.sequence <= db.lastSequence
  {
  }
}
