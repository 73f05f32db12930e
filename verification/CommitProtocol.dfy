// The commit protocol as a state machine: writers join the queue at any time, the one at the
// front leads a group through the log and the memtable, and pops it with one status.

module CommitProtocol {
  import opened Keys
  import opened WriteBatches
  import opened GroupCommit

  /** A log record: a group's operations and the sequence number of the first. */
  datatype Record = Record(first: SequenceNumber, ops: seq<Op>)

  /** A log file; its first `synced` records are on the disk for good. */
  datatype LogFile = LogFile(records: seq<Record>, synced: nat)

  /** A write that was answered.  A group that got as far as the log used up its sequence numbers,
      whatever became of it; `first` is where this write's began, and `inserted` how many of its operations
      are in the table. */
  datatype Outcome = Outcome(request: Request, ok: bool, numbered: bool, first: SequenceNumber, inserted: nat)

  datatype Phase =
    | Idle
    | Logging(count: nat)
    | Inserting(count: nat)
    | Finishing(count: nat, ok: bool, numbered: bool, inserted: nat)

  /** The last of `files` is the current log. */
  datatype State = State(
    queue: seq<Request>,
    phase: Phase,
    lastSequence: SequenceNumber,
    files: seq<LogFile>,
    table: seq<Entry>,
    completed: seq<Outcome>,
    joined: seq<Request>)

  const INITIAL: State := State([], Idle, 0, [LogFile([], 0)], [], [], [])

  datatype Appending = Appended | AppendFailed | SyncFailed

  /** Inserting stops at the first operation that cannot be read; the ones before it stay. */
  datatype Insertion = AllInserted | InsertFailed(after: nat)

  datatype Step =
    | Join(request: Request)
    | SwitchLog
    | Lead(roomMade: bool)
    | AppendRecord(result: Appending)
    | Insert(insertion: Insertion)
    | Finish

  predicate Enabled(st: State, step: Step) {
    match step
    case Join(r) => forall i :: 0 <= i < |st.joined| ==> st.joined[i].id != r.id
    case SwitchLog => st.phase == Idle && st.queue != []
    case Lead(_) => st.phase == Idle && st.queue != []
    case AppendRecord(_) => st.phase.Logging?
    case Insert(insertion) =>
      st.phase.Inserting? && st.phase.count <= |st.queue|
      && (insertion.InsertFailed? ==> insertion.after <= |AllOps(st.queue[..st.phase.count])|)
    case Finish => st.phase.Finishing?
  }

  /** The writers the current leader stands for. */
  function Group(st: State): seq<Request>
    requires !st.phase.Idle? && st.phase.count <= |st.queue|
  {
    st.queue[..st.phase.count]
  }

  /** How many of `n` operations that follow `before` others are among the first `inserted`. */
  function Share(inserted: nat, before: nat, n: nat): (k: nat)
    ensures k <= n
  {
    if inserted <= before then 0 else if inserted - before < n then inserted - before else n
  }

  function Outcomes(rs: seq<Request>, ok: bool, numbered: bool, first: SequenceNumber, inserted: nat): (r: seq<Outcome>)
    ensures |r| == |rs|
  {
    if rs == [] then []
    else
      var n := |rs| - 1;
      var before := |AllOps(rs[..n])|;
      Outcomes(rs[..n], ok, numbered, first, inserted)
      + [Outcome(rs[n], ok, numbered, first + if numbered then before else 0, Share(inserted, before, |Ops(rs[n])|))]
  }

  function Do(st: State, step: Step): State
    requires !st.phase.Idle? ==> 0 < st.phase.count <= |st.queue|
    requires Enabled(st, step) && st.files != []
  {
    var n := |st.files| - 1;
    match step
    case Join(r) => st.(queue := st.queue + [r], joined := st.joined + [r])
    case SwitchLog =>
      // The old file is closed as it is, synced or not.
      st.(files := st.files + [LogFile([], 0)])
    case Lead(roomMade) =>
      if roomMade && st.queue[0].batch.Some? then st.(phase := Logging(GroupCount(st.queue)))
      else st.(phase := Finishing(1, roomMade, false, 0))
    case AppendRecord(result) =>
      var count := st.phase.count;
      if result.AppendFailed? then st.(phase := Finishing(count, false, true, 0))
      else
        var records := st.files[n].records + [Record(st.lastSequence + 1, AllOps(Group(st)))];
        if result.SyncFailed? then
          st.(files := st.files[n := LogFile(records, st.files[n].synced)], phase := Finishing(count, false, true, 0))
        else
          st.(files := st.files[n := LogFile(records, if st.queue[0].sync then |records| else st.files[n].synced)],
              phase := Inserting(count))
    case Insert(insertion) =>
      var all := EntriesOf(AllOps(Group(st)), st.lastSequence + 1);
      if insertion.AllInserted? then st.(table := st.table + all, phase := Finishing(st.phase.count, true, true, |all|))
      else st.(table := st.table + all[..insertion.after], phase := Finishing(st.phase.count, false, true, insertion.after))
    case Finish =>
      var numbered := st.phase.numbered;
      st.(lastSequence := st.lastSequence + (if numbered then |AllOps(Group(st))| else 0),
          completed := st.completed + Outcomes(Group(st), st.phase.ok, numbered, st.lastSequence + 1, st.phase.inserted),
          queue := st.queue[st.phase.count..],
          phase := Idle)
  }

  // ----- the specification: one batch at a time -----

  datatype Applied = Applied(entries: seq<Entry>, next: SequenceNumber)

  function Upto<T>(s: seq<T>, k: nat): seq<T> {
    if k < |s| then s[..k] else s
  }

  /** Every answered write on its own, in order: it puts in the table what of it was inserted, and each one that
      was numbered takes the next sequence numbers. */
  function OneByOne(done: seq<Outcome>): Applied {
    if done == [] then Applied([], 1)
    else
      var n := |done| - 1;
      var before := OneByOne(done[..n]);
      var ops := Ops(done[n].request);
      Applied(before.entries + EntriesOf(Upto(ops, done[n].inserted), before.next),
              before.next + if done[n].numbered then |ops| else 0)
  }

  function Answered(done: seq<Outcome>): (r: seq<Request>)
    ensures |r| == |done|
  {
    if done == [] then [] else Answered(done[..|done| - 1]) + [done[|done| - 1].request]
  }

  ghost predicate InRecords(records: seq<Record>, e: Entry) {
    exists i :: 0 <= i < |records| && e in EntriesOf(records[i].ops, records[i].first)
  }

  /** The entry is in one of the log files. */
  ghost predicate InLogs(files: seq<LogFile>, e: Entry) {
    exists k :: 0 <= k < |files| && InRecords(files[k].records, e)
  }

  /** The entry is in the synced part of one of the log files. */
  ghost predicate InSynced(files: seq<LogFile>, e: Entry) {
    exists k :: 0 <= k < |files| && files[k].synced <= |files[k].records| && InRecords(files[k].records[..files[k].synced], e)
  }

  // ----- the invariant -----

  ghost predicate PhaseOk(st: State) {
    && st.files != []
    && (!st.phase.Idle? ==> 0 < st.phase.count <= |st.queue|)
    && (!st.phase.Idle? ==> forall i :: 0 <= i < st.phase.count ==> st.queue[i].sync ==> st.queue[0].sync)
    && (st.phase.Inserting? || (st.phase.Finishing? && (st.phase.inserted > 0 || (st.phase.ok && st.phase.numbered))) ==>
          var file := st.files[|st.files| - 1];
          && |file.records| > 0 && file.records[|file.records| - 1] == Record(st.lastSequence + 1, AllOps(Group(st)))
          && (st.queue[0].sync ==> file.synced == |file.records|))
    && (st.phase.Finishing? && !st.phase.numbered ==>
          st.phase.count == 1 && st.phase.inserted == 0 && (st.phase.ok ==> st.queue[0].batch.None?))
    && (st.phase.Finishing? && st.phase.ok ==> st.phase.inserted == |AllOps(Group(st))|)
  }

  /** The table holds what the answered writes put in it one by one, and what of the group is in. */
  ghost predicate TableOk(st: State)
    requires PhaseOk(st)
  {
    && st.table == OneByOne(st.completed).entries
                 + (if st.phase.Finishing? then EntriesOf(Upto(AllOps(Group(st)), st.phase.inserted), st.lastSequence + 1) else [])
    && st.lastSequence + 1 == OneByOne(st.completed).next
    && forall o :: o in st.completed && o.ok ==> o.inserted == |Ops(o.request)|
  }

  /** Nobody is lost, answered twice or overtaken. */
  ghost predicate OrderOk(st: State) {
    && st.joined == Answered(st.completed) + st.queue
    && forall i, j :: 0 <= i < j < |st.joined| ==> st.joined[i].id != st.joined[j].id
  }

  ghost predicate LogOk(st: State) {
    && (forall k :: 0 <= k < |st.files| ==> st.files[k].synced <= |st.files[k].records|)
    && (forall e :: e in st.table ==> InLogs(st.files, e))
    && (forall o :: o in st.completed && o.ok && o.request.sync ==>
          forall e :: e in EntriesOf(Ops(o.request), o.first) ==> InSynced(st.files, e))
  }

  ghost predicate Inv(st: State) {
    PhaseOk(st) && TableOk(st) && OrderOk(st) && LogOk(st)
  }

  // ----- lemmas -----

  lemma {:induction false} EntriesOfConcat(a: seq<Op>, b: seq<Op>, first: SequenceNumber)
    ensures EntriesOf(a + b, first) == EntriesOf(a, first) + EntriesOf(b, first + |a|)
  {
    if a == [] {
      assert a + b == b;
    } else {
      assert (a + b)[1..] == a[1..] + b;
      EntriesOfConcat(a[1..], b, first + 1);
    }
  }

  lemma {:induction false} EntriesLength(ops: seq<Op>, first: SequenceNumber)
    ensures |EntriesOf(ops, first)| == |ops|
  {
    if ops != [] { EntriesLength(ops[1..], first + 1); }
  }

  lemma {:induction false} EntriesUpto(ops: seq<Op>, first: SequenceNumber, k: nat)
    requires k <= |ops|
    ensures |EntriesOf(ops, first)| == |ops| && EntriesOf(ops, first)[..k] == EntriesOf(Upto(ops, k), first)
  {
    EntriesLength(ops, first);
    EntriesLength(ops[..k], first);
    EntriesOfConcat(ops[..k], ops[k..], first);
    assert ops == ops[..k] + ops[k..];
    assert k == |ops| ==> ops[..k] == ops;
  }

  /** Of two batches one after the other, the first `inserted` operations. */
  lemma {:induction false} UptoConcat(a: seq<Op>, b: seq<Op>, inserted: nat, first: SequenceNumber)
    ensures EntriesOf(Upto(a + b, inserted), first)
         == EntriesOf(Upto(a, inserted), first) + EntriesOf(Upto(b, Share(inserted, |a|, |b|)), first + |a|)
  {
    if inserted <= |a| {
      assert Upto(a + b, inserted) == Upto(a, inserted);
      assert Upto(b, 0) == [];
      assert EntriesOf(Upto(a, inserted), first) + [] == EntriesOf(Upto(a, inserted), first);
    } else {
      var k := Share(inserted, |a|, |b|);
      assert Upto(a + b, inserted) == a + Upto(b, k);
      EntriesOfConcat(a, Upto(b, k), first);
    }
  }

  /** Completing a group is completing its members one after another. */
  lemma {:induction false} GroupIsOneByOne(done: seq<Outcome>, rs: seq<Request>, ok: bool, numbered: bool, inserted: nat)
    requires !numbered ==> inserted == 0
    ensures var before := OneByOne(done);
            OneByOne(done + Outcomes(rs, ok, numbered, before.next, inserted))
            == Applied(before.entries + EntriesOf(Upto(AllOps(rs), inserted), before.next),
                       before.next + if numbered then |AllOps(rs)| else 0)
  {
    hide OneByOne, EntriesOf, Ops, Upto;
    var before := OneByOne(done);
    if rs == [] {
      assert done + Outcomes(rs, ok, numbered, before.next, inserted) == done;
      NothingUpto(inserted, before.next);
      assert before.entries + [] == before.entries;
    } else {
      var n := |rs| - 1;
      var a, b := AllOps(rs[..n]), Ops(rs[n]);
      GroupIsOneByOne(done, rs[..n], ok, numbered, inserted);
      var some := done + Outcomes(rs[..n], ok, numbered, before.next, inserted);
      var all := done + Outcomes(rs, ok, numbered, before.next, inserted);
      assert all[..|all| - 1] == some;
      assert all[|all| - 1].request == rs[n];
      OneMore(all, some);
      UptoConcat(a, b, inserted, before.next);
      if !numbered { NothingShared(b, |a|, before.next, before.next + |a|); }
      var x, y := EntriesOf(Upto(a, inserted), before.next), EntriesOf(Upto(b, Share(inserted, |a|, |b|)), OneByOne(some).next);
      assert before.entries + x + y == before.entries + (x + y);
    }
  }

  lemma {:induction false} NothingUpto(inserted: nat, first: SequenceNumber)
    ensures EntriesOf(Upto([], inserted), first) == [] && AllOps([]) == []
  {
  }

  lemma {:induction false} NothingShared(b: seq<Op>, before: nat, first: SequenceNumber, first2: SequenceNumber)
    ensures EntriesOf(Upto(b, Share(0, before, |b|)), first) == [] == EntriesOf(Upto(b, Share(0, before, |b|)), first2)
  {
  }

  lemma {:induction false} OneMore(all: seq<Outcome>, some: seq<Outcome>)
    requires |all| > 0 && some == all[..|all| - 1]
    ensures var o := all[|all| - 1];
            && OneByOne(all).entries == OneByOne(some).entries + EntriesOf(Upto(Ops(o.request), o.inserted), OneByOne(some).next)
            && OneByOne(all).next == OneByOne(some).next + if o.numbered then |Ops(o.request)| else 0
  {
  }

  lemma {:induction false} OutcomesAnswered(done: seq<Outcome>, rs: seq<Request>, ok: bool, numbered: bool,
                                            first: SequenceNumber, inserted: nat)
    ensures Answered(done + Outcomes(rs, ok, numbered, first, inserted)) == Answered(done) + rs
  {
    hide Outcomes, Answered;
    if rs == [] {
      assert done + Outcomes(rs, ok, numbered, first, inserted) == done;
    } else {
      var n := |rs| - 1;
      OutcomesAnswered(done, rs[..n], ok, numbered, first, inserted);
      var some := done + Outcomes(rs[..n], ok, numbered, first, inserted);
      var o := OutcomesSnoc(rs, ok, numbered, first, inserted);
      AnsweredSnoc(some, o);
      assert done + (Outcomes(rs[..n], ok, numbered, first, inserted) + [o]) == some + [o];
      assert rs == rs[..n] + [rs[n]];
      assert Answered(done) + rs[..n] + [rs[n]] == Answered(done) + rs;
    }
  }

  lemma {:induction false} OutcomesSnoc(rs: seq<Request>, ok: bool, numbered: bool, first: SequenceNumber, inserted: nat)
    returns (o: Outcome)
    requires rs != []
    ensures Outcomes(rs, ok, numbered, first, inserted)
         == Outcomes(rs[..|rs| - 1], ok, numbered, first, inserted) + [o] && o.request == rs[|rs| - 1]
  {
    o := Outcomes(rs, ok, numbered, first, inserted)[|rs| - 1];
  }

  lemma {:induction false} AnsweredSnoc(done: seq<Outcome>, o: Outcome)
    ensures Answered(done + [o]) == Answered(done) + [o.request]
  {
    assert (done + [o])[..|done|] == done;
  }

  /** A member's entries are among its group's. */
  lemma {:induction false} MemberEntries(rs: seq<Request>, ok: bool, first: SequenceNumber, inserted: nat, o: Outcome, e: Entry)
    requires o in Outcomes(rs, ok, true, first, inserted) && e in EntriesOf(Ops(o.request), o.first)
    ensures e in EntriesOf(AllOps(rs), first) && o.request in rs
  {
    var n := |rs| - 1;
    EntriesOfConcat(AllOps(rs[..n]), Ops(rs[n]), first);
    if o in Outcomes(rs[..n], ok, true, first, inserted) {
      MemberEntries(rs[..n], ok, first, inserted, o, e);
    }
  }

  lemma {:induction false} InLonger(records: seq<Record>, more: seq<Record>, e: Entry)
    requires InRecords(records, e) && records <= more
    ensures InRecords(more, e)
  {
    var i :| 0 <= i < |records| && e in EntriesOf(records[i].ops, records[i].first);
    assert more[i] == records[i];
  }

  /** Log files only grow, and so do their synced parts. */
  ghost predicate FilesGrow(files: seq<LogFile>, more: seq<LogFile>) {
    && |files| <= |more|
    && forall k :: 0 <= k < |files| ==> files[k].records <= more[k].records
                                        && files[k].synced <= more[k].synced <= |more[k].records|
  }

  lemma {:induction false} GrowingKeeps(files: seq<LogFile>, more: seq<LogFile>, e: Entry)
    requires FilesGrow(files, more)
    ensures InLogs(files, e) ==> InLogs(more, e)
    ensures InSynced(files, e) ==> InSynced(more, e)
  {
    if InLogs(files, e) {
      var k :| 0 <= k < |files| && InRecords(files[k].records, e);
      InLonger(files[k].records, more[k].records, e);
    }
    if InSynced(files, e) {
      var k :| 0 <= k < |files| && files[k].synced <= |files[k].records| && InRecords(files[k].records[..files[k].synced], e);
      InLonger(files[k].records[..files[k].synced], more[k].records[..more[k].synced], e);
    }
  }

  lemma {:induction false} GrowingKeepsLog(st: State, st2: State)
    requires LogOk(st) && FilesGrow(st.files, st2.files) && st2.table == st.table && st2.completed == st.completed
    requires forall k :: |st.files| <= k < |st2.files| ==> st2.files[k].synced <= |st2.files[k].records|
    ensures LogOk(st2)
  {
    hide InLogs, InSynced, EntriesOf;
    forall e
      ensures InLogs(st.files, e) ==> InLogs(st2.files, e)
      ensures InSynced(st.files, e) ==> InSynced(st2.files, e)
    {
      GrowingKeeps(st.files, st2.files, e);
    }
  }

  lemma {:induction false} InitialInv()
    ensures Inv(INITIAL)
  {
  }

  lemma {:induction false} JoinKeepsInv(st: State, r: Request)
    requires Inv(st) && Enabled(st, Join(r))
    ensures Inv(Do(st, Join(r)))
  {
    hide LogOk, OneByOne, EntriesOf, AllOps, Upto;
    var st2 := Do(st, Join(r));
    if !st.phase.Idle? {
      assert Group(st2) == Group(st);
    }
    SameLog(st, st2);
    assert Answered(st.completed) + st.queue + [r] == Answered(st.completed) + (st.queue + [r]);
  }

  lemma {:induction false} SwitchLogKeepsInv(st: State)
    requires Inv(st) && Enabled(st, SwitchLog)
    ensures Inv(Do(st, SwitchLog))
  {
    hide LogOk;
    assert FilesGrow(st.files, Do(st, SwitchLog).files) by { SyncedIsInside(st); }
    GrowingKeepsLog(st, Do(st, SwitchLog));
  }

  lemma {:induction false} SyncedIsInside(st: State)
    requires LogOk(st)
    ensures forall k :: 0 <= k < |st.files| ==> st.files[k].synced <= |st.files[k].records|
  {
  }

  lemma {:induction false} LeadKeepsInv(st: State, roomMade: bool)
    requires Inv(st) && Enabled(st, Lead(roomMade))
    ensures Inv(Do(st, Lead(roomMade)))
  {
    hide LogOk, OrderOk, OneByOne, InLogs, InSynced;
    var st2 := Do(st, Lead(roomMade));
    SyncedIsInside(st);
    if st2.phase.Logging? {
      forall i | 0 <= i < st2.phase.count && st2.queue[i].sync
        ensures st2.queue[0].sync
      {
        if i > 0 {
          GroupIsSound(st.queue, i);
        }
      }
    } else {
      GroupOfOne(st.queue);
      assert st.table + [] == st.table;
      NothingYet(st2);
    }
    SameLog(st, st2);
    SameOrder(st, st2);
  }

  /** Of a group nothing is in the table before it is inserted. */
  lemma {:induction false} NothingYet(st: State)
    requires st.phase.Finishing? && st.phase.count <= |st.queue| && st.phase.inserted == 0
    ensures EntriesOf(Upto(AllOps(Group(st)), st.phase.inserted), st.lastSequence + 1) == []
  {
  }

  lemma {:induction false} SameLog(st: State, st2: State)
    requires LogOk(st) && st2.files == st.files && st2.table == st.table && st2.completed == st.completed
    ensures LogOk(st2)
  {
    hide InLogs, InSynced;
  }

  lemma {:induction false} SameOrder(st: State, st2: State)
    requires OrderOk(st) && st2.queue == st.queue && st2.completed == st.completed && st2.joined == st.joined
    ensures OrderOk(st2)
  {
  }

  lemma {:induction false} AppendKeepsInv(st: State, result: Appending)
    requires Inv(st) && Enabled(st, AppendRecord(result))
    ensures Inv(Do(st, AppendRecord(result)))
  {
    hide LogOk, OrderOk, OneByOne, AllOps, EntriesOf;
    var st2 := Do(st, AppendRecord(result));
    SyncedIsInside(st);
    assert FilesGrow(st.files, st2.files);
    GrowingKeepsLog(st, st2);
    SameOrder(st, st2);
    if st2.phase.Finishing? { NothingYet(st2); }
    assert st.table + [] == st.table;
  }

  lemma {:induction false} InsertKeepsInv(st: State, insertion: Insertion)
    requires Inv(st) && Enabled(st, Insert(insertion))
    ensures Inv(Do(st, Insert(insertion)))
  {
    hide EntriesOf, OneByOne, AllOps, Answered, OrderOk, InSynced, InLogs;
    var st2 := Do(st, Insert(insertion));
    var ops := AllOps(Group(st));
    assert Group(st2) == Group(st);
    EntriesUpto(ops, st.lastSequence + 1, st2.phase.inserted);
    assert OneByOne(st.completed).entries + [] == OneByOne(st.completed).entries;
    assert Upto(ops, |ops|) == ops;
    forall e | e in st2.table
      ensures InLogs(st2.files, e)
    {
      if e !in st.table { LastIsLogged(st, e); }
    }
    SameOrder(st, st2);
  }

  lemma {:induction false} LastIsLogged(st: State, e: Entry)
    requires PhaseOk(st) && st.phase.Inserting? && e in EntriesOf(AllOps(Group(st)), st.lastSequence + 1)
    ensures InLogs(st.files, e)
  {
    var n := |st.files| - 1;
    var records := st.files[n].records;
    assert e in EntriesOf(records[|records| - 1].ops, records[|records| - 1].first);
    assert InRecords(records, e);
  }

  lemma {:induction false} FinishKeepsInv(st: State)
    requires Inv(st) && Enabled(st, Finish)
    ensures Inv(Do(st, Finish))
  {
    hide TableOk, OrderOk, LogOk;
    FinishKeepsTable(st);
    FinishKeepsOrder(st);
    FinishKeepsLog(st);
  }

  lemma {:induction false} FinishKeepsTable(st: State)
    requires PhaseOk(st) && TableOk(st) && Enabled(st, Finish)
    ensures TableOk(Do(st, Finish))
  {
    hide OneByOne, EntriesOf, Outcomes, AllOps, Ops, Upto;
    var st2 := Do(st, Finish);
    GroupIsOneByOne(st.completed, Group(st), st.phase.ok, st.phase.numbered, st.phase.inserted);
    assert st2.table == OneByOne(st2.completed).entries + [];
    forall o | o in st2.completed && o.ok
      ensures o.inserted == |Ops(o.request)|
    {
      if o !in st.completed {
        AllShared(Group(st), st.phase.ok, st.phase.numbered, st.lastSequence + 1, st.phase.inserted, o);
      }
    }
  }

  /** In a group that was inserted whole, every member was. */
  lemma {:induction false} AllShared(rs: seq<Request>, ok: bool, numbered: bool, first: SequenceNumber, inserted: nat, o: Outcome)
    requires o in Outcomes(rs, ok, numbered, first, inserted)
    requires ok ==> inserted >= |AllOps(rs)|
    ensures o.ok ==> o.inserted == |Ops(o.request)|
  {
    var n := |rs| - 1;
    assert |AllOps(rs)| == |AllOps(rs[..n])| + |Ops(rs[n])|;
    if o in Outcomes(rs[..n], ok, numbered, first, inserted) {
      AllShared(rs[..n], ok, numbered, first, inserted, o);
    }
  }

  lemma {:induction false} FinishKeepsOrder(st: State)
    requires PhaseOk(st) && OrderOk(st) && Enabled(st, Finish)
    ensures OrderOk(Do(st, Finish))
  {
    hide Answered, Outcomes;
    var st2 := Do(st, Finish);
    var rs := Group(st);
    OutcomesAnswered(st.completed, rs, st.phase.ok, st.phase.numbered, st.lastSequence + 1, st.phase.inserted);
    assert st.queue == rs + st2.queue;
    assert Answered(st.completed) + (rs + st2.queue) == Answered(st.completed) + rs + st2.queue;
  }

  lemma {:induction false} FinishKeepsLog(st: State)
    requires PhaseOk(st) && LogOk(st) && Enabled(st, Finish)
    ensures LogOk(Do(st, Finish))
  {
    hide EntriesOf, Outcomes, InLogs, InSynced;
    var st2 := Do(st, Finish);
    forall o, e | o in st2.completed && o.ok && o.request.sync && e in EntriesOf(Ops(o.request), o.first)
      ensures InSynced(st2.files, e)
    {
      if o !in st.completed {
        FinishedInLog(st, o, e);
      }
    }
  }

  lemma {:induction false} FinishedInLog(st: State, o: Outcome, e: Entry)
    requires PhaseOk(st) && st.phase.Finishing?
    requires o in Outcomes(Group(st), st.phase.ok, st.phase.numbered, st.lastSequence + 1, st.phase.inserted)
    requires o.ok && o.request.sync && e in EntriesOf(Ops(o.request), o.first)
    ensures InSynced(st.files, e)
  {
    hide EntriesOf, Outcomes, AllOps;
    var rs := Group(st);
    OutcomesAre(rs, st.phase.ok, st.phase.numbered, st.lastSequence + 1, st.phase.inserted, o);
    if st.phase.numbered {
      MemberEntries(rs, st.phase.ok, st.lastSequence + 1, st.phase.inserted, o, e);
      var i :| 0 <= i < st.phase.count && st.queue[i] == o.request;
      assert st.queue[0].sync;
      var file := st.files[|st.files| - 1];
      assert file.records[..file.synced] == file.records;
      assert file.records[|file.records| - 1].ops == AllOps(rs);
      assert InRecords(file.records, e);
    } else {
      NoEntries(st, o);
    }
  }

  lemma {:induction false} NoEntries(st: State, o: Outcome)
    requires PhaseOk(st) && st.phase.Finishing? && !st.phase.numbered && st.phase.ok
    requires o.request in Group(st)
    ensures EntriesOf(Ops(o.request), o.first) == []
  {
    assert o.request == st.queue[0];
  }

  lemma {:induction false} OutcomesAre(rs: seq<Request>, ok: bool, numbered: bool, first: SequenceNumber, inserted: nat, o: Outcome)
    requires o in Outcomes(rs, ok, numbered, first, inserted)
    ensures o.ok == ok && o.numbered == numbered && o.request in rs
  {
    var n := |rs| - 1;
    if o in Outcomes(rs[..n], ok, numbered, first, inserted) {
      OutcomesAre(rs[..n], ok, numbered, first, inserted, o);
    }
  }

  lemma {:induction false} StepKeepsInv(st: State, step: Step)
    requires Inv(st) && Enabled(st, step)
    ensures Inv(Do(st, step))
  {
    match step
    case Join(r) => JoinKeepsInv(st, r);
    case SwitchLog => SwitchLogKeepsInv(st);
    case Lead(roomMade) => LeadKeepsInv(st, roomMade);
    case AppendRecord(result) => AppendKeepsInv(st, result);
    case Insert(insertion) => InsertKeepsInv(st, insertion);
    case Finish => FinishKeepsInv(st);
  }

  /** The first two conjuncts only make the others well defined; they hold in every state with `Inv`. */
  ghost predicate Happens(st: State, step: Step, st2: State) {
    && (!st.phase.Idle? ==> 0 < st.phase.count <= |st.queue|)
    && st.files != []
    && Enabled(st, step) && st2 == Do(st, step)
  }

  /** A run from the start. */
  ghost predicate Runs(states: seq<State>, steps: seq<Step>) {
    && |states| == |steps| + 1 && states[0] == INITIAL
    && forall i :: 0 <= i < |steps| ==> Happens(states[i], steps[i], states[i + 1])
  }

  lemma {:induction false} RunKeepsInv(states: seq<State>, steps: seq<Step>, n: nat)
    requires Runs(states, steps) && n < |states|
    ensures Inv(states[n])
  {
    hide Inv, Enabled, Do;
    if n == 0 {
      InitialInv();
    } else {
      RunKeepsInv(states, steps, n - 1);
      assert Happens(states[n - 1], steps[n - 1], states[n]);
      StepKeepsInv(states[n - 1], steps[n - 1]);
    }
  }

  /** After any run, whenever no group is under way: the table is what the answered writes put in one by
      one in the order they joined, each answered once; a write that was answered well is there whole; and
      everything in the table was logged first. */
  lemma {:induction false} GroupsLinearize(states: seq<State>, steps: seq<Step>, n: nat)
    requires Runs(states, steps) && n < |states| && states[n].phase == Idle
    ensures states[n].table == OneByOne(states[n].completed).entries
    ensures states[n].lastSequence + 1 == OneByOne(states[n].completed).next
    ensures forall o :: o in states[n].completed && o.ok ==> o.inserted == |Ops(o.request)|
    ensures Answered(states[n].completed) + states[n].queue == states[n].joined
    ensures forall e :: e in states[n].table ==> InLogs(states[n].files, e)
  {
    hide Runs;
    RunKeepsInv(states, steps, n);
    assert OneByOne(states[n].completed).entries + [] == OneByOne(states[n].completed).entries;
  }

  /** In any reachable state a successful sync write is in the synced part of one of the log files, however many
      logs were switched away from unsynced. */
  lemma {:induction false} SyncedWritesAreSynced(states: seq<State>, steps: seq<Step>, n: nat, o: Outcome, e: Entry)
    requires Runs(states, steps) && n < |states|
    requires o in states[n].completed && o.ok && o.request.sync && e in EntriesOf(Ops(o.request), o.first)
    ensures InSynced(states[n].files, e)
  {
    hide Runs;
    RunKeepsInv(states, steps, n);
  }
}
