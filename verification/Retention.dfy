// Which files stay and which go: what the collection of obsolete files leaves, exactly, and how long
// a version that a reader holds keeps its tables.

module Retention {
  import opened Keys
  import opened Levels
  import opened Overlaps
  import opened LevelEdits
  import E = Engine
  import opened Storage

  /** A table of some file of the version. */
  ghost predicate TableOf(v: Version, n: nat) {
    exists l, f :: 0 <= l < |v| && f in v[l] && f.number == n
  }

  /** After obsolete files are deleted there is a table exactly if there was one and it belongs to the current version, to
      a version somebody holds, or to a job in progress; exactly the logs from the manifest's log number on, as they
      were; and exactly the manifests from the one in use on.  Nothing in memory changes. */
  lemma {:induction false} CollectsExactly(st: Store)
    requires st.db.mem in st.db.tables
    ensures var st2 := Do(st, Collect);
            && (forall n :: n in st2.tables <==>
                  && n in st.tables
                  && (TableOf(st.db.version, n) || (exists v :: v in st.pinned && TableOf(v, n)) || n in st.pending))
            && (forall n :: n in st2.logs <==> n in st.logs && n >= Named(st).logNumber)
            && (forall n :: n in st2.logs ==> st2.logs[n] == st.logs[n])
            && (forall n :: n in st2.descriptors <==> n in st.descriptors && n >= st.descriptor)
            && (forall n :: n in st2.descriptors ==> st2.descriptors[n] == st.descriptors[n])
            && st2 == st.(tables := st2.tables, logs := st2.logs, descriptors := st2.descriptors, work := st2.work)
  {
    hide TableOf, Named;
    forall v: Version, n
      ensures n in Numbers(v) <==> TableOf(v, n)
    {
      TablesAre(v, n);
    }
    forall n
      ensures n in Live(st) <==> TableOf(st.db.version, n) || (exists v :: v in st.pinned && TableOf(v, n))
    {
      if v :| v in st.pinned && TableOf(v, n) {
        assert n in Numbers(v);
      }
    }
  }

  lemma {:induction false} TablesAre(v: Version, n: nat)
    ensures n in Numbers(v) <==> TableOf(v, n)
  {
  }

  /** With nobody holding a version and no job in progress, nothing obsolete is left: exactly the tables of the current
      version, the current log and newer ones and those of the memtable being flushed, and no older manifest. */
  lemma {:induction false} NothingObsoleteIsLeft(st: Store)
    requires Inv(st) && st.db.mem in st.db.tables && st.pinned == multiset{} && st.pending == {}
    ensures var st2 := Do(st, Collect);
            && (forall n :: n in st2.tables <==> TableOf(st.db.version, n))
            && (forall n :: n in st2.logs ==> Named(st).logNumber <= n)
            && (forall n :: n in st2.descriptors ==> st.descriptor <= n)
            && st.descriptor in st2.descriptors && st.logFile in st2.logs
  {
    hide Named, EngineOk, TableOf, Numbers;
    CollectsExactly(st);
    forall n
      ensures TableOf(st.db.version, n) ==> n in st.tables
    {
      TablesAre(st.db.version, n);
    }
  }

  /** The tables a job in progress still has to protect. */
  function Protected(work: Work): set<nat> {
    match work
    case Building(job) => Outputs(job)
    case Interrupted(job) => Outputs(job)
    case Written(job) => if IsFlush(job) then {} else Outputs(job)
    case _ => {}
  }

  /** A job's outputs are protected from its start until its version is recorded, or for a compaction used, and nothing
      else ever is: once the job is over no table is kept on its account. */
  lemma {:induction false} PendingIsTheJobs(states: seq<Store>, events: seq<Event>, j: nat)
    requires Runs(states, events) && j < |states|
    ensures states[j].pending == Protected(states[j].work)
  {
    hide Happens;
    if j > 0 {
      PendingIsTheJobs(states, events, j - 1);
      assert Happens(states[j - 1], events[j - 1], states[j]);
      PendingStaysTheJobs(states[j - 1], events[j - 1], states[j]);
    }
  }

  lemma {:induction false} PendingStaysTheJobs(st: Store, ev: Event, st2: Store)
    requires Happens(st, ev, st2) && st.pending == Protected(st.work)
    ensures st2.pending == Protected(st2.work)
  {
    hide E.Do, E.Enabled, Shape, Outputs, Reopens, Enabled, Do;
    if ev.Acts? {
      if ev.action.Start? || ev.action.WriteManifest? || ev.action.Install? {
        JobKeepsPending(st, ev.action);
      } else {
        OtherKeepsPending(st, ev.action);
      }
    }
  }

  lemma {:induction false} OtherKeepsPending(st: Store, a: Action)
    requires Shape(st.db.version) && st.db.mem in st.db.tables && Enabled(st, a) && st.pending == Protected(st.work)
    requires !a.Start? && !a.WriteManifest? && !a.Install?
    ensures Do(st, a).pending == Protected(Do(st, a).work)
  {
    hide E.Do, E.Enabled, Shape, Outputs, Live, Named, IsFlush;
  }

  lemma {:induction false} JobKeepsPending(st: Store, a: Action)
    requires Shape(st.db.version) && st.db.mem in st.db.tables && Enabled(st, a) && st.pending == Protected(st.work)
    requires a.Start? || a.WriteManifest? || a.Install?
    ensures Do(st, a).pending == Protected(Do(st, a).work)
  {
    hide E.Do, E.Enabled, Shape, Outputs, Live, Named, IsFlush, IsJob;
    NoMoreThan(Outputs(if a.Start? then a.job else st.work.job));
  }

  lemma {:induction false} NoMoreThan(files: set<nat>)
    ensures {} + files == files && files - files == {} && {} - files == {}
  {
  }

  // ----- versions that are held -----

  /** How often the version was pinned, or let go, by the events from `i` on and before `j`. */
  ghost function Pins(states: seq<Store>, events: seq<Event>, i: nat, j: nat, v: Version): nat
    requires i <= j <= |events| < |states|
    decreases j
  {
    if j == i then 0
    else Pins(states, events, i, j - 1, v) + if events[j - 1] == Acts(Pin) && states[j - 1].db.version == v then 1 else 0
  }

  function Unpins(events: seq<Event>, i: nat, j: nat, v: Version): nat
    requires i <= j <= |events|
    decreases j
  {
    if j == i then 0 else Unpins(events, i, j - 1, v) + if events[j - 1] == Acts(Unpin(v)) then 1 else 0
  }

  lemma {:induction false} StepCounts(st: Store, a: Action, v: Version)
    requires Shape(st.db.version) && st.db.mem in st.db.tables && Enabled(st, a)
    ensures Do(st, a).pinned[v] + (if a == Unpin(v) then 1 else 0)
         == st.pinned[v] + if a == Pin && st.db.version == v then 1 else 0
  {
    hide E.Do, E.Enabled, Shape;
  }

  /** Without a crash in between, a version is held as often as it was pinned and not let go. */
  lemma {:induction false} PinsAreCounted(states: seq<Store>, events: seq<Event>, i: nat, j: nat, v: Version)
    requires Runs(states, events) && i <= j <= |events| && forall k :: i <= k < j ==> events[k].Acts?
    ensures states[j].pinned[v] + Unpins(events, i, j, v) == states[i].pinned[v] + Pins(states, events, i, j, v)
    decreases j
  {
    hide Enabled, Do, Shape;
    if i < j {
      PinsAreCounted(states, events, i, j - 1, v);
      assert Happens(states[j - 1], events[j - 1], states[j]);
      StepCounts(states[j - 1], events[j - 1].action, v);
    }
  }

  /** A version that was pinned and not let go as often since keeps all its tables, whatever is compacted, flushed and
      collected meanwhile. */
  lemma {:induction false} HeldTablesStay(states: seq<Store>, events: seq<Event>, i: nat, j: nat, v: Version, n: nat)
    requires Runs(states, events) && i <= j <= |events| && forall k :: i <= k < j ==> events[k].Acts?
    requires Unpins(events, i, j, v) < states[i].pinned[v] && TableOf(v, n)
    ensures n in states[j].tables
  {
    hide Happens, TableOf, Numbers, LiveEntries, E.Contents;
    PinsAreCounted(states, events, i, j, v);
    NeededFilesExist(states, events, j);
    TablesAre(v, n);
    assert v in states[j].pinned;
  }
}
