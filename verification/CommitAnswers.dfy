// What a write is answered, in terms of what was done for it: exactly when it is told that it succeeded,
// and what a group leaves behind whether it did or not.

module CommitAnswers {
  import opened Keys
  import W = WriteBatches
  import opened GroupCommit
  import opened CommitProtocol

  /** The steps `l` and `f` lead and finish one group. */
  ghost predicate IsGroup(steps: seq<Step>, l: nat, f: nat) {
    && l < f < |steps| && steps[l].Lead? && steps[f].Finish?
    && OneGroup(steps, l, f)
  }

  /** Between them no other group is led or finished. */
  ghost predicate OneGroup(steps: seq<Step>, l: nat, m: nat) {
    l < m <= |steps| && forall k :: l < k < m ==> !steps[k].Lead? && !steps[k].Finish?
  }

  ghost predicate Took(steps: seq<Step>, l: nat, m: nat, step: Step) {
    exists k :: l < k < m <= |steps| && steps[k] == step
  }

  /** A record was written, or tried to. */
  ghost predicate TookRecord(steps: seq<Step>, l: nat, m: nat) {
    exists k :: l < k < m <= |steps| && steps[k].AppendRecord?
  }

  ghost predicate TookInsert(steps: seq<Step>, l: nat, m: nat) {
    exists k :: l < k < m <= |steps| && steps[k].Insert?
  }

  /** There is something to write, and room was made for it. */
  predicate Writes(st: State, roomMade: bool) {
    roomMade && st.queue != [] && st.queue[0].batch.Some?
  }

  /** All that has to go well for a group led at `l` went well: room was made, and if there was something to
      write, its record was appended (and synced where that was asked for) and all of it was inserted. */
  ghost predicate WentWell(states: seq<State>, steps: seq<Step>, l: nat, m: nat)
    requires l < |steps| && l < |states| && steps[l].Lead?
  {
    && steps[l].roomMade
    && (Writes(states[l], true) ==> Took(steps, l, m, AppendRecord(Appended)) && Took(steps, l, m, Insert(AllInserted)))
  }

  predicate Fails(step: Step) {
    step == Lead(false) || (step.AppendRecord? && step.result != Appended) || (step.Insert? && step.insertion != AllInserted)
  }

  function GroupSizeOf(st: State, roomMade: bool): nat
    requires st.queue != []
  {
    if Writes(st, roomMade) then GroupCount(st.queue) else 1
  }

  /** Where a group led at `l` stands at `m`, given what was done for it. */
  ghost predicate Stands(states: seq<State>, steps: seq<Step>, l: nat, m: nat)
    requires l < m < |states| && |states| == |steps| + 1 && steps[l].Lead?
  {
    var was, st, room := states[l], states[m], steps[l].roomMade;
    && was.queue != [] && was.queue <= st.queue
    && st.completed == was.completed && st.lastSequence == was.lastSequence
    && !st.phase.Idle? && st.phase.count == GroupSizeOf(was, room) <= |was.queue|
    && (match st.phase
        case Idle => false
        case Logging(_) =>
          Writes(was, room) && !TookRecord(steps, l, m) && !TookInsert(steps, l, m) && st.table == was.table
        case Inserting(_) =>
          Writes(was, room) && Took(steps, l, m, AppendRecord(Appended)) && !TookInsert(steps, l, m) && st.table == was.table
        case Finishing(_, ok, numbered, inserted) =>
          && (ok <==> WentWell(states, steps, l, m))
          && (numbered <==> TookRecord(steps, l, m))
          && (ok || exists k :: l <= k < m && Fails(steps[k]))
          && Landed(steps, l, m, AllOps(was.queue[..st.phase.count]), inserted)
          && st.table == was.table + W.EntriesOf(Upto(AllOps(was.queue[..st.phase.count]), inserted), was.lastSequence + 1))
  }

  /** How many of the group's operations are in the table. */
  ghost predicate Landed(steps: seq<Step>, l: nat, m: nat, ops: seq<W.Op>, inserted: nat) {
    && (Took(steps, l, m, Insert(AllInserted)) ==> inserted == |ops|)
    && (forall after :: Took(steps, l, m, Insert(InsertFailed(after))) ==> inserted == after)
    && (!TookInsert(steps, l, m) ==> inserted == 0)
  }

  // ----- one more step -----

  lemma {:induction false} OneMoreStep(steps: seq<Step>, l: nat, m: nat)
    requires l < m < |steps|
    ensures forall s :: Took(steps, l, m + 1, s) <==> Took(steps, l, m, s) || steps[m] == s
    ensures TookRecord(steps, l, m + 1) <==> TookRecord(steps, l, m) || steps[m].AppendRecord?
    ensures TookInsert(steps, l, m + 1) <==> TookInsert(steps, l, m) || steps[m].Insert?
  {
  }

  lemma {:induction false} NoStepYet(steps: seq<Step>, l: nat)
    ensures forall m: nat, s :: m <= l + 1 ==> !Took(steps, l, m, s)
    ensures !TookRecord(steps, l, l + 1) && !TookInsert(steps, l, l + 1)
  {
  }

  lemma {:induction false} InsertIsInsert(steps: seq<Step>, l: nat, m: nat)
    ensures forall s: Step :: s.Insert? && Took(steps, l, m, s) ==> TookInsert(steps, l, m)
    ensures forall s: Step :: s.AppendRecord? && Took(steps, l, m, s) ==> TookRecord(steps, l, m)
  {
  }

  lemma {:induction false} GroupIsLed(states: seq<State>, steps: seq<Step>, l: nat)
    requires |states| == |steps| + 1 && l < |steps| && steps[l].Lead? && Happens(states[l], steps[l], states[l + 1])
    ensures Stands(states, steps, l, l + 1)
  {
    hide Took, TookRecord, TookInsert, AllOps, GroupCount;
    NoStepYet(steps, l);
    var was := states[l];
    var ops := AllOps(was.queue[..states[l + 1].phase.count]);
    assert was.table + W.EntriesOf(Upto(ops, 0), was.lastSequence + 1) == was.table;
    assert Fails(Lead(false));
  }

  lemma {:induction false} GroupGoesOn(states: seq<State>, steps: seq<Step>, l: nat, m: nat)
    requires |states| == |steps| + 1 && l < m < |steps| && steps[l].Lead? && Stands(states, steps, l, m)
    requires Happens(states[m], steps[m], states[m + 1]) && !steps[m].Finish?
    ensures Stands(states, steps, l, m + 1)
  {
    hide Stands;
    match steps[m]
    case Join(r) => StandsWhileJoining(states, steps, l, m);
    case AppendRecord(result) => StandsAfterAppend(states, steps, l, m);
    case Insert(insertion) => StandsAfterInsert(states, steps, l, m);
    case SwitchLog => NotIdle(states, steps, l, m);
    case Lead(_) => NotIdle(states, steps, l, m);
  }

  lemma {:induction false} NotIdle(states: seq<State>, steps: seq<Step>, l: nat, m: nat)
    requires |states| == |steps| + 1 && l < m < |states| && steps[l].Lead? && Stands(states, steps, l, m)
    ensures states[m].phase != Idle
  {
    hide Took, TookRecord, TookInsert, AllOps, GroupCount, W.EntriesOf;
  }

  lemma {:induction false} StandsWhileJoining(states: seq<State>, steps: seq<Step>, l: nat, m: nat)
    requires |states| == |steps| + 1 && l < m < |steps| && steps[l].Lead? && Stands(states, steps, l, m)
    requires Happens(states[m], steps[m], states[m + 1]) && steps[m].Join?
    ensures Stands(states, steps, l, m + 1)
  {
    hide Took, TookRecord, TookInsert, AllOps, GroupCount, W.EntriesOf, Upto;
    OneMoreStep(steps, l, m);
  }

  lemma {:induction false} StandsAfterAppend(states: seq<State>, steps: seq<Step>, l: nat, m: nat)
    requires |states| == |steps| + 1 && l < m < |steps| && steps[l].Lead? && Stands(states, steps, l, m)
    requires Happens(states[m], steps[m], states[m + 1]) && steps[m].AppendRecord?
    ensures Stands(states, steps, l, m + 1)
  {
    hide Took, TookRecord, TookInsert, AllOps, GroupCount;
    OneMoreStep(steps, l, m);
    InsertIsInsert(steps, l, m);
    InsertIsInsert(steps, l, m + 1);
    var was, st := states[l], states[m];
    assert was.table + W.EntriesOf(Upto(AllOps(was.queue[..st.phase.count]), 0), was.lastSequence + 1) == was.table;
    assert l <= m < m + 1 && (steps[m] == AppendRecord(Appended) || Fails(steps[m]));
  }

  lemma {:induction false} StandsAfterInsert(states: seq<State>, steps: seq<Step>, l: nat, m: nat)
    requires |states| == |steps| + 1 && l < m < |steps| && steps[l].Lead? && Stands(states, steps, l, m)
    requires Happens(states[m], steps[m], states[m + 1]) && steps[m].Insert?
    ensures Stands(states, steps, l, m + 1)
  {
    hide Took, TookRecord, TookInsert, AllOps, GroupCount, W.EntriesOf;
    OneMoreStep(steps, l, m);
    InsertIsInsert(steps, l, m);
    var was, st := states[l], states[m];
    assert Group(st) == was.queue[..st.phase.count];
    EntriesUpto(AllOps(Group(st)), st.lastSequence + 1, states[m + 1].phase.inserted);
    var all := W.EntriesOf(AllOps(Group(st)), st.lastSequence + 1);
    EntriesUpto(AllOps(Group(st)), st.lastSequence + 1, |AllOps(Group(st))|);
    assert all[..|all|] == all;
    InsertLands(steps, l, m, AllOps(Group(st)));
    assert l <= m < m + 1 && (steps[m] == Insert(AllInserted) || Fails(steps[m]));
  }

  /** The only insertion so far is the last step. */
  lemma {:induction false} InsertLands(steps: seq<Step>, l: nat, m: nat, ops: seq<W.Op>)
    requires l < m < |steps| && steps[m].Insert? && !TookInsert(steps, l, m)
    ensures Took(steps, l, m + 1, Insert(AllInserted)) <==> steps[m].insertion.AllInserted?
    ensures Landed(steps, l, m + 1, ops, if steps[m].insertion.AllInserted? then |ops| else steps[m].insertion.after)
  {
    assert forall k :: l < k < m ==> !steps[k].Insert?;
    if steps[m].insertion.AllInserted? {
      assert steps[m] == Insert(AllInserted);
    }
  }

  lemma {:induction false} GroupStands(states: seq<State>, steps: seq<Step>, l: nat, m: nat)
    requires Runs(states, steps) && OneGroup(steps, l, m) && steps[l].Lead?
    ensures Stands(states, steps, l, m)
    decreases m
  {
    hide Stands, Happens;
    if m == l + 1 {
      assert Happens(states[l], steps[l], states[l + 1]);
      GroupIsLed(states, steps, l);
    } else {
      GroupStands(states, steps, l, m - 1);
      assert Happens(states[m - 1], steps[m - 1], states[m]);
      GroupGoesOn(states, steps, l, m - 1);
    }
  }

  // ----- what a group leaves behind -----

  /** Every member of a group, the prefix of the queue that its leader stands for, is answered that it succeeded if
      and only if everything that had to go well went well; the group took its sequence numbers if and only if
      its record was written or tried to be; and the table has gained what of it was inserted: everything, or
      what came before the failure, or nothing. */
  lemma {:induction false} GroupIsAnswered(states: seq<State>, steps: seq<Step>, l: nat, f: nat)
    requires Runs(states, steps) && IsGroup(steps, l, f)
    ensures states[l].queue != []
    ensures var was, end := states[l], states[f + 1];
            var count := GroupSizeOf(was, steps[l].roomMade);
            && count <= |was.queue| && was.queue[count..] <= end.queue
            && |end.completed| == |was.completed| + count && was.completed <= end.completed
            && (forall k :: |was.completed| <= k < |end.completed| ==>
                  && end.completed[k].request == was.queue[k - |was.completed|]
                  && (end.completed[k].ok <==> WentWell(states, steps, l, f)))
            && end.lastSequence == was.lastSequence + (if TookRecord(steps, l, f) then |AllOps(was.queue[..count])| else 0)
            && (exists inserted: nat ::
                  && Landed(steps, l, f, AllOps(was.queue[..count]), inserted)
                  && end.table == was.table + W.EntriesOf(Upto(AllOps(was.queue[..count]), inserted), was.lastSequence + 1))
  {
    hide Took, TookRecord, TookInsert, AllOps, GroupCount, W.EntriesOf, Upto, Outcomes, WentWell, Landed;
    GroupStands(states, steps, l, f);
    assert Happens(states[f], steps[f], states[f + 1]);
    var was, st := states[l], states[f];
    var rs := was.queue[..st.phase.count];
    assert Group(st) == rs;
    var outs := Outcomes(rs, st.phase.ok, st.phase.numbered, st.lastSequence + 1, st.phase.inserted);
    var end := states[f + 1];
    forall k | |was.completed| <= k < |end.completed|
      ensures end.completed[k].request == was.queue[k - |was.completed|] && end.completed[k].ok == st.phase.ok
    {
      OutcomeAt(rs, st.phase.ok, st.phase.numbered, st.lastSequence + 1, st.phase.inserted, k - |was.completed|);
    }
  }

  lemma {:induction false} OutcomeAt(rs: seq<Request>, ok: bool, numbered: bool, first: SequenceNumber, inserted: nat, i: nat)
    requires i < |rs|
    ensures var o := Outcomes(rs, ok, numbered, first, inserted)[i];
            o.request == rs[i] && o.ok == ok && o.numbered == numbered
  {
    if i < |rs| - 1 {
      OutcomeAt(rs[..|rs| - 1], ok, numbered, first, inserted, i);
    }
  }

  // ----- every answer is some group's -----

  lemma {:induction false} LeaderOf(states: seq<State>, steps: seq<Step>, m: nat) returns (l: nat)
    requires Runs(states, steps) && m <= |steps| && states[m].phase != Idle
    ensures l < m && steps[l].Lead? && OneGroup(steps, l, m)
  {
    assert m > 0;
    assert Happens(states[m - 1], steps[m - 1], states[m]);
    if steps[m - 1].Lead? {
      l := m - 1;
    } else {
      StaysBusy(states[m - 1], steps[m - 1], states[m]);
      l := LeaderOf(states, steps, m - 1);
    }
  }

  lemma {:induction false} StaysBusy(st: State, step: Step, st2: State)
    requires Happens(st, step, st2) && st2.phase != Idle && !step.Lead?
    ensures st.phase != Idle && !step.Finish?
  {
  }

  /** Every answered write was a member of some group, and was told that it succeeded if and only if all that had to
      go well for that group did. */
  lemma {:induction false} AnsweredIff(states: seq<State>, steps: seq<Step>, n: nat, k: nat) returns (l: nat, f: nat)
    requires Runs(states, steps) && n <= |steps| && k < |states[n].completed|
    ensures f < n && IsGroup(steps, l, f)
    ensures states[n].completed[k].request in states[l].queue
    ensures states[n].completed[k].ok <==> WentWell(states, steps, l, f)
  {
    hide WentWell, IsGroup;
    assert n > 0;
    assert Happens(states[n - 1], steps[n - 1], states[n]);
    if k < |states[n - 1].completed| {
      l, f := AnsweredIff(states, steps, n - 1, k);
      CompletedGrows(states[n - 1], steps[n - 1], states[n]);
    } else {
      CompletedGrows(states[n - 1], steps[n - 1], states[n]);
      f := n - 1;
      l := LeaderOf(states, steps, n - 1);
      assert IsGroup(steps, l, f) by { Together(steps, l, f); }
      GroupIsAnswered(states, steps, l, f);
      GroupStands(states, steps, l, f);
      assert states[n].completed[k].request == states[l].queue[k - |states[l].completed|];
    }
  }

  lemma {:induction false} Together(steps: seq<Step>, l: nat, f: nat)
    requires OneGroup(steps, l, f) && f < |steps| && steps[l].Lead? && steps[f].Finish?
    ensures IsGroup(steps, l, f)
  {
  }

  lemma {:induction false} CompletedGrows(st: State, step: Step, st2: State)
    requires Happens(st, step, st2)
    ensures st.completed <= st2.completed
    ensures |st2.completed| > |st.completed| ==> step.Finish? && st.phase != Idle
  {
  }

  /** If nothing failed, everybody who was answered was told that it succeeded. */
  lemma {:induction false} NoFailureNoError(states: seq<State>, steps: seq<Step>, n: nat, k: nat)
    requires Runs(states, steps) && n <= |steps| && k < |states[n].completed|
    requires forall m :: 0 <= m < n ==> !Fails(steps[m])
    ensures states[n].completed[k].ok
  {
    hide Stands, WentWell, Happens;
    var l, f := AnsweredIff(states, steps, n, k);
    GroupStands(states, steps, l, f);
    assert Happens(states[f], steps[f], states[f + 1]);
    FinishedWell(states, steps, l, f);
  }

  lemma {:induction false} FinishedWell(states: seq<State>, steps: seq<Step>, l: nat, f: nat)
    requires |states| == |steps| + 1 && l < f < |steps| && steps[l].Lead? && Stands(states, steps, l, f)
    requires Happens(states[f], steps[f], states[f + 1]) && steps[f].Finish?
    requires forall m :: l <= m < f ==> !Fails(steps[m])
    ensures WentWell(states, steps, l, f)
  {
    hide Took, TookRecord, TookInsert, AllOps, GroupCount, W.EntriesOf, Upto, Landed, WentWell, Fails;
  }
}
