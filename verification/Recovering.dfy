// What recovery reads out of a manifest field by field: the last edit that sets a field wins, and over
// a run the log numbers and the compaction pointers are those the edits set last.

module Recovering {
  import opened Keys
  import opened VersionBuilder
  import opened Manifest
  import opened VersionSets

  // ----- one field -----

  /** Edit `i` is the last one that sets the field. */
  ghost predicate SetLast(field: EditField, edits: seq<VersionEdit>, i: nat) {
    && i < |edits| && FieldOf(field, edits[i]).Some?
    && forall j :: i < j < |edits| ==> FieldOf(field, edits[j]).None?
  }

  lemma {:induction false} LastSetWins(field: EditField, edits: seq<VersionEdit>)
    ensures LastOf(field, edits).Some? <==> exists i :: 0 <= i < |edits| && FieldOf(field, edits[i]).Some?
    ensures forall i: nat :: SetLast(field, edits, i) ==> LastOf(field, edits) == FieldOf(field, edits[i])
  {
    hide FieldOf;
    if edits != [] {
      var n := |edits| - 1;
      LastSetWins(field, edits[..n]);
      if i :| 0 <= i < n && FieldOf(field, edits[i]).Some? {
        assert edits[..n][i] == edits[i];
      }
      forall i: nat | SetLast(field, edits, i)
        ensures LastOf(field, edits) == FieldOf(field, edits[i])
      {
        if i < n {
          assert SetLast(field, edits[..n], i);
        }
      }
    }
  }

  // ----- compaction pointers -----

  /** Item `k` of edit `i` sets the pointer of the level. */
  ghost predicate Sets(manifest: seq<VersionEdit>, level: nat, i: nat, k: nat) {
    i < |manifest| && k < |manifest[i].compactPointers| && manifest[i].compactPointers[k].0 == level
  }

  ghost predicate IsLast(manifest: seq<VersionEdit>, level: nat, i: nat, k: nat) {
    Sets(manifest, level, i, k)
    && forall i2: nat, k2: nat :: Sets(manifest, level, i2, k2) ==> i2 < i || (i2 == i && k2 <= k)
  }

  /** Item `k` is the last of the list for the level. */
  ghost predicate LastItem(ps: seq<(nat, InternalKey)>, level: nat, k: nat) {
    k < |ps| && ps[k].0 == level && forall j :: k < j < |ps| ==> ps[j].0 != level
  }

  lemma {:induction false} LastItemWins(m: map<nat, InternalKey>, ps: seq<(nat, InternalKey)>, level: nat, k: nat)
    requires LastItem(ps, level, k)
    ensures level in ApplyPointers(m, ps) && ApplyPointers(m, ps)[level] == ps[k].1
  {
    var n := |ps| - 1;
    if k < n {
      assert LastItem(ps[..n], level, k);
      LastItemWins(m, ps[..n], level, k);
    }
  }

  lemma {:induction false} NoItemNoChange(m: map<nat, InternalKey>, ps: seq<(nat, InternalKey)>, level: nat)
    requires forall k :: 0 <= k < |ps| ==> ps[k].0 != level
    ensures level in ApplyPointers(m, ps) <==> level in m
    ensures level in m ==> ApplyPointers(m, ps)[level] == m[level]
  {
    if ps != [] {
      NoItemNoChange(m, ps[..|ps| - 1], level);
    }
  }

  /** The compaction pointer of a level that recovery ends up with is the key of the last item, in the last edit, that sets
      one; and there is none if no edit does. */
  lemma {:induction false} LastPointerWins(manifest: seq<VersionEdit>, level: nat)
    ensures forall i: nat, k: nat :: IsLast(manifest, level, i, k) ==>
              level in PointersOf(manifest) && PointersOf(manifest)[level] == manifest[i].compactPointers[k].1
    ensures (forall i: nat, k: nat :: !Sets(manifest, level, i, k)) ==> level !in PointersOf(manifest)
  {
    hide ApplyPointers;
    if manifest != [] {
      var n := |manifest| - 1;
      var front, ps := manifest[..n], manifest[n].compactPointers;
      LastPointerWins(front, level);
      if forall i: nat, k: nat :: !Sets(manifest, level, i, k) {
        NoneSets(manifest, level);
        NoItemNoChange(PointersOf(front), ps, level);
      }
      forall i: nat, k: nat | IsLast(manifest, level, i, k)
        ensures level in PointersOf(manifest) && PointersOf(manifest)[level] == manifest[i].compactPointers[k].1
      {
        IsLastIn(manifest, level, i, k);
        if i == n {
          LastItemWins(PointersOf(front), ps, level, k);
        } else {
          NoItemNoChange(PointersOf(front), ps, level);
        }
      }
    }
  }

  lemma {:induction false} NoneSets(manifest: seq<VersionEdit>, level: nat)
    requires manifest != [] && forall i: nat, k: nat :: !Sets(manifest, level, i, k)
    ensures var n := |manifest| - 1;
            && (forall i: nat, k: nat :: !Sets(manifest[..n], level, i, k))
            && forall k :: 0 <= k < |manifest[n].compactPointers| ==> manifest[n].compactPointers[k].0 != level
  {
    var n := |manifest| - 1;
    forall i: nat, k: nat
      ensures !Sets(manifest[..n], level, i, k)
    {
      assert !Sets(manifest, level, i, k);
    }
    forall k | 0 <= k < |manifest[n].compactPointers|
      ensures manifest[n].compactPointers[k].0 != level
    {
      assert !Sets(manifest, level, n, k);
    }
  }

  lemma {:induction false} IsLastIn(manifest: seq<VersionEdit>, level: nat, i: nat, k: nat)
    requires IsLast(manifest, level, i, k)
    ensures var n := |manifest| - 1;
            if i == n then LastItem(manifest[n].compactPointers, level, k)
            else IsLast(manifest[..n], level, i, k)
                 && forall j :: 0 <= j < |manifest[n].compactPointers| ==> manifest[n].compactPointers[j].0 != level
  {
    var n := |manifest| - 1;
    var ps := manifest[n].compactPointers;
    forall j | 0 <= j < |ps|
      ensures ps[j].0 == level ==> i == n && j <= k
    {
      assert Sets(manifest, level, n, j) <==> ps[j].0 == level;
    }
    if i < n {
      forall i2: nat, k2: nat | Sets(manifest[..n], level, i2, k2)
        ensures i2 < i || (i2 == i && k2 <= k)
      {
        assert Sets(manifest, level, i2, k2);
      }
    }
  }

  // ----- runs -----

  function Default(value: Option<nat>): nat {
    if value.Some? then value.value else 0
  }

  /** Over any run, opened again any number of times, the log numbers are those of the last edits that set them. */
  lemma {:induction false} LogNumbersAreLast(states: seq<Book>, steps: seq<Step>, n: nat)
    requires Runs(states, steps) && n < |states|
    ensures states[n].logNumber == Default(LastOf(LogNumber, Applied(steps[..n])))
    ensures states[n].prevLogNumber == Default(LastOf(PrevLogNumber, Applied(steps[..n])))
  {
    hide BookOk, Enabled, Do, Recovered;
    if n == 0 {
      assert steps[..0] == [];
    } else {
      LogNumbersAreLast(states, steps, n - 1);
      ManifestRebuilds(states, steps, n - 1);
      assert Happens(states[n - 1], steps[n - 1], states[n]);
      var before, after := steps[..n - 1], steps[..n];
      assert after[..|after| - 1] == before;
      StepSetsLogs(states[n - 1], steps[n - 1], Applied(before));
      assert Applied(before) + [] == Applied(before);
    }
  }

  lemma {:induction false} StepSetsLogs(b: Book, step: Step, edits: seq<VersionEdit>)
    requires BookOk(b) && Recovered(b.manifest).logNumber == b.logNumber && Recovered(b.manifest).prevLogNumber == b.prevLogNumber
    requires LastOf(LogNumber, b.manifest).Some? && LastOf(NextFile, b.manifest).Some? && LastOf(LastSequence, b.manifest).Some?
    requires b.logNumber == Default(LastOf(LogNumber, edits)) && b.prevLogNumber == Default(LastOf(PrevLogNumber, edits))
    ensures var more := edits + if step.Apply? then [step.edit] else [];
            && Do(b, step).logNumber == Default(LastOf(LogNumber, more))
            && Do(b, step).prevLogNumber == Default(LastOf(PrevLogNumber, more))
  {
    hide BookOk, Recovered, ApplyEdit, ApplyPointers, Before;
    if step.Apply? {
      assert (edits + [step.edit])[..|edits|] == edits;
    } else {
      assert edits + [] == edits;
    }
  }
}
