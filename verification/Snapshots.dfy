// The list of live snapshots: a circular doubly linked list through a dummy head, oldest
// first.  Its front bounds what a compaction may drop.

module Snapshots {
  import opened Keys

  class SnapshotImpl {
    var number: SequenceNumber
    var prev: SnapshotImpl?
    var next: SnapshotImpl?

    constructor (number: SequenceNumber)
      ensures this.number == number && prev == null && next == null
    {
      this.number, prev, next := number, null, null;
    }
  }

  ghost predicate Distinct(c: seq<SnapshotImpl>) {
    forall i, j :: 0 <= i < j < |c| ==> c[i] != c[j]
  }

  /** Each node points to the one after it and back, and the last one to the first and back. */
  ghost predicate Circular(c: seq<SnapshotImpl>)
    requires |c| > 0
    reads c
  {
    && (forall i :: 0 <= i < |c| - 1 ==> c[i].next == c[i + 1])
    && (forall i :: 0 < i < |c| ==> c[i].prev == c[i - 1])
    && c[|c| - 1].next == c[0] && c[0].prev == c[|c| - 1]
  }

  ghost predicate OldestFirst(c: seq<SnapshotImpl>)
    reads c
  {
    forall i, j :: 1 <= i <= j < |c| ==> c[i].number <= c[j].number
  }

  lemma {:induction false} Ends(c: seq<SnapshotImpl>, at: nat)
    requires Distinct(c) && 1 <= at < |c|
    ensures c[at - 1] != c[at]
    ensures forall i :: 0 <= i < |c| && i != at - 1 ==> c[i] != c[at - 1]
    ensures forall i :: 0 <= i < |c| && i != (if at + 1 < |c| then at + 1 else 0) ==> c[i] != c[if at + 1 < |c| then at + 1 else 0]
  {
  }

  class SnapshotList {
    const head: SnapshotImpl

    // The nodes in order, the dummy head first.
    ghost var nodes: seq<SnapshotImpl>

    ghost predicate Valid()
      reads this, nodes
    {
      |nodes| > 0 && nodes[0] == head && Distinct(nodes) && Circular(nodes) && OldestFirst(nodes)
    }

    constructor ()
      ensures Valid() && nodes == [head] && fresh(head)
    {
      head := new SnapshotImpl(0);
      new;
      head.prev, head.next := head, head;
      nodes := [head];
    }

    method Empty() returns (r: bool)
      requires Valid()
      ensures r <==> |nodes| == 1
    {
      assert |nodes| > 1 ==> nodes[0] != nodes[1];
      r := head.next == head;
    }

    /** The oldest snapshot has the smallest number of all. */
    method Oldest() returns (s: SnapshotImpl)
      requires Valid() && |nodes| > 1
      ensures s == nodes[1] && forall i :: 1 <= i < |nodes| ==> s.number <= nodes[i].number
    {
      assert nodes[0].next == nodes[1];
      s := head.next;
    }

    /** Snapshots are taken at the last sequence number, which never goes down. */
    method New(number: SequenceNumber) returns (s: SnapshotImpl)
      requires Valid() && forall i :: 1 <= i < |nodes| ==> nodes[i].number <= number
      modifies this, nodes
      ensures Valid() && fresh(s) && s.number == number
      ensures nodes == old(nodes) + [s]
      ensures forall n :: n in old(nodes) ==> n.number == old(n.number)
    {
      s := new SnapshotImpl(number);
      s.next := head;
      s.prev := head.prev;
      s.prev.next := s;
      s.next.prev := s;
      nodes := nodes + [s];
    }

    twostate lemma {:induction false} StillOldestFirst(at: nat)
      requires 1 <= at < |old(nodes)| && old(OldestFirst(nodes))
      requires nodes == old(nodes)[..at] + old(nodes)[at + 1..]
      requires forall n :: n in old(nodes) ==> n.number == old(n.number)
      ensures OldestFirst(nodes)
    {
      var was := old(nodes);
      forall i, j | 1 <= i <= j < |nodes|
        ensures nodes[i].number <= nodes[j].number
      {
        var i2, j2 := if i < at then i else i + 1, if j < at then j else j + 1;
        assert nodes[i] == was[i2] && nodes[j] == was[j2];
        assert old(was[i2].number <= was[j2].number);
      }
    }

    method Delete(s: SnapshotImpl, ghost at: nat)
      requires Valid() && 1 <= at < |nodes| && nodes[at] == s
      modifies this, nodes
      ensures Valid() && nodes == old(nodes)[..at] + old(nodes)[at + 1..]
      ensures forall n :: n in old(nodes) ==> n.number == old(n.number)
    {
      hide Distinct, OldestFirst;
      ghost var was := nodes;
      Ends(was, at);
      assert s.prev == was[at - 1] && s.next == if at + 1 < |was| then was[at + 1] else was[0];
      s.prev.next := s.next;
      s.next.prev := s.prev;
      nodes := was[..at] + was[at + 1..];
      Without(was, at, nodes);
      StillOldestFirst(at);
      assert Circular(nodes) by {
        assert forall i :: 0 <= i < |nodes| ==> nodes[i] == was[if i < at then i else i + 1];
      }
    }
  }

  lemma {:induction false} Without(c: seq<SnapshotImpl>, at: nat, d: seq<SnapshotImpl>)
    requires Distinct(c) && 1 <= at < |c| && d == c[..at] + c[at + 1..]
    ensures Distinct(d) && c[at] !in d
  {
    forall i | 0 <= i < |d|
      ensures d[i] == c[if i < at then i else i + 1]
    {
    }
  }
}
