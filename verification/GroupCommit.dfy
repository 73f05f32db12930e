// Group commit: the writer at the front of the queue commits a prefix of it as one log
// record, and the result is as if every batch had been applied on its own, in queue order.

module GroupCommit {
  import opened Keys
  import opened Coding
  import opened WriteBatches

  const GROUP_LIMIT: nat := 0x10_0000
  const SMALL_BATCH: nat := 0x2_0000

  datatype Batch = Batch(size: nat, ops: seq<Op>)

  /** A queued write; one without a batch only waits for its turn. */
  datatype Request = Request(id: nat, batch: Option<Batch>, sync: bool)

  function Size(r: Request): nat {
    if r.batch.Some? then r.batch.value.size else 0
  }

  function Ops(r: Request): seq<Op> {
    if r.batch.Some? then r.batch.value.ops else []
  }

  /** A small first batch keeps its group small too. */
  function MaxSize(first: nat): nat {
    if first <= SMALL_BATCH then first + SMALL_BATCH else GROUP_LIMIT
  }

  function TotalSize(rs: seq<Request>): nat {
    if rs == [] then 0 else TotalSize(rs[..|rs| - 1]) + Size(rs[|rs| - 1])
  }

  function AllOps(rs: seq<Request>): seq<Op> {
    if rs == [] then [] else AllOps(rs[..|rs| - 1]) + Ops(rs[|rs| - 1])
  }

  /** May the queue's next writer ride along with the `n` before it? */
  predicate Joins(queue: seq<Request>, n: nat)
    requires 0 < n < |queue|
  {
    && !(queue[n].sync && !queue[0].sync)
    && (queue[n].batch.Some? ==> TotalSize(queue[..n]) + Size(queue[n]) <= MaxSize(Size(queue[0])))
  }

  function Extent(queue: seq<Request>, n: nat): (count: nat)
    requires 0 < n <= |queue|
    ensures n <= count <= |queue|
    decreases |queue| - n
  {
    if n < |queue| && Joins(queue, n) then Extent(queue, n + 1) else n
  }

  /** How many writers the group takes. */
  function GroupCount(queue: seq<Request>): (count: nat)
    requires |queue| > 0
    ensures 0 < count <= |queue|
  {
    Extent(queue, 1)
  }

  /** Everyone in the group may ride, and whoever is next may not. */
  lemma {:induction false} ExtentIsMaximal(queue: seq<Request>, n: nat)
    requires 0 < n <= |queue| && forall i :: 0 < i < n ==> Joins(queue, i)
    ensures forall i :: 0 < i < Extent(queue, n) ==> Joins(queue, i)
    ensures Extent(queue, n) < |queue| ==> !Joins(queue, Extent(queue, n))
    decreases |queue| - n
  {
    if n < |queue| && Joins(queue, n) {
      ExtentIsMaximal(queue, n + 1);
    }
  }

  /** A sync write never rides with a leader that does not sync, and a group of more than one batch
      stays within the limit its first batch sets. */
  lemma {:induction false} GroupIsSound(queue: seq<Request>, i: nat)
    requires |queue| > 0 && 0 < i < GroupCount(queue)
    ensures queue[i].sync ==> queue[0].sync
    ensures queue[i].batch.Some? ==> TotalSize(queue[..i + 1]) <= MaxSize(Size(queue[0]))
  {
    ExtentIsMaximal(queue, 1);
    assert Joins(queue, i);
    assert queue[..i + 1][..i] == queue[..i];
  }

  /** The group is the longest prefix of the queue without a sync write behind a leader that does not sync and, up to each
      batch behind the first, of at most a megabyte, or 128 kilobytes more than a first batch that is no larger than
      that: it stops at the end of the queue or before a writer that breaks one of these. */
  lemma {:induction false} GroupIsLongest(queue: seq<Request>)
    requires |queue| > 0
    ensures var limit := if Size(queue[0]) <= 131072 then Size(queue[0]) + 131072 else 1048576;
            var count := GroupCount(queue);
            && (forall i :: 0 < i < count && queue[i].sync ==> queue[0].sync)
            && (forall i :: 0 < i < count && queue[i].batch.Some? ==> TotalSize(queue[..i + 1]) <= limit)
            && (count < |queue| ==>
                  || (queue[count].sync && !queue[0].sync)
                  || (queue[count].batch.Some? && TotalSize(queue[..count + 1]) > limit))
  {
    hide TotalSize;
    var count := GroupCount(queue);
    ExtentIsMaximal(queue, 1);
    forall i | 0 < i < count
      ensures queue[i].sync ==> queue[0].sync
      ensures queue[i].batch.Some? ==> TotalSize(queue[..i + 1]) <= MaxSize(Size(queue[0]))
    {
      GroupIsSound(queue, i);
    }
    if count < |queue| {
      OneLonger(queue, count);
    }
  }

  lemma {:induction false} OneLonger(queue: seq<Request>, n: nat)
    requires n < |queue|
    ensures TotalSize(queue[..n + 1]) == TotalSize(queue[..n]) + Size(queue[n])
  {
    assert queue[..n + 1][..n] == queue[..n];
  }

  lemma {:induction false} GroupSize(queue: seq<Request>)
    requires |queue| > 0
    requires exists i :: 0 < i < GroupCount(queue) && queue[i].batch.Some?
    ensures TotalSize(queue[..GroupCount(queue)]) <= MaxSize(Size(queue[0]))
  {
    var i :| 0 < i < GroupCount(queue) && queue[i].batch.Some?;
    GroupIsSound(queue, i);
    SizeUpTo(queue, i + 1, GroupCount(queue));
  }

  lemma {:induction false} SizeUpTo(queue: seq<Request>, from: nat, count: nat)
    requires |queue| > 0 && 0 < from <= count <= GroupCount(queue)
    requires TotalSize(queue[..from]) <= MaxSize(Size(queue[0]))
    ensures TotalSize(queue[..count]) <= MaxSize(Size(queue[0]))
    decreases count
  {
    if from < count {
      SizeUpTo(queue, from, count - 1);
      assert queue[..count][..count - 1] == queue[..count - 1];
      if queue[count - 1].batch.Some? {
        GroupIsSound(queue, count - 1);
      }
    }
  }

  // ----- building the group -----

  class Writer {
    const id: nat
    const batch: WriteBatch?
    const sync: bool

    constructor (id: nat, batch: WriteBatch?, sync: bool)
      ensures this.id == id && this.batch == batch && this.sync == sync
    {
      this.id, this.batch, this.sync := id, batch, sync;
    }

    ghost function AsRequest(): Request
      reads batch
    {
      Request(id, if batch == null then None else Some(Batch(|batch.rep|, batch.ops)), sync)
    }
  }

  ghost function Requests(writers: seq<Writer>): (r: seq<Request>)
    reads set w | w in writers && w.batch != null :: w.batch
    ensures |r| == |writers|
  {
    if writers == [] then [] else Requests(writers[..|writers| - 1]) + [writers[|writers| - 1].AsRequest()]
  }

  ghost predicate Ready(writers: seq<Writer>, tmp: WriteBatch)
    reads set w | w in writers && w.batch != null :: w.batch
  {
    forall w :: w in writers && w.batch != null ==> w.batch != tmp && w.batch.Valid()
  }

  lemma {:induction false} RequestAt(writers: seq<Writer>, i: nat)
    requires i < |writers|
    ensures Requests(writers)[i] == writers[i].AsRequest()
    ensures Requests(writers)[..i] == Requests(writers[..i])
    decreases |writers|
  {
    var n := |writers| - 1;
    if i < n {
      RequestAt(writers[..n], i);
      assert writers[..n][..i] == writers[..i];
      assert Requests(writers)[..i] == Requests(writers[..n])[..i];
    }
  }

  /** The group's batch and how many writers it stands for.  The leader's own batch is left alone as
      soon as there is another one to add: the group is then collected in `tmp`. */
  method BuildBatchGroup(writers: seq<Writer>, tmp: WriteBatch) returns (result: WriteBatch, count: nat)
    requires |writers| > 0 && writers[0].batch != null
    requires tmp.Valid() && tmp.ops == [] && Ready(writers, tmp)
    modifies tmp
    ensures Ready(writers, tmp) && Requests(writers) == old(Requests(writers))
    ensures count == GroupCount(Requests(writers))
    ensures result.Valid() && result.ops == AllOps(Requests(writers)[..count])
    ensures result == writers[0].batch || result == tmp
  {
    hide Extent, Joins, AllOps, TotalSize, MaxSize, Requests, WriteBatch.Valid;
    var first := writers[0];
    result := first.batch;
    ghost var queue := Requests(writers);
    RequestAt(writers, 0);
    var size := |first.batch.rep|;
    var maxSize := GROUP_LIMIT;
    if size <= SMALL_BATCH {
      maxSize := size + SMALL_BATCH;
    }
    count := 1;
    GroupOfOne(queue);
    while count < |writers|
      invariant 1 <= count <= |writers|
      invariant Ready(writers, tmp) && Requests(writers) == queue
      invariant maxSize == MaxSize(Size(queue[0]))
      invariant size == TotalSize(queue[..count])
      invariant GroupCount(queue) == Extent(queue, count)
      invariant result.Valid() && result.ops == AllOps(queue[..count])
      invariant result == tmp || (result == first.batch && tmp.Valid() && tmp.ops == [])
    {
      var w := writers[count];
      RequestAt(writers, count);
      GroupOfNext(queue, count);
      if w.sync && !first.sync {
        break;
      }
      if w.batch != null {
        size := size + |w.batch.rep|;
        if size > maxSize {
          break;
        }
        result := AddToGroup(first.batch, result, w.batch, tmp);
      }
      count := count + 1;
    }
    GroupComplete(queue, count);
  }

  method AddToGroup(first: WriteBatch, sofar: WriteBatch, more: WriteBatch, tmp: WriteBatch) returns (result: WriteBatch)
    requires first != tmp && more != tmp && sofar.Valid() && more.Valid()
    requires sofar == tmp || (sofar == first && tmp.Valid() && tmp.ops == [])
    modifies tmp
    ensures result == tmp && result.Valid() && result.ops == old(sofar.ops) + more.ops
  {
    result := sofar;
    if result == first {
      result := tmp;
      result.Append(first);
      assert [] + first.ops == first.ops;
    }
    result.Append(more);
  }

  lemma {:induction false} GroupOfOne(queue: seq<Request>)
    requires |queue| > 0
    ensures TotalSize(queue[..1]) == Size(queue[0]) && AllOps(queue[..1]) == Ops(queue[0])
    ensures MaxSize(Size(queue[0])) == if Size(queue[0]) <= SMALL_BATCH then Size(queue[0]) + SMALL_BATCH else GROUP_LIMIT
  {
    assert queue[..1][..0] == [];
    assert TotalSize(queue[..1][..0]) == 0;
    assert AllOps(queue[..1][..0]) == [];
  }

  lemma {:induction false} GroupOfNext(queue: seq<Request>, n: nat)
    requires 0 < n < |queue|
    ensures TotalSize(queue[..n + 1]) == TotalSize(queue[..n]) + Size(queue[n])
    ensures AllOps(queue[..n + 1]) == AllOps(queue[..n]) + Ops(queue[n])
    ensures Extent(queue, n) == if Joins(queue, n) then Extent(queue, n + 1) else n
    ensures queue[n].sync && !queue[0].sync ==> !Joins(queue, n)
    ensures queue[n].batch.Some? && TotalSize(queue[..n]) + Size(queue[n]) > MaxSize(Size(queue[0])) ==> !Joins(queue, n)
    ensures !(queue[n].sync && !queue[0].sync) && queue[n].batch.None? ==> Joins(queue, n)
    ensures !(queue[n].sync && !queue[0].sync) && TotalSize(queue[..n]) + Size(queue[n]) <= MaxSize(Size(queue[0])) ==>
              Joins(queue, n)
  {
    assert queue[..n + 1][..n] == queue[..n];
  }

  lemma {:induction false} GroupComplete(queue: seq<Request>, n: nat)
    requires 0 < n <= |queue|
    ensures n == |queue| ==> Extent(queue, n) == n
  {
  }
}
