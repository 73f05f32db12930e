// Write batches: operations appended to one byte string, counted in its header, and
// replayed from it with consecutive sequence numbers.

module WriteBatches {
  import opened Keys
  import opened Coding

  const HEADER: nat := 12
  const TWO_31: nat := 0x8000_0000

  datatype Op = Put(key: Bytes, value: Bytes) | Delete(key: Bytes)

  const DELETION_TAG: byte := 0
  const VALUE_TAG: byte := 1

  function EncodeOp(op: Op): (r: Bytes)
    ensures |r| > 0
  {
    match op
    case Put(key, value) => [VALUE_TAG] + LengthPrefixed(key) + LengthPrefixed(value)
    case Delete(key) => [DELETION_TAG] + LengthPrefixed(key)
  }

  function EncodeOps(ops: seq<Op>): Bytes {
    if ops == [] then [] else EncodeOps(ops[..|ops| - 1]) + EncodeOp(ops[|ops| - 1])
  }

  /** Lengths are stored in 32 bits. */
  predicate Fits(op: Op) {
    |op.key| < TWO_32 && (op.Put? ==> |op.value| < TWO_32)
  }

  ghost predicate AllFit(ops: seq<Op>) {
    forall i :: 0 <= i < |ops| ==> Fits(ops[i])
  }

  // ----- what any byte string replays as -----

  datatype Status = OK | Corruption(message: string)

  /** One operation and what follows it, or what is wrong. */
  datatype Step = Step(op: Op, rest: Bytes) | Wrong(message: string)

  function NextOp(input: Bytes): (r: Step)
    requires input != []
    ensures r.Step? ==> |r.rest| < |input|
  {
    if input[0] == VALUE_TAG then
      match GetLengthPrefixed(input[1..])
      case None => Wrong("bad WriteBatch Put")
      case Some(key) =>
        match GetLengthPrefixed(key.1)
        case None => Wrong("bad WriteBatch Put")
        case Some(value) => Step(Put(key.0, value.0), value.1)
    else if input[0] == DELETION_TAG then
      match GetLengthPrefixed(input[1..])
      case None => Wrong("bad WriteBatch Delete")
      case Some(key) => Step(Delete(key.0), key.1)
    else
      Wrong("unknown WriteBatch tag")
  }

  datatype Replayed = Replayed(ops: seq<Op>, status: Status)

  function Replay(input: Bytes): Replayed
    decreases |input|
  {
    if input == [] then Replayed([], OK)
    else
      match NextOp(input)
      case Wrong(message) => Replayed([], Corruption(message))
      case Step(op, rest) =>
        var more := Replay(rest);
        Replayed([op] + more.ops, more.status)
  }

  /** A stored count as the signed number it is compared as. */
  function Signed(count: nat): int {
    if count < TWO_31 then count else count - TWO_32
  }

  function Iterated(rep: Bytes): Replayed {
    if |rep| < HEADER then Replayed([], Corruption("malformed WriteBatch (too small)"))
    else
      var r := Replay(rep[HEADER..]);
      if r.status.OK? && |r.ops| != Signed(FixedValue(rep[8..12])) then
        Replayed(r.ops, Corruption("WriteBatch has wrong count"))
      else r
  }

  // ----- replaying -----

  /** A count as it is stored. */
  function Modulo(n: nat): u32 {
    n % TWO_32
  }

  lemma {:induction false} CountsAdd(a: nat, b: nat)
    ensures Modulo(Modulo(a) + b) == Modulo(a + b)
    ensures Modulo(Modulo(a) + Modulo(b)) == Modulo(a + b)
    ensures a < TWO_32 ==> Modulo(a) == a
  {
  }

  function EntryOf(op: Op, s: SequenceNumber): Entry {
    match op
    case Put(key, value) => Entry(InternalKey(Rank(key), s, Value), value)
    case Delete(key) => Entry(InternalKey(Rank(key), s, Deletion), [])
  }

  function EntriesOf(ops: seq<Op>, first: SequenceNumber): (r: seq<Entry>)
    ensures |r| == |ops|
  {
    if ops == [] then [] else [EntryOf(ops[0], first)] + EntriesOf(ops[1..], first + 1)
  }

  /** The handler that adds each operation to a memtable under the next sequence number; `added` is
      what the memtable has been given, in order. */
  class MemTableInserter {
    var sequence: SequenceNumber
    var added: seq<Entry>

    constructor (sequence: SequenceNumber)
      ensures this.sequence == sequence && added == []
    {
      this.sequence, added := sequence, [];
    }

    method Handle(op: Op)
      modifies this
      ensures added == old(added) + [EntryOf(op, old(sequence))] && sequence == old(sequence) + 1
    {
      match op
      case Put(key, value) =>
        added := added + [Entry(InternalKey(Rank(key), sequence, Value), value)];
        sequence := sequence + 1;
      case Delete(key) =>
        added := added + [Entry(InternalKey(Rank(key), sequence, Deletion), [])];
        sequence := sequence + 1;
    }
  }

  lemma {:induction false} ZerosAreZero(bs: Bytes)
    requires forall i :: 0 <= i < |bs| ==> bs[i] == 0
    ensures FixedValue(bs) == 0
  {
    if bs != [] {
      ZerosAreZero(bs[1..]);
    }
  }

  class WriteBatch {
    var rep: Bytes

    // The operations put in so far.
    ghost var ops: seq<Op>

    ghost predicate Valid()
      reads this
    {
      && |rep| >= HEADER
      && rep[HEADER..] == EncodeOps(ops)
      && Count() == Modulo(|ops|)
    }

    function Count(): nat
      reads this
      requires |rep| >= HEADER
    {
      FixedValue(rep[8..12])
    }

    function Sequence(): nat
      reads this
      requires |rep| >= HEADER
    {
      FixedValue(rep[..8])
    }

    constructor ()
      ensures Valid() && ops == []
    {
      rep := [0, 0, 0, 0, 0, 0, 0, 0, 0, 0, 0, 0];
      ops := [];
      new;
      CountsZero();
    }

    lemma {:induction false} CountsZero()
      requires |rep| == HEADER && forall i :: 0 <= i < HEADER ==> rep[i] == 0
      ensures Count() == 0
    {
      var c := rep[8..12];
      ZerosAreZero(c);
    }

    method SetCount(n: nat)
      requires |rep| >= HEADER
      modifies this`rep
      ensures |rep| == old(|rep|) && rep[HEADER..] == old(rep[HEADER..])
      ensures Count() == Modulo(n) && Sequence() == old(Sequence())
    {
      var field := Fixed(Modulo(n), 4);
      rep := rep[..8] + field + rep[12..];
      FixedRoundTrip(Modulo(n), 4);
      Pow256Values();
      assert rep[8..12] == field;
      assert rep[..8] == old(rep[..8]);
    }

    method SetSequence(s: SequenceNumber)
      requires |rep| >= HEADER && s <= MAX_SEQUENCE_NUMBER
      modifies this`rep
      ensures |rep| == old(|rep|) && rep[HEADER..] == old(rep[HEADER..])
      ensures Sequence() == s && Count() == old(Count())
      ensures old(Valid()) ==> Valid()
    {
      var field := Fixed(s, 8);
      rep := field + rep[8..];
      FixedRoundTrip(s, 8);
      Pow256Values();
      assert rep[..8] == field;
      assert rep[8..12] == old(rep[8..12]);
    }

    method Put(key: Bytes, value: Bytes)
      requires Valid()
      modifies this
      ensures Valid() && ops == old(ops) + [Op.Put(key, value)]
      ensures Sequence() == old(Sequence())
    {
      hide Modulo, FixedValue, EncodeOps, LengthPrefixed;
      CountsAdd(|ops|, 1);
      SetCount(Count() + 1);
      AppendBytes([VALUE_TAG]);
      AppendBytes(LengthPrefixed(key));
      AppendBytes(LengthPrefixed(value));
      ops := ops + [Op.Put(key, value)];
      Appended(ops, EncodeOp(Op.Put(key, value)));
    }

    method Delete(key: Bytes)
      requires Valid()
      modifies this
      ensures Valid() && ops == old(ops) + [Op.Delete(key)]
      ensures Sequence() == old(Sequence())
    {
      hide Modulo, FixedValue, EncodeOps, LengthPrefixed;
      CountsAdd(|ops|, 1);
      SetCount(Count() + 1);
      AppendBytes([DELETION_TAG]);
      AppendBytes(LengthPrefixed(key));
      ops := ops + [Op.Delete(key)];
      Appended(ops, EncodeOp(Op.Delete(key)));
    }

    method AppendBytes(more: Bytes)
      requires |rep| >= HEADER
      modifies this`rep
      ensures |rep| >= HEADER && rep[HEADER..] == old(rep[HEADER..]) + more
      ensures Count() == old(Count()) && Sequence() == old(Sequence())
    {
      rep := rep + more;
      assert rep[8..12] == old(rep[8..12]) && rep[..8] == old(rep[..8]);
    }

    lemma {:induction false} Appended(all: seq<Op>, last: Bytes)
      requires |all| > 0 && last == EncodeOp(all[|all| - 1])
      ensures EncodeOps(all) == EncodeOps(all[..|all| - 1]) + last
    {
      hide EncodeOp;
    }

    /** The operations of `src` after the ones already here. */
    method Append(src: WriteBatch)
      requires Valid() && src.Valid() && src != this
      modifies this
      ensures Valid() && ops == old(ops) + src.ops
      ensures Sequence() == old(Sequence())
    {
      hide Modulo, EncodeOp, EncodeOps, FixedValue;
      CountsAdd(|ops|, |src.ops|);
      SetCount(Count() + src.Count());
      AppendBytes(src.rep[HEADER..]);
      EncodedTogether(ops, src.ops);
      ops := ops + src.ops;
    }

    method Clear()
      modifies this
      ensures Valid() && ops == []
    {
      rep := [0, 0, 0, 0, 0, 0, 0, 0, 0, 0, 0, 0];
      ops := [];
      CountsZero();
    }

    /** Takes over bytes that may hold anything; what they replay as is `Iterated`. */
    method SetContents(contents: Bytes)
      requires |contents| >= HEADER
      modifies this`rep
      ensures rep == contents
    {
      rep := contents;
    }

    method Iterate(handler: MemTableInserter) returns (status: Status)
      modifies handler
      ensures status == Iterated(rep).status
      ensures handler.added == old(handler.added) + EntriesOf(Iterated(rep).ops, old(handler.sequence))
      ensures handler.sequence == old(handler.sequence) + |Iterated(rep).ops|
    {
      hide NextOp, EntryOf, FixedValue;
      if |rep| < HEADER {
        return Corruption("malformed WriteBatch (too small)");
      }
      var input, found := rep[HEADER..], 0;
      ghost var handled: seq<Op> := [];
      ghost var all := Replay(input);
      assert [] + all.ops == all.ops;
      while input != []
        invariant found == |handled|
        invariant all == Replayed(handled + Replay(input).ops, Replay(input).status)
        invariant handler.added == old(handler.added) + EntriesOf(handled, old(handler.sequence))
        invariant handler.sequence == old(handler.sequence) + found
        decreases |input|
      {
        found := found + 1;
        match NextOp(input)
        case Wrong(message) =>
          assert handled + [] == handled;
          return Corruption(message);
        case Step(op, rest) =>
          handler.Handle(op);
          EntriesOfAppended(handled, op, old(handler.sequence));
          assert handled + ([op] + Replay(rest).ops) == handled + [op] + Replay(rest).ops;
          handled := handled + [op];
          input := rest;
      }
      assert handled + [] == handled;
      if found != Signed(Count()) {
        return Corruption("WriteBatch has wrong count");
      }
      return OK;
    }

    /** Replays the batch into a memtable, from the batch's own sequence number. */
    method InsertInto() returns (status: Status, added: seq<Entry>)
      requires |rep| >= HEADER
      ensures status == Iterated(rep).status
      ensures added == EntriesOf(Iterated(rep).ops, Sequence())
    {
      var inserter := new MemTableInserter(Sequence());
      status := Iterate(inserter);
      added := inserter.added;
      assert [] + EntriesOf(Iterated(rep).ops, Sequence()) == EntriesOf(Iterated(rep).ops, Sequence());
    }
  }

  lemma {:induction false} EntriesOfAppended(ops: seq<Op>, op: Op, first: SequenceNumber)
    ensures EntriesOf(ops + [op], first) == EntriesOf(ops, first) + [EntryOf(op, first + |ops|)]
  {
    var all := ops + [op];
    if ops == [] {
      assert all[1..] == [];
    } else {
      assert all[1..] == ops[1..] + [op];
      EntriesOfAppended(ops[1..], op, first + 1);
    }
  }

  lemma {:induction false} EncodedTogether(a: seq<Op>, b: seq<Op>)
    ensures EncodeOps(a + b) == EncodeOps(a) + EncodeOps(b)
  {
    hide EncodeOp;
    if b == [] {
      assert a + b == a;
    } else {
      var n := |b| - 1;
      assert (a + b)[..|a + b| - 1] == a + b[..n];
      EncodedTogether(a, b[..n]);
    }
  }

  // ----- the round trip -----

  lemma {:induction false} OpRoundTrip(op: Op, rest: Bytes)
    requires Fits(op)
    ensures NextOp(EncodeOp(op) + rest) == Step(op, rest)
  {
    hide LengthPrefixed, GetLengthPrefixed;
    var input := EncodeOp(op) + rest;
    match op
    case Put(key, value) =>
      assert input[1..] == LengthPrefixed(key) + (LengthPrefixed(value) + rest);
      LengthPrefixedRoundTrip(key, LengthPrefixed(value) + rest);
      LengthPrefixedRoundTrip(value, rest);
    case Delete(key) =>
      assert input[1..] == LengthPrefixed(key) + rest;
      LengthPrefixedRoundTrip(key, rest);
  }

  lemma {:induction false} OpsReplay(ops: seq<Op>, rest: Bytes)
    requires AllFit(ops)
    ensures Replay(EncodeOps(ops) + rest) == Replayed(ops + Replay(rest).ops, Replay(rest).status)
  {
    hide EncodeOp, NextOp, Fits;
    if ops == [] {
      assert EncodeOps(ops) + rest == rest;
      assert ops + Replay(rest).ops == Replay(rest).ops;
    } else {
      var n := |ops| - 1;
      var tail := EncodeOp(ops[n]) + rest;
      OpsReplay(ops[..n], tail);
      OpRoundTrip(ops[n], rest);
      assert EncodeOps(ops) + rest == EncodeOps(ops[..n]) + tail;
      assert ops[..n] + ([ops[n]] + Replay(rest).ops) == ops + Replay(rest).ops;
    }
  }

  /** A batch built by any mix of puts, deletes and appends replays exactly its operations; it is found
      consistent if and only if it holds fewer than 2^31 of them. */
  lemma {:induction false} BatchReplays(b: WriteBatch)
    requires b.Valid() && AllFit(b.ops)
    ensures Iterated(b.rep).ops == b.ops
    ensures Iterated(b.rep).status == OK <==> |b.ops| < TWO_31
  {
    hide EncodeOp, NextOp, Fits, FixedValue;
    OpsReplay(b.ops, []);
    assert EncodeOps(b.ops) + [] == b.rep[HEADER..];
    assert b.ops + [] == b.ops;
  }

  /** Each operation goes in under the sequence number of its place in the batch. */
  lemma {:induction false} EntryAt(ops: seq<Op>, first: SequenceNumber, i: nat)
    requires i < |ops|
    ensures EntriesOf(ops, first)[i] == EntryOf(ops[i], first + i)
  {
    if i > 0 {
      EntryAt(ops[1..], first + 1, i - 1);
    }
  }
}
