// The decoder: what it makes of any input, field by field, into a structure that already
// holds something.

module PbDecoder {
  import opened Keys
  import opened Coding
  import opened PbMessages

  const MAX_REQUIRED_FIELDS: nat := 64

  // ----- required fields -----

  /** A 32-bit word by its bits, the lowest first. */
  type Word = w: seq<bool> | |w| == 32 witness [false, false, false, false, false, false, false, false,
                                                 false, false, false, false, false, false, false, false,
                                                 false, false, false, false, false, false, false, false,
                                                 false, false, false, false, false, false, false, false]

  /** What the machine makes of two things the language leaves open: a 32-bit word shifted by 32, and the
      word that lies beyond the two that note which required fields were seen. */
  datatype Machine = Machine(allShiftedBy32: Word, beyondSeen: Word)

  function Bits(n: nat, value: bool): (r: seq<bool>)
    ensures |r| == n
    ensures forall i :: 0 <= i < n ==> r[i] == value
  {
    if n == 0 then [] else Bits(n - 1, value) + [value]
  }

  /** All bits, shifted right by `n`. */
  function AllShiftedRight(m: Machine, n: nat): Word
    requires n <= 32
  {
    if n == 32 then m.allShiftedBy32 else Bits(32 - n, true) + Bits(n, false)
  }

  /** The words in which required fields are ticked off. */
  datatype Seen = Seen(low: Word, high: Word)

  const NONE_SEEN: Seen := Seen(Bits(32, false), Bits(32, false))

  function Tick(seen: Seen, index: nat): Seen {
    if index >= MAX_REQUIRED_FIELDS then seen
    else if index < 32 then seen.(low := seen.low[index := true])
    else seen.(high := seen.high[index - 32 := true])
  }

  predicate Ticked(seen: Seen, index: nat) {
    if index < 32 then seen.low[index] else index < MAX_REQUIRED_FIELDS && seen.high[index - 32]
  }

  function SeenWord(m: Machine, seen: Seen, i: nat): Word {
    if i == 0 then seen.low else if i == 1 then seen.high else m.beyondSeen
  }

  /** Whole words first, then the remaining bits. */
  predicate AllPresent(m: Machine, seen: Seen, count: nat) {
    count == 0
    || ((forall i: nat :: i < count / 32 ==> SeenWord(m, seen, i) == Bits(32, true))
        && SeenWord(m, seen, count / 32) == AllShiftedRight(m, 32 - count % 32))
  }

  function RequiredCount(fields: seq<Field>, n: nat): (count: nat)
    requires n <= |fields|
  {
    if n == 0 then 0 else RequiredCount(fields, n - 1) + if fields[n - 1].htype.Required? then 1 else 0
  }

  // ----- defaults -----

  function DefaultValue(f: Field): Value
    decreases f, 1
  {
    if f.ltype.SubmessageType? then Sub(DefaultFrom(f.sub, 0)) else f.dflt
  }

  /** Cleared has-flags, empty arrays, no oneof chosen. */
  function DefaultSlot(f: Field): Slot
    decreases f, 2
  {
    if f.htype.Repeated? then Many([]) else Single(f.htype.Required?, DefaultValue(f))
  }

  function DefaultFrom(fields: seq<Field>, k: nat): (r: seq<Slot>)
    ensures |r| == if k <= |fields| then |fields| - k else 0
    decreases fields, 0, |fields| - k
  {
    if k >= |fields| then [] else [DefaultSlot(fields[k])] + DefaultFrom(fields, k + 1)
  }

  // ----- the wire -----

  datatype TagRead = Tag(wire: nat, tag: nat, rest: Bytes) | End(rest: Bytes) | NoTag

  /** A zero tag ends a message, and so does a tag the input runs out in. */
  function ReadTag(input: Bytes): (r: TagRead)
    ensures r.Tag? ==> |r.rest| < |input|
    ensures r.End? ==> |r.rest| <= |input|
  {
    match GetVarint32(input)
    case None => if |input| <= 5 then End([]) else NoTag
    case Some(p) => if p.0 == 0 then End(p.1) else Tag(p.0 % 8, p.0 / 8, p.1)
  }

  function SkipVarint(input: Bytes): (r: Option<Bytes>)
    ensures r.Some? ==> |r.value| < |input|
  {
    if input == [] then None else if input[0] < 128 then Some(input[1..]) else SkipVarint(input[1..])
  }

  function SkipBytes(input: Bytes, n: nat): (r: Option<Bytes>)
    ensures r.Some? ==> |r.value| + n == |input|
  {
    if |input| < n then None else Some(input[n..])
  }

  function SkipField(wire: nat, input: Bytes): (r: Option<Bytes>)
    ensures r.Some? ==> |r.value| <= |input|
  {
    if wire == 0 then SkipVarint(input)
    else if wire == 1 then SkipBytes(input, 8)
    else if wire == 2 then
      match GetVarint32(input)
      case None => None
      case Some(p) => SkipBytes(p.1, p.0)
    else if wire == 5 then SkipBytes(input, 4)
    else None
  }

  /** A length and that many bytes. */
  function Substream(input: Bytes): (r: Option<(Bytes, Bytes)>)
    ensures r.Some? ==> |r.value.0| + |r.value.1| < |input|
  {
    match GetVarint32(input)
    case None => None
    case Some(p) => if |p.1| < p.0 then None else Some((p.1[..p.0], p.1[p.0..]))
  }

  /** Where in the descriptors a tag is. */
  function FindField(fields: seq<Field>, tag: nat, k: nat): (r: Option<nat>)
    ensures r.Some? ==> k <= r.value < |fields| && fields[r.value].tag == tag
    decreases |fields| - k
  {
    if k >= |fields| then None
    else if fields[k].tag == tag then Some(k)
    else FindField(fields, tag, k + 1)
  }

  // ----- values -----

  function Clamp(n: int, clamped: int, rest: Bytes): Option<(Value, Bytes)> {
    if clamped != n then None else Some((Number(n), rest))
  }

  function DecodeNumber(f: Field, input: Bytes): (r: Option<(Value, Bytes)>)
    requires Packable(f.ltype)
    ensures r.Some? ==> |r.value.1| < |input|
  {
    if f.ltype.Fixed32Type? then
      if |input| < 4 then None else Some((Number(FixedValue(input[..4])), input[4..]))
    else if f.ltype.Fixed64Type? then
      if |input| < 8 then None else Some((Number(FixedValue(input[..8])), input[8..]))
    else
      match GetVarint64(input)
      case None => None
      case Some(p) =>
        if !IntSize(f.dataSize) then None
        else if f.ltype.UVarintType? then Clamp(p.0, p.0 % Pow2Bytes(f.dataSize), p.1)
        else
          // Negative numbers of up to 32 bits may have been written as 32-bit ones.
          var n := if f.ltype.SVarintType? then UnZigZag(p.0)
                   else if f.dataSize == 8 then CastSigned(p.0, 8) else CastSigned(p.0, 4);
          Clamp(n, CastSigned(n, f.dataSize), p.1)
  }

  function DecodeBlob(f: Field, input: Bytes): (r: Option<(Value, Bytes)>)
    requires f.ltype.BytesType? || f.ltype.StringType? || f.ltype.FixedLengthBytesType?
    ensures r.Some? ==> |r.value.1| < |input|
  {
    match GetVarint32(input)
    case None => None
    case Some(p) =>
      var size, rest := p.0, p.1;
      match f.ltype
      case BytesType =>
        if size + BYTES_OFFSET > f.dataSize || |rest| < size then None else Some((Blob(rest[..size]), rest[size..]))
      case StringType =>
        if size + 1 > f.dataSize || |rest| < size then None
        else Some((Blob(UpToNul(rest[..size], f.dataSize)), rest[size..]))
      case _ =>
        if size == 0 then Some((Blob(Zeros(f.dataSize)), rest))
        else if size != f.dataSize || |rest| < size then None
        else Some((Blob(rest[..size]), rest[size..]))
  }

  /** The structure a submessage is read into. */
  function StartOf(f: Field, before: Value): (r: seq<Slot>)
    ensures |r| == |f.sub|
  {
    if f.htype.Repeated? || !before.Sub? || |before.msg| != |f.sub| then DefaultFrom(f.sub, 0) else before.msg
  }

  /** One value, into a place that holds `before`: a submessage that is not an array item is merged into
      what is there. */
  function DecodeValue(m: Machine, f: Field, input: Bytes, before: Value): (r: Option<(Value, Bytes)>)
    ensures r.Some? ==> |r.value.1| < |input|
    decreases f, 1, |input|
  {
    if Packable(f.ltype) then DecodeNumber(f, input)
    else if !f.ltype.SubmessageType? then DecodeBlob(f, input)
    else
      match Substream(input)
      case None => None
      case Some(p) =>
        match DecodeMessage(m, f.sub, p.0, StartOf(f, before))
        case None => None
        case Some(q) => Some((Sub(q.0), p.1))
  }

  // ----- fields -----

  /** The items of a packed array, into an array of which `items` are filled. */
  function DecodePacked(f: Field, body: Bytes, items: seq<Value>): Option<seq<Value>>
    requires Packable(f.ltype)
    decreases |body|
  {
    if body == [] then Some(items)
    else if |items| >= f.arraySize then None
    else
      match DecodeNumber(f, body)
      case None => None
      case Some(p) => DecodePacked(f, p.1, items + [p.0])
  }

  /** Choosing a member of a oneof unchooses the others. */
  function Choose(fields: seq<Field>, msg: seq<Slot>, i: nat, v: Value, k: nat): (r: seq<Slot>)
    requires |msg| == |fields| && i < |fields|
    ensures |r| == if k <= |fields| then |fields| - k else 0
    decreases |fields| - k
  {
    if k >= |fields| then []
    else
      [if k == i then Single(true, v)
       else if fields[k].htype.OneOf? && fields[k].union == fields[i].union then DefaultSlot(fields[k])
       else msg[k]] + Choose(fields, msg, i, v, k + 1)
  }

  function DecodeField(m: Machine, fields: seq<Field>, i: nat, wire: nat, input: Bytes, msg: seq<Slot>)
    : (r: Option<(seq<Slot>, Bytes)>)
    requires i < |fields| && |msg| == |fields|
    ensures r.Some? ==> |r.value.1| < |input| && |r.value.0| == |fields|
    decreases fields, 0, |input|
  {
    var f := fields[i];
    match f.htype
    case Required => Into(msg, i, DecodeValue(m, f, input, Held(f, msg[i])), true)
    case Optional => Into(msg, i, DecodeValue(m, f, input, Held(f, msg[i])), true)
    case OneOf =>
      (match DecodeValue(m, f, input, DefaultValue(f))
       case None => None
       case Some(p) => Some((Choose(fields, msg, i, p.0, 0), p.1)))
    case Repeated =>
      var items := Items(msg[i]);
      if wire == 2 && Packable(f.ltype) then
        match Substream(input)
        case None => None
        case Some(p) =>
          match DecodePacked(f, p.0, items)
          case None => None
          case Some(more) => Some((msg[i := Many(more)], p.1))
      else if |items| >= f.arraySize then None
      else
        match DecodeValue(m, f, input, DefaultValue(f))
        case None => None
        case Some(p) => Some((msg[i := Many(items + [p.0])], p.1))
  }

  function Held(f: Field, slot: Slot): Value {
    if slot.Single? then slot.value else DefaultValue(f)
  }

  function Items(slot: Slot): seq<Value> {
    if slot.Many? then slot.items else []
  }

  function Into(msg: seq<Slot>, i: nat, r: Option<(Value, Bytes)>, has: bool): Option<(seq<Slot>, Bytes)>
    requires i < |msg|
  {
    if r.None? then None else Some((msg[i := Single(has, r.value.0)], r.value.1))
  }

  // ----- messages -----

  datatype Looped = Looped(msg: seq<Slot>, rest: Bytes, seen: Seen) | Failed

  /** Field after field, in whatever order they come; unknown ones are skipped. */
  function DecodeLoop(m: Machine, fields: seq<Field>, input: Bytes, msg: seq<Slot>, seen: Seen): (r: Looped)
    requires |msg| == |fields|
    ensures r.Looped? ==> |r.msg| == |fields|
    decreases fields, 1, |input|
  {
    if input == [] then Looped(msg, [], seen)
    else
      match ReadTag(input)
      case NoTag => Failed
      case End(rest) => Looped(msg, rest, seen)
      case Tag(wire, tag, rest) =>
        match FindField(fields, tag, 0)
        case None =>
          // The terminator of an empty descriptor list has tag 0, and no type that can be decoded.
          if fields == [] && tag == 0 then Failed
          else
            (match SkipField(wire, rest)
             case None => Failed
             case Some(more) => DecodeLoop(m, fields, more, msg, seen))
        case Some(i) =>
          var ticked := if fields[i].htype.Required? then Tick(seen, RequiredCount(fields, i)) else seen;
          match DecodeField(m, fields, i, wire, rest, msg)
          case None => Failed
          case Some(p) => DecodeLoop(m, fields, p.1, p.0, ticked)
  }

  function DecodeMessage(m: Machine, fields: seq<Field>, input: Bytes, msg: seq<Slot>): (r: Option<(seq<Slot>, Bytes)>)
    requires |msg| == |fields|
    ensures r.Some? ==> |r.value.0| == |fields|
    decreases fields, 2, |input|
  {
    match DecodeLoop(m, fields, input, msg, NONE_SEEN)
    case Failed => None
    case Looped(after, rest, seen) =>
      if AllPresent(m, seen, RequiredCount(fields, |fields|)) then Some((after, rest)) else None
  }

  function Decode(m: Machine, fields: seq<Field>, input: Bytes): Option<(seq<Slot>, Bytes)> {
    DecodeMessage(m, fields, input, DefaultFrom(fields, 0))
  }

  // ----- when the check for required fields does what it is for -----

  lemma {:induction false} WordIs(w: Word, k: nat)
    requires k < 32
    ensures w == Bits(k, true) + Bits(32 - k, false) <==> (forall i :: 0 <= i < 32 ==> w[i] == (i < k))
    ensures w == Bits(32, true) <==> forall i :: 0 <= i < 32 ==> w[i]
  {
    var mask := Bits(k, true) + Bits(32 - k, false);
    forall i | 0 <= i < 32
      ensures mask[i] == (i < k)
    {
      assert i >= k ==> mask[i] == Bits(32 - k, false)[i - k];
    }
    assert w == mask <==> forall i :: 0 <= i < 32 ==> w[i] == mask[i];
  }

  /** Only required fields of the message are ever ticked. */
  ghost predicate TickedWithin(seen: Seen, count: nat) {
    forall i: nat :: count <= i < MAX_REQUIRED_FIELDS ==> !Ticked(seen, i)
  }

  /** With up to 63 required fields the check passes exactly when all were seen, except with 32 of them:
      there it hangs on a shift by the whole width of a word, and the check also needs the machine to make
      that zero. */
  lemma {:induction false} RequiredCheckIs(m: Machine, seen: Seen, count: nat)
    requires count < MAX_REQUIRED_FIELDS && TickedWithin(seen, count)
    ensures AllPresent(m, seen, count)
            <==> (forall i: nat :: i < count ==> Ticked(seen, i)) && (count == 32 ==> m.allShiftedBy32 == Bits(32, false))
  {
    hide Bits;
    if 0 < count < 32 {
      WordIs(seen.low, count);
      assert forall i: nat :: i < 32 ==> (Ticked(seen, i) <==> seen.low[i]);
    } else if count == 32 {
      WordIs(seen.low, 0);
      assert forall i: nat :: i < 32 ==> (Ticked(seen, i) <==> seen.low[i]);
      forall i: nat | i < 32
        ensures !seen.high[i]
      {
        assert !Ticked(seen, i + 32);
      }
      NoBits(seen.high);
      OneWord(m, seen);
    } else if count > 32 {
      WordIs(seen.low, 0);
      WordIs(seen.high, count - 32);
      HighWord(seen, count);
      TwoWords(m, seen, count);
      assert forall i: nat :: i < 32 ==> (Ticked(seen, i) <==> seen.low[i]);
    }
  }

  lemma {:induction false} OneWord(m: Machine, seen: Seen)
    ensures AllPresent(m, seen, 32) <==> seen.low == Bits(32, true) && seen.high == m.allShiftedBy32
  {
    hide Bits;
    assert SeenWord(m, seen, 0) == seen.low;
  }

  lemma {:induction false} TwoWords(m: Machine, seen: Seen, count: nat)
    requires 32 < count < MAX_REQUIRED_FIELDS
    ensures AllPresent(m, seen, count)
            <==> seen.low == Bits(32, true) && seen.high == Bits(count - 32, true) + Bits(32 - (count - 32), false)
  {
    hide Bits;
    assert count / 32 == 1 && count % 32 == count - 32;
    assert SeenWord(m, seen, 0) == seen.low;
  }

  lemma {:induction false} HighWord(seen: Seen, count: nat)
    requires 32 < count < MAX_REQUIRED_FIELDS && TickedWithin(seen, count)
    ensures (forall i :: 0 <= i < 32 ==> seen.high[i] == (i < count - 32))
            <==> forall i: nat :: 32 <= i < count ==> Ticked(seen, i)
  {
    forall i: nat | 32 <= i < 64
      ensures Ticked(seen, i) == seen.high[i - 32]
    {
    }
    if forall i: nat :: 32 <= i < count ==> Ticked(seen, i) {
      forall i: nat | i < 32
        ensures seen.high[i] == (i < count - 32)
      {
        assert Ticked(seen, i + 32) == seen.high[i];
      }
    }
  }

  lemma {:induction false} NoBits(w: Word)
    requires forall i :: 0 <= i < 32 ==> !w[i]
    ensures w == Bits(32, false)
  {
  }

  /** On a machine where a shift by 32 changes nothing, a complete message with 32 required fields is refused. */
  lemma {:induction false} CompleteMessageRefused(m: Machine, seen: Seen)
    requires m.allShiftedBy32 == Bits(32, true) && TickedWithin(seen, 32)
    requires forall i: nat :: i < 32 ==> Ticked(seen, i)
    ensures !AllPresent(m, seen, 32)
  {
    RequiredCheckIs(m, seen, 32);
    assert Bits(32, true)[0] != Bits(32, false)[0];
  }
}
