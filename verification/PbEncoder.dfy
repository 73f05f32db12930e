// The encoder: every message and every submessage goes through a counting pass before the
// writing pass, and both count the same bytes.

module PbEncoder {
  import opened Keys
  import opened Coding
  import opened PbMessages

  /** Memory that is written to; a stream and its substreams share it. */
  class Sink {
    var bytes: Bytes

    constructor ()
      ensures bytes == []
    {
      bytes := [];
    }
  }

  /** A stream without a sink only counts. */
  class OStream {
    const sink: Sink?
    const maxSize: nat
    var bytesWritten: nat

    constructor (sink: Sink?, maxSize: nat)
      ensures this.sink == sink && this.maxSize == maxSize && bytesWritten == 0
    {
      this.sink, this.maxSize, bytesWritten := sink, maxSize, 0;
    }

    ghost function Frame(): set<object> {
      {this} + if sink == null then {} else {sink}
    }

    ghost function Contents(): Bytes
      reads this, sink
    {
      if sink == null then [] else sink.bytes
    }

    ghost predicate Room(n: nat)
      reads this
    {
      sink == null || bytesWritten + n <= maxSize
    }

    /** `bytes` were written since the stream had written `was` and the sink held `contents`. */
    ghost predicate Wrote(was: nat, contents: Bytes, bytes: Bytes)
      reads this, sink
    {
      bytesWritten == was + |bytes| && Contents() == if sink == null then [] else contents + bytes
    }

    method Write(buf: Bytes) returns (ok: bool)
      modifies Frame()
      ensures ok <==> old(Room(|buf|))
      ensures ok ==> Wrote(old(bytesWritten), old(Contents()), buf)
    {
      if sink != null {
        if bytesWritten + |buf| > maxSize {
          return false;
        }
        sink.bytes := sink.bytes + buf;
      }
      bytesWritten := bytesWritten + |buf|;
      return true;
    }

    /** Only counts. */
    method Skip(count: nat)
      requires sink == null
      modifies this
      ensures bytesWritten == old(bytesWritten) + count
    {
      bytesWritten := bytesWritten + count;
    }

    lemma {:induction false} WroteTwice(was: nat, contents: Bytes, a: Bytes, b: Bytes)
      requires Wrote(was + |a|, contents + a, b)
      ensures Wrote(was, contents, a + b)
    {
      assert contents + a + b == contents + (a + b);
    }
  }

  method VarintBytes(value: u64) returns (r: Bytes)
    ensures r == Varint(value)
  {
    if value <= 0x7f {
      return [value];
    }
    var left: nat := value;
    r := [];
    ghost var last: nat := value;
    while left > 0
      invariant left > 0 ==> r + Varint(left) == Varint(value)
      invariant left == 0 ==> |r| > 0 && r[|r| - 1] == last + 128 && last < 128 && r[..|r| - 1] + [last] == Varint(value)
    {
      ghost var before := r;
      last := left;
      r := r + [left % 128 + 128];
      left := left / 128;
      if left == 0 {
        assert r[..|r| - 1] == before;
      } else {
        assert r + Varint(left) == before + Varint(last);
      }
    }
    // The top bit of the last byte is taken off again.
    r := r[..|r| - 1] + [r[|r| - 1] - 128];
  }

  method EncodeVarint(stream: OStream, value: u64) returns (ok: bool)
    modifies stream.Frame()
    ensures ok <==> old(stream.Room(|Varint(value)|))
    ensures ok ==> stream.Wrote(old(stream.bytesWritten), old(stream.Contents()), Varint(value))
  {
    var buffer := VarintBytes(value);
    ok := stream.Write(buffer);
  }

  method EncodeSvarint(stream: OStream, value: int) returns (ok: bool)
    requires SignedFits(value, 8)
    modifies stream.Frame()
    ensures ok <==> old(stream.Room(|Varint(ZigZag(value))|))
    ensures ok ==> stream.Wrote(old(stream.bytesWritten), old(stream.Contents()), Varint(ZigZag(value)))
  {
    ZigZagRoundTrip(value);
    ok := EncodeVarint(stream, ZigZag(value));
  }

  method WriteTag(stream: OStream, w: WireType, tag: nat) returns (ok: bool)
    requires tag <= PB_SIZE_MAX
    modifies stream.Frame()
    ensures ok <==> old(stream.Room(|EncodeTag(w, tag)|))
    ensures ok ==> stream.Wrote(old(stream.bytesWritten), old(stream.Contents()), EncodeTag(w, tag))
  {
    ok := EncodeVarint(stream, tag * 8 + WireCode(w));
  }

  method EncodeString(stream: OStream, buffer: Bytes) returns (ok: bool)
    modifies stream.Frame()
    ensures ok <==> old(stream.Room(|Prefixed(buffer)|))
    ensures ok ==> stream.Wrote(old(stream.bytesWritten), old(stream.Contents()), Prefixed(buffer))
  {
    ghost var was, contents := stream.bytesWritten, stream.Contents();
    ok := EncodeVarint(stream, |buffer| % TWO_64);
    if !ok {
      return;
    }
    ok := stream.Write(buffer);
    if ok {
      stream.WroteTwice(was, contents, Varint(|buffer| % TWO_64), buffer);
    }
  }

  /** The length of a C string in a buffer of `max` bytes. */
  method StrLen(b: Bytes, max: nat) returns (size: nat)
    ensures size <= |b| && b[..size] == UpToNul(b, max)
  {
    hide UpToNul;
    size := 0;
    StringSplit(b, max, 0);
    while size < max && size < |b| && b[size] != 0
      invariant size <= |b| && size <= max
      invariant UpToNul(b, max) == b[..size] + UpToNul(b[size..], max - size)
    {
      StringSplit(b, max, size);
      size := size + 1;
    }
    StringSplit(b, max, size);
  }

  lemma {:induction false} StringSplit(b: Bytes, max: nat, k: nat)
    requires k <= |b| && k <= max
    ensures k == 0 ==> UpToNul(b, max) == b[..k] + UpToNul(b[k..], max - k)
    ensures k == max || k == |b| || b[k] == 0 ==> b[..k] + UpToNul(b[k..], max - k) == b[..k]
    ensures k < max && k < |b| && b[k] != 0 ==>
              b[..k] + UpToNul(b[k..], max - k) == b[..k + 1] + UpToNul(b[k + 1..], max - k - 1)
  {
    if k == 0 {
      assert b[k..] == b && b[..k] == [];
      assert [] + UpToNul(b, max) == UpToNul(b, max);
    }
    if k == max || k == |b| || b[k] == 0 {
      assert UpToNul(b[k..], max - k) == [];
      assert b[..k] + [] == b[..k];
    } else {
      assert b[k..][1..] == b[k + 1..];
      var rest := UpToNul(b[k + 1..], max - k - 1);
      assert UpToNul(b[k..], max - k) == [b[k]] + rest;
      assert b[..k] + ([b[k]] + rest) == b[..k + 1] + rest;
    }
  }

  // ----- values, fields, messages -----

  /** What a method that is to emit `bytes`, if there are any, does to a stream that had written `was`
      bytes and `contents`. */
  ghost predicate Emits(bytes: Option<Bytes>, ok: bool, stream: OStream, was: nat, contents: Bytes)
    reads stream, stream.sink
  {
    && (ok <==> bytes.Some? && (stream.sink == null || was + |bytes.value| <= stream.maxSize))
    && (ok && bytes.Some? ==> stream.Wrote(was, contents, bytes.value) && stream.Room(0))
  }

  method EncodeOne(stream: OStream, f: Field, v: Value) returns (ok: bool)
    requires ValueOk(f, v)
    requires stream.Room(0)
    modifies stream.Frame()
    ensures Emits(EncodeValue(f, v), ok, stream, old(stream.bytesWritten), old(stream.Contents()))
    decreases f, 1, 0
  {
    match f.ltype
    case VarintType => ok := EncodeVarint(stream, v.n % TWO_64);
    case UVarintType => ok := EncodeVarint(stream, v.n % TWO_64);
    case SVarintType =>
      Widens(v.n, f.dataSize);
      ok := EncodeSvarint(stream, v.n);
    case Fixed32Type => ok := stream.Write(Fixed(v.n % TWO_32, 4));
    case Fixed64Type => ok := stream.Write(Fixed(v.n % TWO_64, 8));
    case BytesType =>
      if |v.bytes| + BYTES_OFFSET > f.dataSize {
        return false;
      }
      ok := EncodeString(stream, v.bytes);
    case StringType =>
      var size := StrLen(v.bytes, f.dataSize);
      ok := EncodeString(stream, v.bytes[..size]);
    case FixedLengthBytesType => ok := EncodeString(stream, v.bytes);
    case SubmessageType => ok := EncodeSubmessage(stream, f.sub, v.msg);
  }

  /** The counting pass says how long the body is; the writing pass then writes exactly that much, so the
      check for a changed size never fires. */
  method EncodeSubmessage(stream: OStream, fields: seq<Field>, msg: seq<Slot>) returns (ok: bool)
    requires MessageOk(fields, msg)
    requires stream.Room(0)
    modifies stream.Frame()
    ensures var body := EncodeFrom(fields, msg, 0);
            var bytes := if body.Some? then Some(Prefixed(body.value)) else None;
            Emits(bytes, ok, stream, old(stream.bytesWritten), old(stream.Contents()))
    decreases fields, 1
  {
    ghost var was, contents, body := stream.bytesWritten, stream.Contents(), EncodeFrom(fields, msg, 0);
    var counting := new OStream(null, 0);
    ok := EncodeMessage(counting, fields, msg);
    if !ok {
      return;
    }
    var size := counting.bytesWritten;
    ok := EncodeVarint(stream, size % TWO_64);
    if !ok {
      return;
    }
    if stream.sink == null {
      stream.Skip(size);
      return true;
    }
    if stream.bytesWritten + size > stream.maxSize {
      return false;
    }
    var writing := new OStream(stream.sink, size);
    var status := EncodeMessage(writing, fields, msg);
    stream.bytesWritten := stream.bytesWritten + writing.bytesWritten;
    if writing.bytesWritten != size {
      assert false;
    }
    assert contents + Varint(size % TWO_64) + body.value == contents + Prefixed(body.value);
    return status;
  }

  method EncodeMessage(stream: OStream, fields: seq<Field>, msg: seq<Slot>) returns (ok: bool)
    requires MessageOk(fields, msg)
    requires stream.Room(0)
    modifies stream.Frame()
    ensures Emits(EncodeFrom(fields, msg, 0), ok, stream, old(stream.bytesWritten), old(stream.Contents()))
    decreases fields, 0
  {
    hide ValueOk, EncodeSlot, SlotOk, EncodeValue;
    NothingWritten(stream);
    ghost var was, contents, all := stream.bytesWritten, stream.Contents(), EncodeFrom(fields, msg, 0);
    ghost var done: Bytes := [];
    JoinedNothing(all);
    ok := true;
    for k := 0 to |fields|
      invariant stream.Wrote(was, contents, done)
      invariant stream.Room(0)
      invariant all == Joined(done, EncodeFrom(fields, msg, k))
    {
      ghost var slot, rest := EncodeSlot(fields[k], msg[k]), EncodeFrom(fields, msg, k + 1);
      JoinedTwice(done, slot, rest);
      var sent := EncodeField(stream, fields[k], msg[k]);
      if !sent {
        return false;
      }
      stream.WroteTwice(was, contents, done, slot.value);
      done := done + slot.value;
    }
    assert done + [] == done;
  }

  /** The bytes sent so far and the ones to come. */
  function Joined(done: Bytes, rest: Option<Bytes>): Option<Bytes> {
    if rest.Some? then Some(done + rest.value) else None
  }

  lemma {:induction false} JoinedNothing(rest: Option<Bytes>)
    ensures Joined([], rest) == rest
  {
    assert rest.Some? ==> [] + rest.value == rest.value;
  }

  lemma {:induction false} JoinedTwice(done: Bytes, first: Option<Bytes>, rest: Option<Bytes>)
    ensures Joined(done, Both(first, rest))
            == if first.Some? then Joined(done + first.value, rest) else None
  {
    if first.Some? && rest.Some? {
      assert done + (first.value + rest.value) == done + first.value + rest.value;
    }
  }

  method EncodeField(stream: OStream, f: Field, slot: Slot) returns (ok: bool)
    requires SlotOk(f, slot)
    requires stream.Room(0)
    modifies stream.Frame()
    ensures Emits(EncodeSlot(f, slot), ok, stream, old(stream.bytesWritten), old(stream.Contents()))
    decreases f, 3, 0
  {
    match slot
    case Single(has, value) =>
      if has || f.htype.Required? {
        ok := EncodeTagged(stream, f, value);
      } else {
        NothingWritten(stream);
        ok := true;
      }
    case Many(items) =>
      ok := EncodeArray(stream, f, items);
  }

  lemma {:induction false} NothingWritten(stream: OStream)
    ensures stream.Wrote(stream.bytesWritten, stream.Contents(), [])
  {
  }

  method EncodeTagged(stream: OStream, f: Field, v: Value) returns (ok: bool)
    requires ValueOk(f, v) && f.tag <= PB_SIZE_MAX
    requires stream.Room(0)
    modifies stream.Frame()
    ensures var value := EncodeValue(f, v);
            Emits(Tagged(f, value), ok, stream, old(stream.bytesWritten), old(stream.Contents()))
    decreases f, 2, 0
  {
    ghost var was, contents := stream.bytesWritten, stream.Contents();
    ok := WriteTag(stream, WireTypeOf(f.ltype), f.tag);
    if !ok {
      return;
    }
    ok := EncodeOne(stream, f, v);
    if ok {
      stream.WroteTwice(was, contents, TagFor(f), EncodeValue(f, v).value);
    }
  }

  /** Arrays of numbers are packed, the size first; arrays of anything else repeat the tag. */
  method EncodeArray(stream: OStream, f: Field, items: seq<Value>) returns (ok: bool)
    requires |items| <= PB_SIZE_MAX && forall i :: 0 <= i < |items| ==> ValueOk(f, items[i])
    requires f.tag <= PB_SIZE_MAX
    requires stream.Room(0)
    modifies stream.Frame()
    ensures Emits(EncodeSlot(f, Many(items)), ok, stream, old(stream.bytesWritten), old(stream.Contents()))
    decreases f, 2, 2
  {
    if |items| == 0 {
      NothingWritten(stream);
      return true;
    }
    if |items| > f.arraySize {
      return false;
    }
    if Packable(f.ltype) {
      ok := EncodePackedArray(stream, f, items);
    } else {
      ok := EncodeRepeatedly(stream, f, items);
    }
  }

  method EncodeRepeatedly(stream: OStream, f: Field, items: seq<Value>) returns (ok: bool)
    requires forall i :: 0 <= i < |items| ==> ValueOk(f, items[i])
    requires f.tag <= PB_SIZE_MAX
    requires stream.Room(0)
    modifies stream.Frame()
    ensures Emits(EncodeEach(f, items, 0), ok, stream, old(stream.bytesWritten), old(stream.Contents()))
    decreases f, 2, 1
  {
    hide ValueOk, EncodeValue, TagFor;
    NothingWritten(stream);
    ghost var was, contents, all := stream.bytesWritten, stream.Contents(), EncodeEach(f, items, 0);
    ghost var done: Bytes := [];
    JoinedNothing(all);
    ok := true;
    for i := 0 to |items|
      invariant stream.Wrote(was, contents, done) && stream.Room(0)
      invariant all == Joined(done, EncodeEach(f, items, i))
    {
      ghost var item := Tagged(f, EncodeValue(f, items[i]));
      JoinedTwice(done, item, EncodeEach(f, items, i + 1));
      var sent := EncodeTagged(stream, f, items[i]);
      if !sent {
        return false;
      }
      stream.WroteTwice(was, contents, done, item.value);
      done := done + item.value;
    }
    assert done + [] == done;
  }

  /** Fixed-width items take their width each. */
  lemma {:induction false} FixedSize(f: Field, items: seq<Value>, j: nat)
    requires (f.ltype.Fixed32Type? || f.ltype.Fixed64Type?) && j <= |items|
    requires forall i :: 0 <= i < |items| ==> items[i].Number?
    ensures EncodePacked(f, items, j).Some?
    ensures |EncodePacked(f, items, j).value| == (if f.ltype.Fixed32Type? then 4 else 8) * (|items| - j)
    decreases |items| - j
  {
    if j < |items| {
      FixedSize(f, items, j + 1);
    }
  }

  method EncodePackedArray(stream: OStream, f: Field, items: seq<Value>) returns (ok: bool)
    requires forall i :: 0 <= i < |items| ==> ValueOk(f, items[i])
    requires f.tag <= PB_SIZE_MAX && Packable(f.ltype)
    requires stream.Room(0)
    modifies stream.Frame()
    ensures var body := EncodePacked(f, items, 0);
            var bytes := if body.Some? then Some(EncodeTag(WtString, f.tag) + Prefixed(body.value)) else None;
            Emits(bytes, ok, stream, old(stream.bytesWritten), old(stream.Contents()))
    decreases f, 2, 1
  {
    hide ValueOk, EncodeValue, EncodeTag, Prefixed;
    ghost var was, contents, body := stream.bytesWritten, stream.Contents(), EncodePacked(f, items, 0);
    ok := WriteTag(stream, WtString, f.tag);
    if !ok {
      return;
    }
    var size;
    ok, size := PackedSize(f, items);
    if !ok {
      return;
    }
    ghost var tag, length := EncodeTag(WtString, f.tag), Varint(size % TWO_64);
    PrefixedIs(body.value);
    ok := EncodeVarint(stream, size % TWO_64);
    if !ok {
      return;
    }
    stream.WroteTwice(was, contents, tag, length);
    if stream.sink == null {
      stream.Skip(size);
      return true;
    }
    ok := WriteItems(stream, f, items);
    if ok {
      stream.WroteTwice(was, contents, tag + length, body.value);
      assert tag + length + body.value == tag + Prefixed(body.value);
    }
  }

  lemma {:induction false} PrefixedIs(body: Bytes)
    ensures Prefixed(body) == Varint(|body| % TWO_64) + body
  {
  }

  method PackedSize(f: Field, items: seq<Value>) returns (ok: bool, size: nat)
    requires forall i :: 0 <= i < |items| ==> ValueOk(f, items[i])
    requires f.tag <= PB_SIZE_MAX && Packable(f.ltype)
    ensures ok <==> EncodePacked(f, items, 0).Some?
    ensures ok ==> size == |EncodePacked(f, items, 0).value|
    decreases f, 2, 0
  {
    if f.ltype.Fixed32Type? {
      FixedSize(f, items, 0);
      return true, 4 * |items|;
    }
    if f.ltype.Fixed64Type? {
      FixedSize(f, items, 0);
      return true, 8 * |items|;
    }
    var counting := new OStream(null, 0);
    ok := WriteItems(counting, f, items);
    size := counting.bytesWritten;
  }

  method WriteItems(stream: OStream, f: Field, items: seq<Value>) returns (ok: bool)
    requires forall i :: 0 <= i < |items| ==> ValueOk(f, items[i])
    requires stream.Room(0)
    modifies stream.Frame()
    ensures Emits(EncodePacked(f, items, 0), ok, stream, old(stream.bytesWritten), old(stream.Contents()))
    decreases f, 1, 1
  {
    hide ValueOk, EncodeValue;
    NothingWritten(stream);
    ghost var was, contents, all := stream.bytesWritten, stream.Contents(), EncodePacked(f, items, 0);
    ghost var done: Bytes := [];
    JoinedNothing(all);
    ok := true;
    for i := 0 to |items|
      invariant stream.Wrote(was, contents, done) && stream.Room(0)
      invariant all == Joined(done, EncodePacked(f, items, i))
    {
      ghost var item := EncodeValue(f, items[i]);
      JoinedTwice(done, item, EncodePacked(f, items, i + 1));
      var sent := EncodeOne(stream, f, items[i]);
      if !sent {
        return false;
      }
      stream.WroteTwice(was, contents, done, item.value);
      done := done + item.value;
    }
    assert done + [] == done;
  }

  /** The size of a message is what encoding it would write. */
  method GetEncodedSize(fields: seq<Field>, msg: seq<Slot>) returns (ok: bool, size: nat)
    requires MessageOk(fields, msg)
    ensures ok <==> Encode(fields, msg).Some?
    ensures ok ==> size == |Encode(fields, msg).value|
  {
    var stream := new OStream(null, 0);
    ok := EncodeMessage(stream, fields, msg);
    size := stream.bytesWritten;
  }
}
