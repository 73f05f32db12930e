// The decoder as it runs: streams with limits over one buffer, an iterator over the fields,
// and a structure filled in place.

module PbReader {
  import opened Keys
  import opened Coding
  import opened PbMessages
  import opened PbDecoder
  import opened PbFieldIter

  lemma {:induction false} ParseStep(input: Bytes, count: nat, limit: nat)
    requires count <= |input| && count <= limit
    ensures count == |input| || count == limit ==> ParseVarint(input[count..], limit - count) == None
    ensures count < |input| && count < limit ==>
              var rest := ParseVarint(input[count + 1..], limit - count - 1);
              ParseVarint(input[count..], limit - count)
              == if input[count] < 128 then Some((input[count], 1))
                 else if rest.None? then None else Some((input[count] - 128 + 128 * rest.value.0, 1 + rest.value.1))
  {
    if count < |input| {
      assert input[count..][1..] == input[count + 1..];
    }
  }

  /** A stream reads `bytesLeft` bytes from `pos` on; substreams share the buffer. */
  class IStream {
    const buffer: Bytes
    var pos: nat
    var bytesLeft: nat

    ghost predicate Valid()
      reads this
    {
      pos + bytesLeft <= |buffer|
    }

    ghost function Rest(): (r: Bytes)
      requires Valid()
      reads this
      ensures |r| == bytesLeft
    {
      buffer[pos..pos + bytesLeft]
    }

    /** Where the stream's limit is; reading does not move it. */
    ghost function Limit(): nat
      reads this
    {
      pos + bytesLeft
    }

    constructor (buffer: Bytes)
      ensures Valid() && this.buffer == buffer && Rest() == buffer
    {
      this.buffer, pos, bytesLeft := buffer, 0, |buffer|;
    }

    constructor Part(parent: IStream, size: nat)
      requires parent.Valid() && size <= parent.bytesLeft
      ensures Valid() && buffer == parent.buffer && pos == parent.pos && bytesLeft == size
    {
      buffer, pos, bytesLeft := parent.buffer, parent.pos, size;
    }

    method Read(count: nat) returns (ok: bool, bytes: Bytes)
      requires Valid()
      modifies this
      ensures Valid() && Limit() == old(Limit()) && ok == (old(bytesLeft) >= count)
      ensures ok ==> bytes == old(Rest())[..count] && Rest() == old(Rest())[count..]
      ensures !ok ==> Rest() == old(Rest())
    {
      if bytesLeft < count {
        return false, [];
      }
      bytes := buffer[pos..pos + count];
      pos, bytesLeft := pos + count, bytesLeft - count;
      ok := true;
    }

    method ReadByte() returns (ok: bool, b: byte)
      requires Valid()
      modifies this
      ensures Valid() && Limit() == old(Limit()) && ok == (old(bytesLeft) > 0)
      ensures ok ==> b == old(Rest())[0] && Rest() == old(Rest())[1..]
      ensures !ok ==> Rest() == old(Rest())
    {
      if bytesLeft == 0 {
        return false, 0;
      }
      b := buffer[pos];
      pos, bytesLeft := pos + 1, bytesLeft - 1;
      ok := true;
    }

    /** Group by group, seven bits further up each time; bits beyond the register are lost, and a group that
        would start beyond it is an error. */
    method DecodeVarintLoop(bits: nat, limit: nat, modulus: nat) returns (ok: bool, value: nat)
      requires Valid() && limit > 0 && modulus > 0 && 7 * (limit - 1) < bits <= 7 * limit
      modifies this
      ensures Valid() && Limit() == old(Limit())
      ensures ok == ReadVarint(old(Rest()), limit, modulus).Some?
      ensures ok ==> value == ReadVarint(old(Rest()), limit, modulus).value.0
                     && Rest() == old(Rest())[ReadVarint(old(Rest()), limit, modulus).value.1..]
      ensures !ok ==> (bytesLeft == 0 <==> |old(Rest())| <= limit)
    {
      hide Resumed, Cut, ParseVarint, GroupAt;
      ghost var input := Rest();
      var result: nat, scale: nat, bitpos: nat := 0, 1, 0;
      ghost var exact: nat, count: nat := 0, 0;
      AddModulo(0, 0, modulus);
      ResumeEnds(0, 1, 0, ParseVarint(input, limit));
      while true
        invariant Valid() && Limit() == old(Limit()) && count <= limit && bitpos == 7 * count
        invariant count <= |input| && Rest() == input[count..]
        invariant result == Cut(exact, modulus)
        invariant ParseVarint(input, limit) == Resumed(exact, scale, count, ParseVarint(input[count..], limit - count))
        decreases limit - count
      {
        ParseStep(input, count, limit);
        if bitpos >= bits {
          ResumeEnds(exact, scale, count, None);
          return false, 0;
        }
        var more, b := ReadByte();
        if !more {
          ResumeEnds(exact, scale, count, None);
          return false, 0;
        }
        var group := GroupAt(b, scale);
        AddModulo(exact, group, modulus);
        result := Cut(result + group, modulus);
        bitpos := bitpos + 7;
        if b < 128 {
          ResumeEnds(exact, scale, count, Some((b, 1)));
          return true, result;
        }
        ResumeStep(exact, scale, count, b, ParseVarint(input[count + 1..], limit - count - 1));
        exact, scale, count := exact + group, 128 * scale, count + 1;
      }
    }

    method DecodeVarint32() returns (ok: bool, value: nat)
      requires Valid()
      modifies this
      ensures Valid() && Limit() == old(Limit()) && ok == GetVarint32(old(Rest())).Some?
      ensures ok ==> (value, Rest()) == GetVarint32(old(Rest())).value && value < TWO_32
      ensures !ok ==> (bytesLeft == 0 <==> |old(Rest())| <= 5)
    {
      ok, value := DecodeVarintLoop(32, 5, TWO_32);
    }

    method DecodeVarint() returns (ok: bool, value: nat)
      requires Valid()
      modifies this
      ensures Valid() && Limit() == old(Limit()) && ok == GetVarint64(old(Rest())).Some?
      ensures ok ==> (value, Rest()) == GetVarint64(old(Rest())).value && value < TWO_64
    {
      ok, value := DecodeVarintLoop(64, 10, TWO_64);
    }

    method SkipVarintBytes() returns (ok: bool)
      requires Valid()
      modifies this
      ensures Valid() && Limit() == old(Limit()) && ok == SkipVarint(old(Rest())).Some?
      ensures ok ==> Rest() == SkipVarint(old(Rest())).value
    {
      while true
        invariant Valid() && Limit() == old(Limit()) && SkipVarint(Rest()) == SkipVarint(old(Rest()))
        decreases bytesLeft
      {
        var more, b := ReadByte();
        if !more {
          return false;
        }
        if b < 128 {
          return true;
        }
      }
    }

    method SkipWire(wire: nat) returns (ok: bool)
      requires Valid()
      modifies this
      ensures Valid() && Limit() == old(Limit()) && ok == SkipField(wire, old(Rest())).Some?
      ensures ok ==> Rest() == SkipField(wire, old(Rest())).value
    {
      var dropped;
      if wire == 0 {
        ok := SkipVarintBytes();
      } else if wire == 1 {
        ok, dropped := Read(8);
      } else if wire == 2 {
        var size;
        ok, size := DecodeVarint32();
        if ok {
          ok, dropped := Read(size);
        }
      } else if wire == 5 {
        ok, dropped := Read(4);
      } else {
        ok := false;
      }
    }

    method DecodeTag() returns (ok: bool, wire: nat, tag: nat, eof: bool)
      requires Valid()
      modifies this
      ensures Valid() && Limit() == old(Limit())
      ensures match ReadTag(old(Rest()))
              case Tag(w, t, rest) => ok && wire == w && tag == t && Rest() == rest
              case End(rest) => !ok && eof && Rest() == rest
              case NoTag => !ok && !eof
    {
      eof, wire, tag := false, 0, 0;
      var temp;
      ok, temp := DecodeVarint32();
      if !ok {
        if bytesLeft == 0 {
          eof := true;
        }
        return;
      }
      if temp == 0 {
        eof := true;
        ok := false;
        return;
      }
      tag, wire := temp / 8, temp % 8;
    }

    /** The bytes after the substream are what is left of the parent, once it is closed. */
    method MakeSubstream() returns (ok: bool, part: IStream)
      requires Valid()
      modifies this
      ensures ok == Substream(old(Rest())).Some?
      ensures Limit() <= old(Limit()) && (ok ==> part != this && part.Limit() + bytesLeft == old(Limit()))
      ensures ok ==> fresh(part) && part.Valid() && part.buffer == buffer
                     && part.pos + part.bytesLeft + bytesLeft <= |buffer|
                     && (part.Rest(), buffer[part.pos + part.bytesLeft..part.pos + part.bytesLeft + bytesLeft])
                        == Substream(old(Rest())).value
      ensures !ok ==> Valid()
    {
      part := this;
      var size;
      ok, size := DecodeVarint32();
      if !ok {
        return;
      }
      if bytesLeft < size {
        return false, this;
      }
      part := new IStream.Part(this, size);
      ghost var rest := Rest();
      assert rest[..size] == buffer[pos..pos + size] && rest[size..] == buffer[pos + size..pos + bytesLeft];
      bytesLeft := bytesLeft - size;
    }

    /** Skips what the substream has left. */
    method CloseSubstream(part: IStream)
      requires part != this && part.Valid() && part.buffer == buffer && part.Limit() + bytesLeft <= |buffer|
      modifies this, part
      ensures Valid() && pos == old(part.Limit()) && bytesLeft == old(bytesLeft)
    {
      if part.bytesLeft > 0 {
        var ok, dropped := part.Read(part.bytesLeft);
      }
      pos := part.pos;
    }
  }

  // ----- values -----

  method DecodeNumberValue(f: Field, stream: IStream) returns (ok: bool, v: Value)
    requires stream.Valid() && Packable(f.ltype)
    modifies stream
    ensures stream.Valid() && stream.Limit() == old(stream.Limit())
    ensures ok == DecodeNumber(f, old(stream.Rest())).Some?
    ensures ok ==> (v, stream.Rest()) == DecodeNumber(f, old(stream.Rest())).value
  {
    v := Number(0);
    if f.ltype.Fixed32Type? {
      var bytes;
      ok, bytes := stream.Read(4);
      if ok { v := Number(FixedValue(bytes)); }
      return;
    }
    if f.ltype.Fixed64Type? {
      var bytes;
      ok, bytes := stream.Read(8);
      if ok { v := Number(FixedValue(bytes)); }
      return;
    }
    var value;
    ok, value := stream.DecodeVarint();
    if !ok {
      return;
    }
    if !IntSize(f.dataSize) {
      return false, v;
    }
    var n: int, clamped: int := value, 0;
    if f.ltype.UVarintType? {
      clamped := value % Pow2Bytes(f.dataSize);
    } else {
      if f.ltype.SVarintType? {
        n := UnZigZag(value);
      } else if f.dataSize == 8 {
        n := CastSigned(value, 8);
      } else {
        n := CastSigned(value, 4);
      }
      clamped := CastSigned(n, f.dataSize);
    }
    if clamped != n {
      return false, v;
    }
    v := Number(clamped);
  }

  method DecodeBlobValue(f: Field, stream: IStream) returns (ok: bool, v: Value)
    requires stream.Valid() && (f.ltype.BytesType? || f.ltype.StringType? || f.ltype.FixedLengthBytesType?)
    modifies stream
    ensures stream.Valid() && stream.Limit() == old(stream.Limit())
    ensures ok == DecodeBlob(f, old(stream.Rest())).Some?
    ensures ok ==> (v, stream.Rest()) == DecodeBlob(f, old(stream.Rest())).value
  {
    v := Blob([]);
    var size, bytes;
    ok, size := stream.DecodeVarint32();
    if !ok {
      return;
    }
    if f.ltype.BytesType? {
      if size + BYTES_OFFSET > f.dataSize {
        return false, v;
      }
      ok, bytes := stream.Read(size);
    } else if f.ltype.StringType? {
      if size + 1 > f.dataSize {
        return false, v;
      }
      ok, bytes := stream.Read(size);
      bytes := UpToNul(bytes, f.dataSize);
    } else {
      if size == 0 {
        return true, Blob(Zeros(f.dataSize));
      }
      if size != f.dataSize {
        return false, v;
      }
      ok, bytes := stream.Read(f.dataSize);
    }
    v := Blob(bytes);
  }

  /** Tags are told apart, at every depth. */
  ghost predicate TagsOk(fields: seq<Field>)
    decreases fields
  {
    && (forall i, j :: 0 <= i < j < |fields| ==> fields[i].tag != fields[j].tag)
    && (forall i :: 0 <= i < |fields| ==> SubTagsOk(fields[i]))
  }

  ghost predicate SubTagsOk(f: Field)
    decreases f
  {
    f.ltype.SubmessageType? ==> TagsOk(f.sub)
  }

  /** `before` is what the place holds already. */
  method DecodeOne(m: Machine, f: Field, stream: IStream, before: Value) returns (ok: bool, v: Value)
    requires stream.Valid() && SubTagsOk(f)
    modifies stream
    ensures stream.Valid() && stream.Limit() <= old(stream.Limit()) && (ok ==> stream.Limit() == old(stream.Limit()))
    ensures ok == DecodeValue(m, f, old(stream.Rest()), before).Some?
    ensures ok ==> (v, stream.Rest()) == DecodeValue(m, f, old(stream.Rest()), before).value
    decreases f, 1
  {
    hide DecodeNumber, DecodeBlob, Substream, SubTagsOk;
    if Packable(f.ltype) {
      ok, v := DecodeNumberValue(f, stream);
    } else if !f.ltype.SubmessageType? {
      ok, v := DecodeBlobValue(f, stream);
    } else {
      ok, v := DecodeSubmessage(m, f, stream, before);
    }
  }

  method DecodeSubmessage(m: Machine, f: Field, stream: IStream, before: Value) returns (ok: bool, v: Value)
    requires stream.Valid() && SubTagsOk(f) && f.ltype.SubmessageType?
    modifies stream
    ensures stream.Valid() && stream.Limit() <= old(stream.Limit()) && (ok ==> stream.Limit() == old(stream.Limit()))
    ensures ok == DecodeValue(m, f, old(stream.Rest()), before).Some?
    ensures ok ==> (v, stream.Rest()) == DecodeValue(m, f, old(stream.Rest()), before).value
    decreases f, 0
  {
    hide Substream, DecodeMessage, TagsOk;
    v := before;
    var part;
    ok, part := stream.MakeSubstream();
    if !ok {
      return;
    }
    var start := if f.htype.Repeated? || !before.Sub? || |before.msg| != |f.sub| then DefaultFrom(f.sub, 0) else before.msg;
    var msg;
    ok, msg := DecodeNoinit(m, f.sub, part, start);
    stream.CloseSubstream(part);
    v := Sub(msg);
  }

  // ----- fields -----

  method DecodePackedArray(f: Field, stream: IStream, items: seq<Value>) returns (ok: bool, more: seq<Value>)
    requires stream.Valid() && Packable(f.ltype)
    modifies stream
    ensures stream.Valid() && stream.Limit() <= old(stream.Limit()) && (ok ==> stream.Limit() == old(stream.Limit()))
    ensures match Substream(old(stream.Rest()))
            case None => !ok
            case Some(p) =>
              && ok == DecodePacked(f, p.0, items).Some?
              && (ok ==> more == DecodePacked(f, p.0, items).value && stream.Rest() == p.1)
  {
    hide Substream, DecodeNumber;
    more := items;
    var part;
    ok, part := stream.MakeSubstream();
    if !ok {
      return;
    }
    var status := true;
    ghost var body, limit := part.Rest(), part.Limit();
    while part.bytesLeft > 0 && |more| < f.arraySize
      invariant part.Valid() && part.Limit() == limit && status
      invariant DecodePacked(f, part.Rest(), more) == DecodePacked(f, body, items)
      modifies part
      decreases part.bytesLeft
    {
      var v;
      status, v := DecodeNumberValue(f, part);
      if !status {
        break;
      }
      more := more + [v];
    }
    if part.bytesLeft != 0 {
      return false, more;
    }
    stream.CloseSubstream(part);
    ok := status;
  }

  method DecodeStaticField(m: Machine, fields: seq<Field>, i: nat, wire: nat, stream: IStream, msg: seq<Slot>)
    returns (ok: bool, after: seq<Slot>)
    requires stream.Valid() && |msg| == |fields| && i < |fields| && TagsOk(fields)
    modifies stream
    ensures stream.Valid() && stream.Limit() <= old(stream.Limit()) && (ok ==> stream.Limit() == old(stream.Limit()))
    ensures ok == DecodeField(m, fields, i, wire, old(stream.Rest()), msg).Some?
    ensures ok ==> (after, stream.Rest()) == DecodeField(m, fields, i, wire, old(stream.Rest()), msg).value
    decreases fields, 0
  {
    hide Substream, DecodeValue, DecodePacked, Choose, SubTagsOk;
    after := msg;
    var f := fields[i];
    assert SubTagsOk(f);
    var v;
    match f.htype
    case Required =>
      ok, v := DecodeOne(m, f, stream, Held(f, msg[i]));
      if ok { after := msg[i := Single(true, v)]; }
    case Optional =>
      ok, v := DecodeOne(m, f, stream, Held(f, msg[i]));
      if ok { after := msg[i := Single(true, v)]; }
    case OneOf =>
      ok, v := DecodeOne(m, f, stream, DefaultValue(f));
      if ok { after := Choose(fields, msg, i, v, 0); }
    case Repeated =>
      var items := if msg[i].Many? then msg[i].items else [];
      if wire == 2 && Packable(f.ltype) {
        var more;
        ok, more := DecodePackedArray(f, stream, items);
        if ok { after := msg[i := Many(more)]; }
      } else {
        if |items| >= f.arraySize {
          return false, msg;
        }
        ok, v := DecodeOne(m, f, stream, DefaultValue(f));
        if ok { after := msg[i := Many(items + [v])]; }
      }
  }

  // ----- messages -----

  method DecodeNoinit(m: Machine, fields: seq<Field>, stream: IStream, msg: seq<Slot>) returns (ok: bool, after: seq<Slot>)
    requires stream.Valid() && |msg| == |fields| && TagsOk(fields)
    modifies stream
    ensures stream.Valid() && stream.Limit() <= old(stream.Limit()) && (ok ==> stream.Limit() == old(stream.Limit()))
    ensures ok == DecodeMessage(m, fields, old(stream.Rest()), msg).Some?
    ensures ok ==> (after, stream.Rest()) == DecodeMessage(m, fields, old(stream.Rest()), msg).value
    decreases fields, 2
  {
    hide DecodeLoop, AllPresent, TagsOk;
    var iter := new FieldIter(fields);
    var seen;
    ok, after, seen := DecodeFields(m, iter, stream, msg);
    if !ok {
      return;
    }
    var count := CountRequired(iter);
    ok := CheckRequired(m, seen, count);
  }

  /** Decoding into a structure that is set to its defaults first. */
  method PbDecode(m: Machine, fields: seq<Field>, stream: IStream) returns (ok: bool, msg: seq<Slot>)
    requires stream.Valid() && TagsOk(fields)
    modifies stream
    ensures stream.Valid() && ok == Decode(m, fields, old(stream.Rest())).Some?
    ensures ok ==> (msg, stream.Rest()) == Decode(m, fields, old(stream.Rest())).value
  {
    ok, msg := DecodeNoinit(m, fields, stream, DefaultFrom(fields, 0));
  }

  method DecodeFields(m: Machine, iter: FieldIter, stream: IStream, msg: seq<Slot>)
    returns (ok: bool, after: seq<Slot>, seen: Seen)
    requires stream.Valid() && iter.Valid() && |msg| == |iter.fields| && TagsOk(iter.fields)
    modifies stream, iter
    ensures stream.Valid() && stream.Limit() <= old(stream.Limit()) && (ok ==> stream.Limit() == old(stream.Limit()))
    ensures iter.Valid()
    ensures match DecodeLoop(m, iter.fields, old(stream.Rest()), msg, NONE_SEEN)
            case Failed => !ok
            case Looped(a, rest, s) => ok && after == a && seen == s && stream.Rest() == rest
    decreases iter.fields, 1
  {
    hide ReadTag, DecodeField, SkipField, Tick, TagsOk, RequiredCount;
    after, seen := msg, NONE_SEEN;
    ghost var all := DecodeLoop(m, iter.fields, stream.Rest(), msg, NONE_SEEN);
    while stream.bytesLeft > 0
      invariant stream.Valid() && stream.Limit() == old(stream.Limit())
      invariant iter.Valid() && |after| == |iter.fields|
      invariant DecodeLoop(m, iter.fields, stream.Rest(), after, seen) == all
      decreases stream.bytesLeft
    {
      var found, wire, tag, eof := stream.DecodeTag();
      if !found {
        if eof {
          break;
        }
        return false, after, seen;
      }
      var known := false;
      if iter.fields != [] {
        known := iter.Find(tag);
      } else if tag == 0 {
        // The terminator matches, and cannot be decoded.
        return false, after, seen;
      }
      FindIsUnique(iter.fields, tag, iter.pos, known);
      if !known {
        var skipped := stream.SkipWire(wire);
        if !skipped {
          return false, after, seen;
        }
        continue;
      }
      if iter.fields[iter.pos].htype.Required? {
        seen := Tick(seen, iter.requiredFieldIndex);
      }
      ok, after := DecodeStaticField(m, iter.fields, iter.pos, wire, stream, after);
      if !ok {
        return;
      }
    }
    ok := true;
  }

  /** With distinct tags it does not matter where a search starts. */
  lemma {:induction false} FindIsUnique(fields: seq<Field>, tag: nat, pos: nat, known: bool)
    requires TagsOk(fields)
    requires known ==> pos < |fields| && fields[pos].tag == tag
    requires !known ==> forall i :: 0 <= i < |fields| ==> fields[i].tag != tag
    ensures FindField(fields, tag, 0) == if known then Some(pos) else None
  {
    hide SubTagsOk;
    FindFrom(fields, tag, pos, known, 0);
  }

  lemma {:induction false} FindFrom(fields: seq<Field>, tag: nat, pos: nat, known: bool, k: nat)
    requires forall i, j :: 0 <= i < j < |fields| ==> fields[i].tag != fields[j].tag
    requires known ==> k <= pos < |fields| && fields[pos].tag == tag
    requires !known ==> forall i :: 0 <= i < |fields| ==> fields[i].tag != tag
    ensures FindField(fields, tag, k) == if known then Some(pos) else None
    decreases |fields| - k
  {
    if k < |fields| && fields[k].tag != tag {
      FindFrom(fields, tag, pos, known, k + 1);
    }
  }

  /** Seeks to the end of the descriptors; a last field that is required has not been counted yet. */
  method CountRequired(iter: FieldIter) returns (count: nat)
    requires iter.Valid()
    modifies iter
    ensures count == RequiredCount(iter.fields, |iter.fields|)
  {
    count := iter.requiredFieldIndex;
    var last, more := iter.pos, true;
    while more
      invariant iter.Valid() && (more ==> iter.fields == [] || last <= iter.pos)
      invariant !more ==> if iter.fields == [] then count == 0
                          else last + 1 == |iter.fields| && count == RequiredCount(iter.fields, last)
      decreases more, |iter.fields| - iter.pos
    {
      count := iter.requiredFieldIndex;
      last := iter.pos;
      more := iter.Next();
    }
    if iter.fields != [] && iter.fields[last].htype.Required? {
      count := count + 1;
    }
  }

  method CheckRequired(m: Machine, seen: Seen, count: nat) returns (ok: bool)
    ensures ok == AllPresent(m, seen, count)
  {
    if count == 0 {
      return true;
    }
    ok := true;
    for i := 0 to count / 32
      invariant ok && forall k: nat :: k < i ==> SeenWord(m, seen, k) == Bits(32, true)
    {
      if SeenWord(m, seen, i) != Bits(32, true) {
        return false;
      }
    }
    ok := SeenWord(m, seen, count / 32) == AllShiftedRight(m, 32 - count % 32);
  }
}
