// What a writer encoded, read by a decoder whose schema may know more fields or fewer: it
// succeeds, consumes exactly the encoding and merges the message into the structure.

module PbRoundTrip {
  import opened Keys
  import opened Coding
  import opened PbMessages
  import opened PbDecoder
  import opened PbSchemas

  // ----- values -----

  lemma {:induction false} TagBack(w: WireType, tag: nat, rest: Bytes)
    requires 0 < tag < TAG_LIMIT
    ensures ReadTag(EncodeTag(w, tag) + rest) == Tag(WireCode(w), tag, rest)
  {
    hide GetVarint32, Varint;
    Varint32RoundTrip(tag * 8 + WireCode(w), rest);
  }

  lemma {:induction false} SubstreamBack(body: Bytes, rest: Bytes)
    requires |body| < TWO_32
    ensures Substream(Prefixed(body) + rest) == Some((body, rest))
    ensures GetVarint32(Prefixed(body) + rest) == Some((|body|, body + rest))
  {
    hide GetVarint32, Varint;
    assert |body| % TWO_64 == |body|;
    assert Prefixed(body) + rest == Varint(|body|) + (body + rest);
    Varint32RoundTrip(|body|, body + rest);
    assert (body + rest)[..|body|] == body && (body + rest)[|body|..] == rest;
  }

  lemma {:induction false} SignedBack(n: int, size: nat)
    requires IntSize(size) && SignedFits(n, size)
    ensures 0 <= n % TWO_64 < TWO_64
    ensures CastSigned(n % TWO_64, if size == 8 then 8 else 4) == n
    ensures CastSigned(n, size) == n
  {
    hide CastSigned, Pow256;
    CastKeeps(n, size);
    Widens(n, size);
    CastOfUnsigned(n, if size == 8 then 8 else 4);
    CastKeeps(n, if size == 8 then 8 else 4);
  }

  /** Casting does not see that a number was taken modulo 2^64 before. */
  lemma {:induction false} CastOfUnsigned(n: int, size: nat)
    requires size == 4 || size == 8
    ensures CastSigned(n % TWO_64, size) == CastSigned(n, size)
  {
    hide Pow256;
    Pow256Values();
    LowBits(n);
  }

  lemma {:induction false} LowBits(n: int)
    ensures (n % TWO_64) % TWO_32 == n % TWO_32
    ensures (n % TWO_64) % TWO_64 == n % TWO_64
  {
  }

  lemma {:induction false} UnsignedBack(n: int, size: nat)
    requires IntSize(size) && UnsignedFits(n, size)
    ensures n < TWO_64 && n % TWO_64 == n && n % Pow2Bytes(size) == n
    ensures size == 4 ==> n % TWO_32 == n
  {
    Pow256Values();
    assert Pow256(2) == 256 * Pow256(1) && Pow256(1) == 256;
    RemainderIs(n, Pow2Bytes(size), 0, n);
  }

  lemma {:induction false} FixedBack(n: nat, size: nat, rest: Bytes)
    requires n < Pow256(size)
    ensures (Fixed(n, size) + rest)[..size] == Fixed(n, size) && (Fixed(n, size) + rest)[size..] == rest
    ensures FixedValue(Fixed(n, size)) == n
  {
    FixedRoundTrip(n, size);
    RemainderIs(n, Pow256(size), 0, n);
  }

  lemma {:induction false} NumberBack(f: Field, v: Value, rest: Bytes)
    requires Packable(f.ltype) && Within(f, v)
    ensures EncodeValue(f, v).Some? && |EncodeValue(f, v).value| > 0
    ensures DecodeNumber(f, EncodeValue(f, v).value + rest) == Some((v, rest))
  {
    hide GetVarint64, Varint, Fixed, FixedValue, CastSigned, UnZigZag, ZigZag, Pow2Bytes, Pow256, SignedFits;
    Pow256Values();
    match f.ltype
    case VarintType =>
      SignedBack(v.n, f.dataSize);
      Varint64RoundTrip(v.n % TWO_64, rest);
    case UVarintType =>
      UnsignedBack(v.n, f.dataSize);
      Varint64RoundTrip(v.n, rest);
    case SVarintType =>
      SignedBack(v.n, f.dataSize);
      Widens(v.n, f.dataSize);
      ZigZagRoundTrip(v.n);
      Varint64RoundTrip(ZigZag(v.n), rest);
    case Fixed32Type =>
      UnsignedBack(v.n, 4);
      FixedBack(v.n, 4, rest);
    case Fixed64Type =>
      UnsignedBack(v.n, 8);
      FixedBack(v.n, 8, rest);
  }

  lemma {:induction false} NoNul(b: Bytes, max: nat)
    requires |b| < max && forall i :: 0 <= i < |b| ==> b[i] != 0
    ensures UpToNul(b, max) == b
  {
    if b != [] {
      NoNul(b[1..], max - 1);
      assert b == [b[0]] + b[1..];
    }
  }

  lemma {:induction false} BlobBack(f: Field, v: Value, rest: Bytes)
    requires f.ltype.BytesType? || f.ltype.StringType? || f.ltype.FixedLengthBytesType?
    requires Within(f, v) && |v.bytes| < TWO_32
    ensures EncodeValue(f, v).Some? && DecodeBlob(f, EncodeValue(f, v).value + rest) == Some((v, rest))
  {
    hide GetVarint32, Prefixed;
    if f.ltype.StringType? {
      NoNul(v.bytes, f.dataSize);
    }
    SubstreamBack(v.bytes, rest);
    assert (v.bytes + rest)[..|v.bytes|] == v.bytes && (v.bytes + rest)[|v.bytes|..] == rest;
    assert v.bytes == [] ==> v.bytes + rest == rest && Zeros(0) == [];
  }

  // ----- encoding succeeds within the bounds -----

  lemma {:induction false} ValueEncodes(f: Field, v: Value)
    requires Within(f, v)
    ensures EncodeValue(f, v).Some?
    decreases f, 1
  {
    hide Prefixed, Varint, Fixed, UpToNul;
    if f.ltype.SubmessageType? {
      MessageEncodes(f.sub, v.msg, 0);
    }
  }

  lemma {:induction false} ItemsEncode(f: Field, items: seq<Value>, j: nat)
    requires forall i :: 0 <= i < |items| ==> Within(f, items[i])
    ensures EncodePacked(f, items, j).Some? && EncodeEach(f, items, j).Some?
    decreases f, 2, |items| - j
  {
    hide Within, EncodeValue;
    if j < |items| {
      ValueEncodes(f, items[j]);
      ItemsEncode(f, items, j + 1);
    }
  }

  lemma {:induction false} SlotEncodes(f: Field, slot: Slot)
    requires SlotWithin(f, slot)
    ensures EncodeSlot(f, slot).Some?
    decreases f, 3
  {
    hide Within, EncodeValue;
    match slot
    case Single(has, value) =>
      if has || f.htype.Required? {
        ValueEncodes(f, value);
      }
    case Many(items) =>
      ItemsEncode(f, items, 0);
  }

  lemma {:induction false} MessageEncodes(fields: seq<Field>, msg: seq<Slot>, k: nat)
    requires |msg| == |fields| && forall i :: 0 <= i < |fields| ==> SlotWithin(fields[i], msg[i])
    ensures EncodeFrom(fields, msg, k).Some?
    decreases fields, 0, |fields| - k
  {
    hide SlotWithin, EncodeSlot;
    if k < |fields| {
      SlotEncodes(fields[k], msg[k]);
      MessageEncodes(fields, msg, k + 1);
    }
  }

  // ----- fields the reader does not know -----

  lemma {:induction false} VarintSkipped(v: nat, rest: Bytes)
    ensures SkipVarint(Varint(v) + rest) == Some(rest)
  {
    var bs := Varint(v) + rest;
    if v < 128 {
      assert bs[1..] == rest;
    } else {
      VarintSkipped(v / 128, rest);
      assert bs[1..] == Varint(v / 128) + rest;
    }
  }

  lemma {:induction false} PrefixedSkipped(body: Bytes, rest: Bytes)
    requires |body| < TWO_32
    ensures SkipField(2, Prefixed(body) + rest) == Some(rest)
  {
    hide Prefixed, GetVarint32;
    SubstreamBack(body, rest);
    assert (body + rest)[|body|..] == rest;
  }

  /** Skipping goes by the wire type alone and passes over exactly the value, whatever its type. */
  lemma {:induction false} ValueSkipped(g: Field, v: Value, rest: Bytes)
    requires EncodeValue(g, v).Some? && |EncodeValue(g, v).value| < TWO_32
    ensures SkipField(WireCode(WireTypeOf(g.ltype)), EncodeValue(g, v).value + rest) == Some(rest)
  {
    hide Varint, SkipVarint, Fixed, Prefixed, GetVarint32, UpToNul, ZigZag;
    var bytes := EncodeValue(g, v).value;
    match v
    case Number(n) =>
      if g.ltype.Fixed32Type? || g.ltype.Fixed64Type? {
        assert (bytes + rest)[|bytes|..] == rest;
      } else {
        VarintSkipped(if g.ltype.SVarintType? then ZigZag(n) else n % TWO_64, rest);
      }
    case Blob(b) =>
      var body := if g.ltype.StringType? then UpToNul(b, g.dataSize) else b;
      PrefixedLonger(body);
      PrefixedSkipped(body, rest);
    case Sub(msg) =>
      var body := EncodeFrom(g.sub, msg, 0).value;
      PrefixedLonger(body);
      PrefixedSkipped(body, rest);
  }

  lemma {:induction false} LoopSkips(m: Machine, fields: seq<Field>, w: WireType, tag: nat, body: Bytes, msg: seq<Slot>, seen: Seen)
    requires |msg| == |fields| && 0 < tag < TAG_LIMIT && forall i :: 0 <= i < |fields| ==> fields[i].tag != tag
    ensures DecodeLoop(m, fields, EncodeTag(w, tag) + body, msg, seen)
            == match SkipField(WireCode(w), body)
               case None => Failed
               case Some(more) => DecodeLoop(m, fields, more, msg, seen)
  {
    hide ReadTag, EncodeTag, FindField, SkipField, DecodeField, Tick;
    TagBack(w, tag, body);
    FindTells(fields, tag, 0);
  }

  lemma {:induction false} EachSkipped(m: Machine, fields: seq<Field>, g: Field, items: seq<Value>, j: nat, rest: Bytes,
                                       msg: seq<Slot>, seen: Seen)
    requires |msg| == |fields| && 0 < g.tag < TAG_LIMIT && forall i :: 0 <= i < |fields| ==> fields[i].tag != g.tag
    requires EncodeEach(g, items, j).Some? && |EncodeEach(g, items, j).value| < TWO_32
    ensures DecodeLoop(m, fields, EncodeEach(g, items, j).value + rest, msg, seen) == DecodeLoop(m, fields, rest, msg, seen)
    decreases |items| - j
  {
    hide DecodeLoop, EncodeValue, EncodeTag, SkipField;
    if j >= |items| {
      assert [] + rest == rest;
    } else {
      var body, more := EncodeValue(g, items[j]).value, EncodeEach(g, items, j + 1).value;
      ValueSkipped(g, items[j], more + rest);
      LoopSkips(m, fields, WireTypeOf(g.ltype), g.tag, body + (more + rest), msg, seen);
      assert TagFor(g) + body + more + rest == TagFor(g) + (body + (more + rest));
      EachSkipped(m, fields, g, items, j + 1, rest, msg, seen);
    }
  }

  /** A field with a tag the reader does not know is passed over, whatever its type and whatever it holds: decoding goes
      on behind it as if it had not been there. */
  lemma {:induction false} UnknownIsSkipped(m: Machine, fields: seq<Field>, g: Field, slot: Slot, rest: Bytes, msg: seq<Slot>, seen: Seen)
    requires |msg| == |fields| && 0 < g.tag < TAG_LIMIT && forall i :: 0 <= i < |fields| ==> fields[i].tag != g.tag
    requires EncodeSlot(g, slot).Some? && |EncodeSlot(g, slot).value| < TWO_32
    ensures DecodeLoop(m, fields, EncodeSlot(g, slot).value + rest, msg, seen) == DecodeLoop(m, fields, rest, msg, seen)
  {
    hide DecodeLoop, EncodeValue, EncodeTag, EncodePacked, EncodeEach, Prefixed, SkipField;
    if !Present(g, slot) {
      assert [] + rest == rest;
    } else if slot.Single? {
      var body := EncodeValue(g, slot.value).value;
      ValueSkipped(g, slot.value, rest);
      LoopSkips(m, fields, WireTypeOf(g.ltype), g.tag, body + rest, msg, seen);
      assert TagFor(g) + body + rest == TagFor(g) + (body + rest);
    } else if Packable(g.ltype) {
      var body := EncodePacked(g, slot.items, 0).value;
      PrefixedLonger(body);
      PrefixedSkipped(body, rest);
      LoopSkips(m, fields, WtString, g.tag, Prefixed(body) + rest, msg, seen);
      assert EncodeTag(WtString, g.tag) + Prefixed(body) + rest == EncodeTag(WtString, g.tag) + (Prefixed(body) + rest);
    } else {
      EachSkipped(m, fields, g, slot.items, 0, rest, msg, seen);
    }
  }

  // ----- required fields get ticked off -----

  /** What has been ticked when the first `k` fields of the message have been read. */
  function Ticks(fields: seq<Field>, wide: seq<Field>, k: nat, before: Seen): Seen
    requires k <= |wide|
  {
    if k == 0 then before else Ticking(fields, wide[k - 1].tag, Ticks(fields, wide, k - 1, before))
  }

  function Ticking(fields: seq<Field>, tag: nat, seen: Seen): Seen {
    var i := FindField(fields, tag, 0);
    if i.Some? && fields[i.value].htype.Required? then Tick(seen, RequiredCount(fields, i.value)) else seen
  }

  lemma {:induction false} RequiredIndexBelow(fields: seq<Field>, i: nat, n: nat)
    requires i < n <= |fields| && fields[i].htype.Required?
    ensures RequiredCount(fields, i) < RequiredCount(fields, n)
    decreases n
  {
    if i < n - 1 {
      RequiredIndexBelow(fields, i, n - 1);
    }
  }

  lemma {:induction false} TickWithin(seen: Seen, index: nat, count: nat)
    requires TickedWithin(seen, count) && index < count
    ensures TickedWithin(Tick(seen, index), count)
  {
    forall i: nat | count <= i < MAX_REQUIRED_FIELDS
      ensures !Ticked(Tick(seen, index), i)
    {
      assert !Ticked(seen, i);
    }
  }

  lemma {:induction false} NoneTicked()
    ensures forall i: nat :: i < MAX_REQUIRED_FIELDS ==> !Ticked(NONE_SEEN, i)
  {
  }

  lemma {:induction false} TicksAre(fields: seq<Field>, wide: seq<Field>, k: nat, before: Seen)
    requires TickedWithin(before, RequiredCount(fields, |fields|))
    requires TagsOk(fields) && k <= |wide| && RequiredCount(fields, |fields|) < MAX_REQUIRED_FIELDS
    ensures TickedWithin(Ticks(fields, wide, k, before), RequiredCount(fields, |fields|))
    ensures forall i, j :: 0 <= i < |fields| && 0 <= j < k && fields[i].tag == wide[j].tag && fields[i].htype.Required? ==>
              Ticked(Ticks(fields, wide, k, before), RequiredCount(fields, i))
  {
    hide Ticked, Tick, RequiredCount, TickedWithin, FindField, TagsOk;
    if k > 0 {
      TicksAre(fields, wide, k - 1, before);
      TickingKeeps(fields, wide[k - 1].tag, Ticks(fields, wide, k - 1, before));
    }
  }

  lemma {:induction false} NothingTicked(count: nat)
    ensures TickedWithin(NONE_SEEN, count)
  {
    NoneTicked();
  }

  lemma {:induction false} TickingKeeps(fields: seq<Field>, tag: nat, seen: Seen)
    requires TagsOk(fields) && RequiredCount(fields, |fields|) < MAX_REQUIRED_FIELDS
    requires TickedWithin(seen, RequiredCount(fields, |fields|))
    ensures TickedWithin(Ticking(fields, tag, seen), RequiredCount(fields, |fields|))
    ensures forall r: nat :: Ticked(seen, r) ==> Ticked(Ticking(fields, tag, seen), r)
    ensures forall i :: 0 <= i < |fields| && fields[i].tag == tag && fields[i].htype.Required? ==>
              Ticked(Ticking(fields, tag, seen), RequiredCount(fields, i))
  {
    hide RequiredCount, TickedWithin, FindField;
    FindTells(fields, tag, 0);
    var found := FindField(fields, tag, 0);
    if found.Some? && fields[found.value].htype.Required? {
      RequiredIndexBelow(fields, found.value, |fields|);
      TickWithin(seen, RequiredCount(fields, found.value), RequiredCount(fields, |fields|));
    }
  }

  /** Every number below the count is some required field's. */
  lemma {:induction false} RequiredAt(fields: seq<Field>, r: nat, n: nat) returns (i: nat)
    requires n <= |fields| && r < RequiredCount(fields, n)
    ensures i < n && fields[i].htype.Required? && RequiredCount(fields, i) == r
    decreases n
  {
    if r < RequiredCount(fields, n - 1) {
      i := RequiredAt(fields, r, n - 1);
    } else {
      i := n - 1;
    }
  }

  lemma {:induction false} AllTicked(m: Machine, fields: seq<Field>, wide: seq<Field>, before: Seen)
    requires FieldsOk(m, fields) && Understands(fields, wide) && TickedWithin(before, RequiredCount(fields, |fields|))
    ensures AllPresent(m, Ticks(fields, wide, |wide|, before), RequiredCount(fields, |fields|))
    ensures TickedWithin(Ticks(fields, wide, |wide|, before), RequiredCount(fields, |fields|))
  {
    hide Ticked, AllPresent, RequiredCount, TagsOk, UnderstandsField, Ticks, TickedWithin;
    var seen := Ticks(fields, wide, |wide|, before);
    TicksAre(fields, wide, |wide|, before);
    forall r: nat | r < RequiredCount(fields, |fields|)
      ensures Ticked(seen, r)
    {
      var i := RequiredAt(fields, r, |fields|);
      var j :| 0 <= j < |wide| && wide[j].tag == fields[i].tag;
    }
    RequiredCheckIs(m, seen, RequiredCount(fields, |fields|));
  }

  // ----- fields the reader knows -----

  /** One tagged field at the front of the input: the loop decodes it and goes on. */
  lemma {:induction false} LoopStep(m: Machine, fields: seq<Field>, k: nat, w: WireType, body: Bytes, msg: seq<Slot>, seen: Seen)
    requires FieldsOk(m, fields) && k < |fields| && |msg| == |fields|
    ensures DecodeLoop(m, fields, EncodeTag(w, fields[k].tag) + body, msg, seen)
            == match DecodeField(m, fields, k, WireCode(w), body, msg)
               case None => Failed
               case Some(p) =>
                 DecodeLoop(m, fields, p.1, p.0,
                            if fields[k].htype.Required? then Tick(seen, RequiredCount(fields, k)) else seen)
  {
    hide ReadTag, EncodeTag, FindField, DecodeField, CountsOk, Tick;
    TagBack(w, fields[k].tag, body);
    FindBack(fields, k);
  }

  lemma {:induction false} PrefixedLonger(body: Bytes)
    ensures |Prefixed(body)| > |body|
  {
  }

  lemma {:induction false} BlobLonger(f: Field, v: Value)
    requires f.ltype.BytesType? || f.ltype.StringType? || f.ltype.FixedLengthBytesType?
    requires Within(f, v) && EncodeValue(f, v).Some?
    ensures |EncodeValue(f, v).value| > |v.bytes|
  {
    if f.ltype.StringType? {
      NoNul(v.bytes, f.dataSize);
    }
  }

  lemma {:induction false} PackedBack(f: Field, had: seq<Value>, items: seq<Value>, j: nat)
    requires Packable(f.ltype) && j <= |items| && |had| + |items| <= f.arraySize
    requires forall i :: 0 <= i < |items| ==> Within(f, items[i])
    requires EncodePacked(f, items, j).Some?
    ensures DecodePacked(f, EncodePacked(f, items, j).value, had + items[..j]) == Some(had + items)
    decreases |items| - j
  {
    hide Within, EncodeValue, DecodeNumber;
    if j == |items| {
      assert items[..j] == items;
    } else {
      NumberBack(f, items[j], EncodePacked(f, items, j + 1).value);
      PackedBack(f, had, items, j + 1);
      assert had + items[..j] + [items[j]] == had + items[..j + 1];
    }
  }

  /** The reader's and the writer's field of a plain type are the same to the codec. */
  lemma {:induction false} SameToCodec(f: Field, g: Field, v: Value)
    requires UnderstandsField(f, g) && !f.ltype.SubmessageType?
    ensures Within(f, v) <==> Within(g, v)
    ensures EncodeValue(f, v) == EncodeValue(g, v)
  {
    hide Varint, Fixed, Prefixed, UpToNul;
  }

  lemma {:induction false} SamePacked(f: Field, g: Field, items: seq<Value>, j: nat)
    requires UnderstandsField(f, g) && !f.ltype.SubmessageType?
    ensures EncodePacked(f, items, j) == EncodePacked(g, items, j)
    decreases |items| - j
  {
    hide EncodeValue, UnderstandsField;
    if j < |items| {
      SameToCodec(f, g, items[j]);
      SamePacked(f, g, items, j + 1);
    }
  }

  lemma {:induction false} PlainItems(f: Field, g: Field, items: seq<Value>, j: nat)
    requires !f.ltype.SubmessageType? && j <= |items|
    ensures MergeItems(f, g, items, j) == items[j..]
    decreases |items| - j
  {
    if j < |items| {
      PlainItems(f, g, items, j + 1);
      assert items[j..] == [items[j]] + items[j + 1..];
    }
  }

  // ----- the induction over values and messages -----

  lemma {:induction false} ValueMerges(m: Machine, f: Field, g: Field, before: Value, v: Value, rest: Bytes)
    requires FieldOk(m, f) && SubTagsOk(g) && UnderstandsField(f, g) && Within(g, v) && ValueFits(f, g, before, v)
    requires EncodeValue(g, v).Some? && |EncodeValue(g, v).value| < TWO_32
    ensures DecodeValue(m, f, EncodeValue(g, v).value + rest, before) == Some((MergeValue(f, g, before, v), rest))
    decreases g, 0
  {
    hide FieldsOk, Prefixed, Substream, TagsOk, Fits, StartOf;
    if Packable(f.ltype) {
      SameToCodec(f, g, v);
      NumberBack(f, v, rest);
    } else if f.ltype.SubmessageType? {
      var body := EncodeFrom(g.sub, v.msg, 0).value;
      PrefixedLonger(body);
      SubstreamBack(body, rest);
      MessageMerges(m, f.sub, g.sub, StartOf(f, before), v.msg);
    } else {
      SameToCodec(f, g, v);
      BlobLonger(f, v);
      BlobBack(f, v, rest);
    }
  }

  /** What a writer encoded of a message within its bounds, a reader that understands the writer decodes into whatever
      its structure holds: it succeeds, consumes exactly the encoding, replaces the values it knows, merges
      submessages at every depth, adds to arrays and leaves the rest alone. */
  lemma {:induction false} MessageMerges(m: Machine, fields: seq<Field>, wide: seq<Field>, base: seq<Slot>, msg: seq<Slot>)
    requires FieldsOk(m, fields) && TagsOk(wide) && Understands(fields, wide)
    requires MessageWithin(wide, msg) && |msg| == |wide| && |base| == |fields| && Fits(fields, wide, base, msg)
    requires EncodeFrom(wide, msg, 0).Some? && |EncodeFrom(wide, msg, 0).value| < TWO_32
    ensures DecodeMessage(m, fields, EncodeFrom(wide, msg, 0).value, base) == Some((Merge(fields, wide, base, msg), []))
    decreases wide, 5
  {
    hide FieldsOk, TagsOk, Understands, MessageWithin, AllPresent, RequiredCount, Fits, EncodeFrom, Merge, TickedWithin;
    var bytes := EncodeFrom(wide, msg, 0).value;
    assert bytes + [] == bytes;
    WholeMerges(m, fields, wide, base, msg, [], NONE_SEEN);
    NothingTicked(RequiredCount(fields, |fields|));
    AllTicked(m, fields, wide, NONE_SEEN);
  }

  lemma {:induction false} WholeMerges(m: Machine, fields: seq<Field>, wide: seq<Field>, base: seq<Slot>, msg: seq<Slot>,
                                       rest: Bytes, seen: Seen)
    requires FieldsOk(m, fields) && TagsOk(wide) && Understands(fields, wide)
    requires MessageWithin(wide, msg) && |msg| == |wide| && |base| == |fields| && Fits(fields, wide, base, msg)
    requires EncodeFrom(wide, msg, 0).Some? && |EncodeFrom(wide, msg, 0).value| < TWO_32
    ensures DecodeLoop(m, fields, EncodeFrom(wide, msg, 0).value + rest, base, seen)
            == DecodeLoop(m, fields, rest, Merge(fields, wide, base, msg), Ticks(fields, wide, |wide|, seen))
    decreases wide, 4
  {
    hide FieldsOk, TagsOk, Understands, MessageWithin, Fits, EncodeFrom, DecodeLoop, Merge, Upto;
    LoopMerges(m, fields, wide, base, msg, 0, rest, seen);
    UptoEnds(fields, wide, base, msg);
  }

  /** With the first `k` fields of the message read and the encoding of the others left to read, the loop gets to the
      end of the message. */
  lemma {:induction false} LoopMerges(m: Machine, fields: seq<Field>, wide: seq<Field>, base: seq<Slot>, msg: seq<Slot>, k: nat,
                                      rest: Bytes, seen: Seen)
    requires FieldsOk(m, fields) && TagsOk(wide) && Understands(fields, wide)
    requires MessageWithin(wide, msg) && k <= |msg| == |wide| && |base| == |fields| && Fits(fields, wide, base, msg)
    requires EncodeFrom(wide, msg, k).Some? && |EncodeFrom(wide, msg, k).value| < TWO_32
    ensures DecodeLoop(m, fields, EncodeFrom(wide, msg, k).value + rest, Upto(fields, wide, base, msg, k), Ticks(fields, wide, k, seen))
            == DecodeLoop(m, fields, rest, Upto(fields, wide, base, msg, |wide|), Ticks(fields, wide, |wide|, seen))
    decreases wide, 3, |wide| - k
  {
    hide FieldsOk, TagsOk, Understands, MessageWithin, Fits, EncodeSlot, Upto, DecodeLoop;
    if k < |wide| {
      var first, others := EncodeSlot(wide[k], msg[k]).value, EncodeFrom(wide, msg, k + 1).value;
      SlotMerges(m, fields, wide, base, msg, k, others + rest, Ticks(fields, wide, k, seen));
      assert first + others + rest == first + (others + rest);
      LoopMerges(m, fields, wide, base, msg, k + 1, rest, seen);
    } else {
      assert [] + rest == rest;
    }
  }

  /** One field of the message, known or not, sent or not. */
  lemma {:induction false} SlotMerges(m: Machine, fields: seq<Field>, wide: seq<Field>, base: seq<Slot>, msg: seq<Slot>, k: nat, rest: Bytes, seen: Seen)
    requires FieldsOk(m, fields) && TagsOk(wide) && Understands(fields, wide)
    requires MessageWithin(wide, msg) && k < |msg| == |wide| && |base| == |fields| && Fits(fields, wide, base, msg)
    requires EncodeSlot(wide[k], msg[k]).Some? && |EncodeSlot(wide[k], msg[k]).value| < TWO_32
    ensures DecodeLoop(m, fields, EncodeSlot(wide[k], msg[k]).value + rest, Upto(fields, wide, base, msg, k), seen)
            == DecodeLoop(m, fields, rest, Upto(fields, wide, base, msg, k + 1), Ticking(fields, wide[k].tag, seen))
    decreases wide, 2
  {
    hide DecodeLoop, Upto, EncodeSlot, CountsOk, RequiredCount, SlotFits, UnderstandsField, SlotWithin, FindField;
    var found := FindField(fields, wide[k].tag, 0);
    FindTells(fields, wide[k].tag, 0);
    if found.None? {
      UnknownIsSkipped(m, fields, wide[k], msg[k], rest, Upto(fields, wide, base, msg, k), seen);
      NothingNew(fields, wide, base, msg, k);
    } else {
      var i := found.value;
      assert UnderstandsField(fields[i], wide[k]) && SlotWithin(wide[k], msg[k]);
      if Present(wide[k], msg[k]) {
        assert SlotFits(fields[i], wide[k], base[i], msg[k]);
        KnownMerges(m, fields, wide, base, msg, k, i, rest, seen);
      } else {
        NotSent(fields[i], wide[k], msg[k], rest);
        NothingNew(fields, wide, base, msg, k);
      }
    }
  }

  lemma {:induction false} NotSent(f: Field, g: Field, slot: Slot, rest: Bytes)
    requires UnderstandsField(f, g) && SlotWithin(g, slot) && !Present(g, slot)
    ensures EncodeSlot(g, slot) == Some([]) && [] + rest == rest && !f.htype.Required?
  {
  }

  /** A field the reader knows and the message has something for. */
  lemma {:induction false} KnownMerges(m: Machine, fields: seq<Field>, wide: seq<Field>, base: seq<Slot>, msg: seq<Slot>,
                                       k: nat, i: nat, rest: Bytes, seen: Seen)
    requires FieldsOk(m, fields) && TagsOk(wide) && Understands(fields, wide) && OneOfsOk(wide, msg)
    requires k < |msg| == |wide| && |base| == |fields| && FindField(fields, wide[k].tag, 0) == Some(i)
    requires UnderstandsField(fields[i], wide[k]) && SlotWithin(wide[k], msg[k]) && Present(wide[k], msg[k])
    requires SlotFits(fields[i], wide[k], base[i], msg[k])
    requires EncodeSlot(wide[k], msg[k]).Some? && |EncodeSlot(wide[k], msg[k]).value| < TWO_32
    ensures DecodeLoop(m, fields, EncodeSlot(wide[k], msg[k]).value + rest, Upto(fields, wide, base, msg, k), seen)
            == DecodeLoop(m, fields, rest, Upto(fields, wide, base, msg, k + 1), Ticking(fields, wide[k].tag, seen))
    decreases wide, 1
  {
    hide DecodeLoop, Upto, EncodeSlot, CountsOk, RequiredCount, SlotFits, Understands, Within, FindField, Put;
    var f, g, was := fields[i], wide[k], Upto(fields, wide, base, msg, k);
    assert FieldOk(m, f) && SubTagsOk(g) by { FieldsAre(m, fields, wide, i, k); }
    if f.htype.OneOf? {
      var v := MergeValue(f, g, DefaultValue(f), msg[k].value);
      SingleMerges(m, fields, g, i, base[i], msg[k], was, seen, rest);
      assert Put(f, g, base[i], msg[k]) == Single(true, v) by { PutSingle(f, g, base[i], msg[k]); }
      ChooseIsNext(fields, wide, base, msg, k, i, v);
    } else {
      SlotBefore(fields, wide, base, msg, k, i);
      PutIsNext(fields, wide, base, msg, k, i);
      if msg[k].Single? {
        SingleMerges(m, fields, g, i, base[i], msg[k], was, seen, rest);
        PutSingle(f, g, base[i], msg[k]);
      } else {
        ArrayMerges(m, fields, g, i, msg[k], was, seen, rest);
      }
    }
  }

  lemma {:induction false} FieldsAre(m: Machine, fields: seq<Field>, wide: seq<Field>, i: nat, k: nat)
    requires FieldsOk(m, fields) && TagsOk(wide) && i < |fields| && k < |wide|
    ensures FieldOk(m, fields[i]) && SubTagsOk(wide[k])
  {
  }

  lemma {:induction false} PutSingle(f: Field, g: Field, before: Slot, slot: Slot)
    requires slot.Single?
    ensures Put(f, g, before, slot) == Single(true, MergeValue(f, g, Before(f, before), slot.value))
  {
  }

  lemma {:induction false} SingleMerges(m: Machine, fields: seq<Field>, g: Field, i: nat, before: Slot, slot: Slot,
                                        cur: seq<Slot>, seen: Seen, rest: Bytes)
    requires FieldsOk(m, fields) && i < |fields| == |cur| && FindField(fields, g.tag, 0) == Some(i)
    requires FieldOk(m, fields[i]) && SubTagsOk(g) && UnderstandsField(fields[i], g) && SlotWithin(g, slot)
    requires slot.Single? && Present(g, slot) && SlotFits(fields[i], g, before, slot)
    requires fields[i].htype.OneOf? || cur[i] == before
    requires EncodeSlot(g, slot).Some? && |EncodeSlot(g, slot).value| < TWO_32
    ensures DecodeLoop(m, fields, EncodeSlot(g, slot).value + rest, cur, seen)
            == DecodeLoop(m, fields, rest,
                          var v := MergeValue(fields[i], g, Before(fields[i], before), slot.value);
                          if fields[i].htype.OneOf? then Choose(fields, cur, i, v, 0) else cur[i := Single(true, v)],
                          Ticking(fields, g.tag, seen))
    decreases g, 2
  {
    hide DecodeLoop, EncodeValue, DecodeValue, MergeValue, ValueFits, Within, FieldsOk, Choose, EncodeTag, RequiredCount, DefaultValue,
      Held, FindField, FieldOk, SubTagsOk;
    var f := fields[i];
    var body := EncodeValue(g, slot.value).value;
    ValueMerges(m, f, g, Before(f, before), slot.value, rest);
    LoopStep(m, fields, i, WireTypeOf(f.ltype), body + rest, cur, seen);
    assert TagFor(g) + body + rest == TagFor(f) + (body + rest);
  }

  lemma {:induction false} ArrayMerges(m: Machine, fields: seq<Field>, g: Field, i: nat, slot: Slot,
                                       cur: seq<Slot>, seen: Seen, rest: Bytes)
    requires FieldsOk(m, fields) && i < |fields| == |cur| && FindField(fields, g.tag, 0) == Some(i)
    requires FieldOk(m, fields[i]) && SubTagsOk(g) && UnderstandsField(fields[i], g) && SlotWithin(g, slot)
    requires slot.Many? && Present(g, slot) && SlotFits(fields[i], g, cur[i], slot)
    requires EncodeSlot(g, slot).Some? && |EncodeSlot(g, slot).value| < TWO_32
    ensures DecodeLoop(m, fields, EncodeSlot(g, slot).value + rest, cur, seen)
            == DecodeLoop(m, fields, rest, cur[i := Put(fields[i], g, cur[i], slot)], Ticking(fields, g.tag, seen))
    decreases g, 3
  {
    hide DecodeLoop, EncodePacked, EncodeEach, FieldsOk, RequiredCount, FindField, FieldOk, SubTagsOk, MergeItems, Within, ValueFits;
    if Packable(g.ltype) {
      PackedMerges(m, fields, g, i, slot.items, cur, seen, rest);
    } else {
      EachMerges(m, fields, g, i, slot.items, 0, cur, seen, rest);
    }
  }

  /** A packed array is appended to what is there. */
  lemma {:induction false} PackedMerges(m: Machine, fields: seq<Field>, g: Field, i: nat, items: seq<Value>,
                                        cur: seq<Slot>, seen: Seen, rest: Bytes)
    requires FieldsOk(m, fields) && i < |fields| == |cur| && FindField(fields, g.tag, 0) == Some(i)
    requires UnderstandsField(fields[i], g) && g.htype.Repeated? && Packable(g.ltype)
    requires items != [] && SlotWithin(g, Many(items)) && |Items(cur[i])| + |items| <= fields[i].arraySize
    requires EncodeSlot(g, Many(items)).Some? && |EncodeSlot(g, Many(items)).value| < TWO_32
    ensures DecodeLoop(m, fields, EncodeSlot(g, Many(items)).value + rest, cur, seen)
            == DecodeLoop(m, fields, rest, cur[i := Many(Items(cur[i]) + MergeItems(fields[i], g, items, 0))], Ticking(fields, g.tag, seen))
  {
    hide DecodeLoop, EncodeValue, EncodePacked, DecodePacked, MergeItems, Within, FieldsOk, EncodeTag, RequiredCount, Prefixed, Substream,
      FindField, Items;
    var f, had := fields[i], Items(cur[i]);
    var body := EncodePacked(g, items, 0).value;
    PrefixedLonger(body);
    SubstreamBack(body, rest);
    forall j | 0 <= j < |items|
      ensures Within(f, items[j])
    {
      SameToCodec(f, g, items[j]);
    }
    SamePacked(f, g, items, 0);
    PackedBack(f, had, items, 0);
    assert had + items[..0] == had && items[0..] == items;
    PlainItems(f, g, items, 0);
    LoopStep(m, fields, i, WtString, Prefixed(body) + rest, cur, seen);
    assert EncodeTag(WtString, g.tag) + Prefixed(body) + rest == EncodeTag(WtString, f.tag) + (Prefixed(body) + rest);
  }

  /** An array item that carries a tag is appended. */
  lemma {:induction false} ItemMerges(m: Machine, fields: seq<Field>, g: Field, i: nat, v: Value, cur: seq<Slot>, seen: Seen, rest: Bytes)
    requires FieldsOk(m, fields) && i < |fields| == |cur| && FindField(fields, g.tag, 0) == Some(i)
    requires FieldOk(m, fields[i]) && SubTagsOk(g) && UnderstandsField(fields[i], g) && g.htype.Repeated?
    requires |Items(cur[i])| < fields[i].arraySize && Within(g, v) && ValueFits(fields[i], g, DefaultValue(fields[i]), v)
    requires EncodeValue(g, v).Some? && |EncodeValue(g, v).value| < TWO_32
    ensures DecodeLoop(m, fields, TagFor(g) + (EncodeValue(g, v).value + rest), cur, seen)
            == DecodeLoop(m, fields, rest,
                          cur[i := Many(Items(cur[i]) + [MergeValue(fields[i], g, DefaultValue(fields[i]), v)])], seen)
    decreases g, 1
  {
    hide DecodeLoop, EncodeValue, DecodeValue, MergeValue, ValueFits, Within, FieldsOk, EncodeTag, RequiredCount, DefaultValue, FindField,
      FieldOk, SubTagsOk;
    var f := fields[i];
    ValueMerges(m, f, g, DefaultValue(f), v, rest);
    LoopStep(m, fields, i, WireTypeOf(f.ltype), EncodeValue(g, v).value + rest, cur, seen);
  }

  lemma {:induction false} MoreItems(f: Field, g: Field, items: seq<Value>, j: nat, cur: seq<Slot>, i: nat)
    requires j < |items| && i < |cur|
    ensures var next := cur[i := Many(Items(cur[i]) + [MergeValue(f, g, DefaultValue(f), items[j])])];
            (if j + 1 == |items| then next else next[i := Many(Items(next[i]) + MergeItems(f, g, items, j + 1))])
            == cur[i := Many(Items(cur[i]) + MergeItems(f, g, items, j))]
  {
    hide MergeValue, DefaultValue;
    var v := MergeValue(f, g, DefaultValue(f), items[j]);
    assert j + 1 == |items| ==> MergeItems(f, g, items, j + 1) == [];
    assert Items(cur[i]) + MergeItems(f, g, items, j) == Items(cur[i]) + [v] + MergeItems(f, g, items, j + 1);
    assert Items(cur[i]) + [v] + [] == Items(cur[i]) + [v];
  }

  /** Array items that carry a tag each are appended one by one. */
  lemma {:induction false} EachMerges(m: Machine, fields: seq<Field>, g: Field, i: nat, items: seq<Value>, j: nat,
                                      cur: seq<Slot>, seen: Seen, rest: Bytes)
    requires FieldsOk(m, fields) && i < |fields| == |cur| && FindField(fields, g.tag, 0) == Some(i)
    requires FieldOk(m, fields[i]) && SubTagsOk(g) && UnderstandsField(fields[i], g) && g.htype.Repeated?
    requires j <= |items| && |Items(cur[i])| + (|items| - j) <= fields[i].arraySize
    requires forall h :: 0 <= h < |items| ==> Within(g, items[h]) && ValueFits(fields[i], g, DefaultValue(fields[i]), items[h])
    requires EncodeEach(g, items, j).Some? && |EncodeEach(g, items, j).value| < TWO_32
    ensures DecodeLoop(m, fields, EncodeEach(g, items, j).value + rest, cur, seen)
            == DecodeLoop(m, fields, rest,
                          if j == |items| then cur else cur[i := Many(Items(cur[i]) + MergeItems(fields[i], g, items, j))], seen)
    decreases g, 2, |items| - j
  {
    hide DecodeLoop, EncodeValue, MergeValue, MergeItems, ValueFits, Within, FieldsOk, TagFor, DefaultValue, FindField, FieldOk, SubTagsOk,
      UnderstandsField;
    if j == |items| {
      assert [] + rest == rest;
    } else {
      var f := fields[i];
      var body, more := EncodeValue(g, items[j]).value, EncodeEach(g, items, j + 1).value;
      ItemMerges(m, fields, g, i, items[j], cur, seen, more + rest);
      assert TagFor(g) + body + more + rest == TagFor(g) + (body + (more + rest));
      MoreItems(f, g, items, j, cur, i);
      EachMerges(m, fields, g, i, items, j + 1, cur[i := Many(Items(cur[i]) + [MergeValue(f, g, DefaultValue(f), items[j])])], seen, rest);
    }
  }

  /** Numbers sent one by one, each with its tag, are read as if they had been sent packed. */
  lemma {:induction false} PackedOrNot(m: Machine, fields: seq<Field>, g: Field, i: nat, items: seq<Value>,
                                       cur: seq<Slot>, seen: Seen, rest: Bytes)
    requires FieldsOk(m, fields) && i < |fields| == |cur| && FindField(fields, g.tag, 0) == Some(i)
    requires UnderstandsField(fields[i], g) && g.htype.Repeated? && Packable(g.ltype)
    requires items != [] && SlotWithin(g, Many(items)) && |Items(cur[i])| + |items| <= fields[i].arraySize
    requires EncodeSlot(g, Many(items)).Some? && |EncodeSlot(g, Many(items)).value| < TWO_32
    requires EncodeEach(g, items, 0).Some? && |EncodeEach(g, items, 0).value| < TWO_32
    ensures DecodeLoop(m, fields, EncodeEach(g, items, 0).value + rest, cur, seen)
            == DecodeLoop(m, fields, EncodeSlot(g, Many(items)).value + rest, cur, seen)
            == DecodeLoop(m, fields, rest, cur[i := Many(Items(cur[i]) + items)], seen)
  {
    hide DecodeLoop, EncodeSlot, EncodeEach, FieldsOk, RequiredCount, FindField, Within, MergeItems;
    PackedMerges(m, fields, g, i, items, cur, seen, rest);
    EachMerges(m, fields, g, i, items, 0, cur, seen, rest);
    PlainItems(fields[i], g, items, 0);
    assert items[0..] == items;
  }

  // ----- the theorems -----

  /** Two encodings one after the other decode to the second message merged into the first: a message may be sent in
      pieces. */
  lemma {:induction false} ConcatenationMerges(m: Machine, fields: seq<Field>, wide: seq<Field>, one: seq<Slot>, two: seq<Slot>)
    requires FieldsOk(m, fields) && TagsOk(wide) && Understands(fields, wide)
    requires MessageWithin(wide, one) && MessageWithin(wide, two) && |one| == |wide| && |two| == |wide|
    requires Fits(fields, wide, Merge(fields, wide, DefaultFrom(fields, 0), one), two)
    ensures Encode(wide, one).Some? && Encode(wide, two).Some?
    ensures |Encode(wide, one).value| < TWO_32 && |Encode(wide, two).value| < TWO_32 ==>
              Decode(m, fields, Encode(wide, one).value + Encode(wide, two).value)
              == Some((Merge(fields, wide, Merge(fields, wide, DefaultFrom(fields, 0), one), two), []))
  {
    hide TagsOk, CountsOk, Understands, SlotWithin, EncodeFrom, OneOfsOk, Fits, Merge, AllPresent, RequiredCount, TickedWithin, Ticks,
      DefaultFrom;
    MessageEncodes(wide, one, 0);
    MessageEncodes(wide, two, 0);
    var a, b, base := Encode(wide, one).value, Encode(wide, two).value, DefaultFrom(fields, 0);
    if |a| < TWO_32 && |b| < TWO_32 {
      DefaultsFit(fields, wide, one);
      NothingTicked(RequiredCount(fields, |fields|));
      AllTicked(m, fields, wide, NONE_SEEN);
      WholeMerges(m, fields, wide, base, one, b, NONE_SEEN);
      assert b + [] == b;
      var seen := Ticks(fields, wide, |wide|, NONE_SEEN);
      WholeMerges(m, fields, wide, Merge(fields, wide, base, one), two, [], seen);
      AllTicked(m, fields, wide, seen);
    }
  }

  /** For any nested schema with generated tags and fewer than 64 required fields a message, and any message
      within its declared bounds: encoding succeeds, and decoding what it wrote succeeds, consumes exactly
      that and restores the message, up to values that are not present.  With exactly 32 required fields
      this also takes a machine on which a 32-bit word shifted by 32 is zero (see `CountsOk`). */
  lemma {:induction false} RoundTrip(m: Machine, fields: seq<Field>, msg: seq<Slot>)
    requires FieldsOk(m, fields) && MessageWithin(fields, msg)
    ensures Encode(fields, msg).Some?
    ensures |Encode(fields, msg).value| < TWO_32 ==>
              Decode(m, fields, Encode(fields, msg).value) == Some((Canonical(fields, msg), []))
  {
    hide TagsOk, CountsOk, Understands, MessageWithin;
    UnderstandsItself(fields);
    OtherSchema(m, fields, fields, msg);
  }

  /** A reader with another schema, which may lack fields the writer has and may have optional ones the writer lacks, at
      any depth: decoding what the writer encoded gives the fields both know, and defaults for the others. */
  lemma {:induction false} OtherSchema(m: Machine, fields: seq<Field>, wide: seq<Field>, msg: seq<Slot>)
    requires FieldsOk(m, fields) && TagsOk(wide) && Understands(fields, wide) && MessageWithin(wide, msg)
    ensures Encode(wide, msg).Some?
    ensures |Encode(wide, msg).value| < TWO_32 ==>
              Decode(m, fields, Encode(wide, msg).value) == Some((Merge(fields, wide, DefaultFrom(fields, 0), msg), []))
  {
    hide TagsOk, CountsOk, Understands, SlotWithin, EncodeFrom, OneOfsOk, Fits, DecodeMessage;
    MessageEncodes(wide, msg, 0);
    if |Encode(wide, msg).value| < TWO_32 {
      DefaultsFit(fields, wide, msg);
      MessageMerges(m, fields, wide, DefaultFrom(fields, 0), msg);
    }
  }

  /** The writer has something for the tag in this message. */
  ghost predicate Sends(wide: seq<Field>, msg: seq<Slot>, tag: nat)
    requires |msg| == |wide|
  {
    exists j :: 0 <= j < |wide| && wide[j].tag == tag && Present(wide[j], msg[j])
  }

  /** Merging, slot by slot: a value that was sent replaces the one there; a submessage is merged into the one there, or
      into an empty one if there is none or the field is a member of a oneof; array items are added behind those
      there; what was not sent stays, unless another member of its oneof was sent. */
  lemma {:induction false} MergeIs(fields: seq<Field>, wide: seq<Field>, base: seq<Slot>, msg: seq<Slot>, i: nat)
    requires TagsOk(wide) && Understands(fields, wide) && MessageWithin(wide, msg) && |msg| == |wide|
    requires i < |fields| == |base|
    ensures forall j :: 0 <= j < |wide| && wide[j].tag == fields[i].tag && Present(wide[j], msg[j]) ==>
              Received(fields[i], wide[j], base[i], msg[j], Merge(fields, wide, base, msg)[i])
    ensures !Sends(wide, msg, fields[i].tag) ==>
              var others := exists h :: 0 <= h < |fields| && h != i && SameUnion(fields[i], fields[h]) && Sends(wide, msg, fields[h].tag);
              Merge(fields, wide, base, msg)[i] == if others then DefaultSlot(fields[i]) else base[i]
  {
    hide MergeSlot, MergeFrom, DefaultSlot, SlotWithin, OneOfsOk, Received, Sends, Sent;
    MergeAt(fields, wide, base, msg, 0, i);
    forall j | 0 <= j < |wide| && wide[j].tag == fields[i].tag && Present(wide[j], msg[j])
      ensures Received(fields[i], wide[j], base[i], msg[j], Merge(fields, wide, base, msg)[i])
    {
      FindBack(wide, j);
      SentIsReceived(fields, wide, base, msg, i, j);
    }
    forall h | 0 <= h < |fields|
      ensures Sent(wide, msg, fields[h].tag) <==> Sends(wide, msg, fields[h].tag)
    {
      SentIs(wide, msg, fields[h].tag);
    }
    UnsentStays(fields, wide, base, msg, i);
  }

  lemma {:induction false} SentIs(wide: seq<Field>, msg: seq<Slot>, tag: nat)
    requires TagsOk(wide) && |msg| == |wide|
    ensures Sent(wide, msg, tag) <==> Sends(wide, msg, tag)
  {
    hide FindField, Present;
    FindTells(wide, tag, 0);
  }

  lemma {:induction false} UnsentStays(fields: seq<Field>, wide: seq<Field>, base: seq<Slot>, msg: seq<Slot>, i: nat)
    requires i < |fields| == |base| && |wide| == |msg|
    ensures !Sent(wide, msg, fields[i].tag) ==>
              MergeSlot(fields, wide, base, msg, i) == if Displaced(fields, wide, msg, i) then DefaultSlot(fields[i]) else base[i]
  {
    hide Sent, Displaced, DefaultSlot;
  }

  /** How a field `g` that was sent shows in a field `f` that held `before`. */
  ghost predicate Received(f: Field, g: Field, before: Slot, sent: Slot, slot: Slot) {
    match sent
    case Single(_, value) =>
      && slot.Single? && slot.has
      && ValueReceived(f, g, if f.htype.OneOf? || !before.Single? then DefaultValue(f) else before.value, value, slot.value)
    case Many(items) =>
      && slot.Many? && Items(before) <= slot.items && |slot.items| == |Items(before)| + |items|
      && forall j :: 0 <= j < |items| ==> ValueReceived(f, g, DefaultValue(f), items[j], slot.items[|Items(before)| + j])
  }

  ghost predicate ValueReceived(f: Field, g: Field, before: Value, sent: Value, v: Value) {
    if f.ltype.SubmessageType? then
      && sent.Sub? && |sent.msg| == |g.sub|
      && v == Sub(Merge(f.sub, g.sub,
                        if !f.htype.Repeated? && before.Sub? && |before.msg| == |f.sub| then before.msg else DefaultFrom(f.sub, 0),
                        sent.msg))
    else v == sent
  }

  lemma {:induction false} ValueIsReceived(f: Field, g: Field, before: Value, v: Value)
    requires UnderstandsField(f, g) && Within(g, v)
    ensures ValueReceived(f, g, before, v, MergeValue(f, g, before, v))
  {
    hide MergeFrom, Understands, DefaultFrom;
  }

  lemma {:induction false} ItemAt(f: Field, g: Field, items: seq<Value>, j: nat, h: nat)
    requires j <= h < |items|
    ensures MergeItems(f, g, items, j)[h - j] == MergeValue(f, g, DefaultValue(f), items[h])
    decreases h - j
  {
    hide MergeValue, DefaultValue;
    if j < h {
      ItemAt(f, g, items, j + 1, h);
    }
  }

  lemma {:induction false} SentIsReceived(fields: seq<Field>, wide: seq<Field>, base: seq<Slot>, msg: seq<Slot>, i: nat, j: nat)
    requires i < |fields| == |base| && j < |wide| == |msg|
    requires UnderstandsField(fields[i], wide[j]) && SlotWithin(wide[j], msg[j]) && Present(wide[j], msg[j])
    requires FindField(wide, fields[i].tag, 0) == Some(j)
    ensures Received(fields[i], wide[j], base[i], msg[j], MergeSlot(fields, wide, base, msg, i))
  {
    hide MergeValue, DefaultValue, FindField, Within, ValueReceived, Displaced;
    var f, g := fields[i], wide[j];
    match msg[j]
    case Single(_, value) => ValueIsReceived(f, g, Before(f, base[i]), value);
    case Many(items) =>
      forall h | 0 <= h < |items|
        ensures ValueReceived(f, g, DefaultValue(f), items[h], MergeItems(f, g, items, 0)[h])
      {
        ItemAt(f, g, items, 0, h);
        ValueIsReceived(f, g, DefaultValue(f), items[h]);
      }
  }

  // ----- the case the check for required fields gets wrong -----

  lemma {:induction false} LoopTicksWithin(m: Machine, fields: seq<Field>, input: Bytes, msg: seq<Slot>, seen: Seen)
    requires |msg| == |fields| && TickedWithin(seen, RequiredCount(fields, |fields|))
    ensures DecodeLoop(m, fields, input, msg, seen).Looped? ==>
              TickedWithin(DecodeLoop(m, fields, input, msg, seen).seen, RequiredCount(fields, |fields|))
    decreases |input|
  {
    hide ReadTag, FindField, DecodeField, SkipField, TickedWithin, Tick, RequiredCount;
    if input != [] {
      var t := ReadTag(input);
      if t.Tag? {
        var found := FindField(fields, t.tag, 0);
        if found.None? {
          var more := SkipField(t.wire, t.rest);
          if more.Some? {
            LoopTicksWithin(m, fields, more.value, msg, seen);
          }
        } else {
          var i := found.value;
          var p := DecodeField(m, fields, i, t.wire, t.rest, msg);
          var ticked := if fields[i].htype.Required? then Tick(seen, RequiredCount(fields, i)) else seen;
          if fields[i].htype.Required? {
            RequiredIndexBelow(fields, i, |fields|);
            TickWithin(seen, RequiredCount(fields, i), RequiredCount(fields, |fields|));
          }
          if p.Some? {
            LoopTicksWithin(m, fields, p.value.1, p.value.0, ticked);
          }
        }
      }
    }
  }

  /** With exactly 32 required fields, on a machine where the full shift does not clear the word, no input
      at all can be decoded: `FieldsOk` asks no more than it must. */
  lemma {:induction false} NothingDecodes(m: Machine, fields: seq<Field>, input: Bytes, msg: seq<Slot>)
    requires |msg| == |fields| && RequiredCount(fields, |fields|) == 32 && m.allShiftedBy32 != Bits(32, false)
    ensures DecodeMessage(m, fields, input, msg) == None
  {
    hide DecodeLoop, AllPresent, RequiredCount;
    NoneTicked();
    LoopTicksWithin(m, fields, input, msg, NONE_SEEN);
    var r := DecodeLoop(m, fields, input, msg, NONE_SEEN);
    if r.Looped? {
      RequiredCheckIs(m, r.seen, 32);
    }
  }
}
