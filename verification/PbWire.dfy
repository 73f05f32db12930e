// Which numbers are read from which varints, and what the bytes of an encoding are.

module PbWire {
  import opened Keys
  import opened Coding
  import opened PbMessages
  import opened PbDecoder
  import opened PbRoundTrip

  /** A register of `width` values read as a signed number. */
  function Signed(z: nat, width: nat): int {
    if 2 * z < width then z else z - width
  }

  /** The number a varint of 64 bits stands for: numbers of at most 32 bits are told by the low half alone. */
  function Meant(f: Field, z: nat): int {
    if f.ltype.UVarintType? then z
    else if f.ltype.SVarintType? then (if z % 2 == 0 then z / 2 else -((z + 1) / 2))
    else if f.dataSize == 8 then Signed(z, TWO_64)
    else Signed(z % TWO_32, TWO_32)
  }

  /** A varint is read as the number it stands for if that fits the field, and refused if it does not. */
  lemma {:induction false} ReadsWhatFits(f: Field, z: nat, rest: Bytes)
    requires f.ltype.VarintType? || f.ltype.UVarintType? || f.ltype.SVarintType?
    requires IntSize(f.dataSize) && z < TWO_64
    ensures var fits := if f.ltype.UVarintType? then UnsignedFits(z, f.dataSize) else SignedFits(Meant(f, z), f.dataSize);
            DecodeNumber(f, Varint(z) + rest) == if fits then Some((Number(Meant(f, z)), rest)) else None
  {
    hide Varint, GetVarint64, Pow256, CastSigned;
    Varint64RoundTrip(z, rest);
    Pow256Values();
    if f.ltype.UVarintType? {
      UnsignedCut(z, f.dataSize);
    } else {
      CastOf(z);
      SignedCut(Meant(f, z), f.dataSize);
    }
  }

  lemma {:induction false} UnsignedCut(z: nat, size: nat)
    ensures z % Pow2Bytes(size) == z <==> UnsignedFits(z, size)
  {
    if UnsignedFits(z, size) {
      RemainderIs(z, Pow2Bytes(size), 0, z);
    }
  }

  lemma {:induction false} CastOf(z: nat)
    requires z < TWO_64
    ensures CastSigned(z, 8) == Signed(z, TWO_64)
    ensures CastSigned(z, 4) == Signed(z % TWO_32, TWO_32)
  {
    Pow256Values();
    RemainderIs(z, TWO_64, 0, z);
  }

  /** A cast gives a number of its size, and keeps the ones that are. */
  lemma {:induction false} SignedCut(n: int, size: nat)
    ensures CastSigned(n, size) == n <==> SignedFits(n, size)
  {
    hide Pow2Bytes;
    if SignedFits(n, size) {
      CastKeeps(n, size);
    } else {
      var m := Pow2Bytes(size);
      assert 0 <= n % m < m;
    }
  }

  /** A negative number of at most 32 bits that was written in 32 bits, as five bytes instead of ten, is read as well. */
  lemma {:induction false} ShortNegativeIsRead(f: Field, n: int, rest: Bytes)
    requires f.ltype.VarintType? && IntSize(f.dataSize) && f.dataSize <= 4 && n < 0 && SignedFits(n, f.dataSize)
    ensures 0 <= n + TWO_32 && |Varint(n + TWO_32)| == 5
    ensures |Varint(n % TWO_64)| == 10
    ensures DecodeNumber(f, Varint(n + TWO_32) + rest) == Some((Number(n), rest))
    ensures DecodeNumber(f, Varint(n % TWO_64) + rest) == Some((Number(n), rest))
  {
    hide Varint, DecodeNumber;
    FitsIn32(n, f.dataSize);
    var z := n + TWO_32;
    assert z % TWO_32 == z by { RemainderIs(z, TWO_32, 0, z); }
    ReadsWhatFits(f, z, rest);
    LowHalf(n);
    ReadsWhatFits(f, n % TWO_64, rest);
    VarintAtLeast(z, 4);
    VarintLengths(z);
    VarintAtLeast(n % TWO_64, 9);
    VarintLengths(n % TWO_64);
  }

  lemma {:induction false} FitsIn32(n: int, size: nat)
    requires IntSize(size) && size <= 4 && n < 0 && SignedFits(n, size)
    ensures -0x8000_0000 <= n
    ensures Pow128(4) <= n + TWO_32 < TWO_32
    ensures Pow128(9) <= n + TWO_64 < TWO_64
  {
    assert Pow256(2) == 256 * Pow256(1) && Pow256(1) == 256;
    Pow256Values();
    assert Pow128(3) == 128 * (128 * (128 * Pow128(0)));
    assert Pow128(6) == 128 * (128 * (128 * Pow128(3)));
    assert Pow128(9) == 128 * (128 * (128 * Pow128(6)));
    assert Pow128(4) == 128 * Pow128(3);
  }

  lemma {:induction false} LowHalf(n: int)
    requires -0x8000_0000 <= n < 0
    ensures n % TWO_64 == n + TWO_64
    ensures (n + TWO_64) % TWO_32 == n + TWO_32
  {
    ModuloOf(n, TWO_64);
    RemainderIs(n + TWO_64, TWO_32, TWO_32 - 1, n + TWO_32);
  }

  lemma {:induction false} VarintAtLeast(v: nat, k: nat)
    requires v >= Pow128(k)
    ensures |Varint(v)| > k
  {
    if k > 0 && v >= 128 {
      VarintAtLeast(v / 128, k - 1);
    }
  }

  // ----- the bytes -----

  function Plain(tag: nat, htype: HType, ltype: LType, sub: seq<Field>): Field {
    Field(tag, htype, ltype, 0, 0, if ltype.StringType? then 16 else 4, 3, 0, Number(0), sub)
  }

  /** The examples of the Protocol Buffers encoding guide, and one of each fixed width. */
  lemma {:induction false} EncodingGuide()
    ensures var a := [Plain(1, Optional, VarintType, [])];
            && Encode(a, [Single(true, Number(150))]) == Some([0x08, 0x96, 0x01])
            && Encode([Plain(3, Optional, SubmessageType, a)], [Single(true, Sub([Single(true, Number(150))]))])
               == Some([0x1a, 0x03, 0x08, 0x96, 0x01])
    ensures Encode([Plain(2, Optional, StringType, [])], [Single(true, Blob([0x74, 0x65, 0x73, 0x74, 0x69, 0x6e, 0x67]))])
            == Some([0x12, 0x07, 0x74, 0x65, 0x73, 0x74, 0x69, 0x6e, 0x67])
    ensures Encode([Plain(4, Repeated, VarintType, [])], [Many([Number(3), Number(270), Number(86942)])])
            == Some([0x22, 0x06, 0x03, 0x8e, 0x02, 0x9e, 0xa7, 0x05])
    ensures Encode([Plain(5, Optional, Fixed32Type, [])], [Single(true, Number(0x01020304))])
            == Some([0x2d, 0x04, 0x03, 0x02, 0x01])
    ensures Encode([Plain(6, Optional, Fixed64Type, [])], [Single(true, Number(0x0102030405060708))])
            == Some([0x31, 0x08, 0x07, 0x06, 0x05, 0x04, 0x03, 0x02, 0x01])
    ensures Encode([Plain(7, Optional, SVarintType, [])], [Single(true, Number(-2))]) == Some([0x38, 0x03])
  {
    GuideNumber();
    GuideString();
    GuidePacked();
    GuideFixed();
  }

  lemma {:induction false} OneField(f: Field, slot: Slot, bytes: Bytes)
    requires EncodeSlot(f, slot) == Some(bytes)
    ensures Encode([f], [slot]) == Some(bytes)
  {
    hide EncodeSlot;
    assert EncodeFrom([f], [slot], 1) == Some([]);
    assert bytes + [] == bytes;
  }

  lemma {:induction false} OneValue(f: Field, v: Value, tag: Bytes, body: Bytes, bytes: Bytes)
    requires TagFor(f) == tag && EncodeValue(f, v) == Some(body) && bytes == tag + body
    ensures Encode([f], [Single(true, v)]) == Some(bytes)
  {
    hide EncodeValue, TagFor;
    assert EncodeSlot(f, Single(true, v)) == Tagged(f, EncodeValue(f, v));
    OneField(f, Single(true, v), bytes);
  }

  lemma {:induction false} GuideNumber()
    ensures var a := [Plain(1, Optional, VarintType, [])];
            && Encode(a, [Single(true, Number(150))]) == Some([0x08, 0x96, 0x01])
            && Encode([Plain(3, Optional, SubmessageType, a)], [Single(true, Sub([Single(true, Number(150))]))])
               == Some([0x1a, 0x03, 0x08, 0x96, 0x01])
    ensures Encode([Plain(7, Optional, SVarintType, [])], [Single(true, Number(-2))]) == Some([0x38, 0x03])
  {
    hide EncodeSlot, EncodeFrom, ZigZag;
    var f, v := Plain(1, Optional, VarintType, []), Number(150);
    assert TagFor(f) == Varint(8) == [0x08];
    assert EncodeValue(f, v) == Some(Varint(150)) && Varint(150) == [0x96, 0x01];
    var bytes := [0x08, 0x96, 0x01];
    OneValue(f, v, [0x08], [0x96, 0x01], bytes);
    var g, w := Plain(3, Optional, SubmessageType, [f]), Sub([Single(true, v)]);
    assert TagFor(g) == Varint(26) == [0x1a];
    assert Varint(3) == [0x03] && EncodeValue(g, w) == Some([0x03] + bytes);
    OneValue(g, w, [0x1a], [0x03] + bytes, [0x1a, 0x03, 0x08, 0x96, 0x01]);
    var h := Plain(7, Optional, SVarintType, []);
    assert ZigZag(-2) == 3 by { Pow256Values(); ZigZagRoundTrip(-2); }
    assert TagFor(h) == Varint(56) == [0x38];
    OneValue(h, Number(-2), [0x38], [0x03], [0x38, 0x03]);
  }

  lemma {:induction false} GuideString()
    ensures Encode([Plain(2, Optional, StringType, [])], [Single(true, Blob([0x74, 0x65, 0x73, 0x74, 0x69, 0x6e, 0x67]))])
            == Some([0x12, 0x07, 0x74, 0x65, 0x73, 0x74, 0x69, 0x6e, 0x67])
  {
    hide EncodeSlot, EncodeFrom, UpToNul;
    var f, b := Plain(2, Optional, StringType, []), [0x74, 0x65, 0x73, 0x74, 0x69, 0x6e, 0x67];
    NoNul(b, 16);
    assert TagFor(f) == Varint(18) == [0x12];
    assert Prefixed(b) == Varint(7) + b && Varint(7) == [0x07];
    OneValue(f, Blob(b), [0x12], [0x07] + b, [0x12, 0x07, 0x74, 0x65, 0x73, 0x74, 0x69, 0x6e, 0x67]);
  }

  lemma {:induction false} GuidePacked()
    ensures Encode([Plain(4, Repeated, VarintType, [])], [Many([Number(3), Number(270), Number(86942)])])
            == Some([0x22, 0x06, 0x03, 0x8e, 0x02, 0x9e, 0xa7, 0x05])
  {
    hide EncodeFrom, Varint, EncodeValue;
    var f, items := Plain(4, Repeated, VarintType, []), [Number(3), Number(270), Number(86942)];
    GuideVarints(f);
    var body := [0x03] + ([0x8e, 0x02] + ([0x9e, 0xa7, 0x05] + []));
    assert EncodePacked(f, items, 3) == Some([]);
    assert EncodePacked(f, items, 2) == Some([0x9e, 0xa7, 0x05] + []);
    assert EncodePacked(f, items, 1) == Some([0x8e, 0x02] + ([0x9e, 0xa7, 0x05] + []));
    assert EncodePacked(f, items, 0) == Some(body);
    var bytes := [0x22, 0x06, 0x03, 0x8e, 0x02, 0x9e, 0xa7, 0x05];
    assert bytes == EncodeTag(WtString, f.tag) + Prefixed(body);
    OneField(f, Many(items), bytes);
  }

  lemma {:induction false} GuideVarints(f: Field)
    requires f.ltype.VarintType?
    ensures EncodeValue(f, Number(3)) == Some([0x03])
    ensures EncodeValue(f, Number(270)) == Some([0x8e, 0x02])
    ensures EncodeValue(f, Number(86942)) == Some([0x9e, 0xa7, 0x05])
    ensures Varint(6) == [0x06] && Varint(34) == [0x22]
  {
    assert Varint(270) == [0x8e] + Varint(2) == [0x8e, 0x02];
    assert Varint(679) == [0xa7] + Varint(5);
    assert Varint(86942) == [0x9e] + Varint(679) == [0x9e, 0xa7, 0x05];
  }

  lemma {:induction false} GuideFixed()
    ensures Encode([Plain(5, Optional, Fixed32Type, [])], [Single(true, Number(0x01020304))])
            == Some([0x2d, 0x04, 0x03, 0x02, 0x01])
    ensures Encode([Plain(6, Optional, Fixed64Type, [])], [Single(true, Number(0x0102030405060708))])
            == Some([0x31, 0x08, 0x07, 0x06, 0x05, 0x04, 0x03, 0x02, 0x01])
  {
    hide EncodeSlot, EncodeFrom, Fixed;
    var f, g := Plain(5, Optional, Fixed32Type, []), Plain(6, Optional, Fixed64Type, []);
    assert TagFor(f) == Varint(45) == [0x2d] && TagFor(g) == Varint(49) == [0x31];
    GuideWidths();
    OneValue(f, Number(0x01020304), [0x2d], Fixed(0x01020304, 4), [0x2d, 0x04, 0x03, 0x02, 0x01]);
    OneValue(g, Number(0x0102030405060708), [0x31], Fixed(0x0102030405060708, 8),
             [0x31, 0x08, 0x07, 0x06, 0x05, 0x04, 0x03, 0x02, 0x01]);
  }

  lemma {:induction false} GuideWidths()
    ensures Fixed(0x01020304, 4) == [0x04, 0x03, 0x02, 0x01]
    ensures Fixed(0x0102030405060708, 8) == [0x08, 0x07, 0x06, 0x05, 0x04, 0x03, 0x02, 0x01]
  {
    assert Fixed(0x0102, 2) == [0x02, 0x01];
    assert Fixed(0x01020304, 4) == [0x04] + ([0x03] + Fixed(0x0102, 2)) by { assert Fixed(0x010203, 3) == [0x03] + Fixed(0x0102, 2); }
    assert Fixed(0x0102030405, 5) == [0x05] + Fixed(0x01020304, 4);
    assert Fixed(0x010203040506, 6) == [0x06] + Fixed(0x0102030405, 5);
    assert Fixed(0x01020304050607, 7) == [0x07] + Fixed(0x010203040506, 6);
    assert Fixed(0x0102030405060708, 8) == [0x08] + Fixed(0x01020304050607, 7);
  }
}
