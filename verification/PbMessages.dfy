// Protocol Buffers messages as nanopb describes them: field descriptors, the values a C
// structure holds for them, and the bytes a message is encoded as.

module PbMessages {
  import opened Keys
  import opened Coding

  datatype WireType = WtVarint | Wt64Bit | WtString | Wt32Bit

  datatype LType =
    | VarintType | UVarintType | SVarintType | Fixed32Type | Fixed64Type
    | BytesType | StringType | SubmessageType | FixedLengthBytesType

  datatype HType = Required | Optional | Repeated | OneOf

  const PB_SIZE_MAX: nat := 0xffff_ffff
  const TAG_LIMIT: nat := 0x2000_0000

  // Offset of the contents in a sized byte array.
  const BYTES_OFFSET: nat := 4

  /** A static field.  `dataOffset` is where its data starts, counted from the end of the field before, and
      `sizeOffset` where its has-flag or count is, counted from its data; `union` names the oneof it belongs to, `dflt` is its default value and `sub` the
      descriptors of a submessage. */
  datatype Field = Field(
    tag: nat,
    htype: HType,
    ltype: LType,
    dataOffset: nat,
    sizeOffset: int,
    dataSize: nat,
    arraySize: nat,
    union: nat,
    dflt: Value,
    sub: seq<Field>)

  /** A string is held by its bytes up to the first NUL. */
  datatype Value = Number(n: int) | Blob(bytes: Bytes) | Sub(msg: seq<Slot>)

  /** The part of the structure one field describes.  `has` is the has-flag of an optional field, and says
      of a oneof member that it is the one the union holds. */
  datatype Slot = Single(has: bool, value: Value) | Many(items: seq<Value>)

  predicate Packable(l: LType) {
    l.VarintType? || l.UVarintType? || l.SVarintType? || l.Fixed32Type? || l.Fixed64Type?
  }

  function WireTypeOf(l: LType): WireType {
    match l
    case VarintType => WtVarint
    case UVarintType => WtVarint
    case SVarintType => WtVarint
    case Fixed32Type => Wt32Bit
    case Fixed64Type => Wt64Bit
    case _ => WtString
  }

  function WireCode(w: WireType): nat {
    match w
    case WtVarint => 0
    case Wt64Bit => 1
    case WtString => 2
    case Wt32Bit => 5
  }

  // ----- integers of a C type -----

  function Pow2Bytes(size: nat): (r: nat)
    ensures r > 0
  {
    Pow256(size)
  }

  predicate IntSize(size: nat) {
    size == 1 || size == 2 || size == 4 || size == 8
  }

  predicate SignedFits(n: int, size: nat) {
    -(Pow2Bytes(size) as int) <= 2 * n < Pow2Bytes(size) as int
  }

  predicate UnsignedFits(n: int, size: nat) {
    0 <= n < Pow2Bytes(size)
  }

  /** A value cast to a signed integer of `size` bytes. */
  function CastSigned(n: int, size: nat): int {
    var m := Pow2Bytes(size);
    var low := n % m;
    if 2 * low < m then low else low - m
  }

  lemma {:induction false} CastKeeps(n: int, size: nat)
    requires SignedFits(n, size)
    ensures CastSigned(n, size) == n
  {
    ModuloOf(n, Pow2Bytes(size));
  }

  lemma {:induction false} ModuloOf(n: int, m: nat)
    requires m > 0 && 0 <= n + m < 2 * m
    ensures n % m == if n >= 0 then n else n + m
  {
    if n >= 0 {
      RemainderIs(n, m, 0, n);
    } else {
      assert (n + m) % m == n + m by { RemainderIs(n + m, m, 0, n + m); }
      var q, r := n / m, n % m;
      assert n == m * q + r;
      assert n + m == m * (q + 1) + r by { assert m * (q + 1) == m * q + m; }
      if q + 1 >= 0 {
        RemainderIs(n + m, m, q + 1, r);
      } else {
        AtLeastOnce(m, q + 1);
      }
    }
  }

  lemma {:induction false} Widens(n: int, size: nat)
    requires IntSize(size) && SignedFits(n, size)
    ensures SignedFits(n, 8)
    ensures size != 8 ==> SignedFits(n, 4)
  {
    assert Pow256(2) == 256 * Pow256(1) && Pow256(1) == 256;
    Pow256Values();
  }

  /** ZigZag as it is computed: a shift and, for negative numbers, a complement, in 64 bits. */
  function ZigZag(n: int): nat {
    var shifted := n * 2 % TWO_64;
    if n < 0 then TWO_64 - 1 - shifted else shifted
  }

  function UnZigZag(z: nat): int {
    if z % 2 == 1 then -(z / 2) - 1 else z / 2
  }

  /** Small magnitudes get small codes, and every 64-bit number comes back. */
  lemma {:induction false} ZigZagRoundTrip(n: int)
    requires SignedFits(n, 8)
    ensures ZigZag(n) == if n < 0 then -2 * n - 1 else 2 * n
    ensures ZigZag(n) < TWO_64 && UnZigZag(ZigZag(n)) == n
  {
    Pow256Values();
    ModuloOf(2 * n, TWO_64);
  }

  // ----- what a structure of the described type can hold -----

  ghost predicate ValueOk(f: Field, v: Value)
    decreases f, 1
  {
    match f.ltype
    case VarintType => v.Number? && IntSize(f.dataSize) && SignedFits(v.n, f.dataSize)
    case SVarintType => v.Number? && IntSize(f.dataSize) && SignedFits(v.n, f.dataSize)
    case UVarintType => v.Number? && IntSize(f.dataSize) && UnsignedFits(v.n, f.dataSize)
    case Fixed32Type => v.Number? && UnsignedFits(v.n, 4)
    case Fixed64Type => v.Number? && UnsignedFits(v.n, 8)
    case BytesType => v.Blob? && |v.bytes| <= PB_SIZE_MAX
    case StringType => v.Blob?
    case FixedLengthBytesType => v.Blob? && |v.bytes| == f.dataSize <= PB_SIZE_MAX
    case SubmessageType => v.Sub? && MessageOk(f.sub, v.msg)
  }

  ghost predicate SlotOk(f: Field, slot: Slot)
    decreases f, 2
  {
    f.tag <= PB_SIZE_MAX &&
    if f.htype.Repeated? then
      slot.Many? && |slot.items| <= PB_SIZE_MAX && forall i :: 0 <= i < |slot.items| ==> ValueOk(f, slot.items[i])
    else
      slot.Single? && ValueOk(f, slot.value)
  }

  ghost predicate MessageOk(fields: seq<Field>, msg: seq<Slot>)
    decreases fields, 0
  {
    |msg| == |fields| && forall i :: 0 <= i < |fields| ==> SlotOk(fields[i], msg[i])
  }

  // ----- encoding -----

  /** A length is written as a number of 64 bits. */
  function Prefixed(body: Bytes): Bytes {
    Varint(|body| % TWO_64) + body
  }

  function EncodeTag(w: WireType, tag: nat): Bytes {
    Varint(tag * 8 + WireCode(w))
  }

  function TagFor(f: Field): Bytes {
    EncodeTag(WireTypeOf(f.ltype), f.tag)
  }

  /** Bytes before the first NUL, at most `max` of them. */
  function UpToNul(b: Bytes, max: nat): (r: Bytes)
    ensures r <= b
  {
    if max == 0 || b == [] || b[0] == 0 then [] else [b[0]] + UpToNul(b[1..], max - 1)
  }

  /** The encoding of one value, or nothing if it breaks the bounds of its field. */
  function EncodeValue(f: Field, v: Value): Option<Bytes>
    decreases f, 1
  {
    match v
    case Number(n) =>
      (match f.ltype
       case VarintType => Some(Varint(n % TWO_64))
       case UVarintType => Some(Varint(n % TWO_64))
       case SVarintType => Some(Varint(ZigZag(n)))
       case Fixed32Type => Some(Fixed(n % TWO_32, 4))
       case Fixed64Type => Some(Fixed(n % TWO_64, 8))
       case _ => None)
    case Blob(b) =>
      (match f.ltype
       case BytesType => if |b| + BYTES_OFFSET > f.dataSize then None else Some(Prefixed(b))
       case StringType => Some(Prefixed(UpToNul(b, f.dataSize)))
       case FixedLengthBytesType => Some(Prefixed(b))
       case _ => None)
    case Sub(msg) =>
      if f.ltype.SubmessageType? then
        match EncodeFrom(f.sub, msg, 0)
        case None => None
        case Some(body) => Some(Prefixed(body))
      else None
  }

  /** The items from `j` on, one after another. */
  function EncodePacked(f: Field, items: seq<Value>, j: nat): Option<Bytes>
    decreases f, 2, |items| - j
  {
    if j >= |items| then Some([])
    else Both(EncodeValue(f, items[j]), EncodePacked(f, items, j + 1))
  }

  /** The items from `j` on, each with its tag. */
  function EncodeEach(f: Field, items: seq<Value>, j: nat): Option<Bytes>
    decreases f, 2, |items| - j
  {
    if j >= |items| then Some([])
    else Both(Tagged(f, EncodeValue(f, items[j])), EncodeEach(f, items, j + 1))
  }

  function Both(first: Option<Bytes>, rest: Option<Bytes>): Option<Bytes> {
    if first.Some? && rest.Some? then Some(first.value + rest.value) else None
  }

  function Tagged(f: Field, body: Option<Bytes>): Option<Bytes> {
    if body.Some? then Some(TagFor(f) + body.value) else None
  }

  function EncodeSlot(f: Field, slot: Slot): Option<Bytes>
    decreases f, 3
  {
    match slot
    case Single(has, value) =>
      if has || f.htype.Required? then
        Tagged(f, EncodeValue(f, value))
      else Some([])
    case Many(items) =>
      if items == [] then Some([])
      else if |items| > f.arraySize then None
      else if Packable(f.ltype) then
        match EncodePacked(f, items, 0)
        case None => None
        case Some(body) => Some(EncodeTag(WtString, f.tag) + Prefixed(body))
      else EncodeEach(f, items, 0)
  }

  /** The fields from `k` on. */
  function EncodeFrom(fields: seq<Field>, msg: seq<Slot>, k: nat): Option<Bytes>
    decreases fields, 0, |fields| - k
  {
    if k >= |fields| || k >= |msg| then Some([])
    else
      Both(EncodeSlot(fields[k], msg[k]), EncodeFrom(fields, msg, k + 1))
  }

  function Encode(fields: seq<Field>, msg: seq<Slot>): Option<Bytes> {
    EncodeFrom(fields, msg, 0)
  }
}
