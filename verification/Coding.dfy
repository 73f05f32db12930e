// Fixed-width little-endian numbers, base-128 varints and length-prefixed byte strings:
// the encoders and decoders as the library runs them, each against one function.

module Coding {
  import opened Keys

  const TWO_32: nat := 0x1_0000_0000
  const TWO_64: nat := 0x1_0000_0000_0000_0000

  type u32 = n: int | 0 <= n < TWO_32
  type u64 = n: int | 0 <= n < TWO_64

  // ----- fixed width -----

  function Zeros(n: nat): (r: Bytes)
    ensures |r| == n
  {
    if n == 0 then [] else [0] + Zeros(n - 1)
  }

  function Fixed(v: nat, width: nat): (r: Bytes)
    ensures |r| == width
  {
    if width == 0 then [] else [v % 256] + Fixed(v / 256, width - 1)
  }

  function FixedValue(bs: Bytes): nat {
    if bs == [] then 0 else bs[0] + 256 * FixedValue(bs[1..])
  }

  function Pow256(width: nat): (r: nat)
    ensures r > 0
  {
    if width == 0 then 1 else 256 * Pow256(width - 1)
  }

  /** Decoding a fixed-width number gives the encoded one back, cut to the width. */
  lemma {:induction false} FixedRoundTrip(v: nat, width: nat)
    ensures FixedValue(Fixed(v, width)) == v % Pow256(width)
  {
    if width > 0 {
      FixedRoundTrip(v / 256, width - 1);
      var bs, p := Fixed(v, width), Pow256(width - 1);
      assert bs[1..] == Fixed(v / 256, width - 1);
      SplitModulo(v, p);
    }
  }

  lemma {:induction false} SplitModulo(v: nat, p: nat)
    requires p > 0
    ensures v % (256 * p) == v % 256 + 256 * ((v / 256) % p)
  {
    var q, r := v / 256, v % 256;
    var a, b := q / p, q % p;
    assert v == 256 * q + r && q == p * a + b;
    assert v == (256 * p) * a + (256 * b + r) by {
      assert 256 * (p * a) == (256 * p) * a;
    }
    RemainderIs(v, 256 * p, a, 256 * b + r);
  }

  lemma {:induction false} RemainderIs(v: nat, m: nat, a: nat, r: nat)
    requires m > 0 && v == m * a + r && r < m
    ensures v % m == r && v / m == a
  {
    var d := v / m - a;
    assert m * d + v % m - r == 0 by {
      assert v == m * (v / m) + v % m;
      assert m * (v / m) == m * (a + d);
      assert m * (a + d) == m * a + m * d;
    }
    AtLeastOnce(m, d);
  }

  lemma {:induction false} AtLeastOnce(m: nat, d: int)
    ensures d >= 1 ==> m * d >= m
    ensures d <= -1 ==> m * d + m <= 0
  {
  }

  lemma {:induction false} Pow256Values()
    ensures Pow256(4) == TWO_32 && Pow256(8) == TWO_64
  {
    assert Pow256(3) == 256 * (256 * (256 * Pow256(0)));
    assert Pow256(7) == 256 * (256 * (256 * (256 * Pow256(3))));
  }

  // ----- varints -----

  /** Seven bits a byte, least significant group first, the high bit set on all but the last. */
  function Varint(v: nat): (r: Bytes)
    ensures |r| > 0
  {
    if v < 128 then [v] else [v % 128 + 128] + Varint(v / 128)
  }

  /** The number and the length of the varint at the front of `bs`, if one of at most `limit` bytes is there. */
  function ParseVarint(bs: Bytes, limit: nat): (r: Option<(nat, nat)>)
    ensures r.Some? ==> 0 < r.value.1 <= |bs|
  {
    if limit == 0 || bs == [] then None
    else if bs[0] < 128 then Some((bs[0], 1))
    else
      match ParseVarint(bs[1..], limit - 1)
      case None => None
      case Some(p) => Some((bs[0] - 128 + 128 * p.0, 1 + p.1))
  }

  /** A varint followed by anything parses back, exactly that far. */
  lemma {:induction false} VarintRoundTrip(v: nat, rest: Bytes, limit: nat)
    requires |Varint(v)| <= limit
    ensures ParseVarint(Varint(v) + rest, limit) == Some((v, |Varint(v)|))
  {
    var bs := Varint(v) + rest;
    if v >= 128 {
      VarintRoundTrip(v / 128, rest, limit - 1);
      assert bs[1..] == Varint(v / 128) + rest;
    }
  }

  function Pow128(k: nat): (r: nat)
    ensures r > 0
  {
    if k == 0 then 1 else 128 * Pow128(k - 1)
  }

  lemma {:induction false} VarintLengthBound(v: nat, k: nat)
    requires k > 0 && v < Pow128(k)
    ensures |Varint(v)| <= k
  {
    if v >= 128 {
      assert k > 1 by {
        assert Pow128(1) == 128 * Pow128(0);
      }
      VarintLengthBound(v / 128, k - 1);
    }
  }

  /** Byte `k` holds bits 7k to 7k+6 of the number, with the high bit set on all bytes but the last; and no shorter
      sequence would do. */
  lemma {:induction false} VarintLayout(v: nat, k: nat)
    requires k < |Varint(v)|
    ensures Varint(v)[k] == v / Pow128(k) % 128 + if k + 1 < |Varint(v)| then 128 else 0
    ensures |Varint(v)| == 1 || Pow128(|Varint(v)| - 1) <= v
  {
    if v >= 128 {
      VarintLayout(v / 128, if k == 0 then 0 else k - 1);
      if k > 0 {
        DivideTwice(v, 128, Pow128(k - 1));
      }
    }
  }

  lemma {:induction false} DivideTwice(v: nat, a: nat, b: nat)
    requires a > 0 && b > 0
    ensures a * b > 0 && v / a / b == v / (a * b)
  {
    var q, r := v / a, v % a;
    var q2, r2 := q / b, q % b;
    assert q == b * q2 + r2;
    assert v == a * (b * q2 + r2) + r;
    DivideProduct(v, a, b, q2, r2, r);
  }

  lemma {:induction false} DivideProduct(v: nat, a: nat, b: nat, q: nat, r: nat, s: nat)
    requires a > 0 && r < b && s < a && v == a * (b * q + r) + s
    ensures a * b > 0 && v / (a * b) == q
  {
    Products(a, b, q, r);
    Nonnegative(a, r);
    RemainderIs(v, a * b, q, a * r + s);
  }

  lemma {:induction false} Products(a: nat, b: nat, q: nat, r: nat)
    requires a > 0 && r < b
    ensures a * (b * q + r) == (a * b) * q + a * r
    ensures a <= a * r + a <= a * b
  {
    assert a * (b * q) == (a * b) * q;
    assert a * (b * q + r) == a * (b * q) + a * r;
    AtLeastOnce(a, b - r);
    assert a * (b - r) == a * b - a * r;
    Nonnegative(a, r);
  }

  lemma {:induction false} Nonnegative(a: nat, r: nat)
    ensures a * r >= 0
  {
  }

  /** Byte `k` of a fixed-width number holds bits 8k to 8k+7. */
  lemma {:induction false} FixedLayout(v: nat, width: nat, k: nat)
    requires k < width
    ensures Fixed(v, width)[k] == v / Pow256(k) % 256
  {
    if k > 0 {
      FixedLayout(v / 256, width - 1, k - 1);
      DivideTwice(v, 256, Pow256(k - 1));
    }
  }

  /** Five bytes hold 32 bits and ten hold 64. */
  lemma {:induction false} VarintLengths(v: nat)
    ensures v < TWO_32 ==> |Varint(v)| <= 5
    ensures v < TWO_64 ==> |Varint(v)| <= 10
  {
    assert Pow128(3) == 128 * (128 * (128 * Pow128(0)));
    assert Pow128(6) == 128 * (128 * (128 * Pow128(3)));
    assert Pow128(9) == 128 * (128 * (128 * Pow128(6)));
    if v < TWO_32 {
      VarintLengthBound(v, 5);
    }
    if v < TWO_64 {
      VarintLengthBound(v, 10);
    }
  }

  method EncodeVarint32(v: u32) returns (r: Bytes)
    ensures r == Varint(v)
  {
    if v < 0x80 {
      r := [v];
    } else if v < 0x4000 {
      r := [v % 128 + 128, v / 128];
    } else if v < 0x20_0000 {
      r := [v % 128 + 128, v / 128 % 128 + 128, v / 0x4000];
      assert Varint(v / 128) == [v / 128 % 128 + 128, v / 0x4000];
    } else if v < 0x1000_0000 {
      r := [v % 128 + 128, v / 128 % 128 + 128, v / 0x4000 % 128 + 128, v / 0x20_0000];
      assert Varint(v / 0x4000) == [v / 0x4000 % 128 + 128, v / 0x20_0000];
      assert Varint(v / 128) == [v / 128 % 128 + 128, v / 0x4000 % 128 + 128, v / 0x20_0000];
    } else {
      r := [v % 128 + 128, v / 128 % 128 + 128, v / 0x4000 % 128 + 128, v / 0x20_0000 % 128 + 128, v / 0x1000_0000];
      assert Varint(v / 0x20_0000) == [v / 0x20_0000 % 128 + 128, v / 0x1000_0000];
      assert Varint(v / 0x4000) == [v / 0x4000 % 128 + 128, v / 0x20_0000 % 128 + 128, v / 0x1000_0000];
      assert Varint(v / 128)
          == [v / 128 % 128 + 128, v / 0x4000 % 128 + 128, v / 0x20_0000 % 128 + 128, v / 0x1000_0000];
    }
  }

  method EncodeVarint64(v: u64) returns (r: Bytes)
    ensures r == Varint(v)
  {
    var left: nat := v;
    r := [];
    while left >= 128
      invariant r + Varint(left) == Varint(v)
    {
      r := r + [left % 128 + 128];
      left := left / 128;
    }
    r := r + [left];
  }

  method VarintLength(v: u64) returns (len: nat)
    ensures len == |Varint(v)|
  {
    var left: nat := v;
    len := 1;
    while left >= 128
      invariant len + |Varint(left)| == |Varint(v)| + 1
    {
      left := left / 128;
      len := len + 1;
    }
  }

  /** The varint at the front of `bs` cut to the width of the result, and how long it is. */
  function ReadVarint(bs: Bytes, limit: nat, modulus: nat): (r: Option<(nat, nat)>)
    requires modulus > 0
    ensures r.Some? ==> 0 < r.value.1 <= |bs|
  {
    match ParseVarint(bs, limit)
    case None => None
    case Some(p) => Some((Cut(p.0, modulus), p.1))
  }

  /** What is left of `n` in a register of the given size. */
  function Cut(n: nat, modulus: nat): nat
    requires modulus > 0
  {
    n % modulus
  }

  lemma {:induction false} AddModulo(a: nat, b: nat, m: nat)
    requires m > 0
    ensures Cut(Cut(a, m) + b, m) == Cut(a + b, m)
    ensures Cut(0, m) == 0
  {
    var k, r := a / m, (a % m + b) % m;
    var j := (a % m + b) / m;
    assert a + b == m * (k + j) + r by {
      assert a == m * k + a % m;
      assert a % m + b == m * j + r;
      assert m * (k + j) == m * k + m * j;
    }
    RemainderIs(a + b, m, k + j, r);
  }

  /** The decoding loop; each group is added into a register of the result's width, where bits shifted
      past the top are lost. */
  method DecodeVarint(bs: Bytes, limit: nat, modulus: nat) returns (r: Option<(nat, nat)>)
    requires modulus > 0
    ensures r == ReadVarint(bs, limit, modulus)
  {
    hide Resumed, Cut, GroupAt;
    AddModulo(0, 0, modulus);
    var result: nat, scale: nat, p := 0, 1, 0;
    ghost var exact: nat := 0;
    ResumeEnds(0, 1, 0, ParseVarint(bs, limit));
    while p < limit && p < |bs|
      invariant p <= |bs| && p <= limit
      invariant result == Cut(exact, modulus)
      invariant ParseVarint(bs, limit) == Resumed(exact, scale, p, ParseVarint(bs[p..], limit - p))
    {
      var b := bs[p];
      var group := GroupAt(b, scale);
      assert bs[p..][1..] == bs[p + 1..];
      AddModulo(exact, group, modulus);
      result := Cut(result + group, modulus);
      if b >= 128 {
        ResumeStep(exact, scale, p, b, ParseVarint(bs[p + 1..], limit - p - 1));
        exact, scale, p := exact + group, 128 * scale, p + 1;
      } else {
        ResumeEnds(exact, scale, p, Some((b, 1)));
        return Some((result, p + 1));
      }
    }
    ResumeEnds(exact, scale, p, None);
    return None;
  }

  /** The seven bits of a byte, at their place. */
  function GroupAt(b: byte, scale: nat): nat {
    b % 128 * scale
  }

  /** A parse that has read `p` bytes worth `exact` and goes on with `rest` at `scale`. */
  function Resumed(exact: nat, scale: nat, p: nat, rest: Option<(nat, nat)>): Option<(nat, nat)> {
    match rest
    case None => None
    case Some(q) => Some((exact + scale * q.0, p + q.1))
  }

  lemma {:induction false} ResumeEnds(exact: nat, scale: nat, p: nat, rest: Option<(nat, nat)>)
    ensures rest.None? ==> Resumed(exact, scale, p, rest) == None
    ensures rest.Some? && rest.value.0 < 128 ==>
              Resumed(exact, scale, p, rest) == Some((exact + GroupAt(rest.value.0, scale), p + rest.value.1))
    ensures exact == 0 && scale == 1 && p == 0 ==> Resumed(exact, scale, p, rest) == rest
  {
  }

  lemma {:induction false} ResumeStep(exact: nat, scale: nat, p: nat, b: byte, rest: Option<(nat, nat)>)
    requires b >= 128
    ensures Resumed(exact, scale, p, if rest.None? then None else Some((b - 128 + 128 * rest.value.0, 1 + rest.value.1)))
            == Resumed(exact + GroupAt(b, scale), 128 * scale, p + 1, rest)
  {
    if rest.Some? {
      var q, g: nat := rest.value.0, b - 128;
      assert b % 128 == g;
      assert scale * (g + 128 * q) == g * scale + (128 * scale) * q;
    }
  }

  // ----- cursors over an input -----

  function GetVarint32(input: Bytes): (r: Option<(nat, Bytes)>)
    ensures r.Some? ==> |r.value.1| < |input|
  {
    match ReadVarint(input, 5, TWO_32)
    case None => None
    case Some(p) => Some((p.0, input[p.1..]))
  }

  function GetVarint64(input: Bytes): (r: Option<(nat, Bytes)>)
    ensures r.Some? ==> |r.value.1| < |input|
  {
    match ReadVarint(input, 10, TWO_64)
    case None => None
    case Some(p) => Some((p.0, input[p.1..]))
  }

  /** One byte below 128 is answered at once; anything else takes the loop. */
  method GetVarint32Ptr(input: Bytes) returns (r: Option<(nat, Bytes)>)
    ensures r == GetVarint32(input)
  {
    if |input| > 0 && input[0] < 128 {
      return Some((input[0], input[1..]));
    }
    var p := DecodeVarint(input, 5, TWO_32);
    return if p.None? then None else Some((p.value.0, input[p.value.1..]));
  }

  /** The length is cut to 32 bits. */
  function LengthPrefixed(s: Bytes): (r: Bytes)
    ensures |r| > |s|
  {
    Varint(|s| % TWO_32) + s
  }

  function GetLengthPrefixed(input: Bytes): (r: Option<(Bytes, Bytes)>)
    ensures r.Some? ==> |r.value.1| < |input|
  {
    match GetVarint32(input)
    case None => None
    case Some(p) =>
      if |p.1| >= p.0 then Some((p.1[..p.0], p.1[p.0..])) else None
  }

  lemma {:induction false} Varint32RoundTrip(v: nat, rest: Bytes)
    requires v < TWO_32
    ensures GetVarint32(Varint(v) + rest) == Some((v, rest))
  {
    VarintLengths(v);
    VarintRoundTrip(v, rest, 5);
    assert (Varint(v) + rest)[|Varint(v)|..] == rest;
  }

  lemma {:induction false} Varint64RoundTrip(v: nat, rest: Bytes)
    requires v < TWO_64
    ensures GetVarint64(Varint(v) + rest) == Some((v, rest))
  {
    VarintLengths(v);
    VarintRoundTrip(v, rest, 10);
    assert (Varint(v) + rest)[|Varint(v)|..] == rest;
  }

  /** A byte string of less than four gigabytes reads back whole, whatever follows it. */
  lemma {:induction false} LengthPrefixedRoundTrip(s: Bytes, rest: Bytes)
    requires |s| < TWO_32
    ensures GetLengthPrefixed(LengthPrefixed(s) + rest) == Some((s, rest))
  {
    Varint32RoundTrip(|s|, s + rest);
    assert LengthPrefixed(s) + rest == Varint(|s|) + (s + rest);
  }
}
