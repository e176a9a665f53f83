/** Variable-size integers of RFC 8794 (section 4), as the cluster patcher reads and writes them. */
module Ebml {
  import opened Prelude

  const U64 := 0x1_0000_0000_0000_0000

  /** A size field as read: how many bytes it takes and the value it carries. */
  datatype SizeField = SizeField(width: nat, value: nat)

  /** a * 256^n, by repeated shifting so that proofs stay linear. */
  function Shl8(a: nat, n: nat): (p: nat)
    ensures p >= a
  {
    if n == 0 then a else 256 * Shl8(a, n - 1)
  }

  function Pow256(n: nat): (p: nat)
    ensures p >= 1
  {
    Shl8(1, n)
  }

  lemma {:induction false} ShlAdd(a: nat, b: nat, n: nat)
    ensures Shl8(a + b, n) == Shl8(a, n) + Shl8(b, n)
  {
    if n > 0 { ShlAdd(a, b, n - 1); }
  }

  lemma ShlMono(a: nat, b: nat, n: nat)
    requires a <= b
    ensures Shl8(a, n) <= Shl8(b, n)
  {
    ShlAdd(a, b - a, n);
  }

  /** v >> 8n */
  function Shr8(v: nat, n: nat): (r: nat) {
    if n == 0 then v else Shr8(v, n - 1) / 256
  }

  /** The marker bit of a width-w size field sits at this value of the first byte. */
  function Marker(w: nat): (m: nat)
    requires 1 <= w <= 8
    ensures 1 <= m <= 128
  {
    match w
    case 1 => 128 case 2 => 64 case 3 => 32 case 4 => 16
    case 5 => 8 case 6 => 4 case 7 => 2 case 8 => 1
  }

  /** 2^(7w): the number of values a width-w size field can carry. */
  function Limit(w: nat): (l: nat)
    requires 1 <= w <= 8
  {
    Shl8(Marker(w), w - 1)
  }

  /** What a 64-bit word keeps of v (by repeated subtraction, so that proofs see no modulus). */
  function Wrap64(v: nat): (r: nat)
    ensures r < U64
  {
    if v < U64 then v else Wrap64(v - U64)
  }

  lemma {:induction false} Wrap64IsMod(v: nat)
    ensures Wrap64(v) == v % U64
    decreases v
  {
    if v >= U64 {
      Wrap64IsMod(v - U64);
      assert (v - U64) % U64 == v % U64;
    }
  }

  function Pow2(n: nat): (p: nat)
    ensures p >= 1
  {
    if n == 0 then 1 else 2 * Pow2(n - 1)
  }

  lemma Pow256Values()
    ensures Pow256(0) == 1 && Pow256(1) == 0x100 && Pow256(2) == 0x1_0000 && Pow256(3) == 0x100_0000
    ensures Pow256(4) == 0x1_0000_0000 && Pow256(5) == 0x100_0000_0000 && Pow256(6) == 0x1_0000_0000_0000
    ensures Pow256(7) == 0x100_0000_0000_0000 && Pow256(8) == U64
  {
    assert Pow256(1) == 256 * Pow256(0);
    assert Pow256(2) == 256 * Pow256(1);
    assert Pow256(3) == 256 * Pow256(2);
    assert Pow256(4) == 256 * Pow256(3);
    assert Pow256(5) == 256 * Pow256(4);
    assert Pow256(6) == 256 * Pow256(5);
    assert Pow256(7) == 256 * Pow256(6);
    assert Pow256(8) == 256 * Pow256(7);
  }

  lemma LimitIsPow2(w: nat)
    requires 1 <= w <= 8
    ensures Limit(w) == Pow2(7 * w)
  {
    LimitValue(w);
    Pow2Values();
    match w
    case 1 => case 2 => case 3 => case 4 => case 5 => case 6 => case 7 => case 8 =>
  }

  lemma Pow2Values()
    ensures Pow2(7) == 0x80 && Pow2(14) == 0x4000 && Pow2(21) == 0x20_0000 && Pow2(28) == 0x1000_0000
    ensures Pow2(35) == 0x8_0000_0000 && Pow2(42) == 0x400_0000_0000
    ensures Pow2(49) == 0x2_0000_0000_0000 && Pow2(56) == 0x100_0000_0000_0000
  {
    assert Pow2(0) == 1;
    Pow2Step(0); Pow2Step(7); Pow2Step(14); Pow2Step(21);
    Pow2Step(28); Pow2Step(35); Pow2Step(42); Pow2Step(49);
  }

  lemma LimitValue(w: nat)
    requires 1 <= w <= 8
    ensures Limit(w) == match w
                        case 1 => 0x80 case 2 => 0x4000 case 3 => 0x20_0000 case 4 => 0x1000_0000
                        case 5 => 0x8_0000_0000 case 6 => 0x400_0000_0000
                        case 7 => 0x2_0000_0000_0000 case 8 => 0x100_0000_0000_0000
    ensures Limit(w) < Pow256(w)
  {
    var m := Marker(w);
    if w >= 2 { assert Shl8(m, 1) == 256 * Shl8(m, 0); }
    if w >= 3 { assert Shl8(m, 2) == 256 * Shl8(m, 1); }
    if w >= 4 { assert Shl8(m, 3) == 256 * Shl8(m, 2); }
    if w >= 5 { assert Shl8(m, 4) == 256 * Shl8(m, 3); }
    if w >= 6 { assert Shl8(m, 5) == 256 * Shl8(m, 4); }
    if w >= 7 { assert Shl8(m, 6) == 256 * Shl8(m, 5); }
    if w >= 8 { assert Shl8(m, 7) == 256 * Shl8(m, 6); }
    Pow256Values();
  }

  lemma Pow2Step(n: nat)
    ensures Pow2(n + 7) == 128 * Pow2(n)
  {
    assert Pow2(n + 7) == 2 * Pow2(n + 6) == 4 * Pow2(n + 5) == 8 * Pow2(n + 4);
    assert Pow2(n + 4) == 2 * Pow2(n + 3) == 4 * Pow2(n + 2) == 8 * Pow2(n + 1);
  }

  /** Big-endian value of a byte string. */
  function BigEndian(s: seq<byte>): (v: nat) {
    if s == [] then 0 else 256 * BigEndian(s[..|s| - 1]) + s[|s| - 1]
  }

  /** The low n bytes of v, most significant first. */
  function ToBytes(v: nat, n: nat): (s: seq<byte>)
    ensures |s| == n
  {
    if n == 0 then [] else ToBytes(v / 256, n - 1) + [v % 256]
  }

  lemma {:induction false} BigEndianBound(s: seq<byte>)
    ensures BigEndian(s) < Pow256(|s|)
  {
    if s != [] { BigEndianBound(s[..|s| - 1]); }
  }

  lemma {:induction false} BigEndianToBytes(v: nat, n: nat)
    requires v < Pow256(n)
    ensures BigEndian(ToBytes(v, n)) == v
  {
    if n > 0 {
      BigEndianToBytes(v / 256, n - 1);
      assert ToBytes(v, n)[..n - 1] == ToBytes(v / 256, n - 1);
    }
  }

  lemma DigitSplit(hi: nat, lo: nat)
    requires lo < 256
    ensures (256 * hi + lo) / 256 == hi && (256 * hi + lo) % 256 == lo
  {}

  lemma {:induction false} ToBytesBigEndian(s: seq<byte>)
    ensures ToBytes(BigEndian(s), |s|) == s
  {
    if s != [] {
      var init, last: nat := s[..|s| - 1], s[|s| - 1];
      ToBytesBigEndian(init);
      DigitSplit(BigEndian(init), last);
    }
  }

  /** The first byte carries the top digit. */
  lemma {:induction false} BigEndianHead(s: seq<byte>)
    requires s != []
    ensures BigEndian(s) == Shl8(s[0], |s| - 1) + BigEndian(s[1..])
  {
    if |s| == 1 {
      assert s[..0] == [];
    } else {
      BigEndianHead(s[..|s| - 1]);
      assert s[1..][..|s| - 2] == s[..|s| - 1][1..];
    }
  }

  /** Is bit 8-w (counting from the top, 1-based) of this byte set? */
  predicate HasMarker(b: byte, w: nat)
    requires 1 <= w <= 8
  {
    match w
    case 1 => b >= 128
    case 2 => b % 128 >= 64
    case 3 => b % 64 >= 32
    case 4 => b % 32 >= 16
    case 5 => b % 16 >= 8
    case 6 => b % 8 >= 4
    case 7 => b % 4 >= 2
    case 8 => b % 2 >= 1
  }

  lemma RoomForMarker(b: byte, w: nat)
    requires 1 <= w <= 8 && !HasMarker(b, w)
    ensures b + Marker(w) < 256
  {
    match w
    case 1 =>
    case 2 => assert b / 128 <= 1;
    case 3 => assert b / 64 <= 3;
    case 4 => assert b / 32 <= 7;
    case 5 => assert b / 16 <= 15;
    case 6 => assert b / 8 <= 31;
    case 7 => assert b / 4 <= 63;
    case 8 => assert b / 2 <= 127;
  }

  /** Bitwise or with the marker bit. */
  function OrMarker(b: byte, w: nat): (r: byte)
    requires 1 <= w <= 8
    ensures r == b || r == b + Marker(w)
  {
    if HasMarker(b, w) then b else RoomForMarker(b, w); b + Marker(w)
  }

  /** Position (1-based) of the leading one bit of a nonzero byte. */
  function LeadingOne(first: byte): (w: nat)
    requires first != 0
    ensures 1 <= w <= 8 && Marker(w) <= first < 2 * Marker(w)
  {
    if first >= 128 then 1 else if first >= 64 then 2 else if first >= 32 then 3 else if first >= 16 then 4
    else if first >= 8 then 5 else if first >= 4 then 6 else if first >= 2 then 7 else 8
  }

  /** A size field is the big-endian number 2^(7w) + value on w bytes. */
  function ReadSize(b: seq<byte>): (r: Option<SizeField>) {
    if b == [] || b[0] == 0 then None
    else
      var w := LeadingOne(b[0]);
      if |b| < w then None
      else
        SizeFieldBound(b[..w]);
        Some(SizeField(w, BigEndian(b[..w]) - Limit(w)))
  }

  lemma SizeFieldBound(s: seq<byte>)
    requires s != [] && s[0] != 0 && |s| == LeadingOne(s[0])
    ensures Limit(|s|) <= BigEndian(s) < 2 * Limit(|s|)
  {
    BigEndianHead(s);
    BigEndianBound(s[1..]);
    ShlBracket(Marker(|s|), s[0], |s| - 1);
  }

  lemma ShlBracket(m: nat, top: nat, n: nat)
    requires m <= top < 2 * m
    ensures Shl8(m, n) <= Shl8(top, n)
    ensures Shl8(top, n) + Pow256(n) <= 2 * Shl8(m, n)
  {
    ShlMono(m, top, n);
    ShlAdd(top, 1, n);
    ShlMono(top + 1, m + m, n);
    ShlAdd(m, m, n);
  }

  /** The bytes the patcher writes: low w bytes of v with the marker bit forced on. */
  function EncodeSize(v: nat, w: nat): (s: seq<byte>)
    requires 1 <= w <= 8
    ensures |s| == w
  {
    var s := ToBytes(v, w);
    s[0 := OrMarker(s[0], w)]
  }

  lemma ReadSizeFacts(b: seq<byte>)
    requires ReadSize(b).Some?
    ensures var f := ReadSize(b).value;
            1 <= f.width <= 8 && f.width <= |b| && f.value < Limit(f.width) && f.value < Pow256(7)
  {
    var w := LeadingOne(b[0]);
    SizeFieldBound(b[..w]);
    Pow256Values();
  }

  lemma Assoc3(a: seq<byte>, b: seq<byte>, c: seq<byte>)
    ensures (a + b) + c == a + (b + c)
  {}

  /** The top digit of v on n bytes, and what is left below it. */
  lemma {:induction false} ToBytesTop(v: nat, n: nat) returns (q: byte, low: nat)
    requires n >= 1 && v < Pow256(n)
    ensures v == Shl8(q, n - 1) + low && low < Pow256(n - 1)
    ensures ToBytes(v, n) == [q] + ToBytes(low, n - 1)
  {
    if n == 1 {
      q, low := v, 0;
      assert ToBytes(v / 256, 0) == [];
    } else {
      var l;
      q, l := ToBytesTop(v / 256, n - 1);
      low := 256 * l + v % 256;
      DigitSplit(l, v % 256);
      assert ToBytes(low, n - 1) == ToBytes(l, n - 2) + [v % 256];
      Assoc3([q], ToBytes(l, n - 2), [v % 256]);
    }
  }

  /** A top digit below the marker leaves the marker bit clear. */
  lemma MarkerClear(q: byte, w: nat)
    requires 1 <= w <= 8 && q < Marker(w)
    ensures !HasMarker(q, w) && q + Marker(w) < 256 && LeadingOne(q + Marker(w)) == w
  {
    hide Marker, HasMarker, LeadingOne;
    HasMarkerBelow(q, w);
    RoomForMarker(q, w);
    LeadingOneIs(q + Marker(w), w);
  }

  /** A fitting value is encoded as the w bytes of 2^(7w) + v. */
  lemma EncodeFitting(v: nat, w: nat)
    requires 1 <= w <= 8 && v < Limit(w)
    ensures BigEndian(EncodeSize(v, w)) == v + Limit(w)
    ensures EncodeSize(v, w)[0] != 0 && LeadingOne(EncodeSize(v, w)[0]) == w
  {
    LimitValue(w);
    var q, low := ToBytesTop(v, w);
    var m := Marker(w);
    if q >= m { ShlMono(m, q, w - 1); }
    MarkerClear(q, w);
    var e := EncodeSize(v, w);
    assert e == [q + m] + ToBytes(low, w - 1);
    BigEndianHead(e);
    assert e[1..] == ToBytes(low, w - 1);
    BigEndianToBytes(low, w - 1);
    ShlAdd(q, m, w - 1);
  }

  /** Encode then read, whatever bytes follow: exact precisely when the value fits the width. */
  lemma SizeRoundTrip(v: nat, w: nat, rest: seq<byte>)
    requires 1 <= w <= 8
    ensures ReadSize(EncodeSize(v, w) + rest) == Some(SizeField(w, v)) <==> v < Pow2(7 * w)
  {
    LimitIsPow2(w);
    if v < Limit(w) {
      EncodeFitting(v, w);
      assert (EncodeSize(v, w) + rest)[..w] == EncodeSize(v, w);
    } else if ReadSize(EncodeSize(v, w) + rest).Some? {
      ReadSizeFacts(EncodeSize(v, w) + rest);
    }
  }

  /** Read then encode at the width read: the original bytes. */
  lemma SizeReencode(b: seq<byte>)
    requires ReadSize(b).Some?
    ensures var f := ReadSize(b).value; EncodeSize(f.value, f.width) == b[..f.width]
  {
    hide EncodeSize, Limit;
    ReadSizeFacts(b);
    var f := ReadSize(b).value;
    EncodeFitting(f.value, f.width);
    ToBytesBigEndian(EncodeSize(f.value, f.width));
    ToBytesBigEndian(b[..f.width]);
  }

  /** first & (2^(8-w) - 1) */
  function LowBits(first: byte, w: nat): (r: byte)
    requires 1 <= w <= 8
  {
    match w
    case 1 => first % 128 case 2 => first % 64 case 3 => first % 32 case 4 => first % 16
    case 5 => first % 8 case 6 => first % 4 case 7 => first % 2 case 8 => 0
  }

  lemma LowBitsValue(first: byte, w: nat)
    requires first != 0 && LeadingOne(first) == w
    ensures LowBits(first, w) + Marker(w) == first
  {
    match w
    case 1 => case 2 => case 3 => case 4 => case 5 => case 6 => case 7 => case 8 =>
  }

  lemma {:induction false} MarkerHalves(w: nat, v: nat)
    requires 1 <= w < v <= 8
    ensures 2 * Marker(v) <= Marker(w)
    decreases v - w
  {
    if w + 1 < v { MarkerHalves(w + 1, v); }
    MarkerNext(w);
  }

  lemma MarkerNext(w: nat)
    requires 1 <= w < 8
    ensures 2 * Marker(w + 1) == Marker(w)
  {
    match w
    case 1 => case 2 => case 3 => case 4 => case 5 => case 6 => case 7 =>
  }

  lemma LeadingOneIs(first: byte, w: nat)
    requires 1 <= w <= 8 && 0 < first && Marker(w) <= first < 2 * Marker(w)
    ensures LeadingOne(first) == w
  {
    hide Marker;
    var v := LeadingOne(first);
    if w < v { MarkerHalves(w, v); }
    if v < w { MarkerHalves(v, w); }
  }

  lemma HasMarkerBelow(first: byte, w: nat)
    requires 1 <= w <= 8 && first < 2 * Marker(w)
    ensures HasMarker(first, w) <==> first >= Marker(w)
  {
    match w
    case 1 =>
    case 2 => assert first / 128 == 0;
    case 3 => assert first / 64 == 0;
    case 4 => assert first / 32 == 0;
    case 5 => assert first / 16 == 0;
    case 6 => assert first / 8 == 0;
    case 7 => assert first / 4 == 0;
    case 8 => assert first / 2 == 0;
  }

  /** The scan for the marker bit, most significant bit first. */
  method MarkerPosition(first: byte) returns (width: nat)
    requires first != 0
    ensures width == LeadingOne(first)
  {
    hide HasMarker, LeadingOne;
    assert Marker(1) == 128 && Marker(8) == 1;
    hide Marker;
    var i := 0;
    while i < 8
      invariant 0 <= i < 8 && first < 2 * Marker(i + 1)
      decreases 8 - i
    {
      HasMarkerBelow(first, i + 1);
      if first >= Marker(i + 1) { LeadingOneIs(first, i + 1); } else if i < 7 { MarkerNext(i + 1); }
      if HasMarker(first, i + 1) {
        return i + 1;
      }
      i := i + 1;
    }
    assert false;
  }

  /** readEBMLSize: bytes read, value, ok. The accumulator is a 64-bit word. */
  method ReadEBMLSize(b: seq<byte>) returns (n: nat, value: nat, ok: bool)
    ensures ok == ReadSize(b).Some?
    ensures ok ==> SizeField(n, value) == ReadSize(b).value
    ensures !ok ==> n == 0 && value == 0
  {
    if |b| == 0 || b[0] == 0 {
      return 0, 0, false;
    }
    var width := MarkerPosition(b[0]);
    if |b| < width {
      return 0, 0, false;
    }
    value := LowBits(b[0], width);
    LowBitsValue(b[0], width);
    var i := 1;
    assert b[..1][..0] == [];
    while i < width
      invariant 1 <= i <= width
      invariant value < Pow256(i)
      invariant value + Shl8(Marker(width), i - 1) == BigEndian(b[..i])
    {
      assert b[..i + 1][..i] == b[..i];
      NoWrap(value, i);
      value := (value * 256) % U64 + b[i];
      i := i + 1;
    }
    return width, value, true;
  }

  lemma NoWrap(value: nat, i: nat)
    requires 1 <= i < 8 && value < Pow256(i)
    ensures value * 256 < U64
  {
    Pow256Values();
  }

  /** encodeEBMLSizeFixedWidth: fills the buffer from its last byte, then ors in the marker. */
  method EncodeEBMLSizeFixedWidth(v: nat, width: nat) returns (out: array<byte>)
    requires 1 <= width <= 8
    ensures fresh(out) && out[..] == EncodeSize(v, width)
  {
    out := new byte[width];
    var value, i := v, width - 1;
    ghost var spec := ToBytes(v, width);
    while i >= 0
      invariant -1 <= i < width
      invariant spec == ToBytes(value, i + 1) + out[i + 1..]
    {
      out[i] := value % 256;
      assert ToBytes(value, i + 1) == ToBytes(value / 256, i) + [value % 256];
      assert out[i..] == [value % 256] + out[i + 1..];
      value := value / 256;
      i := i - 1;
    }
    assert out[..] == spec;
    out[0] := OrMarker(out[0], width);
  }

  lemma WrapShift(a: nat, x: nat)
    ensures Wrap64(Wrap64(a) * 256 + x) == Wrap64(a * 256 + x)
    decreases a
  {
    if a >= U64 {
      WrapShift(a - U64, x);
      WrapDrop((a - U64) * 256 + x, 256);
    }
  }

  lemma {:induction false} WrapDrop(v: nat, k: nat)
    ensures Wrap64(v + k * U64) == Wrap64(v)
    decreases k
  {
    if k > 0 { WrapDrop(v, k - 1); }
  }

  /** readUintBEBytes: a 64-bit accumulator, so long fields wrap. */
  method ReadUintBEBytes(b: seq<byte>) returns (v: nat)
    ensures v == Wrap64(BigEndian(b))
  {
    v := 0;
    for k := 0 to |b|
      invariant v == Wrap64(BigEndian(b[..k]))
    {
      assert b[..k + 1][..k] == b[..k];
      WrapShift(BigEndian(b[..k]), b[k]);
      v := Wrap64(v * 256 + b[k]);
    }
    assert b[..|b|] == b;
  }
}
