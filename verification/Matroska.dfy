/**
 The cluster patcher (RFC 9559 section 5.1.3): every Cluster of a chunk gets its
 Timestamp shifted and rewritten on eight bytes, and loses a leading CRC-32
 (RFC 8794 section 11.3.1).
 */
module Matroska {
  import opened Prelude
  import opened Ebml
  import opened Search

  const CLUSTER_ID: seq<byte> := [0x1F, 0x43, 0xB6, 0x75]
  const CRC32_ID: byte := 0xBF
  const TIMESTAMP_ID: byte := 0xE7
  /** One-byte size field carrying 8: the mark of a timestamp this patcher wrote. */
  const SIZE8: byte := 0x88

  // ---------------------------------------------------------------- one cluster body

  /** A body taken apart: [CRC-32] E7 <size> <timestamp> <rest>. */
  datatype Body = Body(crc: seq<byte>, field: seq<byte>, time: seq<byte>, rest: seq<byte>) {
    function Bytes(): seq<byte> {
      crc + [TIMESTAMP_ID] + field + time + rest
    }

    /** The timestamp as the 64-bit reader sees it. */
    function Timestamp(): nat {
      Wrap64(BigEndian(time))
    }

    /** Already in the form the patcher writes. */
    predicate Marked() {
      field == [SIZE8]
    }
  }

  /** Where the scan looks for the timestamp: past a readable leading CRC-32 element. */
  function AfterCrc(b: seq<byte>): (pos: nat) {
    if b == [] || b[0] != CRC32_ID then 0
    else match ReadSize(b[1..])
      case None => 0
      case Some(f) => 1 + f.width + f.value
  }

  /** Take the timestamp element off the front of `t`. */
  function SplitTimestamp(crc: seq<byte>, t: seq<byte>): (r: Option<Body>) {
    if t == [] || t[0] != TIMESTAMP_ID then None
    else match ReadSize(t[1..])
      case None => None
      case Some(f) =>
        var start := 1 + f.width;
        if start + f.value > |t| then None
        else Some(Body(crc, t[1..start], t[start..start + f.value], t[start + f.value..]))
  }

  function SplitBody(b: seq<byte>): (r: Option<Body>) {
    var pos := AfterCrc(b);
    if pos > |b| then None else SplitTimestamp(b[..pos], b[pos..])
  }

  /** The parts of a body are that body, cut up. */
  lemma SplitBodyBytes(b: seq<byte>)
    requires SplitBody(b).Some?
    ensures SplitBody(b).value.Bytes() == b
  {
    var pos := AfterCrc(b);
    hide SplitTimestamp, ReadSize;
    SplitTimestampBytes(b[..pos], b[pos..]);
    Cut(b, pos);
  }

  lemma SplitTimestampBytes(crc: seq<byte>, t: seq<byte>)
    requires SplitTimestamp(crc, t).Some?
    ensures SplitTimestamp(crc, t).value.Bytes() == crc + t
    ensures |SplitTimestamp(crc, t).value.field| >= 1
  {
    hide ReadSize;
    ReadSizeFacts(t[1..]);
    var f := ReadSize(t[1..]).value;
    CutBody(crc, t, 1 + f.width, 1 + f.width + f.value);
  }

  lemma CutBody(crc: seq<byte>, t: seq<byte>, i: nat, j: nat)
    requires 1 <= i <= j <= |t| && t[0] == TIMESTAMP_ID
    ensures Body(crc, t[1..i], t[i..j], t[j..]).Bytes() == crc + t
  {
    Head(t, i);
    Cut3(t, i, j);
    Regroup4(crc, t[..i], t[i..j], t[j..]);
    Assoc(crc, [TIMESTAMP_ID], t[1..i]);
  }

  lemma Head(t: seq<byte>, i: nat)
    requires 1 <= i <= |t| && t[0] == TIMESTAMP_ID
    ensures t[..i] == [TIMESTAMP_ID] + t[1..i]
  {}

  /** A body the patcher rewrites. */
  predicate Patchable(b: seq<byte>) {
    SplitBody(b).Some? && !SplitBody(b).value.Marked()
  }

  /** Eight big-endian bytes. */
  function TimeBytes(v: nat): (s: seq<byte>)
    ensures |s| == 8
  {
    ToBytes(v, 8)
  }

  lemma TimeBytesValue(v: nat)
    requires v < U64
    ensures BigEndian(TimeBytes(v)) == v
  {
    Pow256Values();
    BigEndianToBytes(v, 8);
  }

  function Shifted(p: Body, offset: nat): Body {
    Body([], [SIZE8], TimeBytes(Wrap64(p.Timestamp() + offset)), p.rest)
  }

  function PatchBody(b: seq<byte>, offset: nat): seq<byte> {
    if Patchable(b) then Shifted(SplitBody(b).value, offset).Bytes() else b
  }

  lemma ReadMark(rest: seq<byte>)
    ensures ReadSize([SIZE8] + rest) == Some(SizeField(1, 8))
  {
    assert ([SIZE8] + rest)[..1] == [SIZE8];
    assert [SIZE8][..0] == [];
    assert BigEndian([SIZE8]) == SIZE8;
  }

  /** A timestamp element in the patcher's own form is read back as written. */
  lemma SplitMarked(time: seq<byte>, rest: seq<byte>)
    requires |time| == 8
    ensures var n := Body([], [SIZE8], time, rest).Bytes();
            SplitBody(n) == Some(Body([], [SIZE8], time, rest))
  {
    var n := Body([], [SIZE8], time, rest).Bytes();
    assert n == [TIMESTAMP_ID, SIZE8] + time + rest;
    assert n[1..] == [SIZE8] + (time + rest);
    ReadMark(time + rest);
    assert n[0..] == n && n[1..2] == [SIZE8] && n[2..10] == time && n[10..] == rest;
  }

  lemma Growth(p: Body, offset: nat)
    requires |p.field| >= 1
    ensures |Shifted(p, offset).Bytes()| <= |p.Bytes()| + 8
  {}

  lemma ShiftedTimestamp(p: Body, offset: nat)
    ensures Shifted(p, offset).Timestamp() == Wrap64(p.Timestamp() + offset)
  {
    TimeBytesValue(Wrap64(p.Timestamp() + offset));
  }

  lemma ShiftedSplits(p: Body, offset: nat)
    ensures SplitBody(Shifted(p, offset).Bytes()) == Some(Shifted(p, offset))
  {
    SplitMarked(Shifted(p, offset).time, p.rest);
  }

  /** Parsing a rewritten body gives the shifted timestamp, no CRC-32, and the old rest. */
  lemma PatchedBodyParses(b: seq<byte>, offset: nat, p: Body)
    requires SplitBody(b) == Some(p) && !p.Marked()
    ensures SplitBody(PatchBody(b, offset)) == Some(Shifted(p, offset))
    ensures Shifted(p, offset).Timestamp() == Wrap64(p.Timestamp() + offset)
    ensures Shifted(p, offset).crc == [] && Shifted(p, offset).rest == p.rest
    ensures !Patchable(PatchBody(b, offset))
  {
    ShiftedTimestamp(p, offset);
    ShiftedSplits(p, offset);
  }

  lemma PatchedBodyGrowth(b: seq<byte>, offset: nat)
    ensures |PatchBody(b, offset)| <= |b| + 8
  {
    if Patchable(b) {
      SplitBodyBytes(b);
      SplitTimestampBytes(b[..AfterCrc(b)], b[AfterCrc(b)..]);
      Growth(SplitBody(b).value, offset);
    }
  }

  /** The guard of the source: marker byte 0x88 is the width-1 size field of value 8. */
  lemma GuardIsMarked(t: seq<byte>)
    requires ReadSize(t).Some?
    ensures var f := ReadSize(t).value;
            f.width <= |t| && ((t[0] == SIZE8 && f.value == 8) <==> t[..f.width] == [SIZE8])
  {
    ReadSizeFacts(t);
    if t[0] == SIZE8 {
      assert t == [SIZE8] + t[1..];
      ReadMark(t[1..]);
    }
  }

  lemma MarkedNotPatchable(b: seq<byte>)
    requires |b| >= 2 && b[0] == TIMESTAMP_ID && b[1] == SIZE8
    ensures !Patchable(b)
  {
    assert b[0..] == b;
    assert b[1..] == [SIZE8] + b[2..];
    ReadMark(b[2..]);
    if SplitBody(b).Some? { assert b[1..2] == [SIZE8]; }
  }

  /** A rewritten body differs from the original one in its first two bytes. */
  lemma PatchChangesBody(b: seq<byte>, offset: nat)
    requires Patchable(b)
    ensures |b| >= 2 && PatchBody(b, offset)[..2] != b[..2]
  {
    var n := PatchBody(b, offset);
    assert n[0] == TIMESTAMP_ID && n[1] == SIZE8;
    assert n[..2] == [TIMESTAMP_ID, SIZE8];
    SplitBodyBytes(b);
    ReadSizeFacts(b[AfterCrc(b)..][1..]);
    if b[..2] == n[..2] {
      assert b[0] == b[..2][0] && b[1] == b[..2][1];
      MarkedNotPatchable(b);
    }
  }

  // ---------------------------------------------------------------- the bodies it rewrites, byte by byte

  /** An EBML element: id, size field of width w, data (RFC 8794 sections 4 and 6). */
  function Element(id: byte, w: nat, data: seq<byte>): seq<byte>
    requires 1 <= w <= 8
  {
    [id] + EncodeSize(|data|, w) + data
  }

  /** The data's length fits a size field of width w. */
  predicate Sized(w: nat, data: seq<byte>) {
    1 <= w <= 8 && |data| < Pow2(7 * w)
  }

  /** A timestamp element in any other form than the patcher's own. */
  predicate OtherForm(w: nat, time: seq<byte>) {
    Sized(w, time) && EncodeSize(|time|, w) != [0x88]
  }

  lemma ReadElement(w: nat, data: seq<byte>, rest: seq<byte>)
    requires Sized(w, data)
    ensures ReadSize(EncodeSize(|data|, w) + data + rest) == Some(SizeField(w, |data|))
  {
    SizeRoundTrip(|data|, w, data + rest);
    Assoc(EncodeSize(|data|, w), data, rest);
  }

  lemma SplitsElement(crc: seq<byte>, w: nat, time: seq<byte>, rest: seq<byte>)
    requires Sized(w, time)
    ensures SplitTimestamp(crc, Element(0xE7, w, time) + rest) == Some(Body(crc, EncodeSize(|time|, w), time, rest))
  {
    hide ReadSize;
    var e := EncodeSize(|time|, w);
    var t := Element(0xE7, w, time) + rest;
    ReadElement(w, time, rest);
    assert t == [0xE7] + (e + time + rest);
    assert t[1..] == e + time + rest;
    assert t[1..1 + w] == e && t[1 + w..1 + w + |time|] == time && t[1 + w + |time|..] == rest;
  }

  lemma SkipsElement(w: nat, c: seq<byte>, rest: seq<byte>)
    requires Sized(w, c)
    ensures AfterCrc(Element(0xBF, w, c) + rest) == |Element(0xBF, w, c)|
  {
    hide ReadSize;
    var b := Element(0xBF, w, c) + rest;
    ReadElement(w, c, rest);
    assert b[1..] == EncodeSize(|c|, w) + c + rest;
  }

  /** What any body with a timestamp up front becomes: the rest stands after a timestamp of eight bytes. */
  lemma PatchesPlain(w: nat, time: seq<byte>, rest: seq<byte>, offset: nat)
    requires OtherForm(w, time)
    ensures PatchBody(Element(0xE7, w, time) + rest, offset)
            == [0xE7, 0x88] + ToBytes((BigEndian(time) + offset) % U64, 8) + rest
    ensures Patchable(Element(0xE7, w, time) + rest)
  {
    var b := Element(0xE7, w, time) + rest;
    assert b[0] == 0xE7;
    assert b[..0] == [] && b[0..] == b;
    SplitsElement([], w, time, rest);
    PatchesSplit(b, Body([], EncodeSize(|time|, w), time, rest), offset);
  }

  /** The same behind a CRC-32 element of any size, which goes. */
  lemma PatchesCrc(v: nat, crc: seq<byte>, w: nat, time: seq<byte>, rest: seq<byte>, offset: nat)
    requires Sized(v, crc) && OtherForm(w, time)
    ensures PatchBody(Element(0xBF, v, crc) + (Element(0xE7, w, time) + rest), offset)
            == [0xE7, 0x88] + ToBytes((BigEndian(time) + offset) % U64, 8) + rest
    ensures Patchable(Element(0xBF, v, crc) + (Element(0xE7, w, time) + rest))
  {
    hide Element, AfterCrc, SplitTimestamp, PatchBody, Patchable, OtherForm, EncodeSize;
    OtherIsSized(w, time);
    var x, y := Element(0xBF, v, crc), Element(0xE7, w, time) + rest;
    var b := x + y;
    SkipsElement(v, crc, y);
    assert b[..|x|] == x && b[|x|..] == y;
    SplitsElement(x, w, time, rest);
    PatchesSplit(b, Body(x, EncodeSize(|time|, w), time, rest), offset);
  }

  lemma OtherIsSized(w: nat, time: seq<byte>)
    requires OtherForm(w, time)
    ensures Sized(w, time) && EncodeSize(|time|, w) != [SIZE8]
  {}

  lemma PatchesSplit(b: seq<byte>, p: Body, offset: nat)
    requires SplitBody(b) == Some(p) && !p.Marked()
    ensures PatchBody(b, offset) == [0xE7, 0x88] + ToBytes((BigEndian(p.time) + offset) % U64, 8) + p.rest
    ensures Patchable(b)
  {
    ShiftedTime(p, offset);
    PatchBodyParts(b, offset, p);
    hide SplitBody, PatchBody, BigEndian, ToBytes;
    Header(Shifted(p, offset).time, p.rest);
  }

  lemma ShiftedTime(p: Body, offset: nat)
    ensures Shifted(p, offset).time == ToBytes((BigEndian(p.time) + offset) % U64, 8)
  {
    hide BigEndian, ToBytes, Wrap64;
    Wrap64IsMod(BigEndian(p.time));
    Wrap64IsMod(BigEndian(p.time) % U64 + offset);
    ModTwice(BigEndian(p.time), offset);
  }

  lemma ModTwice(a: nat, b: nat)
    ensures (a % U64 + b) % U64 == (a + b) % U64
  {
    var q, r := a / U64, a % U64 + b;
    Wrap64IsMod(r);
    Wrap64IsMod(r + q * U64);
    WrapDrop(r, q);
    assert a + b == r + q * U64;
  }

  /** No other body is touched. */
  lemma PatchesNoOther(b: seq<byte>)
    requires Patchable(b)
    ensures exists w, time, rest :: OtherForm(w, time)
              && (b == Element(0xE7, w, time) + rest
                  || exists v, crc :: Sized(v, crc) && b == Element(0xBF, v, crc) + (Element(0xE7, w, time) + rest))
  {
    hide ReadSize, SplitTimestamp;
    var pos := AfterCrc(b);
    var w, time, rest := TimestampAt(b[..pos], b[pos..]);
    if pos == 0 {
      assert b[0..] == b;
    } else {
      var v, crc := CrcBefore(b);
      Cut(b, pos);
      assert b == Element(0xBF, v, crc) + (Element(0xE7, w, time) + rest);
    }
  }

  lemma TimestampAt(crc: seq<byte>, t: seq<byte>) returns (w: nat, time: seq<byte>, rest: seq<byte>)
    requires SplitTimestamp(crc, t).Some? && !SplitTimestamp(crc, t).value.Marked()
    ensures OtherForm(w, time) && t == Element(0xE7, w, time) + rest
  {
    hide ReadSize, EncodeSize;
    var p, f := SplitTimestamp(crc, t).value, ReadSize(t[1..]).value;
    ReadSizeFacts(t[1..]);
    SizeReencode(t[1..]);
    LimitIsPow2(f.width);
    w, time, rest := f.width, p.time, p.rest;
    assert t[1..][..w] == t[1..1 + w];
    Head(t, 1 + w);
    Cut3(t, 1 + w, 1 + w + f.value);
  }

  lemma CrcBefore(b: seq<byte>) returns (v: nat, crc: seq<byte>)
    requires 0 < AfterCrc(b) <= |b|
    ensures Sized(v, crc) && b[..AfterCrc(b)] == Element(0xBF, v, crc)
  {
    hide ReadSize, EncodeSize;
    var f := ReadSize(b[1..]).value;
    ReadSizeFacts(b[1..]);
    SizeReencode(b[1..]);
    LimitIsPow2(f.width);
    v, crc := f.width, b[1 + f.width..1 + f.width + f.value];
    assert b[1..][..v] == b[1..1 + v];
    assert b[..1] == [0xBF];
    assert b[..AfterCrc(b)] == b[..1] + b[1..1 + v] + crc;
  }

  // ---------------------------------------------------------------- the loop over one body

  /** The optional CRC-32 skip. */
  method SkipCrc(body: seq<byte>) returns (pos: nat)
    ensures pos == AfterCrc(body)
  {
    hide ReadSize;
    pos := 0;
    if pos < |body| && body[pos] == CRC32_ID {
      var n, v, ok := ReadEBMLSize(body[pos + 1..]);
      if ok {
        ReadSizeFacts(body[1..]);
      }
      if ok && n > 0 {
        pos := pos + 1 + n + v;
      }
    }
  }

  /** E7 88 and the eight bytes of the new timestamp. */
  method WriteTimestamp(newVal: nat) returns (out: seq<byte>)
    ensures out == [TIMESTAMP_ID, SIZE8] + TimeBytes(newVal)
  {
    out := [TIMESTAMP_ID, SIZE8];
    var i := 7;
    while i >= 0
      invariant -1 <= i <= 7
      invariant out == [TIMESTAMP_ID, SIZE8] + ToBytes(Shr8(newVal, i + 1), 7 - i)
    {
      out := out + [Shr8(newVal, i) % 256];
      i := i - 1;
    }
  }

  /** patchClusterBody. */
  method PatchClusterBody(body: seq<byte>, offsetMs: nat) returns (out: seq<byte>, patched: bool)
    requires offsetMs < U64
    ensures patched == Patchable(body)
    ensures out == PatchBody(body, offsetMs)
  {
    var pos := SkipCrc(body);
    if pos >= |body| || body[pos] != TIMESTAMP_ID {
      return body, false;
    }
    ghost var p;
    out, patched, p := PatchTimestampAt(body, pos, offsetMs);
    if patched {
      PatchBodyParts(body, offsetMs, p.value);
    }
  }

  /** The rest of patchClusterBody, once the timestamp element is found at `pos`. */
  method PatchTimestampAt(body: seq<byte>, pos: nat, offsetMs: nat)
    returns (out: seq<byte>, patched: bool, ghost p: Option<Body>)
    requires pos < |body| && body[pos] == TIMESTAMP_ID
    ensures p == SplitTimestamp(body[..pos], body[pos..])
    ensures patched == (p.Some? && !p.value.Marked())
    ensures out == if patched then Shifted(p.value, offsetMs).Bytes() else body
  {
    hide ReadSize;
    ghost var t := body[pos..];
    p := SplitTimestamp(body[..pos], t);
    assert body[pos + 1..] == t[1..];
    var width, value, ok := ReadEBMLSize(body[pos + 1..]);
    if ok { ReadSizeFacts(t[1..]); }
    if !ok || width == 0 {
      return body, false, p;
    }
    GuardIsMarked(t[1..]);
    assert t[1..][..width] == t[1..1 + width];
    if body[pos + 1] == SIZE8 && value == 8 {
      return body, false, p;
    }
    var valStart := pos + 1 + width;
    var valEnd := valStart + value;
    if valEnd > |body| {
      return body, false, p;
    }
    Slice2(body, pos, 1 + width, 1 + width + value);
    ghost var q := Body(body[..pos], t[1..1 + width], body[valStart..valEnd], body[valEnd..]);
    assert p == Some(q);
    out := Rebuild(q, body[valStart..valEnd], body[valEnd..], offsetMs);
    patched := true;
  }

  /** New timestamp element, then the rest of the body verbatim. */
  method Rebuild(ghost p: Body, time: seq<byte>, rest: seq<byte>, offsetMs: nat) returns (out: seq<byte>)
    requires p.time == time && p.rest == rest
    ensures out == Shifted(p, offsetMs).Bytes()
  {
    var oldVal := ReadUintBEBytes(time);
    var newVal := Wrap64(oldVal + offsetMs);
    out := WriteTimestamp(newVal);
    out := out + rest;
    Header(TimeBytes(newVal), rest);
  }

  lemma PatchBodyParts(b: seq<byte>, offset: nat, p: Body)
    requires SplitBody(b) == Some(p) && !p.Marked()
    ensures PatchBody(b, offset) == Shifted(p, offset).Bytes()
  {}

  lemma Header(time: seq<byte>, rest: seq<byte>)
    ensures Body([], [SIZE8], time, rest).Bytes() == [TIMESTAMP_ID, SIZE8] + time + rest
  {}
}
