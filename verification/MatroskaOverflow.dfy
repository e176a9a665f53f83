/**
 Chunks whose clusters outgrow their size fields when patched: what the written bytes
 read as, when a second patch leaves them alone, and two files to show both outcomes.
 */
module MatroskaOverflow {
  import opened Prelude
  import opened Ebml
  import opened Search
  import opened Matroska
  import opened MatroskaChunk

  // ---------------------------------------------------------------- what an outgrown cluster reads as

  /** By how much a body is past the last size its field can carry. */
  function Excess(c: Cluster): (k: nat)
    requires 1 <= c.width <= 8
  {
    if |c.body| < Limit(c.width) then 0 else |c.body| - Limit(c.width)
  }

  /** The size field loses the top bit of such a size to the marker, and carries the excess. */
  lemma EncodeOverflow(k: nat, w: nat)
    requires 1 <= w <= 8 && k < Limit(w)
    ensures EncodeSize(Limit(w) + k, w) == EncodeSize(k, w)
  {
    var e := EncodeSize(k, w);
    EncodeFitting(k, w);
    ToBytesBigEndian(e);
    HasMarkerBelow(e[0], w);
    assert ToBytes(Limit(w) + k, w) == e;
    assert e[0 := OrMarker(e[0], w)] == e;
  }

  /** Growth is at most eight bytes, so the excess is at most seven. */
  lemma ExcessBound(c: Cluster, offset: nat)
    requires c.Fits() && !PatchCluster(c, offset).Fits()
    ensures Patchable(c.body) && Excess(PatchCluster(c, offset)) <= 7 < Limit(c.width)
    ensures |PatchCluster(c, offset).body| == Limit(c.width) + Excess(PatchCluster(c, offset))
  {
    hide Patchable, Limit;
    PatchedBodyGrowth(c.body, offset);
    LimitValue(c.width);
    SevenFits(c.width);
  }

  lemma SevenFits(w: nat)
    requires 1 <= w <= 8
    ensures 7 < Limit(w)
  {
    match w
    case 1 => case 2 => case 3 => case 4 => case 5 => case 6 => case 7 => case 8 =>
  }

  /** The front of a written body, cut within its eight timestamp bytes, is nothing to patch. */
  lemma CutShort(b: seq<byte>, offset: nat, k: nat)
    requires Patchable(b) && k <= 7
    ensures k <= |PatchBody(b, offset)| && !Patchable(PatchBody(b, offset)[..k])
  {
    var p := SplitBody(b).value;
    var n := Shifted(p, offset).Bytes();
    Header(Shifted(p, offset).time, p.rest);
    assert n[0] == TIMESTAMP_ID && n[1] == SIZE8;
    var cut := n[..k];
    if k >= 2 {
      MarkedNotPatchable(cut);
    } else if k == 1 {
      assert cut[1..] == [] && cut[0..][1..] == [];
    }
  }

  /**
   An outgrown cluster is read back as a cluster of its first few bytes; the scan goes on
   inside the rest of its body, and from there into what follows.
   */
  lemma OutgrownReads(d: seq<byte>, c: Cluster, rest: seq<byte>, offset: nat)
    requires NextCluster(d) == Some((c, rest)) && !PatchCluster(c, offset).Fits()
    ensures c.Fits()
    ensures var c' := PatchCluster(c, offset);
            var k := Excess(c');
            && k <= |c'.body|
            && NextCluster(Patched(d, offset))
               == Some((Cluster(c.gap, c.width, c'.body[..k]), c'.body[k..] + Patched(rest, offset)))
            && !Patchable(c'.body[..k])
  {
    hide EncodeSize, Limit, Patchable, PatchBody, NextCluster, Patched;
    NextClusterBytes(d, c, rest);
    ExcessBound(c, offset);
    var c' := PatchCluster(c, offset);
    var k := Excess(c');
    var out := Patched(rest, offset);
    PatchedStep(d, c, rest, offset);
    NextClusterAfterPatch(d, c, rest, c', out);
    EncodeOverflow(k, c.width);
    CutShort(c.body, offset, k);
    var short := Cluster(c.gap, c.width, c'.body[..k]);
    Cut(c'.body, k);
    var e := EncodeSize(k, c.width);
    assert e + c'.body + out == e + short.body + (c'.body[k..] + out);
    TakeClusterOfBytes(c.gap, short, c'.body[k..] + out);
  }

  /**
   The first cluster that outgrows its field, if any, leaves nothing patchable in the rest of
   its body read on into the rest of the written file.
   */
  predicate Settled(d: seq<byte>, offset: nat)
    decreases |d|
  {
    match NextCluster(d)
    case None => true
    case Some((c, rest)) =>
      var c' := PatchCluster(c, offset);
      if c'.Fits() then Settled(rest, offset)
      else !AnyPatchable(Scan(c'.body[Excess(c')..] + Patched(rest, offset)).clusters)
  }

  lemma {:induction false} SettledMeans(d: seq<byte>, offset: nat)
    ensures AnyPatchable(Scan(Patched(d, offset)).clusters) <==> !Settled(d, offset)
    decreases |d|
  {
    hide Patched, PatchBody, Patchable, Scan, AnyPatchable, Limit;
    match NextCluster(d)
    case None =>
      NothingWritten(d, offset);
    case Some((c, rest)) =>
      var c', out := PatchCluster(c, offset), Patched(rest, offset);
      if c'.Fits() {
        SettledMeans(rest, offset);
        PatchedStep(d, c, rest, offset);
        NextClusterAfterPatch(d, c, rest, c', out);
        TakeClusterOfBytes(c.gap, c', out);
        WrittenNotPatchable(c.body, offset);
        NothingInFront(Patched(d, offset), c', out);
      } else {
        OutgrownReads(d, c, rest, offset);
        var k := Excess(c');
        NothingInFront(Patched(d, offset), Cluster(c.gap, c.width, c'.body[..k]), c'.body[k..] + out);
      }
  }

  lemma NothingWritten(d: seq<byte>, offset: nat)
    requires NextCluster(d).None?
    ensures !AnyPatchable(Scan(Patched(d, offset)).clusters)
  {
    ScanNone(d);
  }

  lemma WrittenNotPatchable(b: seq<byte>, offset: nat)
    ensures !Patchable(PatchBody(b, offset))
  {
    if Patchable(b) {
      PatchedBodyParses(b, offset, SplitBody(b).value);
    }
  }

  lemma NothingInFront(d: seq<byte>, c: Cluster, rest: seq<byte>)
    requires NextCluster(d) == Some((c, rest)) && !Patchable(c.body)
    ensures AnyPatchable(Scan(d).clusters) <==> AnyPatchable(Scan(rest).clusters)
  {
    hide NextCluster, Patchable, Scan;
    ScanSome(d, c, rest);
    assert Scan(d).clusters[0] == c;
  }

  /**
   Patching any file twice, with any two offsets, is patching it once if and only if what the
   first outgrown cluster leaves behind shows no patchable cluster.
   */
  lemma OverflowTwice(d: seq<byte>, offset: nat, again: nat)
    ensures Patched(Patched(d, offset), again) == Patched(d, offset) <==> Settled(d, offset)
  {
    hide Patched, Settled;
    PatchTwice(d, offset, again);
    SettledMeans(d, offset);
  }

  /** A file of one cluster and no more: the rest of its own new body decides. */
  lemma OneCluster(d: seq<byte>, c: Cluster, offset: nat)
    requires NextCluster(d) == Some((c, [])) && !PatchCluster(c, offset).Fits()
    ensures 1 <= c.width <= 8 && Excess(PatchCluster(c, offset)) <= |PatchCluster(c, offset).body|
    ensures !AllFit(Scan(d).clusters, offset)
    ensures Settled(d, offset)
            <==> !AnyPatchable(Scan(PatchCluster(c, offset).body[Excess(PatchCluster(c, offset))..]).clusters)
  {
    hide PatchBody, AnyPatchable, Limit;
    OutgrownReads(d, c, [], offset);
    var b := PatchCluster(c, offset).body[Excess(PatchCluster(c, offset))..];
    NoTail(offset);
    assert b + [] == b;
    PatchedStep(d, c, [], offset);
  }

  lemma NoTail(offset: nat)
    ensures Patched([], offset) == []
  {
    ScanNone([]);
  }

  // ---------------------------------------------------------------- two files

  /** Eight bytes of payload that happen to look like a cluster with timestamp 5. */
  const NESTED: seq<byte> := [0x1F, 0x43, 0xB6, 0x75, 0x83, 0xE7, 0x81, 0x05]

  function Zeros(n: nat): seq<byte> {
    seq(n, i => 0)
  }

  /** Timestamp 0, then 118 bytes: 121 bytes, which become 128, one more than a one-byte field holds. */
  function OverflowBody(rest: seq<byte>): Body {
    Body([], [0x81], [0], rest)
  }

  function OverflowFile(rest: seq<byte>): seq<byte> {
    Cluster([], 1, OverflowBody(rest).Bytes()).Bytes()
  }

  /** What the patched body of such a file holds. */
  function Overflowed(rest: seq<byte>, offset: nat): seq<byte> {
    [TIMESTAMP_ID, SIZE8] + TimeBytes(Wrap64(offset)) + rest
  }

  lemma OneByteSize(b: byte, rest: seq<byte>)
    requires b >= 128
    ensures ReadSize([b] + rest) == Some(SizeField(1, b - 128))
  {
    assert ([b] + rest)[..1] == [b];
    assert [b][..0] == [];
    assert BigEndian([b]) == b;
    LimitValue(1);
  }

  lemma TimestampBody(size: byte, time: seq<byte>, rest: seq<byte>)
    requires size >= 128 && |time| == size - 128
    ensures SplitBody(Body([], [size], time, rest).Bytes()) == Some(Body([], [size], time, rest))
  {
    var b := Body([], [size], time, rest).Bytes();
    assert b[0] == TIMESTAMP_ID && b[0..] == b && b[..0] == [];
    assert b[1..] == [size] + (time + rest);
    OneByteSize(size, time + rest);
    assert b[1..2] == [size] && b[2..2 + |time|] == time && b[2 + |time|..] == rest;
  }

  /** Nothing before the payload's own cluster id. */
  lemma NestedIsFound(head: seq<byte>)
    requires forall i :: 0 <= i < |head| ==> head[i] != 0x1F
    ensures NextCluster(head + NESTED) == Some((Cluster(head, 1, [0xE7, 0x81, 0x05]), []))
  {
    var s := head + NESTED;
    assert s[|head|..|head| + 4] == CLUSTER_ID;
    assert OccursAt(s, CLUSTER_ID, |head|);
    forall k | 0 <= k < |head|
      ensures !OccursAt(s, CLUSTER_ID, k)
    {
      assert s[k] == head[k] != CLUSTER_ID[0];
    }
    var t := s[|head| + 4..];
    assert t == [0x83] + [0xE7, 0x81, 0x05];
    OneByteSize(0x83, [0xE7, 0x81, 0x05]);
    assert s[..|head|] == head && t[1..4] == [0xE7, 0x81, 0x05] && t[4..] == [];
  }

  lemma NewBody(rest: seq<byte>, offset: nat)
    requires |rest| == 118
    ensures PatchBody(OverflowBody(rest).Bytes(), offset) == Overflowed(rest, offset)
    ensures |Overflowed(rest, offset)| == 128
  {
    var p := OverflowBody(rest);
    TimestampBody(0x81, [0], rest);
    PatchBodyParts(p.Bytes(), offset, p);
    assert [0][..0] == [];
    assert BigEndian([0]) == 0;
    Header(TimeBytes(Wrap64(offset)), rest);
  }

  lemma FirstCluster(rest: seq<byte>)
    requires |rest| == 118
    ensures NextCluster(OverflowFile(rest)) == Some((Cluster([], 1, OverflowBody(rest).Bytes()), []))
  {
    var c := Cluster([], 1, OverflowBody(rest).Bytes());
    var t := EncodeSize(|c.body|, 1) + c.body;
    assert |c.body| == 121;
    LimitValue(1);
    assert c.Bytes() == CLUSTER_ID + t;
    assert c.Bytes()[0..4] == CLUSTER_ID;
    assert OccursAt(c.Bytes(), CLUSTER_ID, 0);
    TakeClusterOfBytes([], c, []);
    assert t + [] == t;
    assert c.Bytes()[..0] == [] && c.Bytes()[4..] == t;
  }

  /** Such a file outgrows its field by nothing: the whole new body is read as loose bytes. */
  lemma OverflowFileTwice(rest: seq<byte>, offset: nat, again: nat)
    requires |rest| == 118
    ensures !AllFit(Scan(OverflowFile(rest)).clusters, offset)
    ensures Patched(Patched(OverflowFile(rest), offset), again) == Patched(OverflowFile(rest), offset)
            <==> !AnyPatchable(Scan(Overflowed(rest, offset)).clusters)
  {
    hide Patched, OverflowFile, OverflowBody, Overflowed, Scan, AllFit, Settled, PatchBody, NextCluster, AnyPatchable;
    FirstCluster(rest);
    NewBody(rest, offset);
    LimitValue(1);
    var c := Cluster([], 1, OverflowBody(rest).Bytes());
    OneCluster(OverflowFile(rest), c, offset);
    assert PatchCluster(c, offset).body[0..] == Overflowed(rest, offset);
    OverflowTwice(OverflowFile(rest), offset, again);
  }

  /** A payload that looks like a cluster breaks it: a second pass patches the payload. */
  lemma OverflowBreaksPatching(again: nat)
    ensures var d := OverflowFile(Zeros(110) + NESTED);
            && !AllFit(Scan(d).clusters, 0)
            && Patched(Patched(d, 0), again) != Patched(d, 0)
  {
    hide Patched, OverflowFile, Scan, AllFit;
    var rest := Zeros(110) + NESTED;
    assert Wrap64(0) == 0;
    assert Overflowed(rest, 0) == ZeroHead() + NESTED;
    NoIdInHead();
    NestedPatchable(ZeroHead());
    OverflowFileTwice(rest, 0, again);
  }

  /** Fitting is not needed for it: a payload of zeros survives a second pass all the same. */
  lemma FittingNotNeeded(again: nat)
    ensures var d := OverflowFile(Zeros(118));
            && !AllFit(Scan(d).clusters, 0)
            && Patched(Patched(d, 0), again) == Patched(d, 0)
  {
    hide Patched, OverflowFile, Scan, AllFit;
    assert Wrap64(0) == 0;
    NoIdInHead();
    var s := Overflowed(Zeros(118), 0);
    forall i | 0 <= i < |s|
      ensures s[i] != 0x1F
    {
      if i < |ZeroHead()| {
        assert s[i] == ZeroHead()[i];
      }
    }
    NoId(s);
    OverflowFileTwice(Zeros(118), 0, again);
  }

  lemma NoId(s: seq<byte>)
    requires forall i :: 0 <= i < |s| ==> s[i] != 0x1F
    ensures !AnyPatchable(Scan(s).clusters)
  {
    forall k | 0 <= k && k + 4 <= |s|
      ensures !OccursAt(s, CLUSTER_ID, k)
    {
      assert s[k..k + 4][0] == s[k] != CLUSTER_ID[0];
    }
    ScanNone(s);
  }

  /** The start of the rewritten body: the zero timestamp and the zero padding. */
  function ZeroHead(): seq<byte> {
    [TIMESTAMP_ID, SIZE8] + TimeBytes(0) + Zeros(110)
  }

  lemma NoIdInHead()
    ensures forall i :: 0 <= i < |ZeroHead()| ==> ZeroHead()[i] != 0x1F
  {
    ZeroBytes(8);
    forall i | 0 <= i < 8 ensures TimeBytes(0)[i] == 0 {}
  }

  lemma NestedPatchable(head: seq<byte>)
    requires forall i :: 0 <= i < |head| ==> head[i] != 0x1F
    ensures AnyPatchable(Scan(head + NESTED).clusters)
  {
    NestedIsFound(head);
    PayloadPatchable();
    PatchableHead(head + NESTED, Cluster(head, 1, [0xE7, 0x81, 0x05]), []);
  }

  lemma PatchableHead(d: seq<byte>, c: Cluster, rest: seq<byte>)
    requires NextCluster(d) == Some((c, rest)) && Patchable(c.body)
    ensures AnyPatchable(Scan(d).clusters)
  {
    ScanSome(d, c, rest);
  }

  lemma PayloadPatchable()
    ensures Patchable([0xE7, 0x81, 0x05])
  {
    var p := Body([], [0x81], [5], []);
    TimestampBody(0x81, [5], []);
    assert p.Bytes() == [0xE7, 0x81, 0x05];
  }

  lemma {:induction false} ZeroBytes(n: nat)
    ensures forall i :: 0 <= i < n ==> ToBytes(0, n)[i] == 0
  {
    if n > 0 { ZeroBytes(n - 1); }
  }
}
