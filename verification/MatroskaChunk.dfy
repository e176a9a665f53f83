/**
 Patching a whole chunk file: a run of gaps and clusters, and whatever is left
 once the scan finds no further cluster or cannot read one.
 */
module MatroskaChunk {
  import opened Prelude
  import opened Ebml
  import opened Search
  import opened Matroska

  /** Bytes before the cluster id, the width of the size field, the body. */
  datatype Cluster = Cluster(gap: seq<byte>, width: nat, body: seq<byte>) {
    predicate Fits() {
      1 <= width <= 8 && |body| < Limit(width)
    }

    function Bytes(): seq<byte>
      requires 1 <= width <= 8
    {
      gap + CLUSTER_ID + (EncodeSize(|body|, width) + body)
    }
  }

  datatype Chunk = Chunk(clusters: seq<Cluster>, tail: seq<byte>)

  predicate Widths(cs: seq<Cluster>) {
    forall i :: 0 <= i < |cs| ==> 1 <= cs[i].width <= 8
  }

  /** The file a chunk stands for. */
  function Bytes(cs: seq<Cluster>, tail: seq<byte>): seq<byte>
    requires Widths(cs)
  {
    if cs == [] then tail else cs[0].Bytes() + Bytes(cs[1..], tail)
  }

  /** The next cluster of a file: its gap, and the file from its size field on. */
  function NextCluster(d: seq<byte>): (r: Option<(Cluster, seq<byte>)>)
    ensures r.Some? ==> 1 <= r.value.0.width <= 8 && |r.value.1| < |d|
  {
    var at := Index(d, CLUSTER_ID);
    if at < 0 then None else TakeCluster(d[..at], d[at + 4..])
  }

  /** Read the size field and the body off the front of `t`. */
  function TakeCluster(gap: seq<byte>, t: seq<byte>): (r: Option<(Cluster, seq<byte>)>)
    ensures r.Some? ==> 1 <= r.value.0.width <= 8 && |r.value.1| <= |t|
  {
    match ReadSize(t)
    case None => None
    case Some(f) =>
      ReadSizeFacts(t);
      if f.width + f.value > |t| then None
      else Some((Cluster(gap, f.width, t[f.width..f.width + f.value]), t[f.width + f.value..]))
  }

  /** The scan: clusters one after another, then the rest verbatim. */
  function Scan(d: seq<byte>): (c: Chunk)
    ensures Widths(c.clusters)
    decreases |d|
  {
    match NextCluster(d)
    case None => Chunk([], d)
    case Some((c, rest)) =>
      var s := Scan(rest);
      Chunk([c] + s.clusters, s.tail)
  }

  // ---------------------------------------------------------------- what the patcher does to a chunk

  function PatchCluster(c: Cluster, offset: nat): Cluster {
    c.(body := PatchBody(c.body, offset))
  }

  function PatchClusters(cs: seq<Cluster>, offset: nat): (r: seq<Cluster>)
    ensures |r| == |cs|
    ensures forall i :: 0 <= i < |cs| ==> r[i] == PatchCluster(cs[i], offset)
  {
    if cs == [] then [] else [PatchCluster(cs[0], offset)] + PatchClusters(cs[1..], offset)
  }

  /** The bytes patchMatroskaClusterTimecode writes back. */
  function Patched(d: seq<byte>, offset: nat): seq<byte> {
    Bytes(PatchClusters(Scan(d).clusters, offset), Scan(d).tail)
  }

  /** Every rewritten cluster still fits the size field it has. */
  predicate AllFit(cs: seq<Cluster>, offset: nat) {
    forall i :: 0 <= i < |cs| ==> PatchCluster(cs[i], offset).Fits()
  }

  predicate AnyPatchable(cs: seq<Cluster>) {
    cs != [] && (Patchable(cs[0].body) || AnyPatchable(cs[1..]))
  }

  // ---------------------------------------------------------------- scan and bytes

  lemma TakeClusterFacts(gap: seq<byte>, t: seq<byte>, c: Cluster, rest: seq<byte>)
    requires TakeCluster(gap, t) == Some((c, rest))
    ensures c.gap == gap && c.Fits()
    ensures t == EncodeSize(|c.body|, c.width) + c.body + rest
  {
    hide ReadSize, EncodeSize, Limit;
    ReadSizeFacts(t);
    SizeReencode(t);
    Cut3(t, c.width, c.width + |c.body|);
  }

  /** A cluster that fits, put back in front of any bytes, is read back. */
  lemma TakeClusterOfBytes(gap: seq<byte>, c: Cluster, rest: seq<byte>)
    requires c.gap == gap && c.Fits()
    ensures TakeCluster(gap, EncodeSize(|c.body|, c.width) + c.body + rest) == Some((c, rest))
  {
    var e := EncodeSize(|c.body|, c.width);
    var t := e + c.body + rest;
    LimitIsPow2(c.width);
    SizeRoundTrip(|c.body|, c.width, c.body + rest);
    Assoc(e, c.body, rest);
    Pieces(e, c.body, rest);
  }

  lemma Pieces<T>(a: seq<T>, b: seq<T>, c: seq<T>)
    ensures (a + b + c)[|a|..|a| + |b|] == b && (a + b + c)[|a| + |b|..] == c
  {}

  lemma NextClusterBytes(d: seq<byte>, c: Cluster, rest: seq<byte>)
    requires NextCluster(d) == Some((c, rest))
    ensures c.Fits() && c.Bytes() + rest == d
    ensures Index(d, CLUSTER_ID) == |c.gap|
  {
    var at := Index(d, CLUSTER_ID);
    TakeClusterFacts(d[..at], d[at + 4..], c, rest);
    Cut3(d, at, at + 4);
    ClusterBytesOn(c, rest);
  }

  lemma ClusterBytesOn(c: Cluster, rest: seq<byte>)
    requires 1 <= c.width <= 8
    ensures c.Bytes() + rest == c.gap + CLUSTER_ID + (EncodeSize(|c.body|, c.width) + c.body + rest)
  {}

  /** Scanning loses nothing: the parsed chunk is the file. */
  lemma {:induction false} ScanBytes(d: seq<byte>)
    ensures Bytes(Scan(d).clusters, Scan(d).tail) == d
    ensures forall i :: 0 <= i < |Scan(d).clusters| ==> Scan(d).clusters[i].Fits()
    decreases |d|
  {
    match NextCluster(d)
    case None =>
    case Some((c, rest)) =>
      ScanBytes(rest);
      NextClusterBytes(d, c, rest);
      assert Scan(d).clusters[1..] == Scan(rest).clusters;
  }

  /** The gap of a cluster holds no cluster id, so the same gap is found in front of any new field and body. */
  lemma NextClusterAfterPatch(d: seq<byte>, c: Cluster, rest: seq<byte>, c': Cluster, rest': seq<byte>)
    requires NextCluster(d) == Some((c, rest))
    requires c'.gap == c.gap && c'.width == c.width
    ensures NextCluster(c'.Bytes() + rest') == TakeCluster(c.gap, EncodeSize(|c'.body|, c'.width) + c'.body + rest')
  {
    NextClusterBytes(d, c, rest);
    var t, t' := EncodeSize(|c.body|, c.width) + c.body + rest, EncodeSize(|c'.body|, c'.width) + c'.body + rest';
    ClusterBytesOn(c, rest);
    ClusterBytesOn(c', rest');
    GapStable(c.gap, t, t');
  }

  lemma GapStable(gap: seq<byte>, t: seq<byte>, t': seq<byte>)
    requires Index(gap + CLUSTER_ID + t, CLUSTER_ID) == |gap|
    ensures Index(gap + CLUSTER_ID + t', CLUSTER_ID) == |gap|
    ensures NextCluster(gap + CLUSTER_ID + t') == TakeCluster(gap, t')
  {
    var s, s' := gap + CLUSTER_ID + t, gap + CLUSTER_ID + t';
    var n := |gap| + 4;
    assert s[..n] == gap + CLUSTER_ID == s'[..n];
    IndexStable(s, s', CLUSTER_ID);
    assert s'[..|gap|] == gap && s'[n..] == t';
  }

  lemma ScanNone(d: seq<byte>)
    requires NextCluster(d).None?
    ensures Scan(d) == Chunk([], d)
  {}

  lemma ScanSome(d: seq<byte>, c: Cluster, rest: seq<byte>)
    requires NextCluster(d) == Some((c, rest))
    ensures |rest| < |d| && 1 <= c.width <= 8
    ensures Scan(d).clusters == [c] + Scan(rest).clusters && Scan(d).tail == Scan(rest).tail
    ensures Scan(d).clusters[1..] == Scan(rest).clusters
  {}

  lemma PatchedStep(d: seq<byte>, c: Cluster, rest: seq<byte>, offset: nat)
    requires NextCluster(d) == Some((c, rest))
    ensures 1 <= c.width <= 8
    ensures Patched(d, offset) == PatchCluster(c, offset).Bytes() + Patched(rest, offset)
    ensures PatchClusters(Scan(d).clusters, offset)
            == [PatchCluster(c, offset)] + PatchClusters(Scan(rest).clusters, offset)
    ensures AllFit(Scan(d).clusters, offset) <==> PatchCluster(c, offset).Fits() && AllFit(Scan(rest).clusters, offset)
  {
    ScanSome(d, c, rest);
    var cs, cs1 := Scan(d).clusters, Scan(rest).clusters;
    var ps := PatchClusters(cs, offset);
    assert ps[1..] == PatchClusters(cs1, offset);
    forall i | 0 <= i < |cs1| ensures cs1[i] == cs[i + 1] {}
    if AllFit(cs, offset) {
      assert PatchCluster(cs[0], offset).Fits();
      forall i | 0 <= i < |cs1| ensures PatchCluster(cs1[i], offset).Fits() {
        assert PatchCluster(cs[i + 1], offset).Fits();
      }
    }
    if PatchCluster(c, offset).Fits() && AllFit(cs1, offset) {
      forall i | 0 <= i < |cs| ensures PatchCluster(cs[i], offset).Fits() {
        if i > 0 { assert cs[i] == cs1[i - 1]; }
      }
    }
  }

  // ---------------------------------------------------------------- main results

  /**
   Reading the patched file back gives the same gaps, the rewritten bodies, the same tail,
   exactly when every rewritten body fits the width of its size field.
   */
  lemma {:induction false} PatchedFileParses(d: seq<byte>, offset: nat)
    ensures Scan(Patched(d, offset)) == Chunk(PatchClusters(Scan(d).clusters, offset), Scan(d).tail)
            <==> AllFit(Scan(d).clusters, offset)
    decreases |d|
  {
    match NextCluster(d)
    case None =>
      ScanNone(d);
    case Some((c, rest)) =>
      PatchedStep(d, c, rest, offset);
      ScanSome(d, c, rest);
      PatchedFileParses(rest, offset);
      var c', out := PatchCluster(c, offset), Patched(rest, offset);
      NextClusterAfterPatch(d, c, rest, c', out);
      if c'.Fits() {
        TakeClusterOfBytes(c.gap, c', out);
        ScanSome(Patched(d, offset), c', out);
        assert ([c'] + Scan(out).clusters)[1..] == Scan(out).clusters;
        assert ([c'] + PatchClusters(Scan(rest).clusters, offset))[1..] == PatchClusters(Scan(rest).clusters, offset);
      } else {
        MisreadCluster(Patched(d, offset), c', out);
      }
  }

  /** A body too large for its field is never read back as that cluster. */
  lemma MisreadCluster(d: seq<byte>, c: Cluster, rest: seq<byte>)
    requires 1 <= c.width <= 8 && !c.Fits()
    requires NextCluster(d) == TakeCluster(c.gap, EncodeSize(|c.body|, c.width) + c.body + rest)
    ensures Scan(d).clusters == [] || Scan(d).clusters[0] != c
  {
    if NextCluster(d).Some? {
      var got, rest2 := NextCluster(d).value.0, NextCluster(d).value.1;
      NextClusterBytes(d, got, rest2);
      ScanSome(d, got, rest2);
    }
  }

  /** Clusters that fit their size fields, each behind a gap in which no cluster id begins. */
  predicate Laid(cs: seq<Cluster>) {
    cs == [] || (cs[0].Fits() && Index(cs[0].gap + CLUSTER_ID, CLUSTER_ID) == |cs[0].gap| && Laid(cs[1..]))
  }

  /** A file laid out as clusters is scanned as those clusters, whatever their widths, gaps and bodies. */
  lemma {:induction false} ScansLaid(cs: seq<Cluster>, tail: seq<byte>)
    requires Laid(cs) && NextCluster(tail).None?
    ensures Widths(cs) && Scan(Bytes(cs, tail)) == Chunk(cs, tail)
  {
    hide NextCluster, EncodeSize, Limit;
    if cs == [] {
      ScanNone(tail);
    } else {
      ScansLaid(cs[1..], tail);
      var c, rest := cs[0], Bytes(cs[1..], tail);
      assert c.gap + CLUSTER_ID + [] == c.gap + CLUSTER_ID;
      GapStable(c.gap, [], EncodeSize(|c.body|, c.width) + c.body + rest);
      TakeClusterOfBytes(c.gap, c, rest);
      ClusterBytesOn(c, rest);
      ScanSome(Bytes(cs, tail), c, rest);
      assert cs == [c] + cs[1..];
    }
  }

  /** Such a file is written back with each body rewritten and nothing else changed but the sizes. */
  lemma PatchesLaid(cs: seq<Cluster>, tail: seq<byte>, offset: nat)
    requires Laid(cs) && NextCluster(tail).None?
    ensures Widths(cs) && Widths(PatchClusters(cs, offset))
    ensures Patched(Bytes(cs, tail), offset) == Bytes(PatchClusters(cs, offset), tail)
  {
    hide NextCluster;
    ScansLaid(cs, tail);
  }

  /** Patching is a no-op exactly on files with no patchable cluster. */
  lemma {:induction false} PatchIsNoOp(d: seq<byte>, offset: nat)
    ensures Patched(d, offset) == d <==> !AnyPatchable(Scan(d).clusters)
    decreases |d|
  {
    match NextCluster(d)
    case None =>
      ScanNone(d);
    case Some((c, rest)) =>
      PatchedStep(d, c, rest, offset);
      ScanSome(d, c, rest);
      PatchIsNoOp(rest, offset);
      NextClusterBytes(d, c, rest);
      var c', out := PatchCluster(c, offset), Patched(rest, offset);
      if Patchable(c.body) {
        PatchChangesBody(c.body, offset);
        ClusterBytesOn(c, rest);
        ClusterBytesOn(c', out);
        DifferAfter(c.gap + CLUSTER_ID, EncodeSize(|c.body|, c.width), c.body, rest,
          EncodeSize(|c'.body|, c.width), c'.body, out);
      } else {
        SameHead(c.Bytes(), rest, out);
      }
  }

  lemma SameHead<T>(a: seq<T>, b: seq<T>, b': seq<T>)
    ensures a + b == a + b' <==> b == b'
  {
    if a + b == a + b' {
      assert b == (a + b)[|a|..] == b';
    }
  }

  lemma DifferAfter(p: seq<byte>, e: seq<byte>, b: seq<byte>, r: seq<byte>, e': seq<byte>, b': seq<byte>, r': seq<byte>)
    requires |e| == |e'| && |b| >= 2 && |b'| >= 2 && b[..2] != b'[..2]
    ensures p + (e + b + r) != p + (e' + b' + r')
  {
    var s, s' := p + (e + b + r), p + (e' + b' + r');
    var n := |p| + |e|;
    assert s[n..n + 2] == b[..2];
    assert s'[n..n + 2] == b'[..2];
  }

  /** No cluster is patchable once it has been patched. */
  lemma {:induction false} NoneLeft(cs: seq<Cluster>, offset: nat)
    ensures !AnyPatchable(PatchClusters(cs, offset))
  {
    if cs != [] {
      NoneLeft(cs[1..], offset);
      var b := cs[0].body;
      if Patchable(b) { PatchedBodyParses(b, offset, SplitBody(b).value); }
    }
  }

  /**
   Patching twice, with any two offsets, is patching once, for any input bytes whose rewritten
   clusters fit their size fields; without that condition, exactly when the bytes written hold
   no cluster that reads as patchable.
   */
  lemma PatchTwice(d: seq<byte>, offset: nat, again: nat)
    ensures Patched(Patched(d, offset), again) == Patched(d, offset)
            <==> !AnyPatchable(Scan(Patched(d, offset)).clusters)
    ensures AllFit(Scan(d).clusters, offset) ==> Patched(Patched(d, offset), again) == Patched(d, offset)
  {
    PatchIsNoOp(Patched(d, offset), again);
    PatchedFileParses(d, offset);
    NoneLeft(Scan(d).clusters, offset);
  }

  /** A declared size of at most 2^(7w) - 9 leaves room enough: growth is at most 8 bytes. */
  lemma RoomSuffices(d: seq<byte>, offset: nat)
    requires forall i :: 0 <= i < |Scan(d).clusters| ==>
               |Scan(d).clusters[i].body| + 9 <= Limit(Scan(d).clusters[i].width)
    ensures AllFit(Scan(d).clusters, offset)
  {
    hide PatchBody, Limit;
    var cs := Scan(d).clusters;
    forall i | 0 <= i < |cs|
      ensures PatchCluster(cs[i], offset).Fits()
    {
      PatchedBodyGrowth(cs[i].body, offset);
    }
  }

  // ---------------------------------------------------------------- the loop

  /** Size field and body of one cluster: re-encoded at the same width if rewritten, verbatim if not. */
  method Emit(t: seq<byte>, width: nat, newBody: seq<byte>, patched: bool, end: nat) returns (piece: seq<byte>)
    requires 1 <= width <= 8 && width <= end <= |t|
    requires !patched ==> newBody == t[width..end] && ReadSize(t) == Some(SizeField(width, |newBody|))
    ensures piece == EncodeSize(|newBody|, width) + newBody
  {
    if patched {
      var field := EncodeEBMLSizeFixedWidth(|newBody|, width);
      piece := field[..] + newBody;
    } else {
      SizeReencode(t);
      piece := t[..end];
      assert t[..end] == t[..width] + t[width..end];
    }
  }

  lemma TakeIs(gap: seq<byte>, t: seq<byte>, width: nat, end: nat)
    requires width <= end <= |t| && ReadSize(t) == Some(SizeField(width, end - width))
    ensures 1 <= width <= 8
    ensures TakeCluster(gap, t) == Some((Cluster(gap, width, t[width..end]), t[end..]))
  {
    ReadSizeFacts(t);
  }

  /** One pass of the loop from the size field on: the new field and body, and where the cluster ends. */
  method PatchFromSize(t: seq<byte>, offsetMs: nat, ghost gap: seq<byte>)
    returns (piece: seq<byte>, end: nat, ok: bool, ghost c: Cluster)
    requires offsetMs < U64
    ensures ok == TakeCluster(gap, t).Some?
    ensures ok ==> end <= |t| && TakeCluster(gap, t) == Some((c, t[end..])) && 1 <= c.width <= 8
    ensures ok ==> piece == EncodeSize(|PatchBody(c.body, offsetMs)|, c.width) + PatchBody(c.body, offsetMs)
  {
    hide ReadSize, EncodeSize, Patchable, Shifted;
    piece, end, c := [], 0, Cluster([], 1, []);
    var width, value;
    width, value, ok := ReadEBMLSize(t);
    if ok { ReadSizeFacts(t); }
    if !ok || width == 0 {
      return;
    }
    end := width + value;
    if end > |t| {
      ok := false;
      return;
    }
    TakeIs(gap, t, width, end);
    c := Cluster(gap, width, t[width..end]);
    var newBody, patched := PatchClusterBody(t[width..end], offsetMs);
    piece := Emit(t, width, newBody, patched, end);
  }

  lemma LoopEnds(d: seq<byte>, offset: nat)
    requires Index(d, CLUSTER_ID) < 0
    ensures Patched(d, offset) == d
  {
    ScanNone(d);
  }

  lemma LoopStops(d: seq<byte>, gap: seq<byte>, t: seq<byte>, offset: nat)
    requires d == gap + CLUSTER_ID + t && Index(d, CLUSTER_ID) == |gap| && !TakeCluster(gap, t).Some?
    ensures Patched(d, offset) == gap + CLUSTER_ID + t
  {
    GapStable(gap, t, t);
    ScanNone(d);
  }

  lemma LoopStep(d: seq<byte>, gap: seq<byte>, t: seq<byte>, c: Cluster, rest: seq<byte>, offset: nat, piece: seq<byte>)
    requires d == gap + CLUSTER_ID + t && Index(d, CLUSTER_ID) == |gap|
    requires TakeCluster(gap, t) == Some((c, rest)) && 1 <= c.width <= 8
    requires piece == EncodeSize(|PatchBody(c.body, offset)|, c.width) + PatchBody(c.body, offset)
    ensures Patched(d, offset) == gap + CLUSTER_ID + piece + Patched(rest, offset)
    ensures rest == [] ==> Patched(rest, offset) == []
  {
    GapStable(gap, t, t);
    PatchedStep(d, c, rest, offset);
    TakeClusterFacts(gap, t, c, rest);
    assert PatchCluster(c, offset).Bytes() == gap + CLUSTER_ID + piece;
    if rest == [] { ScanNone([]); }
  }

  /** One iteration over the rest of the file: what is appended, how far the scan moves, what is still to come. */
  method PatchNext(d: seq<byte>, offsetMs: nat, ghost all: seq<byte>)
    returns (emitted: seq<byte>, used: nat, ghost rest: seq<byte>, ghost left: seq<byte>)
    requires offsetMs < U64 && d != [] && all == Patched(d, offsetMs)
    ensures 0 < used <= |d| && rest == d[used..]
    ensures rest == [] ==> left == []
    ensures rest != [] ==> left == Patched(rest, offsetMs)
    ensures emitted + left == all
  {
    hide Patched, TakeCluster, NextCluster, EncodeSize, PatchBody;
    var rel := Index(d, CLUSTER_ID);
    if rel < 0 {
      LoopEnds(d, offsetMs);
      return d, |d|, [], [];
    }
    CutAtId(d, rel);
    var gap, t := d[..rel], d[rel + 4..];
    var piece, end, ok;
    ghost var c;
    piece, end, ok, c := PatchFromSize(t, offsetMs, gap);
    if !ok {
      LoopStops(d, gap, t, offsetMs);
      return gap + CLUSTER_ID + t, |d|, [], [];
    }
    rest := t[end..];
    LoopStep(d, gap, t, c, rest, offsetMs, piece);
    emitted, used, left := gap + CLUSTER_ID + piece, rel + 4 + end, Patched(rest, offsetMs);
    assert d[used..] == rest;
  }

  lemma CutAtId(d: seq<byte>, rel: nat)
    requires Index(d, CLUSTER_ID) == rel
    ensures rel + 4 <= |d| && d == d[..rel] + CLUSTER_ID + d[rel + 4..]
  {
    assert OccursAt(d, CLUSTER_ID, rel);
    Cut3(d, rel, rel + 4);
  }

  /** patchMatroskaClusterTimecode, on the bytes of the file. */
  method PatchMatroskaClusterTimecode(data: seq<byte>, offsetMs: nat) returns (out: seq<byte>)
    requires offsetMs < U64
    ensures out == Patched(data, offsetMs)
  {
    out := [];
    var pos := 0;
    hide Patched;
    ghost var d, left, whole := data, Patched(data, offsetMs), Patched(data, offsetMs);
    if data == [] { LoopEnds([], offsetMs); }
    while pos < |data|
      invariant 0 <= pos <= |data| && d == data[pos..]
      invariant d != [] ==> left == Patched(d, offsetMs)
      invariant d == [] ==> left == []
      invariant out + left == whole
    {
      var emitted, used;
      ghost var rest, more;
      emitted, used, rest, more := PatchNext(data[pos..], offsetMs, left);
      Slice2(data, pos, used, used);
      Assoc(out, emitted, more);
      out := out + emitted;
      pos := pos + used;
      d, left := rest, more;
    }
  }
}
