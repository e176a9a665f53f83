/**
 The last exact `format=<pixfmt>` token of a filtergraph, and the bit depth the
 graph hands to its consumer.
 */
module FormatToken {
  import opened Search

  predicate Identifier(c: char) {
    'a' <= c <= 'z' || 'A' <= c <= 'Z' || '0' <= c <= '9' || c == '_'
  }

  /** The needle stands at `k` and no identifier character follows it. */
  predicate TokenAt(graph: string, needle: string, k: int) {
    OccursAt(graph, needle, k) && (k + |needle| < |graph| ==> !Identifier(graph[k + |needle|]))
  }

  /** No occurrence of the needle can start inside another one. */
  predicate NeverOverlaps(needle: string) {
    needle != "" && forall k :: 0 < k < |needle| ==> needle[k] != needle[0]
  }

  /** The loop from `off`, with `last` found so far: occurrences are taken end to end. */
  function LastFrom(graph: string, needle: string, off: nat, last: int): int
    requires needle != ""
    decreases |graph| - off
  {
    var pos := IndexFrom(graph, needle, off);
    if pos < 0 then last
    else LastFrom(graph, needle, pos + |needle|, if TokenAt(graph, needle, pos) then pos else last)
  }

  /** `r` is the last exact token at or after `from`, or `last` when there is none there. */
  ghost predicate LastToken(graph: string, needle: string, from: nat, last: int, r: int) {
    || (from <= r && TokenAt(graph, needle, r) && forall k :: r < k ==> !TokenAt(graph, needle, k))
    || (r == last && forall k :: from <= k ==> !TokenAt(graph, needle, k))
  }

  lemma LastStep(graph: string, needle: string, off: nat, last: int)
    requires needle != ""
    ensures var pos := IndexFrom(graph, needle, off);
            LastFrom(graph, needle, off, last)
            == if pos < 0 then last
               else var end := pos + |needle|;
                    LastFrom(graph, needle, end,
                             if end < |graph| && Identifier(graph[end]) then last else pos)
    ensures IndexFrom(graph, needle, off) < 0 || off <= IndexFrom(graph, needle, off) <= |graph| - |needle|
  {
    hide IndexFrom, Identifier;
  }

  lemma {:induction false} LastFromMeans(graph: string, needle: string, off: nat, last: int)
    requires NeverOverlaps(needle)
    ensures LastToken(graph, needle, off, last, LastFrom(graph, needle, off, last))
    decreases |graph| - off
  {
    NeedleNotEmpty(needle);
    hide *;
    LastStep(graph, needle, off, last);
    NothingFound(graph, needle, off);
    var pos := IndexFrom(graph, needle, off);
    if pos < 0 {
      NoToken(graph, needle, off, last);
    } else {
      var end := pos + |needle|;
      var next := if end < |graph| && Identifier(graph[end]) then last else pos;
      LastFromMeans(graph, needle, end, next);
      TokenStep(graph, needle, off, last, pos, LastFrom(graph, needle, end, next));
    }
  }

  lemma NeedleNotEmpty(needle: string)
    requires NeverOverlaps(needle)
    ensures needle != ""
  {}

  lemma NothingFound(graph: string, needle: string, off: nat)
    ensures IndexFrom(graph, needle, off) < 0 ==> forall k :: off <= k ==> !TokenAt(graph, needle, k)
  {
    hide Identifier;
  }

  lemma NoToken(graph: string, needle: string, off: nat, last: int)
    requires forall k :: off <= k ==> !TokenAt(graph, needle, k)
    ensures LastToken(graph, needle, off, last, last)
  {
    hide TokenAt;
  }

  /** The occurrence at `pos` is a token, or not; either way none is missed before its end. */
  lemma TokenStep(graph: string, needle: string, off: nat, last: int, pos: nat, r: int)
    requires NeverOverlaps(needle) && pos == IndexFrom(graph, needle, off)
    requires var end := pos + |needle|;
             var next := if end < |graph| && Identifier(graph[end]) then last else pos;
             LastToken(graph, needle, end, next, r)
    ensures LastToken(graph, needle, off, last, r)
  {
    var end := pos + |needle|;
    assert TokenAt(graph, needle, pos) <==> !(end < |graph| && Identifier(graph[end]));
    hide IndexFrom, OccursAt, Identifier, TokenAt, NeverOverlaps;
    forall k | off <= k < end && k != pos
      ensures !TokenAt(graph, needle, k)
    {
      NoneInside(graph, needle, off, pos, k);
      NoTokenThere(graph, needle, k);
    }
  }

  lemma NoTokenThere(graph: string, needle: string, k: int)
    requires !OccursAt(graph, needle, k)
    ensures !TokenAt(graph, needle, k)
  {}

  lemma NoneInside(graph: string, needle: string, off: nat, pos: nat, k: nat)
    requires NeverOverlaps(needle) && pos == IndexFrom(graph, needle, off)
    requires off <= k < pos + |needle| && k != pos
    ensures !OccursAt(graph, needle, k)
  {
    if k > pos && k + |needle| <= |graph| {
      assert graph[pos..pos + |needle|][k - pos] == graph[k] == graph[k..k + |needle|][0];
    }
  }

  function Needle(pixfmt: string): (n: string)
    ensures n != ""
  {
    "format=" + pixfmt
  }

  /** True of every pixel format without an 'f', so of p010 and nv12. */
  lemma NeedleNeverOverlaps(pixfmt: string)
    requires 'f' !in pixfmt
    ensures NeverOverlaps(Needle(pixfmt))
  {
    var n := Needle(pixfmt);
    forall k | 0 < k < |n|
      ensures n[k] != n[0]
    {
      assert k >= 7 ==> n[k] == pixfmt[k - 7] && pixfmt[k - 7] in pixfmt;
    }
  }

  /** lastFormatToken: the offset, or -1. */
  method LastFormatToken(graph: string, pixfmt: string) returns (last: int)
    ensures last == LastFrom(graph, Needle(pixfmt), 0, -1)
    ensures 'f' !in pixfmt ==> LastToken(graph, Needle(pixfmt), 0, -1, last)
  {
    hide *;
    var needle := Needle(pixfmt);
    var off := 0;
    last := -1;
    while true
      invariant LastFrom(graph, needle, off, last) == LastFrom(graph, needle, 0, -1)
      decreases |graph| - off
    {
      LastStep(graph, needle, off, last);
      var pos := IndexFrom(graph, needle, off);
      if pos < 0 {
        break;
      }
      var end := pos + |needle|;
      if end < |graph| {
        var c := graph[end];
        if Identifier(c) {
          off := end;
          continue;
        }
      }
      last := pos;
      off := end;
    }
    if 'f' !in pixfmt {
      NeedleNeverOverlaps(pixfmt);
      LastFromMeans(graph, needle, 0, -1);
    }
  }

  // ---------------------------------------------------------------- what the encoder is handed

  function Last(graph: string, pixfmt: string): int {
    LastFrom(graph, Needle(pixfmt), 0, -1)
  }

  predicate BearsPixfmt(graph: string) {
    Last(graph, "p010") >= 0 || Last(graph, "nv12") >= 0
  }

  predicate FeedsTenBit(graph: string) {
    Last(graph, "p010") > Last(graph, "nv12")
  }

  /** graphFeedsTenBit */
  method GraphFeedsTenBit(graph: string) returns (tenBit: bool, pixfmtBearing: bool)
    ensures pixfmtBearing == BearsPixfmt(graph)
    ensures tenBit == FeedsTenBit(graph)
  {
    var lastP010 := LastFormatToken(graph, "p010");
    var lastNV12 := LastFormatToken(graph, "nv12");
    TenBitMeans(graph);
    if lastP010 < 0 && lastNV12 < 0 {
      return false, false;
    }
    return lastP010 > lastNV12, true;
  }

  /** An exact `format=p010` or `format=nv12` token. */
  predicate DepthTokenAt(graph: string, k: int) {
    TokenAt(graph, "format=p010", k) || TokenAt(graph, "format=nv12", k)
  }

  /** Ten bits: some token is p010 and no exact p010 or nv12 token comes after it. */
  ghost predicate EndsInP010(graph: string) {
    exists k :: TokenAt(graph, "format=p010", k) && forall m :: k < m ==> !DepthTokenAt(graph, m)
  }

  lemma TenBitMeans(graph: string)
    ensures FeedsTenBit(graph) <==> EndsInP010(graph)
    ensures BearsPixfmt(graph) <==> exists k :: DepthTokenAt(graph, k)
    ensures Last(graph, "p010") >= -1 && Last(graph, "nv12") >= -1
  {
    var p, n := Last(graph, "p010"), Last(graph, "nv12");
    LastMeans(graph, "p010", "format=p010");
    LastMeans(graph, "nv12", "format=nv12");
    hide *;
    Compare(graph, p, n);
  }

  /** A needle followed by a letter, a digit or an underscore is no token; by anything else, or at the end, it is. */
  lemma TokenMeans(x: string, needle: string, y: string)
    ensures TokenAt(x + needle + y, needle, |x|)
            <==> y == "" || !('a' <= y[0] <= 'z' || 'A' <= y[0] <= 'Z' || '0' <= y[0] <= '9' || y[0] == '_')
  {
    var g := x + needle + y;
    assert g[|x|..|x| + |needle|] == needle;
    if y != "" {
      assert g[|x| + |needle|] == y[0];
    }
  }

  lemma LastMeans(graph: string, pixfmt: string, needle: string)
    requires 'f' !in pixfmt && needle == "format=" + pixfmt
    ensures LastToken(graph, needle, 0, -1, Last(graph, pixfmt))
  {
    hide LastToken;
    NeedleNeverOverlaps(pixfmt);
    LastFromMeans(graph, needle, 0, -1);
  }

  lemma Compare(graph: string, p: int, n: int)
    requires LastToken(graph, "format=p010", 0, -1, p) && LastToken(graph, "format=nv12", 0, -1, n)
    ensures p > n <==> EndsInP010(graph)
    ensures p >= 0 || n >= 0 <==> exists k :: DepthTokenAt(graph, k)
    ensures p >= -1 && n >= -1
  {
    hide OccursAt, Identifier;
    OneTokenOnly(graph);
    NotNegative(graph);
    if p > n {
      assert TokenAt(graph, "format=p010", p);
      forall m | p < m
        ensures !DepthTokenAt(graph, m)
      {}
    }
    if EndsInP010(graph) {
      var k :| TokenAt(graph, "format=p010", k) && forall m :: k < m ==> !DepthTokenAt(graph, m);
      assert p >= k;
      assert n >= 0 ==> DepthTokenAt(graph, n);
    }
    if p >= 0 {
      assert DepthTokenAt(graph, p);
    }
    if n >= 0 {
      assert DepthTokenAt(graph, n);
    }
  }

  lemma NotNegative(graph: string)
    ensures forall k :: TokenAt(graph, "format=p010", k) || TokenAt(graph, "format=nv12", k) ==> k >= 0
  {}

  lemma OneTokenOnly(graph: string)
    ensures forall k :: !(TokenAt(graph, "format=p010", k) && TokenAt(graph, "format=nv12", k))
  {
    assert "format=p010"[7] != "format=nv12"[7];
  }
}
