/** Substring search shared by the byte scanners and the filtergraph scanners. */
module Search {

  /** `pat` occurs in `s` at offset `k`. */
  predicate OccursAt<T(==)>(s: seq<T>, pat: seq<T>, k: int) {
    0 <= k && k + |pat| <= |s| && s[k..k + |pat|] == pat
  }

  /** First offset at or after `from` where `pat` occurs, or -1 (Go's `Index` on the suffix). */
  function IndexFrom<T(==)>(s: seq<T>, pat: seq<T>, from: nat): (r: int)
    ensures r == -1 || (from <= r && OccursAt(s, pat, r))
    ensures forall k :: from <= k && (r == -1 || k < r) ==> !OccursAt(s, pat, k)
    decreases |s| - from
  {
    if from + |pat| > |s| then -1
    else if s[from..from + |pat|] == pat then from
    else IndexFrom(s, pat, from + 1)
  }

  function Index<T(==)>(s: seq<T>, pat: seq<T>): (r: int)
    ensures r == -1 || OccursAt(s, pat, r)
    ensures forall k :: 0 <= k && (r == -1 || k < r) ==> !OccursAt(s, pat, k)
  {
    IndexFrom(s, pat, 0)
  }

  /** The first occurrence depends only on the text up to its own end. */
  lemma IndexStable<T>(s: seq<T>, s': seq<T>, pat: seq<T>)
    requires Index(s, pat) >= 0
    requires Index(s, pat) + |pat| <= |s'|
    requires s'[..Index(s, pat) + |pat|] == s[..Index(s, pat) + |pat|]
    ensures Index(s', pat) == Index(s, pat)
  {
    var r := Index(s, pat);
    var n := r + |pat|;
    WithinPrefix(s, n, r, n);
    WithinPrefix(s', n, r, n);
    assert OccursAt(s', pat, r);
    forall k | 0 <= k < r
      ensures !OccursAt(s', pat, k)
    {
      WithinPrefix(s, n, k, k + |pat|);
      WithinPrefix(s', n, k, k + |pat|);
      assert !OccursAt(s, pat, k);
    }
  }

  lemma WithinPrefix<T>(s: seq<T>, n: nat, i: nat, j: nat)
    requires i <= j <= n <= |s|
    ensures s[i..j] == s[..n][i..j]
  {}

  /** First index at or after `from` holding `x`, or -1 (the source's indexOfArg). */
  function IndexOf<T(==)>(s: seq<T>, x: T, from: nat): (r: int)
    ensures r == -1 || (from <= r < |s| && s[r] == x)
    ensures forall k :: from <= k < |s| && (r == -1 || k < r) ==> s[k] != x
    decreases |s| - from
  {
    if from >= |s| then -1 else if s[from] == x then from else IndexOf(s, x, from + 1)
  }

  // ---------------------------------------------------------------- cutting sequences

  lemma Cut<T>(t: seq<T>, i: nat)
    requires i <= |t|
    ensures t == t[..i] + t[i..]
  {}

  lemma Cut3<T>(t: seq<T>, i: nat, j: nat)
    requires i <= j <= |t|
    ensures t == t[..i] + t[i..j] + t[j..]
  {}

  lemma Assoc<T>(a: seq<T>, b: seq<T>, c: seq<T>)
    ensures (a + b) + c == a + (b + c)
  {}

  lemma Regroup4<T>(a: seq<T>, b: seq<T>, c: seq<T>, d: seq<T>)
    ensures a + b + c + d == a + (b + c + d)
  {}

  /** Slicing a slice. */
  lemma Slice2<T>(t: seq<T>, pos: nat, i: nat, j: nat)
    requires pos + i <= pos + j <= |t|
    ensures t[pos..][i..j] == t[pos + i..pos + j]
    ensures t[pos..][j..] == t[pos + j..]
  {}
}
