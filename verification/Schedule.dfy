/** Dispatch order: healthy workers, hardware tier first, each tier ordered by the load-balancing strategy. */
module Schedule {
  import opened Prelude

  /** The fields of a worker the scheduler reads, taken at one moment. */
  datatype Snapshot = Snapshot(url: string, healthy: bool, backend: string,
                               active: int, inFlight: int, maxSessions: int, gpuLoad: real)
  {
    predicate IsHW() {
      backend != "sw"
    }

    function Sessions(): int {
      active + inFlight
    }

    function Load(): real {
      if !healthy then 1073741824.0
      else
        var combined := Sessions() as real;
        var sess := if maxSessions > 0 then combined / maxSessions as real else combined;
        if gpuLoad > sess then gpuLoad else sess
    }
  }

  datatype Strategy = ByLoad | RoundRobin | LeastSessions | Random

  // ---------------------------------------------------------------- the orders

  /** Byte order on strings. */
  predicate StringLeq(a: string, b: string) {
    a == "" || (b != "" && (a[0] < b[0] || (a[0] == b[0] && StringLeq(a[1..], b[1..]))))
  }

  lemma {:induction false} StringTotal(a: string, b: string)
    ensures StringLeq(a, b) || StringLeq(b, a)
    ensures StringLeq(a, b) && StringLeq(b, a) ==> a == b
  {
    if a != "" && b != "" {
      StringTotal(a[1..], b[1..]);
      assert a == [a[0]] + a[1..] && b == [b[0]] + b[1..];
    }
  }

  lemma {:induction false} StringTrans(a: string, b: string, c: string)
    requires StringLeq(a, b) && StringLeq(b, c)
    ensures StringLeq(a, c)
  {
    if a != "" && a[0] == b[0] == c[0] { StringTrans(a[1..], b[1..], c[1..]); }
  }

  /** x may stand before y under the strategy's key. */
  predicate Leq(st: Strategy, x: Snapshot, y: Snapshot) {
    match st
    case ByLoad => x.Load() <= y.Load()
    case LeastSessions => x.Sessions() <= y.Sessions()
    case RoundRobin => StringLeq(x.url, y.url)
    case Random => true
  }

  lemma LeqTotal(st: Strategy, x: Snapshot, y: Snapshot)
    ensures Leq(st, x, y) || Leq(st, y, x)
  {
    StringTotal(x.url, y.url);
  }

  lemma LeqTrans(st: Strategy, x: Snapshot, y: Snapshot, z: Snapshot)
    requires Leq(st, x, y) && Leq(st, y, z)
    ensures Leq(st, x, z)
  {
    if st == RoundRobin { StringTrans(x.url, y.url, z.url); }
  }

  // ---------------------------------------------------------------- stable sort

  /** Put w behind everything that is not greater than it. */
  function Insert(st: Strategy, s: seq<Snapshot>, w: Snapshot): (r: seq<Snapshot>)
    ensures |r| == |s| + 1
  {
    if s == [] then [w]
    else if Leq(st, s[|s| - 1], w) then s + [w]
    else Insert(st, s[..|s| - 1], w) + [s[|s| - 1]]
  }

  function Sort(st: Strategy, s: seq<Snapshot>): (r: seq<Snapshot>)
    ensures |r| == |s|
  {
    if s == [] then [] else Insert(st, Sort(st, s[..|s| - 1]), s[|s| - 1])
  }

  predicate Sorted(st: Strategy, s: seq<Snapshot>) {
    forall i, j :: 0 <= i < j < |s| ==> Leq(st, s[i], s[j])
  }

  /** The members that tie with x, in order. */
  function Ties(st: Strategy, s: seq<Snapshot>, x: Snapshot): seq<Snapshot> {
    if s == [] then []
    else
      var last := s[|s| - 1];
      Ties(st, s[..|s| - 1], x) + if Leq(st, last, x) && Leq(st, x, last) then [last] else []
  }

  predicate AllLeq(st: Strategy, s: seq<Snapshot>, x: Snapshot) {
    forall i :: 0 <= i < |s| ==> Leq(st, s[i], x)
  }

  lemma {:induction false} InsertBelow(st: Strategy, s: seq<Snapshot>, w: Snapshot, x: Snapshot)
    requires AllLeq(st, s, x) && Leq(st, w, x)
    ensures AllLeq(st, Insert(st, s, w), x)
  {
    hide Leq;
    if s != [] && !Leq(st, s[|s| - 1], w) {
      InsertBelow(st, s[..|s| - 1], w, x);
    }
  }

  lemma SortedSnoc(st: Strategy, s: seq<Snapshot>, x: Snapshot)
    requires Sorted(st, s) && AllLeq(st, s, x)
    ensures Sorted(st, s + [x])
  {}

  lemma SortedInit(st: Strategy, s: seq<Snapshot>)
    requires Sorted(st, s) && s != []
    ensures Sorted(st, s[..|s| - 1]) && AllLeq(st, s[..|s| - 1], s[|s| - 1])
  {}

  lemma AllBelow(st: Strategy, s: seq<Snapshot>, x: Snapshot, y: Snapshot)
    requires AllLeq(st, s, x) && Leq(st, x, y)
    ensures AllLeq(st, s, y)
  {
    hide Leq;
    forall i | 0 <= i < |s| ensures Leq(st, s[i], y) { LeqTrans(st, s[i], x, y); }
  }

  lemma {:induction false} InsertSorted(st: Strategy, s: seq<Snapshot>, w: Snapshot)
    requires Sorted(st, s)
    ensures Sorted(st, Insert(st, s, w))
  {
    hide Leq, Sorted, AllLeq;
    if s == [] {
      SortedOne(st, w);
    } else {
      var init, last := s[..|s| - 1], s[|s| - 1];
      SortedInit(st, s);
      if Leq(st, last, w) {
        AllBelow(st, init, last, w);
        AllLeqSnoc(st, s, w);
        SortedSnoc(st, s, w);
      } else {
        LeqTotal(st, last, w);
        InsertSorted(st, init, w);
        InsertBelow(st, init, w, last);
        SortedSnoc(st, Insert(st, init, w), last);
      }
    }
  }

  lemma SortedOne(st: Strategy, w: Snapshot)
    ensures Sorted(st, [w])
  {}

  lemma AllLeqSnoc(st: Strategy, s: seq<Snapshot>, w: Snapshot)
    requires s != [] && AllLeq(st, s[..|s| - 1], w) && Leq(st, s[|s| - 1], w)
    ensures AllLeq(st, s, w)
  {
    hide Leq;
    forall i | 0 <= i < |s| ensures Leq(st, s[i], w) { if i < |s| - 1 { assert s[..|s| - 1][i] == s[i]; } }
  }

  lemma {:induction false} InsertMembers(st: Strategy, s: seq<Snapshot>, w: Snapshot)
    ensures multiset(Insert(st, s, w)) == multiset(s) + multiset{w}
  {
    hide Leq;
    if s != [] && !Leq(st, s[|s| - 1], w) {
      InsertMembers(st, s[..|s| - 1], w);
      assert s == s[..|s| - 1] + [s[|s| - 1]];
    }
  }

  lemma {:induction false} InsertTies(st: Strategy, s: seq<Snapshot>, w: Snapshot, x: Snapshot)
    ensures Ties(st, Insert(st, s, w), x) == Ties(st, s + [w], x)
  {
    hide Leq;
    assert (s + [w])[..|s|] == s;
    if s != [] && !Leq(st, s[|s| - 1], w) {
      var init, last := s[..|s| - 1], s[|s| - 1];
      InsertTies(st, init, w, x);
      var q := Insert(st, init, w);
      assert (q + [last])[..|q|] == q;
      assert (init + [w])[..|init|] == init;
      NotBothTie(st, last, w, x);
    } else if s == [] {
      assert [w][..0] == [] && s + [w] == [w];
    }
  }

  lemma NotBothTie(st: Strategy, a: Snapshot, b: Snapshot, x: Snapshot)
    requires !Leq(st, a, b)
    ensures !(Leq(st, a, x) && Leq(st, x, a) && Leq(st, b, x) && Leq(st, x, b))
  {
    hide Leq;
    if Leq(st, a, x) && Leq(st, x, b) { LeqTrans(st, a, x, b); }
  }

  /** The sort sorts, keeps every member, and keeps ties in their order. */
  lemma {:induction false} SortCorrect(st: Strategy, s: seq<Snapshot>, x: Snapshot)
    ensures Sorted(st, Sort(st, s))
    ensures multiset(Sort(st, s)) == multiset(s)
    ensures Ties(st, Sort(st, s), x) == Ties(st, s, x)
  {
    hide Leq, Insert, Sorted;
    if s == [] {
      SortEmpty(st);
    } else {
      var init, last := s[..|s| - 1], s[|s| - 1];
      SortCorrect(st, init, x);
      InsertSorted(st, Sort(st, init), last);
      InsertMembers(st, Sort(st, init), last);
      InsertTies(st, Sort(st, init), last, x);
      assert s == init + [last];
      assert (Sort(st, init) + [last])[..|init|] == Sort(st, init);
    }
  }

  /** In-place insertion, the stable sort's job on one slice. */
  method SortInPlace(st: Strategy, a: array<Snapshot>)
    modifies a
    ensures a[..] == Sort(st, old(a[..]))
  {
    hide Insert;
    ghost var was := a[..];
    for i := 0 to a.Length
      invariant a[..i] == Sort(st, was[..i])
      invariant a[i..] == was[i..]
    {
      assert was[..i + 1][..i] == was[..i];
      assert a[i] == a[i..][0] == was[i];
      assert a[i + 1..] == a[i..][1..] == was[i + 1..];
      InsertInPlace(st, a, i);
    }
    assert a[..a.Length] == a[..] && was[..a.Length] == was;
  }

  method InsertInPlace(st: Strategy, a: array<Snapshot>, i: nat)
    requires i < a.Length
    modifies a
    ensures a[..i + 1] == Insert(st, old(a[..i]), old(a[i]))
    ensures a[i + 1..] == old(a[i + 1..])
  {
    hide Leq, Insert;
    ghost var s, w, rest := a[..i], a[i], a[i + 1..];
    ghost var goal := Insert(st, s, w);
    var j := i;
    Start(a[..], i, s, w, rest, goal);
    while j > 0 && !Leq(st, a[j - 1], a[j])
      invariant 0 <= j <= i && i < a.Length
      invariant a[..] == s[..j] + [w] + s[j..] + rest
      invariant goal == Insert(st, s[..j], w) + s[j..]
    {
      At(a[..], j, s, w, rest);
      Shift(st, s, w, j);
      SwapBack(s, w, rest, j);
      a[j - 1], a[j] := a[j], a[j - 1];
      j := j - 1;
    }
    At(a[..], j, s, w, rest);
    InsertLast(st, s[..j], w);
    Finish(a[..], i, j, s, w, rest);
  }

  lemma Start(x: seq<Snapshot>, i: nat, s: seq<Snapshot>, w: Snapshot, rest: seq<Snapshot>, goal: seq<Snapshot>)
    requires i < |x| && s == x[..i] && w == x[i] && rest == x[i + 1..]
    ensures x == s[..i] + [w] + s[i..] + rest && s[..i] == s && goal + s[i..] == goal
  {}

  lemma At(x: seq<Snapshot>, j: nat, s: seq<Snapshot>, w: Snapshot, rest: seq<Snapshot>)
    requires j <= |s| && x == s[..j] + [w] + s[j..] + rest
    ensures x[j] == w && (j > 0 ==> x[j - 1] == s[j - 1] == s[..j][j - 1])
  {}

  lemma SwapBack(s: seq<Snapshot>, w: Snapshot, rest: seq<Snapshot>, j: nat)
    requires 0 < j <= |s|
    ensures (s[..j] + [w] + s[j..] + rest)[j - 1 := w][j := s[j - 1]] == s[..j - 1] + [w] + s[j - 1..] + rest
  {}

  lemma Finish(x: seq<Snapshot>, i: nat, j: nat, s: seq<Snapshot>, w: Snapshot, rest: seq<Snapshot>)
    requires j <= i == |s| && x == s[..j] + [w] + s[j..] + rest
    ensures x[..i + 1] == s[..j] + [w] + s[j..] && x[i + 1..] == rest
  {}

  lemma InsertLast(st: Strategy, s: seq<Snapshot>, w: Snapshot)
    requires s == [] || Leq(st, s[|s| - 1], w)
    ensures Insert(st, s, w) == s + [w]
  {}

  lemma Shift(st: Strategy, s: seq<Snapshot>, w: Snapshot, j: nat)
    requires 0 < j <= |s| && !Leq(st, s[j - 1], w)
    ensures Insert(st, s[..j], w) + s[j..] == Insert(st, s[..j - 1], w) + s[j - 1..]
  {
    hide Leq;
    var p := s[..j];
    assert p[..j - 1] == s[..j - 1] && p[j - 1] == s[j - 1];
    assert s[j - 1..] == [s[j - 1]] + s[j..];
  }

  // ---------------------------------------------------------------- tiers

  function Rotate(s: seq<Snapshot>, off: nat): seq<Snapshot>
    requires off <= |s|
  {
    s[off..] + s[..off]
  }

  const U64 := 0x1_0000_0000_0000_0000

  /** rr - 1 in 64 bits, modulo the tier size. */
  function Offset(rr: nat, n: nat): (off: nat)
    requires n > 0
    ensures off < n
  {
    ((rr + U64 - 1) % U64) % n
  }

  /** One tier in dispatch order, for the strategies that do not draw lots. */
  function Tier(st: Strategy, s: seq<Snapshot>, rr: nat): seq<Snapshot> {
    var sorted := Sort(st, s);
    if st == RoundRobin && s != [] then Rotate(sorted, Offset(rr, |s|)) else sorted
  }

  function Healthy(s: seq<Snapshot>): seq<Snapshot> {
    if s == [] then [] else Healthy(s[..|s| - 1]) + if s[|s| - 1].healthy then [s[|s| - 1]] else []
  }

  function OfTier(s: seq<Snapshot>, hw: bool): seq<Snapshot> {
    if s == [] then [] else OfTier(s[..|s| - 1], hw) + if s[|s| - 1].IsHW() == hw then [s[|s| - 1]] else []
  }

  predicate AllTier(s: seq<Snapshot>, hw: bool) {
    forall i :: 0 <= i < |s| ==> s[i].IsHW() == hw
  }

  lemma {:induction false} TierMembers(s: seq<Snapshot>)
    ensures multiset(OfTier(s, true)) + multiset(OfTier(s, false)) == multiset(s)
  {
    if s != [] {
      TierMembers(s[..|s| - 1]);
      assert s == s[..|s| - 1] + [s[|s| - 1]];
      hide OfTier;
    }
  }

  lemma {:induction false} TierOnly(s: seq<Snapshot>, hw: bool)
    ensures AllTier(OfTier(s, hw), hw)
  {
    if s != [] {
      TierOnly(s[..|s| - 1], hw);
    }
  }

  lemma RotateMembers(s: seq<Snapshot>, off: nat)
    requires off <= |s|
    ensures multiset(Rotate(s, off)) == multiset(s)
  {
    assert s == s[..off] + s[off..];
  }

  lemma SameMembersTier(a: seq<Snapshot>, b: seq<Snapshot>, hw: bool)
    requires multiset(a) == multiset(b) && AllTier(b, hw)
    ensures AllTier(a, hw)
  {
    forall i | 0 <= i < |a|
      ensures a[i].IsHW() == hw
    {
      assert a[i] in multiset(a);
      assert a[i] in b;
    }
  }

  lemma TierIsPermutation(st: Strategy, s: seq<Snapshot>, rr: nat)
    ensures multiset(Tier(st, s, rr)) == multiset(s) && |Tier(st, s, rr)| == |s|
    ensures st != RoundRobin ==> Sorted(st, Tier(st, s, rr))
  {
    hide Leq, Sort, Sorted, Offset;
    if s != [] {
      SortCorrect(st, s, s[0]);
      if st == RoundRobin { RotateMembers(Sort(st, s), Offset(rr, |s|)); }
    } else {
      SortEmpty(st);
    }
  }

  lemma SortEmpty(st: Strategy)
    ensures Sort(st, []) == [] && Sorted(st, [])
  {}

  // ---------------------------------------------------------------- the random order

  function Swapped<T>(s: seq<T>, i: nat, j: nat): (r: seq<T>)
    requires i < |s| && j < |s|
    ensures |r| == |s|
  {
    s[i := s[j]][j := s[i]]
  }

  /** A draw below `n`, from whatever the generator returned. */
  function Draw(draws: seq<nat>, i: nat): (j: nat)
    ensures j <= i
  {
    if i < |draws| then draws[i] % (i + 1) else 0
  }

  /** The shuffle of the first `n`, from the back: each place gets one of those not yet placed. */
  function Shuffled<T>(s: seq<T>, n: nat, draws: seq<nat>): (r: seq<T>)
    requires n <= |s|
    ensures |r| == |s|
    decreases n
  {
    if n < 2 then s else Shuffled(Swapped(s, n - 1, Draw(draws, n - 1)), n - 1, draws)
  }

  lemma SwapKeeps<T>(s: seq<T>, i: nat, j: nat)
    requires i < |s| && j < |s|
    ensures multiset(Swapped(s, i, j)) == multiset(s)
  {
    var x := s[i := s[j]];
    assert multiset(x) == multiset(s) - multiset{s[i]} + multiset{s[j]};
    assert multiset(x[j := s[i]]) == multiset(x) - multiset{x[j]} + multiset{s[i]};
  }

  lemma {:induction false} ShuffleKeeps<T>(s: seq<T>, n: nat, draws: seq<nat>)
    requires n <= |s|
    ensures multiset(Shuffled(s, n, draws)) == multiset(s)
    ensures Shuffled(s, n, draws)[n..] == s[n..]
    decreases n
  {
    hide Swapped, Draw;
    if n >= 2 {
      var next := Swapped(s, n - 1, Draw(draws, n - 1));
      SwapKeeps(s, n - 1, Draw(draws, n - 1));
      ShuffleKeeps(next, n - 1, draws);
      SwapRest(s, n - 1, Draw(draws, n - 1));
      assert Shuffled(s, n, draws)[n..] == Shuffled(next, n - 1, draws)[n - 1..][1..];
      assert next[n..] == next[n - 1..][1..];
    }
  }

  lemma SwapRest<T>(s: seq<T>, i: nat, j: nat)
    requires j <= i < |s|
    ensures Swapped(s, i, j)[i] == s[j] && Swapped(s, i, j)[i + 1..] == s[i + 1..]
  {}

  /** Only the first `n` draws matter. */
  lemma {:induction false} DrawsBelow<T>(s: seq<T>, n: nat, a: seq<nat>, b: seq<nat>)
    requires n <= |s| && forall k :: 0 <= k < n ==> Draw(a, k) == Draw(b, k)
    ensures Shuffled(s, n, a) == Shuffled(s, n, b)
    decreases n
  {
    if n >= 2 {
      DrawsBelow(Swapped(s, n - 1, Draw(a, n - 1)), n - 1, a, b);
    }
  }

  /** Every order of the tier can come up. */
  lemma {:induction false} AnyOrder<T>(s: seq<T>, t: seq<T>, n: nat) returns (draws: seq<nat>)
    requires n <= |s| == |t| && s[n..] == t[n..] && multiset(s[..n]) == multiset(t[..n])
    ensures |draws| == n && Shuffled(s, n, draws) == t
    decreases n
  {
    hide Swapped, Draw;
    if n < 2 {
      draws := seq(n, k => 0);
      assert s == s[..n] + s[n..] && t == t[..n] + t[n..];
      if n == 1 {
        SingleSame(s[..n], t[..n]);
      }
    } else {
      var j := Whence(s[..n], t[..n][n - 1]);
      var next := Swapped(s, n - 1, j);
      SwapRest(s, n - 1, j);
      PlacedLast(s, t, n, j);
      var front := AnyOrder(next, t, n - 1);
      draws := front + [j];
      OneMoreDraw(front, j);
      DrawsBelow(next, n - 1, draws, front);
    }
  }

  lemma OneMoreDraw(front: seq<nat>, j: nat)
    requires j <= |front|
    ensures Draw(front + [j], |front|) == j
    ensures forall k :: 0 <= k < |front| ==> Draw(front + [j], k) == Draw(front, k)
  {}

  lemma Whence<T>(s: seq<T>, x: T) returns (j: nat)
    requires multiset(s)[x] > 0
    ensures j < |s| && s[j] == x
  {
    assert x in multiset(s);
    j :| j < |s| && s[j] == x;
  }

  lemma SingleSame<T>(s: seq<T>, t: seq<T>)
    requires |s| == 1 == |t| && multiset(s) == multiset(t)
    ensures s == t
  {
    assert s == [s[0]] && t == [t[0]];
    assert multiset(s)[s[0]] == 1;
    assert multiset(t)[s[0]] == 1;
  }

  lemma PlacedLast<T>(s: seq<T>, t: seq<T>, n: nat, j: nat)
    requires 2 <= n <= |s| == |t| && j < n && s[j] == t[n - 1]
    requires s[n..] == t[n..] && multiset(s[..n]) == multiset(t[..n])
    ensures var next := Swapped(s, n - 1, j);
            next[n - 1..] == t[n - 1..] && multiset(next[..n - 1]) == multiset(t[..n - 1])
  {
    hide Swapped;
    var next := Swapped(s, n - 1, j);
    SwapRest(s, n - 1, j);
    assert next[n - 1..] == [next[n - 1]] + next[n..] && t[n - 1..] == [t[n - 1]] + t[n..];
    SwapPrefix(s, n, j);
    SwapKeeps(s[..n], n - 1, j);
    Peel(next[..n], n - 1);
    Peel(t[..n], n - 1);
    assert next[..n][..n - 1] == next[..n - 1] && t[..n][..n - 1] == t[..n - 1];
  }

  lemma SwapPrefix<T>(s: seq<T>, n: nat, j: nat)
    requires j < n <= |s|
    ensures Swapped(s, n - 1, j)[..n] == Swapped(s[..n], n - 1, j)
  {}

  lemma Peel<T>(s: seq<T>, n: nat)
    requires |s| == n + 1
    ensures multiset(s[..n]) == multiset(s) - multiset{s[n]}
  {
    assert s == s[..n] + [s[n]];
  }

  class Scheduler {
    const strategy: Strategy
    const flatPool: bool
    /** 64-bit dispatch cursor. */
    var rrCursor: nat

    constructor (strategy: Strategy, flatPool: bool)
      ensures this.strategy == strategy && this.flatPool == flatPool && rrCursor == 0
    {
      this.strategy, this.flatPool, rrCursor := strategy, flatPool, 0;
    }

    /** orderTier: in place on the tier's own slice. */
    method OrderTier(ws: seq<Snapshot>, rr: nat, draws: seq<nat>) returns (out: seq<Snapshot>)
      ensures multiset(out) == multiset(ws)
      ensures strategy == Random ==> out == Shuffled(ws, |ws|, draws)
      ensures strategy != Random ==> out == Tier(strategy, ws, rr)
    {
      hide Leq, Sort, Insert, Offset;
      var a := new Snapshot[|ws|](i requires 0 <= i < |ws| => ws[i]);
      assert a[..] == ws;
      if strategy == Random {
        ShuffleKeeps(ws, |ws|, draws);
        Shuffle(a, draws);
        return a[..];
      }
      TierIsPermutation(strategy, ws, rr);
      SortInPlace(strategy, a);
      out := a[..];
      if strategy == RoundRobin && a.Length > 0 {
        var off := Offset(rr, a.Length);
        out := a[off..] + a[..off];
      }
    }

    /** rand.Shuffle, in place. */
    method Shuffle(a: array<Snapshot>, draws: seq<nat>)
      modifies a
      ensures a[..] == Shuffled(old(a[..]), a.Length, draws)
    {
      hide Draw;
      var i := a.Length;
      while i >= 2
        invariant 0 <= i <= a.Length
        invariant Shuffled(a[..], i, draws) == Shuffled(old(a[..]), a.Length, draws)
      {
        ghost var was := a[..];
        i := i - 1;
        var j := Draw(draws, i);
        a[i], a[j] := a[j], a[i];
        assert a[..] == Swapped(was, i, j);
      }
    }

    /** schedule(): every healthy worker once; without a flat pool every hardware worker before every software one. */
    method Schedule(all: seq<Snapshot>, draws: seq<nat>, more: seq<nat>) returns (order: seq<Snapshot>)
      requires rrCursor < U64
      modifies this
      ensures rrCursor == (if strategy == RoundRobin then (old(rrCursor) + 1) % U64 else old(rrCursor))
      ensures multiset(order) == multiset(Healthy(all))
      ensures !flatPool ==> forall i, j :: 0 <= i < j < |order| && order[j].IsHW() ==> order[i].IsHW()
      ensures strategy == Random ==>
                var hw, sw := OfTier(Healthy(all), true), OfTier(Healthy(all), false);
                order == if flatPool then Shuffled(Healthy(all), |Healthy(all)|, draws)
                         else Shuffled(hw, |hw|, draws) + Shuffled(sw, |sw|, more)
      ensures strategy != Random ==>
                var rr := if strategy == RoundRobin then rrCursor else 0;
                order == Order(strategy, flatPool, all, rr)
    {
      hide Leq, Sort, Tier, OfTier, Healthy;
      var healthy := KeepHealthy(all);
      var rr := 0;
      if strategy == RoundRobin {
        rrCursor := (rrCursor + 1) % U64;
        rr := rrCursor;
      }
      if flatPool {
        order := OrderTier(healthy, rr, draws);
        return;
      }
      var hw, sw := SplitTiers(healthy);
      TierMembers(healthy);
      TierOnly(healthy, true);
      TierOnly(healthy, false);
      var first := OrderTier(hw, rr, draws);
      var second := OrderTier(sw, rr, more);
      SameMembersTier(first, hw, true);
      SameMembersTier(second, sw, false);
      order := first + second;
    }

    method KeepHealthy(all: seq<Snapshot>) returns (healthy: seq<Snapshot>)
      ensures healthy == Healthy(all)
    {
      healthy := [];
      for k := 0 to |all|
        invariant healthy == Healthy(all[..k])
      {
        assert all[..k + 1][..k] == all[..k];
        if all[k].healthy {
          healthy := healthy + [all[k]];
        }
      }
      assert all[..|all|] == all;
    }

    method SplitTiers(ws: seq<Snapshot>) returns (hw: seq<Snapshot>, sw: seq<Snapshot>)
      ensures hw == OfTier(ws, true) && sw == OfTier(ws, false)
    {
      hw, sw := [], [];
      for k := 0 to |ws|
        invariant hw == OfTier(ws[..k], true) && sw == OfTier(ws[..k], false)
      {
        assert ws[..k + 1][..k] == ws[..k];
        if ws[k].IsHW() {
          hw := hw + [ws[k]];
        } else {
          sw := sw + [ws[k]];
        }
      }
      assert ws[..|ws|] == ws;
    }
  }

  // ---------------------------------------------------------------- what a dispatch order means

  /** The order schedule() returns for a strategy that does not draw lots. */
  function Order(st: Strategy, flatPool: bool, all: seq<Snapshot>, rr: nat): seq<Snapshot> {
    if flatPool then Tier(st, Healthy(all), rr)
    else Tier(st, OfTier(Healthy(all), true), rr) + Tier(st, OfTier(Healthy(all), false), rr)
  }

  /** The larger of two ratios: sessions against the most it takes, and how busy its GPU is. */
  lemma LoadMeans(w: Snapshot, sess: real)
    requires sess == if w.maxSessions > 0 then (w.active + w.inFlight) as real / w.maxSessions as real
                     else (w.active + w.inFlight) as real
    ensures w.healthy ==>
              && w.Load() >= w.gpuLoad && w.Load() >= sess && (w.Load() == w.gpuLoad || w.Load() == sess)
    ensures !w.healthy ==> w.Load() == 1073741824.0
  {}

  /** Byte order: the first difference decides, and a prefix comes first. */
  lemma {:induction false} StringLeqMeans(a: string, b: string, k: nat)
    requires k <= |a| && k <= |b| && a[..k] == b[..k]
    requires k == |a| || k == |b| || a[k] != b[k]
    ensures StringLeq(a, b) <==> k == |a| || (k < |b| && a[k] < b[k])
  {
    if k > 0 {
      assert a[0] == a[..k][0] == b[..k][0] == b[0];
      assert a[1..][..k - 1] == a[..k][1..] == b[..k][1..] == b[1..][..k - 1];
      StringLeqMeans(a[1..], b[1..], k - 1);
    }
  }

  /** Exactly the healthy workers. */
  lemma {:induction false} HealthyMeans(all: seq<Snapshot>, w: Snapshot)
    ensures multiset(Healthy(all))[w] == if w.healthy then multiset(all)[w] else 0
  {
    if all != [] {
      HealthyMeans(all[..|all| - 1], w);
      assert all == all[..|all| - 1] + [all[|all| - 1]];
    }
  }

  /** x may go before y by the strategy's own measure. */
  predicate NotBusier(st: Strategy, x: Snapshot, y: Snapshot) {
    match st
    case LeastSessions => x.active + x.inFlight <= y.active + y.inFlight
    case ByLoad => x.Load() <= y.Load()
    case RoundRobin => true
    case Random => true
  }

  /** Neither is kept behind the other by its tier. */
  predicate Peers(flatPool: bool, x: Snapshot, y: Snapshot) {
    flatPool || (x.backend == "sw" <==> y.backend == "sw")
  }

  /**
   Every healthy worker and nobody else; software workers behind all others unless the pool is
   flat; among peers the one that is not busier comes first.
   */
  lemma OrderMeans(st: Strategy, flatPool: bool, all: seq<Snapshot>, rr: nat)
    ensures var o := Order(st, flatPool, all, rr);
            && (forall w :: multiset(o)[w] == if w.healthy then multiset(all)[w] else 0)
            && (!flatPool ==> forall i, j :: 0 <= i < j < |o| && o[i].backend == "sw" ==> o[j].backend == "sw")
            && (forall i, j :: 0 <= i < j < |o| && Peers(flatPool, o[i], o[j]) ==> NotBusier(st, o[i], o[j]))
  {
    hide Tier, Healthy, OfTier;
    var h := Healthy(all);
    forall w: Snapshot
      ensures multiset(h)[w] == if w.healthy then multiset(all)[w] else 0
    {
      HealthyMeans(all, w);
    }
    if flatPool {
      TierIsPermutation(st, h, rr);
    } else {
      TierMembers(h);
      TierOnly(h, true);
      TierOnly(h, false);
      var x, y := Tier(st, OfTier(h, true), rr), Tier(st, OfTier(h, false), rr);
      TierIsPermutation(st, OfTier(h, true), rr);
      TierIsPermutation(st, OfTier(h, false), rr);
      SameMembersTier(x, OfTier(h, true), true);
      SameMembersTier(y, OfTier(h, false), false);
      TwoParts(st, x, y);
    }
  }

  lemma TwoParts(st: Strategy, x: seq<Snapshot>, y: seq<Snapshot>)
    requires AllTier(x, true) && AllTier(y, false)
    requires st != RoundRobin ==> Sorted(st, x) && Sorted(st, y)
    ensures var o := x + y;
            && (forall i, j :: 0 <= i < j < |o| && o[i].backend == "sw" ==> o[j].backend == "sw")
            && (forall i, j :: 0 <= i < j < |o| && Peers(false, o[i], o[j]) ==> NotBusier(st, o[i], o[j]))
  {
    var o := x + y;
    forall i, j | 0 <= i < j < |o|
      ensures o[i].backend == "sw" ==> o[j].backend == "sw"
      ensures Peers(false, o[i], o[j]) ==> NotBusier(st, o[i], o[j])
    {
      if j < |x| {
        assert o[i] == x[i] && o[j] == x[j];
      } else if i >= |x| {
        assert o[i] == y[i - |x|] && o[j] == y[j - |x|];
      } else {
        assert o[i] == x[i] && o[j] == y[j - |x|];
        assert x[i].IsHW() && !y[j - |x|].IsHW();
      }
    }
  }

  /** Under round-robin a tier is the url order, begun at the cursor's place and carried on past its end. */
  lemma RotationMeans(s: seq<Snapshot>, rr: nat, k: nat)
    requires 1 <= rr < U64 && k < |s|
    ensures Tier(RoundRobin, s, rr)[k] == Sort(RoundRobin, s)[(rr - 1 + k) % |s|]
  {
    hide *;
    OffsetBefore(rr, |s|);
    TierIs(s, rr);
    ModShift(rr - 1, k, |s|);
    RotateAt(Sort(RoundRobin, s), Offset(rr, |s|), k, (rr - 1 + k) % |s|);
  }

  lemma TierIs(s: seq<Snapshot>, rr: nat)
    requires s != []
    ensures Tier(RoundRobin, s, rr) == Rotate(Sort(RoundRobin, s), Offset(rr, |s|))
  {
    hide Sort, Rotate, Offset;
  }

  lemma OffsetBefore(rr: nat, n: nat)
    requires 1 <= rr < U64 && n > 0
    ensures Offset(rr, n) == (rr - 1) % n
  {
    assert (rr + U64 - 1) % U64 == rr - 1;
  }

  lemma RotateAt(s: seq<Snapshot>, off: nat, k: nat, at: nat)
    requires off < |s| && k < |s| && at == if off + k < |s| then off + k else off + k - |s|
    ensures |Rotate(s, off)| == |s| && Rotate(s, off)[k] == s[at]
  {}

  // ---------------------------------------------------------------- round robin is fair

  /** The value of the 64-bit cursor in the k-th dispatch from `cursor` on. */
  function CursorAt(cursor: nat, k: nat): (rr: nat)
    ensures rr < U64
  {
    (cursor + k + 1) % U64
  }

  /** Index, in the base order, of the member the k-th dispatch puts first; it starts over at the wrap. */
  function Lead(cursor: nat, k: nat, n: nat): (r: nat)
    requires n > 0
    ensures r < n
  {
    (if cursor + k < U64 then cursor + k else cursor + k - U64) % n
  }

  /** Which dispatch from `cursor` on would put member j first if the cursor never wrapped. */
  function Turn(cursor: nat, n: nat, j: nat): nat
    requires j < n
  {
    var r := cursor % n;
    if j >= r then j - r else j + n - r
  }

  lemma WrapBack(cursor: nat, k: nat)
    requires cursor < U64 && k < U64
    ensures (CursorAt(cursor, k) + U64 - 1) % U64 == if cursor + k < U64 then cursor + k else cursor + k - U64
  {
    var c := cursor + k;
    if c < U64 - 1 {
      assert (c + 1) % U64 == c + 1;
    } else if c == U64 - 1 {
      assert (c + 1) % U64 == 0;
    } else if c - U64 + 1 < U64 {
      assert (c + 1) % U64 == c + 1 - U64;
    }
  }

  lemma ModShift(c: nat, k: nat, n: nat)
    requires 0 <= k < n
    ensures (c + k) % n == if c % n + k < n then c % n + k else c % n + k - n
  {
    var q, r := c / n, c % n;
    if r + k < n {
      ModUnique(c + k, n, q, r + k);
    } else {
      assert c + k == (q + 1) * n + (r + k - n);
      ModUnique(c + k, n, q + 1, r + k - n);
    }
  }

  lemma ModUnique(x: nat, n: nat, q: nat, r: nat)
    requires 0 <= r < n && x == q * n + r
    ensures x % n == r
  {
    var d := x / n - q;
    assert x == n * (x / n) + x % n;
    assert n * d == r - x % n;
    if d != 0 { MulAway(n, d); }
  }

  lemma MulAway(n: int, d: int)
    requires n > 0 && d != 0
    ensures n * d >= n || n * d <= -n
  {}

  // ---------------------------------------------------------------- the base order depends on the urls alone

  function Urls(s: seq<Snapshot>): seq<string> {
    seq(|s|, i requires 0 <= i < |s| => s[i].url)
  }

  ghost function UrlSet(s: seq<Snapshot>): set<string> {
    set u | u in Urls(s)
  }

  predicate NoRepeats(a: seq<string>) {
    forall i, j :: 0 <= i < j < |a| ==> a[i] != a[j]
  }

  predicate Ascending(a: seq<string>) {
    forall i, j :: 0 <= i < j < |a| ==> StringLeq(a[i], a[j])
  }

  ghost function Elements(a: seq<string>): set<string> {
    set x | x in a
  }

  /** Without repeats there are as many elements as places, and the other way round. */
  lemma {:induction false} ElementCount(a: seq<string>)
    ensures |Elements(a)| <= |a|
    ensures NoRepeats(a) <==> |Elements(a)| == |a|
  {
    if a != [] {
      var init, x := a[..|a| - 1], a[|a| - 1];
      ElementCount(init);
      assert a == init + [x];
      assert Elements(a) == Elements(init) + {x};
      if x in init {
        assert Elements(a) == Elements(init);
        var i :| 0 <= i < |init| && init[i] == x;
        assert a[i] == a[|a| - 1];
      } else {
        assert NoRepeats(init) ==> NoRepeats(a);
        assert forall i :: 0 <= i < |init| ==> init[i] == a[i];
      }
    }
  }

  /** One ascending sequence for each set of strings. */
  lemma {:induction false} OneAscending(a: seq<string>, b: seq<string>)
    requires Ascending(a) && NoRepeats(a) && Ascending(b) && NoRepeats(b)
    requires Elements(a) == Elements(b)
    ensures a == b
  {
    hide StringLeq;
    NoElements(a);
    NoElements(b);
    if a != [] {
      SameFirst(a, b);
      var x, s, t := a[0], a[1..], b[1..];
      assert a == [x] + s && b == [x] + t;
      assert x !in s && x !in t;
      assert Elements(s) == Elements(a) - {x} && Elements(t) == Elements(b) - {x};
      OneAscending(s, t);
    }
  }

  lemma NoElements(a: seq<string>)
    ensures Elements(a) == {} <==> a == []
  {
    if a != [] {
      assert a[0] in Elements(a);
    }
  }

  lemma SameFirst(a: seq<string>, b: seq<string>)
    requires a != [] && b != [] && Ascending(a) && Ascending(b) && Elements(a) == Elements(b)
    ensures a[0] == b[0]
  {
    hide StringLeq;
    assert a[0] in Elements(b) && b[0] in Elements(a);
    StringRefl(a[0]);
    StringTotal(a[0], b[0]);
  }

  lemma StringRefl(a: string)
    ensures StringLeq(a, a)
  {
    StringTotal(a, a);
  }

  /** Two tiers with the same urls, whatever their order and load, sort to the same urls. */
  lemma SameBaseOrder(s: seq<Snapshot>, t: seq<Snapshot>)
    requires NoRepeats(Urls(s)) && NoRepeats(Urls(t)) && UrlSet(s) == UrlSet(t)
    ensures Urls(Sort(RoundRobin, s)) == Urls(Sort(RoundRobin, t))
  {
    hide StringLeq, Sort, NoRepeats, Ascending;
    SortedUrls(s);
    SortedUrls(t);
    OneAscending(Urls(Sort(RoundRobin, s)), Urls(Sort(RoundRobin, t)));
  }

  lemma SortedUrls(s: seq<Snapshot>)
    requires NoRepeats(Urls(s))
    ensures var r := Urls(Sort(RoundRobin, s));
            Ascending(r) && NoRepeats(r) && Elements(r) == UrlSet(s)
  {
    hide StringLeq, Sort, NoRepeats;
    var r := Sort(RoundRobin, s);
    if s == [] {
      SortEmpty(RoundRobin);
    } else {
      SortCorrect(RoundRobin, s, s[0]);
    }
    SameUrls(r, s);
    ElementCount(Urls(s));
    ElementCount(Urls(r));
  }

  lemma SameUrls(r: seq<Snapshot>, s: seq<Snapshot>)
    requires multiset(r) == multiset(s)
    ensures Elements(Urls(r)) == Elements(Urls(s))
  {
    SomeUrls(r, s);
    SomeUrls(s, r);
  }

  lemma SomeUrls(r: seq<Snapshot>, s: seq<Snapshot>)
    requires multiset(r) == multiset(s)
    ensures Elements(Urls(r)) <= Elements(Urls(s))
  {
    forall u | u in Urls(r)
      ensures u in Urls(s)
    {
      var i :| 0 <= i < |r| && Urls(r)[i] == u;
      assert r[i] in multiset(s);
      var j :| 0 <= j < |s| && s[j] == r[i];
      assert Urls(s)[j] == u;
    }
  }

  // ---------------------------------------------------------------- every member leads once in n dispatches

  /** Dispatch after dispatch, a tier of the same workers, each listed once. */
  ghost predicate SameWorkers(tiers: seq<seq<Snapshot>>, urls: set<string>) {
    forall k :: 0 <= k < |tiers| ==> NoRepeats(Urls(tiers[k])) && UrlSet(tiers[k]) == urls
  }

  predicate Once(xs: seq<string>, u: string) {
    exists t :: 0 <= t < |xs| && xs[t] == u && forall k :: 0 <= k < |xs| && xs[k] == u ==> k == t
  }

  function UrlAt(s: seq<Snapshot>, i: nat): string {
    if i < |s| then s[i].url else ""
  }

  /** Who comes first in each dispatch; the cursor goes up by one each time, modulo 2^64. */
  function Leaders(tiers: seq<seq<Snapshot>>, cursor: nat): seq<string> {
    seq(|tiers|, k requires 0 <= k < |tiers| => UrlAt(Tier(RoundRobin, tiers[k], CursorAt(cursor, k)), 0))
  }

  /** The cursor does not wrap within the n dispatches, or n divides 2^64. */
  predicate WrapsEvenly(cursor: nat, n: nat) {
    cursor + n <= U64 || (n > 0 && U64 % n == 0)
  }

  /**
   Over any n consecutive dispatches to the same n workers, listed in any order and under any
   load each time, every worker comes first exactly once, if and only if the 64-bit cursor does
   not wrap on the way or n divides 2^64.
   */
  lemma RoundRobinFair(tiers: seq<seq<Snapshot>>, urls: set<string>, cursor: nat)
    requires SameWorkers(tiers, urls) && |tiers| == |urls| <= U64 && cursor < U64
    ensures (forall u :: u in urls ==> Once(Leaders(tiers, cursor), u)) <==> WrapsEvenly(cursor, |urls|)
  {
    hide *;
    var n := |tiers|;
    EvenFacts(cursor, n);
    if WrapsEvenly(cursor, n) {
      forall u | u in urls
        ensures Once(Leaders(tiers, cursor), u)
      {
        SomeUrl(urls, u);
        EachLeads(tiers, urls, cursor, u);
      }
    } else {
      TwoLeads(tiers, urls, cursor);
    }
  }

  lemma EvenFacts(cursor: nat, n: nat)
    requires cursor < U64
    ensures !WrapsEvenly(cursor, n) ==> n > 0
  {}

  lemma SomeUrl(urls: set<string>, u: string)
    requires u in urls
    ensures |urls| > 0
  {}

  lemma EachLeads(tiers: seq<seq<Snapshot>>, urls: set<string>, cursor: nat, u: string)
    requires SameWorkers(tiers, urls) && u in urls && 0 < |tiers| == |urls| <= U64
    requires cursor < U64 && WrapsEvenly(cursor, |urls|)
    ensures Once(Leaders(tiers, cursor), u)
  {
    hide *;
    var n := |tiers|;
    var j := BasePlace(tiers, urls, u);
    var turn := Turn(cursor, n, j);
    TurnIsUnique(cursor, n, j, 0);
    forall k | 0 <= k < n
      ensures UrlAt(Tier(RoundRobin, tiers[k], CursorAt(cursor, k)), 0) == u <==> k == turn
    {
      LeaderUrl(tiers, urls, k, cursor, j, u);
      TurnIsUnique(cursor, n, j, k);
    }
    LeadsAt(tiers, cursor, u, turn);
  }

  /** Across an uneven wrap some member comes first twice. */
  lemma TwoLeads(tiers: seq<seq<Snapshot>>, urls: set<string>, cursor: nat)
    requires SameWorkers(tiers, urls) && |tiers| == |urls| <= U64
    requires cursor < U64 && |urls| > 0 && !WrapsEvenly(cursor, |urls|)
    ensures exists u :: u in urls && !Once(Leaders(tiers, cursor), u)
  {
    hide *;
    var n := |tiers|;
    var j, k, l := WrapRepeats(cursor, n);
    var u := UrlOfPlace(tiers, urls, j);
    LeaderUrl(tiers, urls, k, cursor, j, u);
    LeaderUrl(tiers, urls, l, cursor, j, u);
    NotOnce(tiers, cursor, u, k, l);
  }

  lemma NotOnce(tiers: seq<seq<Snapshot>>, cursor: nat, u: string, k: nat, l: nat)
    requires k < l < |tiers|
    requires UrlAt(Tier(RoundRobin, tiers[k], CursorAt(cursor, k)), 0) == u
    requires UrlAt(Tier(RoundRobin, tiers[l], CursorAt(cursor, l)), 0) == u
    ensures !Once(Leaders(tiers, cursor), u)
  {
    hide Tier, UrlAt, CursorAt;
    var xs := Leaders(tiers, cursor);
    assert xs[k] == u && xs[l] == u;
  }

  /** Two dispatches around an uneven wrap that put the same place first. */
  lemma WrapRepeats(cursor: nat, n: nat) returns (j: nat, k: nat, l: nat)
    requires cursor < U64 && 0 < n <= U64 && !WrapsEvenly(cursor, n)
    ensures j < n && k < l < n && Lead(cursor, k, n) == j && Lead(cursor, l, n) == j
  {
    var m, q, e := U64 - cursor, U64 / n, U64 % n;
    assert U64 == q * n + e;
    QuotientPositive(n);
    if m >= e {
      j, k, l := 0, m - e, m;
      ModUnique(U64 - e, n, q, 0);
      ModUnique(0, n, 0, 0);
    } else {
      j, k, l := e - m, 0, e;
      ModUnique(cursor, n, q, e - m);
      ModUnique(e - m, n, 0, e - m);
    }
  }

  lemma QuotientPositive(n: nat)
    requires 0 < n <= U64
    ensures U64 / n >= 1
  {}

  lemma LeadsAt(tiers: seq<seq<Snapshot>>, cursor: nat, u: string, turn: nat)
    requires turn < |tiers|
    requires forall k :: 0 <= k < |tiers| ==>
               (UrlAt(Tier(RoundRobin, tiers[k], CursorAt(cursor, k)), 0) == u <==> k == turn)
    ensures Once(Leaders(tiers, cursor), u)
  {
    hide Tier, UrlAt, CursorAt;
    var leaders := Leaders(tiers, cursor);
    assert leaders[turn] == u;
    assert forall k :: 0 <= k < |leaders| ==> leaders[k] == UrlAt(Tier(RoundRobin, tiers[k], CursorAt(cursor, k)), 0);
  }

  /** The place of `u` in the base order all the tiers share. */
  lemma BasePlace(tiers: seq<seq<Snapshot>>, urls: set<string>, u: string) returns (j: nat)
    requires SameWorkers(tiers, urls) && u in urls && tiers != []
    ensures |urls| == |tiers[0]| && j < |urls|
    ensures Urls(Sort(RoundRobin, tiers[0]))[j] == u
  {
    hide Sort, NoRepeats;
    SortedUrls(tiers[0]);
    ElementCount(Urls(tiers[0]));
    assert UrlSet(tiers[0]) == Elements(Urls(tiers[0]));
    var base := Urls(Sort(RoundRobin, tiers[0]));
    assert u in Elements(base);
    j :| 0 <= j < |base| && base[j] == u;
  }

  lemma UrlOfPlace(tiers: seq<seq<Snapshot>>, urls: set<string>, j: nat) returns (u: string)
    requires SameWorkers(tiers, urls) && 0 < |tiers| && j < |urls|
    ensures u in urls && |urls| == |tiers[0]|
    ensures Urls(Sort(RoundRobin, tiers[0]))[j] == u
  {
    hide Sort, NoRepeats;
    SortedUrls(tiers[0]);
    ElementCount(Urls(tiers[0]));
    assert UrlSet(tiers[0]) == Elements(Urls(tiers[0]));
    u := Urls(Sort(RoundRobin, tiers[0]))[j];
    assert u in Elements(Urls(Sort(RoundRobin, tiers[0])));
  }

  lemma LeaderUrl(tiers: seq<seq<Snapshot>>, urls: set<string>, k: nat, cursor: nat, j: nat, u: string)
    requires SameWorkers(tiers, urls) && k < |tiers| && cursor < U64 && k < U64
    requires |urls| == |tiers[0]| > 0 && j < |urls| && Urls(Sort(RoundRobin, tiers[0]))[j] == u
    ensures UrlAt(Tier(RoundRobin, tiers[k], CursorAt(cursor, k)), 0) == u <==> Lead(cursor, k, |urls|) == j
  {
    hide Sort, NoRepeats, Tier, Lead, CursorAt;
    SameBaseOrder(tiers[0], tiers[k]);
    SortedUrls(tiers[0]);
    var base, mine := Urls(Sort(RoundRobin, tiers[0])), Urls(Sort(RoundRobin, tiers[k]));
    assert |mine| == |tiers[k]| == |urls|;
    LeadOf(tiers[k], cursor, k);
    OnePlaceOnly(base, Lead(cursor, k, |urls|), j);
  }

  lemma OnePlaceOnly(a: seq<string>, i: nat, j: nat)
    requires NoRepeats(a) && i < |a| && j < |a|
    ensures a[i] == a[j] <==> i == j
  {}

  lemma LeadOf(s: seq<Snapshot>, cursor: nat, k: nat)
    requires s != [] && cursor < U64 && k < U64
    ensures var t := Tier(RoundRobin, s, CursorAt(cursor, k));
            t != [] && t[0] == Sort(RoundRobin, s)[Lead(cursor, k, |s|)]
  {
    hide Sort, Offset, CursorAt, Lead;
    OffsetIsLead(cursor, k, |s|);
  }

  lemma OffsetIsLead(cursor: nat, k: nat, n: nat)
    requires n > 0 && cursor < U64 && k < U64
    ensures Offset(CursorAt(cursor, k), n) == Lead(cursor, k, n)
  {
    WrapBack(cursor, k);
  }

  lemma TurnIsUnique(cursor: nat, n: nat, j: nat, k: nat)
    requires j < n && k < n <= U64 && cursor < U64 && WrapsEvenly(cursor, n)
    ensures Turn(cursor, n, j) < n
    ensures Lead(cursor, k, n) == j <==> k == Turn(cursor, n, j)
  {
    ModShift(cursor, k, n);
    if cursor + k >= U64 {
      EvenWrap(cursor + k - U64, n);
    }
  }

  /** When n divides 2^64, the count goes on evenly past the wrap. */
  lemma EvenWrap(x: nat, n: nat)
    requires n > 0 && U64 % n == 0
    ensures (x + U64) % n == x % n
  {
    var q, p := U64 / n, x / n;
    assert x + U64 == (p + q) * n + x % n;
    ModUnique(x + U64, n, p + q, x % n);
  }

  // ---------------------------------------------------------------- the same over calls of schedule()

  /** The part of a dispatch order that rotates on its own: the whole flat pool, or one tier. */
  datatype Part = Flat | Hardware | Soft

  function PartOf(all: seq<Snapshot>, part: Part): seq<Snapshot> {
    match part
    case Flat => Healthy(all)
    case Hardware => OfTier(Healthy(all), true)
    case Soft => OfTier(Healthy(all), false)
  }

  function Parts(rounds: seq<seq<Snapshot>>, part: Part): seq<seq<Snapshot>> {
    seq(|rounds|, k requires 0 <= k < |rounds| => PartOf(rounds[k], part))
  }

  /** Where the part begins in an order: software workers stand behind all hardware ones. */
  function Begins(all: seq<Snapshot>, part: Part): nat {
    if part == Soft then |OfTier(Healthy(all), true)| else 0
  }

  function LeadersIn(orders: seq<seq<Snapshot>>, rounds: seq<seq<Snapshot>>, part: Part): seq<string>
    requires |orders| == |rounds|
  {
    seq(|orders|, k requires 0 <= k < |orders| => UrlAt(orders[k], Begins(rounds[k], part)))
  }

  /**
   Consecutive calls of schedule(), the pool listed afresh each time. Over a stretch in which
   the n workers of a part stay the same, each of them leads its part exactly once, if and only
   if the cursor does not wrap on the way or n divides 2^64.
   */
  method Dispatches(s: Scheduler, rounds: seq<seq<Snapshot>>, ghost part: Part, ghost urls: set<string>)
    returns (orders: seq<seq<Snapshot>>)
    requires s.strategy == RoundRobin && s.rrCursor < U64 && |rounds| <= U64
    requires part.Flat? <==> s.flatPool
    requires SameWorkers(Parts(rounds, part), urls) && |rounds| == |urls|
    modifies s
    ensures |orders| == |rounds| && s.rrCursor == (old(s.rrCursor) + |rounds|) % U64
    ensures (forall u :: u in urls ==> Once(LeadersIn(orders, rounds, part), u))
            <==> WrapsEvenly(old(s.rrCursor), |urls|)
  {
    hide *;
    orders := [];
    ghost var cursor := s.rrCursor;
    CursorNow(cursor);
    for k := 0 to |rounds|
      invariant s.rrCursor == (cursor + k) % U64 < U64 && |orders| == k
      invariant forall i :: 0 <= i < k ==> orders[i] == Order(RoundRobin, s.flatPool, rounds[i], CursorAt(cursor, i))
    {
      var order := s.Schedule(rounds[k], [], []);
      NextCursor(cursor, k);
      OrderIs(s.flatPool, rounds[k], CursorAt(cursor, k));
      orders := orders + [order];
    }
    PartsSize(rounds, part);
    RoundRobinFair(Parts(rounds, part), urls, cursor);
    SameLeaders(s.flatPool, orders, rounds, part, urls, cursor);
  }

  lemma CursorNow(cursor: nat)
    requires cursor < U64
    ensures cursor % U64 == cursor
  {}

  lemma NextCursor(cursor: nat, k: nat)
    ensures ((cursor + k) % U64 + 1) % U64 == CursorAt(cursor, k) == (cursor + (k + 1)) % U64 < U64
  {
    var c := cursor + k;
    var r := c % U64;
    if r + 1 < U64 {
      assert (c + 1) % U64 == r + 1;
    } else {
      assert (c + 1) % U64 == 0;
    }
  }

  lemma OrderIs(flatPool: bool, all: seq<Snapshot>, rr: nat)
    ensures Order(RoundRobin, flatPool, all, rr)
            == if flatPool then Tier(RoundRobin, Healthy(all), rr)
               else Tier(RoundRobin, OfTier(Healthy(all), true), rr) + Tier(RoundRobin, OfTier(Healthy(all), false), rr)
  {}

  lemma PartsSize(rounds: seq<seq<Snapshot>>, part: Part)
    ensures |Parts(rounds, part)| == |rounds|
  {}

  /** Seen in the whole order, a part is led by whoever leads its own tier. */
  lemma SameLeaders(flatPool: bool, orders: seq<seq<Snapshot>>, rounds: seq<seq<Snapshot>>, part: Part,
                    urls: set<string>, cursor: nat)
    requires |orders| == |rounds| == |urls| && (part.Flat? <==> flatPool)
    requires SameWorkers(Parts(rounds, part), urls)
    requires forall k :: 0 <= k < |rounds| ==> orders[k] == Order(RoundRobin, flatPool, rounds[k], CursorAt(cursor, k))
    ensures LeadersIn(orders, rounds, part) == Leaders(Parts(rounds, part), cursor)
  {
    hide CursorAt, Order, PartOf, Begins, UrlAt, NoRepeats, Urls, UrlSet, Tier;
    var a, b := LeadersIn(orders, rounds, part), Leaders(Parts(rounds, part), cursor);
    forall k | 0 <= k < |rounds|
      ensures a[k] == b[k]
    {
      assert Parts(rounds, part)[k] == PartOf(rounds[k], part);
      NotEmptyPart(PartOf(rounds[k], part), urls);
      LeaderInOrder(flatPool, rounds[k], part, CursorAt(cursor, k));
    }
  }

  lemma NotEmptyPart(s: seq<Snapshot>, urls: set<string>)
    requires UrlSet(s) == urls && |urls| > 0
    ensures s != []
  {
    var u :| u in urls;
    assert u in Urls(s);
  }

  lemma LeaderInOrder(flatPool: bool, all: seq<Snapshot>, part: Part, rr: nat)
    requires (part.Flat? <==> flatPool) && PartOf(all, part) != []
    ensures UrlAt(Order(RoundRobin, flatPool, all, rr), Begins(all, part))
            == UrlAt(Tier(RoundRobin, PartOf(all, part), rr), 0)
  {
    hide Tier, OfTier, Healthy;
    TierIsPermutation(RoundRobin, PartOf(all, part), rr);
    TierIsPermutation(RoundRobin, OfTier(Healthy(all), true), rr);
  }
}
