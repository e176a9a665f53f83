/** What injection and the checkpoint cache guarantee together. */
module ResumeProps {
  import opened Prelude
  import opened Search
  import opened Resume

  // ---------------------------------------------------------------- the edits, token by token

  function PutSeek(p: seq<Tok>, v: Tok): seq<Tok> {
    if p == [] then [SEEK, v]
    else if p[0] == SEEK && |p| >= 2 then [SEEK, v] + p[2..]
    else [p[0]] + PutSeek(p[1..], v)
  }

  function PutStart(x: seq<Tok>, v: Tok): seq<Tok> {
    if x == [] then [START_NUMBER, v]
    else if x[0] == START_NUMBER && |x| >= 2 then [START_NUMBER, v] + x[2..]
    else [x[0]] + PutStart(x[1..], v)
  }

  function PutCopyts(p: seq<Tok>): seq<Tok> {
    if COPYTS in p then p else p + [COPYTS]
  }

  lemma WellFormedTail(x: seq<Tok>)
    requires WellFormed(x) && x != []
    ensures WellFormed(x[1..])
    ensures TakesValue(x[0]) ==> |x| >= 2 && !IsFlag(x[1]) && WellFormed(x[2..])
  {
    var t := x[1..];
    forall i | 0 <= i < |t| && TakesValue(t[i])
      ensures i + 1 < |t| && !IsFlag(t[i + 1])
    {
      assert TakesValue(x[i + 1]);
    }
    if TakesValue(x[0]) {
      var u := x[2..];
      forall i | 0 <= i < |u| && TakesValue(u[i])
        ensures i + 1 < |u| && !IsFlag(u[i + 1])
      {
        assert TakesValue(x[i + 2]);
      }
    }
  }

  lemma {:induction false} IndexOfTail<T>(x: seq<T>, t: T, from: nat)
    requires x != [] && from <= |x| - 1
    ensures IndexOf(x, t, from + 1) == if IndexOf(x[1..], t, from) < 0 then -1 else IndexOf(x[1..], t, from) + 1
    decreases |x| - from
  {
    if from + 1 < |x| && x[from + 1] != t { IndexOfTail(x, t, from + 1); }
  }

  lemma {:induction false} PutStartIs(x: seq<Tok>, v: Tok)
    requires WellFormed(x)
    ensures SetStartNumber(x, v) == PutStart(x, v)
  {
    if x != [] {
      WellFormedTail(x);
      if x[0] != START_NUMBER {
        PutStartIs(x[1..], v);
        IndexOfTail(x, START_NUMBER, 0);
        StartTail(x, v);
      }
    }
  }

  lemma StartTail(x: seq<Tok>, v: Tok)
    requires x != [] && x[0] != START_NUMBER
    ensures SetStartNumber(x, v) == [x[0]] + SetStartNumber(x[1..], v)
  {
    IndexOfTail(x, START_NUMBER, 0);
    var t := x[1..];
    var k := IndexOf(t, START_NUMBER, 0);
    assert x == [x[0]] + t;
    if 0 <= k && k + 1 < |t| {
      UpdateBack([x[0]], t, k + 1, v);
    } else {
      Assoc([x[0]], t, [START_NUMBER, v]);
    }
  }

  lemma UpdateBack<T>(a: seq<T>, b: seq<T>, k: nat, v: T)
    requires k < |b|
    ensures (a + b)[|a| + k := v] == a + b[k := v]
  {}

  /** The seek edit by index, as the source does it, within the input-side tokens. */
  function SeekByIndex(p: seq<Tok>, v: Tok): seq<Tok> {
    var k := IndexOf(p, SEEK, 0);
    if k < 0 then p + [SEEK, v] else if k + 1 < |p| then p[k + 1 := v] else p
  }

  lemma SeekTail(p: seq<Tok>, v: Tok)
    requires p != [] && p[0] != SEEK
    ensures SeekByIndex(p, v) == [p[0]] + SeekByIndex(p[1..], v)
  {
    IndexOfTail(p, SEEK, 0);
    var t := p[1..];
    var k := IndexOf(t, SEEK, 0);
    assert p == [p[0]] + t;
    if k < 0 {
      Assoc([p[0]], t, [SEEK, v]);
    } else if k + 1 < |t| {
      UpdateBack([p[0]], t, k + 1, v);
    }
  }

  lemma {:induction false} PutSeekIs(p: seq<Tok>, v: Tok)
    requires WellFormed(p)
    ensures PutSeek(p, v) == SeekByIndex(p, v)
  {
    if p != [] {
      WellFormedTail(p);
      if p[0] == SEEK {
        assert p[1 := v] == [SEEK, v] + p[2..];
      } else {
        hide SeekByIndex, WellFormed;
        PutSeekIs(p[1..], v);
        SeekTail(p, v);
      }
    }
  }

  /** Tokens before the first -i, and the rest. */
  lemma InputSplit(args: seq<Tok>) returns (at: nat, pre: seq<Tok>, post: seq<Tok>)
    requires WellFormed(args) && INPUT in args
    ensures at == IndexOf(args, INPUT, 0) && at < |args| && pre == args[..at] && post == args[at..]
    ensures INPUT !in pre && WellFormed(pre) && WellFormed(post) && post[0] == INPUT && args == pre + post
  {
    at := IndexOf(args, INPUT, 0);
    pre, post := args[..at], args[at..];
    forall i | 0 <= i < |pre| && TakesValue(pre[i])
      ensures i + 1 < |pre| && !IsFlag(pre[i + 1])
    {
      assert TakesValue(args[i]);
      assert !IsFlag(args[i + 1]);
    }
    forall i | 0 <= i < |post| && TakesValue(post[i])
      ensures i + 1 < |post| && !IsFlag(post[i + 1])
    {
      assert TakesValue(args[at + i]);
    }
  }

  /** The three edits of an argv with an input, side by side. */
  lemma InjectShape(args: seq<Tok>, x: real, n: int, pre: seq<Tok>, post: seq<Tok>)
    requires WellFormed(args) && args == pre + post && post != [] && post[0] == INPUT
    requires INPUT !in pre && WellFormed(pre)
    ensures Inject(args, x, n) == SetStartNumber(PutCopyts(PutSeek(pre, Secs(Millis(x)))) + post, Count(n))
  {
    hide Millis, WellFormed, PutSeek, SetStartNumber;
    var at, v := |pre|, Secs(Millis(x));
    assert args[at] == INPUT && args[..at] == pre && args[at..] == post;
    FirstAt(args, INPUT, at);
    PutSeekIs(pre, v);
    var sought := SetSeek(args, at, v);
    SeekShape(args, at, v, pre, post);
    var p := PutSeek(pre, v);
    CopytsShape(p, post);
  }

  lemma FirstAt<T>(s: seq<T>, x: T, k: nat)
    requires k < |s| && s[k] == x && x !in s[..k]
    ensures IndexOf(s, x, 0) == k
  {
    forall j | 0 <= j < k
      ensures s[j] != x
    {
      assert s[..k][j] == s[j];
    }
  }

  lemma SeekShape(args: seq<Tok>, at: nat, v: Tok, pre: seq<Tok>, post: seq<Tok>)
    requires at == |pre| && args == pre + post && args[..at] == pre && args[at..] == post
    requires post != [] && WellFormed(pre)
    ensures at < |args| && SetSeek(args, at, v) == PutSeek(pre, v) + post
  {
    PutSeekIs(pre, v);
    hide PutSeek;
    var k := IndexOf(pre, SEEK, 0);
    if k >= 0 {
      assert TakesValue(pre[k]);
      UpdateFront(pre, post, k + 1, v);
    } else {
      Assoc(pre, [SEEK, v], post);
    }
  }

  lemma UpdateFront<T>(a: seq<T>, b: seq<T>, k: nat, v: T)
    requires k < |a|
    ensures (a + b)[k := v] == a[k := v] + b
  {}

  lemma CopytsShape(p: seq<Tok>, post: seq<Tok>)
    ensures AddCopyts(p + post, |p|) == PutCopyts(p) + post
  {
    assert (p + post)[..|p|] == p && (p + post)[|p|..] == post;
  }

  // ---------------------------------------------------------------- the injected values

  lemma {:induction false} PutSeekSeeks(p: seq<Tok>, v: real, rest: seq<Tok>)
    requires WellFormed(p) && INPUT !in p
    ensures InitialSeek(PutSeek(p, Secs(v)) + rest) == v
  {
    var out := PutSeek(p, Secs(v)) + rest;
    if p != [] && p[0] != SEEK {
      WellFormedTail(p);
      PutSeekSeeks(p[1..], v, rest);
      assert out == [p[0]] + (PutSeek(p[1..], Secs(v)) + rest);
      PutSeekNonempty(p[1..], Secs(v));
      assert out[1..] == PutSeek(p[1..], Secs(v)) + rest;
    } else if p != [] {
      WellFormedTail(p);
    }
  }

  lemma PutSeekNonempty(p: seq<Tok>, v: Tok)
    ensures |PutSeek(p, v)| >= 1
  {}

  /** The segment start number plays no part in reading the seek. */
  lemma {:induction false} PutStartSeek(x: seq<Tok>, n: int)
    requires WellFormed(x)
    ensures InitialSeek(PutStart(x, Count(n))) == InitialSeek(x)
  {
    var out := PutStart(x, Count(n));
    if x == [] {
      assert out[1..] == [Count(n)];
    } else {
      WellFormedTail(x);
      if x[0] == START_NUMBER {
        assert out[1..] == [Count(n)] + x[2..] && out[1..][1..] == x[2..];
        assert x[1..][1..] == x[2..];
        SkipOne(x[1..]);
        SkipOne(out[1..]);
      } else {
        PutStartSeek(x[1..], n);
        PutStartNonempty(x[1..], Count(n));
        assert out[1..] == PutStart(x[1..], Count(n));
        if x[0] == SEEK { assert out[1] == x[1]; }
        if |x| == 1 { SkipSingle(x); }
      }
    }
  }

  lemma SkipOne(x: seq<Tok>)
    requires x != [] && x[0] != INPUT && x[0] != SEEK
    ensures InitialSeek(x) == InitialSeek(x[1..])
  {}

  lemma SkipSingle(x: seq<Tok>)
    requires |x| == 1
    ensures InitialSeek(x) == InitialSeek(x[1..]) == 0.0
  {}

  lemma PutStartNonempty(x: seq<Tok>, v: Tok)
    ensures |PutStart(x, v)| >= 1
    ensures x != [] && x[0] != START_NUMBER ==> PutStart(x, v)[0] == x[0]
  {}

  // ---------------------------------------------------------------- everything else stays

  /** What has been met so far in a walk over an argv. */
  datatype Met = Met(seek: bool, copyts: bool, start: bool, input: bool)

  /** An argv without its first input-side seek, its first input-side -copyts and its first start number. */
  function Others(x: seq<Tok>, m: Met): seq<Tok> {
    if x == [] then []
    else if x[0] == SEEK && !m.input && !m.seek && |x| >= 2 then Others(x[2..], m.(seek := true))
    else if x[0] == COPYTS && !m.input && !m.copyts then Others(x[1..], m.(copyts := true))
    else if x[0] == START_NUMBER && !m.start && |x| >= 2 then Others(x[2..], m.(start := true))
    else [x[0]] + Others(x[1..], if x[0] == INPUT then m.(input := true) else m)
  }

  /** Past the input, the input-side marks no longer matter. */
  lemma {:induction false} PastInput(x: seq<Tok>, m: Met, seek: bool, copyts: bool)
    requires m.input
    ensures Others(x, m) == Others(x, m.(seek := seek, copyts := copyts))
  {
    if x != [] {
      if x[0] == START_NUMBER && !m.start && |x| >= 2 {
        PastInput(x[2..], m.(start := true), seek, copyts);
      } else {
        PastInput(x[1..], m, seek, copyts);
      }
    }
  }

  lemma AtInput(post: seq<Tok>, m: Met, seek: bool, copyts: bool)
    requires post != [] && post[0] == INPUT
    ensures Others(post, m) == Others(post, m.(seek := seek, copyts := copyts))
  {
    PastInput(post[1..], m.(input := true), seek, copyts);
  }

  lemma {:induction false} PutStartOthers(x: seq<Tok>, v: Tok, m: Met)
    requires WellFormed(x) && !m.start
    ensures Others(PutStart(x, v), m) == Others(x, m)
  {
    var out := PutStart(x, v);
    if x == [] {
      assert out[2..] == [];
    } else {
      WellFormedTail(x);
      if x[0] == START_NUMBER {
        assert out[2..] == x[2..];
      } else {
        PutStartNonempty(x[1..], v);
        assert out[1..] == PutStart(x[1..], v);
        if x[0] == SEEK {
          assert x[1..][1..] == x[2..];
          assert out[2..] == PutStart(x[2..], v);
          PutStartOthers(x[2..], v, m.(seek := true));
        }
        PutStartOthers(x[1..], v, m.(copyts := true));
        PutStartOthers(x[1..], v, if x[0] == INPUT then m.(input := true) else m);
      }
    }
  }

  /** The walk, one token or one pair at a time. */
  lemma OthersPair(f: Tok, w: Tok, t: seq<Tok>, m: Met)
    requires (f == SEEK && !m.input && !m.seek) || (f == START_NUMBER && !m.start)
    ensures Others([f, w] + t, m) == Others(t, if f == SEEK then m.(seek := true) else m.(start := true))
  {
    assert ([f, w] + t)[2..] == t;
  }

  lemma OthersOne(f: Tok, t: seq<Tok>, m: Met)
    requires f != SEEK && (f == START_NUMBER ==> m.start)
    ensures Others([f] + t, m) ==
            if f == COPYTS && !m.input && !m.copyts then Others(t, m.(copyts := true))
            else [f] + Others(t, if f == INPUT then m.(input := true) else m)
  {
    assert ([f] + t)[1..] == t;
  }

  lemma {:induction false} PutSeekOthers(p: seq<Tok>, v: Tok, post: seq<Tok>, m: Met)
    requires WellFormed(p) && INPUT !in p && !m.seek && !m.input && post != [] && post[0] == INPUT
    ensures Others(PutSeek(p, v) + post, m) == Others(p + post, m)
  {
    hide Others;
    if p == [] {
      OthersPair(SEEK, v, post, m);
      assert p + post == post;
      AtInput(post, m, true, m.copyts);
    } else {
      WellFormedTail(p);
      if p[0] == SEEK {
        OthersPair(SEEK, v, p[2..] + post, m);
        OthersPair(SEEK, p[1], p[2..] + post, m);
        assert p == [SEEK, p[1]] + p[2..];
        Assoc([SEEK, v], p[2..], post);
        Assoc([SEEK, p[1]], p[2..], post);
      } else if p[0] == START_NUMBER && !m.start {
        PutSeekOthers(p[2..], v, post, m.(start := true));
        OthersPair(START_NUMBER, p[1], p[2..] + post, m);
        OthersPair(START_NUMBER, p[1], PutSeek(p[2..], v) + post, m);
        assert p == [START_NUMBER, p[1]] + p[2..];
        Assoc([START_NUMBER, p[1]], p[2..], post);
        SeekPastPair(p, v);
        Assoc([START_NUMBER, p[1]], PutSeek(p[2..], v), post);
      } else {
        PutSeekOthers(p[1..], v, post, if p[0] == COPYTS then m.(copyts := true) else m);
        OthersOne(p[0], p[1..] + post, m);
        OthersOne(p[0], PutSeek(p[1..], v) + post, m);
        if p[0] == COPYTS && m.copyts { PutSeekOthers(p[1..], v, post, m); }
        assert p == [p[0]] + p[1..];
        Assoc([p[0]], p[1..], post);
        Assoc([p[0]], PutSeek(p[1..], v), post);
      }
    }
  }

  lemma SeekPastPair(p: seq<Tok>, v: Tok)
    requires |p| >= 2 && p[0] != SEEK && p[1] != SEEK
    ensures PutSeek(p, v) == [p[0], p[1]] + PutSeek(p[2..], v)
  {
    assert p[1..][1..] == p[2..];
    assert PutSeek(p[1..], v) == [p[1]] + PutSeek(p[2..], v);
  }

  lemma {:induction false} PutCopytsOthers(p: seq<Tok>, post: seq<Tok>, m: Met)
    requires WellFormed(p) && COPYTS !in p && INPUT !in p && !m.copyts && !m.input && post != [] && post[0] == INPUT
    ensures Others(p + ([COPYTS] + post), m) == Others(p + post, m)
  {
    hide Others;
    var more := [COPYTS] + post;
    if p == [] {
      OthersOne(COPYTS, post, m);
      assert p + more == more && p + post == post;
      AtInput(post, m, m.seek, true);
    } else {
      WellFormedTail(p);
      if TakesValue(p[0]) && ((p[0] == SEEK && !m.seek) || (p[0] == START_NUMBER && !m.start)) {
        PutCopytsOthers(p[2..], post, if p[0] == SEEK then m.(seek := true) else m.(start := true));
        OthersPair(p[0], p[1], p[2..] + more, m);
        OthersPair(p[0], p[1], p[2..] + post, m);
        assert p == [p[0], p[1]] + p[2..];
        Assoc([p[0], p[1]], p[2..], more);
        Assoc([p[0], p[1]], p[2..], post);
      } else {
        PutCopytsOthers(p[1..], post, m);
        OthersKept(p[0], p[1..] + more, m);
        OthersKept(p[0], p[1..] + post, m);
        assert p == [p[0]] + p[1..];
        Assoc([p[0]], p[1..], more);
        Assoc([p[0]], p[1..], post);
      }
    }
  }

  lemma OthersKept(f: Tok, t: seq<Tok>, m: Met)
    requires f != INPUT && f != COPYTS && (f == SEEK ==> m.seek) && (f == START_NUMBER ==> m.start)
    ensures Others([f] + t, m) == [f] + Others(t, m)
  {
    assert ([f] + t)[1..] == t;
  }

  // ---------------------------------------------------------------- well-formedness is kept

  lemma WellFormedCons(f: Tok, x: seq<Tok>)
    requires WellFormed(x) && (TakesValue(f) ==> x != [] && !IsFlag(x[0]))
    ensures WellFormed([f] + x)
  {
    var all := [f] + x;
    forall i | 0 <= i < |all| && TakesValue(all[i])
      ensures i + 1 < |all| && !IsFlag(all[i + 1])
    {
      if i > 0 { assert all[i] == x[i - 1]; }
    }
  }

  lemma WellFormedPair(f: Tok, v: Tok, x: seq<Tok>)
    requires WellFormed(x) && !IsFlag(v)
    ensures WellFormed([f, v] + x)
  {
    WellFormedCons(v, x);
    WellFormedCons(f, [v] + x);
    assert [f] + ([v] + x) == [f, v] + x;
  }

  lemma {:induction false} WellFormedConcat(a: seq<Tok>, b: seq<Tok>)
    requires WellFormed(a) && WellFormed(b)
    ensures WellFormed(a + b)
  {
    var all := a + b;
    forall i | 0 <= i < |all| && TakesValue(all[i])
      ensures i + 1 < |all| && !IsFlag(all[i + 1])
    {
      if i < |a| { assert all[i] == a[i]; } else { assert all[i] == b[i - |a|]; }
    }
  }

  lemma {:induction false} PutSeekWellFormed(p: seq<Tok>, v: Tok)
    requires WellFormed(p) && INPUT !in p && !IsFlag(v)
    ensures WellFormed(PutSeek(p, v)) && INPUT !in PutSeek(p, v)
    ensures COPYTS in PutSeek(p, v) <==> COPYTS in p
    ensures p != [] && p[0] != SEEK ==> PutSeek(p, v)[0] == p[0]
  {
    if p == [] {
      WellFormedPair(SEEK, v, []);
      assert [SEEK, v] + [] == [SEEK, v];
    } else {
      WellFormedTail(p);
      if p[0] == SEEK {
        WellFormedPair(SEEK, v, p[2..]);
        assert p == [SEEK, p[1]] + p[2..];
      } else {
        PutSeekWellFormed(p[1..], v);
        WellFormedCons(p[0], PutSeek(p[1..], v));
        assert p == [p[0]] + p[1..];
      }
    }
  }

  lemma {:induction false} PutStartWellFormed(x: seq<Tok>, v: Tok)
    requires WellFormed(x) && !IsFlag(v)
    ensures WellFormed(PutStart(x, v))
    ensures x != [] && x[0] != START_NUMBER ==> PutStart(x, v)[0] == x[0]
  {
    if x == [] {
      WellFormedPair(START_NUMBER, v, []);
      assert [START_NUMBER, v] + [] == [START_NUMBER, v];
    } else {
      WellFormedTail(x);
      if x[0] == START_NUMBER {
        WellFormedPair(START_NUMBER, v, x[2..]);
      } else {
        PutStartWellFormed(x[1..], v);
        WellFormedCons(x[0], PutStart(x[1..], v));
      }
    }
  }

  lemma CopytsWellFormed(p: seq<Tok>)
    requires WellFormed(p) && INPUT !in p
    ensures WellFormed(PutCopyts(p)) && INPUT !in PutCopyts(p) && COPYTS in PutCopyts(p)
  {
    if COPYTS !in p { WellFormedConcat(p, [COPYTS]); }
  }

  // ---------------------------------------------------------------- main results on injection

  const NOTHING_MET := Met(false, false, false, false)

  /** The argv as an injected one is put together. */
  lemma InjectParts(args: seq<Tok>, x: real, n: int) returns (pre: seq<Tok>, post: seq<Tok>, y: seq<Tok>)
    requires WellFormed(args) && INPUT in args
    ensures args == pre + post && WellFormed(pre) && INPUT !in pre
    ensures WellFormed(post) && post != [] && post[0] == INPUT
    ensures y == PutCopyts(PutSeek(pre, Secs(Millis(x)))) + post && WellFormed(y)
    ensures Inject(args, x, n) == SetStartNumber(y, Count(n)) == PutStart(y, Count(n))
  {
    var v := Secs(Millis(x));
    assert !IsFlag(v);
    hide *;
    var at;
    at, pre, post := InputSplit(args);
    InjectShape(args, x, n, pre, post);
    PutSeekWellFormed(pre, v);
    CopytsWellFormed(PutSeek(pre, v));
    y := PutCopyts(PutSeek(pre, v)) + post;
    WellFormedConcat(PutCopyts(PutSeek(pre, v)), post);
    PutStartIs(y, Count(n));
  }

  lemma InjectedSeek(args: seq<Tok>, x: real, n: int)
    requires WellFormed(args) && INPUT in args
    ensures InitialSeek(Inject(args, x, n)) == Millis(x)
  {
    hide *;
    var pre, post, y := InjectParts(args, x, n);
    SeekOfShape(pre, Millis(x), post, n);
  }

  lemma InjectedStart(args: seq<Tok>, x: real, n: int)
    requires WellFormed(args)
    ensures StartNumber(Inject(args, x, n)) == Some(Count(n))
  {
    if INPUT in args {
      hide *;
      var pre, post, y := InjectParts(args, x, n);
      StartOfShape(y, n);
    } else {
      hide WellFormed, SetStartNumber;
      StartOfShape(args, n);
    }
  }

  lemma InjectedOthers(args: seq<Tok>, x: real, n: int)
    requires WellFormed(args) && INPUT in args
    ensures Others(Inject(args, x, n), NOTHING_MET) == Others(args, NOTHING_MET)
  {
    hide *;
    var pre, post, y := InjectParts(args, x, n);
    NotAFlag(Millis(x), n);
    OthersOfShape(pre, Secs(Millis(x)), post, n);
  }

  lemma NotAFlag(x: real, n: int)
    ensures !IsFlag(Secs(x)) && !IsFlag(Count(n))
  {}

  lemma InjectedWellFormed(args: seq<Tok>, x: real, n: int)
    requires WellFormed(args)
    ensures WellFormed(Inject(args, x, n))
    ensures INPUT in args ==> INPUT in Inject(args, x, n)
  {
    NotAFlag(x, n);
    if INPUT in args {
      hide *;
      var pre, post, y := InjectParts(args, x, n);
      PutStartWellFormed(y, Count(n));
      InThere(PutCopyts(PutSeek(pre, Secs(Millis(x)))), post);
      InputKept(y, Count(n));
    } else {
      hide WellFormed, SetStartNumber;
      PutStartIs(args, Count(n));
      PutStartWellFormed(args, Count(n));
    }
  }

  lemma InThere(a: seq<Tok>, b: seq<Tok>)
    requires b != [] && b[0] == INPUT
    ensures INPUT in a + b
  {
    assert (a + b)[|a|] == INPUT;
  }

  /**
   For any well-formed argv with an input: the first input-side seek becomes the resume point (to the
   printed millisecond), the start number the next segment, -copyts stands before the input, and
   every other token keeps its place in the order.
   */
  lemma InjectionMeans(args: seq<Tok>, x: real, n: int)
    requires WellFormed(args) && INPUT in args
    ensures InitialSeek(Inject(args, x, n)) == Millis(x)
    ensures StartNumber(Inject(args, x, n)) == Some(Count(n))
    ensures 0 <= IndexOf(Inject(args, x, n), COPYTS, 0) < IndexOf(Inject(args, x, n), INPUT, 0)
    ensures Others(Inject(args, x, n), NOTHING_MET) == Others(args, NOTHING_MET)
    ensures WellFormed(Inject(args, x, n))
  {
    hide *;
    InjectedSeek(args, x, n);
    InjectedStart(args, x, n);
    InjectedOthers(args, x, n);
    InjectedWellFormed(args, x, n);
    CopytsBeforeInput(args, x, n);
  }

  lemma {:induction false} InputKept(y: seq<Tok>, v: Tok)
    requires WellFormed(y) && INPUT in y
    ensures INPUT in PutStart(y, v)
  {
    WellFormedTail(y);
    if y[0] == START_NUMBER {
      assert y == [y[0], y[1]] + y[2..];
    } else if y[0] != INPUT {
      assert y == [y[0]] + y[1..];
      InputKept(y[1..], v);
    }
  }

  lemma SeekOfShape(pre: seq<Tok>, v: real, post: seq<Tok>, n: int)
    requires WellFormed(pre) && INPUT !in pre && WellFormed(post)
    ensures InitialSeek(PutStart(PutCopyts(PutSeek(pre, Secs(v))) + post, Count(n))) == v
  {
    hide InitialSeek;
    var sought := PutSeek(pre, Secs(v));
    PutSeekWellFormed(pre, Secs(v));
    CopytsWellFormed(sought);
    WellFormedConcat(PutCopyts(sought), post);
    PutStartSeek(PutCopyts(sought) + post, n);
    if COPYTS in sought {
      PutSeekSeeks(pre, v, post);
    } else {
      PutSeekSeeks(pre, v, [COPYTS] + post);
      Assoc(sought, [COPYTS], post);
    }
  }

  lemma StartOfShape(y: seq<Tok>, n: int)
    requires WellFormed(y)
    ensures StartNumber(SetStartNumber(y, Count(n))) == Some(Count(n))
  {
    var out, k := SetStartNumber(y, Count(n)), IndexOf(y, START_NUMBER, 0);
    if k >= 0 {
      assert TakesValue(y[k]);
      assert out[..k] == y[..k];
      FirstAt(out, START_NUMBER, k);
    } else {
      assert out[..|y|] == y;
      FirstAt(out, START_NUMBER, |y|);
    }
  }

  lemma OthersOfShape(pre: seq<Tok>, v: Tok, post: seq<Tok>, n: int)
    requires WellFormed(pre) && INPUT !in pre && WellFormed(post) && post != [] && post[0] == INPUT && !IsFlag(v)
    ensures var m := NOTHING_MET;
            Others(PutStart(PutCopyts(PutSeek(pre, v)) + post, Count(n)), m) == Others(pre + post, m)
  {
    hide Others;
    var m := NOTHING_MET;
    var sought := PutSeek(pre, v);
    PutSeekWellFormed(pre, v);
    CopytsWellFormed(sought);
    WellFormedConcat(PutCopyts(sought), post);
    PutStartOthers(PutCopyts(sought) + post, Count(n), m);
    PutSeekOthers(pre, v, post, m);
    if COPYTS !in sought {
      PutCopytsOthers(sought, post, m);
      Assoc(sought, [COPYTS], post);
    }
  }

  /** -copyts stands before the first -i. */
  lemma CopytsBeforeInput(args: seq<Tok>, x: real, n: int)
    requires WellFormed(args) && INPUT in args
    ensures 0 <= IndexOf(Inject(args, x, n), COPYTS, 0) < IndexOf(Inject(args, x, n), INPUT, 0)
  {
    hide *;
    var pre, post, y := InjectParts(args, x, n);
    NotAFlag(Millis(x), n);
    PutSeekWellFormed(pre, Secs(Millis(x)));
    CopytsWellFormed(PutSeek(pre, Secs(Millis(x))));
    var p := PutCopyts(PutSeek(pre, Secs(Millis(x))));
    assert y[..|p|] == p && y[|p|] == INPUT;
    CopytsStays(y, p, Count(n));
  }

  /** Setting the start number overwrites a value or appends: what comes first stays first. */
  lemma CopytsStays(y: seq<Tok>, p: seq<Tok>, v: Tok)
    requires WellFormed(y) && |p| < |y| && y[..|p|] == p && y[|p|] == INPUT && COPYTS in p && INPUT !in p && !IsFlag(v)
    ensures var out := SetStartNumber(y, v);
            0 <= IndexOf(out, COPYTS, 0) < IndexOf(out, INPUT, 0)
  {
    var out, k := SetStartNumber(y, v), IndexOf(y, START_NUMBER, 0);
    if k >= 0 { assert TakesValue(y[k]); }
    var c := IndexOf(p, COPYTS, 0);
    assert y[c] == p[c] == COPYTS;
    assert out[c] == COPYTS && out[|p|] == INPUT;
    forall j | 0 <= j < |p|
      ensures out[j] != INPUT
    {
      assert y[j] == p[j];
    }
  }
}
