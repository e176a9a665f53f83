/** The checkpoint cache, and what happens when resume flags are injected more than once. */
module CheckpointCache {
  import opened Prelude
  import opened Search
  import opened Resume
  import opened ResumeProps

  /** How far a Plex session had got when its worker was last polled. */
  datatype Hint = Hint(originalSeek: real, segmentTime: real, lastSeq: int, updatedAt: int)

  type Store = map<string, Hint>

  const TOLERANCE := 0.05

  predicate FloatEq(a: real, b: real, tol: real) {
    if a > b then a - b <= tol else b - a <= tol
  }

  /** The hint for a session, unless it is missing or stale. */
  function Live(store: Store, id: string, now: int, ttl: int): Option<Hint> {
    if id == "" || id !in store || now - store[id].updatedAt > ttl then None else Some(store[id])
  }

  /** A lookup forgets a stale hint. */
  function AfterGet(store: Store, id: string, now: int, ttl: int): Store {
    if id != "" && id in store && now - store[id].updatedAt > ttl then store - {id} else store
  }

  function ResumePoint(h: Hint): real {
    h.originalSeek + h.lastSeq as real * h.segmentTime
  }

  datatype Attempt = Attempt(store: Store, args: seq<Tok>, resumed: bool)

  /** resumeIfApplicable, as a function of the cache and the argv. */
  function ResumeStep(store: Store, args: seq<Tok>, now: int, ttl: int): Attempt {
    var id := PlexSession(args);
    match Live(store, id, now, ttl)
    case None => Attempt(AfterGet(store, id, now, ttl), args, false)
    case Some(h) =>
      if h.lastSeq <= 0 then Attempt(store, args, false)
      else if !FloatEq(InitialSeek(args), h.originalSeek, TOLERANCE) then Attempt(store - {id}, args, false)
      else Attempt(store, Inject(args, ResumePoint(h), h.lastSeq + 1), true)
  }

  class Cache {
    var m: Store
    const ttl: int

    constructor (ttl: int)
      ensures m == map[] && this.ttl == ttl
    {
      m, this.ttl := map[], ttl;
    }

    method Put(id: string, h: Hint)
      modifies this
      ensures m == if id == "" then old(m) else old(m)[id := h]
    {
      if id == "" {
        return;
      }
      m := m[id := h];
    }

    method Get(id: string, now: int) returns (h: Option<Hint>)
      modifies this
      ensures h == Live(old(m), id, now, ttl)
      ensures m == AfterGet(old(m), id, now, ttl)
    {
      if id == "" || id !in m {
        return None;
      }
      if now - m[id].updatedAt > ttl {
        m := m - {id};
        return None;
      }
      return Some(m[id]);
    }

    method Drop(id: string)
      modifies this
      ensures m == if id == "" then old(m) else old(m) - {id}
    {
      if id == "" {
        return;
      }
      m := m - {id};
    }

    method ResumeIfApplicable(args: seq<Tok>, now: int) returns (out: seq<Tok>, resumed: bool)
      modifies this
      ensures Attempt(m, out, resumed) == ResumeStep(old(m), args, now, ttl)
    {
      hide Inject, InitialSeek, PlexSession;
      var id := PlexSessionFromArgs(args);
      var h := Get(id, now);
      if h.None? || h.value.lastSeq <= 0 {
        return args, false;
      }
      var newSeek := InitialSeekFromArgs(args);
      if !FloatEq(newSeek, h.value.originalSeek, TOLERANCE) {
        Drop(id);
        return args, false;
      }
      out := InjectResumeFlags(args, ResumePoint(h.value), h.value.lastSeq + 1);
      resumed := true;
    }
  }

  // ---------------------------------------------------------------- polling a session

  /** What pollCheckpoint stores for the session of `args` when its worker reports segment `seq`. */
  function HintOf(args: seq<Tok>, segment: int, now: int): Hint {
    Hint(InitialSeek(args), SegmentTime(args), segment, now)
  }

  /** One successful poll of pollCheckpoint. */
  method Poll(cache: Cache, args: seq<Tok>, segment: int, now: int)
    modifies cache
    ensures var id := PlexSession(args);
            cache.m == if id == "" then old(cache.m) else old(cache.m)[id := HintOf(args, segment, now)]
  {
    hide InitialSeek, PlexSession, SegmentTime;
    var plexID := PlexSessionFromArgs(args);
    if plexID == "" {
      return;
    }
    var origSeek := InitialSeekFromArgs(args);
    var segTime := SegmentTimeFromArgs(args);
    cache.Put(plexID, Hint(origSeek, segTime, segment, now));
  }

  // ---------------------------------------------------------------- the session key survives

  lemma SessionOne(f: Tok, t: seq<Tok>)
    requires f != PROGRESS_URL
    ensures PlexSession([f] + t) == PlexSession(t)
  {
    assert ([f] + t)[1..] == t;
  }

  lemma SessionPair(f: Tok, w: Tok, t: seq<Tok>)
    requires w != PROGRESS_URL
    ensures PlexSession([f, w] + t) == if f == PROGRESS_URL && w.Progress? then w.session else PlexSession(t)
  {
    assert ([f, w] + t)[1..] == [w] + t;
    SessionOne(w, t);
  }

  lemma {:induction false} SessionPutStart(x: seq<Tok>, v: Tok)
    requires WellFormed(x) && !IsFlag(v)
    ensures PlexSession(PutStart(x, v)) == PlexSession(x)
  {
    hide PlexSession;
    if x == [] {
      SessionPair(START_NUMBER, v, []);
      assert [START_NUMBER, v] + [] == [START_NUMBER, v];
    } else {
      WellFormedTail(x);
      if TakesValue(x[0]) {
        assert x == [x[0], x[1]] + x[2..];
        SessionPair(x[0], x[1], x[2..]);
        if x[0] == START_NUMBER {
          SessionPair(START_NUMBER, v, x[2..]);
        } else {
          StartPastPair(x, v);
          SessionPutStart(x[2..], v);
          SessionPair(x[0], x[1], PutStart(x[2..], v));
        }
      } else {
        assert x == [x[0]] + x[1..];
        SessionPutStart(x[1..], v);
        SessionOne(x[0], x[1..]);
        SessionOne(x[0], PutStart(x[1..], v));
      }
    }
  }

  lemma StartPastPair(x: seq<Tok>, v: Tok)
    requires |x| >= 2 && x[0] != START_NUMBER && x[1] != START_NUMBER
    ensures PutStart(x, v) == [x[0], x[1]] + PutStart(x[2..], v)
  {
    assert x[1..][1..] == x[2..];
    assert PutStart(x[1..], v) == [x[1]] + PutStart(x[2..], v);
  }

  lemma {:induction false} SessionPutSeek(p: seq<Tok>, v: Tok, rest: seq<Tok>)
    requires WellFormed(p) && !IsFlag(v)
    ensures PlexSession(PutSeek(p, v) + rest) == PlexSession(p + rest)
  {
    hide PlexSession;
    if p == [] {
      SessionPair(SEEK, v, rest);
      assert p + rest == rest;
    } else {
      WellFormedTail(p);
      if TakesValue(p[0]) {
        assert p == [p[0], p[1]] + p[2..];
        SessionPair(p[0], p[1], p[2..] + rest);
        Assoc([p[0], p[1]], p[2..], rest);
        if p[0] == SEEK {
          SessionPair(SEEK, v, p[2..] + rest);
          Assoc([SEEK, v], p[2..], rest);
        } else {
          SeekPastPair(p, v);
          SessionPutSeek(p[2..], v, rest);
          SessionPair(p[0], p[1], PutSeek(p[2..], v) + rest);
          Assoc([p[0], p[1]], PutSeek(p[2..], v), rest);
        }
      } else {
        assert p == [p[0]] + p[1..];
        SessionPutSeek(p[1..], v, rest);
        SessionOne(p[0], p[1..] + rest);
        SessionOne(p[0], PutSeek(p[1..], v) + rest);
        Assoc([p[0]], p[1..], rest);
        Assoc([p[0]], PutSeek(p[1..], v), rest);
      }
    }
  }

  lemma {:induction false} SessionPutCopyts(p: seq<Tok>, rest: seq<Tok>)
    requires WellFormed(p)
    ensures PlexSession(p + ([COPYTS] + rest)) == PlexSession(p + rest)
  {
    hide PlexSession;
    var more := [COPYTS] + rest;
    if p == [] {
      SessionOne(COPYTS, rest);
      assert p + more == more && p + rest == rest;
    } else {
      WellFormedTail(p);
      if TakesValue(p[0]) {
        assert p == [p[0], p[1]] + p[2..];
        SessionPutCopyts(p[2..], rest);
        SessionPair(p[0], p[1], p[2..] + more);
        SessionPair(p[0], p[1], p[2..] + rest);
        Assoc([p[0], p[1]], p[2..], more);
        Assoc([p[0], p[1]], p[2..], rest);
      } else {
        assert p == [p[0]] + p[1..];
        SessionPutCopyts(p[1..], rest);
        SessionOne(p[0], p[1..] + more);
        SessionOne(p[0], p[1..] + rest);
        Assoc([p[0]], p[1..], more);
        Assoc([p[0]], p[1..], rest);
      }
    }
  }

  /** Injection never changes which Plex session an argv belongs to. */
  lemma SessionKept(args: seq<Tok>, x: real, n: int)
    requires WellFormed(args)
    ensures PlexSession(Inject(args, x, n)) == PlexSession(args)
  {
    NotAFlag(Millis(x), n);
    if INPUT in args {
      hide *;
      var v := Secs(Millis(x));
      var pre, post, y := InjectParts(args, x, n);
      SessionPutStart(y, Count(n));
      SessionPutSeek(pre, v, post);
      PutSeekWellFormed(pre, v);
      SessionCopyts(PutSeek(pre, v), post);
    } else {
      hide WellFormed, SetStartNumber, PlexSession;
      PutStartIs(args, Count(n));
      SessionPutStart(args, Count(n));
    }
  }

  lemma SessionCopyts(p: seq<Tok>, post: seq<Tok>)
    requires WellFormed(p)
    ensures PlexSession(PutCopyts(p) + post) == PlexSession(p + post)
  {
    hide PlexSession;
    if COPYTS !in p {
      SessionPutCopyts(p, post);
      Assoc(p, [COPYTS], post);
    }
  }

  // ---------------------------------------------------------------- injecting twice

  /** The value token of the first input-side seek. */
  function SeekTok(args: seq<Tok>): Option<Tok> {
    if |args| <= 1 || args[0] == INPUT then None
    else if args[0] == SEEK then Some(args[1])
    else SeekTok(args[1..])
  }

  lemma SeekTokOne(f: Tok, t: seq<Tok>)
    requires f != INPUT && f != SEEK
    ensures SeekTok([f] + t) == SeekTok(t)
  {
    assert ([f] + t)[1..] == t;
  }

  lemma {:induction false} SeekTokPut(p: seq<Tok>, v: Tok, rest: seq<Tok>)
    requires WellFormed(p) && INPUT !in p
    ensures SeekTok(PutSeek(p, v) + rest) == Some(v)
  {
    if p != [] && p[0] != SEEK {
      WellFormedTail(p);
      assert p == [p[0]] + p[1..];
      SeekTokPut(p[1..], v, rest);
      SeekTokOne(p[0], PutSeek(p[1..], v) + rest);
      Assoc([p[0]], PutSeek(p[1..], v), rest);
    } else if p != [] {
      WellFormedTail(p);
    }
  }

  lemma PutStartHere(w: Tok, t: seq<Tok>, v: Tok)
    ensures SeekTok(PutStart([START_NUMBER] + ([w] + t), v)) == SeekTok([v] + t)
    ensures SeekTok([START_NUMBER] + ([w] + t)) == SeekTok([w] + t)
  {
    var x := [START_NUMBER] + ([w] + t);
    assert x[2..] == t && PutStart(x, v) == [START_NUMBER] + ([v] + t);
    SeekTokOne(START_NUMBER, [w] + t);
    SeekTokOne(START_NUMBER, [v] + t);
  }

  lemma PutStartPastSeek(w: Tok, t: seq<Tok>, v: Tok)
    requires w != START_NUMBER
    ensures SeekTok(PutStart([SEEK] + ([w] + t), v)) == SeekTok([SEEK] + ([w] + t))
  {
    var x := [SEEK] + ([w] + t);
    assert x[1..] == [w] + t && ([w] + t)[1..] == t;
    assert PutStart(x, v) == [SEEK] + ([w] + PutStart(t, v));
  }

  lemma PutStartPast(f: Tok, t: seq<Tok>, v: Tok)
    requires f != INPUT && f != SEEK && f != START_NUMBER
    ensures SeekTok(PutStart([f] + t, v)) == SeekTok(PutStart(t, v))
    ensures SeekTok([f] + t) == SeekTok(t)
  {
    assert ([f] + t)[1..] == t;
    assert PutStart([f] + t, v) == [f] + PutStart(t, v);
    SeekTokOne(f, t);
    SeekTokOne(f, PutStart(t, v));
  }

  lemma StartsWithFlag(x: seq<Tok>)
    requires WellFormed(x) && x != []
    ensures x == [x[0]] + x[1..]
    ensures x[0] == START_NUMBER || x[0] == SEEK ==>
              |x| >= 2 && x == [x[0]] + ([x[1]] + x[2..]) && !IsFlag(x[1]) && x[1] != START_NUMBER
  {
    WellFormedTail(x);
  }

  lemma SeekTokValue(w: Tok, t: seq<Tok>)
    requires !IsFlag(w)
    ensures SeekTok([w] + t) == SeekTok(t)
  {
    SeekTokOne(w, t);
  }

  lemma {:induction false} SeekTokStart(x: seq<Tok>, v: Tok)
    requires WellFormed(x) && !IsFlag(v)
    ensures SeekTok(PutStart(x, v)) == SeekTok(x)
  {
    if x == [] {
      assert PutStart(x, v) == [START_NUMBER] + [v];
      SeekTokOne(START_NUMBER, [v]);
    } else if x[0] == INPUT {
      assert PutStart(x, v)[0] == INPUT;
    } else {
      hide *;
      StartsWithFlag(x);
      if x[0] == START_NUMBER {
        PutStartHere(x[1], x[2..], v);
        SeekTokValue(v, x[2..]);
        SeekTokValue(x[1], x[2..]);
      } else if x[0] == SEEK {
        PutStartPastSeek(x[1], x[2..], v);
      } else {
        WellFormedTail(x);
        PutStartPast(x[0], x[1..], v);
        SeekTokStart(x[1..], v);
      }
    }
  }

  /** Where that token sits. */
  lemma {:induction false} SeekTokAt(x: seq<Tok>, at: nat, v: Tok)
    requires at < |x| && x[at] == INPUT && INPUT !in x[..at] && SeekTok(x) == Some(v)
    ensures var k := IndexOf(x[..at], SEEK, 0);
            k >= 0 && k + 1 < |x| && x[k + 1] == v
  {
    if x[0] == SEEK {
      assert x[..at][0] == SEEK;
    } else {
      assert at > 0;
      assert x[..at][0] == x[0];
      var t := x[1..];
      assert t[..at - 1] == x[..at][1..];
      assert INPUT !in t[..at - 1];
      SeekTokAt(t, at - 1, v);
      IndexOfTail(x[..at], SEEK, 0);
    }
  }

  lemma SeekFixed(b: seq<Tok>, at: nat, v: Tok)
    requires at < |b| && b[at] == INPUT && INPUT !in b[..at] && SeekTok(b) == Some(v)
    ensures SetSeek(b, at, v) == b
  {
    SeekTokAt(b, at, v);
  }

  lemma StartFixed(b: seq<Tok>, v: Tok)
    requires StartNumber(b) == Some(v)
    ensures SetStartNumber(b, v) == b
  {}

  /** An argv that already carries exactly these flags is left as it is. */
  lemma InjectFixed(b: seq<Tok>, x: real, n: int)
    requires INPUT in b && SeekTok(b) == Some(Secs(Millis(x))) && StartNumber(b) == Some(Count(n))
    requires 0 <= IndexOf(b, COPYTS, 0) < IndexOf(b, INPUT, 0)
    ensures Inject(b, x, n) == b
  {
    hide Millis, SeekTok, SetSeek, StartNumber, SetStartNumber;
    var at, c := IndexOf(b, INPUT, 0), IndexOf(b, COPYTS, 0);
    assert b[..at][c] == COPYTS;
    SeekFixed(b, at, Secs(Millis(x)));
    StartFixed(b, Count(n));
  }

  lemma InjectedSeekTok(args: seq<Tok>, x: real, n: int)
    requires WellFormed(args) && INPUT in args
    ensures SeekTok(Inject(args, x, n)) == Some(Secs(Millis(x)))
  {
    NotAFlag(Millis(x), n);
    hide *;
    var v := Secs(Millis(x));
    var pre, post, y := InjectParts(args, x, n);
    SeekTokStart(y, Count(n));
    SeekTokCopyts(pre, v, post);
  }

  lemma SeekTokCopyts(pre: seq<Tok>, v: Tok, post: seq<Tok>)
    requires WellFormed(pre) && INPUT !in pre
    ensures SeekTok(PutCopyts(PutSeek(pre, v)) + post) == Some(v)
  {
    hide SeekTok;
    var p := PutSeek(pre, v);
    if COPYTS in p {
      SeekTokPut(pre, v, post);
    } else {
      SeekTokPut(pre, v, [COPYTS] + post);
      Assoc(p, [COPYTS], post);
    }
  }

  /** Injecting the same flags twice is injecting them once. */
  lemma InjectTwice(args: seq<Tok>, x: real, n: int)
    requires WellFormed(args)
    ensures Inject(Inject(args, x, n), x, n) == Inject(args, x, n)
  {
    InjectedStart(args, x, n);
    InjectedWellFormed(args, x, n);
    if INPUT in args {
      hide *;
      InjectedSeekTok(args, x, n);
      CopytsBeforeInput(args, x, n);
      InjectFixed(Inject(args, x, n), x, n);
    } else {
      StartTwice(args, n);
    }
  }

  lemma StartTwice(args: seq<Tok>, n: int)
    requires WellFormed(args) && INPUT !in args
    ensures SetStartNumber(SetStartNumber(args, Count(n)), Count(n)) == SetStartNumber(args, Count(n))
    ensures INPUT !in SetStartNumber(args, Count(n))
  {
    var out, k := SetStartNumber(args, Count(n)), IndexOf(args, START_NUMBER, 0);
    if k >= 0 {
      assert TakesValue(args[k]);
      assert out[..k] == args[..k];
      FirstAt(out, START_NUMBER, k);
    } else {
      assert out[..|args|] == args;
      FirstAt(out, START_NUMBER, |args|);
    }
  }

  // ---------------------------------------------------------------- main results on the cache

  /** The seek an argv shows after an injection. */
  lemma SeekAfter(args: seq<Tok>, x: real, n: int)
    requires WellFormed(args)
    ensures InitialSeek(Inject(args, x, n)) == if INPUT in args then Millis(x) else InitialSeek(args)
  {
    if INPUT in args {
      hide *;
      InjectedSeek(args, x, n);
    } else {
      hide WellFormed, SetStartNumber, InitialSeek;
      PutStartIs(args, Count(n));
      PutStartSeek(args, n);
    }
  }

  /** The hint is for this session, within its lifetime, has a finished segment, and matches the argv's own seek. */
  predicate Applies(store: Store, args: seq<Tok>, now: int, ttl: int) {
    var id := PlexSession(args);
    && id != "" && id in store && now - store[id].updatedAt <= ttl && store[id].lastSeq > 0
    && -0.05 <= InitialSeek(args) - store[id].originalSeek <= 0.05
  }

  /** The hint is stale, or it has a finished segment and the client has gone somewhere else. */
  predicate Forgets(store: Store, args: seq<Tok>, now: int, ttl: int) {
    var id := PlexSession(args);
    && id != "" && id in store
    && (now - store[id].updatedAt > ttl
        || (store[id].lastSeq > 0 && !(-0.05 <= InitialSeek(args) - store[id].originalSeek <= 0.05)))
  }

  /**
   When the argv is resumed, and where: at the original seek plus the finished segments, rounded
   to the millisecond, with the next segment's number. The hint is forgotten only when it is stale
   or the client went somewhere else.
   */
  lemma ResumesAt(store: Store, args: seq<Tok>, now: int, ttl: int)
    requires WellFormed(args)
    ensures var id := PlexSession(args);
            var step := ResumeStep(store, args, now, ttl);
            && (step.resumed <==> Applies(store, args, now, ttl))
            && (!step.resumed ==> step.args == args)
            && (step.resumed ==>
                  var h := store[id];
                  && StartNumber(step.args) == Some(Count(h.lastSeq + 1))
                  && (INPUT !in args ==> InitialSeek(step.args) == InitialSeek(args))
                  && (INPUT in args ==>
                        InitialSeek(step.args) == Millis(h.originalSeek + h.lastSeq as real * h.segmentTime)))
            && step.store == if Forgets(store, args, now, ttl) then store - {id} else store
  {
    hide Inject, InitialSeek, WellFormed, PlexSession, Millis, StartNumber;
    var step := ResumeStep(store, args, now, ttl);
    if step.resumed {
      var h := store[PlexSession(args)];
      SeekAfter(args, ResumePoint(h), h.lastSeq + 1);
      InjectedStart(args, ResumePoint(h), h.lastSeq + 1);
    }
  }

  /**
   Poll, then move: the argv a session was dispatched with, sent again within the hint's lifetime,
   starts after exactly the segments that were finished.
   */
  lemma PolledResumes(store: Store, args: seq<Tok>, done: int, polled: int, now: int, ttl: int)
    requires WellFormed(args) && INPUT in args && PlexSession(args) != ""
    requires done > 0 && now - polled <= ttl
    ensures var step := ResumeStep(store[PlexSession(args) := HintOf(args, done, polled)], args, now, ttl);
            && step.resumed
            && InitialSeek(step.args) == Millis(InitialSeek(args) + done as real * SegmentTime(args))
            && StartNumber(step.args) == Some(Count(done + 1))
  {
    hide Inject, InitialSeek, WellFormed, PlexSession, Millis, StartNumber, SegmentTime;
    ResumesAt(store[PlexSession(args) := HintOf(args, done, polled)], args, now, ttl);
  }

  /**
   Resuming a second time from the cache the first time left behind, at any later time, never changes
   the argv again: whether the hint still matches, has been dropped as a re-seek, or has gone stale.
   */
  lemma ResumeTwice(store: Store, args: seq<Tok>, now: int, later: int, ttl: int)
    requires WellFormed(args) && now <= later
    ensures var first := ResumeStep(store, args, now, ttl);
            ResumeStep(first.store, first.args, later, ttl).args == first.args
  {
    hide Inject, InitialSeek, WellFormed, PlexSession, IsFlag;
    var first := ResumeStep(store, args, now, ttl);
    if first.resumed {
      var h := Live(store, PlexSession(args), now, ttl).value;
      SessionKept(args, ResumePoint(h), h.lastSeq + 1);
      InjectTwice(args, ResumePoint(h), h.lastSeq + 1);
    }
  }

  /**
   A session moved twice. The second move, with any newer hint polled for the same original argv, resumes
   from that hint if and only if the seek injected by the first move is still within the tolerance of the
   original one. Otherwise the argv keeps the first resume point and the newer hint is forgotten.
   */
  lemma SecondMove(store: Store, args: seq<Tok>, now: int, newer: Hint, later: int, ttl: int)
    requires WellFormed(args) && INPUT in args
    requires ResumeStep(store, args, now, ttl).resumed
    requires later - newer.updatedAt <= ttl && newer.lastSeq > 0
    ensures var id := PlexSession(args);
            var first := ResumeStep(store, args, now, ttl);
            var h := store[id];
            var second := ResumeStep(first.store[id := newer], first.args, later, ttl);
            && (second.resumed <==> FloatEq(Millis(ResumePoint(h)), newer.originalSeek, TOLERANCE))
            && (second.resumed ==> InitialSeek(second.args) == Millis(ResumePoint(newer))
                                   && StartNumber(second.args) == Some(Count(newer.lastSeq + 1)))
            && (!second.resumed ==> second.args == first.args && id !in second.store
                                    && InitialSeek(second.args) == Millis(ResumePoint(h)))
  {
    hide Inject, InitialSeek, WellFormed, PlexSession, Millis, ResumePoint, StartNumber, FloatEq;
    var id := PlexSession(args);
    var first := ResumeStep(store, args, now, ttl);
    var h := store[id];
    SessionKept(args, ResumePoint(h), h.lastSeq + 1);
    SeekAfter(args, ResumePoint(h), h.lastSeq + 1);
    InjectedWellFormed(args, ResumePoint(h), h.lastSeq + 1);
    InjectedSeek(first.args, ResumePoint(newer), newer.lastSeq + 1);
    InjectedStart(first.args, ResumePoint(newer), newer.lastSeq + 1);
  }
}
