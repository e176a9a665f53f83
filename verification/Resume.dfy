/**
 Resume state of a Plex transcode session: the checkpoint cache, and the flags
 injected into an argv so that the next worker carries on where the last one stopped.
 */
module Resume {
  import opened Prelude
  import opened Search

  /** An argv token: a word, a number of seconds, a counter, or a progress URL naming a Plex session. */
  datatype Tok = Word(text: string) | Secs(value: real) | Count(n: int) | Progress(session: string)

  const INPUT := Word("-i")
  const SEEK := Word("-ss")
  const COPYTS := Word("-copyts")
  const START_NUMBER := Word("-segment_start_number")
  const PROGRESS_URL := Word("-progressurl")
  const SEGMENT_TIME := Word("-segment_time")

  /** Flags this code looks for that take a value. */
  predicate TakesValue(t: Tok) {
    t == INPUT || t == SEEK || t == START_NUMBER || t == PROGRESS_URL || t == SEGMENT_TIME
  }

  predicate IsFlag(t: Tok) {
    TakesValue(t) || t == COPYTS
  }

  /** Each of these flags is followed by its own value. */
  predicate WellFormed(args: seq<Tok>) {
    forall i :: 0 <= i < |args| && TakesValue(args[i]) ==> i + 1 < |args| && !IsFlag(args[i + 1])
  }

  /** strconv.ParseFloat on a token. */
  function ParseFloat(t: Tok): Option<real> {
    match t
    case Secs(v) => Some(v)
    case Count(n) => Some(n as real)
    case _ => None
  }

  /** Seconds printed with three decimals. */
  function Millis(x: real): real {
    (x * 1000.0 + 0.5).Floor as real / 1000.0
  }

  /** A whole number of milliseconds, and the nearest. */
  lemma MillisMeans(x: real)
    ensures -0.0005 <= Millis(x) - x <= 0.0005
    ensures (Millis(x) * 1000.0).Floor as real == Millis(x) * 1000.0
  {
    var k := (x * 1000.0 + 0.5).Floor;
    assert Millis(x) * 1000.0 == k as real;
  }

  /** initialSeekFromArgs. */
  function InitialSeek(args: seq<Tok>): real {
    if |args| <= 1 || args[0] == INPUT then 0.0
    else if args[0] == SEEK && ParseFloat(args[1]).Some? then ParseFloat(args[1]).value
    else InitialSeek(args[1..])
  }

  /** plexSessionFromArgs; "" when there is none. */
  function PlexSession(args: seq<Tok>): string {
    if |args| <= 1 then ""
    else if args[0] == PROGRESS_URL && args[1].Progress? then args[1].session
    else PlexSession(args[1..])
  }

  /** segmentTimeFromArgs. */
  function SegmentTime(args: seq<Tok>): real {
    if |args| <= 1 then 1.0
    else if args[0] == SEGMENT_TIME && ParseFloat(args[1]).Some? && ParseFloat(args[1]).value > 0.0
      then ParseFloat(args[1]).value
    else SegmentTime(args[1..])
  }

  /** The first segment start number an argv asks for. */
  function StartNumber(args: seq<Tok>): Option<Tok> {
    var k := IndexOf(args, START_NUMBER, 0);
    if 0 <= k && k + 1 < |args| then Some(args[k + 1]) else None
  }

  // ---------------------------------------------------------------- reading an argv

  /** A readable seek at `i`, on the input side. */
  predicate SeekAt(args: seq<Tok>, i: nat) {
    i + 1 < |args| && args[i] == Word("-ss") && ParseFloat(args[i + 1]).Some? && Word("-i") !in args[..i]
  }

  predicate SessionAt(args: seq<Tok>, i: nat) {
    i + 1 < |args| && args[i] == Word("-progressurl") && args[i + 1].Progress?
  }

  predicate SegmentTimeAt(args: seq<Tok>, i: nat) {
    && i + 1 < |args| && args[i] == Word("-segment_time")
    && ParseFloat(args[i + 1]).Some? && ParseFloat(args[i + 1]).value > 0.0
  }

  /** The seek is that of the first readable input-side -ss, and 0 when there is none. */
  lemma {:induction false} InitialSeekMeans(args: seq<Tok>, i: nat)
    requires forall j :: 0 <= j < i ==> !SeekAt(args, j)
    ensures SeekAt(args, i) ==> InitialSeek(args) == ParseFloat(args[i + 1]).value
    ensures i >= |args| ==> InitialSeek(args) == 0.0
  {
    if |args| > 1 && args[0] != INPUT {
      var t := args[1..];
      assert args[..0] == [];
      if SeekAt(args, 0) {
        assert i == 0;
      } else {
        assert !(args[0] == SEEK && ParseFloat(args[1]).Some?);
        forall j: nat
          ensures SeekAt(t, j) <==> SeekAt(args, j + 1)
        {
          if j + 1 < |t| {
            assert args[..j + 1] == [args[0]] + t[..j];
          }
        }
        if i > 0 {
          InitialSeekMeans(t, i - 1);
        }
      }
    }
  }

  lemma {:induction false} PlexSessionMeans(args: seq<Tok>, i: nat)
    requires forall j :: 0 <= j < i ==> !SessionAt(args, j)
    ensures SessionAt(args, i) ==> PlexSession(args) == args[i + 1].session
    ensures i >= |args| ==> PlexSession(args) == ""
  {
    if |args| > 1 && i > 0 {
      assert !SessionAt(args, 0);
      forall j: nat
        ensures SessionAt(args[1..], j) <==> SessionAt(args, j + 1)
      {}
      PlexSessionMeans(args[1..], i - 1);
    }
  }

  lemma {:induction false} SegmentTimeMeans(args: seq<Tok>, i: nat)
    requires forall j :: 0 <= j < i ==> !SegmentTimeAt(args, j)
    ensures SegmentTimeAt(args, i) ==> SegmentTime(args) == ParseFloat(args[i + 1]).value
    ensures i >= |args| ==> SegmentTime(args) == 1.0
  {
    if |args| > 1 && i > 0 {
      assert !SegmentTimeAt(args, 0);
      forall j: nat
        ensures SegmentTimeAt(args[1..], j) <==> SegmentTimeAt(args, j + 1)
      {}
      SegmentTimeMeans(args[1..], i - 1);
    }
  }

  /** initialSeekFromArgs */
  method InitialSeekFromArgs(args: seq<Tok>) returns (seek: real)
    ensures seek == InitialSeek(args)
  {
    var i := 0;
    while i < |args| - 1
      invariant 0 <= i <= |args|
      invariant Word("-i") !in args[..i] && forall j :: 0 <= j < i ==> !SeekAt(args, j)
    {
      if args[i] == INPUT {
        NoSeekFrom(args, i);
        InitialSeekMeans(args, |args|);
        return 0.0;
      }
      if args[i] == SEEK && ParseFloat(args[i + 1]).Some? {
        InitialSeekMeans(args, i);
        return ParseFloat(args[i + 1]).value;
      }
      assert args[..i + 1] == args[..i] + [args[i]];
      i := i + 1;
    }
    InitialSeekMeans(args, |args|);
    return 0.0;
  }

  lemma NoSeekFrom(args: seq<Tok>, i: nat)
    requires i < |args| && args[i] == INPUT
    ensures forall j :: i <= j ==> !SeekAt(args, j)
  {
    forall j | i < j && j + 1 < |args|
      ensures !SeekAt(args, j)
    {
      assert args[..j][i] == INPUT;
    }
  }

  /** plexSessionFromArgs */
  method PlexSessionFromArgs(args: seq<Tok>) returns (id: string)
    ensures id == PlexSession(args)
  {
    var i := 0;
    while i < |args| - 1
      invariant 0 <= i && forall j :: 0 <= j < i ==> !SessionAt(args, j)
    {
      if args[i] == PROGRESS_URL && args[i + 1].Progress? {
        PlexSessionMeans(args, i);
        return args[i + 1].session;
      }
      i := i + 1;
    }
    PlexSessionMeans(args, |args|);
    return "";
  }

  /** segmentTimeFromArgs */
  method SegmentTimeFromArgs(args: seq<Tok>) returns (seconds: real)
    ensures seconds == SegmentTime(args)
  {
    var i := 0;
    while i < |args| - 1
      invariant 0 <= i && forall j :: 0 <= j < i ==> !SegmentTimeAt(args, j)
    {
      if args[i] == SEGMENT_TIME && ParseFloat(args[i + 1]).Some? && ParseFloat(args[i + 1]).value > 0.0 {
        SegmentTimeMeans(args, i);
        return ParseFloat(args[i + 1]).value;
      }
      i := i + 1;
    }
    SegmentTimeMeans(args, |args|);
    return 1.0;
  }

  // ---------------------------------------------------------------- injection, as the source edits the slice

  function SetSeek(args: seq<Tok>, at: nat, v: Tok): (r: seq<Tok>)
    requires at < |args|
  {
    var k := IndexOf(args[..at], SEEK, 0);
    if k >= 0 then args[k + 1 := v] else args[..at] + [SEEK, v] + args[at..]
  }

  function AddCopyts(args: seq<Tok>, at: nat): seq<Tok>
    requires at <= |args|
  {
    if COPYTS in args[..at] then args else args[..at] + [COPYTS] + args[at..]
  }

  function SetStartNumber(args: seq<Tok>, v: Tok): seq<Tok> {
    var k := IndexOf(args, START_NUMBER, 0);
    if 0 <= k && k + 1 < |args| then args[k + 1 := v] else args + [START_NUMBER, v]
  }

  function Inject(args: seq<Tok>, resumeAt: real, nextSeq: int): seq<Tok> {
    var at := IndexOf(args, INPUT, 0);
    if at < 0 then SetStartNumber(args, Count(nextSeq))
    else
      var sought := SetSeek(args, at, Secs(Millis(resumeAt)));
      SetStartNumber(AddCopyts(sought, at + |sought| - |args|), Count(nextSeq))
  }

  /** The scan the source repeats: the first `x` among the first `limit` tokens. */
  method Find(s: seq<Tok>, x: Tok, limit: nat) returns (k: int)
    requires limit <= |s|
    ensures k == IndexOf(s[..limit], x, 0)
  {
    var i := 0;
    while i < limit
      invariant 0 <= i <= limit
      invariant IndexOf(s[..limit], x, 0) == IndexOf(s[..limit], x, i)
    {
      if s[i] == x {
        return i;
      }
      i := i + 1;
    }
    return -1;
  }

  /** Replace the input-side seek, else insert one. */
  method EditSeek(args: seq<Tok>, iIdx: nat, v: Tok) returns (out: seq<Tok>)
    requires iIdx < |args|
    ensures out == SetSeek(args, iIdx, v)
  {
    var k := Find(args, SEEK, iIdx);
    if k >= 0 {
      out := args[k + 1 := v];
    } else {
      out := args[..iIdx] + [SEEK, v] + args[iIdx..];
    }
  }

  /** Insert -copyts before the input if absent. */
  method EditCopyts(args: seq<Tok>, iIdx: nat) returns (out: seq<Tok>)
    requires iIdx <= |args|
    ensures out == AddCopyts(args, iIdx)
  {
    var k := Find(args, COPYTS, iIdx);
    if k < 0 {
      out := args[..iIdx] + [COPYTS] + args[iIdx..];
    } else {
      out := args;
    }
  }

  /** Replace the segment start number, else append one. */
  method EditStartNumber(args: seq<Tok>, v: Tok) returns (out: seq<Tok>)
    ensures out == SetStartNumber(args, v)
  {
    Whole(args);
    var k := Find(args, START_NUMBER, |args|);
    if 0 <= k < |args| - 1 {
      out := args[k + 1 := v];
    } else {
      out := args + [START_NUMBER, v];
    }
  }

  /** injectResumeFlags. */
  method InjectResumeFlags(args: seq<Tok>, resumeAt: real, nextSeq: int) returns (out: seq<Tok>)
    ensures out == Inject(args, resumeAt, nextSeq)
  {
    hide SetSeek, AddCopyts, SetStartNumber, Millis;
    Whole(args);
    out := args;
    var iIdx := Find(out, INPUT, |out|);
    if iIdx >= 0 {
      SetSeekLength(args, iIdx, Secs(Millis(resumeAt)));
      out := EditSeek(out, iIdx, Secs(Millis(resumeAt)));
      out := EditCopyts(out, iIdx + |out| - |args|);
    }
    out := EditStartNumber(out, Count(nextSeq));
  }

  lemma SetSeekLength(args: seq<Tok>, at: nat, v: Tok)
    requires at < |args|
    ensures |SetSeek(args, at, v)| == |args| || |SetSeek(args, at, v)| == |args| + 2
  {}

  lemma Whole<T>(s: seq<T>)
    ensures s[..|s|] == s
  {}
}
