/**
 The shim's demultiplexer: cut the orchestrator's stream into lines, send each
 to stdout or stderr by its tag, and take the exit code from the exit event.
 */
module Shim {
  import opened Prelude
  import opened Search
  import opened Seam

  const STDOUT_PREFIX := "[stdout] "
  const STDERR_PREFIX := "[stderr] "
  const EVENT_PREFIX := "[scaleplex] "
  const EXIT_EVENT := "ffmpeg exit:"
  const EXIT_SUCCESS := EXIT_EVENT + " success"

  predicate HasPrefix(line: string, p: string) {
    |p| <= |line| && line[..|p|] == p
  }

  predicate Contains(line: string, pat: string) {
    Index(line, pat) >= 0
  }

  /** What has reached PMS so far. */
  datatype Sinks = Sinks(stdout: string, stderr: string, exit: int)

  const START := Sinks([], [], 1)

  function Route(line: string, s: Sinks): Sinks {
    if HasPrefix(line, STDOUT_PREFIX) then s.(stdout := s.stdout + line[|STDOUT_PREFIX|..])
    else if HasPrefix(line, STDERR_PREFIX) then s.(stderr := s.stderr + line[|STDERR_PREFIX|..])
    else if HasPrefix(line, EVENT_PREFIX) then
      s.(stderr := s.stderr + line,
         exit := if Contains(line, EXIT_SUCCESS) then 0 else if Contains(line, EXIT_EVENT) then 1 else s.exit)
    else s.(stderr := s.stderr + line)
  }

  function RouteAll(ls: seq<string>, s: Sinks): Sinks {
    if ls == [] then s else Route(ls[|ls| - 1], RouteAll(ls[..|ls| - 1], s))
  }

  /** What the shim delivers for a whole stream. */
  function Demux(d: string): Sinks {
    RouteAll(Lines(d).Routed(), START)
  }

  lemma {:induction false} RouteAllAppend(a: seq<string>, b: seq<string>, s: Sinks)
    ensures RouteAll(a + b, s) == RouteAll(b, RouteAll(a, s))
  {
    hide Route;
    if b == [] {
      assert a + b == a;
    } else {
      RouteAllAppend(a, b[..|b| - 1], s);
      assert (a + b)[..|a + b| - 1] == a + b[..|b| - 1];
    }
  }

  // ---------------------------------------------------------------- which bytes reach which stream

  /** What PMS reads on stdout: the text after the tag of each line tagged so, in order. */
  function StdoutOf(ls: seq<string>): string {
    if ls == [] then ""
    else
      var line := ls[|ls| - 1];
      StdoutOf(ls[..|ls| - 1]) + if "[stdout] " <= line then line[9..] else ""
  }

  /** On stderr: every other line, verbatim but for a stderr tag at its start. */
  function StderrOf(ls: seq<string>): string {
    if ls == [] then ""
    else
      var line := ls[|ls| - 1];
      StderrOf(ls[..|ls| - 1])
      + if "[stdout] " <= line then "" else if "[stderr] " <= line then line[9..] else line
  }

  lemma {:induction false} Delivered(ls: seq<string>)
    ensures RouteAll(ls, START).stdout == StdoutOf(ls)
    ensures RouteAll(ls, START).stderr == StderrOf(ls)
  {
    hide Route;
    if ls != [] {
      Delivered(ls[..|ls| - 1]);
      RoutedLine(ls[|ls| - 1], RouteAll(ls[..|ls| - 1], START));
    }
  }

  lemma RoutedLine(line: string, s: Sinks)
    ensures Route(line, s).stdout == s.stdout + if "[stdout] " <= line then line[9..] else ""
    ensures Route(line, s).stderr
            == s.stderr + if "[stdout] " <= line then "" else if "[stderr] " <= line then line[9..] else line
  {
    hide Contains;
    assert |STDOUT_PREFIX| == 9 && |STDERR_PREFIX| == 9;
    if HasPrefix(line, EVENT_PREFIX) {
      PrefixesDiffer(line);
    }
  }

  /** For a whole stream: every line of it reaches the stream its tag names. */
  lemma DemuxDelivers(d: string)
    ensures Demux(d).stdout == StdoutOf(Lines(d).Routed())
    ensures Demux(d).stderr == StderrOf(Lines(d).Routed())
  {
    hide RouteAll, StdoutOf, StderrOf, Lines;
    Delivered(Lines(d).Routed());
  }

  // ---------------------------------------------------------------- exit code

  /** The event line that carries ffmpeg's exit reason. */
  predicate IsExit(line: string) {
    "[scaleplex] " <= line && Contains(line, "ffmpeg exit:")
  }

  /** Index of the last exit event, -1 if there is none. */
  function LastExit(ls: seq<string>): (r: int)
    ensures -1 <= r < |ls|
  {
    if ls == [] then -1
    else if IsExit(ls[|ls| - 1]) then |ls| - 1
    else LastExit(ls[..|ls| - 1])
  }

  lemma {:induction false} LastExitIsLast(ls: seq<string>, i: nat)
    requires i < |ls|
    ensures LastExit(ls) >= 0 ==> IsExit(ls[LastExit(ls)])
    ensures i > LastExit(ls) ==> !IsExit(ls[i])
  {
    hide IsExit;
    var init := ls[..|ls| - 1];
    if i < |init| {
      LastExitIsLast(init, i);
    } else if init != [] {
      LastExitIsLast(init, 0);
    }
  }

  lemma SuccessIsExit(line: string)
    requires Contains(line, EXIT_SUCCESS)
    ensures Contains(line, EXIT_EVENT)
  {
    var r := Index(line, EXIT_SUCCESS);
    assert OccursAt(line, EXIT_SUCCESS, r);
    var n := |EXIT_EVENT|;
    assert EXIT_SUCCESS[..n] == EXIT_EVENT;
    assert line[r..r + n] == line[r..r + |EXIT_SUCCESS|][..n];
    assert OccursAt(line, EXIT_EVENT, r);
  }

  lemma PrefixesDiffer(line: string)
    requires HasPrefix(line, EVENT_PREFIX)
    ensures !HasPrefix(line, STDOUT_PREFIX) && !HasPrefix(line, STDERR_PREFIX)
  {
    assert line[2] == EVENT_PREFIX[2] == 'c';
    assert STDOUT_PREFIX[2] == STDERR_PREFIX[2] == 't';
  }

  /** The exit code is what the last exit event says; failure when there is none. */
  lemma {:induction false} ExitCode(ls: seq<string>)
    ensures RouteAll(ls, START).exit
            == if LastExit(ls) >= 0 && Contains(ls[LastExit(ls)], "ffmpeg exit: success") then 0 else 1
  {
    hide Contains, Route, IsExit;
    if ls != [] {
      ExitCode(ls[..|ls| - 1]);
      RouteExit(ls[|ls| - 1], RouteAll(ls[..|ls| - 1], START));
    }
  }

  lemma RouteExit(line: string, s: Sinks)
    ensures Route(line, s).exit
            == if IsExit(line) then (if Contains(line, "ffmpeg exit: success") then 0 else 1) else s.exit
  {
    assert EXIT_SUCCESS == "ffmpeg exit: success";
    hide Contains;
    if HasPrefix(line, EVENT_PREFIX) {
      PrefixesDiffer(line);
      if Contains(line, EXIT_SUCCESS) { SuccessIsExit(line); }
    }
  }

  // ---------------------------------------------------------------- across worker swaps

  /** Same stdout bytes and same exit code; stderr may differ. */
  predicate SameOutcome(a: Sinks, b: Sinks) {
    a.stdout == b.stdout && a.exit == b.exit
  }

  lemma {:induction false} OutcomeKept(ls: seq<string>, a: Sinks, b: Sinks)
    requires SameOutcome(a, b)
    ensures SameOutcome(RouteAll(ls, a), RouteAll(ls, b))
  {
    hide Route;
    if ls != [] {
      OutcomeKept(ls[..|ls| - 1], a, b);
      RouteKept(ls[|ls| - 1], RouteAll(ls[..|ls| - 1], a), RouteAll(ls[..|ls| - 1], b));
    }
  }

  lemma RouteKept(line: string, a: Sinks, b: Sinks)
    requires SameOutcome(a, b)
    ensures SameOutcome(Route(line, a), Route(line, b))
  {
    hide HasPrefix, Contains;
  }

  /** A lone newline is untagged: it goes to stderr. */
  lemma LoneNewline(s: Sinks)
    ensures SameOutcome(Route([LF], s), s)
    ensures Route([LF], s).stderr == s.stderr + [LF]
  {
  }

  lemma {:induction false} ClosedOutcome(outs: seq<string>, s: Sinks)
    ensures SameOutcome(RouteAll(AllClosed(outs), s), RouteAll(AllOwn(outs), s))
  {
    hide ClosedLines, OwnLines, Route;
    if outs != [] {
      var init, last := outs[..|outs| - 1], outs[|outs| - 1];
      ClosedOutcome(init, s);
      RouteAllAppend(AllClosed(init), ClosedLines(last), s);
      RouteAllAppend(AllOwn(init), OwnLines(last), s);
      var a, b := RouteAll(AllClosed(init), s), RouteAll(AllOwn(init), s);
      OutcomeKept(OwnLines(last), a, b);
      OneClosedOutcome(last, a);
    }
  }

  lemma OneClosedOutcome(out: string, s: Sinks)
    ensures SameOutcome(RouteAll(ClosedLines(out), s), RouteAll(OwnLines(out), s))
  {
    ClosedIsOwn(out);
    hide ClosedLines, OwnLines, Route;
    var own := OwnLines(out);
    if EndsCR(out) {
      assert (own + [[LF]])[..|own|] == own;
      LoneNewline(RouteAll(own, s));
    } else {
      assert own + [] == own;
    }
  }

  /**
   End to end, for any number of worker swaps: stdout and the exit code are those of routing
   each worker's own lines in order; the only difference a seam can make is newlines on stderr.
   */
  lemma SessionOutcome(outs: seq<string>)
    requires outs != []
    ensures SameOutcome(Demux(Joined(outs)),
                        RouteAll(AllOwn(outs[..|outs| - 1]) + Lines(outs[|outs| - 1]).Routed(), START))
    ensures !DiedOnCR(outs[..|outs| - 1]) ==>
              Demux(Joined(outs)) == RouteAll(AllOwn(outs[..|outs| - 1]) + Lines(outs[|outs| - 1]).Routed(), START)
    ensures Demux(Joined(outs)).stdout == StdoutOf(AllOwn(outs[..|outs| - 1]) + Lines(outs[|outs| - 1]).Routed())
  {
    hide Route, Lines, Joined, StdoutOf, StderrOf;
    Delivered(AllOwn(outs[..|outs| - 1]) + Lines(outs[|outs| - 1]).Routed());
    var init, r := outs[..|outs| - 1], Lines(outs[|outs| - 1]).Routed();
    SessionLines(outs);
    ExactLines(outs);
    ClosedOutcome(init, START);
    RouteAllAppend(AllClosed(init), r, START);
    RouteAllAppend(AllOwn(init), r, START);
    OutcomeKept(r, RouteAll(AllClosed(init), START), RouteAll(AllOwn(init), START));
  }

  // ---------------------------------------------------------------- the loops

  lemma NoLines()
    ensures Lines([]) == Split([], [])
  {}

  lemma LinesStep(data: string, i: nat)
    requires i < |data|
    ensures Lines(data[..i + 1]) == Step(Lines(data[..i]), data[i])
  {
    assert data[..i + 1][..i] == data[..i];
  }

  /** splitLinesKeepDelim. */
  method SplitLinesKeepDelim(data: string) returns (complete: seq<string>, tail: string)
    ensures Split(complete, tail) == Lines(data)
  {
    hide Lines;
    NoLines();
    complete := [];
    var start := 0;
    for i := 0 to |data|
      invariant 0 <= start <= i
      invariant Lines(data[..i]) == Split(complete, data[start..i])
    {
      LinesStep(data, i);
      assert data[start..i + 1] == data[start..i] + [data[i]];
      if IsEol(data[i]) {
        complete := complete + [data[start..i + 1]];
        start := i + 1;
      }
    }
    assert data[..|data|] == data;
    tail := data[start..];
  }

  /** The shim process: its two output streams and the exit code it will return. */
  class Demultiplexer {
    var stdout: string
    var stderr: string
    var exitCode: int

    function State(): Sinks
      reads this
    {
      Sinks(stdout, stderr, exitCode)
    }

    constructor ()
      ensures State() == START
    {
      stdout, stderr, exitCode := [], [], 1;
    }

    /** routeLine. */
    method RouteLine(line: string)
      modifies this
      ensures State() == Route(line, old(State()))
    {
      hide Contains;
      if HasPrefix(line, STDOUT_PREFIX) {
        stdout := stdout + line[|STDOUT_PREFIX|..];
      } else if HasPrefix(line, STDERR_PREFIX) {
        stderr := stderr + line[|STDERR_PREFIX|..];
      } else if HasPrefix(line, EVENT_PREFIX) {
        stderr := stderr + line;
        if Contains(line, EXIT_SUCCESS) {
          exitCode := 0;
        } else if Contains(line, EXIT_EVENT) {
          exitCode := 1;
        }
      } else {
        stderr := stderr + line;
      }
    }

    method RouteEach(lines: seq<string>)
      modifies this
      ensures State() == RouteAll(lines, old(State()))
    {
      hide Route;
      for k := 0 to |lines|
        invariant State() == RouteAll(lines[..k], old(State()))
      {
        assert lines[..k + 1][..k] == lines[..k];
        RouteLine(lines[k]);
      }
      assert lines[..|lines|] == lines;
    }

    /**
     streamAndDemultiplex over the reads of one response body, each of any size, empty ones included:
     the outcome depends on their concatenation alone.
     */
    method StreamAndDemultiplex(chunks: seq<string>) returns (code: int)
      requires State() == START
      modifies this
      ensures State() == Demux(Flat(chunks))
      ensures code == Demux(Flat(chunks)).exit
      ensures stdout == StdoutOf(Lines(Flat(chunks)).Routed()) && stderr == StderrOf(Lines(Flat(chunks)).Routed())
    {
      hide Route, Lines, StdoutOf, StderrOf;
      var carry: string := [];
      assert Lines([]) == Split([], []) by { LinesUnique([], Split([], [])); }
      for k := 0 to |chunks|
        invariant carry == Lines(Flat(chunks[..k])).tail
        invariant State() == RouteAll(Lines(Flat(chunks[..k])).complete, START)
      {
        ghost var d := Flat(chunks[..k]);
        assert chunks[..k + 1][..k] == chunks[..k];
        LinesAppend(d, chunks[k]);
        if chunks[k] != [] {
          var complete, tail := SplitLinesKeepDelim(carry + chunks[k]);
          RouteAllAppend(Lines(d).complete, complete, START);
          carry := tail;
          RouteEach(complete);
        } else {
          assert d + [] == d;
        }
      }
      assert chunks[..|chunks|] == chunks;
      if carry != [] {
        ghost var c := Lines(Flat(chunks)).complete;
        assert (c + [carry])[..|c|] == c;
        RouteLine(carry);
      }
      DemuxDelivers(Flat(chunks));
      code := exitCode;
    }
  }
}
