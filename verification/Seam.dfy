/**
 The PMS-facing stream, one char per byte: lines as the shim cuts them, and the newline
 the orchestrator puts between two workers of one session.
 */
module Seam {
  const LF := '\n'
  const CR := '\r'

  predicate IsEol(b: char) {
    b == LF || b == CR
  }

  // ---------------------------------------------------------------- lines

  /** Complete lines, each with its terminator, and the unterminated remainder. */
  datatype Split = Split(complete: seq<string>, tail: string) {
    /** Everything the shim routes at end of stream. */
    function Routed(): seq<string> {
      if tail == [] then complete else complete + [tail]
    }
  }

  function Lines(d: string): Split {
    if d == [] then Split([], [])
    else
      var s, b := Lines(d[..|d| - 1]), d[|d| - 1];
      if IsEol(b) then Split(s.complete + [s.tail + [b]], []) else Split(s.complete, s.tail + [b])
  }

  function Flat(ls: seq<string>): string {
    if ls == [] then [] else Flat(ls[..|ls| - 1]) + ls[|ls| - 1]
  }

  /** A line holds exactly one terminator, at its end. */
  predicate IsLine(l: string) {
    l != [] && IsEol(l[|l| - 1]) && NoEol(l[..|l| - 1])
  }

  predicate NoEol(l: string) {
    forall i :: 0 <= i < |l| ==> !IsEol(l[i])
  }

  lemma FlatAppend(ls: seq<string>, l: string)
    ensures Flat(ls + [l]) == Flat(ls) + l
  {
    assert (ls + [l])[..|ls|] == ls;
  }

  predicate AllLines(ls: seq<string>) {
    ls == [] || (AllLines(ls[..|ls| - 1]) && IsLine(ls[|ls| - 1]))
  }

  lemma AllLinesAppend(ls: seq<string>, l: string)
    ensures AllLines(ls + [l]) <==> AllLines(ls) && IsLine(l)
  {
    assert (ls + [l])[..|ls|] == ls;
  }

  /** Every line is a line. */
  lemma {:induction false} AllLinesAt(ls: seq<string>, i: nat)
    requires AllLines(ls) && i < |ls|
    ensures IsLine(ls[i])
  {
    if i < |ls| - 1 {
      AllLinesAt(ls[..|ls| - 1], i);
    }
  }

  /** One more byte: either it ends a line or it extends the tail. */
  function Step(s: Split, x: char): Split {
    if IsEol(x) then Split(s.complete + [s.tail + [x]], []) else Split(s.complete, s.tail + [x])
  }

  predicate Sound(s: Split, d: string) {
    Flat(s.complete) + s.tail == d && NoEol(s.tail) && AllLines(s.complete)
  }

  lemma StepSound(s: Split, d: string, x: char)
    requires Sound(s, d)
    ensures Sound(Step(s, x), d + [x])
  {
    hide Flat, AllLines;
    var l := s.tail + [x];
    assert Flat(s.complete) + l == d + [x];
    if IsEol(x) {
      assert l[..|l| - 1] == s.tail;
      FlatAppend(s.complete, l);
      AllLinesAppend(s.complete, l);
      NoTail(Flat(s.complete + [l]));
    }
  }

  lemma NoTail(t: string)
    ensures t + [] == t
  {}

  /** The split is made of lines, ends in a terminator-free tail, and loses nothing. */
  lemma {:induction false} LinesSound(d: string)
    ensures Sound(Lines(d), d)
  {
    if d != [] {
      var p, x := d[..|d| - 1], d[|d| - 1];
      LinesSound(p);
      StepSound(Lines(p), p, x);
      assert d == p + [x];
    }
  }

  /** Splitting piece by piece, carrying the tail over, is splitting at once. */
  lemma {:induction false} LinesAppend(a: string, b: string)
    ensures Lines(a + b).complete == Lines(a).complete + Lines(Lines(a).tail + b).complete
    ensures Lines(a + b).tail == Lines(Lines(a).tail + b).tail
  {
    var t := Lines(a).tail;
    if b == [] {
      assert a + b == a && t + b == t;
      LinesSound(a);
      NoEolLines(t);
    } else {
      var b0, x := b[..|b| - 1], b[|b| - 1];
      LinesAppend(a, b0);
      LinesSnoc(a, b0, x);
      LinesSnoc(t, b0, x);
      assert b == b0 + [x];
      var u := Lines(t + b0);
      assert Lines(a).complete + (u.complete + [u.tail + [x]]) == Lines(a).complete + u.complete + [u.tail + [x]];
    }
  }

  lemma LinesSnoc(a: string, b0: string, x: char)
    ensures Lines(a + (b0 + [x])) == Step(Lines(a + b0), x)
  {
    var d := a + (b0 + [x]);
    assert d[..|d| - 1] == a + b0;
  }

  lemma {:induction false} NoEolLines(t: string)
    requires NoEol(t)
    ensures Lines(t) == Split([], t)
  {
    if t != [] {
      var p := t[..|t| - 1];
      NoEolLines(p);
      assert t == p + [t[|t| - 1]];
    }
  }

  lemma OneLine(l: string)
    requires IsLine(l)
    ensures Lines(l) == Split([l], [])
  {
    var body, x := l[..|l| - 1], l[|l| - 1];
    NoEolLines(body);
    assert l == body + [x];
  }

  lemma {:induction false} LinesOfFlat(ls: seq<string>)
    requires AllLines(ls)
    ensures Lines(Flat(ls)) == Split(ls, [])
  {
    LinesOfNothing(ls);
    if ls != [] {
      var init, l := ls[..|ls| - 1], ls[|ls| - 1];
      assert AllLines(init) && IsLine(l) && Flat(ls) == Flat(init) + l;
      hide *;
      LinesOfFlat(init);
      OneLine(l);
      OneLineMore(Flat(init), init, l);
      assert init + [l] == ls;
    }
  }

  lemma LinesOfNothing(ls: seq<string>)
    ensures ls == [] ==> Lines(Flat(ls)) == Split(ls, [])
  {}

  lemma OneLineMore(d: string, ls: seq<string>, l: string)
    requires Lines(d) == Split(ls, []) && Lines(l) == Split([l], [])
    ensures Lines(d + l) == Split(ls + [l], [])
  {
    hide Lines;
    LinesAppend(d, l);
    assert [] + l == l;
  }

  /** The split is the only one there is. */
  lemma LinesUnique(d: string, s: Split)
    requires Sound(s, d)
    ensures Lines(d) == s
  {
    LinesOfFlat(s.complete);
    LinesAppend(Flat(s.complete), s.tail);
    assert [] + s.tail == s.tail;
    NoEolLines(s.tail);
  }

  // ---------------------------------------------------------------- the seam between workers

  /** What follows `sent` on the wire when another worker takes over. */
  function Close(sent: string): string {
    if sent != [] && sent[|sent| - 1] != LF then sent + [LF] else sent
  }

  /** The whole stream of a session: one output per accepted worker, closed before the next one starts. */
  function Joined(outs: seq<string>): string {
    if outs == [] then []
    else if |outs| == 1 then outs[0]
    else Close(Joined(outs[..|outs| - 1])) + outs[|outs| - 1]
  }

  /** The lines one worker's output contributes once another worker follows. */
  function ClosedLines(out: string): seq<string> {
    Lines(Close(out)).complete
  }

  function AllClosed(outs: seq<string>): seq<string> {
    if outs == [] then [] else AllClosed(outs[..|outs| - 1]) + ClosedLines(outs[|outs| - 1])
  }

  predicate Terminated(d: string) {
    d == [] || d[|d| - 1] == LF
  }

  lemma TerminatedNoTail(d: string)
    requires Terminated(d)
    ensures Lines(d).tail == []
  {}

  /** Closing the stream so far closes the last worker's output. */
  lemma CloseOnto(sent: string, out: string)
    requires Terminated(sent)
    ensures Close(sent + out) == sent + Close(out)
    ensures Terminated(Close(sent + out))
  {
    if out == [] {
      assert sent + out == sent;
    } else {
      assert (sent + out)[|sent + out| - 1] == out[|out| - 1];
      assert sent + (out + [LF]) == sent + out + [LF];
    }
  }

  /** Lines of a closed stream followed by more are its own lines, then the lines of what follows. */
  lemma ClosedThen(sent: string, out: string)
    requires Terminated(sent)
    ensures Lines(sent + out).complete == Lines(sent).complete + Lines(out).complete
    ensures Lines(sent + out).tail == Lines(out).tail
  {
    LinesAppend(sent, out);
    TerminatedNoTail(sent);
    assert [] + out == out;
  }

  lemma {:induction false} ClosedSession(outs: seq<string>)
    requires outs != []
    ensures Terminated(Close(Joined(outs)))
    ensures Lines(Close(Joined(outs))).complete == AllClosed(outs)
  {
    var init, last := outs[..|outs| - 1], outs[|outs| - 1];
    if |outs| == 1 {
      assert AllClosed(init) == [];
      assert [] + ClosedLines(last) == ClosedLines(last);
    } else {
      ClosedSession(init);
      var sent := Close(Joined(init));
      CloseOnto(sent, last);
      ClosedThen(sent, Close(last));
    }
  }

  /**
   For any number of worker swaps, the lines the shim routes are the lines of each worker's
   output in order, every one of them cut from a single worker's output.
   */
  lemma SessionLines(outs: seq<string>)
    requires outs != []
    ensures Lines(Joined(outs)).Routed() == AllClosed(outs[..|outs| - 1]) + Lines(outs[|outs| - 1]).Routed()
  {
    var init, last := outs[..|outs| - 1], outs[|outs| - 1];
    JoinedLast(outs);
    hide *;
    if |outs| == 1 {
      assert [] + Lines(last).Routed() == Lines(last).Routed();
    } else {
      ClosedSession(init);
      ClosedThen(Close(Joined(init)), last);
      RoutedAfter(Lines(Joined(outs)), AllClosed(init), Lines(last));
    }
  }

  lemma JoinedLast(outs: seq<string>)
    requires outs != []
    ensures |outs| == 1 ==> Joined(outs) == outs[0] && AllClosed(outs[..|outs| - 1]) == []
    ensures |outs| > 1 ==> Joined(outs) == Close(Joined(outs[..|outs| - 1])) + outs[|outs| - 1]
  {
    hide Close;
  }

  lemma RoutedAfter(whole: Split, before: seq<string>, s: Split)
    requires whole.complete == before + s.complete && whole.tail == s.tail
    ensures whole.Routed() == before + s.Routed()
  {
    assert before + s.complete + [s.tail] == before + (s.complete + [s.tail]);
  }

  /** A worker's own lines, an unfinished last one closed by a newline. */
  function OwnLines(out: string): seq<string> {
    var s := Lines(out);
    if s.tail == [] then s.complete else s.complete + [s.tail + [LF]]
  }

  /** Closing adds nothing to the worker's own lines, unless it died right after a carriage return. */
  lemma ClosedIsOwn(out: string)
    ensures ClosedLines(out) == OwnLines(out) + (if out != [] && out[|out| - 1] == CR then [[LF]] else [])
  {
    LinesSnoc(out, [], LF);
    assert out + ([] + [LF]) == out + [LF] && out + [] == out;
    if out != [] {
      var p, x := out[..|out| - 1], out[|out| - 1];
      if IsEol(x) {
        assert Lines(out).tail == [];
        assert [] + [LF] == [LF];
      } else {
        assert Lines(out).tail == Lines(p).tail + [x] != [];
      }
    }
  }

  function AllOwn(outs: seq<string>): seq<string> {
    if outs == [] then [] else AllOwn(outs[..|outs| - 1]) + OwnLines(outs[|outs| - 1])
  }

  /** Did one of these workers stop right after a carriage return? */
  predicate DiedOnCR(outs: seq<string>) {
    outs != [] && (DiedOnCR(outs[..|outs| - 1]) || EndsCR(outs[|outs| - 1]))
  }

  predicate EndsCR(out: string) {
    out != [] && out[|out| - 1] == CR
  }

  lemma {:induction false} ClosedVersusOwn(outs: seq<string>)
    ensures |AllClosed(outs)| >= |AllOwn(outs)|
    ensures |AllClosed(outs)| == |AllOwn(outs)| <==> !DiedOnCR(outs)
    ensures !DiedOnCR(outs) ==> AllClosed(outs) == AllOwn(outs)
  {
    hide Lines, ClosedLines, OwnLines;
    if outs != [] {
      ClosedVersusOwn(outs[..|outs| - 1]);
      ClosedIsOwn(outs[|outs| - 1]);
    }
  }

  /**
   The shim routes exactly each worker's own lines, if and only if no replaced worker
   stopped right after a carriage return; otherwise empty lines are added.
   */
  lemma ExactLines(outs: seq<string>)
    requires outs != []
    ensures Lines(Joined(outs)).Routed() == AllOwn(outs[..|outs| - 1]) + Lines(outs[|outs| - 1]).Routed()
            <==> !DiedOnCR(outs[..|outs| - 1])
  {
    SessionLines(outs);
    ClosedVersusOwn(outs[..|outs| - 1]);
    var r := Lines(outs[|outs| - 1]).Routed();
    if DiedOnCR(outs[..|outs| - 1]) {
      assert |AllClosed(outs[..|outs| - 1]) + r| > |AllOwn(outs[..|outs| - 1]) + r|;
    }
  }

  /** What is routed at the end of a stream is the whole of it, an unfinished last line included. */
  lemma RoutedWhole(d: string)
    ensures Flat(Lines(d).Routed()) == d
  {
    hide Lines;
    LinesSound(d);
    var s := Lines(d);
    if s.tail == "" {
      assert Flat(s.complete) + "" == Flat(s.complete);
    } else {
      FlatAppend(s.complete, s.tail);
    }
  }
}
