/**
 Load accounting of one worker: dispatches it has not answered, sessions it
 accepted, and what its own probe reports say, under every interleaving of
 tickets, probes that finish out of order, and the worker's own sessions.
 */
module Load {
  import opened Prelude

  /** A ticket's life; MidAccept lies between the two halves of accept(). */
  datatype Phase = Pending | MidAccept | Accepted | Ended

  /** A probe under way: when it started, and what the worker was running when it answered. */
  datatype Probe = Probe(start: nat, report: Option<set<nat>>)

  datatype State = State(
    now: nat,
    // the worker struct
    pending: int,
    accepted: map<nat, nat>,
    lastProbeStart: nat,
    activeSessions: nat,
    // the world around it
    tickets: map<nat, Phase>,
    running: set<nat>,       // sessions running on the worker, ours and others'
    probes: map<nat, Probe>,
    lastReport: set<nat>)    // what the last applied report counted

  const INIT := State(0, 0, map[], 0, 0, map[], {}, map[], {})

  datatype Step =
    | Tick
    | Begin(t: nat)
    | WorkerStarts(t: nat)   // the worker takes the session (ours before it answers, or somebody else's)
    | WorkerStops(t: nat)
    | AcceptFirst(t: nat)    // accepted = true, pending--
    | AcceptSecond(t: nat)   // accepted[t] = now
    | End(t: nat)
    | ProbeStart(p: nat)
    | ProbeReport(p: nat)
    | ProbeFinish(p: nat)
    | ProbeFail(p: nat)

  predicate In(s: State, t: nat, ph: Phase) {
    t in s.tickets && s.tickets[t] == ph
  }

  predicate Enabled(s: State, e: Step) {
    match e
    case Tick => true
    case Begin(t) => t !in s.tickets && t !in s.running
    case WorkerStarts(t) => t !in s.tickets || s.tickets[t] == Pending
    case WorkerStops(t) => true
    case AcceptFirst(t) => In(s, t, Pending)
    case AcceptSecond(t) => In(s, t, MidAccept)
    case End(t) => In(s, t, Pending) || In(s, t, Accepted) || In(s, t, Ended)
    case ProbeStart(p) => p !in s.probes
    case ProbeReport(p) => p in s.probes
    case ProbeFinish(p) => p in s.probes && s.probes[p].report.Some?
    case ProbeFail(p) => true
  }

  function Apply(s: State, e: Step): State {
    match e
    case Tick => s.(now := s.now + 1)
    case Begin(t) => s.(tickets := s.tickets[t := Pending], pending := s.pending + 1)
    case WorkerStarts(t) => s.(running := s.running + {t})
    case WorkerStops(t) => s.(running := s.running - {t})
    case AcceptFirst(t) => s.(tickets := s.tickets[t := MidAccept], pending := s.pending - 1)
    case AcceptSecond(t) => s.(tickets := s.tickets[t := Accepted], accepted := s.accepted[t := s.now])
    case End(t) =>
      if In(s, t, Pending) then s.(tickets := s.tickets[t := Ended], pending := s.pending - 1)
      else if In(s, t, Accepted) then s.(tickets := s.tickets[t := Ended], accepted := s.accepted - {t})
      else s
    case ProbeStart(p) => s.(probes := s.probes[p := Probe(s.now, None)])
    case ProbeReport(p) =>
      if p in s.probes then s.(probes := s.probes[p := s.probes[p].(report := Some(s.running))]) else s
    case ProbeFinish(p) =>
      if p in s.probes && s.probes[p].report.Some? then
        var r := s.probes[p].report.value;
        s.(lastProbeStart := s.probes[p].start, activeSessions := |r|, lastReport := r, probes := s.probes - {p})
      else s
    case ProbeFail(p) => s.(probes := s.probes - {p})
  }

  /** Accepted sessions the last report may not know about yet. */
  function Fresh(s: State): set<nat> {
    set t | t in s.accepted && s.accepted[t] >= s.lastProbeStart
  }

  /** worker.inFlight(). */
  function InFlight(s: State): int {
    s.pending + |Fresh(s)|
  }

  function InPhase(ts: map<nat, Phase>, ph: Phase): set<nat> {
    set t | t in ts && ts[t] == ph
  }

  function Tickets(s: State, ph: Phase): set<nat> {
    InPhase(s.tickets, ph)
  }

  // ---------------------------------------------------------------- the invariant

  /** The counters mirror the tickets. */
  predicate Counted(s: State) {
    s.pending == |Tickets(s, Pending)| && s.accepted.Keys == Tickets(s, Accepted)
  }

  predicate InTime(s: State) {
    && s.lastProbeStart <= s.now
    && (forall t :: t in s.accepted ==> s.accepted[t] <= s.now)
    && (forall p :: p in s.probes ==> s.probes[p].start <= s.now)
  }

  /** A session accepted before a probe started, and still running, is in that probe's report. */
  predicate Seen(s: State, start: nat, report: set<nat>) {
    forall t :: t in s.accepted && t in s.running && s.accepted[t] < start ==> t in report
  }

  predicate Covered(s: State) {
    && s.activeSessions == |s.lastReport|
    && Seen(s, s.lastProbeStart, s.lastReport)
    && (forall p :: p in s.probes && s.probes[p].report.Some? ==> Seen(s, s.probes[p].start, s.probes[p].report.value))
  }

  predicate Inv(s: State) {
    Counted(s) && InTime(s) && Covered(s)
  }

  lemma PhaseMove(ts: map<nat, Phase>, t: nat, to: Phase, ph: Phase)
    ensures InPhase(ts[t := to], ph) == if ph == to then InPhase(ts, ph) + {t} else InPhase(ts, ph) - {t}
  {}

  lemma Leaves(ts: map<nat, Phase>, t: nat, to: Phase)
    requires t in ts && ts[t] != to
    ensures |InPhase(ts[t := to], ts[t])| == |InPhase(ts, ts[t])| - 1
    ensures forall ph :: ph != to && ph != ts[t] ==> InPhase(ts[t := to], ph) == InPhase(ts, ph)
  {
    PhaseMove(ts, t, to, ts[t]);
    forall ph | ph != to && ph != ts[t]
      ensures InPhase(ts[t := to], ph) == InPhase(ts, ph)
    {
      PhaseMove(ts, t, to, ph);
    }
  }

  lemma CountedTicket(s: State, e: Step, t: nat)
    requires Counted(s) && Enabled(s, e)
    requires e == Begin(t) || e == AcceptFirst(t) || e == AcceptSecond(t)
    ensures Counted(Apply(s, e))
  {
    var ts := s.tickets;
    match e
    case Begin(_) =>
      PhaseMove(ts, t, Pending, Pending);
      PhaseMove(ts, t, Pending, Accepted);
      assert t !in InPhase(ts, Pending) && t !in InPhase(ts, Accepted);
    case AcceptFirst(_) =>
      Leaves(ts, t, MidAccept);
    case AcceptSecond(_) =>
      Leaves(ts, t, Accepted);
      PhaseMove(ts, t, Accepted, Accepted);
  }

  lemma CountedEnd(s: State, t: nat)
    requires Counted(s) && Enabled(s, End(t))
    ensures Counted(Apply(s, End(t)))
  {
    if In(s, t, Pending) || In(s, t, Accepted) {
      Leaves(s.tickets, t, Ended);
      PhaseMove(s.tickets, t, Ended, Accepted);
    }
  }

  lemma CountedStep(s: State, e: Step)
    requires Counted(s) && Enabled(s, e)
    ensures Counted(Apply(s, e))
  {
    match e
    case Begin(t) => CountedTicket(s, e, t);
    case AcceptFirst(t) => CountedTicket(s, e, t);
    case AcceptSecond(t) => CountedTicket(s, e, t);
    case End(t) => CountedEnd(s, t);
    case Tick => case WorkerStarts(_) => case WorkerStops(_) =>
    case ProbeStart(_) => case ProbeReport(_) => case ProbeFinish(_) => case ProbeFail(_) =>
  }

  lemma InTimeStep(s: State, e: Step)
    requires InTime(s)
    ensures InTime(Apply(s, e))
  {}

  lemma CoveredStep(s: State, e: Step)
    requires Inv(s) && Enabled(s, e)
    ensures Covered(Apply(s, e))
  {
    var n := Apply(s, e);
    match e
    case WorkerStarts(t) =>
      assert t in s.accepted.Keys <==> t in Tickets(s, Accepted);
    case ProbeFinish(p) =>
    case _ =>
  }

  lemma InvStep(s: State, e: Step)
    requires Inv(s) && Enabled(s, e)
    ensures Inv(Apply(s, e))
  {
    hide Counted, InTime, Covered, Apply, Enabled;
    CountedStep(s, e);
    InTimeStep(s, e);
    CoveredStep(s, e);
  }

  // ---------------------------------------------------------------- whole runs

  predicate Legal(s: State, run: seq<Step>)
    decreases run
  {
    run == [] || (Enabled(s, run[0]) && Legal(Apply(s, run[0]), run[1..]))
  }

  function After(s: State, run: seq<Step>): State
    decreases run
  {
    if run == [] then s else After(Apply(s, run[0]), run[1..])
  }

  lemma {:induction false} RunInv(s: State, run: seq<Step>)
    requires Inv(s) && Legal(s, run)
    ensures Inv(After(s, run))
    decreases run
  {
    hide Inv, Apply, Enabled;
    if run != [] {
      InvStep(s, run[0]);
      RunInv(Apply(s, run[0]), run[1..]);
    }
  }

  lemma InitInv()
    ensures Inv(INIT)
  {
    assert Tickets(INIT, Pending) == {} && Tickets(INIT, Accepted) == {};
  }

  /** Sessions of ours running on the worker whose ticket is not in the accept window. */
  function LiveRunning(s: State): set<nat> {
    set t | t in s.running && (In(s, t, Pending) || In(s, t, Accepted))
  }

  lemma Smaller(a: set<nat>, b: set<nat>)
    requires a <= b
    ensures |a| <= |b|
  {
    assert b == a + (b - a);
  }

  lemma UnionBound(a: set<nat>, b: set<nat>, c: set<nat>)
    ensures |a + b + c| <= |a| + |b| + |c|
  {
    assert |a + b| <= |a| + |b| by { assert |a + b| == |a| + |b| - |a * b|; }
    assert |a + b + c| == |a + b| + |c| - |(a + b) * c|;
  }

  /** Sessions of ours running on the worker, the accept window included. */
  function OurRunning(s: State): set<nat> {
    set t | t in s.running && t in s.tickets && s.tickets[t] != Ended
  }

  /**
   In every run: outside the accept window no running session of ours is missed by
   activeSessions + inFlight, and with the tickets inside it added none is missed at all.
   */
  lemma NoSessionMissed(run: seq<Step>)
    requires Legal(INIT, run)
    ensures var s := After(INIT, run);
            && |LiveRunning(s)| <= s.activeSessions + InFlight(s)
            && |LiveRunning(s) + s.lastReport + Tickets(s, Pending)| <= s.activeSessions + InFlight(s)
            && |OurRunning(s)| <= s.activeSessions + InFlight(s) + |Tickets(s, MidAccept)|
  {
    InitInv();
    RunInv(INIT, run);
    var s := After(INIT, run);
    CoverBound(s);
    WithWindow(s);
  }

  lemma WithWindow(s: State)
    ensures |OurRunning(s)| <= |LiveRunning(s)| + |Tickets(s, MidAccept)|
  {
    Smaller(OurRunning(s), LiveRunning(s) + Tickets(s, MidAccept));
    UnionBound(LiveRunning(s), Tickets(s, MidAccept), {});
    assert LiveRunning(s) + Tickets(s, MidAccept) + {} == LiveRunning(s) + Tickets(s, MidAccept);
  }

  lemma CoverBound(s: State)
    requires Inv(s)
    ensures |LiveRunning(s)| <= s.activeSessions + InFlight(s)
    ensures |LiveRunning(s) + s.lastReport + Tickets(s, Pending)| <= s.activeSessions + InFlight(s)
  {
    var cover := s.lastReport + Fresh(s) + Tickets(s, Pending);
    forall t | t in LiveRunning(s)
      ensures t in cover
    {
      if In(s, t, Accepted) { assert t in s.accepted by { assert t in Tickets(s, Accepted); } }
    }
    Smaller(LiveRunning(s), cover);
    Smaller(LiveRunning(s) + s.lastReport + Tickets(s, Pending), cover);
    UnionBound(s.lastReport, Fresh(s), Tickets(s, Pending));
  }

  // ---------------------------------------------------------------- the sum is not read at one instant

  /** sessions() and load(): activeSessions first, then the pending counter, then the accepted map. */
  function ReadSum(s1: State, s2: State, s3: State): int {
    s1.activeSessions + s2.pending + |Fresh(s3)|
  }

  predicate NoFinish(run: seq<Step>) {
    forall i :: 0 <= i < |run| ==> !run[i].ProbeFinish?
  }

  lemma {:induction false} WithoutFinish(s: State, run: seq<Step>)
    requires NoFinish(run)
    ensures var n := After(s, run);
            n.activeSessions == s.activeSessions && n.lastReport == s.lastReport && n.lastProbeStart == s.lastProbeStart
    decreases run
  {
    if run != [] {
      assert !run[0].ProbeFinish?;
      assert forall i :: 0 <= i < |run| - 1 ==> run[1..][i] == run[i + 1];
      WithoutFinish(Apply(s, run[0]), run[1..]);
    }
  }

  /** A ticket never comes back to pending. */
  lemma {:induction false} PendingBefore(s: State, run: seq<Step>, t: nat)
    requires Legal(s, run) && t in s.tickets && In(After(s, run), t, Pending)
    ensures In(s, t, Pending)
    decreases run
  {
    if run != [] {
      PendingStep(s, run[0], t);
      PendingBefore(Apply(s, run[0]), run[1..], t);
    }
  }

  lemma PendingStep(s: State, e: Step, t: nat)
    requires Enabled(s, e) && t in s.tickets
    ensures t in Apply(s, e).tickets
    ensures In(Apply(s, e), t, Pending) ==> In(s, t, Pending)
  {}

  /** Sessions of ours that run when the reading ends, begun before the pending counter was read. */
  function KnownRunning(s2: State, s3: State): set<nat> {
    set t | t in LiveRunning(s3) && t in s2.tickets
  }

  /**
   Read in three steps with anything in between but the end of a probe, the sum still misses no
   running session of ours that was begun in time and is outside the accept window.
   */
  lemma ReadsMissNone(before: seq<Step>, first: seq<Step>, second: seq<Step>)
    requires Legal(INIT, before) && Legal(After(INIT, before), first)
    requires Legal(After(After(INIT, before), first), second)
    requires NoFinish(first) && NoFinish(second)
    ensures var s1 := After(INIT, before);
            var s2 := After(s1, first);
            var s3 := After(s2, second);
            |KnownRunning(s2, s3)| <= ReadSum(s1, s2, s3)
  {
    hide Legal, After, NoFinish, Inv, Apply, Enabled, Fresh;
    var s1 := After(INIT, before);
    var s2 := After(s1, first);
    var s3 := After(s2, second);
    InitInv();
    RunInv(INIT, before);
    RunInv(s1, first);
    RunInv(s2, second);
    WithoutFinish(s1, first);
    WithoutFinish(s2, second);
    var cover := s1.lastReport + Fresh(s3) + Tickets(s2, Pending);
    forall t | t in KnownRunning(s2, s3)
      ensures t in cover
    {
      if In(s3, t, Pending) {
        PendingBefore(s2, second, t);
      } else {
        AcceptedCovered(s3, t);
      }
    }
    Smaller(KnownRunning(s2, s3), cover);
    UnionBound(s1.lastReport, Fresh(s3), Tickets(s2, Pending));
    CountsOf(s1);
    CountsOf(s2);
  }

  lemma AcceptedCovered(s: State, t: nat)
    requires Inv(s) && In(s, t, Accepted) && t in s.running
    ensures t in s.lastReport || t in Fresh(s)
  {
    assert t in Tickets(s, Accepted);
  }

  lemma CountsOf(s: State)
    requires Inv(s)
    ensures s.pending == |Tickets(s, Pending)| && s.activeSessions == |s.lastReport|
  {}

  /** A session begun, run and accepted, then a probe that starts a tick later and counts it. */
  const ACCEPTED_THEN_PROBED: seq<Step> :=
    [Begin(1), WorkerStarts(1), AcceptFirst(1), AcceptSecond(1), Tick, ProbeStart(0), ProbeReport(0)]

  const PROBED: State :=
    State(1, 0, map[1 := 0], 0, 0, map[1 := Accepted], {1}, map[0 := Probe(1, Some({1}))], {})

  const PROBE_DONE: State :=
    State(1, 0, map[1 := 0], 1, 1, map[1 := Accepted], {1}, map[], {1})

  /** What happens in one gap of the reading: that probe ends, or nothing does. */
  function Gap(ends: bool): seq<Step> {
    if ends then [ProbeFinish(0)] else []
  }

  /**
   A probe that ends between the first read and the last makes the sum miss a session accepted
   long before: the report that counts it comes too late for one read, and in time to drop it
   from the other. It does so in either gap.
   */
  lemma ReadsMiss(inFirst: bool)
    ensures var s1 := After(INIT, ACCEPTED_THEN_PROBED);
            var s2 := After(s1, Gap(inFirst));
            var s3 := After(s2, Gap(!inFirst));
            && Legal(INIT, ACCEPTED_THEN_PROBED) && Legal(s1, Gap(inFirst)) && Legal(s2, Gap(!inFirst))
            && 1 in KnownRunning(s2, s3) && ReadSum(s1, s2, s3) == 0
  {
    hide *;
    ToProbed();
    GapSteps(PROBED, inFirst);
    if inFirst {
      GapSteps(PROBE_DONE, false);
      ReadBetween(PROBE_DONE);
    } else {
      GapSteps(PROBED, true);
      ReadBetween(PROBED);
    }
  }

  lemma GapSteps(s: State, ends: bool)
    requires ends ==> s == PROBED
    ensures Legal(s, Gap(ends)) && After(s, Gap(ends)) == if ends then PROBE_DONE else s
  {
    hide Legal, After, Apply, Enabled;
    if ends {
      NoSteps(PROBE_DONE);
      ProbeEnds();
      LegalCons(s, ProbeFinish(0), []);
      assert [ProbeFinish(0)] + [] == Gap(true);
    } else {
      NoSteps(s);
    }
  }

  lemma ProbeEnds()
    ensures Enabled(PROBED, ProbeFinish(0)) && Apply(PROBED, ProbeFinish(0)) == PROBE_DONE
  {}

  lemma ReadBetween(s2: State)
    requires s2 == PROBED || s2 == PROBE_DONE
    ensures 1 in KnownRunning(s2, PROBE_DONE) && ReadSum(PROBED, s2, PROBE_DONE) == 0
  {
    assert In(PROBE_DONE, 1, Accepted);
    assert Fresh(PROBE_DONE) == {};
  }

  lemma ToProbed()
    ensures Legal(INIT, ACCEPTED_THEN_PROBED) && After(INIT, ACCEPTED_THEN_PROBED) == PROBED
  {
    hide Legal, After;
    var a3 := State(0, 0, map[], 0, 0, map[1 := MidAccept], {1}, map[], {});
    ToMidAccept(a3);
    ToReport(a3);
    assert [Begin(1), WorkerStarts(1), AcceptFirst(1)] + [AcceptSecond(1), Tick, ProbeStart(0), ProbeReport(0)]
        == ACCEPTED_THEN_PROBED;
    RunConcat(INIT, [Begin(1), WorkerStarts(1), AcceptFirst(1)],
              [AcceptSecond(1), Tick, ProbeStart(0), ProbeReport(0)]);
  }

  lemma {:induction false} RunConcat(s: State, a: seq<Step>, b: seq<Step>)
    ensures Legal(s, a + b) <==> Legal(s, a) && Legal(After(s, a), b)
    ensures After(s, a + b) == After(After(s, a), b)
    decreases a
  {
    if a == [] {
      assert a + b == b;
    } else {
      RunConcat(Apply(s, a[0]), a[1..], b);
      assert (a + b)[1..] == a[1..] + b;
    }
  }

  lemma ToMidAccept(a3: State)
    requires a3 == State(0, 0, map[], 0, 0, map[1 := MidAccept], {1}, map[], {})
    ensures var run := [Begin(1), WorkerStarts(1), AcceptFirst(1)]; Legal(INIT, run) && After(INIT, run) == a3
  {
    hide Legal, After;
    var a1 := Apply(INIT, Begin(1));
    var a2 := Apply(a1, WorkerStarts(1));
    assert Apply(a2, AcceptFirst(1)) == a3;
    Path3(INIT, a1, a2, Begin(1), WorkerStarts(1), AcceptFirst(1));
  }

  lemma ToReport(a3: State)
    requires a3 == State(0, 0, map[], 0, 0, map[1 := MidAccept], {1}, map[], {})
    ensures var run := [AcceptSecond(1), Tick, ProbeStart(0), ProbeReport(0)];
            Legal(a3, run) && After(a3, run) == PROBED
  {
    hide Legal, After;
    var a4 := Apply(a3, AcceptSecond(1));
    var a5 := Apply(a4, Tick);
    var a6 := Apply(a5, ProbeStart(0));
    assert Apply(a6, ProbeReport(0)) == PROBED;
    Path3(a4, a5, a6, Tick, ProbeStart(0), ProbeReport(0));
    LegalCons(a3, AcceptSecond(1), [Tick, ProbeStart(0), ProbeReport(0)]);
    assert [AcceptSecond(1)] + [Tick, ProbeStart(0), ProbeReport(0)]
        == [AcceptSecond(1), Tick, ProbeStart(0), ProbeReport(0)];
  }

  lemma Path3(s: State, a1: State, a2: State, e0: Step, e1: Step, e2: Step)
    requires Enabled(s, e0) && a1 == Apply(s, e0)
    requires Enabled(a1, e1) && a2 == Apply(a1, e1) && Enabled(a2, e2)
    ensures Legal(s, [e0, e1, e2]) && After(s, [e0, e1, e2]) == Apply(a2, e2)
  {
    hide Apply, Enabled, Legal, After;
    NoSteps(Apply(a2, e2));
    LegalCons(a2, e2, []);
    LegalCons(a1, e1, [e2]);
    LegalCons(s, e0, [e1, e2]);
    assert [e2] == [e2] + [] && [e1, e2] == [e1] + [e2] && [e0, e1, e2] == [e0] + [e1, e2];
  }

  lemma NoSteps(s: State)
    ensures Legal(s, []) && After(s, []) == s
  {}

  /** Pending, mid-accept and accepted tickets are exactly the live ones; the counters count two of the three. */
  lemma LiveTickets(run: seq<Step>)
    requires Legal(INIT, run)
    ensures var s := After(INIT, run);
            && s.pending + |Tickets(s, MidAccept)| + |s.accepted| == |s.tickets| - |Tickets(s, Ended)|
            && ((forall t :: t in s.tickets ==> s.tickets[t] == Ended) ==> s.pending == 0 && s.accepted == map[])
  {
    InitInv();
    RunInv(INIT, run);
    var s := After(INIT, run);
    FourPhases(s);
    assert |s.accepted| == |s.accepted.Keys|;
    if forall t :: t in s.tickets ==> s.tickets[t] == Ended {
      assert Tickets(s, Pending) == {} && Tickets(s, Accepted) == {};
    }
  }

  lemma FourPhases(s: State)
    ensures |s.tickets|
            == |Tickets(s, Pending)| + |Tickets(s, MidAccept)| + |Tickets(s, Accepted)| + |Tickets(s, Ended)|
  {
    var a, b, c, d := Tickets(s, Pending), Tickets(s, MidAccept), Tickets(s, Accepted), Tickets(s, Ended);
    assert s.tickets.Keys == a + b + c + d;
    assert |a + b| == |a| + |b| && |a + b + c| == |a + b| + |c| && |a + b + c + d| == |a + b + c| + |d|;
    assert |s.tickets| == |s.tickets.Keys|;
  }

  /** Ending a ticket again changes nothing. */
  lemma EndIdempotent(s: State, t: nat)
    requires Enabled(s, End(t))
    ensures Enabled(Apply(s, End(t)), End(t))
    ensures Apply(Apply(s, End(t)), End(t)) == Apply(s, End(t))
  {}

  lemma LegalCons(s: State, e: Step, run: seq<Step>)
    ensures Legal(s, [e] + run) <==> Enabled(s, e) && Legal(Apply(s, e), run)
    ensures After(s, [e] + run) == After(Apply(s, e), run)
  {
    assert ([e] + run)[1..] == run;
  }

  /** In the accept window the session can be missed: the two halves of accept() are not one step. */
  lemma WindowMisses()
    ensures var run := [Begin(1), WorkerStarts(1), AcceptFirst(1)];
            var s := After(INIT, run);
            Legal(INIT, run) && 1 in s.running && s.activeSessions + InFlight(s) == 0
  {
    var s := State(0, 0, map[], 0, 0, map[1 := MidAccept], {1}, map[], {});
    ToMidAccept(s);
    assert Fresh(s) == {};
  }
}
