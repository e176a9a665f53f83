/**
 The tickets and counters of a worker, as objects, go step by step with the state
 machine of their interleavings, so what holds over its runs holds of the objects.
 */
module Ledger {
  import opened Prelude
  import opened Load
  import opened Worker

  ghost function PhaseOf(t: Ticket): Phase
    reads t
  {
    if t.ended then Ended else if t.accepted then Accepted else Pending
  }

  predicate Injective(id: map<nat, Ticket>) {
    forall m, n :: m in id && n in id && id[m] == id[n] ==> m == n
  }

  /** A numbered ticket is in the phase, and in the accepted map, that the state says. */
  ghost predicate EntryMirrors(w: Upstream, s: State, n: nat, t: Ticket)
    reads w, t
  {
    && n in s.tickets && s.tickets[n] == PhaseOf(t)
    && (n in s.accepted <==> t in w.accepted)
    && (n in s.accepted ==> s.accepted[n] == w.accepted[t])
  }

  /** `id` numbers the worker's tickets, and the counters and phases are those of the state. */
  ghost predicate Mirrors(w: Upstream, s: State, id: map<nat, Ticket>)
    reads w, w.tickets
  {
    && id.Keys == s.tickets.Keys && id.Values == w.tickets && Injective(id)
    && w.pending == s.pending && w.lastProbeStart == s.lastProbeStart && w.activeSessions == s.activeSessions
    && s.accepted.Keys <= id.Keys
    && forall n :: n in id ==> id[n] in w.tickets && EntryMirrors(w, s, n, id[n])
  }

  lemma Image(a: set<nat>, id: map<nat, Ticket>, b: set<Ticket>)
    requires a <= id.Keys && Injective(id) && b == set n | n in a :: id[n]
    ensures |b| == |a|
  {
    if a != {} {
      var n :| n in a;
      var rest := set m | m in a - {n} :: id[m];
      Image(a - {n}, id, rest);
      assert b == rest + {id[n]} && id[n] !in rest;
    }
  }

  /** inFlight() of the objects is that of the state. */
  lemma SameInFlight(w: Upstream, s: State, id: map<nat, Ticket>)
    requires w.Valid() && Mirrors(w, s, id)
    ensures w.pending + |w.Unseen()| == InFlight(s)
  {
    forall t | t in w.Unseen()
      ensures exists n :: n in Fresh(s) && id[n] == t
    {
      assert t in w.tickets && t in id.Values;
      var n :| n in id && id[n] == t;
      assert n in Fresh(s);
    }
    Image(Fresh(s), id, w.Unseen());
  }

  // ---------------------------------------------------------------- step by step

  /** Steps of the world around the worker struct. */
  predicate Outside(e: Step) {
    e.Tick? || e.WorkerStarts? || e.WorkerStops? || e.ProbeStart? || e.ProbeReport? || e.ProbeFail?
  }

  lemma OutsideMirrors(w: Upstream, s: State, id: map<nat, Ticket>, e: Step)
    requires Mirrors(w, s, id) && Outside(e)
    ensures Mirrors(w, Apply(s, e), id)
  {}

  method BeginStep(w: Upstream, ghost s: State, id: map<nat, Ticket>, n: nat) returns (next: map<nat, Ticket>)
    requires w.Valid() && Mirrors(w, s, id) && Enabled(s, Begin(n))
    modifies w
    ensures w.Valid() && fresh(w.tickets - old(w.tickets)) && Mirrors(w, Apply(s, Begin(n)), next)
  {
    hide Enabled, Apply, InPhase, Injective;
    var t := w.Begin();
    next := id[n := t];
    assert forall m :: m in id ==> EntryMirrors(w, s, m, id[m]);
    hide EntryMirrors, Mirrors;
    BeginMirrors(w, s, id, n, t, next);
  }

  lemma BeginMirrors(w: Upstream, s: State, id: map<nat, Ticket>, n: nat, t: Ticket, next: map<nat, Ticket>)
    requires w.Valid() && Enabled(s, Begin(n)) && next == id[n := t]
    requires id.Keys == s.tickets.Keys && s.accepted.Keys <= id.Keys && Injective(id)
    requires t !in id.Values && w.tickets == id.Values + {t} && !t.accepted && !t.ended
    requires w.pending == s.pending + 1 && w.lastProbeStart == s.lastProbeStart
    requires w.activeSessions == s.activeSessions
    requires forall m :: m in id ==> EntryMirrors(w, s, m, id[m])
    ensures Mirrors(w, Apply(s, Begin(n)), next)
  {
    BeginState(s, n);
    hide Enabled, Apply, EntryMirrors, Injective;
    NewValue(id, n, t);
    BeginEntries(w, s, id, n, t, next);
    assert forall m :: m in next ==> next[m] in next.Values;
  }

  lemma BeginState(s: State, n: nat)
    requires Enabled(s, Begin(n))
    ensures n !in s.tickets && Apply(s, Begin(n)) == s.(tickets := s.tickets[n := Pending], pending := s.pending + 1)
  {}

  lemma BeginEntries(w: Upstream, s: State, id: map<nat, Ticket>, n: nat, t: Ticket, next: map<nat, Ticket>)
    requires next == id[n := t] && w.Valid() && n !in id && s.accepted.Keys <= id.Keys && !t.accepted && !t.ended
    requires forall m :: m in id ==> EntryMirrors(w, s, m, id[m])
    ensures forall m :: m in next ==>
              EntryMirrors(w, s.(tickets := s.tickets[n := Pending], pending := s.pending + 1), m, next[m])
  {
    assert t !in w.accepted.Keys;
  }

  lemma NewValue(id: map<nat, Ticket>, n: nat, t: Ticket)
    requires n !in id && t !in id.Values
    ensures id[n := t].Values == id.Values + {t}
    ensures Injective(id) ==> Injective(id[n := t])
  {
    var next := id[n := t];
    forall x
      ensures x in next.Values <==> x in id.Values || x == t
    {
      if x in id.Values {
        var m :| m in id && id[m] == x;
        assert m in next && next[m] == x;
      }
      if x == t {
        assert n in next && next[n] == t;
      }
    }
    assert forall m :: m in id ==> id[m] in id.Values;
  }

  /** Both halves of accept(), which the object takes as one. */
  method AcceptStep(w: Upstream, ghost s: State, id: map<nat, Ticket>, n: nat, now: nat)
    requires w.Valid() && Mirrors(w, s, id) && Enabled(s, AcceptFirst(n)) && now == s.now
    modifies w, w.tickets
    ensures w.Valid() && w.tickets == old(w.tickets)
    ensures Mirrors(w, Apply(Apply(s, AcceptFirst(n)), AcceptSecond(n)), id)
  {
    hide InPhase, Apply, Enabled, Upstream.Valid, Upstream.Pending, Injective, EntrySame;
    AcceptState(s, n);
    TicketOf(w, s, id, n);
    var t := id[n];
    t.Accept(now);
    assert forall m :: m in id && m != n ==> EntryMirrors(w, s, m, id[m]);
    hide Mirrors, EntryMirrors;
    AcceptedEntry(w, s, n, t);
    OneMoved(w, s, Apply(Apply(s, AcceptFirst(n)), AcceptSecond(n)), id, n);
  }

  lemma TicketOf(w: Upstream, s: State, id: map<nat, Ticket>, n: nat)
    requires w.Valid() && Mirrors(w, s, id) && n in s.tickets
    ensures n in id && id[n] in w.tickets && id[n].w == w && EntryMirrors(w, s, n, id[n])
    ensures forall m :: m in id && m != n ==> id[m] != id[n]
  {
    hide Upstream.Pending, PhaseOf;
  }

  lemma AcceptState(s: State, n: nat)
    requires Enabled(s, AcceptFirst(n))
    ensures n in s.tickets && s.tickets[n] == Pending
    ensures Apply(Apply(s, AcceptFirst(n)), AcceptSecond(n))
            == s.(tickets := s.tickets[n := Accepted], pending := s.pending - 1, accepted := s.accepted[n := s.now])
    ensures forall m :: m in s.tickets && m != n ==>
              EntrySame(s, Apply(Apply(s, AcceptFirst(n)), AcceptSecond(n)), m)
  {
    assert s.tickets[n := MidAccept][n := Accepted] == s.tickets[n := Accepted];
  }

  lemma AcceptedEntry(w: Upstream, s: State, n: nat, t: Ticket)
    requires Enabled(s, AcceptFirst(n)) && t in w.accepted && w.accepted[t] == s.now && t.accepted && !t.ended
    ensures EntryMirrors(w, Apply(Apply(s, AcceptFirst(n)), AcceptSecond(n)), n, t)
  {
    AcceptState(s, n);
  }

  /** One ticket moved and nothing else. */
  lemma OneMoved(w: Upstream, s: State, next: State, id: map<nat, Ticket>, n: nat)
    requires id.Keys == s.tickets.Keys && id.Values == w.tickets && Injective(id)
    requires n in id && next.tickets.Keys == s.tickets.Keys && next.accepted.Keys <= id.Keys
    requires w.pending == next.pending && w.lastProbeStart == next.lastProbeStart
    requires w.activeSessions == next.activeSessions
    requires forall m :: m in id && m != n ==> EntryMirrors(w, s, m, id[m]) && EntrySame(s, next, m)
    requires EntryMirrors(w, next, n, id[n])
    ensures Mirrors(w, next, id)
  {
    hide Injective;
  }

  predicate EntrySame(s: State, next: State, m: nat) {
    && m in s.tickets && m in next.tickets && next.tickets[m] == s.tickets[m]
    && (m in next.accepted <==> m in s.accepted)
    && (m in s.accepted ==> next.accepted[m] == s.accepted[m])
  }

  method EndStep(w: Upstream, ghost s: State, id: map<nat, Ticket>, n: nat)
    requires w.Valid() && Mirrors(w, s, id) && Enabled(s, End(n))
    modifies w, w.tickets
    ensures w.Valid() && w.tickets == old(w.tickets)
    ensures Mirrors(w, Apply(s, End(n)), id)
  {
    hide InPhase, Apply, Enabled, Upstream.Valid, Upstream.Pending, Injective, EntrySame;
    EndState(s, n);
    TicketOf(w, s, id, n);
    var t := id[n];
    t.End();
    assert forall m :: m in id && m != n ==> EntryMirrors(w, s, m, id[m]);
    hide Mirrors;
    OneMoved(w, s, Apply(s, End(n)), id, n);
  }

  lemma EndState(s: State, n: nat)
    requires Enabled(s, End(n))
    ensures n in s.tickets && s.tickets[n] in {Pending, Accepted, Ended}
    ensures var next := Apply(s, End(n));
            match s.tickets[n]
            case Pending => next == s.(tickets := s.tickets[n := Ended], pending := s.pending - 1)
            case Accepted => next == s.(tickets := s.tickets[n := Ended], accepted := s.accepted - {n})
            case _ => next == s
    ensures forall m :: m in s.tickets && m != n ==> EntrySame(s, Apply(s, End(n)), m)
  {}

  method FinishStep(w: Upstream, s: State, id: map<nat, Ticket>, p: nat, ok: bool)
    requires w.Valid() && Mirrors(w, s, id) && Enabled(s, ProbeFinish(p))
    modifies w
    ensures w.Valid() && w.tickets == old(w.tickets) && Mirrors(w, Apply(s, ProbeFinish(p)), id)
  {
    hide InPhase;
    w.FinishProbe(s.probes[p].start, |s.probes[p].report.value|, ok);
    assert forall m :: m in id ==> EntryMirrors(w, s, m, id[m]);
  }

  method OneStep(w: Upstream, s: State, id: map<nat, Ticket>, e: Step) returns (next: map<nat, Ticket>)
    requires w.Valid() && Mirrors(w, s, id) && Enabled(s, e) && !e.AcceptFirst?
    modifies w, w.tickets
    ensures w.Valid() && fresh(w.tickets - old(w.tickets)) && Mirrors(w, Apply(s, e), next)
  {
    hide Mirrors, Enabled, Apply;
    next := id;
    match e
    case Begin(n) => next := BeginStep(w, s, id, n);
    case AcceptSecond(n) =>
      NoneMidAccept(w, s, id, n);
      assert false;
    case End(n) => EndStep(w, s, id, n);
    case ProbeFinish(p) => FinishStep(w, s, id, p, true);
    case _ => OutsideMirrors(w, s, id, e);
  }

  // ---------------------------------------------------------------- whole runs

  /** The two halves of accept() with nothing in between. */
  predicate Atomic(run: seq<Step>) {
    forall i :: 0 <= i < |run| && run[i].AcceptFirst? ==> i + 1 < |run| && run[i + 1] == AcceptSecond(run[i].t)
  }

  lemma NextStep(s: State, run: seq<Step>)
    requires run != [] && Legal(s, run) && Atomic(run)
    ensures Enabled(s, run[0]) && Legal(Apply(s, run[0]), run[1..])
    ensures After(s, run) == After(Apply(s, run[0]), run[1..])
    ensures Atomic(run[1..])
    ensures run[0].AcceptFirst? ==> |run| > 1 && run[1] == AcceptSecond(run[0].t)
  {
    hide Enabled, Apply;
    forall i | 0 <= i < |run| - 1 && run[1..][i].AcceptFirst?
      ensures i + 1 < |run| - 1 && run[1..][i + 1] == AcceptSecond(run[1..][i].t)
    {
      assert run[i + 1].AcceptFirst?;
    }
  }

  lemma NoneMidAccept(w: Upstream, s: State, id: map<nat, Ticket>, n: nat)
    requires Mirrors(w, s, id)
    ensures !Enabled(s, AcceptSecond(n))
  {
    assert n in s.tickets ==> n in id;
  }

  /**
   The objects driven through any run: they end as the run says, and what they count covers
   every running session of ours.
   */
  method Drive(run: seq<Step>) returns (w: Upstream, id: map<nat, Ticket>)
    requires Legal(INIT, run) && Atomic(run)
    ensures fresh(w) && w.Valid() && Mirrors(w, After(INIT, run), id)
    ensures w.pending + |w.Unseen()| == InFlight(After(INIT, run))
    ensures |LiveRunning(After(INIT, run))| <= w.activeSessions + w.pending + |w.Unseen()|
  {
    hide Legal, After, Atomic, Mirrors, Enabled, Apply, EntryMirrors, LiveRunning, InFlight;
    w := new Upstream();
    id := map[];
    var s, rest := INIT, run;
    NothingMirrored(w);
    while rest != []
      invariant fresh(w) && fresh(w.tickets) && w.Valid() && Mirrors(w, s, id)
      invariant Legal(s, rest) && Atomic(rest) && After(s, rest) == After(INIT, run)
      decreases |rest|
    {
      NextStep(s, rest);
      if rest[0].AcceptFirst? {
        AcceptStep(w, s, id, rest[0].t, s.now);
        s, rest := Apply(s, rest[0]), rest[1..];
        NextStep(s, rest);
      } else {
        id := OneStep(w, s, id, rest[0]);
      }
      s, rest := Apply(s, rest[0]), rest[1..];
    }
    RunDone(s);
    MirroredCounts(w, s, id);
    SameInFlight(w, s, id);
    NoSessionMissed(run);
  }

  lemma NothingMirrored(w: Upstream)
    requires w.tickets == {} && w.pending == 0 && w.accepted == map[] && w.lastProbeStart == 0 && w.activeSessions == 0
    ensures Mirrors(w, INIT, map[])
  {}

  lemma RunDone(s: State)
    ensures After(s, []) == s
  {}

  lemma MirroredCounts(w: Upstream, s: State, id: map<nat, Ticket>)
    requires Mirrors(w, s, id)
    ensures w.activeSessions == s.activeSessions
  {}
}
