/** A worker's load counters and the dispatch tickets that move them, as objects. */
module Worker {
  import opened Prelude

  /** One dispatch attempt: pending until the worker answers, then accepted until the stream ends. */
  class Ticket {
    const w: Upstream
    var accepted: bool
    var ended: bool

    constructor (w: Upstream)
      ensures this.w == w && !accepted && !ended
    {
      this.w := w;
      accepted, ended := false, false;
    }

    /** The worker accepted; a second call, or a call after the end, does nothing. */
    method Accept(now: nat)
      requires w.Valid() && this in w.tickets
      modifies this, w
      ensures w.Valid() && w.tickets == old(w.tickets) && ended == old(ended)
      ensures accepted == (old(accepted) || !old(ended))
      ensures old(accepted) || old(ended) ==> w.pending == old(w.pending) && w.accepted == old(w.accepted)
      ensures !old(accepted) && !old(ended) ==>
                w.pending == old(w.pending) - 1 && w.accepted == old(w.accepted)[this := now]
      ensures w.lastProbeStart == old(w.lastProbeStart) && w.activeSessions == old(w.activeSessions)
    {
      if accepted || ended {
        return;
      }
      assert this in w.Pending();
      ghost var before := w.Pending();
      accepted := true;
      w.pending := w.pending - 1;
      w.accepted := w.accepted[this := now];
      assert w.Pending() == before - {this};
    }

    /** The attempt is over; idempotent. */
    method End()
      requires w.Valid() && this in w.tickets
      modifies this, w
      ensures w.Valid() && w.tickets == old(w.tickets) && ended && accepted == old(accepted)
      ensures old(ended) ==> w.pending == old(w.pending) && w.accepted == old(w.accepted)
      ensures !old(ended) && !accepted ==> w.pending == old(w.pending) - 1 && w.accepted == old(w.accepted)
      ensures !old(ended) && accepted ==> w.pending == old(w.pending) && w.accepted == old(w.accepted) - {this}
      ensures w.lastProbeStart == old(w.lastProbeStart) && w.activeSessions == old(w.activeSessions)
    {
      if ended {
        return;
      }
      ghost var before := w.Pending();
      ended := true;
      if !accepted {
        assert this in before;
        w.pending := w.pending - 1;
        assert w.Pending() == before - {this};
        return;
      }
      w.accepted := w.accepted - {this};
      assert w.Pending() == before;
    }
  }

  class Upstream {
    var pending: int
    var accepted: map<Ticket, nat>
    var lastProbeStart: nat
    var activeSessions: nat
    var healthy: bool
    ghost var tickets: set<Ticket>

    ghost function Pending(): set<Ticket>
      reads this, tickets
    {
      set t | t in tickets && !t.accepted && !t.ended
    }

    /** The counters say exactly which tickets are pending and which are accepted. */
    ghost predicate Valid()
      reads this, tickets
    {
      && (forall t :: t in tickets ==> t.w == this)
      && pending == |Pending()|
      && accepted.Keys == set t | t in tickets && t.accepted && !t.ended
    }

    constructor ()
      ensures Valid() && tickets == {} && !healthy && pending == 0 && accepted == map[]
      ensures lastProbeStart == 0 && activeSessions == 0
    {
      pending, accepted, lastProbeStart, activeSessions, healthy := 0, map[], 0, 0, false;
      tickets := {};
    }

    method Begin() returns (t: Ticket)
      requires Valid()
      modifies this
      ensures Valid() && fresh(t) && t.w == this && !t.accepted && !t.ended
      ensures tickets == old(tickets) + {t} && pending == old(pending) + 1
      ensures accepted == old(accepted)
      ensures lastProbeStart == old(lastProbeStart) && activeSessions == old(activeSessions)
    {
      ghost var before := Pending();
      t := new Ticket(this);
      pending := pending + 1;
      tickets := tickets + {t};
      assert Pending() == before + {t};
    }

    /** Accepted sessions newer than the start of the last successful probe. */
    ghost function Unseen(): set<Ticket>
      reads this
    {
      set t | t in accepted && accepted[t] >= lastProbeStart
    }

    /** inFlight(). */
    method InFlight() returns (n: int)
      ensures n == pending + |Unseen()|
    {
      n := pending;
      var rest := accepted.Keys;
      ghost var counted: set<Ticket> := {};
      while rest != {}
        invariant rest <= accepted.Keys && counted == Unseen() - rest
        invariant n == pending + |counted|
        decreases |rest|
      {
        var t :| t in rest;
        rest := rest - {t};
        if accepted[t] >= lastProbeStart {
          n := n + 1;
          counted := counted + {t};
        }
      }
      assert counted == Unseen();
    }

    /** probeWorker's update on a decoded answer. */
    method FinishProbe(start: nat, active: nat, ok: bool)
      requires Valid()
      modifies `lastProbeStart, `activeSessions, `healthy
      ensures Valid() && lastProbeStart == start && activeSessions == active && healthy == ok
    {
      ghost var before := Pending();
      healthy, lastProbeStart, activeSessions := ok, start, active;
      assert Pending() == before;
    }

    /** Once every ticket has ended, nothing is left on the counters. */
    lemma AllEnded()
      requires Valid() && forall t :: t in tickets ==> t.ended
      ensures pending == 0 && accepted.Keys == {}
    {
      assert Pending() == {};
    }
  }
}
