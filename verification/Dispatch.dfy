/**
 One dispatched session: pick a worker, stream its output to PMS, and move the
 session to another worker when the stream breaks. The environment (background
 discovery and probes, worker answers, clock, PMS hanging up) is nondeterministic.
 */
module Dispatch {
  import opened Prelude
  import opened Seam
  import opened SessionLog
  import CheckpointCache
  import Resume
  import Resumed

  /** What the pool knows of a worker. */
  datatype View = View(healthy: bool, lastProbeStart: nat)

  datatype Outcome = Done | Refusal | Broken | ClientGone

  /** How a worker answers a request: not at all, with a 503, or with the reads of a stream that ends or breaks off. */
  datatype Reply = Unreachable | Busy | Accept(parts: seq<string>, clean: bool)

  /** A worker's own output begins empty. */
  lemma FirstText(outs: seq<string>, text: string)
    ensures Extend(outs + [""], text) == outs + [text]
  {
    assert "" + text == text;
  }

  lemma ExtendMore(outs: seq<string>, a: string, b: string)
    requires outs != []
    ensures Extend(Extend(outs, a), b) == Extend(outs, a + b)
    ensures Extend(outs, "") == outs
  {
    var init, last := outs[..|outs| - 1], outs[|outs| - 1];
    assert (init + [last + a])[..|outs| - 1] == init;
    assert last + a + b == last + (a + b);
    assert last + "" == last;
  }

  /** Workers recovery may pick: healthy, not broken, and vouched for again if they refused. */
  ghost function Eligible(pool: map<string, View>, broken: set<string>, refused: map<string, nat>): set<string> {
    set u | u in pool && pool[u].healthy && u !in broken && (u in refused ==> pool[u].lastProbeStart > refused[u])
  }

  /** Workers only lost health. */
  ghost predicate OnlyWorse(before: map<string, View>, after: map<string, View>) {
    after.Keys == before.Keys &&
    forall u :: u in before ==> after[u] == before[u] || after[u] == before[u].(healthy := false)
  }

  lemma EligibleShrinks(p: map<string, View>, q: map<string, View>, broken: set<string>, refused: map<string, nat>)
    requires OnlyWorse(p, q)
    ensures Eligible(q, broken, refused) <= Eligible(p, broken, refused)
    ensures |Eligible(q, broken, refused)| <= |Eligible(p, broken, refused)|
  {
    Smaller(Eligible(q, broken, refused), Eligible(p, broken, refused));
  }

  lemma Smaller<T>(a: set<T>, b: set<T>)
    requires a <= b
    ensures |a| <= |b|
    ensures a != b ==> |a| < |b|
  {
    assert b == a + (b - a);
  }

  /** A refusal now takes the worker out until a probe that starts later. */
  lemma RefusalShrinks(p: map<string, View>, broken: set<string>, refused: map<string, nat>, u: string, now: nat)
    requires u in Eligible(p, broken, refused) && p[u].lastProbeStart <= now
    requires u in refused ==> refused[u] <= now
    ensures |Eligible(p, broken, refused[u := now])| < |Eligible(p, broken, refused)|
  {
    var a, b := Eligible(p, broken, refused[u := now]), Eligible(p, broken, refused);
    assert u !in a;
    Smaller(a, b);
  }

  lemma AttemptShrinks(before: map<string, View>, after: map<string, View>, broken: set<string>,
                       refused: map<string, nat>, u: string, now: nat)
    requires u in Eligible(before, broken, refused) && OnlyWorse(before, after)
    requires before[u].lastProbeStart <= now && (u in refused ==> refused[u] <= now)
    ensures |Eligible(after, broken, refused[u := now])| < |Eligible(before, broken, refused)|
  {
    EligibleShrinks(before, after, broken, refused[u := now]);
    RefusalShrinks(before, broken, refused, u, now);
  }

  lemma AllExcluded(order: seq<string>, e: set<string>)
    requires forall u :: u in e ==> u in order
    requires forall i :: 0 <= i < |order| ==> order[i] !in e
    ensures e == {}
  {}

  lemma NewUrl(accepted: seq<string>, u: string)
    requires Distinct(accepted) && u !in accepted
    ensures Distinct(accepted + [u])
    ensures forall v :: v in accepted + [u] <==> v in accepted || v == u
  {}

  /** The PMS-facing fields agree with the log, and nothing forbidden is on it. */
  ghost predicate StreamOk(m: Monitor, headersWritten: bool, wroteAny: bool, lastByte: char) {
    && m.headers == (if headersWritten then 1 else 0) && m.errors == 0
    && |m.outs| == |m.accepted| && (headersWritten ==> m.accepted != [])
    && (m.outs == [] ==> m.sent == "") && (wroteAny ==> headersWritten)
    && (wroteAny <==> m.sent != "") && (wroteAny ==> lastByte == m.sent[|m.sent| - 1])
    && !m.reused && !m.spun && !m.lateRequest
  }

  /** Probe and refusal times lie in the past, and whoever is eligible after a refusal has been vouched for. */
  ghost predicate PoolOk(pool: map<string, View>, refused: map<string, nat>, vouched: set<string>, now: nat) {
    && (forall u :: u in pool ==> pool[u].lastProbeStart <= now)
    && (forall u :: u in refused ==> refused[u] <= now)
    && (forall u :: u in pool && pool[u].healthy && u in refused && pool[u].lastProbeStart > refused[u] ==>
                      u in vouched)
  }

  lemma ProbeKeepsPool(p: map<string, View>, refused: map<string, nat>, vouched: set<string>, now: nat,
                       u: string, start: nat, healthy: bool)
    requires PoolOk(p, refused, vouched, now) && u in p && start <= now
    requires healthy && u in refused && start > refused[u] ==> u in vouched
    ensures PoolOk(p[u := View(healthy, start)], refused, vouched, now)
  {}

  lemma VouchedGrows(p: map<string, View>, refused: map<string, nat>, vouched: set<string>, more: set<string>, now: nat)
    requires PoolOk(p, refused, vouched, now) && vouched <= more
    ensures PoolOk(p, refused, more, now)
  {}

  lemma WorseKeepsPool(p: map<string, View>, q: map<string, View>, refused: map<string, nat>,
                       vouched: set<string>, now: nat)
    requires PoolOk(p, refused, vouched, now) && OnlyWorse(p, q)
    ensures PoolOk(q, refused, vouched, now)
  {
    forall u | u in q ensures u in p && (q[u] == p[u] || q[u] == p[u].(healthy := false)) {}
  }

  lemma LoseHealth(p: map<string, View>, u: string)
    requires u in p
    ensures OnlyWorse(p, p[u := p[u].(healthy := false)])
  {}

  lemma SameIsWorse(p: map<string, View>)
    ensures OnlyWorse(p, p)
  {}

  lemma RefusalKeepsPool(p: map<string, View>, refused: map<string, nat>, vouched: set<string>, now: nat, u: string)
    requires PoolOk(p, refused, vouched, now)
    ensures PoolOk(p, refused[u := now], vouched - {u}, now)
  {}

  /** The argv to send next, and every argv sent so far, are the session's own but for resume flags. */
  ghost predicate Carried(bodies: seq<seq<Resume.Tok>>, args: seq<Resume.Tok>, body: seq<Resume.Tok>) {
    Resumed.Carries(args, body) && forall i :: 0 <= i < |bodies| ==> Resumed.Carries(args, bodies[i])
  }

  lemma CarriedSent(bodies: seq<seq<Resume.Tok>>, args: seq<Resume.Tok>, body: seq<Resume.Tok>)
    requires Carried(bodies, args, body)
    ensures Carried(bodies + [body], args, body)
  {}

  lemma CarriedResumed(bodies: seq<seq<Resume.Tok>>, args: seq<Resume.Tok>, body: seq<Resume.Tok>,
                       store: CheckpointCache.Store, now: int, ttl: int)
    requires Carried(bodies, args, body)
    ensures Carried(bodies, args, CheckpointCache.ResumeStep(store, body, now, ttl).args)
  {
    Resumed.CarriesStep(args, body, store, now, ttl);
  }

  lemma CarriedAtFirst(args: seq<Resume.Tok>)
    ensures Carried([], args, args)
  {
    Resumed.CarriesSelf(args);
  }

  /** A newline is needed to continue the stream exactly when its last byte is not one. */
  lemma SeamJoined(sent: string, outs: seq<string>, wroteAny: bool, lastByte: char)
    requires sent == Joined(outs) && (wroteAny <==> sent != "") && (wroteAny ==> lastByte == sent[|sent| - 1])
    ensures Joined(outs + [""]) == if wroteAny && lastByte != LF then sent + [LF] else sent
    ensures sent <= Joined(outs + [""])
  {
    hide Joined;
    JoinedNext(outs);
  }

  /** Why a session ends. */
  datatype End =
    | StreamEnded  // the last accepted worker's stream came to its end
    | ClientLeft
    | Exhausted    // as many workers accepted as recovery allows, and all have broken
    | NoWorker     // the recovery wait is over and nobody is eligible
    | AllRefused   // every worker of the first schedule refused, or there was none

  class Session {
    /** The argv the session was dispatched with, and how long a checkpoint stays good. */
    const args: seq<Resume.Tok>
    const ttl: int

    // the orchestrator's world
    var now: nat
    var pool: map<string, View>
    var clientGone: bool
    /** Background pool updates (discovery ticks, periodic probes) still to come while this session runs. */
    var outside: nat
    /** The checkpoint cache, shared with every session's poller. */
    var store: CheckpointCache.Store

    // the PMS-facing stream
    var headersWritten: bool
    var wroteAny: bool
    var lastByte: char

    /** The argv of the next request. */
    var body: seq<Resume.Tok>

    // locals of recovery
    var broken: set<string>
    var refused: map<string, nat>

    ghost var log: seq<Event>
    /** When the last worker that accepted broke. */
    ghost var brokeAt: nat
    /** Seconds recovery has slept through. */
    ghost var waited: nat

    ghost function M(): Monitor
      reads this
    {
      Watch(log)
    }

    /** The program state agrees with the log, and nothing forbidden is on the log. */
    ghost predicate Inv()
      reads this
    {
      var m := M();
      && m.gone == clientGone
      && StreamOk(m, headersWritten, wroteAny, lastByte)
      && broken == m.broken && refused == m.refusals
      && PoolOk(pool, refused, m.vouched, now)
      && m.latest <= now && !m.unordered
      && Carried(m.bodies, args, body)
    }

    /** Put an event on the log. */
    ghost method Note(e: Event)
      modifies `log
      ensures log == old(log) + [e] && M() == Observe(old(M()), e)
    {
      WatchAppend(log, e);
      log := log + [e];
    }

    /** What environment steps leave alone. */
    twostate predicate StreamKept()
      reads this
    {
      && unchanged(`headersWritten, `wroteAny, `lastByte, `broken, `refused)
      && var (a, b) := (old(M()), M());
        && a.accepted == b.accepted && a.outs == b.outs && a.sent == b.sent && a.broken == b.broken
        && a.headers == b.headers && a.errors == b.errors && a.lateBegins == b.lateBegins
        && a.refusals == b.refusals && a.bodies == b.bodies && a.tried == b.tried && a.turned == b.turned
    }

    constructor (args: seq<Resume.Tok>, store: CheckpointCache.Store, ttl: int,
                 pool: map<string, View>, now: nat, outside: nat)
      requires forall u :: u in pool ==> pool[u].lastProbeStart <= now
      ensures Inv() && log == [] && broken == {} && refused == map[]
      ensures this.args == body == args && this.store == store && this.ttl == ttl
      ensures this.pool == pool && this.now == now && this.outside == outside
    {
      CarriedAtFirst(args);
      this.args, this.body, this.store, this.ttl := args, args, store, ttl;
      this.now, this.pool, this.outside := now, pool, outside;
      clientGone, headersWritten, wroteAny, lastByte := false, false, false, ' ';
      broken, refused, log, brokeAt, waited := {}, map[], [], now, 0;
    }

    // -------------------------------------------------------------- the environment

    method HangUp()
      requires Inv()
      modifies `clientGone, `log
      ensures Inv() && StreamKept() && clientGone && M().vouched == old(M().vouched)
    {
      hide Observe, PoolOk, Carried;
      ObserveEnvironment(M(), Gone);
      ObserveRetry(M(), Gone);
      hide Watch;
      Note(Gone);
      clientGone := true;
    }

    /** A healthy answer vouches for a refused worker when its probe started after the refusal. */
    ghost method NoteProbe(u: string, start: nat, healthy: bool)
      requires Inv()
      modifies `log
      ensures Inv() && StreamKept()
      ensures healthy && u in refused && start > refused[u] ==> u in M().vouched
    {
      hide Observe, PoolOk, Carried;
      var e := Probe(u, start, healthy);
      ObserveEnvironment(M(), e);
      ObserveRetry(M(), e);
      hide Watch, StreamOk;
      VouchedGrows(pool, refused, M().vouched, Observe(M(), e).vouched, now);
      Note(e);
    }

    method StoreProbe(u: string, start: nat, healthy: bool)
      requires Inv() && u in pool && start <= now
      requires healthy && u in refused && start > refused[u] ==> u in M().vouched
      modifies `pool
      ensures Inv() && pool == old(pool)[u := View(healthy, start)]
    {
      hide Watch, PoolOk, StreamOk, Carried;
      ProbeKeepsPool(pool, refused, M().vouched, now, u, start, healthy);
      pool := pool[u := View(healthy, start)];
    }

    /** A probe of `u` that started at `start` has come back. */
    method FinishProbe(u: string, start: nat, decoded: bool, healthy: bool)
      requires Inv() && u in pool && start <= now
      modifies `pool, `log
      ensures Inv() && StreamKept() && pool.Keys == old(pool.Keys)
      ensures pool == old(pool)[u := if decoded then View(healthy, start) else old(pool)[u].(healthy := false)]
    {
      hide Inv, Watch;
      NoteProbe(u, start, decoded && healthy);
      if decoded {
        StoreProbe(u, start, healthy);
      } else {
        MarkDown(u);
      }
    }

    /** One background change: a worker is discovered or dropped, or a probe comes back. */
    method PoolUpdate()
      requires Inv()
      modifies `pool, `log
      ensures Inv() && StreamKept()
    {
      var u: string := *;
      var drop: bool := *;
      if u !in pool {
        pool := pool[u := View(false, 0)];
      } else if drop {
        pool := map v | v in pool && v != u :: pool[v];
      } else {
        var start: int := *;
        var decoded: bool, healthy: bool := *, *;
        if 0 <= start <= now {
          FinishProbe(u, start, decoded, healthy);
        }
      }
    }

    /** Time passes, and some session's poller stores a checkpoint or a stale one goes. */
    method Tick()
      requires Inv()
      modifies `now, `store
      ensures Inv() && now >= old(now)
    {
      hide Watch, StreamOk, Carried;
      var id: string := *;
      var h: CheckpointCache.Hint := *;
      var keep: bool := *;
      store := if keep then store[id := h] else store - {id};
      var dt: int := *;
      if dt > 0 {
        now := now + dt;
      }
    }

    /** Time passes; the client may leave; while the budget lasts, discovery and probes change the pool. */
    method Background()
      requires Inv()
      modifies `now, `pool, `clientGone, `outside, `store, `log
      ensures Inv() && StreamKept()
      ensures now >= old(now) && outside <= old(outside)
      ensures outside == old(outside) ==> pool == old(pool)
    {
      hide Inv, Watch;
      Tick();
      var leaves: bool, more: bool := *, *;
      if leaves {
        HangUp();
      }
      while more && outside > 0
        invariant Inv() && StreamKept()
        invariant now >= old(now) && outside <= old(outside)
        invariant outside == old(outside) ==> pool == old(pool)
        decreases outside
      {
        PoolUpdate();
        Spend();
        more := *;
      }
    }

    method Spend()
      requires Inv() && outside > 0
      modifies `outside
      ensures Inv() && outside == old(outside) - 1
    {
      outside := outside - 1;
    }

    // -------------------------------------------------------------- one attempt

    method MarkDown(u: string)
      requires Inv()
      modifies `pool
      ensures Inv() && OnlyWorse(old(pool), pool)
      ensures pool == if u in old(pool) then old(pool)[u := old(pool)[u].(healthy := false)] else old(pool)
    {
      hide PoolOk, OnlyWorse, Carried;
      if u in pool {
        LoseHealth(pool, u);
        WorseKeepsPool(pool, pool[u := pool[u].(healthy := false)], refused, M().vouched, now);
        pool := pool[u := pool[u].(healthy := false)];
      } else {
        SameIsWorse(pool);
      }
    }

    /** pmsStream.write: on success the text has reached PMS. */
    method Forward(text: string) returns (ok: bool)
      requires Inv() && text != "" && M().outs != [] && headersWritten
      modifies `wroteAny, `lastByte, `clientGone, `log
      ensures Inv()
      ensures ok ==> clientGone == old(clientGone) && M() == Observe(old(M()), Bytes(text))
      ensures !ok ==> clientGone && StreamKept()
    {
      ok := *;
      if !ok {
        HangUp();
        return;
      }
      JoinedExtend(M().outs, text);
      Note(Bytes(text));
      wroteAny, lastByte := true, text[|text| - 1];
    }

    /** End the line the previous worker left unfinished. */
    method SendNewline() returns (ok: bool)
      requires Inv() && headersWritten && M().outs != []
      modifies `wroteAny, `lastByte, `clientGone, `log
      ensures Inv()
      ensures ok ==> clientGone == old(clientGone) && M() == Observe(old(M()), Newline)
      ensures !ok ==> clientGone && StreamKept()
    {
      ok := *;
      if !ok {
        HangUp();
        return;
      }
      Note(Newline);
      wroteAny, lastByte := true, LF;
    }

    /** Later, and with no more background budget; the pool is the same unless some was spent. */
    twostate predicate Later()
      reads this
    {
      now >= old(now) && outside <= old(outside) && (outside == old(outside) ==> pool == old(pool))
    }

    /** Same workers, same standing; only the stream may have grown. */
    twostate predicate StandingKept()
      reads this
    {
      && unchanged(`broken, `refused)
      && var (a, b) := (old(M()), M());
        && a.accepted == b.accepted && a.broken == b.broken && a.refusals == b.refusals
        && a.lateBegins == b.lateBegins && a.bodies == b.bodies && a.tried == b.tried && a.turned == b.turned
    }

    ghost method NoteAccepted(u: string)
      requires Inv()
      modifies `log
      ensures Inv() && M() == old(M()).(accepted := old(M()).accepted + [u], outs := old(M()).outs + [""])
    {
      hide Watch, PoolOk, Carried;
      Note(Accepted(u));
    }

    /** The response headers, for the first worker that accepts. */
    method WriteHeaders()
      requires Inv() && !headersWritten && M().accepted != []
      modifies `headersWritten, `log
      ensures Inv() && headersWritten && M() == old(M()).(headers := 1)
    {
      hide Watch, PoolOk, Carried;
      Note(Header);
      headersWritten := true;
    }

    ghost method StreamFacts()
      requires Inv()
      ensures (wroteAny <==> M().sent != "") && (wroteAny ==> headersWritten && lastByte == M().sent[|M().sent| - 1])
    {
      hide Watch, PoolOk, Carried;
    }

    /** The worker has accepted: response headers on the first one, a seam on the others. */
    method OpenStream(u: string) returns (ok: bool)
      requires Inv() && M().sent == Joined(M().outs)
      modifies `headersWritten, `wroteAny, `lastByte, `clientGone, `log
      ensures Inv() && headersWritten && unchanged(`broken, `refused)
      ensures M().accepted == old(M().accepted) + [u] && M().outs == old(M().outs) + [""]
      ensures M().lateBegins == old(M().lateBegins) && M().bodies == old(M().bodies)
      ensures M().tried == old(M().tried) && M().turned == old(M().turned)
      ensures M().sent <= Joined(M().outs)
      ensures ok ==> M().sent == Joined(M().outs)
      ensures !ok ==> clientGone
    {
      hide Inv, Watch, Joined;
      StreamFacts();
      SeamJoined(M().sent, M().outs, wroteAny, lastByte);
      NoteAccepted(u);
      ok := true;
      if !headersWritten {
        WriteHeaders();
      } else if wroteAny && lastByte != LF {
        ok := SendNewline();
      }
    }

    /** One read of the copy loop, of any size. */
    method CopyRead(text: string) returns (ok: bool)
      requires Inv() && headersWritten && M().outs != [] && M().sent == Joined(M().outs)
      modifies `now, `pool, `clientGone, `outside, `store, `wroteAny, `lastByte, `log
      ensures Inv() && StandingKept() && Later()
      ensures M().outs != [] && M().sent == Joined(M().outs)
      ensures ok ==> M().outs == Extend(old(M().outs), text)
      ensures !ok ==> clientGone
    {
      hide Inv, Watch, Joined, Extend;
      ok := true;
      Background();
      ExtendMore(M().outs, "", "");
      if text != "" {
        JoinedExtend(M().outs, text);
        ok := Forward(text);
      }
    }

    /** The copy loop: every read of the worker's stream reaches PMS, unless PMS is gone. */
    method Relay(parts: seq<string>) returns (ok: bool)
      requires Inv() && headersWritten && M().outs != [] && M().sent == Joined(M().outs)
      modifies `now, `pool, `clientGone, `outside, `store, `wroteAny, `lastByte, `log
      ensures Inv() && StandingKept() && Later()
      ensures M().sent == Joined(M().outs)
      ensures ok ==> M().outs == Extend(old(M().outs), Flat(parts))
      ensures !ok ==> clientGone
    {
      hide Inv, Watch, Joined, Extend;
      ok := true;
      ghost var outs := M().outs;
      ExtendMore(outs, "", "");
      assert parts[..0] == [];
      for k := 0 to |parts|
        invariant Inv() && StandingKept() && Later()
        invariant headersWritten && M().outs != [] && M().sent == Joined(M().outs)
        invariant M().outs == Extend(outs, Flat(parts[..k]))
      {
        ok := CopyRead(parts[k]);
        if !ok {
          return;
        }
        assert parts[..k + 1][..k] == parts[..k];
        ExtendMore(outs, Flat(parts[..k]), parts[k]);
      }
      assert parts[..|parts|] == parts;
      Background();
    }

    /** One attempt on worker `u`: pmsStream.streamFrom. */
    method StreamFrom(u: string, recovering: bool, reply: Reply) returns (out: Outcome)
      requires Inv() && M().lateBegins == 0 && M().sent == Joined(M().outs)
      requires u !in broken && (recovering && u in refused ==> u in M().vouched)
      modifies this
      ensures Inv() && refused == old(refused) && now >= old(now) && outside <= old(outside)
      ensures outside == old(outside) ==> OnlyWorse(old(pool), pool)
      ensures M().lateBegins == (if old(clientGone) then 1 else 0) && M().sent <= Joined(M().outs)
      ensures body == old(body)
      ensures M().bodies == if old(clientGone) then old(M().bodies) else old(M().bodies) + [body]
      ensures out.Refusal? ==> M().accepted == old(M().accepted) && headersWritten == old(headersWritten)
      ensures out.Done? || out.Broken? ==> M().accepted == old(M().accepted) + [u]
      ensures out.Broken? ==> headersWritten
      ensures out.ClientGone? ==> clientGone && M().accepted in {old(M().accepted), old(M().accepted) + [u]}
      ensures !out.ClientGone? ==> M().lateBegins == 0 && M().sent == Joined(M().outs)
      ensures broken == if out.Broken? then old(broken) + {u} else old(broken)
      ensures brokeAt == if out.Broken? then now else old(brokeAt)
      ensures out.Done? ==> JustEnded(u)
      ensures M().tried == (if recovering then old(M().tried) else old(M().tried) + [u])
      ensures M().turned == old(M().turned)
      ensures old(clientGone) ==> out.ClientGone?
      ensures !old(clientGone) && !clientGone ==>
                out == if !reply.Accept? then Refusal else if reply.clean then Done else Broken
      ensures out.Refusal? ==> !reply.Accept?
      ensures out.Done? ==> reply.Accept? && reply.clean
      ensures out.Broken? ==> reply.Accept? && !reply.clean
      ensures out.Done? || out.Broken? ==> M().outs == old(M().outs) + [Flat(reply.parts)]
      ensures out.Broken? || (out.Refusal? && reply.Unreachable?) ==> u in pool ==> !pool[u].healthy
      ensures clientGone && (reply.Unreachable? || (reply.Accept? && !reply.clean)) ==> out.ClientGone?
      ensures !out.Broken? && !(out.Refusal? && reply.Unreachable?) && outside == old(outside) ==> pool == old(pool)
    {
      hide Watch, PoolOk, StreamOk, OnlyWorse, Joined, Observe, Carried;
      Start(u, recovering);
      SameIsWorse(pool);
      if clientGone {
        return ClientGone;  // the request never leaves: its context is already cancelled
      }
      Leave(u);
      Background();
      SameIsWorse(pool);
      if reply.Unreachable? {
        if clientGone {
          return ClientGone;
        }
        MarkDown(u);
        return Refusal;
      }
      if reply.Busy? {
        return Refusal;
      }
      out := Serve(u, reply.parts, reply.clean);
    }

    /** The worker accepted: its stream, to the end, to a break, or until PMS is gone. */
    method Serve(u: string, parts: seq<string>, clean: bool) returns (out: Outcome)
      requires Inv() && M().sent == Joined(M().outs)
      modifies this
      ensures Inv() && refused == old(refused) && body == old(body) && now >= old(now) && outside <= old(outside)
      ensures outside == old(outside) ==> OnlyWorse(old(pool), pool)
      ensures M().lateBegins == old(M().lateBegins) && M().bodies == old(M().bodies)
      ensures M().sent <= Joined(M().outs) && M().accepted == old(M().accepted) + [u]
      ensures out.Done? || out.Broken? || (out.ClientGone? && clientGone)
      ensures !out.ClientGone? ==> M().sent == Joined(M().outs)
      ensures headersWritten && broken == if out.Broken? then old(broken) + {u} else old(broken)
      ensures brokeAt == if out.Broken? then now else old(brokeAt)
      ensures out.Done? ==> JustEnded(u)
      ensures M().tried == old(M().tried) && M().turned == old(M().turned)
      ensures !out.ClientGone? ==> out == (if clean then Done else Broken) && M().outs == old(M().outs) + [Flat(parts)]
      ensures clientGone && !clean ==> out.ClientGone?
      ensures out.Broken? ==> u in pool ==> !pool[u].healthy
      ensures !out.Broken? && outside == old(outside) ==> pool == old(pool)
    {
      hide Inv, Watch, OnlyWorse, Joined, Extend, Flat;
      SameIsWorse(pool);
      FirstText(M().outs, Flat(parts));
      var ok := OpenStream(u);
      if !ok {
        return ClientGone;
      }
      ok := Relay(parts);
      SameIsWorse(pool);
      if !ok {
        return ClientGone;
      }
      if clean {
        NoteEnded(u);
        return Done;
      }
      if clientGone {
        return ClientGone;
      }
      MarkDown(u);
      Break(u);
      return Broken;
    }

    /** The last thing on the log is the end of this worker's stream. */
    ghost predicate JustEnded(u: string)
      reads `log
    {
      log != [] && log[|log| - 1] == Ended(u)
    }

    ghost method NoteEnded(u: string)
      requires Inv()
      modifies `log
      ensures Inv() && M() == old(M()) && JustEnded(u)
    {
      hide Watch, PoolOk, Carried;
      Note(Ended(u));
    }

    /** The one late ticket: the client hangs up after a worker was picked and before its ticket. */
    method HangUpThenStream(u: string, recovering: bool, reply: Reply) returns (out: Outcome)
      requires Inv() && !clientGone && M().lateBegins == 0 && M().sent == Joined(M().outs)
      requires u !in broken && (recovering && u in refused ==> u in M().vouched)
      modifies this
      ensures Inv() && out.ClientGone? && M().lateBegins == 1 && M().bodies == old(M().bodies)
    {
      hide Inv, Watch;
      HangUp();
      out := StreamFrom(u, recovering, reply);
    }

    method Start(u: string, recovering: bool)
      requires Inv() && u !in broken && (recovering && u in refused ==> u in M().vouched)
      modifies `log
      ensures Inv()
      ensures M() == old(M()).(lateBegins := old(M()).lateBegins + if clientGone then 1 else 0,
                               tried := if recovering then old(M()).tried else old(M()).tried + [u])
    {
      hide Watch, PoolOk, Carried;
      Note(Begin(u, recovering));
    }

    method Leave(u: string)
      requires Inv() && !clientGone
      modifies `log
      ensures Inv() && M() == old(M()).(bodies := old(M()).bodies + [body])
    {
      CarriedSent(M().bodies, args, body);
      hide Watch, PoolOk, Carried;
      Note(Request(u, body));
    }

    /** withResume: the argv to send next picks up at the newest usable checkpoint. */
    method WithResume()
      requires Inv()
      modifies `body, `store
      ensures Inv()
      ensures var step := CheckpointCache.ResumeStep(old(store), old(body), now, ttl);
              body == step.args && store == step.store
    {
      CarriedResumed(M().bodies, args, body, store, now, ttl);
      hide Watch, PoolOk, StreamOk, Carried, CheckpointCache.ResumeStep;
      var cache := new CheckpointCache.Cache(ttl);
      cache.m := store;
      var resumed: bool;
      body, resumed := cache.ResumeIfApplicable(body, now);
      store := cache.m;
    }

    method Break(u: string)
      requires Inv()
      modifies `log, `broken, `brokeAt
      ensures Inv() && broken == old(broken) + {u} && M() == old(M()).(broken := broken) && brokeAt == now
    {
      hide Watch, PoolOk, Carried;
      Note(Broke(u));
      broken, brokeAt := broken + {u}, now;
    }

    // -------------------------------------------------------------- picking a worker

    /** schedule(): the healthy workers, each once, in some order of preference. */
    method Schedule() returns (order: seq<string>)
      requires Inv()
      ensures Distinct(order) && forall u :: u in order <==> u in pool && pool[u].healthy
    {
      hide Inv;
      order := [];
      var rest := set u | u in pool && pool[u].healthy;
      while rest != {}
        invariant Distinct(order)
        invariant forall u :: u in order ==> u !in rest
        invariant forall u :: u in order || u in rest <==> u in pool && pool[u].healthy
        decreases |rest|
      {
        var u :| u in rest;
        order := order + [u];
        rest := rest - {u};
      }
    }

    /** The first scheduled worker this session may still use. */
    method Pick() returns (next: Option<string>)
      requires Inv()
      ensures next.Some? ==> next.value in Eligible(pool, broken, refused)
      ensures next.None? ==> Eligible(pool, broken, refused) == {}
    {
      hide Inv;
      var order := Schedule();
      for k := 0 to |order|
        invariant forall i :: 0 <= i < k ==> order[i] !in Eligible(pool, broken, refused)
      {
        var u := order[k];
        if u !in broken && (u in refused ==> pool[u].lastProbeStart > refused[u]) {
          return Some(u);
        }
      }
      AllExcluded(order, Eligible(pool, broken, refused));
      next := None;
    }

    /** Re-resolve DNS and probe the whole pool now; a network round trip takes time. */
    method Rediscover()
      requires Inv()
      modifies `now, `pool, `clientGone, `store, `log
      ensures Inv() && StreamKept() && now > old(now)
      ensures forall u :: u in pool && pool[u].healthy ==> pool[u].lastProbeStart > old(now)
    {
      hide Inv, Watch;
      Tick();
      Advance(1);
      var changes: int := *;
      while changes > 0
        invariant Inv() && StreamKept() && now > old(now)
      {
        PoolUpdate();
        changes := changes - 1;
      }
      var todo := pool.Keys;
      while todo != {}
        invariant Inv() && StreamKept() && now > old(now) && todo <= pool.Keys
        invariant forall u :: u in pool && pool[u].healthy && u !in todo ==> pool[u].lastProbeStart > old(now)
        decreases |todo|
      {
        var u :| u in todo;
        var decoded: bool, healthy: bool := *, *;
        FinishProbe(u, now, decoded, healthy);
        todo := todo - {u};
      }
      var leaves: bool := *;
      if leaves {
        HangUp();
      }
    }

    method Advance(ticks: nat)
      requires Inv()
      modifies `now
      ensures Inv() && now == old(now) + ticks
    {
      now := now + ticks;
    }

    /** One second, or any positive wait. */
    method Sleep()
      requires Inv()
      modifies `now, `waited
      ensures Inv() && now == old(now) + 1 && waited == old(waited) + 1
    {
      now, waited := now + 1, waited + 1;
    }

    /** waitForRecoveryWorker: try the pool, then rediscover, once a second until the deadline. */
    method WaitForRecoveryWorker(deadline: nat) returns (next: Option<string>, ghost probed: bool)
      requires Inv()
      modifies `now, `pool, `clientGone, `outside, `store, `log, `waited
      ensures Inv() && StreamKept() && now >= old(now) && outside <= old(outside)
      ensures next.Some? ==> next.value in Eligible(pool, broken, refused)
      ensures next.None? ==> clientGone || (now >= deadline && Eligible(pool, broken, refused) == {})
      ensures probed ==> old(now) < deadline && now > old(now)
      ensures !probed && outside == old(outside) ==> pool == old(pool)
      ensures !probed ==> waited == old(waited)
      ensures probed && outside == old(outside) ==>
                forall u :: u in pool && pool[u].healthy ==> pool[u].lastProbeStart > old(now)
    {
      hide Inv, Watch, Eligible;
      probed := false;
      while true
        invariant Inv() && StreamKept() && now >= old(now) && outside <= old(outside)
        invariant probed ==> old(now) < deadline && now > old(now)
        invariant !probed && outside == old(outside) ==> pool == old(pool)
        invariant !probed ==> waited == old(waited)
        invariant probed && outside == old(outside) ==>
                    forall u :: u in pool && pool[u].healthy ==> pool[u].lastProbeStart > old(now)
        decreases if now < deadline then deadline - now else 0
      {
        label top:
        Background();
        next := Pick();
        if next.Some? || now >= deadline || clientGone {
          return;
        }
        Rediscover();
        probed := true;
        next := Pick();
        if next.Some? || clientGone {
          return;
        }
        Sleep();
      }
    }

    /**
     Whom recovery may pick, told from the log: a healthy worker that has not broken and has not
     refused during recovery, or was probed since. Refusals before recovery do not count.
     */
    lemma EligibleMeans(u: string)
      requires Inv()
      ensures u in Eligible(pool, broken, refused)
              <==> && u in pool && pool[u].healthy && Broke(u) !in log
                   && var r := LastRefusal(log, u); r < 0 || pool[u].lastProbeStart > log[r].at
    {
      hide Watch, PoolOk, StreamOk, Carried, Barred;
      VouchedMeans(log, u);
      BrokenMeans(log, u);
    }

    // -------------------------------------------------------------- recovery

    /** Recovery's own bookkeeping: every worker that accepted has broken since. */
    ghost predicate Recovering(moves: nat)
      reads this
    {
      && Inv() && M().lateBegins == 0 && M().sent == Joined(M().outs)
      && headersWritten && |M().accepted| == moves > 0 && Distinct(M().accepted)
      && forall u :: u in M().accepted <==> u in broken
    }

    /** What is so when a session ends for this reason. */
    ghost predicate EndsAs(end: End, deadline: nat)
      reads this
    {
      match end
      case StreamEnded => M().accepted != [] && JustEnded(M().accepted[|M().accepted| - 1])
      case ClientLeft => clientGone
      case Exhausted => |M().accepted| == 1 + MAX_RECOVERIES && forall u :: u in M().accepted ==> u in broken
      case NoWorker => M().accepted != [] && now >= deadline && Eligible(pool, broken, refused) == {}
      case AllRefused => M().accepted == [] && M().errors == 1 && M().turned == M().tried
    }

    /** refused[next.url] = now */
    method Refuse(u: string)
      requires Inv()
      modifies `refused, `log
      ensures Inv() && refused == old(refused)[u := now]
      ensures M() == old(M()).(refusals := refused, vouched := old(M()).vouched - {u}, latest := now)
    {
      hide Watch, PoolOk, Carried;
      RefusalKeepsPool(pool, refused, M().vouched, now, u);
      Note(Refused(u, now, true));
      refused := refused[u := now];
    }

    /** Resume at the newest checkpoint and stream from `u`, which is neither broken nor refused in vain. */
    method TryWorker(u: string, moves: nat) returns (out: Outcome)
      requires Recovering(moves) && u !in broken && (u in refused ==> u in M().vouched)
      modifies this
      ensures out.Refusal? ==> Recovering(moves) && broken == old(broken)
      ensures out.Broken? ==> Recovering(moves + 1)
      ensures out.Done? ==> EndsAs(StreamEnded, 0)
      ensures out.ClientGone? ==> EndsAs(ClientLeft, 0)
      ensures brokeAt == if out.Broken? then now else old(brokeAt)
      ensures Inv() && M().lateBegins <= 1 && M().sent <= Joined(M().outs)
      ensures !clientGone ==> M().sent == Joined(M().outs)
      ensures Distinct(M().accepted) && |M().accepted| <= moves + 1
      ensures M().bodies == if old(clientGone) then old(M().bodies) else old(M().bodies) + [body]
      ensures body == CheckpointCache.ResumeStep(old(store), old(body), old(now), ttl).args
      ensures refused == old(refused) && now >= old(now) && outside <= old(outside)
      ensures outside == old(outside) ==> OnlyWorse(old(pool), pool)
    {
      hide Inv, Watch, OnlyWorse, Joined, CheckpointCache.ResumeStep;
      NewUrl(M().accepted, u);
      WithResume();
      var reply: Reply := *;
      out := StreamFrom(u, true, reply);
    }

    /**
     One turn of a move: find a worker and try it. `over` ends the move, and `again` says that
     the worker accepted and then broke too. Otherwise the worker refused, and either time or
     the background budget was spent, or there is one eligible worker less.
     */
    method Attempt(moves: nat, deadline: nat)
      returns (over: bool, again: bool, end: End, ghost tried: nat, ghost probed: bool)
      requires Recovering(moves) && !clientGone
      modifies this
      ensures over && !again ==> EndsAs(end, deadline) && end in {StreamEnded, ClientLeft, NoWorker}
      ensures brokeAt == if again then now else old(brokeAt)
      ensures !over ==> Recovering(moves) && broken == old(broken) && tried == 1
      ensures again ==> over && Recovering(moves + 1)
      ensures Inv() && M().lateBegins <= 1 && M().sent <= Joined(M().outs)
      ensures !clientGone ==> M().sent == Joined(M().outs)
      ensures Distinct(M().accepted) && |M().accepted| <= moves + 1
      ensures old(M().bodies) <= M().bodies && |M().bodies| <= |old(M().bodies)| + tried
      ensures outside <= old(outside) && now >= old(now)
      ensures probed ==> old(now) < deadline && now > old(now)
      ensures !probed && outside == old(outside) && !over ==>
                |Eligible(pool, broken, refused)| < |old(Eligible(pool, broken, refused))|
      ensures !probed && outside == old(outside) ==> tried <= |old(Eligible(pool, broken, refused))|
    {
      hide Inv, Watch, OnlyWorse, Eligible, Joined;
      over, again, end, tried := true, false, ClientLeft, 0;
      ghost var before, spent := pool, outside;
      var next;
      next, probed := WaitForRecoveryWorker(deadline);
      if next.None? {
        WasAccepted(moves);
        end := if clientGone then ClientLeft else NoWorker;
        return;
      }
      var u := next.value;
      ghost var picked := pool;
      EligibleFacts(u);
      tried := 1;
      var out := TryWorker(u, moves);
      if out.Done? || out.ClientGone? {
        end := if out.Done? then StreamEnded else ClientLeft;
        return;
      }
      if out.Broken? {
        again := true;
        return;
      }
      over := false;
      ghost var wasRefused := refused;
      Refuse(u);
      if !probed && outside == spent {
        assert picked == before;
        AttemptShrinks(before, pool, broken, wasRefused, u, now);
      }
    }

    /**
     One move: attempts under one deadline until a worker accepts or none turns up.
     `again` says the accepted worker broke too. Without fresh probes, no more attempts than
     there were eligible workers.
     */
    method Move(moves: nat, deadline: nat)
      returns (again: bool, end: End, ghost attempts: nat, ghost probed: bool)
      requires Recovering(moves)
      modifies this
      ensures again ==> Recovering(moves + 1)
      ensures !again ==> EndsAs(end, deadline) && end in {StreamEnded, ClientLeft, NoWorker}
      ensures brokeAt == if again then now else old(brokeAt)
      ensures Inv() && M().lateBegins <= 1 && M().sent <= Joined(M().outs)
      ensures !clientGone ==> M().sent == Joined(M().outs)
      ensures Distinct(M().accepted) && |M().accepted| <= moves + 1
      ensures old(M().bodies) <= M().bodies && |M().bodies| <= |old(M().bodies)| + attempts
      ensures outside <= old(outside)
      ensures !probed && outside == old(outside) ==> attempts <= |old(Eligible(pool, broken, refused))|
    {
      hide Inv, Watch, PoolOk, StreamOk, OnlyWorse, Eligible, Joined, Observe;
      attempts, probed, again, end := 0, false, false, ClientLeft;
      while true
        invariant brokeAt == old(brokeAt) && end == ClientLeft
        invariant Recovering(moves) && outside <= old(outside) && !again && old(M().bodies) <= M().bodies
        invariant |M().bodies| <= |old(M().bodies)| + attempts
        invariant !probed && outside == old(outside) ==>
                    attempts + |Eligible(pool, broken, refused)| <= |old(Eligible(pool, broken, refused))|
        decreases outside, if now < deadline then deadline - now else 0, |Eligible(pool, broken, refused)|
      {
        if clientGone {
          return;
        }
        var over;
        ghost var tried, p;
        over, again, end, tried, p := Attempt(moves, deadline);
        attempts := attempts + tried;
        probed := probed || p;
        if over {
          return;
        }
        end := ClientLeft;
      }
    }

    ghost method WasAccepted(moves: nat)
      requires |M().accepted| == moves > 0
      ensures M().accepted != []
    {}

    ghost method EligibleFacts(u: string)
      requires Inv() && u in Eligible(pool, broken, refused)
      ensures u in pool && u !in broken && (u in refused ==> u in M().vouched)
      ensures pool[u].lastProbeStart <= now && (u in refused ==> refused[u] <= now)
      ensures |Eligible(pool, broken, refused)| >= 1
    {
      Smaller({u}, Eligible(pool, broken, refused));
    }

    /** recover(): at most MAX_RECOVERIES moves, each with its own deadline. */
    method Recover(recoveryWait: nat) returns (end: End)
      requires Recovering(1) && brokeAt == now
      modifies this
      ensures EndsAs(end, brokeAt + recoveryWait) && !end.AllRefused?
      ensures InOrderAtEnd() && old(M().bodies) <= M().bodies
      ensures old(OwnBodyFirst()) && old(M().bodies) != [] ==> OwnBodyFirst()
    {
      hide Inv, Watch, Eligible, Joined;
      var moves := 1;
      while moves <= MAX_RECOVERIES
        invariant 1 <= moves <= MAX_RECOVERIES + 1 && Recovering(moves) && old(M().bodies) <= M().bodies
        invariant brokeAt == now
      {
        ghost var attempts, probed;
        var again;
        again, end, attempts, probed := Move(moves, now + recoveryWait);
        if !again {
          return;
        }
        moves := moves + 1;
      }
      end := Exhausted;
    }

    // -------------------------------------------------------------- the whole session

    /** The answer when no worker took the session. */
    method AnswerError()
      requires Inv() && M().accepted == [] && M().lateBegins <= 1 && M().sent == Joined(M().outs)
      modifies `log
      ensures Safe(M()) && M() == old(M()).(headers := 1, errors := 1)
    {
      hide Watch, PoolOk, Carried;
      Note(Error503);
    }

    ghost method FreshFacts()
      requires Inv() && log == []
      ensures M() == IDLE && M().sent == Joined(M().outs)
    {
      hide PoolOk, StreamOk, Carried;
    }

    /** A session that ends in order is safe. */
    ghost method SafeNow()
      requires InOrderAtEnd()
      ensures Safe(M()) && M().errors == 0
    {
      hide Watch, PoolOk, Carried, Joined;
    }

    ghost method BodiesFacts()
      requires Inv()
      ensures forall i :: 0 <= i < |M().bodies| ==> Resumed.Carries(args, M().bodies[i])
    {
      hide Watch, PoolOk, StreamOk;
    }

    ghost method NoteRefused(u: string)
      requires Inv()
      modifies `log
      ensures Inv() && M() == old(M()).(latest := now, turned := old(M()).turned + [u])
    {
      hide Watch, PoolOk, Carried;
      Note(Refused(u, now, false));
    }

    /** No worker has accepted yet. */
    ghost predicate FirstRound()
      reads this
    {
      && Inv() && M().accepted == [] && M().lateBegins == 0 && M().sent == Joined(M().outs)
      && broken == {} && refused == map[] && body == args && OwnBodyFirst()
    }

    ghost predicate OwnBodyFirst()
      reads this
    {
      M().bodies != [] ==> M().bodies[0] == args
    }

    /** The session is over, and in order. */
    ghost predicate InOrderAtEnd()
      reads this
    {
      && Inv() && M().lateBegins <= 1 && M().sent <= Joined(M().outs)
      && (!clientGone ==> M().sent == Joined(M().outs))
      && Distinct(M().accepted) && |M().accepted| <= 1 + MAX_RECOVERIES
    }

    /** One worker of the first schedule. */
    method FirstAttempt(u: string) returns (out: Outcome)
      requires FirstRound()
      modifies this
      ensures OwnBodyFirst()
      ensures out.Refusal? ==>
                FirstRound() && M().tried == old(M().tried) + [u] && M().turned == old(M().turned) + [u]
      ensures out.Broken? ==> Recovering(1) && brokeAt == now && M().bodies != []
      ensures out.Done? ==> InOrderAtEnd() && EndsAs(StreamEnded, 0)
      ensures out.ClientGone? ==> InOrderAtEnd() && EndsAs(ClientLeft, 0)
    {
      hide Inv, Watch, Joined, Eligible, OnlyWorse;
      Background();  // the client may leave before any ticket is taken
      var reply: Reply := *;
      out := StreamFrom(u, false, reply);
      if out.Refusal? {
        NoteRefused(u);
      }
    }

    /**
     dispatchTask, from a fresh session: every run, whatever the environment does, is safe, and
     ends for one of five reasons only; the 503 is sent for the last of them and no other.
     */
    method DispatchTask(recoveryWait: nat) returns (end: End, ghost first: seq<string>)
      requires Inv() && log == [] && broken == {} && refused == map[] && body == args
      modifies this
      ensures Safe(M())
      ensures M().bodies != [] ==> M().bodies[0] == args
      ensures forall i :: 0 <= i < |M().bodies| ==> Resumed.Carries(args, M().bodies[i])
      ensures Distinct(first) && forall u :: u in first <==> u in old(pool) && old(pool)[u].healthy
      ensures EndsAs(end, brokeAt + recoveryWait)
      ensures M().errors > 0 <==> end.AllRefused?
      ensures end.AllRefused? ==> M().turned == first
    {
      FreshFacts();
      hide Inv, Watch, Joined, Safe, EndsAs, Recovering, Eligible, Distinct;
      var order := Schedule();
      first := order;
      assert order[..0] == [];
      if order == [] {
        end := GiveUp();
        return;
      }
      for i := 0 to |order|
        invariant FirstRound() && M().tried == order[..i] && M().turned == order[..i]
      {
        var out := FirstAttempt(order[i]);
        assert order[..i + 1] == order[..i] + [order[i]];
        if out.Broken? {
          end := Recover(recoveryWait);
        }
        if !out.Refusal? {
          if !out.Broken? {
            end := if out.Done? then StreamEnded else ClientLeft;
            AnyDeadline(end, 0, brokeAt + recoveryWait);
          }
          SafeNow();
          BodiesFacts();
          return;
        }
      }
      assert order[..|order|] == order;
      end := GiveUp();
    }

    lemma AnyDeadline(end: End, d: nat, deadline: nat)
      requires EndsAs(end, d) && !end.NoWorker?
      ensures EndsAs(end, deadline)
    {}

    /** Everybody refused: the 503. */
    method GiveUp() returns (end: End)
      requires FirstRound() && M().turned == M().tried
      modifies `log
      ensures Safe(M()) && end.AllRefused? && (forall d :: EndsAs(end, d)) && M().errors > 0
      ensures M().turned == old(M().turned) && OwnBodyFirst()
      ensures forall i :: 0 <= i < |M().bodies| ==> Resumed.Carries(args, M().bodies[i])
    {
      hide Inv, Watch, Joined, Safe, Eligible;
      BodiesFacts();
      AnswerError();
      end := AllRefused;
    }
  }
}
