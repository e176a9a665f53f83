/**
 The events of one dispatched session, and a monitor that folds them into the
 facts the safety claims are about.
 */
module SessionLog {
  import opened Prelude
  import opened Seam
  import Resume

  datatype Event =
    | Gone                                             // the PMS side went away
    | Begin(url: string, recovering: bool)             // a dispatch ticket is taken for this worker
    | Request(url: string, body: seq<Resume.Tok>)      // a request with this argv leaves for this worker
    | Refused(url: string, at: nat, recovering: bool)  // the worker did not accept
    | Accepted(url: string)
    | Header                                           // a worker's response header goes to PMS
    | Bytes(text: string)                              // upstream bytes forwarded to PMS
    | Newline                                          // the seam between two workers
    | Broke(url: string)                               // an accepted worker's stream failed
    | Ended(url: string)                               // an accepted worker's stream came to its end
    | Error503                                         // the "all workers at capacity" answer
    | Probe(url: string, start: nat, healthy: bool)    // a capability probe, completed

  datatype Monitor = Monitor(
    gone: bool,
    accepted: seq<string>,      // in order of acceptance
    outs: seq<string>,          // what each accepted worker produced
    sent: string,               // what reached PMS
    broken: set<string>,
    headers: nat,               // header writes, the error answer included
    errors: nat,
    refusals: map<string, nat>, // latest refusal during recovery
    vouched: set<string>,       // refused, then healthy by a probe started after the refusal
    lateBegins: nat,            // tickets taken after the client was gone
    lateRequest: bool,          // a request left after the client was gone
    reused: bool,               // a ticket was taken for a broken worker
    spun: bool,                 // a refused worker was retried without being vouched for
    latest: nat,                // time of the last refusal
    unordered: bool,            // a refusal was logged with an earlier time than one before it
    bodies: seq<seq<Resume.Tok>>, // the argv of each request, in order
    tried: seq<string>,         // tickets taken before recovery, in order
    turned: seq<string>)        // refusals before recovery, in order

  const IDLE := Monitor(false, [], [], "", {}, 0, 0, map[], {}, 0, false, false, false, 0, false, [], [], [])

  function Extend(outs: seq<string>, text: string): seq<string> {
    if outs == [] then outs else outs[..|outs| - 1] + [outs[|outs| - 1] + text]
  }

  function Observe(m: Monitor, e: Event): Monitor {
    match e
    case Gone => m.(gone := true)
    case Begin(u, recovering) =>
      m.(lateBegins := m.lateBegins + if m.gone then 1 else 0,
         reused := m.reused || u in m.broken,
         spun := m.spun || (recovering && u in m.refusals && u !in m.vouched),
         tried := if recovering then m.tried else m.tried + [u])
    case Request(u, body) => m.(lateRequest := m.lateRequest || m.gone, bodies := m.bodies + [body])
    case Refused(u, at, recovering) =>
      var n := m.(latest := at, unordered := m.unordered || at < m.latest);
      if recovering then n.(refusals := n.refusals[u := at], vouched := n.vouched - {u})
      else n.(turned := n.turned + [u])
    case Accepted(u) => m.(accepted := m.accepted + [u], outs := m.outs + [""])
    case Header => m.(headers := m.headers + 1)
    case Bytes(text) => m.(sent := m.sent + text, outs := Extend(m.outs, text))
    case Newline => m.(sent := m.sent + [LF])
    case Broke(u) => m.(broken := m.broken + {u})
    case Ended(_) => m
    case Error503 => m.(headers := m.headers + 1, errors := m.errors + 1)
    case Probe(u, start, healthy) =>
      if healthy && u in m.refusals && start > m.refusals[u] then m.(vouched := m.vouched + {u}) else m
  }

  function Watch(log: seq<Event>): Monitor {
    if log == [] then IDLE else Observe(Watch(log[..|log| - 1]), log[|log| - 1])
  }

  lemma WatchAppend(log: seq<Event>, e: Event)
    ensures Watch(log + [e]) == Observe(Watch(log), e)
  {
    assert (log + [e])[..|log|] == log;
  }

  /** What each event does to the fields the next section reads. */
  lemma ObserveParts(m: Monitor, e: Event)
    ensures Observe(m, e).gone == (m.gone || e.Gone?)
    ensures Observe(m, e).broken == if e.Broke? then m.broken + {e.url} else m.broken
    ensures Observe(m, e).reused == (m.reused || (e.Begin? && e.url in m.broken))
    ensures Observe(m, e).lateRequest == (m.lateRequest || (e.Request? && m.gone))
    ensures Observe(m, e).lateBegins == m.lateBegins + if e.Begin? && m.gone then 1 else 0
  {
    match e
    case Gone => case Begin(_, _) => case Request(_, _) => case Refused(_, _, _) => case Accepted(_) => case Header =>
    case Bytes(_) => case Newline => case Broke(_) => case Ended(_) => case Error503 => case Probe(_, _, _) =>
  }

  lemma ObserveRetry(m: Monitor, e: Event)
    ensures Observe(m, e).spun == (m.spun || (e.Begin? && e.recovering && e.url in m.refusals && e.url !in m.vouched))
    ensures Observe(m, e).refusals == if e.Refused? && e.recovering then m.refusals[e.url := e.at] else m.refusals
    ensures Observe(m, e).vouched ==
            if e.Refused? && e.recovering then m.vouched - {e.url}
            else if e.Probe? && e.healthy && e.url in m.refusals && e.start > m.refusals[e.url] then m.vouched + {e.url}
            else m.vouched
  {
    match e
    case Gone => case Begin(_, _) => case Request(_, _) => case Refused(_, _, _) => case Accepted(_) => case Header =>
    case Bytes(_) => case Newline => case Broke(_) => case Ended(_) => case Error503 => case Probe(_, _, _) =>
  }

  /** Environment events touch nothing but `gone` and `vouched`. */
  lemma ObserveEnvironment(m: Monitor, e: Event)
    requires e.Gone? || e.Probe?
    ensures Observe(m, e) == m.(gone := m.gone || e.Gone?, vouched := Observe(m, e).vouched)
  {}

  // ---------------------------------------------------------------- what the flags mean on the log itself

  /** A broken worker shows up in the monitor exactly when the log says so. */
  lemma {:induction false} BrokenMeans(log: seq<Event>, u: string)
    ensures u in Watch(log).broken <==> Broke(u) in log
  {
    hide Observe;
    if log != [] {
      var init, e := log[..|log| - 1], log[|log| - 1];
      ObserveParts(Watch(init), e);
      BrokenMeans(init, u);
      assert log == init + [e];
    }
  }

  /** Before recovery, a worker was begun, or turned the session down, exactly when the log says so. */
  lemma {:induction false} FirstRoundMeans(log: seq<Event>, u: string)
    ensures u in Watch(log).tried <==> Begin(u, false) in log
    ensures u in Watch(log).turned <==> exists at :: Refused(u, at, false) in log
  {
    hide Observe;
    if log != [] {
      var init, e := log[..|log| - 1], log[|log| - 1];
      ObserveFirst(Watch(init), e);
      FirstRoundMeans(init, u);
      assert log == init + [e];
      if e.Refused? && e.url == u && !e.recovering {
        assert Refused(u, e.at, false) in log;
      }
      if u in Watch(init).turned {
        var at :| Refused(u, at, false) in init;
        assert Refused(u, at, false) in log;
      }
    }
  }

  lemma ObserveFirst(m: Monitor, e: Event)
    ensures Observe(m, e).tried == if e.Begin? && !e.recovering then m.tried + [e.url] else m.tried
    ensures Observe(m, e).turned == if e.Refused? && !e.recovering then m.turned + [e.url] else m.turned
  {
    match e
    case Gone => case Begin(_, _) => case Request(_, _) => case Refused(_, _, _) => case Accepted(_) => case Header =>
    case Bytes(_) => case Newline => case Broke(_) => case Ended(_) => case Error503 => case Probe(_, _, _) =>
  }

  predicate UsedAfterBreaking(log: seq<Event>) {
    exists i, j :: 0 <= i < j < |log| && log[i].Broke? && log[j].Begin? && log[i].url == log[j].url
  }

  lemma {:induction false} ReusedMeans(log: seq<Event>)
    ensures Watch(log).reused <==> UsedAfterBreaking(log)
  {
    hide Observe;
    if log != [] {
      var n := |log| - 1;
      var init, e := log[..n], log[n];
      ObserveParts(Watch(init), e);
      ReusedMeans(init);
      if UsedAfterBreaking(init) {
        var i, j :| 0 <= i < j < n && init[i].Broke? && init[j].Begin? && init[i].url == init[j].url;
        assert log[i] == init[i] && log[j] == init[j];
      }
      if e.Begin? {
        BrokenMeans(init, e.url);
        if Broke(e.url) in init {
          var i :| 0 <= i < n && init[i] == Broke(e.url);
          assert log[i].Broke? && log[n].Begin? && log[i].url == log[n].url;
        }
      }
      if UsedAfterBreaking(log) {
        var i, j :| 0 <= i < j < |log| && log[i].Broke? && log[j].Begin? && log[i].url == log[j].url;
        assert init[i] == log[i] == Broke(log[i].url);
        if j < n { assert init[j] == log[j]; }
      }
    }
  }

  predicate RequestAfterGone(log: seq<Event>) {
    exists i, j :: 0 <= i < j < |log| && log[i].Gone? && log[j].Request?
  }

  lemma {:induction false} GoneMeans(log: seq<Event>)
    ensures Watch(log).gone <==> Gone in log
  {
    hide Observe;
    if log != [] {
      var init, e := log[..|log| - 1], log[|log| - 1];
      ObserveParts(Watch(init), e);
      GoneMeans(init);
      assert log == init + [e];
    }
  }

  /** The tickets taken after the client left. */
  function LateTickets(log: seq<Event>): set<int> {
    set j | 0 <= j < |log| && log[j].Begin? && exists i :: 0 <= i < j && log[i].Gone?
  }

  lemma OneMoreLate(init: seq<Event>, e: Event)
    ensures LateTickets(init + [e]) == LateTickets(init) + if e.Begin? && Gone in init then {|init|} else {}
  {
    var log := init + [e];
    assert forall j :: 0 <= j < |init| ==> log[j] == init[j];
    if Gone in init {
      var i :| 0 <= i < |init| && init[i] == Gone;
      assert log[i].Gone?;
    }
  }

  /** The count says how many there are. */
  lemma {:induction false} LateBeginsMean(log: seq<Event>)
    ensures Watch(log).lateBegins == |LateTickets(log)|
  {
    hide Observe, LateTickets;
    if log == [] {
      NoneLate();
    } else {
      var init, e := log[..|log| - 1], log[|log| - 1];
      ObserveParts(Watch(init), e);
      LateBeginsMean(init);
      GoneMeans(init);
      OneMoreLate(init, e);
      LateBelow(init);
      assert log == init + [e];
    }
  }

  lemma NoneLate()
    ensures LateTickets([]) == {}
  {}

  lemma LateBelow(log: seq<Event>)
    ensures |log| !in LateTickets(log)
  {}

  lemma {:induction false} LateRequestMeans(log: seq<Event>)
    ensures Watch(log).lateRequest <==> RequestAfterGone(log)
  {
    hide Observe;
    if log != [] {
      var n := |log| - 1;
      var init, e := log[..n], log[n];
      ObserveParts(Watch(init), e);
      LateRequestMeans(init);
      GoneMeans(init);
      if RequestAfterGone(init) {
        var i, j :| 0 <= i < j < n && init[i].Gone? && init[j].Request?;
        assert log[i] == init[i] && log[j] == init[j];
      }
      if e.Request? && Gone in init {
        var i :| 0 <= i < n && init[i] == Gone;
        assert log[i].Gone? && log[n].Request?;
      }
      if RequestAfterGone(log) {
        var i, j :| 0 <= i < j < |log| && log[i].Gone? && log[j].Request?;
        assert init[i] == log[i];
        if j < n { assert init[j] == log[j]; }
      }
    }
  }

  /** Refusal times never go back. */
  predicate InOrder(log: seq<Event>) {
    forall i, j :: 0 <= i < j < |log| && log[i].Refused? && log[j].Refused? ==> log[i].at <= log[j].at
  }

  lemma {:induction false} UnorderedMeans(log: seq<Event>)
    requires !Watch(log).unordered
    ensures InOrder(log)
    ensures forall i :: 0 <= i < |log| && log[i].Refused? ==> log[i].at <= Watch(log).latest
  {
    hide Observe;
    if log != [] {
      var n := |log| - 1;
      var init := log[..n];
      ObserveTimes(Watch(init), log[n]);
      UnorderedMeans(init);
      forall i | 0 <= i < n ensures log[i] == init[i] {}
    }
  }

  lemma ObserveTimes(m: Monitor, e: Event)
    ensures Observe(m, e).latest == if e.Refused? then e.at else m.latest
    ensures Observe(m, e).unordered == (m.unordered || (e.Refused? && e.at < m.latest))
  {
    match e
    case Gone => case Begin(_, _) => case Request(_, _) => case Refused(_, _, _) => case Accepted(_) => case Header =>
    case Bytes(_) => case Newline => case Broke(_) => case Ended(_) => case Error503 => case Probe(_, _, _) =>
  }

  predicate ProbedBetween(log: seq<Event>, i: int, j: int, u: string, t: nat) {
    exists k :: 0 <= i < k < j <= |log| && log[k].Probe? && log[k].url == u && log[k].healthy && log[k].start > t
  }

  predicate RefusedInRecovery(e: Event, u: string) {
    e.Refused? && e.recovering && e.url == u
  }

  /** Where the log last says that `u` refused during recovery, or -1. */
  function LastRefusal(log: seq<Event>, u: string): (r: int)
    ensures r == -1 || (0 <= r < |log| && RefusedInRecovery(log[r], u))
    ensures forall i :: r < i < |log| ==> !RefusedInRecovery(log[i], u)
  {
    if log == [] then -1
    else if RefusedInRecovery(log[|log| - 1], u) then |log| - 1
    else LastRefusal(log[..|log| - 1], u)
  }

  /** `u` refused during recovery, and no probe that started later has found it healthy since. */
  predicate Barred(log: seq<Event>, u: string) {
    var r := LastRefusal(log, u);
    r >= 0 && !ProbedBetween(log, r, |log|, u, log[r].at)
  }

  lemma ProbedOn(init: seq<Event>, e: Event, r: nat, u: string, t: nat)
    requires r < |init|
    ensures ProbedBetween(init + [e], r, |init| + 1, u, t)
            <==> ProbedBetween(init, r, |init|, u, t) || (e.Probe? && e.url == u && e.healthy && e.start > t)
  {
    var log := init + [e];
    if ProbedBetween(init, r, |init|, u, t) {
      var k :| r < k < |init| && init[k].Probe? && init[k].url == u && init[k].healthy && init[k].start > t;
      assert log[k] == init[k];
    }
    if e.Probe? && e.url == u && e.healthy && e.start > t {
      assert log[|init|] == e;
    }
    if ProbedBetween(log, r, |log|, u, t) {
      var k :| r < k < |log| && log[k].Probe? && log[k].url == u && log[k].healthy && log[k].start > t;
      if k < |init| {
        assert init[k] == log[k];
      }
    }
  }

  /**
   The monitor's refusals are the last ones during recovery, and a worker is vouched for exactly
   when a probe that started after that refusal found it healthy since.
   */
  lemma {:induction false} VouchedMeans(log: seq<Event>, u: string)
    ensures u in Watch(log).refusals <==> LastRefusal(log, u) >= 0
    ensures LastRefusal(log, u) >= 0 ==> Watch(log).refusals[u] == log[LastRefusal(log, u)].at
    ensures u in Watch(log).vouched <==> LastRefusal(log, u) >= 0 && !Barred(log, u)
  {
    hide Observe, ProbedBetween;
    if log != [] {
      var n := |log| - 1;
      var init, e := log[..n], log[n];
      ObserveRetry(Watch(init), e);
      VouchedMeans(init, u);
      assert log == init + [e];
      if RefusedInRecovery(e, u) {
        NotProbedYet(log, n, u, e.at);
      } else {
        var r := LastRefusal(init, u);
        if r >= 0 {
          assert log[r] == init[r];
          ProbedOn(init, e, r, u, log[r].at);
        }
      }
    }
  }

  lemma NotProbedYet(log: seq<Event>, n: nat, u: string, t: nat)
    requires n + 1 == |log|
    ensures !ProbedBetween(log, n, |log|, u, t)
  {}

  /** Recovery takes a ticket for a worker that is barred at that moment. */
  predicate BarredRetry(log: seq<Event>) {
    exists j :: 0 <= j < |log| && log[j].Begin? && log[j].recovering && Barred(log[..j], log[j].url)
  }

  /** The `spun` flag says exactly that. */
  lemma {:induction false} SpunMeans(log: seq<Event>)
    ensures Watch(log).spun <==> BarredRetry(log)
  {
    hide Observe, Barred;
    if log != [] {
      var n := |log| - 1;
      var init, e := log[..n], log[n];
      ObserveRetry(Watch(init), e);
      SpunMeans(init);
      if e.Begin? {
        VouchedMeans(init, e.url);
        BarredMeans(init, e.url);
      }
      forall j | 0 <= j < n
        ensures log[j] == init[j] && log[..j] == init[..j]
      {}
      if BarredRetry(init) {
        var j :| 0 <= j < n && init[j].Begin? && init[j].recovering && Barred(init[..j], init[j].url);
        assert log[j].Begin? && log[j].recovering && Barred(log[..j], log[j].url);
      }
      if BarredRetry(log) {
        var j :| 0 <= j < |log| && log[j].Begin? && log[j].recovering && Barred(log[..j], log[j].url);
        if j < n {
          assert init[j].Begin? && init[j].recovering && Barred(init[..j], init[j].url);
        }
      }
    }
  }

  lemma BarredMeans(log: seq<Event>, u: string)
    ensures Barred(log, u) ==> LastRefusal(log, u) >= 0
  {}

  /** A probe since the last refusal, started after it, is one since each refusal before. */
  lemma EarlierRefusals(log: seq<Event>, i: nat, u: string)
    requires InOrder(log) && i < |log| && RefusedInRecovery(log[i], u) && !Barred(log, u)
    ensures ProbedBetween(log, i, |log|, u, log[i].at)
  {
    var r := LastRefusal(log, u);
    assert r >= i;
    var k :| r < k < |log| && log[k].Probe? && log[k].url == u && log[k].healthy && log[k].start > log[r].at;
    assert log[k].start > log[i].at;
  }

  // ---------------------------------------------------------------- the claims about one session

  predicate Distinct(s: seq<string>) {
    forall i, j :: 0 <= i < j < |s| ==> s[i] != s[j]
  }

  const MAX_RECOVERIES := 3

  /** Everything promised of a finished session. */
  predicate Safe(m: Monitor) {
    && m.headers <= 1
    && (m.errors > 0 ==> m.errors == 1 && m.accepted == [] && m.sent == "")
    && Distinct(m.accepted) && |m.accepted| <= 1 + MAX_RECOVERIES
    && !m.reused && !m.spun && !m.unordered
    && !m.lateRequest && m.lateBegins <= 1
    && m.sent <= Joined(m.outs)
    && (!m.gone ==> m.sent == Joined(m.outs))
  }

  /** Worker u refused at i during recovery, and recovery takes a ticket for it again at j. */
  predicate RetriedAt(log: seq<Event>, i: int, j: int, u: string) {
    0 <= i < j < |log| && RefusedInRecovery(log[i], u) && log[j] == Begin(u, true)
  }

  /** What a safe session's log never shows. */
  lemma SafeMeans(log: seq<Event>)
    requires Safe(Watch(log))
    ensures !UsedAfterBreaking(log) && !RequestAfterGone(log) && !BarredRetry(log)
    ensures forall i, j, u | RetriedAt(log, i, j, u) :: ProbedBetween(log, i, j, u, log[i].at)
  {
    hide Watch, Barred;
    ReusedMeans(log);
    LateRequestMeans(log);
    UnorderedMeans(log);
    SpunMeans(log);
    forall i, j, u | RetriedAt(log, i, j, u)
      ensures ProbedBetween(log, i, j, u, log[i].at)
    {
      RetryProbed(log, i, j, u);
    }
  }

  lemma RetryProbed(log: seq<Event>, i: nat, j: nat, u: string)
    requires InOrder(log) && !BarredRetry(log) && RetriedAt(log, i, j, u)
    ensures ProbedBetween(log, i, j, u, log[i].at)
  {
    hide Barred;
    var init := log[..j];
    assert init[i] == log[i] && !Barred(init, log[j].url);
    EarlierRefusals(init, i, u);
    var k :| i < k < j && init[k].Probe? && init[k].url == u && init[k].healthy && init[k].start > log[i].at;
    assert log[k] == init[k];
  }

  /** Worker a is busy in the first round; b accepts and breaks; recovery begins at a. */
  function FirstRoundRetry(a: string, b: string, args: seq<Resume.Tok>): seq<Event> {
    [Begin(a, false), Request(a, args), Refused(a, 0, false),
     Begin(b, false), Request(b, args), Accepted(b), Header, Broke(b), Begin(a, true)]
  }

  lemma WatchThree(log: seq<Event>, e: Event, f: Event, g: Event)
    ensures Watch(log + [e, f, g]) == Observe(Observe(Observe(Watch(log), e), f), g)
  {
    hide Observe, Watch;
    WatchAppend(log, e);
    WatchAppend(log + [e], f);
    WatchAppend(log + [e] + [f], g);
    assert log + [e] + [f] + [g] == log + [e, f, g];
  }

  lemma FirstRoundEnds(a: string, b: string, args: seq<Resume.Tok>)
    requires a != b
    ensures Watch(FirstRoundRetry(a, b, args)) == IDLE.(accepted := [b], outs := [""], broken := {b}, headers := 1,
                                                        bodies := [args, args], tried := [a, b], turned := [a])
  {
    hide Watch, Observe;
    var x := [Begin(a, false), Request(a, args), Refused(a, 0, false)];
    var y := [Begin(b, false), Request(b, args), Accepted(b)];
    var z := [Header, Broke(b), Begin(a, true)];
    assert [] + x == x && x + y + z == FirstRoundRetry(a, b, args);
    NothingWatched();
    WatchThree([], x[0], x[1], x[2]);
    BusyStep(a, args);
    WatchThree(x, y[0], y[1], y[2]);
    AcceptStep(b, args, IDLE.(bodies := [args], tried := [a], turned := [a]));
    assert [args] + [args] == [args, args] && [a] + [b] == [a, b];
    WatchThree(x + y, z[0], z[1], z[2]);
    BreakStep(a, b, IDLE.(accepted := [b], outs := [""], bodies := [args, args], tried := [a, b], turned := [a]));
  }

  lemma BusyStep(a: string, args: seq<Resume.Tok>)
    ensures Observe(Observe(Observe(IDLE, Begin(a, false)), Request(a, args)), Refused(a, 0, false))
            == IDLE.(bodies := [args], tried := [a], turned := [a])
  {}

  lemma AcceptStep(b: string, args: seq<Resume.Tok>, m: Monitor)
    requires m == IDLE.(bodies := m.bodies, tried := m.tried, turned := m.turned)
    ensures Observe(Observe(Observe(m, Begin(b, false)), Request(b, args)), Accepted(b))
            == m.(accepted := [b], outs := [""], bodies := m.bodies + [args], tried := m.tried + [b])
  {}

  lemma BreakStep(a: string, b: string, m: Monitor)
    requires a != b
    requires m == IDLE.(accepted := [b], outs := [""], bodies := m.bodies, tried := m.tried, turned := m.turned)
    ensures Observe(Observe(Observe(m, Header), Broke(b)), Begin(a, true)) == m.(broken := {b}, headers := 1)
  {}

  lemma NothingWatched()
    ensures Watch([]) == IDLE
  {}

  /** A refusal before recovery is no bar: a safe session may retry that worker with no probe at all. */
  lemma FirstRefusalIsNoBar(a: string, b: string, args: seq<Resume.Tok>)
    requires a != b
    ensures var log := FirstRoundRetry(a, b, args);
            && Safe(Watch(log))
            && log[2] == Refused(a, 0, false) && log[|log| - 1] == Begin(a, true)
            && forall k :: 0 <= k < |log| ==> !log[k].Probe?
  {
    hide Watch;
    FirstRoundEnds(a, b, args);
    JoinedNext([]);
  }

  /** Bytes of the current worker extend the session's stream. */
  lemma JoinedExtend(outs: seq<string>, text: string)
    requires outs != []
    ensures Joined(Extend(outs, text)) == Joined(outs) + text
    ensures Extend(outs, text) != [] && |Extend(outs, text)| == |outs|
  {
    var init, last := outs[..|outs| - 1], outs[|outs| - 1];
    var e := Extend(outs, text);
    assert e[..|e| - 1] == init && e[|e| - 1] == last + text;
    if |outs| > 1 {
      assert Close(Joined(init)) + (last + text) == Close(Joined(init)) + last + text;
    }
  }

  /** A new worker continues the stream after the seam. */
  lemma JoinedNext(outs: seq<string>)
    ensures Joined(outs + [""]) == if outs == [] then "" else Close(Joined(outs))
    ensures outs == [] ==> Joined(outs) == ""
  {
    var next := outs + [""];
    assert next[..|outs|] == outs;
    if outs != [] {
      assert Close(Joined(outs)) + "" == Close(Joined(outs));
    }
  }
}
