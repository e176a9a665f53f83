/** What membership does over whole runs of discovery events. */
module PoolRuns {
  import opened Prelude
  import opened Pool

  /** The calls that change the pool, with the clock readings they were given. */
  datatype Op =
    | Resolve(seen: set<string>)
    | ResolveFailed
    | Listed(urls: set<string>)
    | Register(url: string, at: int)
    | Reap(at: int, timeout: int)

  /** What each call does to the three sets, as the pool object's methods promise. */
  function Do(v: Vouched, op: Op): Vouched {
    match op
    case Resolve(seen) => v.(dns := seen)
    case ResolveFailed => v
    case Listed(urls) => v.(list := v.list + urls)
    case Register(u, at) => v.(push := v.push[u := at])
    case Reap(at, timeout) => v.(push := Fresh(v.push, at, timeout))
  }

  function DoAll(v: Vouched, ops: seq<Op>): Vouched
    decreases ops
  {
    if ops == [] then v else DoAll(Do(v, ops[0]), ops[1..])
  }

  method EntriesOf(urls: set<string>) returns (entries: seq<(string, string)>)
    ensures (set k | 0 <= k < |entries| :: entries[k].1) == urls
  {
    entries := [];
    var todo := urls;
    while todo != {}
      invariant todo <= urls && (set k | 0 <= k < |entries| :: entries[k].1) == urls - todo
      decreases |todo|
    {
      var u :| u in todo;
      ListOneMore(entries, u);
      entries := entries + [(u, u)];
      todo := todo - {u};
    }
  }

  /** One discovery event on the pool object. */
  method Drive1(p: WorkerPool, op: Op)
    requires p.Valid()
    modifies p
    ensures p.Valid() && p.vouched == Do(old(p.vouched), op)
  {
    hide Refines, Fresh;
    match op {
      case Resolve(seen) =>
        var hostOf := map u | u in seen :: u;
        assert hostOf.Keys == seen;
        p.Refresh(Some(hostOf));
      case ResolveFailed => p.Refresh(None);
      case Listed(urls) =>
        var entries := EntriesOf(urls);
        p.LoadList(entries);
      case Register(u, at) =>
        var created := p.Register(u, u, at);
      case Reap(at, timeout) => p.ReapPush(at, timeout);
    }
  }

  /** Driving the pool object through any run of calls keeps it a refinement of the three sets. */
  method Drive(p: WorkerPool, ops: seq<Op>)
    requires p.Valid()
    modifies p
    ensures p.Valid() && p.vouched == DoAll(old(p.vouched), ops)
    ensures p.workers.Keys == p.vouched.dns + p.vouched.list + p.vouched.push.Keys
  {
    hide Refines, Do;
    ghost var left, goal := ops, DoAll(p.vouched, ops);
    for i := 0 to |ops|
      invariant p.Valid() && left == ops[i..] && DoAll(p.vouched, left) == goal
    {
      assert left[0] == ops[i] && left[1..] == ops[i + 1..];
      Drive1(p, ops[i]);
      left := left[1..];
    }
    assert left == [];
    RefinesKeys(p.workers, p.vouched);
  }

  lemma ListOneMore(entries: seq<(string, string)>, u: string)
    ensures (set k | 0 <= k < |entries + [(u, u)]| :: (entries + [(u, u)])[k].1)
            == (set k | 0 <= k < |entries| :: entries[k].1) + {u}
  {
    var more := entries + [(u, u)];
    assert more[|entries|].1 == u;
    forall k | 0 <= k < |entries| ensures more[k] == entries[k] {}
  }

  // ---------------------------------------------------------------- who is never removed

  /** A listed worker is in the pool for good, whatever DNS and heartbeats do. */
  lemma {:induction false} ListedStays(v: Vouched, ops: seq<Op>, u: string)
    requires u in v.list
    ensures DoAll(v, ops).By(u) && u in DoAll(v, ops).list
    decreases ops
  {
    if ops != [] { ListedStays(Do(v, ops[0]), ops[1..], u); }
  }

  /** Clock readings along the run never go back, and the run starts no earlier than `last`. */
  predicate Ordered(ops: seq<Op>, last: int)
    decreases ops
  {
    ops == [] ||
    match ops[0]
    case Register(_, at) => at >= last && Ordered(ops[1..], at)
    case Reap(at, _) => at >= last && Ordered(ops[1..], at)
    case _ => Ordered(ops[1..], last)
  }

  /** The heartbeats of `u` after one at `last` come at most `gap` apart, the one at `end` included. */
  predicate Beats(ops: seq<Op>, u: string, last: int, gap: int, end: int)
    decreases ops
  {
    if ops == [] then end - last <= gap
    else match ops[0]
      case Register(w, at) =>
        if w == u then at - last <= gap && Beats(ops[1..], u, at, gap, end) else Beats(ops[1..], u, last, gap, end)
      case _ => Beats(ops[1..], u, last, gap, end)
  }

  /** Every reap of the run uses this timeout and happens no later than `end`. */
  predicate Reaps(ops: seq<Op>, timeout: int, end: int) {
    forall k :: 0 <= k < |ops| && ops[k].Reap? ==> ops[k].timeout == timeout && ops[k].at <= end
  }

  /** The next heartbeat of `u` falls within the gap, and no clock reading before it lies after it. */
  lemma {:induction false} ReadBeforeNextBeat(ops: seq<Op>, u: string, last: int, gap: int, end: int, now: int)
    requires Beats(ops, u, last, gap, end) && Ordered(ops, now) && now <= end
    ensures now - last <= gap
    decreases ops
  {
    if ops != [] {
      match ops[0]
      case Register(w, at) =>
        if w != u && at <= end { ReadBeforeNextBeat(ops[1..], u, last, gap, end, at); }
        if w != u && at > end { LateRun(ops[1..], u, last, gap, end, at); }
      case Reap(at, _) =>
        if at <= end {
          ReadBeforeNextBeat(ops[1..], u, last, gap, end, at);
        } else {
          LateRun(ops[1..], u, last, gap, end, at);
        }
      case Resolve(_) => ReadBeforeNextBeat(ops[1..], u, last, gap, end, now);
      case ResolveFailed => ReadBeforeNextBeat(ops[1..], u, last, gap, end, now);
      case Listed(_) => ReadBeforeNextBeat(ops[1..], u, last, gap, end, now);
    }
  }

  /** Past the end, the same bound follows from the end itself or from a later heartbeat. */
  lemma {:induction false} LateRun(ops: seq<Op>, u: string, last: int, gap: int, end: int, now: int)
    requires Beats(ops, u, last, gap, end) && Ordered(ops, now) && end < now
    ensures end - last <= gap
    decreases ops
  {
    if ops != [] {
      match ops[0]
      case Register(w, at) => if w != u { LateRun(ops[1..], u, last, gap, end, at); }
      case Reap(at, _) => LateRun(ops[1..], u, last, gap, end, at);
      case Resolve(_) => LateRun(ops[1..], u, last, gap, end, now);
      case ResolveFailed => LateRun(ops[1..], u, last, gap, end, now);
      case Listed(_) => LateRun(ops[1..], u, last, gap, end, now);
    }
  }

  /** A worker whose heartbeats are never more than the timeout apart is never removed. */
  lemma {:induction false} BeatingStays(v: Vouched, ops: seq<Op>, u: string, timeout: int, now: int, end: int)
    requires u in v.push && v.push[u] <= now
    requires Ordered(ops, now) && Beats(ops, u, v.push[u], timeout, end) && Reaps(ops, timeout, end)
    ensures u in DoAll(v, ops).push && DoAll(v, ops).By(u)
    decreases ops
  {
    if ops != [] {
      var rest, w := ops[1..], Do(v, ops[0]);
      assert Reaps(rest, timeout, end) by {
        forall k | 0 <= k < |rest| && rest[k].Reap?
          ensures rest[k].timeout == timeout && rest[k].at <= end
        {
          assert ops[k + 1] == rest[k];
        }
      }
      match ops[0]
      case Register(x, at) => BeatingStays(w, rest, u, timeout, at, end);
      case Reap(at, t) =>
        assert ops[0].timeout == timeout && ops[0].at <= end;
        ReadBeforeNextBeat(rest, u, v.push[u], timeout, end, at);
        BeatingStays(w, rest, u, timeout, at, end);
      case Resolve(_) => BeatingStays(w, rest, u, timeout, now, end);
      case ResolveFailed => BeatingStays(w, rest, u, timeout, now, end);
      case Listed(_) => BeatingStays(w, rest, u, timeout, now, end);
    }
  }

  // ---------------------------------------------------------------- what a run leaves

  lemma {:induction false} RunsOn(v: Vouched, a: seq<Op>, b: seq<Op>)
    ensures DoAll(v, a + b) == DoAll(DoAll(v, a), b)
    decreases a
  {
    hide Do;
    if a == [] {
      assert a + b == b;
    } else {
      RunsOn(Do(v, a[0]), a[1..], b);
      assert (a + b)[0] == a[0] && (a + b)[1..] == a[1..] + b;
    }
  }

  /** The DNS set is the last answer's; failures in between change nothing. */
  lemma DnsIsLast(v: Vouched, a: seq<Op>, seen: set<string>, b: seq<Op>)
    requires forall k :: 0 <= k < |b| ==> !b[k].Resolve?
    ensures DoAll(v, b).dns == v.dns
    ensures DoAll(v, a + [Resolve(seen)] + b).dns == seen
  {
    hide DoAll;
    NoAnswer(v, b);
    RunsOn(v, a + [Resolve(seen)], b);
    RunsOn(v, a, [Resolve(seen)]);
    OneOp(DoAll(v, a), Resolve(seen));
    NoAnswer(DoAll(v, a + [Resolve(seen)]), b);
  }

  lemma OneOp(v: Vouched, op: Op)
    ensures DoAll(v, [op]) == Do(v, op)
  {
    assert [op][1..] == [];
  }

  lemma {:induction false} NoAnswer(v: Vouched, ops: seq<Op>)
    requires forall k :: 0 <= k < |ops| ==> !ops[k].Resolve?
    ensures DoAll(v, ops).dns == v.dns
    decreases ops
  {
    if ops != [] {
      assert !ops[0].Resolve?;
      NoAnswer(Do(v, ops[0]), ops[1..]);
    }
  }

  /** Listed are exactly the urls that some list named, or that were listed before. */
  lemma {:induction false} ListedExactly(v: Vouched, ops: seq<Op>, u: string)
    ensures u in DoAll(v, ops).list <==> u in v.list || exists k :: 0 <= k < |ops| && ops[k].Listed? && u in ops[k].urls
    decreases ops
  {
    if ops != [] {
      var rest := ops[1..];
      ListedExactly(Do(v, ops[0]), rest, u);
      assert forall k :: 0 <= k < |rest| ==> rest[k] == ops[k + 1];
      if exists k :: 0 <= k < |ops| && ops[k].Listed? && u in ops[k].urls {
        var k :| 0 <= k < |ops| && ops[k].Listed? && u in ops[k].urls;
        if k > 0 {
          assert rest[k - 1] == ops[k];
        }
      }
    }
  }

  /** After its last heartbeat a worker is pushed exactly as long as no reap finds it older than the timeout. */
  lemma {:induction false} PushedExactly(v: Vouched, ops: seq<Op>, u: string)
    requires u in v.push && forall k :: 0 <= k < |ops| && ops[k].Register? ==> ops[k].url != u
    ensures u in DoAll(v, ops).push
            <==> forall k :: 0 <= k < |ops| && ops[k].Reap? ==> ops[k].at - v.push[u] <= ops[k].timeout
    ensures u in DoAll(v, ops).push ==> DoAll(v, ops).push[u] == v.push[u]
    decreases ops
  {
    if ops != [] {
      var rest, w := ops[1..], Do(v, ops[0]);
      assert forall k :: 0 <= k < |rest| ==> rest[k] == ops[k + 1];
      assert forall k :: 1 <= k < |ops| ==> ops[k] == rest[k - 1];
      if u in w.push {
        PushedExactly(w, rest, u);
      } else {
        NotPushed(w, rest, u);
      }
    }
  }

  lemma {:induction false} NotPushed(v: Vouched, ops: seq<Op>, u: string)
    requires u !in v.push && forall k :: 0 <= k < |ops| && ops[k].Register? ==> ops[k].url != u
    ensures u !in DoAll(v, ops).push
    decreases ops
  {
    if ops != [] {
      var rest := ops[1..];
      assert forall k :: 0 <= k < |rest| ==> rest[k] == ops[k + 1];
      NotPushed(Do(v, ops[0]), rest, u);
    }
  }

  /** So a heartbeat puts the worker in at its own time, whatever came before. */
  lemma Heartbeat(v: Vouched, a: seq<Op>, u: string, at: int, b: seq<Op>)
    requires forall k :: 0 <= k < |b| && b[k].Register? ==> b[k].url != u
    ensures var push := DoAll(v, a + [Register(u, at)] + b).push;
            && (u in push <==> forall k :: 0 <= k < |b| && b[k].Reap? ==> b[k].at - at <= b[k].timeout)
            && (u in push ==> push[u] == at)
  {
    hide DoAll;
    RunsOn(v, a + [Register(u, at)], b);
    RunsOn(v, a, [Register(u, at)]);
    OneOp(DoAll(v, a), Register(u, at));
    PushedExactly(DoAll(v, a + [Register(u, at)]), b, u);
  }
}
