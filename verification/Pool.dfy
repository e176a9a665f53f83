/**
 The worker pool: members are vouched for by DNS, by the static list and by
 their own heartbeats, kept as a bit set per member.
 */
module Pool {
  import opened Prelude

  type Bits = bv8

  const SRC_DNS: Bits := 1
  const SRC_LIST: Bits := 2
  const SRC_PUSH: Bits := 4

  datatype Entry = Entry(host: string, url: string, sources: Bits, lastHeartbeat: int)

  type Members = map<string, Entry>

  /** The three plain sets the bits stand for; heartbeats carry their time. */
  datatype Vouched = Vouched(dns: set<string>, list: set<string>, push: map<string, int>) {
    predicate By(u: string) {
      u in dns || u in list || u in push
    }

    /** Which of the three sets hold `u`. */
    function Sources(u: string): set<Bits> {
      (if u in dns then {SRC_DNS} else {}) + (if u in list then {SRC_LIST} else {})
      + (if u in push then {SRC_PUSH} else {})
    }
  }

  /** The bits set in a source mask. */
  function SourcesOf(s: Bits): set<Bits> {
    set b | b in {SRC_DNS, SRC_LIST, SRC_PUSH} && Has(s, b)
  }

  predicate Has(s: Bits, bit: Bits) {
    s & bit != 0
  }

  /** One member's bits say exactly who vouches for it, and somebody does. */
  predicate EntryOk(u: string, e: Entry, v: Vouched) {
    && e.url == u
    && (Has(e.sources, SRC_DNS) <==> u in v.dns)
    && (Has(e.sources, SRC_LIST) <==> u in v.list)
    && (Has(e.sources, SRC_PUSH) <==> u in v.push)
    && (u in v.push ==> e.lastHeartbeat == v.push[u])
    && e.sources < 8 && e.sources != 0
  }

  /** The pool refines the three sets. */
  ghost predicate Refines(m: Members, v: Vouched) {
    && (forall u :: u in m <==> v.By(u))
    && (forall u :: u in m ==> EntryOk(u, m[u], v))
  }

  // ---------------------------------------------------------------- bit facts

  lemma SetBit(s: Bits, bit: Bits)
    requires bit == SRC_DNS || bit == SRC_LIST || bit == SRC_PUSH
    requires s < 8
    ensures (s | bit) < 8 && s | bit != 0
    ensures Has(s | bit, bit)
    ensures bit != SRC_DNS ==> Has(s | bit, SRC_DNS) == Has(s, SRC_DNS)
    ensures bit != SRC_LIST ==> Has(s | bit, SRC_LIST) == Has(s, SRC_LIST)
    ensures bit != SRC_PUSH ==> Has(s | bit, SRC_PUSH) == Has(s, SRC_PUSH)
  {}

  lemma ClearBit(s: Bits, bit: Bits)
    requires bit == SRC_DNS || bit == SRC_LIST || bit == SRC_PUSH
    requires s < 8
    ensures (s & !bit) < 8
    ensures !Has(s & !bit, bit)
    ensures bit != SRC_DNS ==> Has(s & !bit, SRC_DNS) == Has(s, SRC_DNS)
    ensures bit != SRC_LIST ==> Has(s & !bit, SRC_LIST) == Has(s, SRC_LIST)
    ensures bit != SRC_PUSH ==> Has(s & !bit, SRC_PUSH) == Has(s, SRC_PUSH)
  {}

  lemma NoBits(s: Bits)
    requires s < 8
    ensures s == 0 <==> !Has(s, SRC_DNS) && !Has(s, SRC_LIST) && !Has(s, SRC_PUSH)
  {}

  // ---------------------------------------------------------------- one member at a time

  function Vouch(m: Members, u: string, host: string, bit: Bits): Members {
    if u in m then m[u := m[u].(sources := m[u].sources | bit)] else m[u := Entry(host, u, bit, 0)]
  }

  function Unvouch(m: Members, u: string, bit: Bits): Members {
    if u !in m then m
    else
      var s := m[u].sources & !bit;
      if s == 0 then m - {u} else m[u := m[u].(sources := s)]
  }

  lemma OthersKept(m: Members, n: Members, v: Vouched, w: Vouched, u: string)
    requires Refines(m, v)
    requires forall x :: x != u ==> (x in n <==> x in m) && (x in m ==> n[x] == m[x])
    requires forall x :: x != u ==> (x in v.dns <==> x in w.dns) && (x in v.list <==> x in w.list)
    requires forall x :: x != u ==> (x in v.push <==> x in w.push) && (x in v.push ==> v.push[x] == w.push[x])
    requires (u in n <==> w.By(u)) && (u in n ==> EntryOk(u, n[u], w))
    ensures Refines(n, w)
  {
    hide Has;
    forall x
      ensures (x in n <==> w.By(x)) && (x in n ==> EntryOk(x, n[x], w))
    {
      if x != u && x in m { assert EntryOk(x, m[x], v); }
    }
  }

  lemma VouchEntry(m: Members, v: Vouched, w: Vouched, u: string, host: string, bit: Bits)
    requires Refines(m, v)
    requires (bit == SRC_DNS && w == v.(dns := v.dns + {u})) || (bit == SRC_LIST && w == v.(list := v.list + {u}))
    ensures Refines(Vouch(m, u, host, bit), w)
  {
    if u in m {
      assert EntryOk(u, m[u], v);
      SetBit(m[u].sources, bit);
    } else {
      SetBit(0, bit);
      assert 0 | bit == bit;
    }
    OthersKept(m, Vouch(m, u, host, bit), v, w, u);
  }

  lemma UnvouchEntry(m: Members, v: Vouched, w: Vouched, u: string, bit: Bits)
    requires Refines(m, v)
    requires (bit == SRC_DNS && w == v.(dns := v.dns - {u})) || (bit == SRC_PUSH && w == v.(push := v.push - {u}))
    ensures Refines(Unvouch(m, u, bit), w)
  {
    if u in m {
      assert EntryOk(u, m[u], v);
      ClearBit(m[u].sources, bit);
      NoBits(m[u].sources & !bit);
    }
    OthersKept(m, Unvouch(m, u, bit), v, w, u);
  }

  lemma Heartbeat(m: Members, v: Vouched, u: string, host: string, now: int)
    requires Refines(m, v)
    ensures var n := Vouch(m, u, host, SRC_PUSH);
            Refines(n[u := n[u].(lastHeartbeat := now)], v.(push := v.push[u := now]))
  {
    if u in m {
      assert EntryOk(u, m[u], v);
      SetBit(m[u].sources, SRC_PUSH);
    } else {
      SetBit(0, SRC_PUSH);
      assert 0 | SRC_PUSH == SRC_PUSH;
    }
    var n := Vouch(m, u, host, SRC_PUSH);
    OthersKept(m, n[u := n[u].(lastHeartbeat := now)], v, v.(push := v.push[u := now]), u);
  }

  // ---------------------------------------------------------------- the pool object

  class WorkerPool {
    var workers: Members
    ghost var vouched: Vouched

    ghost predicate Valid()
      reads this
    {
      Refines(workers, vouched)
    }

    constructor ()
      ensures Valid() && workers == map[] && vouched == Vouched({}, {}, map[])
    {
      workers, vouched := map[], Vouched({}, {}, map[]);
    }

    /** Set one discovery bit on a member, adding the member if it is new. */
    method SetSource(url: string, host: string, bit: Bits)
      requires Valid() && (bit == SRC_DNS || bit == SRC_LIST)
      modifies this
      ensures Valid()
      ensures bit == SRC_DNS ==> vouched == old(vouched).(dns := old(vouched).dns + {url})
      ensures bit == SRC_LIST ==> vouched == old(vouched).(list := old(vouched).list + {url})
    {
      hide Refines, Vouch, Has;
      ghost var v := if bit == SRC_DNS then vouched.(dns := vouched.dns + {url})
                     else vouched.(list := vouched.list + {url});
      VouchEntry(workers, vouched, v, url, host, bit);
      if url in workers {
        SetAgain(workers, url, host, bit);
        if !Has(workers[url].sources, bit) {
          workers := workers[url := workers[url].(sources := workers[url].sources | bit)];
        }
      } else {
        NewMember(workers, url, host, bit);
        workers := workers[url := Entry(host, url, bit, 0)];
      }
      vouched := v;
    }

    /** Clear one bit of a member, dropping the member when no bit is left. */
    method ClearSource(url: string, bit: Bits)
      requires Valid() && url in workers && (bit == SRC_DNS || bit == SRC_PUSH)
      modifies this
      ensures Valid() && old(workers.Keys) - {url} <= workers.Keys
      ensures bit == SRC_DNS ==> vouched == old(vouched).(dns := old(vouched).dns - {url})
      ensures bit == SRC_PUSH ==> vouched == old(vouched).(push := old(vouched).push - {url})
    {
      hide Refines, Unvouch, Has;
      ghost var v := if bit == SRC_DNS then vouched.(dns := vouched.dns - {url})
                     else vouched.(push := vouched.push - {url});
      UnvouchEntry(workers, vouched, v, url, bit);
      Dropped(workers, url, bit);
      var s := workers[url].sources & !bit;
      if s == 0 {
        workers := workers - {url};
      } else {
        workers := workers[url := workers[url].(sources := s)];
      }
      vouched := v;
    }

    /** refresh: one DNS answer, as host by url; None when the lookup failed. */
    method Refresh(answer: Option<map<string, string>>)
      requires Valid()
      modifies this
      ensures Valid()
      ensures vouched == match answer case None => old(vouched) case Some(hostOf) => old(vouched).(dns := hostOf.Keys)
    {
      if answer.None? {
        return;
      }
      var hostOf := answer.value;
      AddSeen(hostOf);
      DropUnseen(hostOf);
    }

    method AddSeen(hostOf: map<string, string>)
      requires Valid()
      modifies this
      ensures Valid() && vouched == old(vouched).(dns := old(vouched).dns + hostOf.Keys)
    {
      hide Refines, Has;
      ghost var v := vouched;
      var todo := hostOf.Keys;
      while todo != {}
        invariant todo <= hostOf.Keys && Valid() && vouched == v.(dns := v.dns + (hostOf.Keys - todo))
        decreases |todo|
      {
        var url :| url in todo;
        SetSource(url, hostOf[url], SRC_DNS);
        todo := todo - {url};
      }
    }

    method DropUnseen(hostOf: map<string, string>)
      requires Valid() && hostOf.Keys <= vouched.dns
      modifies this
      ensures Valid() && vouched == old(vouched).(dns := hostOf.Keys)
    {
      hide Refines, Has, Unseen;
      UnseenEmpty(vouched.dns, hostOf.Keys);
      ghost var v := vouched;
      var todo := workers.Keys;
      ghost var looked: set<string> := {};
      RefinesFacts(workers, vouched);
      while todo != {}
        invariant Valid() && vouched == v.(dns := Unseen(v.dns, looked, hostOf.Keys))
        invariant todo !! looked && v.dns <= todo + looked && todo <= workers.Keys
        decreases |todo|
      {
        var url :| url in todo;
        RefinesAt(workers, vouched, url);
        UnseenStep(v.dns, looked, hostOf.Keys, url);
        if Has(workers[url].sources, SRC_DNS) && url !in hostOf {
          ClearSource(url, SRC_DNS);
        }
        todo := todo - {url};
        looked := looked + {url};
      }
      UnseenAll(v.dns, looked, hostOf.Keys);
    }

    /** loadList: each entry vouched for by LIST, existing bits kept. */
    method LoadList(entries: seq<(string, string)>)
      requires Valid()
      modifies this
      ensures Valid()
      ensures vouched == old(vouched).(list := old(vouched).list + set k | 0 <= k < |entries| :: entries[k].1)
    {
      hide Refines;
      ghost var v := vouched;
      for i := 0 to |entries|
        invariant Valid() && vouched == v.(list := v.list + set k | 0 <= k < i :: entries[k].1)
      {
        SetSource(entries[i].1, entries[i].0, SRC_LIST);
      }
    }

    /** register: a heartbeat; true when the worker is new to the pool. */
    method Register(host: string, url: string, now: int) returns (created: bool)
      requires Valid()
      modifies this
      ensures Valid() && created == !old(vouched).By(url)
      ensures vouched == old(vouched).(push := old(vouched).push[url := now])
    {
      hide Refines, Vouch, Has, EntryOk;
      RefinesKeys(workers, vouched);
      Heartbeat(workers, vouched, url, host, now);
      if url in workers {
        SetAgain(workers, url, host, SRC_PUSH);
        var m := workers[url := workers[url].(sources := workers[url].sources | SRC_PUSH)];
        workers := m[url := m[url].(lastHeartbeat := now)];
        created := false;
      } else {
        NewMember(workers, url, host, SRC_PUSH);
        var m := workers[url := Entry(host, url, SRC_PUSH, 0)];
        workers := m[url := m[url].(lastHeartbeat := now)];
        created := true;
      }
      vouched := vouched.(push := vouched.push[url := now]);
    }

    /** reapPush: heartbeats older than the timeout no longer vouch. */
    method ReapPush(now: int, timeout: int)
      requires Valid()
      modifies this
      ensures Valid()
      ensures vouched == old(vouched).(push := Fresh(old(vouched).push, now, timeout))
      ensures forall u :: u in vouched.push <==> u in old(vouched.push) && now - old(vouched.push)[u] <= timeout
      ensures forall u :: u in vouched.push ==> vouched.push[u] == old(vouched.push)[u]
    {
      hide Refines, Has, Fresh, Reaped;
      ReapedNone(vouched.push, now, timeout);
      ghost var v := vouched;
      var todo := workers.Keys;
      ghost var looked: set<string> := {};
      RefinesFacts(workers, vouched);
      while todo != {}
        invariant Valid() && vouched == v.(push := Reaped(v.push, looked, now, timeout))
        invariant todo !! looked && v.push.Keys <= todo + looked && todo <= workers.Keys
        decreases |todo|
      {
        var url :| url in todo;
        RefinesAt(workers, vouched, url);
        ReapedStep(v.push, looked, url, now, timeout);
        if Has(workers[url].sources, SRC_PUSH) && now - workers[url].lastHeartbeat > timeout {
          ClearSource(url, SRC_PUSH);
        }
        todo := todo - {url};
        looked := looked + {url};
      }
      ReapedAll(v.push, looked, now, timeout);
      FreshMeans(v.push, now, timeout);
    }
  }

  /** The DNS set once the members in `looked` have been checked against the answer. */
  function Unseen(dns: set<string>, looked: set<string>, seen: set<string>): set<string> {
    dns - (looked - seen)
  }

  lemma UnseenStep(dns: set<string>, looked: set<string>, seen: set<string>, u: string)
    requires u !in looked
    ensures Unseen(dns, looked + {u}, seen)
            == if u in dns && u !in seen then Unseen(dns, looked, seen) - {u} else Unseen(dns, looked, seen)
    ensures u in dns <==> u in Unseen(dns, looked, seen)
  {}

  lemma UnseenEmpty(dns: set<string>, seen: set<string>)
    ensures Unseen(dns, {}, seen) == dns
  {}

  lemma UnseenAll(dns: set<string>, looked: set<string>, seen: set<string>)
    requires seen <= dns <= looked
    ensures Unseen(dns, looked, seen) == seen
  {}

  /** Heartbeats no older than the timeout. */
  function Fresh(push: map<string, int>, now: int, timeout: int): map<string, int> {
    map u | u in push && now - push[u] <= timeout :: push[u]
  }

  lemma FreshMeans(push: map<string, int>, now: int, timeout: int)
    ensures forall u :: u in Fresh(push, now, timeout) <==> u in push && now - push[u] <= timeout
    ensures forall u :: u in Fresh(push, now, timeout) ==> Fresh(push, now, timeout)[u] == push[u]
  {}

  function Reaped(push: map<string, int>, looked: set<string>, now: int, timeout: int): map<string, int> {
    map u | u in push && (u !in looked || now - push[u] <= timeout) :: push[u]
  }

  lemma ReapedNone(push: map<string, int>, now: int, timeout: int)
    ensures Reaped(push, {}, now, timeout) == push
  {}

  lemma ReapedAll(push: map<string, int>, looked: set<string>, now: int, timeout: int)
    requires push.Keys <= looked
    ensures Reaped(push, looked, now, timeout) == Fresh(push, now, timeout)
  {}

  lemma ReapedStep(push: map<string, int>, looked: set<string>, u: string, now: int, timeout: int)
    requires u !in looked
    ensures Reaped(push, looked + {u}, now, timeout)
            == if u in push && now - push[u] > timeout then Reaped(push, looked, now, timeout) - {u}
               else Reaped(push, looked, now, timeout)
    ensures u in push <==> u in Reaped(push, looked, now, timeout)
    ensures u in push ==> Reaped(push, looked, now, timeout)[u] == push[u]
  {}

  lemma SetAgain(m: Members, u: string, host: string, bit: Bits)
    requires u in m && (bit == SRC_DNS || bit == SRC_LIST || bit == SRC_PUSH)
    ensures Vouch(m, u, host, bit) == m[u := m[u].(sources := m[u].sources | bit)]
    ensures Has(m[u].sources, bit) ==> Vouch(m, u, host, bit) == m
  {
    if Has(m[u].sources, bit) { OrIdle(m[u].sources, bit); }
  }

  lemma OrIdle(s: Bits, bit: Bits)
    requires bit == SRC_DNS || bit == SRC_LIST || bit == SRC_PUSH
    requires Has(s, bit)
    ensures s | bit == s
  {}

  lemma NewMember(m: Members, u: string, host: string, bit: Bits)
    requires u !in m
    ensures Vouch(m, u, host, bit) == m[u := Entry(host, u, bit, 0)]
  {}

  lemma Dropped(m: Members, u: string, bit: Bits)
    requires u in m
    ensures var s := m[u].sources & !bit;
            Unvouch(m, u, bit) == if s == 0 then m - {u} else m[u := m[u].(sources := s)]
  {}

  lemma RefinesFacts(m: Members, v: Vouched)
    requires Refines(m, v)
    ensures v.dns <= m.Keys && v.push.Keys <= m.Keys
  {
    hide EntryOk;
    forall u | u in v.dns || u in v.push ensures u in m { assert v.By(u); }
  }

  /** The keys are exactly the union; an entry's bits are its memberships, and there is one. */
  lemma RefinesKeys(m: Members, v: Vouched)
    requires Refines(m, v)
    ensures m.Keys == v.dns + v.list + v.push.Keys
    ensures forall u :: u in m <==> v.By(u)
    ensures forall u :: u in m ==> m[u].url == u && m[u].sources != 0 && SourcesOf(m[u].sources) == v.Sources(u)
  {
    forall u | u in m
      ensures m[u].url == u && m[u].sources != 0 && SourcesOf(m[u].sources) == v.Sources(u)
    {
      RefinesAt(m, v, u);
    }
    hide EntryOk;
    forall u ensures u in m.Keys <==> u in v.dns + v.list + v.push.Keys { assert u in m <==> v.By(u); }
  }

  lemma RefinesAt(m: Members, v: Vouched, u: string)
    requires Refines(m, v) && u in m
    ensures EntryOk(u, m[u], v)
  {}
}
