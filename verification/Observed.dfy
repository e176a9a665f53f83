/**
 What a pass must not disturb: the filtergraphs and encoder profiles of an argv,
 and the edits of a well-formed argv that leave them alone.
 */
module Observed {
  import opened Search
  import opened Args

  predicate Watched(s: string) {
    s == "-filter_complex" || "-profile" <= s
  }

  /** The watched flags with their values, in order. */
  function Obs(args: Argv): seq<(string, string)> {
    if |args| < 2 then []
    else (if Watched(args[0]) then [(args[0], args[1])] else []) + Obs(args[1..])
  }

  /** A pass leaves the argv well formed, with the same graphs and profiles. */
  ghost predicate Same(args: Argv, r: Argv) {
    Paired(r) && Obs(r) == Obs(args)
  }

  lemma {:induction false} ObsConcat(x: Argv, y: Argv)
    requires x == [] || !Watched(x[|x| - 1])
    ensures Obs(x + y) == Obs(x) + Obs(y)
  {
    hide Watched;
    if x == [] {
      assert x + y == y;
    } else if |x| == 1 {
      assert (x + y)[1..] == y;
      ObsFirst(x[0], y);
    } else {
      assert (x + y)[1..] == x[1..] + y;
      ObsConcat(x[1..], y);
      Assoc(if Watched(x[0]) then [(x[0], x[1])] else [], Obs(x[1..]), Obs(y));
    }
  }

  lemma ObsFirst(t: string, y: Argv)
    requires !Watched(t)
    ensures Obs([t] + y) == Obs(y)
  {
    hide Watched;
    assert ([t] + y)[1..] == y;
  }

  lemma WatchedTakesValue(s: string)
    requires Watched(s)
    ensures TakesValue(s)
  {}

  lemma NotWatched(s: string)
    requires !TakesValue(s)
    ensures !Watched(s)
  {
    hide Watched, TakesValue;
    if Watched(s) {
      WatchedTakesValue(s);
    }
  }

  lemma {:induction false} ObsNothing(m: Argv)
    requires forall k :: 0 <= k < |m| ==> !Watched(m[k])
    ensures Obs(m) == []
  {
    hide Watched;
    if |m| >= 2 {
      ObsNothing(m[1..]);
    }
  }

  lemma ObsParts(x: Argv, m: Argv, y: Argv)
    requires (x == [] || !TakesValue(x[|x| - 1])) && Paired(m)
    ensures Obs(x + m + y) == Obs(x) + Obs(m) + Obs(y)
  {
    hide TakesValue, Watched, Obs;
    if x != [] {
      NotWatched(x[|x| - 1]);
    }
    PairedLast(m);
    if m != [] {
      NotWatched(m[|m| - 1]);
    }
    ObsConcat(x, m);
    if m == [] {
      assert x + m == x;
    }
    ObsConcat(x + m, y);
  }

  /** One stretch of the argv replaced by another that shows the same. */
  lemma Replaced(x: Argv, m: Argv, m': Argv, y: Argv)
    requires Paired(x + m + y) && (x == [] || !TakesValue(x[|x| - 1]))
    requires Paired(m) && Paired(m') && Obs(m') == Obs(m)
    ensures Same(x + m + y, x + m' + y)
    ensures Paired(x) && Paired(y)
  {
    hide TakesValue, Watched, Obs, Paired;
    assert x + m + y == x + (m + y);
    PairedParts(x, m + y);
    PairedLast(m);
    PairedParts(m, y);
    PairedJoin(x, m');
    PairedJoin(x + m', y);
    ObsParts(x, m, y);
    ObsParts(x, m', y);
  }

  lemma PairShows(f: string, v: string)
    requires TakesValue(f) && !Watched(f) && !Dash(v)
    ensures Paired([f, v]) && Obs([f, v]) == []
  {
    hide TakesValue, Watched, Dash;
    ValueIsNoFlag(v);
    NotWatched(v);
    ObsNothing([f, v]);
  }

  lemma TokensShow(ins: Argv)
    requires forall k :: 0 <= k < |ins| ==> !TakesValue(ins[k])
    ensures Paired(ins) && Obs(ins) == []
  {
    hide TakesValue, Watched, Obs;
    forall k | 0 <= k < |ins|
      ensures !Watched(ins[k])
    {
      NotWatched(ins[k]);
    }
    ObsNothing(ins);
  }

  // ---------------------------------------------------------------- edits

  lemma RemovePair(args: Argv, i: nat)
    requires Paired(args) && i < |args| && TakesValue(args[i]) && !Watched(args[i])
    ensures i + 2 <= |args| && Same(args, Remove(args, i, 2))
  {
    hide TakesValue, Watched, Obs, Dash;
    FlagsDash(args[i]);
    BeforeDash(args, i);
    ValueAt(args, i);
    var x, m, y := args[..i], args[i..i + 2], args[i + 2..];
    Cut3(args, i, i + 2);
    assert m == [args[i], args[i + 1]];
    PairShows(args[i], args[i + 1]);
    TokensShow([]);
    Replaced(x, m, [], y);
    assert x + [] + y == Remove(args, i, 2);
  }

  lemma SetValue(args: Argv, i: nat, v: string)
    requires Paired(args) && i < |args| && TakesValue(args[i]) && !Watched(args[i]) && !Dash(v)
    ensures i + 1 < |args| && Same(args, args[i + 1 := v])
  {
    hide TakesValue, Watched, Obs, Dash;
    FlagsDash(args[i]);
    BeforeDash(args, i);
    ValueAt(args, i);
    var x, m, y := args[..i], args[i..i + 2], args[i + 2..];
    Cut3(args, i, i + 2);
    assert m == [args[i], args[i + 1]];
    PairShows(args[i], args[i + 1]);
    PairShows(args[i], v);
    Replaced(x, m, [args[i], v], y);
    assert x + [args[i], v] + y == args[i + 1 := v];
  }

  /** Take out `n` tokens from an option on that show nothing. */
  lemma RemoveTokens(args: Argv, i: nat, n: nat)
    requires Paired(args) && i + n <= |args| && i < |args| && Dash(args[i])
    requires Paired(args[i..i + n]) && Obs(args[i..i + n]) == []
    ensures Same(args, Remove(args, i, n))
  {
    hide TakesValue, Watched, Obs, Dash, Paired;
    BeforeDash(args, i);
    var x, m, y := args[..i], args[i..i + n], args[i + n..];
    Cut3(args, i, i + n);
    TokensShow([]);
    Replaced(x, m, [], y);
    assert x + [] + y == Remove(args, i, n);
  }

  /** Put tokens that show nothing before an option, or at the front. */
  lemma SpliceTokens(args: Argv, i: nat, ins: Argv)
    requires Paired(args) && i <= |args| && (i == 0 || (i < |args| && Dash(args[i])))
    requires forall k :: 0 <= k < |ins| ==> !TakesValue(ins[k])
    ensures Same(args, Splice(args, i, ins))
  {
    hide TakesValue, Watched, Obs, Dash, Paired;
    if i > 0 {
      BeforeDash(args, i);
    }
    var x, y := args[..i], args[i..];
    Cut(args, i);
    TokensShow([]);
    TokensShow(ins);
    assert x + [] + y == args;
    Replaced(x, [], ins, y);
  }

  // ---------------------------------------------------------------- main10 pinned

  predicate ProfilePair(p: (string, string)) {
    "-profile" <= p.0 && p.1 == "main10"
  }

  /** Some `-profile*` flag of the argv has the value main10. */
  ghost predicate PinsMain10(args: Argv) {
    exists k :: 0 <= k < |args| - 1 && "-profile" <= args[k] && args[k + 1] == "main10"
  }

  predicate ObsPins(obs: seq<(string, string)>) {
    exists p :: p in obs && ProfilePair(p)
  }

  lemma {:induction false} PinsMeans(args: Argv)
    ensures PinsMain10(args) <==> ObsPins(Obs(args))
  {
    if |args| >= 2 {
      var x := args[1..];
      PinsMeans(x);
      if PinsMain10(args) {
        var k :| 0 <= k < |args| - 1 && "-profile" <= args[k] && args[k + 1] == "main10";
        if k == 0 {
          assert (args[0], args[1]) in Obs(args);
        } else {
          assert x[k - 1] == args[k] && x[k - 1 + 1] == args[k + 1];
          var p :| p in Obs(x) && ProfilePair(p);
          assert p in Obs(args);
        }
      }
      if ObsPins(Obs(args)) {
        var p :| p in Obs(args) && ProfilePair(p);
        if p !in Obs(x) {
          assert p == (args[0], args[1]);
          assert args[0 + 1] == "main10";
        } else {
          var k :| 0 <= k < |x| - 1 && "-profile" <= x[k] && x[k + 1] == "main10";
          assert args[k + 1] == x[k] && args[k + 1 + 1] == x[k + 1];
        }
      }
    }
  }
}
