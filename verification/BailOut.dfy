/**
 What bail() does from the argv it is handed: the URLs that only work beside the
 media server are scrubbed or relayed, and then the cleaning passes run.
 */
module BailOut {
  import opened Prelude
  import opened Search
  import opened Args
  import opened AudioClean
  import opened Bail
  import opened Main10
  import opened Observed
  import opened TailPasses

  // ---------------------------------------------------------------- -progressurl

  function DropProgress(args: Argv): Argv
    decreases |args|
  {
    var i := IndexOf(args, "-progressurl", 0);
    if i < 0 || i + 1 >= |args| then args else DropProgress(Remove(args, i, 2))
  }

  function IsProgress(): (string, string) -> bool {
    (flag, value) => flag == "-progressurl"
  }

  lemma DropProgressStep(args: Argv)
    ensures var i := IndexOf(args, "-progressurl", 0);
            DropProgress(args) == if i < 0 || i + 1 >= |args| then args else DropProgress(Remove(args, i, 2))
  {
    hide IndexOf;
  }

  /** The loop, restarted after each removal, is one walk over the argv. */
  lemma {:induction false} DropProgressMeans(args: Argv)
    ensures DropProgress(args) == DropPairs(args, IsProgress())
    decreases |args|
  {
    hide IndexOf, DropProgress, DropPairs;
    DropProgressStep(args);
    var i := IndexOf(args, "-progressurl", 0);
    if i < 0 || i + 1 >= |args| {
      DropNone(args, IsProgress());
    } else {
      assert PairAt(args, i, IsProgress());
      DropOne(args, i, IsProgress());
      DropProgressMeans(Remove(args, i, 2));
    }
  }

  lemma {:induction false} DropProgressSame(args: Argv)
    requires Paired(args)
    ensures Same(args, DropProgress(args)) && "-progressurl" !in DropProgress(args)
    ensures forall t :: t in DropProgress(args) ==> t in args
    decreases |args|
  {
    hide TakesValue, Watched, Obs, Dash, Paired, IndexOf, DropProgress;
    DropProgressStep(args);
    Known();
    var i := IndexOf(args, "-progressurl", 0);
    if i >= 0 {
      ValueAt(args, i);
      RemovePair(args, i);
      DropProgressSame(Remove(args, i, 2));
    }
  }

  // ---------------------------------------------------------------- the scrub

  /** scrubPlexFlagsOnBail */
  function Scrubbed(args: Argv, env: Env): Argv {
    RewriteManifestName(SegmentLists(DropProgress(args), "", Bailing, env), env)
  }

  /** Some -segment_list flag before `n` has a loopback value. */
  ghost predicate ListsLoopback(args: Argv, n: nat) {
    exists k :: 0 < k < n && k < |args| && ListUrl(args, k) && LOOPBACK <= args[k]
  }

  ghost predicate TouchesUrls(args: Argv, env: Env) {
    var p := DropProgress(args);
    || p != args
    || (env.base != "" && ListsLoopback(p, |p|))
    || 0 <= IndexOf(SegmentLists(p, "", Bailing, env), "-manifest_name", 0) < |p| - 1
  }

  method DropProgressUrls(inputArgs: Argv) returns (args: Argv, changed: bool)
    ensures args == DropProgress(inputArgs) && (changed <==> args != inputArgs)
  {
    hide DropProgress, IndexOf;
    args, changed := inputArgs, false;
    while true
      invariant DropProgress(args) == DropProgress(inputArgs)
      invariant |args| <= |inputArgs| && (if changed then |args| < |inputArgs| else args == inputArgs)
      decreases |args|
    {
      DropProgressStep(args);
      var i := IndexOf(args, "-progressurl", 0);
      if i < 0 || i + 1 >= |args| {
        return;
      }
      args := Remove(args, i, 2);
      changed := true;
    }
  }

  /** The loop over the list urls, in place; `changed` says that one was a loopback URL. */
  method RelayLists(args: array<string>, env: Env) returns (changed: bool)
    requires env.base != ""
    modifies args
    ensures args[..] == SegmentLists(old(args[..]), "", Bailing, env)
    ensures changed <==> ListsLoopback(old(args[..]), args.Length)
  {
    hide SegmentListsFrom, IndexOf, ListUrl, ListsLoopback, Relayed;
    ghost var was := args[..];
    changed := false;
    var from := 0;
    NotListUrl(was, 0);
    NoneListed(was);
    while true
      invariant SegmentListsFrom(args[..], from, "", Bailing, env) == SegmentListsFrom(was, 0, "", Bailing, env)
      invariant forall k :: from <= k < args.Length ==> args[k] == was[k]
      invariant from <= |was| ==> !ListUrl(was, from)
      invariant changed <==> ListsLoopback(was, from)
      decreases args.Length - from
    {
      ghost var before := args[..];
      Turn(before, from, env);
      ListsStep(was, before, from);
      var i := IndexOf(args[..], "-segment_list", from);
      if i < 0 || i + 1 >= args.Length {
        return;
      }
      from := i + 2;
      var orig := args[i + 1];
      if !(LOOPBACK <= orig) {
        continue;
      }
      args[i + 1] := Relayed(orig, env);
      assert args[..] == before[i + 1 := Relayed(orig, env)];
      changed := true;
    }
  }

  lemma Turn(now: Argv, from: nat, env: Env)
    ensures var i := IndexOf(now, "-segment_list", from);
            if i < 0 || i + 1 >= |now| then SegmentListsFrom(now, from, "", Bailing, env) == now
            else
              from <= i
              && SegmentListsFrom(now, from, "", Bailing, env)
                 == SegmentListsFrom(if LOOPBACK <= now[i + 1] then now[i + 1 := Relayed(now[i + 1], env)] else now,
                                     i + 2, "", Bailing, env)
  {
    hide SegmentListsFrom, SegmentUrl, IndexOf, Relayed;
    SegmentStep(now, from, "", Bailing, env);
    var i := IndexOf(now, "-segment_list", from);
    if i >= 0 && i + 1 < |now| {
      Listed(now[i + 1], env);
    }
  }

  lemma Listed(url: string, env: Env)
    ensures SegmentUrl(url, "", Bailing, env) == if LOOPBACK <= url then Some(Relayed(url, env)) else None
  {}

  lemma NoneListed(was: Argv)
    ensures !ListsLoopback(was, 0)
  {}

  /** One turn: the next flag at or after `from`, and what its value adds to what was seen. */
  lemma ListsStep(was: Argv, now: Argv, from: nat)
    requires |now| == |was| && (from <= |was| ==> !ListUrl(was, from))
    requires forall j :: from <= j < |was| ==> now[j] == was[j]
    ensures var i := IndexOf(now, "-segment_list", from);
            if i < 0 || i + 1 >= |now| then ListsLoopback(was, |was|) <==> ListsLoopback(was, from)
            else now[i + 1] == was[i + 1] && !ListUrl(was, i + 2)
                 && (ListsLoopback(was, i + 2) <==> ListsLoopback(was, from) || LOOPBACK <= was[i + 1])
  {
    hide ListUrl, IndexOf;
    var i := IndexOf(now, "-segment_list", from);
    if i < 0 || i + 1 >= |now| {
      forall k | from <= k < |was|
        ensures !ListUrl(was, k)
      {
        NoFlagBetween(was, from, if i < 0 then |was| else i, k);
      }
    } else {
      forall k | from <= k <= i
        ensures !ListUrl(was, k)
      {
        NoFlagBetween(was, from, i, k);
      }
      IsListUrl(was, i + 1);
      TwoOn(was, i);
      if LOOPBACK <= was[i + 1] {
        assert ListUrl(was, i + 1);
      }
    }
  }

  method ScrubPlexFlagsOnBail(inputArgs: Argv, env: Env) returns (args: Argv, changed: bool)
    ensures args == Scrubbed(inputArgs, env)
    ensures changed <==> TouchesUrls(inputArgs, env)
    ensures args != inputArgs ==> changed
  {
    hide DropProgress, SegmentListsFrom, IndexOf, ListsLoopback;
    args, changed := DropProgressUrls(inputArgs);
    ghost var p := args;
    if env.base != "" {
      var cells := new string[|args|](k requires 0 <= k < |args| => args[k]);
      assert cells[..] == args;
      var relayed := RelayLists(cells, env);
      args := cells[..];
      changed := changed || relayed;
      NothingListed(p, env);
    }
    assert args == SegmentLists(p, "", Bailing, env);
    var i := IndexOf(args, "-manifest_name", 0);
    changed := changed || 0 <= i < |args| - 1;
    args := RewriteManifestName(args, env);
  }

  /** Without a loopback list url the relay loop changes nothing. */
  lemma NothingListed(args: Argv, env: Env)
    ensures !ListsLoopback(args, |args|) ==> SegmentLists(args, "", Bailing, env) == args
  {
    hide SegmentLists, ListUrl;
    if !ListsLoopback(args, |args|) {
      var r := SegmentLists(args, "", Bailing, env);
      assert |r| == |args| by { SegmentsLength(args, env); }
      forall k | 0 <= k < |args|
        ensures r[k] == args[k]
      {
        SegmentListsMeans(args, "", Bailing, env, k);
        Listed(args[k], env);
        if k == 0 {
          NotListUrl(args, 0);
        }
      }
    }
  }

  lemma SegmentsLength(args: Argv, env: Env)
    ensures |SegmentLists(args, "", Bailing, env)| == |args|
  {}

  /** The scrub keeps an argv well formed, its graphs and its profiles, and leaves no progress URL. */
  lemma ScrubSame(args: Argv, env: Env)
    requires Paired(args) && Sane(env)
    ensures Same(args, Scrubbed(args, env)) && "-progressurl" !in Scrubbed(args, env)
  {
    hide Paired, Obs, DropProgress, SegmentLists, RewriteManifestName, Sane;
    var p := DropProgress(args);
    DropProgressSame(args);
    ListsSame(p, env);
    var q := SegmentLists(p, "", Bailing, env);
    ManifestSame(q, env);
    ManifestTokens(q, env);
  }

  /** No token with a dash is new. */
  ghost predicate NoNewOption(args: Argv, r: Argv) {
    forall t :: t in r && Dash(t) ==> t in args
  }

  lemma ListsSame(args: Argv, env: Env)
    requires Paired(args) && Sane(env)
    ensures Same(args, SegmentLists(args, "", Bailing, env))
    ensures NoNewOption(args, SegmentLists(args, "", Bailing, env))
  {
    hide Paired, Obs, SegmentListsFrom, ListUrl, SegmentUrl, Dash, Sane;
    var r := SegmentLists(args, "", Bailing, env);
    if env.base != "" {
      SegmentListsSame(args, 0, "", Bailing, env);
      forall t | t in r && Dash(t)
        ensures t in args
      {
        var k :| 0 <= k < |r| && r[k] == t;
        SegmentListsMeans(args, "", Bailing, env, k);
        if ListUrl(args, k) {
          UrlIsValue(args, k);
          SegmentUrlNoDash(args[k], "", Bailing, env);
        }
      }
    }
  }

  lemma UrlIsValue(args: Argv, k: nat)
    requires Paired(args) && k < |args| && ListUrl(args, k)
    ensures !Dash(args[k])
  {
    hide Paired, Dash, TakesValue;
    Known();
    ValueAt(args, k - 1);
  }

  lemma ManifestTokens(args: Argv, env: Env)
    requires Paired(args) && Sane(env) && "-progressurl" !in args
    ensures "-progressurl" !in RewriteManifestName(args, env)
  {
    hide Paired, TakesValue, IndexOf, Relayed, Dash, Sane;
    var i := IndexOf(args, "-manifest_name", 0);
    if i >= 0 && i + 1 < |args| && env.base != "" {
      Known();
      ValueAt(args, i);
      RelayedNoDash(args[i + 1], env);
      FlagsDash("-progressurl");
    }
  }

  // ---------------------------------------------------------------- the whole bail

  /** bail(): `fontScrubbed` says that the font paths were scrubbed from the argv before. */
  method BailOut(inputArgs: Argv, env: Env, noDecoder: bool, fontScrubbed: bool)
    returns (out: Argv, panicked: bool, applied: bool)
    ensures Bailed(Scrubbed(inputArgs, env), noDecoder) == if panicked then None else Some(out)
    ensures !panicked ==> (applied <==> fontScrubbed || TouchesUrls(inputArgs, env) || out != Scrubbed(inputArgs, env))
    ensures !panicked && out != inputArgs ==> applied
  {
    hide *;
    var args, scrub := ScrubPlexFlagsOnBail(inputArgs, env);
    out, panicked, applied := RunBail(args, noDecoder);
    applied := applied || fontScrubbed || scrub;
  }

  /**
   From the argv as received: on a well-formed one the bail never panics, is the scrub and one
   walk, keeps every graph and profile, and leaves no progress URL.
   */
  lemma BailOutMeans(args: Argv, env: Env, noDecoder: bool)
    requires Paired(args) && Sane(env)
    ensures var s := Scrubbed(args, env);
            var out := Cleaned(s, "-i" in s, noDecoder);
            && Bailed(s, noDecoder) == Some(out)
            && Same(args, out) && "-progressurl" !in out
            && (PinsMain10(out) <==> PinsMain10(args))
  {
    hide *;
    var s := Scrubbed(args, env);
    ScrubSame(args, env);
    SameShows(args, s);
    BailMeans(s, noDecoder);
    BailKeepsProfiles(s, noDecoder);
    var out := Cleaned(s, "-i" in s, noDecoder);
    SameTwice(args, s, out);
    CleanedNoNewOption(s, "-i" in s, noDecoder);
    ProgressIsOption(s, out);
  }

  lemma SameTwice(args: Argv, s: Argv, out: Argv)
    requires Same(args, s) && Same(s, out)
    ensures Same(args, out)
  {}

  lemma ProgressIsOption(s: Argv, out: Argv)
    requires "-progressurl" !in s && NoNewOption(s, out)
    ensures "-progressurl" !in out
  {
    assert Dash("-progressurl");
  }

  lemma {:induction false} CleanedNoNewOption(args: Argv, input: bool, noDecoder: bool)
    requires Paired(args)
    ensures NoNewOption(args, Cleaned(args, input, noDecoder))
  {
    hide TakesValue, Dash, Paired, Cleaned, CleanPair;
    if args == [] {
      CleanedNothing(input, noDecoder);
    } else {
      Shape(args);
      if TakesValue(args[0]) {
        var f, v, x := args[0], args[1], args[2..];
        CleanedNoNewOption(x, input, noDecoder);
        CleanedPair(f, v, x, input, noDecoder);
        CleanPairEae(f, v, input, noDecoder);
      } else {
        var t, x := args[0], args[1..];
        CleanedNoNewOption(x, input && t != "-i", noDecoder);
        CleanedToken(t, x, input, noDecoder);
      }
    }
  }
}
