/**
 What each pass after the Main10 pin does to an argv, flag by flag and url by url,
 and what no longer stands in an argv that has been through all of them.
 */
module TailEffects {
  import opened Prelude
  import opened Search
  import opened Args
  import opened AudioClean
  import opened Bail
  import opened BailOut
  import opened Main10
  import opened Observed
  import opened StreamSpec
  import opened TailPasses

  // ---------------------------------------------------------------- one flag and its value

  lemma FirstPair(x: Argv, flag: string, value: string, y: Argv, other: string)
    requires flag !in x
    ensures var args := x + [flag, value] + y;
            && IndexOf(args, flag, 0) == |x| && |x| + 1 < |args| && args[|x| + 1] == value
            && Remove(args, |x|, 2) == x + y
            && args[|x| + 1 := other] == x + [flag, other] + y
  {
    var args := x + [flag, value] + y;
    assert args[|x|] == flag && args[|x| + 1] == value;
    assert forall k :: 0 <= k < |x| ==> args[k] == x[k];
    assert args[..|x|] == x && args[|x| + 2..] == y;
  }

  lemma NotThere(args: Argv, flag: string)
    requires flag !in args
    ensures IndexOf(args, flag, 0) == -1
  {}

  // ---------------------------------------------------------------- urls

  function And(url: string, query: string): string {
    url + (if '?' in url then "&" else "?") + query
  }

  /** A loopback url keeps its path under the relay's address, with the session's token if there is one. */
  lemma RelayedMeans(path: string, env: Env)
    ensures Relayed("http://127.0.0.1:32400" + path, env)
            == if env.token == "" then env.base + path else And(env.base + path, "X-Plex-Token=" + env.token)
  {
    var url := "http://127.0.0.1:32400" + path;
    assert LOOPBACK == "http://127.0.0.1:32400";
    assert url[0..|LOOPBACK|] == LOOPBACK;
    assert OccursAt(url, LOOPBACK, 0) && Index(url, LOOPBACK) == 0;
    assert url[..0] == "" && url[0 + |LOOPBACK|..] == path;
    assert ReplaceFirst(url, LOOPBACK, env.base) == env.base + path;
    QueryMeans(env.base + path, "X-Plex-Token=" + env.token);
  }

  lemma QueryMeans(url: string, query: string)
    ensures WithQuery(url, query) == And(url, query)
  {
    assert url + "&" + query == url + ("&" + query);
  }

  /** A list url is rewritten if it is on the loopback and of the pass's kind; the HLS one carries the segment time. */
  lemma SegmentUrlMeans(url: string, segTime: string, variant: Variant, env: Env)
    ensures var sub := Index(url, "stream=subtitles") >= 0;
            SegmentUrl(url, segTime, variant, env).Some?
            <==> "http://127.0.0.1:32400" <= url && (variant.Hls? ==> !sub) && (variant.SideChannel? ==> sub)
    ensures SegmentUrl(url, segTime, variant, env).Some? ==>
              SegmentUrl(url, segTime, variant, env).value
              == if variant.Hls? && segTime != "" then And(Relayed(url, env), "scaleplex_seg_time=" + segTime)
                 else Relayed(url, env)
  {
    hide Index, Relayed;
    QueryMeans(Relayed(url, env), "scaleplex_seg_time=" + segTime);
  }

  // ---------------------------------------------------------------- the passes

  /** A loopback manifest goes to the relay; any other goes away with its flag. */
  lemma ManifestMeans(x: Argv, url: string, y: Argv, env: Env)
    requires "-manifest_name" !in x
    ensures RewriteManifestName(x + ["-manifest_name", url] + y, env)
            == if env.base != "" && "http://127.0.0.1:32400" <= url
               then x + ["-manifest_name", Relayed(url, env)] + y else x + y
  {
    hide IndexOf, Relayed;
    FirstPair(x, "-manifest_name", url, y, Relayed(url, env));
  }

  /** The progress url goes, and comes back in front for the throttle, unless that is off or there already. */
  lemma ProgressMeans(x: Argv, url: string, y: Argv, env: Env)
    requires "-progressurl" !in x
    ensures CaptureProgressUrl(x + ["-progressurl", url] + y, env)
            == if env.base == "" || "-canthrottleurl" in x + y || env.throttleDisabled then x + y
               else ["-canthrottleurl", Relayed(url, env)] + (x + y)
  {
    hide Relayed;
    FirstPair(x, "-progressurl", url, y, url);
    var r := x + y;
    assert "-canthrottleurl" in r <==> IndexOf(r, "-canthrottleurl", 0) >= 0;
    assert r[..0] == [] && r[0..] == r;
    assert [] + ["-canthrottleurl", Relayed(url, env)] == ["-canthrottleurl", Relayed(url, env)];
  }

  /** A level that hides what the media server waits for is raised. */
  lemma LoglevelMeans(x: Argv, level: string, y: Argv, env: Env)
    requires "-loglevel" !in x
    ensures UpgradeLoglevel(x + ["-loglevel", level] + y, env)
            == if level == "quiet" || level == "panic" || level == "fatal"
               then x + ["-loglevel", env.loglevel] + y else x + ["-loglevel", level] + y
  {
    FirstPair(x, "-loglevel", level, y, env.loglevel);
  }

  lemma NostatsMeans(x: Argv, y: Argv)
    requires "-nostats" !in x
    ensures DropNostats(x + ["-nostats"] + y) == x + y
  {
    var args := x + ["-nostats"] + y;
    assert args[|x|] == "-nostats";
    assert forall k :: 0 <= k < |x| ==> args[k] == x[k];
    assert args[..|x|] == x && args[|x| + 1..] == y;
  }

  /** Without its flag a pass does nothing. */
  lemma NothingToDo(args: Argv, env: Env)
    ensures "-manifest_name" !in args ==> RewriteManifestName(args, env) == args
    ensures "-progressurl" !in args ==> CaptureProgressUrl(args, env) == args
    ensures "-loglevel" !in args ==> UpgradeLoglevel(args, env) == args
    ensures "-nostats" !in args ==> DropNostats(args) == args
  {
    hide Relayed;
  }

  /** The subtitle decoded into nothing: -map x -f null -codec ass|dvdsub nullfile. */
  function Sink(x: string, codec: string): Argv {
    ["-map", x, "-f", "null", "-codec", codec, "nullfile"]
  }


  /** The first sink goes when the burnt subtitle is in the main file, and only then. */
  lemma SinkMeans(x: Argv, target: string, codec: string, y: Argv)
    requires codec == "ass" || codec == "dvdsub"
    requires var args := x + Sink(target, codec) + y; forall k :: 0 <= k < |x| ==> !SinkAt(args, k)
    ensures var args := x + Sink(target, codec) + y;
            StripSink(args) == if KeepsSink(args) then args else x + y
  {
    var args := x + Sink(target, codec) + y;
    hide KeepsSink;
    assert args[|x|..|x| + 7] == Sink(target, codec);
    forall k | 0 <= k < 7
      ensures args[|x| + k] == Sink(target, codec)[k]
    {
      assert args[|x|..|x| + 7][k] == args[|x| + k];
    }
    assert SinkAt(args, |x|);
    FirstSinkIs(args, 0, |x|);
    assert args[..|x|] == x && args[|x| + 7..] == y;
  }

  lemma {:induction false} FirstSinkIs(args: Argv, from: nat, i: nat)
    requires from <= i && SinkAt(args, i) && forall k :: from <= k < i ==> !SinkAt(args, k)
    ensures FirstSink(args, from) == i
    decreases i - from
  {
    if from < i {
      FirstSinkIs(args, from + 1, i);
    }
  }

  lemma {:induction false} NoSink(args: Argv, from: nat)
    requires forall k :: from <= k ==> !SinkAt(args, k)
    ensures FirstSink(args, from) == -1
    decreases |args| - from
  {
    if from + 6 < |args| {
      NoSink(args, from + 1);
    }
  }

  /** Bound to another file: the value's part before the first colon is there and is not 0. */
  lemma KeepsSinkMeans(x: Argv, file: string, stream: string, y: Argv)
    requires "-map_inlineass" !in x && ':' !in file
    ensures KeepsSink(x + ["-map_inlineass", file + ":" + stream] + y) <==> file != "" && file != "0"
  {
    var spec := file + ":" + stream;
    FirstPair(x, "-map_inlineass", spec, y, spec);
    assert spec[|file|] == ':' && forall k :: 0 <= k < |file| ==> spec[k] == file[k];
    assert IndexOf(spec, ':', 0) == |file| && spec[..|file|] == file;
  }

  lemma NotBound(args: Argv)
    requires "-map_inlineass" !in args
    ensures StripSink(args) == args
  {
    NotThere(args, "-map_inlineass");
  }

  /** If missing, the SEI flags go right before the video stream's first key-frame flag after the encoder. */
  lemma SeiMeans(args: Argv, encAt: int, i: nat)
    requires encAt >= -1 && encAt < i < |args| && FlagFor(args[i], "-force_key_frames", 0, Ids(args))
    requires forall k :: encAt < k < i ==> !FlagFor(args[k], "-force_key_frames", 0, Ids(args))
    ensures InjectSei(args, encAt)
            == if exists k :: 0 <= k < |args| && FlagFor(args[k], "-sei", 0, Ids(args)) then args
               else args[..i] + ["-sei:0", "-a53_cc"] + args[i..]
  {
    hide FlagFor, Ids;
    assert SpecIndex(args, "-force_key_frames", 0, encAt + 1) == i;
  }

  // ---------------------------------------------------------------- the whole tail

  /** The options the tail itself may add. */
  predicate Ours(t: string) {
    t == "-canthrottleurl" || t == "-sei:0" || t == "-a53_cc" || "-profile" <= t
  }

  /** No other option stands in the result more often than before. */
  ghost predicate Fewer(args: Argv, r: Argv) {
    forall t :: Dash(t) && !Ours(t) ==> multiset(r)[t] <= multiset(args)[t]
  }

  lemma FewerThen(a: Argv, b: Argv, c: Argv)
    requires Fewer(a, b) && Fewer(b, c)
    ensures Fewer(a, c)
  {
    hide Dash, Ours;
  }

  lemma FewerNow(a: Argv)
    ensures Fewer(a, a)
  {}

  lemma FewerRemove(args: Argv, i: nat, n: nat)
    requires i + n <= |args|
    ensures Fewer(args, Remove(args, i, n))
    ensures forall t :: t in args[i..i + n] ==> multiset(Remove(args, i, n))[t] < multiset(args)[t]
  {
    hide Dash, Ours;
    var x, m, y := args[..i], args[i..i + n], args[i + n..];
    Cut3(args, i, i + n);
    assert multiset(x + m + y) == multiset(x) + multiset(m) + multiset(y);
    assert multiset(x + y) == multiset(x) + multiset(y);
  }

  lemma CountThree(x: Argv, t: string, y: Argv)
    ensures multiset(x + [t] + y) == multiset(x) + multiset{t} + multiset(y)
  {}

  lemma FewerSet(args: Argv, i: nat, v: string)
    requires i < |args| && !Dash(v)
    ensures Fewer(args, args[i := v])
  {
    hide Dash, Ours;
    var x, y := args[..i], args[i + 1..];
    assert args == x + [args[i]] + y && args[i := v] == x + [v] + y;
    CountThree(x, args[i], y);
    CountThree(x, v, y);
  }

  lemma FewerSplice(args: Argv, i: nat, ins: Argv)
    requires i <= |args| && forall k :: 0 <= k < |ins| ==> Ours(ins[k]) || !Dash(ins[k])
    ensures Fewer(args, Splice(args, i, ins))
  {
    hide Dash, Ours;
    var x, y := args[..i], args[i..];
    Cut(args, i);
    assert multiset(x + ins + y) == multiset(x) + multiset(ins) + multiset(y);
    assert multiset(x + y) == multiset(x) + multiset(y);
    forall t | Dash(t) && !Ours(t)
      ensures multiset(ins)[t] == 0
    {
      assert t !in ins;
    }
  }

  lemma {:induction false} FewerSegments(args: Argv, from: nat, segTime: string, variant: Variant, env: Env)
    requires Paired(args) && Sane(env) && env.base != ""
    ensures Fewer(args, SegmentListsFrom(args, from, segTime, variant, env))
    decreases |args| - from
  {
    hide TakesValue, Watched, Obs, Dash, SegmentUrl, IndexOf, SegmentListsFrom, Fewer, Paired, Sane;
    SegmentStep(args, from, segTime, variant, env);
    var i := IndexOf(args, "-segment_list", from);
    if i >= 0 && i + 1 < |args| {
      Known();
      ValueAt(args, i);
      match SegmentUrl(args[i + 1], segTime, variant, env)
      case None => FewerSegments(args, i + 2, segTime, variant, env);
      case Some(url) =>
        SegmentUrlNoDash(args[i + 1], segTime, variant, env);
        SetValue(args, i, url);
        FewerSet(args, i + 1, url);
        FewerSegments(args[i + 1 := url], i + 2, segTime, variant, env);
        FewerThen(args, args[i + 1 := url], SegmentListsFrom(args[i + 1 := url], i + 2, segTime, variant, env));
    } else {
      FewerNow(args);
    }
  }

  lemma FewerLists(args: Argv, segTime: string, variant: Variant, env: Env)
    requires Paired(args) && Sane(env)
    ensures var r := SegmentLists(args, segTime, variant, env); Fewer(args, r) && Paired(r)
  {
    hide Fewer, Paired, Sane, SegmentListsFrom, Obs;
    if env.base != "" {
      FewerSegments(args, 0, segTime, variant, env);
      SegmentListsSame(args, 0, segTime, variant, env);
    } else {
      FewerNow(args);
    }
  }

  lemma FewerManifest(args: Argv, env: Env)
    requires Paired(args) && Sane(env)
    ensures Fewer(args, RewriteManifestName(args, env))
  {
    hide Fewer, Paired, Sane, IndexOf, Relayed, Dash, TakesValue;
    var i := IndexOf(args, "-manifest_name", 0);
    if i < 0 || i + 1 >= |args| {
      FewerNow(args);
    } else {
      Known();
      ValueAt(args, i);
      FewerRemove(args, i, 2);
      if env.base != "" {
        RelayedNoDash(args[i + 1], env);
        FewerSet(args, i + 1, Relayed(args[i + 1], env));
      }
    }
  }

  lemma FewerProgress(args: Argv, env: Env)
    requires Paired(args) && Sane(env)
    ensures Fewer(args, CaptureProgressUrl(args, env))
    ensures multiset(args)["-progressurl"] <= 1 ==> "-progressurl" !in CaptureProgressUrl(args, env)
  {
    hide Fewer, Paired, Sane, IndexOf, Relayed, Dash, TakesValue, Ours;
    var i := IndexOf(args, "-progressurl", 0);
    Known();
    if i < 0 {
      FewerNow(args);
    } else {
      ValueAt(args, i);
      FewerRemove(args, i, 2);
      var r, url := Remove(args, i, 2), Relayed(args[i + 1], env);
      assert args[i] in args[i..i + 2] by { assert args[i..i + 2][0] == args[i]; }
      if env.base != "" {
        RelayedNoDash(args[i + 1], env);
        FlagsDash("-progressurl");
        OursAre();
        FewerSplice(r, 0, ["-canthrottleurl", url]);
        FewerThen(args, r, Splice(r, 0, ["-canthrottleurl", url]));
        assert r[..0] == [] && r[0..] == r;
      }
    }
  }

  lemma OursAre()
    ensures Ours("-canthrottleurl") && Ours("-sei:0") && Ours("-a53_cc")
    ensures !Ours("-progressurl") && !Ours("-nostats")
  {
    assert "-progressurl"[4] == 'g' && "-profile"[4] == 'f' && "-nostats"[1] == 'n';
  }

  lemma FewerFinish(args: Argv, s: Session, env: Env)
    requires Paired(args) && Sane(env)
    ensures Fewer(args, Finish(args, s, env))
    ensures multiset(args)["-nostats"] <= 1 ==> "-nostats" !in Finish(args, s, env)
  {
    hide Fewer, Paired, Sane, KeepsSink, FirstSink, TakesValue, IndexOf;
    var a := UpgradeLoglevel(args, env);
    FewerLoglevel(args, env);
    var b := DropNostats(a);
    FewerNostats(a);
    var c := StripSink(b);
    FewerSink(b);
    FewerThen(args, a, b);
    FewerThen(args, b, c);
    OursAre();
    CountOf(args, a, "-nostats");
    CountOf(b, c, "-nostats");
  }

  lemma CountOf(a: Argv, b: Argv, t: string)
    requires Fewer(a, b) && t in ["-nostats", "-progressurl"]
    ensures multiset(b)[t] <= multiset(a)[t]
  {
    OursAre();
    assert Dash(t);
  }

  lemma FewerLoglevel(args: Argv, env: Env)
    requires Sane(env)
    ensures Fewer(args, UpgradeLoglevel(args, env))
  {
    hide Fewer, IndexOf, Dash;
    var i := IndexOf(args, "-loglevel", 0);
    FewerNow(args);
    if i >= 0 && i + 1 < |args| {
      FewerSet(args, i + 1, env.loglevel);
    }
  }

  lemma FewerNostats(args: Argv)
    ensures Fewer(args, DropNostats(args))
    ensures multiset(args)["-nostats"] <= 1 ==> "-nostats" !in DropNostats(args)
  {
    hide Fewer;
    var i := IndexOf(args, "-nostats", 0);
    FewerNow(args);
    if i >= 0 {
      FewerRemove(args, i, 1);
      assert args[i..i + 1][0] == "-nostats";
    }
  }

  lemma FewerSink(args: Argv)
    ensures Fewer(args, StripSink(args))
  {
    hide Fewer, KeepsSink, FirstSink;
    var i := FirstSink(args, 0);
    FewerNow(args);
    if i >= 0 {
      FewerRemove(args, i, 7);
    }
  }

  lemma {:induction false} FewerCleaned(args: Argv, input: bool, noDecoder: bool)
    requires Paired(args)
    ensures Fewer(args, Cleaned(args, input, noDecoder))
  {
    hide TakesValue, Dash, Paired, Cleaned, CleanPair, Ours;
    if args == [] {
      CleanedNothing(input, noDecoder);
    } else {
      Shape(args);
      if TakesValue(args[0]) {
        var f, v, x := args[0], args[1], args[2..];
        var c := Cleaned(x, input, noDecoder);
        FewerCleaned(x, input, noDecoder);
        CleanedPair(f, v, x, input, noDecoder);
        CleanPairEae(f, v, input, noDecoder);
        assert multiset([f, v] + x) == multiset{f} + multiset{v} + multiset(x);
        match CleanPair(f, v, input, noDecoder)
        case None =>
        case Some(w) =>
          assert multiset([f, w] + c) == multiset{f} + multiset{w} + multiset(c);
      } else {
        var t, x := args[0], args[1..];
        var c := Cleaned(x, input && t != "-i", noDecoder);
        FewerCleaned(x, input && t != "-i", noDecoder);
        CleanedToken(t, x, input, noDecoder);
        assert multiset([t] + x) == multiset{t} + multiset(x);
        assert multiset([t] + c) == multiset{t} + multiset(c);
      }
    }
  }

  lemma FewerGraph(args: Argv, s: Session)
    requires Paired(args)
    ensures Fewer(args, AfterGraph(args, s)) && Paired(AfterGraph(args, s))
  {
    hide Fewer, Paired, PinApplies, InjectSei, Encoder, FirstBearing, PinsMain10;
    AfterGraphShows(args, s);
    FewerNow(args);
    FewerPin(args);
    FewerSei(Pinned(args), Encoder(args));
    FewerThen(args, Pinned(args), InjectSei(Pinned(args), Encoder(args)));
  }

  lemma FewerPin(args: Argv)
    ensures Fewer(args, Pinned(args))
  {
    hide Fewer, Encoder, TenBit, Hevc, IndexOf, Dash;
    FewerNow(args);
    if PinApplies(args) {
      EncoderFlag(args);
      PlainMain10();
      FewerSplice(args, Encoder(args) + 2, [ProfileFlag(args[Encoder(args)]), "main10"]);
    }
  }

  lemma PlainMain10()
    ensures !Dash("main10")
  {}

  lemma FewerSei(args: Argv, encAt: int)
    requires encAt >= -1
    ensures Fewer(args, InjectSei(args, encAt))
  {
    hide Fewer, Dash, Selects, Ids;
    FewerNow(args);
    OursAre();
    var i := SpecIndex(args, "-force_key_frames", 0, encAt + 1);
    if i >= 0 {
      FewerSplice(args, i, ["-sei:0", "-a53_cc"]);
    }
  }

  /** The tail is the three audio passes of a bail between the pin and the urls. */
  lemma TailIsBailed(args: Argv, s: Session, env: Env)
    requires Paired(args) && Sane(env)
    ensures var g := AfterGraph(args, s);
            var c := Cleaned(g, "-i" in g, false);
            && Paired(g) && Paired(c) && Bailed(g, false) == Some(c)
            && Tail(args, s, env) == Some(Finish(Urls(c, s, env), s, env))
  {
    hide AfterGraph, Cleaned, Swapped, DropPrefixes, DropFramedrops, Urls, Finish, Paired, Sane;
    FewerGraph(args, s);
    BailMeans(AfterGraph(args, s), false);
  }

  lemma FewerUrls(args: Argv, s: Session, env: Env)
    requires Paired(args) && Sane(env)
    ensures Fewer(args, Urls(args, s, env)) && Paired(Urls(args, s, env))
    ensures multiset(args)["-progressurl"] <= 1 ==> "-progressurl" !in Urls(args, s, env)
  {
    hide Fewer, Paired, Sane, SegmentLists, RewriteManifestName, CaptureProgressUrl, SegmentTime, Obs;
    UrlsSame(args, s, env);
    FewerNow(args);
    FewerLists(args, SegmentTime(args), Hls, env);
    var a := if s.isHLS then SegmentLists(args, SegmentTime(args), Hls, env) else args;
    FewerLists(a, "", SideChannel, env);
    var b := SegmentLists(a, "", SideChannel, env);
    FewerManifest(b, env);
    ManifestSame(b, env);
    var c := RewriteManifestName(b, env);
    FewerProgress(c, env);
    FewerThen(args, a, b);
    FewerThen(args, b, c);
    FewerThen(args, c, CaptureProgressUrl(c, env));
    CountOf(args, c, "-progressurl");
  }

  /**
   What no longer stands in a well-formed argv after the whole tail: a private prefix option, and
   the progress url and -nostats that were there once. Nothing but the tail's own options is new.
   */
  lemma TailLeaves(args: Argv, s: Session, env: Env)
    requires Paired(args) && Sane(env)
    ensures Tail(args, s, env).Some? && Fewer(args, Tail(args, s, env).value)
    ensures multiset(args)["-progressurl"] <= 1 ==> "-progressurl" !in Tail(args, s, env).value
    ensures multiset(args)["-nostats"] <= 1 ==> "-nostats" !in Tail(args, s, env).value
    ensures forall t :: t in Tail(args, s, env).value ==> !("-eae_prefix" <= t)
  {
    hide *;
    TailIsBailed(args, s, env);
    FewerGraph(args, s);
    var g := AfterGraph(args, s);
    var c := Cleaned(g, "-i" in g, false);
    FewerCleaned(g, "-i" in g, false);
    CleanedHasNoPrivate(g, "-i" in g, false);
    FewerUrls(c, s, env);
    var u := Urls(c, s, env);
    FewerFinish(u, s, env);
    var out := Finish(u, s, env);
    FewerThen(args, g, c);
    FewerThen(args, c, u);
    FewerThen(args, u, out);
    FewerThen(c, u, out);
    CountOf(args, c, "-progressurl");
    CountOf(u, out, "-progressurl");
    CountOf(args, u, "-nostats");
    StillNoPrefix(c, out);
  }

  lemma StillNoPrefix(c: Argv, out: Argv)
    requires NoPrivate(c) && Fewer(c, out)
    ensures forall t :: t in out ==> !("-eae_prefix" <= t)
  {
    hide Dash, Ours, NoPrivate;
    forall t | t in out
      ensures !("-eae_prefix" <= t)
    {
      if "-eae_prefix" <= t {
        PrefixIsOption(t);
        NoneOf(c, t);
      }
    }
  }

  lemma PrefixIsOption(t: string)
    requires "-eae_prefix" <= t
    ensures Dash(t) && !Ours(t)
  {
    assert t[0] == '-' && t[1] == 'e';
  }

  lemma NoneOf(c: Argv, t: string)
    requires NoPrivate(c) && "-eae_prefix" <= t
    ensures multiset(c)[t] == 0
  {
    assert PrefixFlag(t);
    assert t !in c;
  }

  // ---------------------------------------------------------------- no other option is lost

  /** The options some pass looks for. */
  predicate Handled(t: string) {
    TakesValue(t) || t == "-nostats" || t == "-f" || t == "-codec"
  }

  /** No option that no pass looks for stands in the result less often than before. */
  ghost predicate More(args: Argv, r: Argv) {
    forall t :: Dash(t) && !Handled(t) ==> multiset(args)[t] <= multiset(r)[t]
  }

  lemma MoreThen(a: Argv, b: Argv, c: Argv)
    requires More(a, b) && More(b, c)
    ensures More(a, c)
  {
    hide Dash, Handled;
  }

  lemma MoreNow(a: Argv)
    ensures More(a, a)
  {}

  lemma MoreRemove(args: Argv, i: nat, n: nat)
    requires i + n <= |args| && forall k :: i <= k < i + n ==> !Dash(args[k]) || Handled(args[k])
    ensures More(args, Remove(args, i, n))
  {
    hide Dash, Handled;
    var x, m, y := args[..i], args[i..i + n], args[i + n..];
    Cut3(args, i, i + n);
    assert multiset(x + m + y) == multiset(x) + multiset(m) + multiset(y);
    assert multiset(x + y) == multiset(x) + multiset(y);
    forall t | Dash(t) && !Handled(t)
      ensures multiset(m)[t] == 0
    {
      assert t !in m;
    }
  }

  lemma MoreSet(args: Argv, i: nat, v: string)
    requires i < |args| && !Dash(args[i])
    ensures More(args, args[i := v])
  {
    hide Dash, Handled;
    var x, y := args[..i], args[i + 1..];
    assert args == x + [args[i]] + y && args[i := v] == x + [v] + y;
    CountThree(x, args[i], y);
    CountThree(x, v, y);
  }

  lemma MoreSplice(args: Argv, i: nat, ins: Argv)
    requires i <= |args|
    ensures More(args, Splice(args, i, ins))
  {
    hide Dash, Handled;
    var x, y := args[..i], args[i..];
    Cut(args, i);
    assert multiset(x + ins + y) == multiset(x) + multiset(ins) + multiset(y);
    assert multiset(x + y) == multiset(x) + multiset(y);
  }

  lemma MorePair(args: Argv, i: nat)
    requires Paired(args) && i < |args| && TakesValue(args[i])
    ensures i + 2 <= |args| && More(args, Remove(args, i, 2))
  {
    hide Dash, TakesValue, Paired, More;
    ValueAt(args, i);
    MoreRemove(args, i, 2);
  }

  lemma {:induction false} MoreSegments(args: Argv, from: nat, segTime: string, variant: Variant, env: Env)
    requires Paired(args) && Sane(env) && env.base != ""
    ensures More(args, SegmentListsFrom(args, from, segTime, variant, env))
    decreases |args| - from
  {
    hide TakesValue, Watched, Obs, Dash, SegmentUrl, IndexOf, SegmentListsFrom, More, Paired, Sane;
    SegmentStep(args, from, segTime, variant, env);
    var i := IndexOf(args, "-segment_list", from);
    if i >= 0 && i + 1 < |args| {
      Known();
      ValueAt(args, i);
      match SegmentUrl(args[i + 1], segTime, variant, env)
      case None => MoreSegments(args, i + 2, segTime, variant, env);
      case Some(url) =>
        SegmentUrlNoDash(args[i + 1], segTime, variant, env);
        SetValue(args, i, url);
        MoreSet(args, i + 1, url);
        MoreSegments(args[i + 1 := url], i + 2, segTime, variant, env);
        MoreThen(args, args[i + 1 := url], SegmentListsFrom(args[i + 1 := url], i + 2, segTime, variant, env));
    } else {
      MoreNow(args);
    }
  }

  lemma MoreLists(args: Argv, segTime: string, variant: Variant, env: Env)
    requires Paired(args) && Sane(env)
    ensures More(args, SegmentLists(args, segTime, variant, env))
  {
    hide More, Paired, Sane, SegmentListsFrom;
    MoreNow(args);
    if env.base != "" {
      MoreSegments(args, 0, segTime, variant, env);
    }
  }

  lemma MoreUrls(args: Argv, s: Session, env: Env)
    requires Paired(args) && Sane(env)
    ensures More(args, Urls(args, s, env))
  {
    hide More, Paired, Sane, SegmentLists, RewriteManifestName, CaptureProgressUrl, SegmentTime, Fewer;
    MoreNow(args);
    MoreLists(args, SegmentTime(args), Hls, env);
    FewerLists(args, SegmentTime(args), Hls, env);
    var a := if s.isHLS then SegmentLists(args, SegmentTime(args), Hls, env) else args;
    MoreLists(a, "", SideChannel, env);
    FewerLists(a, "", SideChannel, env);
    var b := SegmentLists(a, "", SideChannel, env);
    MoreManifest(b, env);
    IsPaired(b, env);
    var c := RewriteManifestName(b, env);
    MoreProgress(c, env);
    MoreThen(args, a, b);
    MoreThen(args, b, c);
    MoreThen(args, c, CaptureProgressUrl(c, env));
  }

  lemma IsPaired(args: Argv, env: Env)
    requires Paired(args) && Sane(env)
    ensures Paired(RewriteManifestName(args, env))
  {
    hide Paired, Obs, Sane, RewriteManifestName;
    ManifestSame(args, env);
  }

  lemma MoreManifest(args: Argv, env: Env)
    requires Paired(args) && Sane(env)
    ensures More(args, RewriteManifestName(args, env))
  {
    hide More, Paired, Sane, IndexOf, Relayed, Dash, TakesValue;
    var i := IndexOf(args, "-manifest_name", 0);
    MoreNow(args);
    if i >= 0 && i + 1 < |args| {
      Known();
      ValueAt(args, i);
      MorePair(args, i);
      MoreSet(args, i + 1, Relayed(args[i + 1], env));
    }
  }

  lemma MoreProgress(args: Argv, env: Env)
    requires Paired(args)
    ensures More(args, CaptureProgressUrl(args, env))
  {
    hide More, Paired, IndexOf, Relayed, Dash, TakesValue;
    var i := IndexOf(args, "-progressurl", 0);
    MoreNow(args);
    if i >= 0 {
      Known();
      ValueAt(args, i);
      MorePair(args, i);
      var r, ins := Remove(args, i, 2), ["-canthrottleurl", Relayed(args[i + 1], env)];
      MoreSplice(r, 0, ins);
      MoreThen(args, r, Splice(r, 0, ins));
    }
  }

  lemma MoreFinish(args: Argv, s: Session, env: Env)
    requires Paired(args) && Sane(env)
    ensures More(args, Finish(args, s, env))
  {
    hide More, Paired, Sane, UpgradeLoglevel, DropNostats, StripSink, Obs;
    var a := UpgradeLoglevel(args, env);
    MoreLoglevel(args, env);
    LoglevelSame(args, env);
    var b := DropNostats(a);
    MoreNostats(a);
    NostatsSame(a);
    MoreSink(b);
    MoreThen(args, a, b);
    MoreThen(args, b, StripSink(b));
  }

  lemma MoreLoglevel(args: Argv, env: Env)
    requires Paired(args)
    ensures More(args, UpgradeLoglevel(args, env))
  {
    hide More, Paired, IndexOf, Dash, TakesValue;
    var i := IndexOf(args, "-loglevel", 0);
    MoreNow(args);
    if i >= 0 && i + 1 < |args| {
      Known();
      ValueAt(args, i);
      MoreSet(args, i + 1, env.loglevel);
    }
  }

  lemma MoreNostats(args: Argv)
    ensures More(args, DropNostats(args))
  {
    hide More;
    MoreNow(args);
    var i := IndexOf(args, "-nostats", 0);
    if i >= 0 {
      MoreRemove(args, i, 1);
    }
  }

  lemma MoreSink(args: Argv)
    requires Paired(args)
    ensures More(args, StripSink(args))
  {
    hide More, KeepsSink, Paired, TakesValue;
    MoreNow(args);
    var i := FirstSink(args, 0);
    if i >= 0 {
      Known();
      ValueAt(args, i);
      MoreRemove(args, i, 7);
    }
  }

  lemma {:induction false} MoreCleaned(args: Argv, input: bool, noDecoder: bool)
    requires Paired(args)
    ensures More(args, Cleaned(args, input, noDecoder))
  {
    hide TakesValue, Dash, Paired, Cleaned, CleanPair;
    if args == [] {
      CleanedNothing(input, noDecoder);
    } else {
      Shape(args);
      if TakesValue(args[0]) {
        var f, v, x := args[0], args[1], args[2..];
        var c := Cleaned(x, input, noDecoder);
        MoreCleaned(x, input, noDecoder);
        CleanedPair(f, v, x, input, noDecoder);
        assert multiset([f, v] + x) == multiset{f} + multiset{v} + multiset(x);
        match CleanPair(f, v, input, noDecoder)
        case None =>
        case Some(w) =>
          assert multiset([f, w] + c) == multiset{f} + multiset{w} + multiset(c);
      } else {
        var t, x := args[0], args[1..];
        var c := Cleaned(x, input && t != "-i", noDecoder);
        MoreCleaned(x, input && t != "-i", noDecoder);
        CleanedToken(t, x, input, noDecoder);
        assert multiset([t] + x) == multiset{t} + multiset(x);
        assert multiset([t] + c) == multiset{t} + multiset(c);
      }
    }
  }

  lemma MoreGraph(args: Argv, s: Session)
    ensures More(args, AfterGraph(args, s))
  {
    hide More, PinApplies, InjectSei, Encoder;
    MoreNow(args);
    MorePin(args);
    MoreSei(Pinned(args), Encoder(args));
    MoreThen(args, Pinned(args), InjectSei(Pinned(args), Encoder(args)));
  }

  lemma MorePin(args: Argv)
    ensures More(args, Pinned(args))
  {
    hide More, Encoder, TenBit, Hevc, IndexOf, ProfileFlag;
    MoreNow(args);
    if PinApplies(args) {
      MoreSplice(args, Encoder(args) + 2, [ProfileFlag(args[Encoder(args)]), "main10"]);
    }
  }

  lemma MoreSei(args: Argv, encAt: int)
    requires encAt >= -1
    ensures More(args, InjectSei(args, encAt))
  {
    hide More, Selects, Ids;
    MoreNow(args);
    var i := SpecIndex(args, "-force_key_frames", 0, encAt + 1);
    if i >= 0 {
      MoreSplice(args, i, ["-sei:0", "-a53_cc"]);
    }
  }

  /**
   Options that no pass looks for come through the whole tail exactly as often as they went in,
   and the SEI flags it adds come out.
   */
  lemma TailKeeps(args: Argv, s: Session, env: Env, t: string)
    requires Paired(args) && Sane(env) && Dash(t) && !Handled(t)
    ensures Tail(args, s, env).Some?
    ensures var out := Tail(args, s, env).value;
            && multiset(args)[t] <= multiset(out)[t]
            && (!Ours(t) ==> multiset(out)[t] == multiset(args)[t])
            && (t in AfterGraph(args, s) ==> t in out)
  {
    hide *;
    TailIsBailed(args, s, env);
    TailLeaves(args, s, env);
    var g := AfterGraph(args, s);
    var c := Cleaned(g, "-i" in g, false);
    var u := Urls(c, s, env);
    MoreGraph(args, s);
    MoreCleaned(g, "-i" in g, false);
    MoreUrls(c, s, env);
    FewerUrls(c, s, env);
    MoreFinish(u, s, env);
    MoreThen(g, c, u);
    MoreThen(g, u, Finish(u, s, env));
    MoreThen(args, g, Finish(u, s, env));
    CountsOf(args, Finish(u, s, env), t);
    CountsOf(g, Finish(u, s, env), t);
    CountsBack(args, Finish(u, s, env), t);
  }

  lemma CountsOf(a: Argv, b: Argv, t: string)
    requires More(a, b) && Dash(t) && !Handled(t)
    ensures multiset(a)[t] <= multiset(b)[t] && (t in a ==> t in b)
  {
    assert t in a <==> multiset(a)[t] > 0;
    assert t in b <==> multiset(b)[t] > 0;
  }

  lemma CountsBack(a: Argv, b: Argv, t: string)
    requires Fewer(a, b) && Dash(t)
    ensures !Ours(t) ==> multiset(b)[t] <= multiset(a)[t]
  {}

  /**
   What the pinned argv goes through next: the SEI flags, on a hardware video session only, right
   before the first key-frame flag after the encoder, unless some SEI flag of the stream is there.
   */
  lemma GraphMeans(args: Argv, s: Session, k: nat)
    requires var p := Pinned(args);
             && Encoder(args) < k < |p| && FlagFor(p[k], "-force_key_frames", 0, Ids(p))
             && forall j :: Encoder(args) < j < k ==> !FlagFor(p[j], "-force_key_frames", 0, Ids(p))
    ensures var p := Pinned(args);
            AfterGraph(args, s)
            == if s.isRemux then args
               else if s.honorSW || s.honorHybrid
                       || exists j :: 0 <= j < |p| && FlagFor(p[j], "-sei", 0, Ids(p)) then p
               else p[..k] + ["-sei:0", "-a53_cc"] + p[k..]
  {
    hide Pinned, Encoder, FlagFor, Ids, InjectSei;
    SeiMeans(Pinned(args), Encoder(args), k);
  }

  lemma NoKeyFrames(args: Argv, s: Session)
    requires var p := Pinned(args);
             forall k :: Encoder(args) < k < |p| ==> !FlagFor(p[k], "-force_key_frames", 0, Ids(p))
    ensures AfterGraph(args, s) == if s.isRemux then args else Pinned(args)
  {
    hide Pinned, Encoder, FlagFor, Ids;
  }

  /** And the SEI flags put in reach the end of the tail. */
  lemma SeiReaches(args: Argv, s: Session, env: Env, k: nat)
    requires Paired(args) && Sane(env) && !s.isRemux && !s.honorSW && !s.honorHybrid
    requires var p := Pinned(args);
             && Encoder(args) < k < |p| && FlagFor(p[k], "-force_key_frames", 0, Ids(p))
             && (forall j :: Encoder(args) < j < k ==> !FlagFor(p[j], "-force_key_frames", 0, Ids(p)))
             && (forall j :: 0 <= j < |p| ==> !FlagFor(p[j], "-sei", 0, Ids(p)))
    ensures Tail(args, s, env).Some?
    ensures "-sei:0" in Tail(args, s, env).value && "-a53_cc" in Tail(args, s, env).value
  {
    hide Pinned, Encoder, FlagFor, Ids, AfterGraph, Tail, Paired, Sane, Handled, Dash;
    GraphMeans(args, s, k);
    var p := Pinned(args);
    var g := p[..k] + ["-sei:0", "-a53_cc"] + p[k..];
    assert g[k] == "-sei:0" && g[k + 1] == "-a53_cc";
    SeiUnhandled();
    TailKeeps(args, s, env, "-sei:0");
    TailKeeps(args, s, env, "-a53_cc");
  }

  lemma SeiUnhandled()
    ensures Dash("-sei:0") && !Handled("-sei:0") && Dash("-a53_cc") && !Handled("-a53_cc")
  {
    assert "-sei:0"[1] == 's' && "-a53_cc"[1] == 'a';
  }

  // ---------------------------------------------------------------- the url step

  /** The segment time is the value of the first such flag, and empty without one. */
  lemma SegmentTimeMeans(x: Argv, t: string, y: Argv)
    ensures "-segment_time" !in x ==> SegmentTime(x + ["-segment_time", t] + y) == t
    ensures "-segment_time" !in x ==> SegmentTime(x + ["-segment_time"]) == ""
    ensures "-segment_time" !in x ==> SegmentTime(x) == ""
  {
    if "-segment_time" !in x {
      FirstPair(x, "-segment_time", t, y, t);
      var args := x + ["-segment_time"];
      assert args[|x|] == "-segment_time" && forall k :: 0 <= k < |x| ==> args[k] == x[k];
    }
  }

  /** What the url step makes of a list url, for a session with this segment time. */
  function UrlFor(url: string, t: string, s: Session, env: Env): string {
    if env.base == "" || !("http://127.0.0.1:32400" <= url) then url
    else if Index(url, "stream=subtitles") >= 0 then Relayed(url, env)
    else if s.isHLS then if t == "" then Relayed(url, env) else And(Relayed(url, env), "scaleplex_seg_time=" + t)
    else url
  }

  /**
   The url step on the list urls of a well-formed argv: a session's own list goes to the relay with
   the segment time, on HLS only; a subtitle list goes there as it is; any other token stays.
   */
  lemma UrlsMeans(args: Argv, s: Session, env: Env, k: nat)
    requires Paired(args) && Sane(env) && k < |args|
    requires "-manifest_name" !in args && "-progressurl" !in args
    requires !("http://127.0.0.1:32400" <= Relayed(args[k], env))
    ensures |Urls(args, s, env)| == |args|
    ensures Urls(args, s, env)[k]
            == if k > 0 && args[k - 1] == "-segment_list" then UrlFor(args[k], SegmentTime(args), s, env) else args[k]
  {
    hide SegmentTime, Relayed, SegmentUrl, SegmentLists, Index, RewriteManifestName, CaptureProgressUrl, Sane, Dash;
    hide Paired, And, TailPasses.ListUrl, TailPasses.NewListUrl, Fewer, Obs, SegmentListsFrom;
    var t := SegmentTime(args);
    var a := if s.isHLS then SegmentLists(args, t, Hls, env) else args;
    FewerNow(args);
    FewerLists(args, t, Hls, env);
    FewerLists(a, "", SideChannel, env);
    var b := SegmentLists(a, "", SideChannel, env);
    FewerThen(args, a, b);
    ManifestCount(args, b);
    CountOf(args, b, "-progressurl");
    assert "-manifest_name" !in b && "-progressurl" !in b;
    NothingToDo(b, env);
    OneUrl(args, t, Hls, env, k);
    OneUrl(a, "", SideChannel, env, k);
    TwoPasses(args[k], t, s, env);
    if s.isHLS && k > 0 {
      OneUrl(args, t, Hls, env, k - 1);
    }
  }

  /** One pass over a well-formed argv, token by token. */
  lemma OneUrl(args: Argv, t: string, variant: Variant, env: Env, k: nat)
    requires Paired(args) && Sane(env) && k < |args|
    ensures var r := SegmentLists(args, t, variant, env);
            && |r| == |args|
            && r[k] == (if k > 0 && args[k - 1] == "-segment_list" then ListOf(args[k], t, variant, env) else args[k])
            && (r[k] == "-segment_list" <==> args[k] == "-segment_list")
  {
    hide SegmentUrl, SegmentListsFrom, Dash, Sane, Relayed, TakesValue;
    SegmentListsMeans(args, t, variant, env, k);
    Known();
    FlagsDash("-segment_list");
    if k > 0 && args[k - 1] == "-segment_list" {
      assert !Dash(args[k]);
      if k > 1 {
        assert args[k - 2] != "-segment_list";
      }
      if env.base != "" {
        SegmentUrlNoDash(args[k], t, variant, env);
      }
    }
  }

  function ListOf(url: string, t: string, variant: Variant, env: Env): string {
    if env.base == "" || SegmentUrl(url, t, variant, env).None? then url else SegmentUrl(url, t, variant, env).value
  }

  lemma TwoPasses(url: string, t: string, s: Session, env: Env)
    requires !("http://127.0.0.1:32400" <= Relayed(url, env))
    ensures ListOf(if s.isHLS then ListOf(url, t, Hls, env) else url, "", SideChannel, env) == UrlFor(url, t, s, env)
  {
    hide Relayed, SegmentUrl, Index, And;
    SegmentUrlMeans(url, t, Hls, env);
    AndIsOut(Relayed(url, env), "scaleplex_seg_time=" + t);
    var u := if s.isHLS then ListOf(url, t, Hls, env) else url;
    SegmentUrlMeans(u, "", SideChannel, env);
  }

  /** A longer query does not make an address a loopback one. */
  lemma AndIsOut(url: string, query: string)
    requires !("http://127.0.0.1:32400" <= url)
    ensures !("http://127.0.0.1:32400" <= And(url, query))
  {
    var lo, r := "http://127.0.0.1:32400", And(url, query);
    assert '?' !in lo && '&' !in lo;
    assert |url| < |lo| ==> lo[|url|] in lo;
    assert r[|url|] == '?' || r[|url|] == '&';
  }

  // ---------------------------------------------------------------- the values that come out

  /** Each of these flags is followed by a value of that kind. */
  ghost predicate Followed(args: Argv, flag: string, ok: string -> bool) {
    forall k :: 0 <= k < |args| && args[k] == flag ==> k + 1 < |args| && ok(args[k + 1])
  }

  lemma FollowRemove(args: Argv, i: nat, n: nat, flag: string, ok: string -> bool)
    requires Paired(args) && i + n <= |args| && i < |args| && Dash(args[i]) && TakesValue(flag)
    requires Followed(args, flag, ok)
    ensures Followed(Remove(args, i, n), flag, ok)
  {
    hide Dash, TakesValue, Paired;
    var r := Remove(args, i, n);
    BeforeDash(args, i);
    forall k | 0 <= k < |r| && r[k] == flag
      ensures k + 1 < |r| && ok(r[k + 1])
    {
      RemoveAt(args, i, n, k);
      var m := if k < i then k else k + n;
      assert args[m] == flag && m != i - 1;
      assert ok(args[m + 1]);
      if k + 1 < |r| {
        RemoveAt(args, i, n, k + 1);
      }
    }
  }

  lemma FollowFront(args: Argv, ins: Argv, flag: string, ok: string -> bool)
    requires Followed(args, flag, ok) && flag !in ins
    ensures Followed(Splice(args, 0, ins), flag, ok)
  {
    var r := Splice(args, 0, ins);
    assert args[..0] == [] && args[0..] == args && r == ins + args;
    forall k | 0 <= k < |r| && r[k] == flag
      ensures k + 1 < |r| && ok(r[k + 1])
    {
      assert k >= |ins| && r[k] == args[k - |ins|];
    }
  }

  lemma FollowSet(args: Argv, i: nat, v: string, flag: string, ok: string -> bool)
    requires Followed(args, flag, ok) && i + 1 < |args| && args[i] != flag && v != flag
    ensures Followed(args[i + 1 := v], flag, ok)
  {}

  lemma FollowNone(args: Argv, flag: string, ok: string -> bool)
    requires flag !in args
    ensures Followed(args, flag, ok)
  {}

  lemma FollowFinish(args: Argv, s: Session, env: Env, flag: string, ok: string -> bool)
    requires Paired(args) && Sane(env) && TakesValue(flag) && flag != "-loglevel" && flag != "-map"
    requires Followed(args, flag, ok)
    ensures Followed(Finish(args, s, env), flag, ok)
  {
    hide Followed, Paired, Sane, TakesValue, Obs, KeepsSink, FirstSink, IndexOf;
    var a := UpgradeLoglevel(args, env);
    LoglevelSame(args, env);
    FollowLoglevel(args, env, flag, ok);
    NostatsSame(a);
    FollowNostats(a, flag, ok);
    FollowSink(DropNostats(a), flag, ok);
  }

  lemma FollowLoglevel(args: Argv, env: Env, flag: string, ok: string -> bool)
    requires Paired(args) && Sane(env) && TakesValue(flag) && flag != "-loglevel" && Followed(args, flag, ok)
    ensures Followed(UpgradeLoglevel(args, env), flag, ok)
  {
    hide Followed, Paired, TakesValue, IndexOf, Dash;
    var i := IndexOf(args, "-loglevel", 0);
    FlagsDash(flag);
    if i >= 0 && i + 1 < |args| {
      FollowSet(args, i, env.loglevel, flag, ok);
    }
  }

  lemma FollowNostats(args: Argv, flag: string, ok: string -> bool)
    requires Paired(args) && TakesValue(flag) && Followed(args, flag, ok)
    ensures Followed(DropNostats(args), flag, ok)
  {
    hide Followed, Paired, TakesValue, IndexOf, Dash;
    var i := IndexOf(args, "-nostats", 0);
    KnownTokens();
    if i >= 0 {
      FollowRemove(args, i, 1, flag, ok);
    }
  }

  lemma FollowSink(args: Argv, flag: string, ok: string -> bool)
    requires Paired(args) && TakesValue(flag) && flag != "-map" && Followed(args, flag, ok)
    ensures Followed(StripSink(args), flag, ok)
  {
    hide Followed, Paired, TakesValue, KeepsSink, Dash;
    var i := FirstSink(args, 0);
    if i >= 0 {
      Known();
      FlagsDash("-map");
      FlagsDash(flag);
      NullfileIsNoOption();
      FollowRemove(args, i, 7, flag, ok);
    }
  }

  lemma NullfileIsNoOption()
    ensures !Dash("nullfile")
  {}

  /** The value is no level that hides what the media server waits for. */
  function Loud(): string -> bool {
    v => v != "quiet" && v != "panic" && v != "fatal"
  }

  /** With at most one log level in it, an argv leaves the tail with one the media server can read. */
  lemma TailIsLoud(args: Argv, s: Session, env: Env)
    requires Paired(args) && Sane(env) && multiset(args)["-loglevel"] <= 1 && Loud()(env.loglevel)
    ensures Tail(args, s, env).Some? && Followed(Tail(args, s, env).value, "-loglevel", Loud())
  {
    hide *;
    TailIsBailed(args, s, env);
    FewerGraph(args, s);
    var g := AfterGraph(args, s);
    var c := Cleaned(g, "-i" in g, false);
    FewerCleaned(g, "-i" in g, false);
    FewerUrls(c, s, env);
    FewerThen(args, g, c);
    FewerThen(args, c, Urls(c, s, env));
    LoglevelCount(args, Urls(c, s, env));
    LoudFinish(Urls(c, s, env), s, env);
  }

  lemma LoglevelCount(a: Argv, b: Argv)
    requires Fewer(a, b)
    ensures multiset(b)["-loglevel"] <= multiset(a)["-loglevel"]
  {
    assert "-loglevel"[1] == 'l' && Dash("-loglevel") && !Ours("-loglevel");
  }

  lemma LoudFinish(args: Argv, s: Session, env: Env)
    requires Paired(args) && Sane(env) && multiset(args)["-loglevel"] <= 1 && Loud()(env.loglevel)
    ensures Followed(Finish(args, s, env), "-loglevel", Loud())
  {
    hide Followed, Paired, Sane, TakesValue, Obs, UpgradeLoglevel, DropNostats, StripSink, Dash;
    var a := UpgradeLoglevel(args, env);
    LoglevelSame(args, env);
    LoudUpgrade(args, env);
    Known();
    NostatsSame(a);
    FollowNostats(a, "-loglevel", Loud());
    FollowSink(DropNostats(a), "-loglevel", Loud());
  }

  lemma LoudUpgrade(args: Argv, env: Env)
    requires Paired(args) && Sane(env) && multiset(args)["-loglevel"] <= 1 && Loud()(env.loglevel)
    ensures Followed(UpgradeLoglevel(args, env), "-loglevel", Loud())
  {
    hide Paired, TakesValue, Dash;
    var i := IndexOf(args, "-loglevel", 0);
    Known();
    if i >= 0 {
      ValueAt(args, i);
      OnceAt(args, "-loglevel", i);
      FlagsDash("-loglevel");
    }
  }

  lemma OnceAt(args: Argv, t: string, i: nat)
    requires i < |args| && args[i] == t && multiset(args)[t] <= 1
    ensures forall k :: 0 <= k < |args| && args[k] == t ==> k == i
  {
    var x, y := args[..i], args[i + 1..];
    assert args == x + [t] + y;
    assert multiset(x + [t] + y) == multiset(x) + multiset{t} + multiset(y);
    assert t !in x && t !in y;
    forall k | 0 <= k < |args| && k != i
      ensures args[k] != t
    {
      if k < i {
        assert args[k] == x[k];
      } else {
        assert args[k] == y[k - i - 1];
      }
    }
  }

  /** The value is an address of the relay, or was no loopback address to begin with. */
  function Reachable(env: Env): string -> bool {
    v => env.base <= v || !("http://127.0.0.1:32400" <= v)
  }

  lemma ReachableRelay(url: string, env: Env)
    requires "http://127.0.0.1:32400" <= url
    ensures env.base <= Relayed(url, env)
  {
    var path := url[22..];
    assert |"http://127.0.0.1:32400"| == 22 && url == "http://127.0.0.1:32400" + path;
    RelayedMeans(path, env);
  }

  /** Every -manifest_name of the tail's output points where the worker can reach it, if there was at most one. */
  lemma ManifestReachable(args: Argv, env: Env)
    requires Paired(args) && Sane(env) && multiset(args)["-manifest_name"] <= 1
    ensures Followed(RewriteManifestName(args, env), "-manifest_name", Reachable(env))
    ensures env.base == "" ==> "-manifest_name" !in RewriteManifestName(args, env)
  {
    hide Paired, TakesValue, Dash, Relayed, IndexOf, Followed, Reachable;
    var i := IndexOf(args, "-manifest_name", 0);
    Known();
    var r := RewriteManifestName(args, env);
    if i < 0 {
      FollowNone(args, "-manifest_name", Reachable(env));
    } else {
      ValueAt(args, i);
      OnceAt(args, "-manifest_name", i);
      if env.base != "" && LOOPBACK <= args[i + 1] {
        ReachableRelay(args[i + 1], env);
        RelayedNoDash(args[i + 1], env);
        OnlyOne(args, i, Relayed(args[i + 1], env), env);
      } else {
        GoneWith(args, i, "-manifest_name");
        FollowNone(r, "-manifest_name", Reachable(env));
      }
    }
  }

  lemma OnlyOne(args: Argv, i: nat, v: string, env: Env)
    requires i + 1 < |args| && !Dash(v) && env.base <= v
    requires forall k :: 0 <= k < |args| && args[k] == "-manifest_name" ==> k == i
    ensures Followed(args[i + 1 := v], "-manifest_name", Reachable(env))
  {
    FlagsDash("-manifest_name");
    Known();
    hide Dash;
    var r := args[i + 1 := v];
    assert r[i + 1] == v && v != "-manifest_name";
  }

  lemma GoneWith(args: Argv, i: nat, t: string)
    requires i + 1 < |args| && forall k :: 0 <= k < |args| && args[k] == t ==> k == i
    ensures t !in Remove(args, i, 2)
  {
    var r := Remove(args, i, 2);
    forall k | 0 <= k < |r|
      ensures r[k] != t
    {
      RemoveAt(args, i, 2, k);
    }
  }

  lemma FollowProgress(args: Argv, env: Env, flag: string, ok: string -> bool)
    requires Paired(args) && Sane(env) && TakesValue(flag) && Followed(args, flag, ok)
    ensures Followed(CaptureProgressUrl(args, env), flag, ok)
  {
    hide Followed, Paired, TakesValue, IndexOf, Dash, Relayed, Sane;
    var i := IndexOf(args, "-progressurl", 0);
    Known();
    FlagsDash(flag);
    if i >= 0 {
      ValueAt(args, i);
      FlagsDash("-progressurl");
      FollowRemove(args, i, 2, flag, ok);
      if env.base != "" {
        RelayedNoDash(args[i + 1], env);
        KnownTokens();
        FollowFront(Remove(args, i, 2), ["-canthrottleurl", Relayed(args[i + 1], env)], flag, ok);
      }
    }
  }

  lemma FollowManifest(args: Argv, env: Env, flag: string, ok: string -> bool)
    requires Paired(args) && Sane(env) && TakesValue(flag) && flag != "-manifest_name" && Followed(args, flag, ok)
    ensures Followed(RewriteManifestName(args, env), flag, ok)
  {
    hide Followed, Paired, TakesValue, IndexOf, Dash, Relayed, Sane;
    var i := IndexOf(args, "-manifest_name", 0);
    Known();
    FlagsDash(flag);
    if i >= 0 {
      ValueAt(args, i);
      FlagsDash("-manifest_name");
      FollowRemove(args, i, 2, flag, ok);
      if env.base != "" {
        RelayedNoDash(args[i + 1], env);
        FollowSet(args, i, Relayed(args[i + 1], env), flag, ok);
      }
    }
  }

  /** What a list pass makes of the values, told value by value. */
  lemma FollowLists(args: Argv, segTime: string, variant: Variant, env: Env,
                    ok: string -> bool, after: string -> bool)
    requires Paired(args) && Sane(env) && env.base != ""
    requires Followed(args, "-segment_list", ok)
    requires forall u :: ok(u) ==> after(NewListUrl(u, segTime, variant, env))
    ensures Followed(SegmentLists(args, segTime, variant, env), "-segment_list", after)
  {
    hide Paired, Obs, TakesValue, Dash, SegmentListsFrom, ListUrl, SegmentUrl, Sane, NewListUrl;
    var r := SegmentLists(args, segTime, variant, env);
    Known();
    FlagsDash("-segment_list");
    forall k | 0 <= k < |r| && r[k] == "-segment_list"
      ensures k + 1 < |r| && after(r[k + 1])
    {
      SegmentListsMeans(args, segTime, variant, env, k);
      if ListUrl(args, k) {
        UrlIsValue(args, k);
        NewUrlNoDash(args[k], segTime, variant, env);
      } else {
        assert args[k] == "-segment_list" && ok(args[k + 1]);
        IsListUrl(args, k + 1);
        SegmentListsMeans(args, segTime, variant, env, k + 1);
      }
    }
  }

  lemma NewUrlNoDash(url: string, segTime: string, variant: Variant, env: Env)
    requires Sane(env) && env.base != "" && !Dash(url)
    ensures !Dash(NewListUrl(url, segTime, variant, env))
  {
    hide Dash, SegmentUrl, Sane;
    SegmentUrlNoDash(url, segTime, variant, env);
  }

  /** Reachable, or still to be relayed by the side-channel pass. */
  function AfterHls(env: Env): string -> bool {
    v => env.base <= v || !("http://127.0.0.1:32400" <= v) || Index(v, "stream=subtitles") >= 0
  }

  function AnyValue(): string -> bool {
    v => true
  }

  lemma NewUrlReachable(u: string, segTime: string, variant: Variant, env: Env)
    ensures variant.Hls? ==> AfterHls(env)(NewListUrl(u, segTime, variant, env))
    ensures variant.Bailing? ==> Reachable(env)(NewListUrl(u, segTime, variant, env))
    ensures variant.SideChannel? && AfterHls(env)(u) ==> Reachable(env)(NewListUrl(u, segTime, variant, env))
  {
    hide Index, Relayed, SegmentUrl;
    SegmentUrlMeans(u, segTime, variant, env);
    if "http://127.0.0.1:32400" <= u {
      ReachableRelay(u, env);
    }
  }

  lemma ListsOfHls(args: Argv, segTime: string, env: Env)
    requires Paired(args) && Sane(env) && env.base != ""
    ensures Followed(SegmentLists(SegmentLists(args, segTime, Hls, env), "", SideChannel, env),
                     "-segment_list", Reachable(env))
  {
    hide Paired, Followed, SegmentLists, AfterHls, Reachable, NewListUrl, Sane, AnyValue, Fewer;
    AnyFollowed(args);
    forall u
      ensures AfterHls(env)(NewListUrl(u, segTime, Hls, env))
      ensures AfterHls(env)(u) ==> Reachable(env)(NewListUrl(u, "", SideChannel, env))
    {
      NewUrlReachable(u, segTime, Hls, env);
      NewUrlReachable(u, "", SideChannel, env);
    }
    FollowLists(args, segTime, Hls, env, AnyValue(), AfterHls(env));
    FewerLists(args, segTime, Hls, env);
    FollowLists(SegmentLists(args, segTime, Hls, env), "", SideChannel, env, AfterHls(env), Reachable(env));
  }

  lemma AnyFollowed(args: Argv)
    requires Paired(args)
    ensures Followed(args, "-segment_list", AnyValue())
  {
    hide TakesValue, Dash;
    Known();
  }

  /** The same of a bail's scrub. */
  lemma ListsOfBail(args: Argv, env: Env)
    requires Paired(args) && Sane(env) && env.base != ""
    ensures Followed(SegmentLists(args, "", Bailing, env), "-segment_list", Reachable(env))
  {
    hide Paired, Followed, SegmentLists, Reachable, NewListUrl, Sane, AnyValue;
    AnyFollowed(args);
    forall u
      ensures Reachable(env)(NewListUrl(u, "", Bailing, env))
    {
      NewUrlReachable(u, "", Bailing, env);
    }
    FollowLists(args, "", Bailing, env, AnyValue(), Reachable(env));
  }

  /**
   With a relay configured, every list url of an HLS session, and its manifest url if there is at
   most one, leaves the tail as an address the worker can reach.
   */
  lemma TailReachable(args: Argv, s: Session, env: Env)
    requires Paired(args) && Sane(env) && env.base != ""
    ensures Tail(args, s, env).Some?
    ensures s.isHLS ==> Followed(Tail(args, s, env).value, "-segment_list", Reachable(env))
    ensures multiset(args)["-manifest_name"] <= 1 ==>
              Followed(Tail(args, s, env).value, "-manifest_name", Reachable(env))
  {
    hide *;
    TailIsBailed(args, s, env);
    var g := AfterGraph(args, s);
    FewerGraph(args, s);
    var c := Cleaned(g, "-i" in g, false);
    FewerCleaned(g, "-i" in g, false);
    FewerThen(args, g, c);
    UrlsReachable(args, c, s, env);
    FewerUrls(c, s, env);
    Known();
    if s.isHLS {
      FollowFinish(Urls(c, s, env), s, env, "-segment_list", Reachable(env));
    }
    if multiset(args)["-manifest_name"] <= 1 {
      FollowFinish(Urls(c, s, env), s, env, "-manifest_name", Reachable(env));
    }
  }

  lemma UrlsReachable(args: Argv, c: Argv, s: Session, env: Env)
    requires Paired(c) && Sane(env) && env.base != "" && Fewer(args, c)
    ensures s.isHLS ==> Followed(Urls(c, s, env), "-segment_list", Reachable(env))
    ensures multiset(args)["-manifest_name"] <= 1 ==> Followed(Urls(c, s, env), "-manifest_name", Reachable(env))
  {
    hide Fewer, Followed, Paired, Sane, SegmentLists, RewriteManifestName, CaptureProgressUrl, SegmentTime, Reachable;
    hide TakesValue;
    var a := if s.isHLS then SegmentLists(c, SegmentTime(c), Hls, env) else c;
    FewerNow(c);
    FewerLists(c, SegmentTime(c), Hls, env);
    var b := SegmentLists(a, "", SideChannel, env);
    FewerLists(a, "", SideChannel, env);
    FewerThen(args, c, a);
    FewerThen(args, a, b);
    ManifestCount(args, b);
    var m := RewriteManifestName(b, env);
    IsPaired(b, env);
    Known();
    if s.isHLS {
      ListsOfHls(c, SegmentTime(c), env);
      FollowManifest(b, env, "-segment_list", Reachable(env));
      FollowProgress(m, env, "-segment_list", Reachable(env));
    }
    if multiset(args)["-manifest_name"] <= 1 {
      ManifestReachable(b, env);
      FollowProgress(m, env, "-manifest_name", Reachable(env));
    }
  }

  lemma ManifestCount(a: Argv, b: Argv)
    requires Fewer(a, b)
    ensures multiset(b)["-manifest_name"] <= multiset(a)["-manifest_name"]
  {
    assert "-manifest_name"[1] == 'm' && Dash("-manifest_name") && !Ours("-manifest_name");
  }

  /** And so do those of a bail: its scrub leaves no loopback url behind these two flags. */
  lemma ScrubReachable(args: Argv, env: Env)
    requires Paired(args) && Sane(env)
    ensures env.base != "" ==> Followed(Scrubbed(args, env), "-segment_list", Reachable(env))
    ensures multiset(args)["-manifest_name"] <= 1 ==>
              && Followed(Scrubbed(args, env), "-manifest_name", Reachable(env))
              && (env.base == "" ==> "-manifest_name" !in Scrubbed(args, env))
  {
    hide Fewer, Followed, Paired, Sane, SegmentLists, RewriteManifestName, DropProgress, Reachable, Obs, TakesValue;
    var p := DropProgress(args);
    DropProgressSame(args);
    FewerDropped(args);
    var q := SegmentLists(p, "", Bailing, env);
    FewerLists(p, "", Bailing, env);
    FewerThen(args, p, q);
    ManifestCount(args, q);
    Known();
    if env.base != "" {
      ListsOfBail(p, env);
      FollowManifest(q, env, "-segment_list", Reachable(env));
    }
    if multiset(args)["-manifest_name"] <= 1 {
      ManifestReachable(q, env);
    }
  }

  lemma {:induction false} FewerDropped(args: Argv)
    ensures Fewer(args, DropProgress(args))
    decreases |args|
  {
    hide Fewer, DropProgress, IndexOf;
    DropProgressStep(args);
    FewerNow(args);
    var i := IndexOf(args, "-progressurl", 0);
    if i >= 0 && i + 1 < |args| {
      FewerRemove(args, i, 2);
      FewerDropped(Remove(args, i, 2));
      FewerThen(args, Remove(args, i, 2), DropProgress(Remove(args, i, 2)));
    }
  }
}
