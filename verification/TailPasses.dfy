/**
 The passes of a rewrite that run after the Main10 pin, and why each leaves the
 argv's filtergraphs and encoder profiles alone.
 */
module TailPasses {
  import opened Prelude
  import opened Search
  import opened Args
  import opened AudioClean
  import opened StreamSpec
  import opened Observed

  /** What the passes read from the environment. */
  datatype Env = Env(base: string, token: string, loglevel: string, throttleDisabled: bool)

  /** The relay's address and the log level are not options. */
  predicate Sane(env: Env) {
    !Dash(env.base) && !Dash(env.loglevel)
  }

  // ---------------------------------------------------------------- URLs

  const LOOPBACK := "http://127.0.0.1:32400"

  function ReplaceFirst(s: string, what: string, with: string): string {
    var i := Index(s, what);
    if i < 0 then s else s[..i] + with + s[i + |what|..]
  }

  function WithQuery(url: string, kv: string): string {
    if '?' in url then url + "&" + kv else url + "?" + kv
  }

  /** The loopback address replaced by the relay's, and the session token appended. */
  function Relayed(url: string, env: Env): string {
    var r := ReplaceFirst(url, LOOPBACK, env.base);
    if env.token == "" then r else WithQuery(r, "X-Plex-Token=" + env.token)
  }

  lemma QueryNoDash(url: string, kv: string)
    requires !Dash(url)
    ensures !Dash(WithQuery(url, kv))
  {}

  lemma RelayedNoDash(url: string, env: Env)
    requires Sane(env) && env.base != "" && !Dash(url)
    ensures !Dash(Relayed(url, env))
  {
    hide Index;
    assert !Dash(ReplaceFirst(url, LOOPBACK, env.base));
    hide Dash, ReplaceFirst, WithQuery;
    QueryNoDash(ReplaceFirst(url, LOOPBACK, env.base), "X-Plex-Token=" + env.token);
  }

  // ---------------------------------------------------------------- -segment_list

  /** Which list urls a pass is after: the stream's own, the subtitle side channel's, or (on a bail) any. */
  datatype Variant = Hls | SideChannel | Bailing

  function SegmentUrl(url: string, segTime: string, variant: Variant, env: Env): Option<string> {
    var isSub := Index(url, "stream=subtitles") >= 0;
    if !(LOOPBACK <= url) || (variant == Hls && isSub) || (variant == SideChannel && !isSub) then None
    else if variant == Hls && segTime != "" then Some(WithQuery(Relayed(url, env), "scaleplex_seg_time=" + segTime))
    else Some(Relayed(url, env))
  }

  function SegmentListsFrom(args: Argv, from: nat, segTime: string, variant: Variant, env: Env): (r: Argv)
    ensures |r| == |args|
    decreases |args| - from
  {
    var i := IndexOf(args, "-segment_list", from);
    if i < 0 || i + 1 >= |args| then args
    else
      var next := match SegmentUrl(args[i + 1], segTime, variant, env)
                  case None => args
                  case Some(url) => args[i + 1 := url];
      SegmentListsFrom(next, i + 2, segTime, variant, env)
  }

  function SegmentLists(args: Argv, segTime: string, variant: Variant, env: Env): Argv {
    if env.base == "" then args else SegmentListsFrom(args, 0, segTime, variant, env)
  }

  /** rewriteSegmentList, in place. */
  method RewriteSegmentList(args: array<string>, env: Env, segTime: string, variant: Variant)
    modifies args
    ensures args[..] == SegmentLists(old(args[..]), segTime, variant, env)
  {
    hide SegmentListsFrom, SegmentUrl, IndexOf;
    if env.base == "" {
      return;
    }
    ghost var was := args[..];
    var from := 0;
    while true
      invariant SegmentListsFrom(args[..], from, segTime, variant, env)
                == SegmentListsFrom(was, 0, segTime, variant, env)
      decreases args.Length - from
    {
      SegmentStep(args[..], from, segTime, variant, env);
      var i := IndexOf(args[..], "-segment_list", from);
      if i < 0 || i + 1 >= args.Length {
        return;
      }
      from := i + 2;
      var url := SegmentUrl(args[i + 1], segTime, variant, env);
      if url.None? {
        continue;
      }
      ghost var before := args[..];
      args[i + 1] := url.value;
      assert args[..] == before[i + 1 := url.value];
    }
  }

  lemma SegmentStep(args: Argv, from: nat, segTime: string, variant: Variant, env: Env)
    ensures var i := IndexOf(args, "-segment_list", from);
            && (i < 0 || from <= i)
            && SegmentListsFrom(args, from, segTime, variant, env)
               == if i < 0 || i + 1 >= |args| then args
                  else SegmentListsFrom(match SegmentUrl(args[i + 1], segTime, variant, env)
                                        case None => args
                                        case Some(url) => args[i + 1 := url], i + 2, segTime, variant, env)
  {
    hide SegmentUrl, IndexOf;
  }

  lemma SegmentUrlNoDash(url: string, segTime: string, variant: Variant, env: Env)
    requires Sane(env) && env.base != "" && !Dash(url)
    ensures SegmentUrl(url, segTime, variant, env).Some? ==> !Dash(SegmentUrl(url, segTime, variant, env).value)
  {
    hide Dash, Index, Relayed, WithQuery;
    RelayedNoDash(url, env);
    QueryNoDash(Relayed(url, env), "scaleplex_seg_time=" + segTime);
  }

  lemma {:induction false} SegmentListsSame(args: Argv, from: nat, segTime: string, variant: Variant, env: Env)
    requires Paired(args) && Sane(env) && env.base != ""
    ensures Same(args, SegmentListsFrom(args, from, segTime, variant, env))
    decreases |args| - from
  {
    hide TakesValue, Watched, Obs, Dash, SegmentUrl, IndexOf, SegmentListsFrom;
    SegmentStep(args, from, segTime, variant, env);
    var i := IndexOf(args, "-segment_list", from);
    if i >= 0 && i + 1 < |args| {
      Known();
      ValueAt(args, i);
      match SegmentUrl(args[i + 1], segTime, variant, env)
      case None => SegmentListsSame(args, i + 2, segTime, variant, env);
      case Some(url) =>
        SegmentUrlNoDash(args[i + 1], segTime, variant, env);
        SetValue(args, i, url);
        SegmentListsSame(args[i + 1 := url], i + 2, segTime, variant, env);
    }
  }

  /** Token `k` is the value of a -segment_list flag, one that is not itself such a value. */
  predicate ListUrl(args: Argv, k: nat)
    requires k <= |args|
  {
    k > 0 && args[k - 1] == "-segment_list" && !ListUrl(args, k - 1)
  }

  /**
   The tokens that change, in any argv: exactly the values of -segment_list flags that name the
   loopback and belong to the variant, each to its relayed form. No other token moves.
   */
  lemma SegmentListsMeans(args: Argv, segTime: string, variant: Variant, env: Env, k: nat)
    requires k < |args|
    ensures SegmentLists(args, segTime, variant, env)[k]
            == if env.base != "" && ListUrl(args, k) then NewListUrl(args[k], segTime, variant, env) else args[k]
  {
    hide ListUrl, SegmentListsFrom, NewListUrl;
    if env.base != "" {
      NotListUrl(args, 0);
      SegmentsFromMeans(args, 0, segTime, variant, env, k);
    }
  }

  function NewListUrl(url: string, segTime: string, variant: Variant, env: Env): string {
    match SegmentUrl(url, segTime, variant, env)
    case None => url
    case Some(relayed) => relayed
  }

  lemma {:induction false} SegmentsFromMeans(args: Argv, from: nat, segTime: string, variant: Variant, env: Env, k: nat)
    requires k < |args| && (from <= |args| ==> !ListUrl(args, from))
    ensures SegmentListsFrom(args, from, segTime, variant, env)[k]
            == if k >= from && ListUrl(args, k) then NewListUrl(args[k], segTime, variant, env) else args[k]
    decreases |args| - from
  {
    hide ListUrl, SegmentUrl, IndexOf, SegmentListsFrom;
    SegmentStep(args, from, segTime, variant, env);
    var i := IndexOf(args, "-segment_list", from);
    if i < 0 || i + 1 >= |args| {
      if k >= from {
        NoFlagBetween(args, from, if i < 0 then |args| else i, k);
      }
    } else {
      NoFlagBetween(args, from, i, i);
      IsListUrl(args, i + 1);
      var next := args[i + 1 := NewListUrl(args[i + 1], segTime, variant, env)];
      assert args[i + 1 := args[i + 1]] == args;
      AfterUrl(args, next, i, k);
      SegmentsFromMeans(next, i + 2, segTime, variant, env, k);
      if from <= k <= i {
        NoFlagBetween(args, from, i, k);
      }
    }
  }

  lemma NotListUrl(args: Argv, k: nat)
    requires k <= |args| && (k == 0 || args[k - 1] != "-segment_list")
    ensures !ListUrl(args, k)
  {}

  lemma IsListUrl(args: Argv, k: nat)
    requires 0 < k <= |args| && args[k - 1] == "-segment_list"
    ensures ListUrl(args, k) <==> !ListUrl(args, k - 1)
  {}

  lemma NoFlagBetween(args: Argv, from: nat, i: nat, k: nat)
    requires from <= k <= i <= |args| && !ListUrl(args, from)
    requires forall j :: from <= j < i ==> args[j] != "-segment_list"
    ensures !ListUrl(args, k)
  {
    hide ListUrl;
    if k > from {
      assert args[k - 1] != "-segment_list";
      NotListUrl(args, k);
    }
  }

  /** Changing a value changes no later token's role. */
  lemma AfterUrl(args: Argv, next: Argv, i: nat, k: nat)
    requires i + 1 < |args| && args[i] == "-segment_list" && !ListUrl(args, i)
    requires |next| == |args| && next[..i + 1] == args[..i + 1] && next[i + 2..] == args[i + 2..]
    requires k < |args|
    ensures !ListUrl(next, i + 2)
    ensures k >= i + 2 ==> next[k] == args[k] && ListUrl(next, k) == ListUrl(args, k)
  {
    hide ListUrl;
    assert next[i] == args[..i + 1][i];
    SameBefore(args, next, i + 1, i);
    TwoOn(args, i);
    TwoOn(next, i);
    if k >= i + 2 {
      assert next[k] == args[i + 2..][k - (i + 2)];
      SameAfter(args, next, i + 2, k);
    }
  }

  lemma TwoOn(args: Argv, i: nat)
    requires i + 1 < |args| && args[i] == "-segment_list" && !ListUrl(args, i)
    ensures !ListUrl(args, i + 2)
  {
    hide ListUrl;
    IsListUrl(args, i + 1);
    if args[i + 1] == "-segment_list" {
      IsListUrl(args, i + 2);
    } else {
      NotListUrl(args, i + 2);
    }
  }

  lemma {:induction false} SameBefore(args: Argv, next: Argv, n: nat, k: nat)
    requires n <= |args| && n <= |next| && next[..n] == args[..n] && k <= n
    ensures ListUrl(next, k) == ListUrl(args, k)
  {
    if k > 0 {
      assert next[..n][k - 1] == args[..n][k - 1];
      SameBefore(args, next, n, k - 1);
    }
  }

  lemma {:induction false} SameAfter(args: Argv, next: Argv, n: nat, k: nat)
    requires n <= k < |args| == |next| && next[n..] == args[n..] && ListUrl(next, n) == ListUrl(args, n)
    ensures ListUrl(next, k) == ListUrl(args, k)
  {
    if k > n {
      assert next[n..][k - 1 - n] == args[n..][k - 1 - n];
      SameAfter(args, next, n, k - 1);
    }
  }

  lemma FlagLetters(s: string)
    requires TakesValue(s)
    ensures |s| >= 4
    ensures || (s[1] == 'c' && (s[2] == ':' || (|s| >= 7 && s[2] == 'o' && s[6] == ':')))
            || s[1] in ['e', 'b', 'p', 'f', 'm', 'l']
            || (s[1] == 's' && s[3] == 'g')
  {}

  lemma WatchedLetters(s: string)
    requires Watched(s)
    ensures |s| >= 8 && (s[1] == 'f' || (s[1] == 'p' && s[5] == 'i'))
  {}

  lemma Unwatched(s: string)
    requires |s| < 8 || (s[1] != 'f' && (s[1] != 'p' || s[5] != 'i'))
    ensures !Watched(s)
  {
    hide Watched;
    if Watched(s) {
      WatchedLetters(s);
    }
  }

  lemma NoFlag(s: string)
    requires |s| < 4
             || (s[1] != 's' && s[1] !in ['c', 'e', 'b', 'p', 'f', 'm', 'l'])
             || (s[1] == 's' && s[3] != 'g')
             || (s[1] == 'c' && s[2] != ':' && (|s| < 7 || s[2] != 'o' || s[6] != ':'))
    ensures !TakesValue(s)
  {
    hide TakesValue;
    if TakesValue(s) {
      FlagLetters(s);
    }
  }

  /** The flags these passes look for. */
  lemma Known()
    ensures TakesValue("-segment_list") && !Watched("-segment_list")
    ensures TakesValue("-manifest_name") && !Watched("-manifest_name")
    ensures TakesValue("-progressurl") && !Watched("-progressurl")
    ensures TakesValue("-loglevel") && !Watched("-loglevel")
    ensures TakesValue("-map") && !Watched("-map")
  {
    hide Watched;
    Unwatched("-segment_list");
    Unwatched("-manifest_name");
    Unwatched("-progressurl");
    Unwatched("-loglevel");
    Unwatched("-map");
  }

  lemma KnownTokens()
    ensures !TakesValue("-nostats") && Dash("-nostats")
    ensures !TakesValue("-canthrottleurl") && !TakesValue("-sei:0") && !TakesValue("-a53_cc")
    ensures !TakesValue("-f") && !TakesValue("-codec")
  {
    hide TakesValue;
    NoFlag("-nostats");
    NoFlag("-canthrottleurl");
    NoFlag("-sei:0");
    NoFlag("-a53_cc");
    NoFlag("-f");
    NoFlag("-codec");
  }

  // ---------------------------------------------------------------- -manifest_name, -progressurl, -loglevel, -nostats

  function RewriteManifestName(args: Argv, env: Env): Argv {
    var i := IndexOf(args, "-manifest_name", 0);
    if i < 0 || i + 1 >= |args| then args
    else if env.base != "" && LOOPBACK <= args[i + 1] then args[i + 1 := Relayed(args[i + 1], env)]
    else Remove(args, i, 2)
  }

  lemma ManifestSame(args: Argv, env: Env)
    requires Paired(args) && Sane(env)
    ensures Same(args, RewriteManifestName(args, env))
  {
    hide TakesValue, Watched, Obs, Dash, Relayed;
    Known();
    var i := IndexOf(args, "-manifest_name", 0);
    if i >= 0 {
      ValueAt(args, i);
      RemovePair(args, i);
      if env.base != "" {
        RelayedNoDash(args[i + 1], env);
        SetValue(args, i, Relayed(args[i + 1], env));
      }
    }
  }

  /** The flag goes, and the relayed URL comes back as -canthrottleurl at the front. */
  function CaptureProgressUrl(args: Argv, env: Env): Argv {
    var i := IndexOf(args, "-progressurl", 0);
    if i < 0 || i + 1 >= |args| then args
    else
      var r := Remove(args, i, 2);
      if env.base == "" || IndexOf(r, "-canthrottleurl", 0) >= 0 || env.throttleDisabled then r
      else Splice(r, 0, ["-canthrottleurl", Relayed(args[i + 1], env)])
  }

  lemma ProgressSame(args: Argv, env: Env)
    requires Paired(args) && Sane(env)
    ensures Same(args, CaptureProgressUrl(args, env))
  {
    hide TakesValue, Watched, Obs, Dash, Relayed, Paired;
    Known();
    var i := IndexOf(args, "-progressurl", 0);
    if i >= 0 {
      ValueAt(args, i);
      RemovePair(args, i);
      if env.base != "" {
        var url := Relayed(args[i + 1], env);
        RelayedNoDash(args[i + 1], env);
        ValueIsNoFlag(url);
        KnownTokens();
        SpliceTokens(Remove(args, i, 2), 0, ["-canthrottleurl", url]);
      }
    }
  }

  function UpgradeLoglevel(args: Argv, env: Env): Argv {
    var i := IndexOf(args, "-loglevel", 0);
    if i >= 0 && i + 1 < |args| && args[i + 1] in ["quiet", "panic", "fatal"] then args[i + 1 := env.loglevel]
    else args
  }

  lemma LoglevelSame(args: Argv, env: Env)
    requires Paired(args) && Sane(env)
    ensures Same(args, UpgradeLoglevel(args, env))
  {
    hide TakesValue, Watched, Obs, Dash;
    Known();
    var i := IndexOf(args, "-loglevel", 0);
    if i >= 0 {
      SetValue(args, i, env.loglevel);
    }
  }

  function DropNostats(args: Argv): Argv {
    var i := IndexOf(args, "-nostats", 0);
    if i >= 0 then Remove(args, i, 1) else args
  }

  lemma NostatsSame(args: Argv)
    requires Paired(args)
    ensures Same(args, DropNostats(args))
  {
    hide TakesValue, Watched, Obs, Dash;
    KnownTokens();
    var i := IndexOf(args, "-nostats", 0);
    if i >= 0 {
      assert args[i..i + 1] == ["-nostats"];
      TokensShow(args[i..i + 1]);
      RemoveTokens(args, i, 1);
    }
  }

  // ---------------------------------------------------------------- the subtitle decode sink

  predicate SinkAt(args: Argv, i: int) {
    && 0 <= i && i + 6 < |args|
    && args[i] == "-map" && args[i + 2] == "-f" && args[i + 3] == "null" && args[i + 4] == "-codec"
    && (args[i + 5] == "ass" || args[i + 5] == "dvdsub") && args[i + 6] == "nullfile"
  }

  function FirstSink(args: Argv, from: nat): (r: int)
    ensures r == -1 || (from <= r && SinkAt(args, r))
    decreases |args| - from
  {
    if from + 6 >= |args| then -1 else if SinkAt(args, from) then from else FirstSink(args, from + 1)
  }

  /** The sink stays when the subtitle comes from a file of its own. */
  predicate KeepsSink(args: Argv) {
    var mi := IndexOf(args, "-map_inlineass", 0);
    mi < 0 || mi + 1 >= |args|
    || var colon := IndexOf(args[mi + 1], ':', 0); colon > 0 && args[mi + 1][..colon] != "0"
  }

  function StripSink(args: Argv): Argv {
    var i := FirstSink(args, 0);
    if KeepsSink(args) || i < 0 then args else Remove(args, i, 7)
  }

  /** stripInlineassDecodeSink */
  method StripInlineassDecodeSink(args: Argv) returns (r: Argv, stripped: bool)
    ensures r == StripSink(args)
    ensures stripped <==> r != args
  {
    var mi := IndexOf(args, "-map_inlineass", 0);
    if mi < 0 || mi + 1 >= |args| {
      return args, false;
    }
    var spec := args[mi + 1];
    var colon := IndexOf(spec, ':', 0);
    if colon > 0 && spec[..colon] != "0" {
      return args, false;
    }
    var i := 0;
    while i + 6 < |args|
      invariant 0 <= i
      invariant FirstSink(args, 0) == FirstSink(args, i)
    {
      if SinkAt(args, i) {
        return Remove(args, i, 7), true;
      }
      i := i + 1;
    }
    return args, false;
  }

  lemma SinkSame(args: Argv)
    requires Paired(args)
    ensures Same(args, StripSink(args))
  {
    hide KeepsSink, Obs, TakesValue, Watched, Dash, FirstSink;
    var i := FirstSink(args, 0);
    if i >= 0 {
      Known();
      ValueAt(args, i);
      var x := args[i + 1];
      SinkShows(x, args[i + 5]);
      assert args[i..i + 7] == ["-map", x, "-f", "null", "-codec", args[i + 5], "nullfile"];
      FlagsDash("-map");
      RemoveTokens(args, i, 7);
    }
  }

  lemma SinkShows(x: string, codec: string)
    requires !Dash(x) && (codec == "ass" || codec == "dvdsub")
    ensures Paired(["-map", x, "-f", "null", "-codec", codec, "nullfile"])
    ensures Obs(["-map", x, "-f", "null", "-codec", codec, "nullfile"]) == []
  {
    var y := ["-f", "null", "-codec", codec, "nullfile"];
    assert ["-map", x] + y == ["-map", x, "-f", "null", "-codec", codec, "nullfile"];
    PlainTokens(codec);
    hide Obs, Paired, TakesValue, Watched, Dash;
    Known();
    PairShows("-map", x);
    TokensShow(y);
    PairedJoin(["-map", x], y);
    PairedLast(["-map", x]);
    NotWatched(x);
    ObsConcat(["-map", x], y);
  }

  lemma PlainTokens(codec: string)
    requires codec == "ass" || codec == "dvdsub"
    ensures var y := ["-f", "null", "-codec", codec, "nullfile"];
            forall k :: 0 <= k < |y| ==> !TakesValue(y[k])
  {
    assert !Dash("null") && !Dash(codec) && !Dash("nullfile");
    hide TakesValue, Dash;
    KnownTokens();
    ValueIsNoFlag("null");
    ValueIsNoFlag(codec);
    ValueIsNoFlag("nullfile");
    FiveTokens("-f", "null", "-codec", codec, "nullfile");
  }

  lemma FiveTokens(a: string, b: string, c: string, d: string, e: string)
    requires !TakesValue(a) && !TakesValue(b) && !TakesValue(c) && !TakesValue(d) && !TakesValue(e)
    ensures var y := [a, b, c, d, e];
            forall k :: 0 <= k < |y| ==> !TakesValue(y[k])
  {
    hide TakesValue;
  }

  // ---------------------------------------------------------------- the SEI flag and the audio passes

  /** `encAt` is the encoder's position before the pin. */
  function InjectSei(args: Argv, encAt: int): Argv
    requires encAt >= -1
  {
    if SpecIndex(args, "-sei", 0, 0) >= 0 then args
    else
      var i := SpecIndex(args, "-force_key_frames", 0, encAt + 1);
      if i < 0 then args else Splice(args, i, ["-sei:0", "-a53_cc"])
  }

  lemma SeiSame(args: Argv, encAt: int)
    requires Paired(args) && encAt >= -1
    ensures Same(args, InjectSei(args, encAt))
  {
    hide TakesValue, Watched, Obs, Selects, Ids, Paired;
    var i := SpecIndex(args, "-force_key_frames", 0, encAt + 1);
    KnownTokens();
    if i >= 0 {
      assert "-force_key_frames" + ":" <= args[i];
      assert Dash(args[i]);
      SpliceTokens(args, i, ["-sei:0", "-a53_cc"]);
    }
  }

  lemma {:induction false} PrefixesSame(args: Argv)
    requires Paired(args)
    ensures DropPrefixes(args).Some? && Same(args, DropPrefixes(args).value)
    decreases |args|
  {
    hide TakesValue, Watched, Obs, Dash, FirstPrefix, DropPrefixes, PrefixFlag, Paired;
    DropPrefixesStep(args);
    var i := FirstPrefix(args, 0);
    if i >= 0 {
      PrefixKnown(args[i]);
      RemovePair(args, i);
      PrefixesSame(Remove(args, i, 2));
    }
  }

  lemma PrefixKnown(s: string)
    requires PrefixFlag(s)
    ensures TakesValue(s) && !Watched(s)
  {
    assert s[1] == 'e';
  }

  lemma {:induction false} FramedropsSame(args: Argv)
    requires Paired(args)
    ensures Same(args, DropFramedrops(args))
    decreases |args|
  {
    hide TakesValue, Watched, Obs, Dash, FirstFramedrop, DropFramedrops, Framedrop, Paired;
    DropFramedropsStep(args);
    var i := FirstFramedrop(args, 0);
    if i >= 0 {
      FramedropKnown(args[i], args[i + 1]);
      RemovePair(args, i);
      FramedropsSame(Remove(args, i, 2));
    }
  }

  lemma FramedropKnown(s: string, v: string)
    requires Framedrop(s, v)
    ensures TakesValue(s) && !Watched(s)
  {
    assert s[1] == 'b';
  }

  lemma {:induction false} SwapSame(args: Argv, i: nat, inputAt: int)
    requires Paired(args) && i <= |args|
    ensures Same(args, SwapFrom(args, i, inputAt))
    decreases |args| - i
  {
    hide TakesValue, Watched, Obs, Dash, SwapFrom, AudioCodecFlag, EaeBase, Paired;
    if i == |args| {
      SwapEnd(args, inputAt);
    } else {
      SwapStep(args, i, inputAt);
      var to := if i + 1 < |args| then EaeBase(args[i + 1], Side(i, inputAt)) else "";
      if AudioCodecFlag(args[i]) && i + 1 < |args| && to != "" {
        AudioKnown(args[i]);
        ValueAt(args, i);
        BaseNoDash(args[i + 1], Side(i, inputAt));
        SetValue(args, i, to);
        SwapSame(args[i + 1 := to], i + 1, inputAt);
      } else {
        SwapSame(args, i + 1, inputAt);
      }
    }
  }

  lemma AudioKnown(s: string)
    requires AudioCodecFlag(s)
    ensures TakesValue(s) && !Watched(s)
  {
    AudioFlagIsHint(s);
    assert s[1] == 'c';
    hide TakesValue, Watched, AudioCodecFlag;
    Unwatched(s);
  }

  lemma BaseNoDash(v: string, dir: Direction)
    requires !Dash(v)
    ensures !Dash(EaeBase(v, dir))
  {}
}
