/**
 The Main10 pin and the rest of a rewrite: an HEVC encoder is told main10 only
 when the graph it is fed from really ends in ten bits.
 */
module Main10 {
  import opened Prelude
  import opened Search
  import opened Args
  import opened AudioClean
  import opened Bail
  import opened FormatToken
  import opened Observed
  import opened StreamSpec
  import opened TailPasses

  // ---------------------------------------------------------------- the graph that decides

  /** The first filtergraph at or after `i` that declares a p010 or nv12 format. */
  function BearingFrom(args: Argv, i: nat): Option<string>
    decreases |args| - i
  {
    if i + 1 >= |args| then None
    else if args[i] == "-filter_complex" && BearsPixfmt(args[i + 1]) then Some(args[i + 1])
    else BearingFrom(args, i + 1)
  }

  function FirstBearing(args: Argv): Option<string> {
    BearingFrom(args, 0)
  }

  predicate TenBit(args: Argv) {
    var g := FirstBearing(args);
    g.Some? && FeedsTenBit(g.value)
  }

  /** tenBitOutput */
  method TenBitOutput(args: Argv) returns (tenBit: bool)
    ensures tenBit == TenBit(args)
  {
    hide BearsPixfmt, FeedsTenBit;
    var i := 0;
    while i < |args| - 1
      invariant 0 <= i
      invariant FirstBearing(args) == BearingFrom(args, i)
    {
      if args[i] != "-filter_complex" {
        i := i + 1;
        continue;
      }
      var ten, bearing := GraphFeedsTenBit(args[i + 1]);
      if !bearing {
        i := i + 1;
        continue;
      }
      return ten;
    }
    return false;
  }

  function FirstGraph(obs: seq<(string, string)>): Option<string> {
    if obs == [] then None
    else if obs[0].0 == "-filter_complex" && BearsPixfmt(obs[0].1) then Some(obs[0].1)
    else FirstGraph(obs[1..])
  }

  /** The deciding graph is among what the later passes leave alone. */
  lemma {:induction false} BearingObserved(args: Argv, i: nat)
    requires i <= |args|
    ensures BearingFrom(args, i) == FirstGraph(Obs(args[i..]))
    decreases |args| - i
  {
    hide BearsPixfmt;
    if i + 1 < |args| {
      BearingObserved(args, i + 1);
      var s := args[i..];
      assert s[0] == args[i] && s[1] == args[i + 1] && s[1..] == args[i + 1..];
      FirstGraphCons(s[0], s[1], Obs(s[1..]));
      if !Watched(s[0]) {
        assert Obs(s) == Obs(s[1..]);
      }
    }
  }

  lemma FirstGraphCons(f: string, v: string, rest: seq<(string, string)>)
    ensures FirstGraph([(f, v)] + rest)
            == if f == "-filter_complex" && BearsPixfmt(v) then Some(v) else FirstGraph(rest)
    ensures !Watched(f) ==> f != "-filter_complex"
  {
    hide BearsPixfmt;
    assert ([(f, v)] + rest)[1..] == rest;
  }

  lemma {:induction false} FirstGraphSkips(x: seq<(string, string)>, p: (string, string), y: seq<(string, string)>)
    requires p.0 != "-filter_complex"
    ensures FirstGraph(x + [p] + y) == FirstGraph(x + y)
  {
    hide BearsPixfmt;
    if x == [] {
      assert x + [p] + y == [p] + y && ([p] + y)[1..] == y && x + y == y;
    } else {
      FirstGraphSkips(x[1..], p, y);
      assert (x + [p] + y)[1..] == x[1..] + [p] + y && (x + y)[1..] == x[1..] + y;
    }
  }

  // ---------------------------------------------------------------- the pin

  /** The encoder slot: the video stream's codec flag after the first input. */
  function Encoder(args: Argv): (r: int)
    ensures r >= -1
  {
    SpecIndex(args, "-codec", 0, IndexOf(args, "-i", 0) + 1)
  }

  predicate Hevc(codec: string) {
    codec == "hevc_vaapi" || codec == "hevc_nvenc"
  }

  function ProfileFlag(codecFlag: string): string {
    "-profile" + if "-codec" <= codecFlag then codecFlag[6..] else codecFlag
  }

  predicate PinApplies(args: Argv) {
    var enc := Encoder(args);
    && IndexOf(args, "-i", 0) >= 0 && enc >= 0 && enc + 1 < |args| && Hevc(args[enc + 1])
    && TenBit(args)
    && IndexOf(args, ProfileFlag(args[enc]), 0) < 0 && IndexOf(args, "-profile:v", 0) < 0
  }

  function Pinned(args: Argv): Argv {
    if PinApplies(args) then Splice(args, Encoder(args) + 2, [ProfileFlag(args[Encoder(args)]), "main10"]) else args
  }

  /** ensureHEVCMain10 */
  method EnsureHevcMain10(args: Argv) returns (r: Argv, pinned: bool)
    ensures r == Pinned(args)
    ensures pinned <==> PinApplies(args)
  {
    hide TenBit, SpecIndex, IndexOf;
    var inputIdx := IndexOf(args, "-i", 0);
    if inputIdx < 0 {
      return args, false;
    }
    var enc := StreamSpecIndex(args, "-codec", 0, inputIdx + 1);
    if enc < 0 || enc + 1 >= |args| || !Hevc(args[enc + 1]) {
      return args, false;
    }
    var tenBit := TenBitOutput(args);
    if !tenBit {
      return args, false;
    }
    var profileFlag := ProfileFlag(args[enc]);
    if IndexOf(args, profileFlag, 0) >= 0 || IndexOf(args, "-profile:v", 0) >= 0 {
      return args, false;
    }
    return Splice(args, enc + 2, [profileFlag, "main10"]), true;
  }

  lemma EncoderFlag(args: Argv)
    requires Encoder(args) >= 0
    ensures var f := args[Encoder(args)];
            TakesValue(f) && "-profile" <= ProfileFlag(f) && ProfileFlag(f) != "-filter_complex"
  {
    hide IndexOf, Ids;
    var f := args[Encoder(args)];
    assert FlagFor(f, "-codec", 0, Ids(args));
    CodecFlag(f, Ids(args));
  }

  lemma CodecFlag(f: string, ids: seq<string>)
    requires FlagFor(f, "-codec", 0, ids)
    ensures TakesValue(f) && "-profile" <= ProfileFlag(f) && ProfileFlag(f) != "-filter_complex"
  {
    var spec := f[7..];
    assert Selects(spec, 0, ids);
    NotEmptySpec(ids);
    hide Selects;
    assert "-codec" + ":" == "-codec:";
    assert |f| > 7;
    assert HintFlag(f);
    hide HintFlag;
    var p := ProfileFlag(f);
    assert p[1] == 'p' && "-filter_complex"[1] == 'f';
  }

  lemma NotEmptySpec(ids: seq<string>)
    ensures !Selects("", 0, ids)
  {}

  /** The first `-i`, and the first flag after it that names the video stream's codec. */
  ghost predicate EncoderAt(args: Argv, i: nat, e: nat, spec: string) {
    && i < e && e + 1 < |args| && args[i] == "-i" && "-i" !in args[..i]
    && args[e] == "-codec:" + spec && Selects(spec, 0, Ids(args))
    && forall k :: i < k < e ==> !FlagFor(args[k], "-codec", 0, Ids(args))
  }

  /** A hardware HEVC encoder in that slot, ten bits fed to it, and no profile asked for yet. */
  ghost predicate WantsPin(args: Argv, e: nat, spec: string)
    requires e + 1 < |args|
  {
    && (args[e + 1] == "hevc_vaapi" || args[e + 1] == "hevc_nvenc") && TenBit(args)
    && "-profile:" + spec !in args && "-profile:v" !in args
  }

  /** When the pin applies, and that it names the encoder's own stream, right after the encoder. */
  lemma PinExactly(args: Argv, i: nat, e: nat, spec: string)
    requires EncoderAt(args, i, e, spec)
    ensures PinApplies(args) <==> WantsPin(args, e, spec)
    ensures Pinned(args)
            == if WantsPin(args, e, spec) then args[..e + 2] + ["-profile:" + spec, "main10"] + args[e + 2..] else args
  {
    hide TenBit, Ids, Selects;
    EncoderIsAt(args, i, e, spec);
    SlotProfile(spec);
    var p := "-profile:" + spec;
    assert p in args <==> IndexOf(args, p, 0) >= 0;
    assert "-profile:v" in args <==> IndexOf(args, "-profile:v", 0) >= 0;
  }

  lemma EncoderIsAt(args: Argv, i: nat, e: nat, spec: string)
    requires EncoderAt(args, i, e, spec)
    ensures IndexOf(args, "-i", 0) == i && Encoder(args) == e
  {
    hide Ids, Selects;
    var r := IndexOf(args, "-i", 0);
    assert forall k :: 0 <= k < i ==> args[k] == args[..i][k];
    assert r == i;
    assert "-codec" + ":" == "-codec:";
    assert args[e][|"-codec"| + 1..] == spec;
    assert FlagFor(args[e], "-codec", 0, Ids(args));
  }

  lemma SlotProfile(spec: string)
    ensures ProfileFlag("-codec:" + spec) == "-profile:" + spec
  {
    assert "-profile" + ":" + spec == "-profile:" + spec;
    assert ("-codec:" + spec)[6..] == ":" + spec;
  }

  /** Without such a slot nothing is pinned. */
  lemma NoEncoderNoPin(args: Argv)
    requires forall i, e, spec :: !EncoderAt(args, i, e, spec)
    ensures !PinApplies(args) && Pinned(args) == args
  {
    hide EncoderAt, PinApplies;
    if PinApplies(args) {
      var i, e, spec := EncoderThere(args);
    }
  }

  lemma EncoderThere(args: Argv) returns (i: nat, e: nat, spec: string)
    requires PinApplies(args)
    ensures EncoderAt(args, i, e, spec)
  {
    hide TenBit, Ids, Selects;
    i, e := IndexOf(args, "-i", 0), Encoder(args);
    assert FlagFor(args[e], "-codec", 0, Ids(args));
    spec := args[e][7..];
    assert "-codec" + ":" == "-codec:";
    assert args[e] == "-codec:" + spec;
  }

  /** The pin adds one profile and nothing else the later passes could disturb. */
  lemma PinShows(args: Argv)
    requires Paired(args) && PinApplies(args)
    ensures Paired(Pinned(args)) && PinsMain10(Pinned(args))
    ensures FirstBearing(Pinned(args)) == FirstBearing(args)
    ensures (ProfileFlag(args[Encoder(args)]), "main10") in Obs(Pinned(args))
  {
    hide TakesValue, Dash, Watched, Obs, Encoder, TenBit, Hevc, IndexOf, Paired, ProfileFlag;
    var enc := Encoder(args);
    var f := args[enc];
    var p := ProfileFlag(f);
    EncoderFlag(args);
    ValueAt(args, enc);
    ValueIsNoFlag(args[enc + 1]);
    var x, y := args[..enc + 2], args[enc + 2..];
    Cut(args, enc + 2);
    assert x[|x| - 1] == args[enc + 1];
    PairedParts(x, y);
    ProfilePairShows(p);
    PinnedIs(args, x, p, y);
    var r := x + [p, "main10"] + y;
    PairedJoin(x, [p, "main10"]);
    PairedJoin(x + [p, "main10"], y);
    ObsParts(x, [p, "main10"], y);
    TokensShow([]);
    ObsParts(x, [], y);
    assert x + [] + y == args;
    assert Obs(x) + [] + Obs(y) == Obs(x) + Obs(y);
    FirstGraphSkips(Obs(x), (p, "main10"), Obs(y));
    WholeBearing(args);
    WholeBearing(r);
    assert r[enc + 2] == p && r[enc + 2 + 1] == "main10";
    assert PinsMain10(r);
  }

  lemma PinnedIs(args: Argv, x: Argv, p: string, y: Argv)
    requires PinApplies(args) && p == ProfileFlag(args[Encoder(args)])
    requires x == args[..Encoder(args) + 2] && y == args[Encoder(args) + 2..]
    ensures Pinned(args) == x + [p, "main10"] + y
  {
    hide TenBit, Hevc, IndexOf, ProfileFlag, Encoder;
  }

  lemma ProfilePairShows(p: string)
    requires "-profile" <= p
    ensures Paired([p, "main10"]) && Obs([p, "main10"]) == [(p, "main10")]
  {
    assert !Dash("main10") && Watched(p) && TakesValue(p);
    hide Dash, Watched, TakesValue;
    ValueIsNoFlag("main10");
    assert [p, "main10"][1..] == ["main10"];
  }

  lemma WholeBearing(args: Argv)
    ensures FirstBearing(args) == FirstGraph(Obs(args))
  {
    hide FirstGraph, Obs, BearingFrom;
    assert args[0..] == args;
    BearingObserved(args, 0);
  }

  // ---------------------------------------------------------------- the rest of the rewrite

  /** What the session decided before the pin. */
  datatype Session = Session(isRemux: bool, honorSW: bool, honorHybrid: bool, isHLS: bool)

  function SegmentTime(args: Argv): string {
    var i := IndexOf(args, "-segment_time", 0);
    if i >= 0 && i + 1 < |args| then args[i + 1] else ""
  }

  function AfterGraph(args: Argv, s: Session): Argv {
    if s.isRemux then args
    else if s.honorSW || s.honorHybrid then Pinned(args)
    else InjectSei(Pinned(args), Encoder(args))
  }

  function Urls(args: Argv, s: Session, env: Env): Argv {
    var hls := if s.isHLS then SegmentLists(args, SegmentTime(args), Hls, env) else args;
    CaptureProgressUrl(RewriteManifestName(SegmentLists(hls, "", SideChannel, env), env), env)
  }

  function Finish(args: Argv, s: Session, env: Env): Argv {
    var quiet := DropNostats(UpgradeLoglevel(args, env));
    if s.isRemux then quiet else StripSink(quiet)
  }

  /** From the pin to the end of Rewrite; None where dropping -eae_prefix panics. */
  function Tail(args: Argv, s: Session, env: Env): Option<Argv> {
    match DropPrefixes(Swapped(AfterGraph(args, s)))
    case None => None
    case Some(a) => Some(Finish(Urls(DropFramedrops(a), s, env), s, env))
  }

  /** Rewrite, from the Main10 pin on, for any argv the earlier steps hand over. */
  method RunTail(input: Argv, s: Session, env: Env) returns (args: Argv, panicked: bool)
    ensures Tail(input, s, env) == if panicked then None else Some(args)
  {
    hide *;
    args := input;
    if !s.isRemux {
      var newInputIdx := IndexOf(args, "-i", 0);
      var encCodecIdx := StreamSpecIndex(args, "-codec", 0, Below(newInputIdx));
      var pinned: bool;
      EncoderIs(input, newInputIdx);
      args, pinned := EnsureHevcMain10(args);
      if !s.honorSW && !s.honorHybrid {
        var sei := StreamSpecIndex(args, "-sei", 0, 0);
        if sei < 0 {
          var fkfIdx := StreamSpecIndex(args, "-force_key_frames", 0, encCodecIdx + 1);
          SeiIs(args, encCodecIdx);
          if fkfIdx >= 0 {
            args := Splice(args, fkfIdx, ["-sei:0", "-a53_cc"]);
          }
        } else {
          SeiIs(args, encCodecIdx);
        }
      }
    }
    ghost var a1 := args;
    AfterGraphIs(input, s, a1);
    var cells := new string[|args|](k requires 0 <= k < |args| => args[k]);
    assert cells[..] == args;
    var swapped := SwapEAEAudioDecoders(cells);
    args := cells[..];
    var dropped: seq<string>;
    args, panicked, dropped := DropEAEPrefixFlags(args);
    if panicked {
      TailIs(input, s, env, a1, [], [], []);
      return args, true;
    }
    ghost var a2 := args;
    args, dropped := DropFramedropBSF(args);
    ghost var a3 := args;
    cells := new string[|args|](k requires 0 <= k < |args| => args[k]);
    assert cells[..] == args;
    if s.isHLS {
      var segTime := SegmentTime(args);
      RewriteSegmentList(cells, env, segTime, Hls);
    }
    RewriteSegmentList(cells, env, "", SideChannel);
    args := CaptureProgressUrl(RewriteManifestName(cells[..], env), env);
    ghost var a4 := args;
    UrlsIs(a3, s, env, a4);
    args := DropNostats(UpgradeLoglevel(args, env));
    if !s.isRemux {
      var stripped: bool;
      args, stripped := StripInlineassDecodeSink(args);
    }
    TailIs(input, s, env, a1, a2, a3, a4);
    return args, false;
  }

  function Below(i: int): nat {
    if i < 0 then 0 else i + 1
  }

  lemma EncoderIs(args: Argv, inputAt: int)
    requires inputAt == IndexOf(args, "-i", 0)
    ensures Encoder(args) == SpecIndex(args, "-codec", 0, Below(inputAt)) >= -1
  {
    hide SpecIndex;
  }

  lemma SeiIs(args: Argv, encAt: int)
    requires encAt >= -1
    ensures SpecIndex(args, "-sei", 0, 0) >= 0 ==> InjectSei(args, encAt) == args
    ensures var i := SpecIndex(args, "-force_key_frames", 0, encAt + 1);
            && i <= |args|
            && (SpecIndex(args, "-sei", 0, 0) < 0 ==>
                InjectSei(args, encAt) == if i < 0 then args else Splice(args, i, ["-sei:0", "-a53_cc"]))
  {
    hide SpecIndex;
  }

  lemma AfterGraphIs(input: Argv, s: Session, a1: Argv)
    requires a1 == if s.isRemux then input
                   else if s.honorSW || s.honorHybrid then Pinned(input)
                   else InjectSei(Pinned(input), Encoder(input))
    ensures AfterGraph(input, s) == a1
  {}

  lemma UrlsIs(a3: Argv, s: Session, env: Env, a4: Argv)
    requires var hls := if s.isHLS then SegmentLists(a3, SegmentTime(a3), Hls, env) else a3;
             a4 == CaptureProgressUrl(RewriteManifestName(SegmentLists(hls, "", SideChannel, env), env), env)
    ensures Urls(a3, s, env) == a4
  {}

  lemma TailIs(input: Argv, s: Session, env: Env, a1: Argv, a2: Argv, a3: Argv, a4: Argv)
    requires AfterGraph(input, s) == a1
    requires DropPrefixes(Swapped(a1)).Some? ==>
               DropPrefixes(Swapped(a1)) == Some(a2) && a3 == DropFramedrops(a2) && a4 == Urls(a3, s, env)
    ensures Tail(input, s, env)
            == if DropPrefixes(Swapped(a1)).None? then None
               else Some(var quiet := DropNostats(UpgradeLoglevel(a4, env));
                         if s.isRemux then quiet else StripSink(quiet))
  {
    hide AfterGraph, Swapped, DropPrefixes, DropFramedrops, Urls, DropNostats, UpgradeLoglevel, StripSink;
  }

  // ---------------------------------------------------------------- what the passes after the pin keep

  lemma UrlsSame(args: Argv, s: Session, env: Env)
    requires Paired(args) && Sane(env)
    ensures Same(args, Urls(args, s, env))
  {
    hide Paired, Obs, SegmentListsFrom, RewriteManifestName, CaptureProgressUrl, SegmentTime, Sane;
    var hls := if s.isHLS then SegmentLists(args, SegmentTime(args), Hls, env) else args;
    if env.base != "" {
      SegmentListsSame(args, 0, SegmentTime(args), Hls, env);
      SegmentListsSame(hls, 0, "", SideChannel, env);
    }
    var side := SegmentLists(hls, "", SideChannel, env);
    ManifestSame(side, env);
    ProgressSame(RewriteManifestName(side, env), env);
  }

  lemma FinishSame(args: Argv, s: Session, env: Env)
    requires Paired(args) && Sane(env)
    ensures Same(args, Finish(args, s, env))
  {
    hide Paired, Obs, UpgradeLoglevel, DropNostats, StripSink, Sane;
    LoglevelSame(args, env);
    NostatsSame(UpgradeLoglevel(args, env));
    SinkSame(DropNostats(UpgradeLoglevel(args, env)));
  }

  /** Everything after the pin and the SEI flag. */
  lemma PassesSame(args: Argv, s: Session, env: Env)
    requires Paired(args) && Sane(env)
    ensures DropPrefixes(Swapped(args)).Some?
    ensures Same(args, Finish(Urls(DropFramedrops(DropPrefixes(Swapped(args)).value), s, env), s, env))
  {
    hide Paired, Obs, Finish, Urls, DropFramedrops, DropPrefixes, SwapFrom, Sane, IndexOf;
    SwapSame(args, 0, IndexOf(args, "-i", 0));
    var a := Swapped(args);
    PrefixesSame(a);
    var b := DropPrefixes(a).value;
    FramedropsSame(b);
    UrlsSame(DropFramedrops(b), s, env);
    FinishSame(Urls(DropFramedrops(b), s, env), s, env);
  }

  lemma AfterGraphShows(args: Argv, s: Session)
    requires Paired(args)
    ensures var r := AfterGraph(args, s);
            && Paired(r) && FirstBearing(r) == FirstBearing(args)
            && (PinsMain10(r) <==> PinsMain10(args) || (!s.isRemux && PinApplies(args)))
  {
    hide Paired, Obs, InjectSei, PinApplies, FirstBearing, PinsMain10, Encoder;
    if !s.isRemux {
      var p := Pinned(args);
      if PinApplies(args) {
        PinShows(args);
      }
      SeiSame(p, Encoder(args));
      SameShows(p, InjectSei(p, Encoder(args)));
    }
  }

  lemma SameShows(args: Argv, r: Argv)
    requires Same(args, r)
    ensures Paired(r) && FirstBearing(r) == FirstBearing(args) && (PinsMain10(r) <==> PinsMain10(args))
  {
    hide Paired, Obs, FirstBearing, PinsMain10, FirstGraph, ObsPins;
    WholeBearing(args);
    WholeBearing(r);
    PinsMeans(args);
    PinsMeans(r);
  }

  /**
   Over the whole tail of the rewrite, on a well-formed argv: the output pins
   main10 exactly when the input did or the pin applied, and the graph that
   decides is the same one.
   */
  lemma TailShows(args: Argv, s: Session, env: Env)
    requires Paired(args) && Sane(env)
    ensures var out := Tail(args, s, env);
            && out.Some?
            && FirstBearing(out.value) == FirstBearing(args)
            && (PinsMain10(out.value) <==> PinsMain10(args) || (!s.isRemux && PinApplies(args)))
  {
    hide Paired, AfterGraph, Swapped, DropPrefixes, DropFramedrops, Urls, Finish;
    hide FirstBearing, PinsMain10, PinApplies, Sane, Same;
    AfterGraphShows(args, s);
    PassesSame(AfterGraph(args, s), s, env);
    SameShows(AfterGraph(args, s), Tail(args, s, env).value);
  }

  /** The flag stands in the argv with this value after it. */
  ghost predicate HasPair(args: Argv, f: string, v: string) {
    exists k :: 0 <= k < |args| - 1 && args[k] == f && args[k + 1] == v
  }

  lemma {:induction false} ObservedPair(args: Argv, f: string, v: string)
    requires (f, v) in Obs(args)
    ensures HasPair(args, f, v)
  {
    hide Watched;
    if |args| >= 2 {
      if args[0] == f && args[1] == v {
        assert args[0 + 1] == v;
      } else {
        ObservedPair(args[1..], f, v);
        var k :| 0 <= k < |args| - 2 && args[1..][k] == f && args[1..][k + 1] == v;
        assert args[k + 1] == f && args[k + 1 + 1] == v;
      }
    }
  }

  /** The profile the pin sets, on the encoder's own stream, reaches the end of the tail. */
  lemma PinReaches(args: Argv, s: Session, env: Env, i: nat, e: nat, spec: string)
    requires Paired(args) && Sane(env) && !s.isRemux
    requires EncoderAt(args, i, e, spec) && WantsPin(args, e, spec)
    ensures Tail(args, s, env).Some? && HasPair(Tail(args, s, env).value, "-profile:" + spec, "main10")
  {
    hide Paired, Swapped, DropPrefixes, DropFramedrops, Urls, Finish, PinApplies, Sane, Obs, InjectSei;
    hide EncoderAt, WantsPin;
    hide FirstBearing, PinsMain10, Encoder, Pinned, ProfileFlag;
    PinExactly(args, i, e, spec);
    EncoderIsAt(args, i, e, spec);
    SlotOf(args, i, e, spec);
    PinShows(args);
    SeiSame(Pinned(args), Encoder(args));
    AfterGraphShows(args, s);
    PassesSame(AfterGraph(args, s), s, env);
    ObservedPair(Tail(args, s, env).value, "-profile:" + spec, "main10");
  }

  lemma SlotOf(args: Argv, i: nat, e: nat, spec: string)
    requires EncoderAt(args, i, e, spec)
    ensures ProfileFlag(args[e]) == "-profile:" + spec
  {
    SlotProfile(spec);
  }

  /**
   Main10 safety: an output that carries a main10 profile its input did not ask
   for is fed from a graph whose last exact p010 or nv12 token is p010.
   */
  lemma Main10Safe(args: Argv, s: Session, env: Env)
    requires Paired(args) && Sane(env) && !PinsMain10(args)
    ensures Tail(args, s, env).Some?
    ensures var out := Tail(args, s, env).value;
            PinsMain10(out) ==> FirstBearing(out).Some? && EndsInP010(FirstBearing(out).value)
  {
    hide Paired, Tail, FirstBearing, PinsMain10, Sane, IndexOf, Encoder, Hevc, FeedsTenBit, EndsInP010, ProfileFlag;
    TailShows(args, s, env);
    var g := FirstBearing(args);
    if g.Some? {
      TenBitMeans(g.value);
    }
  }

  // ---------------------------------------------------------------- a rewrite that bails

  lemma {:induction false} HintsSame(args: Argv)
    requires Paired(args)
    ensures Same(args, DropHints(args))
    decreases |args|
  {
    hide TakesValue, Watched, Obs, Dash, FirstHint, DropHints, HintFlag, Paired, IndexOf;
    DropHintsStep(args);
    var i := FirstHint(args, 0, IndexOf(args, "-i", 0));
    if i >= 0 {
      HintKnown(args[i]);
      RemovePair(args, i);
      HintsSame(Remove(args, i, 2));
    }
  }

  lemma HintKnown(s: string)
    requires HintFlag(s)
    ensures TakesValue(s) && !Watched(s)
  {
    assert s[1] == 'c';
    hide TakesValue, Watched, HintFlag;
    HintTakesValue(s);
    Unwatched(s);
  }

  lemma {:induction false} OrphansSame(args: Argv)
    requires Paired(args)
    ensures Same(args, DropOrphans(args))
    decreases |args|
  {
    hide TakesValue, Watched, Obs, Dash, FirstPrefix, DropOrphans, PrefixFlag, Paired;
    DropOrphansStep(args);
    var i := FirstPrefix(args, 0);
    if i >= 0 && i + 1 < |args| {
      PrefixKnown(args[i]);
      RemovePair(args, i);
      OrphansSame(Remove(args, i, 2));
    }
  }

  /** A rewrite that bails hands over the graphs and profiles it was given. */
  lemma BailKeepsProfiles(args: Argv, noDecoder: bool)
    requires Paired(args)
    ensures Bailed(args, noDecoder).Some?
    ensures Same(args, Bailed(args, noDecoder).value)
    ensures PinsMain10(Bailed(args, noDecoder).value) <==> PinsMain10(args)
  {
    hide Paired, Obs, DropHints, DropOrphans, SwapFrom, DropPrefixes, DropFramedrops, IndexOf, PinsMain10, FirstBearing;
    var a := if noDecoder then DropOrphans(DropHints(args)) else args;
    if noDecoder {
      HintsSame(args);
      OrphansSame(DropHints(args));
    }
    SwapSame(a, 0, IndexOf(a, "-i", 0));
    PrefixesSame(Swapped(a));
    FramedropsSame(DropPrefixes(Swapped(a)).value);
    SameShows(args, Bailed(args, noDecoder).value);
  }
}
