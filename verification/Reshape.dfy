/**
 The graph half of carrying an argv over from one hardware backend to another:
 the recomposed graph hands its encoder as many bits as the foreign one did.
 */
module Reshape {
  import opened Search
  import opened Prelude
  import opened Args
  import opened StreamSpec
  import opened FormatToken
  import opened Text
  import opened ComposeBurn
  import opened Main10

  /** graphFacts of a graph that is not a bitmap burn. */
  datatype Facts = Facts(w: string, h: string, hdr: bool, algo: string, text: bool, subParams: string,
                         selectExpr: string)

  function BurnOf(f: Facts, tenBit: bool): Burn {
    Burn(true, f.w, f.h, f.hdr, f.algo, tenBit, f.text, f.subParams, false, false, "")
  }

  /** What the recomposed graph is asked for. */
  predicate WantsTenBit(graph: string, f: Facts, hevc: bool) {
    FeedsTenBit(graph) && !f.hdr && hevc
  }

  /** The recomposed graph and its map label. */
  function Recomposed(cfg: Config, graph: string, f: Facts, hevc: bool): (string, string) {
    var ns := Chain(cfg, BurnOf(f, WantsTenBit(graph, f, hevc)));
    AppendSelect(Print(ns), Label(ComposeBurn.Last(ns)), f.selectExpr)
  }

  /** encoderIsHEVC */
  predicate EncodesHevc(args: Argv) {
    var inputAt := IndexOf(args, "-i", 0);
    inputAt >= 0 && var e := SpecIndex(args, "-codec", 0, inputAt + 1); e >= 0 && e + 1 < |args| && Hevc(args[e + 1])
  }

  /** isSWFilterGraph */
  predicate SwGraph(graph: string) {
    "[0:0]scale=w=" <= graph
  }

  function Retarget(args: Argv, from: nat, oldLabel: string, newLabel: string): (r: Argv)
    ensures |r| == |args|
    decreases |args| - from
  {
    if from + 1 >= |args| then args
    else if args[from] == "-map" && args[from + 1] == oldLabel then args[from + 1 := newLabel]
    else if args[from] == "-map" && args[from + 1] == "\"" + oldLabel + "\"" then
      args[from + 1 := "\"" + newLabel + "\""]
    else Retarget(args, from + 1, oldLabel, newLabel)
  }

  /** The foreign graph the reshape works on: the first one, unless it is a CPU graph. */
  function ForeignAt(args: Argv): (r: int)
    ensures r == -1 || (0 <= r < |args| - 1 && args[r] == "-filter_complex")
  {
    var v := IndexOf(args, "-filter_complex", 0);
    if v < 0 || v + 1 >= |args| || SwGraph(args[v + 1]) then -1 else v
  }

  /** `facts` and `oldLabel` are what the source's expressions extract from the foreign graph. */
  function Reshaped(args: Argv, cfg: Config, facts: Option<Facts>, oldLabel: string): Argv {
    var v := ForeignAt(args);
    if v < 0 || facts.None? then args
    else
      var (graph, newLabel) := Recomposed(cfg, args[v + 1], facts.value, EncodesHevc(args));
      var next := args[v + 1 := graph];
      if oldLabel == "" then next else Retarget(next, 0, oldLabel, newLabel)
  }

  /** retargetMapLabel, in place */
  method RetargetMapLabel(args: array<string>, oldLabel: string, newLabel: string)
    modifies args
    ensures args[..] == if oldLabel == "" then old(args[..]) else Retarget(old(args[..]), 0, oldLabel, newLabel)
  {
    if oldLabel == "" {
      return;
    }
    var j := 0;
    while j + 1 < args.Length
      invariant args[..] == old(args[..])
      invariant Retarget(args[..], 0, oldLabel, newLabel) == Retarget(args[..], j, oldLabel, newLabel)
    {
      ghost var before := args[..];
      if args[j] == "-map" && args[j + 1] == oldLabel {
        args[j + 1] := newLabel;
        assert args[..] == before[j + 1 := newLabel];
        return;
      }
      if args[j] == "-map" && args[j + 1] == "\"" + oldLabel + "\"" {
        args[j + 1] := "\"" + newLabel + "\"";
        assert args[..] == before[j + 1 := "\"" + newLabel + "\""];
        return;
      }
      j := j + 1;
    }
  }

  /** The graph step of reshapeForeignHWArgv, in place. */
  method ReshapeGraph(args: array<string>, cfg: Config, facts: Option<Facts>, oldLabel: string)
    modifies args
    ensures args[..] == Reshaped(old(args[..]), cfg, facts, oldLabel)
  {
    hide IndexOf, SpecIndex, FeedsTenBit, Print, Chain, Retarget, AppendSelect;
    var v := IndexOf(args[..], "-filter_complex", 0);
    if v < 0 || v + 1 >= args.Length || SwGraph(args[v + 1]) || facts.None? {
      return;
    }
    ghost var was := args[..];
    var f := facts.value;
    var plexTenBit, _ := GraphFeedsTenBit(args[v + 1]);
    var hevc := EncodesHevc(args[..]);
    var newFilter, newLabel := ComposeBurn.ComposeBurn(cfg, BurnOf(f, plexTenBit && !f.hdr && hevc));
    var pair := AppendSelect(newFilter, newLabel, f.selectExpr);
    args[v + 1] := pair.0;
    assert args[..] == was[v + 1 := pair.0];
    RetargetMapLabel(args, oldLabel, pair.1);
  }

  // ---------------------------------------------------------------- the bits survive

  /** The facts are plain words, and the seek gate names no pixel format. */
  ghost predicate PlainFacts(cfg: Config, f: Facts) {
    && '=' !in f.w && '=' !in f.h && '=' !in f.algo && '=' !in cfg.algo
    && Ends("inlineass=" + f.subParams, Undeclared) && Ends("select=" + f.selectExpr, Undeclared)
  }

  /** How many bits the recomposed graph hands over, for every backend. */
  function ReshapedDepth(cfg: Config, graph: string, f: Facts, hevc: bool): Depth {
    if cfg.backend == Software then if f.hdr then Ten else Undeclared
    else HwDepth(cfg, BurnOf(f, WantsTenBit(graph, f, hevc)))
  }

  lemma RecomposedEnds(cfg: Config, graph: string, f: Facts, hevc: bool)
    requires PlainFacts(cfg, f)
    ensures Ends(Recomposed(cfg, graph, f, hevc).0, ReshapedDepth(cfg, graph, f, hevc))
  {
    hide Ends, Print, HwChain, SwChain, FeedsTenBit;
    var s := BurnOf(f, WantsTenBit(graph, f, hevc));
    assert Plain(cfg, s);
    var ns := Chain(cfg, s);
    if cfg.backend == Software {
      SwChainEnds(cfg, s);
    } else {
      HwChainEnds(cfg, s);
    }
    LastPlain(cfg, s);
    SelectKeepsDepth(Print(ns), ComposeBurn.Last(ns), f.selectExpr, ReshapedDepth(cfg, graph, f, hevc));
  }

  lemma LastPlain(cfg: Config, s: Burn)
    ensures '=' !in ComposeBurn.Last(Chain(cfg, s))
  {
    hide ScaleBody, BurnBody, SwScale, SwSubScale, SwTonemap, Itoa;
    var ns := Chain(cfg, s);
    NumberPlain(|ns| - 1);
  }

  /**
   On Intel and NVIDIA the recomposed graph feeds ten bits exactly when the foreign one did, it
   holds no tonemap and the encoder is HEVC; on AMD also when its burn node tonemaps.
   */
  lemma RecomposedDepth(cfg: Config, graph: string, f: Facts, hevc: bool)
    requires PlainFacts(cfg, f)
    ensures var g := Recomposed(cfg, graph, f, hevc).0;
            && (cfg.backend == Intel || cfg.backend == Nvenc ==>
                  (FeedsTenBit(g) <==> FeedsTenBit(graph) && !f.hdr && hevc))
            && (cfg.backend == Amd ==> (FeedsTenBit(g) <==> f.hdr || (FeedsTenBit(graph) && hevc)))
            && (cfg.backend == Software ==> (FeedsTenBit(g) <==> f.hdr))
            && (cfg.backend != Software ==> BearsPixfmt(g))
  {
    hide Ends, Recomposed, FeedsTenBit, BearsPixfmt;
    RecomposedEnds(cfg, graph, f, hevc);
    EndsMeans(Recomposed(cfg, graph, f, hevc).0, ReshapedDepth(cfg, graph, f, hevc));
  }

  lemma {:induction false} RetargetKeeps(args: Argv, from: nat, oldLabel: string, newLabel: string, v: nat)
    requires v + 1 < |args| && args[v] == "-filter_complex"
    requires oldLabel != "" && oldLabel[0] == '[' && newLabel != "" && newLabel[0] == '['
    requires forall k :: 0 <= k < v ==> args[k] != "-filter_complex"
    ensures var r := Retarget(args, from, oldLabel, newLabel);
            r[v] == args[v] && r[v + 1] == args[v + 1] && forall k :: 0 <= k < v ==> r[k] != "-filter_complex"
    decreases |args| - from
  {
    if from + 1 < |args| {
      assert "-filter_complex"[0] == '-' && ("\"" + oldLabel + "\"")[0] == '\"' == ("\"" + newLabel + "\"")[0];
      assert "-map" != "-filter_complex";
      RetargetKeeps(args, from + 1, oldLabel, newLabel, v);
    }
  }

  lemma {:induction false} FirstBears(args: Argv, i: nat, v: nat)
    requires i <= v && v + 1 < |args| && args[v] == "-filter_complex" && BearsPixfmt(args[v + 1])
    requires forall k :: 0 <= k < v ==> args[k] != "-filter_complex"
    ensures BearingFrom(args, i) == Some(args[v + 1])
    decreases v - i
  {
    hide BearsPixfmt;
    if i < v {
      FirstBears(args, i + 1, v);
    }
  }

  /**
   The Main10 test on a reshaped argv, for an Intel or NVIDIA worker: it says ten bits exactly
   when the foreign graph fed ten bits to an HEVC encoder without a tonemap.
   */
  lemma ReshapeKeepsDepth(args: Argv, cfg: Config, f: Facts, oldLabel: string)
    requires (cfg.backend == Intel || cfg.backend == Nvenc) && PlainFacts(cfg, f) && ForeignAt(args) >= 0
    requires oldLabel == "" || oldLabel[0] == '['
    ensures TenBit(Reshaped(args, cfg, Some(f), oldLabel))
            <==> FeedsTenBit(args[ForeignAt(args) + 1]) && !f.hdr && EncodesHevc(args)
  {
    hide IndexOf, FeedsTenBit, BearsPixfmt, EncodesHevc, Recomposed, Retarget, PlainFacts;
    var v := ForeignAt(args);
    assert forall k :: 0 <= k < v ==> args[k] != "-filter_complex";
    var p := Recomposed(cfg, args[v + 1], f, EncodesHevc(args));
    RecomposedDepth(cfg, args[v + 1], f, EncodesHevc(args));
    var next := args[v + 1 := p.0];
    if oldLabel != "" {
      LabelBracket(cfg, args[v + 1], f, EncodesHevc(args));
      RetargetKeeps(next, 0, oldLabel, p.1, v);
    }
    FirstBears(Reshaped(args, cfg, Some(f), oldLabel), 0, v);
  }

  lemma LabelBracket(cfg: Config, graph: string, f: Facts, hevc: bool)
    ensures var l := Recomposed(cfg, graph, f, hevc).1; l != "" && l[0] == '['
  {
    hide Print, Chain, FeedsTenBit;
  }

  /**
   What a foreign hardware graph becomes: the graph of its own width, height, tonemap and text
   subtitle, on a resident surface, with ten bits where it fed ten to an HEVC encoder, and its seek gate last.
   */
  lemma RecomposedMeans(cfg: Config, graph: string, f: Facts, hevc: bool)
    requires cfg.backend != Software
    ensures var deep := FeedsTenBit(graph) && hevc && !f.hdr;
            var ask := Burn(true, f.w, f.h, f.hdr, f.algo, deep, f.text, f.subParams, false, false, "");
            var burns := f.text || (cfg.backend == Amd && f.hdr);
            var ns := [Node(["0:0"], ScaleBody(cfg, ask), "0")]
                      + if burns then [Node(["0"], BurnBody(cfg, ask), "1")] else [];
            var out := if burns then "[1]" else "[0]";
            Recomposed(cfg, graph, f, hevc)
            == if f.selectExpr == "" then (Print(ns), out)
               else (Print(ns) + ";" + out + "select=" + f.selectExpr + "[vsel]", "[vsel]")
  {
    hide FeedsTenBit, ScaleBody, BurnBody, Print, HwChain;
    var ask := BurnOf(f, WantsTenBit(graph, f, hevc));
    HwNodes(cfg, ask);
    var l := ComposeBurn.Last(Chain(cfg, ask));
    LabelText(l);
    SelectText(Print(Chain(cfg, ask)), Label(l), f.selectExpr);
  }

  lemma LabelText(l: string)
    ensures Label(l) == "[" + l + "]"
    ensures l == "0" ==> Label(l) == "[0]"
    ensures l == "1" ==> Label(l) == "[1]"
  {}

  lemma SelectText(filter: string, out: string, expr: string)
    ensures AppendSelect(filter, out, expr)
            == if expr == "" then (filter, out) else (filter + ";" + out + "select=" + expr + "[vsel]", "[vsel]")
  {
    LabelText("vsel");
    assert Label("vsel") == "[vsel]";
    Joined(filter, ";", out, "select=", expr, "[vsel]");
  }

  lemma Joined(a: string, b: string, c: string, d: string, e: string, f: string)
    ensures a + (b + (c + (d + e + f))) == a + b + c + d + e + f
  {}

  /** Graph and map label change together; every other token stays. */
  lemma ReshapedMeans(x: Argv, graph: string, y: Argv, z: Argv, cfg: Config, f: Facts, was: string)
    requires "-filter_complex" !in x && !("[0:0]scale=w=" <= graph)
    requires was != "" && was[0] == '['
    requires var a := x + ["-filter_complex", graph] + y;
             forall k :: 0 <= k < |a| && a[k] == "-map" && k != |x| + 1 ==>
               k + 1 < |a| && a[k + 1] != was && a[k + 1] != "\"" + was + "\""
    ensures var args := x + ["-filter_complex", graph] + y + ["-map", was] + z;
            var (g, l) := Recomposed(cfg, graph, f, EncodesHevc(args));
            Reshaped(args, cfg, Some(f), was) == x + ["-filter_complex", g] + y + ["-map", l] + z
  {
    hide Recomposed, EncodesHevc, Retarget, IndexOf;
    var args := x + ["-filter_complex", graph] + y + ["-map", was] + z;
    var (g, l) := Recomposed(cfg, graph, f, EncodesHevc(args));
    FirstGraphAt(x, graph, y + ["-map", was] + z, g);
    assert args == x + ["-filter_complex", graph] + (y + ["-map", was] + z);
    var x' := x + ["-filter_complex", g] + y;
    assert x + ["-filter_complex", g] + (y + ["-map", was] + z) == x' + ["-map", was] + z;
    GraphBracket(cfg, graph, f, EncodesHevc(args));
    var a := x + ["-filter_complex", graph] + y;
    assert x'[|x| + 1] == g && "-map"[0] != '[';
    assert x'[|x|] == "-filter_complex" != "-map";
    forall k | 0 <= k < |x'| && x'[k] == "-map"
      ensures k + 1 < |x'| && x'[k + 1] != was && x'[k + 1] != "\"" + was + "\""
    {
      assert k != |x| + 1 && k != |x| && a[k] == "-map";
      assert a[k + 1] == x'[k + 1];
    }
    RetargetMeans(x', z, 0, was, l, was, l);
  }

  /** A graph without a label at its end is recomposed all the same, wherever it stands. */
  lemma ReshapedUnlabelled(x: Argv, graph: string, y: Argv, cfg: Config, f: Facts)
    requires "-filter_complex" !in x && !("[0:0]scale=w=" <= graph)
    ensures var args := x + ["-filter_complex", graph] + y;
            Reshaped(args, cfg, Some(f), "")
            == x + ["-filter_complex", Recomposed(cfg, graph, f, EncodesHevc(args)).0] + y
  {
    hide Recomposed, EncodesHevc, Retarget, IndexOf;
    var args := x + ["-filter_complex", graph] + y;
    FirstGraphAt(x, graph, y, Recomposed(cfg, graph, f, EncodesHevc(args)).0);
  }

  /** A CPU graph, or none that the source can read, leaves the argv alone. */
  lemma NotReshaped(x: Argv, graph: string, y: Argv, cfg: Config, facts: Option<Facts>, was: string)
    requires "-filter_complex" !in x && ("[0:0]scale=w=" <= graph || facts.None?)
    ensures var args := x + ["-filter_complex", graph] + y; Reshaped(args, cfg, facts, was) == args
  {
    hide Recomposed, EncodesHevc, Retarget, IndexOf;
    FirstGraphAt(x, graph, y, graph);
  }

  lemma NoGraph(args: Argv, cfg: Config, facts: Option<Facts>, was: string)
    requires forall k :: 0 <= k < |args| - 1 ==> args[k] != "-filter_complex"
    ensures Reshaped(args, cfg, facts, was) == args
  {
    hide Recomposed, EncodesHevc, Retarget;
  }

  /** The encoder that decides is the first one of the video stream after the input. */
  lemma EncodesHevcMeans(args: Argv, i: nat, e: nat, spec: string)
    requires EncoderAt(args, i, e, spec)
    ensures EncodesHevc(args) <==> args[e + 1] == "hevc_vaapi" || args[e + 1] == "hevc_nvenc"
  {
    hide IndexOf, SpecIndex, Ids, Selects;
    EncoderIsAt(args, i, e, spec);
  }

  lemma GraphBracket(cfg: Config, graph: string, f: Facts, hevc: bool)
    ensures "[" <= Recomposed(cfg, graph, f, hevc).0
  {
    hide FeedsTenBit, ScaleBody, BurnBody, Print, HwChain, SwChain, Itoa;
    var ask := BurnOf(f, WantsTenBit(graph, f, hevc));
    HwNodes(cfg, ask);
    SwNodes(ask);
    PrintBracket(Chain(cfg, ask));
  }

  lemma {:induction false} PrintBracket(ns: seq<Node>)
    requires ns != [] && ns[0].inputs != []
    ensures "[" <= Print(ns)
  {
    if |ns| > 1 {
      PrintBracket(ns[..|ns| - 1]);
    }
  }

  lemma FirstGraphAt(x: Argv, graph: string, y: Argv, g: string)
    requires "-filter_complex" !in x
    ensures var args := x + ["-filter_complex", graph] + y;
            && IndexOf(args, "-filter_complex", 0) == |x| && args[|x| + 1] == graph
            && args[|x| + 1 := g] == x + ["-filter_complex", g] + y
  {
    var args := x + ["-filter_complex", graph] + y;
    assert args[|x|] == "-filter_complex" && args[|x| + 1] == graph;
    assert forall k :: 0 <= k < |x| ==> args[k] == x[k];
  }

  /** The first -map of the old label, quoted or not, reads the new one in the same way, and nothing else changes. */
  lemma {:induction false} RetargetMeans(x: Argv, y: Argv, from: nat, oldLabel: string, newLabel: string,
                                         was: string, now: string)
    requires from <= |x| && oldLabel != "" && oldLabel[0] == '['
    requires || (was == oldLabel && now == newLabel)
             || (was == "\"" + oldLabel + "\"" && now == "\"" + newLabel + "\"")
    requires forall k :: from <= k < |x| && x[k] == "-map" ==>
               k + 1 < |x| && x[k + 1] != oldLabel && x[k + 1] != "\"" + oldLabel + "\""
    ensures Retarget(x + ["-map", was] + y, from, oldLabel, newLabel) == x + ["-map", now] + y
    decreases |x| - from
  {
    var args := x + ["-map", was] + y;
    assert args[|x|] == "-map" && args[|x| + 1] == was;
    assert ("\"" + oldLabel + "\"")[0] == '\"';
    if from < |x| {
      assert args[from] == x[from];
      if x[from] == "-map" {
        assert args[from + 1] == x[from + 1];
      }
      RetargetMeans(x, y, from + 1, oldLabel, newLabel, was, now);
    } else {
      assert args[from + 1 := now] == x + ["-map", now] + y;
    }
  }
}
