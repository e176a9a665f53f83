/**
 The composer of scale and subtitle-burn graphs: every graph is one wired chain
 of freshly labelled nodes, and its last pixel format is the one the caller
 asked for, which is what the Main10 pin goes by.
 */
module ComposeBurn {
  import opened Search
  import opened Text
  import opened FormatToken

  datatype Backend = Intel | Amd | Nvenc | Software

  /** tonemapConfig, with the subtitle render height from the environment. */
  datatype Config = Config(backend: Backend, useOpenCL: bool, algo: string, renderHeight: nat)

  /** burnSpec */
  datatype Burn = Burn(vaResident: bool, w: string, h: string, hdr: bool, algo: string, tenBit: bool,
                       burnSub: bool, subParams: string, animatedTierDown: bool, bitmap: bool, subSpec: string)

  // ---------------------------------------------------------------- filter fragments

  function ScaleFilter(b: Backend, w: string, h: string, pix: string): string {
    (if b == Nvenc then "scale_cuda=w=" else "scale_vaapi=w=") + w + (":" + ("h=" + h + (":" + ("format=" + pix))))
  }

  function TonemapFilter(b: Backend, algo: string, pix: string): string {
    match b
    case Intel => "tonemap_vaapi=transfer=bt709" + (":" + ("format=" + pix))
    case Amd => ""
    case Nvenc => "tonemap_cuda=tonemap=" + algo + (":" + ("format=" + pix))
    case Software => ""
  }

  predicate ValidAlgo(a: string) {
    a in ["hable", "mobius", "reinhard", "bt2390", "linear", "gamma", "clip"]
  }

  function OpenCLTonemap(algo: string): string {
    "hwmap=derive_device=opencl" + ("," + ("tonemap_opencl=tonemap=" + algo
    + (":" + ("transfer=bt709:matrix=bt709:primaries=bt709" + (":" + ("format=nv12"
    + ("," + "hwmap=derive_device=vaapi:reverse=1")))))))
  }

  /** tm.stage: ten bits in, eight bits out. */
  function Stage(cfg: Config, algo: string): string {
    if !cfg.useOpenCL then TonemapFilter(cfg.backend, algo, "nv12")
    else OpenCLTonemap(if ValidAlgo(algo) then algo else cfg.algo)
  }

  /** What the burn node is told besides the subtitle's own parameters. */
  function Knobs(cfg: Config, s: Burn): string {
    "render_height=" + Itoa(cfg.renderHeight)
                 + (if s.animatedTierDown then ":animated_tier_down=1" else "")
    + if cfg.backend == Amd && s.hdr then ":hdr_to_sdr=1" else ""
  }

  function ScaleBody(cfg: Config, s: Burn): string {
    if s.hdr && cfg.backend != Amd then ScaleFilter(cfg.backend, s.w, s.h, "p010") + ("," + Stage(cfg, s.algo))
    else ScaleFilter(cfg.backend, s.w, s.h, if s.hdr || s.tenBit then "p010" else "nv12")
  }

  function BurnBody(cfg: Config, s: Burn): string {
    if !s.burnSub then "inlineass=tonemap_only=1:hdr_to_sdr=1"
    else if s.subParams == "" then "inlineass=" + Knobs(cfg, s)
    else "inlineass=" + s.subParams + (":" + Knobs(cfg, s))
  }

  // ---------------------------------------------------------------- graphs as nodes

  datatype Node = Node(inputs: seq<string>, body: string, output: string)

  function Label(l: string): string {
    "[" + (l + "]")
  }

  function Labels(ls: seq<string>): string {
    if ls == [] then "" else Label(ls[0]) + Labels(ls[1..])
  }

  function Print1(n: Node): string {
    Labels(n.inputs) + (n.body + Label(n.output))
  }

  function Print(ns: seq<Node>): string {
    if ns == [] then ""
    else if |ns| == 1 then Print1(ns[0])
    else Print(ns[..|ns| - 1]) + (";" + Print1(ns[|ns| - 1]))
  }

  const SOURCE := "0:0"

  /** One more node, reading `inputs` and labelled with the next number. */
  function Then(ns: seq<Node>, inputs: seq<string>, body: string): seq<Node> {
    ns + [Node(inputs, body, Itoa(|ns|))]
  }

  function Last(ns: seq<Node>): string {
    if ns == [] then SOURCE else ns[|ns| - 1].output
  }

  /** The hardware graph: upload, scale with tonemap, burn. */
  function HwChain(cfg: Config, s: Burn): seq<Node> {
    var up := if s.vaResident then [] else Then([], [SOURCE], "hwupload");
    var scaled := Then(up, [Last(up)], ScaleBody(cfg, s));
    if s.burnSub || (cfg.backend == Amd && s.hdr) then Then(scaled, [Last(scaled)], BurnBody(cfg, s)) else scaled
  }

  function SwTonemap(algo: string): string {
    "format=p010" + ("," + ("tonemap=" + if ValidAlgo(algo) then algo else "hable"))
  }

  function SwScale(s: Burn): string {
    "scale=w=" + s.w + (":" + ("h=" + s.h + (":" + "force_divisible_by=4")))
  }

  function SwSubScale(s: Burn): string {
    "scale=" + s.w + (":" + s.h)
  }

  /** The CPU graph: the bitmap subtitle first, then scale, tonemap, format, burn. */
  function SwChain(s: Burn): seq<Node> {
    var bitmap := s.burnSub && s.bitmap;
    var sub := if bitmap then Then([], [s.subSpec], SwSubScale(s)) else [];
    var scaled := Then(sub, [SOURCE], SwScale(s));
    var toned := if s.hdr then Then(scaled, [Last(scaled)], SwTonemap(s.algo)) else scaled;
    var formatted := Then(toned, [Last(toned)], "format=pix_fmts=yuv420p|nv12");
    if !s.burnSub then formatted
    else if bitmap then Then(formatted, [Last(formatted), Last(sub)], "overlay")
    else Then(formatted, [Last(formatted)], "inlineass=" + s.subParams)
  }

  function Chain(cfg: Config, s: Burn): seq<Node> {
    if cfg.backend == Software then SwChain(s) else HwChain(cfg, s)
  }

  // ---------------------------------------------------------------- the builder

  lemma PrintThen(ns: seq<Node>, inputs: seq<string>, body: string)
    ensures var n := Node(inputs, body, Itoa(|ns|));
            Print(Then(ns, inputs, body)) == if ns == [] then Print1(n) else Print(ns) + (";" + Print1(n))
    ensures |Then(ns, inputs, body)| == |ns| + 1 && Last(Then(ns, inputs, body)) == Itoa(|ns|)
  {
    hide Print1, Itoa;
    assert Then(ns, inputs, body)[..|ns|] == ns;
  }

  lemma OneLabel(l: string)
    ensures Labels([l]) == Label(l)
  {
    assert [l][1..] == [];
  }

  /** Appending a node to the text built so far. */
  method Emit(b: string, ghost ns: seq<Node>, inputs: seq<string>, body: string, n: nat)
    returns (r: string, out: string)
    requires b == Print(ns) && n == |ns|
    ensures r == Print(Then(ns, inputs, body)) && out == Itoa(n)
  {
    hide Print, Print1, Itoa;
    PrintThen(ns, inputs, body);
    out := Itoa(n);
    r := (if n == 0 then "" else b + ";") + Print1(Node(inputs, body, out));
    NothingBefore(b, Print1(Node(inputs, body, out)));
  }

  lemma NothingBefore(b: string, t: string)
    ensures "" + t == t && (b + ";") + t == b + (";" + t)
  {}

  /** composeBurn, composeBurnAMDHDR and composeBurnSW. */
  method ComposeBurn(cfg: Config, s: Burn) returns (filter: string, newLabel: string)
    ensures filter == Print(Chain(cfg, s)) && newLabel == Label(Last(Chain(cfg, s)))
  {
    hide Print, Itoa, ScaleBody, BurnBody, SwTonemap, SwScale, SwSubScale;
    ghost var ns: seq<Node> := [];
    PrintNothing();
    var n, b := 0, "";
    var cur := SOURCE;
    if cfg.backend == Software {
      var subLabel := "";
      if s.burnSub && s.bitmap {
        b, subLabel := Emit(b, ns, [s.subSpec], SwSubScale(s), n);
        ns, n := Then(ns, [s.subSpec], SwSubScale(s)), n + 1;
      }
      b, cur := Emit(b, ns, [SOURCE], SwScale(s), n);
      ns, n := Then(ns, [SOURCE], SwScale(s)), n + 1;
      if s.hdr {
        ghost var before := cur;
        b, cur := Emit(b, ns, [cur], SwTonemap(s.algo), n);
        ns, n := Then(ns, [before], SwTonemap(s.algo)), n + 1;
      }
      ghost var toned := cur;
      b, cur := Emit(b, ns, [cur], "format=pix_fmts=yuv420p|nv12", n);
      ns, n := Then(ns, [toned], "format=pix_fmts=yuv420p|nv12"), n + 1;
      if s.burnSub {
        if s.bitmap {
          b, cur := Emit(b, ns, [cur, subLabel], "overlay", n);
        } else {
          b, cur := Emit(b, ns, [cur], "inlineass=" + s.subParams, n);
        }
      }
      return b, Label(cur);
    }
    if !s.vaResident {
      b, cur := Emit(b, ns, [SOURCE], "hwupload", n);
      ns, n := Then(ns, [SOURCE], "hwupload"), n + 1;
    }
    ghost var src := cur;
    b, cur := Emit(b, ns, [cur], ScaleBody(cfg, s), n);
    ns, n := Then(ns, [src], ScaleBody(cfg, s)), n + 1;
    if s.burnSub || (cfg.backend == Amd && s.hdr) {
      b, cur := Emit(b, ns, [cur], BurnBody(cfg, s), n);
    }
    return b, Label(cur);
  }

  lemma PrintNothing()
    ensures Print([]) == ""
  {}

  // ---------------------------------------------------------------- wiring

  /** How often a label is read. */
  function Reads(ns: seq<Node>, l: string): nat {
    if ns == [] then 0 else Reads(ns[..|ns| - 1], l) + Count(ns[|ns| - 1].inputs, l)
  }

  function Count(ls: seq<string>, l: string): nat {
    if ls == [] then 0 else (if ls[0] == l then 1 else 0) + Count(ls[1..], l)
  }

  /** Nodes are numbered, and read a stream or an earlier node. */
  predicate Wired(ns: seq<Node>, streams: set<string>) {
    && (forall i :: 0 <= i < |ns| ==> ns[i].output == Itoa(i))
    && (forall i, k :: 0 <= i < |ns| && 0 <= k < |ns[i].inputs| ==>
          ns[i].inputs[k] in streams || NumberBelow(ns[i].inputs[k], i))
  }

  predicate NumberBelow(l: string, n: nat) {
    exists j :: 0 <= j < n && l == Itoa(j)
  }

  lemma NumbersDiffer(i: nat, j: nat)
    requires i != j
    ensures Itoa(i) != Itoa(j)
  {
    ItoaMeans(i);
    ItoaMeans(j);
  }

  lemma NumberIsNoStream(i: nat, stream: string)
    requires ':' in stream
    ensures Itoa(i) != stream
  {
    ItoaMeans(i);
    assert forall k :: 0 <= k < |Itoa(i)| ==> Digit(Itoa(i)[k]);
  }

  lemma ThenWired(ns: seq<Node>, inputs: seq<string>, body: string, streams: set<string>)
    requires Wired(ns, streams)
    requires forall k :: 0 <= k < |inputs| ==> inputs[k] in streams || NumberBelow(inputs[k], |ns|)
    ensures Wired(Then(ns, inputs, body), streams)
  {
    hide Itoa;
    var all := Then(ns, inputs, body);
    assert forall i :: 0 <= i < |ns| ==> all[i] == ns[i];
    assert all[|ns|].inputs == inputs;
  }

  lemma ThenReads(ns: seq<Node>, inputs: seq<string>, body: string, l: string)
    ensures Reads(Then(ns, inputs, body), l) == Reads(ns, l) + Count(inputs, l)
  {
    hide Itoa, Count;
    assert Then(ns, inputs, body)[..|ns|] == ns;
  }

  lemma CountOne(a: string, l: string)
    ensures Count([a], l) == if a == l then 1 else 0
  {
    assert [a][1..] == [];
  }

  lemma CountTwo(a: string, b: string, l: string)
    ensures Count([a, b], l) == (if a == l then 1 else 0) + (if b == l then 1 else 0)
  {
    assert [a, b][1..] == [b];
    CountOne(b, l);
  }

  /** Every node but the last is read exactly once, and the last is not read. */
  predicate ReadOnce(ns: seq<Node>) {
    forall j :: 0 <= j < |ns| ==> Reads(ns, Itoa(j)) == if j == |ns| - 1 then 0 else 1
  }

  /** All but `open` (which may be -1) and the last are read once so far. */
  ghost predicate ReadSoFar(ns: seq<Node>, open: int) {
    && (forall j :: 0 <= j < |ns| ==> Reads(ns, Itoa(j)) == if j == |ns| - 1 || j == open then 0 else 1)
    && (forall j :: j >= |ns| ==> Reads(ns, Itoa(j)) == 0)
  }

  lemma StepReads(ns: seq<Node>, open: int, input: string, body: string)
    requires ReadSoFar(ns, open) && (ns != [] && open != |ns| - 1 ==> input == Itoa(|ns| - 1))
    requires ns == [] || open == |ns| - 1 ==> ':' in input
    ensures ReadSoFar(Then(ns, [input], body), open)
  {
    hide Itoa, Reads;
    forall j: nat
      ensures Reads(Then(ns, [input], body), Itoa(j)) == Reads(ns, Itoa(j)) + if input == Itoa(j) then 1 else 0
      ensures input == Itoa(j) <==> ns != [] && open != |ns| - 1 && j == |ns| - 1
    {
      ThenReads(ns, [input], body, Itoa(j));
      CountOne(input, Itoa(j));
      if ns == [] || open == |ns| - 1 {
        NumberIsNoStream(j, input);
      } else if j != |ns| - 1 {
        NumbersDiffer(j, |ns| - 1);
      }
    }
  }

  lemma NothingRead()
    ensures ReadSoFar([], -1) && Wired([], {})
  {}

  lemma StepWired(ns: seq<Node>, input: string, body: string, streams: set<string>)
    requires Wired(ns, streams) && (input in streams || (ns != [] && input == Itoa(|ns| - 1)))
    ensures Wired(Then(ns, [input], body), streams)
  {
    hide Itoa;
    ThenWired(ns, [input], body, streams);
  }

  /** Every composed hardware graph is one chain from the video stream to its last label. */
  lemma HwWiring(cfg: Config, s: Burn)
    ensures Wired(HwChain(cfg, s), {SOURCE}) && ReadOnce(HwChain(cfg, s))
  {
    hide Itoa, Reads, ScaleBody, BurnBody, Wired;
    var streams := {SOURCE};
    assert ':' in SOURCE;
    EmptyWired(streams);
    NothingRead();
    var up := if s.vaResident then [] else Then([], [SOURCE], "hwupload");
    if !s.vaResident {
      StepWired([], SOURCE, "hwupload", streams);
      StepReads([], -1, SOURCE, "hwupload");
    }
    StepWired(up, Last(up), ScaleBody(cfg, s), streams);
    StepReads(up, -1, Last(up), ScaleBody(cfg, s));
    var scaled := Then(up, [Last(up)], ScaleBody(cfg, s));
    StepWired(scaled, Last(scaled), BurnBody(cfg, s), streams);
    StepReads(scaled, -1, Last(scaled), BurnBody(cfg, s));
  }

  lemma EmptyWired(streams: set<string>)
    ensures Wired([], streams)
  {}

  /** The CPU graph too, with the bitmap subtitle joining at the overlay. */
  lemma SwWiring(s: Burn)
    requires s.burnSub && s.bitmap ==> ':' in s.subSpec
    ensures Wired(SwChain(s), {SOURCE, s.subSpec}) && ReadOnce(SwChain(s))
  {
    hide Itoa, Reads, SwTonemap, SwScale, SwSubScale, Wired;
    var streams := {SOURCE, s.subSpec};
    assert ':' in SOURCE;
    EmptyWired(streams);
    NothingRead();
    var bitmap := s.burnSub && s.bitmap;
    var open := if bitmap then 0 else -1;
    var sub := if bitmap then Then([], [s.subSpec], SwSubScale(s)) else [];
    if bitmap {
      StepWired([], s.subSpec, SwSubScale(s), streams);
      StepReads([], -1, s.subSpec, SwSubScale(s));
    }
    assert ReadSoFar(sub, open);
    StepWired(sub, SOURCE, SwScale(s), streams);
    StepReads(sub, open, SOURCE, SwScale(s));
    var scaled := Then(sub, [SOURCE], SwScale(s));
    if s.hdr {
      StepWired(scaled, Last(scaled), SwTonemap(s.algo), streams);
      StepReads(scaled, open, Last(scaled), SwTonemap(s.algo));
    }
    var toned := if s.hdr then Then(scaled, [Last(scaled)], SwTonemap(s.algo)) else scaled;
    StepWired(toned, Last(toned), "format=pix_fmts=yuv420p|nv12", streams);
    StepReads(toned, open, Last(toned), "format=pix_fmts=yuv420p|nv12");
    var formatted := Then(toned, [Last(toned)], "format=pix_fmts=yuv420p|nv12");
    if bitmap {
      OverlayWired(formatted, streams);
    } else if s.burnSub {
      StepWired(formatted, Last(formatted), "inlineass=" + s.subParams, streams);
      StepReads(formatted, open, Last(formatted), "inlineass=" + s.subParams);
    }
  }

  lemma OverlayWired(ns: seq<Node>, streams: set<string>)
    requires Wired(ns, streams) && |ns| >= 2 && ReadSoFar(ns, 0)
    ensures Wired(Then(ns, [Last(ns), Itoa(0)], "overlay"), streams)
    ensures ReadOnce(Then(ns, [Last(ns), Itoa(0)], "overlay"))
  {
    hide Itoa, Reads;
    var inputs := [Last(ns), Itoa(0)];
    assert Last(ns) == Itoa(|ns| - 1);
    forall k | 0 <= k < |inputs|
      ensures NumberBelow(inputs[k], |ns|)
    {
      var j := if k == 0 then |ns| - 1 else 0;
      assert inputs[k] == Itoa(j);
    }
    ThenWired(ns, inputs, "overlay", streams);
    forall j | 0 <= j <= |ns|
      ensures Reads(Then(ns, inputs, "overlay"), Itoa(j)) == if j == |ns| then 0 else 1
    {
      ThenReads(ns, inputs, "overlay", Itoa(j));
      CountTwo(Itoa(|ns| - 1), Itoa(0), Itoa(j));
      NumbersDiffer(|ns| - 1, 0);
      if j != 0 {
        NumbersDiffer(j, 0);
      }
      if j != |ns| - 1 {
        NumbersDiffer(j, |ns| - 1);
      }
    }
  }

  // ---------------------------------------------------------------- the last pixel format of a text

  datatype Depth = Undeclared | Ten | Eight

  /** The last exact p010 or nv12 token of the text. */
  ghost predicate Ends(s: string, d: Depth) {
    match d
    case Undeclared => forall k :: !DepthTokenAt(s, k)
    case Ten => EndsInP010(s)
    case Eight => exists k :: TokenAt(s, "format=nv12", k) && forall m :: k < m ==> !DepthTokenAt(s, m)
  }

  predicate Separator(c: char) {
    c == ':' || c == ',' || c == ';' || c == '[' || c == ']'
  }

  /** A token never reaches across a separator. */
  lemma TokenAround(x: string, c: char, y: string, needle: string, k: int)
    requires Separator(c) && needle != "" && forall i :: 0 <= i < |needle| ==> !Separator(needle[i])
    ensures TokenAt(x + [c] + y, needle, k)
            <==> TokenAt(x, needle, k) || TokenAt(y, needle, k - |x| - 1)
  {
    var s := x + [c] + y;
    var e := k + |needle|;
    if 0 <= k && e <= |x| {
      assert s[k..e] == x[k..e];
    } else if k > |x| && e <= |s| {
      assert s[|x| + 1..] == y;
      Slice2(s, |x| + 1, k - |x| - 1, e - |x| - 1);
    } else if 0 <= k <= |x| && e <= |s| {
      assert s[|x|] == c;
      assert s[k..e][|x| - k] == s[|x|];
      assert needle[|x| - k] != c;
    }
  }

  lemma NeedlesPlain(needle: string)
    requires needle == "format=p010" || needle == "format=nv12"
    ensures |needle| == 11 && forall i :: 0 <= i < |needle| ==> !Separator(needle[i])
  {}

  lemma DepthAround(x: string, c: char, y: string, k: int)
    requires Separator(c)
    ensures DepthTokenAt(x + [c] + y, k) <==> DepthTokenAt(x, k) || DepthTokenAt(y, k - |x| - 1)
    ensures TokenAt(x + [c] + y, "format=p010", k)
            <==> TokenAt(x, "format=p010", k) || TokenAt(y, "format=p010", k - |x| - 1)
    ensures TokenAt(x + [c] + y, "format=nv12", k)
            <==> TokenAt(x, "format=nv12", k) || TokenAt(y, "format=nv12", k - |x| - 1)
  {
    hide TokenAt, Separator;
    NeedlesPlain("format=p010");
    NeedlesPlain("format=nv12");
    TokenAround(x, c, y, "format=p010", k);
    TokenAround(x, c, y, "format=nv12", k);
  }

  lemma DepthWithin(s: string, k: int)
    requires DepthTokenAt(s, k)
    ensures 0 <= k < |s|
  {}

  function Later(a: Depth, b: Depth): Depth {
    if b == Undeclared then a else b
  }

  /** What follows a separator decides, when it declares anything. */
  lemma EndsSplit(x: string, c: char, y: string, a: Depth, b: Depth)
    requires Separator(c) && Ends(x, a) && Ends(y, b)
    ensures Ends(x + [c] + y, Later(a, b))
  {
    hide TokenAt, DepthTokenAt, Separator;
    var s := x + [c] + y;
    forall k
      ensures DepthTokenAt(s, k) <==> DepthTokenAt(x, k) || DepthTokenAt(y, k - |x| - 1)
    {
      DepthAround(x, c, y, k);
    }
    forall k
      ensures DepthTokenAt(x, k) ==> k < |x|
      ensures DepthTokenAt(y, k) ==> k >= 0
    {
      if DepthTokenAt(x, k) {
        DepthWithin(x, k);
      }
      if DepthTokenAt(y, k) {
        DepthWithin(y, k);
      }
    }
    if b != Undeclared {
      var needle := if b == Ten then "format=p010" else "format=nv12";
      var k :| TokenAt(y, needle, k) && forall m :: k < m ==> !DepthTokenAt(y, m);
      DepthAround(x, c, y, k + |x| + 1);
      TokenIsDepth(y, needle, k);
      assert TokenAt(s, needle, k + |x| + 1);
    } else if a != Undeclared {
      var needle := if a == Ten then "format=p010" else "format=nv12";
      var k :| TokenAt(x, needle, k) && forall m :: k < m ==> !DepthTokenAt(x, m);
      DepthAround(x, c, y, k);
      TokenIsDepth(x, needle, k);
      assert TokenAt(s, needle, k);
    }
  }

  lemma TokenIsDepth(s: string, needle: string, k: int)
    requires TokenAt(s, needle, k) && (needle == "format=p010" || needle == "format=nv12")
    ensures DepthTokenAt(s, k)
  {}

  /** The same, for a text put together the other way round. */
  lemma EndsRight(x: string, c: char, y: string, a: Depth, b: Depth)
    requires Separator(c) && Ends(x, a) && Ends(y, b)
    ensures Ends(x + ([c] + y), Later(a, b))
  {
    hide Ends, Separator;
    Assoc(x, [c], y);
    EndsSplit(x, c, y, a, b);
  }

  // ---------------------------------------------------------------- words

  /** A text without one of the letters every token has. */
  lemma Lacks(s: string, c: char)
    requires c !in s && (c == 'f' || c == 'o' || c == 'm' || c == '=' || c == '1')
    ensures Ends(s, Undeclared)
  {
    var i := if c == 'f' then 0 else if c == 'o' then 1 else if c == 'm' then 3 else if c == '=' then 6 else 9;
    assert "format=p010"[i] == c && "format=nv12"[i] == c;
    forall k
      ensures !DepthTokenAt(s, k)
    {
      if 0 <= k && k + 11 <= |s| {
        assert s[k..k + 11][i] == s[k + i] && s[k + i] in s;
      }
    }
  }

  /** A key without an 'f' and a value without an '='. */
  lemma Assigned(u: string, v: string)
    requires 'f' !in u && '=' !in v
    ensures Ends(u + v, Undeclared)
  {
    var s := u + v;
    forall k
      ensures !DepthTokenAt(s, k)
    {
      if 0 <= k && k + 11 <= |s| {
        assert s[k..k + 11][0] == s[k] && s[k..k + 11][6] == s[k + 6];
        if k + 6 < |u| {
          assert s[k] == u[k] && u[k] in u;
        } else {
          assert s[k + 6] == v[k + 6 - |u|] && v[k + 6 - |u|] in v;
        }
      }
    }
  }

  lemma FormatWord(pix: string)
    requires pix == "p010" || pix == "nv12"
    ensures Ends("format=" + pix, if pix == "p010" then Ten else Eight)
  {
    var s := "format=" + pix;
    var needle := if pix == "p010" then "format=p010" else "format=nv12";
    assert s == needle && |s| == 11 && s[0..11] == needle;
    assert TokenAt(s, needle, 0);
    forall m | 0 < m
      ensures !DepthTokenAt(s, m)
    {}
  }

  lemma StartsOnly(t: string)
    requires |t| > 6 && 'o' !in t && t[5] == 'p' && t[6] == 'i'
    ensures Ends("fo" + t, Undeclared)
  {
    var s := "fo" + t;
    assert s[0] == 'f' && s[1] == 'o';
    forall k
      ensures !DepthTokenAt(s, k)
    {
      if 0 <= k && k + 11 <= |s| {
        var u := s[k..k + 11];
        assert u[1] == s[k + 1] && u[8] == s[k + 8];
        assert k > 0 ==> s[k + 1] == t[k - 1] && t[k - 1] in t;
        assert k == 0 ==> s[k + 8] == t[6];
      }
    }
  }

  lemma PixFmtsSplit()
    ensures "fo" + "rmat=pix_fmts=yuv420p|nv12" == "format=pix_fmts=yuv420p|nv12"
  {}

  /** The CPU graph's own format node offers two formats and names neither token. */
  lemma PixFmtsWord()
    ensures Ends("format=pix_fmts=yuv420p|nv12", Undeclared)
  {
    hide Ends;
    StartsOnly("rmat=pix_fmts=yuv420p|nv12");
    PixFmtsSplit();
  }

  lemma ScaleEnds(b: Backend, w: string, h: string, pix: string)
    requires '=' !in w && '=' !in h && (pix == "p010" || pix == "nv12")
    ensures Ends(ScaleFilter(b, w, h, pix), if pix == "p010" then Ten else Eight)
  {
    var d := if pix == "p010" then Ten else Eight;
    var u := if b == Nvenc then "scale_cuda=w=" else "scale_vaapi=w=";
    Assigned(u, w);
    Assigned("h=", h);
    FormatWord(pix);
    hide Ends;
    EndsRight("h=" + h, ':', "format=" + pix, Undeclared, d);
    EndsRight(u + w, ':', "h=" + h + ([':'] + ("format=" + pix)), Undeclared, d);
  }

  lemma TonemapEnds(b: Backend, algo: string)
    requires '=' !in algo && (b == Intel || b == Nvenc)
    ensures Ends(TonemapFilter(b, algo, "nv12"), Eight)
  {
    Lacks("tonemap_vaapi=transfer=bt709", '1');
    Assigned("tonemap_cuda=tonemap=", algo);
    FormatWord("nv12");
    assert "format=" + "nv12" == "format=nv12";
    hide Ends;
    EndsRight("tonemap_vaapi=transfer=bt709", ':', "format=nv12", Undeclared, Eight);
    EndsRight("tonemap_cuda=tonemap=" + algo, ':', "format=nv12", Undeclared, Eight);
  }

  lemma OpenCLWords()
    ensures Ends("hwmap=derive_device=opencl", Undeclared)
    ensures Ends("hwmap=derive_device=vaapi:reverse=1", Undeclared)
  {
    hide Ends;
    Lacks("hwmap=derive_device=opencl", 'f');
    Lacks("hwmap=derive_device=vaapi:reverse=1", 'f');
  }

  lemma ColourWords()
    ensures Ends("transfer=bt709:matrix=bt709:primaries=bt709", Undeclared)
  {
    hide Ends;
    Lacks("transfer=bt709:matrix=bt709:primaries=bt709", 'o');
  }

  lemma EightWord()
    ensures Ends("format=nv12", Eight)
  {
    assert "format=" + "nv12" == "format=nv12";
    hide Ends;
    FormatWord("nv12");
  }

  lemma OpenCLEnds(algo: string)
    requires '=' !in algo
    ensures Ends(OpenCLTonemap(algo), Eight)
  {
    Assigned("tonemap_opencl=tonemap=", algo);
    hide Ends;
    OpenCLWords();
    ColourWords();
    EightWord();
    FiveWords("hwmap=derive_device=opencl", "tonemap_opencl=tonemap=" + algo,
              "transfer=bt709:matrix=bt709:primaries=bt709", "format=nv12", "hwmap=derive_device=vaapi:reverse=1");
  }

  lemma FiveWords(a: string, t: string, p: string, f: string, z: string)
    requires Ends(a, Undeclared) && Ends(t, Undeclared) && Ends(p, Undeclared) && Ends(f, Eight) && Ends(z, Undeclared)
    ensures Ends(a + ("," + (t + (":" + (p + (":" + (f + ("," + z))))))), Eight)
  {
    hide Ends;
    EndsRight(f, ',', z, Eight, Undeclared);
    var y := f + ([','] + z);
    EndsRight(p, ':', y, Undeclared, Eight);
    var x := p + ([':'] + y);
    EndsRight(t, ':', x, Undeclared, Eight);
    EndsRight(a, ',', t + ([':'] + x), Undeclared, Eight);
  }

  /** Sizes, algorithm names and stream names are plain words, and the subtitle's parameters name no format. */
  ghost predicate Plain(cfg: Config, s: Burn) {
    && '=' !in s.w && '=' !in s.h && '=' !in s.algo && '=' !in cfg.algo && '=' !in s.subSpec
    && Ends("inlineass=" + s.subParams, Undeclared)
  }

  lemma StageEnds(cfg: Config, algo: string)
    requires '=' !in algo && '=' !in cfg.algo && (cfg.backend == Intel || cfg.backend == Nvenc)
    ensures Ends(Stage(cfg, algo), Eight)
  {
    hide Ends, TonemapFilter, OpenCLTonemap, ValidAlgo;
    TonemapEnds(cfg.backend, algo);
    OpenCLEnds(algo);
    OpenCLEnds(cfg.algo);
  }

  lemma ScaleBodyEnds(cfg: Config, s: Burn)
    requires Plain(cfg, s) && cfg.backend != Software
    ensures Ends(ScaleBody(cfg, s), HwDepth(cfg, s))
  {
    hide Ends, ScaleFilter, Stage;
    ScaleEnds(cfg.backend, s.w, s.h, "p010");
    ScaleEnds(cfg.backend, s.w, s.h, "nv12");
    if s.hdr && cfg.backend != Amd {
      StageEnds(cfg, s.algo);
      EndsRight(ScaleFilter(cfg.backend, s.w, s.h, "p010"), ',', Stage(cfg, s.algo), Ten, Eight);
    }
  }

  /** Hardware graphs: eight bits after a tonemap, ten when asked for; on AMD the burn node tonemaps ten bits. */
  function HwDepth(cfg: Config, s: Burn): Depth {
    if s.hdr then if cfg.backend == Amd then Ten else Eight
    else if s.tenBit then Ten else Eight
  }

  lemma NumberPlain(n: nat)
    ensures 'f' !in Itoa(n) && '=' !in Itoa(n)
  {
    ItoaMeans(n);
    assert forall k :: 0 <= k < |Itoa(n)| ==> Digit(Itoa(n)[k]);
  }

  lemma KnobsPlain(cfg: Config, s: Burn)
    ensures 'f' !in Knobs(cfg, s) && 'f' !in "inlineass=" + Knobs(cfg, s)
  {
    hide Itoa;
    NumberPlain(cfg.renderHeight);
  }

  lemma BurnBodyEnds(cfg: Config, s: Burn)
    requires Plain(cfg, s)
    ensures Ends(BurnBody(cfg, s), Undeclared)
  {
    hide Knobs;
    KnobsPlain(cfg, s);
    Lacks("inlineass=tonemap_only=1:hdr_to_sdr=1", 'f');
    Lacks(Knobs(cfg, s), 'f');
    Lacks("inlineass=" + Knobs(cfg, s), 'f');
    hide Ends;
    EndsRight("inlineass=" + s.subParams, ':', Knobs(cfg, s), Undeclared, Undeclared);
  }

  // ---------------------------------------------------------------- the last pixel format of a graph

  lemma LabelsPlain(ls: seq<string>)
    requires ls != [] && forall k :: 0 <= k < |ls| ==> '=' !in ls[k]
    ensures var t := Labels(ls);
            |t| > 0 && t[|t| - 1] == ']' && '=' !in t
  {
    if |ls| > 1 {
      LabelsPlain(ls[1..]);
    } else {
      OneLabel(ls[0]);
    }
  }

  lemma NodeEnds(inputs: seq<string>, body: string, output: string, d: Depth)
    requires inputs != [] && forall k :: 0 <= k < |inputs| ==> '=' !in inputs[k]
    requires '=' !in output && Ends(body, d)
    ensures Ends(Print1(Node(inputs, body, output)), d)
  {
    LabelsPlain(inputs);
    var t := Labels(inputs);
    var x, y := t[..|t| - 1], output + "]";
    assert t == x + [']'];
    hide Labels;
    assert '=' !in y;
    Lacks(x, '=');
    Lacks(y, '=');
    hide Ends;
    EndsRight(body, '[', y, d, Undeclared);
    EndsSplit(x, ']', body + (['['] + y), Undeclared, d);
    assert Later(Undeclared, d) == d;
  }

  lemma ThenEnds(ns: seq<Node>, inputs: seq<string>, body: string, a: Depth, b: Depth)
    requires inputs != [] && forall k :: 0 <= k < |inputs| ==> '=' !in inputs[k]
    requires (ns == [] ==> a == Undeclared) && (ns != [] ==> Ends(Print(ns), a)) && Ends(body, b)
    ensures Ends(Print(Then(ns, inputs, body)), Later(a, b))
    ensures '=' !in Last(Then(ns, inputs, body))
  {
    hide Ends, Print, Print1, Itoa, Then;
    PrintThen(ns, inputs, body);
    NumberPlain(|ns|);
    NodeEnds(inputs, body, Itoa(|ns|), b);
    if ns != [] {
      EndsRight(Print(ns), ';', Print1(Node(inputs, body, Itoa(|ns|))), a, b);
    }
  }

  lemma SourcePlain()
    ensures '=' !in SOURCE && Ends("hwupload", Undeclared)
  {
    Lacks("hwupload", 'f');
  }

  lemma HwChainEnds(cfg: Config, s: Burn)
    requires Plain(cfg, s) && cfg.backend != Software
    ensures Ends(Print(HwChain(cfg, s)), HwDepth(cfg, s))
  {
    hide Ends, Print, Then, Last, ScaleBody, BurnBody, HwDepth, Plain;
    SourcePlain();
    hide SOURCE;
    var d := HwDepth(cfg, s);
    var up := if s.vaResident then [] else Then([], [SOURCE], "hwupload");
    ThenEnds([], [SOURCE], "hwupload", Undeclared, Undeclared);
    ScaleBodyEnds(cfg, s);
    BurnBodyEnds(cfg, s);
    LastOfNothing();
    ThenNotEmpty([], [SOURCE], "hwupload");
    ThenEnds(up, [Last(up)], ScaleBody(cfg, s), Undeclared, d);
    var scaled := Then(up, [Last(up)], ScaleBody(cfg, s));
    ThenNotEmpty(up, [Last(up)], ScaleBody(cfg, s));
    ThenEnds(scaled, [Last(scaled)], BurnBody(cfg, s), d, Undeclared);
  }

  lemma LastOfNothing()
    ensures Last([]) == SOURCE
  {}

  lemma ThenNotEmpty(ns: seq<Node>, inputs: seq<string>, body: string)
    ensures Then(ns, inputs, body) != []
  {}

  lemma SwScaleEnds(s: Burn)
    requires '=' !in s.w && '=' !in s.h
    ensures Ends(SwScale(s), Undeclared) && Ends(SwSubScale(s), Undeclared)
  {
    Assigned("scale=w=", s.w);
    Assigned("h=", s.h);
    Lacks("force_divisible_by=4", 'm');
    Assigned("scale=", s.w);
    Lacks(s.h, '=');
    hide Ends;
    var a, b, c := "scale=w=" + s.w, "h=" + s.h, "force_divisible_by=4";
    EndsRight(b, ':', c, Undeclared, Undeclared);
    EndsRight(a, ':', b + ([':'] + c), Undeclared, Undeclared);
    EndsRight("scale=" + s.w, ':', s.h, Undeclared, Undeclared);
  }

  lemma SwTonemapEnds(algo: string)
    ensures Ends(SwTonemap(algo), Ten)
  {
    var a := if ValidAlgo(algo) then algo else "hable";
    assert '=' !in a;
    FormatWord("p010");
    assert "format=" + "p010" == "format=p010";
    Assigned("tonemap=", a);
    hide Ends, ValidAlgo;
    EndsRight("format=p010", ',', "tonemap=" + a, Ten, Undeclared);
  }

  lemma OverlayEnds()
    ensures Ends("overlay", Undeclared)
  {
    Lacks("overlay", 'f');
  }

  /** Up to the scale: the bitmap subtitle's own branch declares nothing. */
  lemma SwScaledEnds(s: Burn, sub: seq<Node>)
    requires '=' !in s.w && '=' !in s.h && '=' !in s.subSpec
    requires sub == if s.burnSub && s.bitmap then Then([], [s.subSpec], SwSubScale(s)) else []
    ensures Ends(Print(Then(sub, [SOURCE], SwScale(s))), Undeclared)
    ensures Then(sub, [SOURCE], SwScale(s)) != [] && '=' !in Last(Then(sub, [SOURCE], SwScale(s)))
    ensures '=' !in Last(sub)
  {
    SwScaleEnds(s);
    SourcePlain();
    hide Ends, Print, Then, Last, SwScale, SwSubScale, SOURCE;
    LastOfNothing();
    ThenEnds([], [s.subSpec], SwSubScale(s), Undeclared, Undeclared);
    ThenNotEmpty([], [s.subSpec], SwSubScale(s));
    ThenEnds(sub, [SOURCE], SwScale(s), Undeclared, Undeclared);
    ThenNotEmpty(sub, [SOURCE], SwScale(s));
  }

  lemma SwChainEnds(cfg: Config, s: Burn)
    requires Plain(cfg, s)
    ensures Ends(Print(SwChain(s)), if s.hdr then Ten else Undeclared)
  {
    SwTonemapEnds(s.algo);
    PixFmtsWord();
    OverlayEnds();
    hide Ends, Print, Then, Last, SwScale, SwSubScale, SwTonemap, SOURCE;
    var d := if s.hdr then Ten else Undeclared;
    var bitmap := s.burnSub && s.bitmap;
    var sub := if bitmap then Then([], [s.subSpec], SwSubScale(s)) else [];
    SwScaledEnds(s, sub);
    var scaled := Then(sub, [SOURCE], SwScale(s));
    ThenEnds(scaled, [Last(scaled)], SwTonemap(s.algo), Undeclared, Ten);
    ThenNotEmpty(scaled, [Last(scaled)], SwTonemap(s.algo));
    var toned := if s.hdr then Then(scaled, [Last(scaled)], SwTonemap(s.algo)) else scaled;
    var fmt := "format=pix_fmts=yuv420p|nv12";
    ThenEnds(toned, [Last(toned)], fmt, d, Undeclared);
    ThenNotEmpty(toned, [Last(toned)], fmt);
    var formatted := Then(toned, [Last(toned)], fmt);
    if bitmap {
      ThenEnds(formatted, [Last(formatted), Last(sub)], "overlay", d, Undeclared);
    } else if s.burnSub {
      ThenEnds(formatted, [Last(formatted)], "inlineass=" + s.subParams, d, Undeclared);
    }
  }

  // ---------------------------------------------------------------- what the pin will see

  lemma EndsMeans(s: string, d: Depth)
    requires Ends(s, d)
    ensures FeedsTenBit(s) <==> d == Ten
    ensures BearsPixfmt(s) <==> d != Undeclared
  {
    TenBitMeans(s);
    hide FeedsTenBit, BearsPixfmt;
    EndsOnce(s, d);
  }

  lemma EndsOnce(s: string, d: Depth)
    requires Ends(s, d)
    ensures EndsInP010(s) <==> d == Ten
    ensures (exists k :: DepthTokenAt(s, k)) <==> d != Undeclared
  {
    OneTokenOnly(s);
    hide TokenAt;
    forall k
      ensures TokenAt(s, "format=p010", k) ==> DepthTokenAt(s, k)
    {}
    match d
    case Undeclared =>
    case Ten =>
      var j :| TokenAt(s, "format=p010", j) && forall m :: j < m ==> !DepthTokenAt(s, m);
      assert DepthTokenAt(s, j);
    case Eight =>
      var k :| TokenAt(s, "format=nv12", k) && forall m :: k < m ==> !DepthTokenAt(s, m);
      assert DepthTokenAt(s, k);
      forall j
        ensures TokenAt(s, "format=p010", j) ==> DepthTokenAt(s, j) && j < k
      {}
  }

  /**
   On Intel and NVIDIA a composed graph is seen as ten-bit exactly when the caller asked
   for ten bits and no tonemap; on AMD also when the burn node does the tonemapping; the
   CPU graph only when it holds a tonemap.
   */
  lemma BurnDepth(cfg: Config, s: Burn)
    requires Plain(cfg, s)
    ensures var g := Print(Chain(cfg, s));
            && (cfg.backend == Intel || cfg.backend == Nvenc ==> (FeedsTenBit(g) <==> s.tenBit && !s.hdr))
            && (cfg.backend == Amd ==> (FeedsTenBit(g) <==> s.tenBit || s.hdr))
            && (cfg.backend == Software ==> (FeedsTenBit(g) <==> s.hdr))
            && (cfg.backend != Software ==> BearsPixfmt(g))
  {
    hide Ends, Print, HwChain, SwChain, FeedsTenBit, BearsPixfmt, Plain;
    if cfg.backend == Software {
      SwChainEnds(cfg, s);
      EndsMeans(Print(SwChain(s)), if s.hdr then Ten else Undeclared);
    } else {
      HwChainEnds(cfg, s);
      EndsMeans(Print(HwChain(cfg, s)), HwDepth(cfg, s));
    }
  }

  /** appendSelectStage: the seek gate goes last. */
  function AppendSelect(filter: string, mapLabel: string, expr: string): (string, string) {
    if expr == "" then (filter, mapLabel)
    else (filter + (";" + (mapLabel + ("select=" + expr + Label("vsel")))), Label("vsel"))
  }

  /** The seek gate changes nothing the pin goes by. */
  lemma SelectKeepsDepth(filter: string, l: string, expr: string, d: Depth)
    requires Ends(filter, d) && '=' !in l && Ends("select=" + expr, Undeclared)
    ensures Ends(AppendSelect(filter, Label(l), expr).0, d)
  {
    if expr != "" {
      var e := "select=" + expr;
      Lacks("[" + l, '=');
      Lacks("vsel]", '=');
      hide Ends;
      EndsRight(e, '[', "vsel]", Undeclared, Undeclared);
      assert Label("vsel") == ['['] + "vsel]";
      EndsSplit("[" + l, ']', e + Label("vsel"), Undeclared, Undeclared);
      var t := Label(l) + (e + Label("vsel"));
      assert t == "[" + l + [']'] + (e + Label("vsel"));
      EndsRight(filter, ';', t, d, Undeclared);
    }
  }

  // ---------------------------------------------------------------- the text of a graph, written out

  lemma Digits()
    ensures Itoa(0) == "0" && Itoa(1) == "1" && Itoa(2) == "2" && Itoa(3) == "3" && Itoa(4) == "4"
  {}

  /** The scale node asks for the given width, height and surface; ten bits stay, and a tonemap comes next. */
  lemma ScaleText(cfg: Config, s: Burn)
    requires cfg.backend != Software
    ensures var scale := (if cfg.backend == Nvenc then "scale_cuda=w=" else "scale_vaapi=w=") + s.w + ":" + "h=" + s.h
                         + ":" + "format=" + if s.hdr || s.tenBit then "p010" else "nv12";
            ScaleBody(cfg, s) == if s.hdr && cfg.backend != Amd then scale + "," + Stage(cfg, s.algo) else scale
  {
    hide Stage;
    var name := if cfg.backend == Nvenc then "scale_cuda=w=" else "scale_vaapi=w=";
    ScaleFlat(name, s.w, ":", "h=", s.h, "format=", if s.hdr || s.tenBit then "p010" else "nv12");
    Assoc(ScaleFilter(cfg.backend, s.w, s.h, "p010"), ",", Stage(cfg, s.algo));
  }

  lemma ScaleFlat(name: string, w: string, c: string, x: string, h: string, y: string, pix: string)
    ensures name + w + (c + (x + (h + (c + (y + pix))))) == name + w + c + x + h + c + y + pix
  {}

  /** A known algorithm is honoured, any other gives way to the configured one. */
  lemma StageText(cfg: Config, algo: string)
    ensures !cfg.useOpenCL && cfg.backend == Intel ==> Stage(cfg, algo) == "tonemap_vaapi=transfer=bt709:format=nv12"
    ensures !cfg.useOpenCL && cfg.backend == Nvenc ==>
              Stage(cfg, algo) == "tonemap_cuda=tonemap=" + algo + ":format=nv12"
    ensures cfg.useOpenCL ==>
              Stage(cfg, algo)
              == "hwmap=derive_device=opencl" + "," + "tonemap_opencl=tonemap="
                 + (if algo in ["hable", "mobius", "reinhard", "bt2390", "linear", "gamma", "clip"] then algo
                    else cfg.algo)
                 + ":" + "transfer=bt709:matrix=bt709:primaries=bt709" + ":" + "format=nv12"
                 + "," + "hwmap=derive_device=vaapi:reverse=1"
  {
    if cfg.useOpenCL {
      OpenCLText(if ValidAlgo(algo) then algo else cfg.algo, "hwmap=derive_device=opencl", "tonemap_opencl=tonemap=",
                 "transfer=bt709:matrix=bt709:primaries=bt709", "format=nv12", "hwmap=derive_device=vaapi:reverse=1");
    } else {
      assert "tonemap_vaapi=transfer=bt709" + (":" + ("format=" + "nv12"))
          == "tonemap_vaapi=transfer=bt709:format=nv12";
      assert ":" + ("format=" + "nv12") == ":format=nv12";
    }
  }

  lemma OpenCLText(algo: string, a: string, b: string, c: string, d: string, e: string)
    ensures a + ("," + (b + algo + (":" + (c + (":" + (d + ("," + e)))))))
            == a + "," + b + algo + ":" + c + ":" + d + "," + e
  {}

  /** The burn node: the subtitle's own parameters first, then the knobs. */
  lemma BurnText(cfg: Config, s: Burn)
    ensures s.burnSub ==>
              BurnBody(cfg, s)
              == "inlineass=" + (if s.subParams == "" then "" else s.subParams + ":")
                 + "render_height=" + Itoa(cfg.renderHeight)
                 + (if s.animatedTierDown then ":animated_tier_down=1" else "")
                 + (if cfg.backend == Amd && s.hdr then ":hdr_to_sdr=1" else "")
    ensures !s.burnSub ==> BurnBody(cfg, s) == "inlineass=tonemap_only=1:hdr_to_sdr=1"
  {
    hide Itoa;
  }

  /** A node prints as its input labels, its filter and its output label; nodes are parted by semicolons. */
  lemma NodeText(l: string, k: string, body: string, out: string)
    ensures Print1(Node([l], body, out)) == "[" + l + "]" + body + "[" + out + "]"
    ensures Print1(Node([l, k], body, out)) == "[" + l + "][" + k + "]" + body + "[" + out + "]"
  {
    OneLabel(l);
    OneLabel(k);
    assert [l, k][1..] == [k];
    assert "]" + "[" == "][";
  }

  lemma PrintText(ns: seq<Node>, n: Node)
    ensures Print([]) == ""
    ensures Print(ns + [n]) == if ns == [] then Print1(n) else Print(ns) + ";" + Print1(n)
  {
    hide Print1;
    assert (ns + [n])[..|ns|] == ns;
    if ns != [] {
      assert Print(ns) + (";" + Print1(n)) == Print(ns) + ";" + Print1(n);
    }
  }

  /** The hardware graph: an upload unless the surface is there already, the scale, and the burn if any. */
  lemma HwNodes(cfg: Config, s: Burn)
    ensures var burns := s.burnSub || (cfg.backend == Amd && s.hdr);
            HwChain(cfg, s)
            == if s.vaResident then
                 [Node(["0:0"], ScaleBody(cfg, s), "0")] + if burns then [Node(["0"], BurnBody(cfg, s), "1")] else []
               else
                 [Node(["0:0"], "hwupload", "0"), Node(["0"], ScaleBody(cfg, s), "1")]
                 + if burns then [Node(["1"], BurnBody(cfg, s), "2")] else []
  {
    hide ScaleBody, BurnBody;
    Digits();
  }

  /** The CPU graph: the bitmap subtitle first, the scale, a tonemap if asked for, the format, the burn. */
  lemma SwNodes(s: Burn)
    ensures var first := if s.burnSub && s.bitmap then [Node([s.subSpec], "scale=" + s.w + ":" + s.h, "0")] else [];
            var n := |first|;
            var m := if s.hdr then n + 1 else n;
            SwChain(s)
            == first
               + [Node(["0:0"], "scale=w=" + s.w + ":" + "h=" + s.h + ":" + "force_divisible_by=4", Itoa(n))]
               + (if s.hdr then [Node([Itoa(n)], "format=p010" + "," + "tonemap=" + SwAlgo(s.algo), Itoa(m))] else [])
               + [Node([Itoa(m)], "format=pix_fmts=yuv420p|nv12", Itoa(m + 1))]
               + if !s.burnSub then []
                 else if s.bitmap then [Node([Itoa(m + 1), "0"], "overlay", Itoa(m + 2))]
                 else [Node([Itoa(m + 1)], "inlineass=" + s.subParams, Itoa(m + 2))]
  {
    SwBodies(s);
    Digits();
    hide SwScale, SwSubScale, SwTonemap, Itoa;
  }

  function SwAlgo(algo: string): string {
    if algo in ["hable", "mobius", "reinhard", "bt2390", "linear", "gamma", "clip"] then algo else "hable"
  }

  lemma SwBodies(s: Burn)
    ensures SwSubScale(s) == "scale=" + s.w + ":" + s.h
    ensures SwScale(s) == "scale=w=" + s.w + ":" + "h=" + s.h + ":" + "force_divisible_by=4"
    ensures SwTonemap(s.algo) == "format=p010" + "," + "tonemap=" + SwAlgo(s.algo)
  {
    Flatten("scale=w=" + s.w, ":", "h=" + s.h, ":", "force_divisible_by=4");
    Assoc("scale=w=" + s.w + ":", "h=", s.h);
    Assoc("format=p010", ",", "tonemap=" + SwAlgo(s.algo));
    Assoc("format=p010" + ",", "tonemap=", SwAlgo(s.algo));
  }

  lemma Flatten(a: string, b: string, c: string, d: string, e: string)
    ensures a + (b + (c + (d + e))) == a + b + c + d + e
  {}
}
