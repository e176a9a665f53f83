/**
 Bailing out of a rewrite: the cleaning passes in their order, and the single
 walk over the argv they amount to.
 */
module Bail {
  import opened Prelude
  import opened Search
  import opened Args
  import opened AudioClean
  import opened Text

  // ---------------------------------------------------------------- the passes in order

  /** None where the program panics. */
  function Bailed(args: Argv, noDecoder: bool): Option<Argv> {
    match DropPrefixes(Swapped(if noDecoder then DropOrphans(DropHints(args)) else args))
    case None => None
    case Some(b) => Some(DropFramedrops(b))
  }

  /** bail(), after the URL scrub; `applied` says the argv was changed. */
  method RunBail(inputArgs: Argv, noDecoder: bool) returns (out: Argv, panicked: bool, applied: bool)
    ensures Bailed(inputArgs, noDecoder) == if panicked then None else Some(out)
    ensures !panicked ==> (applied <==> out != inputArgs)
  {
    hide *;
    var args := inputArgs;
    var hintChanges: seq<string> := [];
    if noDecoder {
      args, hintChanges := DropInputAudioDecoderHints(args);
    }
    ghost var cleaned := args;
    var cells := new string[|args|](k requires 0 <= k < |args| => args[k]);
    assert cells[..] == args;
    var eaeSwapped := SwapEAEAudioDecoders(cells);
    args := cells[..];
    ghost var swapped := args;
    var eaeDropped: seq<string>;
    args, panicked, eaeDropped := DropEAEPrefixFlags(args);
    BailedBy(inputArgs, noDecoder, cleaned, swapped);
    if panicked {
      return args, true, true;
    }
    ghost var dropped := args;
    var fdDropped: seq<string>;
    out, fdDropped := DropFramedropBSF(args);
    applied := hintChanges != [] || eaeSwapped != [] || eaeDropped != [] || fdDropped != [];
    NothingDropped(inputArgs, noDecoder, swapped, dropped);
  }

  lemma BailedBy(args: Argv, noDecoder: bool, cleaned: Argv, swapped: Argv)
    requires cleaned == (if noDecoder then DropOrphans(DropHints(args)) else args) && swapped == Swapped(cleaned)
    ensures Bailed(args, noDecoder)
            == match DropPrefixes(swapped)
               case None => None
               case Some(b) => Some(DropFramedrops(b))
    ensures |swapped| == |cleaned|
  {}

  /** A loop that removed nothing left its argv alone. */
  lemma NothingDropped(args: Argv, noDecoder: bool, swapped: Argv, dropped: Argv)
    requires DropPrefixes(swapped) == Some(dropped)
    ensures |DropOrphans(DropHints(args))| == |args| ==> DropOrphans(DropHints(args)) == args
    ensures |dropped| == |swapped| ==> dropped == swapped
    ensures |DropFramedrops(dropped)| == |dropped| ==> DropFramedrops(dropped) == dropped
  {
    hide *;
    HintsShrink(args);
    OrphansShrink(DropHints(args));
    PrefixesShrink(swapped);
    FramedropsShrink(dropped);
  }

  lemma {:induction false} HintsShrink(args: Argv)
    ensures |DropHints(args)| <= |args| && (|DropHints(args)| == |args| ==> DropHints(args) == args)
    decreases |args|
  {
    hide FirstHint, DropHints;
    DropHintsStep(args);
    var i := FirstHint(args, 0, IndexOf(args, "-i", 0));
    if i >= 0 {
      HintsShrink(Remove(args, i, 2));
    }
  }

  lemma {:induction false} OrphansShrink(args: Argv)
    ensures |DropOrphans(args)| <= |args| && (|DropOrphans(args)| == |args| ==> DropOrphans(args) == args)
    decreases |args|
  {
    hide FirstPrefix, DropOrphans;
    DropOrphansStep(args);
    var i := FirstPrefix(args, 0);
    if i >= 0 && i + 1 < |args| {
      OrphansShrink(Remove(args, i, 2));
    }
  }

  lemma {:induction false} PrefixesShrink(args: Argv)
    ensures DropPrefixes(args).Some? ==>
              var r := DropPrefixes(args).value;
              |r| <= |args| && (|r| == |args| ==> r == args)
    decreases |args|
  {
    hide FirstPrefix, DropPrefixes;
    DropPrefixesStep(args);
    var i := FirstPrefix(args, 0);
    if i >= 0 && i + 2 <= |args| {
      PrefixesShrink(Remove(args, i, 2));
    }
  }

  lemma {:induction false} FramedropsShrink(args: Argv)
    ensures |DropFramedrops(args)| <= |args| && (|DropFramedrops(args)| == |args| ==> DropFramedrops(args) == args)
    decreases |args|
  {
    hide FirstFramedrop, DropFramedrops;
    DropFramedropsStep(args);
    var i := FirstFramedrop(args, 0);
    if i >= 0 {
      FramedropsShrink(Remove(args, i, 2));
    }
  }

  // ---------------------------------------------------------------- one walk over flags and their values

  datatype Edit = Hints | Prefixes | Swaps | Framedrops

  /** What a pass does to one pair: None drops it, Some(w) gives it the value `w`. */
  function Apply(e: Edit, flag: string, value: string, input: bool): Option<string> {
    match e
    case Hints => if input && HintFlag(flag) then None else Some(value)
    case Prefixes => if PrefixFlag(flag) then None else Some(value)
    case Swaps => Some(SwapOf(flag, value, if input then Decode else Encode))
    case Framedrops => if Framedrop(flag, value) then None else Some(value)
  }

  function ApplyAll(es: seq<Edit>, flag: string, value: string, input: bool): Option<string> {
    if es == [] then Some(value)
    else match Apply(es[0], flag, value, input)
      case None => None
      case Some(w) => ApplyAll(es[1..], flag, w, input)
  }

  /** The passes over every pair; `input` until the first `-i`. */
  function Walk(args: Argv, input: bool, es: seq<Edit>): Argv {
    if args == [] then []
    else if |args| == 1 || !TakesValue(args[0]) then
      [args[0]] + Walk(args[1..], input && args[0] != "-i", es)
    else
      var rest := Walk(args[2..], input, es);
      match ApplyAll(es, args[0], args[1], input)
      case None => rest
      case Some(w) => [args[0], w] + rest
  }

  lemma WalkToken(t: string, x: Argv, input: bool, es: seq<Edit>)
    requires !TakesValue(t)
    ensures Walk([t] + x, input, es) == [t] + Walk(x, input && t != "-i", es)
  {
    hide TakesValue, ApplyAll;
    assert ([t] + x)[1..] == x;
  }

  lemma WalkPair(f: string, v: string, x: Argv, input: bool, es: seq<Edit>)
    requires TakesValue(f)
    ensures Walk([f, v] + x, input, es)
            == match ApplyAll(es, f, v, input)
               case None => Walk(x, input, es)
               case Some(w) => [f, w] + Walk(x, input, es)
  {
    hide TakesValue, ApplyAll;
    assert ([f, v] + x)[2..] == x;
  }

  /** The shape of a well-formed argv: a plain token first, or a flag with its value. */
  lemma Shape(args: Argv)
    requires Paired(args) && args != []
    ensures !TakesValue(args[0]) ==> args == [args[0]] + args[1..] && Paired(args[1..])
    ensures TakesValue(args[0]) ==>
              |args| >= 2 && args == [args[0], args[1]] + args[2..] && Paired(args[2..])
              && !Dash(args[1]) && !TakesValue(args[1])
  {
    hide TakesValue, Dash;
    if TakesValue(args[0]) {
      ValueIsNoFlag(args[1]);
      PairedParts([args[0], args[1]], args[2..]);
      assert args == [args[0], args[1]] + args[2..];
    } else {
      assert args == [args[0]] + args[1..];
      PairedParts([args[0]], args[1..]);
    }
  }

  // ---------------------------------------------------------------- the walk keeps arguments well formed

  lemma ApplyNoDash(e: Edit, f: string, v: string, input: bool)
    requires !Dash(v)
    ensures Apply(e, f, v, input).Some? ==> !Dash(Apply(e, f, v, input).value)
  {
    hide HintFlag, PrefixFlag, Framedrop, AudioCodecFlag;
  }

  lemma {:induction false} EditsNoDash(es: seq<Edit>, f: string, v: string, input: bool)
    requires !Dash(v)
    ensures ApplyAll(es, f, v, input).Some? ==> !Dash(ApplyAll(es, f, v, input).value)
  {
    hide Dash, Apply;
    if es != [] {
      ApplyNoDash(es[0], f, v, input);
      if Apply(es[0], f, v, input).Some? {
        EditsNoDash(es[1..], f, Apply(es[0], f, v, input).value, input);
      }
    }
  }

  lemma PairIsPaired(f: string, w: string)
    requires !Dash(w)
    ensures Paired([f, w])
  {
    hide TakesValue, Dash;
    ValueIsNoFlag(w);
  }

  lemma TokenIsPaired(t: string)
    requires !TakesValue(t)
    ensures Paired([t])
  {
    hide TakesValue, Dash;
  }

  lemma InputIsToken(s: string)
    requires TakesValue(s) || !Dash(s)
    ensures s != "-i"
  {}

  lemma {:induction false} WalkKeeps(args: Argv, input: bool, es: seq<Edit>)
    requires Paired(args)
    ensures Paired(Walk(args, input, es))
    ensures "-i" in Walk(args, input, es) <==> "-i" in args
  {
    hide TakesValue, Dash, Walk, ApplyAll, Paired;
    if args == [] {
      WalkNothing(input, es);
    } else {
      Shape(args);
      if TakesValue(args[0]) {
        var f, v, x := args[0], args[1], args[2..];
        WalkKeeps(x, input, es);
        WalkPair(f, v, x, input, es);
        EditsNoDash(es, f, v, input);
        InputIsToken(f);
        InputIsToken(v);
        match ApplyAll(es, f, v, input)
        case None =>
        case Some(w) =>
          InputIsToken(w);
          PairIsPaired(f, w);
          PairedJoin([f, w], Walk(x, input, es));
      } else {
        var t, x := args[0], args[1..];
        WalkKeeps(x, input && t != "-i", es);
        WalkToken(t, x, input, es);
        TokenIsPaired(t);
        PairedJoin([t], Walk(x, input && t != "-i", es));
      }
    }
  }

  lemma WalkNothing(input: bool, es: seq<Edit>)
    ensures Walk([], input, es) == [] && Paired([])
  {}

  // ---------------------------------------------------------------- walking twice

  lemma {:induction false} EditsConcat(es: seq<Edit>, fs: seq<Edit>, f: string, v: string, input: bool)
    ensures ApplyAll(es + fs, f, v, input)
            == match ApplyAll(es, f, v, input)
               case None => None
               case Some(w) => ApplyAll(fs, f, w, input)
  {
    hide Apply;
    if es == [] {
      assert es + fs == fs;
    } else {
      assert (es + fs)[1..] == es[1..] + fs;
      if Apply(es[0], f, v, input).Some? {
        EditsConcat(es[1..], fs, f, Apply(es[0], f, v, input).value, input);
      }
    }
  }

  lemma {:induction false} WalkTwice(args: Argv, input: bool, es: seq<Edit>, fs: seq<Edit>)
    requires Paired(args)
    ensures Walk(Walk(args, input, es), input, fs) == Walk(args, input, es + fs)
  {
    hide TakesValue, Dash, Walk, ApplyAll, Paired;
    if args == [] {
      WalkNothing(input, es);
      WalkNothing(input, fs);
      WalkNothing(input, es + fs);
    } else {
      Shape(args);
      if TakesValue(args[0]) {
        var f, v, x := args[0], args[1], args[2..];
        WalkTwice(x, input, es, fs);
        WalkPair(f, v, x, input, es);
        WalkPair(f, v, x, input, es + fs);
        EditsConcat(es, fs, f, v, input);
        match ApplyAll(es, f, v, input)
        case None =>
        case Some(w) => WalkPair(f, w, Walk(x, input, es), input, fs);
      } else {
        var t, x := args[0], args[1..];
        WalkTwice(x, input && t != "-i", es, fs);
        WalkToken(t, x, input, es);
        WalkToken(t, x, input, es + fs);
        WalkToken(t, Walk(x, input && t != "-i", es), input, fs);
      }
    }
  }

  // ---------------------------------------------------------------- each pass is a walk

  lemma PrefixTakesValue(s: string)
    requires PrefixFlag(s)
    ensures TakesValue(s)
  {}

  lemma FramedropTakesValue(s: string, v: string)
    requires Framedrop(s, v)
    ensures TakesValue(s)
  {}

  lemma DropToken(t: string, x: Argv, drop: (string, string) -> bool)
    requires x != [] ==> !drop(t, x[0])
    ensures DropPairs([t] + x, drop) == [t] + DropPairs(x, drop)
  {
    assert ([t] + x)[1..] == x;
  }

  lemma DropAPair(f: string, v: string, x: Argv, drop: (string, string) -> bool)
    requires x != [] ==> !drop(v, x[0])
    ensures DropPairs([f, v] + x, drop) == (if drop(f, v) then [] else [f, v]) + DropPairs(x, drop)
  {
    var s := [f, v] + x;
    assert s[2..] == x;
    if !drop(f, v) {
      assert s[1..] == [v] + x;
      DropToken(v, x, drop);
      assert [f] + ([v] + DropPairs(x, drop)) == [f, v] + DropPairs(x, drop);
    }
  }

  lemma OneEdit(e: Edit, f: string, v: string, input: bool)
    ensures ApplyAll([e], f, v, input) == Apply(e, f, v, input)
  {
    hide Apply;
    assert [e][1..] == [];
  }

  lemma {:induction false} PrefixesWalk(args: Argv, input: bool)
    requires Paired(args)
    ensures DropPairs(args, IsPrefixPair()) == Walk(args, input, [Prefixes])
  {
    hide TakesValue, Dash, Walk, ApplyAll, Paired, PrefixFlag, DropPairs;
    if args == [] {
      WalkNothing(input, [Prefixes]);
      DropNothing(IsPrefixPair());
    } else {
      Shape(args);
      if TakesValue(args[0]) {
        var f, v, x := args[0], args[1], args[2..];
        PrefixesWalk(x, input);
        WalkPair(f, v, x, input, [Prefixes]);
        OneEdit(Prefixes, f, v, input);
        if PrefixFlag(v) {
          PrefixTakesValue(v);
        }
        DropAPair(f, v, x, IsPrefixPair());
      } else {
        var t, x := args[0], args[1..];
        PrefixesWalk(x, input && t != "-i");
        WalkToken(t, x, input, [Prefixes]);
        if PrefixFlag(t) {
          PrefixTakesValue(t);
        }
        DropToken(t, x, IsPrefixPair());
      }
    }
  }

  lemma DropNothing(drop: (string, string) -> bool)
    ensures DropPairs([], drop) == []
  {}

  lemma {:induction false} FramedropsWalk(args: Argv, input: bool)
    requires Paired(args)
    ensures DropPairs(args, IsFramedrop()) == Walk(args, input, [Framedrops])
  {
    hide TakesValue, Dash, Walk, ApplyAll, Paired, Framedrop, DropPairs;
    if args == [] {
      WalkNothing(input, [Framedrops]);
      DropNothing(IsFramedrop());
    } else {
      Shape(args);
      if TakesValue(args[0]) {
        var f, v, x := args[0], args[1], args[2..];
        FramedropsWalk(x, input);
        WalkPair(f, v, x, input, [Framedrops]);
        OneEdit(Framedrops, f, v, input);
        if x != [] && Framedrop(v, x[0]) {
          FramedropTakesValue(v, x[0]);
        }
        DropAPair(f, v, x, IsFramedrop());
      } else {
        var t, x := args[0], args[1..];
        FramedropsWalk(x, input && t != "-i");
        WalkToken(t, x, input, [Framedrops]);
        if x != [] && Framedrop(t, x[0]) {
          FramedropTakesValue(t, x[0]);
        }
        DropToken(t, x, IsFramedrop());
      }
    }
  }

  /** A well-formed argv does not end in a prefix flag, so nothing panics. */
  lemma PrefixPass(args: Argv, input: bool)
    requires Paired(args)
    ensures DropPrefixes(args) == Some(Walk(args, input, [Prefixes]))
  {
    hide TakesValue, Dash, Walk, DropPairs, TrailingPrefixes;
    NoTrailingPrefix(args);
    DropPrefixesMeans(args);
    PrefixesWalk(args, input);
  }

  lemma NoTrailingPrefix(args: Argv)
    requires Paired(args)
    ensures TrailingPrefixes(args) == 0
  {
    hide TakesValue, Dash, PrefixFlag;
    PairedLast(args);
    if args != [] && PrefixFlag(args[|args| - 1]) {
      PrefixTakesValue(args[|args| - 1]);
    }
  }

  /** The guarded loop over the same pairs does the same. */
  lemma {:induction false} OrphanPass(args: Argv)
    ensures TrailingPrefixes(args) % 2 == 0 ==> DropPrefixes(args) == Some(DropOrphans(args))
    decreases |args|
  {
    hide PrefixFlag, FirstPrefix, DropPrefixes, DropOrphans, TrailingPrefixes;
    DropPrefixesStep(args);
    DropOrphansStep(args);
    var i := FirstPrefix(args, 0);
    if i >= 0 {
      if i + 1 < |args| {
        OrphanPass(Remove(args, i, 2));
        TrailingParity(args, i);
      } else {
        LoneTrailing(args, i);
      }
    }
  }

  lemma {:induction false} FramedropPass(args: Argv, input: bool)
    requires Paired(args)
    ensures DropFramedrops(args) == Walk(args, input, [Framedrops])
    decreases |args|
  {
    hide TakesValue, Dash, Walk, DropPairs, FirstFramedrop, DropFramedrops, Framedrop;
    DropFramedropsStep(args);
    FramedropsWalk(args, input);
    var i := FirstFramedrop(args, 0);
    if i < 0 {
      DropNone(args, IsFramedrop());
    } else {
      FramedropTakesValue(args[i], args[i + 1]);
      RemoveKeepsPaired(args, i);
      FramedropPass(Remove(args, i, 2), input);
      FramedropsWalk(Remove(args, i, 2), input);
      NoFramedropBefore(args, i);
      DropOne(args, i, IsFramedrop());
    }
  }

  lemma NoFramedropBefore(args: Argv, i: nat)
    requires Paired(args) && i < |args| && TakesValue(args[i])
    ensures i > 0 ==> !Framedrop(args[i - 1], args[i]) && (i + 2 < |args| ==> !Framedrop(args[i - 1], args[i + 2]))
  {
    hide TakesValue, Dash, Framedrop;
    FlagsDash(args[i]);
    BeforeDash(args, i);
    if i > 0 {
      NotFramedrop(args[i - 1], args[i]);
      if i + 2 < |args| {
        NotFramedrop(args[i - 1], args[i + 2]);
      }
    }
  }

  lemma NotFramedrop(s: string, v: string)
    requires !TakesValue(s)
    ensures !Framedrop(s, v)
  {
    hide TakesValue, Framedrop;
    if Framedrop(s, v) {
      FramedropTakesValue(s, v);
    }
  }

  lemma RemoveKeepsPaired(args: Argv, i: nat)
    requires Paired(args) && i < |args| && TakesValue(args[i])
    ensures i + 2 <= |args| && Paired(Remove(args, i, 2))
    ensures Paired(args[..i]) && Paired(args[i + 2..]) && !Dash(args[i + 1])
  {
    hide TakesValue, Dash;
    FlagsDash(args[i]);
    BeforeDash(args, i);
    Cut(args, i);
    PairedParts(args[..i], args[i..]);
    Shape(args[i..]);
    assert args[i..][2..] == args[i + 2..];
    PairedJoin(args[..i], args[i + 2..]);
  }

  // ---------------------------------------------------------------- the hint pass

  lemma {:induction false} WalkConcat(x: Argv, y: Argv, input: bool, es: seq<Edit>)
    requires Paired(x)
    ensures Walk(x + y, input, es) == Walk(x, input, es) + Walk(y, input && "-i" !in x, es)
  {
    hide TakesValue, Dash, Walk, ApplyAll, Paired;
    if x == [] {
      WalkNothing(input, es);
      assert x + y == y;
    } else {
      Shape(x);
      if TakesValue(x[0]) {
        var f, v, rest := x[0], x[1], x[2..];
        InputIsToken(f);
        InputIsToken(v);
        WalkConcat(rest, y, input, es);
        assert x + y == [f, v] + (rest + y);
        WalkPair(f, v, rest, input, es);
        WalkPair(f, v, rest + y, input, es);
      } else {
        var t, rest := x[0], x[1..];
        WalkConcat(rest, y, input && t != "-i", es);
        assert x + y == [t] + (rest + y);
        WalkToken(t, rest, input, es);
        WalkToken(t, rest + y, input, es);
      }
    }
  }

  lemma {:induction false} NoHintsWalk(args: Argv, input: bool)
    requires Paired(args) && (input ==> forall k :: 0 <= k < |args| ==> !HintFlag(args[k]))
    ensures Walk(args, input, [Hints]) == args
  {
    hide TakesValue, Dash, Walk, ApplyAll, Paired, HintFlag;
    if args == [] {
      WalkNothing(input, [Hints]);
    } else {
      Shape(args);
      if TakesValue(args[0]) {
        NoHintsWalk(args[2..], input);
        WalkPair(args[0], args[1], args[2..], input, [Hints]);
        OneEdit(Hints, args[0], args[1], input);
      } else {
        NoHintsWalk(args[1..], input && args[0] != "-i");
        WalkToken(args[0], args[1..], input, [Hints]);
      }
    }
  }

  lemma InputMember(args: Argv)
    ensures "-i" in args <==> IndexOf(args, "-i", 0) >= 0
  {}

  lemma {:induction false} HintPass(args: Argv)
    requires Paired(args)
    ensures DropHints(args) == Walk(args, "-i" in args, [Hints])
    decreases |args|
  {
    hide TakesValue, Dash, Walk, FirstHint, DropHints, HintFlag, IndexOf, Paired;
    DropHintsStep(args);
    InputMember(args);
    var inputAt := IndexOf(args, "-i", 0);
    var i := FirstHint(args, 0, inputAt);
    if inputAt < 0 {
      NoHintsWalk(args, false);
    } else if i < 0 {
      NoHintsBefore(args, inputAt);
    } else {
      HintTakesValue(args[i]);
      RemoveKeepsPaired(args, i);
      HintPass(Remove(args, i, 2));
      OneHint(args, i);
    }
  }

  lemma HintTakesValue(s: string)
    requires HintFlag(s)
    ensures TakesValue(s)
  {
    hide HintFlag;
  }

  lemma NoHintsBefore(args: Argv, inputAt: int)
    requires Paired(args) && inputAt == IndexOf(args, "-i", 0) >= 0 && FirstHint(args, 0, inputAt) == -1
    ensures Walk(args, true, [Hints]) == args
  {
    hide TakesValue, Dash, Walk, HintFlag;
    var x, y := args[..inputAt], args[inputAt..];
    Cut(args, inputAt);
    InputDash(args[inputAt]);
    BeforeDash(args, inputAt);
    PairedParts(x, y);
    WalkConcat(x, y, true, [Hints]);
    assert "-i" !in x;
    NoHintsWalk(x, true);
    Shape(y);
    WalkToken("-i", y[1..], true, [Hints]);
    NoHintsWalk(y[1..], false);
  }

  lemma InputDash(s: string)
    requires s == "-i"
    ensures Dash(s) && !TakesValue(s)
  {}

  lemma OneHint(args: Argv, i: nat)
    requires Paired(args) && i + 2 <= |args| && HintFlag(args[i]) && i < IndexOf(args, "-i", 0)
    ensures "-i" in args && "-i" in Remove(args, i, 2)
    ensures Walk(args, true, [Hints]) == Walk(Remove(args, i, 2), true, [Hints])
  {
    InputAfter(args, i);
    hide *;
    HintTakesValue(args[i]);
    RemoveKeepsPaired(args, i);
    InputIsToken(args[i]);
    InputIsToken(args[i + 1]);
    var x, f, v, z := args[..i], args[i], args[i + 1], args[i + 2..];
    CutPair(args, i);
    HintDropped(x, f, v, z);
  }

  lemma CutPair(args: Argv, i: nat)
    requires i + 2 <= |args|
    ensures args == args[..i] + ([args[i], args[i + 1]] + args[i + 2..])
    ensures Remove(args, i, 2) == args[..i] + args[i + 2..]
  {}

  lemma InputAfter(args: Argv, i: nat)
    requires i + 2 <= |args| && i < IndexOf(args, "-i", 0)
    ensures "-i" in args && "-i" !in args[..i]
    ensures args[i] != "-i" && (args[i + 1] != "-i" ==> "-i" in args[i + 2..])
  {
    var at := IndexOf(args, "-i", 0);
    assert at >= i + 2 ==> args[i + 2..][at - i - 2] == "-i";
  }

  lemma HintDropped(x: Argv, f: string, v: string, z: Argv)
    requires Paired(x) && TakesValue(f) && HintFlag(f) && "-i" !in x
    ensures Walk(x + ([f, v] + z), true, [Hints]) == Walk(x + z, true, [Hints])
    ensures "-i" in z ==> "-i" in x + z
  {
    hide TakesValue, Walk, HintFlag, ApplyAll, Paired;
    WalkConcat(x, [f, v] + z, true, [Hints]);
    WalkConcat(x, z, true, [Hints]);
    WalkPair(f, v, z, true, [Hints]);
    OneEdit(Hints, f, v, true);
  }

  // ---------------------------------------------------------------- the swap pass

  lemma SwapWalk(args: Argv)
    requires Paired(args)
    ensures Swapped(args) == Walk(args, "-i" in args, [Swaps])
  {
    hide TakesValue, Dash, Walk, SwapFrom, Paired;
    InputMember(args);
    assert args[0..] == args;
    SwapWalkFrom(args, 0, IndexOf(args, "-i", 0), "-i" in args);
    assert args[..0] == [];
  }

  lemma {:induction false} SwapWalkFrom(args: Argv, i: nat, inputAt: int, input: bool)
    requires i <= |args| && Paired(args[i..])
    requires input <==> i <= inputAt
    requires input ==> inputAt < |args| && args[inputAt] == "-i" && forall k :: i <= k < inputAt ==> args[k] != "-i"
    ensures SwapFrom(args, i, inputAt) == args[..i] + Walk(args[i..], input, [Swaps])
    decreases |args| - i
  {
    hide TakesValue, Dash, Walk, SwapFrom, Paired, AudioCodecFlag, EaeBase;
    if i == |args| {
      SwapEnd(args, inputAt);
      WalkNothing(input, [Swaps]);
    } else {
      var s := args[i..];
      Shape(s);
      SwapStep(args, i, inputAt);
      if TakesValue(args[i]) {
        SwapWalkPair(args, i, inputAt, input);
      } else {
        if AudioCodecFlag(args[i]) {
          AudioFlagIsHint(args[i]);
        }
        assert s[1..] == args[i + 1..];
        SwapWalkFrom(args, i + 1, inputAt, input && args[i] != "-i");
        WalkToken(args[i], s[1..], input, [Swaps]);
        assert args[..i + 1] == args[..i] + [args[i]];
        Assoc(args[..i], [args[i]], Walk(s[1..], input && args[i] != "-i", [Swaps]));
      }
    }
  }

  lemma SwapWalkPair(args: Argv, i: nat, inputAt: int, input: bool)
    requires i < |args| && Paired(args[i..]) && TakesValue(args[i])
    requires input <==> i <= inputAt
    requires input ==> inputAt < |args| && args[inputAt] == "-i" && forall k :: i <= k < inputAt ==> args[k] != "-i"
    ensures SwapFrom(args, i, inputAt) == args[..i] + Walk(args[i..], input, [Swaps])
    decreases |args| - i, 0
  {
    hide TakesValue, Dash, Walk, SwapFrom, Paired, AudioCodecFlag, EaeBase;
    var s := args[i..];
    Shape(s);
    var f, v, x := args[i], args[i + 1], args[i + 2..];
    assert s[2..] == x && s[1] == v;
    InputIsToken(f);
    InputIsToken(v);
    var w := SwapOf(f, v, Side(i, inputAt));
    var next := args[i + 1 := w];
    assert args[i + 1 := v] == args;
    SwapStep(args, i, inputAt);
    assert SwapFrom(args, i, inputAt) == SwapFrom(next, i + 1, inputAt);
    SwappedIsNoFlag(f, v, Side(i, inputAt));
    SwapStep(next, i + 1, inputAt);
    assert next[i + 2..] == x;
    SwapWalkFrom(next, i + 2, inputAt, input);
    WalkPair(f, v, x, input, [Swaps]);
    OneEdit(Swaps, f, v, input);
    assert next[..i + 2] == args[..i] + [f, w];
    Assoc(args[..i], [f, w], Walk(x, input, [Swaps]));
  }

  lemma SwappedIsNoFlag(f: string, v: string, dir: Direction)
    requires !Dash(v)
    ensures !AudioCodecFlag(SwapOf(f, v, dir))
  {
    hide AudioCodecFlag;
    var w := SwapOf(f, v, dir);
    assert !Dash(w);
    if AudioCodecFlag(w) {
      AudioFlagIsHint(w);
    }
  }

  // ---------------------------------------------------------------- the bail as one walk

  /** What becomes of a pair: private options go, an eae codec name becomes a stock one. */
  function CleanPair(flag: string, value: string, input: bool, noDecoder: bool): Option<string> {
    if PrefixFlag(flag) || Framedrop(flag, value) || (noDecoder && input && HintFlag(flag)) then None
    else Some(SwapOf(flag, value, if input then Decode else Encode))
  }

  /** The flags that name an audio codec, written out: -c:a, and -codec: or -c:a: with a number. */
  predicate NamesAudioCodec(flag: string) {
    || flag == "-c:a"
    || ("-codec:" <= flag && Atoi(flag[7..]).Some?)
    || ("-c:a:" <= flag && Atoi(flag[5..]).Some?)
  }

  /** The stock codec for an eae name without its ending. */
  function StockCodec(base: string, input: bool): string {
    if input then base else if base == "eac3" || base == "ac3" then base else "eac3"
  }

  lemma HintMeans(flag: string)
    ensures HintFlag(flag) <==> ("-codec:" <= flag && |flag| > 7) || ("-c:" <= flag && |flag| > 3)
  {
    var short := ["-c:v", "-c:a", "-c:s", "-c:d", "-c:t"];
    forall k | 0 <= k < 5
      ensures "-c:" <= short[k] && |short[k]| > 3
    {
      assert short[k][..3] == "-c:";
    }
    if flag in short {
      var k :| 0 <= k < 5 && short[k] == flag;
    }
  }

  /** Which pairs go, by name. */
  lemma PairGoes(flag: string, value: string, input: bool, noDecoder: bool)
    ensures CleanPair(flag, value, input, noDecoder).None?
            <==> || "-eae_prefix" <= flag
                 || ("-bsf:" <= flag && "framedrop=" <= value)
                 || (noDecoder && input && (("-codec:" <= flag && |flag| > 7) || ("-c:" <= flag && |flag| > 3)))
  {
    HintMeans(flag);
    hide HintFlag, SwapOf;
  }

  /** What a kept eae codec becomes. */
  lemma PairSwapped(flag: string, base: string, input: bool, noDecoder: bool)
    requires NamesAudioCodec(flag) && CleanPair(flag, base + "_eae", input, noDecoder).Some?
    ensures CleanPair(flag, base + "_eae", input, noDecoder)
            == Some(if input && base == "" then base + "_eae" else StockCodec(base, input))
  {
    hide PrefixFlag, Framedrop, HintFlag, Atoi;
    var v := base + "_eae";
    assert v[|v| - 4..] == "_eae" && v[..|v| - 4] == base;
  }

  /** Every other value that is kept is kept as it is. */
  lemma PairStays(flag: string, value: string, input: bool, noDecoder: bool)
    requires CleanPair(flag, value, input, noDecoder).Some?
    requires !NamesAudioCodec(flag) || |value| < 4 || value[|value| - 4..] != "_eae"
    ensures CleanPair(flag, value, input, noDecoder) == Some(value)
  {
    hide PrefixFlag, Framedrop, HintFlag, Atoi;
  }

  function Passes(noDecoder: bool): seq<Edit> {
    (if noDecoder then [Hints, Prefixes] else []) + [Swaps, Prefixes, Framedrops]
  }

  function Cleaned(args: Argv, input: bool, noDecoder: bool): Argv {
    if args == [] then []
    else if |args| == 1 || !TakesValue(args[0]) then
      [args[0]] + Cleaned(args[1..], input && args[0] != "-i", noDecoder)
    else
      var rest := Cleaned(args[2..], input, noDecoder);
      match CleanPair(args[0], args[1], input, noDecoder)
      case None => rest
      case Some(w) => [args[0], w] + rest
  }

  lemma PassesMean(f: string, v: string, input: bool, noDecoder: bool)
    ensures ApplyAll(Passes(noDecoder), f, v, input) == CleanPair(f, v, input, noDecoder)
  {
    hide HintFlag, PrefixFlag, EaeBase, Framedrop;
    var last := [Swaps, Prefixes, Framedrops];
    var w := SwapOf(f, v, if input then Decode else Encode);
    NoFramedropSwap(f, v, w);
    assert last[1..] == [Prefixes, Framedrops] && [Prefixes, Framedrops][1..] == [Framedrops];
    OneEdit(Framedrops, f, w, input);
    assert ApplyAll([Prefixes, Framedrops], f, w, input)
        == if PrefixFlag(f) then None else Apply(Framedrops, f, w, input);
    assert ApplyAll(last, f, v, input) == ApplyAll([Prefixes, Framedrops], f, w, input);
    if noDecoder {
      EditsConcat([Hints, Prefixes], last, f, v, input);
      assert [Hints, Prefixes][1..] == [Prefixes];
      OneEdit(Prefixes, f, v, input);
    } else {
      assert [] + last == last;
    }
  }

  /** A bitstream-filter flag is no codec flag, so its value is never swapped. */
  lemma NoFramedropSwap(f: string, v: string, w: string)
    requires w == v || AudioCodecFlag(f)
    ensures Framedrop(f, w) <==> Framedrop(f, v)
  {
    if AudioCodecFlag(f) {
      assert f[1] == 'c';
    }
  }

  lemma CleanedToken(t: string, x: Argv, input: bool, noDecoder: bool)
    requires !TakesValue(t)
    ensures Cleaned([t] + x, input, noDecoder) == [t] + Cleaned(x, input && t != "-i", noDecoder)
  {
    hide TakesValue, CleanPair;
    assert ([t] + x)[1..] == x;
  }

  lemma CleanedPair(f: string, v: string, x: Argv, input: bool, noDecoder: bool)
    requires TakesValue(f)
    ensures Cleaned([f, v] + x, input, noDecoder)
            == match CleanPair(f, v, input, noDecoder)
               case None => Cleaned(x, input, noDecoder)
               case Some(w) => [f, w] + Cleaned(x, input, noDecoder)
  {
    hide TakesValue, CleanPair;
    assert ([f, v] + x)[2..] == x;
  }

  lemma CleanedNothing(input: bool, noDecoder: bool)
    ensures Cleaned([], input, noDecoder) == []
  {}

  lemma {:induction false} CleanedIsWalk(args: Argv, input: bool, noDecoder: bool)
    requires Paired(args)
    ensures Cleaned(args, input, noDecoder) == Walk(args, input, Passes(noDecoder))
  {
    hide TakesValue, Dash, Walk, ApplyAll, Paired, Passes, Cleaned, CleanPair;
    var es := Passes(noDecoder);
    if args == [] {
      WalkNothing(input, es);
      CleanedNothing(input, noDecoder);
    } else {
      Shape(args);
      if TakesValue(args[0]) {
        var f, v, x := args[0], args[1], args[2..];
        CleanedIsWalk(x, input, noDecoder);
        WalkPair(f, v, x, input, es);
        CleanedPair(f, v, x, input, noDecoder);
        PassesMean(f, v, input, noDecoder);
      } else {
        var t, x := args[0], args[1..];
        CleanedIsWalk(x, input && t != "-i", noDecoder);
        WalkToken(t, x, input, es);
        CleanedToken(t, x, input, noDecoder);
      }
    }
  }

  /**
   On a well-formed argv the bail never panics, and its passes come to one walk:
   pairs change or go one by one, everything else stays in order.
   */
  lemma BailMeans(args: Argv, noDecoder: bool)
    requires Paired(args)
    ensures Bailed(args, noDecoder) == Some(Cleaned(args, "-i" in args, noDecoder))
    ensures Paired(Cleaned(args, "-i" in args, noDecoder))
    ensures "-i" in Cleaned(args, "-i" in args, noDecoder) <==> "-i" in args
  {
    hide TakesValue, Dash, Walk, Paired, Cleaned;
    var input := "-i" in args;
    CleanedIsWalk(args, input, noDecoder);
    WalkKeeps(args, input, Passes(noDecoder));
    var head: seq<Edit> := if noDecoder then [Hints, Prefixes] else [];
    var a := if noDecoder then DropOrphans(DropHints(args)) else args;
    FirstPasses(args, noDecoder);
    WalkKeeps(args, input, head);
    SwapWalk(a);
    WalkTwice(args, input, head, [Swaps]);
    WalkKeeps(args, input, head + [Swaps]);
    var b := Walk(args, input, head + [Swaps]);
    PrefixPass(b, input);
    WalkTwice(args, input, head + [Swaps], [Prefixes]);
    WalkKeeps(args, input, head + [Swaps] + [Prefixes]);
    var c := Walk(args, input, head + [Swaps] + [Prefixes]);
    FramedropPass(c, input);
    WalkTwice(args, input, head + [Swaps] + [Prefixes], [Framedrops]);
    assert head + [Swaps] + [Prefixes] + [Framedrops] == Passes(noDecoder);
    BailedBy(args, noDecoder, a, Swapped(a));
  }

  lemma FirstPasses(args: Argv, noDecoder: bool)
    requires Paired(args)
    ensures (if noDecoder then DropOrphans(DropHints(args)) else args)
            == Walk(args, "-i" in args, if noDecoder then [Hints, Prefixes] else [])
  {
    hide TakesValue, Dash, Walk, Paired;
    var input := "-i" in args;
    if noDecoder {
      HintPass(args);
      WalkKeeps(args, input, [Hints]);
      var a := Walk(args, input, [Hints]);
      PrefixPass(a, input);
      NoTrailingPrefix(a);
      OrphanPass(a);
      WalkTwice(args, input, [Hints], [Prefixes]);
      assert [Hints] + [Prefixes] == [Hints, Prefixes];
    } else {
      NoEdits(args, input);
    }
  }

  lemma {:induction false} NoEdits(args: Argv, input: bool)
    requires Paired(args)
    ensures Walk(args, input, []) == args
  {
    hide TakesValue, Dash, Walk, Paired;
    if args == [] {
      WalkNothing(input, []);
    } else {
      Shape(args);
      if TakesValue(args[0]) {
        NoEdits(args[2..], input);
        WalkPair(args[0], args[1], args[2..], input, []);
      } else {
        NoEdits(args[1..], input && args[0] != "-i");
        WalkToken(args[0], args[1..], input, []);
      }
    }
  }

  // ---------------------------------------------------------------- what a bail leaves

  /** No -eae_prefix flag, and no framedrop pair. */
  predicate NoPrivate(args: Argv) {
    && (forall k :: 0 <= k < |args| ==> !PrefixFlag(args[k]))
    && (forall k :: 0 <= k < |args| - 1 ==> !Framedrop(args[k], args[k + 1]))
  }

  lemma {:induction false} CleanedHasNoPrivate(args: Argv, input: bool, noDecoder: bool)
    requires Paired(args)
    ensures NoPrivate(Cleaned(args, input, noDecoder))
  {
    hide TakesValue, Dash, Paired, Cleaned, PrefixFlag, Framedrop, HintFlag, SwapOf;
    if args == [] {
      CleanedNothing(input, noDecoder);
    } else {
      Shape(args);
      if TakesValue(args[0]) {
        var f, v, x := args[0], args[1], args[2..];
        CleanedHasNoPrivate(x, input, noDecoder);
        CleanedPair(f, v, x, input, noDecoder);
        match CleanPair(f, v, input, noDecoder)
        case None =>
        case Some(w) =>
          SwappedValue(f, v, input);
          NoPrivatePair(f, w, Cleaned(x, input, noDecoder));
      } else {
        var t, x := args[0], args[1..];
        CleanedHasNoPrivate(x, input && t != "-i", noDecoder);
        CleanedToken(t, x, input, noDecoder);
        NoPrivateToken(t, Cleaned(x, input && t != "-i", noDecoder));
      }
    }
  }

  lemma SwappedValue(f: string, v: string, input: bool)
    requires !Dash(v)
    ensures var w := SwapOf(f, v, if input then Decode else Encode);
            !Dash(w) && (Framedrop(f, w) <==> Framedrop(f, v))
  {
    hide AudioCodecFlag, Framedrop;
    NoFramedropSwap(f, v, SwapOf(f, v, if input then Decode else Encode));
  }

  lemma NoPrivateToken(t: string, x: Argv)
    requires !TakesValue(t) && NoPrivate(x)
    ensures NoPrivate([t] + x)
  {
    hide TakesValue, PrefixFlag, Framedrop;
    var s := [t] + x;
    if PrefixFlag(t) {
      PrefixTakesValue(t);
    }
    forall k | 0 <= k < |s| - 1
      ensures !Framedrop(s[k], s[k + 1])
    {
      if k == 0 {
        NotFramedrop(t, s[1]);
      } else {
        assert s[k] == x[k - 1] && s[k + 1] == x[k - 1 + 1];
      }
    }
  }

  lemma NoPrivatePair(f: string, w: string, x: Argv)
    requires !PrefixFlag(f) && !Framedrop(f, w) && !Dash(w) && NoPrivate(x)
    ensures NoPrivate([f, w] + x)
  {
    hide TakesValue, PrefixFlag, Framedrop, Dash;
    ValueIsNoFlag(w);
    NoPrivateToken(w, x);
    var s, t := [f] + ([w] + x), [w] + x;
    assert [f, w] + x == s;
    forall k | 0 <= k < |s| - 1
      ensures !Framedrop(s[k], s[k + 1])
    {
      if k > 0 {
        assert s[k] == t[k - 1] && s[k + 1] == t[k - 1 + 1];
      }
    }
  }

  /** A name that is still an eae name once its suffix is cut. */
  predicate Stubborn(v: string) {
    HasEae(v) && (Base(v) == "" || HasEae(Base(v)))
  }

  /** No eae codec name follows an audio codec flag. */
  predicate NoEae(args: Argv) {
    forall k :: 0 <= k < |args| - 1 && AudioCodecFlag(args[k]) ==> !HasEae(args[k + 1])
  }

  /** A stubborn name in an input decoder slot that the bail keeps. */
  predicate KeepsStubborn(args: Argv, input: bool, noDecoder: bool) {
    if |args| < 2 || !input || noDecoder then false
    else if TakesValue(args[0]) then
      (AudioCodecFlag(args[0]) && Stubborn(args[1])) || KeepsStubborn(args[2..], input, noDecoder)
    else KeepsStubborn(args[1..], args[0] != "-i", noDecoder)
  }

  /** The encoder side always ends on a stock encoder; the decoder side on the base codec. */
  lemma SwapNames(flag: string, v: string, input: bool)
    requires AudioCodecFlag(flag)
    ensures var w := SwapOf(flag, v, if input then Decode else Encode);
            && (!HasEae(v) ==> w == v)
            && (HasEae(v) && !input ==> w == "eac3" || w == "ac3")
            && (HasEae(v) && input ==> w == if Base(v) == "" then v else Base(v))
            && (HasEae(w) <==> input && Stubborn(v))
  {
    assert HasEae("eac3") <==> "eac3"[0..] == "_eae";
    assert "eac3"[0] != '_';
  }

  /**
   No eae name is left after an audio codec flag, exactly unless an input decoder
   slot held a bare `_eae` or a base name that ends in `_eae` itself.
   */
  lemma {:induction false} CleanedHasNoEae(args: Argv, input: bool, noDecoder: bool)
    requires Paired(args)
    ensures NoEae(Cleaned(args, input, noDecoder)) <==> !KeepsStubborn(args, input, noDecoder)
  {
    hide TakesValue, Dash, Paired, Cleaned, HasEae, AudioCodecFlag, Stubborn, KeepsStubborn, CleanPair;
    if args == [] {
      CleanedNothing(input, noDecoder);
      StubbornNothing(input, noDecoder);
    } else {
      Shape(args);
      if TakesValue(args[0]) {
        var f, v, x := args[0], args[1], args[2..];
        CleanedHasNoEae(x, input, noDecoder);
        CleanedPair(f, v, x, input, noDecoder);
        StubbornPair(args, input, noDecoder);
        CleanPairEae(f, v, input, noDecoder);
        match CleanPair(f, v, input, noDecoder)
        case None =>
        case Some(w) => NoEaePair(f, w, Cleaned(x, input, noDecoder));
      } else {
        var t, x := args[0], args[1..];
        CleanedHasNoEae(x, input && t != "-i", noDecoder);
        CleanedToken(t, x, input, noDecoder);
        StubbornToken(args, input, noDecoder);
        NoEaeToken(t, Cleaned(x, input && t != "-i", noDecoder));
      }
    }
  }

  lemma StubbornNothing(input: bool, noDecoder: bool)
    ensures !KeepsStubborn([], input, noDecoder)
  {}

  lemma StubbornPair(args: Argv, input: bool, noDecoder: bool)
    requires |args| >= 2 && TakesValue(args[0])
    ensures KeepsStubborn(args, input, noDecoder)
            <==> (input && !noDecoder && AudioCodecFlag(args[0]) && Stubborn(args[1]))
                 || KeepsStubborn(args[2..], input, noDecoder)
  {
    hide TakesValue, AudioCodecFlag, Stubborn;
  }

  lemma StubbornToken(args: Argv, input: bool, noDecoder: bool)
    requires args != [] && !TakesValue(args[0])
    ensures KeepsStubborn(args, input, noDecoder)
            <==> KeepsStubborn(args[1..], input && args[0] != "-i", noDecoder)
  {
    hide TakesValue, AudioCodecFlag, Stubborn;
  }

  lemma CleanPairEae(f: string, v: string, input: bool, noDecoder: bool)
    requires !Dash(v)
    ensures match CleanPair(f, v, input, noDecoder)
            case None => !(input && !noDecoder && AudioCodecFlag(f) && Stubborn(v))
            case Some(w) =>
              && !Dash(w)
              && (AudioCodecFlag(f) && HasEae(w) <==> input && !noDecoder && AudioCodecFlag(f) && Stubborn(v))
  {
    hide Dash, Stubborn, HasEae, SwapOf;
    SwappedValue(f, v, input);
    if AudioCodecFlag(f) {
      SwapNames(f, v, input);
      AudioFlagIsHint(f);
      assert f[1] == 'c';
    }
  }

  lemma NoEaeToken(t: string, x: Argv)
    requires !TakesValue(t)
    ensures NoEae([t] + x) <==> NoEae(x)
  {
    hide TakesValue, AudioCodecFlag, HasEae;
    var s := [t] + x;
    if AudioCodecFlag(t) {
      AudioFlagIsHint(t);
    }
    assert forall k :: 0 <= k < |x| ==> s[k + 1] == x[k];
    if NoEae(s) {
      forall k | 0 <= k < |x| - 1 && AudioCodecFlag(x[k])
        ensures !HasEae(x[k + 1])
      {
        assert AudioCodecFlag(s[k + 1]);
        assert s[k + 1 + 1] == x[k + 1];
      }
    }
    if NoEae(x) {
      forall k | 0 <= k < |s| - 1 && AudioCodecFlag(s[k])
        ensures !HasEae(s[k + 1])
      {
        assert s[k] == x[k - 1] && s[k + 1] == x[k - 1 + 1];
      }
    }
  }

  lemma NoEaePair(f: string, w: string, x: Argv)
    requires !Dash(w)
    ensures NoEae([f, w] + x) <==> !(AudioCodecFlag(f) && HasEae(w)) && NoEae(x)
  {
    hide TakesValue, AudioCodecFlag, HasEae, Dash;
    ValueIsNoFlag(w);
    NoEaeToken(w, x);
    var t := [w] + x;
    var s := [f] + t;
    assert [f, w] + x == s && s[0] == f && s[1] == w;
    if NoEae(s) {
      forall k | 0 <= k < |t| - 1 && AudioCodecFlag(t[k])
        ensures !HasEae(t[k + 1])
      {
        assert s[k + 1] == t[k] && s[k + 1 + 1] == t[k + 1];
      }
    }
    if NoEae(t) && !(AudioCodecFlag(f) && HasEae(w)) {
      forall k | 0 <= k < |s| - 1 && AudioCodecFlag(s[k])
        ensures !HasEae(s[k + 1])
      {
        if k > 0 {
          assert s[k] == t[k - 1] && s[k + 1] == t[k - 1 + 1];
        }
      }
    }
  }

  // ---------------------------------------------------------------- bailing twice

  /** An input decoder name that a second bail would cut again. */
  predicate CutsAgain(v: string) {
    HasEae(v) && HasEae(Base(v)) && Base(Base(v)) != ""
  }

  predicate ChangesAgain(args: Argv, input: bool, noDecoder: bool) {
    if |args| < 2 || !input || noDecoder then false
    else if TakesValue(args[0]) then
      (AudioCodecFlag(args[0]) && CutsAgain(args[1])) || ChangesAgain(args[2..], input, noDecoder)
    else ChangesAgain(args[1..], args[0] != "-i", noDecoder)
  }

  lemma {:induction false} CleanedTwice(args: Argv, input: bool, noDecoder: bool)
    requires Paired(args)
    ensures var out := Cleaned(args, input, noDecoder);
            Cleaned(out, input, noDecoder) == out <==> !ChangesAgain(args, input, noDecoder)
  {
    hide TakesValue, Dash, Paired, Cleaned, AudioCodecFlag, CutsAgain, ChangesAgain, CleanPair;
    if args == [] {
      CleanedNothing(input, noDecoder);
      AgainNothing(input, noDecoder);
    } else {
      Shape(args);
      if TakesValue(args[0]) {
        var f, v, x := args[0], args[1], args[2..];
        var out := Cleaned(x, input, noDecoder);
        CleanedTwice(x, input, noDecoder);
        CleanedPair(f, v, x, input, noDecoder);
        AgainPair(args, input, noDecoder);
        CleanPairTwice(f, v, input, noDecoder);
        match CleanPair(f, v, input, noDecoder)
        case None =>
        case Some(w) =>
          CleanedPair(f, w, out, input, noDecoder);
          var w2 := CleanPair(f, w, input, noDecoder).value;
          SamePair(f, w, w2, out, Cleaned(out, input, noDecoder));
      } else {
        var t, x := args[0], args[1..];
        var out := Cleaned(x, input && t != "-i", noDecoder);
        CleanedTwice(x, input && t != "-i", noDecoder);
        CleanedToken(t, x, input, noDecoder);
        CleanedToken(t, out, input, noDecoder);
        AgainToken(args, input, noDecoder);
        SameToken(t, out, Cleaned(out, input && t != "-i", noDecoder));
      }
    }
  }

  lemma AgainNothing(input: bool, noDecoder: bool)
    ensures !ChangesAgain([], input, noDecoder)
  {}

  lemma AgainPair(args: Argv, input: bool, noDecoder: bool)
    requires |args| >= 2 && TakesValue(args[0])
    ensures ChangesAgain(args, input, noDecoder)
            <==> (input && !noDecoder && AudioCodecFlag(args[0]) && CutsAgain(args[1]))
                 || ChangesAgain(args[2..], input, noDecoder)
  {
    hide TakesValue, AudioCodecFlag, CutsAgain;
  }

  lemma AgainToken(args: Argv, input: bool, noDecoder: bool)
    requires args != [] && !TakesValue(args[0])
    ensures ChangesAgain(args, input, noDecoder)
            <==> ChangesAgain(args[1..], input && args[0] != "-i", noDecoder)
  {
    hide TakesValue, AudioCodecFlag, CutsAgain;
  }

  lemma CleanPairTwice(f: string, v: string, input: bool, noDecoder: bool)
    requires !Dash(v)
    ensures match CleanPair(f, v, input, noDecoder)
            case None => !(input && !noDecoder && AudioCodecFlag(f) && CutsAgain(v))
            case Some(w) =>
              && CleanPair(f, w, input, noDecoder).Some?
              && (CleanPair(f, w, input, noDecoder) == Some(w)
                  <==> !(input && !noDecoder && AudioCodecFlag(f) && CutsAgain(v)))
  {
    AudioIsNotPrivate(f, v);
    SwappedValue(f, v, input);
    hide Dash, AudioCodecFlag, PrefixFlag, Framedrop, HintFlag, EaeBase, CutsAgain;
    if AudioCodecFlag(f) {
      AudioFlagIsHint(f);
      SwapTwice(f, v, input);
    }
  }

  lemma AudioIsNotPrivate(f: string, v: string)
    ensures AudioCodecFlag(f) ==> !PrefixFlag(f) && !Framedrop(f, v)
  {
    if AudioCodecFlag(f) {
      assert f[1] == 'c';
    }
  }

  lemma SwapTwice(flag: string, v: string, input: bool)
    requires AudioCodecFlag(flag)
    ensures var dir := if input then Decode else Encode;
            SwapOf(flag, SwapOf(flag, v, dir), dir) == SwapOf(flag, v, dir) <==> !(input && CutsAgain(v))
  {
    hide AudioCodecFlag;
    SwapNames(flag, v, input);
    var dir := if input then Decode else Encode;
    var w := SwapOf(flag, v, dir);
    SwapNames(flag, w, input);
    if HasEae(w) {
      assert |Base(w)| < |w|;
    }
  }

  lemma SamePair(f: string, w: string, w2: string, x: Argv, y: Argv)
    ensures [f, w2] + y == [f, w] + x <==> w2 == w && y == x
  {
    assert ([f, w2] + y)[2..] == y && ([f, w] + x)[2..] == x;
    assert ([f, w2] + y)[1] == w2 && ([f, w] + x)[1] == w;
  }

  lemma SameToken(t: string, x: Argv, y: Argv)
    ensures [t] + y == [t] + x <==> y == x
  {
    assert ([t] + y)[1..] == y && ([t] + x)[1..] == x;
  }

  /** Bailing on the bailed argv changes nothing, exactly unless a decoder name is cut twice. */
  lemma BailTwice(args: Argv, noDecoder: bool)
    requires Paired(args)
    ensures var out := Cleaned(args, "-i" in args, noDecoder);
            Bailed(args, noDecoder) == Some(out)
            && (Bailed(out, noDecoder) == Some(out) <==> !ChangesAgain(args, "-i" in args, noDecoder))
  {
    hide *;
    BailMeans(args, noDecoder);
    BailMeans(Cleaned(args, "-i" in args, noDecoder), noDecoder);
    CleanedTwice(args, "-i" in args, noDecoder);
  }

  /** On a well-formed argv, with the flags and values written out: what a bail never hands over. */
  lemma BailLeaves(args: Argv, noDecoder: bool, k: nat)
    requires Paired(args)
    ensures Bailed(args, noDecoder).Some?
    ensures var out := Bailed(args, noDecoder).value;
            k < |out| ==> !("-eae_prefix" <= out[k])
    ensures var out := Bailed(args, noDecoder).value;
            k + 1 < |out| ==> !("-bsf:" <= out[k] && "framedrop=" <= out[k + 1])
  {
    hide Paired, Cleaned, Bailed;
    BailMeans(args, noDecoder);
    CleanedHasNoPrivate(args, "-i" in args, noDecoder);
  }
}
