/**
 The passes that clear Plex's private audio options from an argv: `*_eae` codec
 names, `-eae_prefix` pairs, the framedrop filter, and input decoder hints.
 */
module AudioClean {
  import opened Prelude
  import opened Search
  import opened Text
  import opened Args

  // ---------------------------------------------------------------- codec names

  datatype Direction = Decode | Encode

  predicate HasEae(v: string) {
    |v| >= 4 && v[|v| - 4..] == "_eae"
  }

  function Base(v: string): string
    requires HasEae(v)
  {
    v[..|v| - 4]
  }

  /** eaeBaseFor; "" when there is nothing to swap. */
  function EaeBase(v: string, dir: Direction): string {
    if !HasEae(v) then ""
    else if dir == Decode then Base(v)
    else if Base(v) == "eac3" || Base(v) == "ac3" then Base(v)
    else "eac3"
  }

  /** audioCodecFlag */
  predicate AudioCodecFlag(s: string) {
    || s == "-c:a"
    || ("-codec:" <= s && Atoi(s[7..]).Some?)
    || ("-c:a:" <= s && Atoi(s[5..]).Some?)
  }

  lemma AudioFlagIsHint(s: string)
    requires AudioCodecFlag(s)
    ensures HintFlag(s) && TakesValue(s) && Dash(s)
  {
    assert "-c:a:" <= s ==> "-c:" <= s && |s| > 3;
    if "-codec:" <= s {
      assert Atoi("").None?;
      assert |s| == 7 ==> s[7..] == "";
    }
  }

  // ---------------------------------------------------------------- swapping codec names in place

  function Side(i: int, inputAt: int): Direction {
    if inputAt >= 0 && i < inputAt then Decode else Encode
  }

  /** The loop from `i`; a swapped value is looked at again as the next token. */
  function SwapFrom(args: Argv, i: nat, inputAt: int): (r: Argv)
    ensures |r| == |args|
    decreases |args| - i
  {
    if i >= |args| then args
    else if !AudioCodecFlag(args[i]) || i + 1 >= |args| then SwapFrom(args, i + 1, inputAt)
    else
      var to := EaeBase(args[i + 1], Side(i, inputAt));
      SwapFrom(if to == "" then args else args[i + 1 := to], i + 1, inputAt)
  }

  function Swapped(args: Argv): (r: Argv)
    ensures |r| == |args|
  {
    SwapFrom(args, 0, IndexOf(args, "-i", 0))
  }

  /** A swap never writes back the name it read. */
  lemma SwapDiffers(v: string, dir: Direction)
    requires EaeBase(v, dir) != ""
    ensures EaeBase(v, dir) != v
  {
    EndsInE(v);
    if dir == Encode {
      assert EaeBase(v, dir)[|EaeBase(v, dir)| - 1] == '3';
    }
  }

  lemma EndsInE(v: string)
    requires HasEae(v)
    ensures v[|v| - 1] == 'e'
  {
    assert v[|v| - 4..][3] == v[|v| - 1];
  }

  /** swapEAEAudioDecoders, with the distinct swaps it made. */
  method SwapEAEAudioDecoders(args: array<string>) returns (swapped: seq<(string, string)>)
    modifies args
    ensures args[..] == Swapped(old(args[..]))
    ensures swapped == [] <==> args[..] == old(args[..])
    ensures forall x, y :: 0 <= x < y < |swapped| ==> swapped[x] != swapped[y]
  {
    hide SwapFrom, AudioCodecFlag, EaeBase;
    var iIdx := IndexOf(args[..], "-i", 0);
    ghost var was := args[..];
    var seen: set<(string, string)> := {};
    swapped := [];
    for i := 0 to args.Length
      invariant SwapFrom(args[..], i, iIdx) == Swapped(was)
      invariant forall x, y :: 0 <= x < y < |swapped| ==> swapped[x] != swapped[y]
      invariant forall p :: p in seen <==> p in swapped
      invariant forall k :: i < k < args.Length ==> args[k] == was[k]
      invariant swapped == [] <==> forall k :: 0 <= k < args.Length ==> args[k] == was[k]
    {
      SwapStep(args[..], i, iIdx);
      if !AudioCodecFlag(args[i]) || i + 1 >= args.Length {
        continue;
      }
      var dir := Side(i, iIdx);
      var from := args[i + 1];
      var to := EaeBase(from, dir);
      if to == "" {
        continue;
      }
      SwapDiffers(from, dir);
      ghost var before := args[..];
      args[i + 1] := to;
      assert args[..] == before[i + 1 := to];
      var key := (from, to);
      if key !in seen {
        seen := seen + {key};
        swapped := swapped + [key];
      }
      assert key in swapped;
    }
    SwapEnd(args[..], iIdx);
    assert swapped == [] ==> args[..] == was;
  }

  lemma SwapStep(args: Argv, i: nat, inputAt: int)
    requires i < |args|
    ensures SwapFrom(args, i, inputAt)
            == if !AudioCodecFlag(args[i]) || i + 1 >= |args| then SwapFrom(args, i + 1, inputAt)
               else var to := EaeBase(args[i + 1], Side(i, inputAt));
                    SwapFrom(if to == "" then args else args[i + 1 := to], i + 1, inputAt)
  {
    hide AudioCodecFlag, EaeBase;
  }

  lemma SwapEnd(args: Argv, inputAt: int)
    ensures SwapFrom(args, |args|, inputAt) == args
  {}

  /** The token at `k`, given the token the result holds before it. */
  function SwapOf(flag: string, v: string, dir: Direction): string {
    if AudioCodecFlag(flag) && EaeBase(v, dir) != "" then EaeBase(v, dir) else v
  }

  /** For any argv: a token changes exactly when it follows an audio codec flag and names an eae codec. */
  lemma {:induction false} SwapMeans(args: Argv, i: nat, inputAt: int)
    requires i <= |args|
    ensures var r := SwapFrom(args, i, inputAt);
            && (forall k :: 0 <= k < |args| && k <= i ==> r[k] == args[k])
            && (forall k :: i < k < |args| ==> r[k] == SwapOf(r[k - 1], args[k], Side(k - 1, inputAt)))
    decreases |args| - i
  {
    hide AudioCodecFlag, EaeBase, SwapFrom;
    if i == |args| {
      SwapEnd(args, inputAt);
    } else {
      SwapStep(args, i, inputAt);
      var next := if i + 1 < |args| then args[i + 1 := SwapOf(args[i], args[i + 1], Side(i, inputAt))] else args;
      assert i + 1 < |args| ==> args[i + 1 := args[i + 1]] == args;
      assert SwapFrom(args, i, inputAt) == SwapFrom(next, i + 1, inputAt);
      SwapMeans(next, i + 1, inputAt);
    }
  }

  // ---------------------------------------------------------------- dropping -eae_prefix pairs

  predicate PrefixFlag(s: string) {
    "-eae_prefix" <= s
  }

  function FirstPrefix(args: Argv, from: nat): (r: int)
    ensures r == -1 || (from <= r < |args| && PrefixFlag(args[r]))
    ensures forall k :: from <= k < |args| && (r == -1 || k < r) ==> !PrefixFlag(args[k])
    decreases |args| - from
  {
    if from >= |args| then -1 else if PrefixFlag(args[from]) then from else FirstPrefix(args, from + 1)
  }

  /** None where the removal reads past the end of the argv and the program panics. */
  function DropPrefixes(args: Argv): Option<Argv>
    decreases |args|
  {
    var i := FirstPrefix(args, 0);
    if i < 0 then Some(args) else if i + 2 > |args| then None else DropPrefixes(Remove(args, i, 2))
  }

  /** dropEAEPrefixFlags, up to the panic. */
  method DropEAEPrefixFlags(input: Argv) returns (args: Argv, panicked: bool, dropped: seq<string>)
    ensures DropPrefixes(input) == if panicked then None else Some(args)
    ensures !panicked ==> |input| == |args| + 2 * |dropped|
  {
    hide FirstPrefix, DropPrefixes;
    args, dropped := input, [];
    while true
      invariant DropPrefixes(args) == DropPrefixes(input)
      invariant |input| == |args| + 2 * |dropped|
      decreases |args|
    {
      DropPrefixesStep(args);
      var removed := false;
      var i := 0;
      while i < |args|
        invariant 0 <= i <= |args| && !removed
        invariant FirstPrefix(args, 0) == FirstPrefix(args, i)
      {
        FirstPrefixStep(args, i);
        if PrefixFlag(args[i]) {
          removed := true;
          break;
        }
        i := i + 1;
      }
      if !removed {
        FirstPrefixEnd(args);
        return args, false, dropped;
      }
      if i + 2 > |args| {
        return args, true, dropped;
      }
      dropped := dropped + [args[i]];
      args := Remove(args, i, 2);
    }
  }

  lemma DropPrefixesStep(args: Argv)
    ensures var i := FirstPrefix(args, 0);
            DropPrefixes(args)
            == if i < 0 then Some(args) else if i + 2 > |args| then None else DropPrefixes(Remove(args, i, 2))
  {
    hide FirstPrefix;
  }

  lemma FirstPrefixStep(args: Argv, i: nat)
    requires i < |args|
    ensures FirstPrefix(args, i) == if PrefixFlag(args[i]) then i else FirstPrefix(args, i + 1)
  {
    hide PrefixFlag;
  }

  lemma FirstPrefixEnd(args: Argv)
    ensures FirstPrefix(args, |args|) == -1
  {}

  /** How many -eae_prefix flags end the argv. */
  function TrailingPrefixes(args: Argv): (n: nat)
    ensures n <= |args| && forall k :: |args| - n <= k < |args| ==> PrefixFlag(args[k])
    ensures n < |args| ==> !PrefixFlag(args[|args| - n - 1])
  {
    if args == [] || !PrefixFlag(args[|args| - 1]) then 0 else 1 + TrailingPrefixes(args[..|args| - 1])
  }

  function IsPrefixPair(): (string, string) -> bool {
    (flag, value) => PrefixFlag(flag)
  }

  /**
   For any argv the loop removes exactly the -eae_prefix pairs, and it panics
   exactly when an odd number of -eae_prefix flags ends the argv.
   */
  lemma {:induction false} DropPrefixesMeans(args: Argv)
    ensures DropPrefixes(args)
            == if TrailingPrefixes(args) % 2 == 1 then None else Some(DropPairs(args, IsPrefixPair()))
    decreases |args|
  {
    hide PrefixFlag, FirstPrefix, DropPrefixes, DropPairs, TrailingPrefixes;
    DropPrefixesStep(args);
    var i := FirstPrefix(args, 0);
    if i < 0 {
      NoPrefixLeft(args);
    } else if i + 2 > |args| {
      LoneTrailing(args, i);
    } else {
      var rest := Remove(args, i, 2);
      DropPrefixesMeans(rest);
      DropOne(args, i, IsPrefixPair());
      TrailingParity(args, i);
    }
  }

  lemma NoPrefixLeft(args: Argv)
    requires FirstPrefix(args, 0) == -1
    ensures TrailingPrefixes(args) == 0 && DropPairs(args, IsPrefixPair()) == args
  {
    hide PrefixFlag;
    DropNone(args, IsPrefixPair());
  }

  lemma {:induction false} TrailingConcat(x: Argv, y: Argv)
    ensures TrailingPrefixes(x + y)
            == if TrailingPrefixes(y) == |y| then |y| + TrailingPrefixes(x) else TrailingPrefixes(y)
  {
    hide PrefixFlag;
    if y == [] {
      assert x + y == x;
    } else {
      var n := |y| - 1;
      TrailingConcat(x, y[..n]);
      assert (x + y)[..|x + y| - 1] == x + y[..n];
    }
  }

  /** The tokens before the first prefix flag end with none. */
  lemma NoneBefore(args: Argv, i: nat)
    requires i < |args| && i == FirstPrefix(args, 0)
    ensures TrailingPrefixes(args[..i]) == 0
  {
    hide PrefixFlag;
  }

  lemma LoneTrailing(args: Argv, i: nat)
    requires i + 1 == |args| && i == FirstPrefix(args, 0)
    ensures TrailingPrefixes(args) == 1
  {
    NoneBefore(args, i);
    assert PrefixFlag(args[i]) && args[..|args| - 1] == args[..i];
  }

  lemma PairTrailing(flag: string, value: string)
    requires PrefixFlag(flag)
    ensures TrailingPrefixes([flag, value]) == if PrefixFlag(value) then 2 else 0
  {
    hide PrefixFlag;
    assert [flag, value][..1] == [flag] && [flag][..0] == [];
    assert TrailingPrefixes([flag]) == 1;
  }

  lemma ParityWithout(x: Argv, m: Argv, z: Argv)
    requires TrailingPrefixes(x) == 0 && |m| == 2 && TrailingPrefixes(m) in {0, 2}
    ensures TrailingPrefixes(x + z) % 2 == TrailingPrefixes(x + m + z) % 2
  {
    hide TrailingPrefixes, PrefixFlag;
    TrailingConcat(x + m, z);
    TrailingConcat(x, m);
    TrailingConcat(x, z);
  }

  lemma TrailingParity(args: Argv, i: nat)
    requires i + 2 <= |args| && i == FirstPrefix(args, 0)
    ensures TrailingPrefixes(Remove(args, i, 2)) % 2 == TrailingPrefixes(args) % 2
  {
    hide PrefixFlag, TrailingPrefixes;
    NoneBefore(args, i);
    Cut3(args, i, i + 2);
    assert args[i..i + 2] == [args[i], args[i + 1]];
    PairTrailing(args[i], args[i + 1]);
    ParityWithout(args[..i], args[i..i + 2], args[i + 2..]);
  }

  // ---------------------------------------------------------------- dropping the framedrop filter

  predicate Framedrop(flag: string, value: string) {
    "-bsf:" <= flag && "framedrop=" <= value
  }

  function FirstFramedrop(args: Argv, from: nat): (r: int)
    ensures r == -1 || (from <= r && r + 1 < |args| && Framedrop(args[r], args[r + 1]))
    ensures forall k :: from <= k && k + 1 < |args| && (r == -1 || k < r) ==> !Framedrop(args[k], args[k + 1])
    decreases |args| - from
  {
    if from + 1 >= |args| then -1
    else if Framedrop(args[from], args[from + 1]) then from
    else FirstFramedrop(args, from + 1)
  }

  function DropFramedrops(args: Argv): (r: Argv)
    ensures FirstFramedrop(r, 0) == -1
    decreases |args|
  {
    var i := FirstFramedrop(args, 0);
    if i < 0 then args else DropFramedrops(Remove(args, i, 2))
  }

  /** dropFramedropBSF */
  method DropFramedropBSF(input: Argv) returns (args: Argv, dropped: seq<string>)
    ensures args == DropFramedrops(input)
    ensures |input| == |args| + 2 * |dropped|
  {
    hide FirstFramedrop, DropFramedrops;
    args, dropped := input, [];
    while true
      invariant DropFramedrops(args) == DropFramedrops(input)
      invariant |input| == |args| + 2 * |dropped|
      decreases |args|
    {
      DropFramedropsStep(args);
      var removed := false;
      var i := 0;
      while i < |args| - 1
        invariant 0 <= i && (i <= |args| - 1 || (args == [] && i == 0)) && !removed
        invariant FirstFramedrop(args, 0) == FirstFramedrop(args, i)
      {
        FirstFramedropStep(args, i);
        if Framedrop(args[i], args[i + 1]) {
          removed := true;
          break;
        }
        i := i + 1;
      }
      if !removed {
        FirstFramedropStep(args, i);
        break;
      }
      dropped := dropped + [args[i]];
      args := Remove(args, i, 2);
    }
  }

  lemma DropFramedropsStep(args: Argv)
    ensures var i := FirstFramedrop(args, 0);
            DropFramedrops(args) == if i < 0 then args else DropFramedrops(Remove(args, i, 2))
  {
    hide FirstFramedrop;
  }

  lemma FirstFramedropStep(args: Argv, i: nat)
    ensures FirstFramedrop(args, i)
            == if i + 1 >= |args| then -1
               else if Framedrop(args[i], args[i + 1]) then i
               else FirstFramedrop(args, i + 1)
  {
    hide Framedrop;
  }

  function IsFramedrop(): (string, string) -> bool {
    (flag, value) => Framedrop(flag, value)
  }

  // ---------------------------------------------------------------- dropping input decoder hints

  /** First hint before the first `-i`, or -1. */
  function FirstHint(args: Argv, from: nat, inputAt: int): (r: int)
    ensures r == -1 || (from <= r < inputAt && r + 1 < |args| && HintFlag(args[r]))
    ensures forall k :: from <= k < inputAt && k + 1 < |args| && (r == -1 || k < r) ==> !HintFlag(args[k])
    decreases inputAt - from
  {
    if from >= inputAt || from + 1 >= |args| then -1
    else if HintFlag(args[from]) then from
    else FirstHint(args, from + 1, inputAt)
  }

  function DropHints(args: Argv): Argv
    decreases |args|
  {
    var i := FirstHint(args, 0, IndexOf(args, "-i", 0));
    if i < 0 then args else DropHints(Remove(args, i, 2))
  }

  /** The second loop skips a prefix flag that ends the argv. */
  function DropOrphans(args: Argv): Argv
    decreases |args|
  {
    var i := FirstPrefix(args, 0);
    if i < 0 || i + 1 >= |args| then args else DropOrphans(Remove(args, i, 2))
  }

  /** dropInputAudioDecoderHints */
  method DropInputAudioDecoderHints(input: Argv) returns (args: Argv, changes: seq<string>)
    ensures args == DropOrphans(DropHints(input))
    ensures |input| == |args| + 2 * |changes|
  {
    hide FirstHint, FirstPrefix, DropHints, DropOrphans, HintFlag, IndexOf;
    args, changes := input, [];
    while true
      invariant DropHints(args) == DropHints(input)
      invariant |input| == |args| + 2 * |changes|
      decreases |args|
    {
      DropHintsStep(args);
      var removed := false;
      var iIdx := IndexOf(args, "-i", 0);
      if iIdx < 0 {
        FirstHintStep(args, 0, iIdx);
        break;
      }
      var i := 0;
      while i < iIdx && i + 1 < |args|
        invariant 0 <= i && !removed
        invariant FirstHint(args, 0, iIdx) == FirstHint(args, i, iIdx)
        decreases iIdx - i
      {
        FirstHintStep(args, i, iIdx);
        if !HintFlag(args[i]) {
          i := i + 1;
          continue;
        }
        removed := true;
        break;
      }
      if !removed {
        FirstHintStep(args, i, iIdx);
        break;
      }
      changes := changes + ["drop:" + args[i] + "=" + args[i + 1] + "(bail)"];
      args := Remove(args, i, 2);
    }
    ghost var kept := args;
    while true
      invariant DropOrphans(args) == DropOrphans(kept)
      invariant |input| == |args| + 2 * |changes|
      decreases |args|
    {
      DropOrphansStep(args);
      var removed := false;
      var i := 0;
      while i < |args|
        invariant 0 <= i <= |args| && !removed
        invariant FirstPrefix(args, 0) == FirstPrefix(args, i)
      {
        FirstPrefixStep(args, i);
        if PrefixFlag(args[i]) && i + 1 < |args| {
          removed := true;
          break;
        }
        if PrefixFlag(args[i]) {
          break;
        }
        i := i + 1;
      }
      if !removed {
        if i == |args| {
          FirstPrefixEnd(args);
        }
        break;
      }
      changes := changes + ["drop:-eae_prefix(bail)"];
      args := Remove(args, i, 2);
    }
  }

  lemma DropHintsStep(args: Argv)
    ensures var i := FirstHint(args, 0, IndexOf(args, "-i", 0));
            DropHints(args) == if i < 0 then args else DropHints(Remove(args, i, 2))
  {
    hide FirstHint, IndexOf;
  }

  /** In one walk: drop the hint pairs up to the first `-i` it meets, or once no `-i` is left ahead. */
  function HintsWalk(args: Argv): Argv {
    if "-i" !in args || args[0] == "-i" || |args| == 1 then args
    else if HintFlag(args[0]) then HintsWalk(args[2..])
    else [args[0]] + HintsWalk(args[1..])
  }

  /**
   For any argv the first loop, restarted after each removal, is one walk, in which the value of
   a hint may be an `-i` itself; the second loop is one walk that leaves a lone flag at the end.
   */
  lemma DropHintsMeans(args: Argv)
    ensures DropOrphans(DropHints(args)) == DropPairs(HintsWalk(args), IsPrefixPair())
  {
    hide *;
    HintLoop(args);
    OrphanLoop(HintsWalk(args));
  }

  lemma {:induction false} HintLoop(args: Argv)
    ensures DropHints(args) == HintsWalk(args)
    decreases |args|
  {
    hide FirstHint, DropHints, HintsWalk, HintFlag, IndexOf;
    DropHintsStep(args);
    var inputAt := IndexOf(args, "-i", 0);
    var i := FirstHint(args, 0, inputAt);
    if inputAt < 0 {
      NoInput(args);
    } else if i < 0 {
      var x, y := args[..inputAt], args[inputAt..];
      Cut(args, inputAt);
      WalkPast(x, y);
      AtInput(y);
    } else {
      var x, y := args[..i], args[i + 2..];
      Cut3(args, i, i + 2);
      assert args[i..] == [args[i], args[i + 1]] + y;
      Cut(args, i);
      assert args[i..][inputAt - i] == "-i";
      WalkPast(x, args[i..]);
      WalkDrops(args[i..]);
      WalkPast(x, y);
      HintLoop(Remove(args, i, 2));
    }
  }

  lemma NoInput(args: Argv)
    requires "-i" !in args
    ensures HintsWalk(args) == args
  {}

  lemma AtInput(args: Argv)
    requires args != [] && args[0] == "-i"
    ensures HintsWalk(args) == args
  {}

  lemma WalkDrops(args: Argv)
    requires |args| >= 2 && "-i" in args && args[0] != "-i" && HintFlag(args[0])
    ensures HintsWalk(args) == HintsWalk(args[2..])
  {
    hide HintFlag;
  }

  /** The walk keeps what is neither a hint nor an input. */
  lemma {:induction false} WalkPast(x: Argv, y: Argv)
    requires forall k :: 0 <= k < |x| ==> x[k] != "-i" && !HintFlag(x[k])
    ensures HintsWalk(x + y) == x + HintsWalk(y)
  {
    hide HintFlag, HintsWalk;
    if x == [] {
      assert x + y == y;
    } else if "-i" !in y {
      NoInput(y);
      NoInput(x + y);
    } else {
      WalkPast(x[1..], y);
      assert x == [x[0]] + x[1..];
      Assoc([x[0]], x[1..], y);
      WalkKeeps(x[0], x[1..] + y);
      Assoc([x[0]], x[1..], HintsWalk(y));
    }
  }

  lemma WalkKeeps(t: string, rest: Argv)
    requires t != "-i" && !HintFlag(t) && "-i" in rest
    ensures HintsWalk([t] + rest) == [t] + HintsWalk(rest)
  {
    hide HintFlag;
    var s := [t] + rest;
    assert s[0] == t && s[1..] == rest && |s| > 1;
    assert "-i" in s;
  }

  lemma {:induction false} OrphanLoop(args: Argv)
    ensures DropOrphans(args) == DropPairs(args, IsPrefixPair())
    decreases |args|
  {
    hide PrefixFlag, FirstPrefix, DropOrphans, DropPairs;
    DropOrphansStep(args);
    var i := FirstPrefix(args, 0);
    if i < 0 || i + 1 >= |args| {
      DropNone(args, IsPrefixPair());
    } else {
      assert PairAt(args, i, IsPrefixPair());
      DropOne(args, i, IsPrefixPair());
      OrphanLoop(Remove(args, i, 2));
    }
  }

  lemma FirstHintStep(args: Argv, i: nat, inputAt: int)
    ensures FirstHint(args, i, inputAt)
            == if i >= inputAt || i + 1 >= |args| then -1
               else if HintFlag(args[i]) then i
               else FirstHint(args, i + 1, inputAt)
  {
    hide HintFlag;
  }

  lemma DropOrphansStep(args: Argv)
    ensures var i := FirstPrefix(args, 0);
            DropOrphans(args) == if i < 0 || i + 1 >= |args| then args else DropOrphans(Remove(args, i, 2))
  {
    hide FirstPrefix;
  }
}
