/**
 The downgrade of an argv to a CPU-only pipeline: the loops that strip the
 hardware-decode flags, whose own effect on stream ids is what makes them safe.
 */
module HwStrip {
  import opened Prelude
  import opened Search
  import opened Text
  import opened Args
  import opened StreamSpec

  const BASES: seq<string> := ["-hwaccel", "-hwaccel_output_format", "-hwaccel_device"]
  const DEVICES: seq<string> := ["-init_hw_device", "-filter_hw_device"]

  // ---------------------------------------------------------------- the loops

  function StripSpec(args: Argv, flagBase: string): (r: Argv)
    decreases |args|
  {
    var i := SpecIndex(args, flagBase, 0, 0);
    if i < 0 || i + 1 >= |args| then args else StripSpec(Remove(args, i, 2), flagBase)
  }

  function StripFlag(args: Argv, flag: string): (r: Argv)
    decreases |args|
  {
    var i := IndexOf(args, flag, 0);
    if i < 0 || i + 1 >= |args| then args else StripFlag(Remove(args, i, 2), flag)
  }

  function Stripped(args: Argv): Argv {
    StripFlag(StripFlag(StripSpec(StripSpec(StripSpec(args, BASES[0]), BASES[1]), BASES[2]), DEVICES[0]), DEVICES[1])
  }

  /** Step 1 of reshapeToSoftware. */
  method StripHardware(input: Argv) returns (args: Argv, stripped: bool)
    ensures args == Stripped(input)
    ensures stripped <==> args != input
  {
    hide SpecIndex, IndexOf, StripSpec, StripFlag;
    args, stripped := input, false;
    for b := 0 to |BASES|
      invariant |args| <= |input| && (stripped <==> |args| < |input|) && (!stripped ==> args == input)
      invariant Stripped(input) == StripFlag(StripFlag(SpecsFrom(args, b), DEVICES[0]), DEVICES[1])
    {
      var flagBase := BASES[b];
      ghost var start := args;
      while true
        invariant |args| <= |input| && (stripped <==> |args| < |input|) && (!stripped ==> args == input)
        invariant StripSpec(args, flagBase) == StripSpec(start, flagBase)
        decreases |args|
      {
        StripSpecStep(args, flagBase);
        var i := StreamSpecIndex(args, flagBase, 0, 0);
        if i < 0 || i + 1 >= |args| {
          break;
        }
        args := Remove(args, i, 2);
        stripped := true;
      }
      StripSpecStep(args, flagBase);
    }
    for d := 0 to |DEVICES|
      invariant |args| <= |input| && (stripped <==> |args| < |input|) && (!stripped ==> args == input)
      invariant Stripped(input) == FlagsFrom(args, d)
    {
      var flag := DEVICES[d];
      ghost var start := args;
      while true
        invariant |args| <= |input| && (stripped <==> |args| < |input|) && (!stripped ==> args == input)
        invariant StripFlag(args, flag) == StripFlag(start, flag)
        decreases |args|
      {
        StripFlagStep(args, flag);
        var i := IndexOf(args, flag, 0);
        if i < 0 || i + 1 >= |args| {
          break;
        }
        args := Remove(args, i, 2);
        stripped := true;
      }
      StripFlagStep(args, flag);
    }
  }

  ghost function SpecsFrom(args: Argv, b: nat): Argv
    requires b <= 3
  {
    if b == 0 then StripSpec(StripSpec(StripSpec(args, BASES[0]), BASES[1]), BASES[2])
    else if b == 1 then StripSpec(StripSpec(args, BASES[1]), BASES[2])
    else if b == 2 then StripSpec(args, BASES[2])
    else args
  }

  ghost function FlagsFrom(args: Argv, d: nat): Argv
    requires d <= 2
  {
    if d == 0 then StripFlag(StripFlag(args, DEVICES[0]), DEVICES[1])
    else if d == 1 then StripFlag(args, DEVICES[1])
    else args
  }

  lemma StripSpecStep(args: Argv, flagBase: string)
    ensures var i := SpecIndex(args, flagBase, 0, 0);
            StripSpec(args, flagBase)
            == if i < 0 || i + 1 >= |args| then args else StripSpec(Remove(args, i, 2), flagBase)
  {
    hide SpecIndex;
  }

  lemma StripFlagStep(args: Argv, flag: string)
    ensures var i := IndexOf(args, flag, 0);
            StripFlag(args, flag) == if i < 0 || i + 1 >= |args| then args else StripFlag(Remove(args, i, 2), flag)
    ensures IndexOf(args, flag, 0) < |args|
  {}

  // ---------------------------------------------------------------- ids of a spliced argv

  lemma {:induction false} MentionsConcat(x: Argv, y: Argv)
    ensures AllMentions(x + y) == AllMentions(x) + AllMentions(y)
  {
    hide Mentions;
    if y == [] {
      assert x + y == x;
    } else {
      var n := |y| - 1;
      MentionsConcat(x, y[..n]);
      assert (x + y)[..|x + y| - 1] == x + y[..n];
      Assoc(AllMentions(x), AllMentions(y[..n]), Mentions(y[n]));
    }
  }

  lemma {:induction false} DistinctSuffix(p: seq<string>, q: seq<string>, z: seq<string>)
    requires Distinct(p) == Distinct(q)
    ensures Distinct(p + z) == Distinct(q + z)
  {
    if z == [] {
      assert p + z == p && q + z == q;
    } else {
      var n := |z| - 1;
      DistinctSuffix(p, q, z[..n]);
      assert (p + z)[..|p + z| - 1] == p + z[..n] && (q + z)[..|q + z| - 1] == q + z[..n];
    }
  }

  predicate Only(xs: seq<string>, v: string) {
    forall k :: 0 <= k < |xs| ==> xs[k] == v
  }

  lemma {:induction false} DistinctRepeat(x: seq<string>, y: seq<string>, v: string)
    requires Only(y, v) && v in x
    ensures Distinct(x + y) == Distinct(x)
  {
    if y == [] {
      assert x + y == x;
    } else {
      var n := |y| - 1;
      DistinctRepeat(x, y[..n], v);
      assert (x + y)[..|x + y| - 1] == x + y[..n];
      DistinctMeans(x);
    }
  }

  lemma {:induction false} DistinctOnly(y: seq<string>, v: string)
    requires Only(y, v) && y != []
    ensures Distinct(y) == [v]
  {
    assert y == [v] + y[1..];
    assert Distinct([v][..0]) == [];
    assert Distinct([v]) == [v];
    DistinctRepeat([v], y[1..], v);
  }

  /** Dropping mentions of the first id, when one stays in front, moves no ordinal. */
  lemma DistinctSkip(x: seq<string>, y: seq<string>, z: seq<string>, v: string)
    requires Only(y, v) && x + z != [] && (x + z)[0] == v
    ensures Distinct(x + y + z) == Distinct(x + z)
  {
    hide Distinct;
    if x != [] {
      assert x[0] == v;
      DistinctRepeat(x, y, v);
      DistinctSuffix(x + y, x, z);
    } else {
      assert x + y + z == (y + [v]) + z[1..] && x + z == [v] + z[1..];
      DistinctOnly(y + [v], v);
      DistinctOnly([v], v);
      DistinctSuffix(y + [v], [v], z[1..]);
    }
  }

  lemma {:induction false} DistinctFirst(xs: seq<string>)
    requires xs != []
    ensures Distinct(xs) != [] && Distinct(xs)[0] == xs[0]
  {
    if |xs| > 1 {
      DistinctFirst(xs[..|xs| - 1]);
    } else {
      assert Distinct(xs[..0]) == [];
    }
  }

  // ---------------------------------------------------------------- well-formedness

  predicate HardwareFlag(arg: string) {
    || arg in DEVICES
    || exists b :: 0 <= b < |BASES| && BASES[b] + ":" <= arg
  }

  predicate SpecOf(arg: string) {
    forall b :: 0 <= b < |BASES| && BASES[b] + ":" <= arg ==> KnownSpec(arg[|BASES[b]| + 1..])
  }

  /** Every hardware flag has its own value, and values name no stream. */
  predicate WellFormed(args: Argv) {
    forall k :: 0 <= k < |args| && HardwareFlag(args[k]) ==>
      && SpecOf(args[k])
      && k + 1 < |args| && !HardwareFlag(args[k + 1]) && Mentions(args[k + 1]) == []
  }

  /** At `p` a token that is not stripped mentions the video id before any other id appears. */
  predicate AnchorAt(args: Argv, video: string, p: int) {
    && 0 <= p < |args| && !HardwareFlag(args[p])
    && Mentions(args[p]) != [] && Mentions(args[p])[0] == video
    && Only(AllMentions(args[..p]), video)
  }

  ghost predicate Anchored(args: Argv, video: string) {
    AllMentions(args) == [] || exists p :: AnchorAt(args, video, p)
  }

  lemma AnchorFirst(args: Argv, video: string, p: int)
    requires AnchorAt(args, video, p)
    ensures AllMentions(args) != [] && AllMentions(args)[0] == video
    ensures Ids(args) != [] && Ids(args)[0] == video
  {
    hide Mentions;
    var m := Mentions(args[p]);
    Cut(args, p + 1);
    MentionsConcat(args[..p + 1], args[p + 1..]);
    MentionsStep(args, p);
    assert (AllMentions(args[..p]) + m)[0] == video;
    DistinctFirst(AllMentions(args));
  }

  // ---------------------------------------------------------------- one removal

  lemma PairRemoved(args: Argv, i: nat)
    requires i + 1 < |args|
    ensures AllMentions(args)
            == AllMentions(args[..i]) + (Mentions(args[i]) + Mentions(args[i + 1])) + AllMentions(args[i + 2..])
    ensures AllMentions(Remove(args, i, 2)) == AllMentions(args[..i]) + AllMentions(args[i + 2..])
  {
    hide Mentions;
    Cut(args, i + 2);
    MentionsConcat(args[..i + 2], args[i + 2..]);
    MentionsStep(args, i + 1);
    MentionsStep(args, i);
    Assoc(AllMentions(args[..i]), Mentions(args[i]), Mentions(args[i + 1]));
    MentionsConcat(args[..i], args[i + 2..]);
  }

  lemma StaysWellFormed(args: Argv, i: nat)
    requires WellFormed(args) && i < |args| && HardwareFlag(args[i])
    ensures i + 1 < |args| && WellFormed(Remove(args, i, 2))
  {
    hide HardwareFlag, SpecOf, Mentions;
    var r := Remove(args, i, 2);
    forall k | 0 <= k < |r| && HardwareFlag(r[k])
      ensures SpecOf(r[k]) && k + 1 < |r| && !HardwareFlag(r[k + 1]) && Mentions(r[k + 1]) == []
    {
      var k0 := if k < i then k else k + 2;
      RemoveAt(args, i, 2, k);
      assert HardwareFlag(args[k0]);
      assert k0 + 1 != i;
      RemoveAt(args, i, 2, k + 1);
    }
  }

  /** Removing one video pair: the ids keep their ordinals and the anchor stays. */
  lemma OneRemoval(args: Argv, i: nat, video: string)
    requires WellFormed(args) && Anchored(args, video) && i < |args| && HardwareFlag(args[i])
    requires AllMentions(args) == [] || Only(Mentions(args[i]), video)
    ensures i + 1 < |args| && WellFormed(Remove(args, i, 2)) && Anchored(Remove(args, i, 2), video)
    ensures Ids(Remove(args, i, 2)) == Ids(args)
  {
    hide HardwareFlag, SpecOf, Mentions, AllMentions, Distinct;
    StaysWellFormed(args, i);
    PairRemoved(args, i);
    var x, y, z := AllMentions(args[..i]), Mentions(args[i]) + Mentions(args[i + 1]), AllMentions(args[i + 2..]);
    if AllMentions(args) != [] {
      var p :| AnchorAt(args, video, p);
      AnchorMoves(args, i, video, p);
      var q := if p < i then p else p - 2;
      AnchorFirst(Remove(args, i, 2), video, q);
      DistinctSkip(x, y, z, video);
    }
  }

  lemma AnchorMoves(args: Argv, i: nat, video: string, p: int)
    requires WellFormed(args) && i + 1 < |args| && HardwareFlag(args[i]) && AnchorAt(args, video, p)
    ensures AnchorAt(Remove(args, i, 2), video, if p < i then p else p - 2)
  {
    hide HardwareFlag, SpecOf, Mentions;
    var r := Remove(args, i, 2);
    assert p != i && p != i + 1;
    if p < i {
      assert r[p] == args[p] && r[..p] == args[..p];
    } else {
      var q := p - 2;
      assert r[q] == args[p];
      Prefix(args, i, p);
    }
  }

  lemma Prefix(args: Argv, i: nat, p: nat)
    requires i + 2 <= p < |args|
    ensures forall v :: Only(AllMentions(args[..p]), v) ==> Only(AllMentions(Remove(args, i, 2)[..p - 2]), v)
  {
    var a := args[..p];
    assert Remove(args, i, 2)[..p - 2] == Remove(a, i, 2);
    PairRemoved(a, i);
    var x, z := AllMentions(a[..i]), AllMentions(a[i + 2..]);
    var y := Mentions(a[i]) + Mentions(a[i + 1]);
    hide AllMentions, Mentions;
    forall v | Only(x + y + z, v)
      ensures Only(x + z, v)
    {
      forall k | 0 <= k < |x + z|
        ensures (x + z)[k] == v
      {
        assert (x + z)[k] == (x + y + z)[if k < |x| then k else k + |y|];
      }
    }
  }

  // ---------------------------------------------------------------- what a stripped flag mentions

  lemma FlagParts(arg: string, b: nat, ids: seq<string>)
    requires b < |BASES| && FlagFor(arg, BASES[b], 0, ids) && SpecOf(arg)
    ensures HardwareFlag(arg)
    ensures var spec := arg[|BASES[b]| + 1..];
            arg == BASES[b] + (":" + spec) && KnownSpec(spec) && Selects(spec, 0, ids)
  {
    hide KnownSpec, Selects;
  }

  lemma VideoFlagMentions(arg: string, b: nat, ids: seq<string>)
    requires b < |BASES| && FlagFor(arg, BASES[b], 0, ids) && SpecOf(arg)
    ensures HardwareFlag(arg)
    ensures ids == [] ==> Mentions(arg) == []
    ensures ids != [] ==> Only(Mentions(arg), ids[0])
  {
    hide BASES, FlagFor, SpecOf, HardwareFlag, Mentions, KnownSpec, Selects, Only;
    FlagParts(arg, b, ids);
    BasesPlain(b);
    var spec := arg[|BASES[b]| + 1..];
    NormalHead(BASES[b], ":" + spec, []);
    KnownMentions(spec, ids);
  }

  lemma BasesPlain(b: nat)
    requires b < |BASES|
    ensures ':' !in BASES[b] && '#' !in BASES[b]
  {}

  lemma KnownMentions(spec: string, ids: seq<string>)
    requires KnownSpec(spec) && Selects(spec, 0, ids)
    ensures ids == [] ==> Mentions(":" + spec) == []
    ensures ids != [] ==> Only(Mentions(":" + spec), ids[0])
  {
    hide Mentions;
    if Atoi(spec).Some? {
      NumberHasNoMarks(spec);
      NormalPlain(":" + spec, []);
    } else if IdSpec(spec) {
      OneId(spec, ids);
      assert spec[0] == spec[..3][0] && spec[1] == spec[..3][1] && spec[2] == spec[..3][2];
      assert "#0x" <= spec;
    } else {
      TypedHasNoMark(spec);
      NormalPlain(":" + spec, []);
    }
  }

  lemma DeviceMentions(flag: string)
    requires flag in DEVICES
    ensures HardwareFlag(flag) && Mentions(flag) == []
  {
    NormalPlain(flag, []);
  }

  // ---------------------------------------------------------------- the loops, and the whole step

  /** What step 1 is meant to remove: device flags, and decode flags of the video stream. */
  predicate Removable(arg: string, ids: seq<string>) {
    arg in DEVICES || exists b :: 0 <= b < |BASES| && FlagFor(arg, BASES[b], 0, ids)
  }

  /** By name: the two device flags, and the three decode flags with a specifier that selects the video stream. */
  lemma RemovableMeans(arg: string, ids: seq<string>)
    ensures Removable(arg, ids)
            <==> || arg == "-init_hw_device" || arg == "-filter_hw_device"
                 || FlagFor(arg, "-hwaccel", 0, ids) || FlagFor(arg, "-hwaccel_output_format", 0, ids)
                 || FlagFor(arg, "-hwaccel_device", 0, ids)
  {
    hide FlagFor;
    assert |BASES| == 3 && BASES[0] == "-hwaccel" && BASES[1] == "-hwaccel_output_format";
    assert BASES[2] == "-hwaccel_device" && DEVICES == ["-init_hw_device", "-filter_hw_device"];
  }

  function RemovablePairs(ids: seq<string>): (string, string) -> bool {
    (flag, value) => Removable(flag, ids)
  }

  /** What every stripping loop keeps, including what is still to be removed. */
  ghost predicate Keeps(args: Argv, r: Argv, video: string) {
    && WellFormed(r) && Anchored(r, video) && Ids(r) == Ids(args)
    && DropPairs(r, RemovablePairs(Ids(args))) == DropPairs(args, RemovablePairs(Ids(args)))
  }

  lemma RemovableIsHardware(arg: string, ids: seq<string>)
    requires Removable(arg, ids)
    ensures HardwareFlag(arg)
  {
    hide Selects;
  }

  lemma RemovalKept(args: Argv, i: nat)
    requires WellFormed(args) && i + 1 < |args| && Removable(args[i], Ids(args))
    ensures DropPairs(Remove(args, i, 2), RemovablePairs(Ids(args))) == DropPairs(args, RemovablePairs(Ids(args)))
  {
    hide HardwareFlag, Removable, SpecOf, Mentions, Ids;
    RemovableIsHardware(args[i], Ids(args));
    if i > 0 && Removable(args[i - 1], Ids(args)) {
      RemovableIsHardware(args[i - 1], Ids(args));
    }
    DropOne(args, i, RemovablePairs(Ids(args)));
  }

  lemma {:induction false} SpecLoop(args: Argv, b: nat, video: string)
    requires b < |BASES| && WellFormed(args) && Anchored(args, video)
    ensures var r := StripSpec(args, BASES[b]);
            Keeps(args, r, video) && SpecIndex(r, BASES[b], 0, 0) == -1
    decreases |args|
  {
    hide HardwareFlag, SpecOf, Mentions, StripSpec, Ids, WellFormed, Anchored;
    hide SpecIndex, Removable, RemovablePairs, DropPairs;
    var flagBase := BASES[b];
    StripSpecStep(args, flagBase);
    var i := SpecIndex(args, flagBase, 0, 0);
    if i >= 0 {
      SpecFound(args, b, i, video);
      OneRemoval(args, i, video);
      RemovalKept(args, i);
      SpecLoop(Remove(args, i, 2), b, video);
    }
  }

  lemma SpecFound(args: Argv, b: nat, i: int, video: string)
    requires b < |BASES| && WellFormed(args) && Anchored(args, video)
    requires i == SpecIndex(args, BASES[b], 0, 0) >= 0
    ensures i < |args| && Removable(args[i], Ids(args)) && HardwareFlag(args[i])
    ensures AllMentions(args) == [] || Only(Mentions(args[i]), video)
  {
    hide Mentions, AllMentions, Selects;
    assert FlagFor(args[i], BASES[b], 0, Ids(args));
    RemovableIsHardware(args[i], Ids(args));
    hide HardwareFlag;
    VideoFlagMentions(args[i], b, Ids(args));
    if AllMentions(args) != [] {
      var p :| AnchorAt(args, video, p);
      AnchorFirst(args, video, p);
    }
  }

  lemma {:induction false} FlagLoop(args: Argv, flag: string, video: string)
    requires flag in DEVICES && WellFormed(args) && Anchored(args, video)
    ensures var r := StripFlag(args, flag);
            Keeps(args, r, video) && flag !in r
    decreases |args|
  {
    hide HardwareFlag, SpecOf, Mentions, StripFlag, Ids, WellFormed, Anchored, RemovablePairs, DropPairs;
    StripFlagStep(args, flag);
    var i := IndexOf(args, flag, 0);
    DeviceMentions(flag);
    if i >= 0 {
      OneRemoval(args, i, video);
      RemovalKept(args, i);
      FlagLoop(Remove(args, i, 2), flag, video);
    }
  }

  lemma {:induction false} SpecLoopTokens(args: Argv, flagBase: string)
    ensures forall x :: x in StripSpec(args, flagBase) ==> x in args
    decreases |args|
  {
    hide StripSpec, SpecIndex;
    StripSpecStep(args, flagBase);
    var i := SpecIndex(args, flagBase, 0, 0);
    if i >= 0 && i + 1 < |args| {
      SpecLoopTokens(Remove(args, i, 2), flagBase);
    }
  }

  lemma {:induction false} FlagLoopTokens(args: Argv, flag: string)
    ensures forall x :: x in StripFlag(args, flag) ==> x in args
    decreases |args|
  {
    hide StripFlag, IndexOf;
    StripFlagStep(args, flag);
    var i := IndexOf(args, flag, 0);
    if i >= 0 && i + 1 < |args| {
      FlagLoopTokens(Remove(args, i, 2), flag);
    }
  }

  predicate Cleared(args: Argv, b: nat, ids: seq<string>)
    requires b < |BASES|
  {
    forall x :: x in args ==> !FlagFor(x, BASES[b], 0, ids)
  }

  lemma ClearedBy(args: Argv, b: nat)
    requires b < |BASES| && SpecIndex(args, BASES[b], 0, 0) == -1
    ensures Cleared(args, b, Ids(args))
  {
    hide FlagFor, Ids;
  }

  lemma ClearedSubset(args: Argv, r: Argv, b: nat, ids: seq<string>)
    requires b < |BASES| && Cleared(args, b, ids) && forall x :: x in r ==> x in args
    ensures Cleared(r, b, ids)
  {
    hide FlagFor;
  }

  lemma NothingRemovable(r: Argv, ids: seq<string>)
    requires Cleared(r, 0, ids) && Cleared(r, 1, ids) && Cleared(r, 2, ids)
    requires DEVICES[0] !in r && DEVICES[1] !in r
    ensures forall x :: x in r ==> !Removable(x, ids)
    ensures DropPairs(r, RemovablePairs(ids)) == r
  {
    hide FlagFor;
    Tables();
    forall x | x in r
      ensures !Removable(x, ids)
    {
      assert |BASES| == 3;
    }
    hide Removable;
    forall i
      ensures !PairAt(r, i, RemovablePairs(ids))
    {
      assert 0 <= i < |r| ==> r[i] in r;
    }
    DropNone(r, RemovablePairs(ids));
  }

  lemma Stages(args: Argv, a1: Argv, a2: Argv, a3: Argv, a4: Argv, a5: Argv)
    requires a1 == StripSpec(args, BASES[0]) && a2 == StripSpec(a1, BASES[1]) && a3 == StripSpec(a2, BASES[2])
    requires a4 == StripFlag(a3, DEVICES[0]) && a5 == StripFlag(a4, DEVICES[1])
    ensures Stripped(args) == a5
  {
    hide StripSpec, StripFlag;
  }

  lemma Tables()
    ensures |BASES| == 3 && |DEVICES| == 2 && DEVICES[0] in DEVICES && DEVICES[1] in DEVICES
    ensures forall x :: x in DEVICES ==> x == DEVICES[0] || x == DEVICES[1]
  {}

  lemma LoopsKeep(args: Argv, a1: Argv, a2: Argv, a3: Argv, a4: Argv, a5: Argv, video: string)
    requires Keeps(args, a1, video) && Keeps(a1, a2, video) && Keeps(a2, a3, video)
    requires Keeps(a3, a4, video) && Keeps(a4, a5, video)
    ensures Keeps(args, a5, video)
  {
    hide DropPairs, RemovablePairs, Ids, WellFormed, Anchored;
  }

  /**
   When a token that stays mentions the video id before any other id appears,
   the loops remove exactly the device pairs and the video stream's decode pairs,
   whatever stream form those use, and no id changes its ordinal on the way.
   */
  lemma StripKeepsOrdinals(args: Argv, video: string)
    requires WellFormed(args) && Anchored(args, video)
    ensures Ids(Stripped(args)) == Ids(args)
    ensures Stripped(args) == DropPairs(args, RemovablePairs(Ids(args)))
    ensures forall x :: x in Stripped(args) ==> !Removable(x, Ids(args))
  {
    Tables();
    hide DropPairs, RemovablePairs, Removable, StripSpec, StripFlag, Stripped, SpecIndex;
    hide Ids, WellFormed, Anchored, Cleared, BASES, DEVICES;
    var ids := Ids(args);
    var a1 := StripSpec(args, BASES[0]);
    SpecLoop(args, 0, video);
    var a2 := StripSpec(a1, BASES[1]);
    SpecLoop(a1, 1, video);
    var a3 := StripSpec(a2, BASES[2]);
    SpecLoop(a2, 2, video);
    var a4 := StripFlag(a3, DEVICES[0]);
    FlagLoop(a3, DEVICES[0], video);
    var a5 := StripFlag(a4, DEVICES[1]);
    FlagLoop(a4, DEVICES[1], video);
    Stages(args, a1, a2, a3, a4, a5);
    LoopsKeep(args, a1, a2, a3, a4, a5, video);
    ClearedBy(a1, 0);
    ClearedBy(a2, 1);
    ClearedBy(a3, 2);
    SpecLoopTokens(a1, BASES[1]);
    SpecLoopTokens(a2, BASES[2]);
    FlagLoopTokens(a3, DEVICES[0]);
    FlagLoopTokens(a4, DEVICES[1]);
    ClearedSubset(a1, a5, 0, ids);
    ClearedSubset(a2, a5, 1, ids);
    ClearedSubset(a3, a5, 2, ids);
    NothingRemovable(a5, ids);
  }

  // ---------------------------------------------------------------- and only then

  lemma FrontMentions(args: Argv)
    requires args != []
    ensures AllMentions(args) == Mentions(args[0]) + AllMentions(args[1..])
  {
    hide Mentions;
    assert args == [args[0]] + args[1..];
    MentionsConcat([args[0]], args[1..]);
    assert [args[0]][..0] == [];
    assert AllMentions([args[0]]) == Mentions(args[0]);
  }

  lemma WellFormedFrom(args: Argv, n: nat)
    requires WellFormed(args) && n <= |args|
    ensures WellFormed(args[n..])
  {
    hide HardwareFlag, SpecOf, Mentions;
    var t := args[n..];
    forall k | 0 <= k < |t| && HardwareFlag(t[k])
      ensures SpecOf(t[k]) && k + 1 < |t| && !HardwareFlag(t[k + 1]) && Mentions(t[k + 1]) == []
    {
      assert t[k] == args[n + k];
      assert t[k + 1] == args[n + k + 1];
    }
  }

  /** A hardware flag that mentions the first id is one the loops are after. */
  lemma MentionsFirstId(arg: string, ids: seq<string>)
    requires HardwareFlag(arg) && SpecOf(arg)
    requires ids != [] && Mentions(arg) != [] && Mentions(arg)[0] == ids[0]
    ensures Removable(arg, ids)
  {
    hide Mentions, Selects, KnownSpec, IndexOf;
    if arg in DEVICES {
      DeviceMentions(arg);
    } else {
      var b :| 0 <= b < |BASES| && BASES[b] + ":" <= arg;
      var spec := arg[|BASES[b]| + 1..];
      assert KnownSpec(spec);
      BasesPlain(b);
      assert arg == BASES[b] + (":" + spec);
      NormalHead(BASES[b], ":" + spec, []);
      OnlyIdMentioned(spec, ids);
      assert FlagFor(arg, BASES[b], 0, ids);
    }
  }

  lemma OnlyIdMentioned(spec: string, ids: seq<string>)
    requires KnownSpec(spec) && ids != []
    requires Mentions(":" + spec) != [] && Mentions(":" + spec)[0] == ids[0]
    ensures Selects(spec, 0, ids)
  {
    hide Mentions, Selects;
    if IdSpec(spec) {
      OneId(spec, ids);
      SelectsId(spec, 0, ids);
      assert Ordinal(ids, spec[1..]) == 0;
    } else if Atoi(spec).Some? {
      NumberHasNoMarks(spec);
      NormalPlain(":" + spec, []);
    } else {
      TypedHasNoMark(spec);
      NormalPlain(":" + spec, []);
    }
  }

  /** What goes mentions at most the first id. */
  lemma RemovedMentions(args: Argv, ids: seq<string>)
    requires WellFormed(args) && |args| >= 2 && ids != [] && Removable(args[0], ids)
    ensures Only(Mentions(args[0]), ids[0]) && Mentions(args[1]) == []
  {
    hide Mentions, FlagFor;
    RemovableIsHardware(args[0], ids);
    if args[0] in DEVICES {
      DeviceMentions(args[0]);
    } else {
      var b :| 0 <= b < |BASES| && FlagFor(args[0], BASES[b], 0, ids);
      VideoFlagMentions(args[0], b, ids);
    }
  }

  lemma OnlyConcat(x: seq<string>, y: seq<string>, v: string)
    requires Only(x, v) && Only(y, v)
    ensures Only(x + y, v)
  {}

  /** The anchor of a shorter argv, seen from the whole one. */
  lemma AnchorFurther(args: Argv, n: nat, video: string, p: int)
    requires n <= |args| && AnchorAt(args[n..], video, p) && Only(AllMentions(args[..n]), video)
    ensures AnchorAt(args, video, p + n)
  {
    hide HardwareFlag, Mentions, AllMentions, Only;
    assert args[n..][p] == args[p + n];
    assert args[..p + n] == args[..n] + args[n..][..p];
    MentionsConcat(args[..n], args[n..][..p]);
    OnlyConcat(AllMentions(args[..n]), AllMentions(args[n..][..p]), video);
  }

  /** If what is left still begins with the first id, a token that stayed mentions it first. */
  lemma {:induction false} KeptAnchor(args: Argv, ids: seq<string>) returns (p: int)
    requires WellFormed(args) && ids != []
    requires var r := AllMentions(DropPairs(args, RemovablePairs(ids)));
             r != [] && r[0] == ids[0]
    ensures AnchorAt(args, ids[0], p)
  {
    hide HardwareFlag, SpecOf, Mentions, AllMentions, Removable, WellFormed, Only;
    var r := DropPairs(args, RemovablePairs(ids));
    DropFront(args, ids);
    if |args| >= 2 && Removable(args[0], ids) {
      WellFormedFrom(args, 2);
      p := KeptAnchor(args[2..], ids);
      RemovedMentions(args, ids);
      TwoMentions(args, ids[0]);
      AnchorFurther(args, 2, ids[0], p);
      p := p + 2;
    } else {
      SomeArgs(args);
      FrontMentions(r);
      if Mentions(args[0]) == [] {
        var rest := DropPairs(args[1..], RemovablePairs(ids));
        assert r[1..] == rest;
        assert [] + AllMentions(rest) == AllMentions(rest);
        WellFormedFrom(args, 1);
        p := KeptAnchor(args[1..], ids);
        OneMention(args, ids[0]);
        AnchorFurther(args, 1, ids[0], p);
        p := p + 1;
      } else {
        p := 0;
        StaysPlain(args, ids);
        NothingBefore(args, ids[0]);
      }
    }
  }

  lemma DropFront(args: Argv, ids: seq<string>)
    ensures args == [] ==>
              DropPairs(args, RemovablePairs(ids)) == [] && AllMentions(DropPairs(args, RemovablePairs(ids))) == []
    ensures |args| >= 2 && Removable(args[0], ids) ==>
              DropPairs(args, RemovablePairs(ids)) == DropPairs(args[2..], RemovablePairs(ids))
    ensures args != [] && !(|args| >= 2 && Removable(args[0], ids)) ==>
              DropPairs(args, RemovablePairs(ids)) == [args[0]] + DropPairs(args[1..], RemovablePairs(ids))
  {
    hide Removable;
  }

  lemma SomeArgs(args: Argv)
    ensures args == [] ==> AllMentions(args) == []
  {}

  lemma TwoMentions(args: Argv, v: string)
    requires |args| >= 2 && Only(Mentions(args[0]), v) && Mentions(args[1]) == []
    ensures Only(AllMentions(args[..2]), v)
  {
    hide Mentions;
    MentionsStep(args, 0);
    MentionsStep(args, 1);
    assert args[..0] == [];
  }

  lemma OneMention(args: Argv, v: string)
    requires args != [] && Mentions(args[0]) == []
    ensures Only(AllMentions(args[..1]), v)
  {
    hide Mentions;
    MentionsStep(args, 0);
    assert args[..0] == [];
  }

  lemma NothingBefore(args: Argv, v: string)
    ensures Only(AllMentions(args[..0]), v)
  {
    assert args[..0] == [];
  }

  /** A kept token that mentions the first id is no hardware flag. */
  lemma StaysPlain(args: Argv, ids: seq<string>)
    requires WellFormed(args) && args != [] && ids != [] && Mentions(args[0]) != [] && Mentions(args[0])[0] == ids[0]
    requires !(|args| >= 2 && Removable(args[0], ids))
    ensures !HardwareFlag(args[0])
  {
    hide HardwareFlag, SpecOf, Mentions, Removable;
    if HardwareFlag(args[0]) {
      MentionsFirstId(args[0], ids);
    }
  }

  /**
   Exactly when the ordinals survive: on a well-formed argv, `video` being the first id it
   mentions if any, the loops keep every ordinal and remove just what they are meant to if and
   only if a token that stays mentions that id before any other appears, or no id is mentioned.
   */
  lemma StripExact(args: Argv, video: string)
    requires WellFormed(args) && (AllMentions(args) != [] ==> AllMentions(args)[0] == video)
    ensures Ids(Stripped(args)) == Ids(args) && Stripped(args) == DropPairs(args, RemovablePairs(Ids(args)))
            <==> Anchored(args, video)
  {
    hide *;
    var ids := Ids(args);
    if Anchored(args, video) {
      StripKeepsOrdinals(args, video);
    } else {
      NotAnchored(args, video);
      FirstIs(args, video);
      if Ids(Stripped(args)) == ids && Stripped(args) == DropPairs(args, RemovablePairs(ids)) {
        FirstOfIds(Stripped(args));
        var p := KeptAnchor(args, ids);
      }
    }
  }

  lemma NotAnchored(args: Argv, video: string)
    requires !Anchored(args, video)
    ensures AllMentions(args) != [] && forall p :: !AnchorAt(args, video, p)
  {
    hide AnchorAt;
  }

  lemma FirstIs(args: Argv, video: string)
    requires AllMentions(args) != [] && AllMentions(args)[0] == video
    ensures Ids(args) != [] && Ids(args)[0] == video
  {
    DistinctFirst(AllMentions(args));
  }

  lemma FirstOfIds(args: Argv)
    requires Ids(args) != []
    ensures AllMentions(args) != [] && AllMentions(args)[0] == Ids(args)[0]
  {
    hide Mentions, AllMentions;
    NoIds();
    DistinctFirst(AllMentions(args));
  }

  lemma NoIds()
    ensures Distinct([]) == []
  {}

  // ---------------------------------------------------------------- when nothing that stays mentions the video id

  lemma IdFlag(u: string, spec: string)
    requires ':' !in u && IdSpec(spec)
    ensures Mentions(u + (":" + spec)) == [spec[1..]]
  {
    OneId(spec, []);
    NormalHead(u, ":" + spec, []);
  }

  lemma PairMentions(f: string, v: string)
    requires Mentions(v) == []
    ensures AllMentions([f, v]) == Mentions(f)
  {
    hide Mentions;
    var args := [f, v];
    MentionsStep(args, 0);
    MentionsStep(args, 1);
    assert args[..0] == [] && args[..2] == args;
    assert AllMentions(args[..0]) == [];
  }

  lemma DistinctTwo(a: string, b: string)
    ensures Distinct([a]) == [a]
    ensures a != b ==> Distinct([a, b]) == [a, b]
  {
    assert [a, b][..1] == [a] && [a][..0] == [];
  }

  lemma SelectsId(spec: string, ord: nat, ids: seq<string>)
    requires IdSpec(spec)
    ensures Selects(spec, ord, ids) <==> Ordinal(ids, spec[1..]) == ord
  {
    hide IndexOf;
    assert spec[0] == spec[..3][0] && spec[1] == spec[..3][1] && spec[2] == spec[..3][2];
  }

  predicate PlainValue(v: string) {
    (v == "" || v[0] != '-') && Mentions(v) == []
  }

  lemma PlainIsNoFlag(v: string, flagBase: string, ids: seq<string>)
    requires PlainValue(v) && flagBase != "" && flagBase[0] == '-'
    ensures !FlagFor(v, flagBase, 0, ids) && v != flagBase
  {
    hide Selects;
    if flagBase + ":" <= v {
      StartsAlike(v, flagBase);
    }
  }

  lemma StartsAlike(v: string, flagBase: string)
    requires flagBase != "" && flagBase + ":" <= v
    ensures v != "" && v[0] == flagBase[0]
  {}

  lemma CodecIsNotHardware(f: string, spec: string, ids: seq<string>)
    requires f == "-codec" + (":" + spec)
    ensures !HardwareFlag(f) && f !in DEVICES
    ensures forall b :: 0 <= b < |BASES| ==> !FlagFor(f, BASES[b], 0, ids)
  {
    hide Selects;
    assert f[1] == 'c' && DEVICES[0][1] == 'i' && DEVICES[1][1] == 'f';
    forall b | 0 <= b < |BASES|
      ensures !(BASES[b] + ":" <= f)
    {
      assert BASES[b][1] == 'h' && (BASES[b] + ":")[1] == 'h';
    }
  }

  /**
   When only a stripped flag mentions the video id, a flag of another stream
   becomes the video stream's: whatever the two ids and the two values are.
   */
  lemma OrdinalsMove(video: string, other: string, v: string, w: string)
    requires IdSpec(video) && IdSpec(other) && video[1..] != other[1..] && PlainValue(v) && PlainValue(w)
    ensures var f, g := "-hwaccel" + (":" + video), "-codec" + (":" + other);
            && SpecIndex([f, v, g, w], "-codec", 0, 0) == -1
            && Stripped([f, v, g, w]) == [g, w]
            && SpecIndex([g, w], "-codec", 0, 0) == 0
  {
    var f, g := "-hwaccel" + (":" + video), "-codec" + (":" + other);
    var one, two := video[1..], other[1..];
    IdFlag("-hwaccel", video);
    IdFlag("-codec", other);
    CodecIsNotHardware(g, other, Ids([f, v, g, w]));
    CodecIsNotHardware(g, other, Ids([g, w]));
    hide IdSpec, Selects, Mentions, AllMentions, Distinct, HardwareFlag;
    PairMentions(f, v);
    PairMentions(g, w);
    assert [f, v, g, w] == [f, v] + [g, w] && [one] + [two] == [one, two];
    MentionsConcat([f, v], [g, w]);
    DistinctTwo(one, two);
    DistinctTwo(two, one);
    assert Ids([f, v, g, w]) == [one, two] && Ids([g, w]) == [two];
    BeforeStrip(f, v, g, w, video, other);
    AfterStrip(g, w, other);
    StripAll(f, v, g, w);
  }

  lemma FirstFlag(args: Argv, flagBase: string)
    requires args != [] && FlagFor(args[0], flagBase, 0, Ids(args))
    ensures SpecIndex(args, flagBase, 0, 0) == 0
  {
    hide FlagFor, Ids;
  }

  lemma NoFlag(args: Argv, flagBase: string)
    requires forall k :: 0 <= k < |args| ==> !FlagFor(args[k], flagBase, 0, Ids(args))
    ensures SpecIndex(args, flagBase, 0, 0) == -1
  {
    hide FlagFor, Ids;
  }

  lemma IdFlagFor(f: string, flagBase: string, spec: string, ids: seq<string>)
    requires IdSpec(spec) && f == flagBase + (":" + spec)
    ensures FlagFor(f, flagBase, 0, ids) <==> Ordinal(ids, spec[1..]) == 0
  {
    SelectsId(spec, 0, ids);
    hide Selects, IdSpec, IndexOf;
    assert f[|flagBase| + 1..] == spec;
    assert f[..|flagBase| + 1] == flagBase + ":";
  }

  lemma HwaccelIsNotCodec(f: string, spec: string, ids: seq<string>)
    requires f == "-hwaccel" + (":" + spec)
    ensures !FlagFor(f, "-codec", 0, ids)
  {
    hide Selects;
    assert f[1] == 'h' && ("-codec" + ":")[1] == 'c';
  }

  lemma BeforeStrip(f: string, v: string, g: string, w: string, video: string, other: string)
    requires IdSpec(video) && IdSpec(other) && video[1..] != other[1..] && PlainValue(v) && PlainValue(w)
    requires f == "-hwaccel" + (":" + video) && g == "-codec" + (":" + other)
    requires Ids([f, v, g, w]) == [video[1..], other[1..]]
    ensures SpecIndex([f, v, g, w], "-codec", 0, 0) == -1
    ensures SpecIndex([f, v, g, w], BASES[0], 0, 0) == 0
  {
    var ids := Ids([f, v, g, w]);
    BothFlags(video, other, ids);
    hide FlagFor, Ids, PlainValue, IdSpec, SpecIndex, IndexOf;
    IdFlagFor(f, BASES[0], video, ids);
    IdFlagFor(g, "-codec", other, ids);
    HwaccelIsNotCodec(f, video, ids);
    PlainIsNoFlag(v, "-codec", ids);
    PlainIsNoFlag(w, "-codec", ids);
    hide BASES;
    FirstFlag([f, v, g, w], BASES[0]);
    NoneOfFour(f, v, g, w, "-codec");
  }

  lemma BothFlags(video: string, other: string, ids: seq<string>)
    requires IdSpec(video) && IdSpec(other) && ids == [video[1..], other[1..]] && video[1..] != other[1..]
    ensures Ordinal(ids, video[1..]) == 0 && Ordinal(ids, other[1..]) == 1
    ensures |BASES| == 3 && BASES[0] == "-hwaccel"
  {
    assert ids[0] == video[1..] && ids[1] == other[1..];
    assert IndexOf(ids, other[1..], 1) == 1;
  }

  lemma NoneOfFour(f: string, v: string, g: string, w: string, flagBase: string)
    requires var ids := Ids([f, v, g, w]);
             !FlagFor(f, flagBase, 0, ids) && !FlagFor(v, flagBase, 0, ids)
             && !FlagFor(g, flagBase, 0, ids) && !FlagFor(w, flagBase, 0, ids)
    ensures SpecIndex([f, v, g, w], flagBase, 0, 0) == -1
  {
    hide FlagFor, Ids, SpecIndex;
    NoFlag([f, v, g, w], flagBase);
  }

  lemma AfterStrip(g: string, w: string, other: string)
    requires IdSpec(other) && PlainValue(w) && g == "-codec" + (":" + other) && Ids([g, w]) == [other[1..]]
    ensures SpecIndex([g, w], "-codec", 0, 0) == 0
    ensures forall b :: 0 <= b < |BASES| ==> SpecIndex([g, w], BASES[b], 0, 0) == -1
    ensures forall d :: 0 <= d < |DEVICES| ==> IndexOf([g, w], DEVICES[d], 0) == -1
  {
    var args, ids := [g, w], [other[1..]];
    CodecIsNotHardware(g, other, ids);
    hide FlagFor, Ids, PlainValue, IdSpec, SpecIndex;
    IdFlagFor(g, "-codec", other, ids);
    FirstFlag(args, "-codec");
    forall b | 0 <= b < |BASES|
      ensures SpecIndex(args, BASES[b], 0, 0) == -1
    {
      PlainIsNoFlag(w, BASES[b], ids);
      NoFlag(args, BASES[b]);
    }
    NoDevice(g, w);
  }

  lemma NoDevice(g: string, w: string)
    requires g !in DEVICES && PlainValue(w)
    ensures forall d :: 0 <= d < |DEVICES| ==> IndexOf([g, w], DEVICES[d], 0) == -1
  {
    hide FlagFor, PlainValue;
    forall d | 0 <= d < |DEVICES|
      ensures IndexOf([g, w], DEVICES[d], 0) == -1
    {
      PlainIsNoFlag(w, DEVICES[d], []);
      assert DEVICES[d] in DEVICES;
    }
  }

  lemma StripAll(f: string, v: string, g: string, w: string)
    requires SpecIndex([f, v, g, w], BASES[0], 0, 0) == 0
    requires forall b :: 0 <= b < |BASES| ==> SpecIndex([g, w], BASES[b], 0, 0) == -1
    requires forall d :: 0 <= d < |DEVICES| ==> IndexOf([g, w], DEVICES[d], 0) == -1
    ensures Stripped([f, v, g, w]) == [g, w]
  {
    hide StripSpec, StripFlag, SpecIndex, IndexOf;
    assert Remove([f, v, g, w], 0, 2) == [g, w];
    StripSpecStep([f, v, g, w], BASES[0]);
    StripSpecStep([g, w], BASES[0]);
    StripSpecStep([g, w], BASES[1]);
    StripSpecStep([g, w], BASES[2]);
    StripFlagStep([g, w], DEVICES[0]);
    StripFlagStep([g, w], DEVICES[1]);
  }
}
