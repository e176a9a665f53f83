/**
 Stream specifiers: the ordinals that stream ids stand for, finding a flag by
 the stream it selects, and agreement with the argv whose ids were replaced by
 their ordinals up front.
 */
module StreamSpec {
  import opened Prelude
  import opened Search
  import opened Text

  // ---------------------------------------------------------------- ids in a token

  predicate Hex(c: char) {
    '0' <= c <= '9' || 'a' <= c <= 'f' || 'A' <= c <= 'F'
  }

  function HexRun(s: string): (n: nat)
    ensures n <= |s| && forall k :: 0 <= k < n ==> Hex(s[k])
    ensures n < |s| ==> !Hex(s[n])
  {
    if s == "" || !Hex(s[0]) then 0 else 1 + HexRun(s[1..])
  }

  /** The length of a `:#0x` id standing at the front of the text, or 0. */
  function IdLength(s: string): (n: nat)
    ensures n <= |s| && (n > 0 ==> n >= 5 && s[0] == ':')
  {
    if |s| >= 5 && s[..4] == ":#0x" && Hex(s[4]) then 4 + HexRun(s[4..]) else 0
  }

  /** Every id a token mentions, in order (`0x01` for `:#0x01`). */
  function Mentions(s: string): seq<string> {
    if s == "" then []
    else
      var n := IdLength(s);
      if n > 0 then [s[2..n]] + Mentions(s[n..]) else Mentions(s[1..])
  }

  // ---------------------------------------------------------------- ordinals

  function Add(ids: seq<string>, id: string): seq<string> {
    if id in ids then ids else ids + [id]
  }

  /** The ids in order of first occurrence. */
  function Distinct(xs: seq<string>): seq<string> {
    if xs == [] then [] else Add(Distinct(xs[..|xs| - 1]), xs[|xs| - 1])
  }

  function AllMentions(args: seq<string>): seq<string> {
    if args == [] then [] else AllMentions(args[..|args| - 1]) + Mentions(args[|args| - 1])
  }

  /** Position is ordinal: the first id mentioned is 0. */
  function Ids(args: seq<string>): seq<string> {
    Distinct(AllMentions(args))
  }

  function Ordinal(ids: seq<string>, id: string): int {
    IndexOf(ids, id, 0)
  }

  predicate NoRepeats(ids: seq<string>) {
    forall i, j :: 0 <= i < j < |ids| ==> ids[i] != ids[j]
  }

  /** The map holds exactly the ordinals of `ids`. */
  ghost predicate Holds(m: map<string, int>, ids: seq<string>) {
    forall id :: (id in m <==> id in ids) && (id in m ==> m[id] == Ordinal(ids, id))
  }

  lemma AddHolds(m: map<string, int>, ids: seq<string>, id: string)
    requires Holds(m, ids)
    ensures Holds(if id in m then m else m[id := |ids|], Add(ids, id))
  {
    if id !in ids {
      forall x
        ensures Ordinal(ids + [id], x) == if x in ids then Ordinal(ids, x) else if x == id then |ids| else -1
      {
        OrdinalAppend(ids, id, x);
      }
    }
  }

  lemma OrdinalAppend(ids: seq<string>, id: string, x: string)
    requires id !in ids
    ensures Ordinal(ids + [id], x) == if x in ids then Ordinal(ids, x) else if x == id then |ids| else -1
  {
    var all := ids + [id];
    assert forall k :: 0 <= k < |ids| ==> all[k] == ids[k];
    assert all[|ids|] == id;
  }

  lemma MentionsStep(args: seq<string>, k: nat)
    requires k < |args|
    ensures AllMentions(args[..k + 1]) == AllMentions(args[..k]) + Mentions(args[k])
  {
    assert args[..k + 1][..k] == args[..k];
  }

  /** streamIDOrdinalMap */
  method StreamIdOrdinalMap(args: seq<string>) returns (m: map<string, int>)
    ensures Holds(m, Ids(args))
  {
    hide Distinct, AllMentions, Mentions, Holds, Add;
    m := map[];
    var next := 0;
    NoArgs();
    ghost var all: seq<string> := [];
    for a := 0 to |args|
      invariant all == AllMentions(args[..a])
      invariant Holds(m, Distinct(all)) && next == |Distinct(all)|
    {
      var found := Mentions(args[a]);
      ghost var before := all;
      MentionsStep(args, a);
      assert before + found[..0] == before;
      for s := 0 to |found|
        invariant Holds(m, Distinct(before + found[..s])) && next == |Distinct(before + found[..s])|
      {
        Extend(before, found, s);
        AddHolds(m, Distinct(before + found[..s]), found[s]);
        InMap(m, Distinct(before + found[..s]), found[s]);
        if found[s] !in m {
          m := m[found[s] := next];
          next := next + 1;
        }
      }
      assert before + found[..|found|] == before + found;
      all := before + found;
    }
    assert args[..|args|] == args;
  }

  lemma NoArgs()
    ensures AllMentions([]) == [] && Distinct([]) == [] && Holds(map[], [])
  {}

  lemma InMap(m: map<string, int>, ids: seq<string>, id: string)
    requires Holds(m, ids)
    ensures id in m <==> id in ids
    ensures |Add(ids, id)| == if id in ids then |ids| else |ids| + 1
  {}

  lemma Extend(before: seq<string>, found: seq<string>, s: nat)
    requires s < |found|
    ensures Distinct(before + found[..s + 1]) == Add(Distinct(before + found[..s]), found[s])
  {
    var xs := before + found[..s + 1];
    assert xs[..|xs| - 1] == before + found[..s];
  }

  // ---------------------------------------------------------------- selecting a stream

  /** streamSpecSelectsOrdinal: an ordinal, an id, or a type and index. */
  predicate Selects(spec: string, ord: int, ids: seq<string>) {
    var n := Atoi(spec);
    if n.Some? then n.value == ord
    else if "#0x" <= spec then
      var o := Ordinal(ids, spec[1..]);
      o >= 0 && o == ord
    else
      var c := IndexOf(spec, ':', 0);
      c >= 0 && (spec[..c] == "v" || spec[..c] == "V") && Atoi(spec[c + 1..]) == Some(ord)
  }

  predicate FlagFor(arg: string, flagBase: string, ord: int, ids: seq<string>) {
    flagBase + ":" <= arg && Selects(arg[|flagBase| + 1..], ord, ids)
  }

  /** First position at or after `start` whose flag selects the stream, or -1. */
  function SpecIndexFrom(args: seq<string>, flagBase: string, ord: int, start: nat, ids: seq<string>): (r: int)
    ensures r == -1 || (start <= r < |args| && FlagFor(args[r], flagBase, ord, ids))
    ensures forall k :: start <= k < |args| && (r == -1 || k < r) ==> !FlagFor(args[k], flagBase, ord, ids)
    decreases |args| - start
  {
    if start >= |args| then -1
    else if FlagFor(args[start], flagBase, ord, ids) then start
    else SpecIndexFrom(args, flagBase, ord, start + 1, ids)
  }

  function SpecIndex(args: seq<string>, flagBase: string, ord: int, start: nat): (r: int)
    ensures r == -1 || start <= r < |args|
  {
    SpecIndexFrom(args, flagBase, ord, start, Ids(args))
  }

  /** streamSpecSelectsOrdinal, with the map it is given. */
  method SpecSelectsOrdinal(spec: string, ord: int, idMap: map<string, int>, ghost ids: seq<string>) returns (r: bool)
    requires Holds(idMap, ids)
    ensures r == Selects(spec, ord, ids)
  {
    var n := Atoi(spec);
    if n.Some? {
      return n.value == ord;
    }
    if "#0x" <= spec {
      var id := spec[1..];
      OrdinalFound(ids, id);
      return id in idMap && idMap[id] == ord;
    }
    var c := IndexOf(spec, ':', 0);
    if c >= 0 && (spec[..c] == "v" || spec[..c] == "V") {
      var i := Atoi(spec[c + 1..]);
      return i.Some? && i.value == ord;
    }
    return false;
  }

  lemma OrdinalFound(ids: seq<string>, id: string)
    ensures id in ids <==> Ordinal(ids, id) >= 0
  {}

  /** streamSpecIndex */
  method StreamSpecIndex(args: seq<string>, flagBase: string, ord: int, start: nat) returns (r: int)
    ensures r == SpecIndex(args, flagBase, ord, start)
  {
    hide Selects, Holds, Ids;
    var idMap := StreamIdOrdinalMap(args);
    ghost var ids := Ids(args);
    var prefix := flagBase + ":";
    var i := start;
    while i < |args|
      invariant start <= i
      invariant SpecIndexFrom(args, flagBase, ord, start, ids) == SpecIndexFrom(args, flagBase, ord, i, ids)
      decreases |args| - i
    {
      var a := args[i];
      if prefix <= a {
        var selected := SpecSelectsOrdinal(a[|prefix|..], ord, idMap, ids);
        if selected {
          return i;
        }
      }
      i := i + 1;
    }
    return -1;
  }

  // ---------------------------------------------------------------- ids replaced by ordinals up front

  /** The token with every id written as its ordinal. */
  function Normal(s: string, ids: seq<string>): string {
    if s == "" then ""
    else
      var n := IdLength(s);
      if n > 0 then
        var o := Ordinal(ids, s[2..n]);
        (if o < 0 then s[..n] else ":" + Itoa(o)) + Normal(s[n..], ids)
      else [s[0]] + Normal(s[1..], ids)
  }

  function NormalArgs(args: seq<string>, ids: seq<string>): (r: seq<string>)
    ensures |r| == |args|
    ensures forall k :: 0 <= k < |args| ==> r[k] == Normal(args[k], ids)
  {
    if args == [] then [] else NormalArgs(args[..|args| - 1], ids) + [Normal(args[|args| - 1], ids)]
  }

  /** `#0x` and at least one hex digit, and nothing else. */
  predicate IdSpec(spec: string) {
    |spec| >= 4 && spec[..3] == "#0x" && forall k :: 3 <= k < |spec| ==> Hex(spec[k])
  }

  predicate TypedSpec(spec: string) {
    |spec| > 2 && (spec[0] == 'v' || spec[0] == 'V') && spec[1] == ':' && Atoi(spec[2..]).Some?
  }

  predicate KnownSpec(spec: string) {
    Atoi(spec).Some? || IdSpec(spec) || TypedSpec(spec)
  }

  lemma {:induction false} NormalHead(u: string, t: string, ids: seq<string>)
    requires ':' !in u
    ensures Normal(u + t, ids) == u + Normal(t, ids)
    ensures Mentions(u + t) == Mentions(t)
  {
    if u == "" {
      assert u + t == t;
      assert u + Normal(t, ids) == Normal(t, ids);
    } else {
      var s := u + t;
      assert u[0] in u && s[0] == u[0] && s[1..] == u[1..] + t;
      assert IdLength(s) == 0;
      NormalHead(u[1..], t, ids);
      Assoc([u[0]], u[1..], Normal(t, ids));
      assert u == [u[0]] + u[1..];
    }
  }

  lemma {:induction false} NormalPlain(s: string, ids: seq<string>)
    requires '#' !in s
    ensures Normal(s, ids) == s && Mentions(s) == []
  {
    if s != "" {
      NoId(s);
      NormalPlain(s[1..], ids);
    }
  }

  lemma NoId(s: string)
    requires '#' !in s
    ensures IdLength(s) == 0
  {
    if |s| >= 5 {
      assert s[1] in s;
      assert s[..4][1] == s[1] && ":#0x"[1] == '#';
    }
  }

  lemma OneId(spec: string, ids: seq<string>)
    requires IdSpec(spec)
    ensures var o := Ordinal(ids, spec[1..]);
            Normal(":" + spec, ids) == if o < 0 then ":" + spec else ":" + Itoa(o)
    ensures Mentions(":" + spec) == [spec[1..]]
  {
    var s := ":" + spec;
    IdLengthWhole(spec);
    assert s[2..|s|] == spec[1..] && s[|s|..] == "" && s[..|s|] == s;
    assert Normal(s[|s|..], ids) == "" && Mentions(s[|s|..]) == [];
  }

  lemma IdLengthWhole(spec: string)
    requires IdSpec(spec)
    ensures IdLength(":" + spec) == |spec| + 1
  {
    var s := ":" + spec;
    assert s[..4] == ":" + spec[..3];
    assert s[4..] == spec[3..];
    var d := s[4..];
    forall k | 0 <= k < |d|
      ensures Hex(d[k])
    {
      assert d[k] == spec[k + 3];
    }
    assert s[4] == d[0];
  }

  lemma NumberHasNoMarks(s: string)
    requires Atoi(s).Some?
    ensures '#' !in s && ':' !in s && s != ""
  {
    var signed := s[0] == '-' || s[0] == '+';
    var body := if signed then s[1..] else s;
    assert AllDigits(body);
    forall k | 0 <= k < |s|
      ensures s[k] != '#' && s[k] != ':'
    {
      if !(signed && k == 0) {
        assert s[k] == body[if signed then k - 1 else k];
      }
    }
  }

  lemma TypedHasNoMark(spec: string)
    requires TypedSpec(spec)
    ensures '#' !in spec && Atoi(spec).None?
  {
    NumberHasNoMarks(spec[2..]);
    assert spec == spec[..2] + spec[2..];
    assert spec[1] in spec;
    if Atoi(spec).Some? {
      NumberHasNoMarks(spec);
    }
  }

  // ---------------------------------------------------------------- agreement

  /** A token that is not this flag is still not this flag once its ids are replaced. */
  lemma OtherStaysOther(s: string, flagBase: string, ids: seq<string>)
    requires ':' !in flagBase
    ensures flagBase + ":" <= Normal(s, ids) <==> flagBase + ":" <= s
  {
    StartsWithKey(s, flagBase, ':');
    StartsWithKey(Normal(s, ids), flagBase, ':');
    FirstColon(s, ids);
  }

  /** The text up to the first ':' is not touched. */
  lemma FirstColon(s: string, ids: seq<string>)
    ensures var c, t := IndexOf(s, ':', 0), Normal(s, ids);
            IndexOf(t, ':', 0) == c && (c >= 0 ==> c < |t| && t[..c] == s[..c])
  {
    var c := IndexOf(s, ':', 0);
    var u := if c < 0 then s else s[..c];
    var rest := if c < 0 then "" else s[c..];
    assert u + rest == s;
    forall k | 0 <= k < |u|
      ensures u[k] != ':'
    {
      assert u[k] == s[k];
    }
    NormalHead(u, rest, ids);
    NormalOpens(rest, ids);
    var t := Normal(s, ids);
    assert forall k :: 0 <= k < |u| ==> t[k] == u[k];
    if c >= 0 {
      assert t[c] == Normal(rest, ids)[0];
    } else {
      assert t == u + "";
    }
  }

  lemma NormalOpens(s: string, ids: seq<string>)
    requires s == "" || s[0] == ':'
    ensures s == "" ==> Normal(s, ids) == ""
    ensures s != "" ==> Normal(s, ids) != "" && Normal(s, ids)[0] == ':'
  {}

  lemma SelectsAgree(spec: string, spec': string, ord: int, ids: seq<string>, ids': seq<string>)
    requires KnownSpec(spec) && 0 <= ord <= MAX_INT
    requires spec' == if IdSpec(spec) && Ordinal(ids, spec[1..]) >= 0 then Itoa(Ordinal(ids, spec[1..])) else spec
    requires IdSpec(spec) ==> Ordinal(ids, spec[1..]) >= 0
    ensures Selects(spec', ord, ids') <==> Selects(spec, ord, ids)
  {
    hide IndexOf;
    if IdSpec(spec) {
      assert spec[0] == spec[..3][0] == '#' && spec[0] in spec;
      if Atoi(spec).Some? {
        NumberHasNoMarks(spec);
      }
      var o := Ordinal(ids, spec[1..]);
      AtoiItoa(o);
      ItoaMeans(o);
      NoColonIn(Itoa(o));
    } else if TypedSpec(spec) {
      TypedHasNoMark(spec);
      if "#0x" <= spec {
        StartsWithMark(spec);
      }
    }
  }

  lemma StartsWithMark(spec: string)
    requires "#0x" <= spec
    ensures '#' in spec
  {
    assert spec[0] == '#';
  }

  lemma NoColonIn(s: string)
    requires AllDigits(s)
    ensures IndexOf(s, ':', 0) == -1 && !("#0x" <= s)
  {
    assert Digit(s[0]);
  }

  /** One flag: replaced up front or resolved at match time, the same stream. */
  lemma FlagAgrees(arg: string, flagBase: string, ord: int, ids: seq<string>, ids': seq<string>)
    requires ':' !in flagBase && '#' !in flagBase && 0 <= ord <= MAX_INT
    requires flagBase + ":" <= arg ==> KnownSpec(arg[|flagBase| + 1..])
    requires forall id :: id in Mentions(arg) ==> id in ids
    ensures FlagFor(Normal(arg, ids), flagBase, ord, ids') <==> FlagFor(arg, flagBase, ord, ids)
  {
    hide Selects, Normal, Mentions, IndexOf, KnownSpec;
    OtherStaysOther(arg, flagBase, ids);
    if flagBase + ":" <= arg {
      var spec := arg[|flagBase| + 1..];
      var t := Normal(arg, ids);
      assert arg == flagBase + (":" + spec);
      NormalHead(flagBase, ":" + spec, ids);
      NormalSpec(spec, ids);
      var spec' := t[|flagBase| + 1..];
      assert t == flagBase + Normal(":" + spec, ids);
      assert spec' == Normal(":" + spec, ids)[1..];
      SelectsAgree(spec, spec', ord, ids, ids');
    }
  }

  lemma NormalSpec(spec: string, ids: seq<string>)
    requires KnownSpec(spec)
    requires forall id :: id in Mentions(":" + spec) ==> id in ids
    ensures IdSpec(spec) ==> Ordinal(ids, spec[1..]) >= 0
    ensures Normal(":" + spec, ids)
            == ":" + if IdSpec(spec) then Itoa(Ordinal(ids, spec[1..])) else spec
  {
    hide Normal, Mentions, IndexOf;
    if IdSpec(spec) {
      OneId(spec, ids);
      OrdinalFound(ids, spec[1..]);
      assert spec[1..] in Mentions(":" + spec);
    } else {
      if Atoi(spec).Some? {
        NumberHasNoMarks(spec);
      } else {
        TypedHasNoMark(spec);
      }
      NormalPlain(":" + spec, ids);
    }
  }

  lemma {:induction false} DistinctMeans(xs: seq<string>)
    ensures forall x :: x in Distinct(xs) <==> x in xs
    ensures NoRepeats(Distinct(xs))
  {
    if xs != [] {
      DistinctMeans(xs[..|xs| - 1]);
      assert xs == xs[..|xs| - 1] + [xs[|xs| - 1]];
    }
  }

  lemma {:induction false} AllMentionsMeans(args: seq<string>)
    ensures forall k :: 0 <= k < |args| ==> forall id :: id in Mentions(args[k]) ==> id in AllMentions(args)
  {
    if args != [] {
      AllMentionsMeans(args[..|args| - 1]);
      forall k, id | 0 <= k < |args| && id in Mentions(args[k])
        ensures id in AllMentions(args)
      {
        if k < |args| - 1 {
          assert args[..|args| - 1][k] == args[k];
        }
      }
    }
  }

  /**
   Match-time resolution finds the position it would find on the argv whose ids
   were replaced by their first-occurrence ordinals.
   */
  lemma ResolutionAgrees(args: seq<string>, flagBase: string, ord: int, start: nat)
    requires ':' !in flagBase && '#' !in flagBase && 0 <= ord <= MAX_INT
    requires forall k :: 0 <= k < |args| && flagBase + ":" <= args[k] ==> KnownSpec(args[k][|flagBase| + 1..])
    ensures SpecIndex(NormalArgs(args, Ids(args)), flagBase, ord, start) == SpecIndex(args, flagBase, ord, start)
  {
    hide KnownSpec, Normal, Mentions, FlagFor, NormalArgs, Ids;
    var ids := Ids(args);
    var args' := NormalArgs(args, ids);
    var ids' := Ids(args');
    AllIn(args);
    forall k | 0 <= k < |args|
      ensures FlagFor(args'[k], flagBase, ord, ids') <==> FlagFor(args[k], flagBase, ord, ids)
    {
      FlagAgrees(args[k], flagBase, ord, ids, ids');
    }
  }

  lemma AllIn(args: seq<string>)
    ensures forall k :: 0 <= k < |args| ==> forall id :: id in Mentions(args[k]) ==> id in Ids(args)
  {
    hide Mentions, AllMentions, Distinct;
    AllMentionsMeans(args);
    DistinctMeans(AllMentions(args));
  }

  // ---------------------------------------------------------------- the forms, written out

  /** The ordinal form. */
  lemma SelectsNumber(n: nat, ord: int, ids: seq<string>)
    requires n <= MAX_INT
    ensures Selects(Itoa(n), ord, ids) <==> n == ord
  {
    AtoiItoa(n);
  }

  /** The id form: the id stands at that ordinal. */
  lemma SelectsId(h: string, ord: int, ids: seq<string>)
    requires NoRepeats(ids)
    ensures Selects("#0x" + h, ord, ids) <==> 0 <= ord < |ids| && ids[ord] == "0x" + h
  {
    var spec := "#0x" + h;
    assert spec[0] == '#' && spec[1..] == "0x" + h;
    assert !AllDigits(spec) && Atoi(spec).None?;
    assert "#0x" <= spec;
  }

  /** The typed form, for video. */
  lemma SelectsTyped(t: char, n: nat, ord: int, ids: seq<string>)
    requires n <= MAX_INT && t != ':' && !Digit(t) && t != '-' && t != '+' && t != '#'
    ensures Selects([t] + ":" + Itoa(n), ord, ids) <==> (t == 'v' || t == 'V') && n == ord
  {
    AtoiItoa(n);
    var spec := [t] + ":" + Itoa(n);
    assert spec[0] == t && spec[1] == ':' && spec[2..] == Itoa(n);
    assert !AllDigits(spec) && Atoi(spec).None?;
    assert !("#0x" <= spec);
    assert IndexOf(spec, ':', 0) == 1 && spec[..1] == [t];
  }

  /** A text with no id mark in front of the first id, the id, and what follows its last hex digit. */
  lemma MentionsNext(u: string, h: string, t: string)
    requires ':' !in u && h != ""
    requires forall k :: 0 <= k < |h| ==> '0' <= h[k] <= '9' || 'a' <= h[k] <= 'f' || 'A' <= h[k] <= 'F'
    requires t == "" || !('0' <= t[0] <= '9' || 'a' <= t[0] <= 'f' || 'A' <= t[0] <= 'F')
    ensures Mentions(u + (":#0x" + h + t)) == ["0x" + h] + Mentions(t)
  {
    hide *;
    HexDigits(h, t);
    NextMention(u, h, t);
  }

  lemma NextMention(u: string, h: string, t: string)
    requires ':' !in u && h != "" && (forall k :: 0 <= k < |h| ==> Hex(h[k])) && (t == "" || !Hex(t[0]))
    ensures Mentions(u + (":#0x" + h + t)) == ["0x" + h] + Mentions(t)
  {
    hide Hex, Mentions, IdLength, Normal;
    var s := ":#0x" + h + t;
    NormalHead(u, s, []);
    IdLengthIs(h, t);
    MentionsAt(s, 4 + |h|);
    assert s[2..4 + |h|] == "0x" + h && s[4 + |h|..] == t;
  }

  lemma HexDigits(h: string, t: string)
    requires forall k :: 0 <= k < |h| ==> '0' <= h[k] <= '9' || 'a' <= h[k] <= 'f' || 'A' <= h[k] <= 'F'
    requires t == "" || !('0' <= t[0] <= '9' || 'a' <= t[0] <= 'f' || 'A' <= t[0] <= 'F')
    ensures forall k :: 0 <= k < |h| ==> Hex(h[k])
    ensures t == "" || !Hex(t[0])
  {}

  lemma MentionsAt(s: string, n: nat)
    requires IdLength(s) == n > 0
    ensures Mentions(s) == [s[2..n]] + Mentions(s[n..])
  {
    hide IdLength;
  }

  lemma IdLengthIs(h: string, t: string)
    requires h != "" && (forall k :: 0 <= k < |h| ==> Hex(h[k])) && (t == "" || !Hex(t[0]))
    ensures IdLength(":#0x" + h + t) == 4 + |h|
  {
    hide HexRun, Hex;
    var s := ":#0x" + h + t;
    HexRunIs(h, t);
    assert s[4..] == h + t && s[..4] == ":#0x" && s[4] == h[0];
  }

  lemma {:induction false} HexRunIs(h: string, t: string)
    requires (forall k :: 0 <= k < |h| ==> Hex(h[k])) && (t == "" || !Hex(t[0]))
    ensures HexRun(h + t) == |h|
  {
    if h == "" {
      assert h + t == t;
    } else {
      assert (h + t)[1..] == h[1..] + t;
      HexRunIs(h[1..], t);
    }
  }

  /** Ordinals go by first mention. */
  lemma {:induction false} FirstMentionOrder(xs: seq<string>, a: string, b: string)
    requires a in xs && b in xs
    ensures Ordinal(Distinct(xs), a) < Ordinal(Distinct(xs), b) <==> IndexOf(xs, a, 0) < IndexOf(xs, b, 0)
  {
    hide Distinct;
    var init, x := xs[..|xs| - 1], xs[|xs| - 1];
    DistinctMeans(init);
    DistinctMeans(xs);
    DistinctLast(xs);
    assert xs == init + [x];
    FirstIn(init, x, a);
    FirstIn(init, x, b);
    AddOrdinal(Distinct(init), x, a);
    AddOrdinal(Distinct(init), x, b);
    if a in init && b in init {
      FirstMentionOrder(init, a, b);
    }
  }

  lemma DistinctLast(xs: seq<string>)
    requires xs != []
    ensures Distinct(xs) == Add(Distinct(xs[..|xs| - 1]), xs[|xs| - 1])
  {}

  lemma FirstIn(init: seq<string>, x: string, a: string)
    requires a in init || a == x
    ensures IndexOf(init + [x], a, 0) == if a in init then IndexOf(init, a, 0) else |init|
    ensures a in init ==> 0 <= IndexOf(init, a, 0) < |init|
  {
    var xs := init + [x];
    assert forall k :: 0 <= k < |init| ==> xs[k] == init[k];
    assert xs[|init|] == x;
    var r := IndexOf(xs, a, 0);
    if a in init {
      var i := IndexOf(init, a, 0);
      assert xs[i] == a;
    } else {
      assert xs[|init|] == a && r >= 0;
    }
  }

  lemma AddOrdinal(ids: seq<string>, x: string, a: string)
    requires a in ids || a == x
    ensures Ordinal(Add(ids, x), a) == if a in ids then Ordinal(ids, a) else |ids|
    ensures a in ids ==> 0 <= Ordinal(ids, a) < |ids|
  {
    if x !in ids {
      FirstIn(ids, x, a);
    }
  }
}
