/**
 Removing the font_path and fontconfig_file pairs from every inlineass node of
 a filtergraph: the loop over the text, and what it means on the graph as read.
 */
module Scrub {
  import opened Search
  import opened Text

  const NODE := "inlineass="

  // ---------------------------------------------------------------- pairs of a node

  /** The key before the first '=' is one the worker has no file for. */
  predicate Stripped(pair: string) {
    var at := IndexOf(pair, '=', 0);
    at >= 0 && (pair[..at] == "font_path" || pair[..at] == "fontconfig_file")
  }

  function Split(s: string): (ps: seq<string>)
    ensures |ps| > 0
    decreases |s|
  {
    var at := IndexOf(s, ':', 0);
    if at < 0 then [s] else [s[..at]] + Split(s[at + 1..])
  }

  function Join(ps: seq<string>): string {
    if ps == [] then "" else if |ps| == 1 then ps[0] else ps[0] + (":" + Join(ps[1..]))
  }

  function Kept(ps: seq<string>): seq<string> {
    if ps == [] then [] else (if Stripped(ps[0]) then [] else [ps[0]]) + Kept(ps[1..])
  }

  predicate Dirty(ps: seq<string>) {
    exists k :: 0 <= k < |ps| && Stripped(ps[k])
  }

  function Clean(params: string): string {
    Join(Kept(Split(params)))
  }

  // ---------------------------------------------------------------- the graph as read

  /** Where a node's parameters end: the first '[' or ';', or the end of the text. */
  function NodeEnd(s: string): (n: nat)
    ensures n <= |s| && (n < |s| ==> s[n] == '[' || s[n] == ';')
    ensures forall k :: 0 <= k < n ==> s[k] != '[' && s[k] != ';'
  {
    if s == "" || s[0] == '[' || s[0] == ';' then 0 else 1 + NodeEnd(s[1..])
  }

  /** Text up to and including an `inlineass=`, that node's parameters, and the rest. */
  datatype Graph = Text(text: string) | Node(before: string, params: string, rest: Graph)

  function Read(s: string): Graph
    decreases |s|
  {
    var j := Index(s, NODE);
    if j < 0 then Text(s)
    else
      var k := j + |NODE|;
      var e := k + NodeEnd(s[k..]);
      Node(s[..k], s[k..e], Read(s[e..]))
  }

  function Write(g: Graph): string {
    match g
    case Text(text) => text
    case Node(before, params, rest) => before + (params + Write(rest))
  }

  function CleanGraph(g: Graph): Graph {
    match g
    case Text(_) => g
    case Node(before, params, rest) => Node(before, Clean(params), CleanGraph(rest))
  }

  /** Some node of the graph holds a pair to strip. */
  predicate DirtyGraph(g: Graph) {
    match g
    case Text(_) => false
    case Node(_, params, rest) => Dirty(Split(params)) || DirtyGraph(rest)
  }

  function Scrubbed(s: string): string {
    Write(CleanGraph(Read(s)))
  }

  // ---------------------------------------------------------------- the loop

  method KeepPairs(pairs: seq<string>) returns (kept: seq<string>, changed: bool)
    ensures kept == Kept(pairs)
    ensures changed == Dirty(pairs)
  {
    kept, changed := [], false;
    var n := 0;
    assert pairs[0..] == pairs;
    while n < |pairs|
      invariant 0 <= n <= |pairs|
      invariant kept + Kept(pairs[n..]) == Kept(pairs)
      invariant changed == exists k :: 0 <= k < n && Stripped(pairs[k])
    {
      assert pairs[n..][0] == pairs[n] && pairs[n..][1..] == pairs[n + 1..];
      ghost var rest := Kept(pairs[n + 1..]);
      if Stripped(pairs[n]) {
        assert Kept(pairs[n..]) == rest;
        changed := true;
      } else {
        Assoc(kept, [pairs[n]], rest);
        kept := kept + [pairs[n]];
      }
      n := n + 1;
    }
    assert pairs[n..] == [];
  }

  /** scrubPlexInlineassFilesystemPaths: for any text, and it terminates. */
  method ScrubPaths(filterStr: string) returns (out: string, changed: bool)
    ensures out == Scrubbed(filterStr)
    ensures changed <==> out != filterStr
  {
    hide *;
    ScrubChanges(filterStr);
    if Index(filterStr, NODE) < 0 {
      NoNode(filterStr);
      return filterStr, false;
    }
    out, changed := "", false;
    var i := 0;
    assert filterStr[0..] == filterStr;
    while true
      invariant 0 <= i <= |filterStr|
      invariant out + Scrubbed(filterStr[i..]) == Scrubbed(filterStr)
      invariant changed || DirtyGraph(Read(filterStr[i..])) <==> DirtyGraph(Read(filterStr))
      decreases |filterStr| - i
    {
      var s := filterStr[i..];
      var j := Index(s, NODE);
      if j < 0 {
        NoNode(s);
        out := out + s;
        break;
      }
      NodeFits(s);
      var k := j + |NODE|;
      var e := k + NodeEnd(s[k..]);
      var kept, dirty := KeepPairs(Split(s[k..e]));
      NodeStep(s, j, k, e, kept);
      Assoc(out, s[..k], Join(kept) + Scrubbed(s[e..]));
      Assoc(out + s[..k], Join(kept), Scrubbed(s[e..]));
      out := out + s[..k] + Join(kept);
      changed := changed || dirty;
      assert filterStr[i + e..] == s[e..];
      i := i + e;
    }
  }

  lemma NodeFits(s: string)
    requires Index(s, NODE) >= 0
    ensures |NODE| == 10 && Index(s, NODE) + |NODE| <= |s|
  {}

  lemma ReadNodeAt(s: string, j: int, k: nat, e: nat)
    requires j == Index(s, NODE) >= 0 && k == j + |NODE| <= |s| && e == k + NodeEnd(s[k..])
    ensures |NODE| == 10 && Read(s) == Node(s[..k], s[k..e], Read(s[e..]))
  {
    hide Index, NodeEnd;
  }

  lemma NoNode(s: string)
    requires Index(s, NODE) < 0
    ensures Read(s) == Text(s) && Scrubbed(s) == s && !DirtyGraph(Read(s))
  {}

  lemma NodeStep(s: string, j: int, k: nat, e: nat, kept: seq<string>)
    requires j == Index(s, NODE) >= 0 && k == j + |NODE| <= |s| && e == k + NodeEnd(s[k..])
    requires kept == Kept(Split(s[k..e]))
    ensures Scrubbed(s) == s[..k] + (Join(kept) + Scrubbed(s[e..]))
    ensures DirtyGraph(Read(s)) <==> Dirty(Split(s[k..e])) || DirtyGraph(Read(s[e..]))
  {
    hide NodeEnd, Split, Kept, Join, Dirty, Read, Index;
    ReadNodeAt(s, j, k, e);
  }

  // ---------------------------------------------------------------- splitting and joining

  lemma SplitStep(s: string)
    ensures var at := IndexOf(s, ':', 0);
            Split(s) == if at < 0 then [s] else [s[..at]] + Split(s[at + 1..])
  {
    hide IndexOf;
  }

  lemma {:induction false} SplitParts(s: string)
    ensures forall p :: p in Split(s) ==> ':' !in p
    ensures Join(Split(s)) == s
    decreases |s|
  {
    hide Split, IndexOf;
    SplitStep(s);
    var at := IndexOf(s, ':', 0);
    if at >= 0 {
      var rest := s[at + 1..];
      SplitParts(rest);
      Cut(s, at);
      assert s[at..] == ":" + rest;
      assert Split(s)[1..] == Split(rest);
    }
  }

  lemma NoColon(p: string)
    requires ':' !in p
    ensures Split(p) == [p]
  {
    assert forall k :: 0 <= k < |p| ==> p[k] in p;
    assert IndexOf(p, ':', 0) == -1;
  }

  lemma {:induction false} SplitJoin(ps: seq<string>)
    requires |ps| > 0 && forall p :: p in ps ==> ':' !in p
    ensures Split(Join(ps)) == ps
  {
    if |ps| == 1 {
      NoColon(ps[0]);
    } else {
      SplitJoin(ps[1..]);
      SplitHead(ps[0], Join(ps[1..]));
      assert ps == [ps[0]] + ps[1..];
    }
  }

  lemma SplitHead(p: string, rest: string)
    requires ':' !in p
    ensures Split(p + (":" + rest)) == [p] + Split(rest)
  {
    var s := p + (":" + rest);
    assert s[|p|] == ':';
    assert forall k :: 0 <= k < |p| ==> s[k] == p[k];
    assert IndexOf(s, ':', 0) == |p|;
    assert s[..|p|] == p && s[|p| + 1..] == rest;
  }

  lemma {:induction false} KeptMeans(ps: seq<string>)
    ensures !Dirty(Kept(ps))
    ensures forall p :: p in Kept(ps) <==> p in ps && !Stripped(p)
    ensures !Dirty(ps) ==> Kept(ps) == ps
  {
    hide Stripped;
    if ps != [] {
      KeptMeans(ps[1..]);
      var head, tail := if Stripped(ps[0]) then [] else [ps[0]], Kept(ps[1..]);
      assert ps == [ps[0]] + ps[1..];
      assert Kept(ps) == head + tail;
      forall k | 0 <= k < |Kept(ps)|
        ensures !Stripped(Kept(ps)[k])
      {
        if k >= |head| {
          assert Kept(ps)[k] == tail[k - |head|];
        }
      }
      if !Dirty(ps) {
        assert !Stripped(ps[0]);
        forall k | 0 <= k < |ps| - 1
          ensures !Stripped(ps[1..][k])
        {
          assert ps[1..][k] == ps[k + 1];
        }
      }
    }
  }

  /** The pairs of a cleaned node, as they will be read again. */
  lemma CleanPairs(params: string)
    ensures var kept := Kept(Split(params));
            Split(Clean(params)) == if kept == [] then [""] else kept
    ensures !Dirty(Split(Clean(params)))
  {
    hide Stripped, Dirty;
    var kept := Kept(Split(params));
    SplitParts(params);
    KeptMeans(Split(params));
    if kept == [] {
      NoPair();
    } else {
      SplitJoin(kept);
    }
  }

  lemma NoPair()
    ensures Split("") == [""] && !Dirty([""]) && Join([]) == ""
  {
    assert IndexOf("", '=', 0) == -1;
  }

  // ---------------------------------------------------------------- lengths

  function Cost(ps: seq<string>): nat {
    if ps == [] then 0 else |ps[0]| + 1 + Cost(ps[1..])
  }

  lemma {:induction false} JoinLength(ps: seq<string>)
    ensures |Join(ps)| == if ps == [] then 0 else Cost(ps) - 1
  {
    if |ps| > 1 {
      JoinLength(ps[1..]);
    }
  }

  lemma {:induction false} KeptCost(ps: seq<string>)
    ensures Cost(Kept(ps)) <= Cost(ps)
    ensures Dirty(ps) ==> Cost(Kept(ps)) + 2 <= Cost(ps)
  {
    if ps != [] {
      var rest := ps[1..];
      KeptCost(rest);
      if Stripped(ps[0]) {
        assert Kept(ps) == Kept(rest);
      } else {
        assert Kept(ps)[1..] == Kept(rest);
        if Dirty(ps) {
          var k :| 0 <= k < |ps| && Stripped(ps[k]);
          assert rest[k - 1] == ps[k];
        }
      }
    }
  }

  lemma CleanLength(params: string)
    ensures |Clean(params)| <= |params|
    ensures Dirty(Split(params)) ==> |Clean(params)| < |params|
    ensures !Dirty(Split(params)) ==> Clean(params) == params
  {
    var ps := Split(params);
    SplitParts(params);
    JoinLength(ps);
    JoinLength(Kept(ps));
    KeptCost(ps);
    KeptMeans(ps);
  }

  // ---------------------------------------------------------------- what the scrub does

  /** Reading loses nothing. */
  lemma {:induction false} WriteRead(s: string)
    ensures Write(Read(s)) == s
    decreases |s|
  {
    hide Read, Index, NODE;
    var j := Index(s, NODE);
    if j < 0 {
      NoNode(s);
    } else {
      NodeFits(s);
      var k := j + |NODE|;
      var e := k + NodeEnd(s[k..]);
      WriteRead(s[e..]);
      ReadNodeAt(s, j, k, e);
      Cut3(s, k, e);
      Assoc(s[..k], s[k..e], s[e..]);
    }
  }

  /**
   The scrubbed text reads as the same graph with every node cleaned: text
   outside the nodes, and the order of what is kept, are untouched.
   */
  lemma {:induction false} ScrubReads(s: string)
    ensures Read(Scrubbed(s)) == CleanGraph(Read(s))
    decreases |s|
  {
    hide *;
    var j := Index(s, NODE);
    if j < 0 {
      NoNode(s);
      CleanText(s);
    } else {
      NodeFits(s);
      var k := j + |NODE|;
      NodeEndMeans(s, k);
      var e := k + NodeEnd(s[k..]);
      ScrubReads(s[e..]);
      StartsAsBefore(s, e);
      CleanStays(s[k..e]);
      ScrubbedNode(s, j, k, e);
      ReadNode(s, j, k, Clean(s[k..e]), Scrubbed(s[e..]));
      CleanNode(s[..k], s[k..e], Read(s[e..]));
    }
  }

  lemma CleanText(s: string)
    ensures CleanGraph(Text(s)) == Text(s)
  {}

  lemma CleanNode(before: string, params: string, rest: Graph)
    ensures CleanGraph(Node(before, params, rest)) == Node(before, Clean(params), CleanGraph(rest))
  {
    hide Clean;
  }

  lemma ScrubbedNode(s: string, j: int, k: nat, e: nat)
    requires j == Index(s, NODE) >= 0 && k == j + |NODE| <= |s| && e == k + NodeEnd(s[k..])
    ensures Scrubbed(s) == s[..k] + (Clean(s[k..e]) + Scrubbed(s[e..]))
    ensures Read(s) == Node(s[..k], s[k..e], Read(s[e..]))
  {
    hide NodeEnd, Clean, Read, Index;
    ReadNodeAt(s, j, k, e);
  }

  predicate Opens(s: string) {
    s == "" || s[0] == '[' || s[0] == ';'
  }

  predicate Plain(s: string) {
    '[' !in s && ';' !in s
  }

  lemma NodeEndMeans(s: string, k: nat)
    requires k <= |s|
    ensures var e := k + NodeEnd(s[k..]);
            Plain(s[k..e]) && Opens(s[e..])
  {
    var t := s[k..];
    var n := NodeEnd(t);
    assert s[k..k + n] == t[..n] && s[k + n..] == t[n..];
  }

  lemma NodeEndIs(params: string, rest: string)
    requires Plain(params) && Opens(rest)
    ensures NodeEnd(params + rest) == |params|
  {
    var s := params + rest;
    forall k | 0 <= k < |params|
      ensures s[k] != '[' && s[k] != ';'
    {
      assert s[k] == params[k] && params[k] in params;
    }
    if rest != "" {
      assert s[|params|] == rest[0];
    }
  }

  lemma ReadNode(s: string, j: int, k: nat, params: string, rest: string)
    requires j == Index(s, NODE) >= 0 && k == j + |NODE| <= |s|
    requires Plain(params) && Opens(rest)
    ensures Read(s[..k] + (params + rest)) == Node(s[..k], params, Read(rest))
  {
    hide NodeEnd, Read, Index, Plain, Opens;
    var t := s[..k] + (params + rest);
    assert t[..k] == s[..k];
    IndexStable(s, t, NODE);
    assert t[k..] == params + rest;
    NodeEndIs(params, rest);
    var e := k + |params|;
    assert t[k..e] == params && t[e..] == rest;
    ReadNodeAt(t, j, k, e);
  }

  /** What follows a node still opens with its bracket or semicolon after the scrub. */
  lemma StartsAsBefore(s: string, e: nat)
    requires e <= |s| && Opens(s[e..])
    ensures Opens(Scrubbed(s[e..]))
  {
    hide Clean, NodeEnd;
    var r := s[e..];
    var j := Index(r, NODE);
    if j < 0 {
      NoNode(r);
    } else {
      var k := j + |NODE|;
      ScrubbedNode(r, j, k, k + NodeEnd(r[k..]));
      assert k > 0 && Scrubbed(r)[0] == r[..k][0] == r[0];
    }
  }

  lemma CleanStays(params: string)
    requires Plain(params)
    ensures Plain(Clean(params))
  {
    var ps := Split(params);
    SplitParts(params);
    KeptMeans(ps);
    forall k | 0 <= k < |ps|
      ensures Plain(ps[k])
    {
      PartOf(ps, k);
    }
    forall k | 0 <= k < |Kept(ps)|
      ensures Plain(Kept(ps)[k])
    {
      assert Kept(ps)[k] in ps;
    }
    JoinPlain(Kept(ps));
  }

  lemma {:induction false} PartOf(ps: seq<string>, k: nat)
    requires k < |ps|
    ensures forall c :: c in ps[k] ==> c in Join(ps)
  {
    if |ps| > 1 && k > 0 {
      PartOf(ps[1..], k - 1);
    }
  }

  lemma {:induction false} JoinPlain(ps: seq<string>)
    requires forall k :: 0 <= k < |ps| ==> Plain(ps[k])
    ensures Plain(Join(ps))
  {
    if |ps| > 1 {
      JoinPlain(ps[1..]);
    }
  }

  // ---------------------------------------------------------------- the promises

  /** No pair to strip is left in any node. */
  lemma {:induction false} CleanGraphMeans(g: Graph)
    ensures !DirtyGraph(CleanGraph(g))
    ensures CleanGraph(CleanGraph(g)) == CleanGraph(g)
    ensures !DirtyGraph(g) ==> CleanGraph(g) == g
  {
    if g.Node? {
      CleanGraphMeans(g.rest);
      CleanPairs(g.params);
      CleanLength(g.params);
      CleanLength(Clean(g.params));
    }
  }

  lemma NothingLeft(s: string)
    ensures !DirtyGraph(Read(Scrubbed(s)))
  {
    hide *;
    ScrubReads(s);
    CleanGraphMeans(Read(s));
  }

  lemma ScrubTwice(s: string)
    ensures Scrubbed(Scrubbed(s)) == Scrubbed(s)
  {
    hide CleanGraph, Read, Write;
    ScrubReads(s);
    CleanGraphMeans(Read(s));
  }

  lemma {:induction false} CleanGraphLength(g: Graph)
    ensures |Write(CleanGraph(g))| <= |Write(g)|
    ensures DirtyGraph(g) ==> |Write(CleanGraph(g))| < |Write(g)|
  {
    hide Clean, Dirty;
    if g.Node? {
      CleanGraphLength(g.rest);
      CleanLength(g.params);
    }
  }

  /** The text differs exactly when some node held a pair to strip. */
  lemma ScrubChanges(s: string)
    ensures Scrubbed(s) != s <==> DirtyGraph(Read(s))
  {
    hide CleanGraph, Read, Write, DirtyGraph;
    WriteRead(s);
    CleanGraphLength(Read(s));
    CleanGraphMeans(Read(s));
  }

  /** The two stripped keys, as text: a pair goes exactly when it starts with one of them and an '='. */
  lemma StrippedMeans(pair: string)
    ensures Stripped(pair) <==> "font_path=" <= pair || "fontconfig_file=" <= pair
  {
    StartsWithKey(pair, "font_path", '=');
    StartsWithKey(pair, "fontconfig_file", '=');
  }

  /** Node by node, from the text: all in front of a node stays, its parameters are cleaned, and so on behind it. */
  lemma ScrubsNode(before: string, params: string, rest: string)
    requires Index(before + "inlineass=" + params + rest, "inlineass=") == |before|
    requires (forall k :: 0 <= k < |params| ==> params[k] != '[' && params[k] != ';')
    requires rest == "" || rest[0] == '[' || rest[0] == ';'
    ensures Scrubbed(before + "inlineass=" + params + rest)
            == before + "inlineass=" + (Clean(params) + Scrubbed(rest))
  {
    hide Clean, Index;
    var s := before + "inlineass=" + params + rest;
    var k := |before| + |NODE|;
    assert s[..k] == before + "inlineass=" && s[k..] == params + rest;
    EndIs(params, rest);
    assert s[k..k + |params|] == params && s[k + |params|..] == rest;
    assert Read(s) == Node(s[..k], params, Read(rest));
  }

  lemma {:induction false} EndIs(params: string, rest: string)
    requires (forall k :: 0 <= k < |params| ==> params[k] != '[' && params[k] != ';')
    requires rest == "" || rest[0] == '[' || rest[0] == ';'
    ensures NodeEnd(params + rest) == |params|
  {
    if params == "" {
      assert params + rest == rest;
    } else {
      assert (params + rest)[1..] == params[1..] + rest;
      EndIs(params[1..], rest);
    }
  }

  lemma ScrubsNothing(s: string)
    requires Index(s, "inlineass=") < 0
    ensures Scrubbed(s) == s
  {}

  /** Parameters are cut at colons: a first pair goes or stays by its key, and the rest in the same way. */
  lemma CleansPair(pair: string, rest: string)
    requires ':' !in pair
    ensures Kept(Split(pair + ":" + rest))
            == if "font_path=" <= pair || "fontconfig_file=" <= pair then Kept(Split(rest))
               else [pair] + Kept(Split(rest))
    ensures Kept(Split(pair))
            == if "font_path=" <= pair || "fontconfig_file=" <= pair then [] else [pair]
  {
    StrippedMeans(pair);
    var s := pair + ":" + rest;
    assert s[|pair|] == ':' && forall k :: 0 <= k < |pair| ==> s[k] == pair[k];
    assert IndexOf(s, ':', 0) == |pair| && s[..|pair|] == pair && s[|pair| + 1..] == rest;
    assert IndexOf(pair, ':', 0) < 0;
    assert ([pair] + Split(rest))[1..] == Split(rest) && [pair][1..] == [];
    hide Stripped, IndexOf;
    assert Split(s) == [pair] + Split(rest) && Split(pair) == [pair];
  }
}
