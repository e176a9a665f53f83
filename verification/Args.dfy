/** Argument vectors: the splices and removals every rewriting pass is made of. */
module Args {
  import opened Search

  type Argv = seq<string>

  /** removeArgs */
  function Remove(args: Argv, at: nat, n: nat): (r: Argv)
    requires at + n <= |args|
    ensures |r| == |args| - n
  {
    args[..at] + args[at + n..]
  }

  /** spliceArgs */
  function Splice(args: Argv, at: nat, ins: Argv): (r: Argv)
    requires at <= |args|
    ensures |r| == |args| + |ins|
  {
    args[..at] + ins + args[at..]
  }

  lemma RemoveAt(args: Argv, at: nat, n: nat, k: nat)
    requires at + n <= |args| && k < |args| - n
    ensures Remove(args, at, n)[k] == args[if k < at then k else k + n]
  {}

  // ---------------------------------------------------------------- dropping flag-and-value pairs

  /** In one walk: leave out every pair `drop` picks, and keep the other tokens in order. */
  function DropPairs(args: Argv, drop: (string, string) -> bool): Argv {
    if |args| < 2 then args
    else if drop(args[0], args[1]) then DropPairs(args[2..], drop)
    else [args[0]] + DropPairs(args[1..], drop)
  }

  predicate PairAt(args: Argv, i: int, drop: (string, string) -> bool) {
    0 <= i && i + 1 < |args| && drop(args[i], args[i + 1])
  }

  lemma {:induction false} DropConcat(x: Argv, y: Argv, drop: (string, string) -> bool)
    requires x != [] && y != [] ==> !drop(x[|x| - 1], y[0])
    ensures DropPairs(x + y, drop) == DropPairs(x, drop) + DropPairs(y, drop)
  {
    if x == [] {
      assert x + y == y;
    } else if y == [] {
      assert x + y == x;
    } else if |x| == 1 {
      assert (x + y)[1..] == y;
    } else if drop(x[0], x[1]) {
      assert (x + y)[2..] == x[2..] + y;
      DropConcat(x[2..], y, drop);
    } else {
      assert (x + y)[1..] == x[1..] + y;
      DropConcat(x[1..], y, drop);
    }
  }

  /** Removing one of the pairs first makes no difference. */
  lemma DropOne(args: Argv, i: nat, drop: (string, string) -> bool)
    requires PairAt(args, i, drop)
    requires i > 0 ==> !drop(args[i - 1], args[i]) && (i + 2 < |args| ==> !drop(args[i - 1], args[i + 2]))
    ensures DropPairs(Remove(args, i, 2), drop) == DropPairs(args, drop)
  {
    var x, y := args[..i], args[i..];
    Cut(args, i);
    assert y[2..] == args[i + 2..];
    DropConcat(x, y, drop);
    DropConcat(x, y[2..], drop);
  }

  lemma {:induction false} DropNone(args: Argv, drop: (string, string) -> bool)
    requires forall i :: !PairAt(args, i, drop)
    ensures DropPairs(args, drop) == args
  {
    if |args| >= 2 {
      assert !PairAt(args, 0, drop);
      forall i
        ensures !PairAt(args[1..], i, drop)
      {
        assert !PairAt(args, i + 1, drop);
      }
      DropNone(args[1..], drop);
    }
  }

  // ---------------------------------------------------------------- well-formed argument vectors

  predicate Dash(s: string) {
    s != "" && s[0] == '-'
  }

  /** inputDecoderHintFlag: a codec flag with any stream specifier. */
  predicate HintFlag(s: string) {
    || s == "-c:v" || s == "-c:a" || s == "-c:s" || s == "-c:d" || s == "-c:t"
    || ("-codec:" <= s && |s| > 7)
    || ("-c:" <= s && |s| > 3)
  }

  /** The flags of interest here that are followed by a value of their own. */
  predicate TakesValue(s: string) {
    || HintFlag(s)
    || "-eae_prefix" <= s || "-bsf:" <= s || "-profile" <= s
    || s == "-filter_complex" || s == "-segment_list" || s == "-manifest_name"
    || s == "-progressurl" || s == "-loglevel" || s == "-map"
  }

  /** Each flag of interest is followed by its own value, which is not itself an option. */
  predicate Paired(args: Argv) {
    forall k :: 0 <= k < |args| && TakesValue(args[k]) ==> k + 1 < |args| && !Dash(args[k + 1])
  }

  lemma FlagsDash(s: string)
    requires TakesValue(s)
    ensures Dash(s)
  {}

  lemma ValueIsNoFlag(s: string)
    requires !Dash(s)
    ensures !TakesValue(s)
  {
    if TakesValue(s) {
      FlagsDash(s);
    }
  }

  /** What precedes an option is not a flag waiting for its value. */
  lemma BeforeDash(args: Argv, i: nat)
    requires Paired(args) && i < |args| && Dash(args[i])
    ensures i > 0 ==> !TakesValue(args[i - 1])
  {
    hide TakesValue, Dash, Paired;
    if i > 0 && TakesValue(args[i - 1]) {
      ValueAt(args, i - 1);
    }
  }

  lemma ValueAt(args: Argv, k: nat)
    requires Paired(args) && k < |args| && TakesValue(args[k])
    ensures k + 1 < |args| && !Dash(args[k + 1])
  {
    hide TakesValue, Dash;
  }

  lemma PairedParts(x: Argv, y: Argv)
    requires Paired(x + y) && (x == [] || !TakesValue(x[|x| - 1]))
    ensures Paired(x) && Paired(y)
  {
    hide TakesValue, Dash;
    var s := x + y;
    forall k | 0 <= k < |x| && TakesValue(x[k])
      ensures k + 1 < |x| && !Dash(x[k + 1])
    {
      assert s[k] == x[k] && k != |x| - 1;
      assert s[k + 1] == x[k + 1];
    }
    forall k | 0 <= k < |y| && TakesValue(y[k])
      ensures k + 1 < |y| && !Dash(y[k + 1])
    {
      assert s[|x| + k] == y[k];
      assert s[|x| + k + 1] == y[k + 1];
    }
  }

  lemma PairedJoin(x: Argv, y: Argv)
    requires Paired(x) && Paired(y)
    ensures Paired(x + y)
  {
    hide TakesValue, Dash;
    var s := x + y;
    forall k | 0 <= k < |s| && TakesValue(s[k])
      ensures k + 1 < |s| && !Dash(s[k + 1])
    {
      if k < |x| {
        assert s[k] == x[k] && s[k + 1] == x[k + 1];
      } else {
        assert s[k] == y[k - |x|];
        assert s[k + 1] == y[k - |x| + 1];
      }
    }
  }

  lemma PairedLast(x: Argv)
    requires Paired(x)
    ensures x == [] || !TakesValue(x[|x| - 1])
  {
    hide TakesValue;
  }
}
