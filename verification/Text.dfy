/** Decimal numbers in option text: strconv.Atoi and Itoa, and text before a separator. */
module Text {
  import opened Prelude
  import opened Search

  const MAX_INT: nat := 0x7FFF_FFFF_FFFF_FFFF

  predicate Digit(c: char) {
    '0' <= c <= '9'
  }

  function DigitOf(c: char): nat
    requires Digit(c)
  {
    c as int - '0' as int
  }

  predicate AllDigits(s: string) {
    s != "" && forall k :: 0 <= k < |s| ==> Digit(s[k])
  }

  function DigitsValue(s: string): nat
    requires forall k :: 0 <= k < |s| ==> Digit(s[k])
  {
    if s == "" then 0
    else DigitsValue(s[..|s| - 1]) * 10 + DigitOf(s[|s| - 1])
  }

  /** strconv.Atoi: an optional sign, digits, and a 64-bit value. */
  function Atoi(s: string): Option<int> {
    var signed := s != "" && (s[0] == '-' || s[0] == '+');
    var body := if signed then s[1..] else s;
    if !AllDigits(body) then None
    else
      var v: int := DigitsValue(body);
      if signed && s[0] == '-' then if v <= MAX_INT + 1 then Some(-v) else None
      else if v <= MAX_INT then Some(v) else None
  }

  function Itoa(n: nat): string {
    var last := [(n % 10 + '0' as int) as char];
    if n < 10 then last else Itoa(n / 10) + last
  }

  lemma {:induction false} ItoaMeans(n: nat)
    ensures AllDigits(Itoa(n)) && DigitsValue(Itoa(n)) == n
  {
    if n >= 10 {
      ItoaMeans(n / 10);
      assert Itoa(n)[..|Itoa(n)| - 1] == Itoa(n / 10);
    }
  }

  lemma AtoiItoa(n: nat)
    ensures Atoi(Itoa(n)) == if n <= MAX_INT then Some(n) else None
  {
    ItoaMeans(n);
    assert Digit(Itoa(n)[0]);
  }

  /** With a sign in front, down to the least 64-bit number. */
  lemma AtoiSigned(n: nat)
    ensures Atoi("-" + Itoa(n)) == if n <= MAX_INT + 1 then Some(-(n as int)) else None
    ensures Atoi("+" + Itoa(n)) == if n <= MAX_INT then Some(n) else None
  {
    ItoaMeans(n);
    assert ("-" + Itoa(n))[1..] == Itoa(n) && ("+" + Itoa(n))[1..] == Itoa(n);
  }

  /** The text starts with `key` and then the separator. */
  lemma StartsWithKey<T>(s: seq<T>, key: seq<T>, sep: T)
    requires sep !in key
    ensures key + [sep] <= s <==> IndexOf(s, sep, 0) == |key| && s[..|key|] == key
  {
    if key + [sep] <= s {
      assert s[|key|] == sep && s[..|key|] == key;
      assert forall k :: 0 <= k < |key| ==> s[k] == s[..|key|][k];
    }
    if IndexOf(s, sep, 0) == |key| && s[..|key|] == key {
      assert s[..|key| + 1] == key + [sep];
    }
  }
}
