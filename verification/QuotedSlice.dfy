/**
 The quoted-slice parser of argv-extract: a list of strings printed as
 space-separated Go string literals, read back from a log line.

 A string is a sequence of code points; `\x` and octal escapes stand for the
 code point of the same number.
 */
module QuotedSlice {
  import opened Prelude

  const QUOTE: char := '\U{22}'
  const BACKSLASH: char := '\U{5C}'
  const LF: char := '\U{0A}'

  // ---------------------------------------------------------------- one literal

  /** The length of the text before the closing quote, or -1; a backslash hides the character after it. */
  function Close(t: string): (n: int)
    ensures n == -1 || (0 <= n < |t| && t[n] == QUOTE)
  {
    if t == "" then -1
    else if t[0] == BACKSLASH && |t| > 1 then Plus(2, Close(t[2..]))
    else if t[0] == QUOTE then 0
    else Plus(1, Close(t[1..]))
  }

  function Plus(k: nat, n: int): int {
    if n < 0 then -1 else n + k
  }

  function HexDigit(c: char): Option<nat> {
    if '0' <= c <= '9' then Some(c as int - '0' as int)
    else if 'a' <= c <= 'f' then Some(c as int - 'a' as int + 10)
    else if 'A' <= c <= 'F' then Some(c as int - 'A' as int + 10)
    else None
  }

  /** The value of hexadecimal or octal digits, or None when one is not a digit of that base. */
  function Digits(t: string, hex: bool): Option<nat> {
    if t == "" then Some(0)
    else
      var d, rest := HexDigit(t[|t| - 1]), Digits(t[..|t| - 1], hex);
      if d.None? || rest.None? || (!hex && d.value >= 8) then None
      else Some((if hex then rest.value * 16 else rest.value * 8) + d.value)
  }

  /** The character of a numeric escape: `n` digits, at most `top`, and a Unicode scalar value. */
  function Numeric(t: string, n: nat, hex: bool, top: nat): Option<char> {
    if |t| < n then None
    else match Digits(t[..n], hex)
      case None => None
      case Some(v) =>
        if v > top || 0xD800 <= v < 0xE000 || v >= 0x11_0000 then None else Some(v as char)
  }

  /** One escape sequence after its backslash: the character and how many characters it took. */
  function Escape(t: string): Option<(char, nat)> {
    if t == "" then None
    else if t[0] == 'a' then Some(('\U{07}', 1))
    else if t[0] == 'b' then Some(('\U{08}', 1))
    else if t[0] == 'f' then Some(('\U{0C}', 1))
    else if t[0] == 'n' then Some((LF, 1))
    else if t[0] == 'r' then Some(('\U{0D}', 1))
    else if t[0] == 't' then Some(('\U{09}', 1))
    else if t[0] == 'v' then Some(('\U{0B}', 1))
    else if t[0] == BACKSLASH || t[0] == QUOTE then Some((t[0], 1))
    else if t[0] == 'x' then Taking(Numeric(t[1..], 2, true, 255), 3)
    else if t[0] == 'u' then Taking(Numeric(t[1..], 4, true, 0x10_FFFF), 5)
    else if t[0] == 'U' then Taking(Numeric(t[1..], 8, true, 0x10_FFFF), 9)
    else if '0' <= t[0] <= '7' then Taking(Numeric(t, 3, false, 255), 3)
    else None
  }

  function Taking(c: Option<char>, n: nat): Option<(char, nat)> {
    if c.None? then None else Some((c.value, n))
  }

  /** strconv.Unquote, between the quotes: a raw newline or a bad escape refuses the literal. */
  function Unquote(t: string): Option<string> {
    if t == "" then Some("")
    else if t[0] == QUOTE || t[0] == LF then None
    else if t[0] == BACKSLASH then
      match Escape(t[1..])
      case None => None
      case Some((c, n)) => if 1 + n > |t| then None else Before(c, Unquote(t[1 + n..]))
    else Before(t[0], Unquote(t[1..]))
  }

  function Before(c: char, rest: Option<string>): Option<string> {
    if rest.None? then None else Some([c] + rest.value)
  }

  // ---------------------------------------------------------------- the list

  function Element(literal: string): seq<string> {
    match Unquote(literal)
    case None => []
    case Some(s) => [s]
  }

  /** parseQuotedSlice: stops at the first thing that is not a literal, and skips one that does not unquote. */
  function Parse(body: string): seq<string>
  {
    if body == "" then []
    else if body[0] == ' ' then Parse(body[1..])
    else if body[0] != QUOTE then []
    else
      var n := Close(body[1..]);
      if n < 0 then [] else Element(body[1..1 + n]) + Parse(body[n + 2..])
  }

  lemma ParseSpace(body: string, i: nat)
    requires i < |body| && body[i] == ' '
    ensures Parse(body[i..]) == Parse(body[i + 1..])
  {
    assert body[i..][1..] == body[i + 1..];
  }

  lemma ParseLiteral(body: string, i: nat, j: nat)
    requires i < j < |body| && body[i] == QUOTE && Close(body[i + 1..]) == j - i - 1
    ensures Parse(body[i..]) == Element(body[i + 1..j]) + Parse(body[j + 1..])
  {
    hide Close, Element;
    var s, n := body[i..], j - i - 1;
    assert s[1..] == body[i + 1..] && s[1..1 + n] == body[i + 1..j] && s[n + 2..] == body[j + 1..];
  }

  lemma ParseStops(body: string, i: nat)
    requires i < |body| && (body[i] == QUOTE ==> Close(body[i + 1..]) < 0) && body[i] != ' '
    ensures Parse(body[i..]) == []
  {
    assert body[i..][1..] == body[i + 1..];
  }

  lemma CloseStep(body: string, j: nat)
    requires j < |body|
    ensures Close(body[j..])
            == if body[j] == BACKSLASH && j + 1 < |body| then Plus(2, Close(body[j + 2..]))
               else if body[j] == QUOTE then 0
               else Plus(1, Close(body[j + 1..]))
  {
    var t := body[j..];
    assert t[1..] == body[j + 1..];
    if |t| > 1 {
      assert t[2..] == body[j + 2..];
    }
  }

  lemma CloseNothing()
    ensures Close("") == -1
  {}

  method ParseQuotedSlice(body: string) returns (out: seq<string>)
    ensures out == Parse(body)
  {
    hide Parse, Close, Element;
    out := [];
    var i := 0;
    assert body[0..] == body;
    while i < |body|
      invariant 0 <= i <= |body|
      invariant out + Parse(body[i..]) == Parse(body)
    {
      ghost var start := i;
      while i < |body| && body[i] == ' '
        invariant start <= i <= |body|
        invariant out + Parse(body[i..]) == Parse(body)
      {
        ParseSpace(body, i);
        i := i + 1;
      }
      if i >= |body| {
        break;
      }
      if body[i] != QUOTE {
        ParseStops(body, i);
        return;
      }
      var j := i + 1;
      while j < |body|
        invariant i < j <= |body|
        invariant Close(body[i + 1..]) == Plus(j - i - 1, Close(body[j..]))
        decreases |body| - j
      {
        CloseStep(body, j);
        if body[j] == BACKSLASH && j + 1 < |body| {
          j := j + 2;
          continue;
        }
        if body[j] == QUOTE {
          break;
        }
        j := j + 1;
      }
      if j >= |body| {
        assert body[j..] == "";
        CloseNothing();
        ParseStops(body, i);
        return;
      }
      ParseLiteral(body, i, j);
      CloseStep(body, j);
      assert Close(body[j..]) == 0;
      match Unquote(body[i + 1..j]) {
        case Some(s) =>
          Appended(out, s, body, i, j);
          out := out + [s];
        case None =>
          Dropped(body, i, j);
      }
      i := j + 1;
    }
    assert body[i..] == "";
    ParseNothing();
  }

  lemma ParseNothing()
    ensures Parse("") == []
  {}

  lemma Appended(out: seq<string>, s: string, body: string, i: nat, j: nat)
    requires i < j < |body| && Unquote(body[i + 1..j]) == Some(s)
    ensures out + (Element(body[i + 1..j]) + Parse(body[j + 1..])) == (out + [s]) + Parse(body[j + 1..])
  {
    hide Parse, Unquote;
  }

  lemma Dropped(body: string, i: nat, j: nat)
    requires i < j < |body| && Unquote(body[i + 1..j]) == None
    ensures Element(body[i + 1..j]) + Parse(body[j + 1..]) == Parse(body[j + 1..])
  {
    hide Parse, Unquote;
  }

  // ---------------------------------------------------------------- printing

  /** Escape quotes and backslashes, and raw newlines too when `nl`. */
  function EscapeChar(c: char, nl: bool): string {
    if c == QUOTE then [BACKSLASH, QUOTE]
    else if c == BACKSLASH then [BACKSLASH, BACKSLASH]
    else if c == LF && nl then [BACKSLASH, 'n']
    else [c]
  }

  function Escaped(s: string, nl: bool): string {
    if s == "" then "" else EscapeChar(s[0], nl) + Escaped(s[1..], nl)
  }

  function Quoted(s: string, nl: bool): string {
    [QUOTE] + (Escaped(s, nl) + [QUOTE])
  }

  function Print(list: seq<string>, nl: bool): string {
    if list == [] then ""
    else if |list| == 1 then Quoted(list[0], nl)
    else Quoted(list[0], nl) + (" " + Print(list[1..], nl))
  }

  // ---------------------------------------------------------------- round trip

  lemma CloseOne(c: char, nl: bool, t: string)
    ensures Close(EscapeChar(c, nl) + t) == Plus(|EscapeChar(c, nl)|, Close(t))
  {
    var e := EscapeChar(c, nl);
    assert (e + t)[|e|..] == t;
  }

  lemma {:induction false} CloseEscaped(s: string, nl: bool, rest: string)
    ensures Close(Escaped(s, nl) + ([QUOTE] + rest)) == |Escaped(s, nl)|
  {
    hide Close, EscapeChar;
    if s == "" {
      assert Escaped(s, nl) + ([QUOTE] + rest) == [QUOTE] + rest;
      CloseStep([QUOTE] + rest, 0);
      assert ([QUOTE] + rest)[0..] == [QUOTE] + rest;
    } else {
      CloseEscaped(s[1..], nl, rest);
      var e, t := EscapeChar(s[0], nl), Escaped(s[1..], nl) + ([QUOTE] + rest);
      assert Escaped(s, nl) + ([QUOTE] + rest) == e + t;
      CloseOne(s[0], nl, t);
    }
  }

  predicate Printable(s: string, nl: bool) {
    nl || LF !in s
  }

  lemma {:induction false} UnquoteEscaped(s: string, nl: bool)
    ensures Unquote(Escaped(s, nl)) == if Printable(s, nl) then Some(s) else None
  {
    if s != "" {
      UnquoteEscaped(s[1..], nl);
      OneCharacter(s[0], nl, Escaped(s[1..], nl));
      assert s == [s[0]] + s[1..];
    }
  }

  lemma OneCharacter(c: char, nl: bool, t: string)
    ensures Unquote(EscapeChar(c, nl) + t) == if c == LF && !nl then None else Before(c, Unquote(t))
  {
    var e := EscapeChar(c, nl);
    var s := e + t;
    assert s[|e|..] == t;
    if |e| == 2 {
      assert s[0] == BACKSLASH && s[1..][0] == e[1];
    }
  }

  /** What survives: the strings without a raw newline, or all of them when newlines are escaped. */
  function Survivors(list: seq<string>, nl: bool): seq<string> {
    if list == [] then []
    else (if Printable(list[0], nl) then [list[0]] else []) + Survivors(list[1..], nl)
  }

  lemma ReadQuoted(s: string, nl: bool, rest: string)
    ensures Parse(Quoted(s, nl) + rest) == (if Printable(s, nl) then [s] else []) + Parse(rest)
  {
    hide Parse, Close, Unquote, Escaped, Printable;
    var e := Escaped(s, nl);
    var body := Quoted(s, nl) + rest;
    assert body[1..] == e + ([QUOTE] + rest);
    CloseEscaped(s, nl, rest);
    UnquoteEscaped(s, nl);
    assert body[0..] == body && body[1..1 + |e|] == e && body[|e| + 2..] == rest;
    ParseLiteral(body, 0, 1 + |e|);
  }

  lemma {:induction false} PrintParse(list: seq<string>, nl: bool)
    ensures Parse(Print(list, nl)) == Survivors(list, nl)
  {
    hide Parse, Quoted, Printable;
    if list == [] {
      ParseNothing();
    } else if |list| == 1 {
      ReadQuoted(list[0], nl, "");
      ParseNothing();
      assert Quoted(list[0], nl) + "" == Quoted(list[0], nl);
    } else {
      var rest := Print(list[1..], nl);
      PrintParse(list[1..], nl);
      ReadQuoted(list[0], nl, " " + rest);
      ParseSpace(" " + rest, 0);
      assert (" " + rest)[0..] == " " + rest && (" " + rest)[1..] == rest;
    }
  }

  lemma {:induction false} AllSurvive(list: seq<string>, nl: bool)
    ensures |Survivors(list, nl)| <= |list|
    ensures Survivors(list, nl) == list <==> forall s :: s in list ==> Printable(s, nl)
  {
    if list != [] {
      AllSurvive(list[1..], nl);
      assert list == [list[0]] + list[1..];
      if Printable(list[0], nl) {
        assert Survivors(list, nl)[1..] == Survivors(list[1..], nl);
      }
    }
  }

  /** Escaping only quotes and backslashes: exact when and only when no string holds a raw newline. */
  lemma QuotedRoundTrip(list: seq<string>)
    ensures Parse(Print(list, false)) == list <==> forall s :: s in list ==> LF !in s
  {
    PrintParse(list, false);
    AllSurvive(list, false);
    forall s | s in list
      ensures Printable(s, false) <==> LF !in s
    {}
  }

  /** Escaping newlines as well, as Go's %q does, loses nothing. */
  lemma LoggedRoundTrip(list: seq<string>)
    ensures Parse(Print(list, true)) == list
  {
    PrintParse(list, true);
    AllSurvive(list, true);
  }

  // ---------------------------------------------------------------- every spelling of a character

  function Base(hex: bool): nat {
    if hex then 16 else 8
  }

  function Power(hex: bool, n: nat): nat {
    if n == 0 then 1 else Base(hex) * Power(hex, n - 1)
  }

  function Numeral(d: nat, upper: bool): char
    requires d < 16
  {
    if upper then "0123456789ABCDEF"[d] else "0123456789abcdef"[d]
  }

  /** A number in `n` digits. */
  function Number(v: nat, n: nat, hex: bool, upper: bool): (t: string)
    ensures |t| == n
  {
    if n == 0 then "" else Number(v / Base(hex), n - 1, hex, upper) + [Numeral(v % Base(hex), upper)]
  }

  lemma NumeralReads(d: nat, upper: bool)
    requires d < 16
    ensures HexDigit(Numeral(d, upper)) == Some(d)
    ensures Numeral(d, upper) != QUOTE && Numeral(d, upper) != BACKSLASH
    ensures d < 8 ==> '0' <= Numeral(d, upper) <= '7'
  {}

  /** Digits read back as the number they were written from. */
  lemma {:induction false} NumberReads(v: nat, n: nat, hex: bool, upper: bool)
    requires v < Power(hex, n)
    ensures Digits(Number(v, n, hex, upper), hex) == Some(v)
  {
    if n == 0 {
      assert v == 0;
    } else {
      var b := Base(hex);
      DigitOff(v, n, hex);
      NumberReads(v / b, n - 1, hex, upper);
      OneMoreDigit(Number(v / b, n - 1, hex, upper), v / b, v % b, hex, upper);
    }
  }

  lemma DigitOff(v: nat, n: nat, hex: bool)
    requires n > 0 && v < Power(hex, n)
    ensures v / Base(hex) < Power(hex, n - 1) && v == v / Base(hex) * Base(hex) + v % Base(hex)
  {}

  lemma OneMoreDigit(t: string, w: nat, d: nat, hex: bool, upper: bool)
    requires d < Base(hex) && Digits(t, hex) == Some(w)
    ensures Digits(t + [Numeral(d, upper)], hex) == Some(w * Base(hex) + d)
  {
    hide HexDigit, Numeral;
    NumeralReads(d, upper);
    var s := t + [Numeral(d, upper)];
    assert s[..|s| - 1] == t;
  }

  lemma {:induction false} NumberIsPlain(v: nat, n: nat, hex: bool, upper: bool)
    ensures QUOTE !in Number(v, n, hex, upper) && BACKSLASH !in Number(v, n, hex, upper)
  {
    if n > 0 {
      NumberIsPlain(v / Base(hex), n - 1, hex, upper);
      NumeralReads(v % Base(hex), upper);
      hide Numeral;
    }
  }

  /** How a number follows a backslash: after a letter or not, in how many digits. */
  datatype Form = Form(lead: string, n: nat, hex: bool)

  const BYTE := Form("x", 2, true)
  const SHORT := Form("u", 4, true)
  const LONG := Form("U", 8, true)
  const OCTAL := Form("", 3, false)

  function Coded(f: Form, v: nat, upper: bool): string {
    [BACKSLASH] + (f.lead + Number(v, f.n, f.hex, upper))
  }

  /** The ways Go writes one character inside a string literal. */
  ghost predicate Spells(e: string, c: char) {
    || (e == [c] && c != QUOTE && c != BACKSLASH && c != LF)
    || (e == [BACKSLASH, c] && (c == QUOTE || c == BACKSLASH))
    || (exists k :: 0 <= k < 7 && e == [BACKSLASH, "abfnrtv"[k]] && c == SHORTHANDS[k])
    || ((e == Coded(BYTE, c as int, false) || e == Coded(BYTE, c as int, true)) && c as int < 0x100)
    || ((e == Coded(SHORT, c as int, false) || e == Coded(SHORT, c as int, true)) && c as int < 0x1_0000)
    || e == Coded(LONG, c as int, false) || e == Coded(LONG, c as int, true)
    || (e == Coded(OCTAL, c as int, false) && c as int < 0x100)
  }

  const SHORTHANDS := "\U{07}\U{08}\U{0C}\U{0A}\U{0D}\U{09}\U{0B}"

  lemma Powers()
    ensures Power(true, 2) == 0x100 && Power(true, 4) == 0x1_0000 && Power(true, 8) == 0x1_0000_0000
    ensures Power(false, 3) == 0x200
  {
    assert Power(true, 2) == 0x100;
    assert Power(true, 4) == 0x1_0000;
    assert Power(true, 6) == 0x100_0000;
  }

  /** What a numeric escape reads as, or that it is refused, for every number its digits can hold. */
  lemma CodedReads(f: Form, v: nat, upper: bool, t: string)
    requires f in [BYTE, SHORT, LONG, OCTAL] && v < Power(f.hex, f.n)
    ensures Unquote(Coded(f, v, upper) + t)
            == if (f == OCTAL && v > 255) || 0xD800 <= v < 0xE000 || v > 0x10_FFFF then None
               else Before(v as char, Unquote(t))
  {
    hide Unquote, Escape, Numeric, Number, Power, Digits, Taking, Before;
    var digits := Number(v, f.n, f.hex, upper);
    var x := f.lead + digits;
    NumberReads(v, f.n, f.hex, upper);
    Powers();
    NumericReads(digits, t, f.hex, if f.n == 2 || f.n == 3 then 255 else 0x10_FFFF, v);
    assert x + t == f.lead + (digits + t);
    if f == OCTAL {
      OctalFirst(v, upper);
      OctalEscape(digits, t);
      assert x == digits;
    } else {
      LetterEscape(f.lead[0], digits, t);
      assert x + t == [f.lead[0]] + digits + t;
    }
    var n := Numeric(digits + t, f.n, f.hex, if f.n == 2 || f.n == 3 then 255 else 0x10_FFFF);
    TakingMeans(n, |x|);
    EscapeThen(x, t);
    assert Coded(f, v, upper) + t == [BACKSLASH] + (x + t);
  }

  lemma TakingMeans(c: Option<char>, n: nat)
    ensures Taking(c, n) == if c.None? then None else Some((c.value, n))
  {}

  lemma LetterEscape(letter: char, digits: string, t: string)
    requires (letter == 'x' && |digits| == 2) || (letter == 'u' && |digits| == 4) || (letter == 'U' && |digits| == 8)
    ensures Escape([letter] + digits + t)
            == Taking(Numeric(digits + t, |digits|, true, if letter == 'x' then 255 else 0x10_FFFF), 1 + |digits|)
  {
    hide Numeric, Taking;
    var e := [letter] + digits + t;
    assert e[0] == letter && e[1..] == digits + t;
  }

  lemma OctalEscape(digits: string, t: string)
    requires |digits| == 3 && '0' <= digits[0] <= '7'
    ensures Escape(digits + t) == Taking(Numeric(digits + t, 3, false, 255), 3)
  {
    hide Numeric, Taking;
    assert (digits + t)[0] == digits[0];
  }

  lemma NumericReads(digits: string, t: string, hex: bool, top: nat, v: nat)
    requires Digits(digits, hex) == Some(v)
    ensures Numeric(digits + t, |digits|, hex, top)
            == if v > top || 0xD800 <= v < 0xE000 || v > 0x10_FFFF then None else Some(v as char)
  {
    hide Digits;
    assert (digits + t)[..|digits|] == digits;
  }

  /** Reading on behind an escape. */
  lemma EscapeThen(x: string, t: string)
    requires Escape(x + t).Some? ==> Escape(x + t).value.1 == |x|
    ensures Unquote([BACKSLASH] + (x + t))
            == if Escape(x + t).None? then None else Before(Escape(x + t).value.0, Unquote(t))
  {
    hide Escape, Before;
    var s := [BACKSLASH] + (x + t);
    assert s[0] == BACKSLASH && s[1..] == x + t && s[1 + |x|..] == t;
  }

  lemma OctalFirst(v: nat, upper: bool)
    requires v < Power(false, 3)
    ensures '0' <= Number(v, 3, false, upper)[0] <= '7'
  {
    Powers();
    var d := v / 8 / 8;
    NumeralReads(d % 8, upper);
    hide Numeral, Power;
    assert Number(d, 1, false, upper) == Number(d / 8, 0, false, upper) + [Numeral(d % 8, upper)];
    assert Number(v / 8, 2, false, upper) == Number(d, 1, false, upper) + [Numeral(v / 8 % 8, upper)];
  }

  /** A backslash before anything else refuses the literal. */
  lemma Refuses(c: char, t: string)
    requires c !in "abfnrtvxuU01234567" && c != QUOTE && c != BACKSLASH
    ensures Unquote([BACKSLASH, c] + t) == None && Unquote([BACKSLASH]) == None
  {
    assert ([BACKSLASH, c] + t)[1..] == [c] + t;
    assert forall k :: '0' <= k <= '7' ==> k in "01234567";
    assert "abfnrtvxuU01234567" == "abfnrtvxuU" + "01234567";
  }

  /** A digit that is none refuses a number. */
  lemma {:induction false} BadDigit(t: string, k: nat, hex: bool)
    requires k < |t| && !('0' <= t[k] <= '7')
    requires hex ==> !('0' <= t[k] <= '9') && !('a' <= t[k] <= 'f') && !('A' <= t[k] <= 'F')
    ensures Digits(t, hex) == None
  {
    if k < |t| - 1 {
      BadDigit(t[..|t| - 1], k, hex);
    }
  }

  lemma SpellingReads(e: string, c: char, t: string)
    requires Spells(e, c)
    ensures e != "" && Unquote(e + t) == Before(c, Unquote(t))
  {
    hide Escape, Number, Coded;
    if e == [c] && c != QUOTE && c != BACKSLASH && c != LF {
      assert (e + t)[1..] == t;
    } else if |e| == 2 {
      assert e[0] == BACKSLASH ==> e == [BACKSLASH, e[1]];
      TwoLetters(e, c);
      ShortReads(e[1], c, t);
    } else {
      Powers();
      var f, upper := FormOf(e, c);
      hide Spells;
      CodedReads(f, c as int, upper, t);
    }
  }

  /** A longer spelling is a number. */
  lemma FormOf(e: string, c: char) returns (f: Form, upper: bool)
    requires Spells(e, c) && |e| != 2 && !(e == [c] && c != QUOTE && c != BACKSLASH && c != LF)
    ensures |e| >= 4 && f in [BYTE, SHORT, LONG, OCTAL] && e == Coded(f, c as int, upper)
    ensures (f == BYTE || f == OCTAL ==> c as int < 0x100) && (f == SHORT ==> c as int < 0x1_0000)
  {
    hide Number, Coded;
    var v := c as int;
    if v < 0x100 && (e == Coded(BYTE, v, false) || e == Coded(BYTE, v, true)) {
      f, upper := BYTE, e != Coded(BYTE, v, false);
    } else if v < 0x1_0000 && (e == Coded(SHORT, v, false) || e == Coded(SHORT, v, true)) {
      f, upper := SHORT, e != Coded(SHORT, v, false);
    } else if e == Coded(LONG, v, false) || e == Coded(LONG, v, true) {
      f, upper := LONG, e != Coded(LONG, v, false);
    } else {
      f, upper := OCTAL, false;
    }
    Lengths(v);
  }

  lemma TwoLetters(e: string, c: char)
    requires Spells(e, c) && |e| == 2
    ensures e[0] == BACKSLASH
    ensures (e[1] == c && (c == QUOTE || c == BACKSLASH))
            || exists i :: 0 <= i < 7 && e[1] == "abfnrtv"[i] && c == SHORTHANDS[i]
  {
    hide Number, Coded;
    Lengths(c as int);
  }

  lemma Lengths(v: nat)
    ensures |Coded(BYTE, v, false)| == |Coded(BYTE, v, true)| == 4 && |Coded(OCTAL, v, false)| == 4
    ensures |Coded(SHORT, v, false)| == |Coded(SHORT, v, true)| == 6
    ensures |Coded(LONG, v, false)| == |Coded(LONG, v, true)| == 10
  {}

  lemma ShortReads(k: char, c: char, t: string)
    requires (k == c && (c == QUOTE || c == BACKSLASH))
             || exists i :: 0 <= i < 7 && k == "abfnrtv"[i] && c == SHORTHANDS[i]
    ensures Unquote([BACKSLASH, k] + t) == Before(c, Unquote(t))
  {
    hide Unquote, Before;
    assert ([k] + t)[0] == k;
    assert Escape([k] + t) == Some((c, 1));
    EscapeThen([k], t);
    assert [BACKSLASH, k] + t == [BACKSLASH] + ([k] + t);
  }

  /** No spelling hides the closing quote or shows one of its own. */
  lemma SpellingCloses(e: string, c: char, t: string)
    requires Spells(e, c)
    ensures Close(e + t) == Plus(|e|, Close(t))
  {
    hide Number, Coded, Close, Spells;
    if e == [c] && c != QUOTE && c != BACKSLASH && c != LF {
      PlainCloses(e, t);
    } else if |e| == 2 {
      TwoLetters(e, c);
      TwoClose(e, t);
    } else {
      var f, upper := FormOf(e, c);
      CodedCloses(f, c as int, upper, t);
    }
  }

  lemma TwoClose(e: string, t: string)
    requires |e| == 2 && e[0] == BACKSLASH
    ensures Close(e + t) == Plus(2, Close(t))
  {
    hide Close;
    HiddenCloses(e[1], "", t);
    assert e == [BACKSLASH, e[1]] && "" + t == t;
  }

  lemma CodedCloses(f: Form, v: nat, upper: bool, t: string)
    requires f in [BYTE, SHORT, LONG, OCTAL]
    ensures Close(Coded(f, v, upper) + t) == Plus(|Coded(f, v, upper)|, Close(t))
  {
    hide Number, Close;
    var digits := Number(v, f.n, f.hex, upper);
    NumberIsPlain(v, f.n, f.hex, upper);
    var x := f.lead + digits;
    assert x[0] == if f == OCTAL then digits[0] else f.lead[0];
    HiddenCloses(x[0], x[1..], t);
    assert Coded(f, v, upper) == [BACKSLASH, x[0]] + x[1..];
    assert Coded(f, v, upper) + t == [BACKSLASH, x[0]] + (x[1..] + t);
  }

  lemma HiddenCloses(c: char, x: string, t: string)
    requires QUOTE !in x && BACKSLASH !in x
    ensures Close([BACKSLASH, c] + (x + t)) == Plus(2 + |x|, Close(t))
  {
    var s := [BACKSLASH, c] + (x + t);
    assert s[2..] == x + t;
    PlainCloses(x, t);
  }

  lemma {:induction false} PlainCloses(x: string, t: string)
    requires QUOTE !in x && BACKSLASH !in x
    ensures Close(x + t) == Plus(|x|, Close(t))
  {
    if x == "" {
      assert x + t == t;
    } else {
      PlainCloses(x[1..], t);
      assert (x + t)[1..] == x[1..] + t;
    }
  }

  function Flat(parts: seq<string>): string {
    if parts == [] then "" else parts[0] + Flat(parts[1..])
  }

  /** A string written character by character, each in a spelling of its own. */
  ghost predicate SpelledBy(parts: seq<string>, s: string) {
    |parts| == |s| && forall k :: 0 <= k < |s| ==> Spells(parts[k], s[k])
  }

  lemma {:induction false} SpelledReads(parts: seq<string>, s: string, rest: string)
    requires SpelledBy(parts, s)
    ensures Unquote(Flat(parts)) == Some(s)
    ensures Close(Flat(parts) + ([QUOTE] + rest)) == |Flat(parts)|
  {
    hide Unquote, Close, Spells;
    if s == "" {
      assert Flat(parts) + ([QUOTE] + rest) == [QUOTE] + rest;
      CloseStep([QUOTE] + rest, 0);
      assert ([QUOTE] + rest)[0..] == [QUOTE] + rest;
      UnquoteNothing();
    } else {
      var e, t := parts[0], Flat(parts[1..]);
      SpelledReads(parts[1..], s[1..], rest);
      SpellingReads(e, s[0], t);
      SpellingCloses(e, s[0], t + ([QUOTE] + rest));
      assert e + t + ([QUOTE] + rest) == e + (t + ([QUOTE] + rest));
      assert s == [s[0]] + s[1..];
    }
  }

  lemma UnquoteNothing()
    ensures Unquote("") == Some("")
  {}

  function Line(lits: seq<seq<string>>): string {
    if lits == [] then ""
    else if |lits| == 1 then [QUOTE] + (Flat(lits[0]) + [QUOTE])
    else [QUOTE] + (Flat(lits[0]) + [QUOTE]) + (" " + Line(lits[1..]))
  }

  /** However each character of each string is spelled, the list comes back. */
  lemma {:induction false} SpelledRoundTrip(lits: seq<seq<string>>, list: seq<string>)
    requires |lits| == |list| && forall k :: 0 <= k < |list| ==> SpelledBy(lits[k], list[k])
    ensures Parse(Line(lits)) == list
  {
    hide Parse, SpelledBy, Flat;
    if list == [] {
      ParseNothing();
    } else if |list| == 1 {
      ReadSpelled(lits[0], list[0], "");
      ParseNothing();
      assert [QUOTE] + (Flat(lits[0]) + [QUOTE]) + "" == Line(lits);
    } else {
      var rest := Line(lits[1..]);
      SpelledRoundTrip(lits[1..], list[1..]);
      ReadSpelled(lits[0], list[0], " " + rest);
      ParseSpace(" " + rest, 0);
      assert (" " + rest)[0..] == " " + rest && (" " + rest)[1..] == rest;
      assert list == [list[0]] + list[1..];
    }
  }

  lemma ReadSpelled(parts: seq<string>, s: string, rest: string)
    requires SpelledBy(parts, s)
    ensures Parse([QUOTE] + (Flat(parts) + [QUOTE]) + rest) == [s] + Parse(rest)
  {
    hide Parse, Close, Unquote, Flat, SpelledBy;
    var e := Flat(parts);
    var body := [QUOTE] + (e + [QUOTE]) + rest;
    assert body[1..] == e + ([QUOTE] + rest);
    SpelledReads(parts, s, rest);
    assert body[0..] == body && body[1..1 + |e|] == e && body[|e| + 2..] == rest;
    ParseLiteral(body, 0, 1 + |e|);
  }
}
