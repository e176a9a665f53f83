/**
 The server name in a TLS ClientHello (RFC 8446 section 4.1.2, RFC 6066
 section 3): the bounds-checked parser, and the encoding it inverts.
 */
module Sni {
  import opened Prelude

  type Bytes = seq<byte>

  // ---------------------------------------------------------------- the parser, on suffixes of the message

  function U16(hi: byte, lo: byte): nat {
    hi * 256 + lo
  }

  /** What is left of `s` past a one-byte length and that many bytes. */
  function Skip8(s: Bytes): Option<Bytes> {
    if s == [] || 1 + s[0] > |s| then None else Some(s[1 + s[0]..])
  }

  function Skip16(s: Bytes): Option<Bytes> {
    if |s| < 2 || 2 + U16(s[0], s[1]) > |s| then None else Some(s[2 + U16(s[0], s[1])..])
  }

  /** The first host_name of a server_name_list, past its own length field; "" when there is none. */
  function HostIn(s: Bytes): Bytes {
    if |s| < 3 then []
    else
      var n := U16(s[1], s[2]);
      if 3 + n > |s| then []
      else if s[0] == 0 then s[3..3 + n]
      else HostIn(s[3 + n..])
  }

  function HostOfExtension(data: Bytes): Bytes {
    if |data| < 2 then [] else HostIn(data[2..])
  }

  /** Walk the extensions to the first server_name. */
  function HostInExtensions(e: Bytes): Bytes {
    if |e| < 4 then []
    else
      var n := U16(e[2], e[3]);
      if 4 + n > |e| then []
      else if U16(e[0], e[1]) == 0 then HostOfExtension(e[4..4 + n])
      else HostInExtensions(e[4 + n..])
  }

  function ExtensionBytes(s: Bytes): Bytes
    requires |s| >= 2
  {
    var end := 2 + U16(s[0], s[1]);
    s[2..if end > |s| then |s| else end]
  }

  function AfterRandom(s: Bytes): Bytes {
    match Skip8(s)
    case None => []
    case Some(a) =>
      match Skip16(a)
      case None => []
      case Some(b) =>
        match Skip8(b)
        case None => []
        case Some(c) => if |c| < 2 then [] else HostInExtensions(ExtensionBytes(c))
  }

  /** parseSNI, on the handshake message. */
  function Parse(hs: Bytes): Bytes {
    if |hs| < 38 || hs[0] != 1 then [] else AfterRandom(hs[38..])
  }

  // ---------------------------------------------------------------- the parser, as the loops run

  lemma Within(s: Bytes, i: nat, j: nat, a: nat, b: nat)
    requires i <= j <= |s| && a <= b <= j - i
    ensures s[i..j][a..b] == s[i + a..i + b]
  {
    var t := s[i..j];
    var x, y := t[a..b], s[i + a..i + b];
    forall k | 0 <= k < b - a
      ensures x[k] == y[k]
    {
      assert x[k] == t[a + k] == s[i + a + k];
    }
    assert x == y;
  }

  lemma NameStep(ext: Bytes, j: nat)
    requires j + 3 <= |ext|
    ensures var n := U16(ext[j + 1], ext[j + 2]);
            HostIn(ext[j..])
            == if j + 3 + n > |ext| then []
               else if ext[j] == 0 then ext[j + 3..j + 3 + n]
               else HostIn(ext[j + 3 + n..])
  {
    var s, n := ext[j..], U16(ext[j + 1], ext[j + 2]);
    assert s[0] == ext[j] && s[1] == ext[j + 1] && s[2] == ext[j + 2];
    if j + 3 + n <= |ext| {
      assert s[3..3 + n] == ext[j + 3..j + 3 + n] && s[3 + n..] == ext[j + 3 + n..];
    }
  }

  lemma NameStop(s: Bytes)
    requires |s| < 3
    ensures HostIn(s) == []
  {}

  method ParseNames(ext: Bytes) returns (host: Bytes, ghost from: nat)
    ensures host == HostOfExtension(ext)
    ensures from + |host| <= |ext| && host == ext[from..from + |host|]
  {
    hide HostIn;
    var j := 2;
    while j + 3 <= |ext|
      invariant 2 <= j
      invariant j <= |ext| ==> HostOfExtension(ext) == HostIn(ext[j..])
      invariant j > |ext| ==> HostOfExtension(ext) == []
      decreases |ext| - j
    {
      NameStep(ext, j);
      var nt, nl := ext[j], U16(ext[j + 1], ext[j + 2]);
      j := j + 3;
      if j + nl > |ext| {
        return [], 0;
      }
      if nt == 0 {
        return ext[j..j + nl], j;
      }
      j := j + nl;
    }
    if j <= |ext| {
      NameStop(ext[j..]);
    }
    return [], 0;
  }

  /** One step of the walk, at `i`, over the bytes up to `end`. */
  lemma ExtensionStep(hs: Bytes, i: nat, end: nat)
    requires i + 4 <= end <= |hs|
    ensures var n := U16(hs[i + 2], hs[i + 3]);
            HostInExtensions(hs[i..end])
            == if i + 4 + n > end then []
               else if U16(hs[i], hs[i + 1]) == 0 then HostOfExtension(hs[i + 4..i + 4 + n])
               else HostInExtensions(hs[i + 4 + n..end])
  {
    hide HostOfExtension;
    var e := hs[i..end];
    assert e[0] == hs[i] && e[1] == hs[i + 1] && e[2] == hs[i + 2] && e[3] == hs[i + 3];
    var n := U16(hs[i + 2], hs[i + 3]);
    if i + 4 + n <= end {
      Within(hs, i, end, 4, 4 + n);
      Within(hs, i, end, 4 + n, end - i);
    }
  }

  lemma ExtensionStop(e: Bytes)
    requires |e| < 4
    ensures HostInExtensions(e) == []
  {}

  /** The extension loop, from the extensions' length field at `at`. */
  method ParseExtensions(hs: Bytes, at: nat) returns (host: Bytes, ghost from: nat)
    requires at + 2 <= |hs|
    ensures host == HostInExtensions(ExtensionBytes(hs[at..]))
    ensures from + |host| <= |hs| && host == hs[from..from + |host|]
  {
    hide HostInExtensions, HostOfExtension;
    var i, end := at + 2, at + 2 + U16(hs[at], hs[at + 1]);
    if end > |hs| {
      end := |hs|;
    }
    ghost var all := hs[i..end];
    ExtensionBytesAt(hs, at);
    hide *;
    while i + 4 <= end
      invariant at + 2 <= i <= end <= |hs|
      invariant HostInExtensions(all) == HostInExtensions(hs[i..end])
      decreases end - i
    {
      ExtensionStep(hs, i, end);
      var etype, elen := U16(hs[i], hs[i + 1]), U16(hs[i + 2], hs[i + 3]);
      i := i + 4;
      if i + elen > end {
        return [], 0;
      }
      if etype == 0 {
        host, from := ParseNames(hs[i..i + elen]);
        Within(hs, i, i + elen, from, from + |host|);
        from := i + from;
        return;
      }
      i := i + elen;
    }
    ExtensionStop(hs[i..end]);
    return [], 0;
  }

  lemma ExtensionBytesAt(hs: Bytes, at: nat)
    requires at + 2 <= |hs|
    ensures var end := at + 2 + U16(hs[at], hs[at + 1]);
            ExtensionBytes(hs[at..]) == hs[at + 2..if end > |hs| then |hs| else end]
  {
    var s := hs[at..];
    assert s[0] == hs[at] && s[1] == hs[at + 1];
  }

  lemma Skip8At(hs: Bytes, i: nat)
    requires i <= |hs|
    ensures Skip8(hs[i..])
            == if i == |hs| || i + 1 + hs[i] > |hs| then None else Some(hs[i + 1 + hs[i]..])
  {
    var s := hs[i..];
    if i < |hs| && i + 1 + hs[i] <= |hs| {
      assert s[1 + s[0]..] == hs[i + 1 + hs[i]..];
    }
  }

  lemma Skip16At(hs: Bytes, i: nat)
    requires i <= |hs|
    ensures Skip16(hs[i..])
            == if i + 2 > |hs| || i + 2 + U16(hs[i], hs[i + 1]) > |hs| then None
               else Some(hs[i + 2 + U16(hs[i], hs[i + 1])..])
  {
    var s := hs[i..];
    if i + 2 <= |hs| {
      var n := U16(hs[i], hs[i + 1]);
      if i + 2 + n <= |hs| {
        assert s[2 + n..] == hs[i + 2 + n..];
      }
    }
  }

  lemma AfterRandomIs(s: Bytes)
    ensures Skip8(s).None? ==> AfterRandom(s) == []
    ensures Skip8(s).Some? && Skip16(Skip8(s).value).None? ==> AfterRandom(s) == []
    ensures Skip8(s).Some? && Skip16(Skip8(s).value).Some? ==>
              var c := Skip8(Skip16(Skip8(s).value).value);
              AfterRandom(s) == if c.None? || |c.value| < 2 then [] else HostInExtensions(ExtensionBytes(c.value))
  {
    hide Skip8, Skip16, HostInExtensions, ExtensionBytes;
  }

  /** parseSNI: any bytes at all, no read out of range, and the answer is a slice of the input. */
  method ParseSNI(hs: Bytes) returns (host: Bytes, ghost from: nat)
    ensures host == Parse(hs)
    ensures from + |host| <= |hs| && host == hs[from..from + |host|]
  {
    hide HostInExtensions, ExtensionBytes, Skip8, Skip16, AfterRandom, U16;
    if |hs| < 38 || hs[0] != 1 {
      return [], 0;
    }
    AfterRandomIs(hs[38..]);
    var i := 38;
    Skip8At(hs, i);
    if i >= |hs| {
      return [], 0;
    }
    i := i + 1 + hs[i];
    if i <= |hs| {
      Skip16At(hs, i);
    }
    if i + 2 > |hs| {
      return [], 0;
    }
    var j := i + 2 + U16(hs[i], hs[i + 1]);
    if j <= |hs| {
      Skip8At(hs, j);
    }
    if j + 1 > |hs| {
      return [], 0;
    }
    var k := j + 1 + hs[j];
    if k + 2 > |hs| {
      return [], 0;
    }
    host, from := ParseExtensions(hs, k);
  }

  /** peekSNI: the first record of a buffered stream. */
  function Peek(buffered: Bytes): Bytes {
    if |buffered| < 5 || buffered[0] != 0x16 then []
    else
      var n := U16(buffered[3], buffered[4]);
      if n == 0 || n > 17 * 1024 || 5 + n > |buffered| then [] else Parse(buffered[5..5 + n])
  }

  // ---------------------------------------------------------------- the encoding

  datatype Name = Name(kind: byte, text: Bytes)

  datatype Extension = Other(kind: nat, data: Bytes) | ServerName(names: seq<Name>)

  datatype Hello = Hello(length: Bytes, version: Bytes, random: Bytes, session: Bytes,
                         ciphers: Bytes, compression: Bytes, extensions: seq<Extension>)

  function Two(n: nat): (r: Bytes)
    requires n < 65536
    ensures |r| == 2
  {
    [n / 256, n % 256]
  }

  lemma TwoReads(n: nat)
    requires n < 65536
    ensures U16(Two(n)[0], Two(n)[1]) == n
  {}

  predicate NamesFit(names: seq<Name>) {
    forall i :: 0 <= i < |names| ==> |names[i].text| < 65536
  }

  function EncodeNames(names: seq<Name>): Bytes
    requires NamesFit(names)
  {
    if names == [] then []
    else [names[0].kind] + Two(|names[0].text|) + names[0].text + EncodeNames(names[1..])
  }

  predicate ExtensionFits(x: Extension) {
    match x
    case Other(kind, data) => 0 < kind < 65536 && |data| < 65536
    case ServerName(names) => NamesFit(names) && |EncodeNames(names)| + 2 < 65536
  }

  predicate ExtensionsFit(xs: seq<Extension>) {
    forall i :: 0 <= i < |xs| ==> ExtensionFits(xs[i])
  }

  function EncodeExtension(x: Extension): Bytes
    requires ExtensionFits(x)
  {
    match x
    case Other(kind, data) => Two(kind) + Two(|data|) + data
    case ServerName(names) =>
      var list := EncodeNames(names);
      Two(0) + Two(|list| + 2) + (Two(|list|) + list)
  }

  function EncodeExtensions(xs: seq<Extension>): Bytes
    requires ExtensionsFit(xs)
  {
    if xs == [] then [] else EncodeExtension(xs[0]) + EncodeExtensions(xs[1..])
  }

  predicate Fits(h: Hello) {
    && |h.length| == 3 && |h.version| == 2 && |h.random| == 32
    && |h.session| < 256 && |h.ciphers| < 65536 && |h.compression| < 256
    && ExtensionsFit(h.extensions) && |EncodeExtensions(h.extensions)| < 65536
  }

  function EncodeTail(h: Hello): Bytes
    requires Fits(h)
  {
    var exts := EncodeExtensions(h.extensions);
    [|h.session|] + h.session
    + (Two(|h.ciphers|) + h.ciphers + ([|h.compression|] + h.compression + (Two(|exts|) + exts)))
  }

  function Encode(h: Hello): Bytes
    requires Fits(h)
  {
    [1] + h.length + h.version + h.random + EncodeTail(h)
  }

  // ---------------------------------------------------------------- what should come out

  /** The first host_name of a list. */
  function FirstHost(names: seq<Name>): Bytes {
    if names == [] then [] else if names[0].kind == 0 then names[0].text else FirstHost(names[1..])
  }

  /** The first host_name of the first server_name extension. */
  function ServerNameOf(xs: seq<Extension>): Bytes {
    if xs == [] then []
    else match xs[0]
      case ServerName(names) => FirstHost(names)
      case Other(_, _) => ServerNameOf(xs[1..])
  }

  // ---------------------------------------------------------------- round trip

  lemma Skip8Reads(v: Bytes, rest: Bytes)
    requires |v| < 256
    ensures Skip8([|v|] + v + rest) == Some(rest)
  {
    var s := [|v|] + v + rest;
    assert s[1 + |v|..] == rest;
  }

  lemma Skip16Reads(v: Bytes, rest: Bytes)
    requires |v| < 65536
    ensures Skip16(Two(|v|) + v + rest) == Some(rest)
  {
    var s := Two(|v|) + v + rest;
    TwoReads(|v|);
    assert s[2 + |v|..] == rest;
  }

  lemma OneName(kind: byte, text: Bytes, rest: Bytes)
    requires |text| < 65536
    ensures HostIn([kind] + Two(|text|) + text + rest) == if kind == 0 then text else HostIn(rest)
  {
    var s := [kind] + Two(|text|) + text + rest;
    TwoReads(|text|);
    assert s[0] == kind && s[1] == Two(|text|)[0] && s[2] == Two(|text|)[1];
    assert s[3..3 + |text|] == text && s[3 + |text|..] == rest;
  }

  lemma {:induction false} NamesRoundTrip(names: seq<Name>)
    requires NamesFit(names)
    ensures HostIn(EncodeNames(names)) == FirstHost(names)
  {
    hide HostIn, Two;
    if names == [] {
      NoNames();
    } else {
      NamesRoundTrip(names[1..]);
      OneName(names[0].kind, names[0].text, EncodeNames(names[1..]));
    }
  }

  lemma NoNames()
    ensures HostIn([]) == []
  {}

  lemma OneExtension(kind: nat, data: Bytes, rest: Bytes)
    requires kind < 65536 && |data| < 65536
    ensures HostInExtensions(Two(kind) + Two(|data|) + data + rest)
            == if kind == 0 then HostOfExtension(data) else HostInExtensions(rest)
  {
    hide HostOfExtension, HostInExtensions, Two;
    var s := Two(kind) + Two(|data|) + data + rest;
    ExtensionParts(Two(kind), Two(|data|), data, rest);
    TwoReads(kind);
    TwoReads(|data|);
    assert s[0..|s|] == s && s[4 + |data|..|s|] == rest;
    ExtensionStep(s, 0, |s|);
  }

  lemma ExtensionParts(k: Bytes, n: Bytes, data: Bytes, rest: Bytes)
    requires |k| == |n| == 2
    ensures var s := k + n + data + rest;
            s[0] == k[0] && s[1] == k[1] && s[2] == n[0] && s[3] == n[1]
            && s[4..4 + |data|] == data && s[4 + |data|..] == rest
  {}

  lemma {:induction false} ExtensionsRoundTrip(xs: seq<Extension>)
    requires ExtensionsFit(xs)
    ensures HostInExtensions(EncodeExtensions(xs)) == ServerNameOf(xs)
  {
    hide HostInExtensions, HostOfExtension, Two, FirstHost;
    if xs == [] {
      NoExtensions();
    } else {
      assert ExtensionFits(xs[0]);
      var rest := EncodeExtensions(xs[1..]);
      ExtensionsRoundTrip(xs[1..]);
      match xs[0]
      case Other(kind, data) => OneExtension(kind, data, rest);
      case ServerName(names) =>
        var list := EncodeNames(names);
        ListHost(names);
        OneExtension(0, Two(|list|) + list, rest);
    }
  }

  lemma NoExtensions()
    ensures HostInExtensions([]) == []
  {}

  lemma ListHost(names: seq<Name>)
    requires NamesFit(names) && |EncodeNames(names)| + 2 < 65536
    ensures HostOfExtension(Two(|EncodeNames(names)|) + EncodeNames(names)) == FirstHost(names)
    ensures |Two(|EncodeNames(names)|) + EncodeNames(names)| == |EncodeNames(names)| + 2
  {
    hide HostIn;
    var list := EncodeNames(names);
    assert (Two(|list|) + list)[2..] == list;
    NamesRoundTrip(names);
  }

  /** For every encoded ClientHello, whatever follows its extensions in the message. */
  lemma SniRoundTrip(h: Hello, after: Bytes)
    requires Fits(h)
    ensures Parse(Encode(h) + after) == ServerNameOf(h.extensions)
  {
    hide HostInExtensions, ServerNameOf, EncodeExtensions, AfterRandom, EncodeTail;
    var hs := Encode(h) + after;
    assert hs[0] == 1;
    assert hs[38..] == EncodeTail(h) + after;
    TailRoundTrip(h, after);
  }

  lemma TailRoundTrip(h: Hello, after: Bytes)
    requires Fits(h)
    ensures AfterRandom(EncodeTail(h) + after) == ServerNameOf(h.extensions)
  {
    hide HostInExtensions, ServerNameOf, EncodeExtensions, Skip8, Skip16, ExtensionBytes, Two;
    var exts := EncodeExtensions(h.extensions);
    var c := Two(|exts|) + exts + after;
    var b := [|h.compression|] + h.compression + c;
    var a := Two(|h.ciphers|) + h.ciphers + b;
    var s := [|h.session|] + h.session + a;
    Regroup(h, exts, after);
    Skip8Reads(h.session, a);
    Skip16Reads(h.ciphers, b);
    Skip8Reads(h.compression, c);
    ExtensionBytesRead(exts, after);
    ExtensionsRoundTrip(h.extensions);
  }

  lemma Regroup(h: Hello, exts: Bytes, after: Bytes)
    requires Fits(h) && exts == EncodeExtensions(h.extensions)
    ensures EncodeTail(h) + after
            == [|h.session|] + h.session
               + (Two(|h.ciphers|) + h.ciphers
                  + ([|h.compression|] + h.compression + (Two(|exts|) + exts + after)))
  {
    hide EncodeExtensions, Two;
  }

  lemma ExtensionBytesRead(exts: Bytes, after: Bytes)
    requires |exts| < 65536
    ensures |Two(|exts|) + exts + after| >= 2
    ensures ExtensionBytes(Two(|exts|) + exts + after) == exts
  {
    var s := Two(|exts|) + exts + after;
    TwoReads(|exts|);
    assert s[2..2 + |exts|] == exts;
  }

  /** Peeking at a buffered record: exact up to the size the front accepts, "" beyond it. */
  lemma PeekRoundTrip(h: Hello, version: Bytes, after: Bytes)
    requires Fits(h) && |version| == 2 && |Encode(h)| < 65536
    ensures Peek([0x16] + version + Two(|Encode(h)|) + Encode(h) + after)
            == if |Encode(h)| <= 17 * 1024 then ServerNameOf(h.extensions) else []
  {
    hide Parse, ServerNameOf;
    assert |Encode(h)| >= 38;
    hide Encode;
    var n := |Encode(h)|;
    var s := [0x16] + version + Two(n) + Encode(h) + after;
    TwoReads(n);
    assert s[3] == Two(n)[0] && s[4] == Two(n)[1];
    assert s[5..5 + n] == Encode(h);
    SniRoundTrip(h, []);
    assert Encode(h) + [] == Encode(h);
  }
}
