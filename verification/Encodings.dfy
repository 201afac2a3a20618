/** The byte-level encodings under a cursor, as Python reads them: base64url, and UTF-8, UTF-16 or
    UTF-32 text in which surrogates pass. */
module Encodings {
  import opened Wrappers
  import opened Json
  import opened Texts

  // ---------------------------------------------------------------- base64url (RFC 4648, section 5)

  function Letter(n: nat): char
    requires n < 64
  {
    if n < 26 then 'A' + n as char
    else if n < 52 then 'a' + (n - 26) as char
    else if n < 62 then '0' + (n - 52) as char
    else if n == 62 then '-'
    else '_'
  }

  /** Both alphabets of RFC 4648 are read. */
  function Sextet(c: char): (r: Option<nat>)
    ensures r.Some? ==> r.value < 64
  {
    if 'A' <= c <= 'Z' then Some((c as int) - ('A' as int))
    else if 'a' <= c <= 'z' then Some((c as int) - ('a' as int) + 26)
    else if '0' <= c <= '9' then Some((c as int) - ('0' as int) + 52)
    else if c == '-' || c == '+' then Some(62)
    else if c == '_' || c == '/' then Some(63)
    else None
  }

  lemma LetterRoundTrip(n: nat)
    requires n < 64
    ensures Sextet(Letter(n)) == Some(n) && Letter(n) as int < 128 && Letter(n) != '='
  {}

  predicate AllSextets(ns: seq<nat>) {
    forall i | 0 <= i < |ns| :: ns[i] < 64
  }

  /** The sextets of one to three bytes; a short group is filled up with zero bits. */
  function Sextets(bs: seq<byte>): (r: seq<nat>)
    requires 1 <= |bs| <= 3
    ensures AllSextets(r) && |r| == |bs| + 1
  {
    if |bs| == 1 then [bs[0] as int / 4, bs[0] as int % 4 * 16]
    else if |bs| == 2 then
      [bs[0] as int / 4, bs[0] as int % 4 * 16 + bs[1] as int / 16, bs[1] as int % 16 * 4]
    else
      [bs[0] as int / 4, bs[0] as int % 4 * 16 + bs[1] as int / 16,
       bs[1] as int % 16 * 4 + bs[2] as int / 64, bs[2] as int % 64]
  }

  function Letters(ns: seq<nat>): (r: string)
    requires AllSextets(ns)
    ensures |r| == |ns|
  {
    seq(|ns|, i requires 0 <= i < |ns| => Letter(ns[i]))
  }

  /** `urlsafe_b64encode` with its padding stripped. */
  function Base64(bs: seq<byte>): (r: string)
    ensures 4 * |bs| <= 3 * |r| <= 4 * |bs| + 2
  {
    if bs == [] then []
    else if |bs| < 3 then Letters(Sextets(bs))
    else Letters(Sextets(bs[..3])) + Base64(bs[3..])
  }

  /** The bytes of two to four sextets; spare bits are dropped. */
  function Group(ns: seq<nat>): (r: seq<byte>)
    requires AllSextets(ns) && 2 <= |ns| <= 4
    ensures |r| == |ns| - 1
  {
    [(ns[0] * 4 + ns[1] / 16) as byte]
    + (if |ns| == 2 then []
       else [(ns[1] % 16 * 16 + ns[2] / 4) as byte]
            + (if |ns| == 3 then [] else [(ns[2] % 4 * 64 + ns[3]) as byte]))
  }

  /** `a2b_base64` without strict mode: characters outside the alphabet are skipped, padding that
      completes the pending sextets ends the data, and data must not end inside a group. */
  function Unpad(s: string, pending: seq<nat>, pads: nat): Option<seq<byte>>
    requires AllSextets(pending) && |pending| < 4
    decreases |s|
  {
    if s == [] then
      if pending == [] then Some([]) else None
    else if s[0] == '=' && |pending| >= 2 then
      if |pending| + pads + 1 >= 4 then Some(Group(pending)) else Unpad(s[1..], pending, pads + 1)
    else if Sextet(s[0]).None? then Unpad(s[1..], pending, pads)
    else if |pending| == 3 then
      var rest := Unpad(s[1..], [], 0);
      if rest.None? then None else Some(Group(pending + [Sextet(s[0]).value]) + rest.value)
    else Unpad(s[1..], pending + [Sextet(s[0]).value], 0)
  }

  /** The padding that brings a length to a multiple of four. */
  function Padding(n: nat): string {
    if n % 4 == 0 then "" else if n % 4 == 1 then "===" else if n % 4 == 2 then "==" else "="
  }

  /** `urlsafe_b64decode` of a cursor and its padding. */
  function Unbase64(s: string): Option<seq<byte>> {
    if Ascii(s) then Unpad(s + Padding(|s|), [], 0) else None
  }

  lemma OneLetter(n: nat, s: string, pending: seq<nat>, pads: nat)
    requires n < 64 && AllSextets(pending) && |pending| < 4
    ensures Unpad([Letter(n)] + s, pending, pads)
         == if |pending| < 3 then Unpad(s, pending + [n], 0)
            else if Unpad(s, [], 0).None? then None
            else Some(Group(pending + [n]) + Unpad(s, [], 0).value)
  {
    LetterRoundTrip(n);
    assert ([Letter(n)] + s)[1..] == s;
  }

  lemma {:induction false} SomeLetters(ns: seq<nat>, s: string, pending: seq<nat>)
    requires AllSextets(ns) && AllSextets(pending) && |ns| + |pending| < 4
    ensures ns != [] ==> Unpad(Letters(ns) + s, pending, 0) == Unpad(s, pending + ns, 0)
    decreases |ns|
  {
    if ns != [] {
      var later := Letters(ns[1..]) + s;
      assert Letters(ns) + s == [Letter(ns[0])] + later;
      OneLetter(ns[0], later, pending, 0);
      assert pending + [ns[0]] + ns[1..] == pending + ns;
      if |ns| == 1 {
        assert later == s && pending + [ns[0]] == pending + ns;
      } else {
        SomeLetters(ns[1..], s, pending + [ns[0]]);
      }
    }
  }

  lemma FourLetters(ns: seq<nat>, s: string)
    requires AllSextets(ns) && |ns| == 4 && Unpad(s, [], 0).Some?
    ensures Unpad(Letters(ns) + s, [], 0) == Some(Group(ns) + Unpad(s, [], 0).value)
  {
    var later := [Letter(ns[3])] + s;
    assert Letters(ns) + s == Letters(ns[..3]) + later;
    SomeLetters(ns[..3], later, []);
    assert [] + ns[..3] == ns[..3] && ns[..3] + [ns[3]] == ns;
    OneLetter(ns[3], s, ns[..3], 0);
  }

  lemma GroupOfSextets(bs: seq<byte>)
    requires 1 <= |bs| <= 3
    ensures Group(Sextets(bs)) == bs
  {
    var a, b := bs[0] as int, if |bs| > 1 then bs[1] as int else 0;
    assert (a % 4 * 16 + b / 16) / 16 == a % 4 && (a % 4 * 16 + b / 16) % 16 == b / 16;
    var c := if |bs| > 2 then bs[2] as int else 0;
    assert (b % 16 * 4 + c / 64) / 4 == b % 16 && (b % 16 * 4 + c / 64) % 4 == c / 64;
  }

  /** Padding completes a group of two or three. */
  lemma PaddingEnds(ns: seq<nat>)
    requires AllSextets(ns) && 2 <= |ns| <= 3
    ensures Unpad(Padding(|ns|), ns, 0) == Some(Group(ns))
  {
    if |ns| == 2 {
      assert "=="[1..] == "=";
    }
  }

  lemma ShortGroup(bs: seq<byte>, ns: seq<nat>)
    requires 1 <= |bs| <= 2 && ns == Sextets(bs)
    ensures Unpad(Letters(ns) + Padding(|ns|), [], 0) == Some(bs)
  {
    SomeLetters(ns, Padding(|ns|), []);
    assert [] + ns == ns;
    PaddingEnds(ns);
    GroupOfSextets(bs);
  }

  lemma FullGroup(bs: seq<byte>, ns: seq<nat>, letters: string, padding: string)
    requires |bs| >= 3 && ns == Sextets(bs[..3])
    requires Unpad(letters + padding, [], 0) == Some(bs[3..])
    ensures Unpad(Letters(ns) + letters + padding, [], 0) == Some(bs)
  {
    Associate(Letters(ns), letters, padding);
    FourLetters(ns, letters + padding);
    GroupOfSextets(bs[..3]);
    assert bs == bs[..3] + bs[3..];
  }

  lemma {:induction false} UnpadBase64(bs: seq<byte>, letters: string, padding: string)
    requires letters == Base64(bs) && padding == Padding(|letters|)
    ensures Unpad(letters + padding, [], 0) == Some(bs)
    decreases |bs|
  {
    if |bs| == 0 {
    } else if |bs| < 3 {
      ShortGroup(bs, Sextets(bs));
    } else {
      var later := Base64(bs[3..]);
      SamePadding(|later|);
      UnpadBase64(bs[3..], later, padding);
      FullGroup(bs, Sextets(bs[..3]), later, padding);
    }
  }

  lemma SamePadding(n: nat)
    ensures Padding(n + 4) == Padding(n)
  {}

  lemma {:induction false} Base64Ascii(bs: seq<byte>)
    ensures Ascii(Base64(bs))
    decreases |bs|
  {
    if |bs| >= 3 {
      Base64Ascii(bs[3..]);
    }
    if bs != [] {
      LettersAscii(Sextets(if |bs| < 3 then bs else bs[..3]));
    }
  }

  lemma LettersAscii(ns: seq<nat>)
    requires AllSextets(ns)
    ensures Ascii(Letters(ns))
  {
    forall i | 0 <= i < |ns| ensures Letters(ns)[i] as int < 128 {
      LetterRoundTrip(ns[i]);
    }
  }

  lemma Base64RoundTrip(bs: seq<byte>)
    ensures Unbase64(Base64(bs)) == Some(bs)
  {
    Base64Ascii(bs);
    UnpadBase64(bs, Base64(bs), Padding(|Base64(bs)|));
  }

  /** The characters that can hold data. */
  function Unpadded(s: string): nat {
    if s == [] then 0 else (if s[0] == '=' then 0 else 1) + Unpadded(s[1..])
  }

  lemma {:induction false} UnpadSize(s: string, pending: seq<nat>, pads: nat)
    requires AllSextets(pending) && |pending| < 4
    ensures var bytes := Unpad(s, pending, pads);
      bytes.Some? ==> 4 * |bytes.value| <= 3 * (|pending| + Unpadded(s))
    decreases |s|
  {
    if s == [] {
    } else if s[0] == '=' && |pending| >= 2 {
      if |pending| + pads + 1 < 4 {
        UnpadSize(s[1..], pending, pads + 1);
      }
    } else if Sextet(s[0]).None? {
      UnpadSize(s[1..], pending, pads);
    } else if |pending| == 3 {
      UnpadSize(s[1..], [], 0);
    } else {
      UnpadSize(s[1..], pending + [Sextet(s[0]).value], 0);
    }
  }

  lemma {:induction false} UnpaddedAppend(s: string, padding: string)
    requires forall i | 0 <= i < |padding| :: padding[i] == '='
    ensures Unpadded(s + padding) <= |s|
    decreases |s|, |padding|
  {
    if s != [] {
      assert (s + padding)[1..] == s[1..] + padding;
      UnpaddedAppend(s[1..], padding);
    } else if padding != [] {
      assert s + padding == padding && [] + padding[1..] == padding[1..];
      UnpaddedAppend(s, padding[1..]);
    } else {
      assert s + padding == [];
    }
  }

  /** Four characters hold at most three bytes, whatever is skipped. */
  lemma DecodedLength(s: string)
    requires Unbase64(s).Some?
    ensures 4 * |Unbase64(s).value| <= 3 * |s|
  {
    UnpadSize(s + Padding(|s|), [], 0);
    UnpaddedAppend(s, Padding(|s|));
  }

  // ---------------------------------------------------------------- UTF-8

  predicate Continues(b: byte) {
    0x80 <= b as int < 0xC0
  }

  /** The code point that a UTF-8 text starts with, and its width; surrogates pass. */
  function Utf8First(bs: seq<byte>): (r: Option<(Code, nat)>)
    ensures r.Some? ==> 0 < r.value.1 <= |bs| && Width(r.value.0) <= r.value.1
  {
    if bs == [] then None
    else
      var a := bs[0] as int;
      if a < 0x80 then Some((a, 1))
      else if 0xC2 <= a < 0xE0 && |bs| >= 2 && Continues(bs[1]) then
        Some((a % 0x20 * 0x40 + bs[1] as int % 0x40, 2))
      else if 0xE0 <= a < 0xF0 && |bs| >= 3 && Continues(bs[1]) && Continues(bs[2]) then
        var n := a % 0x10 * 0x1000 + bs[1] as int % 0x40 * 0x40 + bs[2] as int % 0x40;
        if n < 0x800 then None else Some((n, 3))
      else if 0xF0 <= a < 0xF5 && |bs| >= 4 && Continues(bs[1]) && Continues(bs[2]) && Continues(bs[3]) then
        var n := a % 8 * 0x40000 + bs[1] as int % 0x40 * 0x1000
                 + bs[2] as int % 0x40 * 0x40 + bs[3] as int % 0x40;
        if n < 0x10000 || n >= 0x110000 then None else Some((n, 4))
      else None
  }

  function Utf8Decode(bs: seq<byte>): Option<Text>
    decreases |bs|
  {
    if bs == [] then Some([])
    else
      var first := Utf8First(bs);
      if first.None? then None
      else
        var rest := Utf8Decode(bs[first.value.1..]);
        if rest.None? then None else Some([first.value.0] + rest.value)
  }

  lemma Utf8FirstOfChar(c: char, rest: seq<byte>)
    ensures Utf8First(Utf8Char(c) + rest) == Some((c as Code, |Utf8Char(c)|))
  {
    if c as int < 0x800 {
      ShortFirst(c, rest);
    } else {
      LongFirst(c, rest);
    }
  }

  lemma ShortFirst(c: char, rest: seq<byte>)
    requires c as int < 0x800
    ensures Utf8First(Utf8Char(c) + rest) == Some((c as Code, |Utf8Char(c)|))
  {
    if c as int >= 0x80 {
      TwoBytes(c as int);
    }
  }

  lemma LongFirst(c: char, rest: seq<byte>)
    requires c as int >= 0x800
    ensures Utf8First(Utf8Char(c) + rest) == Some((c as Code, |Utf8Char(c)|))
  {
    if c as int < 0x10000 {
      ThreeBytes(c as int);
    } else {
      FourBytes(c as int);
    }
  }

  lemma TwoBytes(n: nat)
    requires 0x80 <= n < 0x800
    ensures var a, b := 0xC0 + n / 0x40, 0x80 + n % 0x40;
      0xC2 <= a < 0xE0 && 0x80 <= b < 0xC0 && a % 0x20 * 0x40 + b % 0x40 == n
  {}

  lemma ThreeBytes(n: nat)
    requires 0x800 <= n < 0x10000
    ensures var a, b, c := 0xE0 + n / 0x1000, 0x80 + n / 0x40 % 0x40, 0x80 + n % 0x40;
      && 0xE0 <= a < 0xF0 && 0x80 <= b < 0xC0 && 0x80 <= c < 0xC0
      && a % 0x10 * 0x1000 + b % 0x40 * 0x40 + c % 0x40 == n
  {
    var m := n / 0x40;
    assert n / 0x1000 == m / 0x40;
    assert (0xE0 + m / 0x40) % 0x10 == m / 0x40;
  }

  lemma FourBytes(n: nat)
    requires 0x10000 <= n < 0x110000
    ensures var a, b, c, d :=
        0xF0 + n / 0x40000, 0x80 + n / 0x1000 % 0x40, 0x80 + n / 0x40 % 0x40, 0x80 + n % 0x40;
      && 0xF0 <= a < 0xF5 && 0x80 <= b < 0xC0 && 0x80 <= c < 0xC0 && 0x80 <= d < 0xC0
      && a % 8 * 0x40000 + b % 0x40 * 0x1000 + c % 0x40 * 0x40 + d % 0x40 == n
  {
    var m := n / 0x40;
    var k := m / 0x40;
    assert n == m * 0x40 + n % 0x40 && m == k * 0x40 + m % 0x40 && k == k / 0x40 * 0x40 + k % 0x40;
    assert n / 0x1000 == k && n / 0x40000 == k / 0x40;
    assert (0xF0 + k / 0x40) % 8 == k / 0x40;
  }

  lemma Utf8Step(bs: seq<byte>, c: Code, w: nat, rest: seq<byte>, t: Text)
    requires Utf8First(bs) == Some((c, w)) && w <= |bs| && bs[w..] == rest && Utf8Decode(rest) == Some(t)
    ensures Utf8Decode(bs) == Some([c] + t)
  {}

  lemma {:induction false} Utf8RoundTrip(s: string)
    ensures Utf8Decode(Utf8(s)) == Some(Codes(s))
  {
    if s != [] {
      var first, rest := Utf8Char(s[0]), Utf8(s[1..]);
      Utf8RoundTrip(s[1..]);
      Utf8FirstOfChar(s[0], rest);
      assert (first + rest)[|first|..] == rest;
      Utf8Step(first + rest, s[0] as Code, |first|, rest, Codes(s[1..]));
      assert Codes(s) == [s[0] as Code] + Codes(s[1..]);
    }
  }

  /** Decoded text never takes more bytes again. */
  lemma {:induction false} Utf8Weight(bs: seq<byte>)
    ensures Utf8Decode(bs).Some? ==> Weight(Utf8Decode(bs).value) <= |bs|
    decreases |bs|
  {
    if bs != [] && Utf8Decode(bs).Some? {
      var first := Utf8First(bs).value;
      Utf8Weight(bs[first.1..]);
      var rest := Utf8Decode(bs[first.1..]).value;
      assert ([first.0] + rest)[1..] == rest;
    }
  }

  // ---------------------------------------------------------------- UTF-16 and UTF-32

  /** A byte order. */
  datatype Order = Big | Little

  function Unit(order: Order, a: byte, b: byte): (r: nat)
    ensures r < 0x10000
  {
    match order
    case Big => a as int * 0x100 + b as int
    case Little => b as int * 0x100 + a as int
  }

  predicate High(n: nat) {
    0xD800 <= n < 0xDC00
  }

  predicate Low(n: nat) {
    0xDC00 <= n < 0xE000
  }

  function Pair(high: nat, low: nat): Code
    requires High(high) && Low(low)
  {
    0x10000 + (high - 0xD800) * 0x400 + (low - 0xDC00)
  }

  /** A surrogate that is not half of a pair passes. */
  function Utf16Decode(order: Order, bs: seq<byte>): Option<Text>
    decreases |bs|
  {
    if bs == [] then Some([])
    else if |bs| == 1 then None
    else
      var n := Unit(order, bs[0], bs[1]);
      if High(n) && |bs| >= 4 && Low(Unit(order, bs[2], bs[3])) then
        var rest := Utf16Decode(order, bs[4..]);
        if rest.None? then None else Some([Pair(n, Unit(order, bs[2], bs[3]))] + rest.value)
      else
        var rest := Utf16Decode(order, bs[2..]);
        if rest.None? then None else Some([n] + rest.value)
  }

  function Utf32Decode(order: Order, bs: seq<byte>): Option<Text>
    decreases |bs|
  {
    if bs == [] then Some([])
    else if |bs| < 4 then None
    else
      var n := match order
        case Big => Unit(Big, bs[0], bs[1]) * 0x10000 + Unit(Big, bs[2], bs[3])
        case Little => Unit(Little, bs[2], bs[3]) * 0x10000 + Unit(Little, bs[0], bs[1]);
      var rest := Utf32Decode(order, bs[4..]);
      if n >= 0x11_0000 || rest.None? then None else Some([n] + rest.value)
  }

  lemma {:induction false} Utf32Weight(order: Order, bs: seq<byte>)
    ensures Utf32Decode(order, bs).Some? ==> Weight(Utf32Decode(order, bs).value) <= |bs|
    decreases |bs|
  {
    if |bs| >= 4 && Utf32Decode(order, bs).Some? {
      Utf32Weight(order, bs[4..]);
      assert Utf32Decode(order, bs).value[1..] == Utf32Decode(order, bs[4..]).value;
    }
  }

  /** A code point of two bytes can take three in UTF-8. */
  lemma {:induction false} Utf16Weight(order: Order, bs: seq<byte>)
    ensures Utf16Decode(order, bs).Some? ==> 2 * Weight(Utf16Decode(order, bs).value) <= 3 * |bs|
    decreases |bs|
  {
    if |bs| >= 2 && Utf16Decode(order, bs).Some? {
      var n := Unit(order, bs[0], bs[1]);
      var w := if High(n) && |bs| >= 4 && Low(Unit(order, bs[2], bs[3])) then 4 else 2;
      Utf16Weight(order, bs[w..]);
      assert Utf16Decode(order, bs).value[1..] == Utf16Decode(order, bs[w..]).value;
    }
  }

  function Utf16Le(t: Text): (r: seq<byte>)
    requires forall i | 0 <= i < |t| :: t[i] < 0x10000
    ensures |r| == 2 * |t|
  {
    if t == [] then [] else [(t[0] % 0x100) as byte, (t[0] / 0x100) as byte] + Utf16Le(t[1..])
  }

  lemma {:induction false} Utf16RoundTrip(t: Text)
    requires Scalars(t) && forall i | 0 <= i < |t| :: t[i] < 0x10000
    ensures Utf16Decode(Little, Utf16Le(t)) == Some(t)
  {
    if t != [] {
      Utf16RoundTrip(t[1..]);
      var bs := Utf16Le(t);
      assert bs[2..] == Utf16Le(t[1..]);
      assert Unit(Little, bs[0], bs[1]) == t[0];
      assert !Surrogate(t[0]) && !High(t[0]);
      assert t == [t[0]] + t[1..];
    }
  }

  // ---------------------------------------------------------------- which encoding

  datatype Encoding = Utf8Plain | Utf8Signed | Utf16(order: Order, signed: bool) | Utf32(order: Order, signed: bool)

  predicate Starts(bs: seq<byte>, prefix: seq<byte>) {
    |bs| >= |prefix| && bs[..|prefix|] == prefix
  }

  /** `json.detect_encoding`: a byte order mark decides, then where the zero bytes are. */
  function Detect(bs: seq<byte>): Encoding {
    if Starts(bs, [0, 0, 0xFE, 0xFF]) then Utf32(Big, true)
    else if Starts(bs, [0xFF, 0xFE, 0, 0]) then Utf32(Little, true)
    else if Starts(bs, [0xFE, 0xFF]) then Utf16(Big, true)
    else if Starts(bs, [0xFF, 0xFE]) then Utf16(Little, true)
    else if Starts(bs, [0xEF, 0xBB, 0xBF]) then Utf8Signed
    else if |bs| >= 4 && bs[0] == 0 then
      if bs[1] != 0 then Utf16(Big, false) else Utf32(Big, false)
    else if |bs| >= 4 && bs[1] == 0 then
      if bs[2] != 0 || bs[3] != 0 then Utf16(Little, false) else Utf32(Little, false)
    else if |bs| == 2 && bs[0] == 0 then Utf16(Big, false)
    else if |bs| == 2 && bs[1] == 0 then Utf16(Little, false)
    else Utf8Plain
  }

  /** The text that `json.loads` reads from bytes, a byte order mark taken off. */
  function DecodeText(bs: seq<byte>): Option<Text> {
    match Detect(bs)
    case Utf8Plain => Utf8Decode(bs)
    case Utf8Signed => Utf8Decode(bs[3..])
    case Utf16(order, signed) => Utf16Decode(order, if signed then bs[2..] else bs)
    case Utf32(order, signed) => Utf32Decode(order, if signed then bs[4..] else bs)
  }

  /** Only out of UTF-16 can text take more bytes in UTF-8, and then at most half as many again. */
  lemma DecodedWeight(bs: seq<byte>)
    requires DecodeText(bs).Some?
    ensures 2 * Weight(DecodeText(bs).value) <= 3 * |bs|
    ensures !Detect(bs).Utf16? ==> Weight(DecodeText(bs).value) <= |bs|
  {
    match Detect(bs) {
      case Utf8Plain => Utf8Weight(bs);
      case Utf8Signed => Utf8Weight(bs[3..]);
      case Utf16(order, signed) => Utf16Weight(order, if signed then bs[2..] else bs);
      case Utf32(order, signed) => Utf32Weight(order, if signed then bs[4..] else bs);
    }
  }
}
