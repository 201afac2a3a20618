/** `json.loads` on text that may hold surrogates: white space, nesting, floats, literals and repeated
    keys as Python reads them, and how much room what was read takes when it is written again.
    Lists, floats and literals all read as one other value; the limit on nesting is left out. */
module JsonReader {
  import opened Wrappers
  import opened Json
  import opened Texts

  datatype Value = IntVal(n: int) | TextVal(t: Text) | Object(members: map<Text, Value>) | Other

  const QUOTE: Code := 34
  const BACKSLASH: Code := 92
  const SLASH: Code := 47
  const COLON: Code := 58
  const COMMA: Code := 44
  const OPEN_BRACE: Code := 123
  const CLOSE_BRACE: Code := 125
  const OPEN_BRACKET: Code := 91
  const CLOSE_BRACKET: Code := 93
  const MINUS: Code := 45
  const PLUS: Code := 43
  const POINT: Code := 46
  const LETTER_U: Code := 117
  const ZERO: Code := 48

  // ---------------------------------------------------------------- strings

  function HexValue(c: Code): (r: Option<nat>)
    ensures r.Some? ==> r.value < 16
  {
    if ZERO <= c <= ZERO + 9 then Some(c - ZERO)
    else if 97 <= c <= 102 then Some(c - 87)
    else if 65 <= c <= 70 then Some(c - 55)
    else None
  }

  function Unicode(t: Text): (r: Option<nat>)
    requires |t| == 4
    ensures r.Some? ==> r.value < 0x10000
  {
    var a, b, c, d := HexValue(t[0]), HexValue(t[1]), HexValue(t[2]), HexValue(t[3]);
    if a.None? || b.None? || c.None? || d.None? then None
    else Some(a.value * 4096 + b.value * 256 + c.value * 16 + d.value)
  }

  /** A `\uXXXX` escape and its number. */
  function HexEscape(t: Text): (r: Option<nat>)
    ensures r.Some? ==> |t| >= 6 && r.value < 0x10000
  {
    if |t| >= 6 && t[0] == BACKSLASH && t[1] == LETTER_U then Unicode(t[2..6]) else None
  }

  /** The letters of the two-character escapes: quote, backslash, slash, b, f, n, r, t. */
  function Short(c: Code): Option<Code> {
    if c == QUOTE || c == BACKSLASH || c == SLASH then Some(c)
    else if c == 98 then Some(8)
    else if c == 102 then Some(12)
    else if c == 110 then Some(10)
    else if c == 114 then Some(13)
    else if c == 116 then Some(9)
    else None
  }

  /** One backslash escape: the code point it stands for and its width. A high surrogate joins a low
      one escaped right behind it; any other surrogate stands for itself. */
  function ReadEscape(t: Text): (r: Option<(Code, nat)>)
    ensures r.Some? ==> 2 <= r.value.1 <= |t|
  {
    if |t| < 2 || t[0] != BACKSLASH then None
    else if t[1] != LETTER_U then
      if Short(t[1]).None? then None else Some((Short(t[1]).value, 2))
    else
      var n := HexEscape(t);
      if n.None? then None
      else
        var low := HexEscape(t[6..]);
        if 0xD800 <= n.value < 0xDC00 && low.Some? && 0xDC00 <= low.value < 0xE000 then
          Some((0x10000 + (n.value - 0xD800) * 0x400 + (low.value - 0xDC00), 12))
        else Some((n.value, 6))
  }

  /** The rest of a string after its opening quote, and what follows the closing one. */
  function ReadChars(t: Text): (r: Option<(Text, Text)>)
    ensures r.Some? ==> |r.value.1| < |t|
    decreases |t|
  {
    if t == [] || t[0] < 32 then None
    else if t[0] == QUOTE then Some(([], t[1..]))
    else if t[0] == BACKSLASH then
      var e := ReadEscape(t);
      if e.None? then None
      else
        var rest := ReadChars(t[e.value.1..]);
        if rest.None? then None else Some(([e.value.0] + rest.value.0, rest.value.1))
    else
      var rest := ReadChars(t[1..]);
      if rest.None? then None else Some(([t[0]] + rest.value.0, rest.value.1))
  }

  // ---------------------------------------------------------------- numbers and literals

  predicate IsDigit(c: Code) {
    ZERO <= c <= ZERO + 9
  }

  function SkipDigits(t: Text): (r: Text)
    ensures |r| <= |t|
  {
    if t != [] && IsDigit(t[0]) then SkipDigits(t[1..]) else t
  }

  function ReadDigits(t: Text, n: nat): (r: (nat, Text))
    ensures |r.1| <= |t|
  {
    if t == [] || !IsDigit(t[0]) then (n, t) else ReadDigits(t[1..], 10 * n + (t[0] - ZERO))
  }

  /** A JSON integer: an optional minus, then digits without a leading zero. */
  function ReadInt(t: Text): (r: Option<(int, Text)>)
    ensures r.Some? ==> |r.value.1| < |t|
  {
    var negative := t != [] && t[0] == MINUS;
    var u := if negative then t[1..] else t;
    if u == [] || !IsDigit(u[0]) then None
    else
      var number := if u[0] == ZERO then (0, u[1..]) else ReadDigits(u[1..], u[0] - ZERO);
      var n: int := number.0;
      Some((if negative then -n else n, number.1))
  }

  /** What is left behind a fraction, if there is one. */
  function Fraction(t: Text): (r: Text)
    ensures |r| <= |t|
  {
    if |t| >= 2 && t[0] == POINT && IsDigit(t[1]) then SkipDigits(t[2..]) else t
  }

  /** What is left behind an exponent, if there is one. */
  function Exponent(t: Text): (r: Text)
    ensures |r| <= |t|
  {
    var sign := if |t| >= 2 && (t[1] == PLUS || t[1] == MINUS) then 2 else 1;
    if |t| > sign && (t[0] == 101 || t[0] == 69) && IsDigit(t[sign]) then SkipDigits(t[sign + 1..]) else t
  }

  function ReadNumber(t: Text): (r: Option<(Value, Text)>)
    ensures r.Some? ==> |r.value.1| < |t|
  {
    var n := ReadInt(t);
    if n.None? then None
    else
      var rest := Exponent(Fraction(n.value.1));
      if rest == n.value.1 then Some((IntVal(n.value.0), rest)) else Some((Other, rest))
  }

  const LITERALS := ["null", "true", "false", "NaN", "Infinity", "-Infinity"]

  predicate StartsWith(t: Text, word: string) {
    |word| <= |t| && forall i | 0 <= i < |word| :: t[i] == word[i] as Code
  }

  /** The literal a text starts with, as its length. */
  function LiteralAt(t: Text, words: seq<string>): (r: nat)
    ensures r <= |t|
  {
    if words == [] then 0
    else if StartsWith(t, words[0]) then |words[0]|
    else LiteralAt(t, words[1..])
  }

  // ---------------------------------------------------------------- values

  predicate Space(c: Code) {
    c == 32 || c == 9 || c == 10 || c == 13
  }

  function Skip(t: Text): (r: Text)
    ensures |r| <= |t|
  {
    if t != [] && Space(t[0]) then Skip(t[1..]) else t
  }

  function ReadValue(t: Text): (r: Option<(Value, Text)>)
    ensures r.Some? ==> |r.value.1| < |t|
    decreases |t|, 1
  {
    if t == [] then None
    else if t[0] == QUOTE then
      var s := ReadChars(t[1..]);
      if s.None? then None else Some((TextVal(s.value.0), s.value.1))
    else if t[0] == OPEN_BRACE then
      var u := Skip(t[1..]);
      if u != [] && u[0] == CLOSE_BRACE then Some((Object(map[]), u[1..]))
      else
        var o := ReadMembers(u, map[]);
        if o.None? then None else Some((Object(o.value.0), o.value.1))
    else if t[0] == OPEN_BRACKET then
      var u := Skip(t[1..]);
      if u != [] && u[0] == CLOSE_BRACKET then Some((Other, u[1..]))
      else
        var rest := ReadElements(u);
        if rest.None? then None else Some((Other, rest.value))
    else
      var w := LiteralAt(t, LITERALS);
      if w > 0 then Some((Other, t[w..])) else ReadNumber(t)
  }

  /** The members up to the closing brace; a later key wins. */
  function ReadMembers(t: Text, m: map<Text, Value>): (r: Option<(map<Text, Value>, Text)>)
    ensures r.Some? ==> |r.value.1| < |t|
    decreases |t|, 2
  {
    if t == [] || t[0] != QUOTE then None
    else
      var key := ReadChars(t[1..]);
      var u := if key.None? then [] else Skip(key.value.1);
      if u == [] || u[0] != COLON then None
      else
        var value := ReadValue(Skip(u[1..]));
        var w := if value.None? then [] else Skip(value.value.1);
        if w == [] then None
        else
          var m' := m[key.value.0 := value.value.0];
          if w[0] == CLOSE_BRACE then Some((m', w[1..]))
          else if w[0] == COMMA then ReadMembers(Skip(w[1..]), m')
          else None
  }

  /** What follows the elements of a list and its closing bracket. */
  function ReadElements(t: Text): (r: Option<Text>)
    ensures r.Some? ==> |r.value| < |t|
    decreases |t|, 2
  {
    var value := ReadValue(t);
    var w := if value.None? then [] else Skip(value.value.1);
    if w == [] then None
    else if w[0] == CLOSE_BRACKET then Some(w[1..])
    else if w[0] == COMMA then ReadElements(Skip(w[1..]))
    else None
  }

  /** `json.loads`. */
  function Loads(t: Text): Option<Value> {
    var v := ReadValue(Skip(t));
    if v.Some? && Skip(v.value.1) == [] then Some(v.value.0) else None
  }

  // ---------------------------------------------------------------- what was written is read back

  lemma HexEscapeOf(n: nat, t: Text)
    requires n < 32
    requires |t| >= 6 && t[0] == BACKSLASH && t[1] == LETTER_U && t[2] == ZERO && t[3] == ZERO
    requires t[4] == HexDigit(n / 16) as nat && t[5] == HexDigit(n % 16) as nat
    ensures HexEscape(t) == Some(n)
  {
    assert HexValue(t[4]) == Some(n / 16) && HexValue(t[5]) == Some(n % 16);
  }

  lemma ReadEscapeOf(c: char, rest: Text)
    requires EscapeChar(c) != [c]
    ensures ReadEscape(Codes(EscapeChar(c)) + rest) == Some((c as Code, |EscapeChar(c)|))
    ensures Codes(EscapeChar(c))[0] == BACKSLASH
  {
    var t := Codes(EscapeChar(c)) + rest;
    if |EscapeChar(c)| == 6 {
      HexEscapeOf(c as nat, t);
    }
  }

  /** One written character in front of a text that is read back. */
  lemma ReadCharOf(c: char, later: Text, s: Text, rest: Text)
    requires ReadChars(later) == Some((s, rest))
    ensures ReadChars(Codes(EscapeChar(c)) + later) == Some(([c as Code] + s, rest))
  {
    var t := Codes(EscapeChar(c)) + later;
    assert t[|EscapeChar(c)|..] == later;
    if EscapeChar(c) != [c] {
      ReadEscapeOf(c, later);
    }
  }

  lemma {:induction false} ReadBody(s: string, tail: Text, rest: Text)
    requires ReadChars(tail) == Some(([], rest))
    ensures ReadChars(Codes(Escape(s)) + tail) == Some((Codes(s), rest))
  {
    if s == [] {
      assert Codes(Escape(s)) + tail == tail;
    } else {
      CodesAppend(EscapeChar(s[0]), Escape(s[1..]));
      Associate(Codes(EscapeChar(s[0])), Codes(Escape(s[1..])), tail);
      assert Codes(s) == [s[0] as Code] + Codes(s[1..]);
      ReadBody(s[1..], tail, rest);
      ReadCharOf(s[0], Codes(Escape(s[1..])) + tail, Codes(s[1..]), rest);
    }
  }

  lemma QuotedCodes(s: string, e: string, rest: Text)
    requires s == "\"" + e + "\""
    ensures Codes(s) + rest == [QUOTE] + (Codes(e) + ([QUOTE] + rest))
  {
    assert Codes(s) == [QUOTE] + Codes(e) + [QUOTE];
  }

  lemma ReadQuoted(s: string, rest: Text)
    ensures var t := Codes(Quote(s)) + rest; t[0] == QUOTE && ReadChars(t[1..]) == Some((Codes(s), rest))
  {
    var tail := [QUOTE] + rest;
    assert tail[1..] == rest;
    ReadBody(s, tail, rest);
    QuotedCodes(Quote(s), Escape(s), rest);
    assert ([QUOTE] + (Codes(Escape(s)) + tail))[1..] == Codes(Escape(s)) + tail;
  }

  /** A comma or a closing brace, which no number goes on with. */
  predicate Ends(t: Text) {
    t != [] && (t[0] == COMMA || t[0] == CLOSE_BRACE)
  }

  lemma {:induction false} DigitsStart(n: nat)
    ensures n > 0 ==> Digits(n)[0] != '0'
    ensures IsDigit(Digits(n)[0] as Code)
  {
    if n >= 10 {
      DigitsStart(n / 10);
    }
  }

  lemma {:induction false} ReadDigitsOf(n: nat, rest: Text)
    ensures ReadDigits(Codes(Digits(n)) + rest, 0) == ReadDigits(rest, n)
  {
    var last := [Digit(n % 10)];
    var later := Codes(last) + rest;
    assert later[0] == ZERO + n % 10 && later[1..] == rest;
    if n < 10 {
      assert Codes(Digits(n)) + rest == later;
    } else {
      ReadDigitsOf(n / 10, later);
      CodesAppend(Digits(n / 10), last);
      Associate(Codes(Digits(n / 10)), Codes(last), rest);
    }
  }

  lemma ReadNatural(n: nat, rest: Text)
    requires Ends(rest)
    ensures var u := Codes(Digits(n)) + rest;
      IsDigit(u[0])
      && (if u[0] == ZERO then (0, u[1..]) else ReadDigits(u[1..], u[0] - ZERO)) == (n, rest)
  {
    var u := Codes(Digits(n)) + rest;
    ReadDigitsOf(n, rest);
    DigitsStart(n);
    if n == 0 {
      assert u[1..] == rest;
    } else {
      assert ReadDigits(u, 0) == ReadDigits(u[1..], u[0] - ZERO);
    }
  }

  lemma ReadDecimal(n: int, rest: Text)
    requires Ends(rest)
    ensures ReadInt(Codes(Decimal(n)) + rest) == Some((n, rest)) && Numeric(Codes(Decimal(n)) + rest)
  {
    if n >= 0 {
      ReadNatural(n, rest);
    } else {
      ReadNatural(-n, rest);
      NegativeCodes(Digits(-n), rest);
    }
  }

  lemma NegativeCodes(digits: string, rest: Text)
    ensures Codes("-" + digits) + rest == [MINUS] + (Codes(digits) + rest)
    ensures ([MINUS] + (Codes(digits) + rest))[1..] == Codes(digits) + rest
  {
    CodesAppend("-", digits);
    assert Codes("-") == [MINUS];
    Associate([MINUS], Codes(digits), rest);
  }

  predicate Numeric(t: Text) {
    t != [] && (IsDigit(t[0]) || (|t| >= 2 && t[0] == MINUS && IsDigit(t[1])))
  }

  predicate Wordy(word: string) {
    |word| >= 2 && !IsDigit(word[0] as Code) && !IsDigit(word[1] as Code)
  }

  lemma {:induction false} NoLiteral(t: Text, words: seq<string>)
    requires Numeric(t) && forall i | 0 <= i < |words| :: Wordy(words[i])
    ensures LiteralAt(t, words) == 0
  {
    if words != [] {
      NotAt(t, words[0]);
      NoLiteral(t, words[1..]);
    }
  }

  lemma NotAt(t: Text, word: string)
    requires Numeric(t) && Wordy(word)
    ensures !StartsWith(t, word)
  {
    var first, second := word[0], word[1];
  }

  /** A text that stands for a value in front of a comma or a closing brace. */
  ghost predicate Reads(text: string, v: Value) {
    && text != "" && !Space(text[0] as Code)
    && forall tail: Text | Ends(tail) :: ReadValue(Codes(text) + tail) == Some((v, tail))
  }

  lemma ReadsInt(n: int)
    ensures Reads(Decimal(n), IntVal(n))
  {
    forall tail: Text | Ends(tail) ensures ReadValue(Codes(Decimal(n)) + tail) == Some((IntVal(n), tail)) {
      ReadDecimal(n, tail);
      NoLiteral(Codes(Decimal(n)) + tail, LITERALS);
    }
    ReadDecimal(n, [COMMA]);
    assert (Codes(Decimal(n)) + [COMMA])[0] == Decimal(n)[0] as Code;
  }

  lemma ReadsText(s: string)
    ensures Reads(Quote(s), TextVal(Codes(s)))
  {
    forall tail: Text | Ends(tail) ensures ReadValue(Codes(Quote(s)) + tail) == Some((TextVal(Codes(s)), tail)) {
      ReadQuoted(s, tail);
    }
  }

  lemma MemberCodes(key: string, text: string, tail: Text)
    ensures Codes(key + ":" + text) + tail == Codes(key) + ([COLON] + (Codes(text) + tail))
  {
    assert Codes(key + ":" + text) == Codes(key) + [COLON] + Codes(text);
  }

  /** One member and what follows its value. */
  lemma ReadMember(key: string, text: string, v: Value, tail: Text, m: map<Text, Value>)
    requires Reads(text, v) && Ends(tail)
    ensures ReadMembers(Codes(Quote(key) + ":" + text) + tail, m)
         == if tail[0] == CLOSE_BRACE then Some((m[Codes(key) := v], tail[1..]))
            else ReadMembers(Skip(tail[1..]), m[Codes(key) := v])
  {
    MemberCodes(Quote(key), text, tail);
    var body := Codes(text) + tail;
    assert Skip(body) == body;
    ReadQuoted(key, [COLON] + body);
    ReadMemberAt(Codes(Quote(key)) + ([COLON] + body), Codes(key), body, v, tail, m);
  }

  lemma ReadMemberAt(t: Text, key: Text, body: Text, v: Value, tail: Text, m: map<Text, Value>)
    requires t != [] && t[0] == QUOTE && ReadChars(t[1..]) == Some((key, [COLON] + body))
    requires Skip(body) == body && ReadValue(body) == Some((v, tail)) && Ends(tail)
    ensures ReadMembers(t, m)
         == if tail[0] == CLOSE_BRACE then Some((m[key := v], tail[1..])) else ReadMembers(Skip(tail[1..]), m[key := v])
  {
    assert ([COLON] + body)[1..] == body && Skip([COLON] + body) == [COLON] + body;
    assert Skip(tail) == tail;
  }

  /** A member of an object: its key, the text its value stands as, and the value. */
  datatype Member = Member(key: string, text: string, value: Value)

  function MembersText(ms: seq<Member>): string {
    if ms == [] then ""
    else
      Quote(ms[0].key) + ":" + ms[0].text + (if |ms| == 1 then "" else "," + MembersText(ms[1..]))
  }

  /** Members whose values stand as they are written. */
  ghost predicate Written(ms: seq<Member>, keys: seq<string>, items: seq<Json>) {
    if ms == [] then keys == [] && items == []
    else
      keys != [] && items != [] && ms[0].key == keys[0] && ms[0].text == Dumps(items[0])
      && Written(ms[1..], keys[1..], items[1..])
  }

  lemma {:induction false} WrittenText(ms: seq<Member>, keys: seq<string>, items: seq<Json>)
    requires Written(ms, keys, items)
    ensures MembersText(ms) == DumpItems(keys, items)
  {
    if ms != [] {
      WrittenText(ms[1..], keys[1..], items[1..]);
      assert |ms| == 1 <==> |items| == 1 by {
        if |items| == 1 { assert items[1..] == []; }
        if |ms| == 1 { assert ms[1..] == []; }
      }
      if |ms| == 1 {
        assert ms[1..] == [] && MembersText(ms[1..]) == "";
      }
    }
  }

  function Members(ms: seq<Member>, m: map<Text, Value>): map<Text, Value> {
    if ms == [] then m else Members(ms[1..], m[Codes(ms[0].key) := ms[0].value])
  }

  ghost predicate AllRead(ms: seq<Member>) {
    ms == [] || (Reads(ms[0].text, ms[0].value) && AllRead(ms[1..]))
  }

  lemma {:induction false} ReadMembersOf(ms: seq<Member>, m: map<Text, Value>)
    requires ms != [] && AllRead(ms)
    ensures ReadMembers(Codes(MembersText(ms)) + [CLOSE_BRACE], m) == Some((Members(ms, m), []))
    decreases |ms|
  {
    if |ms| == 1 {
      ReadMember(ms[0].key, ms[0].text, ms[0].value, [CLOSE_BRACE], m);
      assert MembersText(ms) == Quote(ms[0].key) + ":" + ms[0].text;
      assert ms[1..] == [];
    } else {
      ReadMembersOf(ms[1..], m[Codes(ms[0].key) := ms[0].value]);
      StartsQuoted(ms[1..]);
      ReadMoreMembers(ms[0], MembersText(ms[1..]), m, Members(ms, m));
    }
  }

  lemma ReadMoreMembers(one: Member, later: string, m: map<Text, Value>, all: map<Text, Value>)
    requires Reads(one.text, one.value) && later != "" && later[0] == '"'
    requires ReadMembers(Codes(later) + [CLOSE_BRACE], m[Codes(one.key) := one.value]) == Some((all, []))
    ensures ReadMembers(Codes(Quote(one.key) + ":" + one.text + ("," + later)) + [CLOSE_BRACE], m) == Some((all, []))
  {
    FirstMember(Quote(one.key) + ":" + one.text, later);
    ReadMember(one.key, one.text, one.value, [COMMA] + (Codes(later) + [CLOSE_BRACE]), m);
  }

  lemma FirstMember(head: string, later: string)
    ensures Codes(head + ("," + later)) + [CLOSE_BRACE] == Codes(head) + ([COMMA] + (Codes(later) + [CLOSE_BRACE]))
    ensures ([COMMA] + (Codes(later) + [CLOSE_BRACE]))[1..] == Codes(later) + [CLOSE_BRACE]
  {
    CodesAppend(head, "," + later);
  }

  lemma StartsQuoted(ms: seq<Member>)
    requires ms != []
    ensures MembersText(ms) != "" && MembersText(ms)[0] == '"'
  {
    assert Quote(ms[0].key)[0] == '"';
  }

  /** A whole object is read back, whatever texts its values stand as. */
  lemma LoadsObject(ms: seq<Member>)
    requires ms != [] && AllRead(ms)
    ensures Loads(Codes("{" + MembersText(ms) + "}")) == Some(Object(Members(ms, map[])))
  {
    StartsQuoted(ms);
    ReadMembersOf(ms, map[]);
    LoadsBraced(MembersText(ms), Members(ms, map[]));
  }

  lemma LoadsBraced(s: string, m: map<Text, Value>)
    requires s != "" && s[0] == '"' && ReadMembers(Codes(s) + [CLOSE_BRACE], map[]) == Some((m, []))
    ensures Loads(Codes("{" + s + "}")) == Some(Object(m))
  {
    BracedCodes(s);
    var t := [OPEN_BRACE] + (Codes(s) + [CLOSE_BRACE]);
    assert Skip(t) == t && Skip(t[1..]) == t[1..];
  }

  lemma BracedCodes(s: string)
    ensures Codes("{" + s + "}") == [OPEN_BRACE] + (Codes(s) + [CLOSE_BRACE])
    ensures ([OPEN_BRACE] + (Codes(s) + [CLOSE_BRACE]))[1..] == Codes(s) + [CLOSE_BRACE]
  {}

  // ---------------------------------------------------------------- the room that was read

  /** The bytes that a code point takes in a written string, counting three for a surrogate. */
  function EscapedWidth(c: Code): nat {
    if c == QUOTE || c == BACKSLASH || c == 8 || c == 9 || c == 10 || c == 12 || c == 13 then 2
    else if c < 32 then 6
    else Width(c)
  }

  function Escaped(t: Text): nat {
    if t == [] then 0 else EscapedWidth(t[0]) + Escaped(t[1..])
  }

  lemma EscapeCharSize(c: char)
    ensures TextSize(EscapeChar(c)) == EscapedWidth(c as Code)
  {
    var e := EscapeChar(c);
    if e == [c] {
      assert Utf8(e) == Utf8Char(c) + Utf8([]);
    } else {
      AsciiSize(e);
    }
  }

  lemma {:induction false} EscapedIsSize(s: string)
    ensures Escaped(Codes(s)) == TextSize(Escape(s))
  {
    if s != [] {
      assert Codes(s)[1..] == Codes(s[1..]);
      EscapeCharSize(s[0]);
      EscapedIsSize(s[1..]);
      Utf8Append(EscapeChar(s[0]), Escape(s[1..]));
    }
  }

  lemma {:induction false} EscapedAtMost(t: Text)
    ensures Escaped(t) <= 6 * |t|
  {
    if t != [] {
      EscapedAtMost(t[1..]);
    }
  }

  /** A string up to its closing quote is never shorter than the string written again. */
  lemma {:induction false} CharsReadSize(t: Text)
    requires ReadChars(t).Some?
    ensures var (s, rest) := ReadChars(t).value;
      Escaped(s) + 1 + Weight(rest) <= Weight(t)
    decreases |t|
  {
    if t[0] == QUOTE {
    } else if t[0] == BACKSLASH {
      var e := ReadEscape(t).value;
      CharsReadSize(t[e.1..]);
      CutWeight(t, e.1);
      CharJoins(e.0, ReadChars(t[e.1..]).value.0);
    } else {
      CharsReadSize(t[1..]);
      CharJoins(t[0], ReadChars(t[1..]).value.0);
    }
  }

  lemma CharJoins(c: Code, s: Text)
    ensures Escaped([c] + s) == EscapedWidth(c) + Escaped(s)
  {
    assert ([c] + s)[1..] == s;
  }

  lemma {:induction false} DigitsReadSize(t: Text, n: nat)
    requires n >= 1
    ensures var (m, rest) := ReadDigits(t, n);
      |Digits(m)| + Weight(rest) <= |Digits(n)| + Weight(t)
    decreases |t|
  {
    if t != [] && IsDigit(t[0]) {
      var d := t[0] - ZERO;
      DigitsReadSize(t[1..], 10 * n + d);
      assert (10 * n + d) / 10 == n;
    }
  }

  lemma IntReadSize(t: Text)
    requires ReadInt(t).Some?
    ensures |Decimal(ReadInt(t).value.0)| + Weight(ReadInt(t).value.1) <= Weight(t)
  {
    var u := if t[0] == MINUS then t[1..] else t;
    if u[0] != ZERO {
      DigitsReadSize(u[1..], u[0] - ZERO);
    }
  }

  lemma {:induction false} SkipDigitsSize(t: Text)
    ensures Weight(SkipDigits(t)) <= Weight(t)
  {
    if t != [] && IsDigit(t[0]) {
      SkipDigitsSize(t[1..]);
    }
  }

  lemma {:induction false} SkipSize(t: Text)
    ensures Weight(Skip(t)) <= Weight(t)
  {
    if t != [] && Space(t[0]) {
      SkipSize(t[1..]);
    }
  }

  lemma FractionSize(t: Text)
    ensures Weight(Fraction(t)) <= Weight(t)
  {
    if Fraction(t) != t {
      SkipDigitsSize(t[2..]);
      CutWeight(t, 2);
    }
  }

  lemma ExponentSize(t: Text)
    ensures Weight(Exponent(t)) <= Weight(t)
  {
    if Exponent(t) != t {
      var sign := if t[1] == PLUS || t[1] == MINUS then 2 else 1;
      SkipDigitsSize(t[sign + 1..]);
      CutWeight(t, sign + 1);
    }
  }

  /** What a string or an integer takes when it is written; other values do not count. */
  function ValueSize(v: Value): nat {
    match v
    case IntVal(n) => |Decimal(n)|
    case TextVal(t) => Escaped(t) + 2
    case _ => 0
  }

  /** What a member takes, with its quotes, its colon and the mark behind it. */
  function MemberCost(key: Text, m: map<Text, Value>): nat {
    if key in m then Escaped(key) + 4 + ValueSize(m[key]) else 0
  }

  function Cost(keys: seq<Text>, m: map<Text, Value>): nat {
    if keys == [] then 0 else MemberCost(keys[0], m) + Cost(keys[1..], m)
  }

  predicate Distinct(keys: seq<Text>) {
    keys == [] || (keys[0] !in keys[1..] && Distinct(keys[1..]))
  }

  lemma {:induction false} PutElsewhere(keys: seq<Text>, m: map<Text, Value>, key: Text, v: Value)
    requires key !in keys
    ensures Cost(keys, m[key := v]) == Cost(keys, m)
  {
    if keys != [] {
      PutElsewhere(keys[1..], m, key, v);
    }
  }

  lemma {:induction false} PutCost(keys: seq<Text>, m: map<Text, Value>, key: Text, v: Value)
    requires Distinct(keys)
    ensures Cost(keys, m[key := v]) <= Cost(keys, m) + Escaped(key) + 4 + ValueSize(v)
  {
    if keys != [] {
      if key == keys[0] {
        PutElsewhere(keys[1..], m, key, v);
      } else {
        PutCost(keys[1..], m, key, v);
      }
    }
  }

  lemma {:induction false} ValueReadSize(t: Text)
    requires ReadValue(t).Some?
    ensures ValueSize(ReadValue(t).value.0) + Weight(ReadValue(t).value.1) <= Weight(t)
    decreases |t|, 1
  {
    if t[0] == QUOTE {
      CharsReadSize(t[1..]);
    } else if t[0] == OPEN_BRACE {
      var u := Skip(t[1..]);
      SkipSize(t[1..]);
      if !(u != [] && u[0] == CLOSE_BRACE) {
        MembersReadSize(u, map[], []);
      }
    } else if t[0] == OPEN_BRACKET {
      var u := Skip(t[1..]);
      SkipSize(t[1..]);
      if !(u != [] && u[0] == CLOSE_BRACKET) {
        ElementsReadSize(u);
      }
    } else if LiteralAt(t, LITERALS) > 0 {
      CutWeight(t, LiteralAt(t, LITERALS));
    } else {
      NumberReadSize(t);
    }
  }

  lemma NumberReadSize(t: Text)
    requires ReadNumber(t).Some?
    ensures ValueSize(ReadNumber(t).value.0) + Weight(ReadNumber(t).value.1) <= Weight(t)
  {
    IntReadSize(t);
    var rest := ReadInt(t).value.1;
    FractionSize(rest);
    ExponentSize(Fraction(rest));
  }

  /** The members of an object, counting any distinct keys: what they take again never is more. */
  lemma {:induction false} MembersReadSize(t: Text, m: map<Text, Value>, keys: seq<Text>)
    requires ReadMembers(t, m).Some? && Distinct(keys)
    ensures Cost(keys, ReadMembers(t, m).value.0) + Weight(ReadMembers(t, m).value.1) <= Cost(keys, m) + Weight(t)
    decreases |t|, 2
  {
    var key := ReadChars(t[1..]).value;
    var u := Skip(key.1);
    var value := ReadValue(Skip(u[1..])).value;
    var w := Skip(value.1);
    CharsReadSize(t[1..]);
    SkipSize(key.1);
    SkipSize(u[1..]);
    ValueReadSize(Skip(u[1..]));
    SkipSize(value.1);
    PutCost(keys, m, key.0, value.0);
    if w[0] != CLOSE_BRACE {
      SkipSize(w[1..]);
      MembersReadSize(Skip(w[1..]), m[key.0 := value.0], keys);
    }
  }

  lemma {:induction false} ElementsReadSize(t: Text)
    requires ReadElements(t).Some?
    ensures Weight(ReadElements(t).value) <= Weight(t)
    decreases |t|, 2
  {
    var value := ReadValue(t).value;
    var w := Skip(value.1);
    ValueReadSize(t);
    SkipSize(value.1);
    if w[0] != CLOSE_BRACKET {
      SkipSize(w[1..]);
      ElementsReadSize(Skip(w[1..]));
    }
  }

  lemma ObjectStarts(t: Text)
    requires ReadValue(t).Some? && ReadValue(t).value.0.Object?
    ensures t != [] && t[0] == OPEN_BRACE
  {}

  /** Whatever text an object was read from, its strings and integers under any distinct keys take no
      more when they are written compactly. */
  lemma LoadedSize(t: Text, keys: seq<Text>)
    requires Loads(t).Some? && Loads(t).value.Object? && Distinct(keys)
    ensures Cost(keys, Loads(t).value.members) + 1 <= Weight(t)
  {
    var u := Skip(t);
    ObjectStarts(u);
    SkipSize(t);
    SkipSize(u[1..]);
    EmptyCost(keys);
    BracedSize(u, keys);
  }

  lemma BracedSize(u: Text, keys: seq<Text>)
    requires u != [] && u[0] == OPEN_BRACE && ReadValue(u).Some? && Distinct(keys) && Cost(keys, map[]) == 0
    ensures Cost(keys, ReadValue(u).value.0.members) + 1 <= Weight(u)
  {
    var w := Skip(u[1..]);
    SkipSize(u[1..]);
    if !(w != [] && w[0] == CLOSE_BRACE) {
      MembersReadSize(w, map[], keys);
    }
  }

  lemma {:induction false} EmptyCost(keys: seq<Text>)
    ensures Cost(keys, map[]) == 0
  {
    if keys != [] {
      EmptyCost(keys[1..]);
    }
  }
}
