/** JSON values and their compact text, as `json.dumps(..., ensure_ascii=False,
    separators=(",", ":"))` writes it, together with the UTF-8 length of that text. */
module Json {

  newtype byte = b: int | 0 <= b < 256

  datatype Scalar =
    | Null
    | Bool(b: bool)
    | Int(n: int)
    | Float(repr: string)  // the text Python prints for a finite float
    | Str(s: string)

  /** An object keeps its keys in insertion order beside its values. */
  datatype Json =
    | Leaf(s: Scalar)
    | Arr(items: seq<Json>)
    | Obj(keys: seq<string>, items: seq<Json>)

  // ---------------------------------------------------------------- decimal numbers

  function Digit(d: nat): char
    requires d < 10
  {
    '0' + d as char
  }

  function Digits(n: nat): (r: string)
    ensures |r| >= 1
  {
    if n < 10 then [Digit(n)] else Digits(n / 10) + [Digit(n % 10)]
  }

  function Decimal(n: int): (r: string)
    ensures |r| >= 1
  {
    if n < 0 then "-" + Digits(-n) else Digits(n)
  }

  lemma {:induction false} DigitsMonotone(m: nat, n: nat)
    requires m <= n
    ensures |Digits(m)| <= |Digits(n)|
    decreases n
  {
    if n >= 10 && m >= 10 {
      DigitsMonotone(m / 10, n / 10);
    }
  }

  // ---------------------------------------------------------------- strings

  function HexDigit(d: nat): char
    requires d < 16
  {
    if d < 10 then Digit(d) else 'a' + (d - 10) as char
  }

  /** The escapes of section 7 of RFC 8259 that `json.dumps` emits: the two mandatory
      characters, the five short forms, and six-character escapes for other controls. */
  function EscapeChar(c: char): (r: string)
    ensures 1 <= |r| <= 6
  {
    if c == '"' then "\\\""
    else if c == '\\' then "\\\\"
    else if c == '\n' then "\\n"
    else if c == '\r' then "\\r"
    else if c == '\t' then "\\t"
    else if c as int == 12 then "\\f"
    else if c as int == 8 then "\\b"
    else if c as int < 32 then "\\u00" + [HexDigit(c as int / 16), HexDigit(c as int % 16)]
    else [c]
  }

  function Escape(s: string): (r: string)
    ensures |r| >= |s|
  {
    if s == [] then [] else EscapeChar(s[0]) + Escape(s[1..])
  }

  function Quote(s: string): string {
    "\"" + Escape(s) + "\""
  }

  // ---------------------------------------------------------------- values

  function DumpScalar(s: Scalar): string {
    match s
    case Null => "null"
    case Bool(b) => if b then "true" else "false"
    case Int(n) => Decimal(n)
    case Float(repr) => repr
    case Str(t) => Quote(t)
  }

  function Dumps(v: Json): string
    decreases v, 0
  {
    match v
    case Leaf(s) => DumpScalar(s)
    case Arr(items) => "[" + DumpItems([], items) + "]"
    case Obj(keys, items) => "{" + DumpItems(keys, items) + "}"
  }

  /** The members between the brackets; with keys left over each member is `"key":value`. */
  function DumpItems(keys: seq<string>, items: seq<Json>): string
    decreases items, 1
  {
    if items == [] then ""
    else
      (if keys == [] then "" else Quote(keys[0]) + ":")
      + Dumps(items[0])
      + (if |items| == 1 then "" else ",")
      + DumpItems(if keys == [] then [] else keys[1..], items[1..])
  }

  // ---------------------------------------------------------------- UTF-8

  function Utf8Char(c: char): (r: seq<byte>)
    ensures 1 <= |r| <= 4
    ensures c as int < 128 ==> |r| == 1
  {
    var n := c as int;
    if n < 0x80 then [n as byte]
    else if n < 0x800 then [(0xC0 + n / 0x40) as byte, (0x80 + n % 0x40) as byte]
    else if n < 0x10000 then
      [(0xE0 + n / 0x1000) as byte, (0x80 + n / 0x40 % 0x40) as byte, (0x80 + n % 0x40) as byte]
    else
      [(0xF0 + n / 0x40000) as byte, (0x80 + n / 0x1000 % 0x40) as byte,
       (0x80 + n / 0x40 % 0x40) as byte, (0x80 + n % 0x40) as byte]
  }

  function Utf8(s: string): (r: seq<byte>)
    ensures |r| >= |s|
  {
    if s == [] then [] else Utf8Char(s[0]) + Utf8(s[1..])
  }

  lemma {:induction false} Utf8Append(s: string, t: string)
    ensures Utf8(s + t) == Utf8(s) + Utf8(t)
  {
    if s == [] {
      assert s + t == t;
    } else {
      assert (s + t)[1..] == s[1..] + t;
      Utf8Append(s[1..], t);
    }
  }

  /** `_encoded_size`: the number of UTF-8 bytes in the compact text. */
  function EncodedSize(v: Json): nat {
    |Utf8(Dumps(v))|
  }

  // ---------------------------------------------------------------- the size, part by part

  function TextSize(s: string): nat {
    |Utf8(s)|
  }

  function Size(v: Json): nat
    decreases v, 0
  {
    match v
    case Leaf(s) => TextSize(DumpScalar(s))
    case Arr(items) => 2 + ItemsSize([], items)
    case Obj(keys, items) => 2 + ItemsSize(keys, items)
  }

  function ItemsSize(keys: seq<string>, items: seq<Json>): nat
    decreases items, 1
  {
    if items == [] then 0
    else
      (if keys == [] then 0 else TextSize(Quote(keys[0])) + 1)
      + Size(items[0])
      + (if |items| == 1 then 0 else 1)
      + ItemsSize(if keys == [] then [] else keys[1..], items[1..])
  }

  /** Measuring the encoded text and adding up the parts give the same number. */
  lemma {:induction false} EncodedSizeIsSize(v: Json)
    ensures EncodedSize(v) == Size(v)
    decreases v, 0
  {
    match v
    case Leaf(s) =>
    case Arr(items) =>
      ItemsSizeIsSize([], items);
      Utf8Append("[" + DumpItems([], items), "]");
      Utf8Append("[", DumpItems([], items));
    case Obj(keys, items) =>
      ItemsSizeIsSize(keys, items);
      Utf8Append("{" + DumpItems(keys, items), "}");
      Utf8Append("{", DumpItems(keys, items));
  }

  lemma {:induction false} ItemsSizeIsSize(keys: seq<string>, items: seq<Json>)
    ensures TextSize(DumpItems(keys, items)) == ItemsSize(keys, items)
    decreases items, 1
  {
    if items != [] {
      EncodedSizeIsSize(items[0]);
      var rest := if keys == [] then [] else keys[1..];
      ItemsSizeIsSize(rest, items[1..]);
      var prefix := if keys == [] then "" else Quote(keys[0]) + ":";
      var comma := if |items| == 1 then "" else ",";
      Utf8Append(prefix + Dumps(items[0]) + comma, DumpItems(rest, items[1..]));
      Utf8Append(prefix + Dumps(items[0]), comma);
      Utf8Append(prefix, Dumps(items[0]));
      if keys != [] {
        Utf8Append(Quote(keys[0]), ":");
      }
    }
  }

  /** Replacing one member changes the size by exactly that member's change. */
  lemma {:induction false} ReplaceItem(keys: seq<string>, items: seq<Json>, i: nat, v: Json)
    requires i < |items|
    ensures ItemsSize(keys, items[i := v]) == ItemsSize(keys, items) - Size(items[i]) + Size(v)
    decreases items
  {
    if i > 0 {
      assert items[i := v][1..] == items[1..][i - 1 := v];
      ReplaceItem(if keys == [] then [] else keys[1..], items[1..], i - 1, v);
    } else {
      assert items[i := v][1..] == items[1..];
    }
  }

  /** Dropping the last element of a list removes its text and the comma before it. */
  lemma {:induction false} DropLastItem(items: seq<Json>)
    requires items != []
    ensures ItemsSize([], items)
         == ItemsSize([], items[..|items| - 1]) + Size(items[|items| - 1])
            + (if |items| == 1 then 0 else 1)
  {
    if |items| > 1 {
      DropLastItem(items[1..]);
      assert items[..|items| - 1][1..] == items[1..][..|items| - 2];
      assert items[..|items| - 1][0] == items[0];
    }
  }

  // ---------------------------------------------------------------- plain ASCII text

  predicate Ascii(s: string) {
    forall i | 0 <= i < |s| :: s[i] as int < 128
  }

  lemma {:induction false} AsciiSize(s: string)
    requires Ascii(s)
    ensures TextSize(s) == |s|
  {
    if s != [] {
      AsciiSize(s[1..]);
    }
  }

  lemma {:induction false} DigitsAscii(n: nat)
    ensures Ascii(Digits(n))
  {
    if n >= 10 {
      DigitsAscii(n / 10);
    }
  }
}
