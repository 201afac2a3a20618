/** Python text: a sequence of code points, surrogates included, beside Dafny's strings of scalars. */
module Texts {
  import opened Json

  type Code = n: nat | n < 0x11_0000

  type Text = seq<Code>

  predicate Surrogate(c: nat) {
    0xD800 <= c <= 0xDFFF
  }

  predicate Scalars(t: Text) {
    forall i | 0 <= i < |t| :: !Surrogate(t[i])
  }

  function Codes(s: string): (r: Text)
    ensures |r| == |s|
  {
    seq(|s|, i requires 0 <= i < |s| => s[i] as nat)
  }

  function Chars(t: Text): (r: string)
    requires Scalars(t)
    ensures |r| == |t|
  {
    seq(|t|, i requires 0 <= i < |t| => t[i] as char)
  }

  /** Text without surrogates and strings are the same thing. */
  lemma CharsOfCodes(s: string)
    ensures Scalars(Codes(s)) && Chars(Codes(s)) == s
  {}

  lemma CodesOfChars(t: Text)
    requires Scalars(t)
    ensures Codes(Chars(t)) == t
  {}

  lemma Associate<T>(a: seq<T>, b: seq<T>, c: seq<T>)
    ensures a + b + c == a + (b + c)
  {}

  lemma CodesAppend(a: string, b: string)
    ensures Codes(a + b) == Codes(a) + Codes(b)
  {}

  /** The bytes that a code point takes in UTF-8, counting three for a surrogate. */
  function Width(c: Code): (r: nat)
    ensures 1 <= r <= 4
  {
    if c < 0x80 then 1 else if c < 0x800 then 2 else if c < 0x10000 then 3 else 4
  }

  function Weight(t: Text): nat {
    if t == [] then 0 else Width(t[0]) + Weight(t[1..])
  }

  lemma {:induction false} WeightAppend(a: Text, b: Text)
    ensures Weight(a + b) == Weight(a) + Weight(b)
  {
    if a == [] {
      assert a + b == b;
    } else {
      assert (a + b)[1..] == a[1..] + b;
      WeightAppend(a[1..], b);
    }
  }

  /** Cutting w code points off takes away at least w bytes. */
  lemma {:induction false} CutWeight(t: Text, w: nat)
    requires w <= |t|
    ensures Weight(t) >= w + Weight(t[w..])
  {
    if w > 0 {
      CutWeight(t[1..], w - 1);
      assert t[1..][w - 1..] == t[w..];
    }
  }

  lemma {:induction false} WeightOfCodes(s: string)
    ensures Weight(Codes(s)) == TextSize(s)
  {
    if s != [] {
      assert Codes(s)[1..] == Codes(s[1..]);
      WeightOfCodes(s[1..]);
    }
  }
}
