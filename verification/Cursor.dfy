/** The opaque continuation cursor: unpadded base64url over compact JSON. Text that comes in may hold
    surrogates; query normalisation is a parameter. */
module Cursor {
  import opened Wrappers
  import opened Json
  import opened Texts
  import opened Encodings
  import opened JsonReader

  const CURSOR_VERSION := 1
  const MAX_CURSOR_LENGTH := 2048
  const MAX_QUERY_LENGTH := 200

  datatype CursorState =
    CursorState(version: int, mode: string, query: Text, offset: int, revision: Text)

  /** `UnicodeEncodeError` is what Python raises when text with a surrogate is encoded. */
  datatype Result<T> = Ok(value: T) | PaginationError(message: string) | UnicodeEncodeError

  // ---------------------------------------------------------------- cursor states

  /** `_validate_state`: what can have been emitted for a next page. */
  predicate Valid(s: CursorState, normalize: Text -> Text) {
    && s.version == CURSOR_VERSION
    && s.mode in {"search", "catalog"}
    && normalize(s.query) == s.query
    && |s.query| <= MAX_QUERY_LENGTH
    && s.offset > 0
    && s.revision != []
    && (s.mode == "search" <==> s.query != [])
  }

  function Complaint(version: int): string {
    if version != CURSOR_VERSION then "cursor version is unsupported" else "cursor is malformed"
  }

  /** No surrogate in the two texts of a state. */
  predicate Clean(s: CursorState) {
    Scalars(s.query) && Scalars(s.revision)
  }

  /** The compact JSON object that `json.dumps` writes. */
  function Payload(s: CursorState): Json
    requires Clean(s)
  {
    Obj(["v", "m", "q", "o", "r"],
        [Leaf(Int(s.version)), Leaf(Str(s.mode)), Leaf(Str(Chars(s.query))), Leaf(Int(s.offset)),
         Leaf(Str(Chars(s.revision)))])
  }

  /** `encode_cursor`. */
  function EncodeCursor(s: CursorState, normalize: Text -> Text): Result<string> {
    if !Valid(s, normalize) then PaginationError(Complaint(s.version))
    else if !Clean(s) then UnicodeEncodeError
    else
      var cursor := Base64(Utf8(Dumps(Payload(s))));
      if |cursor| > MAX_CURSOR_LENGTH then PaginationError("cursor is malformed") else Ok(cursor)
  }

  function ModeNamed(t: Text): Option<string> {
    if t == Codes("search") then Some("search") else if t == Codes("catalog") then Some("catalog") else None
  }

  /** What a payload says: a state, or why there is none. */
  function StateOf(m: map<Text, Value>): Result<CursorState> {
    if m.Keys != {Codes("v"), Codes("m"), Codes("q"), Codes("o"), Codes("r")} then
      PaginationError("cursor is malformed")
    else
      var (v, mode, q, o, r) := (m[Codes("v")], m[Codes("m")], m[Codes("q")], m[Codes("o")], m[Codes("r")]);
      if !mode.TextVal? || ModeNamed(mode.t).None? then PaginationError("cursor is malformed")
      else if v.IntVal? && q.TextVal? && o.IntVal? && r.TextVal? then
        Ok(CursorState(v.n, ModeNamed(mode.t).value, q.t, o.n, r.t))
      else PaginationError(if v.IntVal? then Complaint(v.n) else "cursor is malformed")
  }

  /** What `decode_cursor` makes of the bytes under a cursor. */
  function DecodePayload(bytes: seq<byte>, normalize: Text -> Text): Result<CursorState> {
    var text := DecodeText(bytes);
    var value := if text.None? then None else Loads(text.value);
    if value.None? || !value.value.Object? then PaginationError("cursor is malformed")
    else
      var state := StateOf(value.value.members);
      if state.Ok? && !Valid(state.value, normalize) then PaginationError(Complaint(state.value.version))
      else state
  }

  /** `decode_cursor`. */
  function DecodeCursor(cursor: string, normalize: Text -> Text): Result<CursorState> {
    if cursor == "" || |cursor| > MAX_CURSOR_LENGTH || Unbase64(cursor).None? then
      PaginationError("cursor is malformed")
    else DecodePayload(Unbase64(cursor).value, normalize)
  }

  // ---------------------------------------------------------------- payloads are read back

  /** The members of a state whose texts stand as given. */
  function PayloadMembers(s: CursorState, query: string, revision: string): seq<Member> {
    [Member("v", Decimal(s.version), IntVal(s.version)), Member("m", Quote(s.mode), TextVal(Codes(s.mode))),
     Member("q", query, TextVal(s.query)), Member("o", Decimal(s.offset), IntVal(s.offset)),
     Member("r", revision, TextVal(s.revision))]
  }

  function PayloadText(s: CursorState, query: string, revision: string): string {
    "{" + MembersText(PayloadMembers(s, query, revision)) + "}"
  }

  lemma MembersState(s: CursorState, query: string, revision: string)
    requires s.mode in {"search", "catalog"}
    ensures StateOf(Members(PayloadMembers(s, query, revision), map[])) == Ok(s)
  {
    var k := PayloadMembers(s, query, revision);
    DistinctKeys();
    var m1 := map[Codes("v") := k[0].value];
    var m2 := m1[Codes("m") := k[1].value];
    var m3 := m2[Codes("q") := k[2].value];
    var m4 := m3[Codes("o") := k[3].value];
    var m5 := m4[Codes("r") := k[4].value];
    assert Members(k[5..], m5) == m5;
    assert Members(k[4..], m4) == m5;
    assert Members(k[3..], m3) == m5;
    assert Members(k[2..], m2) == m5;
    assert Members(k[1..], m1) == m5;
    assert Members(k, map[]) == m5;
    FiveFields(s, m5);
  }

  lemma DistinctKeys()
    ensures Codes("v")[0] == 118 && Codes("m")[0] == 109 && Codes("q")[0] == 113 && Codes("o")[0] == 111
    ensures Codes("r")[0] == 114
    ensures |Codes("search")| == 6 && |Codes("catalog")| == 7
  {}

  lemma FiveFields(s: CursorState, m: map<Text, Value>)
    requires s.mode in {"search", "catalog"}
    requires m == map[Codes("v") := IntVal(s.version), Codes("m") := TextVal(Codes(s.mode)),
                      Codes("q") := TextVal(s.query), Codes("o") := IntVal(s.offset),
                      Codes("r") := TextVal(s.revision)]
    ensures StateOf(m) == Ok(s)
  {
    DistinctKeys();
  }

  lemma FiveRead(k: seq<Member>)
    requires |k| == 5 && forall i | 0 <= i < 5 :: Reads(k[i].text, k[i].value)
    ensures AllRead(k)
  {
    assert AllRead(k[5..]);
    assert AllRead(k[4..]);
    assert AllRead(k[3..]);
    assert AllRead(k[2..]);
    assert AllRead(k[1..]);
  }

  /** A payload whose query and revision stand as texts that read back is read as its state. */
  lemma PayloadReads(s: CursorState, query: string, revision: string)
    requires s.mode in {"search", "catalog"}
    requires Reads(query, TextVal(s.query)) && Reads(revision, TextVal(s.revision))
    ensures var value := Loads(Codes(PayloadText(s, query, revision)));
      value.Some? && value.value.Object? && StateOf(value.value.members) == Ok(s)
  {
    var k := PayloadMembers(s, query, revision);
    ReadsInt(s.version);
    ReadsText(s.mode);
    ReadsInt(s.offset);
    FiveRead(k);
    LoadsObject(k);
    MembersState(s, query, revision);
  }

  /** What is written is one of these texts. */
  lemma DumpedPayload(s: CursorState)
    requires Clean(s)
    ensures Dumps(Payload(s)) == PayloadText(s, Quote(Chars(s.query)), Quote(Chars(s.revision)))
  {
    var k := PayloadMembers(s, Quote(Chars(s.query)), Quote(Chars(s.revision)));
    var p := Payload(s);
    assert Written(k[5..], p.keys[5..], p.items[5..]);
    assert Written(k[4..], p.keys[4..], p.items[4..]);
    assert Written(k[3..], p.keys[3..], p.items[3..]);
    assert Written(k[2..], p.keys[2..], p.items[2..]);
    assert Written(k[1..], p.keys[1..], p.items[1..]);
    WrittenText(k, p.keys, p.items);
  }

  /** Bytes that start like an object of ASCII text are taken for UTF-8. */
  lemma DetectedPlain(bs: seq<byte>)
    requires |bs| >= 2 && bs[0] == 0x7B && bs[1] == 0x22
    ensures Detect(bs) == Utf8Plain
  {}

  lemma PayloadBytes(s: CursorState, query: string, revision: string)
    ensures var bs := Utf8(PayloadText(s, query, revision)); |bs| >= 2 && bs[0] == 0x7B && bs[1] == 0x22
  {
    var members := MembersText(PayloadMembers(s, query, revision));
    StartsQuoted(PayloadMembers(s, query, revision));
    StartsBraced(members);
  }

  lemma StartsBraced(members: string)
    requires members != "" && members[0] == '"'
    ensures var bs := Utf8("{" + members + "}"); |bs| >= 2 && bs[0] == 0x7B && bs[1] == 0x22
  {
    var t := "{" + members + "}";
    assert t == "{" + t[1..] && t[1..] == "\"" + t[2..];
    assert t[1..][1..] == t[2..];
    assert Utf8(t) == [0x7B] + Utf8(t[1..]) && Utf8(t[1..]) == [0x22] + Utf8(t[2..]);
  }

  /** Any payload of UTF-8 text whose query and revision read back decodes to its state. */
  lemma PayloadDecodes(s: CursorState, query: string, revision: string, normalize: Text -> Text)
    requires Valid(s, normalize)
    requires Reads(query, TextVal(s.query)) && Reads(revision, TextVal(s.revision))
    ensures DecodePayload(Utf8(PayloadText(s, query, revision)), normalize) == Ok(s)
  {
    var text := PayloadText(s, query, revision);
    PayloadBytes(s, query, revision);
    DetectedPlain(Utf8(text));
    Utf8RoundTrip(text);
    PayloadReads(s, query, revision);
  }

  /** So does its cursor, if it is not too long. */
  lemma PayloadCursorDecodes(s: CursorState, query: string, revision: string, normalize: Text -> Text)
    requires Valid(s, normalize)
    requires Reads(query, TextVal(s.query)) && Reads(revision, TextVal(s.revision))
    requires |Base64(Utf8(PayloadText(s, query, revision)))| <= MAX_CURSOR_LENGTH
    ensures DecodeCursor(Base64(Utf8(PayloadText(s, query, revision))), normalize) == Ok(s)
  {
    var bytes := Utf8(PayloadText(s, query, revision));
    PayloadDecodes(s, query, revision, normalize);
    PayloadBytes(s, query, revision);
    Base64RoundTrip(bytes);
    assert Base64(bytes) != "";
  }

  /** Decoding an encoded cursor gives the same state back, for every state that encodes. */
  lemma CursorRoundTrip(s: CursorState, normalize: Text -> Text)
    requires EncodeCursor(s, normalize).Ok?
    ensures DecodeCursor(EncodeCursor(s, normalize).value, normalize) == Ok(s)
  {
    DumpedPayload(s);
    ReadsText(Chars(s.query));
    ReadsText(Chars(s.revision));
    CodesOfChars(s.query);
    CodesOfChars(s.revision);
    PayloadCursorDecodes(s, Quote(Chars(s.query)), Quote(Chars(s.revision)), normalize);
  }

  // ---------------------------------------------------------------- the length bound

  /** The bytes of a payload, with three for each surrogate. */
  function PayloadSize(s: CursorState): nat {
    |Decimal(s.version)| + |s.mode| + Escaped(s.query) + |Decimal(s.offset)| + Escaped(s.revision) + 32
  }

  lemma {:induction false} DecimalSize(n: int)
    ensures TextSize(Decimal(n)) == |Decimal(n)|
    decreases if n < 0 then 1 else 0, if n < 0 then -n else n
  {
    if n < 0 {
      DecimalSize(-n);
      Utf8Append("-", Digits(-n));
      AsciiSize("-");
    } else if n < 10 {
      AsciiSize(Digits(n));
    } else {
      DecimalSize(n / 10);
      Utf8Append(Digits(n / 10), [Digit(n % 10)]);
      AsciiSize([Digit(n % 10)]);
    }
  }

  lemma QuotedSize(s: string)
    ensures TextSize(Quote(s)) == Escaped(Codes(s)) + 2
  {
    EscapedIsSize(s);
    Utf8Append("\"" + Escape(s), "\"");
    Utf8Append("\"", Escape(s));
    AsciiSize("\"");
  }

  lemma {:induction false} PlainSize(s: string)
    requires forall i | 0 <= i < |s| :: 'a' <= s[i] <= 'z'
    ensures Escaped(Codes(s)) == |s| && Escape(s) == s
  {
    if s != [] {
      PlainSize(s[1..]);
      assert Codes(s)[1..] == Codes(s[1..]);
      assert s == [s[0]] + s[1..];
    }
  }

  lemma KeySize(key: string)
    requires |key| == 1 && 'a' <= key[0] <= 'z'
    ensures TextSize(Quote(key)) == 3 && Escaped(Codes(key)) == 1
  {
    PlainSize(key);
    QuotedSize(key);
  }

  lemma FiveItems(keys: seq<string>, items: seq<Json>)
    requires |keys| == |items| == 5
    ensures ItemsSize(keys, items)
         == TextSize(Quote(keys[0])) + TextSize(Quote(keys[1])) + TextSize(Quote(keys[2]))
            + TextSize(Quote(keys[3])) + TextSize(Quote(keys[4])) + 9
            + Size(items[0]) + Size(items[1]) + Size(items[2]) + Size(items[3]) + Size(items[4])
  {
    assert ItemsSize(keys[5..], items[5..]) == 0;
    assert ItemsSize(keys[4..], items[4..]) == TextSize(Quote(keys[4])) + 1 + Size(items[4]);
    assert ItemsSize(keys[3..], items[3..])
        == TextSize(Quote(keys[3])) + 2 + Size(items[3]) + ItemsSize(keys[4..], items[4..]);
    assert ItemsSize(keys[2..], items[2..])
        == TextSize(Quote(keys[2])) + 2 + Size(items[2]) + ItemsSize(keys[3..], items[3..]);
    assert ItemsSize(keys[1..], items[1..])
        == TextSize(Quote(keys[1])) + 2 + Size(items[1]) + ItemsSize(keys[2..], items[2..]);
  }

  /** Keys of one letter take three bytes each. */
  lemma LetterKeys(keys: seq<string>, items: seq<Json>)
    requires |keys| == |items| == 5
    requires forall i | 0 <= i < 5 :: |keys[i]| == 1 && 'a' <= keys[i][0] <= 'z'
    ensures Size(Obj(keys, items))
         == Size(items[0]) + Size(items[1]) + Size(items[2]) + Size(items[3]) + Size(items[4]) + 26
  {
    forall i | 0 <= i < 5 ensures TextSize(Quote(keys[i])) == 3 {
      KeySize(keys[i]);
    }
    FiveItems(keys, items);
  }

  lemma TextItemSize(t: Text)
    requires Scalars(t)
    ensures Size(Leaf(Str(Chars(t)))) == Escaped(t) + 2
  {
    QuotedSize(Chars(t));
    CodesOfChars(t);
  }

  lemma PlainItemSize(t: string)
    requires forall i | 0 <= i < |t| :: 'a' <= t[i] <= 'z'
    ensures Size(Leaf(Str(t))) == |t| + 2 && Escaped(Codes(t)) == |t|
  {
    QuotedSize(t);
    PlainSize(t);
  }

  lemma ModeSize(mode: string)
    requires mode in {"search", "catalog"}
    ensures Size(Leaf(Str(mode))) == |mode| + 2 && Escaped(Codes(mode)) == |mode|
  {
    PlainItemSize(mode);
  }

  lemma PayloadIsSize(s: CursorState)
    requires Clean(s) && s.mode in {"search", "catalog"}
    ensures |Utf8(Dumps(Payload(s)))| == PayloadSize(s)
  {
    var p := Payload(s);
    EncodedSizeIsSize(p);
    LetterKeys(p.keys, p.items);
    DecimalSize(s.version);
    ModeSize(s.mode);
    TextItemSize(s.query);
    DecimalSize(s.offset);
    TextItemSize(s.revision);
  }

  /** Base64 fits exactly 1536 bytes into a cursor. */
  lemma FitsOneCursor(bytes: seq<byte>)
    ensures |Base64(bytes)| <= MAX_CURSOR_LENGTH <==> |bytes| <= 1536
  {}

  /** A valid state encodes exactly when it holds no surrogate and its payload takes 1536 bytes at most. */
  lemma EncodesExactly(s: CursorState, normalize: Text -> Text)
    requires Valid(s, normalize)
    ensures EncodeCursor(s, normalize).Ok? <==> Clean(s) && PayloadSize(s) <= 1536
    ensures !Clean(s) ==> EncodeCursor(s, normalize) == UnicodeEncodeError
    ensures Clean(s) && PayloadSize(s) > 1536 ==>
              EncodeCursor(s, normalize) == PaginationError("cursor is malformed")
  {
    if Clean(s) {
      PayloadIsSize(s);
      FitsOneCursor(Utf8(Dumps(Payload(s))));
    }
  }

  /** A valid state with a 24-character revision and an offset of up to 100 digits always fits
      into one cursor, whatever characters its query of at most 200 is made of: it encodes exactly
      when it holds no surrogate. */
  lemma ValidStatesFit(s: CursorState, normalize: Text -> Text)
    requires Valid(s, normalize) && |s.revision| == 24 && |Decimal(s.offset)| <= 100
    ensures EncodeCursor(s, normalize).Ok? <==> Clean(s)
    ensures !Clean(s) ==> EncodeCursor(s, normalize) == UnicodeEncodeError
  {
    EncodesExactly(s, normalize);
    EscapedAtMost(s.query);
    EscapedAtMost(s.revision);
    assert |s.mode| <= 7;
    assert |Decimal(1)| == 1;
  }

  // ---------------------------------------------------------------- what is accepted and what can be emitted

  lemma KeysDistinct()
    ensures Distinct([Codes("v"), Codes("m"), Codes("q"), Codes("o"), Codes("r")])
  {
    DistinctKeys();
  }

  lemma FiveCosts(k: seq<Text>, m: map<Text, Value>)
    requires |k| == 5
    ensures Cost(k, m) == MemberCost(k[0], m) + MemberCost(k[1], m) + MemberCost(k[2], m) + MemberCost(k[3], m)
                          + MemberCost(k[4], m)
  {
    assert Cost(k[5..], m) == 0;
    assert Cost(k[4..], m) == MemberCost(k[4], m);
    assert Cost(k[3..], m) == MemberCost(k[3], m) + Cost(k[4..], m);
    assert Cost(k[2..], m) == MemberCost(k[2], m) + Cost(k[3..], m);
    assert Cost(k[1..], m) == MemberCost(k[1], m) + Cost(k[2..], m);
  }

  lemma LetterCost(key: string, m: map<Text, Value>)
    requires |key| == 1 && 'a' <= key[0] <= 'z' && Codes(key) in m
    ensures MemberCost(Codes(key), m) == 5 + ValueSize(m[Codes(key)])
  {
    KeySize(key);
  }

  lemma StateCost(m: map<Text, Value>, s: CursorState)
    requires StateOf(m) == Ok(s)
    ensures Cost([Codes("v"), Codes("m"), Codes("q"), Codes("o"), Codes("r")], m) + 1 == PayloadSize(s)
  {
    FiveCosts([Codes("v"), Codes("m"), Codes("q"), Codes("o"), Codes("r")], m);
    LetterCost("v", m);
    LetterCost("m", m);
    LetterCost("q", m);
    LetterCost("o", m);
    LetterCost("r", m);
    ModeSize(s.mode);
  }

  /** The canonical payload of a state is no longer than any text it was read from. */
  lemma PayloadIsShortest(t: Text, s: CursorState)
    requires Loads(t).Some? && Loads(t).value.Object? && StateOf(Loads(t).value.members) == Ok(s)
    ensures PayloadSize(s) <= Weight(t)
  {
    KeysDistinct();
    LoadedSize(t, [Codes("v"), Codes("m"), Codes("q"), Codes("o"), Codes("r")]);
    StateCost(Loads(t).value.members, s);
  }

  /** A state that any cursor decodes to is one the encoder emits, exactly when it holds no surrogate;
      except that out of a UTF-16 cursor of more than 1365 characters it can be too long. */
  lemma DecodedStatesEncode(cursor: string, normalize: Text -> Text)
    requires DecodeCursor(cursor, normalize).Ok?
    ensures var s := DecodeCursor(cursor, normalize).value;
      && (!Clean(s) ==> EncodeCursor(s, normalize) == UnicodeEncodeError)
      && (!Detect(Unbase64(cursor).value).Utf16? || |cursor| <= 1365 ==>
            (EncodeCursor(s, normalize).Ok? <==> Clean(s)))
      && (Clean(s) && PayloadSize(s) > 1536 ==> EncodeCursor(s, normalize) == PaginationError("cursor is malformed"))
  {
    var bytes := Unbase64(cursor).value;
    var s := DecodeCursor(cursor, normalize).value;
    DecodedLength(cursor);
    DecodedWeight(bytes);
    PayloadIsShortest(DecodeText(bytes).value, s);
    EncodesExactly(s, normalize);
  }

  // ---------------------------------------------------------------- cursors that decode and cannot be emitted

  lemma LetterKeysLength(k: seq<Member>)
    requires |k| == 5 && forall i | 0 <= i < 5 :: |k[i].key| == 1 && 'a' <= k[i].key[0] <= 'z'
    ensures |MembersText(k)| == |k[0].text| + |k[1].text| + |k[2].text| + |k[3].text| + |k[4].text| + 24
  {
    forall i | 0 <= i < 5 ensures |Quote(k[i].key)| == 3 {
      PlainSize(k[i].key);
    }
    assert |MembersText(k[4..])| == 4 + |k[4].text|;
    assert |MembersText(k[3..])| == 5 + |k[3].text| + |MembersText(k[4..])|;
    assert |MembersText(k[2..])| == 5 + |k[2].text| + |MembersText(k[3..])|;
    assert |MembersText(k[1..])| == 5 + |k[1].text| + |MembersText(k[2..])|;
  }

  lemma PlainLength(t: string)
    requires forall i | 0 <= i < |t| :: 'a' <= t[i] <= 'z'
    ensures |Quote(t)| == |t| + 2
  {
    PlainSize(t);
  }

  lemma ModeLength(mode: string)
    requires mode in {"search", "catalog"}
    ensures |Quote(mode)| == |mode| + 2
  {
    PlainLength(mode);
  }

  /** The characters of a payload. */
  lemma PayloadLength(s: CursorState, query: string, revision: string)
    requires s.mode in {"search", "catalog"}
    ensures |PayloadText(s, query, revision)|
         == |Decimal(s.version)| + |s.mode| + |query| + |Decimal(s.offset)| + |revision| + 28
  {
    ModeLength(s.mode);
    LetterKeysLength(PayloadMembers(s, query, revision));
  }

  lemma {:induction false} Utf8AtMost(s: string)
    ensures |Utf8(s)| <= 4 * |s|
  {
    if s != [] {
      Utf8AtMost(s[1..]);
    }
  }

  const LONE: string := "\"\\ud800\""

  /** An escaped lone surrogate reads as that surrogate. */
  lemma LoneSurrogate()
    ensures Reads(LONE, TextVal([0xD800]))
  {
    forall tail: Text | Ends(tail) ensures ReadValue(Codes(LONE) + tail) == Some((TextVal([0xD800]), tail)) {
      var t := Codes(LONE) + tail;
      assert t[0] == 34 && t[1..][0] == 92;
      LoneEscape(t[1..], tail);
    }
  }

  lemma LoneEscape(t: Text, tail: Text)
    requires t == [92, 117, 100, 56, 48, 48, 34] + tail
    ensures ReadChars(t) == Some(([0xD800], tail))
  {
    assert t[2..6] == [100, 56, 48, 48];
    assert HexEscape(t) == Some(0xD800);
    assert t[6..] == [34] + tail;
    assert ReadEscape(t) == Some((0xD800, 6));
    assert ReadChars(t[6..]) == Some(([], tail)) by {
      assert t[6..][1..] == tail;
    }
    assert [0xD800] + [] == [0xD800 as Code];
  }

  /** A search for a lone surrogate, as far as the normalisation leaves it alone: its cursor decodes,
      and the next cursor of that search cannot be encoded. */
  lemma SurrogateQueryDecodes(s: CursorState, cursor: string, normalize: Text -> Text)
    requires s == CursorState(1, "search", [0xD800], 1, Codes("f")) && normalize([0xD800]) == [0xD800]
    requires cursor == Base64(Utf8(PayloadText(s, LONE, Quote("f"))))
    ensures DecodeCursor(cursor, normalize) == Ok(s)
    ensures EncodeCursor(s, normalize) == UnicodeEncodeError
  {
    assert Valid(s, normalize) && Surrogate(s.query[0]);
    LoneSurrogate();
    ReadsText("f");
    ShortPayload(s);
    PayloadCursorDecodes(s, LONE, Quote("f"), normalize);
  }

  lemma ShortPayload(s: CursorState)
    requires s.version == 1 && s.mode == "search" && s.offset == 1
    ensures |Base64(Utf8(PayloadText(s, LONE, Quote("f"))))| <= MAX_CURSOR_LENGTH
  {
    PayloadLength(s, LONE, Quote("f"));
    PlainSize("f");
    assert |Decimal(1)| == 1;
    Utf8AtMost(PayloadText(s, LONE, Quote("f")));
    FitsOneCursor(Utf8(PayloadText(s, LONE, Quote("f"))));
  }

  predicate Narrow(s: string) {
    forall i | 0 <= i < |s| :: s[i] as int < 0x10000
  }

  lemma {:induction false} NarrowMembers(ms: seq<Member>)
    requires forall i | 0 <= i < |ms| :: Narrow(Quote(ms[i].key)) && Narrow(ms[i].text)
    ensures Narrow(MembersText(ms))
  {
    if ms != [] {
      NarrowMembers(ms[1..]);
    }
  }

  lemma NarrowQuote(t: string)
    requires Narrow(t) && Escape(t) == t
    ensures Narrow(Quote(t))
  {}

  /** Characters from U+0800 on are written as they are and take three bytes below U+10000. */
  lemma {:induction false} ThreeByteText(t: string)
    requires forall i | 0 <= i < |t| :: 0x800 <= t[i] as int < 0x10000
    ensures Escape(t) == t && Escaped(Codes(t)) == 3 * |t|
  {
    if t != [] {
      ThreeByteText(t[1..]);
      assert Codes(t)[1..] == Codes(t[1..]);
      assert t == [t[0]] + t[1..];
    }
  }

  lemma NarrowKeys(ms: seq<Member>)
    requires forall i | 0 <= i < |ms| :: |ms[i].key| == 1 && 'a' <= ms[i].key[0] <= 'z' && Narrow(ms[i].text)
    ensures Narrow(MembersText(ms))
  {
    forall i | 0 <= i < |ms| ensures Narrow(Quote(ms[i].key)) {
      PlainSize(ms[i].key);
      NarrowQuote(ms[i].key);
    }
    NarrowMembers(ms);
  }

  lemma NarrowPayload(s: CursorState, query: string, revision: string)
    requires Narrow(Decimal(s.version)) && Narrow(Quote(s.mode)) && Narrow(Decimal(s.offset))
    requires Narrow(query) && Narrow(revision)
    ensures Narrow(PayloadText(s, query, revision))
  {
    NarrowKeys(PayloadMembers(s, query, revision));
  }

  /** Bytes of UTF-16 that start like an object are taken for UTF-16. */
  lemma DetectedWide(bs: seq<byte>)
    requires |bs| >= 4 && bs[0] == 0x7B && bs[1] == 0 && bs[2] == 0x22
    ensures Detect(bs) == Utf16(Little, false)
  {}

  lemma WideStart(t: Text)
    requires |t| >= 2 && t[0] == 0x7B && t[1] == 0x22 && forall i | 0 <= i < |t| :: t[i] < 0x10000
    ensures var bs := Utf16Le(t); bs[0] == 0x7B && bs[1] == 0 && bs[2] == 0x22
  {
    assert Utf16Le(t)[2..] == Utf16Le(t[1..]);
    assert Utf16Le(t)[2] == Utf16Le(t)[2..][0];
  }

  /** A text that is read as a valid state is read so from UTF-16 as well, if its cursor is short. */
  lemma WideCursor(t: Text, s: CursorState, normalize: Text -> Text) returns (cursor: string)
    requires 2 <= |t| <= 768 && t[0] == 0x7B && t[1] == 0x22
    requires Scalars(t) && forall i | 0 <= i < |t| :: t[i] < 0x10000
    requires Loads(t).Some? && Loads(t).value.Object? && StateOf(Loads(t).value.members) == Ok(s)
    requires Valid(s, normalize)
    ensures DecodeCursor(cursor, normalize) == Ok(s)
  {
    var bytes := Utf16Le(t);
    WideStart(t);
    DetectedWide(bytes);
    Utf16RoundTrip(t);
    FitsOneCursor(bytes);
    Base64RoundTrip(bytes);
    cursor := Base64(bytes);
  }

  lemma PayloadStarts(s: CursorState, query: string, revision: string)
    ensures var t := Codes(PayloadText(s, query, revision));
      |t| >= 2 && t[0] == 0x7B && t[1] == 0x22
  {
    StartsQuoted(PayloadMembers(s, query, revision));
  }

  lemma WideIsTooLong(s: CursorState, revision: string, normalize: Text -> Text)
    requires Valid(s, normalize) && Clean(s) && revision == Chars(s.revision)
    requires |revision| >= 502 && forall i | 0 <= i < |revision| :: 0x800 <= revision[i] as int < 0x10000
    ensures EncodeCursor(s, normalize) == PaginationError("cursor is malformed")
  {
    CodesOfChars(s.revision);
    ThreeByteText(revision);
    EncodesExactly(s, normalize);
  }

  lemma CatalogPayload(s: CursorState, revision: string) returns (t: Text)
    requires s == CursorState(1, "catalog", [], 1, Codes(revision)) && Narrow(revision) && Escape(revision) == revision
    ensures |t| == |revision| + 41 && t[0] == 0x7B && t[1] == 0x22
    ensures Scalars(t) && forall i | 0 <= i < |t| :: t[i] < 0x10000
    ensures Loads(t).Some? && Loads(t).value.Object? && StateOf(Loads(t).value.members) == Ok(s)
  {
    ReadsText("");
    ReadsText(revision);
    assert Codes("") == [] && Decimal(1) == "1";
    NarrowQuote(revision);
    NarrowQuote("");
    NarrowMode();
    NarrowPayload(s, Quote(""), Quote(revision));
    PayloadLength(s, Quote(""), Quote(revision));
    PayloadStarts(s, Quote(""), Quote(revision));
    PayloadReads(s, Quote(""), Quote(revision));
    CharsOfCodes(PayloadText(s, Quote(""), Quote(revision)));
    t := Codes(PayloadText(s, Quote(""), Quote(revision)));
  }

  lemma NarrowMode()
    ensures Narrow(Quote("catalog"))
  {
    PlainSize("catalog");
    NarrowQuote("catalog");
  }

  /** A UTF-16 cursor for a revision of 502 to 727 characters of three bytes each decodes, and the
      encoder has no cursor for its state. */
  lemma WideRevisionDecodes(s: CursorState, revision: string, normalize: Text -> Text)
    returns (cursor: string)
    requires s == CursorState(1, "catalog", [], 1, Codes(revision)) && normalize([]) == []
    requires 502 <= |revision| <= 727 && forall i | 0 <= i < |revision| :: 0x800 <= revision[i] as int < 0x10000
    ensures DecodeCursor(cursor, normalize) == Ok(s)
    ensures EncodeCursor(s, normalize) == PaginationError("cursor is malformed")
  {
    CharsOfCodes(revision);
    ThreeByteText(revision);
    WideIsTooLong(s, revision, normalize);
    var t := CatalogPayload(s, revision);
    cursor := WideCursor(t, s, normalize);
  }
}
