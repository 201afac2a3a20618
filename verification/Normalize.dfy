/** Bounded normalisation of a native result: an object graph, possibly with cycles, becomes a JSON
    value within caps on lists, mappings, strings and nesting. Text is a sequence of code points,
    surrogates included. */
module Normalize {
  import opened Wrappers
  import opened Texts
  import Json

  /** A native value; everything that is not a scalar is an object with an identity. */
  datatype Native =
    | Nothing
    | Boolean(b: bool)
    | Number(n: int)
    | Real(finite: bool, repr: string)
    | String(text: Text)
    | Enum(inner: Native)
    | Printed(text: Text)  // a date's ISO form, the text of a UUID or a path
    | Object(id: nat)

  datatype Pair = Pair(key: Text, child: Native)

  /** How an object takes part in normalisation. A set lists its members in iteration order. */
  datatype Shape =
    | Converts(result: Native)   // `to_dict` or `model_dump`
    | Pairs(items: seq<Pair>)    // a dataclass's fields or a mapping's items, keys as text
    | SetOf(children: seq<Native>)
    | ListOf(children: seq<Native>)
    | Opaque

  datatype Node = Node(typeName: Text, shape: Shape)

  /** The objects by identity; one that is not listed is a bare `object`. */
  type Graph = map<nat, Node>

  datatype Value =
    | Null
    | Bool(b: bool)
    | Int(n: int)
    | Float(finite: bool, repr: string)
    | Str(text: Text)
    | List(items: seq<Value>)
    | Dict(keys: seq<Text>, values: seq<Value>)

  datatype Caps = Caps(item: nat, text: nat, mapping: nat)

  datatype Bounded = Bounded(value: Value, truncated: bool, totalCount: Option<nat>)

  // ---------------------------------------------------------------- text

  const ELLIPSIS: Text := [0x2026]

  function Clean(t: Text): (r: Text)
    ensures |r| == |t|
  {
    seq(|t|, i requires 0 <= i < |t| => if Surrogate(t[i]) then 0xFFFD else t[i])
  }

  /** `_bounded_string`. */
  function BoundedString(t: Text, limit: nat): (Text, bool) {
    if |t| > limit then (Clean(t[..limit]) + ELLIPSIS, true)
    else (Clean(t), Clean(t) != t)
  }

  /** A string is copied within its limit and one ellipsis, never with a surrogate, and reported as
      changed exactly when it is not the string it was. */
  lemma BoundedStringMeans(t: Text, limit: nat)
    ensures var (r, changed) := BoundedString(t, limit);
      && |r| <= limit + 1 && Scalars(r)
      && (changed <==> |t| > limit || !Scalars(t))
      && (!changed ==> r == t)
      && (|t| > limit ==> |r| == limit + 1)
  {
    if Scalars(t) {
      assert Clean(t) == t;
    } else {
      var i :| 0 <= i < |t| && Surrogate(t[i]);
      assert Clean(t)[i] != t[i];
    }
  }

  function Marker(typeName: Text): Text {
    Codes("<") + typeName + Codes(">")
  }

  function CycleMarker(typeName: Text): Text {
    Codes("<") + typeName + Codes(":cycle>")
  }

  function TypeName(g: Graph, id: nat): Text {
    if id in g then g[id].typeName else Codes("builtins.object")
  }

  // ---------------------------------------------------------------- an ordered dictionary

  function Replace(keys: seq<Text>, values: seq<Value>, key: Text, value: Value): (r: seq<Value>)
    requires |keys| == |values|
    ensures |r| == |values|
  {
    seq(|values|, i requires 0 <= i < |values| => if keys[i] == key then value else values[i])
  }

  /** An assignment: a known key keeps its place and gets the new value, a new one goes last. */
  function Put(d: Value, key: Text, value: Value): (r: Value)
    requires d.Dict? && |d.keys| == |d.values|
    ensures r.Dict? && |r.keys| == |r.values|
  {
    if key in d.keys then Dict(d.keys, Replace(d.keys, d.values, key, value))
    else Dict(d.keys + [key], d.values + [value])
  }

  // ---------------------------------------------------------------- the suffix search

  function Suffixed(base: Text, n: nat): Text {
    base + Codes("#" + Json.Digits(n))
  }

  lemma {:induction false} DigitsInjective(m: nat, n: nat)
    requires Json.Digits(m) == Json.Digits(n)
    ensures m == n
  {
    var s := Json.Digits(m);
    assert s[|s| - 1] == Json.Digit(m % 10) == Json.Digit(n % 10);
    if m >= 10 && n >= 10 {
      assert Json.Digits(m / 10) == s[..|s| - 1] == Json.Digits(n / 10);
      DigitsInjective(m / 10, n / 10);
    }
  }

  lemma SuffixedInjective(base: Text, m: nat, n: nat)
    requires Suffixed(base, m) == Suffixed(base, n)
    ensures m == n
  {
    var s, t := "#" + Json.Digits(m), "#" + Json.Digits(n);
    assert Codes(s) == Suffixed(base, m)[|base|..] == Codes(t);
    assert |s| == |Codes(s)| == |Codes(t)| == |t|;
    forall i | 0 <= i < |s| ensures s[i] == t[i] {
      assert Codes(s)[i] == Codes(t)[i];
    }
    assert Json.Digits(m) == s[1..] == t[1..] == Json.Digits(n);
    DigitsInjective(m, n);
  }

  /** The candidates from n on that are in use. */
  ghost function Taken(keys: seq<Text>, base: Text, n: nat): set<Text> {
    set k | k in keys && exists m: nat | m >= n :: k == Suffixed(base, m)
  }

  lemma TakenShrinks(keys: seq<Text>, base: Text, n: nat)
    requires Suffixed(base, n) in keys
    ensures |Taken(keys, base, n)| == |Taken(keys, base, n + 1)| + 1
  {
    var x := Suffixed(base, n);
    if x in Taken(keys, base, n + 1) {
      var m: nat :| m >= n + 1 && x == Suffixed(base, m);
      SuffixedInjective(base, m, n);
    }
    forall k | k in Taken(keys, base, n) && k != x ensures k in Taken(keys, base, n + 1) {
      var m: nat :| m >= n && k == Suffixed(base, m);
      assert m >= n + 1;
    }
    assert Taken(keys, base, n) == Taken(keys, base, n + 1) + {x};
  }

  /** The search for a free suffix ends: it passes only over keys in use, each of them once. */
  function FreeSuffix(keys: seq<Text>, base: Text, n: nat): nat
    decreases |Taken(keys, base, n)|
  {
    if Suffixed(base, n) in keys then
      TakenShrinks(keys, base, n);
      FreeSuffix(keys, base, n + 1)
    else n
  }

  /** It finds the first free one, at most as far on as there are keys. */
  lemma {:induction false} FreeSuffixIsFirst(keys: seq<Text>, base: Text, n: nat)
    ensures var r := FreeSuffix(keys, base, n);
      && n <= r <= n + |Taken(keys, base, n)|
      && Suffixed(base, r) !in keys
      && forall m: nat | n <= m < r :: Suffixed(base, m) in keys
    decreases |Taken(keys, base, n)|
  {
    if Suffixed(base, n) in keys {
      TakenShrinks(keys, base, n);
      FreeSuffixIsFirst(keys, base, n + 1);
    }
  }

  lemma {:induction false} SeqSetSize(keys: seq<Text>, s: set<Text>)
    requires forall k | k in s :: k in keys
    ensures |s| <= |keys|
  {
    if keys != [] {
      SeqSetSize(keys[1..], s - {keys[0]});
    } else {
      assert s == {};
    }
  }

  /** The name a mapping key gets beside the names in use. */
  function NameFor(keys: seq<Text>, key: Text, limit: nat): Text {
    var (base, changed) := BoundedString(key, limit);
    if changed && base in keys then Suffixed(base, FreeSuffix(keys, base, 2)) else base
  }

  predicate Changed(key: Text, limit: nat) {
    BoundedString(key, limit).1
  }

  /** How a key is named beside the names in use. */
  type Naming = (seq<Text>, Text) -> Text

  function Within(limit: nat): Naming {
    (used, key) => NameFor(used, key, limit)
  }

  /** The dictionary after n assignments, each under the name its key gets then. */
  function AssembleBy(name: Naming, keys: seq<Text>, values: seq<Value>, n: nat): (r: Value)
    requires n <= |keys| == |values|
    ensures r.Dict? && |r.keys| == |r.values| <= n
  {
    if n == 0 then Dict([], [])
    else
      var d := AssembleBy(name, keys, values, n - 1);
      Put(d, name(d.keys, keys[n - 1]), values[n - 1])
  }

  /** `_bounded_mapping` with the children already normalised. */
  function Assemble(keys: seq<Text>, values: seq<Value>, limit: nat, n: nat): (r: Value)
    requires n <= |keys| == |values|
    ensures r.Dict? && |r.keys| == |r.values| <= n
  {
    AssembleBy(Within(limit), keys, values, n)
  }

  // ---------------------------------------------------------------- normalisation

  function Least(a: nat, b: nat): nat {
    if a <= b then a else b
  }

  function Values(bs: seq<Bounded>): seq<Value> {
    seq(|bs|, i requires 0 <= i < |bs| => bs[i].value)
  }

  predicate AnyTruncated(bs: seq<Bounded>) {
    exists i | 0 <= i < |bs| :: bs[i].truncated
  }

  predicate AnyChanged(keys: seq<Text>, limit: nat) {
    exists i | 0 <= i < |keys| :: Changed(keys[i], limit)
  }

  function Keys(items: seq<Pair>): seq<Text> {
    seq(|items|, i requires 0 <= i < |items| => items[i].key)
  }

  function Children(items: seq<Pair>): seq<Native> {
    seq(|items|, i requires 0 <= i < |items| => items[i].child)
  }

  function Insert<T>(key: T -> int, x: T, s: seq<T>): seq<T> {
    if s == [] then [x]
    else if key(x) <= key(s[0]) then [x] + s
    else [s[0]] + Insert(key, x, s[1..])
  }

  /** Python's stable sort. */
  function Sort<T>(key: T -> int, s: seq<T>): (r: seq<T>)
    ensures |r| == |s|
  {
    if s == [] then []
    else
      InsertMembers(key, s[0], Sort(key, s[1..]));
      Insert(key, s[0], Sort(key, s[1..]))
  }

  lemma {:induction false} InsertMembers<T>(key: T -> int, x: T, s: seq<T>)
    ensures |Insert(key, x, s)| == |s| + 1
    ensures forall y :: y in Insert(key, x, s) <==> y == x || y in s
  {
    if s != [] && key(x) > key(s[0]) {
      InsertMembers(key, x, s[1..]);
      assert s == [s[0]] + s[1..];
    }
  }

  lemma {:induction false} SortMembers<T>(key: T -> int, s: seq<T>)
    ensures forall y :: y in Sort(key, s) <==> y in s
  {
    if s != [] {
      SortMembers(key, s[1..]);
      InsertMembers(key, s[0], Sort(key, s[1..]));
      assert s == [s[0]] + s[1..];
    }
  }

  /** Set members are ordered by their JSON text; only that order matters here. */
  function ByValue(rank: Value -> int): Bounded -> int {
    (b: Bounded) => rank(b.value)
  }

  function BoundedText(t: Text, limit: nat): Bounded {
    var (text, changed) := BoundedString(t, limit);
    Bounded(Str(text), changed, None)
  }

  /** `_bounded_json_value`. Every object on the way down is active, so the recursion ends. */
  function BoundedValue(g: Graph, active: set<nat>, v: Native, caps: Caps, depth: int, rank: Value -> int): Bounded
    decreases g.Keys - active, 0, v
  {
    match v
    case Nothing => Bounded(Null, false, None)
    case Boolean(b) => Bounded(Bool(b), false, None)
    case Number(n) => Bounded(Int(n), false, None)
    case Real(finite, repr) => if finite then Bounded(Float(true, repr), false, None) else Bounded(Null, true, None)
    case String(t) => BoundedText(t, caps.text)
    case Printed(t) => BoundedText(t, caps.text)
    case Enum(inner) => BoundedValue(g, active, inner, caps, depth, rank)
    case Object(id) =>
      if depth <= 0 then Bounded(Str(Codes("[truncated]")), true, None)
      else if id in active then Bounded(Str(CycleMarker(TypeName(g, id))), true, None)
      else if id !in g then Bounded(Str(Marker(TypeName(g, id))), false, None)
      else BoundedShape(g, active + {id}, g[id], caps, depth, rank)
  }

  function BoundedShape(g: Graph, active: set<nat>, node: Node, caps: Caps, depth: int, rank: Value -> int): Bounded
    decreases g.Keys - active, 2
  {
    match node.shape
    case Opaque => Bounded(Str(Marker(node.typeName)), false, None)
    case Converts(result) => BoundedValue(g, active, result, caps, depth, rank)
    case Pairs(items) =>
      var n := Least(|items|, caps.mapping);
      var outs := BoundedEach(g, active, Children(items[..n]), caps, depth - 1, rank);
      var keys := Keys(items[..n]);
      Bounded(Assemble(keys, Values(outs), caps.text, n),
              |items| > caps.mapping || AnyChanged(keys, caps.text) || AnyTruncated(outs), None)
    case SetOf(children) =>
      var outs := Sort(ByValue(rank), BoundedEach(g, active, children, caps, depth - 1, rank));
      var kept := outs[..Least(|children|, caps.item)];
      Bounded(List(Values(kept)), |children| > caps.item || AnyTruncated(kept), Some(|children|))
    case ListOf(children) =>
      var kept := BoundedEach(g, active, children[..Least(|children|, caps.item)], caps, depth - 1, rank);
      Bounded(List(Values(kept)), |children| > caps.item || AnyTruncated(kept), Some(|children|))
  }

  function BoundedEach(g: Graph, active: set<nat>, children: seq<Native>, caps: Caps, depth: int,
                       rank: Value -> int): (r: seq<Bounded>)
    ensures |r| == |children|
    decreases g.Keys - active, 1
  {
    seq(|children|, i requires 0 <= i < |children| => BoundedValue(g, active, children[i], caps, depth, rank))
  }

  // ---------------------------------------------------------------- normalisation without bounds

  /** The dictionary after n plain assignments. */
  function PutAll(keys: seq<Text>, values: seq<Value>, n: nat): (r: Value)
    requires n <= |keys| == |values|
    ensures r.Dict? && |r.keys| == |r.values|
  {
    if n == 0 then Dict([], []) else Put(PutAll(keys, values, n - 1), keys[n - 1], values[n - 1])
  }

  /** `_json_value`. */
  function JsonValue(g: Graph, active: set<nat>, v: Native, rank: Value -> int): Value
    decreases g.Keys - active, 0, v
  {
    match v
    case Nothing => Null
    case Boolean(b) => Bool(b)
    case Number(n) => Int(n)
    case Real(finite, repr) => Float(finite, repr)
    case String(t) => Str(t)
    case Printed(t) => Str(t)
    case Enum(inner) => JsonValue(g, active, inner, rank)
    case Object(id) =>
      if id in active then Str(CycleMarker(TypeName(g, id)))
      else if id !in g then Str(Marker(TypeName(g, id)))
      else JsonShape(g, active + {id}, g[id], rank)
  }

  function JsonShape(g: Graph, active: set<nat>, node: Node, rank: Value -> int): Value
    decreases g.Keys - active, 2
  {
    match node.shape
    case Opaque => Str(Marker(node.typeName))
    case Converts(result) => JsonValue(g, active, result, rank)
    case Pairs(items) => PutAll(Keys(items), JsonEach(g, active, Children(items), rank), |items|)
    case SetOf(children) => List(Sort(rank, JsonEach(g, active, children, rank)))
    case ListOf(children) => List(JsonEach(g, active, children, rank))
  }

  function JsonEach(g: Graph, active: set<nat>, children: seq<Native>, rank: Value -> int): (r: seq<Value>)
    ensures |r| == |children|
    decreases g.Keys - active, 1
  {
    seq(|children|, i requires 0 <= i < |children| => JsonValue(g, active, children[i], rank))
  }

  // ---------------------------------------------------------------- within the caps

  predicate Placeholder(g: Graph, t: Text) {
    || t == Codes("[truncated]")
    || t in {Marker(Codes("builtins.object")), CycleMarker(Codes("builtins.object"))}
    || exists id | id in g :: t == Marker(TypeName(g, id)) || t == CycleMarker(TypeName(g, id))
  }

  ghost predicate Distinct(keys: seq<Text>) {
    forall i, j | 0 <= i < j < |keys| :: keys[i] != keys[j]
  }

  /** A key is a copied string, with at most a suffix that counts the keys before it. */
  function KeyBound(caps: Caps): nat {
    caps.text + 2 + |Json.Digits(2 + caps.mapping)|
  }

  /** What the bounds promise of a value: list lengths, mapping sizes, string lengths, and containers
      nested at most `depth` deep; floats are finite, and keys are not repeated. */
  ghost predicate Fits(g: Graph, v: Value, caps: Caps, depth: int) {
    match v
    case Str(t) => |t| <= caps.text + 1 || Placeholder(g, t)
    case Float(finite, _) => finite
    case List(items) =>
      depth >= 1 && |items| <= caps.item && forall i | 0 <= i < |items| :: Fits(g, items[i], caps, depth - 1)
    case Dict(keys, values) =>
      && depth >= 1 && |keys| == |values| <= caps.mapping && Distinct(keys)
      && (forall i | 0 <= i < |keys| :: |keys[i]| <= KeyBound(caps))
      && (forall i | 0 <= i < |values| :: Fits(g, values[i], caps, depth - 1))
    case _ => true
  }

  lemma NameForFits(keys: seq<Text>, key: Text, caps: Caps)
    requires |keys| <= caps.mapping
    ensures |NameFor(keys, key, caps.text)| <= KeyBound(caps)
  {
    var (base, changed) := BoundedString(key, caps.text);
    BoundedStringMeans(key, caps.text);
    if changed && base in keys {
      var n := FreeSuffix(keys, base, 2);
      FreeSuffixIsFirst(keys, base, 2);
      SeqSetSize(keys, Taken(keys, base, 2));
      Json.DigitsMonotone(n, 2 + caps.mapping);
    }
  }

  lemma PutFits(g: Graph, d: Value, key: Text, value: Value, caps: Caps, depth: int)
    requires d.Dict? && Fits(g, d, caps, depth) && |d.keys| < caps.mapping
    requires |key| <= KeyBound(caps) && Fits(g, value, caps, depth - 1)
    ensures Fits(g, Put(d, key, value), caps, depth)
  {}

  lemma {:induction false} AssembleFits(g: Graph, keys: seq<Text>, values: seq<Value>, caps: Caps, depth: int,
                                        n: nat)
    requires n <= |keys| == |values| && n <= caps.mapping && depth >= 1
    requires forall i | 0 <= i < |values| :: Fits(g, values[i], caps, depth - 1)
    ensures Fits(g, Assemble(keys, values, caps.text, n), caps, depth)
  {
    if n > 0 {
      AssembleFits(g, keys, values, caps, depth, n - 1);
      var d := Assemble(keys, values, caps.text, n - 1);
      NameForFits(d.keys, keys[n - 1], caps);
      PutFits(g, d, NameFor(d.keys, keys[n - 1], caps.text), values[n - 1], caps, depth);
    }
  }

  ghost predicate AllFit(g: Graph, bs: seq<Bounded>, caps: Caps, depth: int) {
    forall b | b in bs :: Fits(g, b.value, caps, depth)
  }

  lemma ValuesFit(g: Graph, bs: seq<Bounded>, caps: Caps, depth: int)
    requires AllFit(g, bs, caps, depth)
    ensures forall i | 0 <= i < |bs| :: Fits(g, Values(bs)[i], caps, depth)
  {
    forall i | 0 <= i < |bs| ensures Fits(g, Values(bs)[i], caps, depth) {
      assert bs[i] in bs;
    }
  }

  /** Whatever the object graph, cycles and all, normalisation keeps every cap, and a total count
      is the number of members that a list of exactly min(count, cap) items stands for. */
  lemma {:induction false} NormalizedFits(g: Graph, active: set<nat>, v: Native, caps: Caps, depth: int,
                                          rank: Value -> int)
    ensures var b := BoundedValue(g, active, v, caps, depth, rank);
      && Fits(g, b.value, caps, depth)
      && (b.totalCount.Some? ==> b.value.List? && |b.value.items| == Least(b.totalCount.value, caps.item))
    decreases g.Keys - active, 0, v
  {
    match v {
      case String(t) => BoundedStringMeans(t, caps.text);
      case Printed(t) => BoundedStringMeans(t, caps.text);
      case Enum(inner) => NormalizedFits(g, active, inner, caps, depth, rank);
      case Object(id) =>
        if depth > 0 && id !in active && id in g {
          ShapeFits(g, active + {id}, id, caps, depth, rank);
        }
      case _ =>
    }
  }

  lemma {:induction false} ShapeFits(g: Graph, active: set<nat>, id: nat, caps: Caps, depth: int,
                                     rank: Value -> int)
    requires id in g && depth >= 1
    ensures var b := BoundedShape(g, active, g[id], caps, depth, rank);
      && Fits(g, b.value, caps, depth)
      && (b.totalCount.Some? ==> b.value.List? && |b.value.items| == Least(b.totalCount.value, caps.item))
    decreases g.Keys - active, 2
  {
    match g[id].shape {
      case Opaque => assert Placeholder(g, Marker(TypeName(g, id)));
      case Converts(result) => NormalizedFits(g, active, result, caps, depth, rank);
      case Pairs(items) =>
        var n := Least(|items|, caps.mapping);
        var outs := BoundedEach(g, active, Children(items[..n]), caps, depth - 1, rank);
        EachFits(g, active, Children(items[..n]), caps, depth - 1, rank);
        ValuesFit(g, outs, caps, depth - 1);
        AssembleFits(g, Keys(items[..n]), Values(outs), caps, depth, n);
      case SetOf(children) =>
        var outs := BoundedEach(g, active, children, caps, depth - 1, rank);
        EachFits(g, active, children, caps, depth - 1, rank);
        SortMembers(ByValue(rank), outs);
        ValuesFit(g, Sort(ByValue(rank), outs)[..Least(|children|, caps.item)], caps, depth - 1);
      case ListOf(children) =>
        var kept := children[..Least(|children|, caps.item)];
        EachFits(g, active, kept, caps, depth - 1, rank);
        ValuesFit(g, BoundedEach(g, active, kept, caps, depth - 1, rank), caps, depth - 1);
    }
  }

  lemma {:induction false} EachFits(g: Graph, active: set<nat>, children: seq<Native>, caps: Caps, depth: int,
                                    rank: Value -> int)
    ensures AllFit(g, BoundedEach(g, active, children, caps, depth, rank), caps, depth)
    decreases g.Keys - active, 1
  {
    forall i | 0 <= i < |children|
      ensures Fits(g, BoundedEach(g, active, children, caps, depth, rank)[i].value, caps, depth)
    {
      NormalizedFits(g, active, children[i], caps, depth, rank);
    }
  }

  // ---------------------------------------------------------------- nothing was lost

  lemma {:induction false} AssembleUnchanged(keys: seq<Text>, values: seq<Value>, limit: nat, n: nat)
    requires n <= |keys| == |values| && !AnyChanged(keys, limit)
    ensures Assemble(keys, values, limit, n) == PutAll(keys, values, n)
  {
    if n > 0 {
      AssembleUnchanged(keys, values, limit, n - 1);
      BoundedStringMeans(keys[n - 1], limit);
      assert !Changed(keys[n - 1], limit);
    }
  }

  lemma {:induction false} InsertValues(rank: Value -> int, x: Bounded, s: seq<Bounded>)
    ensures Values(Insert(ByValue(rank), x, s)) == Insert(rank, x.value, Values(s))
  {
    if s != [] {
      InsertValues(rank, x, s[1..]);
      assert Values(s)[1..] == Values(s[1..]);
    }
  }

  lemma {:induction false} SortValues(rank: Value -> int, s: seq<Bounded>)
    ensures Values(Sort(ByValue(rank), s)) == Sort(rank, Values(s))
  {
    if s != [] {
      SortValues(rank, s[1..]);
      InsertValues(rank, s[0], Sort(ByValue(rank), s[1..]));
      assert Values(s)[1..] == Values(s[1..]);
    }
  }

  /** Normalisation that reports nothing truncated is the unbounded conversion. */
  lemma {:induction false} UntruncatedIsComplete(g: Graph, active: set<nat>, v: Native, caps: Caps, depth: int,
                                                 rank: Value -> int)
    requires !BoundedValue(g, active, v, caps, depth, rank).truncated
    ensures BoundedValue(g, active, v, caps, depth, rank).value == JsonValue(g, active, v, rank)
    decreases g.Keys - active, 0, v
  {
    match v {
      case String(t) => BoundedStringMeans(t, caps.text);
      case Printed(t) => BoundedStringMeans(t, caps.text);
      case Enum(inner) => UntruncatedIsComplete(g, active, inner, caps, depth, rank);
      case Object(id) =>
        if id in g {
          ShapeComplete(g, active + {id}, g[id], caps, depth, rank);
        }
      case _ =>
    }
  }

  lemma {:induction false} ShapeComplete(g: Graph, active: set<nat>, node: Node, caps: Caps, depth: int,
                                         rank: Value -> int)
    requires !BoundedShape(g, active, node, caps, depth, rank).truncated
    ensures BoundedShape(g, active, node, caps, depth, rank).value == JsonShape(g, active, node, rank)
    decreases g.Keys - active, 2
  {
    match node.shape {
      case Opaque =>
      case Converts(result) => UntruncatedIsComplete(g, active, result, caps, depth, rank);
      case Pairs(items) =>
        assert items[..|items|] == items;
        var outs := BoundedEach(g, active, Children(items), caps, depth - 1, rank);
        EachComplete(g, active, Children(items), caps, depth - 1, rank);
        AssembleUnchanged(Keys(items), Values(outs), caps.text, |items|);
      case SetOf(children) =>
        var outs := BoundedEach(g, active, children, caps, depth - 1, rank);
        var sorted := Sort(ByValue(rank), outs);
        assert sorted[..|children|] == sorted;
        SortMembers(ByValue(rank), outs);
        forall i | 0 <= i < |outs| ensures !outs[i].truncated {
          assert outs[i] in sorted;
        }
        EachComplete(g, active, children, caps, depth - 1, rank);
        SortValues(rank, outs);
      case ListOf(children) =>
        assert children[..|children|] == children;
        EachComplete(g, active, children, caps, depth - 1, rank);
    }
  }

  lemma {:induction false} EachComplete(g: Graph, active: set<nat>, children: seq<Native>, caps: Caps, depth: int,
                                        rank: Value -> int)
    requires !AnyTruncated(BoundedEach(g, active, children, caps, depth, rank))
    ensures Values(BoundedEach(g, active, children, caps, depth, rank)) == JsonEach(g, active, children, rank)
    decreases g.Keys - active, 1
  {
    var outs := BoundedEach(g, active, children, caps, depth, rank);
    forall i | 0 <= i < |children| ensures outs[i].value == JsonEach(g, active, children, rank)[i] {
      assert !outs[i].truncated;
      UntruncatedIsComplete(g, active, children[i], caps, depth, rank);
    }
  }

  // ---------------------------------------------------------------- every entry survives

  /** A name is new unless its key is taken over unchanged and already stands there. */
  lemma NameIsNew(keys: seq<Text>, key: Text, limit: nat)
    ensures NameFor(keys, key, limit) in keys <==> !Changed(key, limit) && key in keys
    ensures !Changed(key, limit) ==> NameFor(keys, key, limit) == key
    ensures |key| > limit ==> |NameFor(keys, key, limit)| > limit
  {
    BoundedStringMeans(key, limit);
    FreeSuffixIsFirst(keys, BoundedString(key, limit).0, 2);
  }

  /** The names that the first n keys get, from the keys alone. */
  function NamesBy(name: Naming, keys: seq<Text>, n: nat): (r: seq<Text>)
    requires n <= |keys|
    ensures |r| <= n
  {
    if n == 0 then []
    else
      var used := NamesBy(name, keys, n - 1);
      var next := name(used, keys[n - 1]);
      if next in used then used else used + [next]
  }

  /** Every key gets a name that is not in use. */
  predicate AllNew(name: Naming, keys: seq<Text>, n: nat)
    requires n <= |keys|
  {
    n == 0 || (AllNew(name, keys, n - 1)
               && name(NamesBy(name, keys, n - 1), keys[n - 1]) !in NamesBy(name, keys, n - 1))
  }

  /** Whatever the children are, the dictionary has these names. */
  lemma {:induction false} NamesAreKeys(name: Naming, keys: seq<Text>, values: seq<Value>, n: nat)
    requires n <= |keys| == |values|
    ensures AssembleBy(name, keys, values, n).keys == NamesBy(name, keys, n)
  {
    if n > 0 {
      NamesAreKeys(name, keys, values, n - 1);
    }
  }

  lemma {:induction false} NewNamesCount(name: Naming, keys: seq<Text>, n: nat)
    requires n <= |keys|
    ensures |NamesBy(name, keys, n)| == n <==> AllNew(name, keys, n)
  {
    if n > 0 {
      NewNamesCount(name, keys, n - 1);
    }
  }

  lemma {:induction false} NewNamesKeepValues(name: Naming, keys: seq<Text>, values: seq<Value>, n: nat)
    requires n <= |keys| == |values| && AllNew(name, keys, n)
    ensures AssembleBy(name, keys, values, n).values == values[..n]
  {
    if n > 0 {
      NewNamesKeepValues(name, keys, values, n - 1);
      NamesAreKeys(name, keys, values, n - 1);
      assert values[..n] == values[..n - 1] + [values[n - 1]];
    }
  }

  function Names(keys: seq<Text>, limit: nat, n: nat): seq<Text>
    requires n <= |keys|
  {
    NamesBy(Within(limit), keys, n)
  }

  /** No key that is taken over unchanged is a name already when its turn comes. */
  predicate NoneInUse(keys: seq<Text>, limit: nat, n: nat)
    requires n <= |keys|
  {
    n == 0
    || (NoneInUse(keys, limit, n - 1)
        && (Changed(keys[n - 1], limit) || keys[n - 1] !in Names(keys, limit, n - 1)))
  }

  lemma {:induction false} NoneInUseIsAllNew(keys: seq<Text>, limit: nat, n: nat)
    requires n <= |keys|
    ensures NoneInUse(keys, limit, n) <==> AllNew(Within(limit), keys, n)
  {
    if n > 0 {
      NoneInUseIsAllNew(keys, limit, n - 1);
      NameIsNew(Names(keys, limit, n - 1), keys[n - 1], limit);
    }
  }

  /** All entries survive exactly when no key is in use already. */
  lemma EntriesSurviveExactly(keys: seq<Text>, values: seq<Value>, limit: nat, n: nat)
    requires n <= |keys| == |values|
    ensures |Assemble(keys, values, limit, n).keys| == n <==> NoneInUse(keys, limit, n)
  {
    NoneInUseIsAllNew(keys, limit, n);
    NewNamesCount(Within(limit), keys, n);
    NamesAreKeys(Within(limit), keys, values, n);
  }

  /** And then each entry has its own value, in order. */
  lemma SurvivorsKeepValues(keys: seq<Text>, values: seq<Value>, limit: nat, n: nat)
    requires n <= |keys| == |values| && NoneInUse(keys, limit, n)
    ensures Assemble(keys, values, limit, n).values == values[..n]
  {
    NoneInUseIsAllNew(keys, limit, n);
    NewNamesKeepValues(Within(limit), keys, values, n);
  }

  /** Names of keys that fit are the keys, names of longer ones do not fit. */
  ghost predicate NamedAfter(names: seq<Text>, keys: seq<Text>, limit: nat, n: nat) {
    && |names| == n <= |keys|
    && forall i | 0 <= i < n :: if |keys[i]| <= limit then names[i] == keys[i] else |names[i]| > limit
  }

  lemma NewKeyIsNamed(names: seq<Text>, keys: seq<Text>, limit: nat, n: nat)
    requires n < |keys| && Distinct(keys) && Scalars(keys[n]) && NamedAfter(names, keys, limit, n)
    ensures Changed(keys[n], limit) || keys[n] !in names
    ensures NamedAfter(names + [NameFor(names, keys[n], limit)], keys, limit, n + 1)
  {
    BoundedStringMeans(keys[n], limit);
    NameIsNew(names, keys[n], limit);
  }

  /** Distinct keys without surrogates all survive, in their order. */
  lemma {:induction false} DistinctScalarKeysSurvive(keys: seq<Text>, limit: nat, n: nat)
    requires n <= |keys| && Distinct(keys) && forall i | 0 <= i < |keys| :: Scalars(keys[i])
    ensures NoneInUse(keys, limit, n)
    ensures NamedAfter(Names(keys, limit, n), keys, limit, n)
  {
    if n > 0 {
      DistinctScalarKeysSurvive(keys, limit, n - 1);
      NewKeyIsNamed(Names(keys, limit, n - 1), keys, limit, n - 1);
      NameIsNew(Names(keys, limit, n - 1), keys[n - 1], limit);
    }
  }

  /** So a mapping with such keys keeps exactly min(n, mapping cap) entries, in order. */
  lemma MappingKeepsEntries(g: Graph, active: set<nat>, node: Node, caps: Caps, depth: int, rank: Value -> int)
    requires node.shape.Pairs?
    requires Distinct(Keys(node.shape.items))
    requires forall i | 0 <= i < |node.shape.items| :: Scalars(node.shape.items[i].key)
    ensures var b := BoundedShape(g, active, node, caps, depth, rank);
      var n := Least(|node.shape.items|, caps.mapping);
      && b.value.Dict? && |b.value.keys| == |b.value.values| == n
      && NamedAfter(b.value.keys, Keys(node.shape.items), caps.text, n)
      && forall i | 0 <= i < n ::
           b.value.values[i] == BoundedValue(g, active, node.shape.items[i].child, caps, depth - 1, rank).value
  {
    var n := Least(|node.shape.items|, caps.mapping);
    var kept := node.shape.items[..n];
    forall i, j | 0 <= i < j < n ensures Keys(kept)[i] != Keys(kept)[j] {
      assert Keys(node.shape.items)[i] != Keys(node.shape.items)[j];
    }
    var values := Values(BoundedEach(g, active, Children(kept), caps, depth - 1, rank));
    DistinctScalarKeysSurvive(Keys(kept), caps.text, n);
    NamesAreKeys(Within(caps.text), Keys(kept), values, n);
    SurvivorsKeepValues(Keys(kept), values, caps.text, n);
    assert values[..n] == values;
    assert forall i | 0 <= i < n :: Keys(kept)[i] == Keys(node.shape.items)[i];
  }

  /** With surrogates an entry can be lost: two distinct keys, one name, and the later value wins. */
  lemma SurrogateKeysCollide(a: Value, b: Value, limit: nat)
    requires limit >= 1
    ensures Assemble([[0xD800], [0xFFFD]], [a, b], limit, 2) == Dict([[0xFFFD]], [b])
  {
    assert Clean([0xD800]) == [0xFFFD] && Clean([0xFFFD]) == [0xFFFD];
    assert Assemble([[0xD800], [0xFFFD]], [a, b], limit, 1) == Dict([[0xFFFD]], [a]);
  }

  // ---------------------------------------------------------------- encodable

  /** Nothing in the value that compact JSON in UTF-8 cannot hold. */
  ghost predicate Encodable(v: Value) {
    match v
    case Str(t) => Scalars(t)
    case Float(finite, _) => finite
    case List(items) => forall i | 0 <= i < |items| :: Encodable(items[i])
    case Dict(keys, values) =>
      && (forall i | 0 <= i < |keys| :: Scalars(keys[i]))
      && (forall i | 0 <= i < |values| :: Encodable(values[i]))
    case _ => true
  }

  ghost predicate TypesNamed(g: Graph) {
    forall id | id in g :: Scalars(g[id].typeName)
  }

  lemma MarkersEncode(typeName: Text)
    requires Scalars(typeName)
    ensures Scalars(Marker(typeName)) && Scalars(CycleMarker(typeName))
  {
    CodesAreScalars("<");
    CodesAreScalars(">");
    CodesAreScalars(":cycle>");
  }

  lemma CodesAreScalars(s: string)
    ensures Scalars(Codes(s))
  {
    forall c | c in Codes(s) ensures !Surrogate(c) {
      var i :| 0 <= i < |s| && Codes(s)[i] == c;
    }
  }

  lemma SuffixedIsScalar(base: Text, n: nat)
    requires Scalars(base)
    ensures Scalars(Suffixed(base, n))
  {
    CodesAreScalars("#" + Json.Digits(n));
  }

  lemma {:induction false} AssembleEncodes(keys: seq<Text>, values: seq<Value>, limit: nat, n: nat)
    requires n <= |keys| == |values| && forall i | 0 <= i < |values| :: Encodable(values[i])
    ensures Encodable(Assemble(keys, values, limit, n))
  {
    if n > 0 {
      AssembleEncodes(keys, values, limit, n - 1);
      var used := Assemble(keys, values, limit, n - 1).keys;
      BoundedStringMeans(keys[n - 1], limit);
      var base := BoundedString(keys[n - 1], limit).0;
      if base in used {
        SuffixedIsScalar(base, FreeSuffix(used, base, 2));
      }
    }
  }

  ghost predicate AllEncode(bs: seq<Bounded>) {
    forall b | b in bs :: Encodable(b.value)
  }

  lemma ValuesEncode(bs: seq<Bounded>)
    requires AllEncode(bs)
    ensures Encodable(List(Values(bs)))
    ensures forall i | 0 <= i < |bs| :: Encodable(Values(bs)[i])
  {
    forall i | 0 <= i < |bs| ensures Encodable(Values(bs)[i]) {
      assert bs[i] in bs;
    }
  }

  /** Whatever strings and floats the graph holds, the normalised value can be written as compact JSON in
      UTF-8: no surrogate is left in any string or key, and no float is infinite or not a number. */
  lemma {:induction false} NormalizedEncodes(g: Graph, active: set<nat>, v: Native, caps: Caps, depth: int,
                                             rank: Value -> int)
    requires TypesNamed(g)
    ensures Encodable(BoundedValue(g, active, v, caps, depth, rank).value)
    decreases g.Keys - active, 0, v
  {
    match v {
      case String(t) => BoundedStringMeans(t, caps.text);
      case Printed(t) => BoundedStringMeans(t, caps.text);
      case Enum(inner) => NormalizedEncodes(g, active, inner, caps, depth, rank);
      case Object(id) =>
        CodesAreScalars("builtins.object");
        CodesAreScalars("[truncated]");
        MarkersEncode(TypeName(g, id));
        if depth > 0 && id !in active && id in g {
          ShapeEncodes(g, active + {id}, g[id], caps, depth, rank);
        }
      case _ =>
    }
  }

  lemma {:induction false} ShapeEncodes(g: Graph, active: set<nat>, node: Node, caps: Caps, depth: int,
                                        rank: Value -> int)
    requires TypesNamed(g) && Scalars(node.typeName)
    ensures Encodable(BoundedShape(g, active, node, caps, depth, rank).value)
    decreases g.Keys - active, 2
  {
    match node.shape {
      case Opaque => MarkersEncode(node.typeName);
      case Converts(result) => NormalizedEncodes(g, active, result, caps, depth, rank);
      case Pairs(items) =>
        var kept := items[..Least(|items|, caps.mapping)];
        EachEncodes(g, active, Children(kept), caps, depth - 1, rank);
        var outs := BoundedEach(g, active, Children(kept), caps, depth - 1, rank);
        ValuesEncode(outs);
        AssembleEncodes(Keys(kept), Values(outs), caps.text, |kept|);
      case SetOf(children) =>
        var outs := BoundedEach(g, active, children, caps, depth - 1, rank);
        EachEncodes(g, active, children, caps, depth - 1, rank);
        SortMembers(ByValue(rank), outs);
        ValuesEncode(Sort(ByValue(rank), outs)[..Least(|children|, caps.item)]);
      case ListOf(children) =>
        var kept := children[..Least(|children|, caps.item)];
        EachEncodes(g, active, kept, caps, depth - 1, rank);
        ValuesEncode(BoundedEach(g, active, kept, caps, depth - 1, rank));
    }
  }

  lemma {:induction false} EachEncodes(g: Graph, active: set<nat>, children: seq<Native>, caps: Caps, depth: int,
                                       rank: Value -> int)
    requires TypesNamed(g)
    ensures AllEncode(BoundedEach(g, active, children, caps, depth, rank))
    decreases g.Keys - active, 1
  {
    forall i | 0 <= i < |children|
      ensures Encodable(BoundedEach(g, active, children, caps, depth, rank)[i].value)
    {
      NormalizedEncodes(g, active, children[i], caps, depth, rank);
    }
  }
}
