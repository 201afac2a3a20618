/** The plain list-shrinking policy: pop the last element of the longest list, ties to the
    shallower list, then to the earlier one in traversal order. This is the meaning that
    the heap with lazy invalidation in `ListReduction` has to reach.

    Functions here work on a forest, a sequence of sibling values; a whole result is the
    forest `[value]`. */
module ShrinkPolicy {
  import opened Json

  datatype ListKey = ListKey(length: nat, depth: nat)

  /** Every list of the forest, in traversal order (a list before its own children). */
  function ListKeys(vs: seq<Json>, depth: nat): seq<ListKey> {
    if vs == [] then []
    else OwnKey(vs[0], depth) + InnerKeys(vs[0], depth) + ListKeys(vs[1..], depth)
  }

  function OwnKey(v: Json, depth: nat): seq<ListKey> {
    if v.Arr? then [ListKey(|v.items|, depth)] else []
  }

  function InnerKeys(v: Json, depth: nat): seq<ListKey> {
    if v.Leaf? then [] else ListKeys(v.items, depth + 1)
  }

  /** a is a better victim than b whatever their positions. */
  predicate Better(a: ListKey, b: ListKey) {
    a.length > b.length || (a.length == b.length && a.depth < b.depth)
  }

  ghost predicate IsVictim(ks: seq<ListKey>, k: nat) {
    && k < |ks|
    && ks[k].length > 0
    && forall j | 0 <= j < |ks| && ks[j].length > 0 ::
         Better(ks[k], ks[j]) || (ks[k] == ks[j] && k <= j)
  }

  predicate AllEmpty(ks: seq<ListKey>) {
    forall j | 0 <= j < |ks| :: ks[j].length == 0
  }

  lemma VictimUnique(ks: seq<ListKey>, k: nat, l: nat)
    requires IsVictim(ks, k) && IsVictim(ks, l)
    ensures k == l
  {}

  /** The victim, found by one scan that changes its mind only for a better list. */
  function Victim(ks: seq<ListKey>): (r: nat)
    ensures ks != [] ==> r < |ks|
  {
    if |ks| <= 1 then 0
    else
      var n := |ks| - 1;
      var k := Victim(ks[..n]);
      if ks[n].length > 0 && (ks[k].length == 0 || Better(ks[n], ks[k])) then n else k
  }

  lemma {:induction false} VictimIsBest(ks: seq<ListKey>)
    requires !AllEmpty(ks)
    ensures IsVictim(ks, Victim(ks))
  {
    var n := |ks| - 1;
    var init := ks[..n];
    assert ks == init + [ks[n]];
    if !AllEmpty(init) {
      VictimIsBest(init);
    }
  }

  function ListCount(vs: seq<Json>): nat {
    |ListKeys(vs, 0)|
  }

  lemma {:induction false} ListKeysShape(vs: seq<Json>, d: nat, e: nat)
    ensures |ListKeys(vs, d)| == |ListKeys(vs, e)|
    ensures forall j | 0 <= j < |ListKeys(vs, d)| ::
              ListKeys(vs, d)[j].length == ListKeys(vs, e)[j].length
  {
    if vs != [] {
      if !vs[0].Leaf? {
        ListKeysShape(vs[0].items, d + 1, e + 1);
      }
      ListKeysShape(vs[1..], d, e);
    }
  }

  /** The number of lists in one value, itself included. */
  function Lists(v: Json): nat {
    (if v.Arr? then 1 else 0) + (if v.Leaf? then 0 else ListCount(v.items))
  }

  /** The forest with the last element of its k-th list removed. */
  function PopAt(vs: seq<Json>, k: nat): (r: seq<Json>)
    ensures |r| == |vs|
  {
    if vs == [] then []
    else if k < Lists(vs[0]) then [PopInside(vs[0], k)] + vs[1..]
    else [vs[0]] + PopAt(vs[1..], k - Lists(vs[0]))
  }

  function PopInside(v: Json, k: nat): Json {
    match v
    case Leaf(_) => v
    case Arr(items) =>
      if k > 0 then Arr(PopAt(items, k - 1))
      else Arr(if items == [] then [] else items[..|items| - 1])
    case Obj(keys, items) => Obj(keys, PopAt(items, k))
  }

  /** One removal of the plain policy; nothing changes once every list is empty. */
  function PlainStep(v: Json): Json {
    var ks := ListKeys([v], 0);
    if AllEmpty(ks) then v else PopAt([v], Victim(ks))[0]
  }

  function PlainSteps(v: Json, n: nat): Json
    decreases n
  {
    if n == 0 then v else PlainSteps(PlainStep(v), n - 1)
  }

  // ------------------------------------------------------- what the policy guarantees

  /** `_count_list_items`: every element of every list, at any level. */
  function CountListItems(vs: seq<Json>): nat {
    if vs == [] then 0
    else
      (if vs[0].Leaf? then 0
       else (if vs[0].Arr? then |vs[0].items| else 0) + CountListItems(vs[0].items))
      + CountListItems(vs[1..])
  }

  lemma {:induction false} CountZeroIffAllEmpty(vs: seq<Json>, depth: nat)
    ensures CountListItems(vs) == 0 <==> AllEmpty(ListKeys(vs, depth))
  {
    if vs != [] {
      var own, inner, rest := OwnKey(vs[0], depth), InnerKeys(vs[0], depth), ListKeys(vs[1..], depth);
      CountZeroIffAllEmpty(vs[1..], depth);
      if !vs[0].Leaf? {
        CountZeroIffAllEmpty(vs[0].items, depth + 1);
      }
      assert ListKeys(vs, depth) == own + inner + rest;
      AllEmptyAppend(own + inner, rest);
      AllEmptyAppend(own, inner);
      if vs[0].Arr? {
        assert own[0].length == |vs[0].items|;
      }
    }
  }

  lemma AllEmptyAppend(a: seq<ListKey>, b: seq<ListKey>)
    ensures AllEmpty(a + b) <==> AllEmpty(a) && AllEmpty(b)
  {
    assert forall j | 0 <= j < |a| :: (a + b)[j] == a[j];
    assert forall j | 0 <= j < |b| :: (a + b)[|a| + j] == b[j];
  }

  lemma {:induction false} CountInit(items: seq<Json>)
    requires items != []
    ensures CountListItems(items[..|items| - 1]) <= CountListItems(items)
  {
    if |items| > 1 {
      CountInit(items[1..]);
      assert items[..|items| - 1][1..] == items[1..][..|items| - 2];
    }
  }

  /** Removing from any nonempty list leaves fewer list elements in all. */
  lemma {:induction false} PopAtCount(vs: seq<Json>, k: nat)
    requires k < ListCount(vs) && ListKeys(vs, 0)[k].length > 0
    ensures CountListItems(PopAt(vs, k)) < CountListItems(vs)
  {
    var own := if vs[0].Arr? then 1 else 0;
    if !vs[0].Leaf? {
      ListKeysShape(vs[0].items, 0, 1);
    }
    if k < Lists(vs[0]) {
      if k < own {
        CountInit(vs[0].items);
      } else {
        PopAtCount(vs[0].items, k - own);
      }
    } else {
      PopAtCount(vs[1..], k - Lists(vs[0]));
      assert PopAt(vs, k)[1..] == PopAt(vs[1..], k - Lists(vs[0]));
    }
  }

  /** `_count_list_items` removals leave every list empty. */
  lemma {:induction false} CountEmptiesEveryList(v: Json, n: nat)
    requires n >= CountListItems([v])
    ensures AllEmpty(ListKeys([PlainSteps(v, n)], 0))
    decreases n
  {
    CountZeroIffAllEmpty([v], 0);
    if AllEmpty(ListKeys([v], 0)) {
      StepsStop(v, n);
    } else {
      VictimIsBest(ListKeys([v], 0));
      PopAtCount([v], Victim(ListKeys([v], 0)));
      assert PopAt([v], Victim(ListKeys([v], 0))) == [PlainStep(v)];
      CountEmptiesEveryList(PlainStep(v), n - 1);
    }
  }

  lemma {:induction false} StepsStop(v: Json, n: nat)
    requires AllEmpty(ListKeys([v], 0))
    ensures PlainSteps(v, n) == v
    decreases n
  {
    if n > 0 {
      StepsStop(v, n - 1);
    }
  }

  lemma {:induction false} StepsCompose(v: Json, m: nat, n: nat)
    ensures PlainSteps(v, m + n) == PlainSteps(PlainSteps(v, m), n)
    decreases m
  {
    if m > 0 {
      StepsCompose(PlainStep(v), m - 1, n);
    }
  }

  lemma HeadShrinks(keys: seq<string>, vs: seq<Json>, h: Json)
    requires vs != [] && Size(h) <= Size(vs[0])
    ensures ItemsSize(keys, [h] + vs[1..]) <= ItemsSize(keys, vs)
  {
    assert ([h] + vs[1..])[1..] == vs[1..];
  }

  lemma TailShrinks(keys: seq<string>, vs: seq<Json>, t: seq<Json>)
    requires vs != [] && |t| == |vs| - 1
    requires ItemsSize(if keys == [] then [] else keys[1..], t)
          <= ItemsSize(if keys == [] then [] else keys[1..], vs[1..])
    ensures ItemsSize(keys, [vs[0]] + t) <= ItemsSize(keys, vs)
  {
    assert ([vs[0]] + t)[1..] == t;
  }

  /** No removal makes the encoded text longer. */
  lemma {:induction false} PopAtSize(keys: seq<string>, vs: seq<Json>, k: nat)
    ensures ItemsSize(keys, PopAt(vs, k)) <= ItemsSize(keys, vs)
    decreases vs
  {
    if vs != [] {
      if k < Lists(vs[0]) {
        PopInsideSize(vs[0], k);
        HeadShrinks(keys, vs, PopInside(vs[0], k));
      } else {
        PopAtSize(if keys == [] then [] else keys[1..], vs[1..], k - Lists(vs[0]));
        TailShrinks(keys, vs, PopAt(vs[1..], k - Lists(vs[0])));
      }
    }
  }

  lemma {:induction false} PopInsideSize(v: Json, k: nat)
    ensures Size(PopInside(v, k)) <= Size(v)
    decreases v
  {
    match v
    case Leaf(_) =>
    case Arr(items) =>
      if k > 0 {
        PopAtSize([], items, k - 1);
      } else if items != [] {
        DropLastItem(items);
      }
    case Obj(keys, items) => PopAtSize(keys, items, k);
  }

  /** The top-level element count that `returned_count` reports. */
  function TopCount(v: Json): nat {
    if v.Arr? then |v.items| else if v == Leaf(Null) then 0 else 1
  }

  /** A removal never grows the text or the top-level count and keeps the top-level type. */
  lemma StepShrinks(v: Json)
    ensures Size(PlainStep(v)) <= Size(v)
    ensures TopCount(PlainStep(v)) <= TopCount(v)
  {
    var ks := ListKeys([v], 0);
    if !AllEmpty(ks) {
      PopAtSize([], [v], Victim(ks));
      assert PopAt([v], Victim(ks)) == [PlainStep(v)];
      assert ItemsSize([], [v]) == Size(v);
      assert ItemsSize([], [PlainStep(v)]) == Size(PlainStep(v));
    }
  }

  lemma {:induction false} StepsShrink(v: Json, n: nat)
    ensures Size(PlainSteps(v, n)) <= Size(v)
    ensures TopCount(PlainSteps(v, n)) <= TopCount(v)
    decreases n
  {
    if n > 0 {
      StepShrinks(v);
      StepsShrink(PlainStep(v), n - 1);
    }
  }

  lemma MoreStepsAreSmaller(v: Json, m: nat, n: nat)
    requires m <= n
    ensures Size(PlainSteps(v, n)) <= Size(PlainSteps(v, m))
    ensures TopCount(PlainSteps(v, n)) <= TopCount(PlainSteps(v, m))
  {
    var k, w := n - m, PlainSteps(v, m);
    assert PlainSteps(v, n) == PlainSteps(w, k) by {
      StepsCompose(v, m, k);
    }
    StepsShrink(w, k);
  }
}
