/** The object graph that a response-reduction trial mutates, and the labelled tree that
    explains it. Each list of the copied result is one candidate record holding the current
    contents of that list; an item that is a list is a reference to its record. */
module ListTree {
  import opened Json
  import opened ShrinkPolicy

  datatype Item = Val(s: Scalar) | Ref(index: nat) | Dict(keys: seq<string>, items: seq<Item>)

  /** `_ListReductionCandidate`: the mutable state kept for one list. */
  datatype Candidate =
    Candidate(items: seq<Item>, depth: nat, order: nat, active: bool, revision: nat)

  /** A result tree whose lists carry the index of their candidate. */
  datatype Tree =
    | TLeaf(s: Scalar)
    | TArr(index: nat, items: seq<Tree>)
    | TObj(keys: seq<string>, items: seq<Tree>)

  function DropLast<T>(s: seq<T>): seq<T> {
    if s == [] then s else s[..|s| - 1]
  }

  function Erase(ts: seq<Tree>): (r: seq<Json>)
    ensures |r| == |ts|
  {
    if ts == [] then [] else [EraseTree(ts[0])] + Erase(ts[1..])
  }

  function EraseTree(t: Tree): Json {
    match t
    case TLeaf(s) => Leaf(s)
    case TArr(_, items) => Arr(Erase(items))
    case TObj(keys, items) => Obj(keys, Erase(items))
  }

  /** The candidate indexes of the forest, in traversal order. */
  function Labels(ts: seq<Tree>): seq<nat> {
    if ts == [] then [] else Own(ts[0]) + Inner(ts[0]) + Labels(ts[1..])
  }

  function Own(t: Tree): seq<nat> {
    if t.TArr? then [t.index] else []
  }

  function Inner(t: Tree): seq<nat> {
    if t.TLeaf? then [] else Labels(t.items)
  }

  /** The object graph under `items` is the forest `ts`, with recorded depths correct. */
  ghost predicate Represents(items: seq<Item>, ts: seq<Tree>, depth: nat, cs: seq<Candidate>)
    decreases ts
  {
    && |items| == |ts|
    && (ts != [] ==>
          && (match ts[0]
              case TLeaf(s) => items[0] == Val(s)
              case TArr(c, below) =>
                && items[0] == Ref(c) && c < |cs| && cs[c].depth == depth
                && Represents(cs[c].items, below, depth + 1, cs)
              case TObj(keys, below) =>
                && items[0].Dict? && items[0].keys == keys
                && Represents(items[0].items, below, depth + 1, cs))
          && Represents(items[1..], ts[1..], depth, cs))
  }

  // ---------------------------------------------------------------- increasing labels

  ghost predicate Increasing(s: seq<nat>) {
    forall i, j | 0 <= i < j < |s| :: s[i] < s[j]
  }

  ghost predicate Below(a: seq<nat>, b: seq<nat>) {
    forall x, y | x in a && y in b :: x < y
  }

  lemma IncreasingAppend(a: seq<nat>, b: seq<nat>)
    ensures Increasing(a + b) <==> Increasing(a) && Increasing(b) && Below(a, b)
  {
    var s := a + b;
    if Increasing(a) && Increasing(b) && Below(a, b) {
      forall i, j | 0 <= i < j < |s| ensures s[i] < s[j] {
        if i < |a| <= j {
          assert a[i] in a && b[j - |a|] in b;
        }
      }
    }
    if Increasing(s) {
      assert forall i, j | 0 <= i < j < |a| :: s[i] == a[i] && s[j] == a[j];
      assert forall i | 0 <= i < |b| :: s[|a| + i] == b[i];
      forall x, y | x in a && y in b ensures x < y {
        var i :| 0 <= i < |a| && a[i] == x;
        var j :| 0 <= j < |b| && b[j] == y;
        assert s[i] < s[|a| + j];
      }
    }
  }

  lemma OneTree(t: Tree)
    ensures Labels([t]) == Own(t) + Inner(t)
    ensures Erase([t]) == [EraseTree(t)]
  {}

  // ---------------------------------------------------------------- appending forests

  lemma {:induction false} ForestAppend(a: seq<Tree>, b: seq<Tree>)
    ensures Erase(a + b) == Erase(a) + Erase(b)
    ensures Labels(a + b) == Labels(a) + Labels(b)
  {
    if a == [] {
      assert a + b == b;
    } else {
      assert (a + b)[0] == a[0] && (a + b)[1..] == a[1..] + b;
      ForestAppend(a[1..], b);
      Associate(Own(a[0]) + Inner(a[0]), Labels(a[1..]), Labels(b));
      Associate([EraseTree(a[0])], Erase(a[1..]), Erase(b));
    }
  }

  lemma Associate<T>(a: seq<T>, b: seq<T>, c: seq<T>)
    ensures a + (b + c) == (a + b) + c
  {}

  /** One element of a represented forest, and what it adds to the elements before it. */
  lemma RepresentsAt(x: seq<Item>, a: seq<Tree>, j: nat, depth: nat, cs: seq<Candidate>)
    requires Represents(x, a, depth, cs) && j < |a|
    ensures Represents([x[j]], [a[j]], depth, cs)
    ensures Labels(a[..j + 1]) == Labels(a[..j]) + Labels([a[j]])
    ensures Erase(a[..j + 1]) == Erase(a[..j]) + Erase([a[j]])
  {
    assert x == x[..j] + x[j..] && a == a[..j] + a[j..];
    RepresentsAppend(x[..j], x[j..], a[..j], a[j..], depth, cs);
    assert x[j..] == [x[j]] + x[j + 1..] && a[j..] == [a[j]] + a[j + 1..];
    RepresentsAppend([x[j]], x[j + 1..], [a[j]], a[j + 1..], depth, cs);
    ForestAppend(a[..j], [a[j]]);
    assert a[..j + 1] == a[..j] + [a[j]];
  }

  lemma {:induction false} RepresentsAppend(x: seq<Item>, y: seq<Item>, a: seq<Tree>, b: seq<Tree>,
                                            depth: nat, cs: seq<Candidate>)
    requires |x| == |a|
    ensures Represents(x + y, a + b, depth, cs)
       <==> Represents(x, a, depth, cs) && Represents(y, b, depth, cs)
  {
    if a == [] {
      assert a + b == b && x + y == y;
    } else {
      assert (a + b)[1..] == a[1..] + b && (x + y)[1..] == x[1..] + y;
      RepresentsAppend(x[1..], y, a[1..], b, depth, cs);
    }
  }

  lemma InLabels(ts: seq<Tree>, x: nat)
    requires ts != []
    ensures x in Labels(ts) <==> x in Own(ts[0]) || x in Inner(ts[0]) || x in Labels(ts[1..])
  {
    var front := Own(ts[0]) + Inner(ts[0]);
    assert x in front <==> x in Own(ts[0]) || x in Inner(ts[0]);
    assert Labels(ts) == front + Labels(ts[1..]);
  }

  // ---------------------------------------------------------------- what a label stands for

  /** Only the records of the forest's own labels matter. */
  lemma {:induction false} RepresentsFrame(items: seq<Item>, ts: seq<Tree>, depth: nat,
                                           cs: seq<Candidate>, cs': seq<Candidate>)
    requires Represents(items, ts, depth, cs)
    requires |cs| <= |cs'|
    requires forall c | c in Labels(ts) && c < |cs| ::
               cs'[c].items == cs[c].items && cs'[c].depth == cs[c].depth
    ensures Represents(items, ts, depth, cs')
    decreases ts
  {
    if ts != [] {
      forall x | x in Own(ts[0]) || x in Inner(ts[0]) || x in Labels(ts[1..])
        ensures x in Labels(ts)
      {
        InLabels(ts, x);
      }
      match ts[0] {
        case TLeaf(_) =>
        case TArr(c, below) =>
          assert c in Own(ts[0]);
          RepresentsFrame(cs[c].items, below, depth + 1, cs, cs');
        case TObj(_, below) =>
          RepresentsFrame(items[0].items, below, depth + 1, cs, cs');
      }
      RepresentsFrame(items[1..], ts[1..], depth, cs, cs');
    }
  }

  lemma {:induction false} LabelsAreRecords(items: seq<Item>, ts: seq<Tree>, depth: nat, cs: seq<Candidate>)
    requires Represents(items, ts, depth, cs)
    ensures forall c | c in Labels(ts) :: c < |cs|
    decreases ts
  {
    if ts != [] {
      match ts[0] {
        case TLeaf(_) =>
        case TArr(c, below) => LabelsAreRecords(cs[c].items, below, depth + 1, cs);
        case TObj(_, below) => LabelsAreRecords(items[0].items, below, depth + 1, cs);
      }
      LabelsAreRecords(items[1..], ts[1..], depth, cs);
      forall x | x in Labels(ts) ensures x < |cs| {
        InLabels(ts, x);
      }
    }
  }

  /** The lists of the erased forest have the lengths and depths their records say. */
  lemma {:induction false} KeysOfLabels(items: seq<Item>, ts: seq<Tree>, depth: nat, cs: seq<Candidate>)
    requires Represents(items, ts, depth, cs)
    ensures ListKeys(Erase(ts), depth) == KeysAt(Labels(ts), cs)
    decreases ts
  {
    if ts != [] {
      assert Erase(ts)[1..] == Erase(ts[1..]);
      KeysOfLabels(items[1..], ts[1..], depth, cs);
      var v := EraseTree(ts[0]);
      assert OwnKey(v, depth) == KeysAt(Own(ts[0]), cs);
      assert InnerKeys(v, depth) == KeysAt(Inner(ts[0]), cs) by {
        match ts[0] {
          case TLeaf(_) =>
          case TArr(c, below) => KeysOfLabels(cs[c].items, below, depth + 1, cs);
          case TObj(_, below) => KeysOfLabels(items[0].items, below, depth + 1, cs);
        }
      }
      KeysAtAppend(Own(ts[0]), Inner(ts[0]), cs);
      KeysAtAppend(Own(ts[0]) + Inner(ts[0]), Labels(ts[1..]), cs);
    }
  }

  function RecordKey(c: Candidate): ListKey {
    ListKey(|c.items|, c.depth)
  }

  function KeysAt(labels: seq<nat>, cs: seq<Candidate>): (r: seq<ListKey>)
    ensures |r| == |labels|
    ensures forall k | 0 <= k < |labels| && labels[k] < |cs| :: r[k] == RecordKey(cs[labels[k]])
  {
    seq(|labels|, k requires 0 <= k < |labels| =>
      if labels[k] < |cs| then RecordKey(cs[labels[k]]) else ListKey(0, 0))
  }

  lemma KeysAtAppend(a: seq<nat>, b: seq<nat>, cs: seq<Candidate>)
    ensures KeysAt(a + b, cs) == KeysAt(a, cs) + KeysAt(b, cs)
  {}

  lemma {:induction false} LabelCount(ts: seq<Tree>)
    ensures |Labels(ts)| == ListCount(Erase(ts))
  {
    if ts != [] {
      var v := EraseTree(ts[0]);
      assert Erase(ts)[0] == v && Erase(ts)[1..] == Erase(ts[1..]);
      LabelCount(ts[1..]);
      assert |OwnKey(v, 0)| == |Own(ts[0])|;
      if !ts[0].TLeaf? {
        LabelCount(ts[0].items);
        ListKeysShape(Erase(ts[0].items), 0, 1);
      }
      assert |InnerKeys(v, 0)| == |Inner(ts[0])|;
    }
  }

  // ---------------------------------------------------------------- popping one labelled list

  function Pop(ts: seq<Tree>, c: nat): (r: seq<Tree>)
    ensures |r| == |ts|
  {
    if ts == [] then [] else [PopTree(ts[0], c)] + Pop(ts[1..], c)
  }

  function PopTree(t: Tree, c: nat): Tree {
    match t
    case TLeaf(s) => t
    case TArr(d, items) => TArr(d, if c == d then DropLast(items) else Pop(items, c))
    case TObj(keys, items) => TObj(keys, Pop(items, c))
  }

  /** The subtree that popping list c takes away, as a forest of at most one tree. */
  function Removed(ts: seq<Tree>, c: nat): seq<Tree> {
    if ts == [] then [] else RemovedFrom(ts[0], c) + Removed(ts[1..], c)
  }

  function RemovedFrom(t: Tree, c: nat): seq<Tree> {
    match t
    case TLeaf(s) => []
    case TArr(d, items) => if c == d then items[|DropLast(items)|..] else Removed(items, c)
    case TObj(keys, items) => Removed(items, c)
  }

  lemma {:induction false} PopAbsent(ts: seq<Tree>, c: nat)
    requires c !in Labels(ts)
    ensures Pop(ts, c) == ts && Removed(ts, c) == []
  {
    if ts != [] {
      if ts[0].TArr? {
        assert ts[0].index in Labels(ts);
      }
      if !ts[0].TLeaf? {
        PopAbsent(ts[0].items, c);
      }
      PopAbsent(ts[1..], c);
    }
  }

  /** Where the labels of a forest are increasing, the three parts of its labels are too. */
  lemma IncreasingParts(ts: seq<Tree>)
    requires ts != [] && Increasing(Labels(ts))
    ensures Increasing(Inner(ts[0])) && Increasing(Labels(ts[1..]))
    ensures Below(Own(ts[0]), Inner(ts[0])) && Below(Own(ts[0]), Labels(ts[1..]))
    ensures Below(Inner(ts[0]), Labels(ts[1..]))
  {
    IncreasingAppend(Own(ts[0]) + Inner(ts[0]), Labels(ts[1..]));
    IncreasingAppend(Own(ts[0]), Inner(ts[0]));
    assert forall x | x in Own(ts[0]) || x in Inner(ts[0]) :: x in Own(ts[0]) + Inner(ts[0]);
  }

  lemma IncreasingJoin(t: Tree, rest: seq<Tree>)
    requires Increasing(Inner(t)) && Increasing(Labels(rest))
    requires Below(Own(t), Inner(t)) && Below(Own(t), Labels(rest)) && Below(Inner(t), Labels(rest))
    ensures Increasing(Labels([t] + rest))
  {
    assert ([t] + rest)[1..] == rest;
    IncreasingAppend(Own(t) + Inner(t), Labels(rest));
    IncreasingAppend(Own(t), Inner(t));
  }

  ghost predicate TakesAway(before: seq<nat>, after: seq<nat>, gone: seq<nat>, c: nat) {
    && Increasing(after)
    && (forall x :: x in after <==> x in before && x !in gone)
    && (forall x | x in gone :: x in before && x != c)
  }

  /** Popping keeps the labels increasing and takes away just the removed subtree's labels. */
  lemma {:induction false} LabelsAfterPop(ts: seq<Tree>, c: nat)
    requires Increasing(Labels(ts))
    ensures TakesAway(Labels(ts), Labels(Pop(ts, c)), Labels(Removed(ts, c)), c)
    ensures Labels(Removed(ts, c)) != [] ==> c in Labels(ts)
    decreases ts
  {
    if ts != [] {
      IncreasingParts(ts);
      LabelsAfterPop(ts[1..], c);
      HeadAfterPop(ts[0], c);
      JoinAfterPop(ts, c);
    }
  }

  lemma {:induction false} HeadAfterPop(t: Tree, c: nat)
    requires Increasing(Inner(t)) && Below(Own(t), Inner(t))
    ensures Own(PopTree(t, c)) == Own(t)
    ensures TakesAway(Inner(t), Inner(PopTree(t, c)), Labels(RemovedFrom(t, c)), c)
    ensures Labels(RemovedFrom(t, c)) != [] ==> c in Own(t) || c in Inner(t)
    decreases t
  {
    if !t.TLeaf? {
      if t.TArr? && t.index == c {
        assert c in Own(t);
        var kept, gone := DropLast(t.items), t.items[|DropLast(t.items)|..];
        assert t.items == kept + gone;
        ForestAppend(kept, gone);
        IncreasingAppend(Labels(kept), Labels(gone));
      } else {
        LabelsAfterPop(t.items, c);
      }
    }
  }

  lemma JoinAfterPop(ts: seq<Tree>, c: nat)
    requires ts != [] && Increasing(Labels(ts))
    requires Own(PopTree(ts[0], c)) == Own(ts[0])
    requires TakesAway(Inner(ts[0]), Inner(PopTree(ts[0], c)), Labels(RemovedFrom(ts[0], c)), c)
    requires Labels(RemovedFrom(ts[0], c)) != [] ==> c in Own(ts[0]) || c in Inner(ts[0])
    requires TakesAway(Labels(ts[1..]), Labels(Pop(ts[1..], c)), Labels(Removed(ts[1..], c)), c)
    requires Labels(Removed(ts[1..], c)) != [] ==> c in Labels(ts[1..])
    ensures TakesAway(Labels(ts), Labels(Pop(ts, c)), Labels(Removed(ts, c)), c)
    ensures Labels(Removed(ts, c)) != [] ==> c in Labels(ts)
  {
    var t, rest := PopTree(ts[0], c), Pop(ts[1..], c);
    var gone, later := RemovedFrom(ts[0], c), Removed(ts[1..], c);
    assert Pop(ts, c) == [t] + rest && rest == Pop(ts, c)[1..];
    ForestAppend(gone, later);
    IncreasingParts(ts);
    IncreasingJoin(t, rest);
    InLabels(ts, c);
    forall x
      ensures x in Labels(Pop(ts, c)) <==> x in Labels(ts) && x !in Labels(Removed(ts, c))
      ensures x in Labels(Removed(ts, c)) ==> x in Labels(ts) && x != c
    {
      InLabels(ts, x);
      InLabels(Pop(ts, c), x);
      assert x in Labels(Removed(ts, c)) <==> x in Labels(gone) || x in Labels(later);
    }
  }

  /** Popping the list labelled c is popping the list at c's place in traversal order. */
  lemma {:induction false} ErasePop(ts: seq<Tree>, k: nat)
    requires Increasing(Labels(ts)) && k < |Labels(ts)|
    ensures Erase(Pop(ts, Labels(ts)[k])) == PopAt(Erase(ts), k)
    decreases ts
  {
    var c, t, rest := Labels(ts)[k], ts[0], ts[1..];
    var mine := Own(t) + Inner(t);
    assert Erase(ts)[0] == EraseTree(t) && Erase(ts)[1..] == Erase(rest);
    assert Pop(ts, c)[1..] == Pop(rest, c);
    IncreasingParts(ts);
    TreeCount(t);
    if k < |mine| {
      assert c == mine[k] && c in mine;
      PopAbsent(rest, c);
      EraseTreePop(t, k);
    } else {
      assert c == Labels(rest)[k - |mine|] && c in Labels(rest);
      PopAbsentTree(t, c);
      ErasePop(rest, k - |mine|);
    }
  }

  lemma {:induction false} EraseTreePop(t: Tree, k: nat)
    requires Increasing(Inner(t)) && Below(Own(t), Inner(t)) && k < |Own(t) + Inner(t)|
    ensures EraseTree(PopTree(t, (Own(t) + Inner(t))[k])) == PopInside(EraseTree(t), k)
    decreases t
  {
    if k < |Own(t)| {
      EraseDropLast(t.items);
    } else {
      var c := Inner(t)[k - |Own(t)|];
      assert c in Inner(t) && (t.TArr? ==> t.index in Own(t));
      ErasePop(t.items, k - |Own(t)|);
    }
  }

  lemma TreeCount(t: Tree)
    ensures Lists(EraseTree(t)) == |Own(t)| + |Inner(t)|
  {
    if !t.TLeaf? {
      LabelCount(t.items);
    }
  }

  lemma PopAbsentTree(t: Tree, c: nat)
    requires c !in Own(t) && c !in Inner(t)
    ensures PopTree(t, c) == t
  {
    if !t.TLeaf? {
      assert t.TArr? ==> t.index in Own(t);
      PopAbsent(t.items, c);
    }
  }

  lemma EraseDropLast(ts: seq<Tree>)
    ensures Erase(DropLast(ts)) == DropLast(Erase(ts))
  {
    if ts != [] {
      var n := |ts| - 1;
      assert ts == ts[..n] + ts[n..];
      ForestAppend(ts[..n], ts[n..]);
    }
  }

  /** Popping the record of list c makes the object graph represent the popped forest. */
  lemma {:induction false} RepresentsPop(items: seq<Item>, ts: seq<Tree>, depth: nat,
                                         cs: seq<Candidate>, cs': seq<Candidate>, c: nat)
    requires Represents(items, ts, depth, cs) && Increasing(Labels(ts))
    requires c < |cs| == |cs'|
    requires cs'[c].items == DropLast(cs[c].items) && cs'[c].depth == cs[c].depth
    requires forall d | 0 <= d < |cs| && d != c ::
               cs'[d].items == cs[d].items && cs'[d].depth == cs[d].depth
    ensures Represents(items, Pop(ts, c), depth, cs')
    decreases ts
  {
    if ts != [] {
      IncreasingParts(ts);
      RepresentsPop(items[1..], ts[1..], depth, cs, cs', c);
      assert Pop(ts, c)[1..] == Pop(ts[1..], c);
      match ts[0] {
        case TLeaf(_) =>
        case TArr(d, below) =>
          if c == d {
            assert c in Own(ts[0]);
            RepresentsFrame(cs[c].items, below, depth + 1, cs, cs');
            SplitLast(cs[c].items, below, depth + 1, cs');
          } else {
            RepresentsPop(cs[d].items, below, depth + 1, cs, cs', c);
          }
        case TObj(_, below) =>
          RepresentsPop(items[0].items, below, depth + 1, cs, cs', c);
      }
    }
  }

  lemma SplitLast(items: seq<Item>, ts: seq<Tree>, depth: nat, cs: seq<Candidate>)
    requires Represents(items, ts, depth, cs)
    ensures Represents(DropLast(items), DropLast(ts), depth, cs)
    ensures Represents(items[|DropLast(items)|..], ts[|DropLast(ts)|..], depth, cs)
  {
    var n := |DropLast(items)|;
    assert items == items[..n] + items[n..] && ts == ts[..n] + ts[n..];
    RepresentsAppend(items[..n], items[n..], ts[..n], ts[n..], depth, cs);
    assert items[..n] == DropLast(items) && ts[..n] == DropLast(ts);
  }

  /** The removed subtree is the last item of list c's record. */
  lemma {:induction false} RemovedIsLast(items: seq<Item>, ts: seq<Tree>, depth: nat,
                                         cs: seq<Candidate>, c: nat)
    requires Represents(items, ts, depth, cs) && Increasing(Labels(ts)) && c in Labels(ts)
    requires c < |cs|
    ensures Represents(cs[c].items[|DropLast(cs[c].items)|..], Removed(ts, c), cs[c].depth + 1, cs)
    decreases ts
  {
    IncreasingParts(ts);
    InLabels(ts, c);
    if c in Labels(ts[1..]) {
      assert c !in Own(ts[0]) && c !in Inner(ts[0]);
      if !ts[0].TLeaf? {
        PopAbsent(ts[0].items, c);
      }
      RemovedIsLast(items[1..], ts[1..], depth, cs, c);
      assert Removed(ts, c) == Removed(ts[1..], c);
    } else {
      PopAbsent(ts[1..], c);
      assert Removed(ts, c) == RemovedFrom(ts[0], c);
      match ts[0] {
        case TArr(d, below) =>
          if c == d {
            SplitLast(cs[c].items, below, depth + 1, cs);
          } else {
            RemovedIsLast(cs[d].items, below, depth + 1, cs, c);
          }
        case TObj(_, below) =>
          RemovedIsLast(items[0].items, below, depth + 1, cs, c);
      }
    }
  }
}
