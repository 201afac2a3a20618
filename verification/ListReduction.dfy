/** One response-reduction trial: a heap of list candidates with lazy invalidation, over a
    mutable copy of the result. It reaches exactly the plain policy of `ShrinkPolicy`. */
module ListReduction {
  import opened Json
  import opened ShrinkPolicy
  import opened ListTree

  /** One heap tuple; Python compares tuples field by field. */
  datatype Entry =
    Entry(negativeLength: int, depth: nat, order: nat, revision: nat, index: nat)

  predicate AtMost(a: Entry, b: Entry) {
    a.negativeLength < b.negativeLength || (a.negativeLength == b.negativeLength &&
    (a.depth < b.depth || (a.depth == b.depth &&
    (a.order < b.order || (a.order == b.order &&
    (a.revision < b.revision || (a.revision == b.revision &&
    a.index <= b.index)))))))
  }

  /** The entry that describes candidate c as it is now. */
  function Fresh(c: Candidate, index: nat): Entry {
    Entry(-|c.items|, c.depth, c.order, c.revision, index)
  }

  predicate Stale(e: Entry, cs: seq<Candidate>)
    requires e.index < |cs|
  {
    var c := cs[e.index];
    !c.active || c.revision != e.revision || |c.items| != -e.negativeLength
  }

  ghost predicate SameShape(cs: seq<Candidate>, cs': seq<Candidate>) {
    && |cs| == |cs'|
    && forall i | 0 <= i < |cs| ::
         && cs'[i].items == cs[i].items
         && cs'[i].depth == cs[i].depth
         && cs'[i].order == cs[i].order
  }

  predicate EntryFor(e: Entry, cs: seq<Candidate>) {
    && e.index < |cs| && e.depth == cs[e.index].depth && e.order == e.index
    && e.negativeLength < 0
  }

  /** What ties the heap to the records: every live nonempty list is described by its fresh
      entry, and every entry carries the true depth and order of its candidate. */
  ghost predicate HeapCovers(heap: seq<Entry>, cs: seq<Candidate>) {
    && (forall i | 0 <= i < |cs| && cs[i].active && cs[i].items != [] :: Fresh(cs[i], i) in heap)
    && (forall e | e in heap :: EntryFor(e, cs))
    && (forall i | 0 <= i < |cs| :: cs[i].order == i)
  }

  /** A candidate is active exactly when its list is still in the tree. */
  ghost predicate ActiveIsReachable(cs: seq<Candidate>, t: Tree) {
    forall i | 0 <= i < |cs| :: cs[i].active <==> i in Labels([t])
  }

  ghost predicate Consistent(heap: seq<Entry>, cs: seq<Candidate>, root: Item, t: Tree) {
    && Represents([root], [t], 0, cs)
    && Increasing(Labels([t]))
    && ActiveIsReachable(cs, t)
    && HeapCovers(heap, cs)
  }

  /** A least entry that is not stale describes the plain policy's victim: stale entries,
      left by revisions or by lists inside removed items, never change the choice. */
  lemma LeastFreshIsVictim(heap: seq<Entry>, cs: seq<Candidate>, root: Item, t: Tree, e: Entry)
    returns (k: nat)
    requires Consistent(heap, cs, root, t)
    requires e in heap && (forall f | f in heap :: AtMost(e, f))
    requires !Stale(e, cs)
    ensures k < |Labels([t])| && Labels([t])[k] == e.index
    ensures IsVictim(ListKeys(Erase([t]), 0), k)
  {
    var ls := Labels([t]);
    KeysOfLabels([root], [t], 0, cs);
    LabelsAreRecords([root], [t], 0, cs);
    var ks := ListKeys(Erase([t]), 0);
    k :| 0 <= k < |ls| && ls[k] == e.index;
    forall j | 0 <= j < |ks| && ks[j].length > 0
      ensures Better(ks[k], ks[j]) || (ks[k] == ks[j] && k <= j)
    {
      var i := ls[j];
      assert i in ls;
      assert ks[j] == RecordKey(cs[i]) && ks[k] == RecordKey(cs[e.index]);
      assert AtMost(e, Fresh(cs[i], i));
    }
  }

  /** With no entry left there is no nonempty list left. */
  lemma EmptyHeapMeansAllEmpty(cs: seq<Candidate>, root: Item, t: Tree)
    requires Consistent([], cs, root, t)
    ensures AllEmpty(ListKeys(Erase([t]), 0))
  {
    KeysOfLabels([root], [t], 0, cs);
    LabelsAreRecords([root], [t], 0, cs);
    forall j | 0 <= j < |Labels([t])| ensures ListKeys(Erase([t]), 0)[j].length == 0 {
      var i := Labels([t])[j];
      assert i in Labels([t]);
      assert cs[i].active;
    }
  }

  /** Collecting only adds records and entries, each new record live and described. */
  ghost predicate Registered(cs: seq<Candidate>, cs': seq<Candidate>, heap: seq<Entry>, heap': seq<Entry>) {
    && cs <= cs'
    && (forall i | |cs| <= i < |cs'| ::
          && cs'[i].active && cs'[i].order == i
          && (cs'[i].items != [] ==> Fresh(cs'[i], i) in heap'))
    && (forall e | e in heap :: e in heap')
    && (forall e | e in heap' && e !in heap :: EntryFor(e, cs'))
  }

  /** Registering a list: its own record and entry first, then those of its children. */
  lemma RegisterList(cs: seq<Candidate>, begun: seq<Candidate>, before: seq<Candidate>,
                     heap: seq<Entry>, begunHeap: seq<Entry>, heap': seq<Entry>,
                     below: seq<Item>, depth: nat)
    requires begun == cs + [Candidate([], depth, |cs|, true, 0)]
    requires begunHeap == heap + (if below == [] then []
                                   else [Entry(-|below|, depth, |cs|, 0, |cs|)])
    requires Registered(begun, before, begunHeap, heap')
    ensures Registered(cs, before[|cs| := before[|cs|].(items := below)], heap, heap')
  {
    var after := before[|cs| := before[|cs|].(items := below)];
    assert before[|cs|] == begun[|cs|];
    assert cs <= after by {
      assert forall i | 0 <= i < |cs| :: after[i] == before[i] == begun[i] == cs[i];
    }
    forall i | |cs| <= i < |after| && after[i].items != [] ensures Fresh(after[i], i) in heap' {
      if i == |cs| {
        assert Fresh(after[i], i) in begunHeap;
      }
    }
  }

  /** A round that is not skipped is one step of the plain policy. */
  lemma RoundIsPlainStep(heap: seq<Entry>, cs: seq<Candidate>, root: Item, t: Tree, e: Entry)
    requires Consistent(heap, cs, root, t)
    requires e in heap && (forall f | f in heap :: AtMost(e, f))
    requires !Stale(e, cs)
    ensures EraseTree(PopTree(t, e.index)) == PlainStep(EraseTree(t))
  {
    var k := LeastFreshIsVictim(heap, cs, root, t, e);
    var ks := ListKeys(Erase([t]), 0);
    VictimIsBest(ks);
    VictimUnique(ks, k, Victim(ks));
    ErasePop([t], k);
    assert Erase([t]) == [EraseTree(t)];
    assert Pop([t], e.index) == [PopTree(t, e.index)];
    assert Erase([PopTree(t, e.index)]) == [EraseTree(PopTree(t, e.index))];
  }

  /** Popping the record of a reachable list: the graph represents the popped tree, what was popped off is
      the one removed subtree, and just its labels are gone. */
  lemma PopTakesLast(root: Item, t: Tree, cs: seq<Candidate>, popped: seq<Candidate>, index: nat)
    requires Represents([root], [t], 0, cs) && Increasing(Labels([t]))
    requires index in Labels([t]) && index < |cs| && cs[index].items != []
    requires popped == cs[index := cs[index].(items := DropLast(cs[index].items))]
    ensures Represents([root], [PopTree(t, index)], 0, popped)
    ensures var gone := Removed([t], index);
      && |gone| == 1
      && Represents([cs[index].items[|cs[index].items| - 1]], [gone[0]], cs[index].depth + 1, popped)
      && TakesAway(Labels([t]), Labels([PopTree(t, index)]), Labels([gone[0]]), index)
  {
    var gone, items := Removed([t], index), cs[index].items;
    assert Pop([t], index) == [PopTree(t, index)];
    RepresentsPop([root], [t], 0, cs, popped, index);
    LabelsAfterPop([t], index);
    RemovedIsLast([root], [t], 0, cs, index);
    assert items[|DropLast(items)|..] == [items[|items| - 1]] && |gone| == 1 && gone == [gone[0]];
    RepresentsFrame([items[|items| - 1]], gone, cs[index].depth + 1, cs, popped);
  }

  /** Removing a stale entry, or the entry of a list about to change, loses nothing else. */
  lemma HeapWithout(full: seq<Entry>, rest: seq<Entry>, cs: seq<Candidate>, e: Entry)
    requires HeapCovers(full, cs) && e in full
    requires forall f | f in rest :: f in full
    requires forall f | f in full && f != e :: f in rest
    ensures Stale(e, cs) ==> HeapCovers(rest, cs)
    ensures !Stale(e, cs) ==> Fresh(cs[e.index], e.index) == e
    ensures HeapCovers(rest + [e], cs)
  {
    forall i | 0 <= i < |cs| && cs[i].active && cs[i].items != []
      ensures Fresh(cs[i], i) in rest + [e]
      ensures Stale(e, cs) ==> Fresh(cs[i], i) in rest
    {
      assert Fresh(cs[i], i) in full;
    }
  }

  /** The heap after a removal: live lists other than the changed one keep their entries. */
  lemma HeapAfterRemoval(heap: seq<Entry>, heap': seq<Entry>, cs: seq<Candidate>, cs': seq<Candidate>,
                         index: nat)
    requires index < |cs| == |cs'|
    requires HeapCovers(heap + [Fresh(cs[index], index)], cs)
    requires forall i | 0 <= i < |cs| :: cs'[i].depth == cs[i].depth && cs'[i].order == cs[i].order
    requires forall i | 0 <= i < |cs| && i != index && cs'[i].active :: cs'[i] == cs[i]
    requires heap' == heap + (if cs'[index].items == [] then [] else [Fresh(cs'[index], index)])
    ensures HeapCovers(heap', cs')
  {
    var full := heap + [Fresh(cs[index], index)];
    forall e | e in heap' ensures EntryFor(e, cs') {
      if e in heap {
        assert e in full;
      }
    }
    forall i | 0 <= i < |cs'| && cs'[i].active && cs'[i].items != []
      ensures Fresh(cs'[i], i) in heap'
    {
      if i != index {
        assert Fresh(cs[i], i) in full && Fresh(cs[i], i) != Fresh(cs[index], index);
      }
    }
  }

  lemma NothingLeft(cs: seq<Candidate>, root: Item, t: Tree, n: nat)
    requires Consistent([], cs, root, t)
    ensures PlainSteps(EraseTree(t), n) == EraseTree(t)
  {
    EmptyHeapMeansAllEmpty(cs, root, t);
    assert Erase([t]) == [EraseTree(t)];
    StepsStop(EraseTree(t), n);
  }

  lemma OneMoreStep(v: Json, n: nat, w: Json, x: Json)
    requires w == PlainSteps(v, n) && x == PlainStep(w)
    ensures x == PlainSteps(v, n + 1)
  {
    StepsCompose(v, n, 1);
  }

  class Reduction {
    var candidates: seq<Candidate>
    var heap: seq<Entry>

    constructor ()
      ensures candidates == [] && heap == []
    {
      candidates, heap := [], [];
    }

    /** `copy.deepcopy` and `collect`: register every list, depth first. */
    method Collect(v: Json, depth: nat) returns (item: Item, ghost t: Tree)
      modifies this
      ensures Erase([t]) == [v]
      ensures Represents([item], [t], depth, candidates)
      ensures IsRange(Labels([t]), |old(candidates)|, |candidates|)
      ensures Registered(old(candidates), candidates, old(heap), heap)
      decreases v
    {
      match v
      case Leaf(s) =>
        item, t := Val(s), TLeaf(s);
      case Arr(items) =>
        var index := |candidates|;
        candidates := candidates + [Candidate([], depth, index, true, 0)];
        if items != [] {
          heap := heap + [Entry(-|items|, depth, index, 0, index)];
        }
        ghost var begun, begunHeap := candidates, heap;
        var below; ghost var ts;
        below, ts := CollectChildren(items, depth + 1, v);
        ghost var before := candidates;
        candidates := candidates[index := candidates[index].(items := below)];
        RepresentsFrame(below, ts, depth + 1, before, candidates);
        RegisterList(old(candidates), begun, before, old(heap), begunHeap, heap, below, depth);
        item, t := Ref(index), TArr(index, ts);
        OneTree(t);
      case Obj(keys, items) =>
        var below; ghost var ts;
        below, ts := CollectChildren(items, depth + 1, v);
        item, t := Dict(keys, below), TObj(keys, ts);
        OneTree(t);
    }

    method CollectChildren(vs: seq<Json>, depth: nat, ghost parent: Json)
      returns (items: seq<Item>, ghost ts: seq<Tree>)
      requires !parent.Leaf? && parent.items == vs
      modifies this
      ensures Erase(ts) == vs && |items| == |vs|
      ensures Represents(items, ts, depth, candidates)
      ensures IsRange(Labels(ts), |old(candidates)|, |candidates|)
      ensures Registered(old(candidates), candidates, old(heap), heap)
      decreases parent, 0
    {
      items, ts := [], [];
      for j := 0 to |vs|
        invariant |items| == j && Erase(ts) == vs[..j]
        invariant Represents(items, ts, depth, candidates)
        invariant IsRange(Labels(ts), |old(candidates)|, |candidates|)
        invariant Registered(old(candidates), candidates, old(heap), heap)
      {
        ghost var before := candidates;
        var item; ghost var t;
        item, t := Collect(vs[j], depth);
        RepresentsFrame(items, ts, depth, before, candidates);
        RepresentsAppend(items, [item], ts, [t], depth, candidates);
        ForestAppend(ts, [t]);
        items, ts := items + [item], ts + [t];
      }
    }

    /** `invalidate`: every list below a removed item leaves the competition. */
    method Invalidate(item: Item, ghost t: Tree, ghost depth: nat)
      requires Represents([item], [t], depth, candidates)
      modifies this`candidates
      ensures SameShape(old(candidates), candidates)
      ensures forall i | 0 <= i < |candidates| ::
                if i in Labels([t]) then !candidates[i].active
                else candidates[i] == old(candidates)[i]
      decreases t
    {
      match item
      case Val(_) =>
      case Ref(index) =>
        var c := candidates[index];
        candidates := candidates[index := c.(active := false, revision := c.revision + 1)];
        RepresentsFrame(c.items, t.items, depth + 1, old(candidates), candidates);
        InvalidateChildren(c.items, t.items, depth + 1, t);
        assert forall x :: x in Labels([t]) <==> x == index || x in Labels(t.items) by {
          assert Labels([t]) == [index] + Labels(t.items);
        }
      case Dict(_, items) =>
        InvalidateChildren(items, t.items, depth + 1, t);
        assert Labels([t]) == Labels(t.items);
    }

    method InvalidateChildren(items: seq<Item>, ghost ts: seq<Tree>, ghost depth: nat, ghost parent: Tree)
      requires !parent.TLeaf? && parent.items == ts
      requires Represents(items, ts, depth, candidates)
      modifies this`candidates
      ensures SameShape(old(candidates), candidates)
      ensures forall i | 0 <= i < |candidates| ::
                if i in Labels(ts) then !candidates[i].active
                else candidates[i] == old(candidates)[i]
      decreases parent, 0
    {
      for j := 0 to |items|
        invariant |items| == |ts|
        invariant SameShape(old(candidates), candidates)
        invariant forall i | 0 <= i < |candidates| ::
                    if i in Labels(ts[..j]) then !candidates[i].active
                    else candidates[i] == old(candidates)[i]
      {
        RepresentsFrame(items, ts, depth, old(candidates), candidates);
        RepresentsAt(items, ts, j, depth, candidates);
        assert forall x :: x in Labels(ts[..j + 1]) <==> x in Labels(ts[..j]) || x in Labels([ts[j]]);
        Invalidate(items[j], ts[j], depth);
      }
      assert ts[..|items|] == ts;
    }

    /** `heapq.heappop`: remove one least entry. */
    method PopLeast() returns (e: Entry)
      requires heap != []
      modifies this`heap
      ensures e in old(heap) && (forall f | f in old(heap) :: AtMost(e, f))
      ensures |heap| == |old(heap)| - 1
      ensures forall f | f in heap :: f in old(heap)
      ensures forall f | f in old(heap) && f != e :: f in heap
    {
      var k := 0;
      for j := 1 to |heap|
        invariant 0 <= k < j
        invariant heap == old(heap)
        invariant forall i | 0 <= i < j :: AtMost(heap[k], heap[i])
      {
        if !AtMost(heap[k], heap[j]) {
          k := j;
        }
      }
      e := heap[k];
      assert heap == heap[..k] + [e] + heap[k + 1..];
      heap := heap[..k] + heap[k + 1..];
    }

    /** The body of one effective loop round: pop the last item of list `index`. */
    method RemoveLast(index: nat, root: Item, ghost t: Tree) returns (ghost t': Tree)
      requires Represents([root], [t], 0, candidates) && Increasing(Labels([t]))
      requires ActiveIsReachable(candidates, t)
      requires index < |candidates| && candidates[index].active && candidates[index].items != []
      requires HeapCovers(heap + [Fresh(candidates[index], index)], candidates)
      modifies this
      ensures t' == PopTree(t, index)
      ensures Consistent(heap, candidates, root, t')
    {
      ghost var before := candidates;
      var items := candidates[index].items;
      var removed := items[|items| - 1];
      candidates := candidates[index := candidates[index].(items := DropLast(items))];
      t' := PopTree(t, index);
      ghost var popped := candidates;
      ghost var gone := Removed([t], index);
      PopTakesLast(root, t, before, popped, index);
      Invalidate(removed, gone[0], before[index].depth + 1);
      var c := candidates[index];
      candidates := candidates[index := c.(revision := c.revision + 1)];
      RepresentsFrame([root], [t'], 0, popped, candidates);
      if c.items != [] {
        heap := heap + [Fresh(candidates[index], index)];
      }
      HeapAfterRemoval(old(heap), heap, before, candidates, index);
    }

    /** One round of the loop: pop a least entry, and remove unless it is stale. */
    method Round(root: Item, ghost t: Tree) returns (removed: bool, ghost t': Tree)
      requires Consistent(heap, candidates, root, t) && heap != []
      modifies this
      ensures Consistent(heap, candidates, root, t')
      ensures removed ==> EraseTree(t') == PlainStep(EraseTree(t))
      ensures !removed ==> t' == t && |heap| < |old(heap)|
    {
      ghost var full := heap;
      var e := PopLeast();
      HeapWithout(full, heap, candidates, e);
      removed, t' := !Stale(e, candidates), t;
      if removed {
        RoundIsPlainStep(full, candidates, root, t, e);
        t' := RemoveLast(e.index, root, t);
      }
    }

    /** The reduction loop: rounds until enough was removed or no entry is left. */
    method Rounds(root: Item, ghost t0: Tree, removals: nat, ghost v: Json)
      returns (removed: nat, ghost t: Tree)
      requires Consistent(heap, candidates, root, t0) && v == EraseTree(t0)
      modifies this
      ensures Consistent(heap, candidates, root, t)
      ensures removed == removals || (removed < removals && heap == [])
      ensures EraseTree(t) == PlainSteps(v, removed)
    {
      removed, t := 0, t0;
      while removed < removals && heap != []
        invariant removed <= removals
        invariant Consistent(heap, candidates, root, t)
        invariant EraseTree(t) == PlainSteps(v, removed)
        decreases removals - removed, |heap|
      {
        ghost var before := EraseTree(t);
        var done;
        done, t := Round(root, t);
        if done {
          OneMoreStep(v, removed, before, EraseTree(t));
          removed := removed + 1;
        }
      }
    }

    method Reduce(root: Item, ghost t0: Tree, removals: nat) returns (ghost t: Tree)
      requires Consistent(heap, candidates, root, t0)
      modifies this
      ensures Represents([root], [t], 0, candidates)
      ensures EraseTree(t) == PlainSteps(EraseTree(t0), removals)
    {
      ghost var v := EraseTree(t0);
      var removed;
      removed, t := Rounds(root, t0, removals, v);
      if removed < removals {
        NothingLeft(candidates, root, t, removals - removed);
        StepsCompose(v, removed, removals - removed);
      }
    }

    /** Read the reduced result back out of the object graph. */
    method Read(item: Item, ghost t: Tree, ghost depth: nat) returns (v: Json)
      requires Represents([item], [t], depth, candidates)
      ensures Erase([t]) == [v]
      decreases t
    {
      match item
      case Val(s) =>
        v := Leaf(s);
      case Ref(index) =>
        var below := ReadChildren(candidates[index].items, t.items, depth + 1, t);
        v := Arr(below);
      case Dict(keys, items) =>
        var below := ReadChildren(items, t.items, depth + 1, t);
        v := Obj(keys, below);
    }

    method ReadChildren(items: seq<Item>, ghost ts: seq<Tree>, ghost depth: nat, ghost parent: Tree)
      returns (vs: seq<Json>)
      requires !parent.TLeaf? && parent.items == ts
      requires Represents(items, ts, depth, candidates)
      ensures Erase(ts) == vs
      decreases parent, 0
    {
      vs := [];
      for j := 0 to |items|
        invariant |items| == |ts|
        invariant vs == Erase(ts[..j])
      {
        RepresentsAt(items, ts, j, depth, candidates);
        var v := Read(items[j], ts[j], depth);
        vs := vs + [v];
      }
      assert ts[..|items|] == ts;
    }
  }

  /** `_simulate_list_removals` reaches what that many steps of the plain policy reach. */
  method SimulateListRemovals(value: Json, removals: nat) returns (reduced: Json)
    ensures reduced == PlainSteps(value, removals)
  {
    var trial := new Reduction();
    var root; ghost var t;
    root, t := trial.Collect(value, 0);
    forall i | 0 <= i < |trial.candidates| ensures i in Labels([t]) {
      assert Labels([t])[i] == i;
    }
    assert Erase([t]) == [EraseTree(t)];
    ghost var t' := trial.Reduce(root, t, removals);
    assert Erase([t']) == [EraseTree(t')];
    reduced := trial.Read(root, t', 0);
  }

  ghost predicate IsRange(s: seq<nat>, lo: nat, hi: nat) {
    lo <= hi && |s| == hi - lo && forall k | 0 <= k < |s| :: s[k] == lo + k
  }
}
