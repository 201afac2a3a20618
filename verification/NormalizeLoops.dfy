/** Bounded normalisation as it runs: one set of active identities, added to on the way down and
    restored on the way up, loops that stop at the caps, and a search for a free key suffix. */
module NormalizeLoops {
  import opened Wrappers
  import opened Normalize
  import opened Texts

  class Normalizer {
    const graph: Graph
    const caps: Caps
    const rank: Value -> int
    var activeIds: set<nat>

    constructor (graph: Graph, caps: Caps, rank: Value -> int)
      ensures this.graph == graph && this.caps == caps && this.rank == rank && activeIds == {}
    {
      this.graph := graph;
      this.caps := caps;
      this.rank := rank;
      activeIds := {};
    }

    /** `_bounded_json_value`. */
    method BoundedJsonValue(v: Native, depth: int) returns (b: Bounded)
      modifies this
      ensures activeIds == old(activeIds)
      ensures b == BoundedValue(graph, activeIds, v, caps, depth, rank)
      decreases graph.Keys - activeIds, 0, v
    {
      match v {
        case Nothing => b := Bounded(Null, false, None);
        case Boolean(x) => b := Bounded(Bool(x), false, None);
        case Number(n) => b := Bounded(Int(n), false, None);
        case Real(finite, repr) =>
          b := if finite then Bounded(Float(true, repr), false, None) else Bounded(Null, true, None);
        case String(t) => b := BoundedText(t, caps.text);
        case Printed(t) => b := BoundedText(t, caps.text);
        case Enum(inner) => b := BoundedJsonValue(inner, depth);
        case Object(id) =>
          if depth <= 0 {
            b := Bounded(Str(Codes("[truncated]")), true, None);
          } else if id in activeIds {
            b := Bounded(Str(CycleMarker(TypeName(graph, id))), true, None);
          } else if id !in graph {
            b := Bounded(Str(Marker(TypeName(graph, id))), false, None);
          } else {
            ghost var before := activeIds;
            activeIds := activeIds + {id};
            b := BoundedObject(graph[id], depth);
            activeIds := activeIds - {id};
            assert activeIds == before;
          }
      }
    }

    method BoundedObject(node: Node, depth: int) returns (b: Bounded)
      modifies this
      ensures activeIds == old(activeIds)
      ensures b == BoundedShape(graph, activeIds, node, caps, depth, rank)
      decreases graph.Keys - activeIds, 3
    {
      match node.shape {
        case Opaque => b := Bounded(Str(Marker(node.typeName)), false, None);
        case Converts(result) => b := BoundedJsonValue(result, depth);
        case Pairs(items) => b := BoundedMapping(node, depth);
        case SetOf(children) =>
          var all := BoundedChildren(children, |children|, depth - 1);
          assert children[..|children|] == children;
          var kept := Sort(ByValue(rank), all)[..Least(|children|, caps.item)];
          b := Bounded(List(Values(kept)), |children| > caps.item || AnyTruncated(kept), Some(|children|));
        case ListOf(children) =>
          var kept := BoundedChildren(children, Least(|children|, caps.item), depth - 1);
          b := Bounded(List(Values(kept)), |children| > caps.item || AnyTruncated(kept), Some(|children|));
      }
    }

    /** The first n children, one by one. */
    method BoundedChildren(children: seq<Native>, n: nat, depth: int) returns (bs: seq<Bounded>)
      requires n <= |children|
      modifies this
      ensures activeIds == old(activeIds)
      ensures bs == BoundedEach(graph, activeIds, children[..n], caps, depth, rank)
      decreases graph.Keys - activeIds, 1
    {
      bs := [];
      var i := 0;
      while i < n
        invariant 0 <= i <= n && |bs| == i
        invariant activeIds == old(activeIds)
        invariant forall j | 0 <= j < i :: bs[j] == BoundedValue(graph, activeIds, children[j], caps, depth, rank)
      {
        var b := BoundedJsonValue(children[i], depth);
        bs := bs + [b];
        i := i + 1;
      }
    }

    /** `_bounded_mapping`. */
    method BoundedMapping(node: Node, depth: int) returns (b: Bounded)
      requires node.shape.Pairs?
      modifies this
      ensures activeIds == old(activeIds)
      ensures b == BoundedShape(graph, activeIds, node, caps, depth, rank)
      decreases graph.Keys - activeIds, 2
    {
      var items := node.shape.items;
      var result, changed := MappingEntries(items[..Least(|items|, caps.mapping)], depth);
      b := Bounded(result, |items| > caps.mapping || changed, None);
    }

    /** The loop over the entries that are kept. */
    method MappingEntries(items: seq<Pair>, depth: int) returns (result: Value, changed: bool)
      modifies this
      ensures activeIds == old(activeIds)
      ensures var outs := BoundedEach(graph, activeIds, Children(items), caps, depth - 1, rank);
        && result == Assemble(Keys(items), Values(outs), caps.text, |items|)
        && (changed <==> AnyChanged(Keys(items), caps.text) || AnyTruncated(outs))
      decreases graph.Keys - activeIds, 1
    {
      ghost var outs := BoundedEach(graph, activeIds, Children(items), caps, depth - 1, rank);
      ghost var keys := Keys(items);
      result := Dict([], []);
      changed := false;
      var i := 0;
      while i < |items|
        invariant 0 <= i <= |items|
        invariant activeIds == old(activeIds)
        invariant result.Dict? && |result.keys| == |result.values|
        invariant result == Assemble(keys, Values(outs), caps.text, i)
        invariant changed <==> exists j | 0 <= j < i :: Changed(keys[j], caps.text) || outs[j].truncated
      {
        var name, keyChanged := FreeName(result.keys, items[i].key);
        var child := BoundedJsonValue(items[i].child, depth - 1);
        assert child == outs[i];
        result := Put(result, name, child.value);
        changed := changed || keyChanged || child.truncated;
        i := i + 1;
      }
    }

    /** The name of a key: bounded, and with the first free suffix if another key was cut to it. */
    method FreeName(keys: seq<Text>, key: Text) returns (name: Text, changed: bool)
      ensures name == NameFor(keys, key, caps.text) && changed == Changed(key, caps.text)
    {
      var (base, cut) := BoundedString(key, caps.text);
      name, changed := base, cut;
      if changed && name in keys {
        var suffix := 2;
        while Suffixed(base, suffix) in keys
          invariant suffix >= 2
          invariant FreeSuffix(keys, base, suffix) == FreeSuffix(keys, base, 2)
          decreases |Taken(keys, base, suffix)|
        {
          TakenShrinks(keys, base, suffix);
          suffix := suffix + 1;
        }
        name := Suffixed(base, suffix);
      }
    }
  }

  /** `bounded_json_value`, up to the redaction of media previews: it ends on every finite object graph,
      keeps every cap, can be encoded, and is the unbounded conversion when nothing was truncated. */
  method BoundedJson(graph: Graph, v: Native, caps: Caps, maxDepth: int, rank: Value -> int) returns (b: Bounded)
    ensures Fits(graph, b.value, caps, maxDepth)
    ensures TypesNamed(graph) ==> Encodable(b.value)
    ensures !b.truncated ==> b.value == JsonValue(graph, {}, v, rank)
    ensures b == BoundedValue(graph, {}, v, caps, maxDepth, rank)
  {
    var normalizer := new Normalizer(graph, caps, rank);
    b := normalizer.BoundedJsonValue(v, maxDepth);
    NormalizedFits(graph, {}, v, caps, maxDepth, rank);
    if !b.truncated {
      UntruncatedIsComplete(graph, {}, v, caps, maxDepth, rank);
    }
    if TypesNamed(graph) {
      NormalizedEncodes(graph, {}, v, caps, maxDepth, rank);
    }
  }
}
