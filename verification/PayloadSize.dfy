/**
 The payload size estimate (queued-execution-recorder.ts): a depth-first walk over an object
 graph that may share and cycle, with a mutable set of the objects seen. The graph is a real heap
 of objects here; the walk is proved to count every reachable object exactly once.
 */
module PayloadSize {

  /** A payload value: a string counts its length, any other scalar 8, null and undefined nothing. */
  datatype Payload = Nullish | Text(length: nat) | Scalar | Ref(node: JsObject)

  /** An array or object with the values a walk meets in it. Assignments may close cycles; the walk makes none. */
  class JsObject {
    var children: seq<Payload>

    constructor (children: seq<Payload>)
      ensures this.children == children
    {
      this.children := children;
    }
  }

  /** The Set<object> that one walk shares between its recursive calls. */
  class SeenSet {
    var nodes: set<JsObject>

    constructor ()
      ensures nodes == {}
    {
      nodes := {};
    }
  }

  const OBJECT_ALLOWANCE: nat := 16
  const SCALAR_ALLOWANCE: nat := 8
  const BYTE_ALLOWANCE_PER_ENTRY: nat := 256

  // ----- Reachability -----

  /** What a finite part of the heap looks like: each object with its values. */
  type Graph = map<JsObject, seq<Payload>>

  ghost predicate IsHeap(graph: Graph)
    reads graph.Keys
  {
    forall node :: node in graph ==> node.children == graph[node]
  }

  /** The objects a value holds directly. */
  function Roots(value: Payload): set<JsObject> {
    if value.Ref? then {value.node} else {}
  }

  predicate HoldsRefAt(graph: Graph, node: JsObject, i: nat) {
    node in graph && i < |graph[node]| && graph[node][i].Ref?
  }

  /** Following the i-th reference of each object in turn leads from one object to another. */
  predicate Leads(graph: Graph, from: JsObject, route: seq<nat>, to: JsObject)
    decreases |route|
  {
    if route == [] then from == to
    else HoldsRefAt(graph, from, route[0]) && Leads(graph, graph[from][route[0]].node, route[1..], to)
  }

  ghost predicate Reachable(graph: Graph, from: JsObject, to: JsObject) {
    exists route: seq<nat> :: Leads(graph, from, route, to)
  }

  /** The objects of these hold references only to the others. */
  ghost predicate ClosedIn(graph: Graph, nodes: set<JsObject>, others: set<JsObject>) {
    forall node, i: nat :: node in nodes && HoldsRefAt(graph, node, i) ==> graph[node][i].node in others
  }

  /** The graph holds everything its objects refer to. */
  ghost predicate Closed(graph: Graph) {
    ClosedIn(graph, graph.Keys, graph.Keys)
  }

  // ----- Costs -----

  function ScalarCost(value: Payload): nat {
    match value
    case Nullish => 0
    case Text(length) => length
    case Scalar => SCALAR_ALLOWANCE
    case Ref(_) => 0
  }

  function ScalarCosts(values: seq<Payload>): nat {
    if values == [] then 0 else ScalarCost(values[0]) + ScalarCosts(values[1..])
  }

  /** What one object contributes on its own: its allowance and its scalar children. */
  function NodeCost(values: seq<Payload>): nat {
    OBJECT_ALLOWANCE + ScalarCosts(values)
  }

  /** An object counts 16 bytes, and its values a string's length, 8 for another scalar, and nothing else. */
  lemma NodeCostMeaning(values: seq<Payload>, value: Payload)
    ensures NodeCost([]) == 16
    ensures NodeCost(values + [value])
         == NodeCost(values) + match value
                               case Nullish => 0
                               case Text(length) => length
                               case Scalar => 8
                               case Ref(_) => 0
  {
    ScalarCostsAppend(values, value);
  }

  ghost function TotalCost(graph: Graph, nodes: set<JsObject>): nat
    requires nodes <= graph.Keys
    decreases nodes
  {
    if nodes == {} then 0
    else
      var node :| node in nodes;
      NodeCost(graph[node]) + TotalCost(graph, nodes - {node})
  }

  /** The sum does not depend on the order the objects are taken in. */
  lemma {:induction false} TotalCostTakes(graph: Graph, nodes: set<JsObject>, node: JsObject)
    requires node in nodes && nodes <= graph.Keys
    ensures TotalCost(graph, nodes) == NodeCost(graph[node]) + TotalCost(graph, nodes - {node})
    decreases nodes
  {
    var first :| first in nodes
                 && TotalCost(graph, nodes) == NodeCost(graph[first]) + TotalCost(graph, nodes - {first});
    if first != node {
      TotalCostTakes(graph, nodes - {first}, node);
      TotalCostTakes(graph, nodes - {node}, first);
      assert nodes - {first} - {node} == nodes - {node} - {first};
    }
  }

  lemma {:induction false} TotalCostUnion(graph: Graph, a: set<JsObject>, b: set<JsObject>)
    requires a !! b && a + b <= graph.Keys
    ensures TotalCost(graph, a + b) == TotalCost(graph, a) + TotalCost(graph, b)
    decreases a
  {
    if a == {} {
      assert a + b == b;
    } else {
      var node :| node in a;
      TotalCostTakes(graph, a, node);
      TotalCostTakes(graph, a + b, node);
      assert a + b - {node} == (a - {node}) + b;
      TotalCostUnion(graph, a - {node}, b);
    }
  }

  // ----- The walk -----

  /** Everything newly seen was reached by references from the roots. */
  ghost predicate ReachedFrom(graph: Graph, roots: set<JsObject>, added: set<JsObject>) {
    forall node :: node in added ==> exists root :: root in roots && Reachable(graph, root, node)
  }

  function RootsOf(values: seq<Payload>): set<JsObject> {
    set i | 0 <= i < |values| && values[i].Ref? :: values[i].node
  }

  lemma ReachItself(graph: Graph, node: JsObject)
    ensures Reachable(graph, node, node)
  {
    assert Leads(graph, node, [], node);
  }

  lemma ReachThrough(graph: Graph, node: JsObject, i: nat, to: JsObject)
    requires HoldsRefAt(graph, node, i) && Reachable(graph, graph[node][i].node, to)
    ensures Reachable(graph, node, to)
  {
    var route: seq<nat> :| Leads(graph, graph[node][i].node, route, to);
    assert ([i] + route)[1..] == route;
    assert Leads(graph, node, [i] + route, to);
  }

  method EstimatePayloadBytes(value: Payload, seen: SeenSet, ghost graph: Graph) returns (total: nat)
    requires IsHeap(graph) && Closed(graph) && Roots(value) <= graph.Keys && seen.nodes <= graph.Keys
    modifies seen
    ensures old(seen.nodes) <= seen.nodes <= graph.Keys && Roots(value) <= seen.nodes
    ensures var added := seen.nodes - old(seen.nodes);
            && total == ScalarCost(value) + TotalCost(graph, added)
            && ReachedFrom(graph, Roots(value), added)
            && ClosedIn(graph, added, seen.nodes)
    decreases graph.Keys - seen.nodes, 0
  {
    match value
    case Nullish =>
      return 0;
    case Text(length) =>
      return length;
    case Scalar =>
      return SCALAR_ALLOWANCE;
    case Ref(node) =>
      if node in seen.nodes {
        return 0;
      }
      ghost var before := seen.nodes;
      seen.nodes := seen.nodes + {node};
      var inner := EstimateChildren(node, seen, graph);
      total := OBJECT_ALLOWANCE + inner;
      VisitedOnce(graph, node, before, seen.nodes);
  }

  /** The loop over an object's values. */
  method EstimateChildren(node: JsObject, seen: SeenSet, ghost graph: Graph) returns (total: nat)
    requires IsHeap(graph) && Closed(graph) && node in graph && seen.nodes <= graph.Keys
    modifies seen
    ensures old(seen.nodes) <= seen.nodes <= graph.Keys && RootsOf(graph[node]) <= seen.nodes
    ensures var added := seen.nodes - old(seen.nodes);
            && total == ScalarCosts(graph[node]) + TotalCost(graph, added)
            && ReachedFrom(graph, RootsOf(graph[node]), added)
            && ClosedIn(graph, added, seen.nodes)
    decreases graph.Keys - seen.nodes, 1
  {
    var values := node.children;
    total := 0;
    assert values[..0] == [];
    for i := 0 to |values|
      invariant old(seen.nodes) <= seen.nodes <= graph.Keys && RootsOf(values[..i]) <= seen.nodes
      invariant total == ScalarCosts(values[..i]) + TotalCost(graph, seen.nodes - old(seen.nodes))
      invariant ReachedFrom(graph, RootsOf(values), seen.nodes - old(seen.nodes))
      invariant ClosedIn(graph, seen.nodes - old(seen.nodes), seen.nodes)
    {
      ghost var middle := seen.nodes;
      assert values[i].Ref? ==> HoldsRefAt(graph, node, i);
      var item := EstimatePayloadBytes(values[i], seen, graph);
      total := total + item;
      NextChild(graph, values, i, old(seen.nodes), middle, seen.nodes);
    }
    assert values[..|values|] == values;
  }

  lemma {:induction false} ScalarCostsAppend(values: seq<Payload>, value: Payload)
    ensures ScalarCosts(values + [value]) == ScalarCosts(values) + ScalarCost(value)
    decreases |values|
  {
    if values == [] {
      assert [value][1..] == [] && values + [value] == [value];
    } else {
      assert (values + [value])[1..] == values[1..] + [value];
      ScalarCostsAppend(values[1..], value);
    }
  }

  lemma NextChild(
    graph: Graph, values: seq<Payload>, i: nat, before: set<JsObject>, middle: set<JsObject>, after: set<JsObject>)
    requires i < |values| && before <= middle <= after <= graph.Keys
    requires RootsOf(values[..i]) <= middle && Roots(values[i]) <= after
    requires ReachedFrom(graph, RootsOf(values), middle - before)
    requires ReachedFrom(graph, Roots(values[i]), after - middle)
    requires ClosedIn(graph, middle - before, middle) && ClosedIn(graph, after - middle, after)
    ensures ScalarCosts(values[..i + 1]) == ScalarCosts(values[..i]) + ScalarCost(values[i])
    ensures TotalCost(graph, after - before) == TotalCost(graph, middle - before) + TotalCost(graph, after - middle)
    ensures RootsOf(values[..i + 1]) <= after
    ensures ReachedFrom(graph, RootsOf(values), after - before) && ClosedIn(graph, after - before, after)
  {
    assert values[..i + 1] == values[..i] + [values[i]];
    ScalarCostsAppend(values[..i], values[i]);
    assert after - before == (middle - before) + (after - middle);
    TotalCostUnion(graph, middle - before, after - middle);
    assert Roots(values[i]) <= RootsOf(values);
    forall root | root in RootsOf(values[..i + 1]) ensures root in after {
      var k :| 0 <= k < i + 1 && values[..i + 1][k].Ref? && values[..i + 1][k].node == root;
      if k < i {
        assert values[..i][k] == Ref(root);
        assert root in RootsOf(values[..i]);
      }
    }
  }

  /** Visiting a new object: its own cost, and what its values lead to. */
  lemma VisitedOnce(graph: Graph, node: JsObject, before: set<JsObject>, after: set<JsObject>)
    requires node !in before && before + {node} <= after <= graph.Keys
    requires RootsOf(graph[node]) <= after
    requires ReachedFrom(graph, RootsOf(graph[node]), after - (before + {node}))
    requires ClosedIn(graph, after - (before + {node}), after)
    ensures TotalCost(graph, after - before) == NodeCost(graph[node]) + TotalCost(graph, after - (before + {node}))
    ensures ReachedFrom(graph, {node}, after - before) && ClosedIn(graph, after - before, after)
  {
    var rest := after - (before + {node});
    TotalCostTakes(graph, after - before, node);
    assert after - before - {node} == rest;
    forall to | to in after - before ensures Reachable(graph, node, to) {
      if to == node {
        ReachItself(graph, node);
      } else {
        assert to in rest;
        var root :| root in RootsOf(graph[node]) && Reachable(graph, root, to);
        var i :| 0 <= i < |graph[node]| && graph[node][i].Ref? && graph[node][i].node == root;
        ReachThrough(graph, node, i, to);
      }
    }
    forall n, i: nat | n in after - before && HoldsRefAt(graph, n, i) ensures graph[n][i].node in after {
      if n == node {
        assert graph[n][i].node in RootsOf(graph[node]);
      } else {
        assert n in rest;
      }
    }
  }

  // ----- Main result -----

  lemma {:induction false} RouteStaysIn(
    graph: Graph, from: JsObject, route: seq<nat>, to: JsObject, closed: set<JsObject>)
    requires Leads(graph, from, route, to) && from in closed && ClosedIn(graph, closed, closed)
    ensures to in closed
    decreases |route|
  {
    if route != [] {
      RouteStaysIn(graph, graph[from][route[0]].node, route[1..], to, closed);
    }
  }

  /** The objects of the graph reachable from a value. */
  ghost function ReachableNodes(graph: Graph, value: Payload): set<JsObject> {
    set node | node in graph && value.Ref? && Reachable(graph, value.node, node)
  }

  /** A closed set reached from its root is exactly what is reachable, whatever the sharing and cycles. */
  lemma SeenIsReachable(graph: Graph, root: JsObject, seen: set<JsObject>)
    requires root in seen && seen <= graph.Keys && ReachedFrom(graph, {root}, seen) && ClosedIn(graph, seen, seen)
    ensures seen == ReachableNodes(graph, Ref(root))
  {
    forall node | node in ReachableNodes(graph, Ref(root)) ensures node in seen {
      var route: seq<nat> :| Leads(graph, root, route, node);
      RouteStaysIn(graph, root, route, node, seen);
    }
  }

  ghost function FieldCost(graph: Graph, value: Payload): nat {
    ScalarCost(value) + TotalCost(graph, ReachableNodes(graph, value))
  }

  /** The estimate of one payload field: the cost of the reachable objects, each counted once. */
  method EstimateField(value: Payload, ghost graph: Graph) returns (total: nat)
    requires IsHeap(graph) && Closed(graph) && Roots(value) <= graph.Keys
    ensures total == ScalarCost(value) + TotalCost(graph, ReachableNodes(graph, value))
  {
    var seen := new SeenSet();
    total := EstimatePayloadBytes(value, seen, graph);
    assert seen.nodes - {} == seen.nodes;
    if value.Ref? {
      SeenIsReachable(graph, value.node, seen.nodes);
    } else {
      assert seen.nodes == {} by {
        assert Roots(value) == {};
      }
      assert ReachableNodes(graph, value) == {};
    }
  }

  /** estimateEntryBytes: five fields, each walked with its own set, so shared objects count per field. */
  method EstimateEntryBytes(fields: seq<Payload>, ghost graph: Graph) returns (total: nat)
    requires IsHeap(graph) && Closed(graph)
    requires |fields| == 5 && forall i :: 0 <= i < 5 ==> Roots(fields[i]) <= graph.Keys
    ensures total
         == 256 + FieldCost(graph, fields[0]) + FieldCost(graph, fields[1]) + FieldCost(graph, fields[2])
            + FieldCost(graph, fields[3]) + FieldCost(graph, fields[4])
  {
    total := BYTE_ALLOWANCE_PER_ENTRY;
    for i := 0 to 5
      invariant total == BYTE_ALLOWANCE_PER_ENTRY + FieldCosts(graph, fields[..i])
    {
      var bytes := EstimateField(fields[i], graph);
      OneFieldMore(graph, fields, i);
      total := total + bytes;
    }
    FieldCostsAre(graph, fields);
  }

  lemma FieldCostsAre(graph: Graph, fields: seq<Payload>)
    requires |fields| == 5
    ensures FieldCosts(graph, fields[..5])
         == FieldCost(graph, fields[0]) + FieldCost(graph, fields[1]) + FieldCost(graph, fields[2])
            + FieldCost(graph, fields[3]) + FieldCost(graph, fields[4])
  {
    assert fields[..0] == [];
    hide FieldCost;
    forall i | 0 <= i < 5
      ensures FieldCosts(graph, fields[..i + 1]) == FieldCosts(graph, fields[..i]) + FieldCost(graph, fields[i])
    {
      OneFieldMore(graph, fields, i);
    }
    assert FieldCosts(graph, fields[..2]) == FieldCosts(graph, fields[..1]) + FieldCost(graph, fields[1]);
    assert FieldCosts(graph, fields[..4]) == FieldCosts(graph, fields[..3]) + FieldCost(graph, fields[3]);
  }

  lemma OneFieldMore(graph: Graph, fields: seq<Payload>, i: nat)
    requires i < |fields|
    ensures FieldCosts(graph, fields[..i + 1]) == FieldCosts(graph, fields[..i]) + FieldCost(graph, fields[i])
  {
    assert fields[..i + 1][..i] == fields[..i];
  }

  ghost function FieldCosts(graph: Graph, fields: seq<Payload>): nat {
    if fields == [] then 0
    else FieldCosts(graph, fields[..|fields| - 1]) + FieldCost(graph, fields[|fields| - 1])
  }
}
