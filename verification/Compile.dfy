/**
 The compiler's renumbering of nodes. Fusion can make an earlier node depend on a
 later one, so the compiled node list is put into dependency order; at run time the
 serial executor, which always takes the lowest ready index, then replays it exactly.
 */
module Compile {
  import opened Wrappers
  import opened DependencyOrder
  import opened GraphOrder

  ghost predicate UniqueProducers(nodes: seq<NodeDesc>) {
    (forall i :: 0 <= i < |nodes| ==> Distinct(nodes[i].outputs)) &&
    (forall i, j, v :: 0 <= i < j < |nodes| && v in nodes[i].outputs ==> v !in nodes[j].outputs)
  }

  // Node i reads a value that node j produces.
  ghost predicate Feeds(nodes: seq<NodeDesc>, j: nat, i: nat) {
    i < |nodes| && j < |nodes| && exists v :: v in nodes[i].inputs && v in nodes[j].outputs
  }

  ghost predicate InputsPresent(nodes: seq<NodeDesc>, tensors: set<string>) {
    forall i, v :: 0 <= i < |nodes| && v in nodes[i].inputs ==>
      v == "" || v in tensors || exists j :: 0 <= j < |nodes| && v in nodes[j].outputs
  }

  ghost predicate FeedsDeps(nodes: seq<NodeDesc>, deps: Dependencies) {
    |deps| == |nodes| && ValidDeps(deps) &&
    forall i, j: nat :: 0 <= i < |nodes| ==> (j in deps[i] <==> Feeds(nodes, j, i))
  }

  function Permuted(nodes: seq<NodeDesc>, order: seq<nat>): seq<NodeDesc>
    requires Within(order, |nodes|)
  {
    seq(|order|, p requires 0 <= p < |order| => nodes[order[p]])
  }

  // `moved` lists the nodes in this order, one for one.
  ghost predicate Lists(nodes: seq<NodeDesc>, order: seq<nat>, moved: seq<NodeDesc>) {
    |order| == |nodes| == |moved| && Within(order, |nodes|) && Distinct(order) &&
    forall p :: 0 <= p < |nodes| ==> moved[p] == nodes[order[p]]
  }

  // The nodes in the least order that runs producers before readers.
  ghost predicate Renumbered(nodes: seq<NodeDesc>, moved: seq<NodeDesc>) {
    exists order :: Lists(nodes, order, moved) && Topological(CompiledDeps(nodes), order) &&
      LexLeast(CompiledDeps(nodes), order)
  }

  // Without one position, a list has one occurrence less.
  lemma TakenOut(nodes: seq<NodeDesc>, i: nat)
    requires i < |nodes|
    ensures multiset(nodes) == multiset(nodes[..i] + nodes[i + 1..]) + multiset{nodes[i]}
  {
    assert nodes == nodes[..i] + [nodes[i]] + nodes[i + 1..];
  }

  // The order on the nodes without the one it puts last.
  function Without(order: seq<nat>, i: nat): (r: seq<nat>)
    ensures |r| == |order| && forall p :: 0 <= p < |r| ==> r[p] == if order[p] > i then order[p] - 1 else order[p]
  {
    seq(|order|, p requires 0 <= p < |order| => if order[p] > i then order[p] - 1 else order[p])
  }

  /** Listing the nodes in another order loses none and repeats none. */
  lemma {:induction false} ListsAll(nodes: seq<NodeDesc>, order: seq<nat>, moved: seq<NodeDesc>)
    requires Lists(nodes, order, moved)
    ensures multiset(moved) == multiset(nodes)
    decreases |nodes|
  {
    if nodes == [] {
      assert moved == [];
    } else {
      var n := |nodes| - 1;
      var i := order[n];
      var rest := nodes[..i] + nodes[i + 1..];
      forall p | 0 <= p < n ensures Without(order[..n], i)[p] < n && moved[..n][p] == rest[Without(order[..n], i)[p]] {
        assert order[p] != order[n];
      }
      assert Distinct(Without(order[..n], i)) by {
        forall p, q | 0 <= p < q < n ensures Without(order[..n], i)[p] != Without(order[..n], i)[q] {
          assert order[p] != order[q] && order[p] != order[n] && order[q] != order[n];
        }
      }
      ListsAll(rest, Without(order[..n], i), moved[..n]);
      TakenOut(nodes, i);
      assert moved == moved[..n] + [moved[n]];
    }
  }

  // Every producer has a smaller index than its readers.
  ghost predicate Forwards(nodes: seq<NodeDesc>) {
    forall i: nat, j: nat :: Feeds(nodes, j, i) ==> j < i
  }

  // The producers of each node's inputs.
  ghost function CompiledDeps(nodes: seq<NodeDesc>): Dependencies { AllDeps(nodes, Producers(nodes, |nodes|), {}) }

  /** If every value has one producer, the dependencies are exactly the pairs of which one node feeds the other. */
  lemma CompiledDepsFeed(nodes: seq<NodeDesc>)
    requires UniqueProducers(nodes)
    ensures FeedsDeps(nodes, CompiledDeps(nodes))
  {
    var producers := Producers(nodes, |nodes|);
    ProducersMap(nodes, |nodes|);
    AllDepsValid(nodes, producers, {});
    forall i, j: nat | 0 <= i < |nodes| ensures j in CompiledDeps(nodes)[i] <==> Feeds(nodes, j, i) {
      NodeDepsMeaning(nodes[i].inputs, producers, {});
      if Feeds(nodes, j, i) {
        var v :| v in nodes[i].inputs && v in nodes[j].outputs;
        assert v in producers && producers[v] == j;
      }
    }
  }

  lemma TopologicalIsForwards(nodes: seq<NodeDesc>, deps: Dependencies, order: seq<nat>)
    requires FeedsDeps(nodes, deps) && Topological(deps, order) && Within(order, |nodes|)
    ensures Forwards(Permuted(nodes, order))
  {
    var moved := Permuted(nodes, order);
    forall i: nat, j: nat | Feeds(moved, j, i) ensures j < i {
      var v :| v in moved[i].inputs && v in moved[j].outputs;
      assert Feeds(nodes, order[j], order[i]);
      assert Ready(deps, order[..i], order[i]);
      assert order[j] in order[..i];
      var q :| 0 <= q < i && order[..i][q] == order[j];
      assert order[q] == order[j];
    }
  }

  method CollectOutputs(nodes: seq<NodeDesc>) returns (names: set<string>)
    ensures forall i, v :: 0 <= i < |nodes| && v in nodes[i].outputs ==> v in names
  {
    names := {};
    for i := 0 to |nodes|
      invariant forall j, v :: 0 <= j < i && v in nodes[j].outputs ==> v in names
    {
      names := names + set v | v in nodes[i].outputs;
    }
  }

  /**
   Accepts exactly the graphs whose values have one producer, whose inputs exist and
   whose dependencies are acyclic, and renumbers the nodes so that edges point forwards.
   */
  method OrderNodes(nodes: seq<NodeDesc>, tensors: set<string>) returns (r: Result<seq<NodeDesc>>)
    ensures r.Ok? <==> UniqueProducers(nodes) && InputsPresent(nodes, tensors) && Acyclic(CompiledDeps(nodes))
    ensures r.Ok? ==> |r.value| == |nodes| && multiset(r.value) == multiset(nodes)
    ensures r.Ok? ==> Renumbered(nodes, r.value) && Forwards(r.value)
  {
    ghost var deps := CompiledDeps(nodes);
    var names := CollectOutputs(nodes);
    var ok, producers := BuildProducers(nodes, names, {});
    assert ok <==> UniqueProducers(nodes);
    if !ok { return Err; }
    CompiledDepsFeed(nodes);
    var pending, users;
    ok, pending, users := BuildEdges(nodes, producers, {}, tensors);
    PresentIsKnown(nodes, producers, tensors);
    if !ok { return Err; }
    var order := Kahn(deps, pending, users);
    if |order| != |nodes| { return Err; }
    TopologicalWithin(deps, order);
    GreedyIsLexLeast(deps, order);
    TopologicalIsForwards(nodes, deps, order);
    r := Ok(Permuted(nodes, order));
    assert Lists(nodes, order, r.value);
    ListsAll(nodes, order, r.value);
  }

  lemma PresentIsKnown(nodes: seq<NodeDesc>, producers: map<string, nat>, tensors: set<string>)
    requires ProducerMap(nodes, |nodes|, producers)
    ensures InputsPresent(nodes, tensors) <==>
      forall i :: 0 <= i < |nodes| ==> InputsKnown(nodes[i].inputs, producers, {}, tensors)
  {
    forall v ensures v in producers <==> exists j :: 0 <= j < |nodes| && v in nodes[j].outputs {}
    if InputsPresent(nodes, tensors) {
      forall i | 0 <= i < |nodes| ensures InputsKnown(nodes[i].inputs, producers, {}, tensors) {}
    } else {
      var i, v :| 0 <= i < |nodes| && v in nodes[i].inputs && v != "" && v !in tensors &&
        !exists j :: 0 <= j < |nodes| && v in nodes[j].outputs;
      assert !InputKnown(v, producers, {}, tensors);
    }
  }

  lemma TopologicalWithin(deps: Dependencies, order: seq<nat>)
    requires Topological(deps, order)
    ensures Within(order, |deps|)
  {
    forall p | 0 <= p < |order| ensures order[p] < |deps| { assert Ready(deps, order[..p], order[p]); }
  }

  /** The dependencies of a compiled graph only point to smaller indices. */
  lemma ForwardsIsNumbered(nodes: seq<NodeDesc>, deps: Dependencies)
    requires Forwards(nodes) && FeedsDeps(nodes, deps)
    ensures Numbered(deps)
  {
    forall i, d | 0 <= i < |deps| && d in deps[i] ensures d < i { assert Feeds(nodes, d, i); }
  }
}
