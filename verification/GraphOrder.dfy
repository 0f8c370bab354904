/**
 Validation and ordering of a model graph: the checks a graph must pass, the
 dependency relation its value names induce, and the order the build uses.
 */
module GraphOrder {
  import opened Wrappers
  import opened DependencyOrder

  const INT64_MAX: nat := 0x7fff_ffff_ffff_ffff

  datatype ValueDesc = ValueDesc(name: string, dims: seq<int>, constant: bool)
  datatype NodeDesc = NodeDesc(name: string, inputs: seq<string>, outputs: seq<string>)
  datatype GraphDesc = GraphDesc(values: seq<ValueDesc>, inputs: seq<string>, nodes: seq<NodeDesc>,
                                 outputs: seq<string>)

  // ---- Shapes ----

  function Product(dims: seq<int>): int {
    if dims == [] then 1 else Product(dims[..|dims| - 1]) * dims[|dims| - 1]
  }

  ghost predicate ValidShape(dims: seq<int>) {
    (forall d :: d in dims ==> d >= 0) && Product(dims) <= INT64_MAX
  }

  lemma DivisionTest(result: nat, dim: nat)
    requires dim > 0
    ensures result > INT64_MAX / dim <==> result * dim > INT64_MAX
  {
    var q, r := INT64_MAX / dim, INT64_MAX % dim;
    assert INT64_MAX == q * dim + r;
    if result > q {
      assert result * dim >= (q + 1) * dim;
    } else {
      assert result * dim <= q * dim;
    }
  }

  lemma {:induction false} ProductOfPrefix(dims: seq<int>, k: nat)
    requires k <= |dims| && forall i :: 0 <= i < |dims| ==> dims[i] > 0
    ensures 1 <= Product(dims[..k]) <= Product(dims)
    decreases |dims|
  {
    if k < |dims| {
      var init := dims[..|dims| - 1];
      ProductOfPrefix(init, k);
      assert init[..k] == dims[..k];
      assert Product(init) * dims[|dims| - 1] >= Product(init) * 1;
    } else if k > 0 {
      assert dims[..k] == dims;
      ProductOfPrefix(dims[..k - 1], k - 1);
      assert dims[..k - 1][..k - 1] == dims[..k - 1];
      assert Product(dims[..k - 1]) * dims[k - 1] >= 1;
    } else {
      assert dims[..k] == dims == [];
    }
  }

  lemma {:induction false} ProductWithZero(dims: seq<int>)
    requires 0 in dims
    ensures Product(dims) == 0
  {
    var init, last := dims[..|dims| - 1], dims[|dims| - 1];
    if last != 0 {
      assert dims == init + [last];
      ProductWithZero(init);
    }
  }

  /** The element count, computed without ever leaving the 63-bit range; refused when it would. */
  method CheckedElementCount(dims: seq<int>) returns (r: Option<nat>)
    ensures r.Some? <==> ValidShape(dims)
    ensures r.Some? ==> r.value == Product(dims)
  {
    var empty := false;
    for i := 0 to |dims|
      invariant forall k :: 0 <= k < i ==> dims[k] >= 0
      invariant empty <==> 0 in dims[..i]
    {
      if dims[i] < 0 { assert dims[i] in dims; return None; }
      empty := empty || dims[i] == 0;
    }
    assert dims[..|dims|] == dims;
    var result: nat := if empty then 0 else 1;
    if empty { ProductWithZero(dims); }
    for i := 0 to |dims|
      invariant empty ==> result == 0
      invariant !empty ==> result == Product(dims[..i]) && result <= INT64_MAX
    {
      assert dims[..i + 1][..i] == dims[..i];
      if dims[i] != 0 {
        DivisionTest(result, dims[i]);
        if result > INT64_MAX / dims[i] {
          if !empty {
            ProductOfPrefix(dims, i + 1);
          }
          return None;
        }
      }
      result := result * dims[i];
    }
    assert dims[..|dims|] == dims;
    return Some(result);
  }

  // ---- What a graph must satisfy ----

  ghost function ValueNames(g: GraphDesc): set<string> { set v | v in g.values :: v.name }
  ghost function DeclaredSources(g: GraphDesc): set<string> {
    (set v | v in g.values && v.constant :: v.name) + (set i | i in g.inputs)
  }
  ghost predicate Produced(g: GraphDesc, v: string) { exists i :: 0 <= i < |g.nodes| && v in g.nodes[i].outputs }

  // Explicit bindings supply external values, but never replace a producer.
  ghost predicate IsSource(g: GraphDesc, bindings: set<string>, v: string) {
    v in DeclaredSources(g) || (v in bindings && v in ValueNames(g) && !Produced(g, v))
  }

  ghost predicate ValuesValid(values: seq<ValueDesc>) {
    (forall i :: 0 <= i < |values| ==> values[i].name != "" && ValidShape(values[i].dims)) &&
    (forall i, j :: 0 <= i < j < |values| ==> values[i].name != values[j].name)
  }

  ghost predicate InputsValid(g: GraphDesc) {
    Distinct(g.inputs) && forall i :: i in g.inputs ==> i in ValueNames(g)
  }

  ghost predicate NodeNamesValid(nodes: seq<NodeDesc>) {
    forall i, j :: 0 <= i < j < |nodes| && nodes[i].name != "" ==> nodes[i].name != nodes[j].name
  }

  // One producer per value, and none for a source.
  ghost predicate OutputsValid(nodes: seq<NodeDesc>, n: nat, names: set<string>, sources: set<string>)
    requires n <= |nodes|
  {
    (forall i, v :: 0 <= i < n && v in nodes[i].outputs ==> v in names && v !in sources) &&
    (forall i :: 0 <= i < n ==> Distinct(nodes[i].outputs)) &&
    (forall i, j, v :: 0 <= i < j < n && v in nodes[i].outputs ==> v !in nodes[j].outputs)
  }

  ghost predicate Supplied(g: GraphDesc, bindings: set<string>, v: string) {
    v == "" || IsSource(g, bindings, v) || Produced(g, v)
  }

  ghost predicate InputsSupplied(g: GraphDesc, bindings: set<string>) {
    forall i, v :: 0 <= i < |g.nodes| && v in g.nodes[i].inputs ==> Supplied(g, bindings, v)
  }

  ghost predicate GraphOutputsValid(g: GraphDesc, bindings: set<string>) {
    Distinct(g.outputs) && forall o :: o in g.outputs ==> IsSource(g, bindings, o) || Produced(g, o)
  }

  ghost predicate WellFormed(g: GraphDesc, bindings: set<string>) {
    ValuesValid(g.values) && InputsValid(g) && NodeNamesValid(g.nodes) &&
    OutputsValid(g.nodes, |g.nodes|, ValueNames(g), DeclaredSources(g)) && InputsSupplied(g, bindings) &&
      GraphOutputsValid(g, bindings)
  }

  // Node i reads, from no source, a value that node j produces.
  ghost predicate DependsOn(g: GraphDesc, bindings: set<string>, i: nat, j: nat) {
    i < |g.nodes| && j < |g.nodes| &&
    exists v :: v in g.nodes[i].inputs && !IsSource(g, bindings, v) && v in g.nodes[j].outputs
  }

  ghost predicate Describes(deps: Dependencies, g: GraphDesc, bindings: set<string>) {
    |deps| == |g.nodes| && ValidDeps(deps) &&
    forall i, j :: 0 <= i < |deps| ==> (j in deps[i] <==> DependsOn(g, bindings, i, j))
  }

  // ---- Producers and edges ----

  // The producer of each output of the first n nodes.
  ghost predicate ProducerMap(nodes: seq<NodeDesc>, n: nat, producers: map<string, nat>)
    requires n <= |nodes|
  {
    (forall v :: v in producers ==> producers[v] < n && v in nodes[producers[v]].outputs) &&
    (forall i, v :: 0 <= i < n && v in nodes[i].outputs ==> v in producers && producers[v] == i)
  }

  // The outputs of node i join the producers, unless one is unknown, a source or already produced.
  function Assign(before: map<string, nat>, outputs: seq<string>, i: nat): map<string, nat> {
    if outputs == [] then before else Assign(before, outputs[..|outputs| - 1], i)[outputs[|outputs| - 1] := i]
  }

  predicate Assignable(before: map<string, nat>, outputs: seq<string>, i: nat, names: set<string>,
    sources: set<string>) {
    outputs == [] ||
    var init, last := outputs[..|outputs| - 1], outputs[|outputs| - 1];
    Assignable(before, init, i, names, sources) && last in names && last !in sources && last !in Assign(before, init, i)
  }

  lemma {:induction false} AssignMeaning(before: map<string, nat>, outputs: seq<string>, i: nat)
    ensures forall v :: v in Assign(before, outputs, i) <==> v in before || v in outputs
    ensures forall v :: v in Assign(before, outputs, i) ==>
      Assign(before, outputs, i)[v] == if v in outputs then i else before[v]
  {
    if outputs != [] {
      var init, last := outputs[..|outputs| - 1], outputs[|outputs| - 1];
      AssignMeaning(before, init, i);
      assert outputs == init + [last];
    }
  }

  lemma {:induction false} AssignableMeaning(before: map<string, nat>, outputs: seq<string>, i: nat, names: set<string>,
    sources: set<string>)
    ensures Assignable(before, outputs, i, names, sources) <==>
      Distinct(outputs) && forall k :: 0 <= k < |outputs| ==>
        outputs[k] in names && outputs[k] !in sources && outputs[k] !in before
  {
    if outputs != [] {
      var init, last := outputs[..|outputs| - 1], outputs[|outputs| - 1];
      AssignableMeaning(before, init, i, names, sources);
      AssignMeaning(before, init, i);
      if last in init {
        var k :| 0 <= k < |init| && init[k] == last;
        assert outputs[k] == outputs[|init|];
      }
    }
  }

  lemma {:induction false} AssignablePrefix(before: map<string, nat>, outputs: seq<string>, k: nat, i: nat,
    names: set<string>, sources: set<string>)
    requires k <= |outputs| && Assignable(before, outputs, i, names, sources)
    ensures Assignable(before, outputs[..k], i, names, sources)
    decreases |outputs|
  {
    if k < |outputs| {
      AssignablePrefix(before, outputs[..|outputs| - 1], k, i, names, sources);
      assert outputs[..|outputs| - 1][..k] == outputs[..k];
    } else {
      assert outputs[..k] == outputs;
    }
  }

  method AddOutputs(outputs: seq<string>, i: nat, before: map<string, nat>, names: set<string>, sources: set<string>)
    returns (ok: bool, producers: map<string, nat>)
    ensures ok <==> Assignable(before, outputs, i, names, sources)
    ensures ok ==> producers == Assign(before, outputs, i)
  {
    producers := before;
    for k := 0 to |outputs|
      invariant Assignable(before, outputs[..k], i, names, sources)
      invariant producers == Assign(before, outputs[..k], i)
    {
      var v := outputs[k];
      assert outputs[..k + 1][..k] == outputs[..k];
      if v !in names || v in sources || v in producers {
        if Assignable(before, outputs, i, names, sources) {
          AssignablePrefix(before, outputs, k + 1, i, names, sources);
        }
        return false, producers;
      }
      producers := producers[v := i];
    }
    assert outputs[..|outputs|] == outputs;
    ok := true;
  }

  lemma OutputsExtend(nodes: seq<NodeDesc>, i: nat, before: map<string, nat>, names: set<string>, sources: set<string>)
    requires i < |nodes| && OutputsValid(nodes, i, names, sources) && ProducerMap(nodes, i, before)
    requires Assignable(before, nodes[i].outputs, i, names, sources)
    ensures OutputsValid(nodes, i + 1, names, sources)
    ensures ProducerMap(nodes, i + 1, Assign(before, nodes[i].outputs, i))
  {
    AssignableMeaning(before, nodes[i].outputs, i, names, sources);
    OutputsStayValid(nodes, i, before, names, sources);
    AssignMeaning(before, nodes[i].outputs, i);
  }

  lemma OutputsStayValid(nodes: seq<NodeDesc>, i: nat, before: map<string, nat>, names: set<string>,
                         sources: set<string>)
    requires i < |nodes| && OutputsValid(nodes, i, names, sources) && ProducerMap(nodes, i, before) &&
      Distinct(nodes[i].outputs)
    requires forall v :: v in nodes[i].outputs ==> v in names && v !in sources && v !in before
    ensures OutputsValid(nodes, i + 1, names, sources)
  {
    forall h, j, v | 0 <= h < j < i + 1 && v in nodes[h].outputs ensures v !in nodes[j].outputs {
      assert v in before;
    }
  }

  lemma OutputsRefused(nodes: seq<NodeDesc>, i: nat, before: map<string, nat>, names: set<string>, sources: set<string>)
    requires i < |nodes| && ProducerMap(nodes, i, before)
    requires !Assignable(before, nodes[i].outputs, i, names, sources)
    ensures !OutputsValid(nodes, |nodes|, names, sources)
  {
    AssignableMeaning(before, nodes[i].outputs, i, names, sources);
    if Distinct(nodes[i].outputs) {
      var v :| v in nodes[i].outputs && (v !in names || v in sources || v in before);
      if v in before { assert v in nodes[before[v]].outputs; }
    }
  }

  function Producers(nodes: seq<NodeDesc>, n: nat): map<string, nat>
    requires n <= |nodes|
  {
    if n == 0 then map[] else Assign(Producers(nodes, n - 1), nodes[n - 1].outputs, n - 1)
  }

  // With one producer per value, they are found.
  lemma {:induction false} ProducersMap(nodes: seq<NodeDesc>, n: nat)
    requires n <= |nodes| && forall i, j, v :: 0 <= i < j < n && v in nodes[i].outputs ==> v !in nodes[j].outputs
    ensures ProducerMap(nodes, n, Producers(nodes, n))
  {
    if n > 0 {
      ProducersMap(nodes, n - 1);
      AssignMeaning(Producers(nodes, n - 1), nodes[n - 1].outputs, n - 1);
    }
  }

  method BuildProducers(nodes: seq<NodeDesc>, names: set<string>, sources: set<string>)
    returns (ok: bool, producers: map<string, nat>)
    ensures ok <==> OutputsValid(nodes, |nodes|, names, sources)
    ensures ok ==> producers == Producers(nodes, |nodes|) && ProducerMap(nodes, |nodes|, producers)
  {
    producers := map[];
    for i := 0 to |nodes|
      invariant OutputsValid(nodes, i, names, sources) && producers == Producers(nodes, i) &&
        ProducerMap(nodes, i, producers)
    {
      ghost var before := producers;
      ok, producers := AddOutputs(nodes[i].outputs, i, producers, names, sources);
      if !ok {
        OutputsRefused(nodes, i, before, names, sources);
        return false, producers;
      }
      OutputsExtend(nodes, i, before, names, sources);
    }
    ok := true;
  }

  // The producers of a node's inputs, in order and with repetitions.
  function NodeDeps(inputs: seq<string>, producers: map<string, nat>, sources: set<string>): seq<nat> {
    if inputs == [] then []
    else
      var last := inputs[|inputs| - 1];
      NodeDeps(inputs[..|inputs| - 1], producers, sources) +
      if last in producers && last !in sources then [producers[last]] else []
  }

  lemma NodeDepsMore(inputs: seq<string>, k: nat, producers: map<string, nat>, sources: set<string>)
    requires k < |inputs|
    ensures var v, ds := inputs[k], NodeDeps(inputs[..k], producers, sources);
      NodeDeps(inputs[..k + 1], producers, sources) == if v in producers &&
        v !in sources then ds + [producers[v]] else ds
  {
    assert inputs[..k + 1][..k] == inputs[..k];
  }

  function AllDeps(nodes: seq<NodeDesc>, producers: map<string, nat>, sources: set<string>): (deps: Dependencies)
    ensures |deps| == |nodes| &&
      forall i :: 0 <= i < |nodes| ==> deps[i] == NodeDeps(nodes[i].inputs, producers, sources)
  {
    seq(|nodes|, i requires 0 <= i < |nodes| => NodeDeps(nodes[i].inputs, producers, sources))
  }

  lemma {:induction false} NodeDepsMeaning(inputs: seq<string>, producers: map<string, nat>, sources: set<string>)
    ensures forall d :: d in NodeDeps(inputs, producers, sources) <==>
      exists v :: v in inputs && v !in sources && v in producers && producers[v] == d
  {
    if inputs != [] {
      var init, last := inputs[..|inputs| - 1], inputs[|inputs| - 1];
      NodeDepsMeaning(init, producers, sources);
      assert inputs == init + [last];
    }
  }

  lemma {:induction false} NodeDepsWithin(inputs: seq<string>, producers: map<string, nat>, sources: set<string>,
    n: nat)
    requires forall v :: v in producers ==> producers[v] < n
    ensures Within(NodeDeps(inputs, producers, sources), n)
  {
    if inputs != [] { NodeDepsWithin(inputs[..|inputs| - 1], producers, sources, n); }
  }

  lemma AllDepsValid(nodes: seq<NodeDesc>, producers: map<string, nat>, sources: set<string>)
    requires forall v :: v in producers ==> producers[v] < |nodes|
    ensures ValidDeps(AllDeps(nodes, producers, sources))
  {
    forall i | 0 <= i < |nodes| ensures Within(AllDeps(nodes, producers, sources)[i], |nodes|) {
      NodeDepsWithin(nodes[i].inputs, producers, sources, |nodes|);
    }
  }

  // Node i recorded as a user of each producer in ds.
  function Use(users: seq<seq<nat>>, ds: seq<nat>, i: nat): (r: seq<seq<nat>>)
    requires Within(ds, |users|)
    ensures |r| == |users|
  {
    if ds == [] then users
    else
      var last := ds[|ds| - 1];
      var before := Use(users, ds[..|ds| - 1], i);
      before[last := before[last] + [i]]
  }

  function UseAll(deps: Dependencies, n: nat): (r: seq<seq<nat>>)
    requires ValidDeps(deps) && n <= |deps|
    ensures |r| == |deps|
  {
    if n == 0 then seq(|deps|, _ => []) else Use(UseAll(deps, n - 1), deps[n - 1], n - 1)
  }

  lemma {:induction false} UseCounts(users: seq<seq<nat>>, ds: seq<nat>, i: nat, p: nat, j: nat)
    requires Within(ds, |users|) && p < |users|
    ensures multiset(Use(users, ds, i)[p])[j] == multiset(users[p])[j] + if i == j then multiset(ds)[p] else 0
  {
    if ds != [] {
      var init, last := ds[..|ds| - 1], ds[|ds| - 1];
      UseCounts(users, init, i, p, j);
      assert ds == init + [last];
    }
  }

  lemma {:induction false} UseAllCounts(deps: Dependencies, n: nat, p: nat, j: nat)
    requires ValidDeps(deps) && n <= |deps| && p < |deps|
    ensures multiset(UseAll(deps, n)[p])[j] == if j < n then multiset(deps[j])[p] else 0
  {
    if n > 0 {
      UseAllCounts(deps, n - 1, p, j);
      UseCounts(UseAll(deps, n - 1), deps[n - 1], n - 1, p, j);
    }
  }

  lemma UseAllIsUsers(deps: Dependencies)
    requires ValidDeps(deps)
    ensures UsersOf(deps, UseAll(deps, |deps|)) && InRange(UseAll(deps, |deps|), |deps|)
  {
    var users := UseAll(deps, |deps|);
    forall p, i | 0 <= p < |users| && 0 <= i < |deps|
      ensures multiset(users[p])[i] == multiset(deps[i])[p]
    {
      UseAllCounts(deps, |deps|, p, i);
    }
    forall p, k | 0 <= p < |users| && 0 <= k < |users[p]|
      ensures users[p][k] < |deps|
    {
      UseAllCounts(deps, |deps|, p, users[p][k]);
      assert multiset(users[p])[users[p][k]] > 0;
    }
  }

  ghost predicate InputKnown(v: string, producers: map<string, nat>, sources: set<string>, known: set<string>) {
    v == "" || v in sources || v in producers || v in known
  }

  ghost predicate InputsKnown(inputs: seq<string>, producers: map<string, nat>, sources: set<string>,
    known: set<string>) {
    forall v :: v in inputs ==> InputKnown(v, producers, sources, known)
  }

  // Node i counted and recorded for each of these producers.
  ghost predicate Recorded(before: seq<seq<nat>>, ds: seq<nat>, i: nat, count: nat, users: seq<seq<nat>>) {
    Within(ds, |before|) && count == |ds| && users == Use(before, ds, i)
  }

  lemma RecordedMore(before: seq<seq<nat>>, ds: seq<nat>, i: nat, count: nat, users: seq<seq<nat>>, d: nat)
    requires Recorded(before, ds, i, count, users) && d < |before|
    ensures |users| == |before| && Recorded(before, ds + [d], i, count + 1, users[d := users[d] + [i]])
  {
    assert (ds + [d])[..|ds|] == ds;
  }

  method AddEdges(inputs: seq<string>, i: nat, before: seq<seq<nat>>,
                  producers: map<string, nat>, sources: set<string>, known: set<string>)
    returns (ok: bool, count: nat, users: seq<seq<nat>>)
    requires forall v :: v in producers ==> producers[v] < |before|
    requires Within(NodeDeps(inputs, producers, sources), |before|)
    ensures ok <==> InputsKnown(inputs, producers, sources, known)
    ensures ok ==>
      count == |NodeDeps(inputs, producers, sources)| && users == Use(before, NodeDeps(inputs, producers, sources), i)
  {
    count, users := 0, before;
    for k := 0 to |inputs|
      invariant Recorded(before, NodeDeps(inputs[..k], producers, sources), i, count, users)
      invariant forall v :: v in inputs[..k] ==> InputKnown(v, producers, sources, known)
    {
      var v := inputs[k];
      NodeDepsMore(inputs, k, producers, sources);
      assert inputs[..k + 1] == inputs[..k] + [v];
      if v in producers && v !in sources {
        RecordedMore(before, NodeDeps(inputs[..k], producers, sources), i, count, users, producers[v]);
        count := count + 1;
        users := users[producers[v] := users[producers[v]] + [i]];
      } else if v != "" && v !in sources && v !in known {
        assert v in inputs && !InputKnown(v, producers, sources, known);
        return false, count, users;
      }
    }
    assert inputs[..|inputs|] == inputs;
    ok := true;
  }

  /**
   Counts each node's inputs that some node produces and records it as their user.
   An input that is empty, a source or `known` needs no producer; any other must have one.
   */
  method BuildEdges(nodes: seq<NodeDesc>, producers: map<string, nat>, sources: set<string>, known: set<string>)
    returns (ok: bool, pending: seq<nat>, users: seq<seq<nat>>)
    requires forall v :: v in producers ==> producers[v] < |nodes|
    ensures ok <==> forall i :: 0 <= i < |nodes| ==> InputsKnown(nodes[i].inputs, producers, sources, known)
    ensures ok ==> pending == Counts(AllDeps(nodes, producers, sources))
    ensures ok ==> UsersOf(AllDeps(nodes, producers, sources), users) && InRange(users, |nodes|)
  {
    ghost var deps := AllDeps(nodes, producers, sources);
    AllDepsValid(nodes, producers, sources);
    pending, users := [], seq(|nodes|, _ => []);
    for i := 0 to |nodes|
      invariant Entered(deps, i, pending, users)
      invariant forall j :: 0 <= j < i ==> InputsKnown(nodes[j].inputs, producers, sources, known)
    {
      var count;
      ok, count, users := AddEdges(nodes[i].inputs, i, users, producers, sources, known);
      if !ok { return false, pending, users; }
      EnteredMore(deps, i, pending);
      pending := pending + [count];
    }
    EnteredAll(deps, pending, users);
    ok := true;
  }

  // The edges of the first n nodes are entered.
  ghost predicate Entered(deps: Dependencies, n: nat, pending: seq<nat>, users: seq<seq<nat>>) {
    ValidDeps(deps) && n <= |deps| && pending == Counts(deps[..n]) && users == UseAll(deps, n)
  }

  lemma EnteredMore(deps: Dependencies, n: nat, pending: seq<nat>)
    requires ValidDeps(deps) && n < |deps| && pending == Counts(deps[..n])
    ensures Entered(deps, n + 1, pending + [|deps[n]|], Use(UseAll(deps, n), deps[n], n))
  {
    assert deps[..n + 1] == deps[..n] + [deps[n]];
  }

  lemma EnteredAll(deps: Dependencies, pending: seq<nat>, users: seq<seq<nat>>)
    requires Entered(deps, |deps|, pending, users)
    ensures pending == Counts(deps) && UsersOf(deps, users) && InRange(users, |deps|)
  {
    UseAllIsUsers(deps);
    assert deps[..|deps|] == deps;
  }

  // ---- The whole check ----

  method CheckValues(g: GraphDesc) returns (ok: bool, names: set<string>, constants: set<string>)
    ensures ok <==> ValuesValid(g.values)
    ensures ok ==> names == ValueNames(g) && constants == set v | v in g.values && v.constant :: v.name
  {
    names, constants := {}, {};
    for i := 0 to |g.values|
      invariant ValuesValid(g.values[..i])
      invariant names == set v | v in g.values[..i] :: v.name
      invariant constants == set v | v in g.values[..i] && v.constant :: v.name
    {
      var value := g.values[i];
      if value.name == "" || value.name in names {
        if value.name in names {
          var w :| w in g.values[..i] && w.name == value.name;
        }
        return false, names, constants;
      }
      var count := CheckedElementCount(value.dims);
      if count == None { return false, names, constants; }
      names := names + {value.name};
      if value.constant { constants := constants + {value.name}; }
      assert g.values[..i + 1] == g.values[..i] + [value];
    }
    assert g.values[..|g.values|] == g.values;
    ok := true;
  }

  method CheckInputs(inputs: seq<string>, names: set<string>) returns (ok: bool, seen: set<string>)
    ensures ok <==> Distinct(inputs) && forall i :: i in inputs ==> i in names
    ensures ok ==> seen == set i | i in inputs
  {
    seen := {};
    for k := 0 to |inputs|
      invariant Distinct(inputs[..k]) && forall i :: i in inputs[..k] ==> i in names
      invariant seen == set i | i in inputs[..k]
    {
      if inputs[k] !in names || inputs[k] in seen { return false, seen; }
      seen := seen + {inputs[k]};
      assert inputs[..k + 1] == inputs[..k] + [inputs[k]];
    }
    assert inputs[..|inputs|] == inputs;
    ok := true;
  }

  ghost function NoShorter(names: set<string>, n: nat): set<string> { set name | name in names && |name| >= n }

  // A name for an unnamed node, lengthened until it is new.
  method FreshName(prefix: string, names: set<string>) returns (name: string)
    requires prefix != ""
    ensures name !in names && prefix <= name
  {
    name := prefix;
    while name in names
      invariant prefix <= name
      decreases NoShorter(names, |name|)
    {
      assert name in NoShorter(names, |name|) && name !in NoShorter(names, |name| + 1);
      name := name + "_";
    }
  }

  function Digits(n: nat): string {
    if n < 10 then ["0123456789"[n]] else Digits(n / 10) + ["0123456789"[n % 10]]
  }

  // The first k nodes have names of their own, and those named before have kept theirs.
  ghost predicate NamedApart(nodes: seq<NodeDesc>, named: seq<NodeDesc>, k: nat) {
    |named| == |nodes| && k <= |nodes| &&
    (forall i :: 0 <= i < |nodes| ==> named[i] == nodes[i].(name := named[i].name)) &&
    (forall i :: 0 <= i < |nodes| && nodes[i].name != "" ==> named[i] == nodes[i]) &&
    (forall i :: 0 <= i < |nodes| ==> (named[i].name == "" ==> i >= k)) &&
    forall i, j :: 0 <= i < j < |nodes| && named[i].name != "" ==> named[i].name != named[j].name
  }

  /** After validation every node has a name of its own, and only unnamed nodes have been given one. */
  method NameNodes(nodes: seq<NodeDesc>) returns (named: seq<NodeDesc>)
    requires NodeNamesValid(nodes)
    ensures NamedApart(nodes, named, |nodes|)
  {
    named := nodes;
    var names := set n | n in nodes && n.name != "" :: n.name;
    for i := 0 to |nodes|
      invariant NamedApart(nodes, named, i) && forall j :: 0 <= j < |nodes| && named[j].name != "" ==>
        named[j].name in names
      invariant forall j :: i <= j < |nodes| ==> named[j] == nodes[j]
    {
      if nodes[i].name == "" {
        var name := FreshName("__node_" + Digits(i), names);
        names := names + {name};
        named := named[i := named[i].(name := name)];
      }
    }
  }

  method CheckNames(nodes: seq<NodeDesc>) returns (ok: bool)
    ensures ok <==> NodeNamesValid(nodes)
  {
    var seen: set<string> := {};
    for i := 0 to |nodes|
      invariant NodeNamesValid(nodes[..i])
      invariant forall n :: n in seen <==> n != "" && exists j :: 0 <= j < i && nodes[j].name == n
    {
      if nodes[i].name != "" {
        if nodes[i].name in seen { return false; }
        seen := seen + {nodes[i].name};
      }
      assert nodes[..i + 1] == nodes[..i] + [nodes[i]];
    }
    assert nodes[..|nodes|] == nodes;
    ok := true;
  }

  ghost function Sources(g: GraphDesc, bindings: set<string>): set<string> {
    set v | v in DeclaredSources(g) + bindings && IsSource(g, bindings, v)
  }

  // The producers of each node's inputs.
  ghost function GraphDeps(g: GraphDesc, bindings: set<string>): Dependencies {
    AllDeps(g.nodes, Producers(g.nodes, |g.nodes|), Sources(g, bindings))
  }

  /** The graph's dependency relation, as one list of producers per node. */
  lemma DepsDescribe(g: GraphDesc, bindings: set<string>)
    requires OutputsValid(g.nodes, |g.nodes|, ValueNames(g), DeclaredSources(g))
    ensures Describes(GraphDeps(g, bindings), g, bindings)
  {
    var producers, sources, deps := Producers(g.nodes, |g.nodes|), Sources(g, bindings), GraphDeps(g, bindings);
    ProducersMap(g.nodes, |g.nodes|);
    AllDepsValid(g.nodes, producers, sources);
    forall i | 0 <= i < |deps|
      ensures forall j: nat :: j in deps[i] <==> DependsOn(g, bindings, i, j)
    {
      NodeDepsMeaning(g.nodes[i].inputs, producers, sources);
      forall j: nat ensures j in deps[i] <==> DependsOn(g, bindings, i, j) {
        if DependsOn(g, bindings, i, j) {
          var v :| v in g.nodes[i].inputs && !IsSource(g, bindings, v) && v in g.nodes[j].outputs;
          assert v in producers && producers[v] == j && v !in sources;
        }
      }
    }
  }

  /**
   Accepts exactly the well-formed graphs without a dependency cycle, and returns
   their lexicographically least topological order.
   */
  method ValidateAndOrderGraph(g: GraphDesc, bindings: set<string>) returns (r: Result<seq<nat>>)
    ensures r.Ok? <==> WellFormed(g, bindings) && Acyclic(GraphDeps(g, bindings))
    ensures r.Ok? ==> Topological(GraphDeps(g, bindings), r.value) && LexLeast(GraphDeps(g, bindings), r.value)
  {
    var ok, names, constants := CheckValues(g);
    if !ok { return Err; }
    var inputs;
    ok, inputs := CheckInputs(g.inputs, names);
    if !ok { return Err; }
    ok := CheckNames(g.nodes);
    if !ok { return Err; }
    var declared := constants + inputs;
    assert declared == DeclaredSources(g);
    var producers;
    ok, producers := BuildProducers(g.nodes, names, declared);
    if !ok { return Err; }
    assert forall v :: v in producers <==> Produced(g, v);
    var sources := declared + set b | b in bindings && b in names && b !in producers;
    assert sources == Sources(g, bindings);
    DepsDescribe(g, bindings);
    var pending, users;
    ok, pending, users := BuildEdges(g.nodes, producers, sources, {});
    assert ok <==> InputsSupplied(g, bindings) by {
      forall v ensures InputKnown(v, producers, sources, {}) <==> Supplied(g, bindings, v) {}
    }
    if !ok { return Err; }
    var outputs;
    ok, outputs := CheckInputs(g.outputs, sources + producers.Keys);
    if !ok { return Err; }
    var order := Kahn(GraphDeps(g, bindings), pending, users);
    GreedyIsLexLeast(GraphDeps(g, bindings), order);
    r := if |order| == |g.nodes| then Ok(order) else Err;
  }
}
