/**
 What a static graph computes, and why the rewrites that passes are built from keep it.
 */
module GraphMeaning {
  import opened Wrappers
  import opened DependencyOrder
  import Model = GraphOrder

  type Data = seq<byte>

  datatype Node = Node(name: string, op: string, inputs: seq<string>, outputs: seq<string>, removed: bool)

  // `aliases` maps a public output whose relay was removed to the value it exposes.
  datatype Graph = Graph(nodes: seq<Node>, aliases: map<string, string>, outputs: seq<string>)

  // The k-th result of an operator on given inputs.
  type Operators = (string, seq<Data>, nat) -> Data

  // A bound on how far a value is from the sources.
  type Rank = string -> nat

  ghost predicate Active(g: Graph, i: nat) { i < |g.nodes| && !g.nodes[i].removed }

  ghost predicate ProducedBy(g: Graph, v: string, i: nat) { Active(g, i) && v in g.nodes[i].outputs }

  ghost predicate Produced(g: Graph, v: string) { exists i: nat :: ProducedBy(g, v, i) }

  // Every node computes values of higher rank than it reads; so does every alias. Hence no cycle.
  ghost predicate Ranked(g: Graph, rank: Rank) {
    (forall i: nat, v, o :: Active(g, i) && v in g.nodes[i].inputs && o in g.nodes[i].outputs ==> rank(v) < rank(o)) &&
    (forall a :: a in g.aliases ==> rank(g.aliases[a]) < rank(a))
  }

  // A value has one producer and one position among its outputs.
  ghost predicate OneProducer(g: Graph) {
    (forall i: nat, j: nat, v :: ProducedBy(g, v, i) && ProducedBy(g, v, j) ==> i == j) &&
    (forall i: nat, k: nat, l: nat ::
      (Active(g, i) && k < |g.nodes[i].outputs| && l < |g.nodes[i].outputs| &&
       g.nodes[i].outputs[k] == g.nodes[i].outputs[l]) ==> k == l)
  }

  // The value a public name stands for.
  function Resolved(aliases: map<string, string>, rank: Rank, o: string): string
    requires forall a :: a in aliases ==> rank(aliases[a]) < rank(a)
    decreases rank(o)
  {
    if o in aliases then Resolved(aliases, rank, aliases[o]) else o
  }

  // The n-th name on the alias chain from o.
  function Follow(aliases: map<string, string>, o: string, n: nat): string
    decreases n
  {
    if n == 0 then o else Follow(aliases, if o in aliases then aliases[o] else o, n - 1)
  }

  // Some public output is, or exposes through aliases, the value.
  ghost predicate Exposed(g: Graph, v: string) { exists o, n: nat :: o in g.outputs && Follow(g.aliases, o, n) == v }

  ghost predicate Read(g: Graph, v: string) { exists i: nat :: Active(g, i) && v in g.nodes[i].inputs }

  ghost predicate Available(g: Graph, sources: set<string>, v: string) { v in sources || Produced(g, v) }

  ghost predicate InputsAvailable(g: Graph, sources: set<string>) {
    forall i: nat, v :: Active(g, i) && v in g.nodes[i].inputs ==> Available(g, sources, v)
  }

  // Neither a source nor an alias is produced, and no source is an alias.
  ghost predicate NamesApart(g: Graph, sources: set<string>) {
    (forall v :: v in sources ==> !Produced(g, v)) && (forall a :: a in g.aliases ==> a !in sources && !Produced(g, a))
  }

  ghost predicate OutputsAvailable(g: Graph, sources: set<string>, rank: Rank)
    requires Ranked(g, rank)
  {
    forall o :: o in g.outputs ==> Available(g, sources, Resolved(g.aliases, rank, o))
  }

  // What building a graph establishes and every rewrite keeps.
  ghost predicate WellFormed(g: Graph, sources: set<string>, rank: Rank) {
    Ranked(g, rank) && OneProducer(g) && NamesApart(g, sources) && InputsAvailable(g, sources) &&
      OutputsAvailable(g, sources, rank)
  }

  // ---- Freshly built graphs ----

  // Every producer of an input is a dependency.
  ghost predicate Linked(g: Graph, deps: Dependencies) {
    |deps| == |g.nodes| && forall i: nat, j: nat, v :: Active(g, i) && v in g.nodes[i].inputs && ProducedBy(g, v, j) ==>
      j in deps[i]
  }

  // A value ranks one above the position of its producer; what nobody produces ranks lowest.
  ghost function PositionRank(g: Graph, order: seq<nat>): Rank {
    v => if exists q: nat :: q < |order| && ProducedBy(g, v, order[q]) then (var q: nat :| q < |order| &&
      ProducedBy(g, v, order[q]); q + 1) else 0
  }

  lemma RankedAt(g: Graph, order: seq<nat>, v: string, q: nat)
    requires OneProducer(g) && Distinct(order) && q < |order| && ProducedBy(g, v, order[q])
    ensures PositionRank(g, order)(v) == q + 1
  {
  }

  /** A graph that can be ordered is acyclic in the sense used here. */
  lemma OrderedIsRanked(g: Graph, deps: Dependencies, order: seq<nat>)
    requires OneProducer(g) && Linked(g, deps) && Topological(deps, order) && g.aliases == map[]
    ensures Ranked(g, PositionRank(g, order))
  {
    var rank := PositionRank(g, order);
    forall i: nat, v, o | Active(g, i) && v in g.nodes[i].inputs && o in g.nodes[i].outputs ensures rank(v) < rank(o) {
      var q := TopologicalPosition(deps, order, i);
      assert ProducedBy(g, o, order[q]);
      RankedAt(g, order, o, q);
      if r: nat :| r < |order| && ProducedBy(g, v, order[r]) {
        RankedAt(g, order, v, r);
        assert order[r] in deps[i];
        assert Ready(deps, order[..q], order[q]);
        var t :| 0 <= t < q && order[..q][t] == order[r];
        assert order[t] == order[r];
      }
    }
  }

  // The static graph built from a model graph, with the operators of its nodes.
  ghost function Built(d: Model.GraphDesc, ops: seq<string>): Graph
    requires |ops| == |d.nodes|
  {
    Graph(seq(|d.nodes|,
      i requires 0 <= i < |d.nodes| => Node(d.nodes[i].name, ops[i], d.nodes[i].inputs, d.nodes[i].outputs, false)),
      map[], d.outputs)
  }

  // The sources of a model graph; an omitted optional input counts as one.
  ghost function BuiltSources(d: Model.GraphDesc, bindings: set<string>): set<string> {
    Model.Sources(d, bindings) + {""}
  }

  lemma BuiltProduces(d: Model.GraphDesc, bindings: set<string>, ops: seq<string>, v: string)
    requires Model.WellFormed(d, bindings) && |ops| == |d.nodes|
    ensures Produced(Built(d, ops), v) <==> Model.Produced(d, v)
    ensures Produced(Built(d, ops), v) ==> v !in BuiltSources(d, bindings)
  {
    var g := Built(d, ops);
    if i: nat :| ProducedBy(g, v, i) {
      assert v in d.nodes[i].outputs && v in Model.ValueNames(d);
      var value :| value in d.values && value.name == v;
      var k :| 0 <= k < |d.values| && d.values[k] == value;
    }
    if Model.Produced(d, v) {
      var i :| 0 <= i < |d.nodes| && v in d.nodes[i].outputs;
      assert ProducedBy(g, v, i);
    }
  }

  lemma BuiltHasOneProducer(d: Model.GraphDesc, bindings: set<string>, ops: seq<string>)
    requires Model.WellFormed(d, bindings) && |ops| == |d.nodes|
    ensures OneProducer(Built(d, ops))
  {
    var g := Built(d, ops);
    forall i: nat, j: nat, v | ProducedBy(g, v, i) && ProducedBy(g, v, j) ensures i == j {
      assert v in d.nodes[i].outputs && v in d.nodes[j].outputs;
    }
    forall i: nat, k: nat, l: nat | Active(g, i) && k < |g.nodes[i].outputs| && l < |g.nodes[i].outputs| &&
      g.nodes[i].outputs[k] == g.nodes[i].outputs[l]
      ensures k == l
    {
      assert Distinct(d.nodes[i].outputs);
    }
  }

  lemma BuiltIsLinked(d: Model.GraphDesc, bindings: set<string>, ops: seq<string>)
    requires Model.WellFormed(d, bindings) && |ops| == |d.nodes|
    ensures Linked(Built(d, ops), Model.GraphDeps(d, bindings))
  {
    var g, deps := Built(d, ops), Model.GraphDeps(d, bindings);
    Model.DepsDescribe(d, bindings);
    forall i: nat, j: nat, v | Active(g, i) && v in g.nodes[i].inputs && ProducedBy(g, v, j) ensures j in deps[i] {
      BuiltProduces(d, bindings, ops, v);
      assert Model.IsSource(d, bindings, v) ==> v in Model.Sources(d, bindings);
      assert Model.DependsOn(d, bindings, i, j);
    }
  }

  /** Building a valid model graph in any topological order of its nodes establishes what the rewrites rely on. */
  lemma BuiltIsWellFormed(d: Model.GraphDesc, bindings: set<string>, ops: seq<string>, order: seq<nat>)
    requires Model.WellFormed(d, bindings) && |ops| == |d.nodes| && Topological(Model.GraphDeps(d, bindings), order)
    ensures WellFormed(Built(d, ops), BuiltSources(d, bindings), PositionRank(Built(d, ops), order))
  {
    var g, sources := Built(d, ops), BuiltSources(d, bindings);
    BuiltHasOneProducer(d, bindings, ops);
    BuiltIsLinked(d, bindings, ops);
    OrderedIsRanked(g, Model.GraphDeps(d, bindings), order);
    forall v | v in sources ensures !Produced(g, v) { BuiltProduces(d, bindings, ops, v); }
    forall v | Model.Supplied(d, bindings, v) ensures Available(g, sources, v) { BuiltProduces(d, bindings, ops, v); }
    forall i: nat, v | Active(g, i) && v in g.nodes[i].inputs
      ensures Available(g, sources, v)
    {
      assert v in d.nodes[i].inputs;
    }
  }

  // ---- Denotation ----

  function PositionOf(names: seq<string>, v: string): (k: nat)
    requires v in names
    ensures k < |names| && names[k] == v
  {
    if names[0] == v then 0 else 1 + PositionOf(names[1..], v)
  }

  // A value is computed by its producer from its inputs, or supplied from outside.
  ghost function Eval(g: Graph, ops: Operators, env: map<string, Data>, rank: Rank, v: string): Data
    requires Ranked(g, rank)
    decreases rank(v)
  {
    if Produced(g, v) then
      var i: nat :| ProducedBy(g, v, i);
      var node := g.nodes[i];
      ops(node.op, seq(|node.inputs|, k requires 0 <= k < |node.inputs| => Eval(g, ops, env, rank, node.inputs[k])),
        PositionOf(node.outputs, v))
    else if v in env then env[v] else []
  }

  /** What a public output of the graph holds. */
  ghost function Denotes(g: Graph, ops: Operators, env: map<string, Data>, rank: Rank, o: string): Data
    requires Ranked(g, rank)
  {
    Eval(g, ops, env, rank, Resolved(g.aliases, rank, o))
  }

  type Valuation = string -> Data

  function Gather(val: Valuation, names: seq<string>): seq<Data> {
    seq(|names|, k requires 0 <= k < |names| => val(names[k]))
  }

  // Every active node's outputs hold what its operator makes of its inputs.
  ghost predicate Solves(g: Graph, ops: Operators, val: Valuation) {
    forall i: nat, k: nat :: Active(g, i) && k < |g.nodes[i].outputs| ==> Holds(g, ops, val, i, k)
  }

  ghost predicate Holds(g: Graph, ops: Operators, val: Valuation, i: nat, k: nat)
    requires i < |g.nodes| && k < |g.nodes[i].outputs|
  {
    val(g.nodes[i].outputs[k]) == ops(g.nodes[i].op, Gather(val, g.nodes[i].inputs), k)
  }

  ghost predicate Supplies(sources: set<string>, env: map<string, Data>, val: Valuation) {
    forall v :: v in sources ==> val(v) == if v in env then env[v] else []
  }

  ghost function Values(g: Graph, ops: Operators, env: map<string, Data>, rank: Rank): Valuation
    requires Ranked(g, rank)
  {
    v => Eval(g, ops, env, rank, v)
  }

  lemma EvalSolves(g: Graph, ops: Operators, env: map<string, Data>, sources: set<string>, rank: Rank)
    requires WellFormed(g, sources, rank)
    ensures Solves(g, ops, Values(g, ops, env, rank)) && Supplies(sources, env, Values(g, ops, env, rank))
  {
    var val := Values(g, ops, env, rank);
    forall i: nat, k: nat | Active(g, i) && k < |g.nodes[i].outputs| ensures Holds(g, ops, val, i, k) {
      var v := g.nodes[i].outputs[k];
      assert ProducedBy(g, v, i);
      var node := g.nodes[i];
      assert seq(|node.inputs|,
        l requires 0 <= l < |node.inputs| => Eval(g, ops, env, rank, node.inputs[l])) == Gather(val, node.inputs);
      assert PositionOf(node.outputs, v) == k;
    }
  }

  /** A graph has one meaning: any solution that agrees with the environment on the sources is the evaluation. */
  lemma {:induction false} SolutionIsEval(g: Graph, ops: Operators, env: map<string, Data>, sources: set<string>,
    rank: Rank, val: Valuation, v: string)
    requires WellFormed(g, sources, rank) && Solves(g, ops, val) && Supplies(sources, env, val) &&
      Available(g, sources, v)
    ensures val(v) == Eval(g, ops, env, rank, v)
    decreases rank(v)
  {
    if Produced(g, v) {
      var i: nat :| ProducedBy(g, v, i);
      var node := g.nodes[i];
      var k := PositionOf(node.outputs, v);
      assert Holds(g, ops, val, i, k);
      forall l: nat | l < |node.inputs| ensures val(node.inputs[l]) == Eval(g, ops, env, rank, node.inputs[l]) {
        SolutionIsEval(g, ops, env, sources, rank, val, node.inputs[l]);
      }
      assert seq(|node.inputs|,
        l requires 0 <= l < |node.inputs| => Eval(g, ops, env, rank, node.inputs[l])) == Gather(val, node.inputs);
    }
  }

  // Following the aliases from o ends at v.
  ghost predicate StandsFor(aliases: map<string, string>, o: string, v: string) {
    v !in aliases && exists n: nat :: Follow(aliases, o, n) == v
  }

  lemma {:induction false} FollowEnds(aliases: map<string, string>, rank: Rank, o: string, n: nat)
    requires (forall a :: a in aliases ==> rank(aliases[a]) < rank(a)) && Follow(aliases, o, n) !in aliases
    ensures Follow(aliases, o, n) == Resolved(aliases, rank, o)
    decreases n
  {
    if n > 0 { FollowEnds(aliases, rank, if o in aliases then aliases[o] else o, n - 1); }
  }

  /** What a public output denotes is what any solution that agrees on the sources holds at the end of its aliases. */
  lemma DenotesIsHeld(g: Graph, ops: Operators, env: map<string, Data>, sources: set<string>, rank: Rank,
                      val: Valuation, o: string, v: string)
    requires WellFormed(g, sources, rank) && Solves(g, ops, val) && Supplies(sources, env, val)
    requires o in g.outputs && StandsFor(g.aliases, o, v)
    ensures Denotes(g, ops, env, rank, o) == val(v)
  {
    var n: nat :| Follow(g.aliases, o, n) == v;
    FollowEnds(g.aliases, rank, o, n);
    SolutionIsEval(g, ops, env, sources, rank, val, v);
  }

  // The public name holds the same data in every solution of either graph.
  ghost predicate MeansTheSame(g: Graph, h: Graph, ops: Operators, env: map<string, Data>, sources: set<string>,
                               o: string) {
    forall val, w, v, u :: HeldBy(g, ops, env, sources, o, val, v) && HeldBy(h, ops, env, sources, o, w, u) ==>
      val(v) == w(u)
  }

  // A solution of the graph for this environment, and the value the public name stands for.
  ghost predicate HeldBy(g: Graph, ops: Operators, env: map<string, Data>, sources: set<string>, o: string,
                         val: Valuation, v: string) {
    Solves(g, ops, val) && Supplies(sources, env, val) && StandsFor(g.aliases, o, v)
  }

  /** Every public name of a graph stands for a value, and every environment has a solution. */
  lemma EveryOutputHeld(g: Graph, ops: Operators, env: map<string, Data>, sources: set<string>, rank: Rank, o: string)
    requires WellFormed(g, sources, rank)
    ensures exists val, v :: HeldBy(g, ops, env, sources, o, val, v)
  {
    EvalSolves(g, ops, env, sources, rank);
    var n := ResolvedIsFollowed(g.aliases, rank, o);
    assert HeldBy(g, ops, env, sources, o, Values(g, ops, env, rank), Resolved(g.aliases, rank, o));
  }

  lemma DenotingAlike(g: Graph, h: Graph, ops: Operators, env: map<string, Data>, sources: set<string>, rank: Rank,
                      o: string)
    requires WellFormed(g, sources, rank) && WellFormed(h, sources, rank) && o in g.outputs && o in h.outputs
    requires Denotes(g, ops, env, rank, o) == Denotes(h, ops, env, rank, o)
    ensures MeansTheSame(g, h, ops, env, sources, o)
  {
    forall val, w, v, u | HeldBy(g, ops, env, sources, o, val, v) && HeldBy(h, ops, env, sources, o, w, u)
      ensures val(v) == w(u)
    {
      DenotesIsHeld(g, ops, env, sources, rank, val, o, v);
      DenotesIsHeld(h, ops, env, sources, rank, w, o, u);
    }
  }

  // ---- Rewrites ----

  // Nodes are given by their position.
  datatype Rewrite = Remove(node: nat) | Expose(node: nat) | Redirect(node: nat, from: string, to: string)

  function Renamed(names: seq<string>, from: string, to: string): (r: seq<string>)
    ensures |r| == |names| && forall k :: 0 <= k < |r| ==> r[k] == if names[k] == from then to else names[k]
  {
    if names == [] then [] else
      var n := |names| - 1;
      Renamed(names[..n], from, to) + [if names[n] == from then to else names[n]]
  }

  function Without(g: Graph, i: nat): Graph
    requires i < |g.nodes|
  {
    g.(nodes := g.nodes[i := g.nodes[i].(removed := true)])
  }

  function Rewritten(g: Graph, rw: Rewrite): Graph
    requires rw.node < |g.nodes| && (rw.Expose? ==> |g.nodes[rw.node].inputs| == |g.nodes[rw.node].outputs| == 1)
  {
    var node := g.nodes[rw.node];
    match rw
    case Remove(i) => Without(g, i)
    case Expose(i) => Without(g, i).(aliases := g.aliases[node.outputs[0] := node.inputs[0]])
    case Redirect(i, from, to) => g.(nodes := g.nodes[i := node.(inputs := Renamed(node.inputs, from, to))])
  }

  // A node with one input and one output that hands its input on.
  ghost predicate Relay(g: Graph, ops: Operators, i: nat) {
    Active(g, i) && |g.nodes[i].inputs| == |g.nodes[i].outputs| == 1 && forall x :: ops(g.nodes[i].op, [x], 0) == x
  }

  ghost predicate Relays(g: Graph, ops: Operators, i: nat, from: string, to: string) {
    Relay(g, ops, i) && g.nodes[i].outputs[0] == from && g.nodes[i].inputs[0] == to
  }

  // The rewrites that passes make: dropping an unused node, exposing what a relay of a public
  // output relays, and reading through a relay.
  ghost predicate Permitted(g: Graph, ops: Operators, rw: Rewrite) {
    Active(g, rw.node) &&
    match rw
    case Remove(i) => forall v :: v in g.nodes[i].outputs ==> !Exposed(g, v) && !Read(g, v)
    case Expose(i) => Relay(g, ops, i) && g.nodes[i].outputs[0] in g.outputs && !Read(g, g.nodes[i].outputs[0])
    case Redirect(i, from, to) => from in g.nodes[i].inputs && exists r: nat :: Relays(g, ops, r, from, to)
  }

  lemma {:induction false} ResolvedIsFollowed(aliases: map<string, string>, rank: Rank, o: string) returns (n: nat)
    requires forall a :: a in aliases ==> rank(aliases[a]) < rank(a)
    ensures Follow(aliases, o, n) == Resolved(aliases, rank, o) && Resolved(aliases, rank, o) !in aliases
    decreases rank(o)
  {
    if o in aliases {
      var m := ResolvedIsFollowed(aliases, rank, aliases[o]);
      n := m + 1;
    } else {
      n := 0;
    }
  }

  lemma WithoutProduces(g: Graph, i: nat, v: string)
    requires Active(g, i) && OneProducer(g)
    ensures Produced(Without(g, i), v) <==> Produced(g, v) && v !in g.nodes[i].outputs
  {
    var h := Without(g, i);
    if Produced(g, v) && v !in g.nodes[i].outputs {
      var j: nat :| ProducedBy(g, v, j);
      assert ProducedBy(h, v, j);
    }
    if Produced(h, v) {
      var j: nat :| ProducedBy(h, v, j);
      assert ProducedBy(g, v, j);
      assert v in g.nodes[i].outputs ==> ProducedBy(g, v, i);
    }
  }

  lemma WithoutOneProducer(g: Graph, i: nat)
    requires Active(g, i) && OneProducer(g)
    ensures OneProducer(Without(g, i))
  {
    var h := Without(g, i);
    forall j: nat, k: nat, v | ProducedBy(h, v, j) && ProducedBy(h, v, k)
      ensures j == k
    {
      assert ProducedBy(g, v, j) && ProducedBy(g, v, k);
    }
    forall j: nat, k: nat, l: nat | Active(h, j) && k < |h.nodes[j].outputs| && l < |h.nodes[j].outputs| &&
      h.nodes[j].outputs[k] == h.nodes[j].outputs[l]
      ensures k == l
    {
      assert Active(g, j);
    }
  }

  // Dropping a node whose outputs nobody reads leaves every other input available.
  lemma WithoutInputs(g: Graph, sources: set<string>, rank: Rank, i: nat)
    requires WellFormed(g, sources, rank) && Active(g, i) && forall v :: v in g.nodes[i].outputs ==> !Read(g, v)
    ensures InputsAvailable(Without(g, i), sources)
  {
    var h := Without(g, i);
    forall j: nat, v | Active(h, j) && v in h.nodes[j].inputs ensures Available(h, sources, v) {
      assert j != i && h.nodes[j] == g.nodes[j];
      assert Active(g, j) && v in g.nodes[j].inputs;
      assert Read(g, v) && Available(g, sources, v);
      assert v !in g.nodes[i].outputs;
      WithoutProduces(g, i, v);
    }
  }

  lemma RemoveKeeps(g: Graph, sources: set<string>, rank: Rank, ops: Operators, i: nat)
    requires WellFormed(g, sources, rank) && Permitted(g, ops, Remove(i))
    ensures WellFormed(Without(g, i), sources, rank)
  {
    var h := Without(g, i);
    WithoutOneProducer(g, i);
    WithoutInputs(g, sources, rank, i);
    forall v ensures Produced(h, v) ==> Produced(g, v) { WithoutProduces(g, i, v); }
    forall o | o in h.outputs ensures Available(h, sources, Resolved(h.aliases, rank, o)) {
      var n := ResolvedIsFollowed(g.aliases, rank, o);
      var v := Resolved(g.aliases, rank, o);
      assert Available(g, sources, v) && Exposed(g, v);
      WithoutProduces(g, i, v);
    }
  }

  lemma {:induction false} ResolvedThrough(aliases: map<string, string>, rank: Rank, a: string, b: string, o: string)
    requires forall x :: x in aliases ==> rank(aliases[x]) < rank(x)
    requires a !in aliases && b !in aliases && rank(b) < rank(a)
    ensures var more := aliases[a := b];
      (forall x :: x in more ==> rank(more[x]) < rank(x)) &&
      Resolved(more, rank, o) == if Resolved(aliases, rank, o) == a then b else Resolved(aliases, rank, o)
    decreases rank(o)
  {
    var more := aliases[a := b];
    assert forall x :: x in more ==> rank(more[x]) < rank(x);
    if o in aliases { ResolvedThrough(aliases, rank, a, b, aliases[o]); }
  }

  lemma ExposeRanked(g: Graph, rank: Rank, i: nat)
    requires Ranked(g, rank) && Active(g, i) && |g.nodes[i].inputs| == |g.nodes[i].outputs| == 1
    ensures rank(g.nodes[i].inputs[0]) < rank(g.nodes[i].outputs[0]) && Ranked(Rewritten(g, Expose(i)), rank)
  {
    var h := Rewritten(g, Expose(i));
    assert g.nodes[i].inputs[0] in g.nodes[i].inputs && g.nodes[i].outputs[0] in g.nodes[i].outputs;
    forall j: nat, v, o | Active(h, j) && v in h.nodes[j].inputs && o in h.nodes[j].outputs
      ensures rank(v) < rank(o)
    {
      assert Active(g, j);
    }
  }

  lemma ExposeInputs(g: Graph, sources: set<string>, rank: Rank, i: nat)
    requires WellFormed(g, sources, rank) && Active(g, i) && |g.nodes[i].inputs| == |g.nodes[i].outputs| == 1 &&
      !Read(g, g.nodes[i].outputs[0])
    ensures OneProducer(Rewritten(g, Expose(i))) && InputsAvailable(Rewritten(g, Expose(i)), sources)
  {
    var h, w := Rewritten(g, Expose(i)), Without(g, i);
    WithoutOneProducer(g, i);
    WithoutInputs(g, sources, rank, i);
    assert h.nodes == w.nodes;
    forall j: nat, v ensures ProducedBy(h, v, j) <==> ProducedBy(w, v, j) {}
    forall j: nat, v | Active(h, j) && v in h.nodes[j].inputs
      ensures Available(h, sources, v)
    {
      assert Active(w, j) && Available(w, sources, v);
    }
    forall j: nat, k: nat, l: nat | Active(h, j) && k < |h.nodes[j].outputs| && l < |h.nodes[j].outputs| &&
      h.nodes[j].outputs[k] == h.nodes[j].outputs[l]
      ensures k == l
    {
      assert Active(w, j);
    }
  }

  lemma ExposeNames(g: Graph, sources: set<string>, rank: Rank, i: nat)
    requires WellFormed(g, sources, rank) && Active(g, i) && |g.nodes[i].inputs| == |g.nodes[i].outputs| == 1
    ensures NamesApart(Rewritten(g, Expose(i)), sources)
    ensures g.nodes[i].inputs[0] !in g.aliases && g.nodes[i].outputs[0] !in g.aliases
  {
    assert ProducedBy(g, g.nodes[i].outputs[0], i);
    assert Available(g, sources, g.nodes[i].inputs[0]);
    ExposeProduces(g, i);
  }

  // Through the new alias, the relay's output stands for its input; other names stand for what they stood for.
  lemma ExposeResolves(g: Graph, sources: set<string>, rank: Rank, i: nat, o: string)
    requires WellFormed(g, sources, rank) && Active(g, i) && |g.nodes[i].inputs| == |g.nodes[i].outputs| == 1
    requires Ranked(Rewritten(g, Expose(i)), rank)
    ensures Resolved(Rewritten(g, Expose(i)).aliases, rank, o) ==
      if Resolved(g.aliases, rank, o) == g.nodes[i].outputs[0] then g.nodes[i].inputs[0] else Resolved(g.aliases, rank,
        o)
  {
    ExposeNames(g, sources, rank, i);
    ExposeRanked(g, rank, i);
    ResolvedThrough(g.aliases, rank, g.nodes[i].outputs[0], g.nodes[i].inputs[0], o);
  }

  lemma ExposeKeeps(g: Graph, sources: set<string>, rank: Rank, ops: Operators, i: nat)
    requires WellFormed(g, sources, rank) && Permitted(g, ops, Expose(i))
    ensures WellFormed(Rewritten(g, Expose(i)), sources, rank)
  {
    var h := Rewritten(g, Expose(i));
    ExposeRanked(g, rank, i);
    ExposeInputs(g, sources, rank, i);
    ExposeNames(g, sources, rank, i);
    ExposeProduces(g, i);
    forall o | o in h.outputs ensures Available(h, sources, Resolved(h.aliases, rank, o)) {
      ExposeResolves(g, sources, rank, i, o);
      assert Available(g, sources, Resolved(g.aliases, rank, o)) && Available(g, sources, g.nodes[i].inputs[0]);
    }
  }

  lemma ExposeProduces(g: Graph, i: nat)
    requires Active(g, i) && OneProducer(g) && |g.nodes[i].inputs| == |g.nodes[i].outputs| == 1
    ensures forall v :: Produced(Rewritten(g, Expose(i)), v) <==> Produced(g, v) && v != g.nodes[i].outputs[0]
  {
    var h := Rewritten(g, Expose(i));
    forall v ensures Produced(h, v) <==> Produced(g, v) && v != g.nodes[i].outputs[0] {
      WithoutProduces(g, i, v);
      assert forall j: nat :: ProducedBy(h, v, j) <==> ProducedBy(Without(g, i), v, j);
    }
  }

  lemma RedirectProduces(g: Graph, i: nat, from: string, to: string)
    requires Active(g, i)
    ensures forall v, j: nat :: ProducedBy(Rewritten(g, Redirect(i, from, to)), v, j) <==> ProducedBy(g, v, j)
    ensures forall v :: Produced(Rewritten(g, Redirect(i, from, to)), v) <==> Produced(g, v)
  {
    var h := Rewritten(g, Redirect(i, from, to));
    forall v
      ensures Produced(h, v) <==> Produced(g, v)
    {
      assert forall j: nat :: ProducedBy(h, v, j) <==> ProducedBy(g, v, j);
    }
  }

  lemma RedirectKeeps(g: Graph, sources: set<string>, rank: Rank, ops: Operators, i: nat, from: string, to: string)
    requires WellFormed(g, sources, rank) && Permitted(g, ops, Redirect(i, from, to))
    ensures WellFormed(Rewritten(g, Redirect(i, from, to)), sources, rank)
  {
    var h := Rewritten(g, Redirect(i, from, to));
    var r: nat :| Relays(g, ops, r, from, to);
    assert Available(g, sources, to) && rank(to) < rank(from);
    RedirectProduces(g, i, from, to);
    forall j: nat, v | Active(h, j) && v in h.nodes[j].inputs ensures Available(h, sources, v) {
      assert Active(g, j) && (v in g.nodes[j].inputs || v == to);
      assert Available(g, sources, v);
    }
    forall j: nat, v, o | Active(h, j) && v in h.nodes[j].inputs && o in h.nodes[j].outputs ensures rank(v) < rank(o) {
      assert Active(g, j) && o in g.nodes[j].outputs;
      if v !in g.nodes[j].inputs { assert j == i && v == to && rank(from) < rank(o); }
    }
    forall j: nat, k: nat, l: nat | Active(h, j) && k < |h.nodes[j].outputs| && l < |h.nodes[j].outputs| &&
      h.nodes[j].outputs[k] == h.nodes[j].outputs[l]
      ensures k == l
    {
      assert Active(g, j);
    }
  }

  // ---- Meaning ----

  // A solution of a graph solves the rewritten graph.
  lemma StillSolves(g: Graph, ops: Operators, val: Valuation, rw: Rewrite)
    requires Solves(g, ops, val) && Permitted(g, ops, rw)
    ensures Solves(Rewritten(g, rw), ops, val)
  {
    var h := Rewritten(g, rw);
    forall j: nat, k: nat | Active(h, j) && k < |h.nodes[j].outputs| ensures Holds(h, ops, val, j, k) {
      assert Active(g, j) && Holds(g, ops, val, j, k);
      if rw.Redirect? && j == rw.node { RedirectGathers(g, ops, val, rw.node, rw.from, rw.to); }
    }
  }

  lemma RelayHolds(g: Graph, ops: Operators, val: Valuation, r: nat)
    requires Solves(g, ops, val) && Relay(g, ops, r)
    ensures val(g.nodes[r].outputs[0]) == val(g.nodes[r].inputs[0])
  {
    assert Holds(g, ops, val, r, 0);
    assert Gather(val, g.nodes[r].inputs) == [val(g.nodes[r].inputs[0])];
  }

  lemma RedirectGathers(g: Graph, ops: Operators, val: Valuation, i: nat, from: string, to: string)
    requires Solves(g, ops, val) && Permitted(g, ops, Redirect(i, from, to))
    ensures Gather(val, Renamed(g.nodes[i].inputs, from, to)) == Gather(val, g.nodes[i].inputs)
  {
    var r: nat :| Relays(g, ops, r, from, to);
    RelayHolds(g, ops, val, r);
  }

  lemma RewriteKeeps(g: Graph, sources: set<string>, rank: Rank, ops: Operators, rw: Rewrite)
    requires WellFormed(g, sources, rank) && Permitted(g, ops, rw)
    ensures WellFormed(Rewritten(g, rw), sources, rank)
  {
    match rw
    case Remove(i) => RemoveKeeps(g, sources, rank, ops, i);
    case Expose(i) => ExposeKeeps(g, sources, rank, ops, i);
    case Redirect(i, from, to) => RedirectKeeps(g, sources, rank, ops, i, from, to);
  }

  // What a public name stands for holds the same data before and after.
  lemma ResolvedAlike(g: Graph, sources: set<string>, rank: Rank, ops: Operators, val: Valuation, rw: Rewrite,
                      o: string)
    requires WellFormed(g, sources, rank) && Permitted(g, ops, rw) && WellFormed(Rewritten(g, rw), sources, rank) &&
      Solves(g, ops, val)
    ensures val(Resolved(Rewritten(g, rw).aliases, rank, o)) == val(Resolved(g.aliases, rank, o))
  {
    if rw.Expose? {
      ExposeResolves(g, sources, rank, rw.node, o);
      RelayHolds(g, ops, val, rw.node);
    }
  }

  /** A permitted rewrite keeps the graph acyclic and leaves what every public output holds, for every environment. */
  lemma RewriteMeansTheSame(g: Graph, sources: set<string>, rank: Rank, ops: Operators, env: map<string, Data>,
                            rw: Rewrite, o: string)
    requires WellFormed(g, sources, rank) && Permitted(g, ops, rw) && o in g.outputs
    ensures WellFormed(Rewritten(g, rw), sources, rank)
    ensures Denotes(Rewritten(g, rw), ops, env, rank, o) == Denotes(g, ops, env, rank, o)
    ensures MeansTheSame(g, Rewritten(g, rw), ops, env, sources, o)
  {
    var h, val := Rewritten(g, rw), Values(g, ops, env, rank);
    RewriteKeeps(g, sources, rank, ops, rw);
    EvalSolves(g, ops, env, sources, rank);
    StillSolves(g, ops, val, rw);
    SolutionIsEval(h, ops, env, sources, rank, val, Resolved(h.aliases, rank, o));
    ResolvedAlike(g, sources, rank, ops, val, rw, o);
    DenotingAlike(g, h, ops, env, sources, rank, o);
  }

  // Rewriting g step by step, each step permitted, gives h.
  ghost predicate Rewrites(g: Graph, ops: Operators, rws: seq<Rewrite>, h: Graph)
    decreases |rws|
  {
    if rws == [] then h == g
    else
      var n := |rws| - 1;
      exists m :: Rewrites(g, ops, rws[..n], m) && Permitted(m, ops, rws[n]) && h == Rewritten(m, rws[n])
  }

  /** So does any sequence of permitted rewrites. */
  lemma {:induction false} RewritesMeanTheSame(g: Graph, sources: set<string>, rank: Rank, ops: Operators,
    env: map<string, Data>,
                                               rws: seq<Rewrite>, h: Graph, o: string)
    requires WellFormed(g, sources, rank) && Rewrites(g, ops, rws, h) && o in g.outputs
    ensures WellFormed(h, sources, rank) && h.outputs == g.outputs &&
      Denotes(h, ops, env, rank, o) == Denotes(g, ops, env, rank, o)
    ensures MeansTheSame(g, h, ops, env, sources, o)
    decreases |rws|
  {
    if rws != [] {
      var n := |rws| - 1;
      var m :| Rewrites(g, ops, rws[..n], m) && Permitted(m, ops, rws[n]) && h == Rewritten(m, rws[n]);
      RewritesMeanTheSame(g, sources, rank, ops, env, rws[..n], m, o);
      RewriteMeansTheSame(m, sources, rank, ops, env, rws[n], o);
    }
    DenotingAlike(g, h, ops, env, sources, rank, o);
  }
}
