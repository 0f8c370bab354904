/**
 The declared effects of operators, what their validation checks, and why a validated
 graph may run its nodes in parallel.
 */
module OperatorEffects {
  import opened Wrappers
  import opened DependencyOrder
  import opened ParallelRun
  import opened Spans
  import opened Confluence

  // `id` tells tensor objects apart; `at` and `bytes` are the storage it views.
  datatype Tensor = Tensor(id: nat, at: nat, bytes: nat, immutable: bool)

  // The input slots an operator overwrites, and those that must be graph inputs of its own.
  // A view writes nothing: its outputs share storage with its inputs.
  datatype Semantics = Semantics(view: bool, mutables: seq<nat>, externals: seq<nat>, exclusives: seq<nat>)

  datatype Node = Node(name: string, inputs: seq<string>, outputs: seq<string>, semantics: Semantics)

  type Tensors = map<string, Tensor>

  predicate Overlaps(a: Tensor, b: Tensor) {
    a.id == b.id ||
    (a.bytes != 0 && b.bytes != 0 && if a.at <= b.at then b.at - a.at < a.bytes else a.at - b.at < b.bytes)
  }

  predicate SeparateFrom(tensors: Tensors, written: Tensor, name: string) {
    name in tensors ==> !Overlaps(written, tensors[name])
  }

  // A mutable input is bound to a mutable tensor that shares nothing with another input or graph input.
  ghost predicate BindingValid(node: Node, slot: nat, tensors: Tensors, graphInputs: seq<string>) {
    slot < |node.inputs| && node.inputs[slot] in tensors && !tensors[node.inputs[slot]].immutable &&
    var written := tensors[node.inputs[slot]];
    (forall k :: 0 <= k < |node.inputs| && k != slot ==> SeparateFrom(tensors, written, node.inputs[k])) &&
    (forall g :: g in graphInputs && g != node.inputs[slot] ==> SeparateFrom(tensors, written, g))
  }

  ghost predicate ExternalValid(nodes: seq<Node>, node: Node, slot: nat, graphInputs: seq<string>) {
    slot < |node.inputs| && node.inputs[slot] != "" && node.inputs[slot] in graphInputs &&
    forall j :: 0 <= j < |nodes| ==> node.inputs[slot] !in nodes[j].outputs
  }

  ghost predicate ExclusiveValid(nodes: seq<Node>, node: Node, slot: nat) {
    slot < |node.inputs| && forall j :: 0 <= j < |nodes| && nodes[j].name != node.name ==>
      node.inputs[slot] !in nodes[j].inputs
  }

  // What validation establishes of one node's state.
  ghost predicate EffectsValid(nodes: seq<Node>, node: Node, tensors: Tensors, graphInputs: seq<string>) {
    (forall slot :: slot in node.semantics.mutables ==> BindingValid(node, slot, tensors, graphInputs)) &&
    (forall slot :: slot in node.semantics.externals ==> ExternalValid(nodes, node, slot, graphInputs)) &&
    (forall slot :: slot in node.semantics.exclusives ==> ExclusiveValid(nodes, node, slot))
  }

  // State that an operator overwrites is declared external and exclusive.
  ghost predicate StateDeclared(node: Node) {
    forall slot :: slot in node.semantics.mutables ==>
      slot in node.semantics.externals && slot in node.semantics.exclusives
  }

  // ---- Storage ----

  ghost predicate Produced(nodes: seq<Node>, name: string) { exists j :: 0 <= j < |nodes| && name in nodes[j].outputs }

  ghost predicate KernelOutput(nodes: seq<Node>, name: string) {
    exists j :: 0 <= j < |nodes| && !nodes[j].semantics.view && name in nodes[j].outputs
  }

  ghost predicate At(tensors: Tensors, name: string, a: nat) {
    name in tensors && tensors[name].at <= a < tensors[name].at + tensors[name].bytes
  }

  // A kernel's output has storage of its own; a constant shares none with state.
  ghost predicate StorageApart(nodes: seq<Node>, tensors: Tensors, graphInputs: seq<string>) {
    (forall o, v, a: nat :: KernelOutput(nodes, o) && v != o && (KernelOutput(nodes, v) || !Produced(nodes, v)) ==>
      !(At(tensors, o, a) && At(tensors, v, a))) &&
    (forall s, v, a: nat :: s in graphInputs && !Produced(nodes, v) && v !in graphInputs ==>
      !(At(tensors, s, a) && At(tensors, v, a)))
  }

  ghost predicate Views(node: Node, tensors: Tensors, name: string) {
    exists u :: u in node.inputs && forall a: nat :: At(tensors, name, a) ==> At(tensors, u, a)
  }

  ghost predicate ViewsInside(nodes: seq<Node>, tensors: Tensors) {
    forall j, o :: 0 <= j < |nodes| && nodes[j].semantics.view && o in nodes[j].outputs ==> Views(nodes[j], tensors, o)
  }

  ghost predicate UniqueNames(nodes: seq<Node>) {
    (forall i, j :: 0 <= i < |nodes| && 0 <= j < |nodes| && nodes[i].name == nodes[j].name ==> i == j) &&
    (forall i, j, o :: 0 <= i < |nodes| && 0 <= j < |nodes| && o in nodes[i].outputs && o in nodes[j].outputs ==>
      i == j)
  }

  // Every producer of an input is a predecessor.
  ghost predicate Linked(nodes: seq<Node>, deps: Dependencies) {
    |deps| == |nodes| && forall i: nat, j: nat, v ::
      i < |nodes| && j < |nodes| && v in nodes[i].inputs && v in nodes[j].outputs ==> j in deps[i]
  }

  ghost predicate Validated(nodes: seq<Node>, deps: Dependencies, tensors: Tensors, graphInputs: seq<string>) {
    UniqueNames(nodes) && Linked(nodes, deps) && StorageApart(nodes, tensors, graphInputs) &&
      ViewsInside(nodes, tensors) &&
    forall i :: 0 <= i < |nodes| ==> EffectsValid(nodes, nodes[i], tensors, graphInputs) && StateDeclared(nodes[i])
  }

  // ---- What a node touches ----

  function SpanOf(tensors: Tensors, name: string): Span {
    if name in tensors then Span(tensors[name].at, tensors[name].bytes) else Span(0, 0)
  }

  function SpansFor(tensors: Tensors, names: seq<string>): seq<Span> {
    seq(|names|, k requires 0 <= k < |names| => SpanOf(tensors, names[k]))
  }

  // The names of the state a node overwrites.
  function States(node: Node): seq<string> {
    seq(|node.semantics.mutables|, k requires 0 <= k < |node.semantics.mutables| =>
      if node.semantics.mutables[k] < |node.inputs| then node.inputs[node.semantics.mutables[k]] else "")
  }

  function JobOf(tensors: Tensors, node: Node): Job {
    if node.semantics.view then Job([], [])
    else Job(SpansFor(tensors, node.inputs), SpansFor(tensors, node.outputs) + SpansFor(tensors, States(node)))
  }

  function Jobs(tensors: Tensors, nodes: seq<Node>): seq<Job> {
    seq(|nodes|, i requires 0 <= i < |nodes| => JobOf(tensors, nodes[i]))
  }

  lemma CoveredName(tensors: Tensors, names: seq<string>, a: nat) returns (name: string)
    requires Covers(SpansFor(tensors, names), a)
    ensures name in names && At(tensors, name, a)
  {
    var k :| 0 <= k < |names| && Has(SpansFor(tensors, names)[k], a);
    name := names[k];
  }

  lemma CoversEither(s: seq<Span>, t: seq<Span>, a: nat)
    requires Covers(s + t, a)
    ensures Covers(s, a) || Covers(t, a)
  {
    var k :| 0 <= k < |s + t| && Has((s + t)[k], a);
    if k < |s| { assert s[k] == (s + t)[k]; } else { assert t[k - |s|] == (s + t)[k]; }
  }

  /** A view touches nothing; any other node loads its inputs, and stores its outputs and its state. */
  lemma JobTouches(tensors: Tensors, node: Node, a: nat)
    requires forall slot :: slot in node.semantics.mutables ==> slot < |node.inputs|
    ensures Covers(JobOf(tensors, node).loads, a) <==>
      !node.semantics.view && exists v :: v in node.inputs && At(tensors, v, a)
    ensures Covers(JobOf(tensors, node).stores, a) <==>
      (!node.semantics.view && ((exists v :: v in node.outputs && At(tensors, v, a)) ||
        exists slot :: slot in node.semantics.mutables && At(tensors, node.inputs[slot], a)))
  {
    NamesCover(tensors, node.inputs, a);
    NamesCover(tensors, node.outputs, a);
    NamesCover(tensors, States(node), a);
    var s, t := SpansFor(tensors, node.outputs), SpansFor(tensors, States(node));
    if Covers(s + t, a) { CoversEither(s, t, a); }
    if Covers(s, a) {
      var k :| 0 <= k < |s| && Has(s[k], a);
      assert Has((s + t)[k], a);
    }
    if Covers(t, a) {
      var k :| 0 <= k < |t| && Has(t[k], a);
      assert Has((s + t)[|s| + k], a);
    }
    StateNames(tensors, node, a);
  }

  lemma NamesCover(tensors: Tensors, names: seq<string>, a: nat)
    ensures Covers(SpansFor(tensors, names), a) <==> exists v :: v in names && At(tensors, v, a)
  {
    if Covers(SpansFor(tensors, names), a) { var v := CoveredName(tensors, names, a); }
    if v :| v in names && At(tensors, v, a) {
      var k :| 0 <= k < |names| && names[k] == v;
      assert Has(SpansFor(tensors, names)[k], a);
    }
  }

  lemma StateNames(tensors: Tensors, node: Node, a: nat)
    requires forall slot :: slot in node.semantics.mutables ==> slot < |node.inputs|
    ensures (exists v :: v in States(node) && At(tensors, v, a)) <==>
      exists slot :: slot in node.semantics.mutables && At(tensors, node.inputs[slot], a)
  {
    var mutables := node.semantics.mutables;
    if v :| v in States(node) && At(tensors, v, a) {
      var k :| 0 <= k < |mutables| && States(node)[k] == v;
      assert mutables[k] in mutables && v == node.inputs[mutables[k]];
    }
    if slot :| slot in mutables && At(tensors, node.inputs[slot], a) {
      var k :| 0 <= k < |mutables| && mutables[k] == slot;
      assert States(node)[k] == node.inputs[slot];
    }
  }

  // ---- Who owns a byte ----

  lemma NeedsThrough(deps: Dependencies, w: nat, p: nat, j: nat)
    requires j < |deps| && p in deps[j] && Needs(deps, w, p)
    ensures Needs(deps, w, j)
  {
    forall nodes: set<nat> | Closed(deps, nodes) && j in nodes ensures w in nodes { assert p in nodes; }
  }

  // A byte a node reads belongs to the output of a kernel that precedes it, or to a source
  // that the node itself or a view consumes.
  lemma {:induction false} Owner(nodes: seq<Node>, deps: Dependencies, tensors: Tensors, order: seq<nat>, q: nat,
    v: string, a: nat)
    returns (kernel: bool, w: nat, name: string)
    requires UniqueNames(nodes) && Linked(nodes, deps) && ViewsInside(nodes, tensors) && Topological(deps, order)
    requires q < |order| && order[q] < |nodes| && v in nodes[order[q]].inputs && At(tensors, v, a)
    ensures w < |nodes| && At(tensors, name, a)
    ensures kernel ==> !nodes[w].semantics.view && name in nodes[w].outputs && Needs(deps, w, order[q])
    ensures !kernel ==> !Produced(nodes, name) && name in nodes[w].inputs && (w == order[q] || nodes[w].semantics.view)
    decreases q
  {
    var j := order[q];
    if !Produced(nodes, v) { return false, j, v; }
    var p: nat :| p < |nodes| && v in nodes[p].outputs;
    assert p in deps[j];
    assert Ready(deps, order[..q], order[q]);
    if !nodes[p].semantics.view {
      assert Needs(deps, p, p);
      NeedsThrough(deps, p, p, j);
      return true, p, v;
    }
    assert Views(nodes[p], tensors, v);
    var u :| u in nodes[p].inputs && forall b: nat :: At(tensors, v, b) ==> At(tensors, u, b);
    var r :| 0 <= r < q && order[..q][r] == p;
    kernel, w, name := Owner(nodes, deps, tensors, order, r, u, a);
    if kernel { NeedsThrough(deps, w, p, j); }
  }

  // ---- Conflicts are ordered ----

  // The name through which node i overwrites the byte: an output, or state in some slot.
  lemma StoredName(nodes: seq<Node>, tensors: Tensors, graphInputs: seq<string>, i: nat, a: nat)
    returns (slot: Option<nat>, name: string)
    requires i < |nodes| && Covers(JobOf(tensors, nodes[i]).stores, a)
    requires EffectsValid(nodes, nodes[i], tensors, graphInputs) && StateDeclared(nodes[i])
    ensures !nodes[i].semantics.view && At(tensors, name, a)
    ensures slot.None? ==> name in nodes[i].outputs
    ensures slot.Some? ==>
      slot.value in nodes[i].semantics.mutables && slot.value < |nodes[i].inputs| && name == nodes[i].inputs[slot.value]
  {
    var node := nodes[i];
    CoversEither(SpansFor(tensors, node.outputs), SpansFor(tensors, States(node)), a);
    if Covers(SpansFor(tensors, node.outputs), a) {
      name := CoveredName(tensors, node.outputs, a);
      slot := None;
    } else {
      name := CoveredName(tensors, States(node), a);
      var k :| 0 <= k < |States(node)| && States(node)[k] == name;
      assert BindingValid(node, node.semantics.mutables[k], tensors, graphInputs);
      slot := Some(node.semantics.mutables[k]);
    }
  }

  lemma NoCommonByte(a: Tensor, b: Tensor, x: nat)
    requires a.at <= x < a.at + a.bytes && b.at <= x < b.at + b.bytes
    ensures Overlaps(a, b)
  {
  }

  // State belongs to its node: whatever else names the byte is not consumed elsewhere.
  lemma StateIsOwn(nodes: seq<Node>, deps: Dependencies, tensors: Tensors, graphInputs: seq<string>, i: nat, slot: nat,
                   w: nat, name: string, a: nat)
    requires Validated(nodes, deps, tensors, graphInputs) && i < |nodes| && slot in nodes[i].semantics.mutables &&
      slot < |nodes[i].inputs|
    requires At(tensors, nodes[i].inputs[slot], a) && At(tensors, name, a)
    requires w < |nodes| && name in nodes[w].inputs && !Produced(nodes, name)
    ensures w == i
  {
    var node := nodes[i];
    var state := node.inputs[slot];
    assert EffectsValid(nodes, node, tensors, graphInputs) && StateDeclared(node);
    assert BindingValid(node, slot, tensors, graphInputs) && ExternalValid(nodes, node, slot, graphInputs) &&
      ExclusiveValid(nodes, node, slot);
    if name == state {
      assert nodes[w].name == node.name;
    } else {
      NoCommonByte(tensors[state], tensors[name], a);
    }
  }

  // A kernel's output shares no byte with state.
  lemma OutputIsNotState(nodes: seq<Node>, deps: Dependencies, tensors: Tensors, graphInputs: seq<string>, i: nat,
                         slot: nat, w: nat, o: string, a: nat)
    requires Validated(nodes, deps, tensors, graphInputs) && i < |nodes| && slot in nodes[i].semantics.mutables &&
      slot < |nodes[i].inputs|
    requires w < |nodes| && !nodes[w].semantics.view && o in nodes[w].outputs
    ensures !(At(tensors, nodes[i].inputs[slot], a) && At(tensors, o, a))
  {
    assert EffectsValid(nodes, nodes[i], tensors, graphInputs) && StateDeclared(nodes[i]);
    assert ExternalValid(nodes, nodes[i], slot, graphInputs);
    assert KernelOutput(nodes, o) && !Produced(nodes, nodes[i].inputs[slot]);
  }

  lemma OutputIsNotSource(nodes: seq<Node>, deps: Dependencies, tensors: Tensors, graphInputs: seq<string>, w: nat,
                          o: string, source: string, a: nat)
    requires Validated(nodes, deps, tensors, graphInputs) && w < |nodes| && !nodes[w].semantics.view &&
      o in nodes[w].outputs
    requires !Produced(nodes, source)
    ensures !(At(tensors, o, a) && At(tensors, source, a))
  {
    assert KernelOutput(nodes, o) && Produced(nodes, o);
  }

  // Two kernel outputs with a common byte are the same output.
  lemma OneOutput(nodes: seq<Node>, deps: Dependencies, tensors: Tensors, graphInputs: seq<string>, i: nat, o: string,
                  w: nat, v: string, a: nat)
    requires Validated(nodes, deps, tensors, graphInputs) && i < |nodes| && w < |nodes|
    requires !nodes[i].semantics.view && o in nodes[i].outputs && !nodes[w].semantics.view && v in nodes[w].outputs
    requires At(tensors, o, a) && At(tensors, v, a)
    ensures i == w
  {
    assert KernelOutput(nodes, o) && KernelOutput(nodes, v);
  }

  lemma StoresDiffer(nodes: seq<Node>, deps: Dependencies, tensors: Tensors, graphInputs: seq<string>, i: nat, j: nat,
                     a: nat)
    requires Validated(nodes, deps, tensors, graphInputs) && i < |nodes| && j < |nodes| && i != j
    ensures !(Covers(JobOf(tensors, nodes[i]).stores, a) && Covers(JobOf(tensors, nodes[j]).stores, a))
  {
    if Covers(JobOf(tensors, nodes[i]).stores, a) && Covers(JobOf(tensors, nodes[j]).stores, a) {
      assert EffectsValid(nodes, nodes[i], tensors, graphInputs) && StateDeclared(nodes[i]);
      assert EffectsValid(nodes, nodes[j], tensors, graphInputs) && StateDeclared(nodes[j]);
      var slot, o := StoredName(nodes, tensors, graphInputs, i, a);
      var other, v := StoredName(nodes, tensors, graphInputs, j, a);
      if slot.None? && other.None? {
        OneOutput(nodes, deps, tensors, graphInputs, i, o, j, v, a);
      } else if slot.None? {
        OutputIsNotState(nodes, deps, tensors, graphInputs, j, other.value, i, o, a);
      } else if other.None? {
        OutputIsNotState(nodes, deps, tensors, graphInputs, i, slot.value, j, v, a);
      } else {
        assert ExternalValid(nodes, nodes[j], other.value, graphInputs);
        assert !Produced(nodes, v);
        StateIsOwn(nodes, deps, tensors, graphInputs, i, slot.value, j, v, a);
      }
    }
  }

  lemma StoreBeforeLoad(nodes: seq<Node>, deps: Dependencies, tensors: Tensors, graphInputs: seq<string>,
                        order: seq<nat>, i: nat, q: nat, a: nat)
    requires Validated(nodes, deps, tensors, graphInputs) && Topological(deps, order) && q < |order| &&
      order[q] < |nodes| && i < |nodes| && i != order[q]
    requires Covers(JobOf(tensors, nodes[i]).stores, a) && Covers(JobOf(tensors, nodes[order[q]]).loads, a)
    ensures Needs(deps, i, order[q])
  {
    assert EffectsValid(nodes, nodes[i], tensors, graphInputs) && StateDeclared(nodes[i]);
    var slot, o := StoredName(nodes, tensors, graphInputs, i, a);
    var u := CoveredName(tensors, nodes[order[q]].inputs, a);
    var kernel, w, name := Owner(nodes, deps, tensors, order, q, u, a);
    if slot.None? {
      if kernel {
        OneOutput(nodes, deps, tensors, graphInputs, i, o, w, name, a);
      } else {
        OutputIsNotSource(nodes, deps, tensors, graphInputs, i, o, name, a);
      }
    } else {
      if kernel {
        OutputIsNotState(nodes, deps, tensors, graphInputs, i, slot.value, w, name, a);
      } else {
        StateIsOwn(nodes, deps, tensors, graphInputs, i, slot.value, w, name, a);
      }
    }
  }

  /** In a validated graph, nodes that touch a common byte one of them overwrites depend on each other. */
  lemma ValidatedIsOrdered(nodes: seq<Node>, tensors: Tensors, graphInputs: seq<string>, p: Program, order: seq<nat>)
    requires Validated(nodes, p.deps, tensors, graphInputs) && p.jobs == Jobs(tensors, nodes) &&
      Topological(p.deps, order)
    ensures ConflictsOrdered(p)
  {
    forall i: nat, j: nat, a: nat | Conflict(p, i, j, a) ensures Dependent(p.deps, i, j) {
      StoresDiffer(nodes, p.deps, tensors, graphInputs, i, j, a);
      var q := TopologicalPosition(p.deps, order, j);
      StoreBeforeLoad(nodes, p.deps, tensors, graphInputs, order, i, q, a);
    }
  }

  /** A validated graph computes in parallel, whatever the schedule, what it computes one node after the other. */
  lemma ParallelIsSerial(nodes: seq<Node>, tensors: Tensors, graphInputs: seq<string>, p: Program, order: seq<nat>,
                         mem: seq<byte>, events: seq<Event>, s: State)
    requires Validated(nodes, p.deps, tensors, graphInputs) && p.jobs == Jobs(tensors, nodes)
    requires Valid(p, |mem|) && Topological(p.deps, order) && Within(order, |p.jobs|)
    requires Schedule(p, mem, events, s) && s.main == Returned(true)
    ensures s.mem == Serial(p, order, mem, |order|) && RunsInTurn(p, order, mem, s.mem)
    ensures forall q: nat :: q < |order| ==> SerialOk(p, order, mem, q)
  {
    ValidatedIsOrdered(nodes, tensors, graphInputs, p, order);
    SuccessIsSerial(p, order, mem, events, s);
  }

  // ---- A validated graph with state ----

  const COUNTER: seq<Node> := [
    Node("scale", ["x"], ["y"], Semantics(false, [], [], [])),
    Node("count", ["s", "y"], ["z"], Semantics(false, [0], [0], [0]))
  ]

  const STORAGE: Tensors := map["x" := Tensor(0, 0, 4, false), "y" := Tensor(1, 4, 4, false),
    "s" := Tensor(2, 8, 4, false), "z" := Tensor(3, 12, 4, false)]

  lemma CounterNames()
    ensures UniqueNames(COUNTER) && Linked(COUNTER, [[], [0]]) && ViewsInside(COUNTER, STORAGE)
  {
  }

  lemma CounterProduces(v: string)
    ensures Produced(COUNTER, v) <==> v == "y" || v == "z"
  {
    assert "y" in COUNTER[0].outputs && "z" in COUNTER[1].outputs;
  }

  lemma CounterStorage()
    ensures StorageApart(COUNTER, STORAGE, ["x", "s"])
  {
    forall v ensures Produced(COUNTER, v) <==> v == "y" || v == "z" { CounterProduces(v); }
    forall o, v, a: nat | v != o && At(STORAGE, o, a) ensures !At(STORAGE, v, a) {}
  }

  lemma CounterEffects()
    ensures EffectsValid(COUNTER, COUNTER[0], STORAGE, ["x", "s"]) && StateDeclared(COUNTER[0])
    ensures EffectsValid(COUNTER, COUNTER[1], STORAGE, ["x", "s"]) && StateDeclared(COUNTER[1])
  {
    assert BindingValid(COUNTER[1], 0, STORAGE, ["x", "s"]);
    assert ExternalValid(COUNTER, COUNTER[1], 0, ["x", "s"]) && ExclusiveValid(COUNTER, COUNTER[1], 0);
  }

  /** One kernel feeds another, which also overwrites a state of its own. */
  lemma CounterIsValidated()
    ensures Validated(COUNTER, [[], [0]], STORAGE, ["x", "s"])
  {
    CounterNames();
    CounterStorage();
    CounterEffects();
  }
}
