/**
 What the order of the compiled nodes gives the memory plan: the executor takes the nodes
 by their numbers, every producer comes before its readers, and so every read of an arena
 group falls inside the lifetime the group was planned with.
 */
module Replay {
  import opened Wrappers
  import opened GraphOrder
  import opened Compile
  import opened MemoryPlan
  import opened Arena
  import opened Session

  ghost predicate Made(g: Graph, name: string) { exists j :: 0 <= j < |g.nodes| && name in g.nodes[j].outputs }

  ghost predicate GroupMade(g: Graph, x: nat)
    requires Wellformed(g)
  {
    exists j, k :: 0 <= j < |g.nodes| && 0 <= k < |g.nodes[j].outputs| && ValueOf(g, g.nodes[j].outputs[k]).group == x
  }

  // A source keeps its contents: it is seeded, or no node writes its storage.
  ghost predicate SourcePinned(g: Graph, name: string)
    requires Wellformed(g) && name in Named(g.values)
  {
    ValueOf(g, name).seed || !GroupMade(g, ValueOf(g, name).group)
  }

  // A public name whose relay was removed: it views what the relay read.
  ghost predicate Relayed(g: Graph, name: string)
    requires Wellformed(g) && name in Named(g.values)
  {
    ProducedBefore(g, ValueOf(g, name), |g.nodes|)
  }

  // What node i reads is produced by some node, or a source.
  ghost predicate ReadsPinned(g: Graph, i: nat)
    requires Wellformed(g) && i < |g.nodes|
  {
    assert NodeResolved(Named(g.values), g.nodes[i]);
    forall k :: 0 <= k < |g.nodes[i].inputs| && g.nodes[i].inputs[k] != "" ==>
      (Made(g, g.nodes[i].inputs[k]) || SourcePinned(g, g.nodes[i].inputs[k]))
  }

  // Compilation seeds every bound tensor that is no external state, and refuses external state
  // whose storage some node produces; the build has refused inputs without a source.
  ghost predicate SourcesPinned(g: Graph)
    requires Wellformed(g)
  {
    (forall i :: 0 <= i < |g.nodes| ==> ReadsPinned(g, i)) &&
    (forall k :: 0 <= k < |g.outputs| ==>
      Made(g, g.outputs[k]) || SourcePinned(g, g.outputs[k]) || Relayed(g, g.outputs[k]))
  }

  // The outputs of a view lie inside its inputs; what a kernel overwrites besides its outputs is a source.
  ghost predicate EffectDeclared(g: Graph, i: nat)
    requires Wellformed(g) && i < |g.nodes|
  {
    assert NodeResolved(Named(g.values), g.nodes[i]);
    (g.ops[i].View? ==> forall k :: 0 <= k < |g.nodes[i].outputs| ==>
      ViewsInput(g, i, ValueOf(g, g.nodes[i].outputs[k]))) &&
    (g.ops[i].Kernel? ==> forall k :: 0 <= k < |g.ops[i].mutables| ==> SourcePinned(g, g.ops[i].mutables[k]))
  }

  ghost predicate EffectsDeclared(g: Graph)
    requires Wellformed(g)
  {
    forall i :: 0 <= i < |g.nodes| ==> EffectDeclared(g, i)
  }

  // A compiled graph: its checks passed and its nodes are in dependency order.
  ghost predicate Compiled(g: Graph) {
    Wellformed(g) && UniqueProducers(g.nodes) && InputsPresent(g.nodes, Named(g.values).Keys) && Forwards(g.nodes) &&
    SourcesPinned(g) && EffectsDeclared(g)
  }

  lemma {:induction false} WritesComeFromOutputs(named: map<string, Value>, nodes: seq<NodeDesc>, n: nat, e: Event)
    returns (k: nat)
    requires n <= |nodes| && NodesResolved(named, nodes[..n]) && e in NodeEvents(named, nodes, n) && e.Writes?
    ensures e.node < n && k < |nodes[e.node].outputs| && nodes[e.node].outputs[k] in named &&
      named[nodes[e.node].outputs[k]].group == e.group
  {
    assert nodes[..n - 1] == nodes[..n][..n - 1] && NodeResolved(named, nodes[..n][n - 1]);
    if e in NodeEvents(named, nodes, n - 1) {
      k := WritesComeFromOutputs(named, nodes, n - 1, e);
    } else {
      InputEventsHave(named, nodes[n - 1].inputs, n - 1);
      k :| 0 <= k < |nodes[n - 1].outputs| && OutputEvents(named, nodes[n - 1].outputs, n - 1)[k] == e;
    }
  }

  lemma ProducedIsMade(g: Graph, x: nat)
    requires Wellformed(g) && LifeOf(g, x).produced
    ensures GroupMade(g, x)
  {
    assert g.nodes[..|g.nodes|] == g.nodes;
    LivesStart(PlanEvents(g.values, g.nodes, g.outputs), x);
    var e := Event.Writes(x, LifeOf(g, x).first);
    assert e in NodeEvents(Named(g.values), g.nodes, |g.nodes|);
    var k := WritesComeFromOutputs(Named(g.values), g.nodes, |g.nodes|, e);
    assert ValueOf(g, g.nodes[e.node].outputs[k]).group == x;
  }

  /** A pinned source is never in the arena. */
  lemma PinnedIsKept(g: Graph, name: string)
    requires Wellformed(g) && name in Named(g.values) && SourcePinned(g, name)
    ensures !InArena(g, ValueOf(g, name).group)
  {
    var v := ValueOf(g, name);
    NamedMeaning(g.values);
    LifetimeCovers(g.values, g.nodes, g.outputs, v.group);
    if LifeOf(g, v.group).produced { ProducedIsMade(g, v.group); }
  }

  // In dependency order, what a node reads and another produces has been produced before.
  lemma MadeBefore(g: Graph, i: nat, k: nat)
    requires Wellformed(g) && Forwards(g.nodes) && i < |g.nodes| && k < |g.nodes[i].inputs|
    requires g.nodes[i].inputs[k] in Named(g.values) && Made(g, g.nodes[i].inputs[k])
    ensures ProducedBefore(g, ValueOf(g, g.nodes[i].inputs[k]), i)
  {
    var name := g.nodes[i].inputs[k];
    var j :| 0 <= j < |g.nodes| && name in g.nodes[j].outputs;
    assert Feeds(g.nodes, j, i);
    var m :| 0 <= m < |g.nodes[j].outputs| && g.nodes[j].outputs[m] == name;
    assert Inside(ValueOf(g, name), ValueOf(g, g.nodes[j].outputs[m]));
  }

  lemma MadeAtEnd(g: Graph, name: string)
    requires Wellformed(g) && name in Named(g.values) && Made(g, name)
    ensures ProducedBefore(g, ValueOf(g, name), |g.nodes|)
  {
    var j :| 0 <= j < |g.nodes| && name in g.nodes[j].outputs;
    var m :| 0 <= m < |g.nodes[j].outputs| && g.nodes[j].outputs[m] == name;
    assert Inside(ValueOf(g, name), ValueOf(g, g.nodes[j].outputs[m]));
  }

  // What node i reads from the arena has been produced when its turn comes.
  lemma ReadIsProduced(g: Graph, i: nat, k: nat)
    requires Compiled(g) && i < |g.nodes| && k < |g.nodes[i].inputs| && g.nodes[i].inputs[k] != ""
    ensures g.nodes[i].inputs[k] in Named(g.values)
    ensures var v := ValueOf(g, g.nodes[i].inputs[k]); InArena(g, v.group) ==> ProducedBefore(g, v, i)
  {
    assert NodeResolved(Named(g.values), g.nodes[i]) && ReadsPinned(g, i);
    if Made(g, g.nodes[i].inputs[k]) { MadeBefore(g, i, k); } else { PinnedIsKept(g, g.nodes[i].inputs[k]); }
  }

  lemma OutputIsProduced(g: Graph, k: nat)
    requires Compiled(g) && k < |g.outputs|
    ensures OutputChecked(g, k)
  {
    if Made(g, g.outputs[k]) { MadeAtEnd(g, g.outputs[k]); } else if SourcePinned(g, g.outputs[k]) {
      PinnedIsKept(g, g.outputs[k]);
    }
  }

  lemma NodeIsChecked(g: Graph, i: nat)
    requires Compiled(g) && i < |g.nodes|
    ensures NodeChecked(g, i)
  {
    assert NodeResolved(Named(g.values), g.nodes[i]) && EffectDeclared(g, i);
    forall k | 0 <= k < |g.nodes[i].inputs| && g.nodes[i].inputs[k] != ""
      ensures var v := ValueOf(g, g.nodes[i].inputs[k]); InArena(g, v.group) ==> ProducedBefore(g, v, i)
    {
      ReadIsProduced(g, i, k);
    }
    if g.ops[i].Kernel? {
      forall k | 0 <= k < |g.ops[i].mutables|
        ensures !InArena(g, ValueOf(g, g.ops[i].mutables[k]).group)
      {
        PinnedIsKept(g, g.ops[i].mutables[k]);
      }
    }
  }

  /** Dependency order and pinned sources are all that a run on the shared arena relies on. */
  lemma CompiledIsChecked(g: Graph)
    requires Compiled(g)
    ensures Checked(g)
  {
    forall i | 0 <= i < |g.nodes| ensures NodeChecked(g, i) { NodeIsChecked(g, i); }
    forall k | 0 <= k < |g.outputs| ensures OutputChecked(g, k) { OutputIsProduced(g, k); }
  }

  /** Replay: every node that reads or writes an arena group does so inside the group's planned lifetime. */
  lemma TouchesFallInside(g: Graph, i: nat, name: string)
    requires Compiled(g) && i < |g.nodes| && name != "" && (name in g.nodes[i].inputs || name in g.nodes[i].outputs)
    ensures name in Named(g.values)
    ensures var x := ValueOf(g, name).group; InArena(g, x) ==> LifeOf(g, x).first <= i <= LifeOf(g, x).last
  {
    assert NodeResolved(Named(g.values), g.nodes[i]);
    var x := ValueOf(g, name).group;
    LifetimeCovers(g.values, g.nodes, g.outputs, x);
    if name in g.nodes[i].outputs {
      var k :| 0 <= k < |g.nodes[i].outputs| && g.nodes[i].outputs[k] == name;
    } else {
      var k :| 0 <= k < |g.nodes[i].inputs| && g.nodes[i].inputs[k] == name;
      ReadIsProduced(g, i, k);
      if InArena(g, x) {
        var j, m :| 0 <= j < i && 0 <= m < |g.nodes[j].outputs| &&
          Inside(ValueOf(g, name), ValueOf(g, g.nodes[j].outputs[m]));
        OutputLives(g, j, m);
      }
    }
  }

  // ---- Binding declared inputs ----

  // No session input is the name of a removed relay.
  ghost predicate DeclaredInputs(g: Graph, inputs: set<string>)
    requires Wellformed(g)
  {
    forall name :: name in inputs && name in Named(g.values) ==> SourcePinned(g, name)
  }

  lemma DeclaredSpares(g: Graph, base: Layout, size: nat, name: string, k: nat)
    requires Wellformed(g) && Placed(g, base, size) && name in Named(g.values) && SourcePinned(g, name) &&
      k < |g.outputs|
    ensures ValueOf(g, name).group in base && Spares(base, ValueOf(g, name), ValueOf(g, g.outputs[k]))
  {
    PinnedIsKept(g, name);
    KeptSpares(g, base, size, name, k);
  }

  lemma {:induction false} DeclaredTouchNothing(g: Graph, inputs: set<string>, a: Layout, sizeA: nat, b: Layout,
    sizeB: nat, calls: seq<Call>, n: nat, k: nat)
    requires Wellformed(g) && Placed(g, a, sizeA) && Placed(g, b, sizeB) && DeclaredInputs(g, inputs) && n <= |calls| &&
      k < |g.outputs|
    ensures Untouched(g, inputs, a, b, calls, n, ValueOf(g, g.outputs[k]))
  {
    if n > 0 {
      DeclaredTouchNothing(g, inputs, a, sizeA, b, sizeB, calls, n - 1, k);
      if calls[n - 1].Bind? && Bindable(g, inputs, calls[n - 1].name, calls[n - 1].data) {
        DeclaredSpares(g, a, sizeA, calls[n - 1].name, k);
        DeclaredSpares(g, b, sizeB, calls[n - 1].name, k);
      }
    }
  }

  /**
   Arena refinement without exception: as long as no input is the name of a removed relay,
   two sessions whose placements respect the lifetimes answer every call alike, over any
   sequence of binds, runs and reads.
   */
  lemma DeclaredInputsAnswerAlike(g: Graph, kernels: Kernels, inputs: set<string>, a: Layout, memA: seq<byte>,
                                  b: Layout, memB: seq<byte>,
                                  calls: seq<Call>, n: nat)
    requires Compiled(g) && DeclaredInputs(g, inputs) && Fills(g, kernels) && Placed(g, a, |memA|) &&
      Placed(g, b, |memB|)
    requires Agree(KeptCells(g), a, memA, b, memB) && n < |calls|
    ensures Loaded(g, a, |memA|) && Loaded(g, b, |memB|)
    ensures AnswerAlike(g, kernels, inputs, a, memA, b, memB, calls, n)
  {
    CompiledIsChecked(g);
    PlacedLoads(g, a, |memA|);
    PlacedLoads(g, b, |memB|);
    if calls[n].Read? && calls[n].name in g.outputs {
      var k :| 0 <= k < |g.outputs| && g.outputs[k] == calls[n].name;
      DeclaredTouchNothing(g, inputs, a, |memA|, b, |memB|, calls, n, k);
    }
    SessionsAnswerAlike(g, kernels, inputs, a, memA, b, memB, calls, n);
  }
}
