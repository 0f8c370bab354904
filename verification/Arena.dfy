/**
 What a run computes, on bytes, for any placement of the alias groups in memory;
 and why the shared arena computes what separate buffers compute.

 A kernel is an uninterpreted function of its input bytes. It overwrites its
 outputs and mutable inputs completely. A view node writes nothing: its output
 is a byte range of one of its inputs.
 */
module Arena {
  import opened Wrappers
  import opened GraphOrder
  import opened MemoryPlan

  datatype Op = View | Kernel(mutables: seq<string>)

  // What a kernel leaves in the values it writes, and whether it succeeded.
  datatype Outcome = Outcome(data: seq<seq<byte>>, ok: bool)

  type Kernels = (nat, seq<seq<byte>>) -> Outcome

  datatype Graph = Graph(values: seq<Value>, nodes: seq<NodeDesc>, ops: seq<Op>, outputs: seq<string>)

  ghost predicate Wellformed(g: Graph) {
    NamesDistinct(g.values) && Buildable(g.values, g.nodes, g.outputs) && |g.ops| == |g.nodes| &&
    (forall i :: 0 <= i < |g.ops| && g.ops[i].Kernel? ==> Resolved(Named(g.values), g.ops[i].mutables))
  }

  function ValueOf(g: Graph, name: string): Value
    requires name in Named(g.values)
  {
    Named(g.values)[name]
  }

  ghost function LifeOf(g: Graph, group: nat): Lifetime
    requires Wellformed(g)
  {
    Get(Lives(PlanEvents(g.values, g.nodes, g.outputs)), group)
  }

  ghost predicate InArena(g: Graph, group: nat)
    requires Wellformed(g)
  {
    Planned(LifeOf(g, group))
  }

  ghost predicate Inside(v: Value, w: Value) {
    v.group == w.group && w.offset <= v.offset && v.offset + v.bytes <= w.offset + w.bytes
  }

  // Some node before i produces a value that contains v.
  ghost predicate ProducedBefore(g: Graph, v: Value, i: nat)
    requires Wellformed(g)
  {
    exists j, k :: 0 <= j < i && j < |g.nodes| && 0 <= k < |g.nodes[j].outputs| &&
      Inside(v, ValueOf(g, g.nodes[j].outputs[k]))
  }

  // What compilation has checked of node i: a value it reads from an arena group has been
  // produced, and its views and mutable inputs are as declared.
  ghost predicate NodeChecked(g: Graph, i: nat)
    requires Wellformed(g) && i < |g.nodes|
  {
    assert NodeResolved(Named(g.values), g.nodes[i]);
    (forall k :: 0 <= k < |g.nodes[i].inputs| && g.nodes[i].inputs[k] != "" ==>
      var v := ValueOf(g, g.nodes[i].inputs[k]); InArena(g, v.group) ==> ProducedBefore(g, v, i)) &&
    (g.ops[i].View? ==> forall k :: 0 <= k < |g.nodes[i].outputs| ==>
      ViewsInput(g, i, ValueOf(g, g.nodes[i].outputs[k]))) &&
    (g.ops[i].Kernel? ==> forall k :: 0 <= k < |g.ops[i].mutables| ==>
      !InArena(g, ValueOf(g, g.ops[i].mutables[k]).group))
  }

  ghost predicate ViewsInput(g: Graph, i: nat, v: Value)
    requires Wellformed(g) && i < |g.nodes|
  {
    assert NodeResolved(Named(g.values), g.nodes[i]);
    exists m :: 0 <= m < |g.nodes[i].inputs| && g.nodes[i].inputs[m] != "" &&
      Inside(v, ValueOf(g, g.nodes[i].inputs[m]))
  }

  ghost predicate OutputChecked(g: Graph, k: nat)
    requires Wellformed(g) && k < |g.outputs|
  {
    var v := ValueOf(g, g.outputs[k]); InArena(g, v.group) ==> ProducedBefore(g, v, |g.nodes|)
  }

  ghost predicate Checked(g: Graph) {
    Wellformed(g) &&
    (forall i :: 0 <= i < |g.nodes| ==> NodeChecked(g, i)) &&
    (forall k :: 0 <= k < |g.outputs| ==> OutputChecked(g, k))
  }

  // ---- Execution on flat memory ----

  // base[group] is the address of the group's storage.
  type Layout = map<nat, nat>

  function Load(base: Layout, mem: seq<byte>, v: Value): seq<byte>
    requires v.group in base && base[v.group] + v.offset + v.bytes <= |mem|
  {
    mem[base[v.group] + v.offset..base[v.group] + v.offset + v.bytes]
  }

  function Store(base: Layout, mem: seq<byte>, v: Value, data: seq<byte>): (r: seq<byte>)
    requires v.group in base && base[v.group] + v.offset + v.bytes <= |mem| && |data| == v.bytes
    ensures |r| == |mem|
  {
    mem[..base[v.group] + v.offset] + data + mem[base[v.group] + v.offset + v.bytes..]
  }

  // Every value lies in the memory.
  ghost predicate Loaded(g: Graph, base: Layout, size: nat)
  {
    forall k :: 0 <= k < |g.values| ==>
      var v := g.values[k]; v.group in base && base[v.group] + v.offset + v.bytes <= size
  }

  lemma NamedLoaded(g: Graph, base: Layout, size: nat, name: string)
    requires Wellformed(g) && Loaded(g, base, size) && name in Named(g.values)
    ensures var v := ValueOf(g, name); v.group in base && base[v.group] + v.offset + v.bytes <= size
  {
    NamedMeaning(g.values);
    assert ValueOf(g, name) in g.values;
  }

  function LoadAll(g: Graph, base: Layout, mem: seq<byte>, names: seq<string>): (r: seq<seq<byte>>)
    requires Wellformed(g) && Loaded(g, base, |mem|) && ResolvedOrEmpty(Named(g.values), names)
    ensures |r| == |names|
  {
    seq(|names|, k requires 0 <= k < |names| =>
      if names[k] == "" then [] else NamedLoaded(g, base, |mem|, names[k]); Load(base, mem, ValueOf(g, names[k])))
  }

  ghost predicate Sizes(g: Graph, names: seq<string>, data: seq<seq<byte>>)
    requires Resolved(Named(g.values), names)
  {
    |data| == |names| && forall k :: 0 <= k < |names| ==> |data[k]| == ValueOf(g, names[k]).bytes
  }

  function StoreAll(g: Graph, base: Layout, mem: seq<byte>, names: seq<string>, data: seq<seq<byte>>): (r: seq<byte>)
    requires Wellformed(g) && Loaded(g, base, |mem|) && Resolved(Named(g.values), names) && Sizes(g, names, data)
    ensures |r| == |mem|
  {
    if names == [] then mem
    else
      var n := |names| - 1;
      NamedLoaded(g, base, |mem|, names[n]);
      Store(base, StoreAll(g, base, mem, names[..n], data[..n]), ValueOf(g, names[n]), data[n])
  }

  // The values node i writes.
  function Written(g: Graph, i: nat): seq<string>
    requires i < |g.nodes| == |g.ops|
  {
    match g.ops[i]
    case View => []
    case Kernel(mutables) => g.nodes[i].outputs + mutables
  }

  // Kernels fill exactly the values they write.
  ghost predicate Fills(g: Graph, kernels: Kernels)
    requires Wellformed(g)
  {
    forall i: nat, inputs :: i < |g.nodes| && g.ops[i].Kernel? ==>
      Resolved(Named(g.values), Written(g, i)) && Sizes(g, Written(g, i), kernels(i, inputs).data)
  }

  datatype Step = Step(mem: seq<byte>, ok: bool)

  function RunNode(g: Graph, kernels: Kernels, base: Layout, mem: seq<byte>, i: nat): (r: Step)
    requires Wellformed(g) && Fills(g, kernels) && Loaded(g, base, |mem|) && i < |g.nodes|
    ensures |r.mem| == |mem|
  {
    assert NodeResolved(Named(g.values), g.nodes[i]);
    if g.ops[i].View? then Step(mem, true)
    else
      var out := kernels(i, LoadAll(g, base, mem, g.nodes[i].inputs));
      Step(StoreAll(g, base, mem, Written(g, i), out.data), out.ok)
  }

  // One node of a run; after a failure nothing more happens.
  function Continue(g: Graph, kernels: Kernels, base: Layout, before: Step, i: nat): (r: Step)
    requires Wellformed(g) && Fills(g, kernels) && Loaded(g, base, |before.mem|) && i < |g.nodes|
    ensures |r.mem| == |before.mem|
  {
    if before.ok then RunNode(g, kernels, base, before.mem, i) else before
  }

  // The first n nodes in index order; a failing node ends the run.
  function RunNodes(g: Graph, kernels: Kernels, base: Layout, mem: seq<byte>, n: nat): (r: Step)
    requires Wellformed(g) && Fills(g, kernels) && Loaded(g, base, |mem|) && n <= |g.nodes|
    ensures |r.mem| == |mem|
  {
    if n == 0 then Step(mem, true) else Continue(g, kernels, base, RunNodes(g, kernels, base, mem, n - 1), n - 1)
  }

  // ---- Two placements of the same graph ----

  // A byte of a group's storage.
  datatype Cell = Cell(group: nat, at: nat)

  // The cells in `cells` hold the same bytes under both placements.
  ghost predicate Agree(cells: iset<Cell>, a: Layout, memA: seq<byte>, b: Layout, memB: seq<byte>) {
    forall c :: c in cells ==>
      c.group in a && c.group in b && a[c.group] + c.at < |memA| && b[c.group] + c.at < |memB| &&
      memA[a[c.group] + c.at] == memB[b[c.group] + c.at]
  }

  ghost function Range(v: Value): iset<Cell> {
    iset c: Cell | c.group == v.group && v.offset <= c.at < v.offset + v.bytes
  }

  // Writing v under the placement leaves the other groups' cells alone.
  ghost predicate Clear(cells: iset<Cell>, base: Layout, v: Value)
    requires v.group in base
  {
    forall c :: c in cells && c.group != v.group && c.group in base ==>
      base[c.group] + c.at < base[v.group] + v.offset || base[v.group] + v.offset + v.bytes <= base[c.group] + c.at
  }

  lemma AgreeingLoad(cells: iset<Cell>, a: Layout, memA: seq<byte>, b: Layout, memB: seq<byte>, v: Value)
    requires Agree(cells, a, memA, b, memB) && Range(v) <= cells
    requires v.group in a && a[v.group] + v.offset + v.bytes <= |memA|
    requires v.group in b && b[v.group] + v.offset + v.bytes <= |memB|
    ensures Load(a, memA, v) == Load(b, memB, v)
  {
    forall k | 0 <= k < v.bytes ensures Load(a, memA, v)[k] == Load(b, memB, v)[k] {
      assert Cell(v.group, v.offset + k) in Range(v);
    }
  }

  lemma AgreeingStore(cells: iset<Cell>, a: Layout, memA: seq<byte>, b: Layout, memB: seq<byte>, v: Value,
                      data: seq<byte>)
    requires Agree(cells, a, memA, b, memB) && |data| == v.bytes
    requires v.group in a && a[v.group] + v.offset + v.bytes <= |memA|
    requires v.group in b && b[v.group] + v.offset + v.bytes <= |memB|
    requires Clear(cells, a, v) && Clear(cells, b, v)
    ensures Agree(cells + Range(v), a, Store(a, memA, v, data), b, Store(b, memB, v, data))
  {
    forall c | c in cells + Range(v)
      ensures c.group in a && c.group in b && a[c.group] + c.at < |memA| && b[c.group] + c.at < |memB|
      ensures Store(a, memA, v, data)[a[c.group] + c.at] == Store(b, memB, v, data)[b[c.group] + c.at]
    {
    }
  }

  ghost function Ranges(g: Graph, names: seq<string>): iset<Cell>
    requires Resolved(Named(g.values), names)
  {
    if names == [] then iset{} else Ranges(g, names[..|names| - 1]) + Range(ValueOf(g, names[|names| - 1]))
  }

  lemma {:induction false} RangesHave(g: Graph, names: seq<string>, k: nat)
    requires Resolved(Named(g.values), names) && k < |names|
    ensures Range(ValueOf(g, names[k])) <= Ranges(g, names)
  {
    if k < |names| - 1 { RangesHave(g, names[..|names| - 1], k); }
  }

  lemma {:induction false} RangesOnly(g: Graph, names: seq<string>, c: Cell)
    requires Resolved(Named(g.values), names) && c in Ranges(g, names)
    ensures exists k :: 0 <= k < |names| && c in Range(ValueOf(g, names[k]))
  {
    var n := |names| - 1;
    if c in Range(ValueOf(g, names[n])) {
    } else {
      RangesOnly(g, names[..n], c);
      var k :| 0 <= k < n && c in Range(ValueOf(g, names[..n][k]));
      assert names[k] == names[..n][k];
    }
  }

  // Each of the values can be written without touching another group's cell of `cells`.
  ghost predicate ClearAll(g: Graph, cells: iset<Cell>, base: Layout, names: seq<string>)
    requires Resolved(Named(g.values), names)
  {
    forall k :: 0 <= k < |names| ==> var v := ValueOf(g, names[k]); v.group in base && Clear(cells, base, v)
  }

  lemma {:induction false} AgreeingStoreAll(g: Graph, cells: iset<Cell>, all: iset<Cell>, a: Layout, memA: seq<byte>,
    b: Layout, memB: seq<byte>,
                                            names: seq<string>, data: seq<seq<byte>>)
    requires Wellformed(g) && Loaded(g, a, |memA|) && Loaded(g, b, |memB|)
    requires Resolved(Named(g.values), names) && Sizes(g, names, data)
    requires Agree(cells, a, memA, b, memB) && cells + Ranges(g, names) <= all
    requires ClearAll(g, all, a, names) && ClearAll(g, all, b, names)
    ensures Agree(cells + Ranges(g, names), a, StoreAll(g, a, memA, names, data), b, StoreAll(g, b, memB, names, data))
  {
    if names == [] {
      assert cells + Ranges(g, names) == cells;
    } else {
      var n := |names| - 1;
      var v := ValueOf(g, names[n]);
      AgreeingStoreAll(g, cells, all, a, memA, b, memB, names[..n], data[..n]);
      NamedLoaded(g, a, |memA|, names[n]);
      NamedLoaded(g, b, |memB|, names[n]);
      var before := cells + Ranges(g, names[..n]);
      AgreeingStore(before, a, StoreAll(g, a, memA, names[..n], data[..n]), b,
        StoreAll(g, b, memB, names[..n], data[..n]), v, data[n]);
      assert cells + Ranges(g, names) == before + Range(v);
    }
  }

  // ---- Which cells a run relies on ----

  // Storage outside the arena that some node or output uses.
  ghost function KeptCells(g: Graph): iset<Cell>
    requires Wellformed(g)
  {
    iset c: Cell | LifeOf(g, c.group).used && !InArena(g, c.group) && c.at < LifeOf(g, c.group).bytes
  }

  ghost function ProducedCells(g: Graph, i: nat): iset<Cell>
    requires Wellformed(g) && i <= |g.nodes|
  {
    if i == 0 then iset{}
    else
      assert NodeResolved(Named(g.values), g.nodes[i - 1]);
      ProducedCells(g, i - 1) + Ranges(g, g.nodes[i - 1].outputs)
  }

  // After i nodes: everything kept, and what has been produced in arena groups still alive at `at`.
  ghost function Due(g: Graph, i: nat, at: nat): iset<Cell>
    requires Wellformed(g) && i <= |g.nodes|
  {
    iset c: Cell | c in KeptCells(g) || (c in ProducedCells(g, i) && InArena(g, c.group) &&
      at <= LifeOf(g, c.group).last)
  }

  // The two groups must not share bytes: one is outside the arena, or their lifetimes meet.
  ghost predicate Together(g: Graph, x: nat, y: nat)
    requires Wellformed(g)
  {
    !InArena(g, x) || !InArena(g, y) || (LifeOf(g, x).first <= LifeOf(g, y).last &&
      LifeOf(g, y).first <= LifeOf(g, x).last)
  }

  ghost predicate Disjoint(g: Graph, base: Layout, x: nat, y: nat)
    requires Wellformed(g) && x in base && y in base
  {
    base[x] + LifeOf(g, x).bytes <= base[y] || base[y] + LifeOf(g, y).bytes <= base[x]
  }

  ghost predicate IsGroup(g: Graph, x: nat) { exists k :: 0 <= k < |g.values| && g.values[k].group == x }

  // A placement that respects the lifetimes.
  ghost predicate Placed(g: Graph, base: Layout, size: nat)
    requires Wellformed(g)
  {
    (forall x: nat :: IsGroup(g, x) ==> x in base && base[x] + LifeOf(g, x).bytes <= size) &&
    (forall x: nat, y: nat :: IsGroup(g, x) && IsGroup(g, y) && x != y && Together(g, x, y) ==> Disjoint(g, base, x, y))
  }

  // Every group has its own buffer.
  ghost predicate Private(g: Graph, base: Layout, size: nat)
    requires Wellformed(g)
  {
    (forall x: nat :: IsGroup(g, x) ==> x in base && base[x] + LifeOf(g, x).bytes <= size) &&
    (forall x: nat, y: nat :: IsGroup(g, x) && IsGroup(g, y) && x != y ==> Disjoint(g, base, x, y))
  }

  lemma PrivateIsPlaced(g: Graph, base: Layout, size: nat)
    requires Wellformed(g) && Private(g, base, size)
    ensures Placed(g, base, size)
  {
  }

  lemma PlacedLoads(g: Graph, base: Layout, size: nat)
    requires Wellformed(g) && Placed(g, base, size)
    ensures Loaded(g, base, size)
  {
    forall k | 0 <= k < |g.values|
      ensures var v := g.values[k]; v.group in base && base[v.group] + v.offset + v.bytes <= size
    {
      assert IsGroup(g, g.values[k].group);
      LifetimeCovers(g.values, g.nodes, g.outputs, g.values[k].group);
    }
  }

  lemma NamedInGroup(g: Graph, name: string)
    requires Wellformed(g) && name in Named(g.values)
    ensures var v := ValueOf(g, name); IsGroup(g, v.group) && v.offset + v.bytes <= LifeOf(g, v.group).bytes
  {
    NamedMeaning(g.values);
    var v := ValueOf(g, name);
    var k :| 0 <= k < |g.values| && g.values[k] == v;
    LifetimeCovers(g.values, g.nodes, g.outputs, v.group);
  }

  lemma OutputLives(g: Graph, i: nat, k: nat)
    requires Wellformed(g) && i < |g.nodes| && k < |g.nodes[i].outputs|
    ensures NodeResolved(Named(g.values), g.nodes[i])
    ensures var life := LifeOf(g, ValueOf(g, g.nodes[i].outputs[k]).group); life.used && life.first <= i <= life.last
  {
    assert NodeResolved(Named(g.values), g.nodes[i]);
    LifetimeCovers(g.values, g.nodes, g.outputs, ValueOf(g, g.nodes[i].outputs[k]).group);
  }

  // A produced cell lies in its group and was produced at or after the group's first node.
  lemma {:induction false} ProducedLives(g: Graph, i: nat, c: Cell)
    requires Wellformed(g) && i <= |g.nodes| && c in ProducedCells(g, i)
    ensures IsGroup(g, c.group) && c.at < LifeOf(g, c.group).bytes && LifeOf(g, c.group).first < i &&
      LifeOf(g, c.group).used
  {
    assert NodeResolved(Named(g.values), g.nodes[i - 1]);
    if c in ProducedCells(g, i - 1) {
      ProducedLives(g, i - 1, c);
    } else {
      RangesOnly(g, g.nodes[i - 1].outputs, c);
      var k :| 0 <= k < |g.nodes[i - 1].outputs| && c in Range(ValueOf(g, g.nodes[i - 1].outputs[k]));
      NamedInGroup(g, g.nodes[i - 1].outputs[k]);
      OutputLives(g, i - 1, k);
    }
  }

  lemma {:induction false} ProducedHas(g: Graph, v: Value, i: nat)
    requires Wellformed(g) && i <= |g.nodes| && ProducedBefore(g, v, i)
    ensures Range(v) <= ProducedCells(g, i)
  {
    var j, k :| 0 <= j < i && j < |g.nodes| && 0 <= k < |g.nodes[j].outputs| &&
      Inside(v, ValueOf(g, g.nodes[j].outputs[k]));
    assert NodeResolved(Named(g.values), g.nodes[i - 1]);
    if j == i - 1 {
      RangesHave(g, g.nodes[j].outputs, k);
    } else {
      ProducedHas(g, v, i - 1);
    }
  }

  /** Everything a node reads is due when it runs. */
  lemma InputsAreDue(g: Graph, i: nat, k: nat)
    requires Checked(g) && i < |g.nodes| && k < |g.nodes[i].inputs| && g.nodes[i].inputs[k] != ""
    ensures NodeResolved(Named(g.values), g.nodes[i])
    ensures Range(ValueOf(g, g.nodes[i].inputs[k])) <= Due(g, i, i)
  {
    assert NodeResolved(Named(g.values), g.nodes[i]);
    var v := ValueOf(g, g.nodes[i].inputs[k]);
    NamedInGroup(g, g.nodes[i].inputs[k]);
    LifetimeCovers(g.values, g.nodes, g.outputs, v.group);
    ReadIsUsed(g, i, k);
    assert NodeChecked(g, i);
    if InArena(g, v.group) { ProducedHas(g, v, i); }
  }

  lemma ReadIsUsed(g: Graph, i: nat, k: nat)
    requires Wellformed(g) && i < |g.nodes| && k < |g.nodes[i].inputs| && g.nodes[i].inputs[k] != ""
    ensures NodeResolved(Named(g.values), g.nodes[i]) && LifeOf(g, ValueOf(g, g.nodes[i].inputs[k]).group).used
  {
    assert g.nodes[..|g.nodes|] == g.nodes;
    var group := ValueOf(g, g.nodes[i].inputs[k]).group;
    var events := PlanEvents(g.values, g.nodes, g.outputs);
    NodeEventsHave(Named(g.values), g.nodes, |g.nodes|, i);
    PlanEventsInOrder(g.values, g.nodes, g.outputs);
    LivesEnd(events, group, |g.nodes|);
    assert Reads(group, i) in events && Touches(events, group, i);
  }

  lemma VisibleIsUsed(g: Graph, k: nat)
    requires Wellformed(g) && k < |g.outputs|
    ensures LifeOf(g, ValueOf(g, g.outputs[k]).group).used
  {
    assert g.nodes[..|g.nodes|] == g.nodes;
    var group := ValueOf(g, g.outputs[k]).group;
    var events := PlanEvents(g.values, g.nodes, g.outputs);
    OutputEventsHave(Named(g.values), g.outputs, |g.nodes|);
    PlanEventsInOrder(g.values, g.nodes, g.outputs);
    LivesEnd(events, group, |g.nodes|);
    assert Visible(group, |g.nodes|) in events && Touches(events, group, |g.nodes|);
  }

  /** Every graph output is due at the end of the run. */
  lemma OutputsAreDue(g: Graph, k: nat)
    requires Checked(g) && k < |g.outputs|
    ensures Range(ValueOf(g, g.outputs[k])) <= Due(g, |g.nodes|, |g.nodes|)
  {
    var v := ValueOf(g, g.outputs[k]);
    NamedInGroup(g, g.outputs[k]);
    LifetimeCovers(g.values, g.nodes, g.outputs, v.group);
    VisibleIsUsed(g, k);
    assert OutputChecked(g, k);
    if InArena(g, v.group) { ProducedHas(g, v, |g.nodes|); }
  }

  // What node i's writes must leave alone, and what they add.
  ghost function AroundWrites(g: Graph, i: nat): iset<Cell>
    requires Checked(g) && i < |g.nodes| && Resolved(Named(g.values), Written(g, i))
  {
    Due(g, i, i + 1) + Ranges(g, Written(g, i))
  }

  // Every group node i writes is either outside the arena or alive at i.
  lemma WrittenLives(g: Graph, i: nat, k: nat)
    requires Checked(g) && i < |g.nodes| && Resolved(Named(g.values), Written(g, i)) && k < |Written(g, i)|
    ensures var x := ValueOf(g, Written(g, i)[k]).group; !InArena(g, x) || LifeOf(g, x).first <= i <= LifeOf(g, x).last
  {
    var m := |g.nodes[i].outputs|;
    if k < m {
      assert Written(g, i)[k] == g.nodes[i].outputs[k];
      OutputLives(g, i, k);
    } else {
      assert NodeChecked(g, i) && g.ops[i].Kernel? && Written(g, i)[k] == g.ops[i].mutables[k - m];
    }
  }

  lemma CellLives(g: Graph, i: nat, c: Cell)
    requires Checked(g) && i < |g.nodes| && Resolved(Named(g.values), Written(g, i)) && c in AroundWrites(g, i)
    ensures c.at < LifeOf(g, c.group).bytes
    ensures !InArena(g, c.group) || (IsGroup(g, c.group) && LifeOf(g, c.group).first <= i <= LifeOf(g, c.group).last)
  {
    if c in Due(g, i, i + 1) {
      if c in ProducedCells(g, i) { ProducedLives(g, i, c); }
    } else {
      RangesOnly(g, Written(g, i), c);
      var k :| 0 <= k < |Written(g, i)| && c in Range(ValueOf(g, Written(g, i)[k]));
      NamedInGroup(g, Written(g, i)[k]);
      WrittenLives(g, i, k);
    }
  }

  lemma HoldsComesFromValue(g: Graph, e: Event)
    requires Wellformed(g) && e.Holds? && e in PlanEvents(g.values, g.nodes, g.outputs)
    ensures IsGroup(g, e.group)
  {
    assert g.nodes[..|g.nodes|] == g.nodes;
    NodeEventsInOrder(Named(g.values), g.nodes, |g.nodes|);
    assert e in ValueEvents(g.values);
    var k :| 0 <= k < |g.values| && ValueEvents(g.values)[k] == e;
    assert g.values[k].group == e.group;
  }

  lemma UsedIsGroup(g: Graph, x: nat)
    requires Wellformed(g) && LifeOf(g, x).bytes > 0
    ensures IsGroup(g, x)
  {
    LivesSized(PlanEvents(g.values, g.nodes, g.outputs), x);
    var seed :| Event.Holds(x, LifeOf(g, x).bytes, seed) in PlanEvents(g.values, g.nodes, g.outputs);
    HoldsComesFromValue(g, Event.Holds(x, LifeOf(g, x).bytes, seed));
  }

  /** A node's writes stay clear of everything due afterwards, in any placement that respects the lifetimes. */
  lemma WritesAreClear(g: Graph, base: Layout, size: nat, i: nat)
    requires Checked(g) && Placed(g, base, size) && i < |g.nodes| && Resolved(Named(g.values), Written(g, i))
    ensures ClearAll(g, AroundWrites(g, i), base, Written(g, i))
  {
    forall k | 0 <= k < |Written(g, i)|
      ensures var v := ValueOf(g, Written(g, i)[k]); v.group in base && Clear(AroundWrites(g, i), base, v)
    {
      var v := ValueOf(g, Written(g, i)[k]);
      NamedInGroup(g, Written(g, i)[k]);
      WrittenLives(g, i, k);
      forall c | c in AroundWrites(g, i) && c.group != v.group && c.group in base
        ensures base[c.group] + c.at < base[v.group] + v.offset ||
          base[v.group] + v.offset + v.bytes <= base[c.group] + c.at
      {
        CellLives(g, i, c);
        UsedIsGroup(g, c.group);
        assert Together(g, c.group, v.group);
        assert Disjoint(g, base, c.group, v.group);
      }
    }
  }

  lemma DueAfterKernel(g: Graph, i: nat)
    requires Checked(g) && i < |g.nodes| && g.ops[i].Kernel? && Resolved(Named(g.values), Written(g, i))
    ensures Due(g, i + 1, i + 1) <= AroundWrites(g, i)
  {
    assert NodeResolved(Named(g.values), g.nodes[i]);
    forall c | c in Due(g, i + 1, i + 1) ensures c in AroundWrites(g, i) {
      if c !in Due(g, i, i + 1) {
        RangesOnly(g, g.nodes[i].outputs, c);
        var k :| 0 <= k < |g.nodes[i].outputs| && c in Range(ValueOf(g, g.nodes[i].outputs[k]));
        assert Written(g, i)[k] == g.nodes[i].outputs[k];
        RangesHave(g, Written(g, i), k);
      }
    }
  }

  lemma DueAfterView(g: Graph, i: nat)
    requires Checked(g) && i < |g.nodes| && g.ops[i].View?
    ensures Due(g, i + 1, i + 1) <= Due(g, i, i)
  {
    assert NodeResolved(Named(g.values), g.nodes[i]);
    forall c | c in Due(g, i + 1, i + 1) ensures c in Due(g, i, i) {
      if c !in Due(g, i, i + 1) {
        RangesOnly(g, g.nodes[i].outputs, c);
        var k :| 0 <= k < |g.nodes[i].outputs| && c in Range(ValueOf(g, g.nodes[i].outputs[k]));
        assert NodeChecked(g, i) && ViewsInput(g, i, ValueOf(g, g.nodes[i].outputs[k]));
        var m :| 0 <= m < |g.nodes[i].inputs| && g.nodes[i].inputs[m] != "" &&
          Inside(ValueOf(g, g.nodes[i].outputs[k]), ValueOf(g, g.nodes[i].inputs[m]));
        InputsAreDue(g, i, m);
        assert c in Range(ValueOf(g, g.nodes[i].inputs[m]));
      }
    }
  }

  lemma AgreeingLoadAll(g: Graph, i: nat, a: Layout, memA: seq<byte>, b: Layout, memB: seq<byte>)
    requires Checked(g) && Loaded(g, a, |memA|) && Loaded(g, b, |memB|) && i < |g.nodes|
    requires Agree(Due(g, i, i), a, memA, b, memB)
    ensures NodeResolved(Named(g.values), g.nodes[i])
    ensures LoadAll(g, a, memA, g.nodes[i].inputs) == LoadAll(g, b, memB, g.nodes[i].inputs)
  {
    assert NodeResolved(Named(g.values), g.nodes[i]);
    var inputs := g.nodes[i].inputs;
    forall k | 0 <= k < |inputs| ensures LoadAll(g, a, memA, inputs)[k] == LoadAll(g, b, memB, inputs)[k] {
      if inputs[k] != "" {
        InputsAreDue(g, i, k);
        NamedLoaded(g, a, |memA|, inputs[k]);
        NamedLoaded(g, b, |memB|, inputs[k]);
        AgreeingLoad(Due(g, i, i), a, memA, b, memB, ValueOf(g, inputs[k]));
      }
    }
  }

  lemma AgreeLess(some: iset<Cell>, cells: iset<Cell>, a: Layout, memA: seq<byte>, b: Layout, memB: seq<byte>)
    requires Agree(cells, a, memA, b, memB) && some <= cells
    ensures Agree(some, a, memA, b, memB)
  {
  }

  /** One node: under two placements it reads the same inputs, succeeds or fails alike, and leaves agreeing memories. */
  lemma NodeAgrees(g: Graph, kernels: Kernels, a: Layout, memA: seq<byte>, b: Layout, memB: seq<byte>, i: nat)
    requires Checked(g) && Fills(g, kernels) && Placed(g, a, |memA|) && Placed(g, b, |memB|) && i < |g.nodes|
    requires Loaded(g, a, |memA|) && Loaded(g, b, |memB|) && Agree(Due(g, i, i), a, memA, b, memB)
    ensures var ra, rb := RunNode(g, kernels, a, memA, i), RunNode(g, kernels, b, memB, i);
      ra.ok == rb.ok && Agree(Due(g, i + 1, i + 1), a, ra.mem, b, rb.mem)
  {
    assert NodeResolved(Named(g.values), g.nodes[i]);
    if g.ops[i].View? {
      DueAfterView(g, i);
      AgreeLess(Due(g, i + 1, i + 1), Due(g, i, i), a, memA, b, memB);
    } else {
      AgreeingLoadAll(g, i, a, memA, b, memB);
      var inputs := LoadAll(g, a, memA, g.nodes[i].inputs);
      var data := kernels(i, inputs).data;
      assert Resolved(Named(g.values), Written(g, i)) && Sizes(g, Written(g, i), data);
      WritesAreClear(g, a, |memA|, i);
      WritesAreClear(g, b, |memB|, i);
      AgreeLess(Due(g, i, i + 1), Due(g, i, i), a, memA, b, memB);
      AgreeingStoreAll(g, Due(g, i, i + 1), AroundWrites(g, i), a, memA, b, memB, Written(g, i), data);
      DueAfterKernel(g, i);
    }
  }

  // Two runs stopped at the same node; if none failed, what is due there agrees.
  ghost predicate Alike(g: Graph, a: Layout, ra: Step, b: Layout, rb: Step, n: nat)
    requires Wellformed(g) && n <= |g.nodes|
  {
    ra.ok == rb.ok && Agree(KeptCells(g), a, ra.mem, b, rb.mem) && (ra.ok ==> Agree(Due(g, n, n), a, ra.mem, b, rb.mem))
  }

  lemma NodeKeepsAlike(g: Graph, kernels: Kernels, a: Layout, ra: Step, b: Layout, rb: Step, i: nat)
    requires Checked(g) && Fills(g, kernels) && i < |g.nodes|
    requires Placed(g, a, |ra.mem|) && Placed(g, b, |rb.mem|) && Loaded(g, a, |ra.mem|) && Loaded(g, b, |rb.mem|)
    requires Alike(g, a, ra, b, rb, i)
    ensures Alike(g, a, Continue(g, kernels, a, ra, i), b, Continue(g, kernels, b, rb, i), i + 1)
  {
    if ra.ok {
      NodeAgrees(g, kernels, a, ra.mem, b, rb.mem, i);
      var sa, sb := RunNode(g, kernels, a, ra.mem, i), RunNode(g, kernels, b, rb.mem, i);
      AgreeLess(KeptCells(g), Due(g, i + 1, i + 1), a, sa.mem, b, sb.mem);
    }
  }

  // The two memories agree outside the arena, and each placement respects the lifetimes.
  ghost predicate Paired(g: Graph, a: Layout, memA: seq<byte>, b: Layout, memB: seq<byte>) {
    Checked(g) && Placed(g, a, |memA|) && Placed(g, b, |memB|) && Loaded(g, a, |memA|) && Loaded(g, b, |memB|) &&
    Agree(KeptCells(g), a, memA, b, memB)
  }

  lemma RunsStartAlike(g: Graph, kernels: Kernels, a: Layout, memA: seq<byte>, b: Layout, memB: seq<byte>)
    requires Paired(g, a, memA, b, memB) && Fills(g, kernels)
    ensures Alike(g, a, RunNodes(g, kernels, a, memA, 0), b, RunNodes(g, kernels, b, memB, 0), 0)
  {
    assert Due(g, 0, 0) == KeptCells(g);
  }

  /** A whole run, from any memories that agree outside the arena. */
  lemma {:induction false} RunAgrees(g: Graph, kernels: Kernels, a: Layout, memA: seq<byte>, b: Layout, memB: seq<byte>,
    n: nat)
    requires Paired(g, a, memA, b, memB) && Fills(g, kernels) && n <= |g.nodes|
    ensures Alike(g, a, RunNodes(g, kernels, a, memA, n), b, RunNodes(g, kernels, b, memB, n), n)
  {
    if n == 0 {
      RunsStartAlike(g, kernels, a, memA, b, memB);
    } else {
      RunAgrees(g, kernels, a, memA, b, memB, n - 1);
      NodeKeepsAlike(g, kernels, a, RunNodes(g, kernels, a, memA, n - 1), b, RunNodes(g, kernels, b, memB, n - 1),
        n - 1);
    }
  }
}
