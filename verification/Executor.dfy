/**
 The execution session itself: it places every alias group in memory once, then
 serves binds, runs and reads on that memory.
 */
module Executor {
  import opened Wrappers
  import opened DependencyOrder
  import opened GraphOrder
  import opened Compile
  import opened MemoryPlan
  import opened Arena
  import opened Session
  import opened Replay
  import opened Effects

  // The largest end of a value of group x among the first n.
  function Extent(values: seq<Value>, x: nat, n: nat): nat
    requires n <= |values|
  {
    if n == 0 then 0
    else if values[n - 1].group == x then Max(Extent(values, x, n - 1), values[n - 1].offset + values[n - 1].bytes)
    else Extent(values, x, n - 1)
  }

  lemma {:induction false} ExtentIsLargest(values: seq<Value>, x: nat, n: nat)
    requires n <= |values|
    ensures forall k :: 0 <= k < n && values[k].group == x ==>
      values[k].offset + values[k].bytes <= Extent(values, x, n)
    ensures Extent(values, x, n) == 0 || exists k ::
      0 <= k < n && values[k].group == x && values[k].offset + values[k].bytes == Extent(values, x, n)
  {
    if n > 0 { ExtentIsLargest(values, x, n - 1); }
  }

  lemma ExtentIsLifeBytes(g: Graph, x: nat)
    requires Wellformed(g)
    ensures Extent(g.values, x, |g.values|) == LifeOf(g, x).bytes
  {
    var events := PlanEvents(g.values, g.nodes, g.outputs);
    ExtentIsLargest(g.values, x, |g.values|);
    LivesSized(events, x);
    LifetimeCovers(g.values, g.nodes, g.outputs, x);
    if LifeOf(g, x).bytes > 0 {
      var seed :| Event.Holds(x, LifeOf(g, x).bytes, seed) in events;
      var k := HoldsIsValue(g, Event.Holds(x, LifeOf(g, x).bytes, seed));
    }
  }

  lemma HoldsIsValue(g: Graph, e: Event) returns (k: nat)
    requires Wellformed(g) && e.Holds? && e in PlanEvents(g.values, g.nodes, g.outputs)
    ensures k < |g.values| && g.values[k].group == e.group && g.values[k].offset + g.values[k].bytes == e.end
  {
    assert g.nodes[..|g.nodes|] == g.nodes;
    NodeEventsInOrder(Named(g.values), g.nodes, |g.nodes|);
    assert e in ValueEvents(g.values);
    k :| 0 <= k < |g.values| && ValueEvents(g.values)[k] == e;
  }

  // The sizes of the groups, as far as the first k values show.
  ghost predicate BytesSoFar(values: seq<Value>, bytes: map<nat, nat>, k: nat)
    requires k <= |values|
  {
    (forall x: nat :: x in bytes <==> exists j :: 0 <= j < k && values[j].group == x) &&
    (forall x: nat :: Extent(values, x, k) == if x in bytes then bytes[x] else 0)
  }

  method GroupBytes(values: seq<Value>) returns (bytes: map<nat, nat>)
    ensures BytesSoFar(values, bytes, |values|)
  {
    bytes := map[];
    for k := 0 to |values|
      invariant BytesSoFar(values, bytes, k)
    {
      var v := values[k];
      BytesStep(values, bytes, k);
      bytes := bytes[v.group := Max(if v.group in bytes then bytes[v.group] else 0, v.offset + v.bytes)];
    }
  }

  lemma BytesAreLives(g: Graph, bytes: map<nat, nat>, x: nat)
    requires Wellformed(g) && BytesSoFar(g.values, bytes, |g.values|) && IsGroup(g, x)
    ensures x in bytes && bytes[x] == LifeOf(g, x).bytes
  {
    ExtentIsLifeBytes(g, x);
    assert Extent(g.values, x, |g.values|) == if x in bytes then bytes[x] else 0;
  }

  lemma BytesStep(values: seq<Value>, bytes: map<nat, nat>, k: nat)
    requires k < |values| && BytesSoFar(values, bytes, k)
    ensures var v := values[k];
      BytesSoFar(values, bytes[v.group := Max(if v.group in bytes then bytes[v.group] else 0, v.offset + v.bytes)],
        k + 1)
  {
    var v := values[k];
    var next := bytes[v.group := Max(if v.group in bytes then bytes[v.group] else 0, v.offset + v.bytes)];
    forall x: nat ensures Extent(values, x, k + 1) == if x in next then next[x] else 0 {
      assert Extent(values, x, k) == if x in bytes then bytes[x] else 0;
    }
  }

  // The plan the compiler built for this graph.
  ghost predicate PlanOf(g: Graph, plan: Plan) {
    Wellformed(g) && PlanFor(g.values, g.nodes, g.outputs, plan)
  }

  ghost predicate AllocatesGroup(g: Graph, a: Allocation)
    requires Wellformed(g)
  {
    var life := LifeOf(g, a.group);
    InArena(g, a.group) && a.bytes == life.bytes && a.first == life.first && a.last == life.last
  }

  lemma PlanAllocates(g: Graph, plan: Plan)
    requires PlanOf(g, plan)
    ensures Sound(plan, |g.nodes|)
    ensures forall k :: 0 <= k < |plan.allocations| ==> AllocatesGroup(g, plan.allocations[k])
    ensures forall j, k :: 0 <= j < k < |plan.allocations| ==> plan.allocations[j].group != plan.allocations[k].group
    ensures forall x: nat :: InArena(g, x) ==> exists k :: 0 <= k < |plan.allocations| && plan.allocations[k].group == x
  {
    var lives := Lives(PlanEvents(g.values, g.nodes, g.outputs));
    var intervals :| Intervals(intervals, lives) && plan == PlaceAll(intervals).plan;
    PlanIsSound(g.values, g.nodes, g.outputs, intervals);
    IntervalsForward(g.values, g.nodes, g.outputs, intervals);
    PlacementIsStacked(intervals);
    forall k | 0 <= k < |plan.allocations|
      ensures AllocatesGroup(g, plan.allocations[k])
    {
      assert intervals[k] in intervals;
    }
    forall j, k | 0 <= j < k < |plan.allocations| ensures plan.allocations[j].group != plan.allocations[k].group {
      assert intervals[j] in intervals && intervals[k] in intervals && Before(intervals[j], intervals[k]);
    }
    forall x: nat | InArena(g, x) ensures exists k :: 0 <= k < |plan.allocations| && plan.allocations[k].group == x {
      assert IntervalOf(x, lives[x]) in intervals;
      var k :| 0 <= k < |intervals| && intervals[k] == IntervalOf(x, lives[x]);
      assert plan.allocations[k].group == x;
    }
  }

  // Groups placed so far end below `top`; those that must not share bytes do not.
  ghost predicate PlacedSoFar(g: Graph, base: Layout, top: nat, reuse: bool)
    requires Wellformed(g)
  {
    (forall x: nat :: x in base ==> base[x] + LifeOf(g, x).bytes <= top) &&
    (forall x: nat, y: nat :: x in base && y in base && x != y && (!reuse || Together(g, x, y)) ==>
      Disjoint(g, base, x, y))
  }

  lemma PlaceNext(g: Graph, base: Layout, top: nat, reuse: bool, x: nat, size: nat)
    requires Wellformed(g) && PlacedSoFar(g, base, top, reuse) && x !in base && size == LifeOf(g, x).bytes
    ensures PlacedSoFar(g, base[x := top], top + size, reuse)
  {
    var next := base[x := top];
    forall y: nat, z: nat | y in next && z in next && y != z && (!reuse || Together(g, y, z))
      ensures Disjoint(g, next, y, z)
    {
      if y != x && z != x { assert Disjoint(g, base, y, z); }
    }
  }

  function Offsets(allocations: seq<Allocation>, n: nat): Layout
    requires n <= |allocations|
  {
    if n == 0 then map[] else Offsets(allocations, n - 1)[allocations[n - 1].group := allocations[n - 1].offset]
  }

  lemma {:induction false} OffsetsPlace(allocations: seq<Allocation>, n: nat)
    requires n <= |allocations| &&
      forall j, k :: 0 <= j < k < |allocations| ==> allocations[j].group != allocations[k].group
    ensures forall j :: 0 <= j < n ==>
      (allocations[j].group in Offsets(allocations, n) &&
       Offsets(allocations, n)[allocations[j].group] == allocations[j].offset)
    ensures forall x: nat :: x in Offsets(allocations, n) ==> exists j :: 0 <= j < n && allocations[j].group == x
  {
    if n > 0 { OffsetsPlace(allocations, n - 1); }
  }

  method AssignArena(g: Graph, plan: Plan) returns (base: Layout)
    requires PlanOf(g, plan)
    ensures PlacedSoFar(g, base, plan.arena, true)
    ensures forall k :: 0 <= k < |plan.allocations| ==>
      plan.allocations[k].group in base && base[plan.allocations[k].group] == plan.allocations[k].offset
  {
    base := map[];
    for k := 0 to |plan.allocations|
      invariant base == Offsets(plan.allocations, k)
    {
      base := base[plan.allocations[k].group := plan.allocations[k].offset];
    }
    PlanAllocates(g, plan);
    OffsetsPlace(plan.allocations, |plan.allocations|);
    ArenaRespectsLifetimes(g, plan, base);
  }

  lemma ArenaRespectsLifetimes(g: Graph, plan: Plan, base: Layout)
    requires PlanOf(g, plan)
    requires forall x: nat :: x in base ==> exists j :: 0 <= j < |plan.allocations| && plan.allocations[j].group == x
    requires forall j :: 0 <= j < |plan.allocations| ==>
      plan.allocations[j].group in base && base[plan.allocations[j].group] == plan.allocations[j].offset
    ensures PlacedSoFar(g, base, plan.arena, true)
  {
    PlanAllocates(g, plan);
    forall x: nat | x in base ensures base[x] + LifeOf(g, x).bytes <= plan.arena {
      var j :| 0 <= j < |plan.allocations| && plan.allocations[j].group == x;
      assert AllocatesGroup(g, plan.allocations[j]);
    }
    forall x: nat, y: nat | x in base && y in base && x != y && Together(g, x, y) ensures Disjoint(g, base, x, y) {
      var j :| 0 <= j < |plan.allocations| && plan.allocations[j].group == x;
      var k :| 0 <= k < |plan.allocations| && plan.allocations[k].group == y;
      TogetherIsApart(g, plan, j, k);
    }
  }

  lemma TogetherIsApart(g: Graph, plan: Plan, j: nat, k: nat)
    requires PlanOf(g, plan) && j < |plan.allocations| && k < |plan.allocations| && j != k
    requires Together(g, plan.allocations[j].group, plan.allocations[k].group)
    ensures var x, y := plan.allocations[j], plan.allocations[k];
      x.offset + LifeOf(g, x.group).bytes <= y.offset || y.offset + LifeOf(g, y.group).bytes <= x.offset
  {
    PlanAllocates(g, plan);
    var x, y := plan.allocations[j], plan.allocations[k];
    assert AllocatesGroup(g, x) && AllocatesGroup(g, y);
    var t := Max(x.first, y.first);
    assert LiveAt(x, t) && LiveAt(y, t);
    assert j < k || Meet(y, x) == Meet(x, y);
  }

  lemma AllPlaced(g: Graph, base: Layout, size: nat, reuse: bool)
    requires Wellformed(g) && PlacedSoFar(g, base, size, reuse) &&
      forall j :: 0 <= j < |g.values| ==> g.values[j].group in base
    ensures Placed(g, base, size) && (!reuse ==> Private(g, base, size))
  {
  }

  /**
   The storage of a session: arena groups at their planned offsets if it reuses memory, every
   other group on its own.
   */
  method AssignStorage(g: Graph, plan: Plan, reuse: bool) returns (base: Layout, size: nat)
    requires PlanOf(g, plan)
    ensures reuse ==> Placed(g, base, size) && forall k :: 0 <= k < |plan.allocations| ==>
      plan.allocations[k].group in base && base[plan.allocations[k].group] == plan.allocations[k].offset
    ensures !reuse ==> Private(g, base, size)
  {
    base, size := map[], 0;
    if reuse {
      base := AssignArena(g, plan);
      size := plan.arena;
    }
    base, size := AssignBuffers(g, base, size, reuse);
  }

  // The groups of the first k values have a place, and those of the arena keep theirs.
  ghost predicate Assigned(values: seq<Value>, arena: Layout, base: Layout, k: nat)
    requires k <= |values|
  {
    (forall j :: 0 <= j < k ==> values[j].group in base) && forall x: nat :: x in arena ==>
      x in base && base[x] == arena[x]
  }

  lemma AssignedMore(values: seq<Value>, arena: Layout, base: Layout, k: nat, at: nat)
    requires k < |values| && Assigned(values, arena, base, k)
    ensures var x := values[k].group; Assigned(values, arena, if x in base then base else base[x := at], k + 1)
  {
  }

  // A buffer for every group that has no place yet.
  method AssignBuffers(g: Graph, arena: Layout, top: nat, reuse: bool) returns (base: Layout, size: nat)
    requires Wellformed(g) && PlacedSoFar(g, arena, top, reuse)
    ensures Placed(g, base, size) && (!reuse ==> Private(g, base, size))
    ensures forall x: nat :: x in arena ==> x in base && base[x] == arena[x]
  {
    var bytes := GroupBytes(g.values);
    base, size := arena, top;
    for k := 0 to |g.values|
      invariant PlacedSoFar(g, base, size, reuse) && Assigned(g.values, arena, base, k)
    {
      var x := g.values[k].group;
      assert IsGroup(g, x);
      BytesAreLives(g, bytes, x);
      AssignedMore(g.values, arena, base, k, size);
      if x !in base {
        PlaceNext(g, base, size, reuse, x, bytes[x]);
        base, size := base[x := size], size + bytes[x];
      }
    }
    AllPlaced(g, base, size, reuse);
  }

  // ---- The session ----

  // Contents of the groups outside the arena when the session starts: weights, seeds and caller-owned state.
  ghost predicate Supplies(g: Graph, initial: map<nat, seq<byte>>)
    requires Wellformed(g)
  {
    forall x: nat :: IsGroup(g, x) && !InArena(g, x) ==> x in initial && |initial[x]| == LifeOf(g, x).bytes
  }

  ghost predicate StartsWith(g: Graph, base: Layout, mem: seq<byte>, initial: map<nat, seq<byte>>)
    requires Wellformed(g)
  {
    forall x: nat :: IsGroup(g, x) && !InArena(g, x) ==>
      x in base && x in initial && base[x] + |initial[x]| <= |mem| && mem[base[x]..base[x] + |initial[x]|] == initial[x]
  }

  lemma InitialAgrees(g: Graph, a: Layout, memA: seq<byte>, b: Layout, memB: seq<byte>, initial: map<nat, seq<byte>>)
    requires Wellformed(g) && Supplies(g, initial) && StartsWith(g, a, memA, initial) && StartsWith(g, b, memB, initial)
    ensures Agree(KeptCells(g), a, memA, b, memB)
  {
    forall c | c in KeptCells(g)
      ensures c.group in a && c.group in b && a[c.group] + c.at < |memA| && b[c.group] + c.at < |memB|
      ensures memA[a[c.group] + c.at] == memB[b[c.group] + c.at]
    {
      UsedIsGroup(g, c.group);
      assert memA[a[c.group]..a[c.group] + |initial[c.group]|][c.at] ==
        memB[b[c.group]..b[c.group] + |initial[c.group]|][c.at];
    }
  }

  lemma OverwrittenMore(bytes: seq<byte>, at: nat, data: seq<byte>, k: nat)
    requires at + |data| <= |bytes| && k < |data|
    ensures Overwritten(bytes, at, data[..k + 1]) == Overwritten(bytes, at, data[..k])[at + k := data[k]]
  {
  }

  method CopyIn(memory: array<byte>, at: nat, data: seq<byte>)
    requires at + |data| <= memory.Length
    modifies memory
    ensures memory[..] == Overwritten(old(memory[..]), at, data)
  {
    ghost var before := memory[..];
    for k := 0 to |data|
      invariant memory[..] == Overwritten(before, at, data[..k])
    {
      OverwrittenMore(before, at, data, k);
      memory[at + k] := data[k];
    }
    assert data[..|data|] == data;
  }

  // The runtime's own count of its nodes' dependencies, with the order check at its end.
  method BuildDependencies(nodes: seq<NodeDesc>, tensors: set<string>)
    returns (ok: bool, counts: seq<nat>, users: seq<seq<nat>>)
    ensures ok <==> UniqueProducers(nodes) && InputsPresent(nodes, tensors) && Acyclic(CompiledDeps(nodes))
    ensures ok ==>
      counts == Counts(CompiledDeps(nodes)) && UsersOf(CompiledDeps(nodes), users) && InRange(users, |nodes|)
  {
    counts, users := [], [];
    var names := CollectOutputs(nodes);
    var producers;
    ok, producers := BuildProducers(nodes, names, {});
    assert ok <==> UniqueProducers(nodes);
    if !ok { return; }
    CompiledDepsFeed(nodes);
    PresentIsKnown(nodes, producers, tensors);
    ok, counts, users := BuildEdges(nodes, producers, {}, tensors);
    if !ok { return; }
    var order := Kahn(CompiledDeps(nodes), counts, users);
    ok := |order| == |nodes|;
  }

  lemma NumberedIsAcyclic(deps: Dependencies)
    requires Numbered(deps)
    ensures Acyclic(deps)
  {
    forall w ensures !Cycle(deps, w) {
      if Cycle(deps, w) {
        for k := 0 to |w| - 1
          invariant w[k] <= w[0] && (k > 0 ==> w[k] < w[0])
        {
        }
      }
    }
  }

  // Kahn's bookkeeping when the first k nodes have run, in index order.
  ghost predicate Replaying(deps: Dependencies, pending: seq<nat>, ready: set<nat>, k: nat) {
    k <= |deps| && Bookkept(deps, pending, ready, Below(k), multiset{})
  }

  lemma IdentityPrefix(n: nat, k: nat)
    requires k <= n
    ensures forall x: nat :: x in Identity(n)[..k] <==> x < k
  {
    forall x: nat | x < k ensures x in Identity(n)[..k] { assert Identity(n)[..k][x] == x; }
  }

  lemma {:induction false} IdentityIsGreedy(deps: Dependencies, k: nat)
    requires Numbered(deps) && k <= |deps|
    ensures Greedy(deps, Identity(|deps|)[..k])
  {
    if k > 0 {
      var order := Identity(|deps|)[..k - 1];
      IdentityIsGreedy(deps, k - 1);
      IdentityPrefix(|deps|, k - 1);
      assert Ready(deps, order, k - 1);
      GreedyStep(deps, order, k - 1);
      assert order + [k - 1] == Identity(|deps|)[..k];
    }
  }

  lemma ReplayingEmits(deps: Dependencies, pending: seq<nat>, ready: set<nat>, k: nat)
    requires Numbered(deps) && Replaying(deps, pending, ready, k)
    ensures Emitting(deps, pending, ready, Identity(|deps|)[..k], Below(k))
  {
    IdentityIsGreedy(deps, k);
    IdentityPrefix(|deps|, k);
  }

  /** On a graph numbered in dependency order, the lowest ready index is the next index. */
  lemma ReplayStep(deps: Dependencies, pending: seq<nat>, ready: set<nat>, k: nat, users: seq<seq<nat>>, i: nat)
    requires Numbered(deps) && Replaying(deps, pending, ready, k) && IsLeast(ready, i) && UsersOf(deps, users)
    ensures i == k < |users| == |deps| && Bookkept(deps, pending, ready - {i}, Below(k + 1), multiset(users[k]))
  {
    var order := Identity(|deps|)[..k];
    ReplayingEmits(deps, pending, ready, k);
    EmitLeast(deps, pending, ready, order, Below(k), users, i);
    NumberedOrderIsIdentity(deps, order + [i]);
    assert (order + [i])[k] == i;
    assert Below(k) + {k} == Below(k + 1);
  }

  lemma ReplayEnds(deps: Dependencies, pending: seq<nat>, ready: set<nat>, k: nat)
    requires Numbered(deps) && ValidDeps(deps) && Replaying(deps, pending, ready, k) && ready == {}
    ensures k == |deps|
  {
    ReplayingEmits(deps, pending, ready, k);
    Emitted(deps, pending, Identity(|deps|)[..k], Below(k));
    NumberedIsAcyclic(deps);
  }

  lemma StoreAllStep(g: Graph, base: Layout, mem: seq<byte>, names: seq<string>, data: seq<seq<byte>>, k: nat)
    requires Wellformed(g) && Loaded(g, base, |mem|) && Resolved(Named(g.values), names) && Sizes(g, names, data) &&
      k < |names|
    ensures ValueOf(g, names[k]).group in base &&
      base[ValueOf(g, names[k]).group] + ValueOf(g, names[k]).offset + |data[k]| <= |mem|
    ensures StoreAll(g, base, mem, names[..k + 1], data[..k + 1]) ==
      Store(base, StoreAll(g, base, mem, names[..k], data[..k]), ValueOf(g, names[k]), data[k])
  {
    NamedLoaded(g, base, |mem|, names[k]);
    assert names[..k + 1][..k] == names[..k] && data[..k + 1][..k] == data[..k];
  }

  // Once a step of a run has failed, the later ones change nothing.
  ghost predicate StickyAt(trace: seq<Step>, k: nat)
    requires k < |trace| - 1
  {
    trace[k].ok || trace[k + 1] == trace[k]
  }

  ghost predicate Sticky(trace: seq<Step>) { forall k :: 0 <= k < |trace| - 1 ==> StickyAt(trace, k) }

  lemma {:induction false} StaysStopped(trace: seq<Step>, k: nat, n: nat)
    requires Sticky(trace) && k <= n < |trace| && !trace[k].ok
    ensures trace[n] == trace[k]
  {
    if k < n {
      StaysStopped(trace, k, n - 1);
      assert StickyAt(trace, n - 1);
    }
  }

  method BeginReplay(ghost deps: Dependencies, counts: seq<nat>) returns (pending: array<nat>, ready: set<nat>)
    requires counts == Counts(deps)
    ensures fresh(pending) && Replaying(deps, pending[..], ready, 0)
  {
    pending := new nat[|counts|](i requires 0 <= i < |counts| => counts[i]);
    assert pending[..] == counts;
    ready := Start(deps, pending);
    assert Below(0) == {};
  }

  class ExecutionSession {
    const graph: Graph
    const kernels: Kernels
    const inputs: set<string>
    const base: Layout
    const memory: array<byte>
    const counts: seq<nat>
    const users: seq<seq<nat>>
    ghost const deps: Dependencies
    // Whether the outputs of the last run can be read.
    var current: bool

    ghost predicate Valid() {
      Wellformed(graph) && Fills(graph, kernels) && Loaded(graph, base, memory.Length) && |deps| == |graph.nodes| &&
      ValidDeps(deps) && Numbered(deps) && UsersOf(deps, users) && InRange(users, |deps|) && counts == Counts(deps)
    }

    ghost function Now(): State
      reads this, memory
    {
      State(memory[..], current)
    }

    constructor (graph: Graph, kernels: Kernels, inputs: set<string>, base: Layout, start: array<byte>)
      requires Compiled(graph) && Fills(graph, kernels) && Placed(graph, base, start.Length)
      ensures Valid() && this.graph == graph && this.kernels == kernels && this.inputs == inputs && this.base == base
      ensures memory == start && !current && FeedsDeps(graph.nodes, deps)
    {
      CompiledDepsFeed(graph.nodes);
      ForwardsIsNumbered(graph.nodes, CompiledDeps(graph.nodes));
      NumberedIsAcyclic(CompiledDeps(graph.nodes));
      var ok, pending, successors := BuildDependencies(graph.nodes, Named(graph.values).Keys);
      PlacedLoads(graph, base, start.Length);
      this.graph, this.kernels, this.inputs, this.base, memory := graph, kernels, inputs, base, start;
      counts, users, deps := pending, successors, CompiledDeps(graph.nodes);
      current := false;
    }

    /** Copies the data into the session's own storage of an input; refuses any other name or size. */
    method BindInput(name: string, data: seq<byte>) returns (ok: bool)
      requires Valid()
      modifies memory
      ensures CallDone(graph, kernels, inputs, base, old(Now()), Bind(name, data), Now(), Status(ok))
      ensures Now() == AfterCall(graph, kernels, inputs, base, old(Now()), Bind(name, data))
    {
      CallIsDone(graph, kernels, inputs, base, Now(), Bind(name, data));
      ok := CopyInput(name, data);
    }

    method CopyInput(name: string, data: seq<byte>) returns (ok: bool)
      requires Valid()
      modifies memory
      ensures Status(ok) == ReplyTo(graph, kernels, inputs, base, old(Now()), Bind(name, data))
      ensures Now() == AfterCall(graph, kernels, inputs, base, old(Now()), Bind(name, data))
    {
      var named := Named(graph.values);
      if name !in inputs || name !in named || |data| != named[name].bytes { return false; }
      NamedLoaded(graph, base, memory.Length, name);
      var v := named[name];
      CopyIn(memory, base[v.group] + v.offset, data);
      ok := true;
    }

    method ReadOutput(name: string) returns (reply: Reply)
      requires Valid()
      ensures CallDone(graph, kernels, inputs, base, Now(), Read(name), Now(), reply)
      ensures reply == ReplyTo(graph, kernels, inputs, base, Now(), Read(name))
    {
      CallIsDone(graph, kernels, inputs, base, Now(), Read(name));
      if name !in graph.outputs { return Missing; }
      if !current { return Stale; }
      assert name in Named(graph.values) by { var k :| 0 <= k < |graph.outputs| && graph.outputs[k] == name; }
      NamedLoaded(graph, base, memory.Length, name);
      reply := Bytes(Load(base, memory[..], Named(graph.values)[name]));
    }

    method StoreOutputs(names: seq<string>, data: seq<seq<byte>>)
      requires Valid() && Resolved(Named(graph.values), names) && Sizes(graph, names, data)
      modifies memory
      ensures memory[..] == StoreAll(graph, base, old(memory[..]), names, data)
    {
      ghost var before := memory[..];
      for k := 0 to |names|
        invariant memory[..] == StoreAll(graph, base, before, names[..k], data[..k])
      {
        NamedLoaded(graph, base, memory.Length, names[k]);
        var v := ValueOf(graph, names[k]);
        StoreAllStep(graph, base, before, names, data, k);
        CopyIn(memory, base[v.group] + v.offset, data[k]);
      }
      assert names[..|names|] == names && data[..|data|] == data;
    }

    method ExecuteNode(i: nat) returns (ok: bool)
      requires Valid() && i < |graph.nodes|
      modifies memory
      ensures NodeRan(graph, kernels, base, old(memory[..]), memory[..], ok, i)
      ensures Step(memory[..], ok) == RunNode(graph, kernels, base, old(memory[..]), i)
    {
      RunNodeRuns(graph, kernels, base, memory[..], i);
      assert NodeResolved(Named(graph.values), graph.nodes[i]);
      if graph.ops[i].View? { return true; }
      var out := kernels(i, LoadAll(graph, base, memory[..], graph.nodes[i].inputs));
      StoreOutputs(Written(graph, i), out.data);
      ok := out.ok;
    }

    ghost predicate Continues(trace: seq<Step>, k: nat)
      requires Valid() && k < |graph.nodes| && |trace| == |graph.nodes| + 1 && |trace[k].mem| == memory.Length
    {
      trace[k + 1] == Continue(graph, kernels, base, trace[k], k)
    }

    // The steps of a run on this session's placement.
    ghost predicate IsTrace(trace: seq<Step>)
      requires Valid()
    {
      |trace| == |graph.nodes| + 1 && trace[0].ok &&
      (forall k :: 0 <= k < |trace| ==> |trace[k].mem| == memory.Length) &&
      (forall k :: 0 <= k < |graph.nodes| ==> Continues(trace, k)) && Sticky(trace)
    }

    lemma Trace(mem: seq<byte>) returns (trace: seq<Step>)
      requires Valid() && |mem| == memory.Length
      ensures IsTrace(trace) && trace[0] == Step(mem, true) &&
        trace[|graph.nodes|] == RunNodes(graph, kernels, base, mem, |graph.nodes|)
    {
      trace := seq(|graph.nodes| + 1, n requires 0 <= n <= |graph.nodes| => RunNodes(graph, kernels, base, mem, n));
      forall k | 0 <= k < |trace| - 1 ensures StickyAt(trace, k) {
        assert trace[k + 1] == Continue(graph, kernels, base, trace[k], k);
      }
    }

    lemma TraceNext(trace: seq<Step>, k: nat, now: seq<byte>, after: Step)
      requires Valid() && IsTrace(trace) && k < |graph.nodes| && trace[k] == Step(now, true) && |now| == memory.Length
      requires after == RunNode(graph, kernels, base, now, k)
      ensures trace[k + 1] == after && (!after.ok ==> trace[|graph.nodes|] == after)
    {
      assert Continues(trace, k);
      if !after.ok { StaysStopped(trace, k + 1, |graph.nodes|); }
    }

    // Runs the next node of the trace.
    method ExecuteNext(i: nat, ghost k: nat, ghost trace: seq<Step>) returns (ok: bool)
      requires Valid() && IsTrace(trace) && i == k < |graph.nodes| && trace[k] == Step(memory[..], true)
      modifies memory
      ensures trace[k + 1] == Step(memory[..], ok) && (!ok ==> trace[|graph.nodes|] == Step(memory[..], ok))
    {
      ghost var now := memory[..];
      ok := ExecuteNode(i);
      TraceNext(trace, k, now, Step(memory[..], ok));
    }

    method Pick(ghost pending: seq<nat>, ready: set<nat>, ghost completed: nat) returns (i: nat, rest: set<nat>)
      requires Valid() && ready != {} && Replaying(deps, pending, ready, completed)
      ensures i == completed < |graph.nodes| && Within(users[i], |deps|)
      ensures Bookkept(deps, pending, rest, Below(completed + 1), multiset(users[i]))
    {
      i := Top(ready);
      ReplayStep(deps, pending, ready, completed, users, i);
      rest := ready - {i};
    }

    method Complete(pending: array<nat>, rest: set<nat>, i: nat) returns (next: set<nat>)
      requires Valid() && i < |graph.nodes| && Within(users[i], |deps|)
      requires Bookkept(deps, pending[..], rest, Below(i + 1), multiset(users[i]))
      modifies pending
      ensures Replaying(deps, pending[..], next, i + 1)
    {
      next := Release(deps, pending, rest, Below(i + 1), users[i]);
    }

    method Advance(pending: array<nat>, ready: set<nat>, completed: nat, ghost trace: seq<Step>)
      returns (ok: bool, next: set<nat>)
      requires Valid() && pending != memory as object && ready != {} && IsTrace(trace)
      requires Replaying(deps, pending[..], ready, completed) && completed <= |graph.nodes| &&
        trace[completed] == Step(memory[..], true)
      modifies memory, pending
      ensures completed < |graph.nodes|
      ensures ok ==> trace[completed + 1] == Step(memory[..], true) && Replaying(deps, pending[..], next, completed + 1)
      ensures !ok ==> trace[|graph.nodes|] == Step(memory[..], false)
    {
      ghost var before := pending[..];
      var i, rest := Pick(before, ready, completed);
      ok := ExecuteNext(i, completed, trace);
      assert pending[..] == before;
      next := rest;
      if ok {
        ghost var now := memory[..];
        next := Complete(pending, rest, i);
        assert memory[..] == now;
      }
    }

    method Begin() returns (pending: array<nat>, ready: set<nat>)
      requires Valid()
      ensures fresh(pending) && Replaying(deps, pending[..], ready, 0)
    {
      pending, ready := BeginReplay(deps, counts);
    }

    lemma Finished(pending: seq<nat>, ready: set<nat>, completed: nat)
      requires Valid() && Replaying(deps, pending, ready, completed) && ready == {}
      ensures completed == |graph.nodes|
    {
      ReplayEnds(deps, pending, ready, completed);
    }

    // The loop over the lowest ready index.
    method ExecuteReady() returns (ok: bool)
      requires Valid()
      modifies memory
      ensures Step(memory[..], ok) == RunNodes(graph, kernels, base, old(memory[..]), |graph.nodes|)
    {
      ghost var trace := Trace(memory[..]);
      var pending, ready := Begin();
      var completed := 0;
      while ready != {}
        invariant fresh(pending) && Replaying(deps, pending[..], ready, completed)
        invariant completed <= |graph.nodes| && trace[completed] == Step(memory[..], true)
        decreases |graph.nodes| - completed
      {
        ok, ready := Advance(pending, ready, completed, trace);
        if !ok { return; }
        completed := completed + 1;
      }
      Finished(pending[..], ready, completed);
      ok := completed == |graph.nodes|;
    }

    /**
     The serial run: always taking the lowest ready index, it executes nodes 0, 1, ..., n-1 and
     stops at the first failure.
     */
    method RunSerial() returns (ok: bool)
      requires Valid()
      modifies memory
      ensures RunsTo(graph, kernels, base, old(memory[..]), memory[..], ok)
      ensures Step(memory[..], ok) == RunNodes(graph, kernels, base, old(memory[..]), |graph.nodes|)
    {
      RunIsRun(graph, kernels, base, memory[..]);
      ok := ExecuteReady();
    }

    method Run() returns (ok: bool)
      requires Valid()
      modifies this, memory
      ensures CallDone(graph, kernels, inputs, base, old(Now()), Call.Run, Now(), Status(ok))
      ensures Status(ok) == ReplyTo(graph, kernels, inputs, base, old(Now()), Call.Run)
      ensures Now() == AfterCall(graph, kernels, inputs, base, old(Now()), Call.Run)
    {
      ok := RunSerial();
      current := ok;
    }
  }

  // The groups of the first k values that lie outside the arena hold their initial contents.
  ghost predicate Started(g: Graph, base: Layout, mem: seq<byte>, initial: map<nat, seq<byte>>, k: nat)
    requires Wellformed(g) && k <= |g.values|
  {
    forall j :: 0 <= j < k ==> HoldsInitial(g, base, mem, initial, g.values[j].group)
  }

  ghost predicate HoldsInitial(g: Graph, base: Layout, mem: seq<byte>, initial: map<nat, seq<byte>>, x: nat)
    requires Wellformed(g)
  {
    InArena(g, x) || (x in base && x in initial && base[x] + |initial[x]| <= |mem| &&
      mem[base[x]..base[x] + |initial[x]|] == initial[x])
  }

  lemma OverwrittenElsewhere(mem: seq<byte>, at: nat, data: seq<byte>, from: nat, to: nat)
    requires at + |data| <= |mem| && from <= to <= |mem| && (to <= at || at + |data| <= from)
    ensures Overwritten(mem, at, data)[from..to] == mem[from..to]
  {
  }

  lemma CopyKeepsOne(g: Graph, base: Layout, mem: seq<byte>, initial: map<nat, seq<byte>>, x: nat, y: nat)
    requires Wellformed(g) && Supplies(g, initial) && Placed(g, base, |mem|) && IsGroup(g, x) && IsGroup(g, y)
    requires !InArena(g, x) && base[x] + |initial[x]| <= |mem| && (y != x ==> HoldsInitial(g, base, mem, initial, y))
    ensures HoldsInitial(g, base, Overwritten(mem, base[x], initial[x]), initial, y)
  {
    if y != x && !InArena(g, y) {
      assert Together(g, x, y) && Disjoint(g, base, x, y);
      OverwrittenElsewhere(mem, base[x], initial[x], base[y], base[y] + |initial[y]|);
    }
  }

  lemma CopyStarts(g: Graph, base: Layout, mem: seq<byte>, initial: map<nat, seq<byte>>, k: nat)
    requires Wellformed(g) && Supplies(g, initial) && Placed(g, base, |mem|) && k < |g.values| &&
      Started(g, base, mem, initial, k)
    requires !InArena(g, g.values[k].group)
    ensures var x := g.values[k].group;
      x in base && x in initial && base[x] + |initial[x]| <= |mem| &&
        Started(g, base, Overwritten(mem, base[x], initial[x]), initial, k + 1)
  {
    var x := g.values[k].group;
    assert IsGroup(g, x);
    forall j | 0 <= j < k + 1
      ensures HoldsInitial(g, base, Overwritten(mem, base[x], initial[x]), initial, g.values[j].group)
    {
      assert IsGroup(g, g.values[j].group);
      CopyKeepsOne(g, base, mem, initial, x, g.values[j].group);
    }
  }

  method FillInitial(g: Graph, base: Layout, memory: array<byte>, planned: set<nat>, initial: map<nat, seq<byte>>)
    requires Wellformed(g) && Supplies(g, initial) && Placed(g, base, memory.Length) &&
      forall x: nat :: x in planned <==> InArena(g, x)
    modifies memory
    ensures StartsWith(g, base, memory[..], initial)
  {
    for k := 0 to |g.values|
      invariant Started(g, base, memory[..], initial, k)
    {
      var x := g.values[k].group;
      assert IsGroup(g, x);
      if x !in planned {
        CopyStarts(g, base, memory[..], initial, k);
        CopyIn(memory, base[x], initial[x]);
      }
    }
    AllStarted(g, base, memory[..], initial);
  }

  /** Allocates the storage of a session and fills the groups outside the arena; arena bytes start arbitrary. */
  method CreateSession(g: Graph, kernels: Kernels, inputs: set<string>, plan: Plan, reuse: bool,
                       initial: map<nat, seq<byte>>)
    returns (session: ExecutionSession)
    requires Compiled(g) && Fills(g, kernels) && PlanOf(g, plan) && Supplies(g, initial)
    ensures session.Valid() && fresh(session) && fresh(session.memory) && !session.current
    ensures session.graph == g && session.kernels == kernels && session.inputs == inputs &&
      FeedsDeps(g.nodes, session.deps)
    ensures Placed(g, session.base, session.memory.Length) &&
      (!reuse ==> Private(g, session.base, session.memory.Length))
    ensures reuse ==> forall k :: 0 <= k < |plan.allocations| ==>
      plan.allocations[k].group in session.base && session.base[plan.allocations[k].group] == plan.allocations[k].offset
    ensures StartsWith(g, session.base, session.memory[..], initial)
  {
    var base, size := AssignStorage(g, plan, reuse);
    var planned := set k | 0 <= k < |plan.allocations| :: plan.allocations[k].group;
    PlannedGroups(g, plan, planned);
    var memory := new byte[size];
    FillInitial(g, base, memory, planned, initial);
    session := new ExecutionSession(g, kernels, inputs, base, memory);
  }

  lemma PlannedGroups(g: Graph, plan: Plan, planned: set<nat>)
    requires PlanOf(g, plan) && planned == set k | 0 <= k < |plan.allocations| :: plan.allocations[k].group
    ensures forall x: nat :: x in planned <==> InArena(g, x)
  {
    PlanAllocates(g, plan);
    forall x: nat | x in planned ensures InArena(g, x) {
      var k :| 0 <= k < |plan.allocations| && plan.allocations[k].group == x;
      assert AllocatesGroup(g, plan.allocations[k]);
    }
  }

  lemma AllStarted(g: Graph, base: Layout, mem: seq<byte>, initial: map<nat, seq<byte>>)
    requires Wellformed(g) && Started(g, base, mem, initial, |g.values|)
    ensures StartsWith(g, base, mem, initial)
  {
    forall x: nat | IsGroup(g, x) && !InArena(g, x)
      ensures x in base && x in initial && base[x] + |initial[x]| <= |mem| &&
        mem[base[x]..base[x] + |initial[x]|] == initial[x]
    {
      var k :| 0 <= k < |g.values| && g.values[k].group == x;
      assert HoldsInitial(g, base, mem, initial, g.values[k].group);
    }
  }

  /**
   Two sessions started from the same contents, one sharing the arena and one not, give the same
   replies to the same calls, as long as no input is the name of a removed relay.
   */
  lemma ArenaRefinesPrivate(g: Graph, kernels: Kernels, inputs: set<string>, shared: Layout, memShared: seq<byte>,
                            private: Layout, memPrivate: seq<byte>, initial: map<nat, seq<byte>>, calls: seq<Call>,
                            statesShared: seq<State>, repliesShared: seq<Reply>, statesPrivate: seq<State>,
                            repliesPrivate: seq<Reply>)
    requires Compiled(g) && DeclaredInputs(g, inputs) && Fills(g, kernels) && Supplies(g, initial)
    requires Placed(g, shared, |memShared|) && StartsWith(g, shared, memShared, initial)
    requires Private(g, private, |memPrivate|) && StartsWith(g, private, memPrivate, initial)
    requires History(g, kernels, inputs, shared, memShared, calls, statesShared, repliesShared)
    requires History(g, kernels, inputs, private, memPrivate, calls, statesPrivate, repliesPrivate)
    ensures repliesShared == repliesPrivate
  {
    PlacedLoads(g, shared, |memShared|);
    PlacedLoads(g, private, |memPrivate|);
    InitialAgrees(g, shared, memShared, private, memPrivate, initial);
    forall n | 0 <= n < |calls| ensures repliesShared[n] == repliesPrivate[n] {
      DeclaredInputsAnswerAlike(g, kernels, inputs, shared, memShared, private, memPrivate, calls, n);
      HistoryIsSpecified(g, kernels, inputs, shared, memShared, calls, statesShared, repliesShared, n);
      HistoryIsSpecified(g, kernels, inputs, private, memPrivate, calls, statesPrivate, repliesPrivate, n);
    }
  }

  /**
   With relays among the inputs, they do so save for reads of an output whose bytes a bind has met
   since the last run.
   */
  lemma ArenaRefinesBesideRelays(g: Graph, kernels: Kernels, inputs: set<string>, shared: Layout, memShared: seq<byte>,
                                 private: Layout, memPrivate: seq<byte>, initial: map<nat, seq<byte>>, calls: seq<Call>,
                                 statesShared: seq<State>, repliesShared: seq<Reply>, statesPrivate: seq<State>,
                                 repliesPrivate: seq<Reply>, n: nat)
    requires Compiled(g) && Fills(g, kernels) && Supplies(g, initial)
    requires Placed(g, shared, |memShared|) && StartsWith(g, shared, memShared, initial)
    requires Private(g, private, |memPrivate|) && StartsWith(g, private, memPrivate, initial)
    requires History(g, kernels, inputs, shared, memShared, calls, statesShared, repliesShared)
    requires History(g, kernels, inputs, private, memPrivate, calls, statesPrivate, repliesPrivate)
    requires n < |calls|
    requires calls[n].Read? && calls[n].name in g.outputs ==>
      Untouched(g, inputs, shared, private, calls, n, ValueOf(g, calls[n].name))
    ensures repliesShared[n] == repliesPrivate[n]
  {
    CompiledIsChecked(g);
    PlacedLoads(g, shared, |memShared|);
    PlacedLoads(g, private, |memPrivate|);
    InitialAgrees(g, shared, memShared, private, memPrivate, initial);
    SessionsAnswerAlike(g, kernels, inputs, shared, memShared, private, memPrivate, calls, n);
    HistoryIsSpecified(g, kernels, inputs, shared, memShared, calls, statesShared, repliesShared, n);
    HistoryIsSpecified(g, kernels, inputs, private, memPrivate, calls, statesPrivate, repliesPrivate, n);
  }
}
