/**
 A graph on which the arena session and the session with separate buffers disagree: a chain
 of three nodes, the first of whose outputs once had a relay. The relay is gone, but its name
 still views the storage of the first group, is produced by no node, and can be bound.
 */
module StaleRelay {
  import opened Wrappers
  import opened GraphOrder
  import opened MemoryPlan
  import opened Arena
  import opened Session
  import opened Compile
  import opened Replay

  const VALUES: seq<Value> :=
    [Value("x", 0, 1, 0, true), Value("a", 1, 1, 0, false), Value("relay", 1, 1, 0, false), Value("b", 2, 1, 0, false),
      Value("y", 3, 1, 0, false)]

  const NODES: seq<NodeDesc> := [NodeDesc("first", ["x"], ["a"]), NodeDesc("second", ["a"], ["b"]),
    NodeDesc("third", ["b"], ["y"])]

  const CHAIN: Graph := Graph(VALUES, NODES, [Kernel([]), Kernel([]), Kernel([])], ["y"])

  lemma ChainNames()
    ensures NamesDistinct(VALUES)
    ensures Named(VALUES) == map["x" := VALUES[0], "a" := VALUES[1], "relay" := VALUES[2], "b" := VALUES[3],
      "y" := VALUES[4]]
  {
    var v := VALUES;
    assert v[..|v| - 1] == v[..4] && v[..4][..3] == v[..3] && v[..3][..2] == v[..2] && v[..2][..1] == v[..1] &&
      v[..1][..0] == [];
    assert Named(v[..1]) == map["x" := v[0]];
    assert Named(v[..2]) == map["x" := v[0], "a" := v[1]];
    assert Named(v[..3]) == map["x" := v[0], "a" := v[1], "relay" := v[2]];
    assert Named(v[..4]) == map["x" := v[0], "a" := v[1], "relay" := v[2], "b" := v[3]];
  }

  lemma ChainIsBuildable()
    ensures Wellformed(CHAIN)
  {
    ChainNames();
    forall i | 0 <= i < |NODES| ensures NodeResolved(Named(VALUES), NODES[i]) {}
  }

  lemma ChainNodeEvents()
    requires Buildable(VALUES, NODES, ["y"])
    ensures NODES[..3] == NODES
    ensures NodeEvents(Named(VALUES), NODES, 3) == [Writes(1, 0), Reads(0, 0), Writes(2, 1), Reads(1, 1), Writes(3, 2),
      Reads(2, 2)]
  {
    ChainNames();
    var named := Named(VALUES);
    assert NODES[..1] == [NODES[0]] && NODES[..2] == [NODES[0], NODES[1]] && NODES[..3] == NODES;
    assert ["x"][..0] == [] && ["a"][..0] == [] && ["b"][..0] == [];
    assert NodeEvents(named, NODES, 0) == [];
    assert NodeEvents(named, NODES, 1) == [Writes(1, 0), Reads(0, 0)];
    assert NodeEvents(named, NODES, 2) == [Writes(1, 0), Reads(0, 0), Writes(2, 1), Reads(1, 1)];
  }

  const EVENTS: seq<Event> :=
    [Holds(0, 1, true), Holds(1, 1, false), Holds(1, 1, false), Holds(2, 1, false), Holds(3, 1, false),
     Writes(1, 0), Reads(0, 0), Writes(2, 1), Reads(1, 1), Writes(3, 2), Reads(2, 2), Visible(3, 3)]

  lemma ChainEvents()
    requires Buildable(VALUES, NODES, ["y"])
    ensures PlanEvents(VALUES, NODES, ["y"]) == EVENTS
  {
    ChainNames();
    ChainNodeEvents();
    assert ValueEvents(VALUES) == [Holds(0, 1, true), Holds(1, 1, false), Holds(1, 1, false), Holds(2, 1, false),
      Holds(3, 1, false)];
    assert VisibleEvents(Named(VALUES), ["y"], 3) == [Visible(3, 3)];
  }

  lemma ChainHeld()
    ensures Lives(EVENTS[..5]) ==
      map[0 := Lifetime(1, 0, 0, false, true, false), 1 := Lifetime(1, 0, 0, false, false, false),
          2 := Lifetime(1, 0, 0, false, false, false), 3 := Lifetime(1, 0, 0, false, false, false)]
  {
    var e := EVENTS;
    assert e[..5][..4] == e[..4] && e[..4][..3] == e[..3] && e[..3][..2] == e[..2] && e[..2][..1] == e[..1] &&
      e[..1][..0] == [];
    var seed, held := Lifetime(1, 0, 0, false, true, false), Lifetime(1, 0, 0, false, false, false);
    assert Lives(e[..1]) == map[0 := seed];
    assert Lives(e[..2]) == map[0 := seed, 1 := held];
    assert Lives(e[..3]) == map[0 := seed, 1 := held];
    assert Lives(e[..4]) == map[0 := seed, 1 := held, 2 := held];
  }

  const SEED := Lifetime(1, 0, 0, false, true, true)
  const FIRST := Lifetime(1, 0, 1, true, false, true)

  lemma ChainStarted()
    ensures Lives(EVENTS[..8]) ==
      map[0 := SEED, 1 := Lifetime(1, 0, 0, true, false, true), 2 := Lifetime(1, 1, 1, true, false, true),
        3 := Lifetime(1, 0, 0, false, false, false)]
  {
    var e := EVENTS;
    ChainHeld();
    assert e[..6][..5] == e[..5] && e[..7][..6] == e[..6] && e[..8][..7] == e[..7];
    var held, a0 := Lifetime(1, 0, 0, false, false, false), Lifetime(1, 0, 0, true, false, true);
    assert Lives(e[..6]) == map[0 := Lifetime(1, 0, 0, false, true, false), 1 := a0, 2 := held, 3 := held];
    assert Lives(e[..7]) == map[0 := SEED, 1 := a0, 2 := held, 3 := held];
  }

  lemma ChainTouched()
    ensures Lives(EVENTS) == map[0 := SEED, 1 := FIRST, 2 := Lifetime(1, 1, 2, true, false, true),
      3 := Lifetime(1, 2, 3, true, false, true)]
  {
    var e := EVENTS;
    ChainStarted();
    assert e[..9][..8] == e[..8] && e[..10][..9] == e[..9] && e[..11][..10] == e[..10] && e[..|e| - 1] == e[..11];
    var b1, b, y2 := Lifetime(1, 1, 1, true, false, true), Lifetime(1, 1, 2, true, false, true),
      Lifetime(1, 2, 2, true, false, true);
    assert Lives(e[..9]) == map[0 := SEED, 1 := FIRST, 2 := b1, 3 := Lifetime(1, 0, 0, false, false, false)];
    assert Lives(e[..10]) == map[0 := SEED, 1 := FIRST, 2 := b1, 3 := y2];
    assert Lives(e[..11]) == map[0 := SEED, 1 := FIRST, 2 := b, 3 := y2];
  }

  lemma ChainIsOrdered()
    ensures UniqueProducers(NODES) && Forwards(NODES)
  {
    forall i: nat, j: nat | Feeds(NODES, j, i) ensures j < i {}
  }

  // Each node reads what the one before it produces; the first reads the seeded input.
  lemma ChainIsPinned(i: nat)
    requires Wellformed(CHAIN) && i < 3
    ensures ReadsPinned(CHAIN, i) && EffectDeclared(CHAIN, i) && Made(CHAIN, "y")
  {
    assert NodeResolved(Named(VALUES), NODES[i]);
    if i == 0 {
      ChainNames();
    } else {
      assert NODES[i].inputs[0] in CHAIN.nodes[i - 1].outputs;
    }
    assert "y" in CHAIN.nodes[2].outputs;
  }

  lemma ChainIsCompiled()
    ensures Compiled(CHAIN)
  {
    ChainNames();
    ChainIsBuildable();
    ChainIsOrdered();
    forall i | 0 <= i < 3
      ensures ReadsPinned(CHAIN, i) && EffectDeclared(CHAIN, i) && Made(CHAIN, "y")
    {
      ChainIsPinned(i);
    }
    ChainIsPinned(0);
    assert InputsPresent(NODES, Named(VALUES).Keys);
  }

  const INTERVALS: seq<Allocation> := [Allocation(1, 0, 1, 0, 1), Allocation(2, 0, 1, 1, 2), Allocation(3, 0, 1, 2, 3)]

  lemma ChainIntervals()
    requires Buildable(VALUES, NODES, ["y"])
    ensures Intervals(INTERVALS, Lives(PlanEvents(VALUES, NODES, ["y"])))
  {
    ChainEvents();
    ChainTouched();
  }

  /** In every plan of the chain, the output takes over the slot of the first node's group. */
  lemma ChainPlan(plan: Plan)
    requires Buildable(VALUES, NODES, ["y"]) && PlanFor(VALUES, NODES, ["y"], plan)
    ensures |plan.allocations| == 3 && plan.allocations[0].group == 1 && plan.allocations[2].group == 3
    ensures plan.allocations[0].offset == plan.allocations[2].offset
  {
    ChainIntervals();
    var intervals :| Intervals(intervals, Lives(PlanEvents(VALUES, NODES, ["y"]))) && plan == PlaceAll(intervals).plan;
    SortedIsUnique(intervals, INTERVALS);
    OutputReusesFirstSlot();
  }

  // Arena groups stand where the plan puts them.
  ghost predicate Follows(base: Layout, plan: Plan) {
    forall k :: 0 <= k < |plan.allocations| ==>
      (plan.allocations[k].group in base && base[plan.allocations[k].group] == plan.allocations[k].offset)
  }

  // The relay's name is an input that no node produces, and accepts any byte.
  lemma RelayIsBindable(data: seq<byte>)
    requires |data| == 1
    ensures Bindable(CHAIN, {"x", "relay"}, "relay", data) && !Made(CHAIN, "relay")
  {
    ChainNames();
  }

  lemma RelayMeetsOutput(plan: Plan, base: Layout)
    requires Wellformed(CHAIN) && PlanFor(VALUES, NODES, ["y"], plan) && Follows(base, plan)
    ensures "relay" in Named(CHAIN.values) && ValueOf(CHAIN, "relay").group in base
    ensures !Spares(base, ValueOf(CHAIN, "relay"), ValueOf(CHAIN, "y"))
  {
    ChainNames();
    ChainPlan(plan);
    assert plan.allocations[0].group in base && plan.allocations[2].group in base;
    assert ValueOf(CHAIN, "relay") == VALUES[2] && ValueOf(CHAIN, "y") == VALUES[4];
  }

  /** The chain is a graph that compiles. */
  lemma ChainIsLoaded(base: Layout, size: nat)
    requires Wellformed(CHAIN) && Placed(CHAIN, base, size)
    ensures Compiled(CHAIN) && Checked(CHAIN) && Loaded(CHAIN, base, size)
  {
    ChainIsCompiled();
    CompiledIsChecked(CHAIN);
    PlacedLoads(CHAIN, base, size);
  }

  /**
   Whatever a session that follows the plan of the chain and one with separate buffers
   hold, some byte bound to the relay's name makes their outputs differ.
   */
  lemma RelayTellsThemApart(plan: Plan, shared: Layout, memShared: seq<byte>, private: Layout, memPrivate: seq<byte>)
    returns (data: seq<byte>)
    requires Wellformed(CHAIN) && PlanFor(VALUES, NODES, ["y"], plan) && Follows(shared, plan)
    requires Placed(CHAIN, shared, |memShared|) && Private(CHAIN, private, |memPrivate|)
    ensures Compiled(CHAIN) && "relay" in Named(CHAIN.values) && "y" in Named(CHAIN.values)
    ensures Loaded(CHAIN, shared, |memShared|) && Loaded(CHAIN, private, |memPrivate|)
    ensures Bindable(CHAIN, {"x", "relay"}, "relay", data) && |data| == ValueOf(CHAIN, "relay").bytes
    ensures !StaysEqual(CHAIN, shared, memShared, private, memPrivate, "relay", data, "y")
  {
    PrivateIsPlaced(CHAIN, private, |memPrivate|);
    ChainIsLoaded(shared, |memShared|);
    ChainIsLoaded(private, |memPrivate|);
    RelayMeetsOutput(plan, shared);
    OneByte();
    assert CHAIN.outputs[0] == "y";
    data := MeetingShows(CHAIN, shared, memShared, private, memPrivate, "relay", 0);
    RelayIsBindable(data);
  }

  lemma OneByte()
    ensures "relay" in Named(CHAIN.values) && "y" in Named(CHAIN.values) && ValueOf(CHAIN, "relay").bytes == 1
  {
    ChainNames();
  }
}
