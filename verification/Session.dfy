/**
 Execution sessions: storage assignment, input binding, the serial run and output
 reads, and the refinement between a session that shares the arena and one that
 gives every alias group its own buffer.
 */
module Session {
  import opened Wrappers
  import opened MemoryPlan
  import opened Arena

  // ---- What a caller can do, and what a session answers ----

  datatype Call = Bind(name: string, data: seq<byte>) | Run | Read(name: string)

  // A read is only promised to be meaningful after a run that succeeded; otherwise it is Stale.
  datatype Reply = Status(ok: bool) | Bytes(data: seq<byte>) | Missing | Stale

  datatype State = State(mem: seq<byte>, current: bool)

  predicate Bindable(g: Graph, inputs: set<string>, name: string, data: seq<byte>) {
    name in inputs && name in Named(g.values) && |data| == Named(g.values)[name].bytes
  }

  function AfterCall(g: Graph, kernels: Kernels, inputs: set<string>, base: Layout, s: State, call: Call): (r: State)
    requires Wellformed(g) && Fills(g, kernels) && Loaded(g, base, |s.mem|)
    ensures |r.mem| == |s.mem|
  {
    match call
    case Bind(name, data) =>
      if Bindable(g, inputs, name, data) then
        NamedLoaded(g, base, |s.mem|, name);
        s.(mem := Store(base, s.mem, ValueOf(g, name), data))
      else s
    case Run => var r := RunNodes(g, kernels, base, s.mem, |g.nodes|); State(r.mem, r.ok)
    case Read(_) => s
  }

  function ReplyTo(g: Graph, kernels: Kernels, inputs: set<string>, base: Layout, s: State, call: Call): Reply
    requires Wellformed(g) && Fills(g, kernels) && Loaded(g, base, |s.mem|)
  {
    match call
    case Bind(name, data) => Status(Bindable(g, inputs, name, data))
    case Run => Status(RunNodes(g, kernels, base, s.mem, |g.nodes|).ok)
    case Read(name) =>
      if name !in g.outputs then Missing
      else if !s.current then Stale
      else
        assert name in Named(g.values) by { var k :| 0 <= k < |g.outputs| && g.outputs[k] == name; }
        NamedLoaded(g, base, |s.mem|, name);
        Bytes(Load(base, s.mem, ValueOf(g, name)))
  }

  // The state after the first n calls.
  function StateAfter(g: Graph, kernels: Kernels, inputs: set<string>, base: Layout, mem: seq<byte>, calls: seq<Call>,
                      n: nat): (r: State)
    requires Wellformed(g) && Fills(g, kernels) && Loaded(g, base, |mem|) && n <= |calls|
    ensures |r.mem| == |mem|
  {
    if n == 0 then State(mem, false)
    else AfterCall(g, kernels, inputs, base, StateAfter(g, kernels, inputs, base, mem, calls, n - 1), calls[n - 1])
  }

  // ---- The refinement ----

  // The byte ranges of the two values do not meet under this placement.
  ghost predicate Apart(base: Layout, o: Value, v: Value)
    requires v.group in base
  {
    o.group in base &&
    (base[o.group] + o.offset + o.bytes <= base[v.group] + v.offset ||
      base[v.group] + v.offset + v.bytes <= base[o.group] + o.offset)
  }

  // Overwriting v under this placement leaves o alone, unless the two are of one group.
  ghost predicate Spares(base: Layout, v: Value, o: Value)
    requires v.group in base
  {
    o.group == v.group || o.bytes == 0 || v.bytes == 0 || Apart(base, o, v)
  }

  ghost predicate SparesBoth(g: Graph, a: Layout, b: Layout, name: string, o: Value)
    requires name in Named(g.values)
  {
    var v := ValueOf(g, name);
    v.group in a && v.group in b && Spares(a, v, o) && Spares(b, v, o)
  }

  // Nothing bound since the last of the first n calls that was a run meets the bytes of o.
  ghost predicate Untouched(g: Graph, inputs: set<string>, a: Layout, b: Layout, calls: seq<Call>, n: nat, o: Value)
    requires n <= |calls|
  {
    n == 0 ||
    match calls[n - 1]
    case Bind(name, data) => (Bindable(g, inputs, name, data) ==> SparesBoth(g, a, b, name, o)) &&
      Untouched(g, inputs, a, b, calls, n - 1, o)
    case Run => true
    case Read(_) => Untouched(g, inputs, a, b, calls, n - 1, o)
  }

  // What two sessions share between calls.
  ghost predicate Coupled(g: Graph, a: Layout, sa: State, b: Layout, sb: State)
    requires Wellformed(g)
  {
    sa.current == sb.current && Agree(KeptCells(g), a, sa.mem, b, sb.mem)
  }

  // They hold the same bytes of o, once a run has succeeded.
  ghost predicate Shows(a: Layout, sa: State, b: Layout, sb: State, o: Value) {
    sa.current ==> Agree(Range(o), a, sa.mem, b, sb.mem)
  }

  ghost predicate TwoPlacements(g: Graph, a: Layout, sizeA: nat, b: Layout, sizeB: nat) {
    Checked(g) && Placed(g, a, sizeA) && Placed(g, b, sizeB) && Loaded(g, a, sizeA) && Loaded(g, b, sizeB)
  }

  // A write is clear of everything outside the arena but its own group.
  lemma KeptIsClear(g: Graph, base: Layout, size: nat, name: string)
    requires Checked(g) && Placed(g, base, size) && name in Named(g.values) && ValueOf(g, name).group in base
    ensures Clear(KeptCells(g), base, ValueOf(g, name))
  {
    var v := ValueOf(g, name);
    NamedInGroup(g, name);
    forall c | c in KeptCells(g) && c.group != v.group && c.group in base
      ensures base[c.group] + c.at < base[v.group] + v.offset ||
        base[v.group] + v.offset + v.bytes <= base[c.group] + c.at
    {
      UsedIsGroup(g, c.group);
      assert Together(g, c.group, v.group);
      assert Disjoint(g, base, c.group, v.group);
    }
  }

  lemma BindKeepsCoupled(g: Graph, a: Layout, sa: State, b: Layout, sb: State, name: string, data: seq<byte>)
    requires TwoPlacements(g, a, |sa.mem|, b, |sb.mem|) && Coupled(g, a, sa, b, sb)
    requires name in Named(g.values) && |data| == ValueOf(g, name).bytes
    ensures var v := ValueOf(g, name);
      v.group in a && v.group in b && a[v.group] + v.offset + v.bytes <= |sa.mem| &&
        b[v.group] + v.offset + v.bytes <= |sb.mem| &&
      Coupled(g, a, sa.(mem := Store(a, sa.mem, v, data)), b, sb.(mem := Store(b, sb.mem, v, data)))
  {
    var v := ValueOf(g, name);
    NamedLoaded(g, a, |sa.mem|, name);
    NamedLoaded(g, b, |sb.mem|, name);
    KeptIsClear(g, a, |sa.mem|, name);
    KeptIsClear(g, b, |sb.mem|, name);
    AgreeingStore(KeptCells(g), a, sa.mem, b, sb.mem, v, data);
    AgreeLess(KeptCells(g), KeptCells(g) + Range(v), a, Store(a, sa.mem, v, data), b, Store(b, sb.mem, v, data));
  }

  lemma SparesIsClear(base: Layout, v: Value, o: Value)
    requires v.group in base && Spares(base, v, o)
    ensures v.bytes > 0 ==> Clear(Range(o), base, v)
  {
  }

  lemma BindKeepsShown(g: Graph, a: Layout, sa: State, b: Layout, sb: State, name: string, data: seq<byte>, o: Value)
    requires Wellformed(g) && Loaded(g, a, |sa.mem|) && Loaded(g, b, |sb.mem|) && Shows(a, sa, b, sb, o)
    requires name in Named(g.values) && |data| == ValueOf(g, name).bytes && SparesBoth(g, a, b, name, o)
    ensures var v := ValueOf(g, name);
      a[v.group] + v.offset + v.bytes <= |sa.mem| && b[v.group] + v.offset + v.bytes <= |sb.mem| &&
      Shows(a, sa.(mem := Store(a, sa.mem, v, data)), b, sb.(mem := Store(b, sb.mem, v, data)), o)
  {
    var v := ValueOf(g, name);
    NamedLoaded(g, a, |sa.mem|, name);
    NamedLoaded(g, b, |sb.mem|, name);
    var ma, mb := Store(a, sa.mem, v, data), Store(b, sb.mem, v, data);
    if sa.current && v.bytes > 0 {
      SparesIsClear(a, v, o);
      SparesIsClear(b, v, o);
      AgreeingStore(Range(o), a, sa.mem, b, sb.mem, v, data);
      AgreeLess(Range(o), Range(o) + Range(v), a, ma, b, mb);
    } else if sa.current {
      assert ma == sa.mem && mb == sb.mem;
    }
  }

  lemma RunKeepsCoupled(g: Graph, kernels: Kernels, a: Layout, sa: State, b: Layout, sb: State)
    requires TwoPlacements(g, a, |sa.mem|, b, |sb.mem|) && Coupled(g, a, sa, b, sb) && Fills(g, kernels)
    ensures var ra, rb := RunNodes(g, kernels, a, sa.mem, |g.nodes|), RunNodes(g, kernels, b, sb.mem, |g.nodes|);
      ra.ok == rb.ok && Coupled(g, a, State(ra.mem, ra.ok), b, State(rb.mem, rb.ok)) &&
      forall k :: 0 <= k < |g.outputs| ==>
        Shows(a, State(ra.mem, ra.ok), b, State(rb.mem, rb.ok), ValueOf(g, g.outputs[k]))
  {
    var n := |g.nodes|;
    RunAgrees(g, kernels, a, sa.mem, b, sb.mem, n);
    var ra, rb := RunNodes(g, kernels, a, sa.mem, n), RunNodes(g, kernels, b, sb.mem, n);
    forall k | 0 <= k < |g.outputs|
      ensures Shows(a, State(ra.mem, ra.ok), b, State(rb.mem, rb.ok), ValueOf(g, g.outputs[k]))
    {
      OutputsAreDue(g, k);
      if ra.ok { AgreeLess(Range(ValueOf(g, g.outputs[k])), Due(g, n, n), a, ra.mem, b, rb.mem); }
    }
  }

  lemma CallKeepsCoupled(g: Graph, kernels: Kernels, inputs: set<string>, a: Layout, sa: State, b: Layout, sb: State,
                         call: Call)
    requires TwoPlacements(g, a, |sa.mem|, b, |sb.mem|) && Coupled(g, a, sa, b, sb) && Fills(g, kernels)
    ensures Coupled(g, a, AfterCall(g, kernels, inputs, a, sa, call), b, AfterCall(g, kernels, inputs, b, sb, call))
    ensures !call.Read? ==> ReplyTo(g, kernels, inputs, a, sa, call) == ReplyTo(g, kernels, inputs, b, sb, call)
  {
    match call
    case Bind(name, data) => if Bindable(g, inputs, name, data) { BindKeepsCoupled(g, a, sa, b, sb, name, data); }
    case Run => RunKeepsCoupled(g, kernels, a, sa, b, sb);
    case Read(_) =>
  }

  lemma {:induction false} StaysCoupled(g: Graph, kernels: Kernels, inputs: set<string>, a: Layout, memA: seq<byte>,
    b: Layout, memB: seq<byte>,
                                       calls: seq<Call>, n: nat)
    requires TwoPlacements(g, a, |memA|, b, |memB|) && Fills(g, kernels) && Agree(KeptCells(g), a, memA, b, memB) &&
      n <= |calls|
    ensures Coupled(g, a, StateAfter(g, kernels, inputs, a, memA, calls, n), b,
      StateAfter(g, kernels, inputs, b, memB, calls, n))
  {
    if n > 0 {
      StaysCoupled(g, kernels, inputs, a, memA, b, memB, calls, n - 1);
      CallKeepsCoupled(g, kernels, inputs, a, StateAfter(g, kernels, inputs, a, memA, calls, n - 1), b,
        StateAfter(g, kernels, inputs, b, memB, calls, n - 1), calls[n - 1]);
    }
  }

  lemma CallKeepsShown(g: Graph, kernels: Kernels, inputs: set<string>, a: Layout, sa: State, b: Layout, sb: State,
                       call: Call, k: nat)
    requires TwoPlacements(g, a, |sa.mem|, b, |sb.mem|) && Coupled(g, a, sa, b, sb) && Fills(g, kernels) &&
      k < |g.outputs|
    requires call.Run? || Shows(a, sa, b, sb, ValueOf(g, g.outputs[k]))
    requires call.Bind? && Bindable(g, inputs, call.name, call.data) ==>
      SparesBoth(g, a, b, call.name, ValueOf(g, g.outputs[k]))
    ensures Shows(a, AfterCall(g, kernels, inputs, a, sa, call), b, AfterCall(g, kernels, inputs, b, sb, call),
      ValueOf(g, g.outputs[k]))
  {
    match call
    case Bind(name, data) =>
      if Bindable(g, inputs, name, data) { BindKeepsShown(g, a, sa, b, sb, name, data, ValueOf(g, g.outputs[k])); }
    case Run => RunKeepsCoupled(g, kernels, a, sa, b, sb);
    case Read(_) =>
  }

  lemma {:induction false} StaysShown(g: Graph, kernels: Kernels, inputs: set<string>, a: Layout, memA: seq<byte>,
    b: Layout, memB: seq<byte>,
                                      calls: seq<Call>, n: nat, k: nat)
    requires TwoPlacements(g, a, |memA|, b, |memB|) && Fills(g, kernels) && Agree(KeptCells(g), a, memA, b, memB) &&
      n <= |calls|
    requires k < |g.outputs| && Untouched(g, inputs, a, b, calls, n, ValueOf(g, g.outputs[k]))
    ensures Shows(a, StateAfter(g, kernels, inputs, a, memA, calls, n), b,
      StateAfter(g, kernels, inputs, b, memB, calls, n), ValueOf(g, g.outputs[k]))
  {
    if n > 0 {
      StaysCoupled(g, kernels, inputs, a, memA, b, memB, calls, n - 1);
      if !calls[n - 1].Run? { StaysShown(g, kernels, inputs, a, memA, b, memB, calls, n - 1, k); }
      CallKeepsShown(g, kernels, inputs, a, StateAfter(g, kernels, inputs, a, memA, calls, n - 1), b,
        StateAfter(g, kernels, inputs, b, memB, calls, n - 1), calls[n - 1], k);
    }
  }

  lemma ShownIsRead(g: Graph, kernels: Kernels, inputs: set<string>, a: Layout, sa: State, b: Layout, sb: State, k: nat)
    requires TwoPlacements(g, a, |sa.mem|, b, |sb.mem|) && sa.current == sb.current && Fills(g, kernels) &&
      k < |g.outputs|
    requires Shows(a, sa, b, sb, ValueOf(g, g.outputs[k]))
    ensures ReplyTo(g, kernels, inputs, a, sa, Read(g.outputs[k])) == ReplyTo(g, kernels, inputs, b, sb,
      Read(g.outputs[k]))
  {
    if sa.current {
      NamedLoaded(g, a, |sa.mem|, g.outputs[k]);
      NamedLoaded(g, b, |sb.mem|, g.outputs[k]);
      AgreeingLoad(Range(ValueOf(g, g.outputs[k])), a, sa.mem, b, sb.mem, ValueOf(g, g.outputs[k]));
    }
  }

  // Two sessions give the same answer to the n-th of the calls.
  ghost predicate AnswerAlike(g: Graph, kernels: Kernels, inputs: set<string>, a: Layout, memA: seq<byte>,
                              b: Layout, memB: seq<byte>, calls: seq<Call>, n: nat)
    requires Wellformed(g) && Fills(g, kernels) && Loaded(g, a, |memA|) && Loaded(g, b, |memB|) && n < |calls|
  {
    ReplyTo(g, kernels, inputs, a, StateAfter(g, kernels, inputs, a, memA, calls, n), calls[n]) ==
    ReplyTo(g, kernels, inputs, b, StateAfter(g, kernels, inputs, b, memB, calls, n), calls[n])
  }

  /**
   Arena refinement. Over any sequence of binds, runs and reads, two sessions whose
   placements respect the lifetimes answer every bind and every run alike, whatever stale
   bytes they started with; and every read of an output whose bytes no bind since the last
   run has met. In particular the shared arena answers like separate buffers.
   */
  lemma SessionsAnswerAlike(g: Graph, kernels: Kernels, inputs: set<string>, a: Layout, memA: seq<byte>, b: Layout,
                            memB: seq<byte>,
                            calls: seq<Call>, n: nat)
    requires TwoPlacements(g, a, |memA|, b, |memB|) && Fills(g, kernels) && Agree(KeptCells(g), a, memA, b, memB) &&
      n < |calls|
    requires calls[n].Read? && calls[n].name in g.outputs ==>
      Untouched(g, inputs, a, b, calls, n, ValueOf(g, calls[n].name))
    ensures AnswerAlike(g, kernels, inputs, a, memA, b, memB, calls, n)
  {
    var sa, sb := StateAfter(g, kernels, inputs, a, memA, calls, n), StateAfter(g, kernels, inputs, b, memB, calls, n);
    StaysCoupled(g, kernels, inputs, a, memA, b, memB, calls, n);
    CallKeepsCoupled(g, kernels, inputs, a, sa, b, sb, calls[n]);
    if calls[n].Read? && calls[n].name in g.outputs {
      var k :| 0 <= k < |g.outputs| && g.outputs[k] == calls[n].name;
      StaysShown(g, kernels, inputs, a, memA, b, memB, calls, n, k);
      ShownIsRead(g, kernels, inputs, a, sa, b, sb, k);
    }
  }

  // ---- Which bindings spare which outputs ----

  /** Under separate buffers every binding spares every output. */
  lemma PrivateSpares(g: Graph, base: Layout, size: nat, name: string, k: nat)
    requires Wellformed(g) && Private(g, base, size) && name in Named(g.values) && k < |g.outputs|
    ensures ValueOf(g, name).group in base && Spares(base, ValueOf(g, name), ValueOf(g, g.outputs[k]))
  {
    NamedInGroup(g, name);
    NamedInGroup(g, g.outputs[k]);
    assert ValueOf(g, g.outputs[k]).group != ValueOf(g, name).group ==>
      Disjoint(g, base, ValueOf(g, g.outputs[k]).group, ValueOf(g, name).group);
  }

  /**
   Binding a value outside the arena, or one kept to the end of the run, spares every output of a
   placement that respects the lifetimes.
   */
  lemma KeptSpares(g: Graph, base: Layout, size: nat, name: string, k: nat)
    requires Wellformed(g) && Placed(g, base, size) && name in Named(g.values) && k < |g.outputs|
    requires var x := ValueOf(g, name).group; !InArena(g, x) || LifeOf(g, x).last == |g.nodes|
    ensures ValueOf(g, name).group in base && Spares(base, ValueOf(g, name), ValueOf(g, g.outputs[k]))
  {
    var v, o := ValueOf(g, name), ValueOf(g, g.outputs[k]);
    NamedInGroup(g, name);
    NamedInGroup(g, g.outputs[k]);
    LifetimeCovers(g.values, g.nodes, g.outputs, v.group);
    LifetimeCovers(g.values, g.nodes, g.outputs, o.group);
    if o.group != v.group {
      assert Together(g, o.group, v.group);
      assert Disjoint(g, base, o.group, v.group);
    }
  }

  // After binding v to this data, the two sessions hold the same bytes of o.
  ghost predicate StaysEqual(g: Graph, a: Layout, memA: seq<byte>, b: Layout, memB: seq<byte>, name: string,
                             data: seq<byte>, o: string)
    requires Wellformed(g) && Loaded(g, a, |memA|) && Loaded(g, b, |memB|)
    requires name in Named(g.values) && o in Named(g.values) && |data| == ValueOf(g, name).bytes
  {
    NamedLoaded(g, a, |memA|, name);
    NamedLoaded(g, b, |memB|, name);
    NamedLoaded(g, a, |memA|, o);
    NamedLoaded(g, b, |memB|, o);
    Load(a, Store(a, memA, ValueOf(g, name), data), ValueOf(g, o)) == Load(b, Store(b, memB, ValueOf(g, name), data),
      ValueOf(g, o))
  }

  // Overlapping ranges under a, separate ones under b: some data shows the difference.
  lemma OverlapShows(a: Layout, memA: seq<byte>, b: Layout, memB: seq<byte>, o: Value, v: Value)
    returns (data: seq<byte>)
    requires o.group in a && a[o.group] + o.offset + o.bytes <= |memA| && o.group in b &&
      b[o.group] + o.offset + o.bytes <= |memB|
    requires v.group in a && a[v.group] + v.offset + v.bytes <= |memA| && v.group in b &&
      b[v.group] + v.offset + v.bytes <= |memB|
    requires o.bytes > 0 && v.bytes > 0 && !Apart(a, o, v) && Apart(b, o, v)
    ensures |data| == v.bytes && Load(a, Store(a, memA, v, data), o) != Load(b, Store(b, memB, v, data), o)
  {
    // An address both ranges cover under a.
    var at := Max(a[o.group] + o.offset, a[v.group] + v.offset);
    var k := at - (a[o.group] + o.offset);
    var kept: byte := memB[b[o.group] + o.offset + k];
    var other: byte := if kept == 0 then 1 else 0;
    data := seq(v.bytes, _ => other);
    assert Load(a, Store(a, memA, v, data), o)[k] == other;
    assert Load(b, Store(b, memB, v, data), o)[k] == kept;
  }

  lemma MeetingShows(g: Graph, a: Layout, memA: seq<byte>, b: Layout, memB: seq<byte>, name: string, k: nat)
    returns (data: seq<byte>)
    requires TwoPlacements(g, a, |memA|, b, |memB|) && Private(g, b, |memB|) && name in Named(g.values) &&
      k < |g.outputs|
    requires ValueOf(g, name).group in a && !Spares(a, ValueOf(g, name), ValueOf(g, g.outputs[k]))
    ensures |data| == ValueOf(g, name).bytes && !StaysEqual(g, a, memA, b, memB, name, data, g.outputs[k])
  {
    NamedLoaded(g, a, |memA|, name);
    NamedLoaded(g, b, |memB|, name);
    PrivateSpares(g, b, |memB|, name, k);
    NamedLoaded(g, a, |memA|, g.outputs[k]);
    NamedLoaded(g, b, |memB|, g.outputs[k]);
    data := OverlapShows(a, memA, b, memB, ValueOf(g, g.outputs[k]), ValueOf(g, name));
  }

  /**
   BindInput accepts every mutable value no node produces. That includes the name of an
   eliminated relay, whose tensor shares the storage of a produced value. Between a run
   and the next, such a bind leaves an output of an arena session equal to that of
   separate buffers, for every data, exactly when the bound bytes do not meet the output's.
   */
  lemma BindIsSafeExactly(g: Graph, a: Layout, memA: seq<byte>, b: Layout, memB: seq<byte>, name: string, k: nat)
    requires TwoPlacements(g, a, |memA|, b, |memB|) && Private(g, b, |memB|) && name in Named(g.values) &&
      k < |g.outputs|
    requires Agree(Range(ValueOf(g, g.outputs[k])), a, memA, b, memB) && ValueOf(g, name).group in a
    ensures Spares(a, ValueOf(g, name), ValueOf(g, g.outputs[k])) <==>
      forall data: seq<byte> :: |data| == ValueOf(g, name).bytes ==>
        StaysEqual(g, a, memA, b, memB, name, data, g.outputs[k])
  {
    var v, o := ValueOf(g, name), ValueOf(g, g.outputs[k]);
    PrivateSpares(g, b, |memB|, name, k);
    if Spares(a, v, o) {
      forall data: seq<byte> | |data| == v.bytes ensures StaysEqual(g, a, memA, b, memB, name, data, g.outputs[k]) {
        BindKeepsShown(g, a, State(memA, true), b, State(memB, true), name, data, o);
        NamedLoaded(g, a, |memA|, g.outputs[k]);
        NamedLoaded(g, b, |memB|, g.outputs[k]);
        AgreeingLoad(Range(o), a, Store(a, memA, v, data), b, Store(b, memB, v, data), o);
      }
    } else {
      var data := MeetingShows(g, a, memA, b, memB, name, k);
    }
  }

  /** Such relays exist: in a chain of three one-byte groups the output takes over the first group's slot. */
  lemma OutputReusesFirstSlot()
    ensures var plan := PlaceAll([Allocation(1, 0, 1, 0, 1), Allocation(2, 0, 1, 1, 2),
      Allocation(3, 0, 1, 2, 3)]).plan;
      |plan.allocations| == 3 && plan.allocations[0].group == 1 && plan.allocations[2].group == 3 &&
      plan.allocations[0].offset == plan.allocations[2].offset
  {
    var x, y, z := Allocation(1, 0, 1, 0, 1), Allocation(2, 0, 1, 1, 2), Allocation(3, 0, 1, 2, 3);
    assert [x, y, z][..2] == [x, y] && [x, y][..1] == [x] && [x][..0] == [];
    assert PlaceAll([]) == NOTHING_PLACED;
    var p1 := PlaceAll([x]);
    assert p1 == Placement([Slot(0, 64, 1)], [0], Plan(64, 64, [x]));
    var p2 := PlaceAll([x, y]);
    assert Best(p1.slots, 1, 1, 64) == None;
    assert p2 == Placement([Slot(0, 64, 1), Slot(64, 64, 2)], [0, 1], Plan(128, 128, [x, y.(offset := 64)]));
    assert Best(p2.slots, 1, 2, 64) == Some(0);
    assert Best(p2.slots, 2, 2, 64) == Some(0);
  }
}
