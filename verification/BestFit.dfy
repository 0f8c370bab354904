/**
 What a memory plan is, without the slots of the planner: which groups it places, for how long,
 and that each takes the smallest free range or extends the arena.
 */
module BestFit {
  import opened Wrappers
  import opened GraphOrder
  import opened MemoryPlan

  // ---- Ranges that are used again ----

  // The j-th allocation is the first at its offset.
  ghost predicate Opens(a: seq<Allocation>, j: nat) {
    j < |a| && forall l :: 0 <= l < j ==> a[l].offset != a[j].offset
  }

  // Every allocation before the k-th at this offset has ended when the k-th begins.
  ghost predicate Ended(a: seq<Allocation>, offset: nat, k: nat)
    requires k < |a|
  {
    forall l :: 0 <= l < k && a[l].offset == offset ==> a[l].last < a[k].first
  }

  // The range the j-th opened is free and large enough for the k-th.
  ghost predicate Reusable(a: seq<Allocation>, j: nat, k: nat)
    requires k < |a|
  {
    j < k && Opens(a, j) && Rounded(a[k].bytes) <= Rounded(a[j].bytes) && Ended(a, a[j].offset, k)
  }

  // The bytes of the ranges the first k allocations have opened.
  ghost function Opened(a: seq<Allocation>, k: nat): nat
    requires k <= |a|
  {
    if k == 0 then 0 else Opened(a, k - 1) + if Opens(a, k - 1) then Rounded(a[k - 1].bytes) else 0
  }

  // The k-th allocation takes the range that the j-th opened, and no smaller one could be used.
  ghost predicate Takes(a: seq<Allocation>, j: nat, k: nat)
    requires k < |a|
  {
    Reusable(a, j, k) && a[k].offset == a[j].offset &&
    forall i: nat :: Reusable(a, i, k) ==>
      Rounded(a[j].bytes) < Rounded(a[i].bytes) ||
        (Rounded(a[j].bytes) == Rounded(a[i].bytes) && a[j].offset <= a[i].offset)
  }

  // It takes the smallest range it can use, the lowest of these, or else what follows all ranges.
  ghost predicate FitsBest(a: seq<Allocation>, k: nat)
    requires k < |a|
  {
    (exists j: nat :: Takes(a, j, k)) || ((forall j: nat :: !Reusable(a, j, k)) && a[k].offset == Opened(a, k))
  }

  ghost predicate AllFitBest(a: seq<Allocation>) { forall k: nat :: k < |a| ==> FitsBest(a, k) }

  // ---- What is added later changes nothing ----

  lemma OpensStill(a: seq<Allocation>, x: Allocation, j: nat)
    requires j < |a|
    ensures Opens(a + [x], j) <==> Opens(a, j)
  {
    var b := a + [x];
    if Opens(b, j) {
      forall l | 0 <= l < j ensures a[l].offset != a[j].offset { assert b[l].offset != b[j].offset; }
    }
  }

  lemma ReusableStill(a: seq<Allocation>, x: Allocation, j: nat, k: nat)
    requires k < |a|
    ensures Reusable(a + [x], j, k) <==> Reusable(a, j, k)
  {
    var b := a + [x];
    if j < k {
      OpensStill(a, x, j);
      if Ended(b, a[j].offset, k) {
        forall l | 0 <= l < k && a[l].offset == a[j].offset ensures a[l].last < a[k].first { assert b[l] == a[l]; }
      }
    }
  }

  lemma {:induction false} OpenedStill(a: seq<Allocation>, x: Allocation, k: nat)
    requires k <= |a|
    ensures Opened(a + [x], k) == Opened(a, k)
  {
    if k > 0 {
      OpenedStill(a, x, k - 1);
      OpensStill(a, x, k - 1);
    }
  }

  lemma FitsBestStill(a: seq<Allocation>, x: Allocation, k: nat)
    requires k < |a| && FitsBest(a, k)
    ensures FitsBest(a + [x], k)
  {
    var b := a + [x];
    forall j: nat ensures Reusable(b, j, k) <==> Reusable(a, j, k) { ReusableStill(a, x, j, k); }
    if j: nat :| Takes(a, j, k) {
      assert Takes(b, j, k);
    } else {
      OpenedStill(a, x, k);
    }
  }

  // ---- The slots of the planner are the open ranges ----

  // Slot s was opened by allocation j, whose size it has, and last used by allocation l.
  ghost predicate SlotUsed(p: Placement, s: nat, j: nat, l: nat)
    requires s < |p.slots| && |p.place| == |p.plan.allocations|
  {
    j < |p.place| && p.place[j] == s && Opens(p.plan.allocations, j) &&
    Rounded(p.plan.allocations[j].bytes) == p.slots[s].bytes > 0 &&
    l < |p.place| && p.place[l] == s && p.plan.allocations[l].last == p.slots[s].last
  }

  ghost predicate InUse(p: Placement, s: nat)
    requires s < |p.slots| && |p.place| == |p.plan.allocations|
  {
    exists j: nat, l: nat :: SlotUsed(p, s, j, l)
  }

  ghost predicate Slotted(p: Placement) {
    Tiled(p.slots, p.plan.arena) && Stacked(p) &&
    (forall s: nat :: s < |p.slots| ==> InUse(p, s)) &&
    Opened(p.plan.allocations, |p.plan.allocations|) == p.plan.arena
  }

  // Slots differ by their offsets.
  lemma SlotsApart(p: Placement, s: nat, t: nat)
    requires Slotted(p) && s < |p.slots| && t < |p.slots| && p.slots[s].offset == p.slots[t].offset
    ensures s == t && p.slots[s].offset < p.plan.arena
  {
    assert InUse(p, s);
    var j: nat, l: nat :| SlotUsed(p, s, j, l);
    assert InUse(p, t);
    var i: nat, m: nat :| SlotUsed(p, t, i, m);
  }

  // A range can be reused exactly if its slot fits.
  lemma SlotFits(p: Placement, x: Allocation, s: nat, j: nat, l: nat)
    requires Slotted(p) && s < |p.slots| && SlotUsed(p, s, j, l)
    ensures Reusable(p.plan.allocations + [x], j, |p.plan.allocations|) <==> Fits(p.slots[s], x.first, Rounded(x.bytes))
    ensures p.plan.allocations[j].offset == p.slots[s].offset
  {
    var a := p.plan.allocations;
    var b, n := a + [x], |a|;
    OpensStill(a, x, j);
    assert InSlot(p, j) && InSlot(p, l);
    assert b[l] == a[l] && b[j] == a[j] && b[n] == x;
    if Fits(p.slots[s], x.first, Rounded(x.bytes)) {
      forall k | 0 <= k < n && b[k].offset == b[j].offset ensures b[k].last < x.first {
        assert InSlot(p, k);
        SlotsApart(p, p.place[k], s);
      }
    }
  }

  // Every range that can be reused belongs to a slot.
  lemma RangeHasSlot(p: Placement, x: Allocation, i: nat) returns (s: nat, l: nat)
    requires Slotted(p) && Reusable(p.plan.allocations + [x], i, |p.plan.allocations|)
    ensures s < |p.slots| && SlotUsed(p, s, i, l)
  {
    var a := p.plan.allocations;
    assert InSlot(p, i);
    s := p.place[i];
    OpensStill(a, x, i);
    assert InUse(p, s);
    var j: nat, m: nat :| SlotUsed(p, s, j, m);
    assert InSlot(p, j);
    assert a[i].offset == a[j].offset;
    assert i == j;
    l := m;
  }

  // The new allocation, with the offset the planner gives it, fits best.
  lemma PlacedFitsBest(p: Placement, interval: Allocation)
    requires Slotted(p)
    ensures FitsBest(PlaceOne(p, interval).plan.allocations, |p.plan.allocations|)
  {
    var a, n, rounded := p.plan.allocations, |p.plan.allocations|, Rounded(interval.bytes);
    var best := Best(p.slots, |p.slots|, interval.first, rounded);
    BestIsSmallest(p.slots, |p.slots|, interval.first, rounded);
    var b := PlaceOne(p, interval).plan.allocations;
    var x := b[n];
    assert b == a + [x] && x.first == interval.first && x.bytes == interval.bytes;
    if best.Some? {
      assert InUse(p, best.value);
      var j: nat, l: nat :| SlotUsed(p, best.value, j, l);
      SlotFits(p, x, best.value, j, l);
      forall i: nat | Reusable(b, i, n)
        ensures Rounded(b[j].bytes) < Rounded(b[i].bytes) ||
          (Rounded(b[j].bytes) == Rounded(b[i].bytes) && b[j].offset <= b[i].offset)
      {
        var s, m := RangeHasSlot(p, x, i);
        SlotFits(p, x, s, i, m);
        assert Fits(p.slots[s], x.first, rounded);
      }
      assert Takes(b, j, n);
    } else {
      forall i: nat ensures !Reusable(b, i, n) {
        if Reusable(b, i, n) {
          var s, m := RangeHasSlot(p, x, i);
          SlotFits(p, x, s, i, m);
        }
      }
      OpenedStill(a, x, n);
    }
  }

  // The bytes opened so far are the arena.
  lemma PlacedOpened(p: Placement, interval: Allocation)
    requires Slotted(p)
    ensures var q := PlaceOne(p, interval);
      Opened(q.plan.allocations, |q.plan.allocations|) == q.plan.arena
  {
    var q, a, n := PlaceOne(p, interval), p.plan.allocations, |p.plan.allocations|;
    var b := q.plan.allocations;
    assert b == a + [b[n]];
    OpenedStill(a, b[n], n);
    var best := Best(p.slots, |p.slots|, interval.first, Rounded(interval.bytes));
    if best.Some? {
      assert InUse(p, best.value);
      var j: nat, l: nat :| SlotUsed(p, best.value, j, l);
      assert InSlot(p, j);
      assert b[j].offset == b[n].offset;
      assert !Opens(b, n);
    } else {
      OpensNew(p, interval);
    }
  }

  // The planner's next step keeps what is known of its slots.
  lemma PlacedSlotted(p: Placement, interval: Allocation)
    requires Slotted(p) && interval.first <= interval.last && interval.bytes > 0
    ensures Slotted(PlaceOne(p, interval))
  {
    var q := PlaceOne(p, interval);
    PlaceOneTiles(p, interval);
    PlaceOneStacks(p, interval);
    forall s: nat | s < |q.slots| ensures InUse(q, s) { SlotStillUsed(p, interval, s); }
    PlacedOpened(p, interval);
  }

  lemma OpensNew(p: Placement, interval: Allocation)
    requires Slotted(p) && Best(p.slots, |p.slots|, interval.first, Rounded(interval.bytes)).None?
    ensures Opens(PlaceOne(p, interval).plan.allocations, |p.plan.allocations|)
  {
    var b := PlaceOne(p, interval).plan.allocations;
    forall l | 0 <= l < |p.plan.allocations| ensures b[l].offset != b[|p.plan.allocations|].offset {
      assert InSlot(p, l);
      SlotsApart(p, p.place[l], p.place[l]);
    }
  }

  lemma SlotStillUsed(p: Placement, interval: Allocation, s: nat)
    requires Slotted(p) && interval.bytes > 0 && s < |PlaceOne(p, interval).slots|
    ensures |PlaceOne(p, interval).place| == |PlaceOne(p, interval).plan.allocations|
    ensures InUse(PlaceOne(p, interval), s)
  {
    var q, a, n := PlaceOne(p, interval), p.plan.allocations, |p.plan.allocations|;
    var b := q.plan.allocations;
    var x := b[n];
    assert b == a + [x];
    if s < |p.slots| {
      assert InUse(p, s);
      var j: nat, l: nat :| SlotUsed(p, s, j, l);
      OpensStill(a, x, j);
      if q.place[n] == s {
        assert SlotUsed(q, s, j, n);
      } else {
        assert SlotUsed(q, s, j, l);
      }
    } else {
      OpensNew(p, interval);
      assert SlotUsed(q, s, n, n);
    }
  }

  lemma PlacedAllFit(p: Placement, interval: Allocation)
    requires Slotted(p) && AllFitBest(p.plan.allocations)
    ensures AllFitBest(PlaceOne(p, interval).plan.allocations)
  {
    var a, b := p.plan.allocations, PlaceOne(p, interval).plan.allocations;
    assert b == a + [b[|a|]];
    PlacedFitsBest(p, interval);
    forall k: nat | k < |b| ensures FitsBest(b, k) {
      if k < |a| { FitsBestStill(a, b[|a|], k); }
    }
  }

  lemma {:induction false} PlacementFitsBest(intervals: seq<Allocation>)
    requires Forward(intervals) && forall k :: 0 <= k < |intervals| ==> intervals[k].bytes > 0
    ensures Slotted(PlaceAll(intervals)) && AllFitBest(PlaceAll(intervals).plan.allocations)
  {
    if intervals != [] {
      var n := |intervals| - 1;
      PlacementFitsBest(intervals[..n]);
      PlacedSlotted(PlaceAll(intervals[..n]), intervals[n]);
      PlacedAllFit(PlaceAll(intervals[..n]), intervals[n]);
    }
  }

  // ---- Which groups are placed, and for how long ----

  ghost predicate OfGroup(values: seq<Value>, name: string, g: nat) {
    name in Named(values) && Named(values)[name].group == g
  }

  ghost predicate Writing(values: seq<Value>, nodes: seq<NodeDesc>, g: nat, i: nat) {
    i < |nodes| && exists v :: v in nodes[i].outputs && OfGroup(values, v, g)
  }

  ghost predicate Reading(values: seq<Value>, nodes: seq<NodeDesc>, g: nat, i: nat) {
    i < |nodes| && exists v :: v in nodes[i].inputs && v != "" && OfGroup(values, v, g)
  }

  ghost predicate Showing(values: seq<Value>, outputs: seq<string>, g: nat) {
    exists v :: v in outputs && OfGroup(values, v, g)
  }

  ghost predicate Holding(values: seq<Value>, g: nat, end: nat, seed: bool) {
    exists v :: v in values && v.group == g && v.offset + v.bytes == end && v.seed == seed
  }

  lemma {:induction false} InputEventsArise(values: seq<Value>, inputs: seq<string>, i: nat, g: nat, j: nat)
    requires ResolvedOrEmpty(Named(values), inputs) && Reads(g, j) in InputEvents(Named(values), inputs, i)
    ensures j == i && exists v :: v in inputs && v != "" && OfGroup(values, v, g)
  {
    var n := |inputs| - 1;
    if Reads(g, j) in InputEvents(Named(values), inputs[..n], i) {
      InputEventsArise(values, inputs[..n], i, g, j);
      var v :| v in inputs[..n] && v != "" && OfGroup(values, v, g);
      assert v in inputs;
    } else {
      assert inputs[n] in inputs && OfGroup(values, inputs[n], g);
    }
  }

  lemma OutputEventsArise(values: seq<Value>, outputs: seq<string>, i: nat, g: nat, j: nat)
    requires Resolved(Named(values), outputs)
    ensures Writes(g, j) in OutputEvents(Named(values), outputs, i) ==>
      j == i && exists v :: v in outputs && OfGroup(values, v, g)
    ensures Visible(g, j) in VisibleEvents(Named(values), outputs, i) ==>
      j == i && exists v :: v in outputs && OfGroup(values, v, g)
  {
    if Writes(g, j) in OutputEvents(Named(values), outputs, i) {
      var k :| 0 <= k < |outputs| && OutputEvents(Named(values), outputs, i)[k] == Writes(g, j);
      assert outputs[k] in outputs && OfGroup(values, outputs[k], g);
    }
    if Visible(g, j) in VisibleEvents(Named(values), outputs, i) {
      var k :| 0 <= k < |outputs| && VisibleEvents(Named(values), outputs, i)[k] == Visible(g, j);
      assert outputs[k] in outputs && OfGroup(values, outputs[k], g);
    }
  }

  lemma {:induction false} NodeEventsArise(values: seq<Value>, nodes: seq<NodeDesc>, n: nat, g: nat, i: nat)
    requires n <= |nodes| && NodesResolved(Named(values), nodes[..n])
    ensures Writes(g, i) in NodeEvents(Named(values), nodes, n) ==> Writing(values, nodes, g, i)
    ensures Reads(g, i) in NodeEvents(Named(values), nodes, n) ==> Reading(values, nodes, g, i)
  {
    if n > 0 {
      var named, node := Named(values), nodes[n - 1];
      assert nodes[..n - 1] == nodes[..n][..n - 1] && NodeResolved(named, nodes[..n][n - 1]);
      NodeEventsArise(values, nodes, n - 1, g, i);
      OutputEventsArise(values, node.outputs, n - 1, g, i);
      InputEventsHave(named, node.inputs, n - 1);
      if Reads(g, i) in InputEvents(named, node.inputs, n - 1) { InputEventsArise(values, node.inputs, n - 1, g, i); }
    }
  }

  // The planner is told exactly what the graph says of a group.
  lemma EventsAreUses(values: seq<Value>, nodes: seq<NodeDesc>, outputs: seq<string>, g: nat, i: nat)
    requires Buildable(values, nodes, outputs)
    ensures var events := PlanEvents(values, nodes, outputs);
      (Writes(g, i) in events <==> Writing(values, nodes, g, i)) &&
      (Reads(g, i) in events <==> Reading(values, nodes, g, i)) &&
      (Visible(g, i) in events <==> Showing(values, outputs, g) && i == |nodes|)
  {
    var named, n := Named(values), |nodes|;
    assert nodes[..n] == nodes;
    NodeEventsArise(values, nodes, n, g, i);
    OutputEventsArise(values, outputs, n, g, i);
    NodeEventsInOrder(named, nodes, n);
    if Writing(values, nodes, g, i) || Reading(values, nodes, g, i) { NodeEventsHave(named, nodes, n, i); }
    OutputEventsHave(named, outputs, n);
  }

  lemma EventsAreHoldings(values: seq<Value>, nodes: seq<NodeDesc>, outputs: seq<string>, g: nat, end: nat, seed: bool)
    requires Buildable(values, nodes, outputs)
    ensures Event.Holds(g, end, seed) in PlanEvents(values, nodes, outputs) <==> Holding(values, g, end, seed)
  {
    var n := |nodes|;
    assert nodes[..n] == nodes;
    NodeEventsInOrder(Named(values), nodes, n);
    if Event.Holds(g, end, seed) in PlanEvents(values, nodes, outputs) {
      var k :| 0 <= k < |values| && ValueEvents(values)[k] == Event.Holds(g, end, seed);
      assert values[k] in values;
    }
    if v :| v in values && v.group == g && v.offset + v.bytes == end && v.seed == seed {
      var k :| 0 <= k < |values| && values[k] == v;
      assert ValueEvents(values)[k] == Event.Holds(g, end, seed);
    }
  }

  // The group is produced by some node, seeded by no value, and has bytes.
  ghost predicate NeedsRange(values: seq<Value>, nodes: seq<NodeDesc>, g: nat) {
    (exists i: nat :: Writing(values, nodes, g, i)) && (forall end: nat :: !Holding(values, g, end, true)) &&
    exists end: nat :: end > 0 && Holding(values, g, end, false)
  }

  // As large as its group reaches, from its first write to its last use, or the end if it is shown.
  ghost predicate Tight(values: seq<Value>, nodes: seq<NodeDesc>, outputs: seq<string>, a: Allocation) {
    Holding(values, a.group, a.bytes, false) &&
      (forall end: nat :: Holding(values, a.group, end, false) ==> end <= a.bytes) &&
    Writing(values, nodes, a.group, a.first) &&
      (forall i: nat :: Writing(values, nodes, a.group, i) ==> a.first <= i) &&
    if Showing(values, outputs, a.group) then a.last == |nodes|
    else
      (Writing(values, nodes, a.group, a.last) || Reading(values, nodes, a.group, a.last)) &&
      forall i: nat :: Writing(values, nodes, a.group, i) || Reading(values, nodes, a.group, i) ==> i <= a.last
  }

  lemma PlannedIsNeeded(values: seq<Value>, nodes: seq<NodeDesc>, outputs: seq<string>, g: nat)
    requires Buildable(values, nodes, outputs)
    ensures Planned(Get(Lives(PlanEvents(values, nodes, outputs)), g)) <==> NeedsRange(values, nodes, g)
  {
    var events := PlanEvents(values, nodes, outputs);
    var life := Get(Lives(events), g);
    PlanEventsInOrder(values, nodes, outputs);
    LivesSized(events, g);
    LivesStart(events, g);
    LivesEnd(events, g, |nodes|);
    forall i: nat ensures Writes(g, i) in events <==> Writing(values, nodes, g, i) {
      EventsAreUses(values, nodes, outputs, g, i);
    }
    forall end: nat, seed ensures Event.Holds(g, end, seed) in events <==> Holding(values, g, end, seed) {
      EventsAreHoldings(values, nodes, outputs, g, end, seed);
    }
    if i: nat :| Writes(g, i) in events { assert Touches(events, g, i); }
  }

  // The lifetime as the events tell it.
  lemma PlannedByEvents(events: seq<Event>, g: nat, n: nat)
    requires InOrder(events, n) && Planned(Get(Lives(events), g))
    ensures var life := Get(Lives(events), g);
      Sized(life, events, g) && Writes(g, life.first) in events && Touches(events, g, life.last) && life.last <= n &&
      (forall i: nat :: Writes(g, i) in events ==> life.first <= i) &&
      (forall i: nat :: Touches(events, g, i) ==> i <= life.last)
  {
    LivesSized(events, g);
    LivesStart(events, g);
    LivesEnd(events, g, n);
    assert Touches(events, g, Get(Lives(events), g).first);
  }

  lemma PlannedIsTight(values: seq<Value>, nodes: seq<NodeDesc>, outputs: seq<string>, g: nat)
    requires Buildable(values, nodes, outputs)
    requires Planned(Get(Lives(PlanEvents(values, nodes, outputs)), g))
    ensures Tight(values, nodes, outputs, IntervalOf(g, Get(Lives(PlanEvents(values, nodes, outputs)), g)))
  {
    var events := PlanEvents(values, nodes, outputs);
    PlanEventsInOrder(values, nodes, outputs);
    PlannedByEvents(events, g, |nodes|);
    forall i: nat
      ensures Writes(g, i) in events <==> Writing(values, nodes, g, i)
      ensures Touches(events, g, i) <==>
        Writing(values, nodes, g, i) || Reading(values, nodes, g, i) || (Showing(values, outputs, g) && i == |nodes|)
    {
      EventsAreUses(values, nodes, outputs, g, i);
    }
    forall end: nat, seed ensures Event.Holds(g, end, seed) in events <==> Holding(values, g, end, seed) {
      EventsAreHoldings(values, nodes, outputs, g, end, seed);
    }
    if Showing(values, outputs, g) { assert Touches(events, g, |nodes|); }
    forall i: nat | Writing(values, nodes, g, i) || Reading(values, nodes, g, i)
      ensures i <= Get(Lives(events), g).last
    {
      assert Touches(events, g, i);
    }
  }

  // The order of the placement: by first write, then by group.
  ghost predicate ByFirst(a: seq<Allocation>) {
    forall j, k :: 0 <= j < k < |a| ==> a[j].first < a[k].first || (a[j].first == a[k].first && a[j].group < a[k].group)
  }

  /**
   The plan of a graph, without its planner: it has one allocation for each group that is produced,
   not seeded and not empty, by first write, each as large and as long-lived as its group and no
   more; each takes the smallest range free for it, or what follows all ranges.
   */
  lemma PlanIsBestFit(values: seq<Value>, nodes: seq<NodeDesc>, outputs: seq<string>, plan: Plan)
    requires Buildable(values, nodes, outputs) && PlanFor(values, nodes, outputs, plan)
    ensures forall g: nat :: NeedsRange(values, nodes, g) <==>
      exists k :: 0 <= k < |plan.allocations| && plan.allocations[k].group == g
    ensures forall k :: 0 <= k < |plan.allocations| ==> Tight(values, nodes, outputs, plan.allocations[k])
    ensures ByFirst(plan.allocations) && AllFitBest(plan.allocations)
    ensures plan.arena == Opened(plan.allocations, |plan.allocations|)
  {
    var lives := Lives(PlanEvents(values, nodes, outputs));
    var intervals: seq<Allocation> :| Intervals(intervals, lives) && plan == PlaceAll(intervals).plan;
    var a := plan.allocations;
    IntervalsForward(values, nodes, outputs, intervals);
    PlacementIsStacked(intervals);
    forall k | 0 <= k < |intervals|
      ensures intervals[k].bytes > 0 && Tight(values, nodes, outputs, a[k]) && NeedsRange(values, nodes, a[k].group)
    {
      assert intervals[k] in intervals;
      PlannedIsTight(values, nodes, outputs, intervals[k].group);
      PlannedIsNeeded(values, nodes, outputs, intervals[k].group);
      StillTight(values, nodes, outputs, intervals[k], a[k]);
    }
    PlacementFitsBest(intervals);
    forall g: nat | NeedsRange(values, nodes, g) ensures exists k :: 0 <= k < |a| && a[k].group == g {
      PlannedIsNeeded(values, nodes, outputs, g);
      assert IntervalOf(g, lives[g]) in intervals;
      var k :| 0 <= k < |intervals| && intervals[k] == IntervalOf(g, lives[g]);
      assert a[k].group == g;
    }
  }

  lemma StillTight(values: seq<Value>, nodes: seq<NodeDesc>, outputs: seq<string>, a: Allocation, b: Allocation)
    requires Tight(values, nodes, outputs, a) && b == a.(offset := b.offset)
    ensures Tight(values, nodes, outputs, b)
  {
  }
}
