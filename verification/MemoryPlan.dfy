/**
 The memory plan of a compiled graph: the lifetime of each alias group over the
 node order, and a best-fit placement of the produced groups in one arena.
 */
module MemoryPlan {
  import opened Wrappers
  import opened GraphOrder

  // A tensor of the compiled graph: a byte range of its alias group's storage.
  datatype Value = Value(name: string, group: nat, bytes: nat, offset: nat, seed: bool)

  datatype Lifetime = Lifetime(bytes: nat, first: nat, last: nat, produced: bool, pinned: bool, used: bool)

  datatype Allocation = Allocation(group: nat, offset: nat, bytes: nat, first: nat, last: nat)

  datatype Slot = Slot(offset: nat, bytes: nat, last: nat)

  datatype Plan = Plan(arena: nat, unshared: nat, allocations: seq<Allocation>)

  function Max(a: nat, b: nat): nat { if a < b then b else a }
  function Min(a: nat, b: nat): nat { if a < b then a else b }

  // ---- Lifetimes ----

  // What the three loops over values, nodes and outputs tell about a group.
  datatype Event =
    | Holds(group: nat, end: nat, seed: bool)
    | Writes(group: nat, node: nat)
    | Reads(group: nat, node: nat)
    | Visible(group: nat, node: nat)

  const NO_LIFE := Lifetime(0, 0, 0, false, false, false)

  function Get(lives: map<nat, Lifetime>, g: nat): Lifetime { if g in lives then lives[g] else NO_LIFE }

  function Note(life: Lifetime, e: Event): Lifetime {
    match e
    case Holds(_, end, seed) => life.(bytes := Max(life.bytes, end), pinned := life.pinned || seed)
    case Writes(_, i) =>
      life.(first := if life.produced then Min(life.first, i) else i, last := Max(life.last, i), produced := true,
        used := true)
    case Reads(_, i) => life.(last := Max(life.last, i), used := true)
    case Visible(_, n) => life.(last := n, used := true)
  }

  function NoteIn(lives: map<nat, Lifetime>, e: Event): map<nat, Lifetime> {
    lives[e.group := Note(Get(lives, e.group), e)]
  }

  function Lives(events: seq<Event>): map<nat, Lifetime> {
    if events == [] then map[] else NoteIn(Lives(events[..|events| - 1]), events[|events| - 1])
  }

  // The byte extent and ownership of a group.
  ghost predicate Sized(life: Lifetime, events: seq<Event>, g: nat) {
    (life.pinned <==> exists end: nat :: Holds(g, end, true) in events) &&
    (forall end: nat, seed :: Holds(g, end, seed) in events ==> end <= life.bytes) &&
    (life.bytes == 0 || exists seed :: Holds(g, life.bytes, seed) in events)
  }

  // The first write of a group.
  ghost predicate Starts(life: Lifetime, events: seq<Event>, g: nat) {
    (life.produced <==> exists i: nat :: Writes(g, i) in events) &&
    (life.produced ==> Writes(g, life.first) in events) &&
    (forall i: nat :: Writes(g, i) in events ==> life.first <= i)
  }

  ghost predicate Touches(events: seq<Event>, g: nat, i: nat) {
    Writes(g, i) in events || Reads(g, i) in events || Visible(g, i) in events
  }

  // The last touch of a group in a graph of n nodes; an output is touched at n.
  ghost predicate Ends(life: Lifetime, events: seq<Event>, g: nat) {
    (life.used <==> exists i: nat :: Touches(events, g, i)) &&
    (forall i: nat :: Touches(events, g, i) ==> i <= life.last) &&
    (life.last == 0 || Touches(events, g, life.last))
  }

  ghost predicate InOrder(events: seq<Event>, n: nat) {
    forall e :: e in events ==>
      (e.Writes? ==> e.node < n) && (e.Reads? ==> e.node < n) && (e.Visible? ==> e.node == n)
  }

  lemma {:induction false} LivesSized(events: seq<Event>, g: nat)
    ensures Sized(Get(Lives(events), g), events, g)
  {
    if events != [] {
      var init, e := events[..|events| - 1], events[|events| - 1];
      LivesSized(init, g);
      assert events == init + [e];
      var before, after := Get(Lives(init), g), Get(Lives(events), g);
      if before.bytes != 0 {
        var seed :| Holds(g, before.bytes, seed) in init;
        assert Holds(g, before.bytes, seed) in events;
      }
      if e.Holds? && e.group == g { assert Holds(g, e.end, e.seed) in events; }
    }
  }

  lemma {:induction false} LivesStart(events: seq<Event>, g: nat)
    ensures Starts(Get(Lives(events), g), events, g)
  {
    if events != [] {
      var init, e := events[..|events| - 1], events[|events| - 1];
      assert events == init + [e];
      LivesStart(init, g);
    }
  }

  lemma TouchesStep(init: seq<Event>, e: Event, g: nat, i: nat)
    ensures Touches(init + [e], g, i) <==>
      Touches(init, g, i) || e == Writes(g, i) || e == Reads(g, i) || e == Visible(g, i)
  {
  }

  lemma {:induction false} LivesEnd(events: seq<Event>, g: nat, n: nat)
    requires InOrder(events, n)
    ensures Get(Lives(events), g).last <= n
    ensures Ends(Get(Lives(events), g), events, g)
  {
    if events != [] {
      var init, e := events[..|events| - 1], events[|events| - 1];
      assert events == init + [e] && e in events;
      LivesEnd(init, g, n);
      forall i: nat ensures Touches(events, g, i) <==>
        Touches(init, g, i) || e == Writes(g, i) || e == Reads(g, i) || e == Visible(g, i) {
        TouchesStep(init, e, g, i);
      }
    }
  }

  // ---- Placement ----

  function Rounded(bytes: nat): (r: nat)
    ensures r % 64 == 0 && bytes <= r < bytes + 64
  {
    (bytes + 63) / 64 * 64
  }

  predicate Fits(slot: Slot, first: nat, rounded: nat) { slot.last < first && slot.bytes >= rounded }

  // The first of the smallest slots that fit, among the first n.
  function Best(slots: seq<Slot>, n: nat, first: nat, rounded: nat): (best: Option<nat>)
    requires n <= |slots|
    ensures best.Some? ==> best.value < n && Fits(slots[best.value], first, rounded)
  {
    if n == 0 then None
    else
      var best := Best(slots, n - 1, first, rounded);
      if Fits(slots[n - 1], first, rounded) &&
        (best.None? || slots[n - 1].bytes < slots[best.value].bytes) then Some(n - 1) else best
  }

  /** A new slot is opened only if none fits; otherwise no fitting slot is smaller than the one taken. */
  lemma {:induction false} BestIsSmallest(slots: seq<Slot>, n: nat, first: nat, rounded: nat)
    requires n <= |slots|
    ensures forall k :: 0 <= k < n && Fits(slots[k], first, rounded) ==>
      var best := Best(slots, n, first, rounded);
      best.Some? &&
        (slots[best.value].bytes < slots[k].bytes || (slots[best.value].bytes == slots[k].bytes && best.value <= k))
  {
    if n > 0 { BestIsSmallest(slots, n - 1, first, rounded); }
  }

  // Placement after some intervals; place[k] is the slot of allocation k.
  datatype Placement = Placement(slots: seq<Slot>, place: seq<nat>, plan: Plan)

  const NOTHING_PLACED := Placement([], [], Plan(0, 0, []))

  function PlaceOne(p: Placement, interval: Allocation): Placement {
    var rounded := Rounded(interval.bytes);
    var best := Best(p.slots, |p.slots|, interval.first, rounded);
    match best
    case Some(k) =>
      Placement(p.slots[k := p.slots[k].(last := interval.last)], p.place + [k],
        Plan(p.plan.arena, p.plan.unshared + rounded, p.plan.allocations + [interval.(offset := p.slots[k].offset)]))
    case None =>
      Placement(p.slots + [Slot(p.plan.arena, rounded, interval.last)], p.place + [|p.slots|],
        Plan(p.plan.arena + rounded, p.plan.unshared + rounded,
          p.plan.allocations + [interval.(offset := p.plan.arena)]))
  }

  function PlaceAll(intervals: seq<Allocation>): Placement {
    if intervals == [] then NOTHING_PLACED else PlaceOne(PlaceAll(intervals[..|intervals| - 1]),
      intervals[|intervals| - 1])
  }

  // The slots tile the arena.
  ghost predicate Tiled(slots: seq<Slot>, arena: nat) {
    arena % 64 == 0 &&
    (forall k :: 0 <= k < |slots| ==> slots[k].offset % 64 == 0 && slots[k].bytes % 64 == 0) &&
    (forall j, k :: 0 <= j < k < |slots| ==> slots[j].offset + slots[j].bytes <= slots[k].offset) &&
    (forall k :: 0 <= k < |slots| ==> slots[k].offset + slots[k].bytes <= arena)
  }

  // Allocation k lies in its slot.
  ghost predicate InSlot(p: Placement, k: nat)
    requires k < |p.place| == |p.plan.allocations|
  {
    p.place[k] < |p.slots| &&
    var slot, a := p.slots[p.place[k]], p.plan.allocations[k];
    a.offset == slot.offset && Rounded(a.bytes) <= slot.bytes && a.first <= a.last <= slot.last
  }

  // Two allocations of one slot follow each other.
  ghost predicate Stacked(p: Placement) {
    |p.place| == |p.plan.allocations| &&
    (forall k :: 0 <= k < |p.place| ==> InSlot(p, k)) &&
    (forall j, k :: 0 <= j < k < |p.place| && p.place[j] == p.place[k] ==>
      p.plan.allocations[j].last < p.plan.allocations[k].first)
  }

  lemma PlaceOneTiles(p: Placement, interval: Allocation)
    requires Tiled(p.slots, p.plan.arena)
    ensures Tiled(PlaceOne(p, interval).slots, PlaceOne(p, interval).plan.arena)
  {
  }

  lemma PlaceOneKeeps(p: Placement, interval: Allocation, k: nat)
    requires Stacked(p) && interval.first <= interval.last && k <= |p.place|
    ensures InSlot(PlaceOne(p, interval), k)
  {
    if k < |p.place| { assert InSlot(p, k); }
  }

  lemma PlaceOneStacks(p: Placement, interval: Allocation)
    requires Stacked(p) && interval.first <= interval.last
    ensures Stacked(PlaceOne(p, interval))
  {
    var q := PlaceOne(p, interval);
    forall k: nat | k < |q.place| ensures InSlot(q, k) { PlaceOneKeeps(p, interval, k); }
    forall j, k | 0 <= j < k < |q.place| && q.place[j] == q.place[k]
      ensures q.plan.allocations[j].last < q.plan.allocations[k].first
    {
      assert InSlot(p, j);
    }
  }

  // An allocation is its interval with an offset, and groups keep their size and lifetime.
  ghost predicate Places(p: Placement, intervals: seq<Allocation>) {
    |p.plan.allocations| == |intervals| &&
    forall k :: 0 <= k < |intervals| ==> p.plan.allocations[k] == intervals[k].(offset := p.plan.allocations[k].offset)
  }

  ghost predicate Forward(intervals: seq<Allocation>) {
    forall k :: 0 <= k < |intervals| ==> intervals[k].first <= intervals[k].last
  }

  lemma {:induction false} PlacementIsStacked(intervals: seq<Allocation>)
    requires Forward(intervals)
    ensures Tiled(PlaceAll(intervals).slots, PlaceAll(intervals).plan.arena)
    ensures Stacked(PlaceAll(intervals)) && Places(PlaceAll(intervals), intervals)
  {
    if intervals != [] {
      var init, interval := intervals[..|intervals| - 1], intervals[|intervals| - 1];
      PlacementIsStacked(init);
      PlaceOneTiles(PlaceAll(init), interval);
      PlaceOneStacks(PlaceAll(init), interval);
    }
  }

  ghost predicate Meet(a: Allocation, b: Allocation) {
    a.offset < b.offset + b.bytes && b.offset < a.offset + a.bytes
  }

  ghost predicate LiveAt(a: Allocation, t: nat) { a.first <= t <= a.last }

  /** Arena safety: two allocations whose bytes meet are never live at the same node. */
  lemma ArenaIsSafe(intervals: seq<Allocation>, j: nat, k: nat, t: nat)
    requires Forward(intervals) && j < k < |intervals|
    ensures var plan := PlaceAll(intervals).plan;
      |plan.allocations| == |intervals| &&
      (Meet(plan.allocations[j], plan.allocations[k]) ==>
        !(LiveAt(plan.allocations[j], t) && LiveAt(plan.allocations[k], t)))
  {
    PlacementIsStacked(intervals);
    var p := PlaceAll(intervals);
    assert InSlot(p, j) && InSlot(p, k);
    if p.place[j] < p.place[k] {
      assert p.slots[p.place[j]].offset + p.slots[p.place[j]].bytes <= p.slots[p.place[k]].offset;
    } else if p.place[k] < p.place[j] {
      assert p.slots[p.place[k]].offset + p.slots[p.place[k]].bytes <= p.slots[p.place[j]].offset;
    }
  }

  /** Every allocation is aligned and lies inside the arena. */
  lemma ArenaFits(intervals: seq<Allocation>, k: nat)
    requires Forward(intervals) && k < |intervals|
    ensures var plan := PlaceAll(intervals).plan;
      |plan.allocations| == |intervals| && plan.allocations[k].offset % 64 == 0 &&
      plan.allocations[k].offset + plan.allocations[k].bytes <= plan.arena
  {
    PlacementIsStacked(intervals);
    assert InSlot(PlaceAll(intervals), k);
  }

  // ---- The arena is large enough at every node, and never larger than separate buffers ----

  function Sum(s: seq<nat>): nat { if s == [] then 0 else Sum(s[..|s| - 1]) + s[|s| - 1] }

  lemma {:induction false} SumUpdate(s: seq<nat>, k: nat, x: nat)
    requires k < |s|
    ensures Sum(s[k := s[k] + x]) == Sum(s) + x
  {
    var n := |s| - 1;
    var t := s[k := s[k] + x];
    if k < n {
      SumUpdate(s[..n], k, x);
      assert t[..n] == s[..n][k := s[..n][k] + x];
    } else {
      assert t[..n] == s[..n];
    }
  }

  lemma {:induction false} SumBelow(s: seq<nat>, slots: seq<Slot>, arena: nat)
    requires |s| == |slots| && (forall k :: 0 <= k < |s| ==> s[k] <= slots[k].bytes)
    requires Tiled(slots, arena)
    ensures Sum(s) <= arena
  {
    if s != [] {
      var n := |s| - 1;
      var last := slots[n];
      assert Tiled(slots[..n], last.offset) by {
        forall k | 0 <= k < n ensures slots[k].offset + slots[k].bytes <= last.offset { }
      }
      SumBelow(s[..n], slots[..n], last.offset);
    }
  }

  function RoundedLive(allocations: seq<Allocation>, t: nat): nat {
    if allocations == [] then 0
    else
      var n := |allocations| - 1;
      RoundedLive(allocations[..n],
        t) + if allocations[n].first <= t <= allocations[n].last then Rounded(allocations[n].bytes) else 0
  }

  // The bytes live at t in each slot, counting the first k allocations.
  ghost function SlotLive(p: Placement, k: nat, t: nat): (live: seq<nat>)
    requires Stacked(p) && k <= |p.place|
    ensures |live| == |p.slots|
  {
    if k == 0 then seq(|p.slots|, _ => 0)
    else
      var before := SlotLive(p, k - 1, t);
      var a := p.plan.allocations[k - 1];
      assert InSlot(p, k - 1);
      if LiveAt(a, t) then before[p.place[k - 1] := before[p.place[k - 1]] + Rounded(a.bytes)] else before
  }

  lemma {:induction false} SlotLiveFits(p: Placement, k: nat, t: nat, s: nat)
    requires Stacked(p) && k <= |p.place| && s < |p.slots|
    ensures SlotLive(p, k, t)[s] <= p.slots[s].bytes
    ensures SlotLive(p, k, t)[s] == 0 || exists j :: 0 <= j < k && p.place[j] == s && LiveAt(p.plan.allocations[j], t)
  {
    if k > 0 {
      SlotLiveFits(p, k - 1, t, s);
      assert InSlot(p, k - 1);
    }
  }

  lemma {:induction false} SlotLiveSum(p: Placement, k: nat, t: nat)
    requires Stacked(p) && k <= |p.place|
    ensures Sum(SlotLive(p, k, t)) == RoundedLive(p.plan.allocations[..k], t)
  {
    if k == 0 {
      SumZeros(|p.slots|);
    } else {
      SlotLiveSum(p, k - 1, t);
      var a := p.plan.allocations[k - 1];
      assert p.plan.allocations[..k][..k - 1] == p.plan.allocations[..k - 1];
      assert InSlot(p, k - 1);
      if LiveAt(a, t) { SumUpdate(SlotLive(p, k - 1, t), p.place[k - 1], Rounded(a.bytes)); }
    }
  }

  lemma {:induction false} SumZeros(n: nat)
    ensures Sum(seq(n, _ => 0)) == 0
  {
    if n > 0 {
      assert seq(n, _ => 0)[..n - 1] == seq(n - 1, _ => 0);
      SumZeros(n - 1);
    }
  }

  /** At every node the groups live there fit the arena together. */
  lemma ArenaHoldsLive(intervals: seq<Allocation>, t: nat)
    requires Forward(intervals)
    ensures RoundedLive(PlaceAll(intervals).plan.allocations, t) <= PlaceAll(intervals).plan.arena
  {
    PlacementIsStacked(intervals);
    var p := PlaceAll(intervals);
    var n := |p.place|;
    SlotLiveSum(p, n, t);
    assert p.plan.allocations[..n] == p.plan.allocations;
    forall s | 0 <= s < |p.slots| ensures SlotLive(p, n, t)[s] <= p.slots[s].bytes { SlotLiveFits(p, n, t, s); }
    SumBelow(SlotLive(p, n, t), p.slots, p.plan.arena);
  }

  function RoundedTotal(intervals: seq<Allocation>): nat {
    if intervals == [] then 0 else
      RoundedTotal(intervals[..|intervals| - 1]) + Rounded(intervals[|intervals| - 1].bytes)
  }

  /** The arena never needs more than separate buffers would. */
  lemma {:induction false} ArenaIsNoLarger(intervals: seq<Allocation>)
    ensures PlaceAll(intervals).plan.arena <= PlaceAll(intervals).plan.unshared == RoundedTotal(intervals)
  {
    if intervals != [] { ArenaIsNoLarger(intervals[..|intervals| - 1]); }
  }

  // ---- Building the plan ----

  ghost predicate NamesDistinct(values: seq<Value>) {
    forall i, j :: 0 <= i < j < |values| ==> values[i].name != values[j].name
  }

  // The values by name.
  function Named(values: seq<Value>): map<string, Value> {
    if values == [] then map[] else Named(values[..|values| - 1])[values[|values| - 1].name := values[|values| - 1]]
  }

  lemma {:induction false} NamedMeaning(values: seq<Value>)
    requires NamesDistinct(values)
    ensures forall k :: 0 <= k < |values| ==>
      values[k].name in Named(values) && Named(values)[values[k].name] == values[k]
    ensures forall n :: n in Named(values) ==> Named(values)[n] in values && Named(values)[n].name == n
  {
    if values != [] {
      var init := values[..|values| - 1];
      NamedMeaning(init);
      forall k | 0 <= k < |init| ensures values[k].name in Named(values) && Named(values)[values[k].name] == values[k] {
        assert init[k] == values[k];
      }
    }
  }

  function NoteAll(lives: map<nat, Lifetime>, events: seq<Event>): map<nat, Lifetime> {
    if events == [] then lives else NoteIn(NoteAll(lives, events[..|events| - 1]), events[|events| - 1])
  }

  lemma {:induction false} NoteAllConcat(lives: map<nat, Lifetime>, a: seq<Event>, b: seq<Event>)
    ensures NoteAll(lives, a + b) == NoteAll(NoteAll(lives, a), b)
  {
    if b == [] {
      assert a + b == a;
    } else {
      NoteAllConcat(lives, a, b[..|b| - 1]);
      assert (a + b)[..|a + b| - 1] == a + b[..|b| - 1];
    }
  }

  lemma {:induction false} LivesIsNoteAll(events: seq<Event>)
    ensures NoteAll(map[], events) == Lives(events)
  {
    if events != [] { LivesIsNoteAll(events[..|events| - 1]); }
  }

  function ValueEvents(values: seq<Value>): seq<Event> {
    seq(|values|,
      k requires 0 <= k < |values| => Holds(values[k].group, values[k].offset + values[k].bytes, values[k].seed))
  }

  ghost predicate Resolved(named: map<string, Value>, names: seq<string>) {
    forall k :: 0 <= k < |names| ==> names[k] in named
  }

  ghost predicate ResolvedOrEmpty(named: map<string, Value>, names: seq<string>) {
    forall k :: 0 <= k < |names| ==> names[k] == "" || names[k] in named
  }

  function OutputEvents(named: map<string, Value>, outputs: seq<string>, i: nat): seq<Event>
    requires Resolved(named, outputs)
  {
    seq(|outputs|, k requires 0 <= k < |outputs| => Writes(named[outputs[k]].group, i))
  }

  function InputEvents(named: map<string, Value>, inputs: seq<string>, i: nat): seq<Event>
    requires ResolvedOrEmpty(named, inputs)
  {
    if inputs == [] then []
    else
      var last := inputs[|inputs| - 1];
      InputEvents(named, inputs[..|inputs| - 1], i) + if last == "" then [] else [Reads(named[last].group, i)]
  }

  function VisibleEvents(named: map<string, Value>, outputs: seq<string>, n: nat): seq<Event>
    requires Resolved(named, outputs)
  {
    seq(|outputs|, k requires 0 <= k < |outputs| => Visible(named[outputs[k]].group, n))
  }

  ghost predicate NodeResolved(named: map<string, Value>, node: NodeDesc) {
    Resolved(named, node.outputs) && ResolvedOrEmpty(named, node.inputs)
  }

  ghost predicate NodesResolved(named: map<string, Value>, nodes: seq<NodeDesc>) {
    forall i :: 0 <= i < |nodes| ==> NodeResolved(named, nodes[i])
  }

  function NodeEvents(named: map<string, Value>, nodes: seq<NodeDesc>, n: nat): seq<Event>
    requires n <= |nodes| && NodesResolved(named, nodes[..n])
  {
    if n == 0 then []
    else
      assert nodes[..n - 1] == nodes[..n][..n - 1] && NodeResolved(named, nodes[..n][n - 1]);
      NodeEvents(named, nodes, n - 1) + OutputEvents(named, nodes[n - 1].outputs, n - 1) + InputEvents(named,
        nodes[n - 1].inputs, n - 1)
  }

  lemma ValueRecorded(values: seq<Value>, k: nat)
    requires k < |values|
    ensures Named(values[..k + 1]) == Named(values[..k])[values[k].name := values[k]]
    ensures Lives(ValueEvents(values[..k + 1])) ==
      NoteIn(Lives(ValueEvents(values[..k])),
        Holds(values[k].group, values[k].offset + values[k].bytes, values[k].seed))
  {
    assert values[..k + 1][..k] == values[..k];
    assert ValueEvents(values[..k + 1])[..k] == ValueEvents(values[..k]);
  }

  method RecordValues(values: seq<Value>) returns (ok: bool, named: map<string, Value>, lives: map<nat, Lifetime>)
    ensures ok <==> forall k :: 0 <= k < |values| ==> values[k].offset + values[k].bytes <= SIZE_MAX
    ensures ok ==> named == Named(values) && lives == Lives(ValueEvents(values))
  {
    named, lives := map[], map[];
    for k := 0 to |values|
      invariant forall j :: 0 <= j < k ==> values[j].offset + values[j].bytes <= SIZE_MAX
      invariant named == Named(values[..k]) && lives == Lives(ValueEvents(values[..k]))
    {
      var value := values[k];
      if value.offset > SIZE_MAX - value.bytes { return false, named, lives; }
      named := named[value.name := value];
      var life := Get(lives, value.group);
      lives := lives[value.group := life.(bytes := Max(life.bytes, value.offset + value.bytes), pinned := life.pinned ||
        value.seed)];
      ValueRecorded(values, k);
    }
    assert values[..|values|] == values;
    ok := true;
  }

  method RecordOutputs(named: map<string, Value>, outputs: seq<string>, i: nat, before: map<nat, Lifetime>)
    returns (ok: bool, lives: map<nat, Lifetime>)
    ensures ok <==> Resolved(named, outputs)
    ensures ok ==> lives == NoteAll(before, OutputEvents(named, outputs, i))
  {
    lives := before;
    for k := 0 to |outputs|
      invariant Resolved(named, outputs[..k]) && lives == NoteAll(before, OutputEvents(named, outputs[..k], i))
    {
      if outputs[k] !in named { return false, lives; }
      var g := named[outputs[k]].group;
      var life := Get(lives, g);
      life := life.(first := if life.produced then Min(life.first, i) else i);
      lives := lives[g := life.(last := Max(life.last, i), produced := true, used := true)];
      assert OutputEvents(named, outputs[..k + 1], i)[..k] == OutputEvents(named, outputs[..k], i);
    }
    assert outputs[..|outputs|] == outputs;
    ok := true;
  }

  method RecordInputs(named: map<string, Value>, inputs: seq<string>, i: nat, before: map<nat, Lifetime>)
    returns (ok: bool, lives: map<nat, Lifetime>)
    ensures ok <==> ResolvedOrEmpty(named, inputs)
    ensures ok ==> lives == NoteAll(before, InputEvents(named, inputs, i))
  {
    lives := before;
    for k := 0 to |inputs|
      invariant ResolvedOrEmpty(named, inputs[..k]) && lives == NoteAll(before, InputEvents(named, inputs[..k], i))
    {
      assert inputs[..k + 1][..k] == inputs[..k];
      if inputs[k] != "" {
        if inputs[k] !in named { return false, lives; }
        var g := named[inputs[k]].group;
        var life := Get(lives, g);
        lives := lives[g := life.(last := Max(life.last, i), used := true)];
        ghost var events := InputEvents(named, inputs[..k], i);
        assert (events + [Reads(g, i)])[..|events|] == events;
      } else {
        assert InputEvents(named, inputs[..k + 1], i) == InputEvents(named, inputs[..k], i);
      }
    }
    assert inputs[..|inputs|] == inputs;
    ok := true;
  }

  method RecordVisible(named: map<string, Value>, outputs: seq<string>, n: nat, before: map<nat, Lifetime>)
    returns (ok: bool, lives: map<nat, Lifetime>)
    ensures ok <==> Resolved(named, outputs)
    ensures ok ==> lives == NoteAll(before, VisibleEvents(named, outputs, n))
  {
    lives := before;
    for k := 0 to |outputs|
      invariant Resolved(named, outputs[..k]) && lives == NoteAll(before, VisibleEvents(named, outputs[..k], n))
    {
      if outputs[k] !in named { return false, lives; }
      var g := named[outputs[k]].group;
      lives := lives[g := Get(lives, g).(last := n, used := true)];
      assert VisibleEvents(named, outputs[..k + 1], n)[..k] == VisibleEvents(named, outputs[..k], n);
    }
    assert outputs[..|outputs|] == outputs;
    ok := true;
  }

  lemma NodeEventsStep(named: map<string, Value>, nodes: seq<NodeDesc>, i: nat, before: map<nat, Lifetime>)
    requires i < |nodes| && NodesResolved(named, nodes[..i]) && NodeResolved(named, nodes[i])
    ensures NodesResolved(named, nodes[..i + 1])
    ensures NoteAll(before, NodeEvents(named, nodes, i + 1)) ==
      NoteAll(NoteAll(NoteAll(before, NodeEvents(named, nodes, i)), OutputEvents(named, nodes[i].outputs, i)),
        InputEvents(named, nodes[i].inputs, i))
  {
    assert nodes[..i + 1] == nodes[..i] + [nodes[i]];
    var a, b, c := NodeEvents(named, nodes, i), OutputEvents(named, nodes[i].outputs, i),
      InputEvents(named, nodes[i].inputs, i);
    NoteAllConcat(before, a, b);
    NoteAllConcat(before, a + b, c);
  }

  method RecordNode(named: map<string, Value>, node: NodeDesc, i: nat, before: map<nat, Lifetime>)
    returns (ok: bool, lives: map<nat, Lifetime>)
    ensures ok <==> NodeResolved(named, node)
    ensures ok ==>
      lives == NoteAll(NoteAll(before, OutputEvents(named, node.outputs, i)), InputEvents(named, node.inputs, i))
  {
    ok, lives := RecordOutputs(named, node.outputs, i, before);
    if !ok { return; }
    ok, lives := RecordInputs(named, node.inputs, i, lives);
  }

  method RecordNodes(named: map<string, Value>, nodes: seq<NodeDesc>, before: map<nat, Lifetime>)
    returns (ok: bool, lives: map<nat, Lifetime>)
    ensures ok <==> NodesResolved(named, nodes)
    ensures ok ==> nodes[..|nodes|] == nodes && lives == NoteAll(before, NodeEvents(named, nodes, |nodes|))
  {
    lives := before;
    for i := 0 to |nodes|
      invariant NodesResolved(named, nodes[..i]) && lives == NoteAll(before, NodeEvents(named, nodes, i))
    {
      ok, lives := RecordNode(named, nodes[i], i, lives);
      if !ok { return false, lives; }
      NodeEventsStep(named, nodes, i, before);
    }
    assert nodes[..|nodes|] == nodes;
    ok := true;
  }

  predicate Planned(life: Lifetime) { life.used && !life.pinned && life.produced && life.bytes > 0 }

  function IntervalOf(g: nat, life: Lifetime): Allocation { Allocation(g, 0, life.bytes, life.first, life.last) }

  // The order of the sort: by first node, then by group.
  predicate Before(a: Allocation, b: Allocation) { a.first < b.first || (a.first == b.first && a.group < b.group) }

  ghost predicate Sorted(s: seq<Allocation>) {
    forall j, k :: 0 <= j < k < |s| ==> Before(s[j], s[k])
  }

  // One interval for each planned group, in the order of the sort.
  ghost predicate Intervals(intervals: seq<Allocation>, lives: map<nat, Lifetime>) {
    Sorted(intervals) &&
    forall a :: a in intervals <==>
      a.group in lives && Planned(lives[a.group]) && a == IntervalOf(a.group, lives[a.group])
  }

  lemma {:induction false} SortedIsUnique(s: seq<Allocation>, t: seq<Allocation>)
    requires Sorted(s) && Sorted(t) && forall a :: a in s <==> a in t
    ensures s == t
  {
    if s != [] { assert s[0] in s; }
    if t != [] { assert t[0] in t; }
    if s != [] {
      assert s[0] in t;
      var j :| 0 <= j < |t| && t[j] == s[0];
      assert t[0] in s;
      assert j == 0;
      forall a ensures a in s[1..] <==> a in t[1..] {
        assert a in s <==> a == s[0] || a in s[1..];
        assert a in t <==> a == t[0] || a in t[1..];
      }
      SortedIsUnique(s[1..], t[1..]);
    }
  }

  lemma InsertedSorted(s: seq<Allocation>, k: nat, a: Allocation)
    requires Sorted(s) && k <= |s|
    requires forall j :: 0 <= j < k ==> Before(s[j], a)
    requires forall j :: k <= j < |s| ==> Before(a, s[j])
    ensures Sorted(s[..k] + [a] + s[k..])
    ensures forall b :: b in s[..k] + [a] + s[k..] <==> b in s || b == a
  {
    var r := s[..k] + [a] + s[k..];
    forall i, j | 0 <= i < j < |r| ensures Before(r[i], r[j]) {
      assert r[i] == if i < k then s[i] else if i == k then a else s[i - 1];
      assert r[j] == if j < k then s[j] else if j == k then a else s[j - 1];
    }
    assert s == s[..k] + s[k..];
  }

  method Insert(s: seq<Allocation>, a: Allocation) returns (r: seq<Allocation>)
    requires Sorted(s) && forall k :: 0 <= k < |s| ==> s[k].group != a.group
    ensures Sorted(r) && forall b :: b in r <==> b in s || b == a
  {
    var k := 0;
    while k < |s| && Before(s[k], a)
      invariant k <= |s| && forall j :: 0 <= j < k ==> Before(s[j], a)
    {
      k := k + 1;
    }
    forall j | k <= j < |s| ensures Before(a, s[j]) {
      assert Before(a, s[k]);
      assert j == k || Before(s[k], s[j]);
    }
    InsertedSorted(s, k, a);
    r := s[..k] + [a] + s[k..];
  }

  // The groups are visited in any order; the sort makes the result independent of it.
  method CollectIntervals(lives: map<nat, Lifetime>) returns (intervals: seq<Allocation>)
    ensures Intervals(intervals, lives)
  {
    intervals := [];
    var rest := lives.Keys;
    while rest != {}
      invariant rest <= lives.Keys && Sorted(intervals)
      invariant forall a :: a in intervals <==>
        a.group in lives && a.group !in rest && Planned(lives[a.group]) && a == IntervalOf(a.group, lives[a.group])
      decreases rest
    {
      var g :| g in rest;
      rest := rest - {g};
      if Planned(lives[g]) { intervals := Insert(intervals, IntervalOf(g, lives[g])); }
    }
  }

  method FindSlot(slots: seq<Slot>, first: nat, rounded: nat) returns (best: Option<nat>)
    ensures best == Best(slots, |slots|, first, rounded)
  {
    best := None;
    for k := 0 to |slots|
      invariant best == Best(slots, k, first, rounded)
    {
      if slots[k].last < first && slots[k].bytes >= rounded &&
        (best == None || slots[k].bytes < slots[best.value].bytes) {
        best := Some(k);
      }
    }
  }

  lemma {:induction false} UnsharedGrows(intervals: seq<Allocation>, k: nat)
    requires k <= |intervals|
    ensures RoundedTotal(intervals[..k]) <= RoundedTotal(intervals)
    decreases |intervals|
  {
    if k < |intervals| {
      UnsharedGrows(intervals[..|intervals| - 1], k);
      assert intervals[..|intervals| - 1][..k] == intervals[..k];
    } else {
      assert intervals[..k] == intervals;
    }
  }

  method Place(intervals: seq<Allocation>) returns (r: Result<Plan>)
    ensures r.Ok? <==> RoundedTotal(intervals) <= SIZE_MAX
    ensures r.Ok? ==> r.value == PlaceAll(intervals).plan
  {
    var slots: seq<Slot> := [];
    var plan := Plan(0, 0, []);
    for k := 0 to |intervals|
      invariant slots == PlaceAll(intervals[..k]).slots && plan == PlaceAll(intervals[..k]).plan
      invariant plan.unshared <= SIZE_MAX
    {
      assert intervals[..k + 1][..k] == intervals[..k];
      ArenaIsNoLarger(intervals[..k]);
      UnsharedGrows(intervals, k + 1);
      var interval := intervals[k];
      if interval.bytes > SIZE_MAX - 63 { return Err; }
      var rounded := Rounded(interval.bytes);
      var best := FindSlot(slots, interval.first, rounded);
      if best.Some? {
        interval := interval.(offset := slots[best.value].offset);
        slots := slots[best.value := slots[best.value].(last := interval.last)];
      } else {
        if plan.arena > SIZE_MAX - rounded { return Err; }
        interval := interval.(offset := plan.arena);
        slots := slots + [Slot(interval.offset, rounded, interval.last)];
        plan := plan.(arena := plan.arena + rounded);
      }
      if plan.unshared > SIZE_MAX - rounded { return Err; }
      plan := plan.(unshared := plan.unshared + rounded, allocations := plan.allocations + [interval]);
    }
    assert intervals[..|intervals|] == intervals;
    ArenaIsNoLarger(intervals);
    r := Ok(plan);
  }

  // ---- The whole plan ----

  ghost predicate Buildable(values: seq<Value>, nodes: seq<NodeDesc>, outputs: seq<string>) {
    (forall k :: 0 <= k < |values| ==> values[k].offset + values[k].bytes <= SIZE_MAX) &&
    NodesResolved(Named(values), nodes) && Resolved(Named(values), outputs)
  }

  // Everything the plan is told, in the order it is told.
  function PlanEvents(values: seq<Value>, nodes: seq<NodeDesc>, outputs: seq<string>): seq<Event>
    requires Buildable(values, nodes, outputs)
  {
    var named := Named(values);
    assert nodes[..|nodes|] == nodes;
    ValueEvents(values) + (NodeEvents(named, nodes, |nodes|) + VisibleEvents(named, outputs, |nodes|))
  }

  // What the planner may return for this graph.
  ghost predicate PlanFor(values: seq<Value>, nodes: seq<NodeDesc>, outputs: seq<string>, plan: Plan)
    requires Buildable(values, nodes, outputs)
  {
    exists intervals :: Intervals(intervals, Lives(PlanEvents(values, nodes, outputs))) &&
      plan == PlaceAll(intervals).plan
  }

  // The rounded sizes of the planned groups add up to a size.
  ghost predicate Addressable(values: seq<Value>, nodes: seq<NodeDesc>, outputs: seq<string>)
    requires Buildable(values, nodes, outputs)
  {
    exists intervals :: Intervals(intervals, Lives(PlanEvents(values, nodes, outputs))) &&
      RoundedTotal(intervals) <= SIZE_MAX
  }

  method BuildMemoryPlan(values: seq<Value>, nodes: seq<NodeDesc>, outputs: seq<string>) returns (r: Result<Plan>)
    ensures r.Ok? <==> Buildable(values, nodes, outputs) && Addressable(values, nodes, outputs)
    ensures r.Ok? ==> PlanFor(values, nodes, outputs, r.value)
  {
    var ok, named, lives := RecordValues(values);
    if !ok { return Err; }
    ok, lives := RecordNodes(named, nodes, lives);
    if !ok { return Err; }
    ok, lives := RecordVisible(named, outputs, |nodes|, lives);
    if !ok { return Err; }
    LivesOfPlan(values, nodes, outputs);
    var intervals := CollectIntervals(lives);
    r := Place(intervals);
    if r.Err? { NotAddressable(values, nodes, outputs, intervals); }
  }

  lemma NotAddressable(values: seq<Value>, nodes: seq<NodeDesc>, outputs: seq<string>, intervals: seq<Allocation>)
    requires Buildable(values, nodes, outputs) && Intervals(intervals, Lives(PlanEvents(values, nodes, outputs)))
    requires RoundedTotal(intervals) > SIZE_MAX
    ensures !Addressable(values, nodes, outputs)
  {
    forall other | Intervals(other, Lives(PlanEvents(values, nodes, outputs))) ensures RoundedTotal(other) > SIZE_MAX {
      SortedIsUnique(intervals, other);
    }
  }

  /** However the groups are visited, the sort gives one list, and so the planner one plan. */
  lemma PlanIsDetermined(values: seq<Value>, nodes: seq<NodeDesc>, outputs: seq<string>, plan: Plan, other: Plan)
    requires Buildable(values, nodes, outputs) && PlanFor(values, nodes, outputs, plan) &&
      PlanFor(values, nodes, outputs, other)
    ensures plan == other
  {
    var lives := Lives(PlanEvents(values, nodes, outputs));
    var a :| Intervals(a, lives) && plan == PlaceAll(a).plan;
    var b :| Intervals(b, lives) && other == PlaceAll(b).plan;
    SortedIsUnique(a, b);
  }

  lemma LivesOfPlan(values: seq<Value>, nodes: seq<NodeDesc>, outputs: seq<string>)
    requires Buildable(values, nodes, outputs)
    ensures nodes[..|nodes|] == nodes
    ensures Lives(PlanEvents(values, nodes, outputs)) ==
      NoteAll(NoteAll(Lives(ValueEvents(values)), NodeEvents(Named(values), nodes, |nodes|)),
        VisibleEvents(Named(values), outputs, |nodes|))
  {
    assert nodes[..|nodes|] == nodes;
    var a, b, c := ValueEvents(values), NodeEvents(Named(values), nodes, |nodes|),
      VisibleEvents(Named(values), outputs, |nodes|);
    LivesIsNoteAll(a + (b + c));
    LivesIsNoteAll(a);
    NoteAllConcat(map[], a, b + c);
    NoteAllConcat(Lives(a), b, c);
  }

  lemma {:induction false} InputEventsHave(named: map<string, Value>, inputs: seq<string>, i: nat)
    requires ResolvedOrEmpty(named, inputs)
    ensures forall k :: 0 <= k < |inputs| && inputs[k] != "" ==>
      Reads(named[inputs[k]].group, i) in InputEvents(named, inputs, i)
    ensures forall e :: e in InputEvents(named, inputs, i) ==> e.Reads? && e.node == i
  {
    if inputs != [] {
      InputEventsHave(named, inputs[..|inputs| - 1], i);
    }
  }

  lemma OutputEventsHave(named: map<string, Value>, outputs: seq<string>, i: nat)
    requires Resolved(named, outputs)
    ensures forall k :: 0 <= k < |outputs| ==> Writes(named[outputs[k]].group, i) in OutputEvents(named, outputs, i)
    ensures forall k :: 0 <= k < |outputs| ==> Visible(named[outputs[k]].group, i) in VisibleEvents(named, outputs, i)
  {
    forall k | 0 <= k < |outputs|
      ensures Writes(named[outputs[k]].group, i) in OutputEvents(named, outputs, i)
      ensures Visible(named[outputs[k]].group, i) in VisibleEvents(named, outputs, i)
    {
      assert OutputEvents(named, outputs, i)[k] == Writes(named[outputs[k]].group, i);
      assert VisibleEvents(named, outputs, i)[k] == Visible(named[outputs[k]].group, i);
    }
  }

  ghost predicate NodeNoted(named: map<string, Value>, node: NodeDesc, i: nat, events: seq<Event>)
    requires NodeResolved(named, node)
  {
    (forall k :: 0 <= k < |node.outputs| ==> Writes(named[node.outputs[k]].group, i) in events) &&
    (forall k :: 0 <= k < |node.inputs| && node.inputs[k] != "" ==> Reads(named[node.inputs[k]].group, i) in events)
  }

  lemma {:induction false} NodeEventsHave(named: map<string, Value>, nodes: seq<NodeDesc>, n: nat, i: nat)
    requires i < n <= |nodes| && NodesResolved(named, nodes[..n])
    ensures NodeResolved(named, nodes[i]) && NodeNoted(named, nodes[i], i, NodeEvents(named, nodes, n))
  {
    assert nodes[..n - 1] == nodes[..n][..n - 1] && NodeResolved(named, nodes[..n][n - 1]);
    if i == n - 1 {
      InputEventsHave(named, nodes[i].inputs, i);
      OutputEventsHave(named, nodes[i].outputs, i);
    } else {
      NodeEventsHave(named, nodes, n - 1, i);
    }
  }

  lemma {:induction false} NodeEventsInOrder(named: map<string, Value>, nodes: seq<NodeDesc>, n: nat)
    requires n <= |nodes| && NodesResolved(named, nodes[..n])
    ensures forall e :: e in NodeEvents(named, nodes, n) ==> (e.Writes? || e.Reads?) && e.node < n
  {
    if n > 0 {
      assert nodes[..n - 1] == nodes[..n][..n - 1] && NodeResolved(named, nodes[..n][n - 1]);
      NodeEventsInOrder(named, nodes, n - 1);
      InputEventsHave(named, nodes[n - 1].inputs, n - 1);
    }
  }

  lemma PlanEventsInOrder(values: seq<Value>, nodes: seq<NodeDesc>, outputs: seq<string>)
    requires Buildable(values, nodes, outputs)
    ensures InOrder(PlanEvents(values, nodes, outputs), |nodes|)
  {
    assert nodes[..|nodes|] == nodes;
    NodeEventsInOrder(Named(values), nodes, |nodes|);
  }

  // The lifetime of a group covers every node that touches it, and the end of the run if it is visible.
  ghost predicate Covers(life: Lifetime, g: nat, values: seq<Value>, nodes: seq<NodeDesc>, outputs: seq<string>)
    requires Buildable(values, nodes, outputs)
  {
    var named := Named(values);
    (forall k :: 0 <= k < |values| && values[k].group == g ==>
      values[k].offset + values[k].bytes <= life.bytes && (values[k].seed ==> life.pinned)) &&
    (forall i, k :: 0 <= i < |nodes| && 0 <= k < |nodes[i].outputs| && named[nodes[i].outputs[k]].group == g ==>
      life.produced && life.used && life.first <= i <= life.last) &&
    (forall i, k ::
      (0 <= i < |nodes| && 0 <= k < |nodes[i].inputs| && nodes[i].inputs[k] != "" &&
       named[nodes[i].inputs[k]].group == g) ==>
      i <= life.last) &&
    (forall k :: 0 <= k < |outputs| && named[outputs[k]].group == g ==> life.last == |nodes|)
  }

  lemma LifetimeCovers(values: seq<Value>, nodes: seq<NodeDesc>, outputs: seq<string>, g: nat)
    requires Buildable(values, nodes, outputs)
    ensures Covers(Get(Lives(PlanEvents(values, nodes, outputs)), g), g, values, nodes, outputs)
    ensures var life := Get(Lives(PlanEvents(values, nodes, outputs)), g); life.produced ==>
      life.first <= life.last <= |nodes|
  {
    assert nodes[..|nodes|] == nodes;
    var named, events := Named(values), PlanEvents(values, nodes, outputs);
    var life := Get(Lives(events), g);
    PlanEventsInOrder(values, nodes, outputs);
    LivesSized(events, g);
    LivesStart(events, g);
    LivesEnd(events, g, |nodes|);
    forall k | 0 <= k < |values| && values[k].group == g
      ensures values[k].offset + values[k].bytes <= life.bytes && (values[k].seed ==> life.pinned)
    {
      assert ValueEvents(values)[k] in events;
    }
    forall i, k | 0 <= i < |nodes| && 0 <= k < |nodes[i].outputs| && named[nodes[i].outputs[k]].group == g
      ensures life.produced && life.used && life.first <= i <= life.last
    {
      NodeEventsHave(named, nodes, |nodes|, i);
      assert Writes(g, i) in events && Touches(events, g, i);
    }
    forall i, k | 0 <= i < |nodes| && 0 <= k < |nodes[i].inputs| && nodes[i].inputs[k] != "" &&
      named[nodes[i].inputs[k]].group == g
      ensures i <= life.last
    {
      NodeEventsHave(named, nodes, |nodes|, i);
      assert Reads(g, i) in events && Touches(events, g, i);
    }
    OutputEventsHave(named, outputs, |nodes|);
    forall k | 0 <= k < |outputs| && named[outputs[k]].group == g ensures life.last == |nodes| {
      assert Visible(g, |nodes|) in events && Touches(events, g, |nodes|);
    }
    if life.produced { assert Touches(events, g, life.first); }
  }

  lemma IntervalsForward(values: seq<Value>, nodes: seq<NodeDesc>, outputs: seq<string>, intervals: seq<Allocation>)
    requires Buildable(values, nodes, outputs) && Intervals(intervals, Lives(PlanEvents(values, nodes, outputs)))
    ensures Forward(intervals) && forall k :: 0 <= k < |intervals| ==> intervals[k].last <= |nodes|
  {
    forall k | 0 <= k < |intervals| ensures intervals[k].first <= intervals[k].last <= |nodes| {
      assert intervals[k] in intervals;
      LifetimeCovers(values, nodes, outputs, intervals[k].group);
    }
  }

  // An aligned allocation inside the arena, live within a run of n nodes.
  ghost predicate Fitted(a: Allocation, arena: nat, n: nat) {
    a.offset % 64 == 0 && a.offset + a.bytes <= arena && a.first <= a.last <= n
  }

  // What the compiler promises of a plan for a graph of n nodes.
  ghost predicate Sound(plan: Plan, n: nat) {
    (forall j, k, t: nat :: 0 <= j < k < |plan.allocations| && Meet(plan.allocations[j], plan.allocations[k]) ==>
      !(LiveAt(plan.allocations[j], t) && LiveAt(plan.allocations[k], t))) &&
    (forall k :: 0 <= k < |plan.allocations| ==> Fitted(plan.allocations[k], plan.arena, n)) &&
    (forall t: nat :: RoundedLive(plan.allocations, t) <= plan.arena) &&
    plan.arena <= plan.unshared
  }

  lemma AllocationFitted(intervals: seq<Allocation>, k: nat, n: nat)
    requires Forward(intervals) && k < |intervals| && intervals[k].last <= n
    ensures var plan := PlaceAll(intervals).plan; |plan.allocations| == |intervals| && Fitted(plan.allocations[k],
      plan.arena, n)
  {
    ArenaFits(intervals, k);
    PlacementIsStacked(intervals);
  }

  lemma PlacementIsSound(intervals: seq<Allocation>, plan: Plan, n: nat)
    requires Forward(intervals) && plan == PlaceAll(intervals).plan &&
      forall k :: 0 <= k < |intervals| ==> intervals[k].last <= n
    ensures Sound(plan, n)
  {
    if intervals != [] { ArenaFits(intervals, 0); }
    forall j, k, t: nat | 0 <= j < k < |plan.allocations| && Meet(plan.allocations[j], plan.allocations[k])
      ensures !(LiveAt(plan.allocations[j], t) && LiveAt(plan.allocations[k], t))
    {
      ArenaIsSafe(intervals, j, k, t);
    }
    forall k | 0 <= k < |plan.allocations|
      ensures Fitted(plan.allocations[k], plan.arena, n)
    {
      AllocationFitted(intervals, k, n);
    }
    forall t: nat ensures RoundedLive(plan.allocations, t) <= plan.arena { ArenaHoldsLive(intervals, t); }
    ArenaIsNoLarger(intervals);
  }

  /** The plan of any buildable graph, for any numbering of its groups, is sound. */
  lemma PlanIsSound(values: seq<Value>, nodes: seq<NodeDesc>, outputs: seq<string>, intervals: seq<Allocation>)
    requires Buildable(values, nodes, outputs) && Intervals(intervals, Lives(PlanEvents(values, nodes, outputs)))
    ensures Sound(PlaceAll(intervals).plan, |nodes|)
  {
    IntervalsForward(values, nodes, outputs, intervals);
    PlacementIsSound(intervals, PlaceAll(intervals).plan, |nodes|);
  }
}
