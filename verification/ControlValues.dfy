/**
 Freezing the values that decide shapes at build time, with everything they are derived from.
 */
module ControlValues {
  import opened Wrappers
  import opened DependencyOrder

  // `shapeSlots` are the inputs whose contents decide shapes; an operator that only looks
  // at descriptors derives nothing from the contents of its inputs.
  datatype ControlNode = ControlNode(inputs: seq<string>, shapeSlots: seq<nat>, descriptorOnly: bool, removed: bool)

  // `producers` gives a value's producer as a node position; `buildTime` the values known when building;
  // `payload` the contents of the tensors that are available and large enough.
  datatype Controls = Controls(nodes: seq<ControlNode>, producers: map<string, nat>, buildTime: set<string>,
                               payload: map<string, seq<byte>>)

  // v was computed while building, from the contents of u: by an active node that reads u and
  // looks at more than descriptors.
  ghost predicate DerivedFrom(c: Controls, v: string, u: string) {
    v in c.buildTime && u != "" &&
    exists i: nat :: i < |c.nodes| && v in c.producers && c.producers[v] == i &&
      !c.nodes[i].removed && !c.nodes[i].descriptorOnly && u in c.nodes[i].inputs
  }

  // All inputs of the node that computed v while building from their contents, empty names included.
  function Feeds(c: Controls, v: string): seq<string> {
    if v in c.producers && c.producers[v] < |c.nodes| && !c.nodes[c.producers[v]].removed &&
       !c.nodes[c.producers[v]].descriptorOnly && v in c.buildTime
    then c.nodes[c.producers[v]].inputs
    else []
  }

  lemma FeedsAreSources(c: Controls, v: string)
    ensures forall u :: DerivedFrom(c, v, u) <==> u in Feeds(c, v) && u != ""
  {
  }

  ghost predicate ShapeInput(c: Controls, v: string) {
    v != "" && exists i: nat,
    k: nat :: i < |c.nodes| && !c.nodes[i].removed && k < |c.nodes[i].shapeSlots| && Slot(c.nodes[i], k, v)
  }

  ghost predicate Slot(node: ControlNode, k: nat, v: string)
    requires k < |node.shapeSlots|
  {
    node.shapeSlots[k] < |node.inputs| && node.inputs[node.shapeSlots[k]] == v
  }

  // Contains the earlier controls and all shape inputs, and with a derived value what it came from.
  ghost predicate ClosedOver(c: Controls, earlier: set<string>, values: set<string>) {
    earlier <= values && (forall v :: ShapeInput(c, v) ==> v in values) &&
      forall v :: v in values ==> FeedsIn(c, v, values)
  }

  ghost predicate FeedsIn(c: Controls, v: string, values: set<string>) {
    forall u :: DerivedFrom(c, v, u) ==> u in values
  }

  // In every such set.
  ghost predicate Required(c: Controls, earlier: set<string>, v: string) {
    forall values :: ClosedOver(c, earlier, values) ==> v in values
  }

  ghost predicate Freezable(c: Controls, frozen: map<string, seq<byte>>, v: string) {
    v in c.payload && (v in frozen ==> frozen[v] == c.payload[v])
  }

  function Inputs(nodes: seq<ControlNode>): (r: set<string>)
    ensures forall i: nat, v :: i < |nodes| && v in nodes[i].inputs ==> v in r
  {
    if nodes == [] then {} else Inputs(nodes[..|nodes| - 1]) + Elements(nodes[|nodes| - 1].inputs)
  }

  function Elements(names: seq<string>): set<string> { set v | v in names }

  lemma FeedsAreInputs(c: Controls, v: string)
    ensures forall u :: u in Feeds(c, v) ==> u in Inputs(c.nodes)
  {
  }

  // `pending` lists, once each, the known dependencies still to be frozen.
  ghost predicate Collecting(c: Controls, earlier: set<string>, known: set<string>, pending: seq<string>) {
    Distinct(pending) && (forall v :: v in pending ==> v in known) && forall v :: v in known ==> Required(c, earlier, v)
  }

  method Note(ghost c: Controls, ghost earlier: set<string>, known: set<string>, pending: seq<string>, v: string)
    returns (k: set<string>, p: seq<string>)
    requires Collecting(c, earlier, known, pending) && Required(c, earlier, v)
    ensures Collecting(c, earlier, k, p) && k == known + {v} && (v in known ==> p == pending) &&
      (v !in known ==> p == pending + [v])
  {
    k, p := known, pending;
    if v !in known { k, p := known + {v}, pending + [v]; }
    assert k == known + {v};
  }

  class ControlTable {
    var frozen: map<string, seq<byte>>

    constructor ()
      ensures frozen == map[]
    {
      frozen := map[];
    }

    // The earlier controls and the shape inputs of active nodes.
    method Roots(c: Controls) returns (known: set<string>, pending: seq<string>)
      ensures Collecting(c, frozen.Keys, known, pending) && forall v :: v in pending <==> v in known
      ensures frozen.Keys <= known && forall v :: ShapeInput(c, v) ==> v in known
    {
      known, pending := {}, [];
      var left := frozen.Keys;
      while left != {}
        invariant left <= frozen.Keys && known == frozen.Keys - left
        invariant Collecting(c, frozen.Keys, known, pending) && forall v :: v in pending <==> v in known
      {
        var v :| v in left;
        known, pending := Note(c, frozen.Keys, known, pending, v);
        left := left - {v};
      }
      for i := 0 to |c.nodes|
        invariant frozen.Keys <= known
        invariant Collecting(c, frozen.Keys, known, pending) && forall v :: v in pending <==> v in known
        invariant forall j: nat, k: nat, v ::
          (j < i && !c.nodes[j].removed && k < |c.nodes[j].shapeSlots| && Slot(c.nodes[j], k, v) && v != "") ==>
            v in known
      {
        if !c.nodes[i].removed { known, pending := NodeRoots(c, i, known, pending); }
      }
    }

    method NodeRoots(c: Controls, i: nat, known: set<string>, pending: seq<string>)
      returns (more: set<string>, p: seq<string>)
      requires i < |c.nodes| && !c.nodes[i].removed
      requires Collecting(c, frozen.Keys, known, pending) && forall v :: v in pending <==> v in known
      ensures Collecting(c, frozen.Keys, more, p) && (forall v :: v in p <==> v in more) && known <= more
      ensures forall k: nat, v :: k < |c.nodes[i].shapeSlots| && Slot(c.nodes[i], k, v) && v != "" ==> v in more
    {
      more, p := known, pending;
      var node := c.nodes[i];
      for k := 0 to |node.shapeSlots|
        invariant Collecting(c, frozen.Keys, more, p) && (forall v :: v in p <==> v in more) && known <= more
        invariant forall l: nat, v :: l < k && Slot(node, l, v) && v != "" ==> v in more
      {
        var slot := node.shapeSlots[k];
        if slot < |node.inputs| && node.inputs[slot] != "" {
          var v := node.inputs[slot];
          assert Slot(node, k, v) && ShapeInput(c, v);
          more, p := Note(c, frozen.Keys, more, p, v);
        }
      }
    }

    // Adds what a frozen value was derived from.
    method AddFeeds(c: Controls, ghost earlier: set<string>, v: string, known: set<string>, pending: seq<string>)
      returns (more: set<string>, p: seq<string>)
      requires Collecting(c, earlier, known, pending) && v in known
      ensures Collecting(c, earlier, more, p) && FeedsIn(c, v, more) && known <= more <= known + Inputs(c.nodes)
      ensures pending <= p && (more == known ==> p == pending) &&
        forall u :: u in p <==> u in pending || (u in more && u !in known)
    {
      more, p := known, pending;
      var feeds := Feeds(c, v);
      FeedsAreInputs(c, v);
      FeedsAreSources(c, v);
      for k := 0 to |feeds|
        invariant Collecting(c, earlier, more, p) && known <= more <= known + Inputs(c.nodes)
        invariant forall l :: 0 <= l < k && feeds[l] != "" ==> feeds[l] in more
        invariant pending <= p && (more == known ==> p == pending) &&
          forall u :: u in p <==> u in pending || (u in more && u !in known)
      {
        if feeds[k] != "" {
          assert DerivedFrom(c, v, feeds[k]);
          RequiredFeeds(c, earlier, v, feeds[k]);
          more, p := Note(c, earlier, more, p, feeds[k]);
        }
      }
    }

    // Freezes one value and adds what it was derived from.
    method Freeze(c: Controls, ghost earlier: map<string, seq<byte>>, v: string, known: set<string>,
                  pending: seq<string>)
      returns (more: set<string>, p: seq<string>)
      requires Collecting(c, earlier.Keys, known, pending + [v]) &&
        Progress(c, earlier, frozen, known, pending + [v]) && v in c.payload
      requires v in earlier ==> earlier[v] == c.payload[v]
      modifies this
      ensures Collecting(c, earlier.Keys, more, p) && Progress(c, earlier, frozen, more, p)
      ensures known <= more <= known + Inputs(c.nodes) && (more == known ==> p == pending)
    {
      LastPending(c, earlier.Keys, known, pending, v);
      frozen := frozen[v := c.payload[v]];
      more, p := AddFeeds(c, earlier.Keys, v, known, pending);
      Progresses(c, earlier, old(frozen), known, pending, v, more, p);
    }

    /**
     Freezes exactly the required values. It fails exactly if one of them is unavailable or differs
     from what was frozen before; what was frozen before never changes.
     */
    method RecordControlValues(c: Controls) returns (ok: bool)
      modifies this
      ensures forall v :: v in old(frozen) ==> v in frozen && frozen[v] == old(frozen)[v]
      ensures ok ==> ClosedOver(c, old(frozen).Keys, frozen.Keys) && forall v :: v in frozen ==>
        Required(c, old(frozen).Keys, v)
      ensures ok ==> forall v, u :: v in frozen && DerivedFrom(c, v, u) ==> u in frozen
      ensures ok ==> forall u :: u in frozen ==> Justified(c, old(frozen).Keys, frozen.Keys, u)
      ensures ok ==> forall v :: v in frozen ==> v in c.payload && frozen[v] == c.payload[v]
      ensures !ok ==> exists v :: Required(c, old(frozen).Keys, v) && !Freezable(c, old(frozen), v)
    {
      ghost var earlier := frozen.Keys;
      var known, pending := Roots(c);
      ghost var bound := known + Inputs(c.nodes);
      while pending != []
        invariant Collecting(c, earlier, known, pending) && known <= bound
        invariant Progress(c, old(frozen), frozen, known, pending)
        decreases bound - known, |pending|
      {
        var last := |pending| - 1;
        var v := pending[last];
        assert pending == pending[..last] + [v] && v in pending;
        assert Required(c, earlier, v);
        if v !in c.payload || (v in frozen && frozen[v] != c.payload[v]) {
          assert !Freezable(c, old(frozen), v);
          return false;
        }
        known, pending := Freeze(c, old(frozen), v, known, pending[..last]);
      }
      AllFrozen(c, old(frozen), frozen, known);
      forall v, u | v in frozen && DerivedFrom(c, v, u) ensures u in frozen { assert FeedsIn(c, v, frozen.Keys); }
      forall u | u in frozen ensures Justified(c, old(frozen).Keys, frozen.Keys, u) {
        LeastIsJustified(c, old(frozen).Keys, frozen.Keys, u);
      }
      ok := true;
    }
  }

  // Earlier entries are kept; processed values are frozen and their feeds known.
  ghost predicate Progress(c: Controls, earlier: map<string, seq<byte>>, frozen: map<string, seq<byte>>,
    known: set<string>, pending: seq<string>) {
    earlier.Keys <= known && (forall v :: ShapeInput(c, v) ==> v in known) &&
    (forall v :: v in earlier ==> v in frozen && frozen[v] == earlier[v]) &&
    (forall v :: v in frozen ==> v in known && (v in earlier || v !in pending)) &&
    (forall v :: v in known && v !in pending ==>
      FeedsIn(c, v, known) && v in frozen && v in c.payload && frozen[v] == c.payload[v])
  }

  lemma LastPending(c: Controls, earlier: set<string>, known: set<string>, pending: seq<string>, v: string)
    requires Collecting(c, earlier, known, pending + [v])
    ensures Collecting(c, earlier, known, pending) && v !in pending && v in known
  {
    var all := pending + [v];
    assert all[|pending|] == v;
    forall i | 0 <= i < |pending| ensures pending[i] in known && pending[i] != v { assert all[i] == pending[i]; }
    forall i, j | 0 <= i < j < |pending|
      ensures pending[i] != pending[j]
    {
      assert all[i] == pending[i] && all[j] == pending[j];
    }
  }

  lemma FeedsInMore(c: Controls, v: string, known: set<string>, more: set<string>)
    requires FeedsIn(c, v, known) && known <= more
    ensures FeedsIn(c, v, more)
  {
  }

  lemma Progresses(c: Controls, earlier: map<string, seq<byte>>, frozen: map<string, seq<byte>>, known: set<string>,
                   pending: seq<string>, v: string,
                   more: set<string>, p: seq<string>)
    requires Progress(c, earlier, frozen, known, pending + [v]) && v !in pending && v in known && v in c.payload
    requires v in earlier ==> earlier[v] == c.payload[v]
    requires FeedsIn(c, v, more) && known <= more && forall u :: u in p <==> u in pending || (u in more && u !in known)
    ensures Progress(c, earlier, frozen[v := c.payload[v]], more, p)
  {
    var next := frozen[v := c.payload[v]];
    forall u | u in more && u !in p
      ensures FeedsIn(c, u, more) && u in next && u in c.payload && next[u] == c.payload[u]
    {
      if u != v {
        assert u in known && u !in pending + [v];
        FeedsInMore(c, u, known, more);
      }
    }
    forall u | u in next ensures u in more && (u in earlier || u !in p) { assert u != v ==> u in frozen; }
  }

  lemma AllFrozen(c: Controls, earlier: map<string, seq<byte>>, frozen: map<string, seq<byte>>, known: set<string>)
    requires Progress(c, earlier, frozen, known, [])
    ensures frozen.Keys == known && ClosedOver(c, earlier.Keys, known)
    ensures forall v :: v in frozen ==> v in c.payload && frozen[v] == c.payload[v]
  {
  }

  lemma RequiredFeeds(c: Controls, earlier: set<string>, v: string, u: string)
    requires Required(c, earlier, v) && DerivedFrom(c, v, u)
    ensures Required(c, earlier, u)
  {
    forall values | ClosedOver(c, earlier, values) ensures u in values { assert FeedsIn(c, v, values); }
  }

  // A reason to freeze u: it was frozen before, decides a shape, or another value was derived from it.
  ghost predicate Justified(c: Controls, earlier: set<string>, values: set<string>, u: string) {
    u in earlier || ShapeInput(c, u) || exists v :: v in values && v != u && DerivedFrom(c, v, u)
  }

  /** In the least closed set every value has a reason. */
  lemma LeastIsJustified(c: Controls, earlier: set<string>, values: set<string>, u: string)
    requires ClosedOver(c, earlier, values) && u in values && Required(c, earlier, u)
    ensures Justified(c, earlier, values, u)
  {
    if !Justified(c, earlier, values, u) {
      var rest := values - {u};
      forall v | v in rest ensures FeedsIn(c, v, rest) { assert FeedsIn(c, v, values); }
      assert ClosedOver(c, earlier, rest);
    }
  }
}
