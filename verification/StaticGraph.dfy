/**
 A static graph with its def-use index, and the rewrites that keep the index exact.
 Creating an operator is outside the model: a rewrite that rebuilds a node is given what
 creating its operator yields.
 */
module StaticGraphs {
  import opened DependencyOrder
  import opened GraphMeaning
  import Model = GraphOrder

  datatype Desc = Desc(dims: seq<int>, dtype: nat, layout: nat)

  type Users = map<string, seq<string>>

  // ---- The index ----

  ghost predicate Uses(users: Users, v: string, n: string) { v in users && n in users[v] }

  // No empty list and no duplicate.
  ghost predicate Tidy(users: Users) { forall v :: v in users ==> users[v] != [] && Distinct(users[v]) }

  // An active node of that name reads the value.
  ghost predicate ReadBy(nodes: seq<Node>, v: string, n: string) {
    exists i: nat :: i < |nodes| && !nodes[i].removed && nodes[i].name == n && v in nodes[i].inputs
  }

  // The users of a named value are exactly the active nodes that read it; the empty name has none.
  ghost predicate UsersExact(nodes: seq<Node>, users: Users) {
    Tidy(users) && forall v, n :: Uses(users, v, n) <==> v != "" && ReadBy(nodes, v, n)
  }

  // The producers are exactly the active nodes, under the values they output.
  ghost predicate ProducersExact(nodes: seq<Node>, producers: map<string, string>) {
    (forall v :: v in producers ==> exists i: nat :: Makes(nodes, i, v) && nodes[i].name == producers[v]) &&
    (forall i: nat, v :: Makes(nodes, i, v) ==> v in producers && producers[v] == nodes[i].name)
  }

  ghost predicate Makes(nodes: seq<Node>, i: nat, v: string) {
    i < |nodes| && !nodes[i].removed && v in nodes[i].outputs
  }

  // Each node is found under its name.
  ghost predicate IndexExact(nodes: seq<Node>, index: map<string, nat>) {
    (forall i: nat :: i < |nodes| ==> nodes[i].name in index && index[nodes[i].name] == i) &&
    (forall n :: n in index ==> index[n] < |nodes| && nodes[index[n]].name == n)
  }

  ghost predicate OutputsNamed(nodes: seq<Node>) { forall i: nat :: i < |nodes| ==> "" !in nodes[i].outputs }

  function Erased(names: seq<string>, n: string): (r: seq<string>)
    ensures forall m :: m in r <==> m in names && m != n
  {
    if names == [] then [] else
      assert names == names[..|names| - 1] + [names[|names| - 1]];
      Erased(names[..|names| - 1], n) + if names[|names| - 1] == n then [] else [names[|names| - 1]]
  }

  lemma {:induction false} ErasedDistinct(names: seq<string>, n: string)
    requires Distinct(names)
    ensures Distinct(Erased(names, n))
  {
    if names != [] {
      var last := names[|names| - 1];
      ErasedDistinct(names[..|names| - 1], n);
      assert last !in names[..|names| - 1];
    }
  }

  // ---- Alias chains ----

  function Next(aliases: map<string, string>, o: string): string { if o in aliases then aliases[o] else o }

  lemma {:induction false} FollowOneMore(aliases: map<string, string>, o: string, n: nat)
    ensures Follow(aliases, o, n + 1) == Next(aliases, Follow(aliases, o, n))
    decreases n
  {
    if n > 0 { FollowOneMore(aliases, Next(aliases, o), n - 1); }
  }

  lemma {:induction false} ChainStaysInside(aliases: map<string, string>, o: string, names: set<string>, n: nat)
    requires o in names && forall x :: x in names ==> Next(aliases, x) in names
    ensures Follow(aliases, o, n) in names
    decreases n
  {
    if n > 0 { ChainStaysInside(aliases, Next(aliases, o), names, n - 1); }
  }

  ghost predicate OnChain(aliases: map<string, string>, o: string, v: string) {
    exists n: nat :: Follow(aliases, o, n) == v
  }

  /** The chain from o is the least set with o that has, with a name, the value the name is an alias of. */
  lemma ChainIsLeast(aliases: map<string, string>, o: string)
    ensures OnChain(aliases, o, o)
    ensures forall v :: OnChain(aliases, o, v) && v in aliases ==> OnChain(aliases, o, aliases[v])
    ensures forall names: set<string> ::
      (o in names && forall v :: v in names && v in aliases ==> aliases[v] in names) ==>
        (forall v :: OnChain(aliases, o, v) ==> v in names)
  {
    assert Follow(aliases, o, 0) == o;
    forall v | OnChain(aliases, o, v) && v in aliases ensures OnChain(aliases, o, aliases[v]) {
      var n: nat :| Follow(aliases, o, n) == v;
      FollowOneMore(aliases, o, n);
    }
    forall names: set<string>, v | o in names && (forall w :: w in names && w in aliases ==> aliases[w] in names) &&
      OnChain(aliases, o, v)
      ensures v in names
    {
      var n: nat :| Follow(aliases, o, n) == v;
      ChainStaysInside(aliases, o, names, n);
    }
  }

  // Follows one chain, stopping at its end or when it comes round again.
  method SearchChain(aliases: map<string, string>, o: string, v: string) returns (found: bool)
    ensures found <==> OnChain(aliases, o, v)
  {
    var current, visited: set<string> := o, {};
    ghost var k: nat := 0;
    while current !in visited
      invariant current == Follow(aliases, o, k)
      invariant v !in visited && visited <= aliases.Keys && (o in visited || o == current)
      invariant forall x :: x in visited ==> Next(aliases, x) in visited + {current}
      decreases aliases.Keys - visited
    {
      visited := visited + {current};
      if current == v { return true; }
      if current !in aliases {
        forall n: nat ensures Follow(aliases, o, n) in visited { ChainStaysInside(aliases, o, visited, n); }
        return false;
      }
      FollowOneMore(aliases, o, k);
      k := k + 1;
      current := aliases[current];
    }
    forall n: nat ensures Follow(aliases, o, n) in visited { ChainStaysInside(aliases, o, visited, n); }
    found := false;
  }

  // User n of v once node `name` reads `to` wherever it read `from`.
  ghost predicate UsesRenamed(users: Users, v: string, n: string, name: string, from: string, to: string) {
    (v == to && n == name) || (Uses(users, v, n) && !(v == from && n == name))
  }

  ghost predicate RenamedUses(before: Users, users: Users, replaced: bool, name: string, from: string, to: string) {
    if replaced then forall v, n :: Uses(users, v, n) <==>
      UsesRenamed(before, v, n, name, from, to) else users == before
  }

  lemma RenamedAgain(before: Users, middle: Users, users: Users, replaced: bool, name: string, from: string, to: string)
    requires RenamedUses(before, middle, replaced, name, from, to) && RenamedUses(middle, users, true, name, from, to)
    ensures RenamedUses(before, users, true, name, from, to)
  {
  }

  function Reading(nodes: seq<Node>, i: nat, inputs: seq<string>): (r: seq<Node>)
    requires i < |nodes|
    ensures |r| == |nodes|
  {
    nodes[i := nodes[i].(inputs := inputs)]
  }

  lemma ReadingAgain(nodes: seq<Node>, i: nat, inputs: seq<string>, more: seq<string>)
    requires i < |nodes|
    ensures Reading(Reading(nodes, i, inputs), i, more) == Reading(nodes, i, more) &&
      Reading(nodes, i, nodes[i].inputs) == nodes
    ensures Reading(nodes, i, inputs)[i].inputs == inputs && Reading(nodes, i, inputs)[i].name == nodes[i].name
  {
  }

  // The first k names renamed.
  function PartRenamed(names: seq<string>, from: string, to: string, k: nat): seq<string>
    requires k <= |names|
  {
    Renamed(names[..k], from, to) + names[k..]
  }

  lemma RenamedStarts(names: seq<string>, from: string, to: string)
    ensures PartRenamed(names, from, to, 0) == names &&
      PartRenamed(names, from, to, |names|) == Renamed(names, from, to)
    ensures names[..|names|] == names
  {
  }

  lemma RenamedSteps(names: seq<string>, from: string, to: string, k: nat)
    requires k < |names|
    ensures var part := PartRenamed(names, from, to, k);
      |part| == |names| && part[k] == names[k] &&
      PartRenamed(names, from, to, k + 1) == if names[k] == from then part[k := to] else part
    ensures from in names[..k + 1] <==> from in names[..k] || names[k] == from
  {
    assert names[..k + 1] == names[..k] + [names[k]];
  }

  ghost predicate CanExpose(g: Graph, tensors: map<string, Desc>, i: nat) {
    Active(g, i) && |g.nodes[i].inputs| == |g.nodes[i].outputs| == 1 &&
    g.nodes[i].outputs[0] in g.outputs && !Read(g, g.nodes[i].outputs[0]) &&
    g.nodes[i].inputs[0] in tensors && g.nodes[i].outputs[0] in tensors &&
      tensors[g.nodes[i].inputs[0]] == tensors[g.nodes[i].outputs[0]]
  }

  // None of the values is public or read.
  ghost predicate Unmissed(g: Graph, vs: seq<string>) { forall v :: v in vs ==> !Exposed(g, v) && !Read(g, v) }

  // ---- What changing nodes does to the index ----

  lemma UsersAreReaders(nodes: seq<Node>, users: Users, g: Graph, v: string)
    requires UsersExact(nodes, users) && g.nodes == nodes && v != ""
    ensures v in users <==> Read(g, v)
  {
    if v in users {
      assert Uses(users, v, users[v][0]);
      var i: nat :| i < |nodes| && !nodes[i].removed && nodes[i].name == users[v][0] && v in nodes[i].inputs;
      assert Active(g, i);
    }
    if Read(g, v) {
      var i: nat :| Active(g, i) && v in g.nodes[i].inputs;
      assert ReadBy(nodes, v, nodes[i].name);
      assert Uses(users, v, nodes[i].name);
    }
  }

  // Unregistering a removed node's inputs.
  lemma RemovedUsers(nodes: seq<Node>, users: Users, i: nat, after: Users)
    requires i < |nodes| && !nodes[i].removed && UsersExact(nodes, users) && Tidy(after) && OneName(nodes)
    requires forall v, n :: Uses(after, v, n) <==> Uses(users, v, n) && !(v in nodes[i].inputs && n == nodes[i].name)
    ensures UsersExact(nodes[i := nodes[i].(removed := true)], after)
  {
    var next := nodes[i := nodes[i].(removed := true)];
    forall v, n ensures ReadBy(next, v, n) <==> ReadBy(nodes, v, n) && !(v in nodes[i].inputs && n == nodes[i].name) {
      ReadersWithout(nodes, i, v, n);
    }
  }

  ghost predicate OneName(nodes: seq<Node>) {
    forall i: nat, j: nat :: i < |nodes| && j < |nodes| && nodes[i].name == nodes[j].name ==> i == j
  }

  lemma NamesAreUnique(nodes: seq<Node>, index: map<string, nat>)
    requires IndexExact(nodes, index)
    ensures OneName(nodes)
  {
  }

  lemma ReadersWithout(nodes: seq<Node>, i: nat, v: string, n: string)
    requires i < |nodes| && !nodes[i].removed && OneName(nodes)
    ensures ReadBy(nodes[i := nodes[i].(removed := true)], v, n) <==>
      ReadBy(nodes, v, n) && !(v in nodes[i].inputs && n == nodes[i].name)
  {
    var next := nodes[i := nodes[i].(removed := true)];
    if ReadBy(next, v, n) {
      var j: nat :| j < |next| && !next[j].removed && next[j].name == n && v in next[j].inputs;
      assert nodes[j].name == n && v in nodes[j].inputs;
    }
    if ReadBy(nodes, v, n) && !(v in nodes[i].inputs && n == nodes[i].name) {
      var j: nat :| j < |nodes| && !nodes[j].removed && nodes[j].name == n && v in nodes[j].inputs;
      assert next[j].name == n;
    }
  }

  lemma RemovedProducers(nodes: seq<Node>, producers: map<string, string>, index: map<string, nat>, i: nat,
                         after: map<string, string>)
    requires i < |nodes| && !nodes[i].removed && ProducersExact(nodes, producers) && IndexExact(nodes, index)
    requires forall v :: v in after <==> v in producers && !(v in nodes[i].outputs && producers[v] == nodes[i].name)
    requires forall v :: v in after ==> after[v] == producers[v]
    ensures ProducersExact(nodes[i := nodes[i].(removed := true)], after)
  {
    var next := nodes[i := nodes[i].(removed := true)];
    forall v | v in after ensures exists j: nat :: Makes(next, j, v) && next[j].name == after[v] {
      var j: nat :| Makes(nodes, j, v) && nodes[j].name == producers[v];
      assert Makes(next, j, v);
    }
    forall j: nat, v | Makes(next, j, v) ensures v in after && after[v] == next[j].name {
      assert Makes(nodes, j, v);
      assert nodes[j].name in index && nodes[i].name in index;
    }
  }

  // Node i reads other inputs now.
  lemma ChangedUsers(nodes: seq<Node>, users: Users, i: nat, node: Node, after: Users)
    requires i < |nodes| && node.name == nodes[i].name && !node.removed && UsersExact(nodes, users) && Tidy(after) &&
      OneName(nodes)
    requires forall v, n :: Uses(after, v, n) <==> if n == node.name then v != "" &&
      v in node.inputs else Uses(users, v, n)
    ensures UsersExact(nodes[i := node], after)
  {
    var next := nodes[i := node];
    forall v, n ensures ReadBy(next, v, n) <==> if n == node.name then v in node.inputs else ReadBy(nodes, v, n) {
      ReadersChanged(nodes, i, node, v, n);
    }
  }

  lemma ReadersChanged(nodes: seq<Node>, i: nat, node: Node, v: string, n: string)
    requires i < |nodes| && node.name == nodes[i].name && !node.removed && OneName(nodes)
    ensures ReadBy(nodes[i := node], v, n) <==> if n == node.name then v in node.inputs else ReadBy(nodes, v, n)
  {
    var next := nodes[i := node];
    if ReadBy(next, v, n) {
      var j: nat :| j < |next| && !next[j].removed && next[j].name == n && v in next[j].inputs;
      assert nodes[j].name == n;
    }
    if n == node.name && v in node.inputs { assert next[i].name == n; }
    if n != node.name && ReadBy(nodes, v, n) {
      var j: nat :| j < |nodes| && !nodes[j].removed && nodes[j].name == n && v in nodes[j].inputs;
      assert next[j].name == n;
    }
  }

  // Node i keeps its name and outputs.
  lemma SameProducers(nodes: seq<Node>, producers: map<string, string>, i: nat, node: Node)
    requires i < |nodes| && ProducersExact(nodes, producers)
    requires node.name == nodes[i].name && node.outputs == nodes[i].outputs && node.removed == nodes[i].removed
    ensures ProducersExact(nodes[i := node], producers)
  {
    var next := nodes[i := node];
    forall j: nat, v ensures Makes(next, j, v) <==> Makes(nodes, j, v) {}
  }

  // Node t takes over the outputs of node a, which is removed.
  lemma AbsorbedProducers(nodes: seq<Node>, producers: map<string, string>, index: map<string, nat>, t: nat, a: nat,
                          node: Node, after: map<string, string>)
    requires t < |nodes| && a < |nodes| && t != a && !nodes[t].removed && !nodes[a].removed &&
      IndexExact(nodes, index) && ProducersExact(nodes, producers)
    requires node.name == nodes[t].name && !node.removed && node.outputs == nodes[t].outputs + nodes[a].outputs
    requires forall v :: v in after <==> v in producers || v in node.outputs
    requires forall v :: v in after ==> after[v] == if v in node.outputs then node.name else producers[v]
    ensures ProducersExact(nodes[t := node][a := nodes[a].(removed := true)], after)
  {
    var next := nodes[t := node][a := nodes[a].(removed := true)];
    forall v | v in after ensures exists j: nat :: Makes(next, j, v) && next[j].name == after[v] {
      if v in node.outputs {
        assert Makes(next, t, v);
      } else {
        var j: nat :| Makes(nodes, j, v) && nodes[j].name == producers[v];
        assert Makes(next, j, v);
      }
    }
    forall j: nat, v | Makes(next, j, v) ensures v in after && after[v] == next[j].name {
      if j != t {
        assert Makes(nodes, j, v);
        assert nodes[j].name in index && nodes[t].name in index && nodes[a].name in index;
        assert v in nodes[t].outputs ==> Makes(nodes, t, v);
        assert v in nodes[a].outputs ==> Makes(nodes, a, v);
      }
    }
  }

  // The uses of node i are its inputs.
  lemma OwnUses(nodes: seq<Node>, users: Users, i: nat)
    requires i < |nodes| && !nodes[i].removed && UsersExact(nodes, users) && OneName(nodes)
    ensures forall v :: Uses(users, v, nodes[i].name) <==> v != "" && v in nodes[i].inputs
  {
    forall v ensures ReadBy(nodes, v, nodes[i].name) <==> v in nodes[i].inputs {}
  }

  lemma RenamedMembers(names: seq<string>, from: string, to: string)
    requires from in names
    ensures forall v :: v in Renamed(names, from, to) <==> (v in names && v != from) || v == to
  {
    var r := Renamed(names, from, to);
    forall v | v in names && v != from ensures v in r {
      var k :| 0 <= k < |names| && names[k] == v;
      assert r[k] == v;
    }
    var k :| 0 <= k < |names| && names[k] == from;
    assert r[k] == to;
  }

  lemma RenamedUsers(nodes: seq<Node>, users: Users, index: map<string, nat>, i: nat, from: string, to: string,
                     after: Users)
    requires IndexExact(nodes, index) && UsersExact(nodes, users) && Tidy(after)
    requires i < |nodes| && !nodes[i].removed && from in nodes[i].inputs &&
      RenamedUses(users, after, true, nodes[i].name, from, to)
    ensures UsersExact(Reading(nodes, i, Renamed(nodes[i].inputs, from, to)), after) <==> to != ""
  {
    NamesAreUnique(nodes, index);
    OwnUses(nodes, users, i);
    RenamedMembers(nodes[i].inputs, from, to);
    assert Uses(after, to, nodes[i].name);
    if to != "" { ChangedUsers(nodes, users, i, nodes[i].(inputs := Renamed(nodes[i].inputs, from, to)), after); }
  }

  lemma RenamedNowhere(nodes: seq<Node>, i: nat, from: string, to: string)
    requires i < |nodes| && from !in nodes[i].inputs
    ensures Reading(nodes, i, Renamed(nodes[i].inputs, from, to)) == nodes
  {
    assert Renamed(nodes[i].inputs, from, to) == nodes[i].inputs;
  }

  // Another set of inputs changes neither names nor producers.
  lemma RenamedStructure(nodes: seq<Node>, producers: map<string, string>, index: map<string, nat>, i: nat,
                         from: string, to: string)
    requires i < |nodes| && IndexExact(nodes, index) && OutputsNamed(nodes) && ProducersExact(nodes, producers)
    ensures var next := Reading(nodes, i, Renamed(nodes[i].inputs, from, to));
      IndexExact(next, index) && OutputsNamed(next) && ProducersExact(next, producers)
  {
    SameProducers(nodes, producers, i, nodes[i].(inputs := Renamed(nodes[i].inputs, from, to)));
  }

  // Registering a node as the producer of its own outputs changes nothing.
  lemma BoundProducers(nodes: seq<Node>, producers: map<string, string>, i: nat, bound: nat, after: map<string, string>)
    requires i < |nodes| && !nodes[i].removed && ProducersExact(nodes, producers) && bound <= |nodes[i].outputs|
    requires forall v :: v in after <==> v in producers || v in nodes[i].outputs[..bound]
    requires forall v :: v in after ==>
      after[v] == if v in nodes[i].outputs[..bound] then nodes[i].name else producers[v]
    ensures after == producers
  {
    assert forall v :: v in nodes[i].outputs[..bound] ==> Makes(nodes, i, v);
  }

  lemma ProducersAreOwn(nodes: seq<Node>, producers: map<string, string>, a: nat)
    requires a < |nodes| && !nodes[a].removed && ProducersExact(nodes, producers)
    ensures forall v :: v in nodes[a].outputs ==> v in producers && producers[v] == nodes[a].name
  {
    assert forall v :: v in nodes[a].outputs ==> Makes(nodes, a, v);
  }

  // Creating an operator: refused, or the descriptors of its outputs, the first `restored` of
  // which agree with the declared metadata while the next, if there is one, conflicts with it.
  datatype Creation = Refused | Created(descs: seq<Desc>, restored: nat)

  // The first n values bound to these descriptors.
  function Bindings(tensors: map<string, Desc>, vs: seq<string>, descs: seq<Desc>, n: nat): map<string, Desc>
    requires n <= |vs| && n <= |descs|
  {
    if n == 0 then tensors else Bindings(tensors, vs, descs, n - 1)[vs[n - 1] := descs[n - 1]]
  }

  ghost predicate Rebuilds(node: Node, made: Creation) {
    made.Created? && |made.descs| >= |node.outputs| && made.restored >= |node.outputs|
  }

  ghost predicate Renames(g: Graph, index: map<string, nat>, name: string, from: string) {
    name in index && Active(g, index[name]) && from in g.nodes[index[name]].inputs
  }

  // The checks that come before the first change.
  ghost predicate Replaces(g: Graph, tensors: map<string, Desc>, index: map<string, nat>, desc: Node, made: Creation) {
    desc.name in index && Replaceable(g, tensors, index[desc.name], desc) && made.Created? &&
      |made.descs| == |desc.outputs|
  }

  ghost predicate Replaceable(g: Graph, tensors: map<string, Desc>, i: nat, desc: Node) {
    desc.name != "" && desc.op != "" && Active(g, i) && desc.outputs == g.nodes[i].outputs &&
      forall v :: v in desc.inputs ==> v in tensors
  }

  ghost predicate CanAbsorb(g: Graph, tensors: map<string, Desc>, t: nat, a: nat, desc: Node) {
    desc.name != "" && desc.op != "" && Active(g, t) && Active(g, a) && t != a && g.nodes[a].outputs != [] &&
    desc.outputs == g.nodes[t].outputs + g.nodes[a].outputs && forall v :: v in desc.inputs ==> v in tensors
  }

  ghost predicate Absorbs(g: Graph, tensors: map<string, Desc>, index: map<string, nat>, desc: Node,
    absorbedName: string, made: Creation) {
    desc.name in index && absorbedName in index && CanAbsorb(g, tensors, index[desc.name], index[absorbedName], desc) &&
    made.Created? && |made.descs| == |desc.outputs|
  }

  /** Two active nodes that list one output: no producer table is exact. */
  lemma SharedOutputIsInexact(nodes: seq<Node>, producers: map<string, string>, index: map<string, nat>, t: nat, a: nat,
                              v: string)
    requires IndexExact(nodes, index) && t != a && Makes(nodes, t, v) && Makes(nodes, a, v)
    ensures !ProducersExact(nodes, producers)
  {
  }

  // ---- What a rewrite changes, and what it leaves ----

  ghost predicate OthersKept(before: seq<Node>, after: seq<Node>, i: nat) {
    i < |before| == |after| && forall j :: 0 <= j < |before| && j != i ==> after[j] == before[j]
  }

  // Node i is marked removed, and no other node has changed.
  ghost predicate Gone(before: seq<Node>, after: seq<Node>, i: nat) {
    OthersKept(before, after, i) && !before[i].removed && after[i].removed && after[i].(removed := false) == before[i]
  }

  // The node's outputs have lost their producer, the node has left the users, and nothing else has.
  ghost predicate Unlisted(node: Node, producers: map<string, string>, users: Users, newProducers: map<string, string>,
                           newUsers: Users) {
    (forall v :: v in newProducers <==> v in producers && v !in node.outputs) &&
    (forall v :: v in newProducers ==> newProducers[v] == producers[v]) &&
    (forall v, n :: Uses(newUsers, v, n) <==> Uses(users, v, n) && n != node.name)
  }

  lemma GoneIsUnlisted(nodes: seq<Node>, producers: map<string, string>, users: Users, index: map<string, nat>,
                       i: nat, after: seq<Node>, newProducers: map<string, string>, newUsers: Users)
    requires IndexExact(nodes, index) && ProducersExact(nodes, producers) && UsersExact(nodes, users) &&
      Gone(nodes, after, i)
    requires ProducersExact(after, newProducers) && UsersExact(after, newUsers)
    ensures Unlisted(nodes[i], producers, users, newProducers, newUsers)
  {
    forall v ensures v in newProducers <==> v in producers && v !in nodes[i].outputs {
      ProducerGone(nodes, producers, index, i, after, newProducers, v);
    }
    forall v | v in newProducers ensures newProducers[v] == producers[v] {
      var j: nat :| Makes(after, j, v) && after[j].name == newProducers[v];
      assert Makes(nodes, j, v);
    }
    forall v, n ensures Uses(newUsers, v, n) <==> Uses(users, v, n) && n != nodes[i].name {
      assert Uses(users, v, n) <==> v != "" && ReadBy(nodes, v, n);
      assert Uses(newUsers, v, n) <==> v != "" && ReadBy(after, v, n);
      ReaderGone(nodes, index, i, after, v, n);
    }
  }

  lemma ProducerGone(nodes: seq<Node>, producers: map<string, string>, index: map<string, nat>, i: nat,
                     after: seq<Node>, newProducers: map<string, string>, v: string)
    requires IndexExact(nodes, index) && ProducersExact(nodes, producers) && Gone(nodes, after, i)
    requires ProducersExact(after, newProducers)
    ensures v in newProducers <==> v in producers && v !in nodes[i].outputs
  {
    if v in newProducers {
      var j: nat :| Makes(after, j, v) && after[j].name == newProducers[v];
      assert Makes(nodes, j, v) && j != i;
      assert v in nodes[i].outputs ==> Makes(nodes, i, v);
    }
    if v in producers && v !in nodes[i].outputs {
      var j: nat :| Makes(nodes, j, v) && nodes[j].name == producers[v];
      assert Makes(after, j, v);
    }
  }

  lemma ReaderGone(nodes: seq<Node>, index: map<string, nat>, i: nat, after: seq<Node>, v: string, n: string)
    requires IndexExact(nodes, index) && Gone(nodes, after, i)
    ensures ReadBy(after, v, n) <==> ReadBy(nodes, v, n) && n != nodes[i].name
  {
    NamesAreUnique(nodes, index);
    assert after[i] == nodes[i].(removed := true);
    assert after == nodes[i := nodes[i].(removed := true)];
    ReadersWithout(nodes, i, v, n);
  }

  // Node i reads `to` exactly where it read `from`, and nothing else has changed.
  ghost predicate ReadsInstead(before: seq<Node>, after: seq<Node>, i: nat, from: string, to: string) {
    OthersKept(before, after, i) && after[i].(inputs := before[i].inputs) == before[i] &&
    |after[i].inputs| == |before[i].inputs| &&
    forall k :: 0 <= k < |before[i].inputs| ==>
      after[i].inputs[k] == if before[i].inputs[k] == from then to else before[i].inputs[k]
  }

  // ---- What these changes leave of the meaning ----

  /** A node that can be removed is gone: every public output holds what it held. */
  lemma RemovedMeansTheSame(g: Graph, h: Graph, ops: Operators, env: map<string, Data>, sources: set<string>,
                            rank: Rank, i: nat, o: string)
    requires WellFormed(g, sources, rank) && Active(g, i) && Unmissed(g, g.nodes[i].outputs)
    requires Gone(g.nodes, h.nodes, i) && h.aliases == g.aliases && h.outputs == g.outputs && o in g.outputs
    ensures WellFormed(h, sources, rank) && MeansTheSame(g, h, ops, env, sources, o)
  {
    GoneIsWithout(g, h, i);
    assert h == Rewritten(g, Remove(i));
    RewriteMeansTheSame(g, sources, rank, ops, env, Remove(i), o);
  }

  lemma GoneIsWithout(g: Graph, h: Graph, i: nat)
    requires Gone(g.nodes, h.nodes, i)
    ensures h.nodes == Without(g, i).nodes
  {
    assert h.nodes[i] == g.nodes[i].(removed := true);
  }

  /** So it does when a relay of a public output is gone and the output exposes what was relayed. */
  lemma ExposedMeansTheSame(g: Graph, h: Graph, tensors: map<string, Desc>, ops: Operators, env: map<string, Data>,
                            sources: set<string>, rank: Rank, i: nat, o: string)
    requires WellFormed(g, sources, rank) && CanExpose(g, tensors, i) && Relay(g, ops, i) && o in g.outputs
    requires Gone(g.nodes, h.nodes, i) && h.aliases == g.aliases[g.nodes[i].outputs[0] := g.nodes[i].inputs[0]] &&
      h.outputs == g.outputs
    ensures WellFormed(h, sources, rank) && MeansTheSame(g, h, ops, env, sources, o)
  {
    GoneIsWithout(g, h, i);
    assert h == Rewritten(g, Expose(i));
    RewriteMeansTheSame(g, sources, rank, ops, env, Expose(i), o);
  }

  /** So it does when a node reads what a relay relays instead of the relay's output. */
  lemma RedirectedMeansTheSame(g: Graph, h: Graph, ops: Operators, env: map<string, Data>, sources: set<string>,
                               rank: Rank, i: nat, from: string, to: string, r: nat, o: string)
    requires WellFormed(g, sources, rank) && Active(g, i) && from in g.nodes[i].inputs && Relays(g, ops, r, from, to)
    requires ReadsInstead(g.nodes, h.nodes, i, from, to) && h.aliases == g.aliases && h.outputs == g.outputs
    requires o in g.outputs
    ensures WellFormed(h, sources, rank) && MeansTheSame(g, h, ops, env, sources, o)
  {
    assert h.nodes[i].inputs == Renamed(g.nodes[i].inputs, from, to);
    assert h.nodes[i] == g.nodes[i].(inputs := h.nodes[i].inputs);
    assert h.nodes == g.nodes[i := h.nodes[i]];
    assert h == Rewritten(g, Redirect(i, from, to));
    RewriteMeansTheSame(g, sources, rank, ops, env, Redirect(i, from, to), o);
  }

  // Node t has its new description, node a is marked removed, and no other node has changed.
  ghost predicate TakenOver(before: seq<Node>, after: seq<Node>, t: nat, a: nat, desc: Node) {
    t < |before| == |after| && a < |before| && t != a && after[t] == desc.(removed := false) &&
    after[a] == before[a].(removed := true) &&
    forall j :: 0 <= j < |before| && j != t && j != a ==> after[j] == before[j]
  }

  ghost predicate Among(vs: seq<string>, n: nat, v: string)
    requires n <= |vs|
  {
    exists k :: 0 <= k < n && vs[k] == v
  }

  // After binding the first n values, v is bound to the last of the descriptors given for it, or as before.
  ghost predicate BoundAt(before: map<string, Desc>, after: map<string, Desc>, vs: seq<string>, descs: seq<Desc>,
                          n: nat, v: string)
    requires n <= |vs| && n <= |descs|
  {
    (v in after <==> v in before || Among(vs, n, v)) &&
    (v in after ==>
      if Among(vs, n, v) then exists k :: 0 <= k < n && vs[k] == v && after[v] == descs[k] && forall l :: k < l < n ==>
        vs[l] != v
      else after[v] == before[v])
  }

  // The values are bound to the descriptors, and nothing else has changed.
  ghost predicate Bound(before: map<string, Desc>, after: map<string, Desc>, vs: seq<string>, descs: seq<Desc>) {
    |descs| >= |vs| && forall v :: BoundAt(before, after, vs, descs, |vs|, v)
  }

  lemma {:induction false} BindingsBind(tensors: map<string, Desc>, vs: seq<string>, descs: seq<Desc>, n: nat,
    v: string)
    requires n <= |vs| && n <= |descs|
    ensures BoundAt(tensors, Bindings(tensors, vs, descs, n), vs, descs, n, v)
  {
    if n > 0 {
      BindingsBind(tensors, vs, descs, n - 1, v);
      if vs[n - 1] == v {
        assert Among(vs, n, v);
      } else {
        assert Among(vs, n, v) <==> Among(vs, n - 1, v);
      }
    }
  }

  lemma TakenOverProducers(nodes: seq<Node>, producers: map<string, string>, index: map<string, nat>, t: nat, a: nat,
                           desc: Node, after: seq<Node>, newProducers: map<string, string>)
    requires IndexExact(nodes, index) && ProducersExact(nodes, producers) && ProducersExact(after, newProducers)
    requires TakenOver(nodes, after, t, a, desc) && !nodes[t].removed && !nodes[a].removed && desc.name == nodes[t].name
    requires desc.outputs == nodes[t].outputs + nodes[a].outputs
    ensures forall v :: v in newProducers <==> v in producers
    ensures forall v :: v in newProducers ==>
      newProducers[v] == if v in desc.outputs then desc.name else producers[v]
  {
    forall v
      ensures v in newProducers <==> v in producers
      ensures v in newProducers ==> newProducers[v] == if v in desc.outputs then desc.name else producers[v]
    {
      TakenOverProducer(nodes, producers, index, t, a, desc, after, newProducers, v);
    }
  }

  lemma TakenOverProducer(nodes: seq<Node>, producers: map<string, string>, index: map<string, nat>, t: nat, a: nat,
                          desc: Node, after: seq<Node>, newProducers: map<string, string>, v: string)
    requires IndexExact(nodes, index) && ProducersExact(nodes, producers) && ProducersExact(after, newProducers)
    requires TakenOver(nodes, after, t, a, desc) && !nodes[t].removed && !nodes[a].removed && desc.name == nodes[t].name
    requires desc.outputs == nodes[t].outputs + nodes[a].outputs
    ensures v in newProducers <==> v in producers
    ensures v in newProducers ==> newProducers[v] == if v in desc.outputs then desc.name else producers[v]
  {
    if v in desc.outputs {
      assert Makes(after, t, v);
      assert Makes(nodes, t, v) || Makes(nodes, a, v);
    } else {
      if v in newProducers {
        var j: nat :| Makes(after, j, v) && after[j].name == newProducers[v];
        assert Makes(nodes, j, v);
      }
      if v in producers {
        var j: nat :| Makes(nodes, j, v) && nodes[j].name == producers[v];
        assert Makes(after, j, v);
      }
    }
  }

  ghost function Absorbed(g: Graph, t: nat, a: nat, desc: Node): Graph
    requires Active(g, t) && Active(g, a)
  {
    g.(nodes := g.nodes[t := desc.(removed := false)][a := g.nodes[a].(removed := true)])
  }

  // ---- Building ----

  // Active nodes with names of their own, each value with one producer.
  ghost predicate FreshNodes(nodes: seq<Node>) {
    OneName(nodes) && OutputsNamed(nodes) && (forall i :: 0 <= i < |nodes| ==> !nodes[i].removed) &&
    forall i: nat, j: nat, v :: Makes(nodes, i, v) && Makes(nodes, j, v) ==> i == j
  }

  /** A validated model graph whose nodes have been named has such nodes. */
  lemma NamedAreFresh(d: Model.GraphDesc, bindings: set<string>, ops: seq<string>, unnamed: seq<Model.NodeDesc>)
    requires Model.WellFormed(d, bindings) && |ops| == |d.nodes| && Model.NamedApart(unnamed, d.nodes, |d.nodes|)
    ensures FreshNodes(Built(d, ops).nodes)
  {
    var g := Built(d, ops);
    BuiltHasOneProducer(d, bindings, ops);
    forall i: nat, j: nat, v | Makes(g.nodes, i, v) && Makes(g.nodes, j, v) ensures i == j {
      assert ProducedBy(g, v, i) && ProducedBy(g, v, j);
    }
    forall i: nat | i < |g.nodes| ensures "" !in g.nodes[i].outputs {
      assert "" in d.nodes[i].outputs ==> "" in Model.ValueNames(d);
    }
  }

  // One more user of a value.
  function Registered(users: Users, v: string, n: string): Users {
    var listed := if v in users then users[v] else [];
    if n in listed then users else users[v := listed + [n]]
  }

  lemma RegisteredUses(users: Users, v: string, n: string)
    requires Tidy(users)
    ensures Tidy(Registered(users, v, n))
    ensures forall w, m :: Uses(Registered(users, v, n), w, m) <==> Uses(users, w, m) || (w == v && m == n)
  {
  }

  method AddOutputs(producers: map<string, string>, vs: seq<string>, n: string) returns (r: map<string, string>)
    ensures forall v :: v in r <==> v in producers || v in vs
    ensures forall v :: v in r ==> r[v] == if v in vs then n else producers[v]
  {
    r := producers;
    for k := 0 to |vs|
      invariant forall v :: v in r <==> v in producers || v in vs[..k]
      invariant forall v :: v in r ==> r[v] == if v in vs[..k] then n else producers[v]
    {
      r := r[vs[k] := n];
      assert vs[..k + 1] == vs[..k] + [vs[k]];
    }
    assert vs[..|vs|] == vs;
  }

  method AddInputs(users: Users, vs: seq<string>, n: string) returns (r: Users)
    requires Tidy(users)
    ensures Tidy(r) && forall w, m :: Uses(r, w, m) <==> Uses(users, w, m) || (w != "" && w in vs && m == n)
  {
    r := users;
    for k := 0 to |vs|
      invariant Tidy(r) && forall w, m :: Uses(r, w, m) <==> Uses(users, w, m) || (w != "" && w in vs[..k] && m == n)
    {
      if vs[k] != "" {
        RegisteredUses(r, vs[k], n);
        r := Registered(r, vs[k], n);
      }
      assert vs[..k + 1] == vs[..k] + [vs[k]];
    }
    assert vs[..|vs|] == vs;
  }

  lemma OneMorePosition(made: seq<Node>, i: nat, index: map<string, nat>)
    requires OneName(made) && i < |made| && IndexExact(made[..i], index)
    ensures IndexExact(made[..i + 1], index[made[i].name := i])
  {
    var after := index[made[i].name := i];
    forall j: nat | j < i + 1 ensures made[j].name in after && after[made[j].name] == j {
      assert j < i ==> made[..i][j] == made[j];
    }
    forall n | n in after ensures after[n] < i + 1 && made[after[n]].name == n {
      assert n in index ==> made[..i][index[n]] == made[index[n]];
    }
  }

  lemma MakesMore(made: seq<Node>, i: nat, j: nat, v: string)
    requires i < |made|
    ensures Makes(made[..i + 1], j, v) <==> Makes(made[..i], j, v) || (j == i && Makes(made, i, v))
    ensures Makes(made[..i], j, v) ==> Makes(made, j, v)
  {
  }

  lemma OneMoreProducer(made: seq<Node>, i: nat, producers: map<string, string>, after: map<string, string>)
    requires FreshNodes(made) && i < |made| && ProducersExact(made[..i], producers)
    requires forall v :: v in after <==> v in producers || v in made[i].outputs
    requires forall v :: v in after ==> after[v] == if v in made[i].outputs then made[i].name else producers[v]
    ensures ProducersExact(made[..i + 1], after)
  {
    var more := made[..i + 1];
    forall v | v in after ensures exists j: nat :: Makes(more, j, v) && more[j].name == after[v] {
      if v in made[i].outputs {
        assert Makes(more, i, v);
      } else {
        var j: nat :| Makes(made[..i], j, v) && made[..i][j].name == producers[v];
        assert Makes(more, j, v);
      }
    }
    forall j: nat, v | Makes(more, j, v) ensures v in after && after[v] == more[j].name {
      MakesMore(made, i, j, v);
      if j < i {
        assert Makes(made[..i], j, v) && Makes(made, j, v);
        assert v in made[i].outputs ==> Makes(made, i, v);
      }
    }
  }

  lemma OneMoreReader(made: seq<Node>, i: nat, users: Users, after: Users)
    requires FreshNodes(made) && i < |made| && UsersExact(made[..i], users) && Tidy(after)
    requires forall v, n :: Uses(after, v, n) <==>
      Uses(users, v, n) || (v != "" && v in made[i].inputs && n == made[i].name)
    ensures UsersExact(made[..i + 1], after)
  {
    forall v, n
      ensures ReadBy(made[..i + 1], v, n) <==>
        ReadBy(made[..i], v, n) || (v in made[i].inputs && n == made[i].name)
    {
      ReadersMore(made, i, v, n);
    }
  }

  lemma ReadersMore(made: seq<Node>, i: nat, v: string, n: string)
    requires i < |made| && !made[i].removed
    ensures ReadBy(made[..i + 1], v, n) <==> ReadBy(made[..i], v, n) || (v in made[i].inputs && n == made[i].name)
  {
    var all, some := made[..i + 1], made[..i];
    if ReadBy(all, v, n) {
      var j: nat :| j < |all| && !all[j].removed && all[j].name == n && v in all[j].inputs;
      assert j < i ==> some[j] == all[j];
    }
    if ReadBy(some, v, n) {
      var j: nat :| j < |some| && !some[j].removed && some[j].name == n && v in some[j].inputs;
      assert all[j] == some[j];
    }
    if v in made[i].inputs && n == made[i].name { assert all[i] == made[i]; }
  }

  class StaticGraph {
    var nodes: seq<Node>
    var producers: map<string, string>
    var users: Users
    var aliases: map<string, string>
    var tensors: map<string, Desc>
    const index: map<string, nat>
    const outputs: seq<string>

    /** Building a graph from validated nodes makes its index exact. */
    constructor (made: seq<Node>, outputs: seq<string>, tensors: map<string, Desc>)
      requires FreshNodes(made) && "" !in tensors
      ensures nodes == made && this.outputs == outputs && this.tensors == tensors && aliases == map[] && Indexed()
    {
      var positions: map<string, nat> := map[];
      var makers: map<string, string> := map[];
      var readers: Users := map[];
      for i := 0 to |made|
        invariant IndexExact(made[..i], positions) && ProducersExact(made[..i], makers) &&
          UsersExact(made[..i], readers)
      {
        ghost var oldMakers, oldReaders, oldPositions := makers, readers, positions;
        makers := AddOutputs(makers, made[i].outputs, made[i].name);
        readers := AddInputs(readers, made[i].inputs, made[i].name);
        positions := positions[made[i].name := i];
        OneMorePosition(made, i, oldPositions);
        OneMoreProducer(made, i, oldMakers, makers);
        OneMoreReader(made, i, oldReaders, readers);
      }
      assert made[..|made|] == made;
      nodes, index, producers, users := made, positions, makers, readers;
      this.outputs, this.tensors, aliases := outputs, tensors, map[];
    }

    function View(): Graph
      reads this
    {
      Graph(nodes, aliases, outputs)
    }

    // The structure every rewrite relies on.
    ghost predicate Structured()
      reads this
    {
      IndexExact(nodes, index) && OutputsNamed(nodes) && "" !in tensors && ProducersExact(nodes, producers)
    }

    ghost predicate Indexed()
      reads this
    {
      Structured() && UsersExact(nodes, users)
    }

    method RegisterValueUse(v: string, n: string)
      requires Tidy(users)
      modifies this`users
      ensures Tidy(users) && forall w, m :: Uses(users, w, m) <==> old(Uses(users, w, m)) || (w == v && m == n)
    {
      RegisteredUses(users, v, n);
      users := Registered(users, v, n);
    }

    method UnregisterValueUse(v: string, n: string)
      requires Tidy(users)
      modifies this`users
      ensures Tidy(users) && forall w, m :: Uses(users, w, m) <==> old(Uses(users, w, m)) && !(w == v && m == n)
    {
      if v !in users { return; }
      var left := Erased(users[v], n);
      ErasedDistinct(users[v], n);
      if left == [] {
        assert forall m :: m in users[v] ==> m in left || m == n;
        users := users - {v};
      } else {
        users := users[v := left];
      }
    }

    method RegisterAll(vs: seq<string>, n: string)
      requires Tidy(users)
      modifies this`users
      ensures Tidy(users) && forall w, m :: Uses(users, w, m) <==> old(Uses(users, w, m)) || (w in vs && m == n)
    {
      for k := 0 to |vs|
        invariant Tidy(users) &&
          forall w, m :: Uses(users, w, m) <==> old(Uses(users, w, m)) || (w in vs[..k] && m == n)
      {
        RegisterValueUse(vs[k], n);
        assert vs[..k + 1] == vs[..k] + [vs[k]];
      }
      assert vs[..|vs|] == vs;
    }

    method UnregisterAll(vs: seq<string>, n: string)
      requires Tidy(users)
      modifies this`users
      ensures Tidy(users) && forall w, m :: Uses(users, w, m) <==> old(Uses(users, w, m)) && !(w in vs && m == n)
    {
      for k := 0 to |vs|
        invariant Tidy(users) && forall w, m :: Uses(users, w, m) <==>
          old(Uses(users, w, m)) && !(w in vs[..k] && m == n)
      {
        UnregisterValueUse(vs[k], n);
        assert vs[..k + 1] == vs[..k] + [vs[k]];
      }
      assert vs[..|vs|] == vs;
    }

    /** Whether a public output is, or exposes through aliases, the value. */
    method IsGraphOutputValue(v: string) returns (found: bool)
      ensures found <==> Exposed(View(), v)
    {
      for k := 0 to |outputs|
        invariant forall j :: 0 <= j < k ==> !OnChain(aliases, outputs[j], v)
      {
        found := SearchChain(aliases, outputs[k], v);
        if found {
          var n: nat :| Follow(aliases, outputs[k], n) == v;
          assert outputs[k] in View().outputs;
          return;
        }
      }
      found := false;
    }

    // The outputs of a node nobody may miss: not public, and without users.
    method Unneeded(vs: seq<string>) returns (ok: bool)
      requires UsersExact(nodes, users) && "" !in vs
      ensures ok <==> Unmissed(View(), vs)
      ensures ok ==> forall v :: v in vs ==> v !in users
    {
      for k := 0 to |vs|
        invariant forall j :: 0 <= j < k ==> !Exposed(View(), vs[j]) && !Read(View(), vs[j]) && vs[j] !in users
      {
        var public := IsGraphOutputValue(vs[k]);
        if public { return false; }
        UsersAreReaders(nodes, users, View(), vs[k]);
        if vs[k] in users { return false; }
      }
      ok := true;
    }

    method ForgetOutputs(vs: seq<string>, n: string)
      modifies this`producers, this`users
      ensures forall v :: v in producers <==> v in old(producers) && !(v in vs && old(producers)[v] == n)
      ensures forall v :: v in producers ==> producers[v] == old(producers)[v]
      ensures users == old(users) - (set v | v in vs)
    {
      for k := 0 to |vs|
        invariant forall v :: v in producers <==> v in old(producers) && !(v in vs[..k] && old(producers)[v] == n)
        invariant forall v :: v in producers ==> producers[v] == old(producers)[v]
        invariant users == old(users) - (set v | v in vs[..k])
      {
        if vs[k] in producers && producers[vs[k]] == n { producers := producers - {vs[k]}; }
        users := users - {vs[k]};
        assert vs[..k + 1] == vs[..k] + [vs[k]];
      }
      assert vs[..|vs|] == vs;
    }

    // Takes a node without users out of the index and marks it removed.
    method Detach(i: nat)
      requires Indexed() && i < |nodes| && !nodes[i].removed && forall v :: v in nodes[i].outputs ==> v !in users
      modifies this`nodes, this`producers, this`users
      ensures Indexed() && nodes == old(nodes)[i := old(nodes)[i].(removed := true)]
      ensures Gone(old(nodes), nodes, i) && Unlisted(old(nodes)[i], old(producers), old(users), producers, users)
    {
      var node := nodes[i];
      UnregisterAll(node.inputs, node.name);
      ForgetOutputs(node.outputs, node.name);
      nodes := nodes[i := node.(removed := true)];
      NamesAreUnique(old(nodes), index);
      RemovedUsers(old(nodes), old(users), i, users);
      RemovedProducers(old(nodes), old(producers), index, i, producers);
      GoneIsUnlisted(old(nodes), old(producers), old(users), index, i, nodes, producers, users);
    }

    /** Removes a node whose outputs are neither public nor used. */
    method RemoveNode(name: string) returns (ok: bool)
      requires Indexed()
      modifies this`nodes, this`producers, this`users
      ensures Indexed()
      ensures ok <==>
        name in index && Active(old(View()), index[name]) && Unmissed(old(View()), old(nodes)[index[name]].outputs)
      ensures ok ==> Gone(old(nodes), nodes, index[name])
      ensures ok ==> Unlisted(old(nodes)[index[name]], old(producers), old(users), producers, users)
      ensures ok ==> View() == Rewritten(old(View()), Remove(index[name]))
      ensures !ok ==> View() == old(View()) && producers == old(producers) && users == old(users)
    {
      if name !in index || nodes[index[name]].removed { return false; }
      var i := index[name];
      var node := nodes[i];
      ok := Unneeded(node.outputs);
      if !ok { return; }
      Detach(i);
    }

    /** Removes a relay of a public output, which from then on exposes the relay's source. */
    method RemoveNodeWithOutputAlias(name: string) returns (ok: bool)
      requires Indexed()
      modifies this`nodes, this`producers, this`users, this`aliases, this`tensors
      ensures Indexed()
      ensures ok <==> name in index && CanExpose(old(View()), old(tensors), index[name])
      ensures ok ==> Gone(old(nodes), nodes, index[name])
      ensures ok ==> Unlisted(old(nodes)[index[name]], old(producers), old(users), producers, users)
      ensures ok ==>
        var node := old(nodes)[index[name]];
        aliases == old(aliases)[node.outputs[0] := node.inputs[0]] &&
        tensors == old(tensors)[node.outputs[0] := old(tensors)[node.inputs[0]]]
      ensures ok ==> View() == Rewritten(old(View()), Expose(index[name]))
      ensures !ok ==>
        View() == old(View()) && producers == old(producers) && users == old(users) && tensors == old(tensors)
    {
      if name !in index || nodes[index[name]].removed { return false; }
      var i := index[name];
      var node := nodes[i];
      if |node.inputs| != 1 || |node.outputs| != 1 { return false; }
      var input, output := node.inputs[0], node.outputs[0];
      UsersAreReaders(nodes, users, View(), output);
      if output !in outputs || output in users { return false; }
      if input !in tensors || output !in tensors || tensors[input] != tensors[output] { return false; }
      tensors := tensors[output := tensors[input]];
      aliases := aliases[output := input];
      assert forall v :: v in node.outputs <==> v == output;
      Detach(i);
      ok := true;
    }

    // Binds a node's outputs to the tensors of its new operator, up to the first metadata conflict.
    method BindOutputs(vs: seq<string>, made: Creation, n: string) returns (ok: bool, ghost bound: nat)
      requires made.Created? && "" !in vs && "" !in tensors
      modifies this`producers, this`tensors
      ensures "" !in tensors && bound <= |vs| && bound <= |made.descs| &&
        tensors == Bindings(old(tensors), vs, made.descs, bound)
      ensures ok <==> |made.descs| >= |vs| && made.restored >= |vs|
      ensures ok ==> bound == |vs| && vs[..bound] == vs && Bound(old(tensors), tensors, vs, made.descs)
      ensures forall v :: v in producers <==> v in old(producers) || v in vs[..bound]
      ensures forall v :: v in producers ==> producers[v] == if v in vs[..bound] then n else old(producers)[v]
    {
      bound := 0;
      for k := 0 to |vs|
        invariant "" !in tensors && bound == k <= |made.descs| && k <= made.restored
        invariant tensors == Bindings(old(tensors), vs, made.descs, k)
        invariant forall v :: v in producers <==> v in old(producers) || v in vs[..k]
        invariant forall v :: v in producers ==> producers[v] == if v in vs[..k] then n else old(producers)[v]
      {
        if k >= |made.descs| || k >= made.restored { return false, bound; }
        tensors, producers := tensors[vs[k] := made.descs[k]], producers[vs[k] := n];
        assert vs[..k + 1] == vs[..k] + [vs[k]];
        bound := k + 1;
      }
      assert vs[..|vs|] == vs;
      forall v ensures BoundAt(old(tensors), tensors, vs, made.descs, |vs|, v) {
        BindingsBind(old(tensors), vs, made.descs, |vs|, v);
      }
      ok := true;
    }

    // Renames the k-th input of a node.
    method RenameOne(i: nat, k: nat, from: string, to: string)
      requires i < |nodes| && k < |nodes[i].inputs| && Tidy(users)
      modifies this`nodes, this`users
      ensures nodes == Reading(old(nodes), i, old(nodes)[i].inputs[k := to])
      ensures Tidy(users) && RenamedUses(old(users), users, true, old(nodes)[i].name, from, to)
    {
      var name := nodes[i].name;
      UnregisterValueUse(from, name);
      nodes := Reading(nodes, i, nodes[i].inputs[k := to]);
      RegisterValueUse(to, name);
    }

    // Renames an input throughout one node, keeping the users up to date.
    method RenameInput(i: nat, from: string, to: string) returns (replaced: bool)
      requires i < |nodes| && Tidy(users)
      modifies this`nodes, this`users
      ensures nodes == Reading(old(nodes), i, Renamed(old(nodes)[i].inputs, from, to))
      ensures replaced <==> from in old(nodes)[i].inputs
      ensures Tidy(users) && RenamedUses(old(users), users, replaced, old(nodes)[i].name, from, to)
    {
      replaced := false;
      var name, before := nodes[i].name, nodes[i].inputs;
      RenamedStarts(before, from, to);
      ReadingAgain(nodes, i, before, before);
      for k := 0 to |before|
        invariant nodes == Reading(old(nodes), i, PartRenamed(before, from, to, k))
        invariant replaced <==> from in before[..k]
        invariant Tidy(users) && RenamedUses(old(users), users, replaced, name, from, to)
      {
        RenamedSteps(before, from, to, k);
        if before[k] == from {
          ghost var middle, part := users, PartRenamed(before, from, to, k);
          ReadingAgain(old(nodes), i, part, part[k := to]);
          RenameOne(i, k, from, to);
          RenamedAgain(old(users), middle, users, replaced, name, from, to);
          replaced := true;
        }
      }
      RenamedStarts(before, from, to);
    }

    /**
     Makes a node read `to` wherever it read `from`, and rebuilds its operator; the node reads
     `to` even if rebuilding fails. The users stay exact if and only if `to` is a named value:
     the empty name would be listed too.
     */
    method ReplaceInputValue(name: string, from: string, to: string, made: Creation) returns (ok: bool)
      requires Indexed()
      modifies this`nodes, this`producers, this`users, this`tensors
      ensures ok <==> Renames(old(View()), index, name, from) && Rebuilds(old(nodes)[index[name]], made)
      ensures Renames(old(View()), index, name, from) ==> ReadsInstead(old(nodes), nodes, index[name], from, to)
      ensures Renames(old(View()), index, name, from) ==> producers == old(producers)
      ensures Renames(old(View()), index, name, from) ==>
        forall v, n :: Uses(users, v, n) <==>
          (v == to && n == name) || (Uses(old(users), v, n) && !(v == from && n == name))
      ensures Renames(old(View()), index, name, from) ==>
        View() == Rewritten(old(View()), Redirect(index[name], from, to))
      ensures Renames(old(View()), index, name, from) ==> Structured() && (UsersExact(nodes, users) <==> to != "")
      ensures ok ==> Bound(old(tensors), tensors, old(nodes)[index[name]].outputs, made.descs)
      ensures !Renames(old(View()), index, name, from) ==>
        View() == old(View()) && producers == old(producers) && users == old(users) && tensors == old(tensors)
    {
      if name !in index || nodes[index[name]].removed { return false; }
      var i := index[name];
      ok := RenameInput(i, from, to);
      if !ok {
        RenamedNowhere(old(nodes), i, from, to);
        return;
      }
      RenamedStructure(old(nodes), old(producers), index, i, from, to);
      RenamedUsers(old(nodes), old(users), index, i, from, to, users);
      if made.Refused? { return false; }
      ghost var bound;
      ok, bound := BindOutputs(nodes[i].outputs, made, name);
      BoundProducers(nodes, old(producers), i, bound, producers);
    }

    /**
     Replaces a node's operator and inputs; its outputs stay. A metadata conflict is reported
     after the change: the call fails, the node has its new description, and the index is exact.
     */
    method ReplaceNodeDesc(desc: Node, made: Creation) returns (ok: bool)
      requires Indexed()
      modifies this`nodes, this`producers, this`users, this`tensors
      ensures Indexed()
      ensures ok <==> Replaces(old(View()), old(tensors), index, desc, made) && made.restored >= |desc.outputs|
      ensures Replaces(old(View()), old(tensors), index, desc, made) ==>
        View() == old(View()).(nodes := old(nodes)[index[desc.name] := desc.(removed := false)])
      ensures ok ==> Bound(old(tensors), tensors, desc.outputs, made.descs)
      ensures !Replaces(old(View()), old(tensors), index, desc, made) ==>
        View() == old(View()) && producers == old(producers) && users == old(users) && tensors == old(tensors)
    {
      if desc.name !in index || desc.name == "" || desc.op == "" { return false; }
      var i := index[desc.name];
      if nodes[i].removed || desc.outputs != nodes[i].outputs { return false; }
      if exists k :: 0 <= k < |desc.inputs| && desc.inputs[k] !in tensors { return false; }
      if made.Refused? || |made.descs| != |nodes[i].outputs| { return false; }
      var node := desc.(removed := false);
      ReplaceInputs(i, node);
      SameProducers(old(nodes), producers, i, node);
      ghost var bound;
      ok, bound := BindOutputs(node.outputs, made, node.name);
      BoundProducers(nodes, old(producers), i, bound, producers);
    }

    // Gives node i another description, keeping the users exact.
    method ReplaceInputs(i: nat, node: Node)
      requires IndexExact(nodes, index) && UsersExact(nodes, users)
      requires i < |nodes| && !nodes[i].removed && node.name == nodes[i].name && !node.removed && "" !in node.inputs
      modifies this`nodes, this`users
      ensures nodes == old(nodes)[i := node] && UsersExact(nodes, users)
    {
      UnregisterAll(nodes[i].inputs, node.name);
      RegisterAll(node.inputs, node.name);
      nodes := nodes[i := node];
      NamesAreUnique(old(nodes), index);
      OwnUses(old(nodes), old(users), i);
      ChangedUsers(old(nodes), old(users), i, node, users);
    }

    // Whether a description keeps the target's outputs and appends exactly those of the absorbed node.
    method CheckAbsorb(desc: Node, absorbedName: string) returns (ok: bool)
      requires Indexed()
      ensures ok <==> desc.name in index && absorbedName in index && CanAbsorb(View(), tensors, index[desc.name],
        index[absorbedName], desc)
    {
      if desc.name !in index || absorbedName !in index || desc.name == "" || desc.op == "" ||
        desc.name == absorbedName {
        return false;
      }
      var target, absorbed := nodes[index[desc.name]], nodes[index[absorbedName]];
      if target.removed || absorbed.removed || |desc.outputs| <= |target.outputs| ||
        target.outputs != desc.outputs[..|target.outputs|] {
        return false;
      }
      if desc.outputs[|target.outputs|..] != absorbed.outputs { return false; }
      assert desc.outputs == target.outputs + absorbed.outputs;
      ProducersAreOwn(nodes, producers, index[absorbedName]);
      if exists k :: 0 <= k < |absorbed.outputs| &&
          !(absorbed.outputs[k] in producers && producers[absorbed.outputs[k]] == absorbedName) { return false; }
      if exists k :: 0 <= k < |desc.inputs| && desc.inputs[k] !in tensors { return false; }
      ok := true;
    }

    // Node t becomes `node`, which takes over the outputs of node a, unless their metadata conflicts.
    method Absorb(t: nat, a: nat, node: Node, made: Creation) returns (ok: bool)
      requires Indexed() && CanAbsorb(View(), tensors, t, a, node) && node.name == nodes[t].name && !node.removed
      requires made.Created? && |made.descs| == |node.outputs|
      modifies this`nodes, this`producers, this`users, this`tensors
      ensures ok <==> made.restored >= |node.outputs|
      ensures ok ==> Indexed() && nodes == old(nodes)[t := node][a := old(nodes)[a].(removed := true)]
      ensures ok ==> Bound(old(tensors), tensors, node.outputs, made.descs)
      ensures !ok ==> !Indexed()
    {
      var absorbed := nodes[a];
      ReplaceInputs(t, node);
      ghost var middle, replaced := nodes, users;
      ghost var bound;
      ok, bound := BindOutputs(node.outputs, made, node.name);
      if !ok {
        assert absorbed.outputs[0] in node.outputs;
        SharedOutputIsInexact(nodes, producers, index, t, a, absorbed.outputs[0]);
        return;
      }
      UnregisterAll(absorbed.inputs, absorbed.name);
      nodes := nodes[a := absorbed.(removed := true)];
      AbsorbedProducers(old(nodes), old(producers), index, t, a, node, producers);
      NamesAreUnique(middle, index);
      RemovedUsers(middle, replaced, a, users);
    }

    /**
     Replaces a node by one that also produces the outputs of another, which is removed.
     Value names keep exactly one producer and exactly their readers, unless the metadata of
     an output conflicts: then the call fails with both nodes active and the index inexact.
     */
    method ReplaceNodeDescAndAbsorbNode(desc: Node, absorbedName: string, made: Creation) returns (ok: bool)
      requires Indexed()
      modifies this`nodes, this`producers, this`users, this`tensors
      ensures ok <==>
        Absorbs(old(View()), old(tensors), index, desc, absorbedName, made) && made.restored >= |desc.outputs|
      ensures Indexed() <==> ok || !Absorbs(old(View()), old(tensors), index, desc, absorbedName, made)
      ensures ok ==> TakenOver(old(nodes), nodes, index[desc.name], index[absorbedName], desc)
      ensures ok ==> forall v :: v in producers <==> v in old(producers)
      ensures ok ==> forall v :: v in producers ==>
        producers[v] == if v in desc.outputs then desc.name else old(producers)[v]
      ensures ok ==> View() == Absorbed(old(View()), index[desc.name], index[absorbedName], desc)
      ensures ok ==> Bound(old(tensors), tensors, desc.outputs, made.descs)
      ensures !Absorbs(old(View()), old(tensors), index, desc, absorbedName, made) ==>
        View() == old(View()) && producers == old(producers) && users == old(users) && tensors == old(tensors)
    {
      ok := CheckAbsorb(desc, absorbedName);
      if !ok { return; }
      if made.Refused? || |made.descs| != |desc.outputs| { return false; }
      var t, a := index[desc.name], index[absorbedName];
      ok := Absorb(t, a, desc.(removed := false), made);
      if ok { TakenOverProducers(old(nodes), old(producers), index, t, a, desc, nodes, producers); }
    }
  }
}
