/**
 Every schedule of a parallel run leaves what running the nodes one after the other
 leaves, provided that nodes touching common storage depend on each other.
 */
module Confluence {
  import opened Wrappers
  import opened DependencyOrder
  import opened ParallelRun
  import opened Spans

  // ---- Dependence ----

  ghost predicate Closed(deps: Dependencies, nodes: set<nat>) {
    forall i: nat, d: nat :: i in nodes && i < |deps| && d in deps[i] ==> d in nodes
  }

  // Node i is j or precedes it: whatever contains j and all predecessors contains i.
  ghost predicate Needs(deps: Dependencies, i: nat, j: nat) {
    forall nodes: set<nat> :: Closed(deps, nodes) && j in nodes ==> i in nodes
  }

  ghost predicate StoresAt(p: Program, i: nat, a: nat) { i < |p.jobs| && Covers(p.jobs[i].stores, a) }

  ghost predicate LoadsAt(p: Program, i: nat, a: nat) { i < |p.jobs| && Covers(p.jobs[i].loads, a) }

  // Both touch the byte and i overwrites it.
  ghost predicate Conflict(p: Program, i: nat, j: nat, a: nat) {
    i != j && StoresAt(p, i, a) && (StoresAt(p, j, a) || LoadsAt(p, j, a))
  }

  ghost predicate Dependent(deps: Dependencies, i: nat, j: nat) { Needs(deps, i, j) || Needs(deps, j, i) }

  ghost predicate ConflictsOrdered(p: Program) {
    forall i: nat, j: nat, a: nat :: Conflict(p, i, j, a) ==> Dependent(p.deps, i, j)
  }

  lemma NeedsBefore(deps: Dependencies, order: seq<nat>, i: nat, q: nat)
    requires Topological(deps, order) && q < |order| && Needs(deps, i, order[q])
    ensures i in order[..q + 1]
  {
    var nodes := Elems(order[..q + 1]);
    forall x: nat, d: nat | x in nodes && x < |deps| && d in deps[x] ensures d in nodes {
      var r :| 0 <= r <= q && order[r] == x;
      assert Ready(deps, order[..r], order[r]);
      assert d in order[..r];
    }
    assert order[q] in nodes;
    assert Closed(deps, nodes);
  }

  // What is done is closed, also with one of the nodes that have only begun.
  lemma DoneIsClosed(deps: Dependencies, pending: seq<nat>, queue: seq<nat>, others: set<nat>, done: set<nat>, j: nat)
    requires Queued(deps, pending, queue, others, done, multiset{}) && (j in others || j in done)
    ensures Closed(deps, done + {j})
  {
    forall i: nat, d: nat | i in done + {j} && i < |deps| && d in deps[i]
      ensures d in done
    {
      MissingNone(deps[i], done);
    }
  }

  // Of two different nodes that depend on each other, one of them begun and not done: the
  // other has not begun or is done, and it is done exactly if it comes first.
  lemma BegunIsApart(deps: Dependencies, pending: seq<nat>, queue: seq<nat>, others: set<nat>, done: set<nat>,
                     order: seq<nat>, i: nat, q: nat)
    requires Queued(deps, pending, queue, others, done, multiset{}) && Topological(deps, order)
    requires q < |order| && order[q] in others && i != order[q] && Dependent(deps, i, order[q])
    ensures i !in others && (i in done <==> i in order[..q])
  {
    var j := order[q];
    if Needs(deps, i, j) {
      DoneIsClosed(deps, pending, queue, others, done, j);
      NeedsBefore(deps, order, i, q);
      assert order[..q + 1] == order[..q] + [j];
    } else {
      if i in done || i in others { DoneIsClosed(deps, pending, queue, others, done, i); }
      if i in order[..q] { NotBefore(deps, order, i, q); }
    }
  }

  lemma NotBefore(deps: Dependencies, order: seq<nat>, i: nat, q: nat)
    requires Topological(deps, order) && q < |order| && Needs(deps, order[q], i)
    ensures i !in order[..q]
  {
    if i in order[..q] {
      var r :| 0 <= r < q && order[r] == i;
      NeedsBefore(deps, order, order[q], r);
    }
  }

  lemma RunningIsApart(p: Program, s: State, order: seq<nat>, i: nat, q: nat)
    requires Control(p, s) && Topological(p.deps, order) && q < |order| && order[q] in s.flight
    requires i != order[q] && Dependent(p.deps, i, order[q])
    ensures i !in s.flight && (i in s.done <==> i in order[..q])
  {
    BegunIsApart(p.deps, s.pending, s.queue, s.flight.Keys + s.failed, s.done, order, i, q);
  }

  // ---- Bytes ----

  lemma PutByte(mem: seq<byte>, other: seq<byte>, span: Span, data: seq<byte>, a: nat)
    requires span.at + span.size <= |mem| == |other| && |data| == span.size && a < |mem|
    ensures span.at <= a < span.at + span.size ==> Put(mem, span, data)[a] == Put(other, span, data)[a]
    ensures !(span.at <= a < span.at + span.size) ==>
      Put(mem, span, data)[a] == mem[a] && Put(other, span, data)[a] == other[a]
  {
  }

  lemma {:induction false} StoredByte(mem: seq<byte>, other: seq<byte>, spans: seq<Span>, data: seq<seq<byte>>, a: nat)
    requires Inside(spans, |mem|) && Sized(spans, data) && a < |mem| == |other|
    ensures Covers(spans, a) ==> Stores(mem, spans, data)[a] == Stores(other, spans, data)[a]
    ensures !Covers(spans, a) ==> Stores(mem, spans, data)[a] == mem[a] && Stores(other, spans, data)[a] == other[a]
  {
    if spans != [] {
      var n := |spans| - 1;
      StoredByte(mem, other, spans[..n], data[..n], a);
      CoversMore(spans, a);
      PutByte(Stores(mem, spans[..n], data[..n]), Stores(other, spans[..n], data[..n]), spans[n], data[n], a);
    }
  }

  lemma {:induction false} SerialUnwritten(p: Program, order: seq<nat>, mem: seq<byte>, low: nat, high: nat, a: nat)
    requires Valid(p, |mem|) && Within(order, |p.jobs|) && low <= high <= |order| && a < |mem|
    requires forall r: nat :: low <= r < high ==> !StoresAt(p, order[r], a)
    ensures Serial(p, order, mem, high)[a] == Serial(p, order, mem, low)[a]
  {
    if low < high {
      SerialUnwritten(p, order, mem, low, high - 1, a);
      var i, before := order[high - 1], Serial(p, order, mem, high - 1);
      StoredByte(before, before, p.jobs[i].stores, p.kernels(i, LoadAll(before, p.jobs[i].loads)).data, a);
    }
  }

  // ---- The memory invariant ----

  // Of the nodes that overwrite the byte, those done are the ones at positions before q.
  ghost predicate Caught(p: Program, order: seq<nat>, done: set<nat>, a: nat, q: nat) {
    forall r: nat :: r < |order| && StoresAt(p, order[r], a) ==> (order[r] in done <==> r < q)
  }

  // No task is in the middle of overwriting the byte.
  ghost predicate Clean(p: Program, s: State, a: nat) {
    forall i :: i in s.flight && s.flight[i].writing ==> !StoresAt(p, i, a)
  }

  ghost predicate ByteOk(p: Program, order: seq<nat>, mem: seq<byte>, s: State, a: nat, q: nat)
    requires Valid(p, |mem|) && Within(order, |p.jobs|) && |s.mem| == |mem| && a < |mem| && q <= |order|
  {
    Clean(p, s, a) && Caught(p, order, s.done, a, q) ==> s.mem[a] == Serial(p, order, mem, q)[a]
  }

  // A running task has loaded what the serial run gives it; a finished one has succeeded there.
  ghost predicate NodeOk(p: Program, order: seq<nat>, mem: seq<byte>, s: State, q: nat)
    requires Valid(p, |mem|) && Within(order, |p.jobs|) && q < |order|
  {
    var i := order[q];
    var all := LoadAll(Serial(p, order, mem, q), p.jobs[i].loads);
    (i in s.flight ==> s.flight[i].loaded <= all && (s.flight[i].writing ==> s.flight[i].loaded == all)) &&
    (i in s.done ==> SerialOk(p, order, mem, q))
  }

  ghost predicate BytesOk(p: Program, order: seq<nat>, mem: seq<byte>, s: State)
    requires Valid(p, |mem|) && Within(order, |p.jobs|) && |s.mem| == |mem|
  {
    forall a: nat, q: nat :: a < |mem| && q <= |order| ==> ByteOk(p, order, mem, s, a, q)
  }

  ghost predicate NodesOk(p: Program, order: seq<nat>, mem: seq<byte>, s: State)
    requires Valid(p, |mem|) && Within(order, |p.jobs|)
  {
    forall q: nat :: q < |order| ==> NodeOk(p, order, mem, s, q)
  }

  ghost predicate Agrees(p: Program, order: seq<nat>, mem: seq<byte>, s: State)
    requires Valid(p, |mem|) && Within(order, |p.jobs|)
  {
    |s.mem| == |mem| && (!s.error ==> BytesOk(p, order, mem, s) && NodesOk(p, order, mem, s))
  }

  // The bytes a running task may touch are clean, and caught up exactly to its position.
  lemma ConflictApart(p: Program, order: seq<nat>, s: State, q: nat, a: nat)
    requires Control(p, s) && Topological(p.deps, order) && ConflictsOrdered(p) && q < |order| && order[q] in s.flight
    requires LoadsAt(p, order[q], a) || StoresAt(p, order[q], a)
    ensures forall i: nat :: i != order[q] && StoresAt(p, i, a) ==> i !in s.flight && (i in s.done <==> i in order[..q])
  {
    forall i: nat | i != order[q] && StoresAt(p, i, a) ensures i !in s.flight && (i in s.done <==> i in order[..q]) {
      assert Conflict(p, i, order[q], a);
      RunningIsApart(p, s, order, i, q);
    }
  }

  lemma BegunNotDone(p: Program, s: State, i: nat)
    requires Control(p, s) && i in s.flight
    ensures i < |p.deps| && i !in s.done && i !in s.failed
  {
    assert i in s.flight.Keys + s.failed;
  }

  lemma Positions(order: seq<nat>, q: nat)
    requires Distinct(order) && q < |order|
    ensures forall r: nat :: r < |order| ==> (order[r] in order[..q] <==> r < q)
  {
    forall r: nat | r < |order| ensures order[r] in order[..q] <==> r < q {
      if r < q { assert order[..q][r] == order[r]; }
    }
  }

  lemma ReadyByte(p: Program, order: seq<nat>, s: State, q: nat, a: nat)
    requires Control(p, s) && Topological(p.deps, order) && ConflictsOrdered(p) && q < |order| && order[q] in s.flight
    requires LoadsAt(p, order[q], a) || StoresAt(p, order[q], a)
    ensures !s.flight[order[q]].writing ==> Clean(p, s, a)
    ensures Caught(p, order, s.done, a, q)
  {
    ConflictApart(p, order, s, q, a);
    BegunNotDone(p, s, order[q]);
    Positions(order, q);
    forall r: nat | r < |order| && StoresAt(p, order[r], a) ensures order[r] in s.done <==> r < q {
      assert r != q ==> order[r] != order[q];
    }
  }

  // ---- One step at a time ----

  ghost predicate Based(p: Program, order: seq<nat>, mem: seq<byte>, s: State) {
    Valid(p, |mem|) && |s.mem| == |mem| && Within(order, |p.jobs|)
  }

  // Everything a proof step needs: a valid program whose conflicts are ordered, in a reachable state.
  ghost predicate Running(p: Program, order: seq<nat>, mem: seq<byte>, s: State) {
    Valid(p, |mem|) && |s.mem| == |mem| && Control(p, s) && Topological(p.deps, order) && ConflictsOrdered(p) &&
      Within(order, |p.jobs|)
  }

  lemma LoadedByte(p: Program, order: seq<nat>, mem: seq<byte>, s: State, q: nat, a: nat)
    requires Running(p, order, mem, s) && BytesOk(p, order, mem, s) && q < |order| && order[q] in s.flight && a < |mem|
    requires !s.flight[order[q]].writing && LoadsAt(p, order[q], a)
    ensures s.mem[a] == Serial(p, order, mem, q)[a]
  {
    ReadyByte(p, order, s, q, a);
    assert ByteOk(p, order, mem, s, a, q);
  }

  lemma SlicesAgree(a: seq<byte>, b: seq<byte>, span: Span)
    requires span.at + span.size <= |a| == |b|
    requires forall x: nat :: span.at <= x < span.at + span.size ==> a[x] == b[x]
    ensures a[span.at..span.at + span.size] == b[span.at..span.at + span.size]
  {
  }

  /** A task loads, from the shared memory, what its node loads in the serial run. */
  lemma LoadStep(p: Program, order: seq<nat>, mem: seq<byte>, s: State, q: nat, k: nat, span: Span)
    requires Running(p, order, mem, s) && BytesOk(p, order, mem, s) && q < |order| && order[q] in s.flight
    requires !s.flight[order[q]].writing && k < |p.jobs[order[q]].loads| && span == p.jobs[order[q]].loads[k] &&
      span.at + span.size <= |mem|
    ensures s.mem[span.at..span.at + span.size] == Serial(p, order, mem, q)[span.at..span.at + span.size]
  {
    forall a: nat | span.at <= a < span.at + span.size ensures s.mem[a] == Serial(p, order, mem, q)[a] {
      assert Covers(p.jobs[order[q]].loads, a);
      LoadedByte(p, order, mem, s, q, a);
    }
    SlicesAgree(s.mem, Serial(p, order, mem, q), span);
  }

  // ---- Each kind of step keeps the agreement ----

  lemma SameBytes(p: Program, order: seq<nat>, mem: seq<byte>, s: State, t: State)
    requires Based(p, order, mem, s) && BytesOk(p, order, mem, s) && t.mem == s.mem && t.done == s.done
    requires forall i :: i in s.flight && s.flight[i].writing ==> i in t.flight && t.flight[i].writing
    ensures BytesOk(p, order, mem, t)
  {
    forall a: nat, q: nat | a < |mem| && q <= |order|
      ensures ByteOk(p, order, mem, t, a, q)
    {
      assert ByteOk(p, order, mem, s, a, q);
    }
  }

  lemma LaunchAgrees(p: Program, order: seq<nat>, mem: seq<byte>, s: State, t: State)
    requires Based(p, order, mem, s) && Agrees(p, order, mem, s) && s.flight == map[]
    requires t.mem == s.mem && t.done == s.done && t.error == s.error &&
      forall i :: i in t.flight ==> t.flight[i] == Task([], false)
    ensures Agrees(p, order, mem, t)
  {
    if !s.error {
      SameBytes(p, order, mem, s, t);
      forall q: nat | q < |order| ensures NodeOk(p, order, mem, t, q) { assert NodeOk(p, order, mem, s, q); }
    }
  }

  lemma LoadedNode(p: Program, order: seq<nat>, mem: seq<byte>, s: State, i: nat, k: nat, span: Span, data: seq<byte>,
                   t: State, q: nat)
    requires Based(p, order, mem, s) && q < |order| && NodeOk(p, order, mem, s, q)
    requires i < |p.jobs| && i in s.flight && !s.flight[i].writing && k == |s.flight[i].loaded| < |p.jobs[i].loads| &&
      span == p.jobs[i].loads[k]
    requires span.at + span.size <= |mem| &&
      (order[q] == i ==> data == Serial(p, order, mem, q)[span.at..span.at + span.size])
    requires t.done == s.done && t.flight == s.flight[i := Longer(s.flight[i], data)]
    ensures NodeOk(p, order, mem, t, q)
  {
  }

  // t is s after task i has loaded its k-th span.
  ghost predicate LoadedTo(p: Program, s: State, i: nat, k: nat, span: Span, t: State) {
    i < |p.jobs| && i in s.flight && !s.flight[i].writing && k == |s.flight[i].loaded| < |p.jobs[i].loads| &&
      span == p.jobs[i].loads[k] &&
    span.at + span.size <= |s.mem| && t.mem == s.mem && t.done == s.done && t.error == s.error &&
    t.flight == s.flight[i := Longer(s.flight[i], s.mem[span.at..span.at + span.size])]
  }

  lemma NextLoadLoads(p: Program, s: State, i: nat) returns (k: nat, span: Span)
    requires CanLoad(p, s, i)
    ensures LoadedTo(p, s, i, k, span, NextLoad(p, s, i))
  {
    k := |s.flight[i].loaded|;
    span := p.jobs[i].loads[k];
  }

  lemma LoadAgrees(p: Program, order: seq<nat>, mem: seq<byte>, s: State, i: nat)
    requires Running(p, order, mem, s) && Agrees(p, order, mem, s) && CanLoad(p, s, i)
    ensures Agrees(p, order, mem, NextLoad(p, s, i))
  {
    var k, span := NextLoadLoads(p, s, i);
    LoadedAgrees(p, order, mem, s, i, k, span, NextLoad(p, s, i));
  }

  lemma LoadedBytes(p: Program, order: seq<nat>, mem: seq<byte>, s: State, i: nat, k: nat, span: Span, t: State)
    requires Based(p, order, mem, s) && BytesOk(p, order, mem, s) && LoadedTo(p, s, i, k, span, t)
    ensures |t.mem| == |mem| && BytesOk(p, order, mem, t)
  {
    SameBytes(p, order, mem, s, t);
  }

  lemma LoadedAgrees(p: Program, order: seq<nat>, mem: seq<byte>, s: State, i: nat, k: nat, span: Span, t: State)
    requires Running(p, order, mem, s) && Agrees(p, order, mem, s) && LoadedTo(p, s, i, k, span, t)
    ensures Agrees(p, order, mem, t)
  {
    assert |t.mem| == |mem| && t.error == s.error;
    if !s.error {
      LoadedBytes(p, order, mem, s, i, k, span, t);
      LoadedNodes(p, order, mem, s, i, k, span, t);
    }
  }

  lemma LoadedNodes(p: Program, order: seq<nat>, mem: seq<byte>, s: State, i: nat, k: nat, span: Span, t: State)
    requires Running(p, order, mem, s) && !s.error && Agrees(p, order, mem, s) && LoadedTo(p, s, i, k, span, t)
    ensures NodesOk(p, order, mem, t)
  {
    forall q: nat | q < |order|
      ensures NodeOk(p, order, mem, t, q)
    {
      LoadedNodeOk(p, order, mem, s, i, k, span, t, q);
    }
  }

  lemma LoadedNodeOk(p: Program, order: seq<nat>, mem: seq<byte>, s: State, i: nat, k: nat, span: Span, t: State,
                     q: nat)
    requires Running(p, order, mem, s) && !s.error && Agrees(p, order, mem, s) && q < |order| &&
      LoadedTo(p, s, i, k, span, t)
    ensures NodeOk(p, order, mem, t, q)
  {
    assert NodeOk(p, order, mem, s, q);
    if order[q] == i { LoadStep(p, order, mem, s, q, k, span); }
    LoadedNode(p, order, mem, s, i, k, span, s.mem[span.at..span.at + span.size], t, q);
  }

  lemma ScribbledByte(p: Program, order: seq<nat>, mem: seq<byte>, s: State, i: nat, t: State, a: nat, q: nat)
    requires Based(p, order, mem, s) && a < |mem| && q <= |order| && ByteOk(p, order, mem, s, a, q)
    requires i < |p.jobs| && i in s.flight && OnlyWrites(p, i, s.mem, t.mem)
    requires t.done == s.done && t.flight == s.flight[i := s.flight[i].(writing := true)]
    ensures ByteOk(p, order, mem, t, a, q)
  {
    if Clean(p, t, a) { assert t.flight[i].writing && !StoresAt(p, i, a); }
  }

  lemma ScribbleAgrees(p: Program, order: seq<nat>, mem: seq<byte>, s: State, i: nat, t: State)
    requires Based(p, order, mem, s) && Agrees(p, order, mem, s)
    requires i < |p.jobs| && i in s.flight && |s.flight[i].loaded| == |p.jobs[i].loads| &&
      OnlyWrites(p, i, s.mem, t.mem)
    requires t.done == s.done && t.error == s.error && t.flight == s.flight[i := s.flight[i].(writing := true)]
    ensures Agrees(p, order, mem, t)
  {
    if !s.error {
      forall a: nat, q: nat | a < |mem| && q <= |order|
        ensures ByteOk(p, order, mem, t, a, q)
      {
        ScribbledByte(p, order, mem, s, i, t, a, q);
      }
      forall q: nat | q < |order| ensures NodeOk(p, order, mem, t, q) { assert NodeOk(p, order, mem, s, q); }
    }
  }

  // A finished task has stored what the serial run stores.
  lemma FinishedByte(p: Program, order: seq<nat>, mem: seq<byte>, s: State, i: nat, q: nat, a: nat, c: nat, t: State)
    requires Running(p, order, mem, s) && !s.error && NodesOk(p, order, mem, s) && q < |order| && order[q] == i &&
      i in s.flight && Complete(p, s, i)
    requires a < |mem| && StoresAt(p, i, a) && c <= |order| && t.done == s.done + {i} && Caught(p, order, t.done, a, c)
    ensures s.mem[a] == Serial(p, order, mem, c)[a]
  {
    assert NodeOk(p, order, mem, s, q);
    var before := Serial(p, order, mem, q);
    StoredByte(s.mem, before, p.jobs[i].stores, p.kernels(i, s.flight[i].loaded).data, a);
    assert s.mem[a] == Serial(p, order, mem, q + 1)[a];
    ReadyByte(p, order, s, q, a);
    assert q < c;
    forall r: nat | q + 1 <= r < c ensures !StoresAt(p, order[r], a) { assert order[r] != order[q]; }
    SerialUnwritten(p, order, mem, q + 1, c, a);
  }

  lemma FinishedByteOk(p: Program, order: seq<nat>, mem: seq<byte>, s: State, i: nat, q: nat, a: nat, c: nat, t: State)
    requires Running(p, order, mem, s) && !s.error && NodesOk(p, order, mem, s) && q < |order| && order[q] == i &&
      i in s.flight && Complete(p, s, i)
    requires a < |mem| && c <= |order| && t.mem == s.mem && t.done == s.done + {i} && t.flight == s.flight - {i} &&
      ByteOk(p, order, mem, s, a, c)
    ensures ByteOk(p, order, mem, t, a, c)
  {
    if Clean(p, t, a) && Caught(p, order, t.done, a, c) {
      if StoresAt(p, i, a) {
        FinishedByte(p, order, mem, s, i, q, a, c, t);
      } else {
        StillCaught(p, order, s, t, i, a, c);
      }
    }
  }

  lemma StillCaught(p: Program, order: seq<nat>, s: State, t: State, i: nat, a: nat, c: nat)
    requires !StoresAt(p, i, a) && t.done == s.done + {i} && t.flight == s.flight - {i} && Clean(p, t, a) &&
      Caught(p, order, t.done, a, c)
    ensures Clean(p, s, a) && Caught(p, order, s.done, a, c)
  {
  }

  lemma FinishedNode(p: Program, order: seq<nat>, mem: seq<byte>, s: State, i: nat, t: State, r: nat)
    requires Based(p, order, mem, s) && i < |p.jobs| && i in s.flight && Complete(p, s, i) && r < |order| &&
      NodeOk(p, order, mem, s, r)
    requires t.done == s.done + {i} && t.flight == s.flight - {i}
    ensures NodeOk(p, order, mem, t, r)
  {
  }

  lemma FinishAgrees(p: Program, order: seq<nat>, mem: seq<byte>, s: State, i: nat, q: nat, t: State)
    requires Running(p, order, mem, s) && Agrees(p, order, mem, s)
    requires q < |order| && order[q] == i && i in s.flight && Complete(p, s, i)
    requires t.mem == s.mem && t.done == s.done + {i} && t.flight == s.flight - {i} && (s.error ==> t.error)
    ensures Agrees(p, order, mem, t)
  {
    if !t.error {
      forall a: nat, c: nat | a < |mem| && c <= |order|
        ensures ByteOk(p, order, mem, t, a, c)
      {
        FinishedByteOk(p, order, mem, s, i, q, a, c, t);
      }
      forall r: nat | r < |order| ensures NodeOk(p, order, mem, t, r) { FinishedNode(p, order, mem, s, i, t, r); }
    }
  }

  lemma TurnAgrees(p: Program, order: seq<nat>, mem: seq<byte>, s: State)
    requires Running(p, order, mem, s) && Agrees(p, order, mem, s) && s.main.Top?
    ensures Agrees(p, order, mem, Turn(p, s))
  {
    if s.completed < |p.jobs| && !s.error {
      LaunchAllKeeps(p, s);
      LaunchAgrees(p, order, mem, s, Turn(p, s));
    } else {
      LaunchAgrees(p, order, mem, s, Turn(p, s));
    }
  }

  lemma FinishEnabled(p: Program, s: State, i: nat)
    requires Valid(p, |s.mem|) && Enabled(p, s, Finish(i))
    ensures i < |p.jobs| && i in s.flight && Complete(p, s, i)
    ensures exists told :: After(p, s, Finish(i)) == Finished(s, i, told)
  {
    assert After(p, s, Finish(i)) == Finished(s, i, Tell(s.pending, s.queue, p.users[i]));
  }

  lemma FinishStep(p: Program, order: seq<nat>, mem: seq<byte>, s: State, i: nat)
    requires Running(p, order, mem, s) && Agrees(p, order, mem, s) && Enabled(p, s, Finish(i))
    ensures Agrees(p, order, mem, After(p, s, Finish(i)))
  {
    FinishEnabled(p, s, i);
    var told :| After(p, s, Finish(i)) == Finished(s, i, told);
    BegunNotDone(p, s, i);
    var q := TopologicalPosition(p.deps, order, i);
    FinishAgrees(p, order, mem, s, i, q, Finished(s, i, told));
  }

  lemma ScribbleEvent(p: Program, order: seq<nat>, mem: seq<byte>, s: State, i: nat, next: seq<byte>)
    requires Running(p, order, mem, s) && Agrees(p, order, mem, s) && Enabled(p, s, Scribble(i, next))
    ensures Agrees(p, order, mem, After(p, s, Scribble(i, next)))
  {
    ScribbleAgrees(p, order, mem, s, i, After(p, s, Scribble(i, next)));
  }

  lemma StepAgrees(p: Program, order: seq<nat>, mem: seq<byte>, s: State, e: Event)
    requires Running(p, order, mem, s) && Agrees(p, order, mem, s) && Enabled(p, s, e)
    ensures Agrees(p, order, mem, After(p, s, e))
  {
    match e
    case Loop => TurnAgrees(p, order, mem, s);
    case Collect => LaunchlessAgrees(p, order, mem, s, After(p, s, e));
    case Load(i) => LoadAgrees(p, order, mem, s, i);
    case Scribble(i, next) => ScribbleEvent(p, order, mem, s, i, next);
    case Finish(i) => FinishStep(p, order, mem, s, i);
    case Fail(i) =>
  }

  lemma LaunchlessAgrees(p: Program, order: seq<nat>, mem: seq<byte>, s: State, t: State)
    requires Based(p, order, mem, s) && Agrees(p, order, mem, s) && t == s.(main := t.main)
    ensures Agrees(p, order, mem, t)
  {
    if !s.error {
      SameBytes(p, order, mem, s, t);
      forall q: nat | q < |order| ensures NodeOk(p, order, mem, t, q) { assert NodeOk(p, order, mem, s, q); }
    }
  }

  // ---- Whole schedules ----

  lemma InitialAgrees(p: Program, order: seq<nat>, mem: seq<byte>)
    requires Valid(p, |mem|) && Topological(p.deps, order) && Within(order, |p.jobs|)
    ensures Agrees(p, order, mem, Initial(p, mem))
  {
    var s := Initial(p, mem);
    forall a: nat, q: nat | a < |mem| && q <= |order| ensures ByteOk(p, order, mem, s, a, q) {
      if Caught(p, order, s.done, a, q) { SerialUnwritten(p, order, mem, 0, q, a); }
    }
    forall q: nat | q < |order| ensures NodeOk(p, order, mem, s, q) {}
  }

  /** Every state of every schedule is under control. */
  lemma {:induction false} ScheduleControlled(p: Program, mem: seq<byte>, events: seq<Event>, s: State)
    requires Valid(p, |mem|) && Schedule(p, mem, events, s)
    ensures Control(p, s) && |s.mem| == |mem|
    decreases |events|
  {
    if events == [] {
      InitialControl(p, mem);
    } else {
      var n := |events| - 1;
      var before :| Schedule(p, mem, events[..n], before) && |before.mem| == |mem| && Enabled(p, before, events[n]) &&
        s == After(p, before, events[n]);
      ScheduleControlled(p, mem, events[..n], before);
      StepKeepsControl(p, before, events[n]);
    }
  }

  lemma {:induction false} ScheduleAgrees(p: Program, order: seq<nat>, mem: seq<byte>, events: seq<Event>, s: State)
    requires Valid(p, |mem|) && Topological(p.deps, order) && Within(order, |p.jobs|) && ConflictsOrdered(p) &&
      Schedule(p, mem, events, s)
    ensures Agrees(p, order, mem, s)
    decreases |events|
  {
    if events == [] {
      InitialAgrees(p, order, mem);
    } else {
      var n := |events| - 1;
      var before :| Schedule(p, mem, events[..n], before) && |before.mem| == |mem| && Enabled(p, before, events[n]) &&
        s == After(p, before, events[n]);
      ScheduleAgrees(p, order, mem, events[..n], before);
      ScheduleControlled(p, mem, events[..n], before);
      StepAgrees(p, order, mem, before, events[n]);
    }
  }

  lemma AllDone(p: Program, s: State)
    requires Control(p, s) && s.completed == |p.deps|
    ensures forall i: nat :: i < |p.deps| ==> i in s.done
  {
    DoneFits(p.deps, s.pending, s.queue, s.flight.Keys + s.failed, s.done);
    forall i: nat | i < |p.deps| ensures i in s.done {
      if i !in s.done { SubsetSize(s.done, Below(|p.deps|) - {i}); }
    }
  }

  /**
   Confluence. A schedule that returns success has left, in every byte, what running
   the nodes one after the other in any topological order leaves; every node succeeds there too.
   */
  lemma SuccessIsSerial(p: Program, order: seq<nat>, mem: seq<byte>, events: seq<Event>, s: State)
    requires Valid(p, |mem|) && Topological(p.deps, order) && Within(order, |p.jobs|) && ConflictsOrdered(p)
    requires Schedule(p, mem, events, s) && s.main == Returned(true)
    ensures s.mem == Serial(p, order, mem, |order|) && RunsInTurn(p, order, mem, s.mem)
    ensures forall q: nat :: q < |order| ==> SerialOk(p, order, mem, q)
  {
    ScheduleControlled(p, mem, events, s);
    ScheduleAgrees(p, order, mem, events, s);
    AllDone(p, s);
    forall a: nat | a < |mem|
      ensures s.mem[a] == Serial(p, order, mem, |order|)[a]
    {
      assert ByteOk(p, order, mem, s, a, |order|);
    }
    forall q: nat | q < |order| ensures SerialOk(p, order, mem, q) { assert NodeOk(p, order, mem, s, q); }
    SerialRuns(p, order, mem);
  }

  // With an order to follow, nothing can be left waiting.
  lemma {:induction false} NothingWaits(deps: Dependencies, pending: seq<nat>, done: set<nat>, order: seq<nat>, q: nat)
    requires Queued(deps, pending, [], {}, done, multiset{}) && Topological(deps, order) && q <= |order|
    ensures forall r: nat :: r < q ==> order[r] in done
  {
    if q > 0 {
      NothingWaits(deps, pending, done, order, q - 1);
      assert Ready(deps, order[..q - 1], order[q - 1]);
      MissingNone(deps[order[q - 1]], done);
    }
  }

  /**
   Whenever the run has returned, no task is running. It returned success exactly if no
   node failed, and then every node began once, after its predecessors had ended, and ended.
   */
  lemma ReturnIsClean(p: Program, order: seq<nat>, mem: seq<byte>, events: seq<Event>, s: State)
    requires Valid(p, |mem|) && Topological(p.deps, order) && Schedule(p, mem, events, s) && s.main.Returned?
    ensures s.flight == map[] && s.inFlight == 0
    ensures s.main.ok <==> s.failed == {}
    ensures LogOk(p.deps, s.log)
    ensures s.main.ok ==> forall i: nat :: i < |p.deps| ==> Began(i) in s.log && Ended(i) in s.log
  {
    ScheduleControlled(p, mem, events, s);
    if s.failed == {} && !s.main.ok { QuietIsComplete(p, order, s); }
    if s.main.ok {
      AllDone(p, s);
      forall i: nat | i < |p.deps|
        ensures Began(i) in s.log && Ended(i) in s.log
      {
        assert i in s.flight.Keys + s.failed + s.done;
      }
    }
  }

  // Without a failure, a run that has nothing left to do is complete.
  lemma QuietIsComplete(p: Program, order: seq<nat>, s: State)
    requires Control(p, s) && Topological(p.deps, order) && s.failed == {} && s.flight == map[] && s.queue == []
    ensures s.completed == |p.deps|
  {
    assert s.flight.Keys + s.failed == {};
    NothingWaits(p.deps, s.pending, s.done, order, |order|);
    forall i: nat | i < |p.deps| ensures i in s.done { var q := TopologicalPosition(p.deps, order, i); }
    DoneFits(p.deps, s.pending, s.queue, s.flight.Keys + s.failed, s.done);
    SubsetSize(Below(|p.deps|), s.done);
  }

  /** At the top of its loop the main thread finds no task running, and it never waits for one to signal. */
  lemma TopIsIdle(p: Program, mem: seq<byte>, events: seq<Event>, s: State)
    requires Valid(p, |mem|) && Schedule(p, mem, events, s)
    ensures s.main.Top? ==> s.inFlight == 0
    ensures !s.main.Waiting? && s.inFlight <= p.workers
  {
    ScheduleControlled(p, mem, events, s);
  }

  // A task loads before it writes.
  ghost predicate Shaped(p: Program, s: State) {
    forall i :: i in s.flight ==>
      i < |p.jobs| && |s.flight[i].loaded| <= |p.jobs[i].loads| &&
        (s.flight[i].writing ==> |s.flight[i].loaded| == |p.jobs[i].loads|)
  }

  lemma ShapedTurn(p: Program, s: State)
    requires Control(p, s) && s.main.Top? && Shaped(p, s) && |p.jobs| == |p.deps|
    ensures Shaped(p, Turn(p, s))
  {
    if s.completed < |p.jobs| && !s.error {
      LaunchAllKeeps(p, s);
      LaunchShaped(p, s, LaunchAll(p.workers, s));
    }
  }

  lemma LaunchShaped(p: Program, s: State, t: State)
    requires Busy(p, t) && Launches(s, t) && Shaped(p, s) && |p.jobs| == |p.deps|
    ensures Shaped(p, t)
  {
    forall i | i in t.flight ensures i < |p.jobs| { assert i in t.flight.Keys + t.failed; }
  }

  lemma ShapedStep(p: Program, s: State, e: Event)
    requires Valid(p, |s.mem|) && Control(p, s) && Enabled(p, s, e) && Shaped(p, s)
    ensures Shaped(p, After(p, s, e))
  {
    if e.Loop? { ShapedTurn(p, s); } else { ShapedTask(p, s, e); }
  }

  lemma ShapedTask(p: Program, s: State, e: Event)
    requires Valid(p, |s.mem|) && !e.Loop? && Enabled(p, s, e) && Shaped(p, s)
    ensures Shaped(p, After(p, s, e))
  {
  }

  lemma {:induction false} ScheduleShaped(p: Program, mem: seq<byte>, events: seq<Event>, s: State)
    requires Valid(p, |mem|) && Schedule(p, mem, events, s)
    ensures Shaped(p, s)
    decreases |events|
  {
    if events != [] {
      var n := |events| - 1;
      var before :| Schedule(p, mem, events[..n], before) && |before.mem| == |mem| && Enabled(p, before, events[n]) &&
        s == After(p, before, events[n]);
      ScheduleShaped(p, mem, events[..n], before);
      ScheduleControlled(p, mem, events[..n], before);
      ShapedStep(p, before, events[n]);
    }
  }

  // A step a running task can take: loading, storing its results, or ending.
  lemma TaskStep(p: Program, s: State, i: nat) returns (e: Event)
    requires Valid(p, |s.mem|) && Shaped(p, s) && i in s.flight && |s.pending| == |p.jobs|
    ensures Enabled(p, s, e) && (e.Fail? ==> e.node == i && !p.kernels(i, s.flight[i].loaded).ok)
    ensures e.Scribble? ==> !Complete(p, s, i) && Complete(p, After(p, s, e), i)
  {
    var task := s.flight[i];
    var out := p.kernels(i, task.loaded);
    if |task.loaded| < |p.jobs[i].loads| {
      e := Load(i);
    } else if !out.ok {
      e := Fail(i);
    } else if Complete(p, s, i) {
      e := Finish(i);
    } else {
      var next := Stores(s.mem, p.jobs[i].stores, out.data);
      forall a: nat | a < |s.mem|
        ensures !Covers(p.jobs[i].stores, a) ==> next[a] == s.mem[a]
        ensures Stores(next, p.jobs[i].stores, out.data)[a] == next[a]
      {
        StoredByte(next, s.mem, p.jobs[i].stores, out.data, a);
      }
      assert Stores(next, p.jobs[i].stores, out.data) == next;
      e := Scribble(i, next);
    }
  }

  /** Until it has returned, the run can take a step, and needs no failure of a kernel that succeeds. */
  lemma NeverStuck(p: Program, mem: seq<byte>, events: seq<Event>, s: State) returns (e: Event)
    requires Valid(p, |mem|) && Schedule(p, mem, events, s) && !s.main.Returned?
    ensures |s.mem| == |mem| && Enabled(p, s, e)
    ensures e.Fail? ==> !p.kernels(e.node, s.flight[e.node].loaded).ok
  {
    ScheduleControlled(p, mem, events, s);
    ScheduleShaped(p, mem, events, s);
    e := AnyStep(p, s);
  }

  lemma AnyStep(p: Program, s: State) returns (e: Event)
    requires Valid(p, |s.mem|) && Shaped(p, s) && |s.pending| == |p.jobs| && (s.main.Top? || s.main.Awaiting?)
    ensures Enabled(p, s, e)
    ensures e.Fail? ==> !p.kernels(e.node, s.flight[e.node].loaded).ok
  {
    if s.main.Top? {
      e := Loop;
    } else if s.flight == map[] {
      e := Collect;
    } else {
      var i :| i in s.flight;
      e := TaskStep(p, s, i);
    }
  }
}
