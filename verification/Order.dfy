/**
 The dependency order shared by the static graph, the compiler and the serial
 executor: Kahn's algorithm over a heap of ready node indices.

 `deps[i]` lists the producers of the inputs of node i, one entry per input,
 so a producer feeding two inputs of one node is counted twice.
 */
module DependencyOrder {

  type Dependencies = seq<seq<nat>>

  ghost predicate Within(s: seq<nat>, n: nat) {
    forall k :: 0 <= k < |s| ==> s[k] < n
  }

  ghost predicate ValidDeps(deps: Dependencies) {
    forall i :: 0 <= i < |deps| ==> Within(deps[i], |deps|)
  }

  ghost predicate Distinct<T>(s: seq<T>) {
    forall p, q :: 0 <= p < q < |s| ==> s[p] != s[q]
  }

  // Node i can run once the nodes in `done` have run, and has not run itself.
  ghost predicate Ready(deps: Dependencies, done: seq<nat>, i: nat) {
    i < |deps| && i !in done && forall d :: d in deps[i] ==> d in done
  }

  // Every node once, each after everything it depends on.
  ghost predicate Topological(deps: Dependencies, order: seq<nat>) {
    |order| == |deps| && Distinct(order) && forall p :: 0 <= p < |order| ==> Ready(deps, order[..p], order[p])
  }

  // At the first position where the two differ, a has the smaller node.
  ghost predicate NotAfter(a: seq<nat>, b: seq<nat>) {
    forall p :: 0 <= p < |a| && p < |b| && a[..p] == b[..p] ==> a[p] <= b[p]
  }

  ghost predicate LexLeast(deps: Dependencies, order: seq<nat>) {
    forall other :: Topological(deps, other) ==> NotAfter(order, other)
  }

  // Each node of the walk depends on the next one.
  ghost predicate Walk(deps: Dependencies, w: seq<nat>) {
    (forall k :: 0 <= k < |w| ==> w[k] < |deps|) &&
    (forall k :: 0 <= k < |w| - 1 ==> w[k + 1] in deps[w[k]])
  }

  ghost predicate Cycle(deps: Dependencies, w: seq<nat>) {
    |w| >= 2 && Walk(deps, w) && w[0] == w[|w| - 1]
  }

  ghost predicate Acyclic(deps: Dependencies) {
    forall w :: !Cycle(deps, w)
  }

  // What Kahn's loop has emitted so far: always the smallest ready node.
  ghost predicate Greedy(deps: Dependencies, order: seq<nat>) {
    forall p :: 0 <= p < |order| ==>
      Ready(deps, order[..p], order[p]) && forall i :: Ready(deps, order[..p], i) ==> order[p] <= i
  }

  lemma GreedyIsLexLeast(deps: Dependencies, order: seq<nat>)
    requires Greedy(deps, order)
    ensures LexLeast(deps, order)
  {
    forall other | Topological(deps, other) ensures NotAfter(order, other) {
      forall p | 0 <= p < |order| && p < |other| && order[..p] == other[..p] ensures order[p] <= other[p] {
        assert Ready(deps, order[..p], other[p]);
      }
    }
  }

  lemma {:induction false} NotAfterEachOther(a: seq<nat>, b: seq<nat>, n: nat)
    requires NotAfter(a, b) && NotAfter(b, a) && n <= |a| == |b|
    ensures a[..n] == b[..n]
  {
    if n > 0 {
      NotAfterEachOther(a, b, n - 1);
      assert a[..n] == a[..n - 1] + [a[n - 1]] && b[..n] == b[..n - 1] + [b[n - 1]];
    }
  }

  /** Two lexicographically least orders are the same order. */
  lemma LexLeastIsUnique(deps: Dependencies, a: seq<nat>, b: seq<nat>)
    requires Topological(deps, a) && Topological(deps, b) && LexLeast(deps, a) && LexLeast(deps, b)
    ensures a == b
  {
    assert NotAfter(a, b) && NotAfter(b, a);
    NotAfterEachOther(a, b, |a|);
    assert a == a[..|a|] && b == b[..|b|];
  }

  function Identity(n: nat): (s: seq<nat>)
    ensures |s| == n && forall i :: 0 <= i < n ==> s[i] == i
  {
    seq(n, i => i)
  }

  // Nodes numbered so that every dependency has a smaller index.
  ghost predicate Numbered(deps: Dependencies) {
    forall i, d :: 0 <= i < |deps| && d in deps[i] ==> d < i
  }

  /** On a topologically numbered graph the lowest-ready-index order is 0, 1, ..., n-1. */
  lemma NumberedOrderIsIdentity(deps: Dependencies, order: seq<nat>)
    requires Numbered(deps) && Greedy(deps, order) && |order| <= |deps|
    ensures order == Identity(|deps|)[..|order|]
  {
    for p := 0 to |order|
      invariant order[..p] == Identity(|deps|)[..p]
    {
      forall d: nat | d < p ensures d in order[..p] {
        assert order[..p][d] == d;
      }
      assert p !in order[..p];
      assert Ready(deps, order[..p], p);
      assert order[p] == p;
      assert order[..p + 1] == order[..p] + [order[p]];
    }
    assert order == order[..|order|];
  }

  lemma TopologicalPosition(deps: Dependencies, order: seq<nat>, i: nat) returns (p: nat)
    requires Topological(deps, order) && i < |deps|
    ensures p < |order| && order[p] == i
  {
    if i !in order {
      forall x | x in order ensures x < |deps| {
        var q :| 0 <= q < |order| && order[q] == x;
        assert Ready(deps, order[..q], order[q]);
      }
      DistinctFits(order, Below(|deps|) - {i});
    }
    p :| p < |order| && order[p] == i;
  }

  function Below(n: nat): (s: set<nat>)
    ensures |s| == n && forall x: nat :: x in s <==> x < n
  {
    if n == 0 then {} else Below(n - 1) + {n - 1}
  }

  lemma SubsetSize<T>(a: set<T>, b: set<T>)
    requires a <= b
    ensures |a| <= |b|
  {
    assert b == a + (b - a);
  }

  lemma DistinctFits<T>(s: seq<T>, bound: set<T>)
    requires Distinct(s) && forall x :: x in s ==> x in bound
    ensures |s| <= |bound|
  {
    if s != [] {
      var last := s[|s| - 1];
      DistinctFits(s[..|s| - 1], bound - {last});
    }
  }

  /** A graph that has a topological order has no dependency cycle. */
  lemma TopologicalIsAcyclic(deps: Dependencies, order: seq<nat>)
    requires Topological(deps, order)
    ensures Acyclic(deps)
  {
    forall w ensures !Cycle(deps, w) {
      if Cycle(deps, w) {
        var first := TopologicalPosition(deps, order, w[0]);
        var p: nat := first;
        for k := 0 to |w| - 1
          invariant p < |order| && order[p] == w[k] && p <= first && (k > 0 ==> p < first)
        {
          assert Ready(deps, order[..p], order[p]) && w[k + 1] in order[..p];
          var q :| 0 <= q < |order[..p]| && order[..p][q] == w[k + 1];
          p := q;
        }
      }
    }
  }

  ghost predicate Waits(deps: Dependencies, done: seq<nat>, i: nat)
    requires i < |deps|
  {
    exists d :: d in deps[i] && d !in done
  }

  // Follows, from `start`, one unfinished dependency after another.
  lemma Chain(deps: Dependencies, done: seq<nat>, start: nat, steps: nat) returns (w: seq<nat>)
    requires ValidDeps(deps) && start < |deps| && start !in done
    requires forall i: nat {:trigger Waits(deps, done, i)} :: i < |deps| && i !in done ==> Waits(deps, done, i)
    ensures |w| == steps + 1 && Walk(deps, w) && w[0] == start
    decreases steps
  {
    if steps == 0 { return [start]; }
    assert Waits(deps, done, start);
    var d :| d in deps[start] && d !in done;
    var rest := Chain(deps, done, d, steps - 1);
    w := [start] + rest;
  }

  /** If every remaining node waits for a remaining node, following the waits closes a cycle. */
  lemma StuckIsCyclic(deps: Dependencies, done: seq<nat>, start: nat)
    requires ValidDeps(deps) && start < |deps| && start !in done
    requires forall i: nat {:trigger Waits(deps, done, i)} :: i < |deps| && i !in done ==> Waits(deps, done, i)
    ensures !Acyclic(deps)
  {
    var w := Chain(deps, done, start, |deps|);
    if Distinct(w) {
      DistinctFits(w, Below(|deps|));
    } else {
      var p, q :| 0 <= p < q < |w| && w[p] == w[q];
      var loop := w[p..q + 1];
      assert forall k :: 0 <= k < |loop| ==> loop[k] == w[p + k];
      assert Cycle(deps, loop);
    }
  }

  // How many entries of s are outside done.
  function Missing(s: seq<nat>, done: set<nat>): nat {
    if s == [] then 0 else (if s[0] in done then 0 else 1) + Missing(s[1..], done)
  }

  lemma {:induction false} MissingAfter(s: seq<nat>, done: set<nat>, i: nat)
    requires i !in done
    ensures Missing(s, done) == Missing(s, done + {i}) + multiset(s)[i]
  {
    if s != [] {
      MissingAfter(s[1..], done, i);
      assert s == [s[0]] + s[1..];
    }
  }

  lemma {:induction false} MissingNone(s: seq<nat>, done: set<nat>)
    ensures Missing(s, done) == 0 <==> forall d :: d in s ==> d in done
  {
    if s != [] {
      MissingNone(s[1..], done);
      assert s == [s[0]] + s[1..];
    }
  }

  lemma {:induction false} MissingAll(s: seq<nat>)
    ensures Missing(s, {}) == |s|
  {
    if s != [] { MissingAll(s[1..]); }
  }

  ghost predicate IsLeast(s: set<nat>, i: nat) {
    i in s && forall j :: j in s ==> i <= j
  }

  lemma LeastExists(s: set<nat>) returns (least: nat)
    requires s != {}
    ensures IsLeast(s, least)
  {
    var x :| x in s;
    if s == {x} {
      least := x;
    } else {
      var y := LeastExists(s - {x});
      least := if x < y then x else y;
      forall j | j in s ensures least <= j {
        assert j == x || j in s - {x};
      }
    }
  }

  // users[p] lists each node once for every input that p produces.
  ghost predicate UsersOf(deps: Dependencies, users: seq<seq<nat>>) {
    |users| == |deps| && forall p, i :: 0 <= p < |users| && 0 <= i < |deps| ==>
      multiset(users[p])[i] == multiset(deps[i])[p]
  }

  ghost predicate InRange(users: seq<seq<nat>>, n: nat) {
    forall p :: 0 <= p < |users| ==> Within(users[p], n)
  }

  // The loop's bookkeeping: pending counts the inputs still missing, plus
  // those of the last extracted node that have not been decremented yet.
  ghost predicate Bookkept(deps: Dependencies, pending: seq<nat>, ready: set<nat>, done: set<nat>,
    owed: multiset<nat>) {
    |pending| == |deps| &&
    (forall i :: 0 <= i < |deps| ==> pending[i] == Missing(deps[i], done) + owed[i]) &&
    (forall i: nat :: i in ready <==> i < |deps| && i !in done && pending[i] == 0) &&
    (forall i: nat :: i in done ==> i < |deps| && pending[i] == 0)
  }

  lemma ReadyIsUnblocked(deps: Dependencies, pending: seq<nat>, ready: set<nat>, order: seq<nat>, done: set<nat>)
    requires Bookkept(deps, pending, ready, done, multiset{})
    requires forall x :: x in order <==> x in done
    ensures forall i :: Ready(deps, order, i) <==> i in ready
  {
    forall i | 0 <= i < |deps| ensures Missing(deps[i], done) == 0 <==> forall d :: d in deps[i] ==> d in done {
      MissingNone(deps[i], done);
    }
  }

  lemma Extract(deps: Dependencies, pending: seq<nat>, ready: set<nat>, done: set<nat>, i: nat, users: seq<nat>)
    requires Bookkept(deps, pending, ready, done, multiset{}) && i in ready
    requires forall j :: 0 <= j < |deps| ==> multiset(users)[j] == multiset(deps[j])[i]
    ensures Bookkept(deps, pending, ready - {i}, done + {i}, multiset(users))
  {
    forall j | 0 <= j < |deps|
      ensures pending[j] == Missing(deps[j], done + {i}) + multiset(users)[j]
    {
      MissingAfter(deps[j], done, i);
    }
  }

  lemma Decrement(deps: Dependencies, pending: seq<nat>, ready: set<nat>, done: set<nat>, user: nat,
                  owed: multiset<nat>)
    requires Bookkept(deps, pending, ready, done, multiset{user} + owed) && user < |deps|
    ensures pending[user] > 0
    ensures Bookkept(deps, pending[user := pending[user] - 1], if pending[user] == 1 then ready + {user} else ready,
      done, owed)
  {
  }

  lemma GreedyStep(deps: Dependencies, order: seq<nat>, i: nat)
    requires Greedy(deps, order) && Distinct(order) && Ready(deps, order, i)
    requires forall j :: Ready(deps, order, j) ==> i <= j
    ensures Greedy(deps, order + [i]) && Distinct(order + [i])
  {
    var next := order + [i];
    forall p | 0 <= p < |next|
      ensures Ready(deps, next[..p], next[p]) && forall j :: Ready(deps, next[..p], j) ==> next[p] <= j
    {
      assert next[..p] == order[..p];
      if p == |order| { assert order[..p] == order; }
    }
  }

  lemma GreedyFits(deps: Dependencies, order: seq<nat>)
    requires Greedy(deps, order) && Distinct(order)
    ensures |order| <= |deps| && (|order| == |deps| ==> Topological(deps, order))
  {
    forall x | x in order ensures x < |deps| {
      var p :| 0 <= p < |order| && order[p] == x;
      assert Ready(deps, order[..p], order[p]);
    }
    DistinctFits(order, Below(|deps|));
  }

  lemma StoppedIsComplete(deps: Dependencies, pending: seq<nat>, order: seq<nat>, done: set<nat>)
    requires ValidDeps(deps) && Bookkept(deps, pending, {}, done, multiset{})
    requires Distinct(order) && Greedy(deps, order)
    requires forall x :: x in order <==> x in done
    ensures |order| == |deps| <==> Acyclic(deps)
  {
    GreedyFits(deps, order);
    if |order| == |deps| {
      TopologicalIsAcyclic(deps, order);
    } else {
      forall i: nat | i < |deps| && i !in order ensures Waits(deps, order, i) {
        MissingNone(deps[i], done);
      }
      DistinctSize(order, done);
      assert Below(|deps|) != done;
      var start: nat :| start < |deps| && start !in order;
      StuckIsCyclic(deps, order, start);
    }
  }

  lemma {:induction false} DistinctSize<T>(s: seq<T>, elements: set<T>)
    requires Distinct(s) && forall x :: x in s <==> x in elements
    ensures |s| == |elements|
  {
    if s == [] {
      assert elements == {};
    } else {
      var last := s[|s| - 1];
      var init := s[..|s| - 1];
      assert s == init + [last];
      DistinctSize(init, elements - {last});
    }
  }

  /** Tells the users of an emitted node; those with nothing left to wait for become ready. */
  method Release(ghost deps: Dependencies, pending: array<nat>, ready: set<nat>, ghost done: set<nat>, users: seq<nat>)
    returns (next: set<nat>)
    requires Within(users, |deps|)
    requires Bookkept(deps, pending[..], ready, done, multiset(users))
    modifies pending
    ensures Bookkept(deps, pending[..], next, done, multiset{})
  {
    next := ready;
    assert users[0..] == users;
    for k := 0 to |users|
      invariant Bookkept(deps, pending[..], next, done, multiset(users[k..]))
    {
      var user := users[k];
      assert users[k..] == [user] + users[k + 1..];
      Decrement(deps, pending[..], next, done, user, multiset(users[k + 1..]));
      ghost var after := pending[..][user := pending[user] - 1];
      pending[user] := pending[user] - 1;
      assert pending[..] == after;
      if pending[user] == 0 { next := next + {user}; }
    }
    assert users[|users|..] == [];
  }

  // The number of inputs each node waits for.
  function Counts(deps: Dependencies): (counts: seq<nat>)
    ensures |counts| == |deps| && forall i :: 0 <= i < |deps| ==> counts[i] == |deps[i]|
  {
    seq(|deps|, i requires 0 <= i < |deps| => |deps[i]|)
  }

  method Start(ghost deps: Dependencies, pending: array<nat>) returns (ready: set<nat>)
    requires pending[..] == Counts(deps)
    ensures Bookkept(deps, pending[..], ready, {}, multiset{})
  {
    ready := {};
    for i := 0 to pending.Length
      invariant forall j: nat :: j in ready <==> j < i && pending[j] == 0
    {
      if pending[i] == 0 { ready := ready + {i}; }
    }
    forall i | 0 <= i < |deps| ensures Missing(deps[i], {}) == |deps[i]| { MissingAll(deps[i]); }
  }

  // The invariant of Kahn's loop.
  ghost predicate Emitting(deps: Dependencies, pending: seq<nat>, ready: set<nat>, order: seq<nat>, done: set<nat>) {
    Bookkept(deps, pending, ready, done, multiset{}) && Distinct(order) && Greedy(deps, order) &&
    forall x :: x in order <==> x in done
  }

  lemma EmitLeast(deps: Dependencies, pending: seq<nat>, ready: set<nat>, order: seq<nat>, done: set<nat>,
                  users: seq<seq<nat>>, i: nat)
    requires Emitting(deps, pending, ready, order, done) && IsLeast(ready, i) && UsersOf(deps, users)
    ensures i < |users| && Bookkept(deps, pending, ready - {i}, done + {i}, multiset(users[i]))
    ensures Distinct(order + [i]) && Greedy(deps, order + [i]) && |order| < |deps|
  {
    ReadyIsUnblocked(deps, pending, ready, order, done);
    GreedyStep(deps, order, i);
    GreedyFits(deps, order + [i]);
    Extract(deps, pending, ready, done, i, users[i]);
  }

  lemma Emitted(deps: Dependencies, pending: seq<nat>, order: seq<nat>, done: set<nat>)
    requires ValidDeps(deps) && Emitting(deps, pending, {}, order, done)
    ensures |order| <= |deps| && (|order| == |deps| ==> Topological(deps, order))
    ensures |order| == |deps| <==> Acyclic(deps)
  {
    GreedyFits(deps, order);
    StoppedIsComplete(deps, pending, order, done);
  }

  // The head of the ready heap.
  method Top(ready: set<nat>) returns (i: nat)
    requires ready != {}
    ensures IsLeast(ready, i)
  {
    ghost var least := LeastExists(ready);
    i :| i in ready && forall j :: j in ready ==> i <= j;
  }

  /** Kahn's loop: it emits the smallest ready node until none is ready. */
  method Kahn(ghost deps: Dependencies, counts: seq<nat>, users: seq<seq<nat>>) returns (order: seq<nat>)
    requires ValidDeps(deps) && UsersOf(deps, users) && InRange(users, |deps|) && counts == Counts(deps)
    ensures Distinct(order) && Greedy(deps, order) && |order| <= |deps|
    ensures |order| == |deps| ==> Topological(deps, order)
    ensures |order| == |deps| <==> Acyclic(deps)
  {
    var pending := new nat[|counts|](i requires 0 <= i < |counts| => counts[i]);
    assert pending[..] == counts;
    order := [];
    ghost var done: set<nat> := {};
    var ready := Start(deps, pending);
    while ready != {}
      invariant Emitting(deps, pending[..], ready, order, done)
      decreases |deps| - |order|
    {
      var i := Top(ready);
      EmitLeast(deps, pending[..], ready, order, done, users, i);
      order, done := order + [i], done + {i};
      ready := Release(deps, pending, ready - {i}, done, users[i]);
    }
    Emitted(deps, pending[..], order, done);
  }
}
