/**
 Releasing the device copies of values during a run: a value is released when its last
 consumer has finished, whatever the order in which nodes finish.
 */
module RemainingUses {
  import opened DependencyOrder

  // How often v is among the first k names. An input may repeat.
  function Times(names: seq<nat>, k: nat, v: nat): nat
    requires k <= |names|
  {
    if k == 0 then 0 else Times(names, k - 1, v) + if names[k - 1] == v then 1 else 0
  }

  lemma {:induction false} TimesIn(names: seq<nat>, k: nat, v: nat)
    requires k <= |names|
    ensures Times(names, k, v) > 0 <==> exists i :: 0 <= i < k && names[i] == v
  {
    if k > 0 { TimesIn(names, k - 1, v); }
  }

  lemma {:induction false} TimesGrow(names: seq<nat>, j: nat, k: nat, v: nat)
    requires j <= k <= |names|
    ensures Times(names, j, v) <= Times(names, k, v)
  {
    if j < k { TimesGrow(names, j, k - 1, v); }
  }

  // How often the unfinished ones of the first n nodes read v.
  function Owed(inputs: seq<seq<nat>>, done: set<nat>, v: nat, n: nat): nat
    requires n <= |inputs|
  {
    if n == 0 then 0
    else Owed(inputs, done, v, n - 1) + if n - 1 in done then 0 else Times(inputs[n - 1], |inputs[n - 1]|, v)
  }

  ghost predicate ReadBy(inputs: seq<seq<nat>>, i: nat, v: nat) { i < |inputs| && v in inputs[i] }

  // Some node reads the value, and all that do have finished.
  ghost predicate Spent(inputs: seq<seq<nat>>, done: set<nat>, v: nat) {
    (exists i: nat :: ReadBy(inputs, i, v)) && forall i: nat :: ReadBy(inputs, i, v) ==> i in done
  }

  lemma {:induction false} OwedNothing(inputs: seq<seq<nat>>, done: set<nat>, v: nat, n: nat)
    requires n <= |inputs|
    ensures Owed(inputs, done, v, n) == 0 <==> forall i: nat :: i < n && ReadBy(inputs, i, v) ==> i in done
  {
    if n > 0 {
      OwedNothing(inputs, done, v, n - 1);
      TimesIn(inputs[n - 1], |inputs[n - 1]|, v);
      assert ReadBy(inputs, n - 1, v) <==> Times(inputs[n - 1], |inputs[n - 1]|, v) > 0;
    }
  }

  lemma {:induction false} OwedLess(inputs: seq<seq<nat>>, done: set<nat>, v: nat, n: nat, i: nat)
    requires n <= |inputs| && i < |inputs| && i !in done
    ensures Owed(inputs, done, v, n) == Owed(inputs, done + {i}, v, n) + if i < n then Times(inputs[i], |inputs[i]|,
      v) else 0
  {
    if n > 0 { OwedLess(inputs, done, v, n - 1, i); }
  }

  function Get(remaining: map<nat, nat>, v: nat): nat { if v in remaining then remaining[v] else 0 }

  // The uses left, and the values released.
  datatype Tally = Tally(remaining: map<nat, nat>, released: seq<nat>)

  // The tally is that of the nodes finished so far: released are the spent values that are not kept.
  ghost predicate TallyAt(inputs: seq<seq<nat>>, kept: set<nat>, done: set<nat>, t: Tally, v: nat) {
    Get(t.remaining, v) == Owed(inputs, done, v, |inputs|) &&
    (v in t.released <==> Spent(inputs, done, v) && v !in kept)
  }

  ghost predicate TallyOf(inputs: seq<seq<nat>>, kept: set<nat>, done: set<nat>, t: Tally) {
    Distinct(t.released) && forall v: nat :: TallyAt(inputs, kept, done, t, v)
  }

  // One use less; a value without any left is released unless it is kept.
  function Use(t: Tally, v: nat, kept: set<nat>): Tally
    requires Get(t.remaining, v) > 0
  {
    var left := Get(t.remaining, v) - 1;
    Tally(t.remaining[v := left], if left == 0 && v !in kept then t.released + [v] else t.released)
  }

  // For v, the tally t has had the first k names counted off.
  ghost predicate CountedAt(before: Tally, t: Tally, names: seq<nat>, k: nat, kept: set<nat>, v: nat)
    requires k <= |names|
  {
    Get(t.remaining, v) + Times(names, k, v) == Get(before.remaining, v) &&
    (v in t.released <==> v in before.released || (Times(names, k, v) > 0 && Get(t.remaining, v) == 0 && v !in kept))
  }

  ghost predicate Counted(before: Tally, t: Tally, names: seq<nat>, k: nat, kept: set<nat>)
    requires k <= |names|
  {
    Distinct(t.released) && before.released <= t.released && forall v: nat :: CountedAt(before, t, names, k, kept, v)
  }

  // What an unfinished node reads has a use for each of its occurrences, and has not been released.
  lemma StillOwed(inputs: seq<seq<nat>>, kept: set<nat>, done: set<nat>, before: Tally, i: nat, v: nat)
    requires i < |inputs| && i !in done && TallyOf(inputs, kept, done, before) && v in inputs[i]
    ensures Get(before.remaining, v) >= Times(inputs[i], |inputs[i]|, v) && v !in before.released
  {
    OwedLess(inputs, done, v, |inputs|, i);
    assert TallyAt(inputs, kept, done, before, v) && ReadBy(inputs, i, v);
  }

  lemma UseLeft(inputs: seq<seq<nat>>, kept: set<nat>, done: set<nat>, before: Tally, t: Tally, i: nat, k: nat, v: nat)
    requires i < |inputs| && i !in done && TallyOf(inputs, kept, done, before) && k < |inputs[i]| && v == inputs[i][k]
    requires CountedAt(before, t, inputs[i], k, kept, v)
    ensures Get(t.remaining, v) > 0 && v !in t.released && v !in before.released
  {
    StillOwed(inputs, kept, done, before, i, v);
    TimesGrow(inputs[i], k + 1, |inputs[i]|, v);
  }

  lemma UseCounts(before: Tally, t: Tally, names: seq<nat>, k: nat, kept: set<nat>, v: nat)
    requires k < |names| && CountedAt(before, t, names, k, kept, v) && Get(t.remaining, names[k]) > 0
    requires names[k] !in t.released && names[k] !in before.released
    ensures CountedAt(before, Use(t, names[k], kept), names, k + 1, kept, v)
  {
    var next := Use(t, names[k], kept);
    assert v in next.released <==> v in t.released || (v == names[k] && Get(next.remaining, v) == 0 && v !in kept);
  }

  // Counting off the k-th input of node i.
  lemma UseKeepsCounted(inputs: seq<seq<nat>>, kept: set<nat>, done: set<nat>, before: Tally, t: Tally, i: nat, k: nat)
    requires i < |inputs| && i !in done && TallyOf(inputs, kept, done, before) && k < |inputs[i]|
    requires Counted(before, t, inputs[i], k, kept)
    ensures Get(t.remaining, inputs[i][k]) > 0 && Counted(before, Use(t, inputs[i][k], kept), inputs[i], k + 1, kept)
  {
    assert CountedAt(before, t, inputs[i], k, kept, inputs[i][k]);
    UseLeft(inputs, kept, done, before, t, i, k, inputs[i][k]);
    var after, next := Use(t, inputs[i][k], kept), k + 1;
    forall v: nat ensures CountedAt(before, after, inputs[i], next, kept, v) {
      assert CountedAt(before, t, inputs[i], k, kept, v);
      UseCounts(before, t, inputs[i], k, kept, v);
    }
  }

  // Once all inputs of node i are counted off, the tally is that of the nodes finished with it.
  lemma NodeDoneAt(inputs: seq<seq<nat>>, kept: set<nat>, done: set<nat>, before: Tally, t: Tally, i: nat, v: nat)
    requires i < |inputs| && i !in done && TallyAt(inputs, kept, done, before, v)
    requires CountedAt(before, t, inputs[i], |inputs[i]|, kept, v)
    ensures TallyAt(inputs, kept, done + {i}, t, v)
  {
    OwedLess(inputs, done, v, |inputs|, i);
    OwedNothing(inputs, done + {i}, v, |inputs|);
    TimesIn(inputs[i], |inputs[i]|, v);
    assert ReadBy(inputs, i, v) <==> Times(inputs[i], |inputs[i]|, v) > 0;
  }

  lemma NodeDone(inputs: seq<seq<nat>>, kept: set<nat>, done: set<nat>, before: Tally, t: Tally, i: nat)
    requires i < |inputs| && i !in done && TallyOf(inputs, kept, done, before) &&
      Counted(before, t, inputs[i], |inputs[i]|, kept)
    ensures TallyOf(inputs, kept, done + {i}, t)
  {
    forall v: nat ensures TallyAt(inputs, kept, done + {i}, t, v) {
      assert TallyAt(inputs, kept, done, before, v) && CountedAt(before, t, inputs[i], |inputs[i]|, kept, v);
      NodeDoneAt(inputs, kept, done, before, t, i, v);
    }
  }

  // A run: the inputs of its nodes, and the values whose device copies are kept.
  class Releases {
    const inputs: seq<seq<nat>>
    const kept: set<nat>
    var remaining: map<nat, nat>
    var released: seq<nat>
    ghost var done: set<nat>

    ghost function Now(): Tally
      reads this
    {
      Tally(remaining, released)
    }

    // Released are, once each, the spent values that are not kept.
    ghost predicate Valid()
      reads this
    {
      TallyOf(inputs, kept, done, Now())
    }

    // Counts the uses of every value.
    constructor (inputs: seq<seq<nat>>, kept: set<nat>)
      ensures Valid() && done == {} && released == [] && this.inputs == inputs && this.kept == kept
    {
      this.inputs, this.kept, released, done := inputs, kept, [], {};
      var counts: map<nat, nat> := map[];
      for i := 0 to |inputs|
        invariant forall v: nat :: Get(counts, v) == Owed(inputs, {}, v, i)
      {
        ghost var before := counts;
        for k := 0 to |inputs[i]|
          invariant forall v: nat :: Get(counts, v) == Get(before, v) + Times(inputs[i], k, v)
        {
          counts := counts[inputs[i][k] := Get(counts, inputs[i][k]) + 1];
        }
      }
      remaining := counts;
      new;
      forall v: nat ensures TallyAt(inputs, kept, done, Now(), v) { assert !Spent(inputs, done, v); }
    }

    /** After a node has finished: its inputs lose a use each, and what has none left is released. */
    method ReleaseUnusedInputs(i: nat)
      requires Valid() && i < |inputs| && i !in done
      modifies this
      ensures Valid() && done == old(done) + {i} && old(released) <= released
    {
      ghost var before := Now();
      CountedNone(inputs[i], before);
      for k := 0 to |inputs[i]|
        invariant done == old(done) && TallyOf(inputs, kept, done, before) && Counted(before, Now(), inputs[i], k, kept)
      {
        UseKeepsCounted(inputs, kept, done, before, Now(), i, k);
        var v := inputs[i][k];
        remaining := remaining[v := remaining[v] - 1];
        if remaining[v] == 0 && v !in kept { released := released + [v]; }
      }
      NodeDone(inputs, kept, done, before, Now(), i);
      done := done + {i};
    }

    lemma CountedNone(names: seq<nat>, t: Tally)
      requires Distinct(t.released)
      ensures Counted(t, t, names, 0, kept)
    {
    }
  }
}
