/**
 Running a batch of tasks on a thread pool, as a machine whose steps are the atomic
 actions of the caller and of the workers.
 */
module BatchRun {
  import opened Wrappers
  import opened DependencyOrder

  // A worker that registered claims indices from the counter until they run out; the
  // others wait for the batch to be retired.
  datatype Worker =
    | Idle | Surplus | Fetching | Running(task: nat) | Recording(task: nat) | Ending(task: nat) | Exhausted

  datatype Caller = Publishing | Waiting | Retiring | Rethrowing | Returned(thrown: Option<nat>)

  // `begun`, `finished` and `threw` record what the tasks did.
  datatype State = State(caller: Caller, workers: seq<Worker>, active: bool, registered: nat, next: nat, remaining: int,
                         failure: Option<nat>, begun: seq<nat>, finished: set<nat>, threw: set<nat>)

  datatype Batch = Batch(tasks: nat, pool: nat)

  function Target(b: Batch): nat { if b.tasks < b.pool then b.tasks else b.pool }

  function Initial(b: Batch): State {
    State(Publishing, seq(b.pool, w => Idle), false, 0, 0, b.tasks, None, [], {}, {})
  }

  datatype Event = Publish | Wake | Retire | Rethrow | Join(worker: nat) | Fetch(worker: nat) | Body(worker: nat,
                                                            throws: bool) |
    Record(worker: nat) | Subtract(worker: nat) | Leave(worker: nat)

  predicate Holds(w: Worker) { w.Running? || w.Recording? || w.Ending? }

  predicate Enabled(b: Batch, s: State, e: Event) {
    match e
    case Publish => s.caller == Publishing
    case Wake => s.caller == Waiting && s.remaining == 0
    case Retire => s.caller == Retiring
    case Rethrow => s.caller == Rethrowing
    case Join(w) => w < |s.workers| && s.workers[w] == Idle && s.active
    case Fetch(w) => w < |s.workers| && s.workers[w] == Fetching
    case Body(w, _) => w < |s.workers| && s.workers[w].Running?
    case Record(w) => w < |s.workers| && s.workers[w].Recording?
    case Subtract(w) => w < |s.workers| && s.workers[w].Ending?
    case Leave(w) => w < |s.workers| && (s.workers[w] == Exhausted || s.workers[w] == Surplus) && !s.active
  }

  function With(s: State, w: nat, phase: Worker): State
    requires w < |s.workers|
  {
    s.(workers := s.workers[w := phase])
  }

  function After(b: Batch, s: State, e: Event): State
    requires Enabled(b, s, e)
  {
    match e
    case Publish => s.(active := true, caller := Waiting)
    case Wake => s.(caller := Retiring)
    case Retire => s.(active := false, caller := Rethrowing)
    case Rethrow => s.(caller := Returned(s.failure))
    case Join(w) => if s.registered >= Target(b) then With(s, w, Surplus) else With(s, w,
      Fetching).(registered := s.registered + 1)
    case Fetch(w) =>
      if s.next >= b.tasks then With(s, w, Exhausted).(next := s.next + 1)
      else With(s, w, Running(s.next)).(next := s.next + 1, begun := s.begun + [s.next])
    case Body(w, throws) =>
      var task := s.workers[w].task;
      if throws then With(s, w, Recording(task)).(threw := s.threw + {task}) else With(s, w, Ending(task))
    case Record(w) =>
      var task := s.workers[w].task;
      With(s, w, Ending(task)).(failure := if s.failure == None then Some(task) else s.failure)
    case Subtract(w) => With(s, w, Fetching).(remaining := s.remaining - 1,
      finished := s.finished + {s.workers[w].task})
    case Leave(w) => With(s, w, Idle)
  }

  // Any interleaving of enabled steps.
  ghost predicate Interleaving(b: Batch, events: seq<Event>, s: State)
    decreases |events|
  {
    if events == [] then s == Initial(b)
    else
      var n := |events| - 1;
      exists before :: Interleaving(b, events[..n], before) && Enabled(b, before, events[n]) &&
        s == After(b, before, events[n])
  }

  // ---- What every reachable state satisfies ----

  function Claimed(b: Batch, s: State): nat { if s.next < b.tasks then s.next else b.tasks }

  // Every claimed task is finished or in the hands of exactly one worker.
  ghost predicate Accounted(b: Batch, s: State) {
    s.begun == Identity(Claimed(b, s)) && s.remaining == b.tasks - |s.finished| &&
    (forall i :: i in s.finished ==> i < Claimed(b, s)) &&
    (forall w: nat :: w < |s.workers| && Holds(s.workers[w]) ==>
      s.workers[w].task < Claimed(b, s) && s.workers[w].task !in s.finished) &&
    (forall v: nat, w: nat ::
      (v < |s.workers| && w < |s.workers| && Holds(s.workers[v]) && Holds(s.workers[w]) &&
       s.workers[v].task == s.workers[w].task) ==> v == w) &&
    (forall i: nat :: i < Claimed(b, s) && i !in s.finished ==> Held(s, i))
  }

  ghost predicate Held(s: State, i: nat) {
    exists w: nat :: w < |s.workers| && Holds(s.workers[w]) && s.workers[w].task == i
  }

  // A failure is recorded as soon as the first task that threw has ended.
  ghost predicate Recorded(s: State) {
    (s.failure.Some? ==> s.failure.value in s.threw) &&
    (forall i :: i in s.threw ==> s.failure.Some? || BeingRecorded(s, i)) &&
    (forall i :: i in s.finished ==> i in s.threw ==> s.failure.Some?) &&
    (forall w: nat :: w < |s.workers| && s.workers[w].Recording? ==> s.workers[w].task in s.threw)
  }

  ghost predicate BeingRecorded(s: State, i: nat) { exists w: nat :: w < |s.workers| && s.workers[w] == Recording(i) }

  // How many of the first n workers have registered.
  function Members(workers: seq<Worker>, n: nat): nat
    requires n <= |workers|
  {
    if n == 0 then 0 else Members(workers, n - 1) + if workers[n - 1] == Idle || workers[n - 1] == Surplus then 0 else 1
  }

  ghost predicate Phased(b: Batch, s: State) {
    |s.workers| == b.pool && s.registered <= Target(b) &&
    (s.caller == Publishing ==> s.registered == 0 && forall w: nat :: w < |s.workers| ==> s.workers[w] == Idle) &&
    (s.active <==> s.caller == Waiting || s.caller == Retiring) &&
    (s.active ==> Members(s.workers, b.pool) == s.registered) &&
    (s.active && s.registered < Target(b) ==> forall w: nat :: w < |s.workers| ==> s.workers[w] != Surplus) &&
    (s.caller == Retiring || s.caller == Rethrowing || s.caller.Returned? ==> s.remaining == 0) &&
    (s.caller.Returned? ==> s.caller.thrown == s.failure) &&
    (forall w: nat :: w < |s.workers| && s.workers[w] == Exhausted ==> s.next >= b.tasks)
  }

  ghost predicate Sound(b: Batch, s: State) { Accounted(b, s) && Recorded(s) && Phased(b, s) }

  lemma {:induction false} MembersOne(workers: seq<Worker>, w: nat, phase: Worker, n: nat)
    requires n <= |workers| && w < |workers|
    ensures Members(workers[w := phase], n) ==
      if w >= n then Members(workers, n)
      else Members(workers, n) - (if workers[w] == Idle || workers[w] == Surplus then 0 else 1) + (if phase == Idle ||
        phase == Surplus then 0 else 1)
  {
    if n > 0 { MembersOne(workers, w, phase, n - 1); }
  }

  lemma {:induction false} NoMembers(workers: seq<Worker>, n: nat)
    requires n <= |workers|
    ensures Members(workers, n) == 0 <==> forall w: nat :: w < n ==> workers[w] == Idle || workers[w] == Surplus
    ensures Members(workers, n) <= n
  {
    if n > 0 { NoMembers(workers, n - 1); }
  }

  lemma InitialSound(b: Batch)
    ensures Sound(b, Initial(b))
  {
  }

  // Handing the next index to a worker.
  lemma FetchAccounted(b: Batch, s: State, w: nat)
    requires Accounted(b, s) && Enabled(b, s, Fetch(w))
    ensures Accounted(b, After(b, s, Fetch(w)))
  {
    var t := After(b, s, Fetch(w));
    forall i: nat | i < Claimed(b, t) && i !in t.finished ensures Held(t, i) {
      if i == s.next {
        assert t.workers[w].task == i;
      } else {
        assert Held(s, i);
        var v: nat :| v < |s.workers| && Holds(s.workers[v]) && s.workers[v].task == i;
        assert t.workers[v] == s.workers[v];
      }
    }
  }

  // A worker moves on with the task it holds.
  lemma CarryAccounted(b: Batch, s: State, w: nat, phase: Worker, t: State)
    requires Accounted(b, s) && w < |s.workers| && Holds(s.workers[w]) && Holds(phase) &&
      phase.task == s.workers[w].task
    requires t.workers == s.workers[w := phase] && t.begun == s.begun && t.next == s.next &&
      t.remaining == s.remaining && t.finished == s.finished
    ensures Accounted(b, t)
  {
    forall i: nat | i < Claimed(b, t) && i !in t.finished ensures Held(t, i) {
      assert Held(s, i);
      var v: nat :| v < |s.workers| && Holds(s.workers[v]) && s.workers[v].task == i;
      assert Holds(t.workers[v]) && t.workers[v].task == i;
    }
  }

  lemma SubtractAccounted(b: Batch, s: State, w: nat)
    requires Accounted(b, s) && Enabled(b, s, Subtract(w))
    ensures Accounted(b, After(b, s, Subtract(w)))
  {
    var t := After(b, s, Subtract(w));
    forall i: nat | i < Claimed(b, t) && i !in t.finished ensures Held(t, i) {
      assert Held(s, i);
      var v: nat :| v < |s.workers| && Holds(s.workers[v]) && s.workers[v].task == i;
      assert t.workers[v] == s.workers[v];
    }
  }

  // A worker without a task changes phase to another without one.
  lemma MoveAccounted(b: Batch, s: State, w: nat, phase: Worker, t: State)
    requires Accounted(b, s) && w < |s.workers| && !Holds(s.workers[w]) && !Holds(phase)
    requires t.workers == s.workers[w := phase] && t.begun == s.begun && t.next == s.next &&
      t.remaining == s.remaining && t.finished == s.finished
    ensures Accounted(b, t)
  {
    forall i: nat | i < Claimed(b, t) && i !in t.finished ensures Held(t, i) {
      assert Held(s, i);
      var v: nat :| v < |s.workers| && Holds(s.workers[v]) && s.workers[v].task == i;
      assert t.workers[v] == s.workers[v];
    }
  }

  lemma StepAccounted(b: Batch, s: State, e: Event)
    requires Accounted(b, s) && Enabled(b, s, e)
    ensures Accounted(b, After(b, s, e))
  {
    var t := After(b, s, e);
    match e
    case Publish => SameAccounts(b, s, t);
    case Wake => SameAccounts(b, s, t);
    case Retire => SameAccounts(b, s, t);
    case Rethrow => SameAccounts(b, s, t);
    case Join(w) => MoveAccounted(b, s, w, t.workers[w], t);
    case Fetch(w) => FetchAccounted(b, s, w);
    case Body(w, throws) => CarryAccounted(b, s, w, t.workers[w], t);
    case Record(w) => CarryAccounted(b, s, w, t.workers[w], t);
    case Subtract(w) => SubtractAccounted(b, s, w);
    case Leave(w) => MoveAccounted(b, s, w, Idle, t);
  }

  lemma SameAccounts(b: Batch, s: State, t: State)
    requires Accounted(b, s) && t == s.(caller := t.caller, active := t.active)
    ensures Accounted(b, t)
  {
    forall i: nat | i < Claimed(b, t) && i !in t.finished ensures Held(t, i) { assert Held(s, i); }
  }

  lemma StillRecorded(s: State, t: State, w: nat, phase: Worker, i: nat)
    requires Recorded(s) && w < |s.workers| && t.workers == s.workers[w := phase] && i in s.threw &&
      t.failure == s.failure
    requires s.workers[w] != Recording(i)
    ensures t.failure.Some? || BeingRecorded(t, i)
  {
    if s.failure.None? {
      assert BeingRecorded(s, i);
      var v: nat :| v < |s.workers| && s.workers[v] == Recording(i);
      assert t.workers[v] == Recording(i);
    }
  }

  // The worker changes phase without throwing, recording or ending a task.
  lemma MoveRecorded(s: State, t: State, w: nat, phase: Worker)
    requires Recorded(s) && w < |s.workers| && !s.workers[w].Recording? && !phase.Recording?
    requires t.workers == s.workers[w := phase] && t.threw == s.threw && t.failure == s.failure &&
      t.finished == s.finished
    ensures Recorded(t)
  {
    forall i | i in t.threw ensures t.failure.Some? || BeingRecorded(t, i) { StillRecorded(s, t, w, phase, i); }
  }

  lemma ThrowRecorded(b: Batch, s: State, w: nat)
    requires Recorded(s) && Accounted(b, s) && w < |s.workers| && s.workers[w].Running?
    ensures Recorded(After(b, s, Body(w, true)))
  {
    var t, task := After(b, s, Body(w, true)), s.workers[w].task;
    assert t.workers[w] == Recording(task);
    forall i | i in t.threw ensures t.failure.Some? || BeingRecorded(t, i) {
      if i != task { StillRecorded(s, t, w, Recording(task), i); }
    }
    assert Holds(s.workers[w]);
  }

  lemma SubtractRecorded(b: Batch, s: State, w: nat)
    requires Recorded(s) && Accounted(b, s) && Enabled(b, s, Subtract(w))
    ensures Recorded(After(b, s, Subtract(w)))
  {
    var t := After(b, s, Subtract(w));
    EndedIsRecorded(b, s, w);
    forall i | i in t.threw ensures t.failure.Some? || BeingRecorded(t, i) { StillRecorded(s, t, w, Fetching, i); }
  }

  lemma StepRecorded(b: Batch, s: State, e: Event)
    requires Recorded(s) && Accounted(b, s) && Enabled(b, s, e)
    ensures Recorded(After(b, s, e))
  {
    var t := After(b, s, e);
    match e
    case Publish => SameRecorded(s, t);
    case Wake => SameRecorded(s, t);
    case Retire => SameRecorded(s, t);
    case Rethrow => SameRecorded(s, t);
    case Join(w) => MoveRecorded(s, t, w, t.workers[w]);
    case Fetch(w) => MoveRecorded(s, t, w, t.workers[w]);
    case Body(w, throws) => if throws { ThrowRecorded(b, s, w); } else { MoveRecorded(s, t, w, t.workers[w]); }
    case Record(w) =>
    case Subtract(w) => SubtractRecorded(b, s, w);
    case Leave(w) => MoveRecorded(s, t, w, Idle);
  }

  lemma SameRecorded(s: State, t: State)
    requires Recorded(s) && t == s.(caller := t.caller, active := t.active)
    ensures Recorded(t)
  {
    forall i | i in t.threw
      ensures t.failure.Some? || BeingRecorded(t, i)
    {
      assert s.failure.Some? || BeingRecorded(s, i);
    }
  }

  // A task whose worker is past recording leaves a failure behind if it threw.
  lemma EndedIsRecorded(b: Batch, s: State, w: nat)
    requires Recorded(s) && Accounted(b, s) && w < |s.workers| && s.workers[w].Ending?
    ensures s.workers[w].task in s.threw ==> s.failure.Some?
  {
    var i := s.workers[w].task;
    if i in s.threw && s.failure.None? {
      assert BeingRecorded(s, i);
      var v: nat :| v < |s.workers| && s.workers[v] == Recording(i);
      assert Holds(s.workers[v]) && Holds(s.workers[w]);
    }
  }

  lemma CallerPhased(b: Batch, s: State, e: Event)
    requires Phased(b, s) && Enabled(b, s, e) && (e.Publish? || e.Wake? || e.Retire? || e.Rethrow?)
    ensures Phased(b, After(b, s, e))
  {
    NoMembers(s.workers, |s.workers|);
  }

  lemma JoinPhased(b: Batch, s: State, w: nat)
    requires Phased(b, s) && Enabled(b, s, Join(w))
    ensures Phased(b, After(b, s, Join(w)))
  {
    MembersOne(s.workers, w, After(b, s, Join(w)).workers[w], b.pool);
  }

  // A worker inside the batch moves on.
  lemma InsidePhased(b: Batch, s: State, w: nat, phase: Worker, t: State)
    requires Phased(b, s) && w < |s.workers| && !s.workers[w].Idle? && !s.workers[w].Surplus? && !phase.Idle? &&
      !phase.Surplus?
    requires t.workers == s.workers[w := phase] && t.caller == s.caller && t.active == s.active &&
      t.registered == s.registered
    requires t.failure == s.failure || !s.caller.Returned?
    requires t.next >= s.next && (phase == Exhausted ==> t.next >= b.tasks) &&
      (t.remaining == s.remaining || s.remaining > 0)
    ensures Phased(b, t)
  {
    MembersOne(s.workers, w, phase, b.pool);
  }

  lemma LeavePhased(b: Batch, s: State, w: nat)
    requires Phased(b, s) && Enabled(b, s, Leave(w))
    ensures Phased(b, After(b, s, Leave(w)))
  {
  }

  lemma StepPhased(b: Batch, s: State, e: Event)
    requires Sound(b, s) && Enabled(b, s, e)
    ensures Phased(b, After(b, s, e))
  {
    var t := After(b, s, e);
    match e
    case Publish => CallerPhased(b, s, e);
    case Wake => CallerPhased(b, s, e);
    case Retire => CallerPhased(b, s, e);
    case Rethrow => CallerPhased(b, s, e);
    case Join(w) => JoinPhased(b, s, w);
    case Fetch(w) => InsidePhased(b, s, w, t.workers[w], t);
    case Body(w, throws) => InsidePhased(b, s, w, t.workers[w], t);
    case Record(w) => NotYetDone(b, s, w); InsidePhased(b, s, w, t.workers[w], t);
    case Subtract(w) => NotYetDone(b, s, w); InsidePhased(b, s, w, t.workers[w], t);
    case Leave(w) => LeavePhased(b, s, w);
  }

  // A task still in a worker's hands keeps the caller waiting.
  lemma NotYetDone(b: Batch, s: State, w: nat)
    requires Accounted(b, s) && w < |s.workers| && Holds(s.workers[w])
    ensures s.remaining > 0
  {
    FewerThanAll(s.finished, b.tasks, s.workers[w].task);
  }

  lemma FewerThanAll(finished: set<nat>, n: nat, i: nat)
    requires i < n && i !in finished && forall j :: j in finished ==> j < n
    ensures |finished| < n
  {
    var all := Below(n);
    assert all == finished + (all - finished);
    assert i in all - finished;
  }

  /** Every state of every interleaving is accounted for. */
  lemma {:induction false} InterleavingSound(b: Batch, events: seq<Event>, s: State)
    requires Interleaving(b, events, s)
    ensures Sound(b, s)
    decreases |events|
  {
    if events == [] {
      InitialSound(b);
    } else {
      var n := |events| - 1;
      var before :| Interleaving(b, events[..n], before) && Enabled(b, before, events[n]) &&
        s == After(b, before, events[n]);
      InterleavingSound(b, events[..n], before);
      StepAccounted(b, before, events[n]);
      StepRecorded(b, before, events[n]);
      StepPhased(b, before, events[n]);
    }
  }

  lemma NothingLeft(b: Batch, s: State)
    requires Accounted(b, s) && s.remaining == 0
    ensures s.finished == Below(b.tasks) && s.begun == Identity(b.tasks)
    ensures forall w: nat :: w < |s.workers| ==> !Holds(s.workers[w])
  {
    forall i: nat | i < b.tasks ensures i in s.finished {
      if i !in s.finished { FewerThanAll(s.finished, b.tasks, i); }
    }
    if Claimed(b, s) < b.tasks { FewerThanAll(s.finished, b.tasks, Claimed(b, s)); }
    forall w: nat | w < |s.workers| ensures !Holds(s.workers[w]) {
      if Holds(s.workers[w]) { NotYetDone(b, s, w); }
    }
  }

  // ---- The bodies that ran ----

  // The event is the body of the task.
  ghost predicate Bodies(s: State, e: Event, task: nat) {
    e.Body? && e.worker < |s.workers| && s.workers[e.worker] == Running(task)
  }

  // The k-th event is the body of the task.
  ghost predicate BodyAt(b: Batch, events: seq<Event>, k: nat, task: nat) {
    k < |events| && exists s :: Interleaving(b, events[..k], s) && Bodies(s, events[k], task)
  }

  ghost predicate Ran(b: Batch, events: seq<Event>, task: nat) { exists k: nat :: BodyAt(b, events, k, task) }

  // The body of the task ended with an exception.
  ghost predicate Threw(b: Batch, events: seq<Event>, task: nat) {
    exists k: nat :: BodyAt(b, events, k, task) && events[k].throws
  }

  ghost predicate RanOnce(b: Batch, events: seq<Event>, task: nat) {
    Ran(b, events, task) &&
    forall j: nat, k: nat :: BodyAt(b, events, j, task) && BodyAt(b, events, k, task) ==> j == k
  }

  lemma {:induction false} InterleavingIsUnique(b: Batch, events: seq<Event>, s: State, t: State)
    requires Interleaving(b, events, s) && Interleaving(b, events, t)
    ensures s == t
    decreases |events|
  {
    if events != [] {
      var n := |events| - 1;
      var before :| Interleaving(b, events[..n], before) && Enabled(b, before, events[n]) &&
        s == After(b, before, events[n]);
      var other :| Interleaving(b, events[..n], other) && Enabled(b, other, events[n]) &&
        t == After(b, other, events[n]);
      InterleavingIsUnique(b, events[..n], before, other);
    }
  }

  // The body that an event adds to those before it.
  lemma BodyStep(b: Batch, events: seq<Event>, before: State, k: nat, task: nat)
    requires events != [] && Interleaving(b, events[..|events| - 1], before)
    ensures BodyAt(b, events, k, task) <==>
      BodyAt(b, events[..|events| - 1], k, task) || (k == |events| - 1 && Bodies(before, events[k], task))
  {
    var n := |events| - 1;
    if k < n {
      assert events[..n][..k] == events[..k];
    } else if k == n && BodyAt(b, events, k, task) {
      var s :| Interleaving(b, events[..k], s) && Bodies(s, events[k], task);
      InterleavingIsUnique(b, events[..n], s, before);
    }
  }

  ghost predicate InBody(s: State, task: nat) { exists w: nat :: w < |s.workers| && s.workers[w] == Running(task) }

  // What the state records of a task is what the events say.
  ghost predicate Remembered(b: Batch, events: seq<Event>, s: State, task: nat) {
    (Ran(b, events, task) <==> task in s.begun && !InBody(s, task)) &&
      (Ran(b, events, task) ==> RanOnce(b, events, task)) &&
    (Threw(b, events, task) <==> task in s.threw)
  }

  lemma OneRuns(b: Batch, s: State, v: nat, w: nat, task: nat)
    requires Accounted(b, s) && v < |s.workers| && w < |s.workers|
    requires s.workers[v] == Running(task) && s.workers[w] == Running(task)
    ensures v == w
  {
    assert Holds(s.workers[v]) && Holds(s.workers[w]);
  }

  lemma InBodyOthers(b: Batch, s: State, t: State, w: nat, phase: Worker, task: nat)
    requires Accounted(b, s) && w < |s.workers| && t.workers == s.workers[w := phase]
    ensures s.workers[w] == Running(task) && phase != Running(task) ==> !InBody(t, task)
    ensures s.workers[w] != Running(task) && phase != Running(task) ==> (InBody(t, task) <==> InBody(s, task))
    ensures phase == Running(task) ==> InBody(t, task)
    ensures InBody(s, task) ==> task in s.begun
  {
    if s.workers[w] != Running(task) && InBody(s, task) {
      var v: nat :| v < |s.workers| && s.workers[v] == Running(task);
      assert t.workers[v] == Running(task);
    }
    if InBody(t, task) && phase != Running(task) {
      var v: nat :| v < |t.workers| && t.workers[v] == Running(task);
      assert s.workers[v] == Running(task) && v != w;
      if s.workers[w] == Running(task) { OneRuns(b, s, v, w, task); }
    }
    if phase == Running(task) { assert t.workers[w] == Running(task); }
    if InBody(s, task) {
      var v: nat :| v < |s.workers| && s.workers[v] == Running(task);
      assert Holds(s.workers[v]);
      InIdentity(Claimed(b, s), task);
    }
  }

  lemma InIdentity(n: nat, i: nat)
    ensures i in Identity(n) <==> i < n
  {
    if i < n { assert Identity(n)[i] == i; }
  }

  // What a step makes of one task.
  ghost predicate StepsTo(s: State, e: Event, t: State, task: nat) {
    (task in t.begun && !InBody(t, task) <==> (task in s.begun && !InBody(s, task)) || Bodies(s, e, task)) &&
    (task in t.threw <==> task in s.threw || (Bodies(s, e, task) && e.throws))
  }

  // A worker enters no body and leaves none.
  lemma QuietStep(b: Batch, s: State, e: Event, t: State, w: nat, phase: Worker, task: nat)
    requires Accounted(b, s) && !e.Body? && w < |s.workers| && t.workers == s.workers[w := phase]
    requires t.begun == s.begun && t.threw == s.threw && !s.workers[w].Running? && !phase.Running?
    ensures StepsTo(s, e, t, task)
  {
    InBodyOthers(b, s, t, w, phase, task);
  }

  lemma FetchStep(b: Batch, s: State, w: nat, task: nat)
    requires Accounted(b, s) && Enabled(b, s, Fetch(w)) && s.next < b.tasks
    ensures StepsTo(s, Fetch(w), After(b, s, Fetch(w)), task)
  {
    InBodyOthers(b, s, After(b, s, Fetch(w)), w, Running(s.next), task);
    InIdentity(s.next, task);
  }

  lemma BodyEnds(b: Batch, s: State, w: nat, throws: bool, task: nat)
    requires Accounted(b, s) && Enabled(b, s, Body(w, throws))
    ensures StepsTo(s, Body(w, throws), After(b, s, Body(w, throws)), task)
  {
    var t := After(b, s, Body(w, throws));
    InBodyOthers(b, s, t, w, t.workers[w], task);
    if s.workers[w] == Running(task) { assert InBody(s, task); }
  }

  lemma RunningStep(b: Batch, s: State, e: Event, task: nat)
    requires Accounted(b, s) && Enabled(b, s, e)
    ensures StepsTo(s, e, After(b, s, e), task)
    ensures Bodies(s, e, task) ==> InBody(s, task)
  {
    var t := After(b, s, e);
    match e
    case Publish => assert InBody(t, task) <==> InBody(s, task);
    case Wake => assert InBody(t, task) <==> InBody(s, task);
    case Retire => assert InBody(t, task) <==> InBody(s, task);
    case Rethrow => assert InBody(t, task) <==> InBody(s, task);
    case Join(w) => QuietStep(b, s, e, t, w, t.workers[w], task);
    case Fetch(w) => if s.next < b.tasks { FetchStep(b, s, w, task); } else { QuietStep(b, s, e, t, w, Exhausted,
      task); }
    case Body(w, throws) => BodyEnds(b, s, w, throws, task);
    case Record(w) => QuietStep(b, s, e, t, w, t.workers[w], task);
    case Subtract(w) => QuietStep(b, s, e, t, w, Fetching, task);
    case Leave(w) => QuietStep(b, s, e, t, w, Idle, task);
  }

  lemma RememberedStep(b: Batch, events: seq<Event>, before: State, s: State, task: nat)
    requires events != [] && Interleaving(b, events[..|events| - 1], before) && Accounted(b, before)
    requires Enabled(b, before, events[|events| - 1]) && s == After(b, before, events[|events| - 1])
    requires Remembered(b, events[..|events| - 1], before, task)
    ensures Remembered(b, events, s, task)
  {
    var n := |events| - 1;
    RunningStep(b, before, events[n], task);
    forall k: nat
      ensures BodyAt(b, events, k, task) <==>
        BodyAt(b, events[..n], k, task) || (k == n && Bodies(before, events[k], task))
    {
      BodyStep(b, events, before, k, task);
    }
    if Bodies(before, events[n], task) {
      assert BodyAt(b, events, n, task);
      assert !Ran(b, events[..n], task);
    }
    if k: nat :| BodyAt(b, events[..n], k, task) { assert BodyAt(b, events, k, task); }
    if Threw(b, events[..n], task) {
      var k: nat :| BodyAt(b, events[..n], k, task) && events[..n][k].throws;
      assert BodyAt(b, events, k, task) && events[k].throws;
    }
  }

  lemma {:induction false} InterleavingRemembered(b: Batch, events: seq<Event>, s: State, task: nat)
    requires Interleaving(b, events, s)
    ensures Remembered(b, events, s, task)
    decreases |events|
  {
    if events != [] {
      var n := |events| - 1;
      var before :| Interleaving(b, events[..n], before) && Enabled(b, before, events[n]) &&
        s == After(b, before, events[n]);
      InterleavingRemembered(b, events[..n], before, task);
      InterleavingSound(b, events[..n], before);
      RememberedStep(b, events, before, s, task);
    }
  }

  lemma FinishedRanOnce(b: Batch, events: seq<Event>, s: State, i: nat)
    requires Interleaving(b, events, s) && s.begun == Identity(b.tasks)
    requires forall w: nat :: w < |s.workers| ==> !Holds(s.workers[w])
    ensures if i < b.tasks then RanOnce(b, events, i) else !Ran(b, events, i)
    ensures Threw(b, events, i) <==> i in s.threw
  {
    InterleavingRemembered(b, events, s, i);
    InIdentity(b.tasks, i);
    forall w: nat | w < |s.workers| ensures s.workers[w] != Running(i) { assert !Holds(s.workers[w]); }
  }

  /**
   Once the caller has returned, and ever after: the body of each task ran exactly once and has finished,
   no task body is running, no more workers than the target registered, and an exception was
   rethrown if and only if some task threw; it is the exception of such a task.
   */
  lemma ReturnedIsComplete(b: Batch, events: seq<Event>, s: State)
    requires Interleaving(b, events, s) && s.caller.Returned?
    ensures s.begun == Identity(b.tasks) && s.finished == Below(b.tasks)
    ensures forall w: nat :: w < |s.workers| ==> !Holds(s.workers[w])
    ensures s.registered <= b.tasks && s.registered <= b.pool
    ensures forall i: nat :: if i < b.tasks then RanOnce(b, events, i) else !Ran(b, events, i)
    ensures s.caller.thrown.Some? <==> exists i: nat :: Threw(b, events, i)
    ensures s.caller.thrown.Some? ==> Threw(b, events, s.caller.thrown.value)
  {
    InterleavingSound(b, events, s);
    NothingLeft(b, s);
    forall i: nat
      ensures if i < b.tasks then RanOnce(b, events, i) else !Ran(b, events, i)
      ensures Threw(b, events, i) <==> i in s.threw
    {
      FinishedRanOnce(b, events, s, i);
    }
    if i: nat :| Threw(b, events, i) { assert !BeingRecorded(s, i); }
  }

  /** Before that a task runs at most once, and only indices of the batch run. */
  lemma NeverTwice(b: Batch, events: seq<Event>, s: State)
    requires Interleaving(b, events, s)
    ensures s.begun == Identity(Claimed(b, s)) && Claimed(b, s) <= b.tasks && s.registered <= Target(b)
    ensures forall i: nat :: i < Claimed(b, s) ==> i in s.finished || Held(s, i)
    ensures forall i: nat :: Ran(b, events, i) ==> RanOnce(b, events, i) && i < b.tasks
  {
    InterleavingSound(b, events, s);
    forall i: nat | Ran(b, events, i) ensures RanOnce(b, events, i) && i < b.tasks {
      InterleavingRemembered(b, events, s, i);
      InIdentity(Claimed(b, s), i);
    }
  }

  // With tasks left, some worker can act: one that is in the batch, or one that has not joined yet.
  lemma WorkerCanAct(b: Batch, s: State) returns (e: Event)
    requires Sound(b, s) && s.caller == Waiting && s.remaining > 0 && b.pool > 0 && b.tasks > 0
    ensures Enabled(b, s, e)
  {
    if w: nat :| w < |s.workers| && s.workers[w] == Fetching {
      e := Fetch(w);
    } else if w: nat :| w < |s.workers| && s.workers[w].Running? {
      e := Body(w, false);
    } else if w: nat :| w < |s.workers| && s.workers[w].Recording? {
      e := Record(w);
    } else if w: nat :| w < |s.workers| && s.workers[w].Ending? {
      e := Subtract(w);
    } else if w: nat :| w < |s.workers| && s.workers[w] == Idle {
      e := Join(w);
    } else {
      NoneWorks(b, s);
      assert false;
    }
  }

  // Workers that have all run out of indices have finished everything.
  lemma NoneWorks(b: Batch, s: State)
    requires Sound(b, s) && s.caller == Waiting && b.pool > 0 && b.tasks > 0
    requires forall w: nat :: w < |s.workers| ==> s.workers[w] == Exhausted || s.workers[w] == Surplus
    ensures s.remaining == 0
  {
    NoMembers(s.workers, b.pool);
    assert s.workers[0] == Exhausted || s.workers[0] == Surplus;
    var w: nat :| w < |s.workers| && s.workers[w] == Exhausted;
    forall i: nat | i < b.tasks ensures i in s.finished { assert !Held(s, i); }
    assert s.finished == Below(b.tasks);
  }

  lemma RemainingIsNatural(b: Batch, s: State)
    requires Accounted(b, s)
    ensures s.remaining >= 0
  {
    var all := Below(b.tasks);
    assert all == s.finished + (all - s.finished);
  }

  /** Until the caller has returned, the protocol can take a step. */
  lemma NeverStuck(b: Batch, events: seq<Event>, s: State) returns (e: Event)
    requires Interleaving(b, events, s) && b.pool > 0 && b.tasks > 0 && !s.caller.Returned?
    ensures Enabled(b, s, e)
  {
    InterleavingSound(b, events, s);
    match s.caller
    case Publishing => e := Publish;
    case Retiring => e := Retire;
    case Rethrowing => e := Rethrow;
    case Waiting => RemainingIsNatural(b, s); if s.remaining == 0 { e := Wake; } else { e := WorkerCanAct(b, s); }
    case Returned(_) =>
  }

  // ---- A pool without workers ----

  // How many bodies the caller starts itself: a throwing one is the last.
  function InlineStarted(throws: seq<bool>): (r: nat)
    ensures r <= |throws|
  {
    if throws == [] then 0 else if throws[0] then 1 else 1 + InlineStarted(throws[1..])
  }

  // The caller runs the tasks in order; an exception leaves the loop at once.
  method RunInline(throws: seq<bool>) returns (started: nat, thrown: bool)
    ensures started == InlineStarted(throws) && forall i :: 0 <= i < started - 1 ==> !throws[i]
    ensures if thrown then started > 0 && throws[started - 1] else started == |throws| && true !in throws
  {
    started := 0;
    for i := 0 to |throws|
      invariant started == i && InlineStarted(throws) == i + InlineStarted(throws[i..]) && true !in throws[..i]
    {
      started := started + 1;
      if throws[i] { return started, true; }
      assert throws[i..][1..] == throws[i + 1..];
      assert throws[..i + 1] == throws[..i] + [throws[i]];
    }
    assert throws[..|throws|] == throws;
    thrown := false;
  }

  /** Without workers every task runs if and only if no task before the last one throws. */
  lemma {:induction false} InlineIsComplete(throws: seq<bool>)
    ensures InlineStarted(throws) == |throws| <==> forall i :: 0 <= i < |throws| - 1 ==> !throws[i]
  {
    if throws != [] && !throws[0] {
      InlineIsComplete(throws[1..]);
      forall i | 0 <= i < |throws| - 1 ensures i > 0 ==> throws[i] == throws[1..][i - 1] {}
      if InlineStarted(throws[1..]) != |throws[1..]| {
        var i :| 0 <= i < |throws[1..]| - 1 && throws[1..][i];
        assert throws[i + 1];
      }
    }
  }

  /** Two tasks on a pool without workers, the first of which throws: the second never runs. */
  lemma InlineStopsEarly()
    ensures InlineStarted([true, false]) == 1
  {
  }
}
