/**
 The parallel branch of a run, as a machine whose steps are those of the main loop and
 of the tasks it launches. Loads of different tasks interleave one by one, and a task
 may leave anything in the storage it writes until it finishes.
 */
module ParallelRun {
  import opened Wrappers
  import opened DependencyOrder
  import opened Spans

  // The storage a node reads and the storage it overwrites.
  datatype Job = Job(loads: seq<Span>, stores: seq<Span>)

  datatype Outcome = Outcome(data: seq<seq<byte>>, ok: bool)

  type Kernels = (nat, seq<seq<byte>>) -> Outcome

  // users[i] lists the successors of node i, once for every input it feeds.
  datatype Program = Program(jobs: seq<Job>, deps: Dependencies, users: seq<seq<nat>>, kernels: Kernels, workers: nat)

  ghost predicate Inside(spans: seq<Span>, size: nat) {
    forall k :: 0 <= k < |spans| ==> spans[k].at + spans[k].size <= size
  }

  ghost predicate Sized(spans: seq<Span>, data: seq<seq<byte>>) {
    |data| == |spans| && forall k :: 0 <= k < |spans| ==> |data[k]| == spans[k].size
  }

  ghost predicate Valid(p: Program, size: nat) {
    ValidDeps(p.deps) && |p.jobs| == |p.deps| && UsersOf(p.deps, p.users) && InRange(p.users, |p.deps|) &&
      p.workers > 0 &&
    (forall i :: 0 <= i < |p.jobs| ==> Inside(p.jobs[i].loads, size) && Inside(p.jobs[i].stores, size)) &&
    (forall i: nat, inputs :: i < |p.jobs| ==> Sized(p.jobs[i].stores, p.kernels(i, inputs).data))
  }

  // ---- Serial runs ----

  function LoadAll(mem: seq<byte>, spans: seq<Span>): (r: seq<seq<byte>>)
    requires Inside(spans, |mem|)
    ensures |r| == |spans|
  {
    seq(|spans|, k requires 0 <= k < |spans| => mem[spans[k].at..spans[k].at + spans[k].size])
  }

  function Put(mem: seq<byte>, span: Span, data: seq<byte>): (r: seq<byte>)
    requires span.at + span.size <= |mem| && |data| == span.size
    ensures |r| == |mem|
  {
    mem[..span.at] + data + mem[span.at + span.size..]
  }

  function Stores(mem: seq<byte>, spans: seq<Span>, data: seq<seq<byte>>): (r: seq<byte>)
    requires Inside(spans, |mem|) && Sized(spans, data)
    ensures |r| == |mem|
  {
    if spans == [] then mem
    else
      var n := |spans| - 1;
      Put(Stores(mem, spans[..n], data[..n]), spans[n], data[n])
  }

  function RunJob(p: Program, mem: seq<byte>, i: nat): (r: seq<byte>)
    requires Valid(p, |mem|) && i < |p.jobs|
    ensures |r| == |mem|
  {
    Stores(mem, p.jobs[i].stores, p.kernels(i, LoadAll(mem, p.jobs[i].loads)).data)
  }

  // The memory after the first q nodes of an order have run one after the other.
  function Serial(p: Program, order: seq<nat>, mem: seq<byte>, q: nat): (r: seq<byte>)
    requires Valid(p, |mem|) && Within(order, |p.jobs|) && q <= |order|
    ensures |r| == |mem|
  {
    if q == 0 then mem else RunJob(p, Serial(p, order, mem, q - 1), order[q - 1])
  }

  lemma LoadAllHolds(mem: seq<byte>, spans: seq<Span>)
    requires Inside(spans, |mem|)
    ensures HoldAll(mem, spans, LoadAll(mem, spans))
  {
  }

  lemma {:induction false} StoresWrites(mem: seq<byte>, spans: seq<Span>, data: seq<seq<byte>>)
    requires Inside(spans, |mem|) && Sized(spans, data)
    ensures Written(mem, Stores(mem, spans, data), spans, data)
  {
    if spans == [] {
      WrittenNone(mem);
    } else {
      var n := |spans| - 1;
      var before := Stores(mem, spans[..n], data[..n]);
      StoresWrites(mem, spans[..n], data[..n]);
      OverwrittenReplaces(before, spans[n], data[n]);
      WrittenMore(mem, before, Stores(mem, spans, data), spans, data);
    }
  }

  // Node i succeeds on what its spans hold, and writes its results.
  ghost predicate JobRan(p: Program, i: nat, before: seq<byte>, after: seq<byte>) {
    i < |p.jobs| &&
    exists data :: HoldAll(before, p.jobs[i].loads, data) && p.kernels(i, data).ok &&
      Written(before, after, p.jobs[i].stores, p.kernels(i, data).data)
  }

  // The nodes run in this order, each on what the ones before it have left, and all succeed.
  ghost predicate RunsInTurn(p: Program, order: seq<nat>, before: seq<byte>, after: seq<byte>) {
    exists trace :: RunTrace(p, order, trace, |order|) && trace[0] == before && trace[|order|] == after
  }

  // Memory before and after each of the first q nodes.
  ghost predicate RunTrace(p: Program, order: seq<nat>, trace: seq<seq<byte>>, q: nat) {
    q <= |order| && |trace| == q + 1 && forall r :: 0 <= r < q ==> RanInTurn(p, order, trace, r)
  }

  ghost predicate RanInTurn(p: Program, order: seq<nat>, trace: seq<seq<byte>>, r: nat)
    requires r < |order| && r + 1 < |trace|
  {
    JobRan(p, order[r], trace[r], trace[r + 1])
  }

  lemma RunJobRan(p: Program, mem: seq<byte>, i: nat)
    requires Valid(p, |mem|) && i < |p.jobs| && p.kernels(i, LoadAll(mem, p.jobs[i].loads)).ok
    ensures JobRan(p, i, mem, RunJob(p, mem, i))
  {
    var data := LoadAll(mem, p.jobs[i].loads);
    LoadAllHolds(mem, p.jobs[i].loads);
    StoresWrites(mem, p.jobs[i].stores, p.kernels(i, data).data);
  }

  lemma RunTraceMore(p: Program, order: seq<nat>, trace: seq<seq<byte>>, q: nat, after: seq<byte>)
    requires RunTrace(p, order, trace, q) && q < |order| && JobRan(p, order[q], trace[q], after)
    ensures RunTrace(p, order, trace + [after], q + 1)
  {
    forall r | 0 <= r < q + 1 ensures RanInTurn(p, order, trace + [after], r) {
      if r < q { assert RanInTurn(p, order, trace, r); }
    }
  }

  lemma {:induction false} SerialTrace(p: Program, order: seq<nat>, mem: seq<byte>, q: nat)
    returns (trace: seq<seq<byte>>)
    requires Valid(p, |mem|) && Within(order, |p.jobs|) && q <= |order|
    requires forall r: nat :: r < q ==> SerialOk(p, order, mem, r)
    ensures RunTrace(p, order, trace, q) && trace[0] == mem && trace[q] == Serial(p, order, mem, q)
  {
    if q == 0 {
      trace := [mem];
    } else {
      trace := SerialTrace(p, order, mem, q - 1);
      assert SerialOk(p, order, mem, q - 1);
      RunJobRan(p, Serial(p, order, mem, q - 1), order[q - 1]);
      RunTraceMore(p, order, trace, q - 1, Serial(p, order, mem, q));
      trace := trace + [Serial(p, order, mem, q)];
    }
  }

  /** The serial run executes node after node. */
  lemma SerialRuns(p: Program, order: seq<nat>, mem: seq<byte>)
    requires Valid(p, |mem|) && Within(order, |p.jobs|) && forall q: nat :: q < |order| ==> SerialOk(p, order, mem, q)
    ensures RunsInTurn(p, order, mem, Serial(p, order, mem, |order|))
  {
    var trace := SerialTrace(p, order, mem, |order|);
  }

  // Whether the node at position q succeeds in that run.
  ghost predicate SerialOk(p: Program, order: seq<nat>, mem: seq<byte>, q: nat)
    requires Valid(p, |mem|) && Within(order, |p.jobs|) && q < |order|
  {
    p.kernels(order[q], LoadAll(Serial(p, order, mem, q), p.jobs[order[q]].loads)).ok
  }

  // ---- The machine ----

  datatype Main = Top | Awaiting(futures: set<nat>) | Waiting | Returned(ok: bool)

  datatype Task = Task(loaded: seq<seq<byte>>, writing: bool)

  datatype Mark = Began(node: nat) | Ended(node: nat)

  // `done`, `failed` and `log` record what happened.
  datatype State = State(main: Main, mem: seq<byte>, pending: seq<nat>, queue: seq<nat>, flight: map<nat, Task>,
                         inFlight: int,
                         completed: nat, error: bool, done: set<nat>, failed: set<nat>, log: seq<Mark>)

  // The nodes without inputs to wait for, among the first n.
  function Unblocked(pending: seq<nat>, n: nat): seq<nat>
    requires n <= |pending|
  {
    if n == 0 then [] else Unblocked(pending, n - 1) + if pending[n - 1] == 0 then [n - 1] else []
  }

  function Initial(p: Program, mem: seq<byte>): State {
    var queue := Unblocked(Counts(p.deps), |p.deps|);
    State(if queue == [] &&
      p.deps != [] then Returned(false) else Top, mem, Counts(p.deps), queue, map[], 0, 0, false, {}, {}, [])
  }

  function LaunchOne(s: State): State
    requires s.queue != []
  {
    var i := s.queue[0];
    s.(queue := s.queue[1..], flight := s.flight[i := Task([], false)], inFlight := s.inFlight + 1,
      log := s.log + [Began(i)])
  }

  // Launches nodes until the queue is empty or every worker is taken.
  function LaunchAll(workers: nat, s: State): State
    decreases |s.queue|
  {
    if s.queue == [] || s.inFlight >= workers then s else LaunchAll(workers, LaunchOne(s))
  }

  function Return(p: Program, s: State): State { s.(main := Returned(!s.error && s.completed == |p.jobs|)) }

  // One turn of the main loop, under the lock.
  function Turn(p: Program, s: State): State {
    if s.completed >= |p.jobs| || s.error then Return(p, s)
    else
      var t := LaunchAll(p.workers, s);
      var futures := t.flight.Keys - s.flight.Keys;
      if futures != {} then t.(main := Awaiting(futures))
      else if t.inFlight == 0 && t.queue == [] then Return(p, t)
      else t.(main := Waiting)
  }

  datatype Told = Told(pending: seq<nat>, queue: seq<nat>, bad: bool)

  // Counts down the successors of a finished node; a count that is already zero is an error.
  function Tell(pending: seq<nat>, queue: seq<nat>, users: seq<nat>): Told
    requires Within(users, |pending|)
    decreases |users|
  {
    if users == [] then Told(pending, queue, false)
    else if pending[users[0]] == 0 then Told(pending, queue, true)
    else Tell(Lowered(pending, users[0]), Pushed(pending, queue, users[0]), users[1..])
  }

  function Lowered(pending: seq<nat>, u: nat): (r: seq<nat>)
    requires u < |pending| && pending[u] > 0
    ensures |r| == |pending|
  {
    pending[u := pending[u] - 1]
  }

  function Pushed(pending: seq<nat>, queue: seq<nat>, u: nat): seq<nat>
    requires u < |pending| && pending[u] > 0
  {
    if pending[u] - 1 == 0 then queue + [u] else queue
  }

  datatype Event = Loop | Collect | Load(node: nat) | Scribble(node: nat,
                                         mem: seq<byte>) | Finish(node: nat) | Fail(node: nat)

  // The two memories differ only in what node i writes.
  ghost predicate OnlyWrites(p: Program, i: nat, mem: seq<byte>, next: seq<byte>)
    requires i < |p.jobs|
  {
    |next| == |mem| && forall a: nat :: a < |mem| && !Covers(p.jobs[i].stores, a) ==> next[a] == mem[a]
  }

  // The kernel has succeeded and all its results are in place.
  ghost predicate Complete(p: Program, s: State, i: nat)
    requires Valid(p, |s.mem|) && i < |p.jobs| && i in s.flight
  {
    var out := p.kernels(i, s.flight[i].loaded);
    s.flight[i].writing && out.ok && Stores(s.mem, p.jobs[i].stores, out.data) == s.mem
  }

  function Longer(task: Task, data: seq<byte>): Task { task.(loaded := task.loaded + [data]) }

  function Loaded(s: State, i: nat, data: seq<byte>): State
    requires i in s.flight
  {
    s.(flight := s.flight[i := Longer(s.flight[i], data)])
  }

  ghost predicate CanLoad(p: Program, s: State, i: nat) {
    i < |p.jobs| && i in s.flight && !s.flight[i].writing && |s.flight[i].loaded| < |p.jobs[i].loads| &&
      Inside(p.jobs[i].loads, |s.mem|)
  }

  // A task loads its next span.
  function NextLoad(p: Program, s: State, i: nat): State
    requires CanLoad(p, s, i)
  {
    var span := p.jobs[i].loads[|s.flight[i].loaded|];
    Loaded(s, i, s.mem[span.at..span.at + span.size])
  }

  // A task has succeeded and told its successors.
  function Finished(s: State, i: nat, told: Told): State {
    s.(pending := told.pending, queue := told.queue, error := s.error ||
      told.bad, flight := s.flight - {i}, inFlight := s.inFlight - 1,
       completed := s.completed + 1, done := s.done + {i}, log := s.log + [Ended(i)])
  }

  function Failed(s: State, i: nat): State {
    s.(flight := s.flight - {i}, inFlight := s.inFlight - 1, error := true, failed := s.failed + {i})
  }

  ghost predicate Enabled(p: Program, s: State, e: Event)
    requires Valid(p, |s.mem|)
  {
    match e
    case Loop => s.main.Top?
    case Collect => s.main.Awaiting? && s.main.futures * s.flight.Keys == {}
    case Load(i) => CanLoad(p, s, i)
    case Scribble(i, mem) => i < |p.jobs| && i in s.flight && |s.flight[i].loaded| == |p.jobs[i].loads| &&
      OnlyWrites(p, i, s.mem, mem)
    case Finish(i) => i < |p.jobs| == |s.pending| && i in s.flight && Complete(p, s, i)
    case Fail(i) => i in s.flight
  }

  function After(p: Program, s: State, e: Event): State
    requires Valid(p, |s.mem|) && Enabled(p, s, e)
  {
    match e
    case Loop => Turn(p, s)
    case Collect => s.(main := Top)
    case Load(i) => NextLoad(p, s, i)
    case Scribble(i, mem) => s.(mem := mem, flight := s.flight[i := s.flight[i].(writing := true)])
    case Finish(i) => Finished(s, i, Tell(s.pending, s.queue, p.users[i]))
    case Fail(i) => Failed(s, i)
  }

  // A schedule: any sequence of enabled steps from the start.
  ghost predicate Schedule(p: Program, mem: seq<byte>, events: seq<Event>, s: State)
    requires Valid(p, |mem|)
    decreases |events|
  {
    if events == [] then s == Initial(p, mem)
    else
      var n := |events| - 1;
      exists before :: Schedule(p, mem, events[..n], before) && |before.mem| == |mem| &&
        Enabled(p, before, events[n]) && s == After(p, before, events[n])
  }

  // ---- Control: what every reachable state satisfies ----

  function Elems(s: seq<nat>): set<nat> { set x | x in s }

  ghost predicate LogEntry(deps: Dependencies, log: seq<Mark>, k: nat)
    requires k < |log|
  {
    match log[k]
    case Began(i) => i < |deps| && forall d :: d in deps[i] ==> Ended(d) in log[..k]
    case Ended(i) => Began(i) in log[..k]
  }

  // Nothing begins or ends twice; a node begins after its predecessors have ended.
  ghost predicate LogOk(deps: Dependencies, log: seq<Mark>) {
    Distinct(log) && forall k :: 0 <= k < |log| ==> LogEntry(deps, log, k)
  }

  ghost predicate Logged(log: seq<Mark>, begun: set<nat>, done: set<nat>) {
    forall i: nat :: (Began(i) in log <==> i in begun) && (Ended(i) in log <==> i in done)
  }

  ghost predicate MainOk(p: Program, s: State) {
    match s.main
    case Top => s.flight == map[]
    case Awaiting(futures) => s.flight.Keys <= futures
    case Waiting => false
    case Returned(ok) => s.flight == map[] && (ok <==>
      !s.error && s.completed == |p.jobs|) && (!ok ==> s.error || s.queue == [])
  }

  ghost predicate Control(p: Program, s: State) {
    Busy(p, s) && MainOk(p, s)
  }

  lemma {:induction false} UnblockedMeaning(pending: seq<nat>, n: nat)
    requires n <= |pending|
    ensures Distinct(Unblocked(pending, n)) && forall i: nat :: i in Unblocked(pending, n) <==> i < n && pending[i] == 0
  {
    if n > 0 { UnblockedMeaning(pending, n - 1); }
  }

  lemma InitialControl(p: Program, mem: seq<byte>)
    requires Valid(p, |mem|)
    ensures Control(p, Initial(p, mem))
  {
    UnblockedMeaning(Counts(p.deps), |p.deps|);
    forall i | 0 <= i < |p.deps| ensures Missing(p.deps[i], {}) == |p.deps[i]| { MissingAll(p.deps[i]); }
  }

  // `pending` counts the missing inputs and those owed; a node that waits for nothing is
  // queued or among the others until it is done.
  ghost predicate Queued(deps: Dependencies, pending: seq<nat>, queue: seq<nat>, others: set<nat>, done: set<nat>,
    owed: multiset<nat>) {
    |pending| == |deps| && Distinct(queue) &&
    (forall i :: 0 <= i < |deps| ==> pending[i] == Missing(deps[i], done) + owed[i]) &&
    (forall i: nat :: i in queue || i in others || i in done <==> i < |deps| && pending[i] == 0) &&
    (forall i: nat :: i in queue ==> i !in others && i !in done) && others !! done
  }

  lemma TellOne(deps: Dependencies, pending: seq<nat>, queue: seq<nat>, others: set<nat>, done: set<nat>, u: nat,
                owed: multiset<nat>)
    requires u < |pending| && Queued(deps, pending, queue, others, done, multiset{u} + owed)
    ensures pending[u] > 0
    ensures Queued(deps, Lowered(pending, u), Pushed(pending, queue, u), others, done, owed)
  {
  }

  lemma {:induction false} TellKeeps(deps: Dependencies, pending: seq<nat>, queue: seq<nat>, others: set<nat>,
    done: set<nat>, users: seq<nat>)
    requires Within(users, |pending|) && Queued(deps, pending, queue, others, done, multiset(users))
    ensures var told := Tell(pending, queue, users); !told.bad && Queued(deps, told.pending, told.queue, others, done,
      multiset{})
    decreases |users|
  {
    if users != [] {
      var u := users[0];
      assert users == [u] + users[1..];
      TellOne(deps, pending, queue, others, done, u, multiset(users[1..]));
      TellKeeps(deps, Lowered(pending, u), Pushed(pending, queue, u), others, done, users[1..]);
    }
  }

  // Finishing node i makes it owe a count to each of its successors.
  lemma Owes(deps: Dependencies, pending: seq<nat>, queue: seq<nat>, others: set<nat>, done: set<nat>, i: nat,
             users: seq<nat>)
    requires Queued(deps, pending, queue, others, done, multiset{}) && i in others
    requires forall j :: 0 <= j < |deps| ==> multiset(users)[j] == multiset(deps[j])[i]
    ensures Queued(deps, pending, queue, others - {i}, done + {i}, multiset(users))
  {
    forall j | 0 <= j < |deps|
      ensures pending[j] == Missing(deps[j], done + {i}) + multiset(users)[j]
    {
      MissingAfter(deps[j], done, i);
    }
  }

  // ---- Launching ----

  // Between turns: what is queued, running, failed and done, and the counters.
  ghost predicate Busy(p: Program, s: State) {
    Sorted(p.deps, s.pending, s.queue, s.flight.Keys, s.failed, s.done, s.log) &&
    Counted(p.workers, s.flight.Keys, s.inFlight, s.done, s.completed, s.failed, s.error)
  }

  ghost predicate Sorted(deps: Dependencies, pending: seq<nat>, queue: seq<nat>, flight: set<nat>, failed: set<nat>,
    done: set<nat>, log: seq<Mark>) {
    flight !! failed && Queued(deps, pending, queue, flight + failed, done, multiset{}) &&
    LogOk(deps, log) && Logged(log, flight + failed + done, done)
  }

  ghost predicate Counted(workers: nat, flight: set<nat>, inFlight: int, done: set<nat>, completed: nat,
    failed: set<nat>, error: bool) {
    inFlight == |flight| <= workers && completed == |done| && (error <==> failed != {})
  }

  lemma {:induction false} LogGrows(deps: Dependencies, log: seq<Mark>, mark: Mark)
    requires LogOk(deps, log) && mark !in log
    requires mark.Began? ==> mark.node < |deps| && forall d :: d in deps[mark.node] ==> Ended(d) in log
    requires mark.Ended? ==> Began(mark.node) in log
    ensures LogOk(deps, log + [mark])
  {
    var next := log + [mark];
    forall k | 0 <= k < |next| ensures LogEntry(deps, next, k) {
      assert next[..k] == log[..k];
      if k < |log| { assert LogEntry(deps, log, k); } else { assert log[..k] == log; }
    }
  }

  lemma LaunchKeeps(p: Program, s: State)
    requires Busy(p, s) && s.queue != [] && s.inFlight < p.workers
    ensures Busy(p, LaunchOne(s)) && s.queue[0] !in s.flight
  {
    SortedLaunch(p.deps, s.pending, s.queue, s.flight.Keys, s.failed, s.done, s.log);
    LaunchedSorted(p, s, s.queue[0]);
    LaunchedCounted(p, s);
  }

  lemma LaunchedSorted(p: Program, s: State, i: nat)
    requires s.queue != [] && i == s.queue[0]
    requires Sorted(p.deps, s.pending, s.queue[1..], s.flight.Keys + {i}, s.failed, s.done, s.log + [Began(i)])
    ensures var t := LaunchOne(s); Sorted(p.deps, t.pending, t.queue, t.flight.Keys, t.failed, t.done, t.log)
  {
    assert LaunchOne(s).flight.Keys == s.flight.Keys + {i};
  }

  lemma LaunchedCounted(p: Program, s: State)
    requires s.queue != [] && s.queue[0] !in s.flight && s.inFlight < p.workers
    requires Counted(p.workers, s.flight.Keys, s.inFlight, s.done, s.completed, s.failed, s.error)
    ensures var t := LaunchOne(s); Counted(p.workers, t.flight.Keys, t.inFlight, t.done, t.completed, t.failed, t.error)
  {
    assert LaunchOne(s).flight.Keys == s.flight.Keys + {s.queue[0]};
  }

  lemma SortedLaunch(deps: Dependencies, pending: seq<nat>, queue: seq<nat>, flight: set<nat>, failed: set<nat>,
                     done: set<nat>, log: seq<Mark>)
    requires Sorted(deps, pending, queue, flight, failed, done, log) && queue != []
    ensures queue[0] !in flight &&
      Sorted(deps, pending, queue[1..], flight + {queue[0]}, failed, done, log + [Began(queue[0])])
  {
    var i := queue[0];
    LaunchQueued(deps, pending, queue, flight + failed, done);
    LogBegins(deps, log, flight + failed + done, done, i);
    assert flight + failed + {i} == flight + {i} + failed;
    assert flight + failed + done + {i} == flight + {i} + failed + done;
  }

  lemma LogBegins(deps: Dependencies, log: seq<Mark>, begun: set<nat>, done: set<nat>, i: nat)
    requires LogOk(deps, log) && Logged(log, begun, done) && i < |deps| && i !in begun && Missing(deps[i], done) == 0
    ensures LogOk(deps, log + [Began(i)]) && Logged(log + [Began(i)], begun + {i}, done)
  {
    MissingNone(deps[i], done);
    LogGrows(deps, log, Began(i));
  }

  lemma LaunchQueued(deps: Dependencies, pending: seq<nat>, queue: seq<nat>, others: set<nat>, done: set<nat>)
    requires Queued(deps, pending, queue, others, done, multiset{}) && queue != []
    ensures queue[0] < |deps| && Missing(deps[queue[0]], done) == 0 && queue[0] !in others + done &&
      Queued(deps, pending, queue[1..], others + {queue[0]}, done, multiset{})
  {
    assert queue == [queue[0]] + queue[1..];
    assert queue[0] in queue && queue[0] !in queue[1..];
  }

  // What launching leaves alone; new tasks start with nothing loaded.
  ghost predicate Launches(s: State, t: State) {
    t.main == s.main && t.mem == s.mem && t.error == s.error && t.done == s.done && t.completed == s.completed &&
      t.failed == s.failed &&
    s.flight.Keys <= t.flight.Keys &&
    forall i :: i in t.flight ==> t.flight[i] == if i in s.flight then s.flight[i] else Task([], false)
  }

  lemma {:induction false} LaunchAllKeeps(p: Program, s: State)
    requires Busy(p, s)
    ensures var t := LaunchAll(p.workers, s); Busy(p, t) && (t.queue == [] || t.inFlight >= p.workers) && Launches(s, t)
    decreases |s.queue|
  {
    if s.queue != [] && s.inFlight < p.workers {
      LaunchKeeps(p, s);
      LaunchAllKeeps(p, LaunchOne(s));
      LaunchesOn(s, LaunchAll(p.workers, LaunchOne(s)));
    }
  }

  lemma LaunchesOn(s: State, t: State)
    requires s.queue != [] && s.queue[0] !in s.flight && Launches(LaunchOne(s), t)
    ensures Launches(s, t)
  {
  }

  lemma DoneFits(deps: Dependencies, pending: seq<nat>, queue: seq<nat>, others: set<nat>, done: set<nat>)
    requires Queued(deps, pending, queue, others, done, multiset{})
    ensures done <= Below(|deps|) && |done| <= |deps|
  {
    SubsetSize(done, Below(|deps|));
  }

  lemma TurnKeeps(p: Program, s: State)
    requires Control(p, s) && s.main.Top? && p.workers > 0 && |p.jobs| == |p.deps|
    ensures Control(p, Turn(p, s)) && Turn(p, s).mem == s.mem
  {
    if s.completed < |p.jobs| && !s.error {
      LaunchAllKeeps(p, s);
      TurnedMain(p, s, LaunchAll(p.workers, s));
    } else {
      DoneFits(p.deps, s.pending, s.queue, s.flight.Keys + s.failed, s.done);
    }
  }

  lemma TurnedMain(p: Program, s: State, t: State)
    requires s.flight == map[] && Launches(s, t) && p.workers > 0 && (t.queue == [] || t.inFlight >= p.workers)
    requires t.inFlight == |t.flight.Keys|
    ensures t.flight.Keys - s.flight.Keys == {} ==> t.flight == map[] && t.inFlight == 0 && t.queue == []
    ensures t.flight.Keys - s.flight.Keys == t.flight.Keys
  {
    assert s.flight.Keys == {};
  }

  lemma LogEnds(deps: Dependencies, log: seq<Mark>, begun: set<nat>, done: set<nat>, i: nat)
    requires LogOk(deps, log) && Logged(log, begun, done) && i in begun && i !in done
    ensures LogOk(deps, log + [Ended(i)]) && Logged(log + [Ended(i)], begun, done + {i})
  {
    LogGrows(deps, log, Ended(i));
  }

  lemma SortedFinish(deps: Dependencies, pending: seq<nat>, queue: seq<nat>, flight: set<nat>, failed: set<nat>,
                     done: set<nat>, log: seq<Mark>,
                     i: nat, users: seq<nat>)
    requires Sorted(deps, pending, queue, flight, failed, done, log) && i in flight && Within(users, |pending|)
    requires forall j :: 0 <= j < |deps| ==> multiset(users)[j] == multiset(deps[j])[i]
    ensures i !in done
    ensures var told := Tell(pending, queue, users);
      !told.bad && Sorted(deps, told.pending, told.queue, flight - {i}, failed, done + {i}, log + [Ended(i)])
  {
    Owes(deps, pending, queue, flight + failed, done, i, users);
    assert flight + failed - {i} == flight - {i} + failed;
    TellKeeps(deps, pending, queue, flight - {i} + failed, done + {i}, users);
    LogEnds(deps, log, flight + failed + done, done, i);
    assert flight - {i} + failed + (done + {i}) == flight + failed + done;
  }

  lemma FinishedSorted(p: Program, s: State, i: nat, told: Told)
    requires Sorted(p.deps, told.pending, told.queue, s.flight.Keys - {i}, s.failed, s.done + {i}, s.log + [Ended(i)])
    ensures var t := Finished(s, i, told); Sorted(p.deps, t.pending, t.queue, t.flight.Keys, t.failed, t.done, t.log)
  {
    assert Finished(s, i, told).flight.Keys == s.flight.Keys - {i};
  }

  lemma FinishedCounted(p: Program, s: State, i: nat, told: Told)
    requires i in s.flight && i !in s.done && !told.bad && MainOk(p, s)
    requires Counted(p.workers, s.flight.Keys, s.inFlight, s.done, s.completed, s.failed, s.error)
    ensures MainOk(p, Finished(s, i, told))
    ensures var t := Finished(s, i, told); Counted(p.workers, t.flight.Keys, t.inFlight, t.done, t.completed, t.failed,
      t.error)
  {
    assert Finished(s, i, told).flight.Keys == s.flight.Keys - {i};
  }

  lemma FinishKeeps(p: Program, s: State, i: nat)
    requires Control(p, s) && i in s.flight && i < |p.users| && Within(p.users[i], |s.pending|)
    requires forall j :: 0 <= j < |p.deps| ==> multiset(p.users[i])[j] == multiset(p.deps[j])[i]
    ensures Control(p, Finished(s, i, Tell(s.pending, s.queue, p.users[i])))
  {
    SortedFinish(p.deps, s.pending, s.queue, s.flight.Keys, s.failed, s.done, s.log, i, p.users[i]);
    var told := Tell(s.pending, s.queue, p.users[i]);
    FinishedSorted(p, s, i, told);
    FinishedCounted(p, s, i, told);
  }

  lemma SortedFail(deps: Dependencies, pending: seq<nat>, queue: seq<nat>, flight: set<nat>, failed: set<nat>,
                   done: set<nat>, log: seq<Mark>, i: nat)
    requires Sorted(deps, pending, queue, flight, failed, done, log) && i in flight
    ensures Sorted(deps, pending, queue, flight - {i}, failed + {i}, done, log)
  {
    assert flight - {i} + (failed + {i}) == flight + failed;
  }

  lemma FailedSorted(p: Program, s: State, i: nat)
    requires Sorted(p.deps, s.pending, s.queue, s.flight.Keys - {i}, s.failed + {i}, s.done, s.log)
    ensures var t := Failed(s, i); Sorted(p.deps, t.pending, t.queue, t.flight.Keys, t.failed, t.done, t.log)
  {
    assert Failed(s, i).flight.Keys == s.flight.Keys - {i};
  }

  lemma FailedCounted(p: Program, s: State, i: nat)
    requires i in s.flight && MainOk(p, s) &&
      Counted(p.workers, s.flight.Keys, s.inFlight, s.done, s.completed, s.failed, s.error)
    ensures MainOk(p, Failed(s, i))
    ensures var t := Failed(s, i); Counted(p.workers, t.flight.Keys, t.inFlight, t.done, t.completed, t.failed, t.error)
  {
    assert Failed(s, i).flight.Keys == s.flight.Keys - {i};
  }

  lemma FailKeeps(p: Program, s: State, i: nat)
    requires Control(p, s) && i in s.flight
    ensures Control(p, Failed(s, i))
  {
    SortedFail(p.deps, s.pending, s.queue, s.flight.Keys, s.failed, s.done, s.log, i);
    FailedSorted(p, s, i);
    FailedCounted(p, s, i);
  }

  // A step inside a task.
  lemma TaskKeeps(p: Program, s: State, i: nat, task: Task, mem: seq<byte>)
    requires Control(p, s) && i in s.flight
    ensures Control(p, s.(mem := mem, flight := s.flight[i := task]))
  {
    assert s.flight[i := task].Keys == s.flight.Keys;
  }

  lemma UsersOfNode(p: Program, size: nat, s: State, i: nat)
    requires Valid(p, size) && Control(p, s) && i in s.flight
    ensures i < |p.users| && Within(p.users[i], |s.pending|)
    ensures forall j :: 0 <= j < |p.deps| ==> multiset(p.users[i])[j] == multiset(p.deps[j])[i]
  {
    assert i in s.flight.Keys + s.failed;
  }

  lemma StepKeepsControl(p: Program, s: State, e: Event)
    requires Valid(p, |s.mem|) && Control(p, s) && Enabled(p, s, e)
    ensures Control(p, After(p, s, e)) && |After(p, s, e).mem| == |s.mem|
  {
    match e
    case Loop => TurnKeeps(p, s);
    case Collect =>
    case Load(i) => TaskKeeps(p, s, i, After(p, s, e).flight[i], s.mem);
    case Scribble(i, mem) => TaskKeeps(p, s, i, After(p, s, e).flight[i], mem);
    case Finish(i) => UsersOfNode(p, |s.mem|, s, i); FinishKeeps(p, s, i);
    case Fail(i) => FailKeeps(p, s, i);
  }
}
