/**
 What binds, runs and reads do to memory, byte by byte: the session's calls in terms of
 addresses, without the functions that specify them.
 */
module Effects {
  import opened Wrappers
  import opened MemoryPlan
  import opened Arena
  import opened Session
  import Spans

  // ---- Addresses ----

  // The bytes of a named value.
  ghost function SpanOf(g: Graph, base: Layout, name: string): Spans.Span {
    if name in Named(g.values) && ValueOf(g, name).group in base
    then Spans.Span(base[ValueOf(g, name).group] + ValueOf(g, name).offset, ValueOf(g, name).bytes)
    else Spans.Span(0, 0)
  }

  ghost function SpansOf(g: Graph, base: Layout, names: seq<string>): seq<Spans.Span> {
    seq(|names|, k requires 0 <= k < |names| => SpanOf(g, base, names[k]))
  }

  // What a node reads; an omitted input has no bytes.
  ghost function InputSpans(g: Graph, base: Layout, names: seq<string>): seq<Spans.Span> {
    seq(|names|, k requires 0 <= k < |names| => if names[k] == "" then Spans.Span(0, 0) else SpanOf(g, base, names[k]))
  }

  lemma SpanLoaded(g: Graph, base: Layout, size: nat, name: string)
    requires Wellformed(g) && Loaded(g, base, size) && name in Named(g.values)
    ensures var v := ValueOf(g, name);
      v.group in base && SpanOf(g, base, name) == Spans.Span(base[v.group] + v.offset, v.bytes) &&
      base[v.group] + v.offset + v.bytes <= size
  {
    NamedLoaded(g, base, size, name);
  }

  lemma {:induction false} StoreAllWrites(g: Graph, base: Layout, mem: seq<byte>, names: seq<string>,
                                          data: seq<seq<byte>>)
    requires Wellformed(g) && Loaded(g, base, |mem|) && Resolved(Named(g.values), names) && Sizes(g, names, data)
    ensures Spans.Written(mem, StoreAll(g, base, mem, names, data), SpansOf(g, base, names), data)
  {
    if names == [] {
      Spans.WrittenNone(mem);
    } else {
      var n := |names| - 1;
      var before := StoreAll(g, base, mem, names[..n], data[..n]);
      StoreAllWrites(g, base, mem, names[..n], data[..n]);
      SpanLoaded(g, base, |mem|, names[n]);
      StoreReplaces(g, base, before, names[n], data[n]);
      assert SpansOf(g, base, names)[..n] == SpansOf(g, base, names[..n]);
      Spans.WrittenMore(mem, before, StoreAll(g, base, mem, names, data), SpansOf(g, base, names), data);
    }
  }

  /** Storing a value replaces its bytes and no other. */
  lemma StoreReplaces(g: Graph, base: Layout, mem: seq<byte>, name: string, data: seq<byte>)
    requires Wellformed(g) && Loaded(g, base, |mem|) && name in Named(g.values) && |data| == ValueOf(g, name).bytes
    ensures ValueOf(g, name).group in base &&
      base[ValueOf(g, name).group] + ValueOf(g, name).offset + |data| <= |mem| &&
      Spans.Replaced(mem, Store(base, mem, ValueOf(g, name), data), SpanOf(g, base, name), data)
  {
    SpanLoaded(g, base, |mem|, name);
    Spans.OverwrittenReplaces(mem, SpanOf(g, base, name), data);
  }

  // ---- One node ----

  // A view changes nothing; a kernel writes what it computes from its inputs to its outputs and mutable inputs.
  ghost predicate NodeRan(g: Graph, kernels: Kernels, base: Layout, before: seq<byte>, after: seq<byte>, ok: bool,
                          i: nat)
    requires i < |g.nodes| == |g.ops|
  {
    match g.ops[i]
    case View => ok && after == before
    case Kernel(mutables) => exists data :: KernelRan(g, kernels, base, before, after, ok, i, mutables, data)
  }

  // The kernel of node i ran on these data.
  ghost predicate KernelRan(g: Graph, kernels: Kernels, base: Layout, before: seq<byte>, after: seq<byte>, ok: bool,
                            i: nat,
                            mutables: seq<string>, data: seq<seq<byte>>)
    requires i < |g.nodes|
  {
    Spans.HoldAll(before, InputSpans(g, base, g.nodes[i].inputs), data) && kernels(i, data).ok == ok &&
    Spans.Written(before, after, SpansOf(g, base, g.nodes[i].outputs + mutables), kernels(i, data).data)
  }

  lemma LoadsHold(g: Graph, base: Layout, mem: seq<byte>, names: seq<string>)
    requires Wellformed(g) && Loaded(g, base, |mem|) && ResolvedOrEmpty(Named(g.values), names)
    ensures Spans.HoldAll(mem, InputSpans(g, base, names), LoadAll(g, base, mem, names))
  {
    forall k | 0 <= k < |names|
      ensures Spans.Holds(mem, InputSpans(g, base, names)[k], LoadAll(g, base, mem, names)[k])
    {
      if names[k] != "" { SpanLoaded(g, base, |mem|, names[k]); }
    }
  }

  /** The specified step of a node is this effect. */
  lemma RunNodeRuns(g: Graph, kernels: Kernels, base: Layout, mem: seq<byte>, i: nat)
    requires Wellformed(g) && Fills(g, kernels) && Loaded(g, base, |mem|) && i < |g.nodes|
    ensures var r := RunNode(g, kernels, base, mem, i); NodeRan(g, kernels, base, mem, r.mem, r.ok, i)
  {
    assert NodeResolved(Named(g.values), g.nodes[i]);
    if g.ops[i].Kernel? {
      var data := LoadAll(g, base, mem, g.nodes[i].inputs);
      LoadsHold(g, base, mem, g.nodes[i].inputs);
      StoreAllWrites(g, base, mem, Written(g, i), kernels(i, data).data);
      var r := RunNode(g, kernels, base, mem, i);
      assert KernelRan(g, kernels, base, mem, r.mem, r.ok, i, g.ops[i].mutables, data);
    }
  }

  // ---- A run ----

  // Memory before each node that ran and after the last of them. All ran before it without failing;
  // the run succeeds exactly if all nodes did.
  ghost predicate Runs(g: Graph, kernels: Kernels, base: Layout, trace: seq<seq<byte>>, ok: bool) {
    RunsPart(g, kernels, base, trace, ok, |g.nodes|)
  }

  // The first n nodes.
  ghost predicate RunsPart(g: Graph, kernels: Kernels, base: Layout, trace: seq<seq<byte>>, ok: bool, n: nat) {
    |g.ops| == |g.nodes| && 0 < |trace| <= n + 1 <= |g.nodes| + 1 && (ok ==> |trace| == n + 1) &&
      (!ok ==> |trace| > 1) &&
    forall i :: 0 <= i < |trace| - 1 ==> RanAt(g, kernels, base, trace, ok, i)
  }

  ghost predicate RanAt(g: Graph, kernels: Kernels, base: Layout, trace: seq<seq<byte>>, ok: bool, i: nat)
    requires |g.ops| == |g.nodes| && i < |trace| - 1 <= |g.nodes|
  {
    NodeRan(g, kernels, base, trace[i], trace[i + 1], ok || i < |trace| - 2, i)
  }

  // A run from one memory to another.
  ghost predicate RunsTo(g: Graph, kernels: Kernels, base: Layout, before: seq<byte>, after: seq<byte>, ok: bool) {
    exists trace :: Runs(g, kernels, base, trace, ok) && trace[0] == before && trace[|trace| - 1] == after
  }

  lemma RunsFurther(g: Graph, kernels: Kernels, base: Layout, trace: seq<seq<byte>>, after: seq<byte>, ok: bool, n: nat)
    requires RunsPart(g, kernels, base, trace, true, n) && n < |g.nodes|
    requires NodeRan(g, kernels, base, trace[n], after, ok, n)
    ensures RunsPart(g, kernels, base, trace + [after], ok, n + 1)
  {
    var longer := trace + [after];
    forall i | 0 <= i < |longer| - 1 ensures RanAt(g, kernels, base, longer, ok, i) {
      if i < n { assert RanAt(g, kernels, base, trace, true, i); }
    }
  }

  // A run that has failed stays as it is.
  lemma RunsStopped(g: Graph, kernels: Kernels, base: Layout, trace: seq<seq<byte>>, n: nat)
    requires RunsPart(g, kernels, base, trace, false, n) && n < |g.nodes|
    ensures RunsPart(g, kernels, base, trace, false, n + 1)
  {
  }

  lemma RunStep(g: Graph, kernels: Kernels, base: Layout, before: Step, trace: seq<seq<byte>>, n: nat)
    returns (longer: seq<seq<byte>>)
    requires Wellformed(g) && Fills(g, kernels) && Loaded(g, base, |before.mem|) && n < |g.nodes|
    requires RunsPart(g, kernels, base, trace, before.ok, n) && trace[|trace| - 1] == before.mem
    ensures var r := Continue(g, kernels, base, before, n);
      RunsPart(g, kernels, base, longer, r.ok, n + 1) && longer[0] == trace[0] && longer[|longer| - 1] == r.mem
  {
    if before.ok {
      RunNodeRuns(g, kernels, base, before.mem, n);
      var r := RunNode(g, kernels, base, before.mem, n);
      RunsFurther(g, kernels, base, trace, r.mem, r.ok, n);
      longer := trace + [r.mem];
    } else {
      RunsStopped(g, kernels, base, trace, n);
      longer := trace;
    }
  }

  lemma {:induction false} RunNodesRuns(g: Graph, kernels: Kernels, base: Layout, mem: seq<byte>, n: nat)
    returns (trace: seq<seq<byte>>)
    requires Wellformed(g) && Fills(g, kernels) && Loaded(g, base, |mem|) && n <= |g.nodes|
    ensures var r := RunNodes(g, kernels, base, mem, n);
      RunsPart(g, kernels, base, trace, r.ok, n) && trace[0] == mem && trace[|trace| - 1] == r.mem
  {
    if n == 0 {
      trace := [mem];
    } else {
      trace := RunNodesRuns(g, kernels, base, mem, n - 1);
      trace := RunStep(g, kernels, base, RunNodes(g, kernels, base, mem, n - 1), trace, n - 1);
    }
  }

  /** The specified run executes node after node, each on what the ones before it have left. */
  lemma RunIsRun(g: Graph, kernels: Kernels, base: Layout, mem: seq<byte>)
    requires Wellformed(g) && Fills(g, kernels) && Loaded(g, base, |mem|)
    ensures var r := RunNodes(g, kernels, base, mem, |g.nodes|); RunsTo(g, kernels, base, mem, r.mem, r.ok)
  {
    var trace := RunNodesRuns(g, kernels, base, mem, |g.nodes|);
    assert Runs(g, kernels, base, trace, RunNodes(g, kernels, base, mem, |g.nodes|).ok);
  }

  // ---- What an output holds in the end ----

  // The value of that name holds the data.
  ghost predicate Contains(g: Graph, base: Layout, mem: seq<byte>, name: string, data: seq<byte>) {
    name in Named(g.values) && ValueOf(g, name).group in base && Spans.Holds(mem, SpanOf(g, base, name), data)
  }

  // No node from i on writes a byte of the value.
  ghost predicate LeftAlone(g: Graph, base: Layout, name: string, i: nat)
    requires |g.ops| == |g.nodes|
  {
    forall j: nat, x: nat :: i <= j < |g.nodes| && Spans.Has(SpanOf(g, base, name), x) ==>
      !Spans.Covers(SpansOf(g, base, Written(g, j)), x)
  }

  lemma StaysContained(g: Graph, kernels: Kernels, base: Layout, before: seq<byte>, after: seq<byte>, ok: bool, j: nat,
                       i: nat, name: string, data: seq<byte>)
    requires |g.ops| == |g.nodes| && i <= j < |g.nodes| && NodeRan(g, kernels, base, before, after, ok, j)
    requires LeftAlone(g, base, name, i) && Contains(g, base, before, name, data)
    ensures Contains(g, base, after, name, data)
  {
    if g.ops[j].Kernel? {
      var inputs :| KernelRan(g, kernels, base, before, after, ok, j, g.ops[j].mutables, inputs);
      Spans.HeldApart(before, after, SpansOf(g, base, Written(g, j)), kernels(j, inputs).data, SpanOf(g, base, name),
        data);
    }
  }

  lemma {:induction false} LeftAloneStays(g: Graph, kernels: Kernels, base: Layout, trace: seq<seq<byte>>, i: nat,
    j: nat,
                                          name: string, data: seq<byte>)
    requires Runs(g, kernels, base, trace, true) && i <= j < |trace|
    requires LeftAlone(g, base, name, i) && Contains(g, base, trace[i], name, data)
    ensures Contains(g, base, trace[j], name, data)
    decreases j
  {
    if i < j {
      LeftAloneStays(g, kernels, base, trace, i, j - 1, name, data);
      assert RanAt(g, kernels, base, trace, true, j - 1);
      StaysContained(g, kernels, base, trace[j - 1], trace[j], true, j - 1, i, name, data);
    }
  }

  // The k-th value node i writes, which no later one of its values overlaps.
  ghost predicate LastWritten(g: Graph, base: Layout, i: nat, k: nat)
    requires i < |g.nodes| == |g.ops|
  {
    var spans := SpansOf(g, base, Written(g, i));
    k < |spans| && forall l, x: nat :: k < l < |spans| && Spans.Has(spans[k], x) ==> !Spans.Has(spans[l], x)
  }

  // The k-th value node i writes holds what its kernel computes from the inputs in mem.
  ghost predicate Computes(g: Graph, kernels: Kernels, base: Layout, mem: seq<byte>, inputs: seq<seq<byte>>,
                           after: seq<byte>, i: nat, k: nat)
    requires i < |g.nodes| == |g.ops|
  {
    Spans.HoldAll(mem, InputSpans(g, base, g.nodes[i].inputs), inputs) && kernels(i, inputs).ok &&
    k < |kernels(i, inputs).data| && k < |Written(g, i)| &&
    Contains(g, base, after, Written(g, i)[k], kernels(i, inputs).data[k])
  }

  lemma KernelResult(g: Graph, kernels: Kernels, base: Layout, before: seq<byte>, after: seq<byte>, i: nat,
                     inputs: seq<seq<byte>>, k: nat)
    requires Wellformed(g) && Fills(g, kernels) && Loaded(g, base, |before|) && i < |g.nodes| && g.ops[i].Kernel?
    requires LastWritten(g, base, i, k) &&
      KernelRan(g, kernels, base, before, after, true, i, g.ops[i].mutables, inputs)
    ensures Computes(g, kernels, base, before, inputs, after, i, k)
  {
    assert Sizes(g, Written(g, i), kernels(i, inputs).data);
    SpanLoaded(g, base, |before|, Written(g, i)[k]);
    Spans.HeldWritten(before, after, SpansOf(g, base, Written(g, i)), kernels(i, inputs).data, k);
  }

  lemma {:induction false} TraceSizes(g: Graph, kernels: Kernels, base: Layout, trace: seq<seq<byte>>, i: nat)
    requires Runs(g, kernels, base, trace, true) && i < |trace|
    ensures |trace[i]| == |trace[0]|
  {
    if i > 0 {
      TraceSizes(g, kernels, base, trace, i - 1);
      assert RanAt(g, kernels, base, trace, true, i - 1);
    }
  }

  /**
   After a successful run, a value that no later node writes holds what its kernel computes from
   what the inputs held at its turn.
   */
  lemma OutputIsComputed(g: Graph, kernels: Kernels, base: Layout, trace: seq<seq<byte>>, i: nat, k: nat)
    returns (inputs: seq<seq<byte>>)
    requires Wellformed(g) && Fills(g, kernels) && Runs(g, kernels, base, trace, true) && Loaded(g, base, |trace[0]|)
    requires i < |g.nodes| && g.ops[i].Kernel? && LastWritten(g, base, i, k) &&
      LeftAlone(g, base, Written(g, i)[k], i + 1)
    ensures Computes(g, kernels, base, trace[i], inputs, trace[|trace| - 1], i, k)
  {
    TraceSizes(g, kernels, base, trace, i);
    assert RanAt(g, kernels, base, trace, true, i);
    inputs :| KernelRan(g, kernels, base, trace[i], trace[i + 1], true, i, g.ops[i].mutables, inputs);
    KernelResult(g, kernels, base, trace[i], trace[i + 1], i, inputs, k);
    LeftAloneStays(g, kernels, base, trace, i + 1, |trace| - 1, Written(g, i)[k], kernels(i, inputs).data[k]);
  }

  // ---- Calls ----

  // Exactly the bytes of the value have become the data.
  ghost predicate BoundTo(g: Graph, base: Layout, before: seq<byte>, after: seq<byte>, name: string, data: seq<byte>) {
    Contains(g, base, after, name, data) && Spans.Replaced(before, after, SpanOf(g, base, name), data)
  }

  // A call takes a session from s to t and gives the reply. An accepted bind replaces the bytes of
  // its value, a run executes the nodes, a read after a run that succeeded returns the bytes of an output.
  ghost predicate CallDone(g: Graph, kernels: Kernels, inputs: set<string>, base: Layout, s: State, call: Call,
                           t: State,
                           reply: Reply) {
    match call
    case Bind(name, data) =>
      var accepted := name in inputs && name in Named(g.values) && |data| == ValueOf(g, name).bytes;
      reply == Status(accepted) && t.current == s.current &&
      if accepted then BoundTo(g, base, s.mem, t.mem, name, data) else t.mem == s.mem
    case Run => RunsTo(g, kernels, base, s.mem, t.mem, t.current) && reply == Status(t.current)
    case Read(name) =>
      t == s &&
      if name !in g.outputs then reply == Missing
      else if !s.current then reply == Stale
      else reply.Bytes? && Contains(g, base, s.mem, name, reply.data)
  }

  /** The specified state and reply are such a call. */
  lemma CallIsDone(g: Graph, kernels: Kernels, inputs: set<string>, base: Layout, s: State, call: Call)
    requires Wellformed(g) && Fills(g, kernels) && Loaded(g, base, |s.mem|)
    ensures CallDone(g, kernels, inputs, base, s, call, AfterCall(g, kernels, inputs, base, s, call),
      ReplyTo(g, kernels, inputs, base, s, call))
  {
    match call
    case Bind(name, data) =>
      if Bindable(g, inputs, name, data) { StoreReplaces(g, base, s.mem, name, data); }
    case Run => RunIsRun(g, kernels, base, s.mem);
    case Read(name) =>
      if name in g.outputs {
        var k :| 0 <= k < |g.outputs| && g.outputs[k] == name;
        SpanLoaded(g, base, |s.mem|, name);
      }
  }

  // ---- A call has one outcome ----

  lemma NodeRanIsUnique(g: Graph, kernels: Kernels, base: Layout, mem: seq<byte>, a: seq<byte>, okA: bool, b: seq<byte>,
                        okB: bool, i: nat)
    requires i < |g.nodes| == |g.ops|
    requires NodeRan(g, kernels, base, mem, a, okA, i) && NodeRan(g, kernels, base, mem, b, okB, i)
    ensures a == b && okA == okB
  {
    if g.ops[i].Kernel? {
      var names := g.nodes[i].outputs + g.ops[i].mutables;
      var x :| KernelRan(g, kernels, base, mem, a, okA, i, g.ops[i].mutables, x);
      var y :| KernelRan(g, kernels, base, mem, b, okB, i, g.ops[i].mutables, y);
      Spans.HoldAllIsUnique(mem, InputSpans(g, base, g.nodes[i].inputs), x, y);
      Spans.WrittenIsUnique(mem, a, b, SpansOf(g, base, names), kernels(i, x).data);
    }
  }

  lemma {:induction false} TracesAgree(g: Graph, kernels: Kernels, base: Layout, a: seq<seq<byte>>, okA: bool,
                                       b: seq<seq<byte>>, okB: bool, i: nat)
    requires Runs(g, kernels, base, a, okA) && Runs(g, kernels, base, b, okB) && a[0] == b[0]
    requires i < |a| && i < |b|
    ensures a[i] == b[i]
    ensures i > 0 ==> (okA || i - 1 < |a| - 2 <==> okB || i - 1 < |b| - 2)
  {
    if i > 0 {
      TracesAgree(g, kernels, base, a, okA, b, okB, i - 1);
      assert RanAt(g, kernels, base, a, okA, i - 1) && RanAt(g, kernels, base, b, okB, i - 1);
      NodeRanIsUnique(g, kernels, base, a[i - 1], a[i], okA || i - 1 < |a| - 2, b[i], okB || i - 1 < |b| - 2, i - 1);
    }
  }

  lemma RunsToIsUnique(g: Graph, kernels: Kernels, base: Layout, mem: seq<byte>, a: seq<byte>, okA: bool, b: seq<byte>,
                       okB: bool)
    requires RunsTo(g, kernels, base, mem, a, okA) && RunsTo(g, kernels, base, mem, b, okB)
    ensures a == b && okA == okB
  {
    var x :| Runs(g, kernels, base, x, okA) && x[0] == mem && x[|x| - 1] == a;
    var y :| Runs(g, kernels, base, y, okB) && y[0] == mem && y[|y| - 1] == b;
    TracesAgree(g, kernels, base, x, okA, y, okB, if |x| < |y| then |x| - 1 else |y| - 1);
  }

  /** A call has one outcome. */
  lemma CallDoneIsUnique(g: Graph, kernels: Kernels, inputs: set<string>, base: Layout, s: State, call: Call, t: State,
                         reply: Reply, u: State, other: Reply)
    requires CallDone(g, kernels, inputs, base, s, call, t, reply)
    requires CallDone(g, kernels, inputs, base, s, call, u, other)
    ensures t == u && reply == other
  {
    match call
    case Bind(name, data) =>
      if name in inputs && name in Named(g.values) && |data| == ValueOf(g, name).bytes {
        Spans.ReplacedIsUnique(s.mem, t.mem, u.mem, SpanOf(g, base, name), data);
      }
    case Run => RunsToIsUnique(g, kernels, base, s.mem, t.mem, t.current, u.mem, u.current);
    case Read(name) =>
  }

  // ---- Histories ----

  // What a session goes through, from the given memory on: a state before each call and after the
  // last, and a reply to each.
  ghost predicate History(g: Graph, kernels: Kernels, inputs: set<string>, base: Layout, mem: seq<byte>,
                          calls: seq<Call>,
                          states: seq<State>, replies: seq<Reply>) {
    |states| == |calls| + 1 && |replies| == |calls| && states[0] == State(mem, false) &&
    forall n :: 0 <= n < |calls| ==> DoneAt(g, kernels, inputs, base, calls, states, replies, n)
  }

  ghost predicate DoneAt(g: Graph, kernels: Kernels, inputs: set<string>, base: Layout, calls: seq<Call>,
                         states: seq<State>, replies: seq<Reply>, n: nat)
    requires n < |calls| == |replies| && |states| == |calls| + 1
  {
    CallDone(g, kernels, inputs, base, states[n], calls[n], states[n + 1], replies[n])
  }

  /** The specified states and replies are the only history. */
  lemma {:induction false} HistoryIsSpecified(g: Graph, kernels: Kernels, inputs: set<string>, base: Layout,
    mem: seq<byte>, calls: seq<Call>, states: seq<State>, replies: seq<Reply>, n: nat)
    requires Wellformed(g) && Fills(g, kernels) && Loaded(g, base, |mem|)
    requires History(g, kernels, inputs, base, mem, calls, states, replies) && n <= |calls|
    ensures states[n] == StateAfter(g, kernels, inputs, base, mem, calls, n)
    ensures n < |calls| ==> replies[n] == ReplyTo(g, kernels, inputs, base, states[n], calls[n])
  {
    if n > 0 {
      HistoryIsSpecified(g, kernels, inputs, base, mem, calls, states, replies, n - 1);
      DoneIsSpecified(g, kernels, inputs, base, calls, states, replies, n - 1);
    }
    if n < |calls| { DoneIsSpecified(g, kernels, inputs, base, calls, states, replies, n); }
  }

  lemma DoneIsSpecified(g: Graph, kernels: Kernels, inputs: set<string>, base: Layout, calls: seq<Call>,
                        states: seq<State>, replies: seq<Reply>, n: nat)
    requires n < |calls| == |replies| && |states| == |calls| + 1
    requires Wellformed(g) && Fills(g, kernels) && Loaded(g, base, |states[n].mem|)
    requires DoneAt(g, kernels, inputs, base, calls, states, replies, n)
    ensures states[n + 1] == AfterCall(g, kernels, inputs, base, states[n], calls[n])
    ensures replies[n] == ReplyTo(g, kernels, inputs, base, states[n], calls[n])
  {
    var s, call := states[n], calls[n];
    CallIsDone(g, kernels, inputs, base, s, call);
    CallDoneIsUnique(g, kernels, inputs, base, s, call, states[n + 1], replies[n],
      AfterCall(g, kernels, inputs, base, s, call), ReplyTo(g, kernels, inputs, base, s, call));
  }
}
