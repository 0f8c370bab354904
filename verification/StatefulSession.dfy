/**
 The host path of a state advance, on tensors and storage that change in place.
 */
module StatefulSession {
  import opened Wrappers
  import opened GraphOrder
  import opened StateAdvance

  // ---- What a binding resolves to ----

  // Names of tensors, and the sources of whole-tensor aliases by the name of their output.
  datatype Names = Names(tensors: map<string, nat>, aliases: map<string, string>)

  function Find(m: Machine, names: Names, name: string): Option<nat> {
    if name in names.tensors && names.tensors[name] in m.tensors then Some(names.tensors[name]) else None
  }

  // A recurrent binding that may exchange storage reads the source its producer relays.
  function StateOutput(m: Machine, names: Names, b: Binding, input: nat, output: nat): nat
    requires input in m.tensors
  {
    if b.axis.None? && !b.stable && b.output in names.aliases then
      match Find(m, names, names.aliases[b.output])
      case Some(source) =>
        if m.tensors[source].dims == m.tensors[input].dims &&
          m.tensors[source].dtype == m.tensors[input].dtype then source else output
      case None => output
    else output
  }

  ghost function Resolve(m: Machine, names: Names, b: Binding): (r: Option<Update>)
    ensures r.Some? ==> Matches(m, r.value) && r.value.axis == b.axis && !r.value.snapshot
  {
    var input, found := Find(m, names, b.input), Find(m, names, b.output);
    if input.None? || found.None? || !TensorsMatch(b.axis, m.tensors[input.value], m.tensors[found.value]) then None
    else
      var output := StateOutput(m, names, b, input.value, found.value);
      if !(output in m.tensors && TensorsMatch(b.axis, m.tensors[input.value], m.tensors[output])) then None
      else Some(Update(b.axis, input.value, output, false, b.stable || m.tensors[output].immutable))
  }

  ghost predicate Resolvable(m: Machine, names: Names, bs: seq<Binding>) {
    forall i :: 0 <= i < |bs| ==> Resolve(m, names, bs[i]).Some?
  }

  ghost function Updates(m: Machine, names: Names, bs: seq<Binding>): (us: seq<Update>)
    requires Resolvable(m, names, bs)
    ensures |us| == |bs|
    ensures forall i :: 0 <= i < |us| ==> us[i] == Resolve(m, names, bs[i]).value
  {
    seq(|bs|, i requires 0 <= i < |bs| => Resolve(m, names, bs[i]).value)
  }

  // The batch passes every check.
  ghost predicate Accepted(m: Machine, names: Names, bs: seq<Binding>)
    requires Valid(m)
  {
    Resolvable(m, names, bs) && Ready(m, Updates(m, names, bs)) && !Clash(m, Updates(m, names, bs))
  }

  // ---- The same, name by name ----

  // The named tensor of a machine.
  ghost predicate Stands(m: Machine, names: Names, name: string, t: nat) {
    name in names.tensors && t == names.tensors[name] && t in m.tensors
  }

  // The binding may exchange storage, and the named output is a view of a tensor like the input.
  ghost predicate Relays(m: Machine, names: Names, b: Binding, a: nat, source: nat)
    requires a in m.tensors
  {
    b.axis.None? && !b.stable && b.output in names.aliases && Stands(m, names, names.aliases[b.output], source) &&
    m.tensors[source].dims == m.tensors[a].dims && m.tensors[source].dtype == m.tensors[a].dtype
  }

  // The binding's input a, its output o, and the tensor it reads.
  ghost predicate Reads(m: Machine, names: Names, b: Binding, a: nat, o: nat, t: nat) {
    Stands(m, names, b.input, a) && Stands(m, names, b.output, o) &&
    if exists source: nat :: Relays(m, names, b, a, source) then Relays(m, names, b, a, t) else t == o
  }

  // The binding passes the checks, with the output as named and with the tensor read.
  ghost predicate Passes(m: Machine, names: Names, b: Binding, a: nat, o: nat, t: nat) {
    Reads(m, names, b, a, o, t) && TensorsMatch(b.axis, m.tensors[a], m.tensors[o]) &&
    t in m.tensors && TensorsMatch(b.axis, m.tensors[a], m.tensors[t])
  }

  lemma RelayIsFound(m: Machine, names: Names, b: Binding, a: nat, o: nat)
    requires Stands(m, names, b.input, a) && Stands(m, names, b.output, o)
    ensures Reads(m, names, b, a, o, StateOutput(m, names, b, a, o))
  {
    if source: nat :| Relays(m, names, b, a, source) {
    } else if b.output in names.aliases {
      var found := Find(m, names, names.aliases[b.output]);
      assert found.Some? ==> Stands(m, names, names.aliases[b.output], found.value);
      assert found.Some? && StateOutput(m, names, b, a, o) != o ==> Relays(m, names, b, a, found.value);
    }
  }

  /**
   What a binding resolves to: its input and output by name, and the tensor it reads. That is
   the named output, except that a recurrent binding which may exchange storage reads the
   source its output is a view of, if there is one like the input.
   */
  lemma ResolvesAsNamed(m: Machine, names: Names, b: Binding)
    ensures Resolve(m, names, b).Some? <==> exists a: nat, o: nat, t: nat :: Passes(m, names, b, a, o, t)
    ensures forall a: nat, o: nat, t: nat :: Passes(m, names, b, a, o, t) ==>
      Resolve(m, names, b) == Some(Update(b.axis, a, t, false, b.stable || m.tensors[t].immutable))
  {
    var input, found := Find(m, names, b.input), Find(m, names, b.output);
    if input.Some? && found.Some? {
      RelayIsFound(m, names, b, input.value, found.value);
      assert Resolve(m, names, b).Some? ==>
        Passes(m, names, b, input.value, found.value, StateOutput(m, names, b, input.value, found.value));
    }
    forall a: nat, o: nat, t: nat | Passes(m, names, b, a, o, t)
      ensures Resolve(m, names, b) == Some(Update(b.axis, a, t, false, b.stable || m.tensors[t].immutable))
    {
      RelayIsFound(m, names, b, a, o);
    }
  }

  // Some input and output pass as the binding, and rows of the input can be addressed.
  ghost predicate Admissible(m: Machine, names: Names, b: Binding) {
    exists a: nat, o: nat, t: nat :: Passes(m, names, b, a, o, t) && (b.axis.Some? ==> m.tensors[a].dtype.Sized?)
  }

  // Some two bindings write a common byte.
  ghost predicate Collide(m: Machine, names: Names, b: Binding, c: Binding) {
    exists a: nat, d: nat, x: nat :: Stands(m, names, b.input, a) && Stands(m, names, c.input, d) &&
      Valid(m) && Covered(m, a) && Covered(m, d) && Shares(m, a, d, x)
  }

  // Every binding is admissible and no two write a common byte.
  ghost predicate AdmissibleBatch(m: Machine, names: Names, bs: seq<Binding>) {
    (forall i :: 0 <= i < |bs| ==> Admissible(m, names, bs[i])) &&
    (forall i, j :: 0 <= i < |bs| && 0 <= j < |bs| && i != j ==> !Collide(m, names, bs[i], bs[j]))
  }

  lemma AdmissibleResolves(m: Machine, names: Names, b: Binding)
    ensures Admissible(m, names, b) <==>
      Resolve(m, names, b).Some? && Appendable(m, Resolve(m, names, b).value)
  {
    ResolvesAsNamed(m, names, b);
  }

  lemma CollideIsOverlap(m: Machine, names: Names, b: Binding, c: Binding, u: Update, v: Update)
    requires Valid(m) && Resolve(m, names, b) == Some(u) && Resolve(m, names, c) == Some(v)
    ensures Collide(m, names, b, c) <==> Overlaps(m, u.input, v.input)
  {
    ResolvesAsNamed(m, names, b);
    ResolvesAsNamed(m, names, c);
    OverlapIsSharedByte(m, u.input, v.input);
    assert Stands(m, names, b.input, u.input) && Stands(m, names, c.input, v.input);
  }

  /** A batch passes exactly if every binding is admissible and no two write a common byte. */
  lemma AcceptedAsNamed(m: Machine, names: Names, bs: seq<Binding>)
    requires Valid(m)
    ensures Accepted(m, names, bs) <==> AdmissibleBatch(m, names, bs)
  {
    forall i | 0 <= i < |bs|
      ensures Admissible(m, names, bs[i]) <==>
        Resolve(m, names, bs[i]).Some? && Appendable(m, Resolve(m, names, bs[i]).value)
    {
      AdmissibleResolves(m, names, bs[i]);
    }
    if Resolvable(m, names, bs) {
      var us := Updates(m, names, bs);
      forall i, j | 0 <= i < |bs| && 0 <= j < |bs| && i != j
        ensures Collide(m, names, bs[i], bs[j]) <==> Overlaps(m, us[i].input, us[j].input)
      {
        CollideIsOverlap(m, names, bs[i], bs[j], us[i], us[j]);
      }
    }
  }

  // The input a after the batch: what the tensor t it reads held before, or, along the axis of a
  // cache, each row without its first slot and with the row of t behind it.
  ghost predicate Holds(m: Machine, n: Machine, axis: Option<nat>, a: nat, t: nat) {
    Valid(m) && Valid(n) && Covered(m, a) && Covered(m, t) && Covered(n, a) &&
    match axis
    case None => Contents(n, a) == Contents(m, t)
    case Some(k) =>
      var dims := m.tensors[a].dims;
      k < |dims| && m.tensors[a].dtype.Sized? && dims[k] >= 0 &&
      var block := Times(Count(dims[k + 1..]), m.tensors[a].dtype.width);
      var row := Times(dims[k], block);
      forall i: nat :: i < Product(dims[..k]) ==>
        RowShifted(Contents(n, a), Contents(m, a), Contents(m, t), row, block, i)
  }

  /** In particular, without a relay the input ends with what the output of that name held. */
  lemma NamedOutputIsAssigned(m: Machine, n: Machine, names: Names, bs: seq<Binding>, i: nat)
    requires AdmissibleBatch(m, names, bs) && Assigned(m, n, names, bs) && i < |bs| && bs[i].axis.None?
    requires bs[i].stable || bs[i].output !in names.aliases
    ensures bs[i].input in names.tensors && bs[i].output in names.tensors
    ensures var a, o := names.tensors[bs[i].input], names.tensors[bs[i].output];
      Valid(m) && Valid(n) && Covered(m, o) && Covered(n, a) && Contents(n, a) == Contents(m, o)
  {
    assert Admissible(m, names, bs[i]);
    var a: nat, o: nat, t: nat :| Passes(m, names, bs[i], a, o, t);
    assert Holds(m, n, bs[i].axis, a, t);
  }

  /** Every binding of an accepted batch ends with what the tensor it reads held before the batch. */
  ghost predicate Assigned(m: Machine, n: Machine, names: Names, bs: seq<Binding>) {
    forall i, a: nat, o: nat, t: nat :: 0 <= i < |bs| && Passes(m, names, bs[i], a, o, t) ==>
      Holds(m, n, bs[i].axis, a, t)
  }

  // ---- Validation of one pair ----

  method CheckedTensorBytes(t: Tensor) returns (r: Option<nat>)
    ensures r.Some? <==> ValidShape(t.dims) && Sizeable(t)
    ensures r.Some? ==> r.value == ByteSize(t)
    ensures r.Some? ==>
      match t.dtype
      case Packed => Product(t.dims) <= 2 * r.value <= Product(t.dims) + 1
      case Sized(width) => r.value == Product(t.dims) * width
  {
    var count := CheckedElementCount(t.dims);
    match t.dtype
    case Packed =>
      if count.None? { return None; }
      return Some(count.value / 2 + count.value % 2);
    case Sized(width) =>
      if width == 0 || count.None? { return None; }
      TimesIsProduct(count.value, width);
      if count.value > SIZE_MAX / width { SizeTest(count.value, width); return None; }
      SizeTest(count.value, width);
      return Some(count.value * width);
  }

  lemma SizeTest(count: nat, width: nat)
    requires width > 0
    ensures count > SIZE_MAX / width <==> count * width > SIZE_MAX
  {
    var q, r := SIZE_MAX / width, SIZE_MAX % width;
    assert SIZE_MAX == q * width + r;
    if count > q {
      assert count * width >= (q + 1) * width;
    } else {
      assert count * width <= q * width;
    }
  }

  method DimsAgree(axis: Option<nat>, a: seq<int>, b: seq<int>) returns (ok: bool)
    ensures ok <==> DimsMatch(axis, a, b)
  {
    if |a| != |b| { return false; }
    match axis
    case None => return a == b;
    case Some(k) =>
      if k >= |a| || a[k] <= 1 || b[k] != 1 { return false; }
      for i := 0 to |a|
        invariant forall j :: 0 <= j < i && j != k ==> a[j] == b[j]
      {
        if i != k && a[i] != b[i] { return false; }
      }
      return true;
  }

  method ValidateTensors(axis: Option<nat>, a: Tensor, b: Tensor) returns (ok: bool)
    ensures ok <==> TensorsMatch(axis, a, b)
  {
    if !a.initialized || !b.initialized || a.immutable || a.dtype != b.dtype || a.meta != b.meta { return false; }
    var dims := DimsAgree(axis, a.dims, b.dims);
    if !dims { return false; }
    var first := CheckedTensorBytes(a);
    var second := CheckedTensorBytes(b);
    ok := first.Some? && second.Some? && first.value <= a.memorySize && second.value <= b.memorySize;
  }

  // ---- Flags, pair by pair ----

  // The pair (q, r) has been examined when row i is at column j.
  predicate Met(q: nat, r: nat, i: nat, j: nat) { q < i || (q == i && r < j) }

  ghost predicate Strikes(m: Machine, us: seq<Update>, p: nat, i: nat, j: nat)
    requires Ready(m, us) && p < |us|
  {
    exists r: nat :: r < |us| && r != p && Met(p, r, i, j) && Hits(m, us, p, r)
  }

  ghost predicate Struck(m: Machine, us: seq<Update>, p: nat, i: nat, j: nat)
    requires Ready(m, us) && p < |us|
  {
    exists q: nat :: q < |us| && q != p && Met(q, p, i, j) && Hits(m, us, q, p)
  }

  // `began`: row i has also compared its own source and destination.
  ghost predicate FlagsSoFar(m: Machine, us: seq<Update>, f: Update, p: nat, i: nat, j: nat, began: bool)
    requires Ready(m, us) && p < |us|
  {
    f == us[p].(snapshot := f.snapshot, stable := f.stable) &&
    (f.snapshot <==>
      ((p < i || (began && p == i)) && Overlaps(m, us[p].input, us[p].output)) || Strikes(m, us, p, i, j)) &&
    (f.stable <==> us[p].stable || f.snapshot || Struck(m, us, p, i, j))
  }

  ghost predicate ClearSoFar(m: Machine, us: seq<Update>, i: nat, j: nat)
    requires Ready(m, us)
  {
    forall q: nat, r: nat :: q < |us| && r < |us| && q != r && Met(q, r, i, j) ==>
      !Overlaps(m, us[q].input, us[r].input)
  }

  ghost predicate FlaggedSoFar(m: Machine, us: seq<Update>, fs: seq<Update>, i: nat, j: nat, began: bool)
    requires Ready(m, us)
  {
    |fs| == |us| && ClearSoFar(m, us, i, j) && forall p: nat :: p < |us| ==> FlagsSoFar(m, us, fs[p], p, i, j, began)
  }

  // The flags after comparing update i with update j.
  function Compared(m: Machine, us: seq<Update>, fs: seq<Update>, i: nat, j: nat): seq<Update>
    requires Ready(m, us) && |fs| == |us| && i < |us| && j < |us|
  {
    if i != j && Hits(m, us, i, j) then
      var first := fs[i := fs[i].(snapshot := true, stable := true)];
      first[j := first[j].(stable := true)]
    else fs
  }

  lemma ComparedOne(m: Machine, us: seq<Update>, fs: seq<Update>, i: nat, j: nat, p: nat)
    requires Ready(m, us) && i < |us| && j < |us| && p < |us| && FlaggedSoFar(m, us, fs, i, j, true)
    ensures FlagsSoFar(m, us, Compared(m, us, fs, i, j)[p], p, i, j + 1, true)
  {
    assert FlagsSoFar(m, us, fs[p], p, i, j, true);
    assert Met(i, j, i, j + 1);
    StrikesMore(m, us, i, j, p);
  }

  lemma StrikesMore(m: Machine, us: seq<Update>, i: nat, j: nat, p: nat)
    requires Ready(m, us) && i < |us| && j < |us| && p < |us|
    ensures Strikes(m, us, p, i, j + 1) <==> Strikes(m, us, p, i, j) || (p == i && i != j && Hits(m, us, i, j))
    ensures Struck(m, us, p, i, j + 1) <==> Struck(m, us, p, i, j) || (p == j && i != j && Hits(m, us, i, j))
  {
    var next := j + 1;
    if Strikes(m, us, p, i, next) {
      var r: nat :| r < |us| && r != p && Met(p, r, i, next) && Hits(m, us, p, r);
      assert Met(p, r, i, j) || (p == i && r == j);
    }
    if Strikes(m, us, p, i, j) {
      var r: nat :| r < |us| && r != p && Met(p, r, i, j) && Hits(m, us, p, r);
      assert Met(p, r, i, next);
    }
    if p == i && i != j && Hits(m, us, i, j) { assert Met(p, j, i, next); }
    if Struck(m, us, p, i, next) {
      var q: nat :| q < |us| && q != p && Met(q, p, i, next) && Hits(m, us, q, p);
      assert Met(q, p, i, j) || (q == i && p == j);
    }
    if Struck(m, us, p, i, j) {
      var q: nat :| q < |us| && q != p && Met(q, p, i, j) && Hits(m, us, q, p);
      assert Met(q, p, i, next);
    }
    if p == j && i != j && Hits(m, us, i, j) { assert Met(i, p, i, next); }
  }

  lemma FlagStep(m: Machine, us: seq<Update>, fs: seq<Update>, i: nat, j: nat)
    requires Ready(m, us) && i < |us| && j < |us| && FlaggedSoFar(m, us, fs, i, j, true)
    requires i != j ==> !Overlaps(m, us[i].input, us[j].input)
    ensures FlaggedSoFar(m, us, Compared(m, us, fs, i, j), i, j + 1, true)
  {
    var gs, next := Compared(m, us, fs, i, j), j + 1;
    forall p: nat | p < |us| ensures FlagsSoFar(m, us, gs[p], p, i, next, true) { ComparedOne(m, us, fs, i, j, p); }
    forall q: nat, r: nat | q < |us| && r < |us| && q != r && Met(q, r, i, next)
      ensures !Overlaps(m, us[q].input, us[r].input)
    {
      assert Met(q, r, i, j) || (q == i && r == j);
    }
  }

  // The flags after comparing the source of update i with its own destination.
  function Begun(m: Machine, us: seq<Update>, fs: seq<Update>, i: nat): seq<Update>
    requires Ready(m, us) && |fs| == |us| && i < |us|
  {
    if Overlaps(m, us[i].input, us[i].output) then fs[i := fs[i].(snapshot := true, stable := true)] else fs
  }

  lemma SelfSkipped(m: Machine, us: seq<Update>, fs: seq<Update>, i: nat)
    requires Ready(m, us) && i < |us| && FlaggedSoFar(m, us, fs, i, i, true)
    ensures FlaggedSoFar(m, us, fs, i, i + 1, true)
  {
    FlagStep(m, us, fs, i, i);
  }

  lemma RowBegins(m: Machine, us: seq<Update>, fs: seq<Update>, i: nat)
    requires Ready(m, us) && i < |us| && FlaggedSoFar(m, us, fs, i, 0, false)
    ensures fs[i].input == us[i].input && fs[i].output == us[i].output
    ensures FlaggedSoFar(m, us, Begun(m, us, fs, i), i, 0, true)
  {
    assert FlagsSoFar(m, us, fs[i], i, i, 0, false);
    var gs := Begun(m, us, fs, i);
    forall p: nat | p < |us| ensures FlagsSoFar(m, us, gs[p], p, i, 0, true) {
      assert FlagsSoFar(m, us, fs[p], p, i, 0, false);
    }
  }

  lemma MetNext(n: nat, i: nat)
    ensures forall q: nat, r: nat :: q < n && r < n ==> (Met(q, r, i + 1, 0) <==> Met(q, r, i, n))
  {
  }

  lemma RowEnds(m: Machine, us: seq<Update>, fs: seq<Update>, i: nat)
    requires Ready(m, us) && i < |us| && FlaggedSoFar(m, us, fs, i, |us|, true)
    ensures FlaggedSoFar(m, us, fs, i + 1, 0, false)
  {
    MetNext(|us|, i);
    var next := i + 1;
    forall p: nat | p < |us| ensures FlagsSoFar(m, us, fs[p], p, next, 0, false) {
      assert FlagsSoFar(m, us, fs[p], p, i, |us|, true);
      assert Strikes(m, us, p, next, 0) <==> Strikes(m, us, p, i, |us|);
      assert Struck(m, us, p, next, 0) <==> Struck(m, us, p, i, |us|);
    }
  }

  lemma AllRowsDone(m: Machine, us: seq<Update>, fs: seq<Update>)
    requires Ready(m, us) && FlaggedSoFar(m, us, fs, |us|, 0, false)
    ensures Flagged(m, us, fs) && !Clash(m, us)
  {
    forall p: nat | p < |us|
      ensures fs[p] == us[p].(snapshot := fs[p].snapshot, stable := fs[p].stable)
      ensures fs[p].snapshot <==> NeedsSnapshot(m, us, p)
      ensures fs[p].stable <==>
        us[p].stable || NeedsSnapshot(m, us, p) || exists q :: 0 <= q < |us| && q != p && Hits(m, us, q, p)
    {
      assert FlagsSoFar(m, us, fs[p], p, |us|, 0, false);
      assert forall q: nat :: q < |us| ==> Met(p, q, |us|, 0) && Met(q, p, |us|, 0);
    }
    assert forall q: nat, r: nat :: q < |us| && r < |us| ==> Met(q, r, |us|, 0);
  }

  lemma NothingFlagged(m: Machine, us: seq<Update>)
    requires Ready(m, us) && forall i :: 0 <= i < |us| ==> !us[i].snapshot
    ensures FlaggedSoFar(m, us, us, 0, 0, false)
  {
  }

  // Update i against another update j.
  method FlagPair(m: Machine, ghost us: seq<Update>, fs: seq<Update>, i: nat, j: nat)
    returns (ok: bool, gs: seq<Update>)
    requires Ready(m, us) && i < |us| && j < |us| && i != j && FlaggedSoFar(m, us, fs, i, j, true)
    ensures ok ==> FlaggedSoFar(m, us, gs, i, j + 1, true)
    ensures !ok ==> Clash(m, us)
  {
    gs := fs;
    assert FlagsSoFar(m, us, gs[i], i, i, j, true) && FlagsSoFar(m, us, gs[j], j, i, j, true);
    if Overlaps(m, gs[i].input, gs[j].input) { return false, gs; }
    FlagStep(m, us, gs, i, j);
    if Overlaps(m, gs[i].output, gs[j].input) || Overlaps(m, gs[i].output, gs[j].output) {
      gs := gs[i := gs[i].(snapshot := true, stable := true)];
      gs := gs[j := gs[j].(stable := true)];
    }
    ok := true;
  }

  // Update i against itself.
  method FlagSelf(m: Machine, ghost us: seq<Update>, fs: seq<Update>, i: nat) returns (gs: seq<Update>)
    requires Ready(m, us) && i < |us| && FlaggedSoFar(m, us, fs, i, 0, false)
    ensures FlaggedSoFar(m, us, gs, i, 0, true)
  {
    RowBegins(m, us, fs, i);
    assert Matches(m, us[i]);
    gs := fs;
    if Overlaps(m, fs[i].input, fs[i].output) { gs := gs[i := gs[i].(snapshot := true, stable := true)]; }
  }

  // One row: compares update i with itself and with every other update.
  method FlagRow(m: Machine, ghost us: seq<Update>, fs: seq<Update>, i: nat) returns (ok: bool, gs: seq<Update>)
    requires Ready(m, us) && i < |us| && FlaggedSoFar(m, us, fs, i, 0, false)
    ensures ok ==> FlaggedSoFar(m, us, gs, i + 1, 0, false)
    ensures !ok ==> Clash(m, us)
  {
    gs := FlagSelf(m, us, fs, i);
    for j := 0 to |gs|
      invariant |gs| == |us| && FlaggedSoFar(m, us, gs, i, j, true)
    {
      if i == j {
        SelfSkipped(m, us, gs, i);
      } else {
        ok, gs := FlagPair(m, us, gs, i, j);
        if !ok { return; }
      }
    }
    RowEnds(m, us, gs, i);
    ok := true;
  }

  /** Rejects a batch whose destinations overlap; otherwise decides who is snapshotted and who keeps its storage. */
  method FlagUpdates(m: Machine, us: seq<Update>) returns (ok: bool, fs: seq<Update>)
    requires Ready(m, us) && forall i :: 0 <= i < |us| ==> !us[i].snapshot
    ensures ok <==> !Clash(m, us)
    ensures ok ==> Flagged(m, us, fs)
  {
    fs := us;
    NothingFlagged(m, us);
    for i := 0 to |us|
      invariant FlaggedSoFar(m, us, fs, i, 0, false)
    {
      ok, fs := FlagRow(m, us, fs, i);
      if !ok { return; }
    }
    AllRowsDone(m, us, fs);
    ok := true;
  }

  // ---- Rows in place ----

  /** Moving one row down by a block and filling its end, with everything around it in place. */
  lemma RowShifts(before: seq<byte>, r: seq<byte>, after: seq<byte>, piece: seq<byte>)
    requires |piece| <= |r|
    ensures var moved := Poked(before + r + after, |before|, r[|piece|..]);
      |moved| == |before + r + after| &&
      Poked(moved, |before| + |r| - |piece|, piece) == before + (r[|piece|..] + piece) + after
  {
    var block, whole := |piece|, before + r + after;
    assert whole[..|before|] == before;
    assert whole[|before| + (|r| - block)..] == r[|r| - block..] + after;
    var moved := Poked(whole, |before|, r[block..]);
    assert moved == before + r[block..] + (r[|r| - block..] + after);
    assert moved[..|before| + |r| - block] == before + r[block..];
    assert moved[|before| + |r|..] == after;
  }

  // The memory around the rows: those shifted, those to come, and the blocks left to append.
  datatype Span = Span(before: seq<byte>, done: seq<byte>, rest: seq<byte>, after: seq<byte>, left: seq<byte>)

  function Whole(s: Span): seq<byte> { s.before + s.done + s.rest + s.after }

  ghost predicate Appending(memory: seq<byte>, s: Span, n: nat, row: nat, block: nat, goal: seq<byte>) {
    block <= row && |s.rest| == Times(n, row) && |s.left| == Times(n, block) &&
    memory == Whole(s) && goal == s.done + ShiftAppend(s.rest, s.left, n, row, block)
  }

  function Next(s: Span, row: nat, block: nat): Span
    requires block <= row <= |s.rest| && block <= |s.left|
  {
    Span(s.before, s.done + (s.rest[block..row] + s.left[..block]), s.rest[row..], s.after, s.left[block..])
  }

  function FirstSpan(memory: seq<byte>, at: nat, size: nat, source: seq<byte>): Span
    requires at + size <= |memory|
  {
    Span(memory[..at], [], memory[at..at + size], memory[at + size..], source)
  }

  lemma SplitMemory(memory: seq<byte>, at: nat, size: nat)
    requires at + size <= |memory|
    ensures memory == memory[..at] + [] + memory[at..at + size] + memory[at + size..]
  {
  }

  lemma AppendStarts(memory: seq<byte>, at: nat, size: nat, source: seq<byte>, outer: nat, row: nat, block: nat)
    requires block <= row && size == Times(outer, row) && at + size <= |memory| && |source| == Times(outer, block)
    ensures Appending(memory, FirstSpan(memory, at, size, source), outer, row, block,
      ShiftAppend(memory[at..at + size], source, outer, row, block))
  {
    SplitMemory(memory, at, size);
    var goal := ShiftAppend(memory[at..at + size], source, outer, row, block);
    assert goal == [] + goal;
  }

  // One row moved down by a block, with the piece at its end.
  function RowWritten(memory: seq<byte>, cache: nat, row: nat, piece: seq<byte>): (r: seq<byte>)
    requires |piece| <= row && cache + row <= |memory|
    ensures |r| == |memory|
  {
    Poked(Poked(memory, cache, memory[cache + |piece|..cache + row]), cache + row - |piece|, piece)
  }

  lemma RowMoves(s: Span, row: nat, block: nat)
    requires block <= row <= |s.rest| && block <= |s.left|
    ensures |s.before| + |s.done| + row <= |Whole(s)|
    ensures RowWritten(Whole(s), |s.before| + |s.done|, row, s.left[..block]) == Whole(Next(s, row, block))
  {
    var prefix, r, suffix, piece := s.before + s.done, s.rest[..row], s.rest[row..] + s.after, s.left[..block];
    SplitRow(s.before, s.done, s.rest, s.after, row);
    RowShifts(prefix, r, suffix, piece);
    RowBytes(prefix, r, suffix, block);
    JoinRow(s.before, s.done, r[block..] + piece, s.rest[row..], s.after);
    assert s.rest[block..row] == r[block..];
  }

  lemma AppendStep(memory: seq<byte>, s: Span, n: nat, row: nat, block: nat, goal: seq<byte>)
    requires n > 0 && Appending(memory, s, n, row, block, goal)
    ensures row <= |s.rest| && block <= |s.left| && |s.before| + |s.done| + row <= |memory|
    ensures Appending(RowWritten(memory, |s.before| + |s.done|, row, s.left[..block]), Next(s, row, block), n - 1, row,
      block, goal)
  {
    RowMoves(s, row, block);
    AppendUnfolds(s.done, s.rest, s.left, n, row, block);
  }

  lemma SplitRow(before: seq<byte>, done: seq<byte>, rest: seq<byte>, after: seq<byte>, row: nat)
    requires row <= |rest|
    ensures before + done + rest + after == (before + done) + rest[..row] + (rest[row..] + after)
  {
    assert rest == rest[..row] + rest[row..];
  }

  lemma JoinRow(before: seq<byte>, done: seq<byte>, r: seq<byte>, rest: seq<byte>, after: seq<byte>)
    ensures (before + done) + r + (rest + after) == before + (done + r) + rest + after
  {
  }

  lemma AppendUnfolds(done: seq<byte>, rest: seq<byte>, left: seq<byte>, n: nat, row: nat, block: nat)
    requires n > 0 && block <= row && |rest| == Times(n, row) && |left| == Times(n, block)
    ensures done + ShiftAppend(rest, left, n, row, block) ==
      (done + (rest[block..row] + left[..block])) + ShiftAppend(rest[row..], left[block..], n - 1, row, block)
  {
  }

  lemma RowBytes(before: seq<byte>, r: seq<byte>, after: seq<byte>, block: nat)
    requires block <= |r|
    ensures (before + r + after)[|before| + block..|before| + |r|] == r[block..]
  {
  }

  lemma NextBlock(source: seq<byte>, taken: nat, n: nat, block: nat)
    requires taken <= |source| && n > 0 && |source[taken..]| == Times(n, block)
    ensures taken + block <= |source| && source[taken..taken + block] == source[taken..][..block]
    ensures source[taken..][block..] == source[taken + block..]
  {
  }

  // Rows `done` of the span are in place; the cursors are at the next row and the next block.
  ghost predicate Cursor(s: Span, first: Span, source: seq<byte>, cache: nat, taken: nat) {
    s.before == first.before && s.after == first.after && cache == |s.before| + |s.done| && taken <= |source| &&
      s.left == source[taken..]
  }

  lemma CursorMoves(memory: seq<byte>, s: Span, first: Span, source: seq<byte>, cache: nat, taken: nat, n: nat,
                    row: nat, block: nat, goal: seq<byte>)
    requires n > 0 && Appending(memory, s, n, row, block, goal) && Cursor(s, first, source, cache, taken)
    ensures row <= |s.rest| && block <= |s.left| && cache + row <= |memory| && taken + block <= |source|
    ensures Appending(RowWritten(memory, cache, row, source[taken..taken + block]), Next(s, row, block), n - 1, row,
      block, goal)
    ensures Cursor(Next(s, row, block), first, source, cache + row, taken + block)
  {
    NextBlock(source, taken, n, block);
    AppendStep(memory, s, n, row, block, goal);
  }

  lemma AppendEnds(memory: seq<byte>, s: Span, row: nat, block: nat, goal: seq<byte>)
    requires Appending(memory, s, 0, row, block, goal)
    ensures memory == s.before + goal + s.after
  {
  }

  lemma ValidDims(t: Tensor, axis: nat)
    requires axis < |t.dims| && ValidShape(t.dims)
    ensures t.dims[axis] >= 0 && Product(t.dims[..axis]) >= 0 && Product(t.dims[axis + 1..]) >= 0
  {
    forall i | 0 <= i < |t.dims| ensures t.dims[i] >= 0 { assert t.dims[i] in t.dims; }
    ProductNonnegative(t.dims[..axis]);
    ProductNonnegative(t.dims[axis + 1..]);
  }

  method DimsProduct(dims: seq<int>, from: nat, to: nat) returns (r: int)
    requires from <= to <= |dims|
    ensures r == Product(dims[from..to])
  {
    r := 1;
    for i := from to to
      invariant r == Product(dims[from..i])
    {
      assert dims[from..i + 1][..i - from] == dims[from..i];
      r := r * dims[i];
    }
  }

  // The rows of a cache: how many, their bytes, and the bytes of one entry.
  method CacheRows(t: Tensor, axis: nat) returns (outer: nat, row: nat, block: nat)
    requires axis < |t.dims| && t.dtype.Sized? && ValidShape(t.dims)
    ensures t.dims[axis] >= 0 && outer == Outer(t, axis) && row == RowSize(t, axis) && block == Block(t, axis)
  {
    ValidDims(t, axis);
    var before := DimsProduct(t.dims, 0, axis);
    var after := DimsProduct(t.dims, axis + 1, |t.dims|);
    assert t.dims[0..axis] == t.dims[..axis] && t.dims[axis + 1..|t.dims|] == t.dims[axis + 1..];
    TimesIsProduct(after, t.dtype.width);
    outer, block := before, after * t.dtype.width;
    TimesIsProduct(t.dims[axis], block);
    row := t.dims[axis] * block;
  }

  // Simultaneous assignment: every destination holds its new state, every bystander what it held.
  ghost predicate Advanced(m: Machine, n: Machine, us: seq<Update>) {
    Ready(m, us) && Valid(n) && SameShapes(m, n) &&
    (forall i :: 0 <= i < |us| ==> Covered(n, us[i].input) && Contents(n, us[i].input) == NewState(m, us[i])) &&
    (forall t :: Covered(m, t) && Bystander(m, us, t) ==> Covered(n, t) && Contents(n, t) == Contents(m, t))
  }

  lemma AllAdvanced(start: Machine, us: seq<Update>, first: seq<Update>, snapped: Machine, vs: seq<Update>,
                    end: Machine)
    requires Ready(start, us) && Flagged(start, us, first)
    requires Snapped(start, first, snapped, vs, |vs|) && Undisturbed(start, first, snapped, vs)
    requires Installed(snapped, end, vs, |vs|) && Undisturbed(snapped, vs, end, vs)
    ensures Advanced(start, end, us)
  {
    forall i | 0 <= i < |us| ensures Covered(end, us[i].input) && Contents(end, us[i].input) == NewState(start, us[i]) {
      assert Carries(start, first[i], snapped, vs[i]);
      assert Contents(end, vs[i].input) == NewState(snapped, vs[i]);
    }
    forall t | Covered(start, t) && Bystander(start, us, t)
      ensures Covered(end, t) && Contents(end, t) == Contents(start, t)
    {
      assert Bystander(start, first, t);
      assert Covered(snapped, t) && Bystander(snapped, vs, t);
    }
  }

  lemma CacheHolds(m: Machine, n: Machine, u: Update, axis: nat)
    requires Valid(m) && Valid(n) && Matches(m, u) && Appendable(m, u) && u.axis == Some(axis) && Covered(n, u.input)
    requires Contents(n, u.input) == NewState(m, u)
    ensures Holds(m, n, u.axis, u.input, u.output)
  {
    var a := m.tensors[u.input];
    CacheSizes(axis, a, m.tensors[u.output]);
    forall i: nat | i < Product(a.dims[..axis])
      ensures RowShifted(Contents(n, u.input), Contents(m, u.input), Contents(m, u.output), RowSize(a, axis),
        Block(a, axis), i)
    {
      ShiftAppendShifts(Contents(m, u.input), Contents(m, u.output), Outer(a, axis), RowSize(a, axis), Block(a, axis),
        i);
    }
  }

  lemma UpdateHolds(m: Machine, n: Machine, us: seq<Update>, i: nat)
    requires Advanced(m, n, us) && i < |us|
    ensures Holds(m, n, us[i].axis, us[i].input, us[i].output)
  {
    assert Matches(m, us[i]) && Contents(n, us[i].input) == NewState(m, us[i]);
    if us[i].axis.Some? { CacheHolds(m, n, us[i], us[i].axis.value); }
  }

  /** Simultaneous assignment, name by name. */
  lemma AdvancedAsNamed(m: Machine, n: Machine, names: Names, bs: seq<Binding>)
    requires Resolvable(m, names, bs) && Advanced(m, n, Updates(m, names, bs))
    ensures Assigned(m, n, names, bs)
  {
    forall i, a: nat, o: nat, t: nat | 0 <= i < |bs| && Passes(m, names, bs[i], a, o, t)
      ensures Holds(m, n, bs[i].axis, a, t)
    {
      ResolvesAsNamed(m, names, bs[i]);
      UpdateHolds(m, n, Updates(m, names, bs), i);
    }
  }

  // ---- A cache over many advances ----

  // One advance of cache t: the state before and after the batch, the batch, and t's place in it.
  datatype Advance = Advance(before: Machine, after: Machine, updates: seq<Update>, at: nat)

  // The advance takes the cache t from its old contents to its new ones, appending the output's.
  ghost predicate Appends(a: Advance, t: nat, axis: nat, cache: seq<byte>, output: seq<byte>, next: seq<byte>) {
    Advanced(a.before, a.after, a.updates) && a.at < |a.updates| && a.updates[a.at].input == t &&
      a.updates[a.at].axis == Some(axis) &&
    Valid(a.before) && Covered(a.before, t) && Contents(a.before, t) == cache &&
    Covered(a.before, a.updates[a.at].output) && Contents(a.before, a.updates[a.at].output) == output &&
    Covered(a.after, t) && Contents(a.after, t) == next
  }

  ghost predicate CacheShape(t: Tensor, axis: nat, outer: nat, row: nat, block: nat) {
    axis < |t.dims| && t.dtype.Sized? && t.dims[axis] >= 0 && Outer(t, axis) == outer && RowSize(t, axis) == row &&
      Block(t, axis) == block
  }

  lemma AdvanceShifts(a: Advance, t: nat, axis: nat, outer: nat, row: nat, block: nat, cache: seq<byte>,
                      output: seq<byte>, next: seq<byte>)
    requires Appends(a, t, axis, cache, output, next) && CacheShape(a.before.tensors[t], axis, outer, row, block)
    ensures block <= row && |cache| == |next| == Times(outer, row) && |output| == Times(outer, block)
    ensures next == ShiftAppend(cache, output, outer, row, block)
  {
    var u := a.updates[a.at];
    assert Matches(a.before, u) && Appendable(a.before, u);
    CacheSizes(axis, a.before.tensors[t], a.before.tensors[u.output]);
    assert Contents(a.after, u.input) == NewState(a.before, u);
  }

  // Advance k starts from what advance k - 1 left: nothing else changes the cache.
  ghost predicate AdvancesAt(advances: seq<Advance>, t: nat, axis: nat, outer: nat, row: nat, block: nat,
                             caches: seq<seq<byte>>, outputs: seq<seq<byte>>, k: nat)
    requires k < |advances| == |outputs| && |caches| == |advances| + 1
  {
    Appends(advances[k], t, axis, caches[k], outputs[k], caches[k + 1]) &&
      CacheShape(advances[k].before.tensors[t], axis, outer, row, block)
  }

  /**
   Sliding window over a run. After any number of advances each outer row of the cache holds
   the last `row` bytes of its initial contents followed by everything appended to it since.
   */
  lemma CacheKeepsWindow(advances: seq<Advance>, t: nat, axis: nat, outer: nat, row: nat, block: nat,
                         caches: seq<seq<byte>>, outputs: seq<seq<byte>>, i: nat, n: nat)
    requires |caches| == |advances| + 1 && |outputs| == |advances| && |caches[0]| == Times(outer, row) && i < outer &&
      n <= |advances|
    requires forall k: nat :: k < |advances| ==> AdvancesAt(advances, t, axis, outer, row, block, caches, outputs, k)
    ensures |caches[n]| == Times(outer, row) && Times(i + 1, row) <= Times(outer, row)
    ensures forall k: nat :: k < n ==> Times(i + 1, block) <= |outputs[k]|
    ensures Row(caches[n], row, i) == Tail(Row(caches[0], row, i) + Appended(outputs, block, i, n), row)
  {
    forall k: nat | k < n ensures Shifts(caches, outputs, outer, row, block, k) {
      assert AdvancesAt(advances, t, axis, outer, row, block, caches, outputs, k);
      AdvanceShifts(advances[k], t, axis, outer, row, block, caches[k], outputs[k], caches[k + 1]);
    }
    CacheIsWindow(caches, outputs, outer, row, block, i, n);
  }

  // The tensors and storages of one graph.
  class RuntimeGraph {
    var memory: seq<byte>
    var stores: map<nat, Store>
    var tensors: map<nat, Tensor>
    var ids: nat
    const names: Names
    const usesMemoryPlan: bool

    constructor (machine: Machine, names: Names, usesMemoryPlan: bool)
      ensures Now() == machine && this.names == names && this.usesMemoryPlan == usesMemoryPlan
    {
      memory, stores, tensors, ids := machine.memory, machine.stores, machine.tensors, machine.ids;
      this.names, this.usesMemoryPlan := names, usesMemoryPlan;
    }

    function Now(): Machine
      reads this
    {
      Machine(memory, stores, tensors, ids)
    }

    // A read-only buffer is replaced, in its storage, by a private copy.
    method EnsureWritable(t: nat)
      requires StateAdvance.Valid(Now()) && Covered(Now(), t)
      modifies this
      ensures Now() == Writable(old(Now()), t)
    {
      var s := tensors[t].storage;
      var store := stores[s];
      if store.readOnly {
        stores := stores[s := Store(|memory|, store.size, false)];
        memory := memory + memory[store.base..store.base + store.size];
      }
    }

    method MoveBytes(at: nat, data: seq<byte>)
      requires at + |data| <= |memory|
      modifies this`memory
      ensures memory == Poked(old(memory), at, data)
    {
      memory := memory[..at] + data + memory[at + |data|..];
    }

    method CopyInto(t: nat, data: seq<byte>)
      requires StateAdvance.Valid(Now()) && Covered(Now(), t) && |data| == ByteSize(tensors[t])
      modifies this
      ensures Now() == Write(old(Now()), t, data)
    {
      WritableKeeps(Now(), t);
      EnsureWritable(t);
      MoveBytes(Address(Now(), t), data);
    }

    method SwapStorage(a: nat, b: nat)
      requires a in tensors && b in tensors
      modifies this`tensors
      ensures Now() == Exchange(old(Now()), a, b)
      ensures tensors[a] == old(tensors)[a].(storage := old(tensors)[b].storage, offset := old(tensors)[b].offset,
        memorySize := old(tensors)[b].memorySize)
      ensures tensors[b] == old(tensors)[b].(storage := old(tensors)[a].storage, offset := old(tensors)[a].offset,
        memorySize := old(tensors)[a].memorySize)
      ensures tensors.Keys == old(tensors).Keys && forall t :: t in tensors && t != a && t != b ==>
        tensors[t] == old(tensors)[t]
    {
      var ta, tb := tensors[a], tensors[b];
      tensors := tensors[a := ta.(storage := tb.storage, memorySize := tb.memorySize, offset := tb.offset)];
      if a != b {
        tensors := tensors[b := tb.(storage := ta.storage, memorySize := ta.memorySize, offset := ta.offset)];
      }
    }

    method AppendRow(cache: nat, row: nat, piece: seq<byte>)
      requires |piece| <= row && cache + row <= |memory|
      modifies this`memory
      ensures memory == RowWritten(old(memory), cache, row, piece)
    {
      MoveBytes(cache, memory[cache + |piece|..cache + row]);
      MoveBytes(cache + row - |piece|, piece);
    }

    // Shifts `outer` rows at an address by one block each and appends the source's blocks.
    method AppendRows(at: nat, source: seq<byte>, outer: nat, row: nat, block: nat, ghost size: nat)
      requires block <= row && size == Times(outer, row) && at + size <= |memory| && |source| == Times(outer, block)
      modifies this`memory
      ensures memory == Poked(old(memory), at, ShiftAppend(old(memory)[at..at + size], source, outer, row, block))
    {
      ghost var first := FirstSpan(memory, at, size, source);
      ghost var span, goal := first, ShiftAppend(first.rest, source, outer, row, block);
      AppendStarts(memory, at, size, source, outer, row, block);
      var cache: nat, taken: nat := at, 0;
      for i := 0 to outer
        invariant Appending(memory, span, outer - i, row, block, goal) && Cursor(span, first, source, cache, taken)
      {
        CursorMoves(memory, span, first, source, cache, taken, outer - i, row, block, goal);
        AppendRow(cache, row, source[taken..taken + block]);
        span := Next(span, row, block);
        cache, taken := cache + row, taken + block;
      }
      AppendEnds(memory, span, row, block, goal);
    }

    // Appends to the rows of a tensor whose storage is writable.
    method AppendInto(t: nat, source: seq<byte>, outer: nat, row: nat, block: nat)
      requires StateAdvance.Valid(Now()) && Covered(Now(), t)
      requires block <= row && ByteSize(tensors[t]) == Times(outer, row) && |source| == Times(outer, block)
      modifies this`memory
      ensures Now() == Poke(old(Now()), Address(old(Now()), t),
        ShiftAppend(Contents(old(Now()), t), source, outer, row, block))
    {
      assert InStore(Now(), tensors[t]);
      AppendRows(Address(Now(), t), source, outer, row, block, ByteSize(tensors[t]));
    }

    // Appends one entry to every row of a cache.
    method AppendState(input: nat, output: nat, axis: nat)
      requires StateAdvance.Valid(Now()) && input in tensors && output in tensors
      requires TensorsMatch(Some(axis), tensors[input], tensors[output]) && tensors[input].dtype.Sized?
      modifies this
      ensures Now() == Apply(old(Now()), Update(Some(axis), input, output, false, false), usesMemoryPlan)
    {
      var t := tensors[input];
      CacheSizes(axis, t, tensors[output]);
      var outer, row, block := CacheRows(t, axis);
      var source := Contents(Now(), output);
      WritableKeeps(Now(), input);
      EnsureWritable(input);
      AppendInto(input, source, outer, row, block);
    }

    // One validated update.
    method ApplyValidatedState(u: Update)
      requires StateAdvance.Valid(Now()) && Matches(Now(), u) && Appendable(Now(), u)
      modifies this
      ensures Now() == Apply(old(Now()), u, usesMemoryPlan)
    {
      match u.axis
      case Some(axis) => AppendState(u.input, u.output, axis);
      case None =>
        if Idle(Now(), u, usesMemoryPlan) { return; }
        if usesMemoryPlan || u.stable {
          CopyInto(u.input, Contents(Now(), u.output));
        } else {
          SwapStorage(u.input, u.output);
        }
    }

    // A private copy of a tensor's contents, as a new tensor.
    method TakeSnapshot(t: nat) returns (copy: nat)
      requires StateAdvance.Valid(Now()) && Covered(Now(), t)
      modifies this
      ensures Now() == Snapshot(old(Now()), t) && copy == old(ids)
    {
      var size := ByteSize(tensors[t]);
      copy := ids;
      var data := Contents(Now(), t);
      stores := stores[ids := Store(|memory|, size, false)];
      tensors := tensors[ids := tensors[t].(storage := ids, offset := 0, memorySize := size, immutable := false)];
      memory := memory + data;
      ids := ids + 1;
    }

    // The i-th update, redirected to a snapshot when it needs one.
    method Redirect(ghost start: Machine, ghost first: seq<Update>, us: seq<Update>, i: nat) returns (vs: seq<Update>)
      requires Snapped(start, first, Now(), us, i) && i < |us| && StateAdvance.Valid(start) &&
        Undisturbed(start, first, Now(), us)
      modifies this
      ensures Snapped(start, first, Now(), vs, i + 1) && Undisturbed(start, first, Now(), vs)
      ensures KeepsShielded(old(Now()), Now())
    {
      vs := us;
      if us[i].snapshot {
        assert Carries(start, first[i], Now(), us[i]);
        SnapStep(start, first, Now(), us, i);
        UndisturbedBySnapshot(start, first, Now(), us, i);
        SnapshotShields(Now(), us[i].output);
        var copy := TakeSnapshot(us[i].output);
        vs := us[i := us[i].(output := copy)];
      } else {
        SkipStep(start, first, Now(), us, i);
      }
    }

    method TakeSnapshots(first: seq<Update>) returns (us: seq<Update>)
      requires Snapped(Now(), first, Now(), first, 0)
      modifies this
      ensures Snapped(old(Now()), first, Now(), us, |us|)
      ensures Undisturbed(old(Now()), first, Now(), us) && KeepsShielded(old(Now()), Now())
    {
      us := first;
      for i := 0 to |first|
        invariant |us| == |first| && Snapped(old(Now()), first, Now(), us, i)
        invariant Undisturbed(old(Now()), first, Now(), us) && KeepsShielded(old(Now()), Now())
      {
        us := Redirect(old(Now()), first, us, i);
      }
    }

    method ApplyAll(us: seq<Update>)
      requires Installed(Now(), Now(), us, 0)
      modifies this
      ensures Installed(old(Now()), Now(), us, |us|)
      ensures Undisturbed(old(Now()), us, Now(), us) && KeepsShielded(old(Now()), Now())
    {
      for i := 0 to |us|
        invariant Installed(old(Now()), Now(), us, i)
        invariant Undisturbed(old(Now()), us, Now(), us) && KeepsShielded(old(Now()), Now())
      {
        ApplyStep(Now(), us, i, usesMemoryPlan);
        OneMoreInstalled(old(Now()), Now(), Apply(Now(), us[i], usesMemoryPlan), us, i);
        UndisturbedByUpdate(old(Now()), us, Now(), us, i, usesMemoryPlan);
        ApplyShields(Now(), us[i], usesMemoryPlan);
        ApplyValidatedState(us[i]);
      }
    }

    // Resolves one binding and validates it twice: as named, and with the source it will read.
    method ResolveBinding(b: Binding) returns (r: Option<Update>)
      ensures r == Resolve(Now(), names, b)
      ensures r.Some? <==> exists a: nat, o: nat, t: nat :: Passes(Now(), names, b, a, o, t)
      ensures forall a: nat, o: nat, t: nat :: Passes(Now(), names, b, a, o, t) ==>
        r == Some(Update(b.axis, a, t, false, b.stable || tensors[t].immutable))
    {
      ResolvesAsNamed(Now(), names, b);
      var input, found := Find(Now(), names, b.input), Find(Now(), names, b.output);
      if input.None? || found.None? { return None; }
      var ok := ValidateTensors(b.axis, tensors[input.value], tensors[found.value]);
      if !ok { return None; }
      var output := StateOutput(Now(), names, b, input.value, found.value);
      ok := ValidateTensors(b.axis, tensors[input.value], tensors[output]);
      if !ok { return None; }
      r := Some(Update(b.axis, input.value, output, false, b.stable || tensors[output].immutable));
    }

    method ResolveAll(bs: seq<Binding>) returns (ok: bool, us: seq<Update>)
      ensures ok <==> Resolvable(Now(), names, bs)
      ensures ok ==> us == Updates(Now(), names, bs)
    {
      us := [];
      for i := 0 to |bs|
        invariant |us| == i
        invariant forall k :: 0 <= k < i ==> Resolve(Now(), names, bs[k]) == Some(us[k])
      {
        var u := ResolveBinding(bs[i]);
        if u.None? { return false, us; }
        us := us + [u.value];
      }
      ok := true;
    }

    // No cache of a packed type.
    method CheckAppendable(us: seq<Update>) returns (ok: bool)
      requires forall i :: 0 <= i < |us| ==> us[i].input in tensors
      ensures ok <==> forall i :: 0 <= i < |us| ==> Appendable(Now(), us[i])
    {
      for i := 0 to |us|
        invariant forall k :: 0 <= k < i ==> Appendable(Now(), us[k])
      {
        if us[i].axis.Some? && tensors[us[i].input].dtype.Packed? { assert !Appendable(Now(), us[i]); return false; }
      }
      ok := true;
    }

    /**
     A batch of bindings as one simultaneous assignment. It is rejected exactly when some
     check fails, and then nothing has changed; otherwise every destination holds the state
     computed before the batch, and a tensor apart from all of it holds what it held. Memory
     that no writable storage reached is as it was.
     */
    method ApplyStateBindings(bs: seq<Binding>) returns (ok: bool)
      requires StateAdvance.Valid(Now())
      modifies this
      ensures ok <==> AdmissibleBatch(old(Now()), names, bs)
      ensures !ok ==> Now() == old(Now())
      ensures ok ==> Assigned(old(Now()), Now(), names, bs) && KeepsShielded(old(Now()), Now())
      ensures ok ==> Resolvable(old(Now()), names, bs) && Advanced(old(Now()), Now(), Updates(old(Now()), names, bs))
    {
      AcceptedAsNamed(Now(), names, bs);
      var us;
      ok, us := ResolveAll(bs);
      if !ok { return; }
      ok := CheckAppendable(us);
      if !ok { return; }
      ok, us := FlagUpdates(Now(), us);
      if !ok { return; }
      FlaggedIsSettled(Now(), Updates(Now(), names, bs), us);
      ghost var first := us;
      us := TakeSnapshots(us);
      SnappedIsInstallable(old(Now()), first, Now(), us);
      ghost var snapped := Now();
      ApplyAll(us);
      AllAdvanced(old(Now()), Updates(old(Now()), names, bs), first, snapped, us, Now());
      AdvancedAsNamed(old(Now()), Now(), names, bs);
    }
  }
}
