/**
 Advancing recurrent state between runs on the host. Bindings may alias each other;
 a batch is validated as a whole, aliased outputs are snapshotted, and the updates are
 then applied one at a time by copying, appending or exchanging storage.
 */
module StateAdvance {
  import opened Wrappers
  import opened GraphOrder

  // A Storage names a range of addresses. Two Storages may name overlapping ranges.
  datatype Store = Store(base: nat, size: nat, readOnly: bool)

  datatype DType = Packed | Sized(width: nat)

  // A tensor is a view of a Storage once it is initialized. `meta` stands for layout and quantization.
  datatype Tensor = Tensor(initialized: bool, storage: nat, offset: nat, memorySize: nat, dims: seq<int>, dtype: DType,
                           meta: nat, immutable: bool)

  // Tensors and Storages are objects, known by numbers below `ids`.
  datatype Machine = Machine(memory: seq<byte>, stores: map<nat, Store>, tensors: map<nat, Tensor>, ids: nat)

  function Count(dims: seq<int>): nat { if Product(dims) >= 0 then Product(dims) else 0 }

  // n * width.
  function Times(n: nat, width: nat): nat { if n == 0 then 0 else Times(n - 1, width) + width }

  lemma {:induction false} TimesIsProduct(n: nat, width: nat)
    ensures Times(n, width) == n * width
  {
    if n > 0 { TimesIsProduct(n - 1, width); }
  }

  function ByteSize(t: Tensor): nat {
    match t.dtype
    case Packed => (Count(t.dims) + 1) / 2
    case Sized(width) => Times(Count(t.dims), width)
  }

  ghost predicate InStore(m: Machine, t: Tensor) {
    t.initialized ==> t.storage in m.stores && t.offset + t.memorySize <= m.stores[t.storage].size
  }

  ghost predicate Valid(m: Machine) {
    (forall s :: s in m.stores ==> s < m.ids && m.stores[s].base + m.stores[s].size <= |m.memory|) &&
    (forall t :: t in m.tensors ==> t < m.ids && InStore(m, m.tensors[t]))
  }

  // A tensor whose storage covers its shape.
  ghost predicate Covered(m: Machine, t: nat) {
    t in m.tensors && m.tensors[t].initialized && ByteSize(m.tensors[t]) <= m.tensors[t].memorySize
  }

  function Address(m: Machine, t: nat): nat
    requires t in m.tensors && m.tensors[t].storage in m.stores
  {
    m.stores[m.tensors[t].storage].base + m.tensors[t].offset
  }

  function Contents(m: Machine, t: nat): (data: seq<byte>)
    requires Valid(m) && Covered(m, t)
    ensures |data| == ByteSize(m.tensors[t])
  {
    m.memory[Address(m, t)..Address(m, t) + ByteSize(m.tensors[t])]
  }

  predicate Overlaps(m: Machine, a: nat, b: nat)
    requires Valid(m) && Covered(m, a) && Covered(m, b)
  {
    ByteSize(m.tensors[a]) != 0 && ByteSize(m.tensors[b]) != 0 &&
    if Address(m, a) <= Address(m, b) then Address(m, b) - Address(m, a) < ByteSize(m.tensors[a])
    else Address(m, a) - Address(m, b) < ByteSize(m.tensors[b])
  }

  // An address both tensors' bytes cover.
  ghost predicate Shares(m: Machine, a: nat, b: nat, x: nat)
    requires Valid(m) && Covered(m, a) && Covered(m, b)
  {
    Address(m, a) <= x < Address(m, a) + ByteSize(m.tensors[a]) &&
      Address(m, b) <= x < Address(m, b) + ByteSize(m.tensors[b])
  }

  /** Two tensors overlap exactly if some address belongs to both. */
  lemma OverlapIsSharedByte(m: Machine, a: nat, b: nat)
    requires Valid(m) && Covered(m, a) && Covered(m, b)
    ensures Overlaps(m, a, b) <==> exists x: nat :: Shares(m, a, b, x)
  {
    if Overlaps(m, a, b) {
      assert Shares(m, a, b, if Address(m, a) < Address(m, b) then Address(m, b) else Address(m, a));
    }
  }

  /** The test agrees with its arguments swapped, and a tensor with bytes overlaps itself. */
  lemma OverlapsSymmetric(m: Machine, a: nat, b: nat)
    requires Valid(m) && Covered(m, a) && Covered(m, b)
    ensures Overlaps(m, a, b) <==> Overlaps(m, b, a)
    ensures a == b && ByteSize(m.tensors[a]) != 0 ==> Overlaps(m, a, b)
  {
  }

  // ---- The three ways to write a state ----

  // The storage of t is made writable: a read-only one is copied whole, for all its views.
  function Writable(m: Machine, t: nat): Machine
    requires Valid(m) && Covered(m, t)
  {
    var s := m.tensors[t].storage;
    var store := m.stores[s];
    if store.readOnly then
      m.(memory := m.memory + m.memory[store.base..store.base + store.size],
        stores := m.stores[s := Store(|m.memory|, store.size, false)])
    else m
  }

  function Poked(memory: seq<byte>, at: nat, data: seq<byte>): seq<byte>
    requires at + |data| <= |memory|
  {
    memory[..at] + data + memory[at + |data|..]
  }

  function Poke(m: Machine, at: nat, data: seq<byte>): Machine
    requires at + |data| <= |m.memory|
  {
    m.(memory := Poked(m.memory, at, data))
  }

  function Write(m: Machine, t: nat, data: seq<byte>): Machine
    requires Valid(m) && Covered(m, t) && |data| == ByteSize(m.tensors[t])
  {
    WritableKeeps(m, t);
    Poke(Writable(m, t), Address(Writable(m, t), t), data)
  }

  function Exchange(m: Machine, a: nat, b: nat): Machine
    requires a in m.tensors && b in m.tensors
  {
    var ta, tb := m.tensors[a], m.tensors[b];
    var first := m.tensors[a := ta.(storage := tb.storage, memorySize := tb.memorySize, offset := tb.offset)];
    m.(tensors := if a == b then m.tensors else first[b := tb.(storage := ta.storage, memorySize := ta.memorySize,
      offset := ta.offset)])
  }

  // Every view keeps its contents, and views that were apart stay apart.
  ghost predicate Keeps(m: Machine, n: Machine) {
    Valid(m) && Valid(n) && n.tensors == m.tensors &&
    (forall t :: Covered(m, t) ==> Contents(n, t) == Contents(m, t)) &&
    (forall t, u :: Covered(m, t) && Covered(m, u) && !Overlaps(m, t, u) ==> !Overlaps(n, t, u))
  }

  lemma CopiedSlice(memory: seq<byte>, base: nat, size: nat, from: nat, n: nat)
    requires base + size <= |memory| && from + n <= size
    ensures (memory + memory[base..base + size])[|memory| + from..|memory| + from + n] ==
      memory[base + from..base + from + n]
  {
    var copy, at := memory[base..base + size], |memory| + from;
    var left, right := (memory + copy)[at..at + n], memory[base + from..base + from + n];
    forall k | 0 <= k < n ensures left[k] == right[k] {
      assert (memory + copy)[at + k] == copy[from + k];
    }
  }

  lemma WritableValid(m: Machine, t: nat)
    requires Valid(m) && Covered(m, t)
    ensures Valid(Writable(m, t))
  {
    assert InStore(m, m.tensors[t]);
    forall u | u in m.tensors ensures InStore(Writable(m, t), m.tensors[u]) { assert InStore(m, m.tensors[u]); }
  }

  // A view of the storage that has been copied.
  lemma CopiedView(m: Machine, t: nat, u: nat, store: Store)
    requires Valid(m) && Covered(m, t) && Covered(m, u) && Valid(Writable(m, t))
    requires store == m.stores[m.tensors[t].storage] && store.readOnly && m.tensors[u].storage == m.tensors[t].storage
    ensures Contents(Writable(m, t), u) == Contents(m, u)
  {
    assert InStore(m, m.tensors[u]);
    CopiedSlice(m.memory, store.base, store.size, m.tensors[u].offset, ByteSize(m.tensors[u]));
  }

  // A view of another storage.
  lemma OtherView(m: Machine, t: nat, u: nat, store: Store)
    requires Valid(m) && Covered(m, t) && Covered(m, u) && Valid(Writable(m, t))
    requires store == m.stores[m.tensors[t].storage] && store.readOnly && m.tensors[u].storage != m.tensors[t].storage
    ensures Contents(Writable(m, t), u) == Contents(m, u)
  {
    assert InStore(m, m.tensors[u]) && InStore(m, m.tensors[t]);
    PrefixSlice(m.memory, m.memory[store.base..store.base + store.size], Address(m, u),
      Address(m, u) + ByteSize(m.tensors[u]));
  }

  lemma WritableView(m: Machine, t: nat, u: nat)
    requires Valid(m) && Covered(m, t) && Covered(m, u) && Valid(Writable(m, t))
    ensures Contents(Writable(m, t), u) == Contents(m, u)
  {
    var store := m.stores[m.tensors[t].storage];
    if !store.readOnly {
      assert Writable(m, t) == m;
    } else if m.tensors[u].storage == m.tensors[t].storage {
      CopiedView(m, t, u, store);
    } else {
      OtherView(m, t, u, store);
    }
  }

  lemma WritableKeeps(m: Machine, t: nat)
    requires Valid(m) && Covered(m, t)
    ensures Keeps(m, Writable(m, t))
  {
    WritableValid(m, t);
    forall u | Covered(m, u) ensures Contents(Writable(m, t), u) == Contents(m, u) { WritableView(m, t, u); }
  }

  lemma SliceElsewhere(memory: seq<byte>, at: nat, data: seq<byte>, from: nat, to: nat)
    requires at + |data| <= |memory| && from <= to <= |memory|
    requires |data| == 0 || from == to || to <= at || at + |data| <= from
    ensures (memory[..at] + data + memory[at + |data|..])[from..to] == memory[from..to]
  {
    if |data| == 0 { assert memory[..at] + data + memory[at + |data|..] == memory; }
  }

  lemma PokeElsewhere(m: Machine, at: nat, data: seq<byte>, u: nat)
    requires Valid(m) && Covered(m, u) && at + |data| <= |m.memory|
    requires |data| == 0 || ByteSize(m.tensors[u]) == 0 || Address(m, u) + ByteSize(m.tensors[u]) <= at ||
      at + |data| <= Address(m, u)
    ensures Valid(Poke(m, at, data)) && Contents(Poke(m, at, data), u) == Contents(m, u)
  {
    SliceElsewhere(m.memory, at, data, Address(m, u), Address(m, u) + ByteSize(m.tensors[u]));
  }

  lemma WriteEffect(m: Machine, t: nat, data: seq<byte>)
    requires Valid(m) && Covered(m, t) && |data| == ByteSize(m.tensors[t])
    ensures Valid(Write(m, t, data)) && Write(m, t, data).tensors == m.tensors && Contents(Write(m, t, data), t) == data
    ensures forall u :: Covered(m, u) && !Overlaps(m, t, u) ==> Contents(Write(m, t, data), u) == Contents(m, u)
    ensures forall u, v :: Covered(m, u) && Covered(m, v) && !Overlaps(m, u, v) ==> !Overlaps(Write(m, t, data), u, v)
  {
    WritableKeeps(m, t);
    var n := Writable(m, t);
    forall u | Covered(m, u) && !Overlaps(m, t, u) ensures Contents(Write(m, t, data), u) == Contents(m, u) {
      assert !Overlaps(n, t, u);
      PokeElsewhere(n, Address(n, t), data, u);
    }
  }

  // The same objects with the same shapes; only their views may have changed.
  ghost predicate SameShapes(m: Machine, n: Machine) {
    m.tensors.Keys <= n.tensors.Keys &&
    forall t :: t in m.tensors ==> n.tensors[t].dims == m.tensors[t].dims && n.tensors[t].dtype == m.tensors[t].dtype
  }

  function Other(a: nat, b: nat, t: nat): nat { if t == a then b else if t == b then a else t }

  lemma ExchangeView(m: Machine, a: nat, b: nat, t: nat)
    requires Valid(m) && Covered(m, a) && Covered(m, b) && ByteSize(m.tensors[a]) == ByteSize(m.tensors[b]) &&
      Covered(m, t)
    ensures Valid(Exchange(m, a, b)) && SameShapes(m, Exchange(m, a, b))
    ensures Covered(Exchange(m, a, b), t) && Covered(m, Other(a, b, t))
    ensures ByteSize(m.tensors[Other(a, b, t)]) == ByteSize(m.tensors[t]) == ByteSize(Exchange(m, a, b).tensors[t])
    ensures Address(Exchange(m, a, b), t) == Address(m, Other(a, b, t))
  {
    var n := Exchange(m, a, b);
    forall u | u in n.tensors ensures InStore(n, n.tensors[u]) {
      assert InStore(m, m.tensors[Other(a, b, u)]);
    }
  }

  lemma ExchangeEffect(m: Machine, a: nat, b: nat)
    requires Valid(m) && Covered(m, a) && Covered(m, b) && ByteSize(m.tensors[a]) == ByteSize(m.tensors[b])
    ensures Valid(Exchange(m, a, b)) && SameShapes(m, Exchange(m, a, b))
    ensures forall t :: Covered(m, t) ==> Covered(Exchange(m, a, b), t)
    ensures forall t :: Covered(m, t) ==>
      Covered(m, Other(a, b, t)) && Contents(Exchange(m, a, b), t) == Contents(m, Other(a, b, t))
    ensures forall t, u :: Covered(m, t) && Covered(m, u) ==>
      (Overlaps(Exchange(m, a, b), t, u) <==> Overlaps(m, Other(a, b, t), Other(a, b, u)))
  {
    ExchangeView(m, a, b, a);
    forall t | Covered(m, t)
      ensures Covered(Exchange(m, a, b), t) && Covered(m, Other(a, b, t)) &&
        Contents(Exchange(m, a, b), t) == Contents(m, Other(a, b, t))
    {
      ExchangeView(m, a, b, t);
    }
    forall t, u | Covered(m, t) && Covered(m, u)
      ensures Overlaps(Exchange(m, a, b), t, u) <==> Overlaps(m, Other(a, b, t), Other(a, b, u))
    {
      ExchangeView(m, a, b, t);
      ExchangeView(m, a, b, u);
    }
  }

  // ---- Cache rows ----

  // Each of `outer` rows loses its first block and gains a block of the appended tensor.
  function ShiftAppend(cache: seq<byte>, appended: seq<byte>, outer: nat, row: nat, block: nat): (r: seq<byte>)
    requires block <= row && |cache| == Times(outer, row) && |appended| == Times(outer, block)
    ensures |r| == |cache|
    decreases outer
  {
    if outer == 0 then []
    else
      cache[block..row] + appended[..block] + ShiftAppend(cache[row..], appended[block..], outer - 1, row, block)
  }

  // Row i of data made of rows of the given size.
  function Row(data: seq<byte>, row: nat, i: nat): (r: seq<byte>)
    requires Times(i + 1, row) <= |data|
    ensures |r| == row
    decreases i
  {
    if i == 0 then data[..row] else Row(data[row..], row, i - 1)
  }

  lemma {:induction false} RowInside(row: nat, i: nat, n: nat)
    requires i < n
    ensures Times(i + 1, row) <= Times(n, row)
  {
    if i + 1 < n { RowInside(row, i, n - 1); }
  }

  /** Row by row: the old row without its first block, then the appended block. */
  lemma {:induction false} ShiftAppendRows(cache: seq<byte>, appended: seq<byte>, outer: nat, row: nat, block: nat,
    i: nat)
    requires block <= row && |cache| == Times(outer, row) && |appended| == Times(outer, block) && i < outer
    ensures Times(i + 1, row) <= |cache| && Times(i + 1, block) <= |appended|
    ensures Row(ShiftAppend(cache, appended, outer, row, block), row, i) == Row(cache, row, i)[block..] + Row(appended,
      block, i)
    decreases outer
  {
    RowInside(row, i, outer);
    RowInside(block, i, outer);
    var result := ShiftAppend(cache, appended, outer, row, block);
    var rest := ShiftAppend(cache[row..], appended[block..], outer - 1, row, block);
    assert result[..row] == cache[block..row] + appended[..block];
    assert result[row..] == rest;
    if i > 0 {
      ShiftAppendRows(cache[row..], appended[block..], outer - 1, row, block, i - 1);
    }
  }

  lemma {:induction false} RowIsSlice(data: seq<byte>, row: nat, i: nat)
    requires Times(i + 1, row) <= |data|
    ensures i * row + row <= |data| && Row(data, row, i) == data[i * row..i * row + row]
    decreases i
  {
    TimesIsProduct(i + 1, row);
    if i > 0 {
      RowIsSlice(data[row..], row, i - 1);
      assert (i - 1) * row + row == i * row;
    }
  }

  // Row i without its first block, and the appended block behind it.
  ghost predicate RowShifted(after: seq<byte>, before: seq<byte>, appended: seq<byte>, row: nat, block: nat, i: nat) {
    var from, at := i * row, i * block;
    block <= row && from + row <= |before| == |after| && at + block <= |appended| &&
    after[from..from + row] == before[from + block..from + row] + appended[at..at + block]
  }

  lemma ShiftAppendShifts(cache: seq<byte>, appended: seq<byte>, outer: nat, row: nat, block: nat, i: nat)
    requires block <= row && |cache| == Times(outer, row) && |appended| == Times(outer, block) && i < outer
    ensures RowShifted(ShiftAppend(cache, appended, outer, row, block), cache, appended, row, block, i)
  {
    RowInside(row, i, outer);
    RowInside(block, i, outer);
    ShiftAppendRows(cache, appended, outer, row, block, i);
    RowIsSlice(ShiftAppend(cache, appended, outer, row, block), row, i);
    RowIsSlice(cache, row, i);
    RowIsSlice(appended, block, i);
  }

  // The bytes appended to row i over a run of advances.
  function Appended(outputs: seq<seq<byte>>, block: nat, i: nat, n: nat): seq<byte>
    requires n <= |outputs| && forall k :: 0 <= k < n ==> Times(i + 1, block) <= |outputs[k]|
  {
    if n == 0 then [] else Appended(outputs, block, i, n - 1) + Row(outputs[n - 1], block, i)
  }

  // Advance k shifts the outputs of run k into the cache.
  ghost predicate Shifts(caches: seq<seq<byte>>, outputs: seq<seq<byte>>, outer: nat, row: nat, block: nat, k: nat)
    requires k < |outputs| && k + 1 < |caches|
  {
    block <= row && |caches[k]| == |caches[k + 1]| == Times(outer, row) && |outputs[k]| == Times(outer, block) &&
    caches[k + 1] == ShiftAppend(caches[k], outputs[k], outer, row, block)
  }

  /**
   Sliding window. After n advances each row of the cache is the last `row` bytes of
   its initial contents followed by everything appended to it since.
   */
  lemma {:induction false} CacheIsWindow(caches: seq<seq<byte>>, outputs: seq<seq<byte>>, outer: nat, row: nat,
    block: nat, i: nat, n: nat)
    requires n < |caches| && n <= |outputs| && i < outer && |caches[0]| == Times(outer, row)
    requires forall k: nat :: k < n ==> Shifts(caches, outputs, outer, row, block, k)
    ensures |caches[n]| == Times(outer, row) && Times(i + 1, row) <= Times(outer, row)
    ensures forall k: nat :: k < n ==> Times(i + 1, block) <= |outputs[k]|
    ensures Row(caches[n], row, i) == Tail(Row(caches[0], row, i) + Appended(outputs, block, i, n), row)
  {
    RowInside(row, i, outer);
    RowInside(block, i, outer);
    forall k: nat | k < n
      ensures Times(i + 1, block) <= |outputs[k]|
    {
      assert Shifts(caches, outputs, outer, row, block, k);
    }
    if n > 0 {
      CacheIsWindow(caches, outputs, outer, row, block, i, n - 1);
      assert Shifts(caches, outputs, outer, row, block, n - 1);
      ShiftAppendRows(caches[n - 1], outputs[n - 1], outer, row, block, i);
      TailShifts(Row(caches[0], row, i), Appended(outputs, block, i, n - 1), Row(outputs[n - 1], block, i), row);
    } else {
      assert Row(caches[0], row, i) + [] == Row(caches[0], row, i);
    }
  }

  function Tail(s: seq<byte>, n: nat): seq<byte>
    requires n <= |s|
  {
    s[|s| - n..]
  }

  lemma TailShifts(first: seq<byte>, added: seq<byte>, more: seq<byte>, row: nat)
    requires |first| == row && |more| <= row
    ensures Tail(first + (added + more), row) == Tail(first + added, row)[|more|..] + more
  {
    assert first + (added + more) == (first + added) + more;
  }

  // ---- Bindings and updates ----

  // A recurrent binding has no cache axis.
  datatype Binding = Binding(input: string, output: string, axis: Option<nat>, stable: bool)

  datatype Update = Update(axis: Option<nat>, input: nat, output: nat, snapshot: bool, stable: bool)

  predicate Sizeable(t: Tensor) {
    match t.dtype
    case Packed => true
    case Sized(width) => width > 0 && Times(Count(t.dims), width) <= SIZE_MAX
  }

  predicate DimsMatch(axis: Option<nat>, a: seq<int>, b: seq<int>) {
    |a| == |b| &&
    match axis
    case None => a == b
    case Some(k) => k < |a| && a[k] > 1 && b[k] == 1 && forall i :: 0 <= i < |a| && i != k ==> a[i] == b[i]
  }

  ghost predicate TensorsMatch(axis: Option<nat>, a: Tensor, b: Tensor) {
    a.initialized && b.initialized && !a.immutable && a.dtype == b.dtype && a.meta == b.meta &&
      DimsMatch(axis, a.dims, b.dims) &&
    ValidShape(a.dims) && ValidShape(b.dims) && Sizeable(a) && Sizeable(b) &&
    ByteSize(a) <= a.memorySize && ByteSize(b) <= b.memorySize
  }

  ghost predicate Matches(m: Machine, u: Update) {
    u.input in m.tensors && u.output in m.tensors && TensorsMatch(u.axis, m.tensors[u.input], m.tensors[u.output])
  }

  // A cache update cannot address rows of a packed type.
  predicate Appendable(m: Machine, u: Update)
    requires u.input in m.tensors
  {
    u.axis.Some? ==> m.tensors[u.input].dtype.Sized?
  }

  function Outer(t: Tensor, axis: nat): nat
    requires axis < |t.dims|
  {
    Count(t.dims[..axis])
  }

  function Block(t: Tensor, axis: nat): nat
    requires axis < |t.dims| && t.dtype.Sized?
  {
    Times(Count(t.dims[axis + 1..]), t.dtype.width)
  }

  function RowSize(t: Tensor, axis: nat): nat
    requires axis < |t.dims| && t.dtype.Sized? && t.dims[axis] >= 0
  {
    Times(t.dims[axis], Block(t, axis))
  }

  lemma {:induction false} ProductConcat(a: seq<int>, b: seq<int>)
    ensures Product(a + b) == Product(a) * Product(b)
  {
    if b == [] {
      assert a + b == a;
    } else {
      var init, last := b[..|b| - 1], b[|b| - 1];
      ProductConcat(a, init);
      assert (a + b)[..|a + b| - 1] == a + init;
      assert Product(a) * (Product(init) * last) == (Product(a) * Product(init)) * last;
    }
  }

  lemma {:induction false} ProductNonnegative(a: seq<int>)
    requires forall i :: 0 <= i < |a| ==> a[i] >= 0
    ensures Product(a) >= 0
  {
    if a != [] { ProductNonnegative(a[..|a| - 1]); }
  }

  lemma ProductAt(a: seq<int>, k: nat)
    requires k < |a| && forall i :: 0 <= i < |a| ==> a[i] >= 0
    ensures Count(a) == Count(a[..k]) * (a[k] * Count(a[k + 1..]))
  {
    assert a == a[..k] + ([a[k]] + a[k + 1..]);
    ProductConcat(a[..k], [a[k]] + a[k + 1..]);
    ProductConcat([a[k]], a[k + 1..]);
    assert [a[k]][..0] == [];
    assert Product([a[k]]) == a[k];
    ProductNonnegative(a);
    ProductNonnegative(a[..k]);
    ProductNonnegative(a[k + 1..]);
  }

  lemma RowSizes(outer: nat, slots: nat, inner: nat, width: nat)
    requires slots > 0
    ensures (outer * (slots * inner)) * width == outer * (slots * (inner * width))
    ensures (outer * (1 * inner)) * width == outer * (inner * width)
    ensures inner * width <= slots * (inner * width)
  {
    var block := inner * width;
    assert (outer * (slots * inner)) * width == outer * ((slots * inner) * width);
    assert (slots * inner) * width == slots * block;
    assert slots * block == block + (slots - 1) * block;
  }

  /** The layout of a tensor around an axis: how many rows, and the bytes of a row and of an entry. */
  lemma CacheLayout(axis: nat, t: Tensor)
    requires axis < |t.dims| && t.dtype.Sized? && forall i :: 0 <= i < |t.dims| ==> t.dims[i] >= 0
    ensures Outer(t, axis) == Product(t.dims[..axis])
    ensures Block(t, axis) == Product(t.dims[axis + 1..]) * t.dtype.width
    ensures RowSize(t, axis) == t.dims[axis] * Block(t, axis)
  {
    ProductNonnegative(t.dims[..axis]);
    ProductNonnegative(t.dims[axis + 1..]);
    TimesIsProduct(Count(t.dims[axis + 1..]), t.dtype.width);
    TimesIsProduct(t.dims[axis], Block(t, axis));
  }

  /** The byte sizes of a cache and of what is appended to it, in rows. */
  lemma CacheSizes(axis: nat, a: Tensor, b: Tensor)
    requires TensorsMatch(Some(axis), a, b) && a.dtype.Sized?
    ensures axis < |a.dims| && a.dims[axis] > 1
    ensures var outer, block := Outer(a, axis), Block(a, axis);
      ByteSize(a) == Times(outer, RowSize(a, axis)) && ByteSize(b) == Times(outer, block) &&
      block <= RowSize(a, axis)
  {
    var outer, inner, width := Outer(a, axis), Count(a.dims[axis + 1..]), a.dtype.width;
    forall i | 0 <= i < |a.dims|
      ensures a.dims[i] >= 0 && b.dims[i] >= 0
    {
      assert a.dims[i] in a.dims && b.dims[i] in b.dims;
    }
    ProductAt(a.dims, axis);
    ProductAt(b.dims, axis);
    assert b.dims[..axis] == a.dims[..axis] && b.dims[axis + 1..] == a.dims[axis + 1..];
    TimesIsProduct(Count(a.dims), width);
    TimesIsProduct(Count(b.dims), width);
    RowSizes(outer, a.dims[axis], inner, width);
    TimesIsProduct(inner, width);
    TimesIsProduct(a.dims[axis], inner * width);
    TimesIsProduct(outer, a.dims[axis] * (inner * width));
    TimesIsProduct(outer, inner * width);
  }

  // The state an update is meant to install.
  function NewState(m: Machine, u: Update): (data: seq<byte>)
    requires Valid(m) && Matches(m, u) && Appendable(m, u)
    ensures |data| == ByteSize(m.tensors[u.input])
  {
    match u.axis
    case None => Contents(m, u.output)
    case Some(axis) =>
      var a := m.tensors[u.input];
      CacheSizes(axis, a, m.tensors[u.output]);
      ShiftAppend(Contents(m, u.input), Contents(m, u.output), Outer(a, axis), RowSize(a, axis), Block(a, axis))
  }

  predicate SameView(a: Tensor, b: Tensor) { a.storage == b.storage && a.offset == b.offset }

  // A recurrent update that moves no bytes.
  predicate Idle(m: Machine, u: Update, planned: bool)
    requires u.input in m.tensors && u.output in m.tensors
  {
    u.input == u.output || SameView(m.tensors[u.input], m.tensors[u.output]) ||
    ((planned || u.stable) && ByteSize(m.tensors[u.input]) == 0)
  }

  // One validated update: nothing, an exchange of storage, or a write.
  function Apply(m: Machine, u: Update, planned: bool): Machine
    requires Valid(m) && Matches(m, u) && Appendable(m, u)
  {
    if u.axis.None? then
      if Idle(m, u, planned) then m
      else if planned || u.stable then Write(m, u.input, Contents(m, u.output))
      else Exchange(m, u.input, u.output)
    else Write(m, u.input, NewState(m, u))
  }

  // ---- Why one at a time is all at once ----

  ghost predicate Ready(m: Machine, us: seq<Update>) {
    Valid(m) && forall i :: 0 <= i < |us| ==> Matches(m, us[i]) && Appendable(m, us[i])
  }

  ghost predicate Apart(m: Machine, a: nat, b: nat) {
    Valid(m) && Covered(m, a) && Covered(m, b) && !Overlaps(m, a, b)
  }

  // Updates i and j, of which those from k on are still to come, do not interfere.
  ghost predicate PairApart(m: Machine, us: seq<Update>, i: nat, j: nat, k: nat)
    requires i < |us| && j < |us|
  {
    (i != j ==> Apart(m, us[i].input, us[j].input)) &&
    (k <= j ==> Apart(m, us[i].input, us[j].output)) &&
    (i != j && k <= i && k <= j ==> Apart(m, us[i].output, us[j].output))
  }

  ghost predicate Separated(m: Machine, us: seq<Update>, k: nat) {
    forall i, j :: 0 <= i < |us| && 0 <= j < |us| ==> PairApart(m, us, i, j, k)
  }

  // What one update leaves untouched.
  ghost predicate Untouched(m: Machine, n: Machine, us: seq<Update>, k: nat)
    requires Ready(m, us) && Ready(n, us)
  {
    (forall i :: 0 <= i < |us| && i != k ==> Contents(n, us[i].input) == Contents(m, us[i].input)) &&
    (forall j :: k < j < |us| ==> Contents(n, us[j].output) == Contents(m, us[j].output)) && SameShapes(m, n)
  }

  lemma WriteStep(m: Machine, us: seq<Update>, k: nat, data: seq<byte>)
    requires Ready(m, us) && k < |us| && Separated(m, us, k) && |data| == ByteSize(m.tensors[us[k].input])
    ensures var n := Write(m, us[k].input, data);
      Ready(n, us) && Separated(n, us, k + 1) && Contents(n, us[k].input) == data && Untouched(m, n, us, k)
  {
    WriteEffect(m, us[k].input, data);
    var n := Write(m, us[k].input, data);
    var next := k + 1;
    forall i, j | 0 <= i < |us| && 0 <= j < |us|
      ensures PairApart(n, us, i, j, next)
    {
      assert PairApart(m, us, i, j, k);
    }
    forall i | 0 <= i < |us| && i != k
      ensures Contents(n, us[i].input) == Contents(m, us[i].input)
    {
      assert PairApart(m, us, k, i, k);
    }
    forall j | k < j < |us|
      ensures Contents(n, us[j].output) == Contents(m, us[j].output)
    {
      assert PairApart(m, us, k, j, k);
    }
  }

  // A tensor apart from both exchanged ones either is neither of them or has no bytes.
  lemma ExchangeApart(m: Machine, a: nat, b: nat, t: nat, u: nat)
    requires Valid(m) && Covered(m, a) && Covered(m, b) && ByteSize(m.tensors[a]) == ByteSize(m.tensors[b])
    requires Apart(m, t, u)
    requires t != a ==> Apart(m, a, t)
    requires u != a ==> Apart(m, a, u)
    requires Apart(m, t, b) && Apart(m, u, b)
    ensures Apart(Exchange(m, a, b), t, u)
  {
    ExchangeEffect(m, a, b);
    assert Overlaps(Exchange(m, a, b), t, u) <==> Overlaps(m, Other(a, b, t), Other(a, b, u));
  }

  lemma ExchangePair(m: Machine, us: seq<Update>, k: nat, i: nat, j: nat)
    requires Ready(m, us) && k < |us| && Separated(m, us, k) && us[k].axis.None? && i < |us| && j < |us|
    ensures PairApart(Exchange(m, us[k].input, us[k].output), us, i, j, k + 1)
  {
    var a, b := us[k].input, us[k].output;
    assert PairApart(m, us, i, j, k) && PairApart(m, us, k, i, k) && PairApart(m, us, k, j, k);
    assert PairApart(m, us, i, k, k) && PairApart(m, us, j, k, k);
    if i != j { ExchangeApart(m, a, b, us[i].input, us[j].input); }
    if k < j { ExchangeApart(m, a, b, us[i].input, us[j].output); }
    if i != j && k < i && k < j { ExchangeApart(m, a, b, us[i].output, us[j].output); }
  }

  // A tensor apart from both exchanged ones keeps its contents.
  lemma ExchangeKeeps(m: Machine, a: nat, b: nat, t: nat)
    requires Valid(m) && Covered(m, a) && Covered(m, b) && ByteSize(m.tensors[a]) == ByteSize(m.tensors[b])
    requires Apart(m, a, t) && Apart(m, t, b)
    ensures Valid(Exchange(m, a, b)) && Covered(Exchange(m, a, b), t) &&
      Contents(Exchange(m, a, b), t) == Contents(m, t)
  {
    ExchangeEffect(m, a, b);
    assert Contents(Exchange(m, a, b), t) == Contents(m, Other(a, b, t));
  }

  lemma ExchangeReady(m: Machine, us: seq<Update>, k: nat)
    requires Ready(m, us) && k < |us| && us[k].axis.None?
    ensures Ready(Exchange(m, us[k].input, us[k].output), us)
  {
    ExchangeEffect(m, us[k].input, us[k].output);
    forall i | 0 <= i < |us| ensures Matches(Exchange(m, us[k].input, us[k].output), us[i]) && Appendable(m, us[i]) {
      assert Covered(m, us[i].input) && Covered(m, us[i].output);
    }
  }

  // The exchanged tensor takes over the role of the destination.
  lemma ExchangeStep(m: Machine, us: seq<Update>, k: nat)
    requires Ready(m, us) && k < |us| && Separated(m, us, k) && us[k].axis.None?
    ensures var n := Exchange(m, us[k].input, us[k].output);
      Ready(n, us) && Separated(n, us, k + 1) && Contents(n, us[k].input) == Contents(m, us[k].output) &&
        Untouched(m, n, us, k)
  {
    var a, b := us[k].input, us[k].output;
    var n := Exchange(m, a, b);
    ExchangeReady(m, us, k);
    var next := k + 1;
    forall i, j | 0 <= i < |us| && 0 <= j < |us| ensures PairApart(n, us, i, j, next) { ExchangePair(m, us, k, i, j); }
    forall i | 0 <= i < |us| && i != k ensures Contents(n, us[i].input) == Contents(m, us[i].input) {
      assert PairApart(m, us, k, i, k) && PairApart(m, us, i, k, k);
      ExchangeKeeps(m, a, b, us[i].input);
    }
    forall j | k < j < |us| ensures Contents(n, us[j].output) == Contents(m, us[j].output) {
      assert PairApart(m, us, k, j, k) && PairApart(m, us, j, k, k);
      ExchangeKeeps(m, a, b, us[j].output);
    }
    ExchangeEffect(m, a, b);
    assert Contents(n, a) == Contents(m, Other(a, b, a));
  }

  // Update k has installed its state and disturbed nothing that is still needed.
  ghost predicate Installs(m: Machine, n: Machine, us: seq<Update>, k: nat) {
    Ready(m, us) && Ready(n, us) && k < |us| && Separated(n, us, k + 1) &&
    Contents(n, us[k].input) == NewState(m, us[k]) && Untouched(m, n, us, k)
  }

  lemma ApplyStep(m: Machine, us: seq<Update>, k: nat, planned: bool)
    requires Ready(m, us) && k < |us| && Separated(m, us, k)
    ensures Installs(m, Apply(m, us[k], planned), us, k)
  {
    var u := us[k];
    if u.axis.None? {
      if Idle(m, u, planned) {
        var next := k + 1;
        forall i, j | 0 <= i < |us| && 0 <= j < |us|
          ensures PairApart(m, us, i, j, next)
        {
          assert PairApart(m, us, i, j, k);
        }
      } else if planned || u.stable {
        WriteStep(m, us, k, Contents(m, u.output));
      } else {
        ExchangeStep(m, us, k);
      }
    } else {
      WriteStep(m, us, k, NewState(m, u));
    }
  }

  // Of the updates computed on `start`, the first k are installed and the others can still be.
  ghost predicate Installed(start: Machine, m: Machine, us: seq<Update>, k: nat) {
    Ready(start, us) && Ready(m, us) && k <= |us| && Separated(m, us, k) && SameShapes(start, m) &&
    (forall i :: 0 <= i < k ==> Contents(m, us[i].input) == NewState(start, us[i])) &&
    (forall i :: k <= i < |us| ==> NewState(m, us[i]) == NewState(start, us[i]))
  }

  lemma NewStateStays(m: Machine, n: Machine, us: seq<Update>, k: nat, j: nat)
    requires Ready(m, us) && Ready(n, us) && Untouched(m, n, us, k) && k < j < |us|
    ensures NewState(n, us[j]) == NewState(m, us[j])
  {
  }

  /** Applying the updates one at a time installs, in every destination, the state computed before the first of them. */
  lemma OneMoreInstalled(start: Machine, m: Machine, n: Machine, us: seq<Update>, k: nat)
    requires Installed(start, m, us, k) && Installs(m, n, us, k)
    ensures Installed(start, n, us, k + 1)
  {
    forall j | k < j < |us| ensures NewState(n, us[j]) == NewState(start, us[j]) { NewStateStays(m, n, us, k, j); }
  }

  // ---- Snapshots ----

  // A new tensor with its own storage and a copy of t's contents.
  function Snapshot(m: Machine, t: nat): Machine
    requires Valid(m) && Covered(m, t)
  {
    var source, size := m.tensors[t], ByteSize(m.tensors[t]);
    Machine(m.memory + Contents(m, t), m.stores[m.ids := Store(|m.memory|, size, false)],
      m.tensors[m.ids := source.(storage := m.ids, offset := 0, memorySize := size, immutable := false)], m.ids + 1)
  }

  lemma SnapshotValid(m: Machine, t: nat)
    requires Valid(m) && Covered(m, t)
    ensures Valid(Snapshot(m, t)) && SameShapes(m, Snapshot(m, t)) && m.ids !in m.tensors
  {
    var n := Snapshot(m, t);
    forall u | u in n.tensors ensures InStore(n, n.tensors[u]) { assert u == m.ids || InStore(m, m.tensors[u]); }
  }

  lemma SnapshotCopies(m: Machine, t: nat)
    requires Valid(m) && Covered(m, t) && Valid(Snapshot(m, t))
    ensures Covered(Snapshot(m, t), m.ids) && Contents(Snapshot(m, t), m.ids) == Contents(m, t)
  {
    assert (m.memory + Contents(m, t))[|m.memory|..|m.memory| + ByteSize(m.tensors[t])] == Contents(m, t);
  }

  lemma PrefixSlice(memory: seq<byte>, more: seq<byte>, from: nat, to: nat)
    requires from <= to <= |memory|
    ensures (memory + more)[from..to] == memory[from..to]
  {
  }

  // Every older view is kept and lies apart from the copy.
  lemma SnapshotView(m: Machine, t: nat, u: nat)
    requires Valid(m) && Covered(m, t) && Covered(m, u) && Valid(Snapshot(m, t))
    ensures u != m.ids && Snapshot(m, t).tensors[u] == m.tensors[u] && Covered(Snapshot(m, t), u)
    ensures Address(Snapshot(m, t), u) == Address(m, u)
    ensures Contents(Snapshot(m, t), u) == Contents(m, u)
    ensures Apart(Snapshot(m, t), u, m.ids) && Apart(Snapshot(m, t), m.ids, u)
  {
    assert InStore(m, m.tensors[u]);
    PrefixSlice(m.memory, Contents(m, t), Address(m, u), Address(m, u) + ByteSize(m.tensors[u]));
  }

  lemma SnapshotApart(m: Machine, t: nat, u: nat, v: nat)
    requires Valid(m) && Covered(m, t) && Valid(Snapshot(m, t)) && Apart(m, u, v)
    ensures Apart(Snapshot(m, t), u, v)
  {
    SnapshotView(m, t, u);
    SnapshotView(m, t, v);
  }

  // Update j reads its own output or a snapshot already taken.
  ghost predicate Resolved(us: seq<Update>, k: nat, j: nat)
    requires j < |us|
  {
    j < k || !us[j].snapshot
  }

  ghost predicate PairSettled(m: Machine, us: seq<Update>, i: nat, j: nat, k: nat)
    requires i < |us| && j < |us|
  {
    (i != j ==> Apart(m, us[i].input, us[j].input)) &&
    (Resolved(us, k, j) ==> Apart(m, us[i].input, us[j].output)) &&
    (i != j && Resolved(us, k, i) && Resolved(us, k, j) ==> Apart(m, us[i].output, us[j].output))
  }

  // Update u, redirected to a copy of its source, will install what f was meant to install.
  ghost predicate Carries(start: Machine, f: Update, m: Machine, u: Update) {
    Valid(start) && Matches(start, f) && Appendable(start, f) && Valid(m) && Matches(m, u) && Appendable(m, u) &&
    u.(output := f.output) == f && NewState(m, u) == NewState(start, f)
  }

  ghost predicate AllCarry(start: Machine, first: seq<Update>, m: Machine, us: seq<Update>) {
    |us| == |first| && forall i :: 0 <= i < |us| ==> Carries(start, first[i], m, us[i])
  }

  // The first k snapshots have been taken.
  ghost predicate Snapped(start: Machine, first: seq<Update>, m: Machine, us: seq<Update>, k: nat) {
    Valid(m) && k <= |us| && SameShapes(start, m) &&
    AllCarry(start, first, m, us) && AllSettled(m, us, k)
  }

  lemma SnapCarries(start: Machine, f: Update, m: Machine, u: Update, t: nat)
    requires Carries(start, f, m, u) && Covered(m, t) && Valid(Snapshot(m, t)) && Valid(m)
    ensures Carries(start, f, Snapshot(m, t), u)
  {
    SnapshotView(m, t, u.input);
    SnapshotView(m, t, u.output);
  }

  lemma SnapRedirects(start: Machine, f: Update, m: Machine, u: Update)
    requires Carries(start, f, m, u) && Valid(Snapshot(m, u.output))
    ensures Carries(start, f, Snapshot(m, u.output), u.(output := m.ids))
  {
    SnapshotView(m, u.output, u.input);
    SnapshotCopies(m, u.output);
  }

  // Snapshotting t, one of the sources, cannot bring two tensors together.
  lemma SnapPair(m: Machine, us: seq<Update>, k: nat, i: nat, j: nat)
    requires Valid(m) && k < |us| && us[k].snapshot && i < |us| && j < |us| && PairSettled(m, us, i, j, k)
    requires Covered(m, us[k].output) && Valid(Snapshot(m, us[k].output))
    requires Covered(m, us[i].input) && Covered(m, us[i].output) && Covered(m, us[j].output)
    ensures PairSettled(Snapshot(m, us[k].output), us[k := us[k].(output := m.ids)], i, j, k + 1)
  {
    var t := us[k].output;
    SnapshotView(m, t, us[i].input);
    SnapshotView(m, t, us[i].output);
    SnapshotView(m, t, us[j].output);
    if i != j { SnapshotApart(m, t, us[i].input, us[j].input); }
    if Resolved(us, k, j) { SnapshotApart(m, t, us[i].input, us[j].output); }
    if i != j && Resolved(us, k, i) && Resolved(us, k, j) { SnapshotApart(m, t, us[i].output, us[j].output); }
  }

  lemma SnapCarriesAll(start: Machine, first: seq<Update>, m: Machine, us: seq<Update>, k: nat)
    requires Snapped(start, first, m, us, k) && k < |us| && Covered(m, us[k].output) && Valid(Snapshot(m, us[k].output))
    ensures AllCarry(start, first, Snapshot(m, us[k].output), us[k := us[k].(output := m.ids)])
  {
    var n, vs := Snapshot(m, us[k].output), us[k := us[k].(output := m.ids)];
    forall i | 0 <= i < |us| ensures Carries(start, first[i], n, vs[i]) {
      assert Carries(start, first[i], m, us[i]);
      if i == k { SnapRedirects(start, first[k], m, us[k]); } else {
        SnapCarries(start, first[i], m, us[i], us[k].output);
      }
    }
  }

  ghost predicate AllSettled(m: Machine, us: seq<Update>, k: nat) {
    forall i, j :: 0 <= i < |us| && 0 <= j < |us| ==> PairSettled(m, us, i, j, k)
  }

  lemma SnapPairs(start: Machine, first: seq<Update>, m: Machine, us: seq<Update>, k: nat)
    requires Snapped(start, first, m, us, k) && k < |us| && us[k].snapshot && Covered(m, us[k].output) &&
      Valid(Snapshot(m, us[k].output))
    ensures AllSettled(Snapshot(m, us[k].output), us[k := us[k].(output := m.ids)], k + 1)
  {
    var n, vs, next := Snapshot(m, us[k].output), us[k := us[k].(output := m.ids)], k + 1;
    forall i, j | 0 <= i < |us| && 0 <= j < |us| ensures PairSettled(n, vs, i, j, next) {
      assert Carries(start, first[i], m, us[i]) && Carries(start, first[j], m, us[j]);
      SnapPair(m, us, k, i, j);
    }
  }

  /** Taking a snapshot keeps every update installable and brings no two of them together. */
  lemma SnapStep(start: Machine, first: seq<Update>, m: Machine, us: seq<Update>, k: nat)
    requires Snapped(start, first, m, us, k) && k < |us| && us[k].snapshot
    ensures Snapped(start, first, Snapshot(m, us[k].output), us[k := us[k].(output := m.ids)], k + 1)
  {
    assert Carries(start, first[k], m, us[k]);
    SnapshotValid(m, us[k].output);
    SnapCarriesAll(start, first, m, us, k);
    SnapPairs(start, first, m, us, k);
  }

  lemma SkipPair(m: Machine, us: seq<Update>, k: nat, i: nat, j: nat)
    requires k < |us| && !us[k].snapshot && i < |us| && j < |us| && PairSettled(m, us, i, j, k)
    ensures PairSettled(m, us, i, j, k + 1)
  {
  }

  lemma SkipStep(start: Machine, first: seq<Update>, m: Machine, us: seq<Update>, k: nat)
    requires Snapped(start, first, m, us, k) && k < |us| && !us[k].snapshot
    ensures Snapped(start, first, m, us, k + 1)
  {
    var next := k + 1;
    forall i, j | 0 <= i < |us| && 0 <= j < |us| ensures PairSettled(m, us, i, j, next) { SkipPair(m, us, k, i, j); }
  }

  lemma SnappedIsInstallable(start: Machine, first: seq<Update>, m: Machine, us: seq<Update>)
    requires Snapped(start, first, m, us, |us|)
    ensures Installed(m, m, us, 0)
  {
    forall i, j | 0 <= i < |us| && 0 <= j < |us|
      ensures PairApart(m, us, i, j, 0)
    {
      assert PairSettled(m, us, i, j, |us|);
    }
  }

  // ---- Bystanders ----

  // A tensor that shares no byte with any destination or source.
  ghost predicate Bystander(m: Machine, us: seq<Update>, t: nat) {
    forall i :: 0 <= i < |us| ==> Apart(m, us[i].input, t) && Apart(m, t, us[i].output)
  }

  lemma StaysApart(m: Machine, a: nat, b: nat, x: nat, t: nat)
    requires Valid(m) && Covered(m, a) && Covered(m, b) && ByteSize(m.tensors[a]) == ByteSize(m.tensors[b])
    requires Apart(m, a, t) && Apart(m, t, b) && (Apart(m, x, t) || Apart(m, t, x))
    ensures Apart(Exchange(m, a, b), x, t) && Apart(Exchange(m, a, b), t, x)
  {
    ExchangeEffect(m, a, b);
    assert Overlaps(Exchange(m, a, b), x, t) <==> Overlaps(m, Other(a, b, x), Other(a, b, t));
    OverlapsSymmetric(m, Other(a, b, x), Other(a, b, t));
    OverlapsSymmetric(m, x, t);
    OverlapsSymmetric(m, b, t);
    OverlapsSymmetric(Exchange(m, a, b), x, t);
  }

  lemma BystanderKept(m: Machine, us: seq<Update>, k: nat, planned: bool, t: nat)
    requires Ready(m, us) && k < |us| && Bystander(m, us, t)
    ensures Bystander(Apply(m, us[k], planned), us, t) && Contents(Apply(m, us[k], planned), t) == Contents(m, t)
  {
    var u := us[k];
    if u.axis.None? && (Idle(m, u, planned) || !(planned || u.stable)) {
      if !Idle(m, u, planned) {
        ExchangeKeeps(m, u.input, u.output, t);
        forall i | 0 <= i < |us|
          ensures Apart(Exchange(m, u.input, u.output), us[i].input, t) &&
            Apart(Exchange(m, u.input, u.output), t, us[i].output)
        {
          StaysApart(m, u.input, u.output, us[i].input, t);
          StaysApart(m, u.input, u.output, us[i].output, t);
        }
      }
    } else {
      WriteEffect(m, u.input, NewState(m, u));
    }
  }

  lemma BystanderSnapped(m: Machine, us: seq<Update>, k: nat, t: nat)
    requires Valid(m) && k < |us| && Covered(m, us[k].output) && Valid(Snapshot(m, us[k].output)) && Covered(m, t) &&
      Bystander(m, us, t)
    ensures Bystander(Snapshot(m, us[k].output), us[k := us[k].(output := m.ids)], t)
    ensures Covered(Snapshot(m, us[k].output), t) && Contents(Snapshot(m, us[k].output), t) == Contents(m, t)
  {
    SnapshotView(m, us[k].output, t);
    var n, vs := Snapshot(m, us[k].output), us[k := us[k].(output := m.ids)];
    forall i | 0 <= i < |us| ensures Apart(n, vs[i].input, t) && Apart(n, t, vs[i].output) {
      SnapshotApart(m, us[k].output, us[i].input, t);
      SnapshotApart(m, us[k].output, t, us[i].output);
    }
  }

  // Bystanders of the batch hold what they held.
  ghost predicate Undisturbed(start: Machine, first: seq<Update>, m: Machine, us: seq<Update>)
    requires Valid(start) && Valid(m)
  {
    forall t :: Covered(start, t) && Bystander(start, first, t) ==>
      Covered(m, t) && Bystander(m, us, t) && Contents(m, t) == Contents(start, t)
  }

  lemma UndisturbedBySnapshot(start: Machine, first: seq<Update>, m: Machine, us: seq<Update>, k: nat)
    requires Valid(start) && Valid(m) && Undisturbed(start, first, m, us)
    requires k < |us| && Covered(m, us[k].output) && Valid(Snapshot(m, us[k].output))
    ensures Undisturbed(start, first, Snapshot(m, us[k].output), us[k := us[k].(output := m.ids)])
  {
    forall t | Covered(start, t) && Bystander(start, first, t)
      ensures Bystander(Snapshot(m, us[k].output), us[k := us[k].(output := m.ids)], t)
      ensures Covered(Snapshot(m, us[k].output), t) && Contents(Snapshot(m, us[k].output), t) == Contents(start, t)
    {
      BystanderSnapped(m, us, k, t);
    }
  }

  lemma UndisturbedByUpdate(start: Machine, first: seq<Update>, m: Machine, us: seq<Update>, k: nat, planned: bool)
    requires Valid(start) && Ready(m, us) && Undisturbed(start, first, m, us) && k < |us| &&
      Ready(Apply(m, us[k], planned), us)
    ensures Undisturbed(start, first, Apply(m, us[k], planned), us)
  {
    forall t | Covered(start, t) && Bystander(start, first, t)
      ensures Bystander(Apply(m, us[k], planned), us, t)
      ensures Covered(Apply(m, us[k], planned), t) && Contents(Apply(m, us[k], planned), t) == Contents(start, t)
    {
      assert Covered(m, t) && Bystander(m, us, t);
      BystanderKept(m, us, k, planned, t);
      assert Apart(Apply(m, us[k], planned), us[k].input, t);
    }
  }

  // ---- Flags ----

  // Update i's source overlaps what update j reads or writes.
  predicate Hits(m: Machine, us: seq<Update>, i: nat, j: nat)
    requires Ready(m, us) && i < |us| && j < |us|
  {
    Overlaps(m, us[i].output, us[j].input) || Overlaps(m, us[i].output, us[j].output)
  }

  ghost predicate NeedsSnapshot(m: Machine, us: seq<Update>, i: nat)
    requires Ready(m, us) && i < |us|
  {
    Overlaps(m, us[i].input, us[i].output) || exists j :: 0 <= j < |us| && j != i && Hits(m, us, i, j)
  }

  // Two updates write overlapping destinations.
  ghost predicate Clash(m: Machine, us: seq<Update>)
    requires Ready(m, us)
  {
    exists i, j :: 0 <= i < |us| && 0 <= j < |us| && i != j && Overlaps(m, us[i].input, us[j].input)
  }

  // The flags set for a batch without clashes: exactly the aliased sources are snapshotted,
  // and an update whose source or destination another update meets keeps its storage.
  ghost predicate Flagged(m: Machine, us: seq<Update>, flagged: seq<Update>)
    requires Ready(m, us)
  {
    |flagged| == |us| &&
    forall i :: 0 <= i < |us| ==>
      flagged[i] == us[i].(snapshot := flagged[i].snapshot, stable := flagged[i].stable) &&
      (flagged[i].snapshot <==> NeedsSnapshot(m, us, i)) &&
      (flagged[i].stable <==>
        us[i].stable || NeedsSnapshot(m, us, i) || exists p :: 0 <= p < |us| && p != i && Hits(m, us, p, i))
  }

  lemma FlaggedIsSettled(m: Machine, us: seq<Update>, flagged: seq<Update>)
    requires Ready(m, us) && Flagged(m, us, flagged) && !Clash(m, us)
    ensures Snapped(m, flagged, m, flagged, 0)
  {
    forall i | 0 <= i < |us| ensures Matches(m, flagged[i]) && Appendable(m, flagged[i]) { assert Matches(m, us[i]); }
    forall i, j | 0 <= i < |us| && 0 <= j < |us| ensures PairSettled(m, flagged, i, j, 0) {
      assert Covered(m, us[i].input) && Covered(m, us[i].output) && Covered(m, us[j].input) && Covered(m, us[j].output);
      OverlapsSymmetric(m, us[i].input, us[j].output);
      OverlapsSymmetric(m, us[i].output, us[j].output);
      assert i != j && Hits(m, us, j, i) ==> NeedsSnapshot(m, us, j);
    }
  }

  // ---- Read-only memory ----

  // No storage that may be written reaches the address.
  ghost predicate Shielded(m: Machine, x: nat) {
    x < |m.memory| &&
    forall s :: s in m.stores && !m.stores[s].readOnly ==>
      !(m.stores[s].base <= x < m.stores[s].base + m.stores[s].size)
  }

  // What is shielded in m stays shielded, and as it is.
  ghost predicate KeepsShielded(m: Machine, n: Machine) {
    forall x: nat :: Shielded(m, x) ==> Shielded(n, x) && n.memory[x] == m.memory[x]
  }

  lemma WritableShields(m: Machine, t: nat, x: nat)
    requires Valid(m) && Covered(m, t) && Shielded(m, x)
    ensures Shielded(Writable(m, t), x) && Writable(m, t).memory[x] == m.memory[x]
  {
  }

  // A write reaches only what its writable storage reaches.
  lemma WriteShields(m: Machine, t: nat, data: seq<byte>, x: nat)
    requires Valid(m) && Covered(m, t) && |data| == ByteSize(m.tensors[t]) && Shielded(m, x)
    ensures Shielded(Write(m, t, data), x) && Write(m, t, data).memory[x] == m.memory[x]
  {
    var w := Writable(m, t);
    WritableKeeps(m, t);
    WritableShields(m, t, x);
    assert InStore(w, w.tensors[t]);
    assert !w.stores[w.tensors[t].storage].readOnly;
  }

  /** An update overwrites no read-only byte: a read-only destination is written in a copy. */
  lemma ApplyShields(m: Machine, u: Update, planned: bool)
    requires Valid(m) && Matches(m, u) && Appendable(m, u)
    ensures KeepsShielded(m, Apply(m, u, planned))
  {
    forall x: nat | Shielded(m, x)
      ensures Shielded(Apply(m, u, planned), x) && Apply(m, u, planned).memory[x] == m.memory[x]
    {
      if u.axis.Some? {
        WriteShields(m, u.input, NewState(m, u), x);
      } else if !Idle(m, u, planned) && (planned || u.stable) {
        WriteShields(m, u.input, Contents(m, u.output), x);
      }
    }
  }

  lemma SnapshotShields(m: Machine, t: nat)
    requires Valid(m) && Covered(m, t)
    ensures KeepsShielded(m, Snapshot(m, t))
  {
    var n := Snapshot(m, t);
    forall x: nat | Shielded(m, x) ensures Shielded(n, x) && n.memory[x] == m.memory[x] {
      assert forall s :: s in n.stores ==> s == m.ids || (s in m.stores && n.stores[s] == m.stores[s]);
    }
  }
}
