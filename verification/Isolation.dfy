/**
 Storage with copy-on-write, the tensors that view it, and why two sessions of one compiled
 graph cannot see each other's writes although they share read-only buffers.
 */
module Isolation {
  import opened Wrappers

  // A Buffer: a range of an allocation, which may be read-only.
  datatype Buffer = Buffer(block: array<byte>, at: nat, size: nat, readOnly: bool)

  lemma OverwrittenPart(whole: seq<byte>, at: nat, size: nat, offset: nat, data: seq<byte>)
    requires at + size <= |whole| && offset + |data| <= size
    ensures Overwritten(whole, at + offset, data)[at..at + size] == Overwritten(whole[at..at + size], offset, data)
    ensures Overwritten(whole[at..at + size], offset, data)[offset..offset + |data|] == data
  {
  }

  method CopyBytes(block: array<byte>, from: nat, data: seq<byte>)
    requires from + |data| <= block.Length
    modifies block
    ensures block[..] == Overwritten(old(block[..]), from, data)
  {
    forall i | 0 <= i < |data| { block[from + i] := data[i]; }
  }

  // The allocation identity that the views of one alias group have in common.
  class Storage {
    var buffer: Buffer
    var version: nat

    ghost predicate Valid()
      reads this
    {
      buffer.at + buffer.size <= buffer.block.Length
    }

    function Bytes(): (r: seq<byte>)
      requires Valid()
      reads this, buffer.block
      ensures |r| == buffer.size && forall i :: 0 <= i < |r| ==> r[i] == buffer.block[buffer.at + i]
    {
      buffer.block[..][buffer.at..buffer.at + buffer.size]
    }

    constructor (buffer: Buffer)
      ensures this.buffer == buffer
    {
      this.buffer, version := buffer, 0;
    }

    // A read-only buffer is replaced by a private copy; every view of the storage follows.
    method MakeWritable()
      requires Valid()
      modifies this
      ensures Valid() && !buffer.readOnly && buffer.size == old(buffer.size) && Bytes() == old(Bytes())
      ensures if old(buffer.readOnly) then fresh(buffer.block) && version > old(version) else
        buffer == old(buffer) && version == old(version)
    {
      if !buffer.readOnly { return; }
      var copy := new byte[buffer.size](i requires 0 <= i < buffer.size &&
        Valid() reads this, buffer.block => buffer.block[buffer.at + i]);
      assert copy[..] == Bytes();
      buffer := Buffer(copy, 0, buffer.size, false);
      version := version + 1;
    }

    method Put(offset: nat, data: seq<byte>)
      requires Valid() && !buffer.readOnly && offset + |data| <= buffer.size
      modifies this`version, buffer.block
      ensures Bytes() == Overwritten(old(Bytes()), offset, data) && Bytes()[offset..offset + |data|] == data &&
        version > old(version)
      ensures buffer.block[..] == Overwritten(old(buffer.block[..]), buffer.at + offset, data)
    {
      OverwrittenPart(buffer.block[..], buffer.at, buffer.size, offset, data);
      version := version + 1;
      CopyBytes(buffer.block, buffer.at + offset, data);
    }
  }

  class Tensor {
    var storage: Storage
    var offset: nat
    var memorySize: nat
    var immutable: bool

    ghost predicate Valid()
      reads this, storage
    {
      storage.Valid() && offset + memorySize <= storage.buffer.size
    }

    // The bytes visible through the tensor.
    function Visible(): (r: seq<byte>)
      requires Valid()
      reads this, storage, storage.buffer.block
      ensures |r| == memorySize
      ensures forall i :: 0 <= i < |r| ==> r[i] == storage.buffer.block[storage.buffer.at + offset + i]
    {
      storage.Bytes()[offset..offset + memorySize]
    }

    constructor (storage: Storage, offset: nat, memorySize: nat, immutable: bool)
      ensures this.storage == storage && this.offset == offset && this.memorySize == memorySize &&
        this.immutable == immutable
    {
      this.storage, this.offset, this.memorySize, this.immutable := storage, offset, memorySize, immutable;
    }

    // Writing through mutable_data: the storage becomes writable for all its views, the view takes
    // the size asked for, then the bytes change. Any size within the storage is allowed.
    method Write(data: seq<byte>)
      requires Valid() && offset + |data| <= storage.buffer.size
      modifies this`immutable, this`memorySize, storage, if storage.buffer.readOnly then {} else {storage.buffer.block}
      ensures Valid() && storage.buffer.size == old(storage.buffer.size) && !storage.buffer.readOnly
      ensures storage.Bytes() == Overwritten(old(storage.Bytes()), offset, data) && Visible() == data
      ensures if old(storage.buffer.readOnly) then fresh(storage.buffer.block) else
        storage.buffer == old(storage.buffer)
      ensures storage.version > old(storage.version)
    {
      if storage.buffer.readOnly {
        storage.MakeWritable();
        immutable := false;
      }
      memorySize := |data|;
      storage.Put(offset, data);
    }

    // This tensor becomes another view of the other's storage.
    method ShareDataWith(other: Tensor)
      modifies this
      ensures storage == other.storage && offset == other.offset && memorySize == other.memorySize &&
        immutable == other.immutable
    {
      storage, offset, memorySize, immutable := other.storage, other.offset, other.memorySize, other.immutable;
    }
  }

  // ---- Sessions ----

  // Two tensors without a common storage, neither able to write what the other sees.
  ghost predicate Apart(t: Tensor, u: Tensor)
    reads t, u, t.storage, u.storage
  {
    t.storage != u.storage &&
    (t.storage.buffer.readOnly || t.storage.buffer.block != u.storage.buffer.block) &&
    (u.storage.buffer.readOnly || t.storage.buffer.block != u.storage.buffer.block)
  }

  ghost function Storages(a: set<Tensor>): set<Storage>
    reads a
  {
    set t | t in a :: t.storage
  }

  ghost predicate AllValid(a: set<Tensor>)
    reads a, Storages(a)
  {
    forall t :: t in a ==> t.Valid()
  }

  // Sessions are sets of tensors; whatever one may write, the other does not see.
  ghost predicate Isolated(a: set<Tensor>, b: set<Tensor>)
    reads a, b, Storages(a), Storages(b)
  {
    AllValid(a) && AllValid(b) && forall t, u :: t in a && u in b ==> Apart(t, u)
  }

  // No tensor of the session may write the allocation.
  ghost predicate Protected(a: set<Tensor>, block: array<byte>)
    reads a, Storages(a)
  {
    forall t :: t in a ==> t.storage.buffer.readOnly || t.storage.buffer.block != block
  }

  // What a session may write at the moment.
  ghost function Footprint(a: set<Tensor>): set<object>
    reads a, Storages(a)
  {
    a + Storages(a) + set t | t in a && !t.storage.buffer.readOnly :: t.storage.buffer.block
  }

  datatype Update = Update(tensor: Tensor, data: seq<byte>)

  // Writes through tensors of the session, each within its storage.
  ghost predicate UpdatesOf(a: set<Tensor>, us: seq<Update>)
    reads a, Storages(a)
  {
    forall k :: 0 <= k < |us| ==>
      us[k].tensor in a && us[k].tensor.offset + |us[k].data| <= us[k].tensor.storage.buffer.size
  }

  // One write through the tensor t of session a; `kept` is any allocation the session may not write.
  method WriteThrough(ghost a: set<Tensor>, ghost b: set<Tensor>, ghost kept: array<byte>, t: Tensor, data: seq<byte>)
    requires t in a && Isolated(a, b) && t.offset + |data| <= t.storage.buffer.size && Protected(a, kept)
    modifies t`immutable, t`memorySize, t.storage, if t.storage.buffer.readOnly then {} else {t.storage.buffer.block}
    ensures Isolated(a, b) && Protected(a, kept)
    ensures if old(t.storage.buffer.readOnly) then fresh(t.storage.buffer.block) else
      t.storage.buffer == old(t.storage.buffer)
    ensures t.Visible() == data && t.storage.buffer.size == old(t.storage.buffer.size)
    ensures forall u :: u in b ==> u.Visible() == old(u.Visible())
    ensures kept[..] == old(kept[..])
  {
    t.Write(data);
    forall u | u in b
      ensures u.storage.buffer == old(u.storage.buffer) && u.Valid() && u.Visible() == old(u.Visible())
    {
      assert old(Apart(t, u));
    }
    forall x | x in a ensures x.Valid() && (x.storage == t.storage || x.storage.buffer == old(x.storage.buffer)) {}
    forall x, u | x in a && u in b ensures Apart(x, u) { assert old(Apart(x, u)) && old(Apart(t, u)); }
  }

  // The first of several writes; the others can still be made.
  method WriteFirst(ghost a: set<Tensor>, ghost b: set<Tensor>, ghost kept: array<byte>, us: seq<Update>)
    requires us != [] && Isolated(a, b) && UpdatesOf(a, us) && Protected(a, kept)
    modifies Footprint(a)
    ensures Isolated(a, b) && Protected(a, kept) && UpdatesOf(a, us[1..])
    ensures forall u :: u in a ==> u.storage == old(u.storage)
    ensures forall u :: u in a ==> u.storage.buffer == old(u.storage.buffer) || fresh(u.storage.buffer.block)
    ensures us[0].tensor.Valid() && us[0].tensor.Visible() == us[0].data
    ensures forall u :: u in b ==> u.Visible() == old(u.Visible())
    ensures kept[..] == old(kept[..])
  {
    assert us[0].tensor in a;
    WriteThrough(a, b, kept, us[0].tensor, us[0].data);
    forall k | 0 <= k < |us[1..]|
      ensures var u := us[1..][k]; u.tensor in a && u.tensor.offset + |u.data| <= u.tensor.storage.buffer.size
    {
      assert us[1..][k] == us[k + 1];
      assert us[k + 1].tensor.storage == us[0].tensor.storage ||
        us[k + 1].tensor.storage.buffer == old(us[k + 1].tensor.storage.buffer);
    }
  }

  /**
   Isolation. No sequence of writes through the tensors of one session changes a byte visible
   through the other, nor a byte of an allocation that was read-only to it; the last one shows in its tensor.
   */
  method WriteAll(ghost a: set<Tensor>, ghost b: set<Tensor>, ghost kept: array<byte>, us: seq<Update>)
    requires Isolated(a, b) && UpdatesOf(a, us) && Protected(a, kept)
    modifies Footprint(a)
    ensures Isolated(a, b)
    ensures forall u :: u in b ==> u.Visible() == old(u.Visible())
    ensures kept[..] == old(kept[..])
    ensures us != [] ==> var last := us[|us| - 1]; last.tensor.Valid() && last.tensor.Visible() == last.data
    decreases |us|
  {
    if us == [] { return; }
    WriteFirst(a, b, kept, us);
    if |us| == 1 { return; }
    WriteAll(a, b, kept, us[1..]);
    assert us[1..][|us| - 2] == us[|us| - 1];
  }

  // ---- Creating sessions ----

  // A compiled value: its alias group and its place in it.
  datatype Slot = Slot(group: nat, offset: nat, bytes: nat, immutable: bool)

  // The storage of each group: frozen groups share the plan's read-only buffers, planned groups
  // are ranges of the session's arena, and every other group gets an allocation of its own.
  datatype Plan = Plan(slots: seq<Slot>, bytes: map<nat, nat>, frozen: map<nat, Buffer>, arena: map<nat, nat>,
                       arenaBytes: nat)

  ghost predicate PlanValid(p: Plan) {
    (forall i :: 0 <= i < |p.slots| ==>
      p.slots[i].group in p.bytes && p.slots[i].offset + p.slots[i].bytes <= p.bytes[p.slots[i].group]) &&
    (forall g :: g in p.frozen ==>
      p.frozen[g].readOnly && p.frozen[g].at + p.frozen[g].size <= p.frozen[g].block.Length) &&
    (forall g :: g in p.frozen && g in p.bytes ==> p.bytes[g] <= p.frozen[g].size) &&
    (forall g :: g in p.arena ==> g in p.bytes && p.arena[g] + p.bytes[g] <= p.arenaBytes)
  }

  // The buffer of a group: the plan's own if it is frozen, its range of the arena if it is planned,
  // and otherwise an allocation of just its size.
  ghost predicate BufferOf(p: Plan, g: nat, arena: array<byte>, b: Buffer) {
    g in p.bytes &&
    if g in p.frozen then b == p.frozen[g]
    else if g in p.arena then b == Buffer(arena, p.arena[g], p.bytes[g], false)
    else b == Buffer(b.block, 0, p.bytes[g], false) && b.block.Length == p.bytes[g] && b.block != arena
  }

  predicate Own(p: Plan, g: nat) { g !in p.frozen && g !in p.arena }

  // The storage found for a group.
  twostate predicate GroupStorage(p: Plan, g: nat, new arena: array<byte>, new s: Storage)
    reads s
  {
    fresh(s) && s.Valid() && BufferOf(p, g, arena, s.buffer) && p.bytes[g] <= s.buffer.size &&
    (g !in p.frozen ==> fresh(s.buffer.block))
  }

  method NewStorage(p: Plan, arena: array<byte>, g: nat) returns (s: Storage)
    requires PlanValid(p) && g in p.bytes && arena.Length == p.arenaBytes
    ensures fresh(s) && s.Valid() && BufferOf(p, g, arena, s.buffer) && p.bytes[g] <= s.buffer.size
    ensures Own(p, g) ==> fresh(s.buffer.block)
  {
    if g in p.frozen {
      s := new Storage(p.frozen[g]);
    } else if g in p.arena {
      s := new Storage(Buffer(arena, p.arena[g], p.bytes[g], false));
    } else {
      var block := new byte[p.bytes[g]];
      s := new Storage(Buffer(block, 0, p.bytes[g], false));
    }
  }

  // Tensor i of a new session views its slot of the storage of its group, and nothing older can be written through it.
  twostate predicate SessionTensor(p: Plan, new arena: array<byte>, new t: Tensor, i: nat)
    requires i < |p.slots|
    reads t, t.storage
  {
    fresh(t) && t.Valid() && t.offset == p.slots[i].offset && t.memorySize == p.slots[i].bytes &&
      t.immutable == p.slots[i].immutable && GroupStorage(p, p.slots[i].group, arena, t.storage)
  }

  // Values of one group, and only those, share a storage; no other group has its allocation, unless both are
  // frozen or in the arena.
  ghost predicate ByGroup(p: Plan, tensors: seq<Tensor>)
    requires |tensors| <= |p.slots|
    reads set t | t in tensors, set t | t in tensors :: t.storage
  {
    forall i, j :: 0 <= i < |tensors| && 0 <= j < |tensors| ==> PairByGroup(p, tensors, i, j)
  }

  ghost predicate PairByGroup(p: Plan, tensors: seq<Tensor>, i: nat, j: nat)
    requires |tensors| <= |p.slots| && i < |tensors| && j < |tensors|
    reads tensors[i], tensors[j], tensors[i].storage, tensors[j].storage
  {
    (tensors[i].storage == tensors[j].storage <==> p.slots[i].group == p.slots[j].group) &&
    (p.slots[i].group != p.slots[j].group && Own(p, p.slots[i].group) ==>
      tensors[i].storage.buffer.block != tensors[j].storage.buffer.block)
  }

  // The storages found so far: each holds the buffer of its group, and no two are alike.
  ghost predicate Found(p: Plan, arena: array<byte>, storage: map<nat, Storage>)
    reads storage.Values
  {
    (forall g :: g in storage ==>
      storage[g].Valid() && BufferOf(p, g, arena, storage[g].buffer) && p.bytes[g] <= storage[g].buffer.size) &&
    (forall g, f :: g in storage && Own(p, g) && f in p.frozen ==> storage[g].buffer.block != p.frozen[f].block) &&
    (forall g, h :: g in storage && h in storage && g != h ==> Unlike(p, g, storage[g], storage[h]))
  }

  ghost predicate Unlike(p: Plan, g: nat, s: Storage, t: Storage)
    reads s, t
  {
    s != t && (Own(p, g) ==> s.buffer.block != t.buffer.block)
  }

  lemma FoundMore(p: Plan, arena: array<byte>, storage: map<nat, Storage>, g: nat, s: Storage)
    requires Found(p, arena, storage) && g !in storage
    requires s.Valid() && BufferOf(p, g, arena, s.buffer) && p.bytes[g] <= s.buffer.size
    requires Own(p, g) ==> forall f :: f in p.frozen ==> s.buffer.block != p.frozen[f].block
    requires forall h :: h in storage ==> storage[h] != s && (Own(p, g) ==> storage[h].buffer.block != s.buffer.block)
    ensures Found(p, arena, storage[g := s])
  {
    var found := storage[g := s];
    forall h, k | h in found && k in found && h != k ensures Unlike(p, h, found[h], found[k]) {
      if h in storage && k in storage { assert Unlike(p, h, storage[h], storage[k]); }
    }
  }

  method FindStorage(p: Plan, arena: array<byte>, storage: map<nat, Storage>, g: nat) returns (found: map<nat, Storage>)
    requires PlanValid(p) && g in p.bytes && arena.Length == p.arenaBytes && Found(p, arena, storage)
    ensures Found(p, arena, found) && g in found && (forall h :: h in found <==> h in storage || h == g)
    ensures forall h :: h in storage ==> found[h] == storage[h]
    ensures g !in storage ==> fresh(found[g]) && (Own(p, g) ==> fresh(found[g].buffer.block))
  {
    if g in storage { return storage; }
    var s := NewStorage(p, arena, g);
    FoundMore(p, arena, storage, g, s);
    found := storage[g := s];
  }

  // The tensor is the i-th slot's view of the storage of its group.
  ghost predicate Viewing(p: Plan, t: Tensor, i: nat, storage: map<nat, Storage>)
    requires i < |p.slots|
    reads t
  {
    p.slots[i].group in storage && t.storage == storage[p.slots[i].group] && t.offset == p.slots[i].offset &&
    t.memorySize == p.slots[i].bytes && t.immutable == p.slots[i].immutable
  }

  ghost predicate AllViewing(p: Plan, tensors: seq<Tensor>, storage: map<nat, Storage>)
    requires |tensors| <= |p.slots|
    reads set t | t in tensors
  {
    forall j :: 0 <= j < |tensors| ==> Viewing(p, tensors[j], j, storage)
  }

  lemma ViewingMore(p: Plan, tensors: seq<Tensor>, storage: map<nat, Storage>, found: map<nat, Storage>, t: Tensor)
    requires |tensors| < |p.slots| && AllViewing(p, tensors, storage) && Viewing(p, t, |tensors|, found)
    requires forall h :: h in storage ==> h in found && found[h] == storage[h]
    ensures AllViewing(p, tensors + [t], found)
  {
    forall j | 0 <= j < |tensors|
      ensures Viewing(p, tensors[j], j, found)
    {
      assert Viewing(p, tensors[j], j, storage);
    }
  }

  // The next tensor of the session.
  method AddTensor(p: Plan, arena: array<byte>, storage: map<nat, Storage>, tensors: seq<Tensor>)
    returns (more: seq<Tensor>, found: map<nat, Storage>)
    requires PlanValid(p) && |tensors| < |p.slots| && arena.Length == p.arenaBytes && Found(p, arena, storage)
    requires AllViewing(p, tensors, storage)
    ensures |more| == |tensors| + 1 && AllViewing(p, more, found) && Found(p, arena, found)
    ensures fresh(more[|tensors|]) && forall j :: 0 <= j < |tensors| ==> more[j] == tensors[j]
    ensures forall h :: h in found ==> if h in storage then found[h] == storage[h]
      else fresh(found[h]) && (Own(p, h) ==> fresh(found[h].buffer.block))
  {
    var slot := p.slots[|tensors|];
    found := FindStorage(p, arena, storage, slot.group);
    var t := new Tensor(found[slot.group], slot.offset, slot.bytes, slot.immutable);
    ViewingMore(p, tensors, storage, found, t);
    more := tensors + [t];
  }

  lemma ViewsByGroup(p: Plan, arena: array<byte>, storage: map<nat, Storage>, tensors: seq<Tensor>)
    requires |tensors| == |p.slots| && Found(p, arena, storage) && AllViewing(p, tensors, storage)
    ensures ByGroup(p, tensors)
  {
    forall i, j | 0 <= i < |tensors| && 0 <= j < |tensors| ensures PairByGroup(p, tensors, i, j) {
      assert Viewing(p, tensors[i], i, storage) && Viewing(p, tensors[j], j, storage);
      var g, h := p.slots[i].group, p.slots[j].group;
      assert g != h ==> Unlike(p, g, storage[g], storage[h]);
    }
  }

  // Everything is new but the frozen buffers.
  twostate predicate AllNew(p: Plan, new tensors: seq<Tensor>, new storage: map<nat, Storage>)
    reads storage.Values
  {
    (forall g :: g in storage ==> fresh(storage[g]) && (Own(p, g) ==> fresh(storage[g].buffer.block))) &&
    forall j :: 0 <= j < |tensors| ==> fresh(tensors[j])
  }

  // The tensors of a session, in the order of the slots, and the storages of their groups.
  method CreateTensors(p: Plan, arena: array<byte>) returns (tensors: seq<Tensor>, storage: map<nat, Storage>)
    requires PlanValid(p) && arena.Length == p.arenaBytes
    ensures |tensors| == |p.slots| && Found(p, arena, storage) && AllViewing(p, tensors, storage)
    ensures AllNew(p, tensors, storage)
  {
    storage, tensors := map[], [];
    for i := 0 to |p.slots|
      invariant |tensors| == i && Found(p, arena, storage) && AllViewing(p, tensors, storage)
      invariant AllNew(p, tensors, storage)
    {
      tensors, storage := AddTensor(p, arena, storage, tensors);
    }
  }

  method CreateSession(p: Plan) returns (tensors: seq<Tensor>, ghost arena: array<byte>)
    requires PlanValid(p)
    ensures fresh(arena) && arena.Length == p.arenaBytes
    ensures |tensors| == |p.slots| && ByGroup(p, tensors)
    ensures forall i :: 0 <= i < |tensors| ==> SessionTensor(p, arena, tensors[i], i)
  {
    var shared := new byte[p.arenaBytes];
    arena := shared;
    var storage;
    tensors, storage := CreateTensors(p, shared);
    ViewsByGroup(p, arena, storage, tensors);
    forall i | 0 <= i < |tensors| ensures SessionTensor(p, arena, tensors[i], i) {
      assert Viewing(p, tensors[i], i, storage);
    }
  }

  /** Two sessions of one plan start out isolated, whatever read-only buffers they share. */
  method CreateTwoSessions(p: Plan) returns (a: seq<Tensor>, b: seq<Tensor>)
    requires PlanValid(p)
    ensures |a| == |b| == |p.slots|
    ensures Isolated(set t | t in a, set t | t in b)
  {
    ghost var arenaOfA, arenaOfB;
    a, arenaOfA := CreateSession(p);
    b, arenaOfB := CreateSession(p);
    forall t, u | t in a && u in b ensures t.Valid() && u.Valid() && Apart(t, u) {
      var i :| 0 <= i < |a| && a[i] == t;
      var j :| 0 <= j < |b| && b[j] == u;
    }
  }
}
