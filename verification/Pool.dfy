/**
 The pooled allocator: size classes, chunks shared by small blocks, and one free list
 per class. A list threaded through records is a sequence here, its head first.
 */
module BufferPools {
  import opened Wrappers
  import opened DependencyOrder

  const MAX_CHUNK_SIZE: nat := 8192
  const MIN_CLASS_SIZE: nat := 64
  const LARGE_ALIGN_SIZE: nat := 4096

  // ---- Size classes ----

  function Doubled(k: nat): nat { if k == 0 then MIN_CLASS_SIZE else 2 * Doubled(k - 1) }

  // Powers of two from the smallest class to a chunk, then whole pages.
  ghost predicate IsClass(c: nat) {
    (c <= MAX_CHUNK_SIZE && exists k: nat :: c == Doubled(k)) || (c > MAX_CHUNK_SIZE && c % LARGE_ALIGN_SIZE == 0)
  }

  // The smallest class that holds the size.
  ghost predicate ClassOf(size: nat, c: nat) {
    IsClass(c) && size <= c && forall d: nat :: IsClass(d) && size <= d ==> c <= d
  }

  function AlignUp(size: nat, step: nat): nat
    requires step > 0
  {
    if size % step == 0 then size else size - size % step + step
  }

  lemma {:induction false} DoubledGrows(j: nat, k: nat)
    requires j < k
    ensures 2 * Doubled(j) <= Doubled(k)
  {
    if j < k - 1 { DoubledGrows(j, k - 1); }
  }

  lemma DoubledIsLeast(size: nat, k: nat)
    requires size <= Doubled(k) <= MAX_CHUNK_SIZE && (k > 0 ==> Doubled(k - 1) < size)
    ensures ClassOf(size, Doubled(k))
  {
    forall d: nat | IsClass(d) && size <= d ensures Doubled(k) <= d {
      if d <= MAX_CHUNK_SIZE {
        var j: nat :| d == Doubled(j);
        if j < k && j < k - 1 { DoubledGrows(j, k - 1); }
        if k < j { DoubledGrows(k, j); }
      }
    }
  }

  lemma PageAligned(c: nat)
    requires c % LARGE_ALIGN_SIZE == 0
    ensures c % 4 == 0
  {
    assert c == 4 * (1024 * (c / LARGE_ALIGN_SIZE));
  }

  lemma PagesAreLeast(size: nat)
    requires size > MAX_CHUNK_SIZE
    ensures ClassOf(size, AlignUp(size, LARGE_ALIGN_SIZE)) && AlignUp(size, LARGE_ALIGN_SIZE) % 4 == 0
  {
    var c := AlignUp(size, LARGE_ALIGN_SIZE);
    PageAligned(c);
    forall d: nat | IsClass(d) && size <= d ensures c <= d {
      assert d % LARGE_ALIGN_SIZE == 0;
    }
  }

  lemma {:induction false} DoubledAligned(k: nat)
    ensures Doubled(k) % 4 == 0 && Doubled(k) > 0
  {
    if k > 0 { DoubledAligned(k - 1); }
  }

  // Doubles the smallest class until it holds the size.
  method PowerClass(size: nat) returns (klass: nat)
    requires size <= MAX_CHUNK_SIZE
    ensures ClassOf(size, klass) && klass % 4 == 0 && klass > 0
  {
    klass := MIN_CLASS_SIZE;
    ghost var k: nat := 0;
    ChunkIsClass();
    while klass < size
      invariant klass == Doubled(k) <= MAX_CHUNK_SIZE && (k > 0 ==> Doubled(k - 1) < size)
      decreases size - klass
    {
      DoubledAligned(k);
      NextClass(k);
      klass := 2 * klass;
      k := k + 1;
    }
    DoubledIsLeast(size, k);
    DoubledAligned(k);
  }

  // None for a size too close to the largest one to be rounded up.
  method NormalizeSize(size: nat) returns (r: Option<nat>)
    ensures r.Some? <==> size <= SIZE_MAX - (LARGE_ALIGN_SIZE - 1)
    ensures r.Some? ==> ClassOf(size, r.value) && r.value % 4 == 0 && r.value > 0
  {
    if size == 0 {
      DoubledIsLeast(0, 0);
      return Some(MIN_CLASS_SIZE);
    }
    if size <= MAX_CHUNK_SIZE {
      var klass := PowerClass(size);
      return Some(klass);
    }
    if size > SIZE_MAX - (LARGE_ALIGN_SIZE - 1) { return None; }
    PagesAreLeast(size);
    return Some(AlignUp(size, LARGE_ALIGN_SIZE));
  }

  lemma NextClass(k: nat)
    requires Doubled(k) < MAX_CHUNK_SIZE
    ensures Doubled(k + 1) <= MAX_CHUNK_SIZE
  {
    if k >= 7 { NotBeyondSeven(k); } else if k < 6 { DoubledGrows(k + 1, 7); }
    ChunkIsClass();
  }

  lemma ChunkIsClass()
    ensures Doubled(7) == MAX_CHUNK_SIZE
  {
    assert Doubled(2) == 256;
    assert Doubled(4) == 1024;
    assert Doubled(6) == 4096;
  }

  lemma NotBeyondSeven(k: nat)
    requires k >= 7
    ensures Doubled(k) >= MAX_CHUNK_SIZE
  {
    ChunkIsClass();
    if k > 7 { DoubledGrows(7, k); }
  }

  // ---- Blocks, chunks and lists ----

  // A block is a range of an allocation; small ones lie in a chunk.
  datatype Block = Block(region: nat, at: nat, size: nat, chunk: Option<nat>, occupied: bool)

  datatype Chunk = Chunk(region: nat, size: nat, offset: nat)

  type Lists = map<nat, seq<nat>>

  function ListOf(lists: Lists, k: nat): seq<nat> { if k in lists then lists[k] else [] }

  ghost predicate Listed(lists: Lists, k: nat, i: nat) { i in ListOf(lists, k) }

  ghost predicate Disjoint(a: Block, b: Block) {
    a.region != b.region || a.at + a.size <= b.at || b.at + b.size <= a.at
  }

  ghost predicate BlocksApart(blocks: seq<Block>) {
    forall i: nat, j: nat :: i < |blocks| && j < |blocks| && i != j ==> Disjoint(blocks[i], blocks[j])
  }

  // Below the chunk's offset, or alone in its allocation.
  ghost predicate Placed(b: Block, chunks: seq<Chunk>, regions: nat) {
    b.region < regions &&
    match b.chunk
    case Some(c) => c < |chunks| && b.region == chunks[c].region && b.at + b.size <= chunks[c].offset
    case None => forall c: nat :: c < |chunks| ==> chunks[c].region != b.region
  }

  ghost predicate ChunksOk(chunks: seq<Chunk>, regions: nat) {
    (forall c: nat :: c < |chunks| ==> chunks[c].offset <= chunks[c].size && chunks[c].region < regions) &&
    (forall c: nat, d: nat :: c < |chunks| && d < |chunks| && chunks[c].region == chunks[d].region ==> c == d)
  }

  // Each block is on exactly the list of its class.
  ghost predicate Cached(blocks: seq<Block>, cache: Lists) {
    (forall k: nat :: Distinct(ListOf(cache, k))) &&
    (forall k: nat, i: nat :: Listed(cache, k, i) <==> i < |blocks| && blocks[i].size == k)
  }

  // Each block is occupied or on exactly the free list of its class.
  ghost predicate FreeListed(blocks: seq<Block>, free: Lists) {
    (forall k: nat :: Distinct(ListOf(free, k))) &&
    (forall k: nat, i: nat :: Listed(free, k, i) <==> i < |blocks| && blocks[i].size == k && !blocks[i].occupied)
  }

  // Marking a block changes neither places nor classes.
  lemma Marked(blocks: seq<Block>, cache: Lists, i: nat, occupied: bool)
    requires i < |blocks| && BlocksApart(blocks) && Cached(blocks, cache)
    ensures var next := blocks[i := blocks[i].(occupied := occupied)]; BlocksApart(next) && Cached(next, cache)
  {
    var next := blocks[i := blocks[i].(occupied := occupied)];
    forall j: nat, k: nat | j < |next| && k < |next| && j != k
      ensures Disjoint(next[j], next[k])
    {
      assert Disjoint(blocks[j], blocks[k]);
    }
  }

  function Push(lists: Lists, k: nat, i: nat): Lists { lists[k := [i] + ListOf(lists, k)] }

  function Pop(lists: Lists, k: nat): Lists
    requires ListOf(lists, k) != []
  {
    lists[k := ListOf(lists, k)[1..]]
  }

  lemma PushLists(lists: Lists, k: nat, i: nat)
    requires (forall c: nat :: Distinct(ListOf(lists, c))) && !Listed(lists, k, i)
    ensures forall c: nat :: Distinct(ListOf(Push(lists, k, i), c))
    ensures forall c: nat, j: nat :: Listed(Push(lists, k, i), c, j) <==> Listed(lists, c, j) || (c == k && j == i)
  {
    forall c: nat ensures Distinct(ListOf(Push(lists, k, i), c)) { assert Distinct(ListOf(lists, c)); }
  }

  lemma PopLists(lists: Lists, k: nat)
    requires (forall c: nat :: Distinct(ListOf(lists, c))) && ListOf(lists, k) != []
    ensures forall c: nat :: Distinct(ListOf(Pop(lists, k), c))
    ensures forall c: nat, j: nat :: Listed(Pop(lists, k), c, j) <==>
      Listed(lists, c, j) && !(c == k && j == ListOf(lists, k)[0])
  {
    var list := ListOf(lists, k);
    assert list == [list[0]] + list[1..] && Distinct(list);
    assert list[0] !in list[1..];
    forall c: nat ensures Distinct(ListOf(Pop(lists, k), c)) { assert Distinct(ListOf(lists, c)); }
  }

  // The head of a free list leaves it and becomes occupied.
  lemma Occupied(blocks: seq<Block>, cache: Lists, free: Lists, k: nat, i: nat)
    requires BlocksApart(blocks) && Cached(blocks, cache) && FreeListed(blocks, free) && ListOf(free, k) != [] &&
      ListOf(free, k)[0] == i
    ensures i < |blocks| && !blocks[i].occupied && blocks[i].size == k
    ensures var next := blocks[i := blocks[i].(occupied := true)];
      BlocksApart(next) && Cached(next, cache) && FreeListed(next, Pop(free, k))
  {
    assert Listed(free, k, i);
    PopLists(free, k);
    Marked(blocks, cache, i, true);
  }

  lemma Freed(blocks: seq<Block>, cache: Lists, free: Lists, i: nat)
    requires BlocksApart(blocks) && Cached(blocks, cache) && FreeListed(blocks, free) && i < |blocks| &&
      blocks[i].occupied
    ensures var next := blocks[i := blocks[i].(occupied := false)];
      BlocksApart(next) && Cached(next, cache) && FreeListed(next, Push(free, blocks[i].size, i))
  {
    assert !Listed(free, blocks[i].size, i);
    PushLists(free, blocks[i].size, i);
    Marked(blocks, cache, i, false);
  }

  // A new block joins the list of its class; it is handed out at once.
  lemma Added(blocks: seq<Block>, cache: Lists, free: Lists, block: Block)
    requires BlocksApart(blocks) && Cached(blocks, cache) && FreeListed(blocks, free) && block.occupied
    requires forall i: nat :: i < |blocks| ==> Disjoint(blocks[i], block)
    ensures var next := blocks + [block];
      BlocksApart(next) && Cached(next, Push(cache, block.size, |blocks|)) && FreeListed(next, free)
  {
    assert !Listed(cache, block.size, |blocks|);
    PushLists(cache, block.size, |blocks|);
  }

  class BufferPool {
    var blocks: seq<Block>
    var chunks: seq<Chunk>
    var cache: Lists
    var free: Lists
    var regions: nat

    ghost predicate Valid()
      reads this
    {
      BlocksApart(blocks) && ChunksOk(chunks, regions) &&
        (forall i: nat :: i < |blocks| ==> Placed(blocks[i], chunks, regions)) &&
      Cached(blocks, cache) && FreeListed(blocks, free)
    }

    // The blocks handed out.
    ghost function Outstanding(): (r: set<nat>)
      reads this
    {
      set i: nat | i < |blocks| && blocks[i].occupied
    }

    constructor ()
      ensures Valid() && blocks == []
    {
      blocks, chunks, cache, free, regions := [], [], map[], map[], 0;
    }

    ghost predicate HasRoom(c: nat, size: nat)
      reads this
    {
      c < |chunks| && size <= chunks[c].size - chunks[c].offset
    }

    // Cuts a block from the first chunk with room, from a new chunk, or from the heap.
    method AllocateMemBlock(size: nat) returns (block: Block)
      requires Valid() && size > 0 && size % 4 == 0
      modifies this`chunks, this`regions
      ensures Placed(block, chunks, regions) && block.size == size && !block.occupied && ChunksOk(chunks, regions)
      ensures forall i: nat :: i < |blocks| ==> Placed(blocks[i], chunks, regions) && Disjoint(blocks[i], block)
      ensures size >= MAX_CHUNK_SIZE ==> block.chunk.None? && chunks == old(chunks)
      ensures size < MAX_CHUNK_SIZE ==> block.chunk.Some?
      ensures block.chunk.Some? ==> forall c: nat :: c < block.chunk.value ==> !old(HasRoom(c, size))
      ensures block.chunk.Some? ==>
        if old(HasRoom(block.chunk.value, size)) then regions == old(regions) && |chunks| == |old(chunks)|
        else block.chunk.value == |old(chunks)| && |chunks| == |old(chunks)| + 1
    {
      if size < MAX_CHUNK_SIZE {
        for c := 0 to |chunks|
          invariant chunks == old(chunks) && forall d: nat :: d < c ==> !HasRoom(d, size)
        {
          var chunk := chunks[c];
          if size <= chunk.size - chunk.offset {
            block := Block(chunk.region, chunk.offset, size, Some(c), false);
            chunks := chunks[c := chunk.(offset := chunk.offset + AlignUp(size, 4))];
            return;
          }
        }
        block := Block(regions, 0, size, Some(|chunks|), false);
        chunks := chunks + [Chunk(regions, MAX_CHUNK_SIZE, AlignUp(size, 4))];
      } else {
        block := Block(regions, 0, size, None, false);
      }
      regions := regions + 1;
    }

    /**
     Hands out a block of the smallest class that holds the size: the head of the class's free list,
     or a new one if that is empty. It overlaps no other block, and no other block is handed out or taken back.
     */
    method Allocate(size: nat) returns (r: Option<nat>)
      requires Valid()
      modifies this
      ensures Valid() && (r.Some? <==> size <= SIZE_MAX - (LARGE_ALIGN_SIZE - 1))
      ensures r.None? ==> blocks == old(blocks)
      ensures r.Some? ==> r.value !in old(Outstanding()) && r.value < |blocks| && ClassOf(size, blocks[r.value].size)
      ensures r.Some? ==> Outstanding() == old(Outstanding()) + {r.value}
      ensures r.Some? ==>
        var listed := ListOf(old(free), blocks[r.value].size);
        if listed == [] then r.value == |old(blocks)| else r.value == listed[0]
      ensures |blocks| >= |old(blocks)| &&
        forall i: nat :: i < |old(blocks)| ==> blocks[i] == old(blocks)[i].(occupied := blocks[i].occupied)
    {
      var normal := NormalizeSize(size);
      if normal.None? { return None; }
      var class_ := normal.value;
      var listed := ListOf(free, class_);
      var i: nat;
      if listed != [] {
        i := listed[0];
        Occupied(blocks, cache, free, class_, i);
        free := Pop(free, class_);
        blocks := blocks[i := blocks[i].(occupied := true)];
      } else {
        var block := AllocateMemBlock(class_);
        i := |blocks|;
        block := block.(occupied := true);
        Added(blocks, cache, free, block);
        cache := Push(cache, class_, i);
        blocks := blocks + [block];
      }
      r := Some(i);
    }

    /** Takes a block back onto the head of the free list of its class; a block already free stays where it is. */
    method ReleaseBlock(i: nat)
      requires Valid() && i < |blocks|
      modifies this
      ensures Valid() && Outstanding() == old(Outstanding()) - {i} && |blocks| == |old(blocks)|
      ensures forall j: nat :: j < |blocks| ==> blocks[j] == old(blocks)[j].(occupied := blocks[j].occupied)
      ensures old(blocks)[i].occupied ==> ListOf(free, blocks[i].size) == [i] + ListOf(old(free), blocks[i].size)
    {
      if !blocks[i].occupied { return; }
      Freed(blocks, cache, free, i);
      free := Push(free, blocks[i].size, i);
      blocks := blocks[i := blocks[i].(occupied := false)];
    }

    /** Gives everything back to the system, unless a block is still handed out. */
    method DeallocateAll() returns (ok: bool)
      requires Valid()
      modifies this
      ensures Valid() && (ok <==> old(Outstanding()) == {})
      ensures if ok then blocks == [] && chunks == [] else blocks == old(blocks) && Outstanding() == old(Outstanding())
    {
      for i := 0 to |blocks|
        invariant forall j: nat :: j < i ==> !blocks[j].occupied
      {
        if blocks[i].occupied {
          assert i in Outstanding();
          return false;
        }
      }
      blocks, chunks, cache, free := [], [], map[], map[];
      ok := true;
    }
  }

  /** Blocks handed out never share a byte. */
  lemma OutstandingApart(pool: BufferPool, i: nat, j: nat)
    requires pool.Valid() && i in pool.Outstanding() && j in pool.Outstanding() && i != j
    ensures Disjoint(pool.blocks[i], pool.blocks[j])
    ensures pool.blocks[i].chunk.Some? ==>
      pool.blocks[i].at + pool.blocks[i].size <= pool.chunks[pool.blocks[i].chunk.value].offset <=
        pool.chunks[pool.blocks[i].chunk.value].size
  {
    assert Placed(pool.blocks[i], pool.chunks, pool.regions);
  }

  /** A block is on the free list of a class exactly if it is of that class and not handed out; lists name it once. */
  lemma FreeOrOutstanding(pool: BufferPool, k: nat, i: nat)
    requires pool.Valid() && i < |pool.blocks|
    ensures Listed(pool.free, k, i) <==> pool.blocks[i].size == k && i !in pool.Outstanding()
    ensures Listed(pool.cache, k, i) <==> pool.blocks[i].size == k
    ensures Distinct(ListOf(pool.free, k)) && Distinct(ListOf(pool.cache, k))
  {
  }

  // The owner of one block.
  class PooledBuffer {
    const pool: BufferPool
    const block: nat
    var released: bool

    constructor (pool: BufferPool, block: nat)
      ensures this.pool == pool && this.block == block && !released
    {
      this.pool, this.block, released := pool, block, false;
    }

    /** Releases the block once; later calls do nothing, even if the block has been handed out again. */
    method Deallocate()
      requires pool.Valid() && block < |pool.blocks|
      modifies this, pool
      ensures pool.Valid() && released
      ensures pool.Outstanding() == if old(released) then old(pool.Outstanding()) else old(pool.Outstanding()) - {block}
    {
      if !released {
        pool.ReleaseBlock(block);
        released := true;
      }
    }
  }
}
