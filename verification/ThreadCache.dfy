/** The per-thread block caches in front of the global pool: what each operation moves, on values. */
module CacheSpec {
  import opened TaggedLinks

  const MAX_CACHE_SIZE: nat := 512
  const MAX_BATCH_SIZE: nat := 256
  const TWO64: nat := 0x1_0000_0000_0000_0000

  datatype CacheConfig = CacheConfig(cacheSize: nat, batchSize: nat, shrinkThreshold: nat)

  const DEFAULT_CONFIG := CacheConfig(64, 32, 16)

  function Min(a: nat, b: nat): nat {
    if a < b then a else b
  }

  function Max(a: nat, b: nat): nat {
    if a < b then b else a
  }

  /** The clamping constructor. A legal request is kept as asked, an illegal one moved to the nearest bound, except that a
      batch that does not fit becomes half the cache. The threshold is below the cache size exactly when two slots or more
      are asked for. */
  function MakeConfig(cacheSize: nat, batchSize: nat): (c: CacheConfig)
    ensures c.cacheSize <= MAX_CACHE_SIZE && 1 <= c.batchSize <= MAX_BATCH_SIZE && 1 <= c.shrinkThreshold <= 16
    ensures c.cacheSize > 0 ==> c.batchSize <= c.cacheSize
    ensures c.shrinkThreshold < c.cacheSize <==> cacheSize >= 2
    ensures cacheSize <= MAX_CACHE_SIZE ==> c.cacheSize == cacheSize
    ensures cacheSize > MAX_CACHE_SIZE ==> c.cacheSize == MAX_CACHE_SIZE
    ensures 1 <= batchSize <= MAX_BATCH_SIZE && batchSize <= c.cacheSize ==> c.batchSize == batchSize
    ensures MAX_BATCH_SIZE < batchSize && MAX_BATCH_SIZE <= c.cacheSize ==> c.batchSize == MAX_BATCH_SIZE
    ensures batchSize > c.cacheSize && c.cacheSize < MAX_BATCH_SIZE
      ==> 2 * c.batchSize <= Max(2, c.cacheSize) < 2 * c.batchSize + 2
    ensures cacheSize > 16 ==> c.shrinkThreshold == 16
    ensures 4 <= cacheSize <= 16 ==> 4 * c.shrinkThreshold <= cacheSize < 4 * c.shrinkThreshold + 4
  {
    var size := Min(cacheSize, MAX_CACHE_SIZE);
    var batch := Min(batchSize, MAX_BATCH_SIZE);
    var batch' := if batch > size then size / 2 else batch;
    var threshold := if DEFAULT_CONFIG.shrinkThreshold >= size then size / 4 else DEFAULT_CONFIG.shrinkThreshold;
    CacheConfig(size, Max(1, batch'), Max(1, threshold))
  }

  /** A configuration a cache can run with. */
  predicate Usable(c: CacheConfig) {
    1 <= c.batchSize && c.cacheSize < TWO64 && c.batchSize < TWO64 && c.shrinkThreshold < TWO64
  }

  /** One thread's cache, top of the stack last, and the global free list, head first. */
  datatype Half = Half(cache: seq<nat>, free: seq<nat>)

  datatype Grant = Block(block: nat) | NullPointer | Depletion

  function Refill(h: Half, c: CacheConfig): Half
    requires |h.cache| <= c.cacheSize
  {
    var k := Min(Min(c.batchSize, c.cacheSize - |h.cache|), |h.free|);
    Half(h.cache + h.free[..k], h.free[k..])
  }

  /** Give back the top k cached blocks, top first, so that they end up on the global list in cache order. */
  function GiveBack(h: Half, k: nat): Half
    requires k <= |h.cache|
  {
    var m := |h.cache| - k;
    Half(h.cache[..m], h.cache[m..] + h.free)
  }

  lemma GiveBackNothing(h: Half)
    ensures GiveBack(h, 0) == h
  {
  }

  /** How many blocks an elapsed shrink check returns. The subtraction is unsigned and wraps. */
  function ShrinkAmount(size: nat, c: CacheConfig): nat
    requires Usable(c) && size < TWO64
  {
    if size < c.shrinkThreshold && size > c.batchSize
    then Min(c.batchSize / 2, (size + TWO64 - c.shrinkThreshold) % TWO64) else 0
  }

  /** The wrapped difference never decides: a shrink returns half a batch, and that many blocks are there. */
  lemma ShrinkReturnsHalfBatch(size: nat, c: CacheConfig)
    requires Usable(c) && size < TWO64
    ensures ShrinkAmount(size, c) == (if c.batchSize < size < c.shrinkThreshold then c.batchSize / 2 else 0)
    ensures ShrinkAmount(size, c) <= size
  {
    if c.batchSize < size < c.shrinkThreshold {
      var wrapped := (size + TWO64 - c.shrinkThreshold) % TWO64;
      assert wrapped == size + TWO64 - c.shrinkThreshold;
      assert wrapped > c.batchSize / 2;
    }
  }

  function Allocate(h: Half, c: CacheConfig): (Half, Grant)
    requires |h.cache| <= c.cacheSize
  {
    if h.cache != [] then Take(h)
    else if c.cacheSize > 0 then
      var r := Refill(h, c);
      if r.cache != [] then Take(r) else (r, Depletion)
    else if h.free == [] then (h, NullPointer)
    else (Half([], h.free[1..]), Block(h.free[0]))
  }

  function Take(h: Half): (Half, Grant)
    requires h.cache != []
  {
    (Half(h.cache[..|h.cache| - 1], h.free), Block(h.cache[|h.cache| - 1]))
  }

  /** `shrink` says whether this deallocation runs an elapsed shrink check. */
  function Deallocate(h: Half, c: CacheConfig, b: nat, shrink: bool): Half
    requires Usable(c) && |h.cache| <= c.cacheSize
  {
    if |h.cache| < c.cacheSize then
      var kept := Half(h.cache + [b], h.free);
      if shrink then
        ShrinkReturnsHalfBatch(|kept.cache|, c);
        GiveBack(kept, ShrinkAmount(|kept.cache|, c))
      else kept
    else if c.cacheSize == 0 then Half(h.cache, [b] + h.free)
    else
      var flushed := GiveBack(h, Min(c.batchSize, |h.cache|));
      Half(flushed.cache + [b], flushed.free)
  }

  // ---------------------------------------------------------------- one operation

  ghost function Count(s: seq<nat>, b: nat): nat {
    multiset(s)[b]
  }

  /** How often block b is in the cache or on the global list. */
  ghost function Stored(h: Half, b: nat): nat {
    Count(h.cache, b) + Count(h.free, b)
  }

  lemma CountConcat(s: seq<nat>, k: nat, b: nat)
    requires k <= |s|
    ensures Count(s, b) == Count(s[..k], b) + Count(s[k..], b)
  {
    assert s == s[..k] + s[k..];
  }

  lemma GiveBackKeeps(h: Half, k: nat, b: nat)
    requires k <= |h.cache|
    ensures Stored(GiveBack(h, k), b) == Stored(h, b)
  {
    CountConcat(h.cache, |h.cache| - k, b);
  }

  lemma TakeKeeps(h: Half, b: nat)
    requires h.cache != []
    ensures Stored(Take(h).0, b) + (if Take(h).1 == Block(b) then 1 else 0) == Stored(h, b)
  {
    CountConcat(h.cache, |h.cache| - 1, b);
    assert h.cache[|h.cache| - 1..] == [h.cache[|h.cache| - 1]];
  }

  lemma RefillKeeps(h: Half, c: CacheConfig, b: nat)
    requires |h.cache| <= c.cacheSize
    ensures Stored(Refill(h, c), b) == Stored(h, b) && |Refill(h, c).cache| <= c.cacheSize
  {
    CountConcat(h.free, Min(Min(c.batchSize, c.cacheSize - |h.cache|), |h.free|), b);
  }

  // ---------------------------------------------------------------- how much moves, and in what order

  /** The cache bottom to top, then the global list from its head: moving blocks across the boundary does not change this
      line. */
  function Line(h: Half): seq<nat> {
    h.cache + h.free
  }

  /** A refill moves the least of a batch, the room in the cache and what the list has, from the front of the list to the
      top of the cache. */
  lemma RefillMoves(h: Half, c: CacheConfig)
    requires |h.cache| <= c.cacheSize
    ensures var moved := |Refill(h, c).cache| - |h.cache|;
      && moved <= c.batchSize && moved <= c.cacheSize - |h.cache| && moved <= |h.free|
      && (moved == c.batchSize || moved == c.cacheSize - |h.cache| || moved == |h.free|)
    ensures Line(Refill(h, c)) == Line(h)
  {
  }

  /** Giving back moves that many blocks from the top of the cache to the front of the list. */
  lemma GiveBackMoves(h: Half, k: nat)
    requires k <= |h.cache|
    ensures |GiveBack(h, k).cache| + k == |h.cache| && Line(GiveBack(h, k)) == Line(h)
  {
  }

  /** An allocation takes the block out of the line just below the new boundary: the top of the cache, after a refill if
      the cache was empty; without a cache, the head of the list. */
  lemma AllocateTakes(h: Half, c: CacheConfig)
    requires |h.cache| <= c.cacheSize
    ensures var (h', g) := Allocate(h, c);
      && (g.Block? ==> Line(h) == h'.cache + [g.block] + h'.free)
      && (!g.Block? ==> h' == h)
      && (h.cache != [] ==> g.Block? && |h'.cache| + 1 == |h.cache|)
      && (h.cache == [] && g.Block? && c.cacheSize > 0 ==> |h'.cache| + 1 == |Refill(h, c).cache|)
      && (c.cacheSize == 0 ==> h'.cache == [])
  {
    if h.cache != [] {
      TakeTop(h);
    } else if c.cacheSize > 0 {
      var r := Refill(h, c);
      RefillMoves(h, c);
      if r.cache != [] {
        TakeTop(r);
      } else {
        assert r.free == Line(h);
      }
    } else if h.free != [] {
      assert h.free == [h.free[0]] + h.free[1..];
    }
  }

  lemma TakeTop(h: Half)
    requires h.cache != []
    ensures Take(h).0.cache + [Take(h).1.block] + Take(h).0.free == Line(h)
  {
    assert h.cache == h.cache[..|h.cache| - 1] + [h.cache[|h.cache| - 1]];
  }

  /** A deallocation puts the block on top of the cache: of a full cache a batch, or all if that is less, goes to the list
      first; and an elapsed shrink check gives back half a batch afterwards. Without a cache it heads the list. */
  lemma DeallocateMoves(h: Half, c: CacheConfig, b: nat, shrink: bool)
    requires Usable(c) && |h.cache| <= c.cacheSize
    ensures var h' := Deallocate(h, c, b, shrink);
      if c.cacheSize == 0 then h' == Half(h.cache, [b] + h.free)
      else if |h.cache| == c.cacheSize then
        && h'.cache != [] && h'.cache[|h'.cache| - 1] == b
        && h'.cache[..|h'.cache| - 1] + h'.free == Line(h)
        && |h'.free| - |h.free| == Min(c.batchSize, |h.cache|)
      else
        var size := |h.cache| + 1;
        && Line(h') == h.cache + [b] + h.free
        && |h'.free| - |h.free| == if shrink && c.batchSize < size < c.shrinkThreshold then c.batchSize / 2 else 0
  {
    if |h.cache| < c.cacheSize {
      ShrinkReturnsHalfBatch(|h.cache| + 1, c);
    } else if c.cacheSize > 0 {
      GiveBackMoves(h, Min(c.batchSize, |h.cache|));
    }
  }

  /** What is given back last is handed out first, unless a shrink check has come in between. */
  lemma FreedIsNext(h: Half, c: CacheConfig, b: nat)
    requires Usable(c) && |h.cache| <= c.cacheSize
    ensures Allocate(Deallocate(h, c, b, false), c).1 == Block(b)
    ensures Line(Allocate(Deallocate(h, c, b, false), c).0) == Line(h)
  {
    DeallocateMoves(h, c, b, false);
    if |h.cache| == c.cacheSize && c.cacheSize > 0 {
      GiveBackMoves(h, Min(c.batchSize, |h.cache|));
    }
  }

  /** An allocation reports depletion only when the caller's cache and the global list are both empty. */
  lemma DepletedOnlyWhenEmpty(h: Half, c: CacheConfig)
    requires Usable(c) && |h.cache| <= c.cacheSize
    ensures Allocate(h, c).1 == Depletion <==> c.cacheSize > 0 && h.cache == [] && h.free == []
    ensures Allocate(h, c).1 == NullPointer <==> c.cacheSize == 0 && h.cache == [] && h.free == []
  {
    assert h.cache == [] && c.cacheSize > 0 ==> |Refill(h, c).cache| == Min(Min(c.batchSize, c.cacheSize), |h.free|);
  }

  /** An allocation moves exactly the granted block out, and the cache stays within its size. */
  lemma AllocateKeeps(h: Half, c: CacheConfig, b: nat)
    requires Usable(c) && |h.cache| <= c.cacheSize
    ensures var (h', g) := Allocate(h, c);
      Stored(h', b) + (if g == Block(b) then 1 else 0) == Stored(h, b) && |h'.cache| <= c.cacheSize
  {
    if h.cache != [] {
      TakeKeeps(h, b);
    } else if c.cacheSize > 0 {
      RefillKeeps(h, c, b);
      var r := Refill(h, c);
      if r.cache != [] {
        TakeKeeps(r, b);
      }
    } else if h.free != [] {
      CountConcat(h.free, 1, b);
      assert h.free[..1] == [h.free[0]];
    }
  }

  lemma DeallocateKeeps(h: Half, c: CacheConfig, d: nat, shrink: bool, b: nat)
    requires Usable(c) && |h.cache| <= c.cacheSize
    ensures var h' := Deallocate(h, c, d, shrink);
      Stored(h', b) == Stored(h, b) + (if b == d then 1 else 0) && |h'.cache| <= c.cacheSize
  {
    if |h.cache| < c.cacheSize {
      var kept := Half(h.cache + [d], h.free);
      ShrinkReturnsHalfBatch(|kept.cache|, c);
      GiveBackKeeps(kept, ShrinkAmount(|kept.cache|, c), b);
    } else if c.cacheSize > 0 {
      GiveBackKeeps(h, Min(c.batchSize, |h.cache|), b);
    }
  }
}

/** The cache object, whose loops call the pool one block at a time. */
module ThreadCache {
  import opened TaggedLinks
  import opened CacheSpec
  import Pools = MemoryPool

  ghost predicate DistinctBlocks(blocks: seq<nat>, n: nat) {
    NoDup(blocks) && forall i | 0 <= i < |blocks| :: blocks[i] < n
  }

  /** The slots hold the cached blocks and then the first i of the list, of which the rest is left. */
  ghost predicate Obtained(slots: seq<nat>, cached: seq<nat>, free: seq<nat>, i: nat, left: seq<nat>) {
    i <= |free| && |cached| + i <= |slots| && slots[..|cached| + i] == cached + free[..i] && left == free[i..]
  }

  lemma NothingObtained(slots: seq<nat>, cached: seq<nat>, free: seq<nat>)
    requires |cached| <= |slots| && slots[..|cached|] == cached
    ensures Obtained(slots, cached, free, 0, free)
  {
  }

  lemma OneObtained(slots: seq<nat>, slots': seq<nat>, cached: seq<nat>, free: seq<nat>, i: nat, left: seq<nat>)
    requires Obtained(slots, cached, free, i, left) && left != [] && |cached| + i < |slots'|
    requires slots'[..|cached| + i + 1] == slots[..|cached| + i] + [left[0]]
    ensures Obtained(slots', cached, free, i + 1, left[1..])
  {
  }

  lemma AllObtained(slots: seq<nat>, cached: seq<nat>, free: seq<nat>, i: nat, left: seq<nat>)
    requires Obtained(slots, cached, free, i, left)
    ensures |free| == i + |left| && |cached| + i <= |slots|
    ensures slots[..|cached| + i] == cached + free[..i] && left == free[i..]
  {
  }

  class ThreadLocalCache {
    const pool: Pools.MemoryPool
    const config: CacheConfig
    const slots: array<nat>
    var currentSize: nat
    var allocationCount: nat
    var deallocationCount: nat
    var cacheHits: nat
    var cacheMisses: nat

    ghost predicate Valid()
      reads this, slots, pool, pool.links
    {
      && Usable(config) && slots.Length == config.cacheSize && currentSize <= config.cacheSize
      && pool.Valid()
      && DistinctBlocks(Line(View()), pool.blockCount)
    }

    /** This cache's blocks and the global list. */
    ghost function View(): Half
      requires currentSize <= slots.Length
      reads this, slots, pool
    {
      Half(slots[..currentSize], pool.free)
    }

    constructor (pool: Pools.MemoryPool, config: CacheConfig)
      requires pool.Valid() && Usable(config)
      ensures Valid() && fresh(slots) && this.pool == pool && this.config == config
      ensures View() == Half([], pool.free)
    {
      this.pool := pool;
      this.config := config;
      slots := new nat[config.cacheSize];
      currentSize, allocationCount, deallocationCount, cacheHits, cacheMisses := 0, 0, 0, 0, 0;
    }

    /** Fill up from the global pool, a batch at most. */
    method RefillFromGlobal()
      requires Valid()
      modifies this`currentSize, this`cacheMisses, slots, pool
      ensures Valid()
      ensures View() == Refill(old(View()), config)
      ensures cacheMisses == old(cacheMisses) + if config.cacheSize == 0 then 0 else 1
    {
      if config.cacheSize == 0 {
        return;
      }
      var objectsToGet := Min(config.batchSize, config.cacheSize - currentSize);
      var objectsObtained := ObtainBlocks(objectsToGet);
      currentSize := currentSize + objectsObtained;
      cacheMisses := cacheMisses + 1;
      RefillMoves(old(View()), config);
    }

    /** The loop of a refill: pop into the slots above the cached blocks until enough or the pool is empty. */
    method ObtainBlocks(objectsToGet: nat) returns (objectsObtained: nat)
      requires pool.Valid() && currentSize + objectsToGet <= slots.Length
      modifies slots, pool
      ensures pool.Valid()
      ensures objectsObtained == Min(objectsToGet, |old(pool.free)|)
      ensures slots[..currentSize + objectsObtained] == old(slots[..currentSize]) + old(pool.free)[..objectsObtained]
      ensures pool.free == old(pool.free)[objectsObtained..]
    {
      hide Pools.MemoryPool.Valid, Obtained;
      objectsObtained := 0;
      ghost var cached, free := slots[..currentSize], pool.free;
      NothingObtained(slots[..], cached, free);
      for i := 0 to objectsToGet
        invariant objectsObtained == i && pool.Valid()
        invariant Obtained(slots[..], cached, free, i, pool.free)
      {
        ghost var before, left := slots[..], pool.free;
        var got := ObtainOne(currentSize + objectsObtained);
        if !got {
          break;
        }
        OneObtained(before, slots[..], cached, free, i, left);
        objectsObtained := objectsObtained + 1;
      }
      AllObtained(slots[..], cached, free, objectsObtained, pool.free);
    }

    /** Pop one block into slot `at`. */
    method ObtainOne(at: nat) returns (got: bool)
      requires pool.Valid() && at < slots.Length
      modifies slots, pool
      ensures pool.Valid() && got == (old(pool.free) != [])
      ensures !got ==> pool.free == old(pool.free) && slots[..] == old(slots[..])
      ensures got ==> pool.free == old(pool.free)[1..] && slots[..at + 1] == old(slots[..at]) + [old(pool.free)[0]]
    {
      var obj := pool.AllocateRaw();
      got := obj.At?;
      if got {
        slots[at] := obj.block;
      }
    }

    /** Give the top one of the first `size` slots to the pool. */
    method ReturnOne(size: nat, ghost line: seq<nat>)
      requires pool.Valid() && 0 < size <= slots.Length
      requires Cut(slots[..], size, pool.free, line, pool.blockCount)
      modifies pool, pool.links
      ensures pool.Valid() && Cut(slots[..], size - 1, pool.free, line, pool.blockCount)
    {
      hide Cut, Pools.MemoryPool.Valid;
      TopIsOut(slots[..], size, pool.free, line, pool.blockCount);
      pool.DeallocateRaw(At(slots[size - 1]));
    }

    /** The loop of a flush or a shrink: give the top k cached blocks to the pool, top first. */
    method ReturnTop(k: nat)
      requires Valid() && k <= currentSize
      modifies pool, pool.links
      ensures pool.Valid() && Half(slots[..currentSize - k], pool.free) == GiveBack(old(View()), k)
    {
      hide Cut, Pools.MemoryPool.Valid, DistinctBlocks, GiveBack;
      ghost var h := View();
      WholeLine(slots[..], currentSize, pool.free, pool.blockCount);
      for i := 0 to k
        invariant pool.Valid() && Cut(slots[..], currentSize - i, pool.free, Line(h), pool.blockCount)
      {
        ReturnOne(currentSize - i, Line(h));
      }
      LineSplit(slots[..], currentSize - k, pool.free, h, k, pool.blockCount);
    }

    /** Give a batch back to the global pool. */
    method FlushToGlobal()
      requires Valid()
      modifies this`currentSize, pool, pool.links
      ensures Valid()
      ensures View() == GiveBack(old(View()), Min(config.batchSize, |old(View()).cache|))
    {
      if currentSize == 0 || config.cacheSize == 0 {
        GiveBackNothing(View());
        return;
      }
      DropTop(Min(config.batchSize, currentSize));
    }

    method DropTop(objectsToReturn: nat)
      requires Valid() && objectsToReturn <= currentSize
      modifies this`currentSize, pool, pool.links
      ensures Valid() && View() == GiveBack(old(View()), objectsToReturn)
    {
      ReturnTop(objectsToReturn);
      currentSize := currentSize - objectsToReturn;
      GiveBackMoves(old(View()), objectsToReturn);
    }

    /** `elapsed`: the clock says that the last check was long enough ago. */
    method MaybeShrinkCache(elapsed: bool)
      requires Valid()
      modifies this`currentSize, pool, pool.links
      ensures Valid()
      ensures View() == GiveBack(old(View()), if elapsed then ShrinkAmount(|old(View()).cache|, config) else 0)
    {
      hide DistinctBlocks, Line, GiveBack, Pools.MemoryPool.Valid;
      GiveBackNothing(View());
      if !elapsed {
        return;
      }
      ShrinkReturnsHalfBatch(currentSize, config);
      if currentSize < config.shrinkThreshold && currentSize > config.batchSize {
        DropTop(Min(config.batchSize / 2, (currentSize + TWO64 - config.shrinkThreshold) % TWO64));
      }
    }

    method FlushAllToGlobal()
      requires Valid()
      modifies this`currentSize, pool, pool.links
      ensures Valid()
      ensures View() == GiveBack(old(View()), |old(View()).cache|)
    {
      hide Cut, Pools.MemoryPool.Valid, DistinctBlocks;
      ghost var h := View();
      WholeLine(slots[..], currentSize, pool.free, pool.blockCount);
      while currentSize > 0
        modifies this`currentSize, pool, pool.links
        invariant pool.Valid() && currentSize <= slots.Length
        invariant Cut(slots[..], currentSize, pool.free, Line(h), pool.blockCount)
      {
        currentSize := currentSize - 1;
        ReturnOne(currentSize + 1, Line(h));
      }
      LineSplit(slots[..], 0, pool.free, h, |h.cache|, pool.blockCount);
      GiveBackMoves(h, |h.cache|);
    }

    /** Take the top cached block. */
    method PopSlot() returns (b: nat)
      requires Valid() && currentSize > 0
      modifies this`currentSize
      ensures Valid() && (View(), Block(b)) == Take(old(View()))
    {
      ghost var h := View();
      currentSize := currentSize - 1;
      b := slots[currentSize];
      assert slots[..currentSize] == h.cache[..currentSize];
      TakeSubset(h, pool.blockCount);
    }

    method AllocateRaw() returns (grant: Grant)
      requires Valid()
      modifies this, slots, pool
      ensures Valid()
      ensures (View(), grant) == Allocate(old(View()), config)
      ensures allocationCount == old(allocationCount) + 1 && deallocationCount == old(deallocationCount)
      ensures cacheHits == old(cacheHits) + if old(currentSize) > 0 then 1 else 0
      ensures cacheMisses == old(cacheMisses) + if old(currentSize) == 0 && config.cacheSize > 0 then 1 else 0
    {
      allocationCount := allocationCount + 1;
      if currentSize > 0 {
        cacheHits := cacheHits + 1;
        var b := PopSlot();
        return Block(b);
      }
      grant := AllocateCold();
    }

    /** The rest of an allocation when nothing is cached. */
    method AllocateCold() returns (grant: Grant)
      requires Valid() && currentSize == 0
      modifies this`currentSize, this`cacheMisses, slots, pool
      ensures Valid()
      ensures (View(), grant) == Allocate(old(View()), config)
      ensures cacheMisses == old(cacheMisses) + if config.cacheSize > 0 then 1 else 0
    {
      if config.cacheSize > 0 {
        RefillFromGlobal();
        if currentSize > 0 {
          var b := PopSlot();
          return Block(b);
        }
      }
      if config.cacheSize == 0 {
        grant := AllocateUncached();
      } else {
        grant := Depletion;
      }
    }

    method AllocateUncached() returns (grant: Grant)
      requires Valid() && config.cacheSize == 0
      modifies pool
      ensures Valid()
      ensures (View(), grant) == Allocate(old(View()), config)
    {
      var raw := pool.AllocateRaw();
      grant := if raw.At? then Block(raw.block) else NullPointer;
    }

    /** `ptr` is null or a pool block in a client's hands. */
    method DeallocateRaw(ptr: Link, elapsed: bool)
      requires Valid()
      requires ptr.At? ==> ptr.block < pool.blockCount && ptr.block !in Line(View())
      modifies this, slots, pool, pool.links
      ensures Valid()
      ensures ptr.Null? ==> unchanged(this) && View() == old(View())
      ensures ptr.At? ==>
        && deallocationCount == old(deallocationCount) + 1
        && View() == Deallocate(old(View()), config, ptr.block, elapsed && deallocationCount % 256 == 0)
    {
      hide DistinctBlocks, GiveBack, Pools.MemoryPool.Valid;
      if ptr.Null? {
        return;
      }
      deallocationCount := deallocationCount + 1;
      if currentSize < config.cacheSize {
        Store(ptr.block);
        GiveBackNothing(View());
        if deallocationCount % 256 == 0 {
          MaybeShrinkCache(elapsed);
        }
        return;
      }
      if config.cacheSize == 0 {
        DeallocateUncached(ptr.block);
        return;
      }
      FlushToGlobal();
      GiveBackMoves(old(View()), Min(config.batchSize, |old(View()).cache|));
      if currentSize < config.cacheSize {
        Store(ptr.block);
      } else {
        // The source gives the block to the pool here; but a flush of a full cache has always made room.
        assert false;
      }
    }

    method DeallocateUncached(b: nat)
      requires Valid() && config.cacheSize == 0 && b < pool.blockCount && b !in Line(View())
      modifies pool, pool.links
      ensures Valid() && View() == Half(old(View()).cache, [b] + old(View()).free)
    {
      hide DistinctBlocks, Pools.MemoryPool.Valid;
      InsertDistinct(View(), b, pool.blockCount);
      pool.DeallocateRaw(At(b));
      assert View().cache == [];
      assert [] + ([b] + old(pool.free)) == ([] + [b]) + old(pool.free);
    }

    method Store(b: nat)
      requires Valid() && currentSize < config.cacheSize
      requires b < pool.blockCount && b !in Line(View())
      modifies this`currentSize, slots
      ensures Valid() && View() == Half(old(View()).cache + [b], pool.free)
    {
      slots[currentSize] := b;
      currentSize := currentSize + 1;
      assert slots[..currentSize] == old(slots[..currentSize]) + [b];
      InsertDistinct(old(View()), b, pool.blockCount);
    }
  }

  /** The first m slots and then the list are this line of different blocks. */
  ghost predicate Cut(slots: seq<nat>, m: nat, free: seq<nat>, line: seq<nat>, n: nat) {
    m <= |slots| && slots[..m] + free == line && DistinctBlocks(line, n)
  }

  lemma WholeLine(slots: seq<nat>, m: nat, free: seq<nat>, n: nat)
    requires m <= |slots| && DistinctBlocks(slots[..m] + free, n)
    ensures Cut(slots, m, free, slots[..m] + free, n)
  {
  }

  /** The top slot can be given back, and the line is then cut one place lower. */
  lemma TopIsOut(slots: seq<nat>, m: nat, free: seq<nat>, line: seq<nat>, n: nat)
    requires Cut(slots, m, free, line, n) && m > 0
    ensures slots[m - 1] < n && slots[m - 1] !in free
    ensures Cut(slots, m - 1, [slots[m - 1]] + free, line, n)
  {
    assert line[m - 1] == slots[m - 1];
    forall i | 0 <= i < |free|
      ensures free[i] != slots[m - 1]
    {
      assert line[m + i] == free[i];
    }
    assert slots[..m] == slots[..m - 1] + [slots[m - 1]];
    assert slots[..m - 1] + ([slots[m - 1]] + free) == line;
  }

  /** The line and the place where it is cut determine both parts. */
  lemma LineSplit(slots: seq<nat>, m: nat, free: seq<nat>, h: Half, k: nat, n: nat)
    requires Cut(slots, m, free, Line(h), n) && k <= |h.cache| && m == |h.cache| - k
    ensures Half(slots[..m], free) == GiveBack(h, k) && DistinctBlocks(slots[..m] + free, n)
  {
    assert slots[..m] == Line(h)[..m] && free == Line(h)[m..];
  }

  lemma TakeSubset(h: Half, n: nat)
    requires DistinctBlocks(Line(h), n) && h.cache != []
    ensures DistinctBlocks(Line(Take(h).0), n)
  {
    var line, cut := Line(h), |h.cache| - 1;
    var rest := Line(Take(h).0);
    assert forall i | 0 <= i < |rest| :: rest[i] == line[if i < cut then i else i + 1];
  }

  lemma InsertDistinct(h: Half, b: nat, n: nat)
    requires DistinctBlocks(Line(h), n) && b < n && b !in Line(h)
    ensures DistinctBlocks(Line(Half(h.cache + [b], h.free)), n)
  {
    var line, cut := Line(h), |h.cache|;
    var more := Line(Half(h.cache + [b], h.free));
    assert forall i | 0 <= i < |more| && i != cut :: more[i] == line[if i < cut then i else i - 1];
    assert forall i | 0 <= i < |line| :: line[i] in line;
  }
}
