/** The global block pool with no other thread running: the loops of the pool as written, over the in-block links. */
module MemoryPool {
  import opened TaggedLinks

  /** The arguments of a batch deallocation that are blocks of the pool, in order. */
  function ValidBlocks(ptrs: seq<Link>, n: nat): seq<nat> {
    if ptrs == [] then [] else
      ValidBlocks(ptrs[..|ptrs| - 1], n) + if Owns(ptrs[|ptrs| - 1], n) then [ptrs[|ptrs| - 1].block] else []
  }

  /** A client may give back only blocks that are out, each once; null and foreign pointers are skipped. */
  ghost predicate Returnable(ptrs: seq<Link>, n: nat, free: seq<nat>) {
    && (forall i | 0 <= i < |ptrs| && Owns(ptrs[i], n) :: ptrs[i].block !in free)
    && (forall i, j | 0 <= i < j < |ptrs| && Owns(ptrs[i], n) :: ptrs[i] != ptrs[j])
  }

  /** How many of the arguments are blocks of the pool. */
  function OwnedCount(ptrs: seq<Link>, n: nat): nat {
    if ptrs == [] then 0 else OwnedCount(ptrs[..|ptrs| - 1], n) + if Owns(ptrs[|ptrs| - 1], n) then 1 else 0
  }

  /** The list begins with the owned arguments in argument order, each behind as many blocks as there are owned arguments
      before it, and goes on with the old list. */
  ghost predicate HeadedBy(ptrs: seq<Link>, n: nat, before: seq<nat>, after: seq<nat>) {
    var count := OwnedCount(ptrs, n);
    && |after| == count + |before| && after[count..] == before
    && (forall i | 0 <= i < |ptrs| && Owns(ptrs[i], n) ::
         OwnedCount(ptrs[..i], n) < count && after[OwnedCount(ptrs[..i], n)] == ptrs[i].block)
    && (forall k | 0 <= k < count :: At(after[k]) in ptrs && after[k] < n)
  }

  lemma {:induction false} ValidBlocksHead(ptrs: seq<Link>, n: nat, before: seq<nat>)
    ensures HeadedBy(ptrs, n, before, ValidBlocks(ptrs, n) + before)
  {
    if ptrs != [] {
      var m := |ptrs| - 1;
      ValidBlocksHead(ptrs[..m], n, []);
      var blocks := ValidBlocks(ptrs[..m], n);
      assert blocks + [] == blocks;
      forall i | 0 <= i < |ptrs| && Owns(ptrs[i], n)
        ensures OwnedCount(ptrs[..i], n) < OwnedCount(ptrs, n)
        ensures (ValidBlocks(ptrs, n) + before)[OwnedCount(ptrs[..i], n)] == ptrs[i].block
      {
        if i < m {
          assert ptrs[..m][i] == ptrs[i] && ptrs[..m][..i] == ptrs[..i];
        }
      }
      forall k | 0 <= k < OwnedCount(ptrs, n)
        ensures At((ValidBlocks(ptrs, n) + before)[k]) in ptrs && (ValidBlocks(ptrs, n) + before)[k] < n
      {
        if k < |blocks| {
          assert At((blocks + [])[k]) in ptrs[..m];
        } else {
          assert ptrs[m] in ptrs;
        }
      }
    }
  }

  /** Memory is as before outside the given blocks. */
  ghost predicate Untouched(before: seq<Tagged>, after: seq<Tagged>, blocks: seq<nat>) {
    |after| == |before| && forall k: nat | k < |before| && k !in blocks :: after[k] == before[k]
  }

  lemma UntouchedThen(a: seq<Tagged>, b: seq<Tagged>, c: seq<Tagged>, blocks: seq<nat>, more: seq<nat>)
    requires Untouched(a, b, blocks) && Untouched(b, c, more)
    requires forall k | k in blocks :: k in more
    ensures Untouched(a, c, more)
  {
  }

  lemma LinkedUntouched(before: seq<Tagged>, after: seq<Tagged>, blocks: seq<nat>, free: seq<nat>)
    requires Untouched(before, after, blocks) && Linked(before, free, Null)
    requires forall b | b in free :: b !in blocks
    ensures Linked(after, free, Null)
  {
    forall i | 0 <= i < |free|
      ensures after[free[i]] == before[free[i]]
    {
      assert free[i] in free;
    }
    LinkedFrame(before, after, free, Null);
  }

  function Min(a: nat, b: nat): nat {
    if a < b then a else b
  }

  class MemoryPool {
    const blockCount: nat
    const links: array<Tagged>
    var head: Tagged
    var allocatedCount: nat
    ghost var free: seq<nat>

    ghost predicate Valid()
      reads this, links
    {
      && links.Length == blockCount
      && Linked(links[..], free, Null) && head.ptr == First(free, Null)
      && NoDup(free)
      && allocatedCount == blockCount - |free|
    }

    constructor (n: nat)
      requires n > 0
      ensures Valid() && fresh(links) && blockCount == n
      ensures free == Iota(n) && head.tag == 1
    {
      blockCount := n;
      links := new Tagged[n];
      head := Tagged(At(0), 1);
      allocatedCount := 0;
      free := Iota(n);
      new;
      var i := 0;
      while i < n
        modifies links
        invariant 0 <= i <= n
        invariant forall k | 0 <= k < i - 1 :: links[k] == Tagged(At(k + 1), k + 2)
        invariant i > 0 ==> links[i - 1] == Tagged(Null, 0)
      {
        links[i] := Tagged(Null, 0);
        if i > 0 {
          links[i - 1] := Tagged(At(i), i + 1);
        }
        i := i + 1;
      }
    }

    /** Pop. The weak compare-exchange may fail spuriously, any number of times. */
    method AllocateRaw() returns (result: Link)
      requires Valid()
      modifies this`head, this`allocatedCount, this`free
      ensures Valid()
      ensures old(free) == [] ==> result == Null && unchanged(this)
      ensures old(free) != [] ==>
        result == At(old(free)[0]) && free == old(free)[1..] && head.tag == old(head.tag) + 1
    {
      var spurious: nat := *;
      var current := head;
      while current.ptr.At?
        invariant current == head && unchanged(this)
        decreases spurious
      {
        LinkedTail(links[..], free, Null);
        var next := links[current.ptr.block];
        var newHead := Tagged(next.ptr, current.tag + 1);
        if spurious == 0 {
          head := newHead;
          allocatedCount := allocatedCount + 1;
          free := free[1..];
          return At(current.ptr.block);
        }
        spurious := spurious - 1;
        current := head;
      }
      return Null;
    }

    /** Push. */
    method DeallocateRaw(ptr: Link)
      requires Valid() && (Owns(ptr, blockCount) ==> ptr.block !in free)
      modifies this`head, this`allocatedCount, this`free, links
      ensures Valid()
      ensures !Owns(ptr, blockCount) ==> unchanged(this) && unchanged(links)
      ensures Owns(ptr, blockCount) ==>
        && free == [ptr.block] + old(free)
        && head == Tagged(ptr, old(head.tag) + 1)
        && links[..] == old(links[..])[ptr.block := old(head)]
    {
      if !Owns(ptr, blockCount) {
        return;
      }
      OutIsFewer(ptr.block);
      links[ptr.block] := Tagged(Null, 0);
      var spurious: nat := *;
      var current := head;
      var done := false;
      while !done
        invariant current == old(head)
        invariant links[..] == old(links[..])[ptr.block := links[ptr.block]]
        invariant free == old(free) && allocatedCount == old(allocatedCount)
        invariant head == if done then Tagged(ptr, current.tag + 1) else current
        invariant done ==> links[ptr.block] == current
        decreases !done, spurious
      {
        links[ptr.block] := current;
        var newHead := Tagged(ptr, current.tag + 1);
        if spurious == 0 {
          head := newHead;
          done := true;
        } else {
          spurious := spurious - 1;
          current := head;
        }
      }
      ghost var node := old(links[..])[ptr.block := Tagged(Null, 0)];
      LinkedUntouched(old(links[..]), node, [ptr.block], free);
      TailToHead(node, links[..], [ptr.block], free, current);
      allocatedCount := allocatedCount - 1;
      free := [ptr.block] + free;
    }

    /** A block in a client's hands means the free list does not hold all of them. */
    lemma OutIsFewer(b: nat)
      requires Valid() && b < blockCount && b !in free
      ensures |free| < blockCount
    {
      Pigeonhole(free + [b], blockCount);
    }

    /** Copy out the blocks won, following their links. */
    method Collect(out: array<nat>, first: nat, walk: nat) returns (taken: nat)
      requires links.Length == blockCount && Linked(links[..], free, Null)
      requires 1 <= walk <= |free| && walk <= out.Length && first == free[0]
      modifies out
      ensures taken == walk && out[..walk] == free[..walk] && out[walk..] == old(out[walk..])
    {
      taken := 0;
      var node := first;
      for i := 0 to walk
        invariant taken == i && (i < walk ==> node == free[i])
        invariant out[..i] == free[..i] && out[i..] == old(out[i..])
      {
        ghost var before := out[..];
        out[taken] := node;
        assert out[..] == before[i := free[i]];
        assert out[..i + 1] == before[..i] + [free[i]] && out[i + 1..] == before[i..][1..];
        taken := taken + 1;
        if i < walk - 1 {
          assert links[..][free[i]].ptr == LinkTo(free, i + 1, Null);
          node := links[node].ptr.block;
        }
      }
    }

    /** Take up to `count` blocks with one compare-exchange: the head becomes the word stored in the last of them. */
    method AllocateRawBatch(out: array<nat>, count: nat) returns (taken: nat)
      requires Valid() && count <= out.Length
      modifies this`head, this`allocatedCount, this`free, out
      ensures Valid()
      ensures taken == Min(count, |old(free)|)
      ensures out[..taken] == old(free)[..taken] && out[taken..] == old(out[taken..])
      ensures free == old(free)[taken..]
      ensures head == if taken == 0 then old(head) else old(links[free[Min(count, |free|) - 1]])
      ensures taken > 0 ==> (head.tag > old(head.tag) <==> old(links[free[Min(count, |free|) - 1]].tag > head.tag))
    {
      taken := 0;
      if count == 0 {
        return;
      }
      var spurious: nat := *;
      var current := head;
      while current.ptr.At? && taken < count
        invariant taken == 0 && current == head && unchanged(this) && unchanged(out)
        decreases spurious
      {
        var nth := current.ptr.block;
        var walk := 1;
        while walk < count && links[nth].ptr.At?
          invariant 1 <= walk <= Min(count, |free|) && nth == free[walk - 1]
        {
          assert links[..][free[walk - 1]].ptr == LinkTo(free, walk, Null);
          nth := links[nth].ptr.block;
          walk := walk + 1;
        }
        assert links[..][free[walk - 1]].ptr == LinkTo(free, walk, Null);
        var newHead := links[nth];
        if spurious == 0 {
          head := newHead;
          taken := Collect(out, current.ptr.block, walk);
          allocatedCount := allocatedCount + walk;
          LinkedSuffix(links[..], free, Null, walk);
          free := free[walk..];
          break;
        }
        spurious := spurious - 1;
        current := head;
      }
    }

    /** One block of a batch: a fresh free node behind the tail. */
    method AppendNode(node: Link, batchHead: Link, batchTail: Link, ghost chain: seq<nat>)
      returns (batchHead': Link, batchTail': Link)
      requires links.Length == blockCount && Owns(node, blockCount) && node.block !in chain
      requires Linked(links[..], chain, Null) && NoDup(chain)
      requires batchHead == First(chain, Null) && batchTail == LastOf(chain)
      modifies links
      ensures Linked(links[..], chain + [node.block], Null)
      ensures batchHead' == First(chain + [node.block], Null) && batchTail' == node
      ensures Untouched(old(links[..]), links[..], chain + [node.block])
    {
      batchHead', batchTail' := batchHead, node;
      links[node.block] := Tagged(Null, 0);
      if batchHead.Null? {
        batchHead' := node;
      } else {
        links[batchTail.block] := Tagged(node, 0);
        LinkedSnoc(old(links[..]), links[..], chain, node.block);
      }
    }

    /** First half of a batch deallocation: make free nodes of the caller's blocks and link them together. */
    method BuildBatch(ptrs: array<Link>)
      returns (batchHead: Link, batchTail: Link, validCount: nat, ghost chain: seq<nat>)
      requires Valid() && Returnable(ptrs[..], blockCount, free)
      modifies links
      ensures Valid() && chain == ValidBlocks(ptrs[..], blockCount) && validCount == |chain|
      ensures batchHead == First(chain, Null) && batchTail == LastOf(chain)
      ensures Linked(links[..], chain, Null) && NoDup(chain)
      ensures forall b | b in free :: b !in chain
      ensures Untouched(old(links[..]), links[..], chain)
    {
      hide Linked, Untouched, NoDup;
      EmptyBatch(links[..]);
      batchHead, batchTail, validCount, chain := Null, Null, 0, [];
      var i := 0;
      while i < ptrs.Length
        invariant 0 <= i <= ptrs.Length
        invariant chain == ValidBlocks(ptrs[..i], blockCount) && validCount == |chain|
        invariant batchHead == First(chain, Null) && batchTail == LastOf(chain)
        invariant Linked(links[..], chain, Null) && NoDup(chain)
        invariant forall b | b in chain :: b !in free && At(b) in ptrs[..i]
        invariant Untouched(old(links[..]), links[..], chain)
      {
        assert ptrs[..i + 1][..i] == ptrs[..i];
        if Owns(ptrs[i], blockCount) {
          assert ptrs[i].block !in chain;
          ghost var before := links[..];
          batchHead, batchTail := AppendNode(ptrs[i], batchHead, batchTail, chain);
          validCount := validCount + 1;
          UntouchedThen(old(links[..]), before, links[..], chain, chain + [ptrs[i].block]);
          DistinctMore(chain, ptrs[i].block);
          chain := chain + [ptrs[i].block];
        }
        i := i + 1;
      }
      assert ptrs[..i] == ptrs[..];
      LinkedUntouched(old(links[..]), links[..], chain, free);
    }

    /** Second half: point the tail at the head and swing the head to the batch, until the exchange succeeds. */
    method Publish(batchHead: Link, batchTail: Link, validCount: nat, ghost chain: seq<nat>)
      requires Valid() && chain != [] && validCount == |chain|
      requires batchHead == First(chain, Null) && batchTail == LastOf(chain)
      requires Linked(links[..], chain, Null) && NoDup(chain)
      requires forall b | b in free :: b !in chain
      modifies this`head, this`allocatedCount, this`free, links
      ensures Valid() && free == chain + old(free) && head == Tagged(batchHead, old(head.tag) + 1)
      ensures Untouched(old(links[..]), links[..], chain)
    {
      ghost var built := links[..];
      var spurious: nat := *;
      var current := head;
      var done := false;
      while !done
        invariant current == old(head)
        invariant free == old(free) && allocatedCount == old(allocatedCount)
        invariant head == if done then Tagged(batchHead, current.tag + 1) else current
        invariant links[..] == built[batchTail.block := links[batchTail.block]]
        invariant done ==> links[batchTail.block] == current
        decreases !done, spurious
      {
        links[batchTail.block] := current;
        var newHead := Tagged(batchHead, current.tag + 1);
        if spurious == 0 {
          head := newHead;
          done := true;
        } else {
          spurious := spurious - 1;
          current := head;
        }
      }
      TailToHead(built, links[..], chain, free, current);
      Pigeonhole(chain + free, blockCount);
      allocatedCount := allocatedCount - validCount;
      free := chain + free;
    }

    /** Give back a batch: link its blocks together, then put the whole run above the old head. */
    method DeallocateRawBatch(ptrs: array<Link>)
      requires Valid() && Returnable(ptrs[..], blockCount, free)
      modifies this`head, this`allocatedCount, this`free, links
      ensures Valid()
      ensures free == ValidBlocks(ptrs[..], blockCount) + old(free)
      ensures HeadedBy(ptrs[..], blockCount, old(free), free)
      ensures head.tag == old(head.tag) + if ValidBlocks(ptrs[..], blockCount) == [] then 0 else 1
      ensures Untouched(old(links[..]), links[..], ValidBlocks(ptrs[..], blockCount))
    {
      hide Linked, Untouched, NoDup, ValidBlocks, HeadedBy, MemoryPool.Valid;
      ValidBlocksHead(ptrs[..], blockCount, free);
      ghost var start := links[..];
      var batchHead, batchTail, validCount, chain := BuildBatch(ptrs);
      if validCount == 0 {
        assert chain + free == free;
        return;
      }
      ghost var built := links[..];
      Publish(batchHead, batchTail, validCount, chain);
      UntouchedThen(start, built, links[..], chain, chain);
    }
  }

  lemma DistinctMore(chain: seq<nat>, b: nat)
    requires NoDup(chain) && b !in chain
    ensures NoDup(chain + [b])
  {
  }

  lemma EmptyBatch(mem: seq<Tagged>)
    ensures Linked(mem, [], Null) && NoDup<nat>([]) && Untouched(mem, mem, [])
  {
  }

  function LastOf(chain: seq<nat>): Link {
    if chain == [] then Null else At(chain[|chain| - 1])
  }

  /** Writing the old head into the tail of a batch puts the batch above the list. */
  lemma TailToHead(mem: seq<Tagged>, mem': seq<Tagged>, chain: seq<nat>, free: seq<nat>, head: Tagged)
    requires Linked(mem, free, Null) && Linked(mem, chain, Null) && chain != [] && NoDup(chain)
    requires forall b | b in free :: b !in chain
    requires mem' == mem[chain[|chain| - 1] := head] && head.ptr == First(free, Null)
    ensures Linked(mem', chain + free, Null) && NoDup(chain + free) && Untouched(mem, mem', chain)
  {
    assert chain[|chain| - 1] in chain;
    LinkedUntouched(mem, mem', chain, free);
    forall k | 0 <= k < |chain|
      ensures mem'[chain[k]].ptr == LinkTo(chain, k + 1, First(free, Null))
    {
      assert mem[chain[k]].ptr == LinkTo(chain, k + 1, Null);
    }
    LinkedConcat(mem', chain, free, Null);
    ChainAcyclic(mem', chain + free);
  }

  // ---------------------------------------------------------------- batch against single operations

  /** Single allocations into an array, until it is full or the pool is empty. */
  method TakeOneByOne(pool: MemoryPool, out: array<nat>, count: nat) returns (taken: nat)
    requires pool.Valid() && count <= out.Length
    modifies pool, out
    ensures pool.Valid() && taken == Min(count, |old(pool.free)|)
    ensures out[..taken] == old(pool.free)[..taken] && pool.free == old(pool.free)[taken..]
  {
    taken := 0;
    while taken < count
      invariant pool.Valid() && taken <= |old(pool.free)| && taken <= count
      invariant out[..taken] == old(pool.free)[..taken] && pool.free == old(pool.free)[taken..]
    {
      var result := pool.AllocateRaw();
      if result.Null? {
        return;
      }
      out[taken] := result.block;
      taken := taken + 1;
      assert out[..taken] == out[..taken - 1] + [result.block];
    }
  }

  /** On two pools with the same free list, one batch allocation and single allocations get the same blocks in the same
      order and leave the same list. */
  method BatchIsRepeatedPop(batch: MemoryPool, single: MemoryPool, out: array<nat>, out': array<nat>, count: nat)
    returns (taken: nat, taken': nat)
    requires batch.Valid() && single.Valid() && batch != single && batch.free == single.free
    requires out != out' && count <= out.Length && count <= out'.Length
    modifies batch, single, out, out'
    ensures batch.Valid() && single.Valid()
    ensures taken == taken' <= count && out[..taken] == out'[..taken'] && batch.free == single.free
  {
    taken := batch.AllocateRawBatch(out, count);
    taken' := TakeOneByOne(single, out', count);
  }

  /** Blocks given back as a batch are what a batch allocation of that size then takes, in the same order; the list is as
      it was before, and so are the words of all other blocks. */
  method BatchRoundTrip(pool: MemoryPool, ptrs: array<Link>, out: array<nat>) returns (taken: nat)
    requires pool.Valid() && Returnable(ptrs[..], pool.blockCount, pool.free)
    requires out.Length == |ValidBlocks(ptrs[..], pool.blockCount)|
    modifies pool, pool.links, out
    ensures pool.Valid() && taken == out.Length
    ensures out[..] == old(ValidBlocks(ptrs[..], pool.blockCount)) && pool.free == old(pool.free)
    ensures Untouched(old(pool.links[..]), pool.links[..], old(ValidBlocks(ptrs[..], pool.blockCount)))
  {
    pool.DeallocateRawBatch(ptrs);
    taken := pool.AllocateRawBatch(out, out.Length);
    assert out[..taken] == out[..];
  }

  function Reverse(s: seq<nat>): seq<nat> {
    if s == [] then [] else Reverse(s[1..]) + [s[0]]
  }

  lemma {:induction false} ReverseAppend(s: seq<nat>, x: nat)
    ensures Reverse(s + [x]) == [x] + Reverse(s)
  {
    if s == [] {
      assert s + [x] == [x] && [x][1..] == [];
    } else {
      ReverseAppend(s[1..], x);
      assert (s + [x])[1..] == s[1..] + [x];
    }
  }

  lemma {:induction false} ReverseMembers(s: seq<nat>)
    ensures forall x :: x in Reverse(s) <==> x in s
  {
    if s != [] {
      ReverseMembers(s[1..]);
      assert s == [s[0]] + s[1..];
    }
  }

  /** Blocks given back one by one lie on the list in opposite order. */
  method SinglesReverse(pool: MemoryPool, blocks: seq<nat>)
    requires pool.Valid() && NoDup(blocks)
    requires forall i | 0 <= i < |blocks| :: blocks[i] < pool.blockCount && blocks[i] !in pool.free
    modifies pool, pool.links
    ensures pool.Valid() && pool.free == Reverse(blocks) + old(pool.free)
  {
    hide MemoryPool.Valid, NoDup, Reverse;
    ghost var free := pool.free;
    NothingReversed(blocks, free);
    for i := 0 to |blocks|
      invariant pool.Valid() && pool.free == Reverse(blocks[..i]) + free
    {
      NextReversed(blocks, i, free);
      pool.DeallocateRaw(At(blocks[i]));
    }
    assert blocks[..|blocks|] == blocks;
  }

  lemma NothingReversed(blocks: seq<nat>, free: seq<nat>)
    ensures Reverse(blocks[..0]) + free == free
  {
  }

  lemma NextReversed(blocks: seq<nat>, i: nat, free: seq<nat>)
    requires i < |blocks| && NoDup(blocks) && blocks[i] !in free
    ensures blocks[i] !in Reverse(blocks[..i]) + free
    ensures [blocks[i]] + (Reverse(blocks[..i]) + free) == Reverse(blocks[..i + 1]) + free
  {
    ReverseMembers(blocks[..i]);
    assert blocks[..i + 1] == blocks[..i] + [blocks[i]];
    ReverseAppend(blocks[..i], blocks[i]);
    assert forall j | 0 <= j < i :: blocks[..i][j] == blocks[j];
  }

  /** Unlike the single operations, a batch allocation can take the head tag back to an earlier value. */
  method BatchAllocationLowersTag() returns (before: nat, after: nat)
    ensures after < before
  {
    var pool := new MemoryPool(2);
    var p := pool.AllocateRaw();
    pool.DeallocateRaw(p);
    before := pool.head.tag;
    var out := new nat[1];
    var k := pool.AllocateRawBatch(out, 1);
    after := pool.head.tag;
  }
}
