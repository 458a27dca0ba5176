/** Any number of threads' caches over one pool, each refill, flush and shrink taken apart into its single calls of the
    global pool. Such a call is one atomic stack operation; everything between two calls is local to the thread. */
module CacheSteps {
  import opened TaggedLinks
  import opened CacheSpec

  datatype Pc =
    | Idle
    | Refilling(obtained: nat, want: nat)                // in the refill loop of an allocation
    | Refilled(obtained: nat)                            // loop left, current_size_ not yet raised
    | Returning(given: nat, total: nat, pending: Link)   // in the loop of a flush (with the block to store) or shrink
    | Storing(block: nat)                                // flushed, about to store
    | Draining                                           // in the loop of flush_all_to_global
    | PopDirect                                          // no cache: about to call allocate_raw of the pool
    | PushDirect(block: nat)                             // no cache: about to call deallocate_raw of the pool

  /** The slot array, current_size_, and where the thread is. */
  datatype Thread = Thread(slots: seq<nat>, size: nat, pc: Pc)

  datatype Act = Alloc | Dealloc(block: nat, shrink: bool) | FlushAll | Advance

  /** What a step does to its thread and the global list, and the block it hands to the client. */
  datatype Effect = Effect(thread: Thread, free: seq<nat>, granted: Link, depleted: bool)

  /** Every slot index that a step uses is inside the array. */
  predicate ThreadOk(c: CacheConfig, th: Thread) {
    && |th.slots| == c.cacheSize && th.size <= c.cacheSize
    && match th.pc
       case Refilling(o, w) => o <= w && 1 <= w && th.size + w <= c.cacheSize
       case Refilled(o) => th.size + o <= c.cacheSize
       case Returning(d, k, p) => d <= k <= th.size && (p.At? ==> 1 <= k)
       case Storing(_) => th.size < c.cacheSize
       case _ => true
  }

  /** The first step of an operation. */
  function Begin(c: CacheConfig, th: Thread, free: seq<nat>, act: Act): Effect
    requires Usable(c) && ThreadOk(c, th) && !act.Advance?
  {
    match act
    case Alloc =>
      if th.size > 0 then Effect(th.(size := th.size - 1), free, At(th.slots[th.size - 1]), false)
      else if c.cacheSize > 0 then
        Effect(th.(pc := Refilling(0, Min(c.batchSize, c.cacheSize - th.size))), free, Null, false)
      else Effect(th.(pc := PopDirect), free, Null, false)
    case Dealloc(b, shrink) =>
      if th.size < c.cacheSize then
        var k := if shrink then ShrinkAmount(th.size + 1, c) else 0;
        Effect(Thread(th.slots[th.size := b], th.size + 1, if k > 0 then Returning(0, k, Null) else Idle), free, Null, false)
      else if c.cacheSize == 0 then Effect(th.(pc := PushDirect(b)), free, Null, false)
      else Effect(th.(pc := Returning(0, Min(c.batchSize, th.size), At(b))), free, Null, false)
    case FlushAll => Effect(th.(pc := Draining), free, Null, false)
  }

  /** The next step of a running operation: at most one call of the global pool. */
  function Continue(c: CacheConfig, th: Thread, free: seq<nat>): Effect
    requires ThreadOk(c, th)
  {
    match th.pc
    case Idle => Effect(th, free, Null, false)
    case Refilling(o, w) =>
      if o == w || free == [] then Effect(th.(pc := Refilled(o)), free, Null, false)
      else Effect(th.(slots := th.slots[th.size + o := free[0]], pc := Refilling(o + 1, w)), free[1..], Null, false)
    case Refilled(o) =>
      if th.size + o > 0
      then Effect(Thread(th.slots, th.size + o - 1, Idle), free, At(th.slots[th.size + o - 1]), false)
      else Effect(th.(pc := Idle), free, Null, true)
    case Returning(d, k, p) =>
      if d < k then Effect(th.(pc := Returning(d + 1, k, p)), [th.slots[th.size - 1 - d]] + free, Null, false)
      else Effect(Thread(th.slots, th.size - k, if p.At? then Storing(p.block) else Idle), free, Null, false)
    case Storing(b) =>
      if th.size < c.cacheSize then Effect(Thread(th.slots[th.size := b], th.size + 1, Idle), free, Null, false)
      else Effect(th.(pc := PushDirect(b)), free, Null, false)
    case Draining =>
      if th.size > 0 then Effect(th.(size := th.size - 1), [th.slots[th.size - 1]] + free, Null, false)
      else Effect(th.(pc := Idle), free, Null, false)
    case PopDirect =>
      if free == [] then Effect(th.(pc := Idle), free, Null, false)
      else Effect(th.(pc := Idle), free[1..], At(free[0]), false)
    case PushDirect(b) => Effect(th.(pc := Idle), [b] + free, Null, false)
  }

  lemma BeginOk(c: CacheConfig, th: Thread, free: seq<nat>, act: Act)
    requires Usable(c) && ThreadOk(c, th) && th.pc.Idle? && !act.Advance?
    ensures ThreadOk(c, Begin(c, th, free, act).thread)
  {
    if act.Dealloc? && th.size < c.cacheSize {
      ShrinkReturnsHalfBatch(th.size + 1, c);
    }
  }

  lemma ContinueOk(c: CacheConfig, th: Thread, free: seq<nat>)
    requires ThreadOk(c, th)
    ensures ThreadOk(c, Continue(c, th, free).thread)
  {
  }

  // ---------------------------------------------------------------- counting one block

  function One(b: bool): nat {
    if b then 1 else 0
  }

  function InList(free: seq<nat>, b: nat): nat {
    if free == [] then 0 else One(free[0] == b) + InList(free[1..], b)
  }

  /** Among the first k slots. */
  function InSlots(slots: seq<nat>, k: nat, b: nat): nat
    requires k <= |slots|
  {
    if k == 0 then 0 else InSlots(slots, k - 1, b) + One(slots[k - 1] == b)
  }

  /** The slots that hold this thread's blocks: those already filled by a refill count although current_size_ does not yet
      cover them, those already given back by a flush do not although it still does. */
  function Held(th: Thread): int {
    match th.pc
    case Refilling(o, _) => th.size + o
    case Refilled(o) => th.size + o
    case Returning(d, _, _) => th.size - d
    case _ => th.size
  }

  /** A block that an operation carries outside the slots. */
  function Carried(pc: Pc): Link {
    match pc
    case Returning(_, _, p) => p
    case Storing(b) => At(b)
    case PushDirect(b) => At(b)
    case _ => Null
  }

  function InThread(c: CacheConfig, th: Thread, b: nat): nat
    requires ThreadOk(c, th)
  {
    InSlots(th.slots, Held(th), b) + One(Carried(th.pc) == At(b))
  }

  lemma {:induction false} SlotAbove(slots: seq<nat>, k: nat, at: nat, x: nat, b: nat)
    requires k <= at < |slots|
    ensures InSlots(slots[at := x], k, b) == InSlots(slots, k, b)
  {
    if k > 0 {
      SlotAbove(slots, k - 1, at, x, b);
    }
  }

  lemma PushCounts(x: nat, free: seq<nat>, b: nat)
    ensures InList([x] + free, b) == One(x == b) + InList(free, b)
  {
    assert ([x] + free)[1..] == free;
  }

  /** The first step keeps the block where it was, moves it to the client, or takes it from the client. */
  lemma BeginMoves(c: CacheConfig, th: Thread, free: seq<nat>, act: Act, b: nat)
    requires Usable(c) && ThreadOk(c, th) && th.pc.Idle? && !act.Advance?
    ensures var e := Begin(c, th, free, act);
      && ThreadOk(c, e.thread) && e.free == free
      && InThread(c, e.thread, b) + One(e.granted == At(b)) == InThread(c, th, b) + One(act.Dealloc? && act.block == b)
  {
    match act
    case Dealloc(d, shrink) =>
      if th.size < c.cacheSize {
        SlotAbove(th.slots, th.size, th.size, d, b);
        ShrinkReturnsHalfBatch(th.size + 1, c);
      }
    case _ =>
  }

  ghost predicate Moved(c: CacheConfig, th: Thread, free: seq<nat>, b: nat)
    requires ThreadOk(c, th)
  {
    var e := Continue(c, th, free);
    && ThreadOk(c, e.thread)
    && InThread(c, e.thread, b) + InList(e.free, b) + One(e.granted == At(b)) == InThread(c, th, b) + InList(free, b)
  }

  lemma TakingMoves(c: CacheConfig, th: Thread, free: seq<nat>, b: nat)
    requires ThreadOk(c, th) && (th.pc.Refilling? || th.pc.Refilled? || th.pc.PopDirect?)
    ensures Moved(c, th, free, b)
  {
    if th.pc.Refilling? && th.pc.obtained < th.pc.want && free != [] {
      SlotAbove(th.slots, th.size + th.pc.obtained, th.size + th.pc.obtained, free[0], b);
    }
  }

  lemma GivingMoves(c: CacheConfig, th: Thread, free: seq<nat>, b: nat)
    requires ThreadOk(c, th) && (th.pc.Returning? || th.pc.Draining? || th.pc.PushDirect?)
    ensures Moved(c, th, free, b)
  {
    match th.pc
    case Returning(d, k, p) =>
      if d < k {
        PushCounts(th.slots[th.size - 1 - d], free, b);
      }
    case Draining =>
      if th.size > 0 {
        PushCounts(th.slots[th.size - 1], free, b);
      }
    case PushDirect(x) => PushCounts(x, free, b);
  }

  lemma StoringMoves(c: CacheConfig, th: Thread, free: seq<nat>, b: nat)
    requires ThreadOk(c, th) && (th.pc.Storing? || th.pc.Idle?)
    ensures Moved(c, th, free, b)
  {
    if th.pc.Storing? {
      SlotAbove(th.slots, th.size, th.size, th.pc.block, b);
    }
  }

  /** So does every later step, which may also exchange one block with the global list. */
  lemma ContinueMoves(c: CacheConfig, th: Thread, free: seq<nat>, b: nat)
    requires ThreadOk(c, th)
    ensures Moved(c, th, free, b)
  {
    hide Moved, Continue;
    match th.pc
    case Refilling(_, _) => TakingMoves(c, th, free, b);
    case Refilled(_) => TakingMoves(c, th, free, b);
    case PopDirect => TakingMoves(c, th, free, b);
    case Storing(_) => StoringMoves(c, th, free, b);
    case Idle => StoringMoves(c, th, free, b);
    case _ => GivingMoves(c, th, free, b);
  }

  /** An allocation that reports depletion has found the global list empty at its first pop, with its own cache empty. */
  lemma DepletionFoundNothing(c: CacheConfig, th: Thread, free: seq<nat>)
    requires ThreadOk(c, th)
    ensures Continue(c, th, free).depleted <==> th.pc == Refilled(0) && th.size == 0
    ensures th.pc.Refilling? && Continue(c, th, free).thread.pc == Refilled(0) ==> free == []
  {
  }

  // ---------------------------------------------------------------- all threads

  /** The global list, the threads, and the blocks in clients' hands. */
  datatype System = System(free: seq<nat>, threads: seq<Thread>, hands: set<nat>)

  datatype Move = Move(t: nat, act: Act)

  predicate AllOk(c: CacheConfig, s: System) {
    forall t | 0 <= t < |s.threads| :: ThreadOk(c, s.threads[t])
  }

  /** A thread begins an operation when it runs none; any thread may give back a block that any thread allocated. */
  predicate Enabled(s: System, m: Move) {
    && m.t < |s.threads|
    && (m.act.Advance? <==> !s.threads[m.t].pc.Idle?)
    && (m.act.Dealloc? ==> m.act.block in s.hands)
  }

  function EffectOf(c: CacheConfig, s: System, m: Move): Effect
    requires Usable(c) && AllOk(c, s) && Enabled(s, m)
  {
    var th := s.threads[m.t];
    if m.act.Advance? then Continue(c, th, s.free) else Begin(c, th, s.free, m.act)
  }

  function Do(c: CacheConfig, s: System, m: Move): System
    requires Usable(c) && AllOk(c, s) && Enabled(s, m)
  {
    var e := EffectOf(c, s, m);
    var hands := if m.act.Dealloc? then s.hands - {m.act.block} else s.hands;
    System(e.free, s.threads[m.t := e.thread], if e.granted.At? then hands + {e.granted.block} else hands)
  }

  function InThreads(c: CacheConfig, threads: seq<Thread>, b: nat): nat
    requires forall t | 0 <= t < |threads| :: ThreadOk(c, threads[t])
  {
    if threads == [] then 0
    else InThreads(c, threads[..|threads| - 1], b) + InThread(c, threads[|threads| - 1], b)
  }

  /** In how many places block b is: global list, slots and operations of the threads, client hands. */
  function Places(c: CacheConfig, s: System, b: nat): nat
    requires AllOk(c, s)
  {
    InList(s.free, b) + InThreads(c, s.threads, b) + One(b in s.hands)
  }

  ghost predicate OnePlaceEach(c: CacheConfig, s: System, n: nat)
    requires AllOk(c, s)
  {
    forall b: nat :: Places(c, s, b) == One(b < n)
  }

  lemma {:induction false} ThreadsUpdate(c: CacheConfig, threads: seq<Thread>, t: nat, th: Thread, b: nat)
    requires forall u | 0 <= u < |threads| :: ThreadOk(c, threads[u])
    requires t < |threads| && ThreadOk(c, th)
    ensures InThreads(c, threads[t := th], b) + InThread(c, threads[t], b) == InThreads(c, threads, b) + InThread(c, th, b)
  {
    var m := |threads| - 1;
    if t == m {
      assert threads[t := th][..m] == threads[..m];
    } else {
      ThreadsUpdate(c, threads[..m], t, th, b);
      assert threads[t := th][..m] == threads[..m][t := th];
    }
  }

  lemma StepMoves(c: CacheConfig, s: System, m: Move, b: nat)
    requires Usable(c) && AllOk(c, s) && Enabled(s, m) && Places(c, s, b) <= 1
    ensures AllOk(c, Do(c, s, m)) && Places(c, Do(c, s, m), b) == Places(c, s, b)
  {
    hide InThread, InList;
    var th, e := s.threads[m.t], EffectOf(c, s, m);
    if m.act.Advance? {
      ContinueMoves(c, th, s.free, b);
    } else {
      BeginMoves(c, th, s.free, m.act, b);
    }
    ThreadsUpdate(c, s.threads, m.t, e.thread, b);
  }

  /** Every step of every thread keeps each block in exactly one place and every current_size_ within the cache size. */
  lemma StepKeeps(c: CacheConfig, s: System, m: Move, n: nat)
    requires Usable(c) && AllOk(c, s) && Enabled(s, m) && OnePlaceEach(c, s, n)
    ensures AllOk(c, Do(c, s, m)) && OnePlaceEach(c, Do(c, s, m), n)
  {
    hide Places, Do, AllOk, Enabled;
    StepMoves(c, s, m, 0);
    forall b: nat
      ensures Places(c, Do(c, s, m), b) == One(b < n)
    {
      StepMoves(c, s, m, b);
    }
  }

  // ---------------------------------------------------------------- whole runs

  datatype Outcome = Stuck | Reached(system: System)

  /** The state after any interleaving of the threads' steps. */
  function After(c: CacheConfig, s: System, run: seq<Move>): Outcome
    requires Usable(c)
  {
    if run == [] then Reached(s)
    else
      var before := After(c, s, run[..|run| - 1]);
      if before.Reached? && AllOk(c, before.system) && Enabled(before.system, run[|run| - 1])
      then Reached(Do(c, before.system, run[|run| - 1])) else Stuck
  }

  /** A new pool: every block on the global list, every cache empty with arbitrary words in its slots. */
  predicate Fresh(c: CacheConfig, s: System, n: nat) {
    && s.free == Iota(n) && s.hands == {}
    && forall t | 0 <= t < |s.threads| ::
         |s.threads[t].slots| == c.cacheSize && s.threads[t].size == 0 && s.threads[t].pc.Idle?
  }

  lemma {:induction false} FreshThreads(c: CacheConfig, threads: seq<Thread>, b: nat)
    requires forall t | 0 <= t < |threads| ::
      |threads[t].slots| == c.cacheSize && threads[t].size == 0 && threads[t].pc.Idle?
    ensures InThreads(c, threads, b) == 0
  {
    if threads != [] {
      FreshThreads(c, threads[..|threads| - 1], b);
    }
  }

  lemma {:induction false} InListAppend(free: seq<nat>, x: nat, b: nat)
    ensures InList(free + [x], b) == InList(free, b) + One(x == b)
  {
    if free != [] {
      InListAppend(free[1..], x, b);
      assert (free + [x])[1..] == free[1..] + [x];
    }
  }

  lemma {:induction false} InIota(n: nat, b: nat)
    ensures InList(Iota(n), b) == One(b < n)
  {
    if n > 0 {
      InIota(n - 1, b);
      InListAppend(Iota(n - 1), n - 1, b);
      assert Iota(n) == Iota(n - 1) + [n - 1];
    }
  }

  /** In every interleaving of any number of threads' allocations, deallocations, refills, flushes and shrinks, each block
      is in exactly one of the global list, one thread's slots, one thread's running operation, and client hands; and no
      cache ever holds more than its size. */
  lemma {:induction false} CachesConserveBlocks(c: CacheConfig, start: System, n: nat, run: seq<Move>)
    requires Usable(c) && Fresh(c, start, n) && After(c, start, run).Reached?
    ensures AllOk(c, After(c, start, run).system) && OnePlaceEach(c, After(c, start, run).system, n)
  {
    if run == [] {
      forall b: nat
        ensures Places(c, start, b) == One(b < n)
      {
        InIota(n, b);
        FreshThreads(c, start.threads, b);
      }
    } else {
      hide Do, OnePlaceEach, AllOk, Fresh;
      CachesConserveBlocks(c, start, n, run[..|run| - 1]);
      StepKeeps(c, After(c, start, run[..|run| - 1]).system, run[|run| - 1], n);
    }
  }

  // ---------------------------------------------------------------- one thread undisturbed

  /** Steps left, at most. */
  function Work(th: Thread): int {
    match th.pc
    case Idle => 0
    case Refilling(o, w) => 2 + w - o
    case Refilled(_) => 1
    case Returning(d, k, p) => 3 + k - d
    case Draining => 1 + th.size
    case _ => 1
  }

  /** The rest of a running operation when no other thread moves. */
  function Finish(c: CacheConfig, th: Thread, free: seq<nat>): Effect
    requires ThreadOk(c, th)
    decreases Work(th)
  {
    if th.pc.Idle? then Effect(th, free, Null, false)
    else
      ContinueOk(c, th, free);
      var e := Continue(c, th, free);
      if e.thread.pc.Idle? then e else Finish(c, e.thread, e.free)
  }

  lemma FinishStep(c: CacheConfig, th: Thread, free: seq<nat>, th': Thread, free': seq<nat>)
    requires ThreadOk(c, th) && !th.pc.Idle? && Continue(c, th, free) == Effect(th', free', Null, false)
    ensures ThreadOk(c, th') && (!th'.pc.Idle? ==> Finish(c, th, free) == Finish(c, th', free'))
    ensures th'.pc.Idle? ==> Finish(c, th, free) == Effect(th', free', Null, false) == Finish(c, th', free')
  {
    ContinueOk(c, th, free);
  }

  /** A whole operation when no other thread moves. */
  function Alone(c: CacheConfig, th: Thread, free: seq<nat>, act: Act): Effect
    requires Usable(c) && ThreadOk(c, th) && th.pc.Idle? && !act.Advance?
  {
    BeginOk(c, th, free, act);
    var e := Begin(c, th, free, act);
    if e.thread.pc.Idle? then e else Finish(c, e.thread, e.free)
  }

  function HalfOf(c: CacheConfig, th: Thread, free: seq<nat>): Half
    requires ThreadOk(c, th)
  {
    Half(th.slots[..th.size], free)
  }

  function GrantOf(e: Effect): Grant {
    if e.granted.At? then Block(e.granted.block) else if e.depleted then Depletion else NullPointer
  }

  lemma {:induction false} RefillLoop(c: CacheConfig, th: Thread, free: seq<nat>) returns (th': Thread)
    requires ThreadOk(c, th) && th.pc.Refilling?
    ensures var (o, w) := (th.pc.obtained, th.pc.want); var k := Min(w - o, |free|);
      && ThreadOk(c, th') && th'.pc == Refilled(o + k) && th'.size == th.size
      && th'.slots[..th.size + o + k] == th.slots[..th.size + o] + free[..k]
      && Finish(c, th, free) == Finish(c, th', free[k..])
    decreases th.pc.want - th.pc.obtained
  {
    hide Finish;
    var o, w := th.pc.obtained, th.pc.want;
    if o == w || free == [] {
      th' := th.(pc := Refilled(o));
      assert free[0..] == free;
      FinishStep(c, th, free, th', free);
    } else {
      var at := th.size + o;
      var next := th.(slots := th.slots[at := free[0]], pc := Refilling(o + 1, w));
      FinishStep(c, th, free, next, free[1..]);
      th' := RefillLoop(c, next, free[1..]);
      Taken(th.slots, at, free, Min(w - o, |free|));
    }
  }

  lemma Taken(slots: seq<nat>, at: nat, free: seq<nat>, k: nat)
    requires at < |slots| && 1 <= k <= |free|
    ensures slots[at := free[0]][..at + 1] + free[1..][..k - 1] == slots[..at] + free[..k]
    ensures free[1..][k - 1..] == free[k..]
  {
  }

  lemma {:induction false} ReturnLoop(c: CacheConfig, th: Thread, free: seq<nat>)
    requires ThreadOk(c, th) && th.pc.Returning?
    ensures var Returning(d, k, p) := th.pc;
      var cut := Thread(th.slots, th.size - k, if p.At? then Storing(p.block) else Idle);
      ThreadOk(c, cut) && Finish(c, th, free) == Finish(c, cut, th.slots[th.size - k..th.size - d] + free)
    decreases th.pc.total - th.pc.given
  {
    hide Finish;
    var Returning(d, k, p) := th.pc;
    if d < k {
      var next := th.(pc := Returning(d + 1, k, p));
      var x := th.slots[th.size - 1 - d];
      FinishStep(c, th, free, next, [x] + free);
      ReturnLoop(c, next, [x] + free);
      TopFirst(th.slots, th.size - k, th.size - 1 - d, free);
    } else {
      assert th.slots[th.size - k..th.size - d] + free == free;
      FinishStep(c, th, free, Thread(th.slots, th.size - k, if p.At? then Storing(p.block) else Idle), free);
    }
  }

  lemma TopFirst(slots: seq<nat>, low: nat, top: nat, free: seq<nat>)
    requires low <= top < |slots|
    ensures slots[low..top] + ([slots[top]] + free) == slots[low..top + 1] + free
  {
  }

  lemma {:induction false} DrainLoop(c: CacheConfig, th: Thread, free: seq<nat>)
    requires ThreadOk(c, th) && th.pc.Draining?
    ensures Finish(c, th, free) == Effect(Thread(th.slots, 0, Idle), th.slots[..th.size] + free, Null, false)
    decreases th.size
  {
    hide Finish;
    if th.size > 0 {
      var next := th.(size := th.size - 1);
      FinishStep(c, th, free, next, [th.slots[th.size - 1]] + free);
      DrainLoop(c, next, [th.slots[th.size - 1]] + free);
      TopFirst(th.slots, 0, th.size - 1, free);
    } else {
      assert th.slots[..0] + free == free;
      FinishStep(c, th, free, th.(pc := Idle), free);
    }
  }

  /** Run without another thread in between, the steps of an operation are the operation that the cache object is proved
      to perform. */
  lemma AloneIsAllocate(c: CacheConfig, th: Thread, free: seq<nat>)
    requires Usable(c) && ThreadOk(c, th) && th.pc.Idle?
    ensures var e := Alone(c, th, free, Alloc);
      ThreadOk(c, e.thread) && (HalfOf(c, e.thread, e.free), GrantOf(e)) == Allocate(HalfOf(c, th, free), c)
  {
    BeginOk(c, th, free, Alloc);
    var next := Begin(c, th, free, Alloc).thread;
    if th.size > 0 {
      assert th.slots[..th.size][..th.size - 1] == th.slots[..th.size - 1];
    } else if c.cacheSize > 0 {
      var th' := RefillLoop(c, next, free);
      var k := th'.pc.obtained;
      var r := Refill(HalfOf(c, th, free), c);
      assert th'.slots[..k] == r.cache;
      assert k > 0 ==> th'.slots[..k][..k - 1] == th'.slots[..k - 1];
      ContinueOk(c, th', free[k..]);
    } else {
      ContinueOk(c, next, free);
    }
  }

  ghost predicate IsDeallocate(c: CacheConfig, th: Thread, free: seq<nat>, b: nat, shrink: bool)
    requires Usable(c) && ThreadOk(c, th) && th.pc.Idle?
  {
    var e := Alone(c, th, free, Dealloc(b, shrink));
    ThreadOk(c, e.thread) && HalfOf(c, e.thread, e.free) == Deallocate(HalfOf(c, th, free), c, b, shrink)
  }

  lemma AloneKeeps(c: CacheConfig, th: Thread, free: seq<nat>, b: nat, shrink: bool)
    requires Usable(c) && ThreadOk(c, th) && th.pc.Idle? && th.size < c.cacheSize
    ensures IsDeallocate(c, th, free, b, shrink)
  {
    hide Finish, GiveBack, Continue;
    var next := Begin(c, th, free, Dealloc(b, shrink)).thread;
    BeginOk(c, th, free, Dealloc(b, shrink));
    assert next.slots[..next.size] == th.slots[..th.size] + [b];
    if next.pc.Idle? {
      GiveBackNothing(HalfOf(c, next, free));
    } else {
      ShrinkAlone(c, next, free);
    }
  }

  lemma ShrinkAlone(c: CacheConfig, th: Thread, free: seq<nat>)
    requires ThreadOk(c, th) && th.pc.Returning? && th.pc.given == 0 && th.pc.pending.Null?
    ensures var e := Finish(c, th, free);
      ThreadOk(c, e.thread) && HalfOf(c, e.thread, e.free) == GiveBack(HalfOf(c, th, free), th.pc.total)
  {
    hide Finish, Continue;
    var k := th.pc.total;
    ReturnLoop(c, th, free);
    CutTop(th.slots, th.size, k);
    FinishIdle(c, Thread(th.slots, th.size - k, Idle), th.slots[th.size - k..th.size] + free);
  }

  lemma FinishIdle(c: CacheConfig, th: Thread, free: seq<nat>)
    requires ThreadOk(c, th) && th.pc.Idle?
    ensures Finish(c, th, free) == Effect(th, free, Null, false)
  {
  }

  lemma AloneFlushes(c: CacheConfig, th: Thread, free: seq<nat>, b: nat, shrink: bool)
    requires Usable(c) && ThreadOk(c, th) && th.pc.Idle? && th.size == c.cacheSize > 0
    ensures IsDeallocate(c, th, free, b, shrink)
  {
    hide Finish;
    var k := Min(c.batchSize, th.size);
    var flushing := th.(pc := Returning(0, k, At(b)));
    ReturnLoop(c, flushing, free);
    CutTop(th.slots, th.size, k);
    var free' := th.slots[th.size - k..th.size] + free;
    var stored := Thread(th.slots[th.size - k := b], th.size - k + 1, Idle);
    FinishStep(c, Thread(th.slots, th.size - k, Storing(b)), free', stored, free');
    assert stored.slots[..th.size - k + 1] == th.slots[..th.size - k] + [b];
  }

  lemma AloneIsDeallocate(c: CacheConfig, th: Thread, free: seq<nat>, b: nat, shrink: bool)
    requires Usable(c) && ThreadOk(c, th) && th.pc.Idle?
    ensures IsDeallocate(c, th, free, b, shrink)
  {
    if th.size < c.cacheSize {
      AloneKeeps(c, th, free, b, shrink);
    } else if c.cacheSize > 0 {
      AloneFlushes(c, th, free, b, shrink);
    } else {
      FinishStep(c, th.(pc := PushDirect(b)), free, th, [b] + free);
    }
  }

  lemma CutTop(slots: seq<nat>, size: nat, k: nat)
    requires k <= size <= |slots|
    ensures slots[..size][..size - k] == slots[..size - k] && slots[..size][size - k..] == slots[size - k..size]
  {
  }

  lemma AloneIsFlushAll(c: CacheConfig, th: Thread, free: seq<nat>)
    requires Usable(c) && ThreadOk(c, th) && th.pc.Idle?
    ensures var e := Alone(c, th, free, FlushAll);
      ThreadOk(c, e.thread) && HalfOf(c, e.thread, e.free) == GiveBack(HalfOf(c, th, free), th.size)
  {
    BeginOk(c, th, free, FlushAll);
    DrainLoop(c, th.(pc := Draining), free);
  }
}
