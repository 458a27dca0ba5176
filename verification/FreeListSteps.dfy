/** The global free list under any number of threads running allocate_raw, deallocate_raw and
    deallocate_raw_batch: one step per atomic load, store or compare-exchange. Blocks in client
    hands are overwritten at will, and a popping thread may read a word that another thread owns. */
module FreeListSteps {
  import opened TaggedLinks

  datatype Pc =
    | Idle
    | PopRead(cur: Tagged)                                            // head loaded, about to load cur.ptr->next
    | PopCas(cur: Tagged, next: Tagged)                               // about to compare-exchange
    | PopCount(block: nat)                                            // block won, not yet counted
    | PushBuild(todo: seq<Link>, chain: seq<nat>)                     // making free nodes of the arguments
    | PushLink(todo: seq<Link>, chain: seq<nat>, node: nat)           // node made, about to link the tail to it
    | PushLoad(chain: seq<nat>)                                       // about to load the head
    | PushStore(chain: seq<nat>, cur: Tagged)                         // about to store cur in the tail
    | PushCas(chain: seq<nat>, cur: Tagged)                           // about to compare-exchange
    | PushCount(count: nat)                                           // batch published, not yet counted

  /** A thread and the blocks its client holds. */
  datatype Thread = Thread(pc: Pc, held: set<nat>)

  datatype State = State(mem: seq<Tagged>, head: Tagged, count: int, threads: seq<Thread>)

  datatype Action =
    | LoadForPop(t: nat)
    | ReadNext(t: nat)
    | TryPop(t: nat, spurious: bool)
    | CountPop(t: nat)
    | StartPush(t: nat, ptrs: seq<Link>)
    | Build(t: nat)
    | LinkTail(t: nat)
    | LoadForPush(t: nat)
    | StoreNext(t: nat)
    | TryPush(t: nat, spurious: bool)
    | CountPush(t: nat)
    | ClientWrite(t: nat, block: nat, word: Tagged)
    | HandOver(t: nat, to: nat, block: nat)

  /** What a step means to an observer who sees only the stack of free blocks. */
  datatype Event = Silent | Popped(block: nat) | FoundEmpty | Pushed(blocks: seq<nat>)

  /** A freshly built pool: head tag 1, block i linked to block i+1 with tag i+2. */
  function Init(n: nat, threadCount: nat): State
    requires n > 0
  {
    State(seq(n, (i: nat) => if i + 1 < n then Tagged(At(i + 1), i + 2) else Tagged(Null, 0)),
          Tagged(At(0), 1), 0, seq(threadCount, _ => Thread(Idle, {})))
  }

  function Load(mem: seq<Tagged>, l: Link): Tagged {
    if Owns(l, |mem|) then mem[l.block] else Tagged(Null, 0)
  }

  function Store(mem: seq<Tagged>, block: nat, word: Tagged): seq<Tagged> {
    if block < |mem| then mem[block := word] else mem
  }

  function StoreLast(mem: seq<Tagged>, chain: seq<nat>, word: Tagged): seq<Tagged> {
    if chain == [] then mem else Store(mem, chain[|chain| - 1], word)
  }

  /** deallocate's contract with its caller: its own blocks, each once; anything else is skipped. */
  ghost predicate Returnable(ptrs: seq<Link>, n: nat, held: set<nat>) {
    && (forall i | 0 <= i < |ptrs| && Owns(ptrs[i], n) :: ptrs[i].block in held)
    && (forall i, j | 0 <= i < j < |ptrs| && Owns(ptrs[i], n) :: ptrs[i] != ptrs[j])
  }

  function Blocks(ptrs: seq<Link>, n: nat): set<nat> {
    set i | 0 <= i < |ptrs| && Owns(ptrs[i], n) :: ptrs[i].block
  }

  ghost predicate Enabled(s: State, a: Action) {
    a.t < |s.threads| &&
    var pc := s.threads[a.t].pc;
    match a
    case LoadForPop(_) => pc.Idle?
    case ReadNext(_) => pc.PopRead?
    case TryPop(_, _) => pc.PopCas?
    case CountPop(_) => pc.PopCount?
    case StartPush(t, ptrs) => pc.Idle? && Returnable(ptrs, |s.mem|, s.threads[t].held)
    case Build(_) => pc.PushBuild?
    case LinkTail(_) => pc.PushLink?
    case LoadForPush(_) => pc.PushLoad?
    case StoreNext(_) => pc.PushStore?
    case TryPush(_, _) => pc.PushCas?
    case CountPush(_) => pc.PushCount?
    case ClientWrite(t, b, _) => b in s.threads[t].held
    case HandOver(t, u, b) => u < |s.threads| && u != t && b in s.threads[t].held
  }

  /** A weak compare-exchange succeeds when the head is the expected word, unless it fails spuriously. */
  predicate PopWins(s: State, a: Action) {
    a.TryPop? && a.t < |s.threads| && s.threads[a.t].pc.PopCas? && !a.spurious && s.head == s.threads[a.t].pc.cur
  }

  predicate PushWins(s: State, a: Action) {
    a.TryPush? && a.t < |s.threads| && s.threads[a.t].pc.PushCas? && !a.spurious && s.head == s.threads[a.t].pc.cur
  }

  /** The loop test of allocate_raw on the head just loaded. */
  function PopFrom(head: Tagged): Pc {
    if head.ptr.Null? then Idle else PopRead(head)
  }

  function AfterBuild(n: nat, todo: seq<Link>, chain: seq<nat>): Pc {
    if todo == [] then (if chain == [] then Idle else PushLoad(chain))
    else if !Owns(todo[0], n) then PushBuild(todo[1..], chain)
    else if chain == [] then PushBuild(todo[1..], [todo[0].block])
    else PushLink(todo[1..], chain, todo[0].block)
  }

  /** The stepping thread afterwards. */
  ghost function Moved(s: State, a: Action): Thread
    requires Enabled(s, a)
  {
    var th := s.threads[a.t];
    var pc := th.pc;
    match a
    case LoadForPop(_) => th.(pc := PopFrom(s.head))
    case ReadNext(_) => th.(pc := PopCas(pc.cur, Load(s.mem, pc.cur.ptr)))
    case TryPop(_, _) =>
      th.(pc := if PopWins(s, a) then PopCount(if pc.cur.ptr.At? then pc.cur.ptr.block else 0) else PopFrom(s.head))
    case CountPop(_) => Thread(Idle, th.held + {pc.block})
    case StartPush(_, ptrs) => Thread(PushBuild(ptrs, []), th.held - Blocks(ptrs, |s.mem|))
    case Build(_) => th.(pc := AfterBuild(|s.mem|, pc.todo, pc.chain))
    case LinkTail(_) => th.(pc := PushBuild(pc.todo, pc.chain + [pc.node]))
    case LoadForPush(_) => th.(pc := PushStore(pc.chain, s.head))
    case StoreNext(_) => th.(pc := PushCas(pc.chain, pc.cur))
    case TryPush(_, _) => th.(pc := if PushWins(s, a) then PushCount(|pc.chain|) else PushStore(pc.chain, s.head))
    case CountPush(_) => th.(pc := Idle)
    case ClientWrite(_, _, _) => th
    case HandOver(_, _, b) => th.(held := th.held - {b})
  }

  ghost function Memory(s: State, a: Action): seq<Tagged>
    requires Enabled(s, a)
  {
    var pc := s.threads[a.t].pc;
    match a
    case Build(_) =>
      if pc.todo != [] && Owns(pc.todo[0], |s.mem|) then Store(s.mem, pc.todo[0].block, Tagged(Null, 0)) else s.mem
    case LinkTail(_) => StoreLast(s.mem, pc.chain, Tagged(At(pc.node), 0))
    case StoreNext(_) => StoreLast(s.mem, pc.chain, pc.cur)
    case ClientWrite(_, b, word) => Store(s.mem, b, word)
    case _ => s.mem
  }

  ghost function Head(s: State, a: Action): Tagged
    requires Enabled(s, a)
  {
    var pc := s.threads[a.t].pc;
    if PopWins(s, a) then Tagged(pc.next.ptr, pc.cur.tag + 1)
    else if PushWins(s, a) then Tagged(First(pc.chain, Null), pc.cur.tag + 1)
    else s.head
  }

  ghost function Count(s: State, a: Action): int
    requires Enabled(s, a)
  {
    match a
    case CountPop(_) => s.count + 1
    case CountPush(_) => s.count - s.threads[a.t].pc.count
    case _ => s.count
  }

  ghost function Do(s: State, a: Action): State
    requires Enabled(s, a)
  {
    var threads := s.threads[a.t := Moved(s, a)];
    State(Memory(s, a), Head(s, a), Count(s, a),
          if a.HandOver? then threads[a.to := threads[a.to].(held := threads[a.to].held + {a.block})] else threads)
  }

  ghost function EventOf(s: State, a: Action): Event
    requires Enabled(s, a)
  {
    var pc := s.threads[a.t].pc;
    if PopWins(s, a) then Popped(if pc.cur.ptr.At? then pc.cur.ptr.block else 0)
    else if PushWins(s, a) then Pushed(pc.chain)
    else if (a.LoadForPop? || a.TryPop?) && s.head.ptr.Null? then FoundEmpty
    else Silent
  }

  /** The atomic stack: what one event may do to it, or None when the stack forbids the event. */
  datatype Verdict = Refused | Stack(blocks: seq<nat>)

  function StackStep(stack: seq<nat>, e: Event): Verdict {
    match e
    case Silent => Stack(stack)
    case Popped(b) => if stack != [] && stack[0] == b then Stack(stack[1..]) else Refused
    case FoundEmpty => if stack == [] then Stack(stack) else Refused
    case Pushed(blocks) => Stack(blocks + stack)
  }

  // ---------------------------------------------------------------- invariants

  /** Blocks of a running operation. */
  ghost predicate InFlight(n: nat, pc: Pc, b: nat) {
    match pc
    case PopCount(block) => b == block
    case PushBuild(todo, chain) => b in chain || (b < n && At(b) in todo)
    case PushLink(todo, chain, node) => b in chain || b == node || (b < n && At(b) in todo)
    case PushLoad(chain) => b in chain
    case PushStore(chain, _) => b in chain
    case PushCas(chain, _) => b in chain
    case _ => false
  }

  /** The thread owns block b: in its client's hands or in its running operation. */
  ghost predicate Has(n: nat, th: Thread, b: nat) {
    b in th.held || InFlight(n, th.pc, b)
  }

  /** Every block is on the free list or with exactly one thread. */
  ghost predicate Partition(n: nat, threads: seq<Thread>, stack: seq<nat>) {
    && (forall b | b in stack :: b < n)
    && (forall t, b: nat {:trigger Has(n, threads[t], b)} | 0 <= t < |threads| && Has(n, threads[t], b) ::
         b < n && b !in stack)
    && (forall t, u, b: nat | 0 <= t < |threads| && 0 <= u < |threads| && t != u && Has(n, threads[t], b) ::
         !Has(n, threads[u], b))
    && (forall b | 0 <= b < n && b !in stack :: exists t :: 0 <= t < |threads| && Has(n, threads[t], b))
  }

  /** A head value a thread remembers is old, or it is the present head. */
  ghost predicate Remembered(head: Tagged, cur: Tagged) {
    cur.tag <= head.tag && (cur.tag == head.tag ==> cur == head)
  }

  /** The batch under construction: linked from its first block to its last. */
  ghost predicate Batch(mem: seq<Tagged>, held: set<nat>, chain: seq<nat>) {
    && NoDup(chain)
    && (forall i | 0 <= i < |chain| :: chain[i] < |mem| && chain[i] !in held)
    && (forall i | 0 <= i < |chain| - 1 :: mem[chain[i]].ptr == LinkTo(chain, i + 1, Null))
  }

  ghost predicate Pending(n: nat, held: set<nat>, chain: seq<nat>, todo: seq<Link>) {
    && (forall i, j | 0 <= i < j < |todo| && Owns(todo[i], n) :: todo[i] != todo[j])
    && (forall i | 0 <= i < |todo| && Owns(todo[i], n) :: todo[i].block !in held && todo[i].block !in chain)
  }

  ghost predicate PcOk(mem: seq<Tagged>, head: Tagged, th: Thread) {
    match th.pc
    case Idle => true
    case PopRead(cur) => Owns(cur.ptr, |mem|) && Remembered(head, cur)
    case PopCas(cur, next) =>
      Owns(cur.ptr, |mem|) && Remembered(head, cur) && (cur == head ==> next == mem[cur.ptr.block])
    case PopCount(b) => b !in th.held
    case PushBuild(todo, chain) => Batch(mem, th.held, chain) && Pending(|mem|, th.held, chain, todo)
    case PushLink(todo, chain, node) =>
      && chain != [] && Batch(mem, th.held, chain) && node < |mem| && node !in th.held && node !in chain
      && Pending(|mem|, th.held, chain, todo) && At(node) !in todo
    case PushLoad(chain) => chain != [] && Batch(mem, th.held, chain)
    case PushStore(chain, cur) => chain != [] && Batch(mem, th.held, chain) && Remembered(head, cur)
    case PushCas(chain, cur) =>
      && chain != [] && Batch(mem, th.held, chain) && Remembered(head, cur)
      && mem[chain[|chain| - 1]].ptr == cur.ptr
    case PushCount(_) => true
  }

  ghost predicate FreeList(mem: seq<Tagged>, head: Tagged, stack: seq<nat>) {
    Linked(mem, stack, Null) && head.ptr == First(stack, Null) && NoDup(stack)
  }

  ghost predicate Inv(s: State, stack: seq<nat>) {
    && FreeList(s.mem, s.head, stack)
    && Partition(|s.mem|, s.threads, stack)
    && (forall t | 0 <= t < |s.threads| :: PcOk(s.mem, s.head, s.threads[t]))
  }

  // ---------------------------------------------------------------- one step

  /** One thread exchanging blocks with the stack keeps the partition. */
  lemma Repartition(n: nat, threads: seq<Thread>, stack: seq<nat>, t: nat, th': Thread, stack': seq<nat>)
    requires Partition(n, threads, stack) && t < |threads|
    requires forall b: nat :: (Has(n, th', b) || b in stack') <==> (Has(n, threads[t], b) || b in stack)
    requires forall b: nat :: !(Has(n, th', b) && b in stack')
    ensures Partition(n, threads[t := th'], stack')
  {
    var threads' := threads[t := th'];
    forall b | 0 <= b < n && b !in stack'
      ensures exists u :: 0 <= u < |threads'| && Has(n, threads'[u], b)
    {
      if Has(n, th', b) {
        assert Has(n, threads'[t], b);
      } else {
        var u :| 0 <= u < |threads| && Has(n, threads[u], b);
        assert Has(n, threads'[u], b);
      }
    }
  }

  /** Writes to its own blocks and a head that only moves to a new tag leave the other threads' facts alone. */
  lemma OthersKeep(s: State, stack: seq<nat>, t: nat, mem': seq<Tagged>, head': Tagged, u: nat)
    requires Inv(s, stack) && t < |s.threads| && u < |s.threads| && u != t
    requires |mem'| == |s.mem|
    requires forall b | 0 <= b < |s.mem| && mem'[b] != s.mem[b] :: Has(|s.mem|, s.threads[t], b)
    requires head' == s.head || head'.tag == s.head.tag + 1
    ensures PcOk(mem', head', s.threads[u])
  {
    var n, th := |s.mem|, s.threads[u];
    assert PcOk(s.mem, s.head, th);
    assert forall b: nat | Has(n, th, b) :: b < n && mem'[b] == s.mem[b] by {
      forall b: nat | Has(n, th, b) ensures b < n && mem'[b] == s.mem[b] {
        assert !Has(n, s.threads[t], b);
      }
    }
    match th.pc
    case PopCas(cur, next) =>
      if cur == head' {
        assert cur.ptr.block in stack && !Has(n, s.threads[t], cur.ptr.block);
      }
    case PushBuild(todo, chain) => BatchFrame(s.mem, mem', th, chain);
    case PushLink(todo, chain, node) => BatchFrame(s.mem, mem', th, chain);
    case PushLoad(chain) => BatchFrame(s.mem, mem', th, chain);
    case PushStore(chain, _) => BatchFrame(s.mem, mem', th, chain);
    case PushCas(chain, _) => BatchFrame(s.mem, mem', th, chain); assert chain[|chain| - 1] in chain;
    case _ =>
  }

  lemma BatchFrame(mem: seq<Tagged>, mem': seq<Tagged>, th: Thread, chain: seq<nat>)
    requires Batch(mem, th.held, chain) && |mem'| == |mem|
    requires forall i | 0 <= i < |chain| :: InFlight(|mem|, th.pc, chain[i])
    requires forall b: nat | Has(|mem|, th, b) :: b < |mem| && mem'[b] == mem[b]
    ensures Batch(mem', th.held, chain)
  {
    forall i | 0 <= i < |chain|
      ensures mem'[chain[i]] == mem[chain[i]]
    {
      assert Has(|mem|, th, chain[i]);
    }
  }

  /** What remains to be shown of a step that moves blocks only between its thread and the stack. */
  lemma OneThread(s: State, stack: seq<nat>, a: Action, stack': seq<nat>)
    requires Inv(s, stack) && Enabled(s, a) && !a.HandOver?
    requires |Memory(s, a)| == |s.mem|
    requires forall b | 0 <= b < |s.mem| && Memory(s, a)[b] != s.mem[b] :: Has(|s.mem|, s.threads[a.t], b)
    requires Head(s, a) == s.head || Head(s, a).tag == s.head.tag + 1
    requires forall b: nat ::
      (Has(|s.mem|, Moved(s, a), b) || b in stack') <==> (Has(|s.mem|, s.threads[a.t], b) || b in stack)
    requires forall b: nat :: !(Has(|s.mem|, Moved(s, a), b) && b in stack')
    requires PcOk(Memory(s, a), Head(s, a), Moved(s, a))
    requires FreeList(Memory(s, a), Head(s, a), stack')
    ensures Inv(Do(s, a), stack')
  {
    Repartition(|s.mem|, s.threads, stack, a.t, Moved(s, a), stack');
    forall u: nat | u < |s.threads| && u != a.t
      ensures PcOk(Memory(s, a), Head(s, a), s.threads[u])
    {
      OthersKeep(s, stack, a.t, Memory(s, a), Head(s, a), u);
    }
  }

  lemma SameBlocks(s: State, stack: seq<nat>, a: Action)
    requires Inv(s, stack) && Enabled(s, a)
    requires forall b: nat :: Has(|s.mem|, Moved(s, a), b) ==> Has(|s.mem|, s.threads[a.t], b)
    ensures forall b: nat :: !(Has(|s.mem|, Moved(s, a), b) && b in stack)
  {
  }

  /** Steps that touch neither memory nor head nor ownership. */
  lemma QuietStep(s: State, stack: seq<nat>, a: Action)
    requires Inv(s, stack) && Enabled(s, a) && !a.HandOver?
    requires Memory(s, a) == s.mem && Head(s, a) == s.head
    requires forall b: nat :: Has(|s.mem|, Moved(s, a), b) <==> Has(|s.mem|, s.threads[a.t], b)
    requires PcOk(s.mem, s.head, Moved(s, a))
    ensures Inv(Do(s, a), stack)
  {
    SameBlocks(s, stack, a);
    OneThread(s, stack, a, stack);
  }

  lemma HeadIsFree(s: State, stack: seq<nat>)
    requires Inv(s, stack) && s.head.ptr.At?
    ensures stack != [] && s.head.ptr.block == stack[0] && stack[0] < |s.mem|
    ensures s.mem[stack[0]].ptr == First(stack[1..], Null)
  {
    LinkedTail(s.mem, stack, Null);
  }

  /** The CAS of a pop decides by the tag: when it succeeds, the successor read earlier is still the true one,
      even though the word may meanwhile have been in another client's hands. */
  lemma AbaSafety(s: State, stack: seq<nat>, a: Action)
    requires Inv(s, stack) && Enabled(s, a) && PopWins(s, a)
    ensures stack != [] && s.threads[a.t].pc.cur.ptr == At(stack[0])
    ensures s.threads[a.t].pc.next == s.mem[stack[0]] && s.threads[a.t].pc.next.ptr == First(stack[1..], Null)
  {
    HeadIsFree(s, stack);
    assert PcOk(s.mem, s.head, s.threads[a.t]);
  }

  lemma PopStep(s: State, stack: seq<nat>, a: Action)
    requires Inv(s, stack) && Enabled(s, a) && PopWins(s, a)
    ensures stack != [] && EventOf(s, a) == Popped(stack[0]) && Inv(Do(s, a), stack[1..])
  {
    AbaSafety(s, stack, a);
    LinkedTail(s.mem, stack, Null);
    var b := stack[0];
    assert b in stack && !Has(|s.mem|, s.threads[a.t], b);
    assert stack == [b] + stack[1..];
    forall c: nat | Has(|s.mem|, Moved(s, a), c)
      ensures c !in stack[1..]
    {
      assert c == b || Has(|s.mem|, s.threads[a.t], c);
    }
    OneThread(s, stack, a, stack[1..]);
  }

  lemma PushStep(s: State, stack: seq<nat>, a: Action)
    requires Inv(s, stack) && Enabled(s, a) && PushWins(s, a)
    ensures EventOf(s, a) == Pushed(s.threads[a.t].pc.chain)
    ensures Inv(Do(s, a), s.threads[a.t].pc.chain + stack)
  {
    var th := s.threads[a.t];
    var chain := th.pc.chain;
    assert PcOk(s.mem, s.head, th);
    assert Linked(s.mem, chain, First(stack, Null)) by {
      forall i | 0 <= i < |chain|
        ensures chain[i] < |s.mem| && s.mem[chain[i]].ptr == LinkTo(chain, i + 1, First(stack, Null))
      {
      }
    }
    LinkedConcat(s.mem, chain, stack, Null);
    ChainAcyclic(s.mem, chain + stack);
    forall b: nat | Has(|s.mem|, Moved(s, a), b)
      ensures b !in chain + stack
    {
      assert Has(|s.mem|, th, b);
    }
    OneThread(s, stack, a, chain + stack);
  }

  lemma BuildStep(s: State, stack: seq<nat>, a: Action)
    requires Inv(s, stack) && Enabled(s, a) && a.Build?
    ensures Inv(Do(s, a), stack)
  {
    var n, th := |s.mem|, s.threads[a.t];
    var todo, chain := th.pc.todo, th.pc.chain;
    assert PcOk(s.mem, s.head, th);
    if todo == [] {
      QuietStep(s, stack, a);
    } else {
      assert todo == [todo[0]] + todo[1..];
      assert Pending(n, th.held, chain, todo[1..]);
      if Owns(todo[0], n) {
        var b := todo[0].block;
        assert At(b) in todo && Has(n, th, b);
        assert At(b) !in todo[1..];
        assert forall i | 0 <= i < |chain| :: Memory(s, a)[chain[i]] == s.mem[chain[i]];
        FreeFrame(s, stack, a.t, Memory(s, a));
        SameBlocks(s, stack, a);
        OneThread(s, stack, a, stack);
      } else {
        assert forall b: nat | b < n :: At(b) in todo <==> At(b) in todo[1..];
        QuietStep(s, stack, a);
      }
    }
  }

  /** The stepping thread's own writes miss the free list. */
  lemma FreeFrame(s: State, stack: seq<nat>, t: nat, mem': seq<Tagged>)
    requires Inv(s, stack) && t < |s.threads| && |mem'| == |s.mem|
    requires forall b | 0 <= b < |s.mem| && mem'[b] != s.mem[b] :: Has(|s.mem|, s.threads[t], b)
    ensures FreeList(mem', s.head, stack)
  {
    forall i | 0 <= i < |stack|
      ensures mem'[stack[i]] == s.mem[stack[i]]
    {
      assert stack[i] in stack;
    }
    LinkedFrame(s.mem, mem', stack, Null);
  }

  lemma OwnWrite(s: State, stack: seq<nat>, a: Action)
    requires Inv(s, stack) && Enabled(s, a) && (a.LinkTail? || a.StoreNext? || a.ClientWrite?)
    requires |Memory(s, a)| == |s.mem|
    requires forall b | 0 <= b < |s.mem| && Memory(s, a)[b] != s.mem[b] :: Has(|s.mem|, s.threads[a.t], b)
    requires PcOk(Memory(s, a), s.head, Moved(s, a))
    requires forall b: nat :: Has(|s.mem|, Moved(s, a), b) <==> Has(|s.mem|, s.threads[a.t], b)
    ensures Inv(Do(s, a), stack)
  {
    FreeFrame(s, stack, a.t, Memory(s, a));
    SameBlocks(s, stack, a);
    OneThread(s, stack, a, stack);
  }

  lemma ClientWriteStep(s: State, stack: seq<nat>, a: Action)
    requires Inv(s, stack) && Enabled(s, a) && a.ClientWrite?
    ensures Inv(Do(s, a), stack)
  {
    var th := s.threads[a.t];
    assert PcOk(s.mem, s.head, th) && Has(|s.mem|, th, a.block);
    if th.pc.PopCas? && th.pc.cur == s.head {
      HeadIsFree(s, stack);
      assert stack[0] in stack;
    }
    OwnWrite(s, stack, a);
  }

  lemma LinkTailStep(s: State, stack: seq<nat>, a: Action)
    requires Inv(s, stack) && Enabled(s, a) && a.LinkTail?
    ensures Inv(Do(s, a), stack)
  {
    var th := s.threads[a.t];
    var chain := th.pc.chain;
    assert PcOk(s.mem, s.head, th) && Has(|s.mem|, th, chain[|chain| - 1]);
    var longer := chain + [th.pc.node];
    assert Batch(Memory(s, a), th.held, longer) by {
      forall i | 0 <= i < |longer| - 1
        ensures Memory(s, a)[longer[i]].ptr == LinkTo(longer, i + 1, Null)
      {
        assert i < |chain| - 1 ==> s.mem[chain[i]].ptr == LinkTo(chain, i + 1, Null);
      }
    }
    OwnWrite(s, stack, a);
  }

  lemma StoreNextStep(s: State, stack: seq<nat>, a: Action)
    requires Inv(s, stack) && Enabled(s, a) && a.StoreNext?
    ensures Inv(Do(s, a), stack)
  {
    var th := s.threads[a.t];
    var chain := th.pc.chain;
    assert PcOk(s.mem, s.head, th) && Has(|s.mem|, th, chain[|chain| - 1]);
    OwnWrite(s, stack, a);
  }

  lemma StartStep(s: State, stack: seq<nat>, a: Action)
    requires Inv(s, stack) && Enabled(s, a) && a.StartPush?
    ensures Inv(Do(s, a), stack)
  {
    var n, th := |s.mem|, s.threads[a.t];
    forall b: nat
      ensures Has(n, Moved(s, a), b) <==> Has(n, th, b)
    {
      if b < n && At(b) in a.ptrs {
        var i :| 0 <= i < |a.ptrs| && a.ptrs[i] == At(b);
        assert Owns(a.ptrs[i], n);
      }
      if b in Blocks(a.ptrs, n) {
        assert At(b) in a.ptrs;
      }
      if b in th.held {
        assert Has(n, th, b);
      }
    }
    QuietStep(s, stack, a);
  }

  lemma HandOverPartition(n: nat, threads: seq<Thread>, stack: seq<nat>, t: nat, u: nat, b: nat)
    requires Partition(n, threads, stack) && t < |threads| && u < |threads| && u != t
    requires b in threads[t].held && !InFlight(n, threads[t].pc, b)
    ensures var from, to := threads[t].(held := threads[t].held - {b}), threads[u].(held := threads[u].held + {b});
      Partition(n, threads[t := from][u := to], stack)
  {
    var from, to := threads[t], threads[u];
    assert Has(n, from, b) && !Has(n, to, b);
    var mid := threads[t := from.(held := from.held - {b})];
    forall c: nat | Has(n, mid[t], c)
      ensures c !in stack + [b]
    {
      assert Has(n, from, c);
    }
    Repartition(n, threads, stack, t, mid[t], stack + [b]);
    forall c: nat | Has(n, to.(held := to.held + {b}), c)
      ensures c !in stack
    {
      assert Has(n, to, c) || c == b;
    }
    Repartition(n, mid, stack + [b], u, to.(held := to.held + {b}), stack);
  }

  lemma HandOverStep(s: State, stack: seq<nat>, a: Action)
    requires Inv(s, stack) && Enabled(s, a) && a.HandOver?
    ensures Inv(Do(s, a), stack)
  {
    var n, b := |s.mem|, a.block;
    var from, to := s.threads[a.t], s.threads[a.to];
    assert PcOk(s.mem, s.head, from) && PcOk(s.mem, s.head, to);
    assert Has(n, from, b) && !Has(n, to, b);
    HandOverPartition(n, s.threads, stack, a.t, a.to, b);
    HeldGrows(s.mem, s.head, to, b);
    assert PcOk(s.mem, s.head, from.(held := from.held - {b}));
  }

  lemma HeldGrows(mem: seq<Tagged>, head: Tagged, th: Thread, b: nat)
    requires PcOk(mem, head, th) && !Has(|mem|, th, b)
    ensures PcOk(mem, head, th.(held := th.held + {b}))
  {
  }

  /** Steps that only move the program counter. */
  lemma MoveStep(s: State, stack: seq<nat>, a: Action)
    requires Inv(s, stack) && Enabled(s, a) && !PopWins(s, a) && !PushWins(s, a)
    requires a.LoadForPop? || a.ReadNext? || a.TryPop? || a.CountPop? || a.LoadForPush? || a.TryPush? || a.CountPush?
    ensures Inv(Do(s, a), stack)
  {
    assert PcOk(s.mem, s.head, s.threads[a.t]);
    if s.head.ptr.At? {
      HeadIsFree(s, stack);
    }
    QuietStep(s, stack, a);
  }

  /** Every step keeps the invariant, and what it does to the free list is one step of an atomic stack. */
  lemma StepRefines(s: State, stack: seq<nat>, a: Action)
    requires Inv(s, stack) && Enabled(s, a)
    ensures StackStep(stack, EventOf(s, a)).Stack?
    ensures Inv(Do(s, a), StackStep(stack, EventOf(s, a)).blocks)
  {
    if PopWins(s, a) {
      PopStep(s, stack, a);
    } else if PushWins(s, a) {
      PushStep(s, stack, a);
    } else {
      match a
      case Build(_) => BuildStep(s, stack, a);
      case LinkTail(_) => LinkTailStep(s, stack, a);
      case StoreNext(_) => StoreNextStep(s, stack, a);
      case ClientWrite(_, _, _) => ClientWriteStep(s, stack, a);
      case StartPush(_, _) => StartStep(s, stack, a);
      case HandOver(_, _, _) => HandOverStep(s, stack, a);
      case _ => MoveStep(s, stack, a);
    }
  }

  // ---------------------------------------------------------------- whole runs

  datatype Outcome = Stuck | Reached(state: State)

  /** The state after a run: any interleaving of any threads' steps. */
  ghost function After(s: State, run: seq<Action>): Outcome {
    if run == [] then Reached(s) else
      var before := After(s, run[..|run| - 1]);
      if before.Reached? && Enabled(before.state, run[|run| - 1])
      then Reached(Do(before.state, run[|run| - 1])) else Stuck
  }

  /** What the run did to the stack of free blocks. */
  ghost function Events(s: State, run: seq<Action>): seq<Event>
    requires After(s, run).Reached?
  {
    if run == [] then [] else
      Events(s, run[..|run| - 1]) + [EventOf(After(s, run[..|run| - 1]).state, run[|run| - 1])]
  }

  function Replay(stack: seq<nat>, events: seq<Event>): Verdict {
    if events == [] then Stack(stack) else
      var before := Replay(stack, events[..|events| - 1]);
      if before.Stack? then StackStep(before.blocks, events[|events| - 1]) else Refused
  }

  lemma InitInv(n: nat, threadCount: nat)
    requires n > 0
    ensures Inv(Init(n, threadCount), Iota(n))
  {
    forall b | 0 <= b < n
      ensures b in Iota(n)
    {
      assert Iota(n)[b] == b;
    }
  }

  /** Every interleaving is an atomic LIFO stack: the events in step order replay on the stack of all blocks,
      and the stack they leave is the chain from the head, which with the threads' blocks partitions the pool. */
  lemma {:induction false} RunsAreAtomicStack(n: nat, threadCount: nat, run: seq<Action>)
    requires n > 0 && After(Init(n, threadCount), run).Reached?
    ensures Replay(Iota(n), Events(Init(n, threadCount), run)).Stack?
    ensures Inv(After(Init(n, threadCount), run).state, Replay(Iota(n), Events(Init(n, threadCount), run)).blocks)
  {
    var s := Init(n, threadCount);
    if run == [] {
      InitInv(n, threadCount);
    } else {
      var m := |run| - 1;
      RunsAreAtomicStack(n, threadCount, run[..m]);
      var events := Events(s, run);
      assert events[..|events| - 1] == Events(s, run[..m]);
      StepRefines(After(s, run[..m]).state, Replay(Iota(n), Events(s, run[..m])).blocks, run[m]);
    }
  }

  /** No block is lost or given to two threads, and the blocks that can be reached from the head are exactly the
      ones that no thread owns, each reached once. */
  lemma NoBlockLostOrShared(n: nat, threadCount: nat, run: seq<Action>, chain: seq<nat>)
    requires n > 0 && After(Init(n, threadCount), run).Reached?
    requires var s := After(Init(n, threadCount), run).state;
      Linked(s.mem, chain, Null) && First(chain, Null) == s.head.ptr
    ensures var s := After(Init(n, threadCount), run).state;
      && Replay(Iota(n), Events(Init(n, threadCount), run)) == Stack(chain)
      && NoDup(chain)
      && Partition(|s.mem|, s.threads, chain)
  {
    RunsAreAtomicStack(n, threadCount, run);
    var s := Init(n, threadCount);
    ChainUnique(After(s, run).state.mem, chain, Replay(Iota(n), Events(s, run)).blocks);
  }

  /** Successful compare-exchanges of threads other than t. */
  ghost function WinsOfOthers(s: State, run: seq<Action>, t: nat): nat
    requires After(s, run).Reached?
  {
    if run == [] then 0 else
      var m := |run| - 1;
      var x := After(s, run[..m]).state;
      WinsOfOthers(s, run[..m], t) + if run[m].t != t && (PopWins(x, run[m]) || PushWins(x, run[m])) then 1 else 0
  }

  /** Over any steps that hold no compare-exchange of thread t, the tag grows by exactly the number of other threads'
      successes, and the head is unchanged if and only if there was none. */
  lemma {:induction false} TagCountsWins(s: State, run: seq<Action>, t: nat)
    requires After(s, run).Reached?
    requires forall i | 0 <= i < |run| && run[i].t == t :: !run[i].TryPop? && !run[i].TryPush?
    ensures After(s, run).state.head.tag == s.head.tag + WinsOfOthers(s, run, t)
    ensures After(s, run).state.head == s.head <==> WinsOfOthers(s, run, t) == 0
  {
    if run != [] {
      TagCountsWins(s, run[..|run| - 1], t);
    }
  }

  /** The head value that a thread has loaded and not yet tried to replace. */
  function Loaded(pc: Pc): (cur: set<Tagged>) {
    match pc
    case PopRead(cur) => {cur}
    case PopCas(cur, _) => {cur}
    case PushStore(_, cur) => {cur}
    case PushCas(_, cur) => {cur}
    case _ => {}
  }

  /** The steps that load the head: the two loads, and a compare-exchange, which loads it when it fails. */
  predicate Loads(a: Action, t: nat) {
    a.t == t && (a.LoadForPop? || a.LoadForPush? || a.TryPop? || a.TryPush?)
  }

  lemma LoadStep(s: State, a: Action, t: nat, cur: Tagged)
    requires Enabled(s, a) && t < |s.threads| && cur in Loaded(Do(s, a).threads[t].pc)
    ensures Loads(a, t) ==> cur == Do(s, a).head
    ensures !Loads(a, t) ==> cur in Loaded(s.threads[t].pc)
  {
  }

  /** Thread t loaded this head value with step k - 1 of the run and has not loaded or tried since. */
  ghost predicate LoadedAt(s: State, run: seq<Action>, t: nat, k: nat, cur: Tagged) {
    && 0 < k <= |run| && Loads(run[k - 1], t)
    && After(s, run[..k]).Reached? && After(s, run[..k]).state.head == cur
    && forall i | k <= i < |run| :: !Loads(run[i], t)
  }

  /** Every head value that a thread remembers is one that it has loaded. */
  lemma {:induction false} LoadOf(s: State, run: seq<Action>, t: nat, cur: Tagged) returns (k: nat)
    requires After(s, run).Reached? && t < |s.threads| && s.threads[t].pc.Idle?
    requires t < |After(s, run).state.threads| && cur in Loaded(After(s, run).state.threads[t].pc)
    ensures LoadedAt(s, run, t, k, cur)
  {
    hide Do, Enabled, Loaded, Loads;
    NothingLoadedYet(s, run, t, cur);
    var m := |run| - 1;
    ThreadsStay(s, run[..m]);
    LoadStep(After(s, run[..m]).state, run[m], t, cur);
    if Loads(run[m], t) {
      k := |run|;
      assert run[..k] == run;
    } else {
      k := LoadOf(s, run[..m], t, cur);
      assert run[..m][..k] == run[..k];
      assert forall i | k <= i < m :: run[i] == run[..m][i];
    }
  }

  lemma NothingLoadedYet(s: State, run: seq<Action>, t: nat, cur: Tagged)
    requires After(s, run).Reached? && t < |s.threads| && s.threads[t].pc.Idle?
    requires t < |After(s, run).state.threads| && cur in Loaded(After(s, run).state.threads[t].pc)
    ensures run != []
  {
  }

  lemma {:induction false} AfterSuffix(s: State, run: seq<Action>, k: nat)
    requires After(s, run).Reached? && k <= |run|
    ensures After(s, run[..k]).Reached? && After(After(s, run[..k]).state, run[k..]) == After(s, run)
  {
    hide Do, Enabled;
    if k == |run| {
      assert run[..k] == run;
    } else {
      var m := |run| - 1;
      AfterSuffix(s, run[..m], k);
      assert run[..m][..k] == run[..k] && run[k..][..m - k] == run[..m][k..];
    }
  }

  /** In every reachable state in which a thread is about to compare-exchange: since it loaded the value that it expects,
      the exchange can succeed if and only if no other thread has succeeded in between. A failure that is not spurious is
      another thread's success, and every success of another thread makes it fail. */
  lemma CasFailsIffAnotherWon(n: nat, threadCount: nat, run: seq<Action>, a: Action) returns (k: nat)
    requires n > 0 && After(Init(n, threadCount), run).Reached?
    requires Enabled(After(Init(n, threadCount), run).state, a) && (a.TryPop? || a.TryPush?) && !a.spurious
    ensures var s := After(Init(n, threadCount), run).state;
      && LoadedAt(Init(n, threadCount), run, a.t, k, s.threads[a.t].pc.cur)
      && After(After(Init(n, threadCount), run[..k]).state, run[k..]) == Reached(s)
      && (PopWins(s, a) || PushWins(s, a)
          <==> WinsOfOthers(After(Init(n, threadCount), run[..k]).state, run[k..], a.t) == 0)
  {
    var start := Init(n, threadCount);
    var s := After(start, run).state;
    ThreadsStay(start, run);
    k := LoadOf(start, run, a.t, s.threads[a.t].pc.cur);
    AfterSuffix(start, run, k);
    assert forall i | 0 <= i < |run[k..]| :: !Loads(run[k..][i], a.t);
    TagCountsWins(After(start, run[..k]).state, run[k..], a.t);
  }

  lemma {:induction false} ThreadsStay(s: State, run: seq<Action>)
    requires After(s, run).Reached?
    ensures |After(s, run).state.threads| == |s.threads|
  {
    if run != [] {
      ThreadsStay(s, run[..|run| - 1]);
    }
  }

  // ---------------------------------------------------------------- the allocation counter

  /** What a thread in the window between its compare-exchange and its counter update hides from allocated_count_. */
  function Uncounted(pc: Pc): int {
    match pc
    case PopCount(_) => -1
    case PushCount(k) => k
    case _ => 0
  }

  function TotalUncounted(threads: seq<Thread>): int {
    if threads == [] then 0 else TotalUncounted(threads[..|threads| - 1]) + Uncounted(threads[|threads| - 1].pc)
  }

  lemma {:induction false} TotalUpdate(threads: seq<Thread>, t: nat, th: Thread)
    requires t < |threads|
    ensures TotalUncounted(threads[t := th]) == TotalUncounted(threads) - Uncounted(threads[t].pc) + Uncounted(th.pc)
  {
    var m := |threads| - 1;
    if t == m {
      assert threads[t := th][..m] == threads[..m];
    } else {
      TotalUpdate(threads[..m], t, th);
      assert threads[t := th][..m] == threads[..m][t := th];
    }
  }

  lemma NoneUncounted(threads: seq<Thread>)
    requires forall t | 0 <= t < |threads| :: threads[t].pc.Idle?
    ensures TotalUncounted(threads) == 0
  {
  }

  ghost predicate CountOk(s: State, stack: seq<nat>) {
    s.count == |s.mem| - |stack| + TotalUncounted(s.threads)
  }

  lemma CountStep(s: State, stack: seq<nat>, a: Action)
    requires Enabled(s, a) && CountOk(s, stack) && StackStep(stack, EventOf(s, a)).Stack?
    ensures CountOk(Do(s, a), StackStep(stack, EventOf(s, a)).blocks)
  {
    TotalUpdate(s.threads, a.t, Moved(s, a));
    if a.HandOver? {
      var mid := s.threads[a.t := Moved(s, a)];
      TotalUpdate(mid, a.to, mid[a.to].(held := mid[a.to].held + {a.block}));
    }
  }

  /** The blocks of pops that have won but are not counted yet. */
  function Popping(threads: seq<Thread>): seq<nat> {
    if threads == [] then [] else
      var th := threads[|threads| - 1];
      Popping(threads[..|threads| - 1]) + if th.pc.PopCount? then [th.pc.block] else []
  }

  lemma {:induction false} PoppingOwned(threads: seq<Thread>)
    ensures forall b | b in Popping(threads) :: exists t :: 0 <= t < |threads| && threads[t].pc == PopCount(b)
    ensures -|Popping(threads)| <= TotalUncounted(threads)
  {
    if threads != [] {
      PoppingOwned(threads[..|threads| - 1]);
    }
  }

  lemma {:induction false} PoppingDistinct(n: nat, threads: seq<Thread>, stack: seq<nat>)
    requires NoDup(stack)
    requires forall t, b: nat {:trigger Has(n, threads[t], b)} | 0 <= t < |threads| && Has(n, threads[t], b) :: b !in stack
    requires forall t, u, b: nat | 0 <= t < |threads| && 0 <= u < |threads| && t != u && Has(n, threads[t], b) ::
      !Has(n, threads[u], b)
    ensures NoDup(stack + Popping(threads))
  {
    if threads != [] {
      var m := |threads| - 1;
      PoppingOwned(threads[..m]);
      PoppingDistinct(n, threads[..m], stack);
      if threads[m].pc.PopCount? {
        var b := threads[m].pc.block;
        assert Has(n, threads[m], b);
        forall t | 0 <= t < m
          ensures threads[..m][t].pc != PopCount(b)
        {
          var th := threads[t];
          assert th.pc == PopCount(b) ==> Has(n, th, b);
        }
        assert stack + Popping(threads) == (stack + Popping(threads[..m])) + [b];
      } else {
        assert Popping(threads) == Popping(threads[..m]);
      }
    }
  }

  lemma CountNotNegative(s: State, stack: seq<nat>)
    requires Inv(s, stack) && CountOk(s, stack)
    ensures s.count >= 0
  {
    PoppingOwned(s.threads);
    PoppingDistinct(|s.mem|, s.threads, stack);
    forall b | b in stack + Popping(s.threads)
      ensures b < |s.mem|
    {
      if b in Popping(s.threads) {
        var t :| 0 <= t < |s.threads| && s.threads[t].pc == PopCount(b);
        assert Has(|s.mem|, s.threads[t], b);
      }
    }
    Pigeonhole(stack + Popping(s.threads), |s.mem|);
  }

  lemma {:induction false} RunsKeepCount(n: nat, threadCount: nat, run: seq<Action>)
    requires n > 0 && After(Init(n, threadCount), run).Reached?
    ensures var events := Events(Init(n, threadCount), run);
      Replay(Iota(n), events).Stack? && CountOk(After(Init(n, threadCount), run).state, Replay(Iota(n), events).blocks)
  {
    var s := Init(n, threadCount);
    RunsAreAtomicStack(n, threadCount, run);
    if run == [] {
      NoneUncounted(s.threads);
    } else {
      var m := |run| - 1;
      RunsKeepCount(n, threadCount, run[..m]);
      RunsAreAtomicStack(n, threadCount, run[..m]);
      var events := Events(s, run);
      assert events[..|events| - 1] == Events(s, run[..m]);
      StepRefines(After(s, run[..m]).state, Replay(Iota(n), Events(s, run[..m])).blocks, run[m]);
      CountStep(After(s, run[..m]).state, Replay(Iota(n), Events(s, run[..m])).blocks, run[m]);
    }
  }

  /** In every interleaving the counter is the number of blocks off the free list, less the pops not yet counted,
      plus the blocks of pushes not yet counted; it never goes below zero; and with no operation in progress it is
      exactly the number of blocks off the free list. */
  lemma AllocatedCount(n: nat, threadCount: nat, run: seq<Action>, chain: seq<nat>)
    requires n > 0 && After(Init(n, threadCount), run).Reached?
    requires var s := After(Init(n, threadCount), run).state;
      Linked(s.mem, chain, Null) && First(chain, Null) == s.head.ptr
    ensures var s := After(Init(n, threadCount), run).state;
      && s.count == n - |chain| + TotalUncounted(s.threads)
      && s.count >= 0
      && ((forall t | 0 <= t < |s.threads| :: s.threads[t].pc.Idle?) ==> s.count == n - |chain|)
  {
    NoBlockLostOrShared(n, threadCount, run, chain);
    RunsAreAtomicStack(n, threadCount, run);
    RunsKeepCount(n, threadCount, run);
    var s := After(Init(n, threadCount), run).state;
    MemoryKeepsSize(n, threadCount, run);
    CountNotNegative(s, chain);
    if forall t | 0 <= t < |s.threads| :: s.threads[t].pc.Idle? {
      NoneUncounted(s.threads);
    }
  }

  lemma {:induction false} MemoryKeepsSize(n: nat, threadCount: nat, run: seq<Action>)
    requires n > 0 && After(Init(n, threadCount), run).Reached?
    ensures |After(Init(n, threadCount), run).state.mem| == n
  {
    if run != [] {
      MemoryKeepsSize(n, threadCount, run[..|run| - 1]);
    }
  }

  // ---------------------------------------------------------------- why the tag is needed

  /** One more step of a run, with the state it reaches spelled out. */
  lemma Extend(s: State, run: seq<Action>, x: State, a: Action, y: State) returns (longer: seq<Action>)
    requires After(s, run) == Reached(x) && Enabled(x, a) && Do(x, a) == y
    ensures longer == run + [a] && After(s, longer) == Reached(y)
  {
    longer := run + [a];
    assert longer[..|longer| - 1] == run;
  }

  const TOP := Tagged(At(0), 1)
  const JUNK := Tagged(At(99), 7)
  const END := Tagged(Null, 0)

  /** One thread has loaded the head; the other has taken the block and overwritten it. */
  lemma TakenAndOverwritten() returns (run: seq<Action>)
    ensures After(Init(1, 2), run) ==
            Reached(State([JUNK], Tagged(Null, 2), 1, [Thread(PopRead(TOP), {}), Thread(Idle, {0})]))
  {
    var s := Init(1, 2);
    var idle, reading := Thread(Idle, {}), Thread(PopRead(TOP), {});
    assert s == State([END], TOP, 0, [idle, idle]);
    var a := State([END], TOP, 0, [reading, idle]);
    run := Extend(s, [], s, LoadForPop(0), a);
    var b := State([END], TOP, 0, [reading, reading]);
    run := Extend(s, run, a, LoadForPop(1), b);
    var c := State([END], TOP, 0, [reading, Thread(PopCas(TOP, END), {})]);
    run := Extend(s, run, b, ReadNext(1), c);
    var d := State([END], Tagged(Null, 2), 0, [reading, Thread(PopCount(0), {})]);
    run := Extend(s, run, c, TryPop(1, false), d);
    var e := State([END], Tagged(Null, 2), 1, [reading, Thread(Idle, {0})]);
    assert {} + {0} == {0};
    run := Extend(s, run, d, CountPop(1), e);
    run := Extend(s, run, e, ClientWrite(1, 0, JUNK), State([JUNK], Tagged(Null, 2), 1, e.threads));
  }

  /** The first thread reads the junk as its successor; the second starts to give the block back. */
  lemma JunkRead() returns (run: seq<Action>)
    ensures After(Init(1, 2), run) == Reached(State([JUNK], Tagged(Null, 2), 1,
              [Thread(PopCas(TOP, JUNK), {}), Thread(PushBuild([At(0)], []), {})]))
  {
    var s, gone, stale := Init(1, 2), Tagged(Null, 2), Thread(PopCas(TOP, JUNK), {});
    run := TakenAndOverwritten();
    var a := State([JUNK], gone, 1, [Thread(PopRead(TOP), {}), Thread(Idle, {0})]);
    var b := State([JUNK], gone, 1, [stale, Thread(Idle, {0})]);
    run := Extend(s, run, a, ReadNext(0), b);
    assert Owns([At(0)][0], 1) && Blocks([At(0)], 1) == {0};
    assert Moved(b, StartPush(1, [At(0)])).held == {};
    run := Extend(s, run, b, StartPush(1, [At(0)]), State([JUNK], gone, 1, [stale, Thread(PushBuild([At(0)], []), {})]));
  }

  /** The second thread has built its free node and linked it above the empty list. */
  lemma GivenBack() returns (run: seq<Action>)
    ensures After(Init(1, 2), run) == Reached(State([END], Tagged(Null, 2), 1,
              [Thread(PopCas(TOP, JUNK), {}), Thread(PushStore([0], Tagged(Null, 2)), {})]))
  {
    var s, gone, stale := Init(1, 2), Tagged(Null, 2), Thread(PopCas(TOP, JUNK), {});
    run := JunkRead();
    var c := State([JUNK], gone, 1, [stale, Thread(PushBuild([At(0)], []), {})]);
    var d := State([END], gone, 1, [stale, Thread(PushBuild([], [0]), {})]);
    assert [At(0)][1..] == [] && Memory(c, Build(1)) == [END];
    run := Extend(s, run, c, Build(1), d);
    var e := State([END], gone, 1, [stale, Thread(PushLoad([0]), {})]);
    run := Extend(s, run, d, Build(1), e);
    run := Extend(s, run, e, LoadForPush(1), State([END], gone, 1, [stale, Thread(PushStore([0], gone), {})]));
  }

  /** A reachable state in which a pop is about to compare-exchange with a successor that it read from a block while
      another client owned and overwrote it. The head pointer is the one it expects; only the tag differs. */
  lemma PointerAloneWouldBeUnsafe() returns (run: seq<Action>)
    ensures After(Init(1, 2), run).Reached?
    ensures var s := After(Init(1, 2), run).state;
      var pc := s.threads[0].pc;
      && pc.PopCas? && pc.cur.ptr == s.head.ptr && pc.cur.tag != s.head.tag
      && !pc.next.ptr.Null? && !Owns(pc.next.ptr, |s.mem|)
      && Linked(s.mem, [0], Null) && s.head.ptr == At(0)
  {
    var s, gone, stale := Init(1, 2), Tagged(Null, 2), Thread(PopCas(TOP, JUNK), {});
    run := GivenBack();
    var f := State([END], gone, 1, [stale, Thread(PushStore([0], gone), {})]);
    var g := State([gone], gone, 1, [stale, Thread(PushCas([0], gone), {})]);
    run := Extend(s, run, f, StoreNext(1), g);
    run := Extend(s, run, g, TryPush(1, false), State([gone], Tagged(At(0), 3), 1, [stale, Thread(PushCount(1), {})]));
  }
}
