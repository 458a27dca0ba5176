/** What each call of a thread comes to, in every interleaving: an allocation ends with a block or finds the list empty,
    and a deallocation puts its blocks on the list, each at one moment. */
module FreeListCalls {
  import opened TaggedLinks
  import opened FreeListSteps
  import Pools = MemoryPool

  // ---------------------------------------------------------------- allocations

  predicate Answer(e: Event) {
    e.Popped? || e.FoundEmpty?
  }

  /** An allocation that has neither won a block nor found the list empty. */
  predicate Searching(pc: Pc) {
    pc.PopRead? || pc.PopCas?
  }

  /** allocate_raw gives up only on an empty list: a lost or spurious exchange goes round the loop again. */
  lemma NullOnlyWhenEmpty(s: State, stack: seq<nat>, a: Action)
    requires Inv(s, stack) && Enabled(s, a) && (a.LoadForPop? || a.TryPop?)
    ensures Do(s, a).threads[a.t].pc.Idle? <==> stack == [] && !PopWins(s, a)
    ensures Do(s, a).threads[a.t].pc.Idle? ==> EventOf(s, a) == FoundEmpty
    ensures PopWins(s, a) ==> stack != [] && Do(s, a).threads[a.t].pc == PopCount(stack[0])
    ensures stack != [] && !PopWins(s, a) ==> Do(s, a).threads[a.t].pc == PopRead(s.head)
  {
    hide Partition, PcOk;
    if PopWins(s, a) {
      AbaSafety(s, stack, a);
    } else if s.head.ptr.At? {
      HeadIsFree(s, stack);
    }
  }

  function One(b: bool): nat {
    if b then 1 else 0
  }

  /** How many allocations thread t has begun. */
  function Begun(run: seq<Action>, t: nat): nat {
    if run == [] then 0 else Begun(run[..|run| - 1], t) + One(run[|run| - 1] == LoadForPop(t))
  }

  /** The answers that the steps of thread t got, in order. */
  ghost function Answers(s: State, run: seq<Action>, t: nat): seq<Event>
    requires After(s, run).Reached?
  {
    if run == [] then [] else
      var m := |run| - 1;
      var e := EventOf(After(s, run[..m]).state, run[m]);
      Answers(s, run[..m], t) + if run[m].t == t && Answer(e) then [e] else []
  }

  /** A step of a thread begins an allocation, answers it, both, or neither. */
  lemma AnswerStep(s: State, stack: seq<nat>, a: Action, t: nat)
    requires Inv(s, stack) && Enabled(s, a) && t < |s.threads|
    ensures |Do(s, a).threads| == |s.threads|
    ensures var pc, pc', e := s.threads[t].pc, Do(s, a).threads[t].pc, EventOf(s, a);
      && One(a.t == t && Answer(e)) + One(Searching(pc')) == One(Searching(pc)) + One(a == LoadForPop(t))
      && (pc'.PopCount? ==> if a.t == t && Answer(e) then e == Popped(pc'.block) else pc' == pc)
  {
    hide Partition, PcOk, FreeList;
    if a.LoadForPop? || a.TryPop? {
      NullOnlyWhenEmpty(s, stack, a);
    }
  }

  /** In every interleaving each allocation that a thread has begun has got exactly one answer, a block or an empty list,
      unless it is the one still searching; and the block about to be returned is the one of the last answer. */
  lemma {:induction false} AllocationsAreAnswered(n: nat, threadCount: nat, run: seq<Action>, t: nat)
    requires n > 0 && After(Init(n, threadCount), run).Reached? && t < threadCount
    ensures |After(Init(n, threadCount), run).state.threads| == threadCount
    ensures var pc, answers := After(Init(n, threadCount), run).state.threads[t].pc, Answers(Init(n, threadCount), run, t);
      && |answers| + One(Searching(pc)) == Begun(run, t)
      && (pc.PopCount? ==> answers != [] && answers[|answers| - 1] == Popped(pc.block))
  {
    hide Do, Enabled, EventOf, Inv, Replay;
    var s := Init(n, threadCount);
    if run != [] {
      var m := |run| - 1;
      AllocationsAreAnswered(n, threadCount, run[..m], t);
      RunsAreAtomicStack(n, threadCount, run[..m]);
      AnswerStep(After(s, run[..m]).state, Replay(Iota(n), Events(s, run[..m])).blocks, run[m], t);
    }
  }

  /** From its first load of the head until it is no longer searching, an allocation gets exactly one answer. */
  lemma AllocationHasOneAnswer(n: nat, threadCount: nat, run: seq<Action>, i: nat, j: nat, t: nat)
    requires n > 0 && After(Init(n, threadCount), run).Reached? && t < threadCount
    requires i < j <= |run| && run[i] == LoadForPop(t) && forall k | i < k < j :: run[k] != LoadForPop(t)
    requires After(Init(n, threadCount), run[..j]).Reached?
    requires t < |After(Init(n, threadCount), run[..j]).state.threads|
    requires !Searching(After(Init(n, threadCount), run[..j]).state.threads[t].pc)
    ensures After(Init(n, threadCount), run[..i]).Reached?
    ensures |Answers(Init(n, threadCount), run[..j], t)| == |Answers(Init(n, threadCount), run[..i], t)| + 1
  {
    var s := Init(n, threadCount);
    AfterSuffix(s, run, i);
    AfterSuffix(s, run, i + 1);
    assert run[..i + 1][..i] == run[..i];
    AllocationsAreAnswered(n, threadCount, run[..i], t);
    AllocationsAreAnswered(n, threadCount, run[..j], t);
    BegunOnce(run, i, j, t);
  }

  lemma {:induction false} BegunOnce(run: seq<Action>, i: nat, j: nat, t: nat)
    requires i < j <= |run| && run[i] == LoadForPop(t) && forall k | i < k < j :: run[k] != LoadForPop(t)
    ensures Begun(run[..j], t) == Begun(run[..i], t) + 1
  {
    assert run[..j][..j - 1] == run[..j - 1];
    if i < j - 1 {
      BegunOnce(run, i, j - 1, t);
    }
  }

  /** The block of the answer is new to the thread's client and is what the client gets. */
  lemma AnsweredBlockIsGranted(n: nat, threadCount: nat, run: seq<Action>, t: nat)
    requires n > 0 && After(Init(n, threadCount), run).Reached? && t < threadCount
    requires Enabled(After(Init(n, threadCount), run).state, CountPop(t))
    ensures var s, answers := After(Init(n, threadCount), run).state, Answers(Init(n, threadCount), run, t);
      && answers != [] && answers[|answers| - 1].Popped?
      && var b := answers[|answers| - 1].block;
         var th' := Do(s, CountPop(t)).threads[t];
      && b < |s.mem| && b !in s.threads[t].held && th'.held == s.threads[t].held + {b} && th'.pc.Idle?
  {
    AllocationsAreAnswered(n, threadCount, run, t);
    RunsAreAtomicStack(n, threadCount, run);
    var s := After(Init(n, threadCount), run).state;
    assert PcOk(s.mem, s.head, s.threads[t]);
    assert Has(|s.mem|, s.threads[t], s.threads[t].pc.block);
  }

  // ---------------------------------------------------------------- deallocations

  lemma {:induction false} ValidHead(ptrs: seq<Link>, n: nat)
    requires ptrs != []
    ensures Pools.ValidBlocks(ptrs, n) ==
      (if Owns(ptrs[0], n) then [ptrs[0].block] else []) + Pools.ValidBlocks(ptrs[1..], n)
  {
    var m := |ptrs| - 1;
    if m == 0 {
      assert ptrs[..0] == [] && ptrs[1..] == [];
    } else {
      ValidHead(ptrs[..m], n);
      assert ptrs[..m][1..] == ptrs[1..][..m - 1];
    }
  }

  /** The blocks that the running deallocation has yet to put on the list, in the order they will have there. */
  function Owed(pc: Pc, n: nat): seq<nat> {
    match pc
    case PushBuild(todo, chain) => chain + Pools.ValidBlocks(todo, n)
    case PushLink(todo, chain, node) => chain + [node] + Pools.ValidBlocks(todo, n)
    case PushLoad(chain) => chain
    case PushStore(chain, _) => chain
    case PushCas(chain, _) => chain
    case _ => []
  }

  function Listed(blocks: seq<nat>): seq<seq<nat>> {
    if blocks == [] then [] else [blocks]
  }

  /** What thread t asked to be put on the list: the valid arguments of each call that has any. */
  function Requested(run: seq<Action>, t: nat, n: nat): seq<seq<nat>> {
    if run == [] then [] else
      var a := run[|run| - 1];
      Requested(run[..|run| - 1], t, n) + if a.StartPush? && a.t == t then Listed(Pools.ValidBlocks(a.ptrs, n)) else []
  }

  /** What the steps of thread t put on the list. */
  ghost function Published(s: State, run: seq<Action>, t: nat): seq<seq<nat>>
    requires After(s, run).Reached?
  {
    if run == [] then [] else
      var m := |run| - 1;
      var e := EventOf(After(s, run[..m]).state, run[m]);
      Published(s, run[..m], t) + if run[m].t == t && e.Pushed? then [e.blocks] else []
  }

  lemma NoneValid(n: nat)
    ensures Pools.ValidBlocks([], n) == []
  {
  }

  lemma MoveBracket(a: seq<nat>, x: nat, b: seq<nat>)
    ensures a + ([x] + b) == a + [x] + b && [] + ([x] + b) == [x] + b
  {
  }

  lemma JoinNothing(a: seq<nat>)
    ensures a + [] == a && [] + a == a
  {
  }

  lemma BuildOwes(n: nat, todo: seq<Link>, chain: seq<nat>)
    ensures Owed(AfterBuild(n, todo, chain), n) == chain + Pools.ValidBlocks(todo, n)
  {
    hide Pools.ValidBlocks;
    NoneValid(n);
    JoinNothing(chain);
    if todo != [] {
      ValidHead(todo, n);
      var rest := Pools.ValidBlocks(todo[1..], n);
      JoinNothing(rest);
      if Owns(todo[0], n) {
        MoveBracket(chain, todo[0].block, rest);
      }
    }
  }

  lemma ChainNotEmpty(mem: seq<Tagged>, head: Tagged, th: Thread)
    requires PcOk(mem, head, th)
    ensures th.pc.PushCas? ==> th.pc.chain != []
  {
  }

  lemma OwedStep(s: State, stack: seq<nat>, a: Action, t: nat)
    requires Inv(s, stack) && Enabled(s, a) && t < |s.threads|
    ensures |Do(s, a).threads| == |s.threads|
    ensures var n, e := |s.mem|, EventOf(s, a);
      var owed, owed' := Owed(s.threads[t].pc, n), Owed(Do(s, a).threads[t].pc, n);
      && (a.t == t && a.StartPush? ==> owed == [] && owed' == Pools.ValidBlocks(a.ptrs, n) && !e.Pushed?)
      && (a.t == t && e.Pushed? ==> owed == e.blocks != [] && owed' == [])
      && (a.t != t || !(a.StartPush? || e.Pushed?) ==> owed' == owed)
  {
    hide Partition, FreeList, PcOk, AfterBuild, Memory, Head, Count, Pools.ValidBlocks;
    var th := s.threads[t];
    assert th.pc.PushCas? ==> th.pc.chain != [] by {
      ChainNotEmpty(s.mem, s.head, th);
    }
    NoneValid(|s.mem|);
    if a.t == t && a.Build? {
      BuildOwes(|s.mem|, th.pc.todo, th.pc.chain);
    }
  }

  /** In every interleaving the deallocations of a thread have put on the list exactly the valid arguments of its calls,
      call by call, in argument order and all at one moment; the last call may still owe its blocks. */
  lemma {:induction false} DeallocationsArePublished(n: nat, threadCount: nat, run: seq<Action>, t: nat)
    requires n > 0 && After(Init(n, threadCount), run).Reached? && t < threadCount
    ensures |After(Init(n, threadCount), run).state.threads| == threadCount
    ensures Requested(run, t, n) == Published(Init(n, threadCount), run, t)
      + Listed(Owed(After(Init(n, threadCount), run).state.threads[t].pc, n))
    ensures After(Init(n, threadCount), run).state.threads[t].pc.Idle?
      ==> Requested(run, t, n) == Published(Init(n, threadCount), run, t)
  {
    hide Do, Enabled, EventOf, Inv, Replay, Owed;
    var s := Init(n, threadCount);
    ThreadsStay(s, run);
    NothingOwed(n);
    if run != [] {
      var m := |run| - 1;
      DeallocationsArePublished(n, threadCount, run[..m], t);
      RunsAreAtomicStack(n, threadCount, run[..m]);
      MemoryKeepsSize(n, threadCount, run[..m]);
      OwedStep(After(s, run[..m]).state, Replay(Iota(n), Events(s, run[..m])).blocks, run[m], t);
    }
  }

  lemma NothingOwed(n: nat)
    ensures Owed(Idle, n) == []
  {
  }
}
