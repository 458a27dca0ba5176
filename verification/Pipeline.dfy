/** Parser thread and manager thread between their queues and pools, in every interleaving: one step per operation on a
    queue, a pool or a counter. Pool blocks are numbers; every entry of the raw queue carries the number of its arrival. */
module Pipeline {
  import opened Reconciliation

  /** What parsing the text of a frame gives. */
  datatype Text = Garbage | Parses(message: Message)

  /** A frame in a block of the raw pool. */
  datatype Frame = Frame(block: nat, serial: nat, valid: bool, text: Text)

  /** An entry of the raw queue, possibly a null pointer. */
  datatype RawPtr = NoFrame(serial: nat) | At(frame: Frame)

  /** A normalized message: its pool block and the arrival number of the frame it was made from. */
  datatype Item = Item(block: nat, origin: nat, message: Message)

  datatype ParserPc =
    | PIdle
    | PTaken(entry: RawPtr)                              // entry popped
    | PAllocate(frame: Frame)                            // found valid
    | PFailed(frame: Frame)                              // no message, error not yet counted
    | PParse(frame: Frame, block: nat)                   // message allocated
    | PPush(frame: Frame, block: nat, message: Message)  // text parsed
    | PCount(frame: Frame)                               // pushed, not yet counted
    | PDrop(frame: Frame, block: nat)                    // queue full, not yet counted
    | PDiscard(frame: Frame, block: nat)                 // about to give the message back
    | PReturn(frame: Frame)                              // about to give the frame back

  datatype ManagerPc = MIdle | MHold(item: Item) | MDone(item: Item)

  datatype State = State(
    rawFree: multiset<nat>, rawQueue: seq<RawPtr>, rawLost: multiset<nat>,
    free: multiset<nat>, queue: seq<Item>, capacity: nat,
    parser: ParserPc, manager: ManagerPc,
    popped: nat, nulls: nat, returned: nat,
    parsed: nat, errors: nat, drops: nat,
    checking: bool, view: View,
    log: seq<Text>,            // the text of every arrival
    accepted: seq<nat>,        // the arrivals pushed to the manager
    seen: seq<nat>,            // the arrivals that the manager has processed
    handled: seq<Pointer>)     // and their messages

  datatype Action =
    | Connect(block: nat, valid: bool, text: Text)   // the connector fills a raw block and queues it
    | ConnectNull
    | TakeFrame
    | Allocate(block: nat)
    | AllocateFails                                  // at any time: free blocks may sit in another thread's cache
    | Advance                                        // the parser's other steps
    | TakeItem
    | Process
    | FreeItem

  /** All pool blocks once, as after construction. */
  function Blocks(n: nat): multiset<nat> {
    if n == 0 then multiset{} else Blocks(n - 1) + multiset{n - 1}
  }

  datatype Setup = Setup(rawBlocks: nat, blocks: nat, capacity: nat, checking: bool, view: View)

  function Init(c: Setup): State {
    State(Blocks(c.rawBlocks), [], multiset{}, Blocks(c.blocks), [], c.capacity, PIdle, MIdle, 0, 0, 0, 0, 0, 0,
          c.checking, c.view, [], [], [], [])
  }

  predicate Enabled(s: State, a: Action) {
    match a
    case Connect(b, _, _) => b in s.rawFree
    case ConnectNull => true
    case TakeFrame => s.parser.PIdle?
    case Allocate(b) => s.parser.PAllocate? && b in s.free
    case AllocateFails => s.parser.PAllocate?
    case Advance => !s.parser.PIdle? && !s.parser.PAllocate?
    case TakeItem => s.manager.MIdle?
    case Process => s.manager.MHold?
    case FreeItem => s.manager.MDone?
  }

  function Arrive(s: State, entry: RawPtr, text: Text): State {
    s.(rawQueue := s.rawQueue + [entry], log := s.log + [text])
  }

  /** The push at the end of parsing. */
  function Offered(s: State): State
    requires s.parser.PPush?
  {
    var (frame, b) := (s.parser.frame, s.parser.block);
    if |s.queue| < s.capacity then
      s.(queue := s.queue + [Item(b, frame.serial, s.parser.message)], accepted := s.accepted + [frame.serial],
         parser := PCount(frame))
    else s.(parser := PDrop(frame, b))
  }

  /** Blocks that leave the parser's hand. */
  function Released(s: State): State
    requires s.parser.PFailed? || s.parser.PDiscard? || s.parser.PReturn?
  {
    match s.parser
    case PFailed(frame) =>
      s.(errors := s.errors + 1, rawLost := s.rawLost + multiset{frame.block}, parser := PIdle)
    case PDiscard(frame, b) => s.(free := s.free + multiset{b}, parser := PReturn(frame))
    case PReturn(frame) =>
      s.(rawFree := s.rawFree + multiset{frame.block}, returned := s.returned + 1, parser := PIdle)
  }

  function Advanced(s: State): State
    requires Enabled(s, Advance)
  {
    match s.parser
    case PTaken(entry) =>
      if entry.NoFrame? then s.(errors := s.errors + 1, nulls := s.nulls + 1, parser := PIdle)
      else if !entry.frame.valid then s.(errors := s.errors + 1, parser := PReturn(entry.frame))
      else s.(parser := PAllocate(entry.frame))
    case PParse(frame, b) =>
      if frame.text.Parses? then s.(parser := PPush(frame, b, frame.text.message))
      else s.(errors := s.errors + 1, parser := PDiscard(frame, b))
    case PPush(_, _, _) => Offered(s)
    case PCount(frame) => s.(parsed := s.parsed + 1, parser := PReturn(frame))
    case PDrop(frame, b) => s.(drops := s.drops + 1, parser := PDiscard(frame, b))
    case PFailed(_) => Released(s)
    case PDiscard(_, _) => Released(s)
    case PReturn(_) => Released(s)
  }

  ghost function Do(s: State, a: Action): State
    requires Enabled(s, a)
  {
    match a
    case Connect(b, valid, text) =>
      Arrive(s, At(Frame(b, |s.log|, valid, text)), text).(rawFree := s.rawFree - multiset{b})
    case ConnectNull => Arrive(s, NoFrame(|s.log|), Garbage)
    case TakeFrame =>
      if s.rawQueue == [] then s
      else s.(rawQueue := s.rawQueue[1..], popped := s.popped + 1, parser := PTaken(s.rawQueue[0]))
    case Allocate(b) => s.(free := s.free - multiset{b}, parser := PParse(s.parser.frame, b))
    case AllocateFails => s.(parser := PFailed(s.parser.frame))
    case Advance => Advanced(s)
    case TakeItem => if s.queue == [] then s else s.(queue := s.queue[1..], manager := MHold(s.queue[0]))
    case Process =>
      var item := s.manager.item;
      s.(view := Processed(s.checking, s.view, To(item.message)), seen := s.seen + [item.origin],
         handled := s.handled + [To(item.message)], manager := MDone(item))
    case FreeItem => s.(free := s.free + multiset{s.manager.item.block}, manager := MIdle)
  }

  // ---------------------------------------------------------------- where blocks are

  function InQueue(q: seq<Item>, block: nat): nat {
    if q == [] then 0 else One(q[0].block == block) + InQueue(q[1..], block)
  }

  predicate Fills(entry: RawPtr, block: nat) {
    entry.At? && entry.frame.block == block
  }

  function InRawQueue(q: seq<RawPtr>, block: nat): nat {
    if q == [] then 0 else One(Fills(q[0], block)) + InRawQueue(q[1..], block)
  }

  function ParserFrame(p: ParserPc, block: nat): nat {
    match p
    case PIdle => 0
    case PTaken(entry) => One(Fills(entry, block))
    case _ => One(p.frame.block == block)
  }

  function ParserBlock(p: ParserPc, block: nat): nat {
    One((p.PParse? || p.PPush? || p.PDrop? || p.PDiscard?) && p.block == block)
  }

  function ManagerBlock(m: ManagerPc, block: nat): nat {
    One(!m.MIdle? && m.item.block == block)
  }

  /** In how many places a message block is: pool, queue, parser's hand, manager's hand. */
  function MessagePlaces(s: State, block: nat): nat {
    s.free[block] + InQueue(s.queue, block) + ParserBlock(s.parser, block) + ManagerBlock(s.manager, block)
  }

  function FramePlaces(s: State, block: nat): nat {
    s.rawFree[block] + InRawQueue(s.rawQueue, block) + ParserFrame(s.parser, block) + s.rawLost[block]
  }

  lemma {:induction false} InQueueAppend(q: seq<Item>, i: Item, block: nat)
    ensures InQueue(q + [i], block) == InQueue(q, block) + One(i.block == block)
  {
    if q != [] {
      InQueueAppend(q[1..], i, block);
      assert (q + [i])[1..] == q[1..] + [i];
    }
  }

  lemma {:induction false} InRawQueueAppend(q: seq<RawPtr>, p: RawPtr, block: nat)
    ensures InRawQueue(q + [p], block) == InRawQueue(q, block) + One(Fills(p, block))
  {
    if q != [] {
      InRawQueueAppend(q[1..], p, block);
      assert (q + [p])[1..] == q[1..] + [p];
    }
  }

  lemma OfferMoves(s: State, block: nat)
    requires s.parser.PPush?
    ensures MessagePlaces(Offered(s), block) == MessagePlaces(s, block)
    ensures FramePlaces(Offered(s), block) == FramePlaces(s, block)
  {
    hide InQueue, InRawQueue;
    InQueueAppend(s.queue, Item(s.parser.block, s.parser.frame.serial, s.parser.message), block);
  }

  lemma ReleaseMoves(s: State, block: nat)
    requires s.parser.PFailed? || s.parser.PDiscard? || s.parser.PReturn?
    ensures MessagePlaces(Released(s), block) == MessagePlaces(s, block)
    ensures FramePlaces(Released(s), block) == FramePlaces(s, block)
  {
    hide InQueue, InRawQueue;
  }

  lemma AdvanceMovesMessages(s: State, block: nat)
    requires Enabled(s, Advance)
    ensures MessagePlaces(Advanced(s), block) == MessagePlaces(s, block)
  {
    hide InQueue, InRawQueue, Offered, Released;
    if s.parser.PPush? {
      OfferMoves(s, block);
    } else if s.parser.PFailed? || s.parser.PDiscard? || s.parser.PReturn? {
      ReleaseMoves(s, block);
    }
  }

  lemma AdvanceMovesFrames(s: State, block: nat)
    requires Enabled(s, Advance)
    ensures FramePlaces(Advanced(s), block) == FramePlaces(s, block)
  {
    hide InQueue, InRawQueue, Offered, Released;
    if s.parser.PPush? {
      OfferMoves(s, block);
    } else if s.parser.PFailed? || s.parser.PDiscard? || s.parser.PReturn? {
      ReleaseMoves(s, block);
    }
  }

  /** No step creates, loses or duplicates a message block. */
  lemma StepMovesMessages(s: State, a: Action, block: nat)
    requires Enabled(s, a)
    ensures MessagePlaces(Do(s, a), block) == MessagePlaces(s, block)
  {
    hide Advanced, Processed;
    if a.Advance? {
      AdvanceMovesMessages(s, block);
    }
  }

  /** Nor a raw block; the frame of a failed allocation is set aside. */
  lemma StepMovesFrames(s: State, a: Action, block: nat)
    requires Enabled(s, a)
    ensures FramePlaces(Do(s, a), block) == FramePlaces(s, block)
  {
    hide Advanced, Processed;
    match a
    case Connect(b, valid, text) => InRawQueueAppend(s.rawQueue, At(Frame(b, |s.log|, valid, text)), block);
    case ConnectNull => InRawQueueAppend(s.rawQueue, NoFrame(|s.log|), block);
    case Advance => AdvanceMovesFrames(s, block);
    case _ =>
  }

  // ---------------------------------------------------------------- what the counters say

  /** The entry in the parser's hand has not raised its counter yet. */
  predicate Uncounted(p: ParserPc) {
    !p.PIdle? && !p.PDiscard? && !p.PReturn?
  }

  /** Every entry taken from the queue has raised one counter, or has yet to; and has been returned, or was a null pointer,
      or is still in the parser's hand, or was set aside because no message could be allocated. */
  predicate Accounted(s: State) {
    && s.parsed + s.errors + s.drops + One(Uncounted(s.parser)) == s.popped
    && s.returned + s.nulls + |s.rawLost| + One(!s.parser.PIdle?) == s.popped
    && s.parsed + One(s.parser.PCount?) == |s.accepted|
  }

  lemma OfferAccounts(s: State)
    requires s.parser.PPush? && Accounted(s)
    ensures Accounted(Offered(s))
  {
  }

  lemma ReleaseAccounts(s: State)
    requires (s.parser.PFailed? || s.parser.PDiscard? || s.parser.PReturn?) && Accounted(s)
    ensures Accounted(Released(s))
  {
  }

  lemma AdvanceAccounts(s: State)
    requires Enabled(s, Advance) && Accounted(s)
    ensures Accounted(Advanced(s))
  {
    hide Offered, Released;
    if s.parser.PPush? {
      OfferAccounts(s);
    } else if s.parser.PFailed? || s.parser.PDiscard? || s.parser.PReturn? {
      ReleaseAccounts(s);
    }
  }

  /** Every step keeps the balance. */
  lemma StepAccounts(s: State, a: Action)
    requires Enabled(s, a) && Accounted(s)
    ensures Accounted(Do(s, a))
  {
    hide Advanced, Processed;
    if a.Advance? {
      AdvanceAccounts(s);
    }
  }

  // ---------------------------------------------------------------- why a counter rises

  datatype Cause = NullEntry | InvalidFrame | Refused | Unparsable | FullQueue | Delivered | Nothing

  /** What a step finds out about the entry in the parser's hand. */
  function CauseOf(s: State, a: Action): Cause {
    if a.AllocateFails? then Refused
    else if !a.Advance? then Nothing
    else
      match s.parser
      case PTaken(NoFrame(_)) => NullEntry
      case PTaken(At(frame)) => if frame.valid then Nothing else InvalidFrame
      case PParse(frame, _) => if frame.text.Parses? then Nothing else Unparsable
      case PPush(_, _, _) => if |s.queue| < s.capacity then Delivered else FullQueue
      case _ => Nothing
  }

  predicate IsError(cause: Cause) {
    cause.NullEntry? || cause.InvalidFrame? || cause.Refused? || cause.Unparsable?
  }

  /** The finding has raised its counter, or will with the parser's next step. */
  predicate Raised(s: State, s': State, cause: Cause) {
    && s'.errors + One(s'.parser.PFailed?) == s.errors + One(s.parser.PFailed?) + One(IsError(cause))
    && s'.drops + One(s'.parser.PDrop?) == s.drops + One(s.parser.PDrop?) + One(cause.FullQueue?)
    && s'.parsed + One(s'.parser.PCount?) == s.parsed + One(s.parser.PCount?) + One(cause.Delivered?)
  }

  lemma OfferCause(s: State)
    requires s.parser.PPush?
    ensures Raised(s, Offered(s), CauseOf(s, Advance))
  {
  }

  lemma ReleaseCause(s: State)
    requires s.parser.PFailed? || s.parser.PDiscard? || s.parser.PReturn?
    ensures Raised(s, Released(s), CauseOf(s, Advance)) && Released(s).queue == s.queue
  {
  }

  lemma AdvanceCause(s: State)
    requires Enabled(s, Advance)
    ensures Raised(s, Advanced(s), CauseOf(s, Advance))
    ensures !s.parser.PPush? ==> Advanced(s).queue == s.queue
  {
    hide Offered, Released;
    if s.parser.PPush? {
      OfferCause(s);
    } else if s.parser.PFailed? || s.parser.PDiscard? || s.parser.PReturn? {
      ReleaseCause(s);
    }
  }

  /** Every finding raises its counter. */
  lemma CauseStep(s: State, a: Action)
    requires Enabled(s, a)
    ensures Raised(s, Do(s, a), CauseOf(s, a))
  {
    hide Advanced, Processed;
    if a.Advance? {
      AdvanceCause(s);
    }
  }

  /** A delivery is a new message at the end of the manager's queue, with the content of the frame, whenever there is room;
      nothing else puts one there. */
  lemma DeliveryStep(s: State, a: Action)
    requires Enabled(s, a)
    ensures Do(s, a).queue ==
      if CauseOf(s, a).Delivered? then s.queue + [Item(s.parser.block, s.parser.frame.serial, s.parser.message)]
      else if a.TakeItem? && s.queue != [] then s.queue[1..] else s.queue
    ensures a.Advance? && s.parser.PPush? ==> (CauseOf(s, a).Delivered? <==> |s.queue| < s.capacity)
  {
    hide Processed, Raised, Released;
    if a.Advance? {
      AdvanceCause(s);
    }
  }

  // ---------------------------------------------------------------- order

  /** Strictly increasing and below a bound. */
  ghost predicate Rising(q: seq<nat>, bound: nat) {
    (forall i, j | 0 <= i < j < |q| :: q[i] < q[j]) && forall i | 0 <= i < |q| :: q[i] < bound
  }

  function SerialOf(p: RawPtr): nat {
    match p
    case NoFrame(n) => n
    case At(frame) => frame.serial
  }

  function Serials(q: seq<RawPtr>): (serials: seq<nat>)
    ensures |serials| == |q| && forall i | 0 <= i < |q| :: serials[i] == SerialOf(q[i])
  {
    seq(|q|, i requires 0 <= i < |q| => SerialOf(q[i]))
  }

  function Origins(q: seq<Item>): (origins: seq<nat>)
    ensures |origins| == |q| && forall i | 0 <= i < |q| :: origins[i] == q[i].origin
  {
    seq(|q|, i requires 0 <= i < |q| => q[i].origin)
  }

  /** The arrival number of an entry that may still be pushed. */
  function OpenSerial(p: ParserPc): seq<nat> {
    match p
    case PTaken(entry) => [SerialOf(entry)]
    case PAllocate(frame) => [frame.serial]
    case PParse(frame, _) => [frame.serial]
    case PPush(frame, _, _) => [frame.serial]
    case _ => []
  }

  function HeldOrigin(m: ManagerPc): seq<nat> {
    if m.MHold? then [m.item.origin] else []
  }

  /** The arrival numbers of accepted, open and waiting entries. */
  function Line(accepted: seq<nat>, open: seq<nat>, waiting: seq<RawPtr>): seq<nat> {
    accepted + open + Serials(waiting)
  }

  /** The origins of the messages processed, held and queued. */
  function Made(seen: seq<nat>, m: ManagerPc, queue: seq<Item>): seq<nat> {
    seen + HeldOrigin(m) + Origins(queue)
  }

  ghost predicate LineRises(s: State) {
    Rising(Line(s.accepted, OpenSerial(s.parser), s.rawQueue), |s.log|)
  }

  /** The line is in arrival order, and the messages pushed so far are those processed, held and queued, in that order. */
  ghost predicate InOrder(s: State) {
    LineRises(s) && s.accepted == Made(s.seen, s.manager, s.queue)
  }

  lemma AppendNewest(q: seq<nat>, bound: nat)
    requires Rising(q, bound)
    ensures Rising(q + [bound], bound + 1)
  {
  }

  lemma DropMiddle(a: seq<nat>, b: seq<nat>, c: seq<nat>, bound: nat)
    requires Rising(a + b + c, bound)
    ensures Rising(a + c, bound)
  {
    forall i, j | 0 <= i <= j < |a + c|
      ensures i < j ==> (a + c)[i] < (a + c)[j]
      ensures (a + c)[i] < bound
    {
      var i', j' := if i < |a| then i else i + |b|, if j < |a| then j else j + |b|;
      assert (a + c)[i] == (a + b + c)[i'] && (a + c)[j] == (a + b + c)[j'];
    }
  }

  lemma LineGrows(accepted: seq<nat>, open: seq<nat>, waiting: seq<RawPtr>, p: RawPtr)
    ensures Line(accepted, open, waiting + [p]) == Line(accepted, open, waiting) + [SerialOf(p)]
  {
    assert Serials(waiting + [p]) == Serials(waiting) + [SerialOf(p)];
  }

  lemma LineTakes(accepted: seq<nat>, waiting: seq<RawPtr>)
    requires waiting != []
    ensures Line(accepted, [SerialOf(waiting[0])], waiting[1..]) == Line(accepted, [], waiting)
  {
    assert Serials(waiting) == [SerialOf(waiting[0])] + Serials(waiting[1..]);
  }

  lemma LineAccepts(accepted: seq<nat>, open: seq<nat>, waiting: seq<RawPtr>)
    ensures Line(accepted + open, [], waiting) == Line(accepted, open, waiting)
  {
  }

  /** An open entry that is given up leaves the line. */
  lemma GiveUp(accepted: seq<nat>, open: seq<nat>, waiting: seq<RawPtr>, bound: nat)
    requires Rising(Line(accepted, open, waiting), bound)
    ensures Rising(Line(accepted, [], waiting), bound)
  {
    hide Rising;
    assert Line(accepted, [], waiting) == accepted + Serials(waiting);
    DropMiddle(accepted, open, Serials(waiting), bound);
  }

  lemma ArrivalKeepsLine(s: State, p: RawPtr, text: Text)
    requires LineRises(s) && SerialOf(p) == |s.log|
    ensures LineRises(Arrive(s, p, text))
  {
    hide Rising, Line, Serials;
    LineGrows(s.accepted, OpenSerial(s.parser), s.rawQueue, p);
    AppendNewest(Line(s.accepted, OpenSerial(s.parser), s.rawQueue), |s.log|);
  }

  lemma AdvanceKeepsLine(s: State)
    requires Enabled(s, Advance) && LineRises(s)
    ensures LineRises(Advanced(s))
  {
    hide Rising, Line, Serials;
    GiveUp(s.accepted, OpenSerial(s.parser), s.rawQueue, |s.log|);
    LineAccepts(s.accepted, OpenSerial(s.parser), s.rawQueue);
  }

  /** The line only loses members in the middle or gains the newest at its end. */
  lemma StepKeepsLine(s: State, a: Action)
    requires Enabled(s, a) && LineRises(s)
    ensures LineRises(Do(s, a))
  {
    hide Rising, Line, Serials, Advanced, Processed;
    match a
    case Connect(b, valid, text) => ArrivalKeepsLine(s, At(Frame(b, |s.log|, valid, text)), text);
    case ConnectNull => ArrivalKeepsLine(s, NoFrame(|s.log|), Garbage);
    case TakeFrame =>
      if s.rawQueue != [] {
        LineTakes(s.accepted, s.rawQueue);
      }
    case AllocateFails => GiveUp(s.accepted, OpenSerial(s.parser), s.rawQueue, |s.log|);
    case Advance => AdvanceKeepsLine(s);
    case _ =>
  }

  lemma MadeGrows(seen: seq<nat>, m: ManagerPc, queue: seq<Item>, i: Item)
    ensures Made(seen, m, queue + [i]) == Made(seen, m, queue) + [i.origin]
  {
    assert Origins(queue + [i]) == Origins(queue) + [i.origin];
  }

  lemma MadeTaken(seen: seq<nat>, queue: seq<Item>)
    requires queue != []
    ensures Made(seen, MHold(queue[0]), queue[1..]) == Made(seen, MIdle, queue)
  {
    assert Origins(queue) == [queue[0].origin] + Origins(queue[1..]);
  }

  lemma MadeProcessed(seen: seq<nat>, i: Item, queue: seq<Item>)
    ensures Made(seen + [i.origin], MDone(i), queue) == Made(seen, MHold(i), queue)
    ensures Made(seen, MDone(i), queue) == Made(seen, MIdle, queue)
  {
  }

  /** Every step keeps the order. */
  lemma StepKeepsOrder(s: State, a: Action)
    requires Enabled(s, a) && InOrder(s)
    ensures InOrder(Do(s, a))
  {
    hide LineRises, Made, Processed;
    StepKeepsLine(s, a);
    match a
    case Advance =>
      if s.parser.PPush? {
        MadeGrows(s.seen, s.manager, s.queue, Item(s.parser.block, s.parser.frame.serial, s.parser.message));
      }
    case TakeItem =>
      if s.queue != [] {
        MadeTaken(s.seen, s.queue);
      }
    case Process => MadeProcessed(s.seen, s.manager.item, s.queue);
    case FreeItem => MadeProcessed(s.seen, s.manager.item, s.queue);
    case _ =>
  }

  // ---------------------------------------------------------------- content

  predicate EntryLogged(log: seq<Text>, entry: RawPtr) {
    entry.At? ==> entry.frame.serial < |log| && log[entry.frame.serial] == entry.frame.text
  }

  predicate ItemLogged(log: seq<Text>, item: Item) {
    item.origin < |log| && log[item.origin] == Parses(item.message)
  }

  predicate ParserLogged(log: seq<Text>, p: ParserPc) {
    match p
    case PIdle => true
    case PTaken(entry) => EntryLogged(log, entry)
    case PPush(frame, _, m) => EntryLogged(log, At(frame)) && frame.text == Parses(m)
    case _ => EntryLogged(log, At(p.frame))
  }

  ghost predicate RawLogged(log: seq<Text>, q: seq<RawPtr>) {
    forall k | 0 <= k < |q| :: EntryLogged(log, q[k])
  }

  ghost predicate QueueLogged(log: seq<Text>, q: seq<Item>) {
    forall k | 0 <= k < |q| :: ItemLogged(log, q[k])
  }

  ghost predicate HandledLogged(log: seq<Text>, seen: seq<nat>, handled: seq<Pointer>) {
    |handled| == |seen| && forall i | 0 <= i < |seen| ::
      seen[i] < |log| && log[seen[i]].Parses? && handled[i] == To(log[seen[i]].message)
  }

  /** Whatever is on its way carries the text of its arrival. */
  ghost predicate TravelLogged(s: State) {
    && RawLogged(s.log, s.rawQueue)
    && ParserLogged(s.log, s.parser)
    && QueueLogged(s.log, s.queue)
    && (!s.manager.MIdle? ==> ItemLogged(s.log, s.manager.item))
  }

  /** So do the messages handled, and the manager's state is that of handling them one after the other. */
  ghost predicate Contents(s: State, start: View) {
    && TravelLogged(s)
    && HandledLogged(s.log, s.seen, s.handled)
    && s.view == Run(s.checking, start, s.handled)
  }

  lemma LogGrows(s: State, entry: RawPtr, text: Text)
    requires TravelLogged(s) && HandledLogged(s.log, s.seen, s.handled) && EntryLogged(s.log + [text], entry)
    ensures RawLogged(s.log + [text], s.rawQueue + [entry])
    ensures ParserLogged(s.log + [text], s.parser)
    ensures QueueLogged(s.log + [text], s.queue)
    ensures !s.manager.MIdle? ==> ItemLogged(s.log + [text], s.manager.item)
    ensures HandledLogged(s.log + [text], s.seen, s.handled)
  {
  }

  lemma ArrivalKeepsContents(s: State, start: View, entry: RawPtr, text: Text)
    requires Contents(s, start) && EntryLogged(s.log + [text], entry)
    ensures Contents(Arrive(s, entry, text), start)
  {
    hide Run, RawLogged, ParserLogged, QueueLogged, ItemLogged, HandledLogged;
    LogGrows(s, entry, text);
  }

  lemma RunOneMore(checking: bool, start: View, handled: seq<Pointer>, p: Pointer)
    ensures Run(checking, start, handled + [p]) == Processed(checking, Run(checking, start, handled), p)
  {
    assert (handled + [p])[..|handled|] == handled;
  }

  lemma QueueGrows(log: seq<Text>, q: seq<Item>, i: Item)
    requires QueueLogged(log, q) && ItemLogged(log, i)
    ensures QueueLogged(log, q + [i])
  {
  }

  lemma AdvanceKeepsContents(s: State, start: View)
    requires Enabled(s, Advance) && Contents(s, start)
    ensures Contents(Advanced(s), start)
  {
    hide Run, RawLogged, QueueLogged, HandledLogged;
    match s.parser
    case PPush(frame, b, m) => QueueGrows(s.log, s.queue, Item(b, frame.serial, m));
    case _ =>
  }

  lemma ProcessKeepsContents(s: State, start: View)
    requires Enabled(s, Process) && Contents(s, start)
    ensures Contents(Do(s, Process), start)
  {
    hide Run, Processed, RawLogged, ParserLogged, QueueLogged;
    RunOneMore(s.checking, start, s.handled, To(s.manager.item.message));
  }

  lemma TakingKeepsContents(s: State, a: Action, start: View)
    requires Enabled(s, a) && Contents(s, start) && (a.TakeFrame? || a.TakeItem?)
    ensures Contents(Do(s, a), start)
  {
    hide Run, Processed, Advanced, HandledLogged, EntryLogged, ItemLogged;
  }

  /** Every step keeps the contents. */
  lemma StepKeepsContents(s: State, a: Action, start: View)
    requires Enabled(s, a) && Contents(s, start)
    ensures Contents(Do(s, a), start)
  {
    hide Run, Processed, Advanced, RawLogged, QueueLogged, ItemLogged, HandledLogged;
    match a
    case Connect(b, valid, text) =>
      ArrivalKeepsContents(s, start, At(Frame(b, |s.log|, valid, text)), text);
    case ConnectNull => ArrivalKeepsContents(s, start, NoFrame(|s.log|), Garbage);
    case Advance => AdvanceKeepsContents(s, start);
    case Process => ProcessKeepsContents(s, start);
    case TakeFrame => TakingKeepsContents(s, a, start);
    case TakeItem => TakingKeepsContents(s, a, start);
    case _ =>
  }

  // ---------------------------------------------------------------- whole runs

  ghost predicate IsRun(s: State, run: seq<Action>)
    decreases |run|, 0
  {
    run == [] || (IsRun(s, run[..|run| - 1]) && Enabled(Final(s, run[..|run| - 1]), run[|run| - 1]))
  }

  ghost function Final(s: State, run: seq<Action>): State
    requires IsRun(s, run)
    decreases |run|, 1
  {
    if run == [] then s else Do(Final(s, run[..|run| - 1]), run[|run| - 1])
  }

  lemma {:induction false} BlockCount(n: nat, block: nat)
    ensures Blocks(n)[block] == One(block < n)
  {
    if n > 0 {
      BlockCount(n - 1, block);
    }
  }

  lemma StartPlaces(c: Setup, block: nat)
    ensures MessagePlaces(Init(c), block) == One(block < c.blocks)
    ensures FramePlaces(Init(c), block) == One(block < c.rawBlocks)
  {
    BlockCount(c.rawBlocks, block);
    BlockCount(c.blocks, block);
  }

  /** In every interleaving each message block is in exactly one of pool, queue, parser's hand and manager's hand; each raw
      block in exactly one of pool, queue, parser's hand and the frames set aside by failed allocations. A block freed
      twice would be in two places. */
  lemma {:induction false} EveryBlockInOnePlace(c: Setup, run: seq<Action>, block: nat)
    requires IsRun(Init(c), run)
    ensures MessagePlaces(Final(Init(c), run), block) == One(block < c.blocks)
    ensures FramePlaces(Final(Init(c), run), block) == One(block < c.rawBlocks)
  {
    hide MessagePlaces, FramePlaces, Do;
    if run == [] {
      StartPlaces(c, block);
    } else {
      var before := run[..|run| - 1];
      EveryBlockInOnePlace(c, before, block);
      StepMovesMessages(Final(Init(c), before), run[|run| - 1], block);
      StepMovesFrames(Final(Init(c), before), run[|run| - 1], block);
    }
  }

  /** In every interleaving every entry taken from the raw queue raises exactly one of the three counters, and its frame
      goes back to its pool unless its allocation failed; when the parser is idle nothing is open. */
  lemma {:induction false} EveryFrameIsAccounted(c: Setup, run: seq<Action>)
    requires IsRun(Init(c), run)
    ensures var s := Final(Init(c), run);
      && Accounted(s)
      && (s.parser.PIdle? ==> s.parsed + s.errors + s.drops == s.popped == s.returned + s.nulls + |s.rawLost|)
  {
    hide Do;
    if run != [] {
      var before := run[..|run| - 1];
      EveryFrameIsAccounted(c, before);
      StepAccounts(Final(Init(c), before), run[|run| - 1]);
    }
  }

  /** How many steps of a run found something out with this effect. */
  ghost function Findings(s: State, run: seq<Action>, cause: Cause): nat
    requires IsRun(s, run)
  {
    if run == [] then 0 else
      var before := run[..|run| - 1];
      Findings(s, before, cause) + One(CauseOf(Final(s, before), run[|run| - 1]) == cause)
  }

  /** In every interleaving the errors are the null pointers, the invalid frames, the refused allocations and the texts that
      do not parse; the drops are the messages that met a full queue; and the parsed messages are those that met room in the
      queue. Whoever is found out about but not yet counted is in the parser's hand. */
  lemma {:induction false} CountersHaveCauses(c: Setup, run: seq<Action>)
    requires IsRun(Init(c), run)
    ensures var s := Final(Init(c), run);
      && s.errors + One(s.parser.PFailed?)
         == Findings(Init(c), run, NullEntry) + Findings(Init(c), run, InvalidFrame)
            + Findings(Init(c), run, Refused) + Findings(Init(c), run, Unparsable)
      && s.drops + One(s.parser.PDrop?) == Findings(Init(c), run, FullQueue)
      && s.parsed + One(s.parser.PCount?) == Findings(Init(c), run, Delivered)
  {
    hide Do, CauseOf;
    if run != [] {
      var before := run[..|run| - 1];
      CountersHaveCauses(c, before);
      CauseStep(Final(Init(c), before), run[|run| - 1]);
    }
  }

  lemma {:induction false} RunsKeepOrder(c: Setup, run: seq<Action>)
    requires IsRun(Init(c), run)
    ensures InOrder(Final(Init(c), run))
  {
    hide Do;
    if run != [] {
      var before := run[..|run| - 1];
      RunsKeepOrder(c, before);
      StepKeepsOrder(Final(Init(c), before), run[|run| - 1]);
    }
  }

  /** In every interleaving the manager has processed the accepted messages in arrival order, each once, and all of them
      when its hand and the queue are empty. */
  lemma ManagerSeesArrivalOrder(c: Setup, run: seq<Action>)
    requires IsRun(Init(c), run)
    ensures var s := Final(Init(c), run);
      && (forall i, j | 0 <= i < j < |s.seen| :: s.seen[i] < s.seen[j])
      && s.seen <= s.accepted
      && |s.seen| + One(s.manager.MHold?) + |s.queue| == |s.accepted| == s.parsed + One(s.parser.PCount?)
  {
    RunsKeepOrder(c, run);
    EveryFrameIsAccounted(c, run);
    var s := Final(Init(c), run);
    var line := Line(s.accepted, OpenSerial(s.parser), s.rawQueue);
    assert forall i | 0 <= i < |s.seen| :: s.seen[i] == s.accepted[i] == line[i];
  }

  lemma {:induction false} RunsKeepContents(c: Setup, run: seq<Action>)
    requires IsRun(Init(c), run)
    ensures Contents(Final(Init(c), run), c.view) && Final(Init(c), run).checking == c.checking
  {
    hide Do, Contents;
    if run == [] {
      StartContents(c);
    } else {
      var before := run[..|run| - 1];
      RunsKeepContents(c, before);
      StepKeepsContents(Final(Init(c), before), run[|run| - 1], c.view);
      StepKeepsChecking(Final(Init(c), before), run[|run| - 1]);
    }
  }

  lemma StartContents(c: Setup)
    ensures Contents(Init(c), c.view)
  {
  }

  lemma StepKeepsChecking(s: State, a: Action)
    requires Enabled(s, a)
    ensures Do(s, a).checking == s.checking && Do(s, a).capacity == s.capacity
  {
    hide Processed;
  }

  lemma InterleavedKeepsTruth(h: InstrumentId -> History, c: Setup, run: seq<Action>)
    requires IsRun(Init(c), run) && c.checking && AllSynchronised(h, c.view)
    requires forall k | 0 <= k < |Final(Init(c), run).log| ::
      var text := Final(Init(c), run).log[k]; text.Parses? ==> TruthfulPointer(h, To(text.message))
    ensures AllSynchronised(h, Final(Init(c), run).view)
  {
    hide AllSynchronised, TruthfulPointer, TravelLogged, Run, Final;
    RunsKeepContents(c, run);
    var s := Final(Init(c), run);
    StreamKeepsTruth(h, c.view, s.handled);
  }

  /** Whatever connector, parser and a new manager do, in every interleaving and with any losses at full queues and empty
      pools: if every text that parses is truthful about its instrument, then every instrument that does not wait for a
      snapshot holds exactly the exchange's book of its last update id. */
  lemma InterleavedNeverWrong(h: InstrumentId -> History, c: Setup, ids: seq<InstrumentId>, run: seq<Action>)
    requires c.checking && c.view == Managing(ids) && IsRun(Init(c), run)
    requires forall k | 0 <= k < |Final(Init(c), run).log| ::
      var text := Final(Init(c), run).log[k]; text.Parses? ==> TruthfulPointer(h, To(text.message))
    ensures AllSynchronised(h, Final(Init(c), run).view)
  {
    hide TruthfulPointer, Final, IsRun, Run;
    NeverWrongWhileSynchronised(h, ids, []);
    EmptyRun(c.view);
    InterleavedKeepsTruth(h, c, run);
  }

  lemma EmptyRun(v: View)
    ensures Run(true, v, []) == v
  {
  }

  // ---------------------------------------------------------------- freeing

  /** Whoever gives a block back is its only holder: it is not in the pool already. */
  lemma FreedOnce(c: Setup, run: seq<Action>)
    requires IsRun(Init(c), run)
    ensures var s := Final(Init(c), run);
      && (s.parser.PDiscard? ==> s.parser.block !in s.free)
      && (s.parser.PReturn? ==> s.parser.frame.block !in s.rawFree)
      && (s.manager.MDone? ==> s.manager.item.block !in s.free)
  {
    hide Do;
    var s := Final(Init(c), run);
    if s.parser.PDiscard? {
      EveryBlockInOnePlace(c, run, s.parser.block);
    }
    if s.parser.PReturn? {
      EveryBlockInOnePlace(c, run, s.parser.frame.block);
    }
    if s.manager.MDone? {
      EveryBlockInOnePlace(c, run, s.manager.item.block);
    }
  }

  lemma Longer(s: State, run: seq<Action>, a: Action) returns (longer: seq<Action>)
    requires IsRun(s, run) && Enabled(Final(s, run), a)
    ensures longer == run + [a] && IsRun(s, longer) && Final(s, longer) == Do(Final(s, run), a)
  {
    hide Do;
    longer := run + [a];
    assert longer[..|longer| - 1] == run;
  }

  /** The one path that does not give a frame back: a valid frame, and no message from the pool. */
  lemma FailedAllocationKeepsTheFrame(start: View) returns (run: seq<Action>)
    ensures IsRun(Init(Setup(1, 0, 2, true, start)), run)
    ensures var s := Final(Init(Setup(1, 0, 2, true, start)), run);
      s.parser.PIdle? && s.rawQueue == [] && s.popped == 1 && s.errors == 1 && s.returned == 0
      && s.rawFree == multiset{} && s.rawLost == multiset{0}
  {
    hide Processed;
    var s0 := Init(Setup(1, 0, 2, true, start));
    assert Blocks(1) == multiset{0} && Blocks(0) == multiset{};
    run := [];
    assert IsRun(s0, run);
    run := Longer(s0, run, Connect(0, true, Garbage));
    run := Longer(s0, run, TakeFrame);
    run := Longer(s0, run, Advance);
    run := Longer(s0, run, AllocateFails);
    run := Longer(s0, run, Advance);
  }
}
