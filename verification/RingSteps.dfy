/** The single-producer single-consumer ring as two threads: one step per atomic load or store, and copying an item
    in or out of a slot takes two steps, between which the slot holds half an item. */
module RingSteps {
  import opened RingMath

  type Item = int

  datatype Content = Torn | Val(item: Item)

  datatype Cell = Cell(sequence: nat, data: Content)

  datatype Producer =
    | PIdle
    | PCheck(item: Item, head: nat)      // head_seq_ loaded
    | PWrite(item: Item, head: nat)      // slot found free
    | PWriting(item: Item, head: nat)    // in the middle of the copy
    | PPublish(item: Item, head: nat)    // about to store the slot's sequence
    | PAdvance(head: nat)                // about to store head_seq_

  datatype Consumer =
    | CIdle
    | CCheck(tail: nat)                  // tail_seq_ loaded
    | CRead(tail: nat)                   // slot found ready
    | CReading(tail: nat, seen: Content) // in the middle of the copy
    | CRelease(data: Content, tail: nat) // about to store the slot's sequence
    | CAdvance(tail: nat)                // about to store tail_seq_

  /** `wrap` is the modulus of the counters; 0 means that they are unbounded. */
  datatype State = State(capacity: nat, wrap: nat, cells: seq<Cell>, head: nat, tail: nat,
                         producer: Producer, consumer: Consumer)

  datatype Action = StartPush(item: Item) | StepProducer | StartPop | StepConsumer

  datatype Event = Silent | Pushed(item: Item) | PushRefused | Popped(item: Item) | PopRefused | TornRead

  ghost predicate WellFormed(s: State) {
    s.capacity > 0 && |s.cells| == s.capacity
  }

  function Wrap(modulus: nat, x: nat): nat {
    if modulus == 0 then x else x % modulus
  }

  /** The slot of a sequence number: seq & mask_. */
  function Index(capacity: nat, seqno: nat): nat
    requires capacity > 0
  {
    BitAnd(seqno, capacity - 1)
  }

  function CellAt(cells: seq<Cell>, seqno: nat): Cell
    requires |cells| > 0
  {
    cells[Index(|cells|, seqno)]
  }

  function SetCell(cells: seq<Cell>, seqno: nat, cell: Cell): (r: seq<Cell>)
    requires |cells| > 0
    ensures |r| == |cells|
  {
    cells[Index(|cells|, seqno) := cell]
  }

  /** The ring as constructed. */
  function Init(capacity: nat): State {
    State(capacity, 0, seq(capacity, (i: nat) => Cell(i, Torn)), 0, 0, PIdle, CIdle)
  }

  ghost predicate Enabled(s: State, a: Action) {
    WellFormed(s) && (a.StartPush? ==> s.producer.PIdle?) && (a.StartPop? ==> s.consumer.CIdle?)
  }

  ghost function Producing(s: State): State
    requires WellFormed(s)
  {
    match s.producer
    case PIdle => s
    case PCheck(item, h) => s.(producer := if CellAt(s.cells, h).sequence == h then PWrite(item, h) else PIdle)
    case PWrite(item, h) =>
      s.(cells := SetCell(s.cells, h, CellAt(s.cells, h).(data := Torn)), producer := PWriting(item, h))
    case PWriting(item, h) =>
      s.(cells := SetCell(s.cells, h, CellAt(s.cells, h).(data := Val(item))), producer := PPublish(item, h))
    case PPublish(item, h) =>
      s.(cells := SetCell(s.cells, h, CellAt(s.cells, h).(sequence := Wrap(s.wrap, h + 1))), producer := PAdvance(h))
    case PAdvance(h) => s.(head := Wrap(s.wrap, h + 1), producer := PIdle)
  }

  ghost function Consuming(s: State): State
    requires WellFormed(s)
  {
    match s.consumer
    case CIdle => s
    case CCheck(t) => s.(consumer := if CellAt(s.cells, t).sequence == Wrap(s.wrap, t + 1) then CRead(t) else CIdle)
    case CRead(t) => s.(consumer := CReading(t, CellAt(s.cells, t).data))
    case CReading(t, seen) => s.(consumer := CRelease(if CellAt(s.cells, t).data == seen then seen else Torn, t))
    case CRelease(_, t) =>
      s.(cells := SetCell(s.cells, t, CellAt(s.cells, t).(sequence := Wrap(s.wrap, t + s.capacity))),
         consumer := CAdvance(t))
    case CAdvance(t) => s.(tail := Wrap(s.wrap, t + 1), consumer := CIdle)
  }

  ghost function Do(s: State, a: Action): State
    requires Enabled(s, a)
  {
    match a
    case StartPush(item) => s.(producer := PCheck(item, s.head))
    case StepProducer => Producing(s)
    case StartPop => s.(consumer := CCheck(s.tail))
    case StepConsumer => Consuming(s)
  }

  /** Where an operation takes effect: a push or a pop at its store to the slot's sequence, a refusal at its check. */
  ghost function EventOf(s: State, a: Action): Event
    requires Enabled(s, a)
  {
    if a.StepProducer? && s.producer.PPublish? then Pushed(s.producer.item)
    else if a.StepProducer? && s.producer.PCheck? && Producing(s).producer.PIdle? then PushRefused
    else if a.StepConsumer? && s.consumer.CRelease? then
      if s.consumer.data.Val? then Popped(s.consumer.data.item) else TornRead
    else if a.StepConsumer? && s.consumer.CCheck? && Consuming(s).consumer.CIdle? then PopRefused
    else Silent
  }

  // ---------------------------------------------------------------- the bounded queue

  datatype Verdict = Illegal | Queue(items: seq<Item>)

  /** A FIFO of at most `capacity` items, which refuses a push exactly when full and a pop exactly when empty. */
  function QueueStep(capacity: nat, q: seq<Item>, e: Event): Verdict {
    match e
    case Silent => Queue(q)
    case Pushed(v) => if |q| < capacity then Queue(q + [v]) else Illegal
    case PushRefused => if |q| == capacity then Queue(q) else Illegal
    case Popped(v) => if q != [] && q[0] == v then Queue(q[1..]) else Illegal
    case PopRefused => if q == [] then Queue(q) else Illegal
    case TornRead => Illegal
  }

  function Replay(capacity: nat, events: seq<Event>): Verdict {
    if events == [] then Queue([]) else
      var before := Replay(capacity, events[..|events| - 1]);
      if before.Queue? then QueueStep(capacity, before.items, events[|events| - 1]) else Illegal
  }

  function Accepted(events: seq<Event>): seq<Item> {
    if events == [] then [] else
      var e := events[|events| - 1];
      Accepted(events[..|events| - 1]) + if e.Pushed? then [e.item] else []
  }

  function Delivered(events: seq<Event>): seq<Item> {
    if events == [] then [] else
      var e := events[|events| - 1];
      Delivered(events[..|events| - 1]) + if e.Popped? then [e.item] else []
  }

  lemma {:induction false} DeliveredInOrder(capacity: nat, events: seq<Event>)
    requires Replay(capacity, events).Queue?
    ensures Accepted(events) == Delivered(events) + Replay(capacity, events).items
  {
    if events != [] {
      var m := |events| - 1;
      DeliveredInOrder(capacity, events[..m]);
      var q := Replay(capacity, events[..m]).items;
      if events[m].Popped? {
        assert q == [q[0]] + q[1..];
      }
    }
  }

  // ---------------------------------------------------------------- invariant, unbounded counters

  ghost predicate ProducerOk(s: State, t: nat, q: seq<Item>)
    requires WellFormed(s)
  {
    var h := t + |q|;
    match s.producer
    case PIdle => s.head == h
    case PCheck(_, head) => s.head == head == h
    case PWrite(_, head) => s.head == head == h && |q| < s.capacity
    case PWriting(_, head) => s.head == head == h && |q| < s.capacity
    case PPublish(item, head) => s.head == head == h && |q| < s.capacity && CellAt(s.cells, h).data == Val(item)
    case PAdvance(head) => s.head == head && head + 1 == h
  }

  ghost predicate ConsumerOk(s: State, t: nat, q: seq<Item>) {
    match s.consumer
    case CIdle => s.tail == t
    case CCheck(tail) => s.tail == tail == t
    case CRead(tail) => s.tail == tail == t && q != []
    case CReading(tail, seen) => s.tail == tail == t && q != [] && seen == Val(q[0])
    case CRelease(data, tail) => s.tail == tail == t && q != [] && data == Val(q[0])
    case CAdvance(tail) => s.tail == tail && tail + 1 == t
  }

  /** t is the number of items released; the slots of t, t+1, .. hold the queue and then free slots. */
  ghost predicate CellsOk(cells: seq<Cell>, t: nat, q: seq<Item>)
    requires |cells| > 0
  {
    && (forall k: nat | t <= k < t + |q| :: CellAt(cells, k) == Cell(k + 1, Val(q[k - t])))
    && (forall k: nat | t + |q| <= k < t + |cells| :: CellAt(cells, k).sequence == k)
  }

  ghost predicate Inv(s: State, t: nat, q: seq<Item>) {
    && IsCapacity(s.capacity) && WellFormed(s) && s.wrap == 0 && |q| <= s.capacity
    && CellsOk(s.cells, t, q) && ProducerOk(s, t, q) && ConsumerOk(s, t, q)
  }

  /** Different numbers of one window have different slots. */
  lemma Separate(capacity: nat, j: nat, k: nat)
    requires IsCapacity(capacity) && capacity > 0 && j <= k < j + capacity && j != k
    ensures Index(capacity, j) != Index(capacity, k)
  {
    var e :| 1 <= e <= 32 && capacity == Pow2(e);
    MaskIsMod(j, e);
    MaskIsMod(k, e);
    if Index(capacity, j) == Index(capacity, k) {
      ModInjective(j, k, capacity);
    }
  }

  lemma NextLap(capacity: nat, k: nat)
    requires IsCapacity(capacity) && capacity > 0
    ensures Index(capacity, k + capacity) == Index(capacity, k)
  {
    var e :| 1 <= e <= 32 && capacity == Pow2(e);
    MaskIsMod(k, e);
    MaskIsMod(k + capacity, e);
    ModShift(k, capacity);
  }

  /** A write to the slot of one number of the window leaves the others alone. */
  lemma OtherCells(cells: seq<Cell>, t: nat, w: nat, cell: Cell)
    requires |cells| > 0 && IsCapacity(|cells|) && t <= w < t + |cells|
    ensures CellAt(SetCell(cells, w, cell), w) == cell
    ensures forall k: nat | t <= k < t + |cells| && k != w ::
      CellAt(SetCell(cells, w, cell), k) == CellAt(cells, k)
  {
    forall k: nat | t <= k < t + |cells| && k != w
      ensures CellAt(SetCell(cells, w, cell), k) == CellAt(cells, k)
    {
      if k < w { Separate(|cells|, k, w); } else { Separate(|cells|, w, k); }
    }
  }

  /** A full ring is seen as full only because the capacity is at least 2. */
  lemma CheckDecides(cells: seq<Cell>, t: nat, q: seq<Item>)
    requires |cells| > 0 && IsCapacity(|cells|) && CellsOk(cells, t, q) && |q| <= |cells|
    ensures CellAt(cells, t + |q|).sequence == t + |q| <==> |q| < |cells|
    ensures CellAt(cells, t).sequence == t + 1 <==> q != []
  {
    CapacityBounds(|cells|);
    if |q| == |cells| {
      NextLap(|cells|, t);
      assert CellAt(cells, t).sequence == t + 1;
    }
  }

  /** Writing data into the first free slot keeps the window. */
  lemma WriteKeepsCells(cells: seq<Cell>, t: nat, q: seq<Item>, data: Content)
    requires |cells| > 0 && IsCapacity(|cells|) && CellsOk(cells, t, q) && |q| < |cells|
    ensures var h := t + |q|;
      var cells' := SetCell(cells, h, CellAt(cells, h).(data := data));
      CellsOk(cells', t, q) && CellAt(cells', h).data == data
  {
    OtherCells(cells, t, t + |q|, CellAt(cells, t + |q|).(data := data));
    assert CellAt(cells, t + |q|).sequence == t + |q|;
  }

  lemma PublishKeepsCells(cells: seq<Cell>, t: nat, q: seq<Item>, item: Item)
    requires |cells| > 0 && IsCapacity(|cells|) && CellsOk(cells, t, q) && |q| < |cells|
    requires CellAt(cells, t + |q|).data == Val(item)
    ensures var h := t + |q|;
      CellsOk(SetCell(cells, h, CellAt(cells, h).(sequence := h + 1)), t, q + [item])
  {
    var cells' := SetCell(cells, t + |q|, CellAt(cells, t + |q|).(sequence := t + |q| + 1));
    OtherCells(cells, t, t + |q|, CellAt(cells, t + |q|).(sequence := t + |q| + 1));
    forall k: nat | t <= k < t + |q + [item]|
      ensures CellAt(cells', k) == Cell(k + 1, Val((q + [item])[k - t]))
    {
      if k < t + |q| {
        assert CellAt(cells, k) == Cell(k + 1, Val(q[k - t]));
      }
    }
  }

  /** The released slot becomes the last free slot of the next window. */
  lemma ReleaseKeepsCells(cells: seq<Cell>, t: nat, q: seq<Item>)
    requires |cells| > 0 && IsCapacity(|cells|) && CellsOk(cells, t, q) && 0 < |q| <= |cells|
    ensures var cells' := SetCell(cells, t, CellAt(cells, t).(sequence := t + |cells|));
      && CellsOk(cells', t + 1, q[1..])
      && (|q| < |cells| ==> CellAt(cells', t + |q|) == CellAt(cells, t + |q|))
  {
    var cells' := SetCell(cells, t, CellAt(cells, t).(sequence := t + |cells|));
    OtherCells(cells, t, t, CellAt(cells, t).(sequence := t + |cells|));
    NextLap(|cells|, t);
    forall k: nat | t + 1 <= k < t + 1 + |q[1..]|
      ensures CellAt(cells', k) == Cell(k + 1, Val(q[1..][k - (t + 1)]))
    {
      assert CellAt(cells, k) == Cell(k + 1, Val(q[k - t]));
    }
    forall k: nat | t + |q| <= k < t + 1 + |cells|
      ensures CellAt(cells', k).sequence == k
    {
      if k == t + |cells| {
        assert CellAt(cells', k) == CellAt(cells', t);
      } else {
        assert CellAt(cells', k) == CellAt(cells, k);
      }
    }
  }

  lemma ProducerStep(s: State, t: nat, q: seq<Item>)
    requires Inv(s, t, q)
    ensures QueueStep(s.capacity, q, EventOf(s, StepProducer)).Queue?
    ensures Inv(Producing(s), t, QueueStep(s.capacity, q, EventOf(s, StepProducer)).items)
  {
    hide CellsOk, IsCapacity, SetCell, CellAt;
    match s.producer
    case PCheck(_, _) => CheckDecides(s.cells, t, q);
    case PWrite(_, _) => WriteKeepsCells(s.cells, t, q, Torn);
    case PWriting(item, _) => WriteKeepsCells(s.cells, t, q, Val(item));
    case PPublish(item, _) => PublishKeepsCells(s.cells, t, q, item);
    case _ =>
  }

  lemma ConsumerStep(s: State, t: nat, q: seq<Item>) returns (t': nat)
    requires Inv(s, t, q)
    ensures QueueStep(s.capacity, q, EventOf(s, StepConsumer)).Queue?
    ensures Inv(Consuming(s), t', QueueStep(s.capacity, q, EventOf(s, StepConsumer)).items)
  {
    t' := t;
    CheckDecides(s.cells, t, q);
    if q != [] {
      assert CellAt(s.cells, t) == Cell(t + 1, Val(q[t - t]));
    }
    if s.consumer.CRelease? {
      ReleaseKeepsCells(s.cells, t, q);
      t' := t + 1;
    }
  }

  /** Every step is a legal step of the bounded queue. */
  lemma StepRefines(s: State, t: nat, q: seq<Item>, a: Action) returns (t': nat)
    requires Inv(s, t, q) && Enabled(s, a)
    ensures QueueStep(s.capacity, q, EventOf(s, a)).Queue?
    ensures Inv(Do(s, a), t', QueueStep(s.capacity, q, EventOf(s, a)).items)
  {
    t' := t;
    match a
    case StepProducer => ProducerStep(s, t, q);
    case StepConsumer => t' := ConsumerStep(s, t, q);
    case _ =>
  }

  /** While the producer is copying into a slot the consumer is at another slot, and the other way round. */
  lemma NoSlotShared(s: State, t: nat, q: seq<Item>)
    requires Inv(s, t, q)
    requires s.producer.PWrite? || s.producer.PWriting? || s.producer.PPublish?
    requires s.consumer.CRead? || s.consumer.CReading? || s.consumer.CRelease?
    ensures Index(s.capacity, s.producer.head) != Index(s.capacity, s.consumer.tail)
  {
    Separate(s.capacity, s.consumer.tail, s.producer.head);
  }

  // ---------------------------------------------------------------- whole runs

  datatype Outcome = Stuck | Reached(state: State)

  ghost function After(s: State, run: seq<Action>): Outcome {
    if run == [] then Reached(s) else
      var before := After(s, run[..|run| - 1]);
      if before.Reached? && Enabled(before.state, run[|run| - 1])
      then Reached(Do(before.state, run[|run| - 1])) else Stuck
  }

  ghost function Events(s: State, run: seq<Action>): seq<Event>
    requires After(s, run).Reached?
  {
    if run == [] then [] else
      Events(s, run[..|run| - 1]) + [EventOf(After(s, run[..|run| - 1]).state, run[|run| - 1])]
  }

  lemma InitInv(capacity: nat)
    requires IsCapacity(capacity)
    ensures Inv(Init(capacity), 0, [])
  {
    CapacityBounds(capacity);
    var e :| 1 <= e <= 32 && capacity == Pow2(e);
    forall k: nat | k < capacity
      ensures Index(capacity, k) == k
    {
      MaskIsMod(k, e);
      ModUnique(k, capacity, 0, k);
    }
  }

  lemma {:induction false} RunInv(capacity: nat, run: seq<Action>) returns (t: nat)
    requires IsCapacity(capacity) && After(Init(capacity), run).Reached?
    ensures Replay(capacity, Events(Init(capacity), run)).Queue?
    ensures Inv(After(Init(capacity), run).state, t, Replay(capacity, Events(Init(capacity), run)).items)
    ensures After(Init(capacity), run).state.capacity == capacity
  {
    var s := Init(capacity);
    if run == [] {
      InitInv(capacity);
      t := 0;
    } else {
      var m := |run| - 1;
      t := RunInv(capacity, run[..m]);
      var events := Events(s, run);
      assert events[..|events| - 1] == Events(s, run[..m]);
      t := StepRefines(After(s, run[..m]).state, t, Replay(capacity, Events(s, run[..m])).items, run[m]);
    }
  }

  /** In every interleaving the items delivered are the items accepted, in order, up to the ones still queued; a push
      is refused exactly when the ring is full and a pop exactly when it is empty; and no item is ever read torn. */
  lemma RunsAreBoundedFifo(capacity: nat, run: seq<Action>)
    requires IsCapacity(capacity) && After(Init(capacity), run).Reached?
    ensures var events := Events(Init(capacity), run);
      && Replay(capacity, events).Queue? && |Replay(capacity, events).items| <= capacity
      && Accepted(events) == Delivered(events) + Replay(capacity, events).items
  {
    var t := RunInv(capacity, run);
    DeliveredInOrder(capacity, Events(Init(capacity), run));
  }

  // ---------------------------------------------------------------- size()

  function One(b: bool): int {
    if b then 1 else 0
  }

  /** The stored counters lag behind the slots: each operation stores its counter after it has published its slot. */
  lemma StoredDifference(s: State, t: nat, q: seq<Item>)
    requires Inv(s, t, q)
    ensures |q| <= s.capacity && s.head - s.tail == |q| - One(s.producer.PAdvance?) + One(s.consumer.CAdvance?)
  {
  }

  /** At any moment the stored difference is the number of queued items exactly when both or neither of the threads are
      between their two stores, it is negative exactly when the queue is empty and only the producer is, and it is never
      off by more than one. */
  lemma StoredSize(capacity: nat, run: seq<Action>)
    requires IsCapacity(capacity) && After(Init(capacity), run).Reached?
    ensures Replay(capacity, Events(Init(capacity), run)).Queue?
    ensures var s, q := After(Init(capacity), run).state, Replay(capacity, Events(Init(capacity), run)).items;
      && s.head - s.tail == |q| - One(s.producer.PAdvance?) + One(s.consumer.CAdvance?)
      && (s.head - s.tail == |q| <==> (s.producer.PAdvance? <==> s.consumer.CAdvance?))
      && (s.head - s.tail < 0 <==> q == [] && s.producer.PAdvance? && !s.consumer.CAdvance?)
      && -1 <= s.head - s.tail <= capacity + 1
  {
    hide Inv, Replay, After, Events, Init;
    var t := RunInv(capacity, run);
    StoredDifference(After(Init(capacity), run).state, t, Replay(capacity, Events(Init(capacity), run)).items);
  }

  /** size() as any thread runs it: it loads head_seq_ after some steps of the ring, and tail_seq_ after some more. */
  ghost function SizeRead(capacity: nat, first: seq<Action>, more: seq<Action>): int
    requires After(Init(capacity), first).Reached? && After(Init(capacity), first + more).Reached?
  {
    After(Init(capacity), first).state.head - After(Init(capacity), first + more).state.tail
  }

  /** How often tail_seq_ is stored. */
  ghost function TailStores(s: State, run: seq<Action>, from: nat): nat
    requires After(s, run).Reached? && from <= |run|
  {
    if |run| == from then 0
    else
      var m := |run| - 1;
      TailStores(s, run[..m], from) + if run[m].StepConsumer? && After(s, run[..m]).state.consumer.CAdvance? then 1 else 0
  }

  lemma {:induction false} TailCounts(capacity: nat, run: seq<Action>, from: nat)
    requires IsCapacity(capacity) && After(Init(capacity), run).Reached? && from <= |run|
    ensures After(Init(capacity), run[..from]).Reached?
    ensures After(Init(capacity), run).state.tail
      == After(Init(capacity), run[..from]).state.tail + TailStores(Init(capacity), run, from)
  {
    if |run| == from {
      assert run[..from] == run;
    } else {
      var m := |run| - 1;
      TailCounts(capacity, run[..m], from);
      assert run[..m][..from] == run[..from];
      var t := RunInv(capacity, run[..m]);
      TailStep(After(Init(capacity), run[..m]).state, t, Replay(capacity, Events(Init(capacity), run[..m])).items, run[m]);
    }
  }

  lemma TailStep(s: State, t: nat, q: seq<Item>, a: Action)
    requires Inv(s, t, q) && Enabled(s, a)
    ensures Do(s, a).tail == s.tail + if a.StepConsumer? && s.consumer.CAdvance? then 1 else 0
  {
  }

  /** What size() returns: the items queued at the first load, less one for a producer and plus one for a consumer between
      its two stores, less the stores to tail_seq_ between the two loads. It is exact for the moment of the first load if
      and only if these cancel; it never exceeds the capacity by more than one. */
  lemma SizeReadExactly(capacity: nat, first: seq<Action>, more: seq<Action>)
    requires IsCapacity(capacity) && After(Init(capacity), first + more).Reached?
    ensures After(Init(capacity), first).Reached? && Replay(capacity, Events(Init(capacity), first)).Queue?
    ensures var s, q := After(Init(capacity), first).state, Replay(capacity, Events(Init(capacity), first)).items;
      var between := TailStores(Init(capacity), first + more, |first|);
      && SizeRead(capacity, first, more) == |q| - One(s.producer.PAdvance?) + One(s.consumer.CAdvance?) - between
      && (SizeRead(capacity, first, more) == |q| <==> between == One(s.consumer.CAdvance?) - One(s.producer.PAdvance?))
      && SizeRead(capacity, first, more) <= capacity + 1
  {
    hide Replay, After, Events, Init, TailStores;
    assert (first + more)[..|first|] == first;
    TailCounts(capacity, first + more, |first|);
    StoredSize(capacity, first);
  }

  // ---------------------------------------------------------------- 64-bit counters

  function WrapProducer(p: Producer): Producer {
    match p
    case PIdle => PIdle
    case PCheck(item, h) => PCheck(item, h % TWO64)
    case PWrite(item, h) => PWrite(item, h % TWO64)
    case PWriting(item, h) => PWriting(item, h % TWO64)
    case PPublish(item, h) => PPublish(item, h % TWO64)
    case PAdvance(h) => PAdvance(h % TWO64)
  }

  function WrapConsumer(c: Consumer): Consumer {
    match c
    case CIdle => CIdle
    case CCheck(t) => CCheck(t % TWO64)
    case CRead(t) => CRead(t % TWO64)
    case CReading(t, seen) => CReading(t % TWO64, seen)
    case CRelease(data, t) => CRelease(data, t % TWO64)
    case CAdvance(t) => CAdvance(t % TWO64)
  }

  function WrapCells(cells: seq<Cell>): seq<Cell> {
    seq(|cells|, i requires 0 <= i < |cells| => cells[i].(sequence := cells[i].sequence % TWO64))
  }

  /** The same ring with every counter, sequence number and local copy taken modulo 2^64. */
  function Wrapped(s: State): State {
    State(s.capacity, TWO64, WrapCells(s.cells), s.head % TWO64, s.tail % TWO64,
          WrapProducer(s.producer), WrapConsumer(s.consumer))
  }

  lemma WrapPlus(x: nat, d: nat)
    ensures (x % TWO64 + d) % TWO64 == (x + d) % TWO64
  {
    var q, r := DivMod(x, TWO64);
    var q', r' := DivMod(r + d, TWO64);
    assert TWO64 * q + TWO64 * q' == TWO64 * (q + q');
    ModUnique(x + d, TWO64, q + q', r');
  }

  lemma WrapIndex(capacity: nat, x: nat)
    requires IsCapacity(capacity) && capacity > 0
    ensures Index(capacity, x % TWO64) == Index(capacity, x)
  {
    var e :| 1 <= e <= 32 && capacity == Pow2(e);
    MaskIsMod(x, e);
    MaskIsMod(x % TWO64, e);
    WrapKeepsIndex(x, capacity);
  }

  /** The numbers compared are so close that comparing them modulo 2^64 is exact. */
  lemma CloseNumbers(x: nat, y: nat)
    requires x <= y < x + TWO64
    ensures x % TWO64 == y % TWO64 <==> x == y
  {
    if x % TWO64 == y % TWO64 {
      ModInjective(x, y, TWO64);
    }
  }

  lemma WrapUpdate(cells: seq<Cell>, i: nat, cell: Cell)
    requires i < |cells|
    ensures WrapCells(cells[i := cell]) == WrapCells(cells)[i := cell.(sequence := cell.sequence % TWO64)]
  {
  }

  lemma WrapCellAt(cells: seq<Cell>, x: nat)
    requires |cells| > 0 && IsCapacity(|cells|)
    ensures CellAt(WrapCells(cells), x % TWO64) == CellAt(cells, x).(sequence := CellAt(cells, x).sequence % TWO64)
  {
    WrapIndex(|cells|, x);
  }

  lemma WrappedChecks(s: State, t: nat, q: seq<Item>)
    requires Inv(s, t, q)
    ensures CellAt(s.cells, t + |q|).sequence % TWO64 == (t + |q|) % TWO64 <==> |q| < s.capacity
    ensures CellAt(s.cells, t).sequence % TWO64 == (t + 1) % TWO64 <==> q != []
  {
    CheckDecides(s.cells, t, q);
    CapacityBounds(s.capacity);
    if |q| == s.capacity {
      NextLap(s.capacity, t);
      assert CellAt(s.cells, t).sequence == t + 1;
      CloseNumbers(t + 1, t + |q|);
    }
    if q == [] {
      assert CellAt(s.cells, t).sequence == t;
    }
    CloseNumbers(t, t + 1);
  }

  lemma WrappedProducer(s: State, t: nat, q: seq<Item>)
    requires Inv(s, t, q)
    ensures WellFormed(Wrapped(s)) && Producing(Wrapped(s)) == Wrapped(Producing(s))
  {
    if !s.producer.PIdle? {
      var h := s.producer.head;
      WrapCellAt(s.cells, h);
      WrapIndex(s.capacity, h);
      WrapPlus(h, 1);
      match s.producer
      case PCheck(_, _) => WrappedChecks(s, t, q); CheckDecides(s.cells, t, q);
      case PWrite(_, _) => WrapUpdate(s.cells, Index(s.capacity, h), CellAt(s.cells, h).(data := Torn));
      case PWriting(item, _) => WrapUpdate(s.cells, Index(s.capacity, h), CellAt(s.cells, h).(data := Val(item)));
      case PPublish(_, _) => WrapUpdate(s.cells, Index(s.capacity, h), CellAt(s.cells, h).(sequence := h + 1));
      case _ =>
    }
  }

  lemma WrappedConsumer(s: State, t: nat, q: seq<Item>)
    requires Inv(s, t, q)
    ensures WellFormed(Wrapped(s)) && Consuming(Wrapped(s)) == Wrapped(Consuming(s))
  {
    if !s.consumer.CIdle? {
      var x := s.consumer.tail;
      WrapCellAt(s.cells, x);
      WrapIndex(s.capacity, x);
      WrapPlus(x, 1);
      WrapPlus(x, s.capacity);
      match s.consumer
      case CCheck(_) => WrappedChecks(s, t, q); CheckDecides(s.cells, t, q);
      case CRelease(_, _) =>
        WrapUpdate(s.cells, Index(s.capacity, x), CellAt(s.cells, x).(sequence := x + s.capacity));
      case _ =>
    }
  }

  lemma WrappedStep(s: State, t: nat, q: seq<Item>, a: Action)
    requires Inv(s, t, q)
    ensures Enabled(Wrapped(s), a) <==> Enabled(s, a)
    ensures Enabled(s, a) ==> Do(Wrapped(s), a) == Wrapped(Do(s, a)) && EventOf(Wrapped(s), a) == EventOf(s, a)
  {
    hide ProducerOk, ConsumerOk, CellsOk, Producing, Consuming, WrapCells;
    WrappedProducer(s, t, q);
    WrappedConsumer(s, t, q);
  }

  /** The ring with wrapping 64-bit counters and the ring with unbounded counters have the same runs with the same
      outcomes, however often the counters wrap. */
  lemma {:induction false} WrappingIsInvisible(capacity: nat, run: seq<Action>)
    requires IsCapacity(capacity)
    ensures After(Wrapped(Init(capacity)), run).Reached? <==> After(Init(capacity), run).Reached?
    ensures After(Init(capacity), run).Reached? ==>
      && After(Wrapped(Init(capacity)), run).state == Wrapped(After(Init(capacity), run).state)
      && Events(Wrapped(Init(capacity)), run) == Events(Init(capacity), run)
  {
    if run != [] {
      var m := |run| - 1;
      WrappingIsInvisible(capacity, run[..m]);
      if After(Init(capacity), run[..m]).Reached? {
        var t := RunInv(capacity, run[..m]);
        WrappedStep(After(Init(capacity), run[..m]).state, t,
                    Replay(capacity, Events(Init(capacity), run[..m])).items, run[m]);
      }
    }
  }

  // ---------------------------------------------------------------- two boundary cases

  lemma Extend(s: State, run: seq<Action>, x: State, a: Action, y: State) returns (longer: seq<Action>)
    requires After(s, run) == Reached(x) && Enabled(x, a) && Do(x, a) == y
    ensures longer == run + [a] && After(s, longer) == Reached(y)
    ensures Replay(s.capacity, Events(s, run)).Queue? ==>
      Replay(s.capacity, Events(s, longer)) ==
      QueueStep(s.capacity, Replay(s.capacity, Events(s, run)).items, EventOf(x, a))
  {
    longer := run + [a];
    assert longer[..|longer| - 1] == run;
    var events := Events(s, longer);
    assert events[..|events| - 1] == Events(s, run);
  }

  function PushPhase(p: Producer): nat {
    match p
    case PIdle => 0
    case PCheck(_, _) => 5
    case PWrite(_, _) => 4
    case PWriting(_, _) => 3
    case PPublish(_, _) => 2
    case PAdvance(_) => 1
  }

  function PopPhase(c: Consumer): nat {
    match c
    case CIdle => 0
    case CCheck(_) => 5
    case CRead(_) => 4
    case CReading(_, _) => 3
    case CRelease(_, _) => 2
    case CAdvance(_) => 1
  }

  /** A push that finds room goes through its steps. */
  lemma PushAdvances(s: State, t: nat, q: seq<Item>) returns (q': seq<Item>)
    requires Inv(s, t, q) && !s.producer.PIdle? && (PushPhase(s.producer) > 1 ==> |q| < s.capacity)
    ensures Inv(Producing(s), t, q') && PushPhase(Producing(s).producer) == PushPhase(s.producer) - 1
    ensures |q'| == |q| + if s.producer.PPublish? then 1 else 0
    ensures Producing(s).consumer == s.consumer && Producing(s).capacity == s.capacity
  {
    q' := QueueStep(s.capacity, q, EventOf(s, StepProducer)).items;
    ProducerStep(s, t, q);
    CheckDecides(s.cells, t, q);
  }

  lemma PopAdvances(s: State, t: nat, q: seq<Item>) returns (t': nat, q': seq<Item>)
    requires Inv(s, t, q) && !s.consumer.CIdle? && (PopPhase(s.consumer) > 1 ==> q != [])
    ensures Inv(Consuming(s), t', q') && PopPhase(Consuming(s).consumer) == PopPhase(s.consumer) - 1
    ensures t' + |q'| == t + |q| && |q'| == |q| - if s.consumer.CRelease? then 1 else 0
    ensures Consuming(s).producer == s.producer && Consuming(s).capacity == s.capacity
  {
    CheckDecides(s.cells, t, q);
    q' := QueueStep(s.capacity, q, EventOf(s, StepConsumer)).items;
    t' := ConsumerStep(s, t, q);
  }

  lemma {:induction false} FinishPush(from: State, run: seq<Action>, x: State, t: nat, q: seq<Item>)
    returns (longer: seq<Action>, y: State, q': seq<Item>)
    requires After(from, run) == Reached(x) && Inv(x, t, q) && (PushPhase(x.producer) > 1 ==> |q| < x.capacity)
    ensures After(from, longer) == Reached(y) && Inv(y, t, q') && y.producer.PIdle?
    ensures y.consumer == x.consumer && y.capacity == x.capacity
    ensures |q'| == |q| + if PushPhase(x.producer) > 1 then 1 else 0
    decreases PushPhase(x.producer)
  {
    hide Inv, After, Producing, Consuming;
    longer, y, q' := run, x, q;
    if !x.producer.PIdle? {
      Roomy(x, t, q);
      OneStep(from, run, x, StepProducer);
      q' := PushAdvances(x, t, q);
      longer, y, q' := FinishPush(from, run + [StepProducer], Producing(x), t, q');
    }
  }

  lemma {:induction false} FinishPop(from: State, run: seq<Action>, x: State, t: nat, q: seq<Item>)
    returns (longer: seq<Action>, y: State, t': nat, q': seq<Item>)
    requires After(from, run) == Reached(x) && Inv(x, t, q) && (PopPhase(x.consumer) > 1 ==> q != [])
    ensures After(from, longer) == Reached(y) && Inv(y, t', q') && y.consumer.CIdle?
    ensures y.producer == x.producer && y.capacity == x.capacity
    ensures t' + |q'| == t + |q| && |q'| == |q| - if PopPhase(x.consumer) > 1 then 1 else 0
    decreases PopPhase(x.consumer)
  {
    hide Inv, After, Producing, Consuming;
    longer, y, t', q' := run, x, t, q;
    if !x.consumer.CIdle? {
      Roomy(x, t, q);
      OneStep(from, run, x, StepConsumer);
      t', q' := PopAdvances(x, t, q);
      longer, y, t', q' := FinishPop(from, run + [StepConsumer], Consuming(x), t', q');
    }
  }

  lemma OneStep(from: State, run: seq<Action>, x: State, a: Action)
    requires After(from, run) == Reached(x) && Enabled(x, a)
    ensures After(from, run + [a]) == Reached(Do(x, a))
  {
    assert (run + [a])[..|run + [a]| - 1] == run;
  }

  lemma Starts(s: State, t: nat, q: seq<Item>, item: Item)
    requires Inv(s, t, q)
    ensures s.producer.PIdle? ==> Inv(Do(s, StartPush(item)), t, q)
    ensures s.consumer.CIdle? ==> Inv(Do(s, StartPop), t, q)
  {
  }

  /** n items go through the ring one after the other. */
  lemma {:induction false} Rounds(capacity: nat, n: nat) returns (run: seq<Action>, y: State)
    requires IsCapacity(capacity)
    ensures After(Init(capacity), run) == Reached(y) && Inv(y, n, [])
    ensures y.producer.PIdle? && y.consumer.CIdle? && y.capacity == capacity
  {
    if n == 0 {
      run, y := [], Init(capacity);
      InitInv(capacity);
    } else {
      hide Inv, After, Producing, Consuming;
      run, y := Rounds(capacity, n - 1);
      run, y := Round(Init(capacity), run, y, n - 1);
    }
  }

  lemma Round(from: State, run: seq<Action>, x: State, t: nat) returns (longer: seq<Action>, y: State)
    requires After(from, run) == Reached(x) && Inv(x, t, []) && x.producer.PIdle? && x.consumer.CIdle?
    ensures After(from, longer) == Reached(y) && Inv(y, t + 1, [])
    ensures y.producer.PIdle? && y.consumer.CIdle? && y.capacity == x.capacity
  {
    hide Inv, After, Producing, Consuming, IsCapacity;
    Roomy(x, t, []);
    Starts(x, t, [], 5);
    OneStep(from, run, x, StartPush(5));
    var q, t';
    longer, y, q := FinishPush(from, run + [StartPush(5)], Do(x, StartPush(5)), t, []);
    Roomy(y, t, q);
    Starts(y, t, q, 5);
    OneStep(from, longer, y, StartPop);
    longer, y, t', q := FinishPop(from, longer + [StartPop], Do(y, StartPop), t, q);
  }

  lemma Roomy(s: State, t: nat, q: seq<Item>)
    requires Inv(s, t, q)
    ensures WellFormed(s) && s.capacity >= 2
  {
    CapacityBounds(s.capacity);
  }

  /** A thread that loads head_seq_ and is then held up while n items pass reads a size of -n, as an unsigned number
      2^64 - n: nothing bounds how far size() is below. */
  lemma SizeCanBeFarOff(capacity: nat, n: nat) returns (more: seq<Action>)
    requires IsCapacity(capacity)
    ensures After(Init(capacity), []).Reached? && After(Init(capacity), [] + more).Reached?
    ensures SizeRead(capacity, [], more) == -(n as int)
  {
    var y;
    more, y := Rounds(capacity, n);
    assert [] + more == more;
    assert y.tail == n;
  }

  /** One item published, its producer not yet past the store to head_seq_. */
  lemma OnePublished(capacity: nat) returns (run: seq<Action>)
    requires capacity > 0
    ensures After(Init(capacity), run) ==
      Reached(State(capacity, 0, Init(capacity).cells[0 := Cell(1, Val(5))], 0, 0, PAdvance(0), CIdle))
    ensures Replay(capacity, Events(Init(capacity), run)) == Queue([5])
  {
    var s := Init(capacity);
    run := Extend(s, [], s, StartPush(5), s.(producer := PCheck(5, 0)));
    run := Extend(s, run, s.(producer := PCheck(5, 0)), StepProducer, s.(producer := PWrite(5, 0)));
    var writing := s.(cells := s.cells[0 := Cell(0, Torn)], producer := PWriting(5, 0));
    run := Extend(s, run, s.(producer := PWrite(5, 0)), StepProducer, writing);
    var written := s.(cells := s.cells[0 := Cell(0, Val(5))], producer := PPublish(5, 0));
    run := Extend(s, run, writing, StepProducer, written);
    run := Extend(s, run, written, StepProducer, s.(cells := s.cells[0 := Cell(1, Val(5))], producer := PAdvance(0)));
  }

  /** The consumer has copied the item while the producer still has to store head_seq_. */
  lemma ItemCopied() returns (run: seq<Action>)
    ensures After(Init(2), run) ==
      Reached(State(2, 0, Init(2).cells[0 := Cell(1, Val(5))], 0, 0, PAdvance(0), CRelease(Val(5), 0)))
  {
    var s := Init(2);
    run := OnePublished(2);
    var b := State(2, 0, s.cells[0 := Cell(1, Val(5))], 0, 0, PAdvance(0), CIdle);
    assert |b.cells| == 2 && CellAt(b.cells, 0) == Cell(1, Val(5));
    run := Extend(s, run, b, StartPop, b.(consumer := CCheck(0)));
    run := Extend(s, run, b.(consumer := CCheck(0)), StepConsumer, b.(consumer := CRead(0)));
    run := Extend(s, run, b.(consumer := CRead(0)), StepConsumer, b.(consumer := CReading(0, Val(5))));
    run := Extend(s, run, b.(consumer := CReading(0, Val(5))), StepConsumer, b.(consumer := CRelease(Val(5), 0)));
  }

  /** size() can read head_seq_ behind tail_seq_: a pop completes while the push it took from has not yet stored
      head_seq_. The unsigned difference is then 2^64 - 1. */
  lemma SizeCanReadMinusOne() returns (run: seq<Action>)
    ensures After(Init(2), run).Reached?
    ensures var s := After(Init(2), run).state; s.head - s.tail == -1
  {
    var s := Init(2);
    run := ItemCopied();
    var c := State(2, 0, s.cells[0 := Cell(1, Val(5))], 0, 0, PAdvance(0), CRelease(Val(5), 0));
    var d := State(2, 0, s.cells[0 := Cell(2, Val(5))], 0, 0, PAdvance(0), CAdvance(0));
    run := Extend(s, run, c, StepConsumer, d);
    run := Extend(s, run, d, StepConsumer, d.(tail := 1, consumer := CIdle));
  }

  /** The single slot is full, and the check for a second push has passed. */
  lemma FullSlotFoundFree() returns (run: seq<Action>)
    ensures After(Init(1), run) == Reached(State(1, 0, [Cell(1, Val(5))], 1, 0, PWrite(6, 1), CIdle))
    ensures Replay(1, Events(Init(1), run)) == Queue([5])
  {
    var s := Init(1);
    run := OnePublished(1);
    var b := State(1, 0, [Cell(1, Val(5))], 0, 0, PAdvance(0), CIdle);
    var c := b.(head := 1, producer := PIdle);
    run := Extend(s, run, b, StepProducer, c);
    run := Extend(s, run, c, StartPush(6), c.(producer := PCheck(6, 1)));
    run := Extend(s, run, c.(producer := PCheck(6, 1)), StepProducer, c.(producer := PWrite(6, 1)));
  }

  /** With a single slot the same code would accept a second item over the first: in a full ring the slot's sequence
      is the number the producer is waiting for. */
  lemma OneSlotOverwrites() returns (run: seq<Action>)
    ensures After(Init(1), run).Reached? && Replay(1, Events(Init(1), run)) == Illegal
  {
    var s := Init(1);
    run := FullSlotFoundFree();
    var c := State(1, 0, [Cell(1, Val(5))], 1, 0, PWrite(6, 1), CIdle);
    var d := c.(cells := [Cell(1, Torn)], producer := PWriting(6, 1));
    run := Extend(s, run, c, StepProducer, d);
    var e := c.(cells := [Cell(1, Val(6))], producer := PPublish(6, 1));
    run := Extend(s, run, d, StepProducer, e);
    run := Extend(s, run, e, StepProducer, c.(cells := [Cell(2, Val(6))], producer := PAdvance(1)));
  }
}
