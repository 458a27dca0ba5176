/** What the order book manager does with a message, on plain values: per instrument a book and a sequence state. */
module Reconciliation {
  import opened BookLevels
  import opened OrderBooks

  type i64 = n: int | -TWO63 <= n < TWO63

  /** Instruments are only compared, so numbers stand for them. */
  type InstrumentId = nat

  /** A level as a message carries it, with a signed quantity. */
  datatype Quote = Quote(price: int, quantity: i64)

  datatype Body =
    | Snapshot(lastUpdateId: u64, bids: seq<Quote>, asks: seq<Quote>)
    | Delta(firstUpdateId: u64, lastUpdateId: u64, bids: seq<Quote>, asks: seq<Quote>)
    | Trade
    | Unknown

  datatype Message = Message(instrument: InstrumentId, body: Body)

  /** What comes out of the queue: a message or a null pointer. */
  datatype Pointer = Null | To(message: Message)

  datatype Book = Book(bids: Levels, asks: Levels)

  datatype SequenceState = SequenceState(lastUpdateId: u64, gapsDetected: nat, awaitingSnapshot: bool)

  datatype Instrument = Instrument(book: Book, seqState: SequenceState)

  datatype Statistics = Statistics(messagesProcessed: nat, snapshotsApplied: nat, deltasApplied: nat, tradesProcessed: nat,
                                   sequenceGaps: nat, unknownInstruments: nat, bboChanges: nat, parseErrors: nat)

  datatype View = View(instruments: map<InstrumentId, Instrument>, stats: Statistics)

  /** What add_instrument creates. */
  const FRESH := Instrument(Book(map[], map[]), SequenceState(0, 0, true))

  const NEW_MANAGER := View(map[], Statistics(0, 0, 0, 0, 0, 0, 0, 0))

  function Added(v: View, x: InstrumentId): View {
    if x in v.instruments then v else v.(instruments := v.instruments[x := FRESH])
  }

  /** A new manager after its calls of add_instrument, repetitions allowed. */
  function Managing(ids: seq<InstrumentId>): View {
    if ids == [] then NEW_MANAGER else Added(Managing(ids[..|ids| - 1]), ids[|ids| - 1])
  }

  // ---------------------------------------------------------------- one message

  function ToUnsigned(n: i64): (r: u64)
    ensures ToInt64(r) == n
  {
    if n < 0 then n + 2 * TWO63 else n
  }

  function Changes(quotes: seq<Quote>): (changes: seq<Change>)
    ensures |changes| == |quotes|
    ensures forall i | 0 <= i < |quotes| :: changes[i] == Change(quotes[i].price, ToUnsigned(quotes[i].quantity))
  {
    seq(|quotes|, i requires 0 <= i < |quotes| => Change(quotes[i].price, ToUnsigned(quotes[i].quantity)))
  }

  datatype Verdict = Await | Gap | Stale | Apply

  /** The checks on a delta, in order; the next expected id is a wrapping 64-bit sum. */
  function Judge(checking: bool, s: SequenceState, first: u64, last: u64): Verdict {
    if !checking then Apply
    else if s.awaitingSnapshot then Await
    else if first > (s.lastUpdateId + 1) % (2 * TWO63) then Gap
    else if last <= s.lastUpdateId then Stale
    else Apply
  }

  /** The book and sequence state of an instrument after a message for it. */
  function Received(checking: bool, i: Instrument, body: Body): Instrument {
    match body
    case Snapshot(last, bids, asks) =>
      Instrument(Book(Loaded(Changes(bids)), Loaded(Changes(asks))),
                 i.seqState.(lastUpdateId := last, awaitingSnapshot := false))
    case Delta(first, last, bids, asks) =>
      (match Judge(checking, i.seqState, first, last)
       case Gap => i.(seqState := i.seqState.(gapsDetected := i.seqState.gapsDetected + 1, awaitingSnapshot := true))
       case Apply => Instrument(Book(ApplyAll(i.book.bids, Changes(bids)), ApplyAll(i.book.asks, Changes(asks))),
                                i.seqState.(lastUpdateId := last))
       case _ => i)
    case _ => i
  }

  /** Whether two pairs of sides have different tops. */
  ghost predicate TopDiffers(before: Book, after: Book) {
    exists t, t' :: IsTopOfBook(before.bids, before.asks, t) && IsTopOfBook(after.bids, after.asks, t') && t != t'
  }

  /** Whether some update of a run moves the top of the book, even if a later one moves it back. */
  ghost predicate BidsMove(b: Book, changes: seq<Change>) {
    changes != [] &&
    var before := changes[..|changes| - 1];
    BidsMove(b, before) || TopDiffers(Book(ApplyAll(b.bids, before), b.asks), Book(ApplyAll(b.bids, changes), b.asks))
  }

  ghost predicate AsksMove(b: Book, changes: seq<Change>) {
    changes != [] &&
    var before := changes[..|changes| - 1];
    AsksMove(b, before) || TopDiffers(Book(b.bids, ApplyAll(b.asks, before)), Book(b.bids, ApplyAll(b.asks, changes)))
  }

  ghost predicate TopMoves(b: Book, bids: seq<Change>, asks: seq<Change>) {
    BidsMove(b, bids) || AsksMove(Book(ApplyAll(b.bids, bids), b.asks), asks)
  }

  function One(b: bool): nat {
    if b then 1 else 0
  }

  /** The counters after a message for a known instrument. A delta that is not applied leaves early and is not counted as
      processed. */
  ghost function Counted(checking: bool, stats: Statistics, i: Instrument, body: Body): Statistics {
    match body
    case Snapshot(_, _, _) =>
      stats.(snapshotsApplied := stats.snapshotsApplied + 1, bboChanges := stats.bboChanges + 1,
             messagesProcessed := stats.messagesProcessed + 1)
    case Delta(first, last, bids, asks) =>
      (match Judge(checking, i.seqState, first, last)
       case Gap => stats.(sequenceGaps := stats.sequenceGaps + 1)
       case Apply =>
         stats.(deltasApplied := stats.deltasApplied + 1, messagesProcessed := stats.messagesProcessed + 1,
                bboChanges := stats.bboChanges + One(TopMoves(i.book, Changes(bids), Changes(asks))))
       case _ => stats)
    case Trade =>
      stats.(tradesProcessed := stats.tradesProcessed + 1, messagesProcessed := stats.messagesProcessed + 1)
    case Unknown =>
      stats.(parseErrors := stats.parseErrors + 1, messagesProcessed := stats.messagesProcessed + 1)
  }

  ghost function Processed(checking: bool, v: View, p: Pointer): View {
    match p
    case Null => v.(stats := v.stats.(parseErrors := v.stats.parseErrors + 1))
    case To(m) =>
      if m.instrument !in v.instruments then
        v.(stats := v.stats.(unknownInstruments := v.stats.unknownInstruments + 1))
      else
        var i := v.instruments[m.instrument];
        View(v.instruments[m.instrument := Received(checking, i, m.body)], Counted(checking, v.stats, i, m.body))
  }

  ghost function Run(checking: bool, v: View, stream: seq<Pointer>): View {
    if stream == [] then v
    else Processed(checking, Run(checking, v, stream[..|stream| - 1]), stream[|stream| - 1])
  }

  // ---------------------------------------------------------------- the true history of a book

  /** The book that the exchange has after each update id. */
  datatype History = History(bids: nat -> Levels, asks: nat -> Levels)

  ghost predicate Mentions(changes: seq<Change>, price: int) {
    exists i :: 0 <= i < |changes| && changes[i].price == price
  }

  /** A snapshot lists every level of a side; entries without quantity may be among them. */
  ghost predicate Represents(listed: seq<Change>, m: Levels) {
    && (forall i | 0 <= i < |listed| && listed[i].qty > 0 :: Qty(m, listed[i].price) == listed[i].qty)
    && (forall p | p in m :: Change(p, m[p]) in listed)
  }

  /** A delta for the ids first..last lists the final quantity of every price that changed under these ids. */
  ghost predicate CarriesChanges(side: nat -> Levels, first: nat, last: nat, changes: seq<Change>) {
    && (forall i | 0 <= i < |changes| :: changes[i].qty == Qty(side(last), changes[i].price))
    && (forall p: int, k: nat | !Mentions(changes, p) && first <= k + 1 && k <= last ::
         Qty(side(k), p) == Qty(side(last), p))
  }

  ghost predicate Truthful(h: History, body: Body) {
    match body
    case Snapshot(last, bids, asks) =>
      Represents(Changes(bids), h.bids(last)) && Represents(Changes(asks), h.asks(last))
    case Delta(first, last, bids, asks) =>
      CarriesChanges(h.bids, first, last, Changes(bids)) && CarriesChanges(h.asks, first, last, Changes(asks))
    case _ => true
  }

  /** Not waiting for a snapshot means holding the book that the exchange had after the last applied id. */
  ghost predicate Synchronised(h: History, i: Instrument) {
    i.seqState.awaitingSnapshot || i.book == Book(h.bids(i.seqState.lastUpdateId), h.asks(i.seqState.lastUpdateId))
  }

  lemma {:induction false} LoadedQty(listed: seq<Change>, m: Levels, p: int)
    requires forall i | 0 <= i < |listed| && listed[i].qty > 0 :: Qty(m, listed[i].price) == listed[i].qty
    ensures p in Loaded(listed) ==> p in m && Loaded(listed)[p] == m[p]
    ensures p in m && Change(p, m[p]) in listed ==> p in Loaded(listed)
  {
    if listed != [] {
      var before, last := listed[..|listed| - 1], listed[|listed| - 1];
      assert listed == before + [last];
      LoadedQty(before, m, p);
      assert last.qty > 0 ==> Qty(m, last.price) == last.qty;
    }
  }

  lemma SnapshotLoads(listed: seq<Change>, m: Levels)
    requires Represents(listed, m)
    ensures Loaded(listed) == m
  {
    forall p: int
      ensures p in Loaded(listed) <==> p in m
      ensures p in m ==> Loaded(listed)[p] == m[p]
    {
      LoadedQty(listed, m, p);
    }
  }

  lemma {:induction false} AppliedQty(m: Levels, changes: seq<Change>, p: int, q: u64)
    requires forall i | 0 <= i < |changes| && changes[i].price == p :: changes[i].qty == q
    ensures Qty(ApplyAll(m, changes), p) == if Mentions(changes, p) then q else Qty(m, p)
  {
    if changes != [] {
      var before, last := changes[..|changes| - 1], changes[|changes| - 1];
      AppliedQty(m, before, p, q);
      if last.price == p {
        assert Mentions(changes, p);
      } else if Mentions(changes, p) {
        var i :| 0 <= i < |changes| && changes[i].price == p;
        assert before[i].price == p;
      }
    }
  }

  /** From any id under or just before the delta's range, applying it arrives at its last id. */
  lemma DeltaArrives(side: nat -> Levels, k: nat, first: nat, last: nat, changes: seq<Change>)
    requires CarriesChanges(side, first, last, changes) && first <= k + 1 && k <= last
    ensures ApplyAll(side(k), changes) == side(last)
  {
    forall p: int
      ensures Qty(ApplyAll(side(k), changes), p) == Qty(side(last), p)
    {
      AppliedQty(side(k), changes, p, Qty(side(last), p));
    }
    SameQuantities(ApplyAll(side(k), changes), side(last));
  }

  /** One truthful message keeps an instrument synchronised or makes it wait. */
  lemma MessageKeepsTruth(h: History, i: Instrument, body: Body)
    requires Synchronised(h, i) && Truthful(h, body)
    ensures Synchronised(h, Received(true, i, body))
  {
    match body
    case Snapshot(last, bids, asks) =>
      SnapshotLoads(Changes(bids), h.bids(last));
      SnapshotLoads(Changes(asks), h.asks(last));
    case Delta(first, last, bids, asks) =>
      if Judge(true, i.seqState, first, last).Apply? {
        DeltaArrives(h.bids, i.seqState.lastUpdateId, first, last, Changes(bids));
        DeltaArrives(h.asks, i.seqState.lastUpdateId, first, last, Changes(asks));
      }
    case _ =>
  }

  ghost predicate AllSynchronised(h: InstrumentId -> History, v: View) {
    forall x | x in v.instruments :: Synchronised(h(x), v.instruments[x])
  }

  ghost predicate TruthfulPointer(h: InstrumentId -> History, p: Pointer) {
    p.To? ==> Truthful(h(p.message.instrument), p.message.body)
  }

  lemma StepKeepsTruth(h: InstrumentId -> History, v: View, p: Pointer)
    requires AllSynchronised(h, v) && TruthfulPointer(h, p)
    ensures AllSynchronised(h, Processed(true, v, p))
  {
    if p.To? && p.message.instrument in v.instruments {
      MessageKeepsTruth(h(p.message.instrument), v.instruments[p.message.instrument], p.message.body);
    }
  }

  /** So does any stream of truthful messages. */
  lemma {:induction false} StreamKeepsTruth(h: InstrumentId -> History, v: View, stream: seq<Pointer>)
    requires AllSynchronised(h, v) && forall k | 0 <= k < |stream| :: TruthfulPointer(h, stream[k])
    ensures AllSynchronised(h, Run(true, v, stream))
  {
    if stream != [] {
      StreamKeepsTruth(h, v, stream[..|stream| - 1]);
      StepKeepsTruth(h, Run(true, v, stream[..|stream| - 1]), stream[|stream| - 1]);
    }
  }

  /** An instrument just added has nothing to do with the exchange's book yet, and says so. */
  lemma NewInstrumentIsHonest(h: History)
    ensures Synchronised(h, FRESH) && FRESH.seqState.awaitingSnapshot
  {
  }

  /** A new manager has the instruments added, each as created, and all counters at zero. */
  lemma {:induction false} ManagesTheAdded(ids: seq<InstrumentId>)
    ensures forall x :: x in Managing(ids).instruments <==> x in ids
    ensures forall x | x in ids :: Managing(ids).instruments[x] == FRESH
    ensures Managing(ids).stats == NEW_MANAGER.stats
  {
    if ids != [] {
      ManagesTheAdded(ids[..|ids| - 1]);
      assert ids == ids[..|ids| - 1] + [ids[|ids| - 1]];
    }
  }

  /** However a stream of truthful messages to a new manager is thinned out, repeated or reordered, every instrument that
      does not wait for a snapshot holds exactly the exchange's book of its last update id. */
  lemma NeverWrongWhileSynchronised(h: InstrumentId -> History, ids: seq<InstrumentId>, stream: seq<Pointer>)
    requires forall k | 0 <= k < |stream| :: TruthfulPointer(h, stream[k])
    ensures AllSynchronised(h, Run(true, Managing(ids), stream))
  {
    hide Synchronised, TruthfulPointer, Run;
    ManagesTheAdded(ids);
    forall x | x in Managing(ids).instruments
      ensures Synchronised(h(x), Managing(ids).instruments[x])
    {
      NewInstrumentIsHonest(h(x));
    }
    StreamKeepsTruth(h, Managing(ids), stream);
  }

  const NO_LEVELS: Levels := map[]

  const ONE_LEVEL: Levels := map[7 := 1]

  /** A side that gets its one level with the update after the given id. */
  function Jump(id: nat): nat -> Levels {
    (n: nat) => if n <= id then NO_LEVELS else ONE_LEVEL
  }

  ghost predicate Arrives(side: nat -> Levels, k: nat, last: nat, changes: seq<Change>) {
    ApplyAll(side(k), changes) == side(last)
  }

  /** Whatever the history of the side, a truthful delta takes the book of id k to the book of its last id. */
  ghost predicate Safe(k: nat, first: nat, last: nat) {
    forall side, changes :: CarriesChanges(side, first, last, changes) ==> Arrives(side, k, last, changes)
  }

  /** The manager's guard is exact: applying a truthful delta first..last to the book of id k gives the book of its last
      id whatever the history, if and only if no id between is left out and the delta is not older than the book. Outside
      the guard there is always a history that the result contradicts. */
  lemma GuardIsExact(k: nat, first: nat, last: nat)
    requires first <= last
    ensures Safe(k, first, last) <==> first <= k + 1 && k <= last
  {
    if first <= k + 1 && k <= last {
      forall side, changes | CarriesChanges(side, first, last, changes)
        ensures Arrives(side, k, last, changes)
      {
        DeltaArrives(side, k, first, last, changes);
      }
    } else {
      var side := Jump(if k < last then k else last);
      assert CarriesChanges(side, first, last, []);
      assert 7 in ONE_LEVEL && 7 !in NO_LEVELS;
      assert !Arrives(side, k, last, []);
    }
  }

  /** So the manager, not waiting and below the largest id, applies exactly the deltas that are safe under every history,
      less those that bring nothing new. */
  lemma AppliedExactlyWhenSafe(s: SequenceState, first: u64, last: u64)
    requires first <= last && !s.awaitingSnapshot && s.lastUpdateId + 1 < 2 * TWO63
    ensures Judge(true, s, first, last).Apply? <==> last != s.lastUpdateId && Safe(s.lastUpdateId, first, last)
  {
    GuardIsExact(s.lastUpdateId, first, last);
  }

  /** A side whose first update changes one level and whose second changes the other. */
  function TwoLevels(n: nat): Levels {
    map[7 := if n >= 1 then 2 else 1, 8 := if n >= 2 then 2 else 1]
  }

  const TWO_LEVELS := History(TwoLevels, (n: nat) => NO_LEVELS)

  const OPENING := Snapshot(0, [Quote(7, 1), Quote(8, 1)], [])

  const SECOND := Delta(2, 2, [Quote(8, 2)], [])

  lemma OpeningIsTruthful()
    ensures Truthful(TWO_LEVELS, OPENING)
    ensures Loaded(Changes(OPENING.bids)) == TwoLevels(0) && Loaded(Changes(OPENING.asks)) == NO_LEVELS
  {
    var changes := Changes(OPENING.bids);
    assert changes == [Change(7, 1), Change(8, 1)];
    assert changes[0] == Change(7, 1) && changes[1] == Change(8, 1);
    assert Changes([]) == [];
    SnapshotLoads(changes, TwoLevels(0));
  }

  lemma SecondIsTruthful()
    ensures Truthful(TWO_LEVELS, SECOND)
    ensures ApplyAll(TwoLevels(0), Changes([Quote(8, 2)])) == TwoLevels(0)[8 := 2]
    ensures ApplyAll(NO_LEVELS, Changes([])) == NO_LEVELS
  {
    var changes := Changes([Quote(8, 2)]);
    assert changes == [Change(8, 2)] && changes[..0] == [];
    forall p: int, k: nat | !Mentions(changes, p) && 2 <= k + 1 && k <= 2
      ensures Qty(TwoLevels(k), p) == Qty(TwoLevels(2), p)
    {
      assert changes[0].price == 8;
    }
    assert Changes([]) == [];
  }

  /** Snapshot, nothing for the first id, and the delta for the second. */
  lemma WrongBook()
    ensures !Synchronised(TWO_LEVELS, Received(false, Received(false, FRESH, OPENING), SECOND))
  {
    OpeningIsTruthful();
    var loaded := Received(false, FRESH, OPENING);
    assert loaded == Instrument(Book(TwoLevels(0), NO_LEVELS), SequenceState(0, 0, false));
    assert Changes(SECOND.bids) == [Change(8, 2)];
    var i := Received(false, loaded, SECOND);
    assert i.book.bids == TwoLevels(0)[8 := 2] && TwoLevels(0)[8 := 2][7] == 1 && TwoLevels(2)[7] == 2;
  }

  /** Without sequence checking a new manager can end with a wrong book that it does not mark as waiting: the snapshot, a
      lost delta, and the next one. */
  lemma UncheckedMissesALoss() returns (stream: seq<Pointer>)
    ensures forall k | 0 <= k < |stream| :: TruthfulPointer(x => TWO_LEVELS, stream[k])
    ensures !AllSynchronised(x => TWO_LEVELS, Run(false, Managing([0]), stream))
  {
    hide Run, Own, ReceivedAll, Received, Synchronised, Truthful, Managing;
    stream := [To(Message(0, OPENING)), To(Message(0, SECOND))];
    OpeningIsTruthful();
    SecondIsTruthful();
    WrongBook();
    ManagesTheAdded([0]);
    assert 0 in [0];
    OnlyOwnMessagesMatter(false, Managing([0]), stream, 0);
    TwoReceived(FRESH, OPENING, SECOND);
    assert 0 in Run(false, Managing([0]), stream).instruments;
  }

  lemma OneMore(i: Instrument, stream: seq<Pointer>, bodies: seq<Body>, b: Body)
    requires Own(0, stream) == bodies
    ensures Own(0, stream + [To(Message(0, b))]) == bodies + [b]
    ensures ReceivedAll(false, i, bodies + [b]) == Received(false, ReceivedAll(false, i, bodies), b)
  {
    var longer := stream + [To(Message(0, b))];
    assert longer[..|longer| - 1] == stream && (bodies + [b])[..|bodies + [b]| - 1] == bodies;
  }

  lemma NothingReceived(i: Instrument)
    ensures Own(0, []) == [] && ReceivedAll(false, i, []) == i
  {
  }

  lemma TwoReceived(i: Instrument, a: Body, b: Body)
    ensures Own(0, [To(Message(0, a)), To(Message(0, b))]) == [a, b]
    ensures ReceivedAll(false, i, [a, b]) == Received(false, Received(false, i, a), b)
  {
    hide Received, ReceivedAll, Own;
    NothingReceived(i);
    assert [] + [To(Message(0, a))] == [To(Message(0, a))] && [] + [a] == [a] && [a] + [b] == [a, b];
    OneMore(i, [], [], a);
    OneMore(i, [To(Message(0, a))], [a], b);
    assert [To(Message(0, a))] + [To(Message(0, b))] == [To(Message(0, a)), To(Message(0, b))];
  }

  // ---------------------------------------------------------------- messages of one instrument

  /** The messages of one instrument in stream order. */
  function Own(x: InstrumentId, stream: seq<Pointer>): seq<Body> {
    if stream == [] then []
    else
      var last := stream[|stream| - 1];
      Own(x, stream[..|stream| - 1]) + (if last.To? && last.message.instrument == x then [last.message.body] else [])
  }

  function ReceivedAll(checking: bool, i: Instrument, bodies: seq<Body>): Instrument {
    if bodies == [] then i
    else Received(checking, ReceivedAll(checking, i, bodies[..|bodies| - 1]), bodies[|bodies| - 1])
  }

  /** What becomes of an instrument depends on its own messages only, whatever is mixed in between. */
  lemma {:induction false} OnlyOwnMessagesMatter(checking: bool, v: View, stream: seq<Pointer>, x: InstrumentId)
    ensures Run(checking, v, stream).instruments.Keys == v.instruments.Keys
    ensures x in v.instruments
      ==> Run(checking, v, stream).instruments[x] == ReceivedAll(checking, v.instruments[x], Own(x, stream))
  {
    if stream != [] {
      var before, last := stream[..|stream| - 1], stream[|stream| - 1];
      OnlyOwnMessagesMatter(checking, v, before, x);
      if last.To? && last.message.instrument == x {
        var bodies := Own(x, stream);
        assert bodies[..|bodies| - 1] == Own(x, before);
      } else {
        assert Own(x, stream) == Own(x, before);
      }
    }
  }

  ghost predicate NoSnapshot(bodies: seq<Body>) {
    forall k | 0 <= k < |bodies| :: !bodies[k].Snapshot?
  }

  /** While an instrument waits, nothing but a snapshot changes its book or its sequence state. */
  lemma {:induction false} WaitingIsFrozen(i: Instrument, bodies: seq<Body>)
    requires i.seqState.awaitingSnapshot && NoSnapshot(bodies)
    ensures ReceivedAll(true, i, bodies) == i
  {
    if bodies != [] {
      WaitingIsFrozen(i, bodies[..|bodies| - 1]);
    }
  }

  /** Until its first snapshot a new instrument stays as it was created, whatever else the stream holds. */
  lemma NewInstrumentWaits(ids: seq<InstrumentId>, stream: seq<Pointer>, x: InstrumentId)
    requires x in ids && NoSnapshot(Own(x, stream))
    ensures x in Run(true, Managing(ids), stream).instruments
    ensures Run(true, Managing(ids), stream).instruments[x] == FRESH
  {
    hide Run, ReceivedAll, Own, NoSnapshot, Managing;
    ManagesTheAdded(ids);
    OnlyOwnMessagesMatter(true, Managing(ids), stream, x);
    WaitingIsFrozen(FRESH, Own(x, stream));
  }

  /** The delta at place k is applied and its range holds the id. */
  ghost predicate AppliedWith(i: Instrument, bodies: seq<Body>, k: nat, id: nat) {
    && k < |bodies| && bodies[k].Delta?
    && Judge(true, ReceivedAll(true, i, bodies[..k]).seqState, bodies[k].firstUpdateId, bodies[k].lastUpdateId).Apply?
    && bodies[k].firstUpdateId <= id <= bodies[k].lastUpdateId
  }

  /** The last id never goes back between snapshots, a message moves it exactly when it is an applied delta, and every id
      passed over lies in the range of a delta that was applied. */
  lemma {:induction false} EveryIdIsCovered(i: Instrument, bodies: seq<Body>, id: nat)
    requires NoSnapshot(bodies)
    ensures var last := ReceivedAll(true, i, bodies).seqState.lastUpdateId;
      && i.seqState.lastUpdateId <= last
      && (i.seqState.lastUpdateId < id <= last ==> exists k: nat :: AppliedWith(i, bodies, k, id))
  {
    if bodies != [] {
      var n := |bodies| - 1;
      var before := bodies[..n];
      EveryIdIsCovered(i, before, id);
      var j := ReceivedAll(true, i, before);
      if i.seqState.lastUpdateId < id <= j.seqState.lastUpdateId {
        var k: nat :| AppliedWith(i, before, k, id);
        assert before[..k] == bodies[..k];
        assert AppliedWith(i, bodies, k, id);
      } else if j.seqState.lastUpdateId < id <= ReceivedAll(true, i, bodies).seqState.lastUpdateId {
        assert AppliedWith(i, bodies, n, id);
      }
    }
  }

  /** A delta is applied exactly when it moves the last id forward, and only then does it touch the book. */
  lemma LastIdTellsApplied(i: Instrument, delta: Body)
    requires delta.Delta?
    ensures var i' := Received(true, i, delta);
      && (Judge(true, i.seqState, delta.firstUpdateId, delta.lastUpdateId).Apply?
          <==> i'.seqState.lastUpdateId > i.seqState.lastUpdateId)
      && (i'.book != i.book ==> i'.seqState.lastUpdateId > i.seqState.lastUpdateId)
      && (i'.seqState.gapsDetected != i.seqState.gapsDetected
          <==> i'.seqState.awaitingSnapshot && !i.seqState.awaitingSnapshot)
  {
  }

  // ---------------------------------------------------------------- streams without loss

  /** Deltas that each begin at most one past the id reached so far and go beyond it. */
  ghost predicate Chained(reached: nat, deltas: seq<Body>) {
    deltas == [] || (
      var n := |deltas| - 1;
      && deltas[n].Delta?
      && Chained(reached, deltas[..n])
      && deltas[n].firstUpdateId <= Reached(reached, deltas[..n]) + 1
      && Reached(reached, deltas[..n]) < deltas[n].lastUpdateId)
  }

  function Reached(reached: nat, deltas: seq<Body>): nat {
    if deltas == [] || !deltas[|deltas| - 1].Delta? then reached else deltas[|deltas| - 1].lastUpdateId
  }

  /** After a snapshot, deltas that leave no id out are all applied: the instrument stays synchronised, counts no gap, and
      ends at the id of the last delta. */
  lemma {:induction false} LosslessStaysSynchronised(i: Instrument, snapshot: Body, deltas: seq<Body>)
    requires snapshot.Snapshot? && Chained(snapshot.lastUpdateId, deltas)
    ensures ReceivedAll(true, Received(true, i, snapshot), deltas).seqState
      == SequenceState(Reached(snapshot.lastUpdateId, deltas), i.seqState.gapsDetected, false)
  {
    hide ApplyAll, Loaded;
    var loaded := Received(true, i, snapshot);
    if deltas != [] {
      var before, last := deltas[..|deltas| - 1], deltas[|deltas| - 1];
      LosslessStaysSynchronised(i, snapshot, before);
      assert Judge(true, ReceivedAll(true, loaded, before).seqState, last.firstUpdateId, last.lastUpdateId).Apply?;
    }
  }

  /** The last expressible id is the end: from there no delta is applied any more. */
  lemma NothingAfterTheLastId(i: Instrument, delta: Body)
    requires delta.Delta? && i.seqState.lastUpdateId == 2 * TWO63 - 1
    ensures Received(true, i, delta).book == i.book
  {
  }
}
