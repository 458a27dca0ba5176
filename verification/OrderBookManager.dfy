/** The manager object: it takes messages from the queue, routes them to the books and gives them back to the pool. */
module OrderBookManagers {
  import opened BookLevels
  import opened BookSides
  import opened OrderBooks
  import opened Messages
  import opened Reconciliation
  import Rings = SpscRing

  /** The levels of a book as values. */
  ghost function BookOf(book: OrderBook): Book
    reads book.bids, book.asks
  {
    Book(book.bids.levels, book.asks.levels)
  }

  lemma TopDiffersIs(before: Book, after: Book, t: TopOfBook, t': TopOfBook)
    requires IsTopOfBook(before.bids, before.asks, t) && IsTopOfBook(after.bids, after.asks, t')
    ensures TopDiffers(before, after) <==> t != t'
  {
    forall u | IsTopOfBook(before.bids, before.asks, u)
      ensures u == t
    {
      TopIsUnique(before.bids, before.asks, t, u);
    }
    forall u | IsTopOfBook(after.bids, after.asks, u)
      ensures u == t'
    {
      TopIsUnique(after.bids, after.asks, t', u);
    }
  }

  /** The copying loops of the snapshot branch: messages carry signed quantities, books unsigned ones. */
  method ToLevels(quotes: seq<Quote>) returns (levels: seq<Change>)
    ensures levels == Changes(quotes)
  {
    levels := [];
    for i := 0 to |quotes|
      invariant levels == Changes(quotes)[..i]
    {
      levels := levels + [Change(quotes[i].price, ToUnsigned(quotes[i].quantity))];
    }
  }

  /** The loop over the bid updates of a delta. */
  method UpdateBids(book: OrderBook, quotes: seq<Quote>) returns (moved: bool)
    requires book.Valid() && book.Held()
    modifies book, book.bids, book.asks, book.pool, book.Nodes()
    ensures book.Valid() && book.Held()
    ensures BookOf(book) == Book(ApplyAll(old(book.bids.levels), Changes(quotes)), old(book.asks.levels))
    ensures moved <==> BidsMove(old(BookOf(book)), Changes(quotes))
    ensures fresh(book.Nodes() - old(book.Nodes()))
    ensures book.pool.live == old(book.pool.live) - old(book.Nodes()) + book.Nodes()
  {
    hide Structured, Carries, NthOf, IsBest, Distinct;
    ghost var start := BookOf(book);
    moved := false;
    var changes := Changes(quotes);
    for i := 0 to |quotes|
      invariant book.Valid() && book.Held()
      invariant BookOf(book) == Book(ApplyAll(start.bids, changes[..i]), start.asks)
      invariant moved <==> BidsMove(start, changes[..i])
      invariant fresh(book.Nodes() - old(book.Nodes()))
      invariant book.pool.live == old(book.pool.live) - old(book.Nodes()) + book.Nodes()
    {
      ghost var before, top := BookOf(book), book.cachedTob;
      var changed := book.Update(Buy, quotes[i].price, ToUnsigned(quotes[i].quantity));
      assert changes[..i + 1][..i] == changes[..i];
      TopDiffersIs(before, BookOf(book), top, book.cachedTob);
      moved := moved || changed;
    }
    assert changes[..|quotes|] == changes;
  }

  /** The loop over the ask updates of a delta. */
  method UpdateAsks(book: OrderBook, quotes: seq<Quote>) returns (moved: bool)
    requires book.Valid() && book.Held()
    modifies book, book.bids, book.asks, book.pool, book.Nodes()
    ensures book.Valid() && book.Held()
    ensures BookOf(book) == Book(old(book.bids.levels), ApplyAll(old(book.asks.levels), Changes(quotes)))
    ensures moved <==> AsksMove(old(BookOf(book)), Changes(quotes))
    ensures fresh(book.Nodes() - old(book.Nodes()))
    ensures book.pool.live == old(book.pool.live) - old(book.Nodes()) + book.Nodes()
  {
    hide Structured, Carries, NthOf, IsBest, Distinct;
    ghost var start := BookOf(book);
    moved := false;
    var changes := Changes(quotes);
    for i := 0 to |quotes|
      invariant book.Valid() && book.Held()
      invariant BookOf(book) == Book(start.bids, ApplyAll(start.asks, changes[..i]))
      invariant moved <==> AsksMove(start, changes[..i])
      invariant fresh(book.Nodes() - old(book.Nodes()))
      invariant book.pool.live == old(book.pool.live) - old(book.Nodes()) + book.Nodes()
    {
      ghost var before, top := BookOf(book), book.cachedTob;
      var changed := book.Update(Sell, quotes[i].price, ToUnsigned(quotes[i].quantity));
      assert changes[..i + 1][..i] == changes[..i];
      TopDiffersIs(before, BookOf(book), top, book.cachedTob);
      moved := moved || changed;
    }
    assert changes[..|quotes|] == changes;
  }

  /** A book with its sides and the nodes it has now. */
  ghost function Whole(book: OrderBook): set<object>
    reads book.bids, book.asks
  {
    {book, book.bids, book.asks} + book.Nodes()
  }

  /** The snapshot branch on one book. */
  method ApplySnapshot(book: OrderBook, bids: seq<Quote>, asks: seq<Quote>) returns (moved: bool)
    requires book.Valid() && book.Held()
    modifies Whole(book), book.pool
    ensures book.Valid() && book.Held() && Distinct(book.pool.live) && moved
    ensures BookOf(book) == Book(Loaded(Changes(bids)), Loaded(Changes(asks)))
    ensures fresh(Whole(book) - old(Whole(book)))
    ensures book.pool.live == old(book.pool.live) - old(book.Nodes()) + book.Nodes()
  {
    hide OrderBook.Sides, OrderBook.Valid, Distinct;
    var bidLevels := ToLevels(bids);
    var askLevels := ToLevels(asks);
    moved := book.Snapshot(bidLevels, askLevels);
  }

  /** The delta branch on one book: first all bids, then all asks. */
  method ApplyDelta(book: OrderBook, bids: seq<Quote>, asks: seq<Quote>) returns (moved: bool)
    requires book.Valid() && book.Held()
    modifies Whole(book), book.pool
    ensures book.Valid() && book.Held() && Distinct(book.pool.live)
    ensures BookOf(book)
      == Book(ApplyAll(old(book.bids.levels), Changes(bids)), ApplyAll(old(book.asks.levels), Changes(asks)))
    ensures moved <==> TopMoves(old(BookOf(book)), Changes(bids), Changes(asks))
    ensures fresh(Whole(book) - old(Whole(book)))
    ensures book.pool.live == old(book.pool.live) - old(book.Nodes()) + book.Nodes()
  {
    hide OrderBook.Sides, OrderBook.Valid, Distinct, BidsMove, AsksMove, ApplyAll;
    moved := UpdateBids(book, bids);
    var askMoved := UpdateAsks(book, asks);
    moved := moved || askMoved;
  }

  /** A managed book with its nodes, the state of its sequence, and its levels as values. */
  datatype Desk = Desk(book: OrderBook, nodes: set<PriceLevelNode>, seqState: SequenceState, value: Book)

  /** The objects that make up a book. */
  ghost function PartOf(d: Desk): set<object> {
    {d.book, d.book.bids, d.book.asks} + d.nodes
  }

  /** The book is sound, has these nodes and levels, and takes its nodes from the shared pool. */
  ghost predicate Kept(d: Desk, pool: NodePool)
    reads PartOf(d)
  {
    d.book.Nodes() == d.nodes && d.book.Valid() && d.book.pool == pool && d.value == BookOf(d.book)
  }

  /** The objects of different instruments are different. */
  ghost predicate Separate(desks: map<InstrumentId, Desk>, footprint: set<object>) {
    && (forall x | x in desks :: PartOf(desks[x]) <= footprint)
    && (forall x, y | x in desks && y in desks && x != y :: PartOf(desks[x]) !! PartOf(desks[y]))
  }

  lemma SeparatePut(desks: map<InstrumentId, Desk>, footprint: set<object>, x: InstrumentId, d: Desk)
    requires Separate(desks, footprint)
    requires forall o | o in PartOf(d) && o in footprint :: x in desks && o in PartOf(desks[x])
    ensures Separate(desks[x := d], footprint + PartOf(d))
  {
  }

  lemma PartsInside(desks: map<InstrumentId, Desk>, footprint: set<object>)
    requires Separate(desks, footprint)
    ensures forall x | x in desks :: PartOf(desks[x]) <= footprint
  {
  }

  lemma PartsApart(desks: map<InstrumentId, Desk>, footprint: set<object>, x: InstrumentId)
    requires Separate(desks, footprint) && x in desks
    ensures forall y | y in desks && y != x :: PartOf(desks[y]) !! PartOf(desks[x]) && desks[y].nodes !! desks[x].nodes
  {
    forall y, n | y in desks && y != x && n in desks[y].nodes
      ensures n !in desks[x].nodes
    {
      assert n in PartOf(desks[y]);
    }
  }

  ghost function Values(desks: map<InstrumentId, Desk>): map<InstrumentId, Instrument> {
    map x | x in desks :: Instrument(desks[x].value, desks[x].seqState)
  }

  lemma ValuesPut(desks: map<InstrumentId, Desk>, x: InstrumentId, d: Desk)
    ensures Values(desks[x := d]) == Values(desks)[x := Instrument(d.value, d.seqState)]
  {
  }

  /** The two maps of the manager hold what the desks say. */
  ghost predicate Mirrors(books: map<InstrumentId, OrderBook>, states: map<InstrumentId, SequenceState>,
                          desks: map<InstrumentId, Desk>)
  {
    && books.Keys == states.Keys == desks.Keys
    && forall x | x in desks :: books[x] == desks[x].book && states[x] == desks[x].seqState
  }

  lemma MirrorsPut(books: map<InstrumentId, OrderBook>, states: map<InstrumentId, SequenceState>,
                   desks: map<InstrumentId, Desk>, x: InstrumentId, d: Desk)
    requires Mirrors(books, states, desks)
    ensures Mirrors(books[x := d.book], states[x := d.seqState], desks[x := d])
  {
  }

  lemma MirrorsAt(books: map<InstrumentId, OrderBook>, states: map<InstrumentId, SequenceState>,
                  desks: map<InstrumentId, Desk>, x: InstrumentId)
    requires Mirrors(books, states, desks)
    ensures x in books <==> x in desks
    ensures x in states <==> x in desks
    ensures x in Values(desks) <==> x in desks
    ensures x in desks ==> books[x] == desks[x].book && states[x] == desks[x].seqState
    ensures x in desks ==> Values(desks)[x] == Instrument(desks[x].value, states[x])
  {
  }

  /** The pool counts the nodes of all books as handed out. */
  ghost predicate HeldBy(desks: map<InstrumentId, Desk>, live: set<PriceLevelNode>) {
    forall x | x in desks :: desks[x].nodes <= live
  }

  lemma HeldAt(desks: map<InstrumentId, Desk>, live: set<PriceLevelNode>, x: InstrumentId)
    requires HeldBy(desks, live)
    ensures x in desks ==> desks[x].nodes <= live
  {
  }

  /** One book exchanges its nodes for others; the rest stay handed out. */
  lemma HeldPut(desks: map<InstrumentId, Desk>, footprint: set<object>, live: set<PriceLevelNode>, x: InstrumentId, d: Desk)
    requires Separate(desks, footprint) && HeldBy(desks, live)
    ensures HeldBy(desks[x := d], live - (if x in desks then desks[x].nodes else {}) + d.nodes)
  {
    if x in desks {
      PartsApart(desks, footprint, x);
    }
  }

  class OrderBookManager {
    const checking: bool
    const topNDepth: nat
    const bookPool: NodePool
    const messagePool: MessagePool
    const messageQueue: Rings.Ring<NormalizedMessage?>
    var orderBooks: map<InstrumentId, OrderBook>
    var sequenceStates: map<InstrumentId, SequenceState>
    var stats: Statistics
    ghost var desks: map<InstrumentId, Desk>
    /** All books with their sides and nodes. */
    ghost var footprint: set<object>

    /** What the manager works with besides the books is none of these objects. */
    ghost predicate Outside(objects: set<object>) {
      && this !in objects && bookPool !in objects && messagePool !in objects
      && messageQueue !in objects && messageQueue.slots !in objects
    }

    /** Every instrument has a sound book with sides and nodes of its own, and a sequence state. */
    ghost predicate Valid()
      reads this, footprint
    {
      && topNDepth > 0 && Outside(footprint)
      && Mirrors(orderBooks, sequenceStates, desks)
      && Separate(desks, footprint)
      && forall x | x in desks :: Kept(desks[x], bookPool)
    }

    ghost predicate Held()
      reads this, bookPool
    {
      HeldBy(desks, bookPool.live) && Distinct(bookPool.live)
    }

    /** The state as the values that the reconciliation rules speak of. */
    ghost function State(): View
      reads this
    {
      View(Values(desks), stats)
    }

    constructor (checking: bool, topNDepth: nat, bookPool: NodePool, messagePool: MessagePool,
                 messageQueue: Rings.Ring<NormalizedMessage?>)
      requires topNDepth > 0 && Distinct(bookPool.live)
      ensures Valid() && Held() && footprint == {} && State() == NEW_MANAGER
      ensures this.checking == checking && this.topNDepth == topNDepth
      ensures this.bookPool == bookPool && this.messagePool == messagePool && this.messageQueue == messageQueue
    {
      this.checking, this.topNDepth := checking, topNDepth;
      this.bookPool, this.messagePool, this.messageQueue := bookPool, messagePool, messageQueue;
      orderBooks, sequenceStates, desks, footprint := map[], map[], map[], {};
      stats := Statistics(0, 0, 0, 0, 0, 0, 0, 0);
    }

    /** A new instrument gets an empty book and waits for a snapshot; a known one is left alone. */
    method AddInstrument(instrument: InstrumentId)
      requires Valid() && Held()
      modifies this`orderBooks, this`sequenceStates, this`desks, this`footprint
      ensures Valid() && Held() && fresh(footprint - old(footprint))
      ensures stats == old(stats)
      ensures State() == Added(old(State()), instrument)
      ensures forall x | x in old(State()).instruments ::
        x in State().instruments && State().instruments[x] == old(State()).instruments[x]
    {
      hide Distinct, OrderBook.Valid, OrderBook.Held, Separate, Kept, HeldBy, PartOf, Mirrors, Values;
      PartsInside(desks, footprint);
      MirrorsAt(orderBooks, sequenceStates, desks, instrument);
      if instrument !in orderBooks {
        var book := new OrderBook(bookPool, topNDepth);
        ghost var d := NewDesk(book, bookPool);
        HeldPut(desks, footprint, bookPool.live, instrument, d);
        assert bookPool.live - {} + {} == bookPool.live;
        ValuesPut(desks, instrument, d);
        Put(instrument, book, SequenceState(0, 0, true), d);
      }
    }

    lemma NewDesk(book: OrderBook, pool: NodePool) returns (d: Desk)
      requires book.Valid() && book.pool == pool && BookOf(book) == FRESH.book && book.Nodes() == {}
      ensures d == Desk(book, {}, FRESH.seqState, FRESH.book) && Kept(d, pool)
      ensures PartOf(d) == {book, book.bids, book.asks} && Outside(PartOf(d))
    {
      d := Desk(book, {}, FRESH.seqState, FRESH.book);
    }

    /** Records a book, new or changed, and its sequence state; the other books are as they were. */
    method Put(x: InstrumentId, book: OrderBook, s: SequenceState, ghost d: Desk)
      requires topNDepth > 0 && Outside(footprint)
      requires Mirrors(orderBooks, sequenceStates, desks) && Separate(desks, footprint)
      requires forall y | y in desks && y != x :: Kept(desks[y], bookPool)
      requires Kept(d, bookPool) && d.book == book && d.seqState == s && Outside(PartOf(d))
      requires forall o | o in PartOf(d) && o in footprint :: x in desks && o in PartOf(desks[x])
      modifies this`orderBooks, this`sequenceStates, this`desks, this`footprint
      ensures Valid() && desks == old(desks)[x := d] && footprint == old(footprint) + PartOf(d)
    {
      hide Distinct, Separate, Kept, PartOf, Mirrors;
      PartsInside(desks, footprint);
      SeparatePut(desks, footprint, x, d);
      MirrorsPut(orderBooks, sequenceStates, desks, x, d);
      orderBooks, sequenceStates := orderBooks[x := book], sequenceStates[x := s];
      desks, footprint := desks[x := d], footprint + PartOf(d);
    }

    /** What is known of a managed book when it is looked up. */
    lemma Lookup(x: InstrumentId)
      requires Valid() && Held() && (x in orderBooks || x in desks)
      ensures x in orderBooks && x in desks && orderBooks[x] == desks[x].book
      ensures x in sequenceStates && x in State().instruments
      ensures State().instruments[x] == Instrument(BookOf(orderBooks[x]), sequenceStates[x])
      ensures var book := orderBooks[x];
        && book.Valid() && book.pool == bookPool && book.Held() && book.Nodes() == desks[x].nodes
        && PartOf(desks[x]) == Whole(book)
    {
      hide Distinct, Separate, OrderBook.Valid, Mirrors, Values, HeldBy;
      MirrorsAt(orderBooks, sequenceStates, desks, x);
      HeldAt(desks, bookPool.live, x);
    }

    lemma Changed(book: OrderBook, s: SequenceState) returns (d: Desk)
      requires book.Valid() && book.pool == bookPool
      ensures d == Desk(book, book.Nodes(), s, BookOf(book)) && Kept(d, bookPool) && Outside(PartOf(d))
      ensures PartOf(d) == Whole(book)
    {
      d := Desk(book, book.Nodes(), s, BookOf(book));
    }

    /** Everything is as in a valid state, except that one book has changed. */
    ghost predicate ValidBut(x: InstrumentId, live: set<PriceLevelNode>)
      reads this, footprint
    {
      && topNDepth > 0 && Outside(footprint)
      && Mirrors(orderBooks, sequenceStates, desks)
      && Separate(desks, footprint) && HeldBy(desks, live)
      && x in desks
      && forall y | y in desks && y != x :: Kept(desks[y], bookPool)
    }

    /** The parts that the book has gained belong to no other book. */
    ghost predicate Grown(x: InstrumentId, book: OrderBook)
      requires x in desks
      reads this, book.bids, book.asks
    {
      forall o | o in Whole(book) && o in footprint :: o in PartOf(desks[x])
    }

    /** Records a book after it has changed in place. */
    method Settle(x: InstrumentId, book: OrderBook, s: SequenceState, ghost live: set<PriceLevelNode>)
      requires ValidBut(x, live) && desks[x].book == book
      requires book.Valid() && book.pool == bookPool && Distinct(bookPool.live)
      requires bookPool.live == live - desks[x].nodes + book.Nodes()
      requires Grown(x, book)
      modifies this`orderBooks, this`sequenceStates, this`desks, this`footprint
      ensures Valid() && Held()
      ensures footprint == old(footprint) + Whole(book)
      ensures State().instruments == old(State()).instruments[x := Instrument(BookOf(book), s)]
    {
      hide Distinct, OrderBook.Valid, OrderBook.Held, Separate, Kept, HeldBy, PartOf, Mirrors, Values, BookOf, Whole;
      ghost var d := Changed(book, s);
      HeldPut(desks, footprint, live, x, d);
      ValuesPut(desks, x, d);
      Put(x, book, s, d);
    }

    /** While one managed book changes, everything else stays valid. */
    method SnapshotOn(x: InstrumentId, book: OrderBook, bids: seq<Quote>, asks: seq<Quote>) returns (moved: bool)
      requires Valid() && Held() && x in desks && desks[x].book == book
      modifies bookPool, footprint
      ensures ValidBut(x, old(bookPool.live)) && Distinct(bookPool.live) && book.Valid() && book.pool == bookPool && moved
      ensures bookPool.live == old(bookPool.live) - desks[x].nodes + book.Nodes()
      ensures Grown(x, book) && fresh(Whole(book) - footprint)
      ensures BookOf(book) == Book(Loaded(Changes(bids)), Loaded(Changes(asks)))
    {
      hide Distinct, OrderBook.Valid, OrderBook.Held, OrderBook.Nodes, Separate, Kept, HeldBy, PartOf, Mirrors, Whole,
           BookOf, Values;
      Lookup(x);
      PartsInside(desks, footprint);
      PartsApart(desks, footprint, x);
      moved := ApplySnapshot(book, bids, asks);
    }

    method DeltaOn(x: InstrumentId, book: OrderBook, bids: seq<Quote>, asks: seq<Quote>) returns (moved: bool)
      requires Valid() && Held() && x in desks && desks[x].book == book
      modifies bookPool, footprint
      ensures ValidBut(x, old(bookPool.live)) && Distinct(bookPool.live) && book.Valid() && book.pool == bookPool
      ensures bookPool.live == old(bookPool.live) - desks[x].nodes + book.Nodes()
      ensures Grown(x, book) && fresh(Whole(book) - footprint)
      ensures var was := old(BookOf(book));
        BookOf(book) == Book(ApplyAll(was.bids, Changes(bids)), ApplyAll(was.asks, Changes(asks)))
      ensures moved <==> TopMoves(old(BookOf(book)), Changes(bids), Changes(asks))
    {
      hide Distinct, OrderBook.Valid, OrderBook.Held, OrderBook.Nodes, Separate, Kept, HeldBy, PartOf, Mirrors, Whole,
           Values;
      Lookup(x);
      PartsInside(desks, footprint);
      PartsApart(desks, footprint, x);
      moved := ApplyDelta(book, bids, asks);
    }

    method ReceiveSnapshot(x: InstrumentId, last: u64, bids: seq<Quote>, asks: seq<Quote>) returns (moved: bool)
      requires Valid() && Held() && x in orderBooks
      modifies this`orderBooks, this`sequenceStates, this`desks, this`footprint, bookPool, footprint
      ensures Valid() && Held() && fresh(footprint - old(footprint)) && moved
      ensures x in old(State()).instruments && State().instruments == old(State()).instruments[
        x := Received(checking, old(State()).instruments[x], Snapshot(last, bids, asks))]
    {
      hide Distinct, OrderBook.Valid, OrderBook.Held, OrderBook.Nodes, Separate, Kept, HeldBy, PartOf, Mirrors,
           Values, Whole, Grown;
      Lookup(x);
      ghost var live := bookPool.live;
      var s := sequenceStates[x].(lastUpdateId := last, awaitingSnapshot := false);
      moved := SnapshotOn(x, orderBooks[x], bids, asks);
      Settle(x, orderBooks[x], s, live);
    }

    method ReceiveDelta(x: InstrumentId, last: u64, bids: seq<Quote>, asks: seq<Quote>) returns (moved: bool)
      requires Valid() && Held() && x in orderBooks
      modifies this`orderBooks, this`sequenceStates, this`desks, this`footprint, bookPool, footprint
      ensures Valid() && Held() && fresh(footprint - old(footprint))
      ensures x in old(State()).instruments && (var i := old(State()).instruments[x];
        && (moved <==> TopMoves(i.book, Changes(bids), Changes(asks)))
        && State().instruments == old(State()).instruments[
            x := Instrument(Book(ApplyAll(i.book.bids, Changes(bids)), ApplyAll(i.book.asks, Changes(asks))),
                            i.seqState.(lastUpdateId := last))])
    {
      hide Distinct, OrderBook.Valid, OrderBook.Held, OrderBook.Nodes, Separate, Kept, HeldBy, PartOf, Mirrors,
           Values, Whole, Grown, TopMoves, ApplyAll;
      Lookup(x);
      ghost var live := bookPool.live;
      var s := sequenceStates[x].(lastUpdateId := last);
      moved := DeltaOn(x, orderBooks[x], bids, asks);
      Settle(x, orderBooks[x], s, live);
    }

    /** Changes the sequence state alone. */
    method SetSequence(x: InstrumentId, s: SequenceState)
      requires Valid() && Held() && x in orderBooks
      modifies this`orderBooks, this`sequenceStates, this`desks, this`footprint
      ensures Valid() && Held() && fresh(footprint - old(footprint))
      ensures x in old(State()).instruments
      ensures State().instruments == old(State()).instruments[x := old(State()).instruments[x].(seqState := s)]
    {
      hide Distinct, OrderBook.Valid, OrderBook.Held, OrderBook.Nodes, Separate, Kept, HeldBy, PartOf, Mirrors,
           Values, Whole, BookOf;
      Lookup(x);
      PartsInside(desks, footprint);
      LiveSame(x);
      Settle(x, orderBooks[x], s, bookPool.live);
    }

    lemma LiveSame(x: InstrumentId)
      requires Held() && x in desks
      ensures bookPool.live == bookPool.live - desks[x].nodes + desks[x].nodes
    {
    }

    /** One message for a known instrument: book, sequence state and counters follow the reconciliation rules. The deltas
        that are not applied leave early, before the common counting at the end. */
    method Route(x: InstrumentId, body: Body)
      requires Valid() && Held() && x in orderBooks
      modifies this, bookPool, footprint
      ensures Valid() && Held() && fresh(footprint - old(footprint))
      ensures State() == Processed(checking, old(State()), To(Message(x, body)))
    {
      hide Distinct, OrderBook.Valid, OrderBook.Held, OrderBook.Nodes, Separate, Kept, HeldBy, PartOf, Mirrors,
           Values, BookOf, TopMoves, ApplyAll, Loaded;
      Lookup(x);
      var moved := false;
      match body {
        case Snapshot(last, bids, asks) =>
          moved := ReceiveSnapshot(x, last, bids, asks);
          Count(stats.(snapshotsApplied := stats.snapshotsApplied + 1));
        case Delta(first, last, bids, asks) =>
          if checking {
            var s := sequenceStates[x];
            if s.awaitingSnapshot {
              Unchanged(x);
              return;
            }
            if first > (s.lastUpdateId + 1) % (2 * TWO63) {
              SetSequence(x, s.(gapsDetected := s.gapsDetected + 1, awaitingSnapshot := true));
              Count(stats.(sequenceGaps := stats.sequenceGaps + 1));
              return;
            }
            if last <= s.lastUpdateId {
              Unchanged(x);
              return;
            }
          }
          moved := ReceiveDelta(x, last, bids, asks);
          Count(stats.(deltasApplied := stats.deltasApplied + 1));
        case Trade =>
          Unchanged(x);
          Count(stats.(tradesProcessed := stats.tradesProcessed + 1));
        case Unknown =>
          Unchanged(x);
          Count(stats.(parseErrors := stats.parseErrors + 1));
      }
      if moved {
        Count(stats.(bboChanges := stats.bboChanges + 1));
      }
      Count(stats.(messagesProcessed := stats.messagesProcessed + 1));
    }

    /** Counters are not part of any book. */
    method Count(counted: Statistics)
      requires Valid() && Held()
      modifies this`stats
      ensures Valid() && Held() && stats == counted
    {
      hide Distinct, Separate, Kept, HeldBy, PartOf, Mirrors;
      PartsInside(desks, footprint);
      stats := counted;
    }

    lemma Unchanged(x: InstrumentId)
      ensures x in State().instruments ==> State().instruments[x := State().instruments[x]] == State().instruments
    {
    }

    ghost predicate QueueHeld()
      reads messageQueue, messagePool
    {
      Waiting(messageQueue.contents, messagePool.live)
    }

    /** Takes one entry from the queue and deals with it; a message goes back to the pool on every path. */
    method ProcessOne()
      requires Valid() && Held() && messageQueue.Valid() && QueueHeld()
      modifies this, bookPool, footprint, messagePool, messageQueue, messageQueue.slots
      ensures Valid() && Held() && messageQueue.Valid() && QueueHeld() && fresh(footprint - old(footprint))
      ensures old(messageQueue.contents) == [] ==>
        State() == old(State()) && messageQueue.contents == [] && messagePool.live == old(messagePool.live)
      ensures old(messageQueue.contents) != [] ==>
        && State() == Processed(checking, old(State()), old(Seen(messageQueue.contents[0])))
        && messageQueue.contents == old(messageQueue.contents)[1..]
        && messagePool.live == old(messagePool.live) - Given(old(messageQueue.contents)[0])
    {
      hide Distinct, Separate, Kept, HeldBy, PartOf, Mirrors, Values, Received, Counted, Rings.Window, Waiting;
      PartsInside(desks, footprint);
      if messageQueue.contents != [] {
        HeadTaken(messageQueue.contents, messagePool.live);
      }
      var ok, msg := messageQueue.TryPop(null);
      if !ok {
        return;
      }
      if msg == null {
        assert messagePool.live - {} == messagePool.live;
        Count(stats.(parseErrors := stats.parseErrors + 1));
        return;
      }
      MirrorsAt(orderBooks, sequenceStates, desks, msg.instrument);
      if msg.instrument !in orderBooks {
        Count(stats.(unknownInstruments := stats.unknownInstruments + 1));
        messagePool.Deallocate(msg);
        return;
      }
      Route(msg.instrument, msg.body);
      PartsInside(desks, footprint);
      messagePool.Deallocate(msg);
    }
  }

  /** A manager set up with its instruments, before its first message. */
  method NewManager(checking: bool, topNDepth: nat, bookPool: NodePool, messagePool: MessagePool,
                    messageQueue: Rings.Ring<NormalizedMessage?>, ids: seq<InstrumentId>)
    returns (manager: OrderBookManager)
    requires topNDepth > 0 && Distinct(bookPool.live)
    ensures manager.Valid() && manager.Held() && manager.checking == checking
    ensures manager.State() == Managing(ids)
  {
    hide OrderBookManager.Valid, OrderBookManager.Held, Added, Distinct;
    manager := new OrderBookManager(checking, topNDepth, bookPool, messagePool, messageQueue);
    for i := 0 to |ids|
      invariant fresh(manager) && manager.Valid() && manager.Held() && fresh(manager.footprint)
      invariant manager.State() == Managing(ids[..i])
    {
      assert ids[..i + 1][..i] == ids[..i];
      manager.AddInstrument(ids[i]);
    }
    assert ids[..|ids|] == ids;
  }
}
