/** A book of two sides and its cached top. */
module OrderBooks {
  import opened BookLevels
  import opened BookSides

  datatype Side = Buy | Sell

  datatype TopOfBook = TopOfBook(bidPrice: int, askPrice: int, bidQty: nat, askQty: nat)

  /** The top that two sides have. */
  ghost predicate IsTopOfBook(bids: Levels, asks: Levels, top: TopOfBook) {
    IsBest(true, bids, top.bidPrice, top.bidQty) && IsBest(false, asks, top.askPrice, top.askQty)
  }

  /** There is only one. */
  lemma TopIsUnique(bids: Levels, asks: Levels, a: TopOfBook, b: TopOfBook)
    requires IsTopOfBook(bids, asks, a) && IsTopOfBook(bids, asks, b)
    ensures a == b
  {
    if bids != map[] {
      assert !Better(true, a.bidPrice, b.bidPrice) && !Better(true, b.bidPrice, a.bidPrice);
    }
    if asks != map[] {
      assert !Better(false, a.askPrice, b.askPrice) && !Better(false, b.askPrice, a.askPrice);
    }
  }

  /** The levels of a snapshot are put in one after the other; those without quantity are passed over. */
  function Loaded(listed: seq<Change>): Levels {
    if listed == [] then map[]
    else
      var before, last := Loaded(listed[..|listed| - 1]), listed[|listed| - 1];
      if last.qty > 0 then before[last.price := last.qty] else before
  }

  /** The first node of a side and the quantity it had when it was looked at. */
  datatype Reading = Reading(node: PriceLevelNode?, qty: u64) {
    function Price(): int {
      if node == null then 0 else node.price
    }
  }

  /** What is known of the book at the moment when its tops are read. */
  datatype Past = Past(bid: Reading, ask: Reading, bids: Levels, asks: Levels,
                       bidIndex: map<int, PriceLevelNode>, askIndex: map<int, PriceLevelNode>,
                       bidNodes: set<PriceLevelNode>, askNodes: set<PriceLevelNode>, live: set<PriceLevelNode>)

  /** Pointers compare addresses. */
  predicate SamePointer(a: PriceLevelNode?, b: PriceLevelNode?) {
    (a == null && b == null) || (a != null && b != null && a.address == b.address)
  }

  /** The comparison made after an update: another pointer, or another quantity behind the same one. */
  predicate Moved(before: Reading, after: Reading) {
    !SamePointer(before.node, after.node) || (after.node != null && before.qty != after.qty)
  }

  /** A reading of a side with these levels and this index. */
  ghost predicate Reads(descending: bool, m: Levels, index: map<int, PriceLevelNode>, r: Reading) {
    && IsBest(descending, m, r.Price(), r.qty)
    && (r.node == null <==> r.qty == 0)
    && (r.node != null ==> Finds(index, r.node))
  }

  /** Comparing pointers and quantities sees exactly the changes of the best price and quantity: while a price stays, so
      does its node, a stored quantity is never zero, and the nodes compared existed together, so that an address that is
      used again cannot stand for both. */
  lemma PointersShowChange(descending: bool, m: Levels, m': Levels, index: map<int, PriceLevelNode>,
                           index': map<int, PriceLevelNode>, before: Reading, after: Reading, live: set<PriceLevelNode>)
    requires Reads(descending, m, index, before) && Reads(descending, m', index', after)
    requires Keeps(index, index') && Distinct(live)
    requires (before.node != null ==> before.node in live) && (after.node != null ==> after.node in live)
    ensures Moved(before, after) <==> (before.Price(), before.qty) != (after.Price(), after.qty)
  {
  }

  /** An update constructs a node or destroys one, never both, so the first nodes before and after it were both handed out
      before it or both after it. */
  lemma UpdateShowsChange(descending: bool, m: Levels, m': Levels, index: map<int, PriceLevelNode>,
                          index': map<int, PriceLevelNode>, before: Reading, after: Reading,
                          nodes: set<PriceLevelNode>, nodes': set<PriceLevelNode>,
                          live: set<PriceLevelNode>, live': set<PriceLevelNode>)
    requires Reads(descending, m, index, before) && Reads(descending, m', index', after) && Keeps(index, index')
    requires (before.node != null ==> before.node in nodes) && (after.node != null ==> after.node in nodes')
    requires nodes <= live && nodes' <= live' && Distinct(live) && Distinct(live')
    requires nodes' <= nodes || nodes <= nodes'
    ensures Moved(before, after) <==> (before.Price(), before.qty) != (after.Price(), after.qty)
  {
    PointersShowChange(descending, m, m', index, index', before, after, if nodes' <= nodes then live else live');
  }

  lemma TopOfReadings(bids: Levels, asks: Levels, bidIndex: map<int, PriceLevelNode>, askIndex: map<int, PriceLevelNode>,
                      bid: Reading, ask: Reading, top: TopOfBook)
    requires Reads(true, bids, bidIndex, bid) && Reads(false, asks, askIndex, ask)
    ensures var read := TopOfBook(bid.Price(), ask.Price(), bid.qty, ask.qty);
      IsTopOfBook(bids, asks, read) && (IsTopOfBook(bids, asks, top) ==> top == read)
  {
    if IsTopOfBook(bids, asks, top) {
      TopIsUnique(bids, asks, top, TopOfBook(bid.Price(), ask.Price(), bid.qty, ask.qty));
    }
  }

  /** The nodes of one side are exchanged, those of the other stay handed out. */
  lemma OneSideMoved(live: set<PriceLevelNode>, kept: set<PriceLevelNode>, before: set<PriceLevelNode>,
                     after: set<PriceLevelNode>)
    requires kept !! before && kept <= live && before <= live
    ensures kept <= live - before + after
    ensures live - before + after == live - (kept + before) + (kept + after)
    ensures live - before + after == live - (before + kept) + (after + kept)
  {
  }

  class OrderBook {
    const pool: NodePool
    const bids: BookSide
    const asks: BookSide
    var cachedTob: TopOfBook

    ghost predicate Sides()
      reads this, bids, asks, bids.nodes, asks.nodes
    {
      && bids.descending && !asks.descending
      && bids.pool == asks.pool == pool
      && bids.nodes !! asks.nodes
      && bids.Valid() && asks.Valid()
    }

    ghost predicate Valid()
      reads this, bids, asks, bids.nodes, asks.nodes
    {
      Sides() && IsTopOfBook(bids.levels, asks.levels, cachedTob)
    }

    ghost predicate Held()
      reads bids, asks, pool
    {
      bids.nodes <= pool.live && asks.nodes <= pool.live && Distinct(pool.live)
    }

    /** The depths that the two sides track. */
    ghost function Depths(): (nat, nat)
      reads bids, asks
    {
      (bids.topNDepth, asks.topNDepth)
    }

    ghost function Nodes(): set<PriceLevelNode>
      reads bids, asks
    {
      bids.nodes + asks.nodes
    }

    constructor (pool: NodePool, depth: nat)
      requires depth > 0 && Distinct(pool.live)
      ensures Valid() && Held() && bids.levels == map[] && asks.levels == map[] && Nodes() == {}
      ensures this.pool == pool && fresh(bids) && fresh(asks) && Depths() == (depth, depth)
    {
      this.pool := pool;
      bids := new BookSide(true, pool);
      asks := new BookSide(false, pool);
      cachedTob := TopOfBook(0, 0, 0, 0);
      new;
      bids.SetTopNDepth(depth);
      asks.SetTopNDepth(depth);
    }

    method UpdateCachedTob()
      requires Sides()
      modifies this`cachedTob
      ensures IsTopOfBook(bids.levels, asks.levels, cachedTob)
    {
      var bestBid := bids.Best();
      var bestAsk := asks.Best();
      bids.BestIsBest();
      asks.BestIsBest();
      cachedTob := TopOfBook(
        if bestBid != null then bestBid.price else 0,
        if bestAsk != null then bestAsk.price else 0,
        if bestBid != null then bestBid.quantity else 0,
        if bestAsk != null then bestAsk.quantity else 0);
    }

    method Clear()
      requires Valid() && Held()
      modifies this, bids, asks, pool
      ensures Valid() && Held() && bids.levels == map[] && asks.levels == map[] && Nodes() == {}
      ensures Depths() == old(Depths())
      ensures pool.live == old(pool.live) - old(Nodes())
    {
      bids.Clear();
      asks.Clear();
      cachedTob := TopOfBook(0, 0, 0, 0);
    }

    /** The update reaches one side; the nodes of prices that stay are the same objects as before. */
    method ApplyToSide(side: Side, price: int, quantity: u64)
      requires Sides() && Held()
      modifies bids, asks, pool, Nodes()
      ensures Sides() && Held() && Depths() == old(Depths())
      ensures bids.levels == if side.Buy? then ApplyLevel(old(bids.levels), price, quantity) else old(bids.levels)
      ensures asks.levels == if side.Sell? then ApplyLevel(old(asks.levels), price, quantity) else old(asks.levels)
      ensures Keeps(old(bids.index), bids.index) && Keeps(old(asks.index), asks.index)
      ensures bids.nodes <= old(bids.nodes) || old(bids.nodes) <= bids.nodes
      ensures asks.nodes <= old(asks.nodes) || old(asks.nodes) <= asks.nodes
      ensures fresh(Nodes() - old(Nodes())) && pool.live == old(pool.live) - old(Nodes()) + Nodes()
    {
      hide Structured, Carries, NthOf, TopFlag, Distinct;
      if side == Buy {
        var _ := bids.ApplyUpdate(price, quantity, 0);
        OneSideMoved(old(pool.live), asks.nodes, old(bids.nodes), bids.nodes);
      } else {
        var _ := asks.ApplyUpdate(price, quantity, 0);
        OneSideMoved(old(pool.live), bids.nodes, old(asks.nodes), asks.nodes);
      }
    }

    /** Applies one update and says whether the top of the book has another value now. */
    method Update(side: Side, price: int, quantity: u64) returns (changed: bool)
      requires Valid() && Held()
      modifies this, bids, asks, pool, Nodes()
      ensures Valid() && Held() && Depths() == old(Depths())
      ensures bids.levels == if side.Buy? then ApplyLevel(old(bids.levels), price, quantity) else old(bids.levels)
      ensures asks.levels == if side.Sell? then ApplyLevel(old(asks.levels), price, quantity) else old(asks.levels)
      ensures changed <==> cachedTob != old(cachedTob)
      ensures fresh(Nodes() - old(Nodes())) && pool.live == old(pool.live) - old(Nodes()) + Nodes()
    {
      hide Distinct, Reads, Keeps, IsTopOfBook, BookSide.Valid, BookSide.BestNode;
      var oldBid := ReadTop(bids);
      var oldAsk := ReadTop(asks);
      ghost var was :=
        Past(oldBid, oldAsk, bids.levels, asks.levels, bids.index, asks.index, bids.nodes, asks.nodes, pool.live);
      ApplyToSide(side, price, quantity);
      changed := Notice(oldBid, oldAsk, was);
    }

    /** Since the tops were read each side has only gained or only lost nodes; the cached top is still that of the earlier
        sides. */
    ghost predicate Follows(was: Past)
      reads this, bids, asks, pool
    {
      && Reads(true, was.bids, was.bidIndex, was.bid) && Reads(false, was.asks, was.askIndex, was.ask)
      && Keeps(was.bidIndex, bids.index) && Keeps(was.askIndex, asks.index)
      && (was.bid.node != null ==> was.bid.node in was.bidNodes) && (was.ask.node != null ==> was.ask.node in was.askNodes)
      && was.bidNodes <= was.live && was.askNodes <= was.live && Distinct(was.live)
      && (bids.nodes <= was.bidNodes || was.bidNodes <= bids.nodes)
      && (asks.nodes <= was.askNodes || was.askNodes <= asks.nodes)
      && IsTopOfBook(was.bids, was.asks, cachedTob)
    }

    /** Reads both tops again and refreshes the cache if either has moved. */
    method Notice(oldBid: Reading, oldAsk: Reading, ghost was: Past) returns (changed: bool)
      requires Sides() && Held() && Follows(was) && was.bid == oldBid && was.ask == oldAsk
      modifies this`cachedTob
      ensures IsTopOfBook(bids.levels, asks.levels, cachedTob)
      ensures changed <==> cachedTob != old(cachedTob)
    {
      hide Distinct, Reads, Moved, Keeps, IsTopOfBook, BookSide.Valid, BookSide.BestNode;
      var newBid := ReadTop(bids);
      var newAsk := ReadTop(asks);
      UpdateShowsChange(true, was.bids, bids.levels, was.bidIndex, bids.index, oldBid, newBid,
                        was.bidNodes, bids.nodes, was.live, pool.live);
      UpdateShowsChange(false, was.asks, asks.levels, was.askIndex, asks.index, oldAsk, newAsk,
                        was.askNodes, asks.nodes, was.live, pool.live);
      TopOfReadings(was.bids, was.asks, was.bidIndex, was.askIndex, oldBid, oldAsk, cachedTob);
      TopOfReadings(bids.levels, asks.levels, bids.index, asks.index, newBid, newAsk, cachedTob);
      if Moved(oldBid, newBid) || Moved(oldAsk, newAsk) {
        UpdateCachedTob();
        TopOfReadings(bids.levels, asks.levels, bids.index, asks.index, newBid, newAsk, cachedTob);
        return true;
      }
      return false;
    }

    method ReadTop(side: BookSide) returns (r: Reading)
      requires side.Valid()
      ensures Reads(side.descending, side.levels, side.index, r) && r.node == side.BestNode()
      ensures r.node != null ==> r.node in side.nodes
    {
      var node := side.Best();
      side.BestIsBest();
      r := Reading(node, if node != null then node.quantity else 0);
    }

    /** Replaces the book by the listed levels. */
    method Snapshot(bidLevels: seq<Change>, askLevels: seq<Change>) returns (changed: bool)
      requires Valid() && Held()
      modifies this, bids, asks, pool, Nodes()
      ensures Valid() && Held() && changed && Depths() == old(Depths())
      ensures bids.levels == Loaded(bidLevels) && asks.levels == Loaded(askLevels)
      ensures fresh(Nodes() - old(Nodes())) && pool.live == old(pool.live) - old(Nodes()) + Nodes()
    {
      hide Structured, Carries;
      Clear();
      Load(bids, bidLevels);
      Load(asks, askLevels);
      UpdateCachedTob();
      return true;
    }

    /** Puts the listed levels with a quantity into an empty side. */
    static method Load(side: BookSide, listed: seq<Change>)
      requires side.Valid() && side.Held() && side.levels == map[] && side.nodes == {}
      modifies side, side.pool
      ensures side.Valid() && side.Held() && side.levels == Loaded(listed) && side.topNDepth == old(side.topNDepth)
      ensures fresh(side.nodes) && side.pool.live == old(side.pool.live) + side.nodes
    {
      for i := 0 to |listed|
        invariant side.Valid() && side.Held() && side.levels == Loaded(listed[..i]) && side.topNDepth == old(side.topNDepth)
        invariant fresh(side.nodes) && side.pool.live == old(side.pool.live) + side.nodes
      {
        assert listed[..i + 1][..i] == listed[..i];
        if listed[i].qty > 0 {
          var _ := side.ApplyUpdate(listed[i].price, listed[i].qty, 0);
        }
      }
      assert listed[..|listed|] == listed;
    }
  }
}
