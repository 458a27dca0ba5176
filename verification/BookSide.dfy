/** One side of an order book: an ordered tree and a hash index over the same price level nodes, and a cached n-th price. */
module BookSides {
  import opened BookLevels

  /** A node from its construction to its destruction. The address is what pointers compare; a later node may get the
      address of a destroyed one. */
  class PriceLevelNode {
    const address: nat
    const price: int
    var quantity: u64
    var updateSeq: nat

    constructor (address: nat, price: int, quantity: u64, updateSeq: nat)
      ensures this.address == address && this.price == price
      ensures this.quantity == quantity && this.updateSeq == updateSeq
    {
      this.address, this.price, this.quantity, this.updateSeq := address, price, quantity, updateSeq;
    }
  }

  /** Nodes that exist at the same time have different addresses. */
  ghost predicate Distinct(live: set<PriceLevelNode>) {
    forall m, n | m in live && n in live && m.address == n.address :: m == n
  }

  predicate Unused(address: nat, live: set<PriceLevelNode>) {
    forall n | n in live :: n.address != address
  }

  lemma OneMore(live: set<PriceLevelNode>, node: PriceLevelNode)
    requires Distinct(live) && Unused(node.address, live)
    ensures Distinct(live + {node})
  {
    forall m, n | m in live + {node} && n in live + {node} && m.address == n.address
      ensures m == n
    {
      assert m != node ==> m in live && m.address != node.address;
      assert n != node ==> n in live && n.address != node.address;
    }
  }

  lemma AddressesEnd(live: set<PriceLevelNode>) returns (end: nat)
    ensures forall n | n in live :: n.address < end
  {
    end := 0;
    var left := live;
    while left != {}
      invariant left <= live && forall n | n in live && n !in left :: n.address < end
      decreases left
    {
      var n :| n in left;
      left := left - {n};
      end := if n.address < end then end else n.address + 1;
    }
  }

  /** The pool of nodes shared by all sides; `live` are the nodes it has handed out and not got back. */
  class NodePool {
    var live: set<PriceLevelNode>

    constructor ()
      ensures live == {}
    {
      live := {};
    }

    /** At any address that no live node has, one given back before or a new one. */
    method Construct(price: int, quantity: u64, updateSeq: nat) returns (node: PriceLevelNode)
      requires Distinct(live)
      modifies this
      ensures fresh(node) && node.price == price && node.quantity == quantity && node.updateSeq == updateSeq
      ensures live == old(live) + {node} && Distinct(live)
    {
      ghost var end := AddressesEnd(live);
      assert Unused(end, live);
      var address: nat :| Unused(address, live);
      node := new PriceLevelNode(address, price, quantity, updateSeq);
      OneMore(live, node);
      live := live + {node};
    }

    method Destroy(node: PriceLevelNode)
      requires node in live
      modifies this
      ensures live == old(live) - {node}
    {
      live := live - {node};
    }
  }

  datatype UpdateResult = UpdateResult(deltaQty: int, affectsTopN: bool, isNewLevel: bool, isDeletion: bool)

  // ---------------------------------------------------------------- what an update reports

  ghost function Report(descending: bool, m: Levels, depth: nat, price: int, qty: u64): UpdateResult {
    if price !in m && qty == 0 then UpdateResult(0, false, false, false)
    else UpdateResult(DeltaOf(m, price, qty), TopFlag(descending, m, depth, price), price !in m, qty == 0)
  }

  /** The report says what has become of the side: whether a level has come or gone, by how much the total quantity has
      changed, and, outside the sentinel family, whether the best levels have; of an update without effect, whether its level
      ranks among the best. */
  ghost predicate Tells(descending: bool, m: Levels, m': Levels, depth: nat, price: int, qty: u64, r: UpdateResult) {
    && (r.isNewLevel <==> price !in m && price in m')
    && (r.isDeletion <==> price in m && price !in m')
    && (Small(m) && qty < TWO63 ==> r.deltaQty == Total(m') - Total(m))
    && (qty != Qty(m, price) && !Missed(descending, m, depth, price)
        ==> (r.affectsTopN <==> !SameTop(descending, m, m', depth)))
    && (price in m && qty == m[price] ==> (r.affectsTopN <==> Rank(descending, m, price) < depth))
  }

  lemma NothingToDelete(descending: bool, m: Levels, depth: nat, price: int)
    ensures price !in m ==> Report(descending, m, depth, price, 0) == UpdateResult(0, false, false, false)
  {
  }

  lemma SameQuantityFlag(descending: bool, m: Levels, depth: nat, price: int)
    ensures price in m ==> (TopFlag(descending, m, depth, price) <==> Rank(descending, m, price) < depth)
  {
  }

  lemma ReportTells(descending: bool, m: Levels, depth: nat, price: int, qty: u64)
    ensures Tells(descending, m, ApplyLevel(m, price, qty), depth, price, qty, Report(descending, m, depth, price, qty))
  {
    hide TopFlag, SameTop, Missed, Total;
    TotalApply(m, price, qty);
    SameQuantityFlag(descending, m, depth, price);
    if qty != Qty(m, price) && !Missed(descending, m, depth, price) {
      FlagIsSameTop(descending, m, depth, price, qty);
    }
  }

  // ---------------------------------------------------------------- nodes in tree order

  function PricesOf(nodes: seq<PriceLevelNode>): (prices: seq<int>)
    ensures |prices| == |nodes| && forall i | 0 <= i < |nodes| :: prices[i] == nodes[i].price
  {
    seq(|nodes|, i requires 0 <= i < |nodes| => nodes[i].price)
  }

  predicate Finds(index: map<int, PriceLevelNode>, node: PriceLevelNode) {
    node.price in index && index[node.price] == node
  }

  /** A price that stays keeps its node. */
  ghost predicate Keeps(before: map<int, PriceLevelNode>, after: map<int, PriceLevelNode>) {
    forall p | p in before && p in after :: after[p] == before[p]
  }

  /** The tree is in order and lists the prices of the map, the index has the same prices and finds each of the nodes, and
      the tree is made of these nodes. */
  ghost predicate Structured(descending: bool, tree: seq<PriceLevelNode>, index: map<int, PriceLevelNode>,
                             nodes: set<PriceLevelNode>, m: Levels)
  {
    && Lists(descending, PricesOf(tree), m)
    && index.Keys == m.Keys
    && (forall i | 0 <= i < |tree| :: tree[i] in nodes)
    && (forall n | n in nodes :: Finds(index, n))
  }

  /** The nodes carry the quantities of the map. */
  ghost predicate Carries(nodes: set<PriceLevelNode>, m: Levels)
    reads nodes
  {
    forall n | n in nodes :: n.quantity == Qty(m, n.price)
  }

  /** The index leads to the place in the tree where the price belongs. */
  lemma PlaceInTree(descending: bool, tree: seq<PriceLevelNode>, index: map<int, PriceLevelNode>,
                    nodes: set<PriceLevelNode>, m: Levels, price: int)
    requires Structured(descending, tree, index, nodes, m) && price in m
    ensures var k := Position(descending, PricesOf(tree), price);
      k < |tree| && price in index && tree[k] == index[price] && tree[k].price == price && index[price] in nodes
  {
    ListsKeys(descending, PricesOf(tree), m);
    assert price in m.Keys;
    var i :| 0 <= i < |tree| && PricesOf(tree)[i] == price;
    PositionOf(descending, PricesOf(tree), i);
    assert Finds(index, tree[i]);
  }

  /** Tree, index and the set of held nodes are the same nodes. */
  lemma SameNodes(descending: bool, tree: seq<PriceLevelNode>, index: map<int, PriceLevelNode>,
                  nodes: set<PriceLevelNode>, m: Levels)
    requires Structured(descending, tree, index, nodes, m)
    ensures forall n :: n in nodes <==> n in tree
    ensures forall p | p in index :: index[p] in nodes && index[p].price == p
    ensures forall i, j | 0 <= i < j < |tree| :: tree[i] != tree[j]
  {
    forall n
      ensures n in nodes <==> n in tree
    {
      if n in nodes {
        assert Finds(index, n);
        assert n.price in index.Keys;
        PlaceInTree(descending, tree, index, nodes, m, n.price);
      }
    }
    forall p | p in index
      ensures index[p] in nodes && index[p].price == p
    {
      assert p in index.Keys;
      PlaceInTree(descending, tree, index, nodes, m, p);
    }
    forall i, j | 0 <= i < j < |tree|
      ensures tree[i] != tree[j]
    {
      assert Better(descending, PricesOf(tree)[i], PricesOf(tree)[j]);
    }
  }

  lemma PricesInserted(tree: seq<PriceLevelNode>, k: nat, node: PriceLevelNode)
    requires k <= |tree|
    ensures PricesOf(Inserted(tree, k, node)) == Inserted(PricesOf(tree), k, node.price)
  {
  }

  lemma NodesInserted(tree: seq<PriceLevelNode>, k: nat, node: PriceLevelNode, nodes: set<PriceLevelNode>)
    requires k <= |tree| && forall i | 0 <= i < |tree| :: tree[i] in nodes
    ensures |Inserted(tree, k, node)| == |tree| + 1
    ensures forall i | 0 <= i < |tree| + 1 :: Inserted(tree, k, node)[i] in nodes + {node}
  {
  }

  lemma InsertStructured(descending: bool, tree: seq<PriceLevelNode>, index: map<int, PriceLevelNode>,
                         nodes: set<PriceLevelNode>, m: Levels, node: PriceLevelNode, qty: Quantity)
    requires Structured(descending, tree, index, nodes, m) && node.price !in m
    ensures Structured(descending, Inserted(tree, Position(descending, PricesOf(tree), node.price), node),
                       index[node.price := node], nodes + {node}, m[node.price := qty])
    ensures var k := Position(descending, PricesOf(tree), node.price);
      PricesOf(Inserted(tree, k, node)) == Inserted(PricesOf(tree), k, node.price)
  {
    hide Lists, Position, Inserted;
    var k := Position(descending, PricesOf(tree), node.price);
    InsertLists(descending, PricesOf(tree), m, node.price, qty);
    PricesInserted(tree, k, node);
    NodesInserted(tree, k, node, nodes);
  }

  lemma RemoveStructured(descending: bool, tree: seq<PriceLevelNode>, index: map<int, PriceLevelNode>,
                         nodes: set<PriceLevelNode>, m: Levels, k: nat)
    requires Structured(descending, tree, index, nodes, m) && k < |tree|
    ensures Structured(descending, Removed(tree, k), index - {tree[k].price}, nodes - {tree[k]}, m - {tree[k].price})
    ensures PricesOf(Removed(tree, k)) == Removed(PricesOf(tree), k)
  {
    RemoveLists(descending, PricesOf(tree), m, k);
    var shorter := Removed(tree, k);
    assert PricesOf(shorter) == Removed(PricesOf(tree), k);
    assert Finds(index, tree[k]);
    forall i | 0 <= i < |shorter|
      ensures shorter[i] in nodes - {tree[k]}
    {
      var j := if i < k then i else i + 1;
      assert shorter[i] == tree[j];
      var lo, hi := if j < k then j else k, if j < k then k else j;
      assert Better(descending, PricesOf(tree)[lo], PricesOf(tree)[hi]);
    }
  }

  /** What the validator establishes about the index: every tree node is found. The stale entries that it cannot see are
      absent exactly when index and tree have the same size. */
  lemma ValidatedIndex(descending: bool, tree: seq<PriceLevelNode>, index: map<int, PriceLevelNode>)
    requires Sorted(descending, PricesOf(tree)) && forall i | 0 <= i < |tree| :: Finds(index, tree[i])
    ensures (forall p | p in index :: index[p] in tree && index[p].price == p) <==> |index| == |tree|
  {
    var prices := PricesOf(tree);
    DistinctCount(prices);
    var listed := set p | p in prices;
    forall p | p in listed
      ensures p in index.Keys && index[p] in tree && index[p].price == p
    {
      var i :| 0 <= i < |prices| && prices[i] == p;
      assert Finds(index, tree[i]);
    }
    assert |index| == |index.Keys|;
    if |index| == |tree| {
      SubsetSame(listed, index.Keys);
      assert forall p | p in index :: p in index.Keys && p in listed;
    }
    if forall p | p in index :: index[p] in tree && index[p].price == p {
      forall p | p in index.Keys
        ensures p in listed
      {
        var i :| 0 <= i < |tree| && tree[i] == index[p];
        assert prices[i] == p;
      }
      assert listed == index.Keys;
    }
  }

  lemma {:induction false} NeighboursSort(descending: bool, prices: seq<int>)
    requires forall i | 0 < i < |prices| :: Better(descending, prices[i - 1], prices[i])
    ensures Sorted(descending, prices)
  {
    if prices != [] {
      var before := prices[..|prices| - 1];
      assert forall i | 0 <= i < |before| :: before[i] == prices[i];
      NeighboursSort(descending, before);
      forall i, j | 0 <= i < j < |prices|
        ensures Better(descending, prices[i], prices[j])
      {
        assert j == |prices| - 1 && i < j - 1 ==> Better(descending, before[i], before[j - 1]);
        assert j < |prices| - 1 ==> Better(descending, before[i], before[j]);
        assert Better(descending, prices[j - 1], prices[j]);
      }
    }
  }

  lemma GiveBack(live: set<PriceLevelNode>, held: set<PriceLevelNode>, node: PriceLevelNode)
    requires node in held && held <= live && Distinct(live)
    ensures live - {node} == live - held + (held - {node})
    ensures held - {node} <= live - {node} && Distinct(live - {node})
  {
  }

  class BookSide {
    const descending: bool
    const pool: NodePool
    var tree: seq<PriceLevelNode>
    var index: map<int, PriceLevelNode>
    var nthPrice: int
    var topNDepth: nat
    /** The plain map that this side stands for. */
    ghost var levels: Levels
    /** The nodes held from the pool. */
    ghost var nodes: set<PriceLevelNode>

    /** Tree, index and map agree; the cached price is left out. */
    ghost predicate Coherent()
      reads this, nodes
    {
      topNDepth > 0 && Structured(descending, tree, index, nodes, levels) && Carries(nodes, levels)
    }

    ghost predicate Valid()
      reads this, nodes
    {
      Coherent() && nthPrice == NthOf(PricesOf(tree), topNDepth)
    }

    /** The pool counts the nodes as handed out, at different addresses. */
    ghost predicate Held()
      reads this, pool
    {
      nodes <= pool.live && Distinct(pool.live)
    }

    constructor (descending: bool, pool: NodePool)
      requires Distinct(pool.live)
      ensures Valid() && Held() && levels == map[] && nodes == {} && topNDepth == 20
      ensures this.descending == descending && this.pool == pool
    {
      this.descending, this.pool := descending, pool;
      tree, index, nthPrice, topNDepth, levels, nodes := [], map[], 0, 20, map[], {};
    }

    /** In a valid state the comparison with the cached price is exact, for stored prices and for others. */
    predicate AffectsTopN(price: int)
      reads this
    {
      if |tree| < topNDepth then true
      else if descending then price >= nthPrice else price <= nthPrice
    }

    lemma AffectsTopNIsRank(price: int)
      requires Valid()
      ensures AffectsTopN(price) <==> Rank(descending, levels, price) < topNDepth
    {
      ComparisonIsRank(descending, PricesOf(tree), levels, topNDepth, price);
    }

    method UpdateNthPrice()
      requires topNDepth > 0
      modifies this`nthPrice
      ensures nthPrice == NthOf(PricesOf(tree), topNDepth)
    {
      if |tree| < topNDepth {
        nthPrice := 0;
        return;
      }
      nthPrice := tree[topNDepth - 1].price;
    }

    /** The cached price means the n-th best price of the map. */
    lemma CachedPriceIsNth()
      requires Valid()
      ensures IsNthPrice(descending, levels, topNDepth, nthPrice)
    {
      NthOfList(descending, PricesOf(tree), levels, topNDepth);
    }

    lemma SameLevels()
      requires Coherent()
      ensures index.Keys == levels.Keys && |tree| == |levels| && Lists(descending, PricesOf(tree), levels)
      ensures forall n | n in nodes :: Finds(index, n)
    {
    }

    lemma FirstNode()
      requires Coherent() && |tree| > 0
      ensures tree[0] in nodes && Finds(index, tree[0])
    {
    }

    /** What is known of a stored level before it is looked at. */
    lemma StoredLevel(price: int)
      requires Coherent() && price in index
      ensures price in levels && index[price] in nodes && index[price].price == price
      ensures index[price].quantity == levels[price]
    {
      assert price in index.Keys;
      PlaceInTree(descending, tree, index, nodes, levels, price);
    }

    /** Puts a node into the tree and the index. */
    method Link(node: PriceLevelNode)
      requires Coherent() && node.price !in index && node.quantity > 0
      modifies this`tree, this`index, this`levels, this`nodes
      ensures Coherent() && |tree| == |old(tree)| + 1
      ensures levels == old(levels)[node.price := node.quantity]
      ensures index == old(index)[node.price := node] && nodes == old(nodes) + {node}
      ensures var nth := NthOf(PricesOf(old(tree)), topNDepth);
        var flag := |tree| < topNDepth || !Better(descending, nth, node.price);
        && flag == TopFlag(descending, old(levels), topNDepth, node.price)
        && (|tree| != topNDepth && !(|tree| > topNDepth && flag) ==> NthOf(PricesOf(tree), topNDepth) == nth)
    {
      hide Structured, Lists, NthOf, TopFlag;
      SameLevels();
      var k := Position(descending, PricesOf(tree), node.price);
      InsertStructured(descending, tree, index, nodes, levels, node, node.quantity);
      InsertKeepsNth(descending, PricesOf(tree), levels, topNDepth, node.price);
      tree := Inserted(tree, k, node);
      index := index[node.price := node];
      levels := levels[node.price := node.quantity];
      nodes := nodes + {node};
    }

    /** Takes the node at a price out of the tree and the index. */
    method Unlink(price: int) returns (node: PriceLevelNode)
      requires Coherent() && price in index
      modifies this`tree, this`index, this`levels, this`nodes
      ensures Coherent() && |tree| == |old(tree)| - 1
      ensures levels == old(levels) - {price}
      ensures index == old(index) - {price} && nodes == old(nodes) - {node}
      ensures node == old(index)[price]
      ensures |tree| != topNDepth - 1 && !TopFlag(descending, old(levels), topNDepth, price)
        ==> NthOf(PricesOf(tree), topNDepth) == NthOf(PricesOf(old(tree)), topNDepth)
    {
      hide Structured, Lists, NthOf, TopFlag;
      SameLevels();
      var k := Position(descending, PricesOf(tree), price);
      assert price in index.Keys;
      PlaceInTree(descending, tree, index, nodes, levels, price);
      RemoveStructured(descending, tree, index, nodes, levels, k);
      RemoveKeepsNth(descending, PricesOf(tree), levels, topNDepth, k);
      node := index[price];
      tree := Removed(tree, k);
      index := index - {price};
      levels := levels - {price};
      nodes := nodes - {node};
    }

    method ApplyUpdate(price: int, qty: u64, updateSeq: nat) returns (result: UpdateResult)
      requires Valid() && Held()
      modifies this, pool, nodes
      ensures Valid() && Held() && topNDepth == old(topNDepth)
      ensures levels == ApplyLevel(old(levels), price, qty)
      ensures result == Report(descending, old(levels), topNDepth, price, qty)
      ensures Tells(descending, old(levels), levels, topNDepth, price, qty, result)
      ensures Keeps(old(index), index)
      ensures qty > 0 ==> price in index && index[price].updateSeq == updateSeq
      ensures nodes <= old(nodes) || old(nodes) <= nodes
      ensures fresh(nodes - old(nodes)) && pool.live == old(pool.live) - old(nodes) + nodes
    {
      hide Report, Tells;
      ReportTells(descending, levels, topNDepth, price, qty);
      if price !in index {
        NothingToDelete(descending, levels, topNDepth, price);
        if qty == 0 {
          assert levels - {price} == levels;
          return UpdateResult(0, false, false, false);
        }
        result := InsertLevel(price, qty, updateSeq);
      } else if qty == 0 {
        result := EraseLevel(price);
      } else {
        result := ChangeLevel(price, qty, updateSeq);
      }
    }

    method InsertLevel(price: int, qty: u64, updateSeq: nat) returns (result: UpdateResult)
      requires Valid() && Held() && price !in index && qty > 0
      modifies this, pool
      ensures Valid() && Held() && topNDepth == old(topNDepth)
      ensures levels == ApplyLevel(old(levels), price, qty)
      ensures result == Report(descending, old(levels), topNDepth, price, qty)
      ensures Keeps(old(index), index) && price in index && index[price].updateSeq == updateSeq
      ensures old(nodes) <= nodes
      ensures fresh(nodes - old(nodes)) && pool.live == old(pool.live) - old(nodes) + nodes
    {
      hide Structured, Carries, NthOf, TopFlag, Distinct;
      SameLevels();
      var node := pool.Construct(price, qty, updateSeq);
      Link(node);
      result := UpdateResult(ToInt64(qty), AffectsTopN(price), true, false);
      if |tree| == topNDepth || (|tree| > topNDepth && result.affectsTopN) {
        UpdateNthPrice();
      }
    }

    method EraseLevel(price: int) returns (result: UpdateResult)
      requires Valid() && Held() && price in index
      modifies this, pool
      ensures Valid() && Held() && topNDepth == old(topNDepth)
      ensures levels == ApplyLevel(old(levels), price, 0)
      ensures result == Report(descending, old(levels), topNDepth, price, 0)
      ensures Keeps(old(index), index)
      ensures nodes <= old(nodes) && pool.live == old(pool.live) - old(nodes) + nodes
    {
      hide Structured, Carries, NthOf, Distinct;
      var oldQty := index[price].quantity;
      var wasInTopN := AffectsTopN(price);
      AffectsTopNIsRank(price);
      StoredLevel(price);
      GiveBack(pool.live, nodes, index[price]);
      var node := Unlink(price);
      pool.Destroy(node);
      result := UpdateResult(-ToInt64(oldQty), wasInTopN, false, true);
      if |tree| == topNDepth - 1 || wasInTopN {
        UpdateNthPrice();
      }
    }

    method ChangeLevel(price: int, qty: u64, updateSeq: nat) returns (result: UpdateResult)
      requires Valid() && Held() && price in index && qty > 0
      modifies this, nodes
      ensures Valid() && Held() && topNDepth == old(topNDepth)
      ensures levels == ApplyLevel(old(levels), price, qty)
      ensures result == Report(descending, old(levels), topNDepth, price, qty)
      ensures tree == old(tree) && index == old(index) && nodes == old(nodes) && index[price].updateSeq == updateSeq
    {
      AffectsTopNIsRank(price);
      StoredLevel(price);
      var node := index[price];
      var oldQty := node.quantity;
      node.quantity := qty;
      node.updateSeq := updateSeq;
      levels := levels[price := qty];
      result := UpdateResult(ToInt64(qty) - ToInt64(oldQty), AffectsTopN(price), false, false);
    }

    method SetTopNDepth(depth: nat)
      requires Valid() && depth > 0
      modifies this`topNDepth, this`nthPrice
      ensures Valid() && topNDepth == depth
    {
      topNDepth := depth;
      UpdateNthPrice();
    }

    /** Gives every node back; the index entry that each step looks for is always there. */
    method Clear()
      requires Valid() && Held()
      modifies this, pool
      ensures Valid() && Held() && levels == map[] && nodes == {} && topNDepth == old(topNDepth)
      ensures pool.live == old(pool.live) - old(nodes)
    {
      hide Structured, Carries, Distinct;
      while |tree| != 0
        invariant Coherent() && Held() && topNDepth == old(topNDepth)
        invariant nodes <= old(nodes) && pool.live == old(pool.live) - old(nodes) + nodes
        decreases |tree|
      {
        EraseFirst();
      }
      nthPrice := 0;
      EmptyTree();
    }

    method EraseFirst()
      requires Coherent() && Held() && |tree| > 0
      modifies this`tree, this`index, this`levels, this`nodes, pool
      ensures Coherent() && Held() && |tree| == |old(tree)| - 1
      ensures nodes <= old(nodes) && pool.live == old(pool.live) - old(nodes) + nodes
    {
      hide Structured, Carries, Distinct;
      var node := tree[0];
      FirstNode();
      GiveBack(pool.live, nodes, node);
      var erased := Unlink(node.price);
      pool.Destroy(erased);
    }

    lemma EmptyTree()
      requires Coherent() && |tree| == 0
      ensures levels == map[] && nodes == {}
    {
      SameLevels();
      SameNodes(descending, tree, index, nodes, levels);
    }

    /** The best levels in order, read off the tree. */
    method GetTopN(n: nat) returns (count: nat, out: seq<(int, u64)>)
      requires Valid()
      ensures count == |out| && IsTop(descending, levels, n, out)
    {
      count, out := 0, [];
      while count != |tree| && count < n
        invariant count == |out| <= |tree| && count <= n
        invariant forall i | 0 <= i < count :: out[i] == (tree[i].price, levels[tree[i].price])
      {
        assert tree[count] in nodes && PricesOf(tree)[count] in levels;
        out := out + [(tree[count].price, tree[count].quantity)];
        count := count + 1;
      }
      forall i | 0 <= i < |out|
        ensures out[i].0 in levels && levels[out[i].0] == out[i].1 && Rank(descending, levels, out[i].0) == i
      {
        assert PricesOf(tree)[i] == tree[i].price;
        PositionIsRank(descending, PricesOf(tree), levels, i);
      }
    }

    /** The level with exactly k better levels, or null when there are not that many. */
    method KthLevel(k: nat) returns (node: PriceLevelNode?)
      requires Valid()
      ensures node == null <==> k >= |levels|
      ensures node != null ==> node in nodes && node.price in levels && node.quantity == levels[node.price]
      ensures node != null ==> Rank(descending, levels, node.price) == k
    {
      if k >= |tree| {
        return null;
      }
      PositionIsRank(descending, PricesOf(tree), levels, k);
      assert PricesOf(tree)[k] in levels;
      node := tree[k];
    }

    method Best() returns (node: PriceLevelNode?)
      requires Valid()
      ensures node == BestNode()
    {
      node := if |tree| == 0 then null else tree[0];
    }

    ghost function BestNode(): PriceLevelNode?
      reads this
    {
      if |tree| == 0 then null else tree[0]
    }

    /** The first node of the tree carries the best level, and the index has it under its price. */
    lemma BestIsBest()
      requires Valid()
      ensures BestNode() == null <==> levels == map[]
      ensures BestNode() != null ==> BestNode() in nodes && Finds(index, BestNode())
      ensures IsBest(descending, levels, if BestNode() == null then 0 else BestNode().price,
                     if BestNode() == null then 0 else BestNode().quantity)
    {
      if |tree| == 0 {
        assert levels == map[];
      } else {
        ListsKeys(descending, PricesOf(tree), levels);
        assert tree[0] in nodes && PricesOf(tree)[0] in levels;
        forall p | p in levels
          ensures !Better(descending, p, tree[0].price)
        {
          assert p in levels.Keys;
          var i :| 0 <= i < |tree| && PricesOf(tree)[i] == p;
          assert i > 0 ==> Better(descending, PricesOf(tree)[0], PricesOf(tree)[i]);
        }
      }
    }

    method Find(price: int) returns (node: PriceLevelNode?)
      requires Valid()
      ensures node == null <==> price !in levels
      ensures node != null ==> node in nodes && node.price == price && node.quantity == levels[price]
    {
      if price !in index {
        return null;
      }
      StoredLevel(price);
      node := index[price];
    }

    /** Comparing neighbours decides the strict order of the whole tree. */
    method ValidateOrder() returns (ok: bool)
      ensures ok <==> Sorted(descending, PricesOf(tree))
    {
      if |tree| == 0 {
        return true;
      }
      var prices := PricesOf(tree);
      var lastPrice := tree[0].price;
      for i := 1 to |tree|
        invariant lastPrice == prices[i - 1]
        invariant forall k | 0 < k < i :: Better(descending, prices[k - 1], prices[k])
      {
        if !Better(descending, lastPrice, tree[i].price) {
          assert !Better(descending, prices[i - 1], prices[i]);
          return false;
        }
        lastPrice := tree[i].price;
      }
      NeighboursSort(descending, prices);
      return true;
    }

    /** The check from tree to index. The source's loop back over the index compares each node with the iterator made from
        that same node and can never fail. */
    method ValidateIndex() returns (ok: bool)
      ensures ok <==> forall i | 0 <= i < |tree| :: Finds(index, tree[i])
    {
      for i := 0 to |tree|
        invariant forall k | 0 <= k < i :: Finds(index, tree[k])
      {
        var node := tree[i];
        if node.price !in index || index[node.price] != node {
          assert !Finds(index, tree[i]);
          return false;
        }
      }
      return true;
    }
  }

  /** Over any run of updates whose quantities read the same signed and unsigned, the deltas that the side returns add up
      to the change of its total quantity. */
  method ApplyUpdates(side: BookSide, changes: seq<Change>) returns (sum: int)
    requires side.Valid() && side.Held()
    requires Small(side.levels) && forall i | 0 <= i < |changes| :: changes[i].qty < TWO63
    modifies side, side.pool, side.nodes
    ensures side.Valid() && side.Held() && side.levels == ApplyAll(old(side.levels), changes)
    ensures sum == Total(side.levels) - Total(old(side.levels))
  {
    hide BookSide.Valid, BookSide.Held, Report, Total, Small, ApplyAll;
    ghost var start := side.levels;
    NoChanges(start, changes);
    sum := 0;
    for i := 0 to |changes|
      invariant side.Valid() && side.Held() && fresh(side.nodes - old(side.nodes))
      invariant side.levels == ApplyAll(start, changes[..i]) && Small(side.levels)
      invariant sum == Total(side.levels) - Total(start)
    {
      NextChange(start, changes, i);
      var result := side.ApplyUpdate(changes[i].price, changes[i].qty, 0);
      sum := sum + result.deltaQty;
    }
    assert changes[..|changes|] == changes;
  }

  lemma NoChanges(m: Levels, changes: seq<Change>)
    ensures ApplyAll(m, changes[..0]) == m
  {
  }

  lemma NextChange(m: Levels, changes: seq<Change>, i: nat)
    requires i < |changes| && changes[i].qty < TWO63 && Small(ApplyAll(m, changes[..i]))
    ensures ApplyAll(m, changes[..i + 1]) == ApplyLevel(ApplyAll(m, changes[..i]), changes[i].price, changes[i].qty)
    ensures Small(ApplyAll(m, changes[..i + 1]))
  {
    assert changes[..i + 1][..i] == changes[..i];
  }

  /** The sentinel at work: the first ask of a side that tracks one level becomes its best level, and the update says that
      the best level is not affected. */
  method FirstAskIsMissed() returns (result: UpdateResult, before: seq<(int, u64)>, after: seq<(int, u64)>)
    ensures result == UpdateResult(5, false, true, false)
    ensures before == [] && after == [(100, 5)]
  {
    var pool := new NodePool();
    var side := new BookSide(false, pool);
    side.SetTopNDepth(1);
    var count;
    count, before := side.GetTopN(1);
    result := side.ApplyUpdate(100, 5, 0);
    assert |side.levels| == 1;
    count, after := side.GetTopN(1);
    assert after[0].0 == 100;
  }
}
