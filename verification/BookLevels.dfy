/** The plain meaning of one side of a book: a map from price to quantity, and what best, n-th best, top of the side
    and total quantity are for such a map. Prices are raw fixed-point values. */
module BookLevels {

  const TWO63: int := 0x8000_0000_0000_0000

  type u64 = n: nat | n < 0x1_0000_0000_0000_0000

  /** What a level stores; an empty level is not stored. */
  type Quantity = n: u64 | n > 0 witness 1

  type Levels = map<int, Quantity>

  /** The comparator: bids are ordered from the highest price down, asks from the lowest up. */
  predicate Better(descending: bool, a: int, b: int) {
    if descending then a > b else a < b
  }

  function Qty(m: Levels, price: int): u64 {
    if price in m then m[price] else 0
  }

  /** One update: quantity zero removes the level. */
  function ApplyLevel(m: Levels, price: int, qty: u64): Levels {
    if qty == 0 then m - {price} else m[price := qty]
  }

  /** How many levels are better than this price. */
  ghost function Rank(descending: bool, m: Levels, price: int): nat {
    |set p | p in m && Better(descending, p, price)|
  }

  /** The price of the n-th best level, or the zero sentinel when there are fewer. */
  ghost predicate IsNthPrice(descending: bool, m: Levels, n: nat, price: int) {
    if |m| < n then price == 0 else price in m && Rank(descending, m, price) + 1 == n
  }

  ghost predicate Sorted(descending: bool, prices: seq<int>) {
    forall i, j | 0 <= i < j < |prices| :: Better(descending, prices[i], prices[j])
  }

  /** `out` is the best n levels of the map (all of them if there are fewer): its i-th entry has i better levels. */
  ghost predicate IsTop(descending: bool, m: Levels, n: nat, out: seq<(int, u64)>) {
    && |out| == (if n < |m| then n else |m|)
    && forall i | 0 <= i < |out| ::
      out[i].0 in m && m[out[i].0] == out[i].1 && Rank(descending, m, out[i].0) == i
  }

  /** The best price and its quantity; both zero when there are no levels. */
  ghost predicate IsBest(descending: bool, m: Levels, price: int, qty: nat) {
    if m == map[] then price == 0 && qty == 0
    else price in m && qty == m[price] && forall p | p in m :: !Better(descending, p, price)
  }

  /** The keys of the map in comparator order. */
  ghost predicate Lists(descending: bool, prices: seq<int>, m: Levels) {
    Sorted(descending, prices) && |prices| == |m| && forall i | 0 <= i < |prices| :: prices[i] in m
  }

  lemma {:induction false} DistinctCount(prices: seq<int>)
    requires forall i, j | 0 <= i < j < |prices| :: prices[i] != prices[j]
    ensures |set p | p in prices| == |prices|
  {
    if prices != [] {
      var rest, last := prices[..|prices| - 1], prices[|prices| - 1];
      DistinctCount(rest);
      assert prices == rest + [last];
      assert (set p | p in prices) == (set p | p in rest) + {last};
    }
  }

  lemma SubsetSame(a: set<int>, b: set<int>)
    requires a <= b && |a| == |b|
    ensures a == b
  {
    assert b == a + (b - a);
  }

  lemma ListsKeys(descending: bool, prices: seq<int>, m: Levels)
    requires Lists(descending, prices, m)
    ensures m.Keys == set p | p in prices
  {
    DistinctCount(prices);
    SubsetSame((set p | p in prices), m.Keys);
  }

  /** How many leading prices are better. */
  function Position(descending: bool, prices: seq<int>, price: int): (k: nat)
    ensures k <= |prices|
  {
    if prices == [] || !Better(descending, prices[0], price) then 0
    else 1 + Position(descending, prices[1..], price)
  }

  lemma {:induction false} PositionSplits(descending: bool, prices: seq<int>, price: int)
    requires Sorted(descending, prices)
    ensures var k := Position(descending, prices, price);
      && (forall i | 0 <= i < k :: Better(descending, prices[i], price))
      && (forall i | k <= i < |prices| :: !Better(descending, prices[i], price))
  {
    if prices != [] && Better(descending, prices[0], price) {
      PositionSplits(descending, prices[1..], price);
      assert forall i | 1 <= i < |prices| :: prices[i] == prices[1..][i - 1];
    }
  }

  /** In a sorted list a listed price sits at its own position. */
  lemma PositionOf(descending: bool, prices: seq<int>, k: nat)
    requires Sorted(descending, prices) && k < |prices|
    ensures Position(descending, prices, prices[k]) == k
  {
    PositionSplits(descending, prices, prices[k]);
    var found := Position(descending, prices, prices[k]);
    assert found < |prices| ==> !Better(descending, prices[found], prices[k]);
  }

  /** The position at which a price belongs, listed or not, is the number of better levels. */
  lemma RankIsPosition(descending: bool, prices: seq<int>, m: Levels, price: int)
    requires Lists(descending, prices, m)
    ensures Rank(descending, m, price) == Position(descending, prices, price)
  {
    var k := Position(descending, prices, price);
    PositionSplits(descending, prices, price);
    ListsKeys(descending, prices, m);
    var better := set p | p in m && Better(descending, p, price);
    forall p
      ensures p in better <==> p in prices[..k]
    {
      if p in better {
        assert p in m.Keys;
        var i :| 0 <= i < |prices| && prices[i] == p;
        assert prices[..k][i] == p;
      }
      if p in prices[..k] {
        var i :| 0 <= i < k && prices[i] == p;
        assert p in prices && p in m.Keys;
      }
    }
    assert better == set p | p in prices[..k];
    DistinctCount(prices[..k]);
  }

  lemma PositionIsRank(descending: bool, prices: seq<int>, m: Levels, k: nat)
    requires Lists(descending, prices, m) && k < |prices|
    ensures Rank(descending, m, prices[k]) == k
  {
    PositionOf(descending, prices, k);
    RankIsPosition(descending, prices, m, prices[k]);
  }

  /** What the n-th entry of the sorted list, or the sentinel, means for the map. */
  lemma NthOfList(descending: bool, prices: seq<int>, m: Levels, n: nat)
    requires Lists(descending, prices, m) && n > 0
    ensures IsNthPrice(descending, m, n, if |prices| < n then 0 else prices[n - 1])
  {
    if |prices| >= n {
      PositionIsRank(descending, prices, m, n - 1);
    }
  }

  lemma SubsetCount(a: set<int>, b: set<int>)
    requires a <= b
    ensures |a| <= |b|
  {
    assert b == a + (b - a);
  }

  lemma ApplySize(m: Levels, price: int, qty: u64)
    ensures |ApplyLevel(m, price, qty)|
      == |m| + (if price !in m && qty > 0 then 1 else 0) - (if price in m && qty == 0 then 1 else 0)
  {
    var m' := ApplyLevel(m, price, qty);
    if price !in m && qty > 0 {
      assert m'.Keys == m.Keys + {price};
    } else if qty == 0 {
      assert m'.Keys == m.Keys - {price};
    } else {
      assert m'.Keys == m.Keys;
    }
    assert |m| == |m.Keys| && |m'| == |m'.Keys|;
  }

  lemma SubsetSmaller(a: set<int>, b: set<int>, x: int)
    requires a <= b && x in b && x !in a
    ensures |a| < |b|
  {
    assert b == a + (b - a);
    assert x in b - a;
  }

  /** A better level has a smaller rank. */
  lemma RankOrders(descending: bool, m: Levels, p: int, q: int)
    requires p in m && Better(descending, p, q)
    ensures Rank(descending, m, p) < Rank(descending, m, q)
  {
    SubsetSmaller((set x | x in m && Better(descending, x, p)), (set x | x in m && Better(descending, x, q)), p);
  }

  /** The best n levels are one list only, and it is in comparator order. */
  lemma TopUnique(descending: bool, m: Levels, n: nat, a: seq<(int, u64)>, b: seq<(int, u64)>)
    requires IsTop(descending, m, n, a) && IsTop(descending, m, n, b)
    ensures a == b
    ensures forall i, j | 0 <= i < j < |a| :: Better(descending, a[i].0, a[j].0)
  {
    forall i, j | 0 <= i <= j < |a|
      ensures a[i].0 == b[i].0
      ensures i < j ==> Better(descending, a[i].0, a[j].0)
    {
      if Better(descending, a[i].0, b[i].0) {
        RankOrders(descending, m, a[i].0, b[i].0);
      }
      if Better(descending, b[i].0, a[i].0) {
        RankOrders(descending, m, b[i].0, a[i].0);
      }
      if Better(descending, a[j].0, a[i].0) {
        RankOrders(descending, m, a[j].0, a[i].0);
      }
    }
  }

  // ---------------------------------------------------------------- the top of the side

  /** Comparing with the n-th listed price decides whether a price, listed or not, ranks among the best n. */
  lemma ComparisonIsRank(descending: bool, prices: seq<int>, m: Levels, n: nat, price: int)
    requires Lists(descending, prices, m) && n > 0
    ensures (|prices| < n || !Better(descending, prices[n - 1], price)) <==> Rank(descending, m, price) < n
  {
    RankIsPosition(descending, prices, m, price);
    PositionSplits(descending, prices, price);
  }

  lemma RankBelowSize(descending: bool, m: Levels, price: int)
    ensures Rank(descending, m, price) <= |m|
    ensures price in m ==> Rank(descending, m, price) < |m|
  {
    var better := set p | p in m && Better(descending, p, price);
    SubsetCount(better, m.Keys);
    if price in m {
      SubsetSmaller(better, m.Keys, price);
    }
  }

  /** An update of a level that does not rank among the best n leaves the best n levels alone. */
  lemma DeepUpdateKeepsTop(descending: bool, m: Levels, n: nat, price: int, qty: u64, out: seq<(int, u64)>)
    requires Rank(descending, m, price) >= n && IsTop(descending, m, n, out)
    ensures IsTop(descending, ApplyLevel(m, price, qty), n, out)
  {
    var m' := ApplyLevel(m, price, qty);
    RankBelowSize(descending, m, price);
    ApplySize(m, price, qty);
    forall i | 0 <= i < |out|
      ensures out[i].0 != price && Rank(descending, m', out[i].0) == i
    {
      var p := out[i].0;
      if !Better(descending, p, price) {
        SubsetCount((set x | x in m && Better(descending, x, price)), (set x | x in m && Better(descending, x, p)));
        assert false;
      }
      assert (set x | x in m' && Better(descending, x, p)) == (set x | x in m && Better(descending, x, p));
    }
  }

  /** An update that changes the quantity of a level ranking among the best n changes the best n levels. */
  lemma ShallowUpdateChangesTop(descending: bool, m: Levels, n: nat, price: int, qty: u64, out: seq<(int, u64)>)
    requires Rank(descending, m, price) < n && qty != Qty(m, price)
    requires IsTop(descending, m, n, out)
    ensures !IsTop(descending, ApplyLevel(m, price, qty), n, out)
  {
    var m' := ApplyLevel(m, price, qty);
    var r := Rank(descending, m, price);
    assert (set x | x in m' && Better(descending, x, price)) == (set x | x in m && Better(descending, x, price));
    assert Rank(descending, m', price) == r;
    if IsTop(descending, m', n, out) {
      if price in m {
        RankBelowSize(descending, m, price);
        SameRank(descending, m, price, out[r].0);
      } else {
        RankBelowSize(descending, m', price);
        SameRank(descending, m', price, out[r].0);
      }
      assert false;
    }
  }

  lemma SameRank(descending: bool, m: Levels, p: int, q: int)
    requires p in m && q in m && Rank(descending, m, p) == Rank(descending, m, q)
    ensures p == q
  {
    if Better(descending, p, q) {
      RankOrders(descending, m, p, q);
    } else if Better(descending, q, p) {
      RankOrders(descending, m, q, p);
    }
  }

  // ---------------------------------------------------------------- inserting and removing in the sorted list

  function Inserted<T>(s: seq<T>, k: nat, x: T): seq<T>
    requires k <= |s|
  {
    s[..k] + [x] + s[k..]
  }

  function Removed<T>(s: seq<T>, k: nat): seq<T>
    requires k < |s|
  {
    s[..k] + s[k + 1..]
  }

  lemma InsertSorted(descending: bool, prices: seq<int>, price: int)
    requires Sorted(descending, prices) && price !in prices
    ensures Sorted(descending, Inserted(prices, Position(descending, prices, price), price))
  {
    PositionSplits(descending, prices, price);
    var k := Position(descending, prices, price);
    var longer := Inserted(prices, k, price);
    forall i, j | 0 <= i < j < |longer|
      ensures Better(descending, longer[i], longer[j])
    {
      if i != k && j != k {
        assert longer[i] == prices[if i < k then i else i - 1];
        assert longer[j] == prices[if j < k then j else j - 1];
      } else if i == k {
        assert longer[j] == prices[j - 1] && prices[j - 1] in prices;
      } else {
        assert longer[i] == prices[i];
      }
    }
  }

  lemma InsertLists(descending: bool, prices: seq<int>, m: Levels, price: int, qty: Quantity)
    requires Lists(descending, prices, m) && price !in m
    ensures Lists(descending, Inserted(prices, Position(descending, prices, price), price), m[price := qty])
  {
    var k := Position(descending, prices, price);
    InsertSorted(descending, prices, price);
    ApplySize(m, price, qty);
    var longer := Inserted(prices, k, price);
    forall i | 0 <= i < |longer|
      ensures longer[i] in m[price := qty]
    {
      if i != k {
        assert longer[i] == prices[if i < k then i else i - 1];
      }
    }
  }

  lemma RemoveLists(descending: bool, prices: seq<int>, m: Levels, k: nat)
    requires Lists(descending, prices, m) && k < |prices|
    ensures Lists(descending, Removed(prices, k), m - {prices[k]})
  {
    var shorter := Removed(prices, k);
    ApplySize(m, prices[k], 0);
    forall i | 0 <= i < |shorter|
      ensures shorter[i] == prices[if i < k then i else i + 1]
      ensures shorter[i] in m && shorter[i] != prices[k]
    {
      if i < k {
        assert Better(descending, prices[i], prices[k]);
      } else {
        assert Better(descending, prices[k], prices[i + 1]);
      }
    }
    forall i, j | 0 <= i < j < |shorter|
      ensures Better(descending, shorter[i], shorter[j])
    {
      assert shorter[i] == prices[if i < k then i else i + 1] && shorter[j] == prices[if j < k then j else j + 1];
    }
  }

  // ---------------------------------------------------------------- every side has a top

  lemma {:induction false} ListExists(descending: bool, m: Levels) returns (prices: seq<int>)
    ensures Lists(descending, prices, m)
    decreases |m|
  {
    if forall p: int :: p !in m {
      assert m == map[];
      prices := [];
    } else {
      var p: int :| p in m;
      var rest := ListExists(descending, m - {p});
      InsertLists(descending, rest, m - {p}, p, m[p]);
      assert (m - {p})[p := m[p]] == m;
      prices := Inserted(rest, Position(descending, rest, p), p);
    }
  }

  lemma TopExists(descending: bool, m: Levels, n: nat) returns (out: seq<(int, u64)>)
    ensures IsTop(descending, m, n, out)
  {
    var prices := ListExists(descending, m);
    var k := if n < |m| then n else |m|;
    out := seq(k, i requires 0 <= i < k => (prices[i], m[prices[i]] as u64));
    forall i | 0 <= i < |out|
      ensures out[i].0 in m && m[out[i].0] == out[i].1 && Rank(descending, m, out[i].0) == i
    {
      PositionIsRank(descending, prices, m, i);
    }
  }

  lemma BestExists(descending: bool, m: Levels) returns (price: int, qty: nat)
    ensures IsBest(descending, m, price, qty)
  {
    var prices := ListExists(descending, m);
    if prices == [] {
      return 0, 0;
    }
    ListsKeys(descending, prices, m);
    price, qty := prices[0], m[prices[0]];
    forall p | p in m
      ensures !Better(descending, p, price)
    {
      assert p in m.Keys;
      var i :| 0 <= i < |prices| && prices[i] == p;
      assert i > 0 ==> Better(descending, prices[0], prices[i]);
    }
  }

  /** Two states of a side have the same best n levels. */
  ghost predicate SameTop(descending: bool, m: Levels, m': Levels, n: nat) {
    exists out :: IsTop(descending, m, n, out) && IsTop(descending, m', n, out)
  }

  // ---------------------------------------------------------------- the cached n-th price

  function NthOf(prices: seq<int>, n: nat): int
    requires n > 0
  {
    if |prices| < n then 0 else prices[n - 1]
  }

  /** The flag of an update is "ranks among the best n", except for the insert that fills the n-th place: there the price
      is compared with the zero sentinel instead. */
  ghost function TopFlag(descending: bool, m: Levels, n: nat, price: int): bool {
    if price !in m && |m| + 1 == n then !Better(descending, 0, price) else Rank(descending, m, price) < n
  }

  /** The family in which the flag compares with the sentinel in vain: an insert that makes the side exactly n deep at a
      price worse than zero. */
  ghost predicate Missed(descending: bool, m: Levels, n: nat, price: int) {
    price !in m && |m| + 1 == n && Better(descending, 0, price)
  }

  /** The flag is right for every update except one family: an insert that makes the side exactly n deep at a price worse
      than zero, which on the ask side is every positive price. */
  lemma FlagIsRank(descending: bool, m: Levels, n: nat, price: int)
    ensures (TopFlag(descending, m, n, price) <==> Rank(descending, m, price) < n)
      <==> !Missed(descending, m, n, price)
  {
    RankBelowSize(descending, m, price);
  }

  /** Outside that family the flag of an update that changes a quantity says exactly whether the best n levels change. */
  lemma FlagTellsTopChange(descending: bool, m: Levels, n: nat, price: int, qty: u64, out: seq<(int, u64)>)
    requires IsTop(descending, m, n, out) && qty != Qty(m, price)
    requires !Missed(descending, m, n, price)
    ensures IsTop(descending, ApplyLevel(m, price, qty), n, out) <==> !TopFlag(descending, m, n, price)
  {
    FlagIsRank(descending, m, n, price);
    if Rank(descending, m, price) < n {
      ShallowUpdateChangesTop(descending, m, n, price, qty, out);
    } else {
      DeepUpdateKeepsTop(descending, m, n, price, qty, out);
    }
  }

  /** An update that changes a quantity reports a change of the best n levels exactly when they are not the same before and
      after. */
  lemma FlagIsSameTop(descending: bool, m: Levels, n: nat, price: int, qty: u64)
    requires qty != Qty(m, price) && !Missed(descending, m, n, price)
    ensures TopFlag(descending, m, n, price) <==> !SameTop(descending, m, ApplyLevel(m, price, qty), n)
  {
    var out := TopExists(descending, m, n);
    FlagTellsTopChange(descending, m, n, price, qty, out);
    if SameTop(descending, m, ApplyLevel(m, price, qty), n) {
      var both :| IsTop(descending, m, n, both) && IsTop(descending, ApplyLevel(m, price, qty), n, both);
      TopUnique(descending, m, n, out, both);
    }
  }

  /** After an insert the flag is computed with the new size and the cached price of before; when it does not ask for a
      refresh, the cached price is still right. */
  lemma InsertKeepsNth(descending: bool, prices: seq<int>, m: Levels, n: nat, price: int)
    requires Lists(descending, prices, m) && price !in m && n > 0
    ensures var flag := |prices| + 1 < n || !Better(descending, NthOf(prices, n), price);
      && flag == TopFlag(descending, m, n, price)
      && (|prices| + 1 != n && !(|prices| + 1 > n && flag)
          ==> NthOf(Inserted(prices, Position(descending, prices, price), price), n) == NthOf(prices, n))
  {
    ComparisonIsRank(descending, prices, m, n, price);
    RankIsPosition(descending, prices, m, price);
    var k := Position(descending, prices, price);
    assert n - 1 < k ==> Inserted(prices, k, price)[n - 1] == prices[n - 1];
  }

  /** After a removal that does not ask for a refresh the cached price is still right. */
  lemma RemoveKeepsNth(descending: bool, prices: seq<int>, m: Levels, n: nat, k: nat)
    requires Lists(descending, prices, m) && k < |prices| && n > 0
    ensures |prices| != n && !TopFlag(descending, m, n, prices[k])
      ==> NthOf(Removed(prices, k), n) == NthOf(prices, n)
  {
    PositionIsRank(descending, prices, m, k);
    assert n - 1 < k ==> Removed(prices, k)[n - 1] == prices[n - 1];
  }

  // ---------------------------------------------------------------- total quantity

  ghost function Total(m: Levels): nat
    decreases |m|
  {
    if forall p: int :: p !in m then 0 else
      var p: int :| p in m;
      m[p] + Total(m - {p})
  }

  /** Any level can be taken out first. */
  lemma {:induction false} TotalWithout(m: Levels, p: int)
    requires p in m
    ensures Total(m) == m[p] + Total(m - {p})
    decreases |m|
  {
    var q :| q in m && Total(m) == m[q] + Total(m - {q});
    if q != p {
      TotalWithout(m - {q}, p);
      TotalWithout(m - {p}, q);
      assert m - {q} - {p} == m - {p} - {q};
    }
  }

  /** An update changes the total by the change of its level. */
  lemma TotalApply(m: Levels, price: int, qty: u64)
    ensures Total(ApplyLevel(m, price, qty)) - Total(m) == qty - Qty(m, price)
  {
    var m' := ApplyLevel(m, price, qty);
    assert m' - {price} == m - {price};
    if price in m {
      TotalWithout(m, price);
    } else {
      assert m - {price} == m;
    }
    if price in m' {
      TotalWithout(m', price);
    }
  }

  /** Reading an unsigned word as a signed one. */
  function ToInt64(n: u64): int {
    if n < TWO63 then n else n - 2 * TWO63
  }

  datatype Change = Change(price: int, qty: u64)

  function ApplyAll(m: Levels, changes: seq<Change>): Levels {
    if changes == [] then m
    else ApplyLevel(ApplyAll(m, changes[..|changes| - 1]), changes[|changes| - 1].price, changes[|changes| - 1].qty)
  }

  function DeltaOf(m: Levels, price: int, qty: u64): int {
    ToInt64(qty) - ToInt64(Qty(m, price))
  }

  function DeltaSum(m: Levels, changes: seq<Change>): int {
    if changes == [] then 0
    else
      var before, last := changes[..|changes| - 1], changes[|changes| - 1];
      DeltaSum(m, before) + DeltaOf(ApplyAll(m, before), last.price, last.qty)
  }

  ghost predicate Small(m: Levels) {
    forall p | p in m :: m[p] < TWO63
  }

  /** Over any run of updates whose quantities read the same signed and unsigned, the reported deltas add up to the
      change of the total quantity. */
  lemma {:induction false} DeltasSumToTotal(m: Levels, changes: seq<Change>)
    requires Small(m) && forall i | 0 <= i < |changes| :: changes[i].qty < TWO63
    ensures DeltaSum(m, changes) == Total(ApplyAll(m, changes)) - Total(m)
    ensures Small(ApplyAll(m, changes))
  {
    if changes != [] {
      var before, last := changes[..|changes| - 1], changes[|changes| - 1];
      assert changes[|changes| - 1].qty < TWO63;
      DeltasSumToTotal(m, before);
      TotalApply(ApplyAll(m, before), last.price, last.qty);
    }
  }

  // ---------------------------------------------------------------- equality by quantities

  /** Two maps without empty levels are equal when every price has the same quantity in both. */
  lemma SameQuantities(a: Levels, b: Levels)
    requires forall p: int :: Qty(a, p) == Qty(b, p)
    ensures a == b
  {
    forall p: int
      ensures p in a <==> p in b
    {
      assert Qty(a, p) == Qty(b, p);
    }
    forall p | p in a
      ensures a[p] == b[p]
    {
      assert Qty(a, p) == Qty(b, p);
    }
  }
}
