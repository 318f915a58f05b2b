/** A merge deletes the prices of a set in the order in which Go's map iteration yields them.  On a depth
    channel that order can decide whether a delete is late: here is when it cannot. */
module MergeOrders {
  import opened PriceLists
  import opened OrderBooks
  import opened DepthStreams
  import opened Snapshots
  import opened Merging
  import opened Wrappers

  /** The order is in view, or stays below it even when all the others are deleted before it. */
  ghost predicate TimelyAmong(b: Book, dropped: set<Price>, p: Price, limit: nat)
    requires p in b.orders
  {
    var better := Better(b.Prices(b.orders[p].side), p, b.orders[p].side.Sell?);
    1 + |better| <= limit || 1 + |better - dropped| > limit
  }

  ghost predicate AllTimely(b: Book, dropped: set<Price>, limit: nat) {
    forall p :: p in dropped && p in b.orders ==> TimelyAmong(b, dropped, p, limit)
  }

  /** No delete of a merge can be late, whatever order the set yields.  It compares ranks in the book
      before the merge. */
  ghost predicate Timely(b: Book, data: seq<Order>, limit: nat) {
    AllTimely(b, DeletedPrices(b, data), limit)
  }

  ghost predicate Yields(b: Book, data: seq<Order>, order: seq<Price>) {
    Enumerates(order, DeletedPrices(b, data)) && forall p :: p in order ==> p in b.orders
  }

  lemma SmallerRest(s: set<Price>, t: set<Price>, u: set<Price>)
    requires t <= u
    ensures |s - u| <= |s - t|
  {
    assert s - t == (s - u) + ((s - t) - (s - u));
  }

  lemma LookupPrices(b: Book, order: seq<Price>)
    requires Inv(b) && forall p :: p in order ==> p in b.orders
    ensures PricesOf(Lookup(b.orders, order)) == Elements(order)
    decreases |order|
  {
    if order == [] {
      assert PricesOf(Lookup(b.orders, order)) == {};
    } else {
      var front, p := order[..|order| - 1], order[|order| - 1];
      assert order == front + [p] && p in order;
      LookupPrices(b, front);
      LookupSnoc(b.orders, front, p, order);
      PricesOfAdd(Lookup(b.orders, front), b.orders[p]);
    }
  }

  /** One more delete of a run is not late when it is not among those before it. */
  lemma RunLateIff(b: Book, front: seq<Price>, p: Price, order: seq<Price>, limit: nat)
    requires Inv(b) && order == front + [p] && forall q :: q in order ==> q in b.orders
    ensures NoLateDelete(b, Lookup(b.orders, order), limit) <==>
      NoLateDelete(b, Lookup(b.orders, front), limit) && TimelyAmong(b, Elements(front), p, limit)
  {
    assert forall q :: q in front ==> q in order;
    assert p in order;
    LookupSnoc(b.orders, front, p, order);
    LookupPrices(b, front);
    LateSnoc(b, Lookup(b.orders, front), b.orders[p], limit);
  }

  lemma LateSnoc(b: Book, front: seq<Order>, ord: Order, limit: nat)
    ensures NoLateDelete(b, front + [ord], limit) <==> NoLateDelete(b, front, limit) && NotLate(b, front, ord, limit)
  {
    assert (front + [ord])[..|front|] == front;
  }

  lemma {:induction false} TimelyRun(b: Book, dropped: set<Price>, order: seq<Price>, limit: nat)
    requires Inv(b) && AllTimely(b, dropped, limit) && Elements(order) <= dropped && dropped <= b.orders.Keys
    requires forall p :: p in order ==> p in b.orders
    ensures NoLateDelete(b, Lookup(b.orders, order), limit)
    decreases |order|
  {
    if order != [] {
      var front, p := order[..|order| - 1], order[|order| - 1];
      FrontElements(order);
      TimelyRun(b, dropped, front, limit);
      RunLateIff(b, front, p, order, limit);
      TimelyAmongFewer(b, dropped, Elements(front), p, limit);
    }
  }

  lemma FrontElements(order: seq<Price>)
    requires order != []
    ensures var front, p := order[..|order| - 1], order[|order| - 1];
      && order == front + [p] && p in order && p in Elements(order)
      && Elements(front) <= Elements(order) && forall q :: q in front ==> q in order
  {
    var front, p := order[..|order| - 1], order[|order| - 1];
    assert order == front + [p];
    assert p in order;
  }

  lemma TimelyAmongFewer(b: Book, dropped: set<Price>, fewer: set<Price>, p: Price, limit: nat)
    requires p in b.orders && fewer <= dropped && TimelyAmong(b, dropped, p, limit)
    ensures TimelyAmong(b, fewer, p, limit)
  {
    SmallerRest(Better(b.Prices(b.orders[p].side), p, b.orders[p].side.Sell?), fewer, dropped);
  }

  lemma OneOf(s: set<Price>)
    requires s != {}
    ensures exists p :: p in s
  {
    var p := Member(s);
  }

  /** One of the orders in which a set may yield its prices. */
  ghost function SomeOrder(s: set<Price>): (order: seq<Price>)
    ensures Enumerates(order, s)
    decreases |s|
  {
    if s == {} then
      []
    else
      OneOf(s);
      var p :| p in s;
      LastAdded(SomeOrder(s - {p}), s - {p}, p);
      assert s == s - {p} + {p};
      SomeOrder(s - {p}) + [p]
  }

  lemma LastAdded(front: seq<Price>, s: set<Price>, p: Price)
    requires Enumerates(front, s) && p !in s
    ensures Enumerates(front + [p], s + {p})
  {
    var order := front + [p];
    assert forall q :: q in order <==> q in front || q == p;
    assert forall q :: q in front <==> q in Elements(front);
    assert Elements(order) == s + {p};
  }

  /** With an order that is not timely at the end, the run is late. */
  lemma LateAtLast(b: Book, dropped: set<Price>, p: Price, limit: nat) returns (order: seq<Price>)
    requires Inv(b) && (forall q :: q in dropped ==> q in b.orders) && p in dropped && !TimelyAmong(b, dropped, p, limit)
    ensures Enumerates(order, dropped) && (forall q :: q in order ==> q in b.orders)
    ensures !NoLateDelete(b, Lookup(b.orders, order), limit)
  {
    var front := SomeOrder(dropped - {p});
    order := front + [p];
    LastAdded(front, dropped - {p}, p);
    assert dropped - {p} + {p} == dropped;
    assert forall q :: q in order ==> q in Elements(order);
    RunLateIff(b, front, p, order, limit);
    AmongOthers(b, dropped, p, limit);
  }

  /** An order is not better than itself. */
  lemma AmongOthers(b: Book, dropped: set<Price>, p: Price, limit: nat)
    requires p in b.orders
    ensures TimelyAmong(b, dropped - {p}, p, limit) <==> TimelyAmong(b, dropped, p, limit)
  {
    var better := Better(b.Prices(b.orders[p].side), p, b.orders[p].side.Sell?);
    assert better - (dropped - {p}) == better - dropped;
  }

  lemma DroppedAreCached(b: Book, data: seq<Order>)
    requires Inv(b)
    ensures forall p :: p in DeletedPrices(b, data) ==> p in b.orders
  {
  }

  /** No delete is late in any order that the set may yield, if and only if each is timely among all. */
  lemma TimelyIff(b: Book, data: seq<Order>, limit: nat)
    requires Inv(b)
    ensures Timely(b, data, limit) <==>
      forall order :: Yields(b, data, order) ==> NoLateDelete(b, Lookup(b.orders, order), limit)
  {
    DroppedAreCached(b, data);
    if Timely(b, data, limit) {
      forall order | Yields(b, data, order) ensures NoLateDelete(b, Lookup(b.orders, order), limit) {
        TimelyRun(b, DeletedPrices(b, data), order, limit);
      }
    } else {
      var p :| p in DeletedPrices(b, data) && p in b.orders && !TimelyAmong(b, DeletedPrices(b, data), p, limit);
      var order := LateAtLast(b, DeletedPrices(b, data), p, limit);
      assert Yields(b, data, order);
    }
  }

  // ---------------------------------------------------------------- the order decides

  /** Three asks, of which a partial keeps the worst, seen at depth 1: deleting the best first makes the
      second delete late, deleting the best last does not. */
  lemma OrderDecides()
    ensures var b, data := ThreeAsks(), [Ask(3.0)];
      && Inv(b) && Mergeable(b, data)
      && Yields(b, data, [1.0, 2.0]) && !NoLateDelete(b, Lookup(b.orders, [1.0, 2.0]), 1)
      && Yields(b, data, [2.0, 1.0]) && NoLateDelete(b, Lookup(b.orders, [2.0, 1.0]), 1)
  {
    ThreeAsksDrop();
    RanksOfThree(ThreeAsks());
    RunOfTwo(ThreeAsks(), 1.0, 2.0);
    RunOfTwo(ThreeAsks(), 2.0, 1.0);
  }

  lemma ThreeAsksDrop()
    ensures var b, data := ThreeAsks(), [Ask(3.0)];
      Inv(b) && Mergeable(b, data) && Yields(b, data, [1.0, 2.0]) && Yields(b, data, [2.0, 1.0])
  {
    ThreeAsksInv();
    ListsWorst([Ask(3.0)]);
    KeepsWorst(ThreeAsks(), [Ask(3.0)]);
  }

  lemma ListsWorst(data: seq<Order>)
    requires data == [Ask(3.0)]
    ensures PricesOn(data, Sell) == [3.0] && PricesOn(data, Buy) == []
  {
    assert data == [] + [Ask(3.0)];
    PricesOnSnoc([], Ask(3.0), Sell);
    PricesOnSnoc([], Ask(3.0), Buy);
  }

  lemma KeepsWorst(b: Book, data: seq<Order>)
    requires Inv(b) && b.asks == [3.0, 2.0, 1.0] && b.bids == [] && data == [Ask(3.0)]
    requires PricesOn(data, Sell) == [3.0] && PricesOn(data, Buy) == []
    ensures Mergeable(b, data) && Yields(b, data, [1.0, 2.0]) && Yields(b, data, [2.0, 1.0])
  {
    assert DeletedPrices(b, data) == {1.0, 2.0};
    assert 3.0 in b.asks && 2.0 in b.asks && 1.0 in b.asks && 3.0 in PricesOn(data, Sell);
    assert Elements([1.0, 2.0]) == {1.0, 2.0} && Elements([2.0, 1.0]) == {1.0, 2.0};
  }

  lemma RunOfTwo(b: Book, p: Price, q: Price)
    requires Inv(b) && p in b.orders && q in b.orders
    ensures NoLateDelete(b, Lookup(b.orders, [p, q]), 1) <==> TimelyAmong(b, {}, p, 1) && TimelyAmong(b, {p}, q, 1)
  {
    assert Elements([]) == {} && Elements([p]) == {p};
    assert [p, q] == [p] + [q] && [p] == [] + [p];
    RunLateIff(b, [], p, [p], 1);
    RunLateIff(b, [p], q, [p, q], 1);
  }

  lemma RanksOfThree(b: Book)
    requires Inv(b) && b.asks == [3.0, 2.0, 1.0]
    ensures 1.0 in b.orders && 2.0 in b.orders
    ensures TimelyAmong(b, {}, 1.0, 1) && !TimelyAmong(b, {1.0}, 2.0, 1)
    ensures TimelyAmong(b, {}, 2.0, 1) && TimelyAmong(b, {2.0}, 1.0, 1)
  {
    assert 1.0 in b.asks && 2.0 in b.asks;
    assert Better(b.asks, 1.0, true) == {};
    assert Better(b.asks, 2.0, true) == {1.0};
    assert {1.0} - {1.0} == {};
  }
}
