/** Messages that fail part of the way: applyData keeps the orders before the one it refuses, and what the
    refused order did to the price map, but publishes nothing.  A reader who was told nothing is still in
    step exactly when none of this can be seen in its view. */
module FailedDeltas {
  import opened PriceLists
  import opened OrderBooks
  import opened DepthViews
  import opened DepthStreams

  // ---------------------------------------------------------------- where a message fails

  /** Order i of a message can be applied.  A caller can tell from the book and the message. */
  ghost predicate Good(b: Book, action: Action, data: seq<Order>, i: nat)
    requires i < |data|
  {
    var ord := data[i];
    match action
    case Insert => ord.side.Known() && ord.price !in b.orders && ord.price !in PricesOf(data[..i])
    case Delete => ord.price in b.orders && b.orders[ord.price].side == ord.side && ord.price !in PricesOf(data[..i])
    case Update => ord.price in b.orders && b.orders[ord.price].side == ord.side
    case _ => false
  }

  /** The first order from `from` on that cannot be applied. */
  ghost function FirstBad(b: Book, action: Action, data: seq<Order>, from: nat): (n: nat)
    requires from <= |data|
    ensures from <= n <= |data|
    ensures forall i :: from <= i < n ==> Good(b, action, data, i)
    ensures n < |data| ==> !Good(b, action, data, n)
    decreases |data| - from
  {
    if from == |data| || !Good(b, action, data, from) then from else FirstBad(b, action, data, from + 1)
  }

  /** What a run of well-formed orders leaves in the map. */
  ghost predicate Ran(b: Book, action: Action, data: seq<Order>, c: Book) {
    match action
    case Insert =>
      && c.orders.Keys == b.orders.Keys + PricesOf(data) && PricesOf(data) !! b.orders.Keys
      && (forall p :: p in b.orders ==> c.orders[p] == b.orders[p])
      && forall i :: 0 <= i < |data| ==> data[i].price in c.orders && c.orders[data[i].price] == data[i]
    case Delete => c.orders == b.orders - PricesOf(data)
    case Update =>
      && c.orders.Keys == b.orders.Keys && c.asks == b.asks && c.bids == b.bids
      && forall p :: p in b.orders ==> c.orders[p] == b.orders[p].(size := LastSize(data, p, b.orders[p].size))
    case _ => false
  }

  /** The size that the last order of a price gives it. */
  function LastSize(data: seq<Order>, p: Price, size: Size): Size
    decreases |data|
  {
    if data == [] then size
    else if data[|data| - 1].price == p then data[|data| - 1].size
    else LastSize(data[..|data| - 1], p, size)
  }

  lemma {:induction false} RunLeaves(b: Book, action: Action, data: seq<Order>)
    requires Inv(b) && WellFormedAll(b, action, data)
    ensures Ran(b, action, data, ApplyOrders(b, action, data).0)
    decreases |data|
  {
    if data == [] {
      assert PricesOf(data) == {};
    } else {
      var front, ord := data[..|data| - 1], data[|data| - 1];
      RunLeaves(b, action, front);
      OrdersKeepInv(b, action, front);
      PricesOfSnoc(data);
      RanOneMore(b, action, front, ord, data, ApplyOrders(b, action, front).0);
    }
  }

  lemma RanOneMore(b: Book, action: Action, front: seq<Order>, ord: Order, data: seq<Order>, c: Book)
    requires data != [] && front == data[..|data| - 1] && ord == data[|data| - 1]
    requires Inv(c) && Ran(b, action, front, c) && WellFormed(c, action, ord) && PricesOf(data) == PricesOf(front) + {ord.price}
    ensures Ran(b, action, data, ApplyOrder(c, action, ord).book)
  {
    match action
    case Insert => RanOneInsert(b, front, ord, data, c);
    case Delete => DropTwice(b.orders, PricesOf(front), ord.price);
    case Update =>
      assert ord.price in c.Prices(ord.side);
      RanOneUpdate(b, front, ord, data, c);
  }

  lemma RanOneInsert(b: Book, front: seq<Order>, ord: Order, data: seq<Order>, c: Book)
    requires data != [] && front == data[..|data| - 1] && ord == data[|data| - 1]
    requires Ran(b, Insert, front, c) && WellFormed(c, Insert, ord) && PricesOf(data) == PricesOf(front) + {ord.price}
    ensures Ran(b, Insert, data, InsertOrder(c, ord).book)
  {
    var d := InsertOrder(c, ord).book;
    assert d.orders == c.orders[ord.price := ord];
    forall i | 0 <= i < |data| ensures data[i].price in d.orders && d.orders[data[i].price] == data[i] {
      if i < |front| {
        assert front[i] == data[i];
      }
    }
  }

  lemma RanOneUpdate(b: Book, front: seq<Order>, ord: Order, data: seq<Order>, c: Book)
    requires data != [] && front == data[..|data| - 1] && ord == data[|data| - 1]
    requires Ran(b, Update, front, c) && WellFormed(c, Update, ord) && Sorted(c.Prices(ord.side), ord.side.Sell?)
    requires ord.price in c.Prices(ord.side)
    ensures Ran(b, Update, data, UpdateOrder(c, ord).book)
  {
  }

  /** An order is refused in its turn exactly when the caller could tell. */
  lemma GoodIsWellFormed(b: Book, action: Action, data: seq<Order>, i: nat)
    requires Inv(b) && i < |data| && WellFormedAll(b, action, data[..i])
    requires Safe(ApplyOrders(b, action, data[..i]).0, action, data[i])
    ensures Good(b, action, data, i) <==> WellFormed(ApplyOrders(b, action, data[..i]).0, action, data[i])
  {
    var c, ord := ApplyOrders(b, action, data[..i]).0, data[i];
    OrdersKeepInv(b, action, data[..i]);
    RunLeaves(b, action, data[..i]);
    OrderErrorIff(c, action, ord);
    if action.Delete? && ord.price in c.orders && c.orders[ord.price].side == ord.side {
      assert ord.price in c.Prices(ord.side);
    }
  }

  lemma {:induction false} GoodRun(b: Book, action: Action, data: seq<Order>, n: nat)
    requires Inv(b) && action.Delta() && SafeAll(b, action, data) && n <= |data|
    requires forall i :: 0 <= i < n ==> Good(b, action, data, i)
    ensures WellFormedAll(b, action, data[..n])
    decreases n
  {
    if n > 0 {
      GoodRun(b, action, data, n - 1);
      assert data[..n][..n - 1] == data[..n - 1];
      OrdersKeepInv(b, action, data[..n - 1]);
      NextSafe(b, action, data, n - 1);
      GoodIsWellFormed(b, action, data, n - 1);
    }
  }

  /** A message is well formed exactly when all of its orders are good; otherwise it ends with what the
      first bad order leaves. */
  lemma FailsAtFirstBad(b: Book, action: Action, data: seq<Order>)
    requires Inv(b) && action.Delta() && SafeAll(b, action, data)
    ensures var n := FirstBad(b, action, data, 0);
      && WellFormedAll(b, action, data[..n])
      && (n == |data| <==> WellFormedAll(b, action, data))
      && (n < |data| ==>
            var r := ApplyOrder(ApplyOrders(b, action, data[..n]).0, action, data[n]);
            r.err != NoError && ApplyOrders(b, action, data) == (r.book, r.err))
  {
    var n := FirstBad(b, action, data, 0);
    GoodRun(b, action, data, n);
    if n == |data| {
      assert data[..n] == data;
    } else {
      RefusedAt(b, action, data, n);
      MessageErrorIff(b, action, data);
    }
  }

  lemma RefusedAt(b: Book, action: Action, data: seq<Order>, n: nat)
    requires Inv(b) && SafeAll(b, action, data) && n < |data|
    requires WellFormedAll(b, action, data[..n]) && !Good(b, action, data, n)
    ensures var r := ApplyOrder(ApplyOrders(b, action, data[..n]).0, action, data[n]);
      r.err != NoError && ApplyOrders(b, action, data) == (r.book, r.err)
  {
    var c := ApplyOrders(b, action, data[..n]).0;
    OrdersKeepInv(b, action, data[..n]);
    NextSafe(b, action, data, n);
    GoodIsWellFormed(b, action, data, n);
    OrderErrorIff(c, action, data[n]);
    assert data[..n + 1][..n] == data[..n];
    assert ApplyOrders(b, action, data[..n + 1]) == (ApplyOrder(c, action, data[n]).book, ApplyOrder(c, action, data[n]).err);
    ErrorStops(b, action, data, n + 1);
  }

  // ---------------------------------------------------------------- what can be seen of it

  /** Nothing that a failed message did can be seen at a depth; n is its first bad order.  On channel 0
      an insert must be refused at once, for a price that is cached.  Below that no applied insert may
      rank within the limit.  No order up to the refused one may delete from the view, and every order in
      view must end up with the size it had. */
  ghost predicate Unseen(depth: nat, b: Book, action: Action, data: seq<Order>, n: nat)
    requires n < |data|
  {
    match action
    case Insert =>
      if depth == 0 then data[0].price in b.orders
      else forall i :: 0 <= i < n ==> Rank(b, data[i].side, data[i].price) > depth
    case Delete => PricesOf(data[..n + 1]) !! ViewOf(b, depth).Keys
    case Update =>
      forall p :: p in ViewOf(b, depth) && p in b.orders ==> LastSize(data[..n], p, b.orders[p].size) == b.orders[p].size
    case _ => true
  }

  /** What a refused order leaves: handleInsert caches an order of an unknown side, and handleDelete drops
      the price from the map. */
  lemma RefusedLeaves(c: Book, action: Action, ord: Order)
    requires Inv(c) && action.Delta() && Safe(c, action, ord) && !WellFormed(c, action, ord)
    ensures var d := ApplyOrder(c, action, ord).book;
      && d.asks == c.asks && d.bids == c.bids
      && d.orders ==
        match action
        case Insert => if ord.price in c.orders then c.orders else c.orders[ord.price := ord]
        case Delete => c.orders - {ord.price}
        case _ => c.orders
  {
    if action.Delete? && ord.price in c.orders && ord.side.Known() {
      if c.orders[ord.price].side == ord.side {
        assert ord.price in c.Prices(ord.side);
        OrderErrorIff(c, action, ord);
      } else {
        assert ord.price !in c.Prices(ord.side);
      }
    }
  }

  /** A change of the map at a price that is not in view. */
  lemma ViewElsewhere(c: Book, d: Book, at: Price, depth: nat)
    requires d.asks == c.asks && d.bids == c.bids && d.orders - {at} == c.orders - {at} && depth > 0
    requires at !in Top(c.asks, depth) && at !in Top(c.bids, depth)
    ensures ViewOf(d, depth) == ViewOf(c, depth)
  {
    RestrictElsewhere(c.orders, d.orders, Top(c.asks, depth), at);
    RestrictElsewhere(c.orders, d.orders, Top(c.bids, depth), at);
  }

  // A view is made of cached orders.

  lemma ViewEntries(b: Book, depth: nat)
    ensures forall p :: p in ViewOf(b, depth) ==> p in b.orders && ViewOf(b, depth)[p] == b.orders[p]
  {
  }

  lemma ViewPrices(b: Book, d: Book, depth: nat)
    requires d.asks == b.asks && d.bids == b.bids && d.orders.Keys == b.orders.Keys
    ensures ViewOf(d, depth).Keys == ViewOf(b, depth).Keys
  {
  }

  // ---------------------------------------------------------------- deletes

  lemma {:induction false} DeletesOutOfView(b: Book, data: seq<Order>, depth: nat)
    requires Inv(b) && WellFormedAll(b, Delete, data) && depth > 0
    requires PricesOf(data) !! ViewOf(b, depth).Keys
    ensures ViewOf(ApplyOrders(b, Delete, data).0, depth) == ViewOf(b, depth)
    decreases |data|
  {
    if data != [] {
      var front, ord := data[..|data| - 1], data[|data| - 1];
      PricesOfSnoc(data);
      DeletesOutOfView(b, front, depth);
      OrdersKeepInv(b, Delete, front);
      DeleteView(ApplyOrders(b, Delete, front).0, ord, depth);
    }
  }

  lemma DropsSeen(b: Book, d: Book, dropped: set<Price>, depth: nat)
    requires d.orders == b.orders - dropped
    ensures !(dropped !! ViewOf(b, depth).Keys) ==> ViewOf(d, depth) != ViewOf(b, depth)
    ensures depth == 0 && dropped !! ViewOf(b, depth).Keys ==> ViewOf(d, depth) == ViewOf(b, depth)
  {
    ViewEntries(d, depth);
    if p :| p in dropped && p in ViewOf(b, depth) {
      assert p !in ViewOf(d, depth);
    }
  }

  lemma RefusedDeleteOutOfView(c: Book, d: Book, p: Price, depth: nat)
    requires d.asks == c.asks && d.bids == c.bids && d.orders == c.orders - {p} && depth > 0
    requires p !in ViewOf(c, depth)
    ensures ViewOf(d, depth) == ViewOf(c, depth)
  {
    if p in c.orders {
      assert d.orders - {p} == c.orders - {p};
      ViewElsewhere(c, d, p, depth);
    } else {
      assert d.orders == c.orders;
    }
  }

  lemma FailedDelete(depth: nat, b: Book, data: seq<Order>, n: nat, c: Book, d: Book)
    requires Inv(b) && n < |data| && WellFormedAll(b, Delete, data[..n])
    requires c == ApplyOrders(b, Delete, data[..n]).0 && d == ApplyOrder(c, Delete, data[n]).book
    requires Safe(c, Delete, data[n]) && !WellFormed(c, Delete, data[n])
    ensures ViewOf(d, depth) == ViewOf(b, depth) <==> Unseen(depth, b, Delete, data, n)
  {
    var front, ord, upto := data[..n], data[n], data[..n + 1];
    assert upto[..n] == front && upto[n] == ord;
    OrdersKeepInv(b, Delete, front);
    DeletesLeave(b, front);
    RefusedLeaves(c, Delete, ord);
    PricesOfSnoc(upto);
    DropTwice(b.orders, PricesOf(front), ord.price);
    DropsSeen(b, d, PricesOf(upto), depth);
    if depth > 0 && PricesOf(upto) !! ViewOf(b, depth).Keys {
      FailedDeleteUnseen(b, front, c, d, ord, PricesOf(upto), depth);
    }
  }

  lemma FailedDeleteUnseen(b: Book, front: seq<Order>, c: Book, d: Book, ord: Order, dropped: set<Price>, depth: nat)
    requires Inv(b) && WellFormedAll(b, Delete, front) && c == ApplyOrders(b, Delete, front).0 && depth > 0
    requires d.asks == c.asks && d.bids == c.bids && d.orders == c.orders - {ord.price}
    requires dropped == PricesOf(front) + {ord.price} && dropped !! ViewOf(b, depth).Keys
    ensures ViewOf(d, depth) == ViewOf(b, depth)
  {
    DeletesOutOfView(b, front, depth);
    RefusedDeleteOutOfView(c, d, ord.price, depth);
  }

  // ---------------------------------------------------------------- updates

  lemma SizesSeen(b: Book, d: Book, front: seq<Order>, depth: nat)
    requires d.asks == b.asks && d.bids == b.bids && d.orders.Keys == b.orders.Keys
    requires forall p :: p in b.orders ==> d.orders[p] == b.orders[p].(size := LastSize(front, p, b.orders[p].size))
    ensures ViewOf(d, depth) == ViewOf(b, depth) <==>
      forall p :: p in ViewOf(b, depth) && p in b.orders ==> LastSize(front, p, b.orders[p].size) == b.orders[p].size
  {
    ViewEntries(b, depth);
    ViewEntries(d, depth);
    ViewPrices(b, d, depth);
    SameEntries(ViewOf(b, depth), ViewOf(d, depth));
  }

  lemma SameEntries(v: View, w: View)
    requires v.Keys == w.Keys
    ensures w == v <==> forall p :: p in v ==> w[p] == v[p]
  {
    assert forall p :: p in v.Keys <==> p in w.Keys;
    if forall p :: p in v ==> w[p] == v[p] {
      assert w == v;
    }
  }

  lemma FailedUpdate(depth: nat, b: Book, data: seq<Order>, n: nat, c: Book, d: Book)
    requires Inv(b) && n < |data| && WellFormedAll(b, Update, data[..n])
    requires c == ApplyOrders(b, Update, data[..n]).0 && d == ApplyOrder(c, Update, data[n]).book
    requires !WellFormed(c, Update, data[n])
    ensures ViewOf(d, depth) == ViewOf(b, depth) <==> Unseen(depth, b, Update, data, n)
  {
    OrdersKeepInv(b, Update, data[..n]);
    RunLeaves(b, Update, data[..n]);
    RefusedLeaves(c, Update, data[n]);
    SizesSeen(b, d, data[..n], depth);
  }

  // ---------------------------------------------------------------- inserts

  lemma SubsetSize<T>(s: set<T>, t: set<T>)
    requires s <= t
    ensures |s| <= |t|
  {
    assert t == s + (t - s);
  }

  /** Inserts only push an order down. */
  lemma RanksGrow(b: Book, data: seq<Order>, side: Side, p: Price)
    requires Inv(b) && WellFormedAll(b, Insert, data) && side.Known()
    ensures Rank(b, side, p) <= Rank(ApplyOrders(b, Insert, data).0, side, p)
  {
    var c := ApplyOrders(b, Insert, data).0;
    OrdersKeepInv(b, Insert, data);
    RunLeaves(b, Insert, data);
    assert forall q :: q in b.Prices(side) ==> q in c.Prices(side) by {
      assert forall q :: q in b.Prices(side) ==> q in b.orders && q in c.orders;
    }
    SubsetSize(Better(b.Prices(side), p, side.Sell?), Better(c.Prices(side), p, side.Sell?));
  }

  lemma {:induction false} InsertsOutOfView(b: Book, data: seq<Order>, depth: nat)
    requires Inv(b) && WellFormedAll(b, Insert, data) && depth > 0
    requires forall i :: 0 <= i < |data| ==> Rank(b, data[i].side, data[i].price) > depth
    ensures ViewOf(ApplyOrders(b, Insert, data).0, depth) == ViewOf(b, depth)
    decreases |data|
  {
    if data != [] {
      var front, ord := data[..|data| - 1], data[|data| - 1];
      var c := ApplyOrders(b, Insert, front).0;
      InsertsOutOfView(b, front, depth);
      OrdersKeepInv(b, Insert, front);
      RanksGrow(b, data, ord.side, ord.price);
      DepthIsRank(c, Insert, ord);
      InsertView(c, ord, depth);
    }
  }

  /** The best `depth` prices of a list that are all better than p. */
  lemma BestAbove(l: seq<Price>, reverse: bool, k: nat, depth: nat)
    requires Sorted(l, reverse) && k < |l| && 0 < depth < |l| - k
    ensures var t := l[|l| - depth];
      var best := Better(l, t, reverse) + {t};
      && |best| == depth
      && forall q :: q in best ==> q in l && Before(reverse, l[k], q) && 1 + |Better(l, q, reverse)| <= depth
  {
    var t := l[|l| - depth];
    RankCountsBetter(l, reverse, |l| - depth);
    var best := Better(l, t, reverse) + {t};
    assert t !in Better(l, t, reverse);
    forall q | q in best ensures q in l && Before(reverse, l[k], q) && 1 + |Better(l, q, reverse)| <= depth {
      SubsetSize(Better(l, q, reverse), Better(l, t, reverse));
    }
  }

  /** An order that would rank within the limit changes the view for good: whatever was inserted besides,
      the best orders are not all old ones. */
  lemma InsertSeen(b: Book, c: Book, side: Side, p: Price, depth: nat)
    requires Inv(b) && Inv(c) && side.Known() && depth > 0
    requires p in c.Prices(side) && p !in b.orders && Rank(b, side, p) <= depth
    ensures ViewOf(c, depth) != ViewOf(b, depth)
  {
    if ViewOf(c, depth) == ViewOf(b, depth) {
      var l := c.Prices(side);
      var k: nat :| k < |l| && l[k] == p;
      ViewEntries(b, depth);
      InViewIsRank(c, side, p, depth);
      RankCountsBetter(l, side.Sell?, k);
      BestAreOld(b, c, side, k, depth);
    }
  }

  lemma BestAreOld(b: Book, c: Book, side: Side, k: nat, depth: nat)
    requires Inv(b) && Inv(c) && side.Known() && ViewOf(c, depth) == ViewOf(b, depth)
    requires k < |c.Prices(side)| && 0 < depth < |c.Prices(side)| - k
    ensures depth < Rank(b, side, c.Prices(side)[k])
  {
    var l := c.Prices(side);
    BestAbove(l, side.Sell?, k, depth);
    var best := Better(l, l[|l| - depth], side.Sell?) + {l[|l| - depth]};
    forall q | q in best ensures q in Better(b.Prices(side), l[k], side.Sell?) {
      BestIsOld(b, c, side, q, depth);
    }
    SubsetSize(best, Better(b.Prices(side), l[k], side.Sell?));
  }

  lemma BestIsOld(b: Book, c: Book, side: Side, q: Price, depth: nat)
    requires Inv(b) && Inv(c) && side.Known() && depth > 0 && ViewOf(c, depth) == ViewOf(b, depth)
    requires q in c.Prices(side) && Rank(c, side, q) <= depth
    ensures q in b.Prices(side)
  {
    InViewIsRank(c, side, q, depth);
    ViewEntries(b, depth);
    ViewEntries(c, depth);
    assert c.orders[q].side == side && b.orders[q] == c.orders[q];
  }

  /** The first order tells: if its price is cached nothing is done, otherwise it stays in the map. */
  lemma FirstInsertTells(b: Book, data: seq<Order>, n: nat, c: Book, d: Book)
    requires n < |data| && n == FirstBad(b, Insert, data, 0)
    requires c == ApplyOrders(b, Insert, data[..n]).0 && Ran(b, Insert, data[..n], c)
    requires d.orders == if data[n].price in c.orders then c.orders else c.orders[data[n].price := data[n]]
    ensures d.orders == b.orders <==> data[0].price in b.orders
  {
    if n == 0 {
      assert data[..0] == [];
    } else {
      assert Good(b, Insert, data, 0);
      assert data[..n][0].price in c.orders;
      assert data[0].price in d.orders;
    }
  }

  lemma RefusedInsertOutOfView(c: Book, d: Book, ord: Order, depth: nat)
    requires Inv(c) && d.asks == c.asks && d.bids == c.bids && depth > 0
    requires d.orders == if ord.price in c.orders then c.orders else c.orders[ord.price := ord]
    ensures ViewOf(d, depth) == ViewOf(c, depth)
  {
    if ord.price !in c.orders {
      assert d.orders - {ord.price} == c.orders - {ord.price};
      InTop(c.asks, ord.price, depth);
      InTop(c.bids, ord.price, depth);
      ViewElsewhere(c, d, ord.price, depth);
    }
  }

  lemma FailedInsert(depth: nat, b: Book, data: seq<Order>, n: nat, c: Book, d: Book)
    requires Inv(b) && n < |data| && WellFormedAll(b, Insert, data[..n]) && n == FirstBad(b, Insert, data, 0)
    requires c == ApplyOrders(b, Insert, data[..n]).0 && d.asks == c.asks && d.bids == c.bids
    requires d.orders == if data[n].price in c.orders then c.orders else c.orders[data[n].price := data[n]]
    ensures ViewOf(d, depth) == ViewOf(b, depth) <==> Unseen(depth, b, Insert, data, n)
  {
    var front := data[..n];
    if depth == 0 {
      RunLeaves(b, Insert, front);
      FirstInsertTells(b, data, n, c, d);
    } else {
      OrdersKeepInv(b, Insert, front);
      RefusedInsertOutOfView(c, d, data[n], depth);
      AppliedInserts(b, front, c, depth);
      assert forall i :: 0 <= i < n ==> front[i] == data[i];
    }
  }

  lemma AppliedInserts(b: Book, front: seq<Order>, c: Book, depth: nat)
    requires Inv(b) && WellFormedAll(b, Insert, front) && c == ApplyOrders(b, Insert, front).0 && depth > 0
    ensures ViewOf(c, depth) == ViewOf(b, depth) <==>
      forall i :: 0 <= i < |front| ==> Rank(b, front[i].side, front[i].price) > depth
  {
    OrdersKeepInv(b, Insert, front);
    RunLeaves(b, Insert, front);
    if forall i :: 0 <= i < |front| ==> Rank(b, front[i].side, front[i].price) > depth {
      InsertsOutOfView(b, front, depth);
    } else {
      var i: nat :| i < |front| && Rank(b, front[i].side, front[i].price) <= depth;
      AppliedInsertSeen(b, c, front, i, depth);
    }
  }

  lemma AppliedInsertSeen(b: Book, c: Book, front: seq<Order>, i: nat, depth: nat)
    requires Inv(b) && Inv(c) && Ran(b, Insert, front, c) && i < |front| && depth > 0
    requires Rank(b, front[i].side, front[i].price) <= depth
    ensures ViewOf(c, depth) != ViewOf(b, depth)
  {
    var ord := front[i];
    assert ord.price in c.orders && c.orders[ord.price] == ord;
    assert ord.price in PricesOf(front);
    InsertSeen(b, c, ord.side, ord.price, depth);
  }

  // ---------------------------------------------------------------- all three

  /** A message that fails leaves the view as it was exactly when nothing it did can be seen. */
  lemma FailedDeltaIff(depth: nat, b: Book, action: Action, data: seq<Order>)
    requires Inv(b) && action.Delta() && SafeAll(b, action, data) && !WellFormedAll(b, action, data)
    ensures var n := FirstBad(b, action, data, 0);
      && n < |data|
      && (ViewOf(ApplyOrders(b, action, data).0, depth) == ViewOf(b, depth) <==> Unseen(depth, b, action, data, n))
  {
    var n := FirstBad(b, action, data, 0);
    FailsAtFirstBad(b, action, data);
    var c := ApplyOrders(b, action, data[..n]).0;
    var d := ApplyOrder(c, action, data[n]).book;
    OrdersKeepInv(b, action, data[..n]);
    NextSafe(b, action, data, n);
    OrderErrorIff(c, action, data[n]);
    if action.Insert? {
      RefusedLeaves(c, Insert, data[n]);
      FailedInsert(depth, b, data, n, c, d);
    } else if action.Delete? {
      FailedDelete(depth, b, data, n, c, d);
    } else {
      FailedUpdate(depth, b, data, n, c, d);
    }
  }

  // ---------------------------------------------------------------- and when the book stays consistent

  /** The refused order of a message that fails leaves the four forms in agreement. */
  ghost predicate Clean(b: Book, action: Action, data: seq<Order>, n: nat)
    requires n < |data|
  {
    var ord := data[n];
    match action
    case Insert => ord.side.Known() || ord.price in b.orders || ord.price in PricesOf(data[..n])
    case Delete => ord.price !in b.orders || ord.price in PricesOf(data[..n])
    case Update => !ResizesEmpty(b, ord)
    case _ => true
  }

  /** A message keeps the book consistent if and only if it is well formed or its refused order is clean. */
  lemma MessageInvIff(b: Book, action: Action, data: seq<Order>)
    requires Inv(b) && action.Delta() && SafeAll(b, action, data)
    ensures var n := FirstBad(b, action, data, 0);
      Inv(ApplyOrders(b, action, data).0) <==> n == |data| || Clean(b, action, data, n)
  {
    var n := FirstBad(b, action, data, 0);
    FailsAtFirstBad(b, action, data);
    if n == |data| {
      OrdersKeepInv(b, action, data);
    } else {
      var c := ApplyOrders(b, action, data[..n]).0;
      OrdersKeepInv(b, action, data[..n]);
      RunLeaves(b, action, data[..n]);
      NextSafe(b, action, data, n);
      OrderErrorIff(c, action, data[n]);
      RefusedInvIff(b, c, action, data, n);
    }
  }

  lemma RefusedInvIff(b: Book, c: Book, action: Action, data: seq<Order>, n: nat)
    requires Inv(b) && Inv(c) && action.Delta() && n < |data| && Ran(b, action, data[..n], c)
    requires Safe(c, action, data[n]) && !WellFormed(c, action, data[n])
    ensures Inv(ApplyOrder(c, action, data[n]).book) <==> Clean(b, action, data, n)
  {
    var ord := data[n];
    if action.Insert? {
      InsertInvIff(c, ord);
    } else if action.Delete? {
      DeleteInvIff(c, ord);
      OrderErrorIff(c, action, ord);
    } else {
      UpdateInvIff(c, ord);
    }
  }
}
