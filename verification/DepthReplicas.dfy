/** A replica of a depth channel: the client of this repository keeps a cache of its own for each table it
    reads, and for a depth-limited table that cache should be the best levels of the server's book. */
module DepthReplicas {
  import opened PriceLists
  import opened OrderBooks
  import opened DepthViews
  import opened DepthStreams
  import opened Snapshots
  import opened Merging
  import opened FailedDeltas
  import opened MergeOrders
  import opened Emissions
  import opened Replicas
  import opened Wrappers

  // ---------------------------------------------------------------- the best levels are a book

  lemma TopSorted(l: seq<Price>, reverse: bool, limit: nat)
    requires Sorted(l, reverse)
    ensures Sorted(Top(l, limit), reverse)
  {
  }

  lemma TopMembers(l: seq<Price>, limit: nat)
    ensures forall p :: p in Top(l, limit) ==> p in l
  {
  }

  lemma TrimQuote(l: seq<Price>, orders: map<Price, Order>, v: View, limit: nat)
    requires limit > 0 && forall p :: p in Top(l, limit) ==> p in v && p in orders && v[p] == orders[p]
    ensures LastQuote(Top(l, limit), v) == LastQuote(l, orders)
  {
    var t := Top(l, limit);
    if l != [] {
      assert t[|t| - 1] == l[|l| - 1] && t[|t| - 1] in t;
    }
  }

  lemma TrimSide(b: Book, side: Side, limit: nat)
    requires Inv(b) && side.Known() && limit > 0
    ensures SideInv(Top(b.Prices(side), limit), side, ViewOf(b, limit), b.BestQuote(side))
  {
    TopSorted(b.Prices(side), side.Sell?, limit);
    TrimLists(b, side, limit);
    TopMembers(b.Prices(side), limit);
    ViewEntries(b, limit);
    TrimQuote(b.Prices(side), b.orders, ViewOf(b, limit), limit);
  }

  lemma TrimLists(b: Book, side: Side, limit: nat)
    requires Inv(b) && side.Known() && limit > 0
    ensures Lists(Top(b.Prices(side), limit), side, ViewOf(b, limit))
  {
    TopMembers(b.asks, limit);
    TopMembers(b.bids, limit);
    ViewEntries(b, limit);
  }

  /** The best levels of a consistent book are a consistent book. */
  lemma TrimInv(b: Book, limit: nat)
    requires Inv(b) && limit > 0
    ensures Inv(Trim(b, limit)) && Trim(b, limit).orders == ViewOf(b, limit)
  {
    TrimSide(b, Sell, limit);
    TrimSide(b, Buy, limit);
    ViewEntries(b, limit);
  }

  // ---------------------------------------------------------------- what a pair of responses names

  /** The in-view orders come from the message. */
  lemma {:induction false} PrimaryFrom(b: Book, action: Action, data: seq<Order>, limit: nat)
    requires limit > 0
    ensures var l := LimitOrders(b, action, data, limit);
      (forall ord :: ord in l.primary ==> ord in data) && (DistinctPrices(data) ==> DistinctPrices(l.primary))
    decreases |data|
  {
    if data != [] {
      var front, ord := data[..|data| - 1], data[|data| - 1];
      var l := LimitOrders(b, action, front, limit);
      assert data == front + [ord];
      PrimaryFrom(b, action, front, limit);
      if DistinctPrices(data) {
        LastDiffers(data);
        forall o | o in l.primary ensures o.price != ord.price {
          PriceIn(front, o);
        }
      }
    }
  }

  lemma PriceIn(data: seq<Order>, ord: Order)
    requires ord in data
    ensures ord.price in PricesOf(data)
  {
    var i :| 0 <= i < |data| && data[i] == ord;
    assert data[i].price == ord.price;
  }

  /** Every order of a well-formed message is good, and an insert or a delete names no price twice. */
  lemma AllGood(b: Book, action: Action, data: seq<Order>)
    requires Inv(b) && action.Delta() && WellFormedAll(b, action, data)
    ensures forall i :: 0 <= i < |data| ==> Good(b, action, data, i)
    ensures !action.Update? ==> DistinctPrices(data)
  {
    WellFormedIsSafe(b, action, data);
    FailsAtFirstBad(b, action, data);
    if !action.Update? {
      forall i, j | 0 <= i < j < |data| ensures data[i].price != data[j].price {
        assert Good(b, action, data, j);
        assert data[..j][i].price in PricesOf(data[..j]);
      }
    }
  }

  /** The makeup orders are cached, each as it was sent. */
  ghost predicate AreCached(orders: map<Price, Order>, data: seq<Order>) {
    forall ord :: ord in data ==> ord.price in orders && orders[ord.price] == ord
  }

  lemma {:induction false} InsertMakeup(b: Book, data: seq<Order>, limit: nat)
    requires Inv(b) && WellFormedAll(b, Insert, data) && limit > 0
    ensures AreCached(ApplyOrders(b, Insert, data).0.orders, LimitOrders(b, Insert, data, limit).makeup)
    decreases |data|
  {
    if data != [] {
      var front, ord := data[..|data| - 1], data[|data| - 1];
      InsertMakeup(b, front, limit);
      OrdersKeepInv(b, Insert, front);
      OneMoreCached(LimitOrders(b, Insert, front, limit), ApplyOrders(b, Insert, front).0, ord, limit);
    }
  }

  lemma OneMoreCached(l: Limited, c: Book, ord: Order, limit: nat)
    requires Inv(c) && WellFormed(c, Insert, ord) && limit > 0 && AreCached(c.orders, l.makeup)
    ensures var r := InsertOrder(c, ord);
      AreCached(r.book.orders, LimitOrder(l, r, Insert, ord, limit).makeup)
  {
    var r := InsertOrder(c, ord);
    InsertKeepsInv(c, ord);
    InsertReply(c, ord);
    OnDepthPrice(r.book, ord.side, limit + 1);
  }

  /** The makeup orders of deletes were cached before, are all different, and stay in view until they are
      deleted. */
  ghost predicate Entered(b: Book, makeup: seq<Order>, c: Book, limit: nat) {
    && AreCached(b.orders, makeup) && DistinctPrices(makeup)
    && forall ord :: ord in makeup && ord.price in c.orders ==> ord.price in ViewOf(c, limit)
  }

  lemma {:induction false} DeleteMakeup(b: Book, data: seq<Order>, limit: nat)
    requires Inv(b) && WellFormedAll(b, Delete, data) && limit > 0
    ensures Entered(b, LimitOrders(b, Delete, data, limit).makeup, ApplyOrders(b, Delete, data).0, limit)
    decreases |data|
  {
    if data != [] {
      var front, ord := data[..|data| - 1], data[|data| - 1];
      DeleteMakeup(b, front, limit);
      OrdersKeepInv(b, Delete, front);
      DeletesLeave(b, front);
      OneMoreEntered(b, LimitOrders(b, Delete, front, limit), ApplyOrders(b, Delete, front).0, ord, limit);
    }
  }

  lemma OneMoreEntered(b: Book, l: Limited, c: Book, ord: Order, limit: nat)
    requires Inv(c) && WellFormed(c, Delete, ord) && limit > 0 && Entered(b, l.makeup, c, limit)
    requires forall p :: p in c.orders ==> p in b.orders && b.orders[p] == c.orders[p]
    ensures var r := DeleteOrder(c, ord);
      Entered(b, LimitOrder(l, r, Delete, ord, limit).makeup, r.book, limit)
  {
    DeleteKeepsInv(c, ord);
    var r := DeleteOrder(c, ord);
    if r.depth <= limit {
      DeleteViewKeys(c, ord, limit);
      OnDepthPrice(r.book, ord.side, limit);
      EnteredSnoc(b, l.makeup, OrderOnDepth(r.book, ord.side, limit), c, r.book, ord.price, limit);
    } else {
      DeleteView(c, ord, limit);
    }
  }

  lemma EnteredSnoc(b: Book, makeup: seq<Order>, enter: Option<Order>, c: Book, d: Book, p: Price, limit: nat)
    requires Entered(b, makeup, c, limit) && d.orders.Keys == c.orders.Keys - {p}
    requires ViewOf(d, limit).Keys == ViewOf(c, limit).Keys - {p} + Entering(enter)
    requires enter.Some? ==>
      && enter.value.price in d.orders && enter.value.price !in ViewOf(c, limit)
      && enter.value.price in b.orders && b.orders[enter.value.price] == enter.value
    ensures Entered(b, if enter.Some? then makeup + [enter.value] else makeup, d, limit)
  {
    var more := if enter.Some? then makeup + [enter.value] else makeup;
    forall ord | ord in more ensures ord in makeup || (enter.Some? && ord == enter.value) {
    }
    forall ord | ord in makeup && ord.price in d.orders ensures ord.price in ViewOf(d, limit) {
      assert ord.price in d.orders.Keys && ord.price in c.orders.Keys;
    }
    forall ord | ord in makeup && enter.Some? ensures ord.price != enter.value.price {
      assert enter.value.price in d.orders.Keys;
    }
  }

  // ---------------------------------------------------------------- when the replica can apply them

  /** The order is cached on its own side. */
  ghost predicate OnSide(t: Book, ord: Order) {
    ord.price in t.orders && t.orders[ord.price].side == ord.side
  }

  /** The list is empty, or keeps a price that is not dropped. */
  ghost predicate Spares(prices: seq<Price>, dropped: set<Price>) {
    prices != [] ==> exists p :: p in prices && p !in dropped
  }

  lemma {:induction false} DeletesFit(t: Book, data: seq<Order>)
    requires Inv(t) && DistinctPrices(data) && Spares(t.asks, PricesOf(data)) && Spares(t.bids, PricesOf(data))
    requires forall ord :: ord in data ==> OnSide(t, ord)
    ensures WellFormedAll(t, Delete, data)
    decreases |data|
  {
    if data != [] {
      var front, ord := data[..|data| - 1], data[|data| - 1];
      LastDiffers(data);
      PricesOfSnoc(data);
      DeletesFit(t, front);
      OrdersKeepInv(t, Delete, front);
      DeletesLeave(t, front);
      DeleteFits(t, front, ord, ApplyOrders(t, Delete, front).0);
    }
  }

  lemma DeleteFits(t: Book, front: seq<Order>, ord: Order, c: Book)
    requires Inv(t) && Inv(c) && c.orders == t.orders - PricesOf(front) && OnSide(t, ord) && ord.price !in PricesOf(front)
    requires exists q :: q in t.Prices(ord.side) && q !in PricesOf(front) + {ord.price}
    ensures WellFormed(c, Delete, ord)
  {
    var q :| q in t.Prices(ord.side) && q !in PricesOf(front) + {ord.price};
    assert q in c.orders && ord.price in c.orders;
    assert q in c.Prices(ord.side) && ord.price in c.Prices(ord.side);
  }

  /** Deletes of different cached orders are safe, and go through, exactly when each side keeps one. */
  lemma DeletesSafeIff(t: Book, data: seq<Order>)
    requires Inv(t) && DistinctPrices(data) && forall ord :: ord in data ==> OnSide(t, ord)
    ensures SafeAll(t, Delete, data) <==> Spares(t.asks, PricesOf(data)) && Spares(t.bids, PricesOf(data))
    ensures SafeAll(t, Delete, data) ==> WellFormedAll(t, Delete, data)
  {
    if Spares(t.asks, PricesOf(data)) && Spares(t.bids, PricesOf(data)) {
      DeletesFit(t, data);
      WellFormedIsSafe(t, Delete, data);
    }
    if SafeAll(t, Delete, data) {
      SafeDeletesRun(t, data);
    }
  }

  lemma SafeDeletesRun(t: Book, data: seq<Order>)
    requires Inv(t) && DistinctPrices(data) && (forall ord :: ord in data ==> OnSide(t, ord)) && SafeAll(t, Delete, data)
    ensures WellFormedAll(t, Delete, data) && Spares(t.asks, PricesOf(data)) && Spares(t.bids, PricesOf(data))
  {
    FailsAtFirstBad(t, Delete, data);
    forall i | 0 <= i < |data| ensures Good(t, Delete, data, i) {
      DistinctBefore(data, i);
      assert OnSide(t, data[i]);
    }
    DeletesLeave(t, data);
    OrdersKeepInv(t, Delete, data);
    SafeKeepsSides(t, Delete, data);
    SideSpared(t, ApplyOrders(t, Delete, data).0, Sell, data);
    SideSpared(t, ApplyOrders(t, Delete, data).0, Buy, data);
  }

  lemma DistinctBefore(data: seq<Order>, n: nat)
    requires DistinctPrices(data) && n < |data|
    ensures data[n].price !in PricesOf(data[..n])
  {
  }

  lemma SideSpared(t: Book, c: Book, side: Side, data: seq<Order>)
    requires Inv(t) && Inv(c) && side.Known() && c.orders == t.orders - PricesOf(data) && KeepsSides(t, c)
    ensures Spares(t.Prices(side), PricesOf(data))
  {
    if t.Prices(side) != [] {
      var p := c.Prices(side)[0];
      assert p in c.Prices(side);
      assert p in t.Prices(side) && p !in PricesOf(data);
    }
  }

  lemma {:induction false} UpdatesFit(t: Book, data: seq<Order>)
    requires Inv(t) && forall ord :: ord in data ==> OnSide(t, ord)
    ensures WellFormedAll(t, Update, data)
    decreases |data|
  {
    if data != [] {
      var front, ord := data[..|data| - 1], data[|data| - 1];
      assert data == front + [ord] && OnSide(t, ord);
      UpdatesFit(t, front);
      RunLeaves(t, Update, front);
    }
  }

  // ---------------------------------------------------------------- the replica

  /** What a replica makes of the two responses of one message. */
  ghost function RebuildLimited(r: Replica, action: Action, l: Limited): Replica {
    Rebuild(Rebuild(r, Message(action, l.primary)), Message(if action.Insert? then Delete else Insert, l.makeup))
  }

  lemma RebuildDelta(t: Book, action: Action, data: seq<Order>)
    requires action.Delta()
    ensures Rebuild(Holding(t), Message(action, data)) ==
      if SafeAll(t, action, data) then Holding(ApplyOrders(t, action, data).0) else Failed
  {
  }

  lemma RebuildNothing(r: Replica, action: Action)
    requires action.Delta()
    ensures Rebuild(r, Message(action, [])) == r
  {
    if r.Holding? {
      RebuildDelta(r.book, action, []);
    }
  }

  /** An empty response is not sent, and would change nothing. */
  lemma RebuildSent(r: Replica, depth: nat, msg: Message, l: Limited, c: Book)
    requires depth > 0 && msg.action.Delta()
    ensures RebuildAll(r, Marked(Sent(depth, msg, l), c)) == RebuildLimited(r, msg.action, l)
  {
    var es, flip := Marked(Sent(depth, msg, l), c), if msg.action.Insert? then Delete else Insert;
    RebuildNothing(r, msg.action);
    RebuildNothing(Rebuild(r, Message(msg.action, l.primary)), flip);
    if |es| == 1 {
      assert es[..0] == [];
    } else if |es| == 2 {
      var front := es[..1];
      assert front[..0] == [] && front[0] == es[0];
      assert RebuildAll(r, front) == Rebuild(r, es[0].rsp);
    }
  }

  /** A replica that holds a consistent book with the orders of the view holds the best levels. */
  lemma HoldsTrim(t: Book, c: Book, limit: nat)
    requires Inv(t) && Inv(c) && limit > 0 && t.orders == ViewOf(c, limit)
    ensures t == Trim(c, limit)
  {
    TrimInv(c, limit);
    BookDetermined(t, Trim(c, limit));
  }

  /** Two responses that fit one after the other. */
  lemma FitsTwice(t: Book, action: Action, l: Limited, c: Book, limit: nat)
    requires Inv(t) && Inv(c) && limit > 0 && action.Delta()
    requires WellFormedAll(t, action, l.primary)
    requires var u, flip := ApplyOrders(t, action, l.primary).0, if action.Insert? then Delete else Insert;
      WellFormedAll(u, flip, l.makeup) && PatchAll(u.orders, flip, l.makeup) == Some(ViewOf(c, limit))
    ensures RebuildLimited(Holding(t), action, l) == Holding(Trim(c, limit))
  {
    var u, flip := ApplyOrders(t, action, l.primary).0, if action.Insert? then Delete else Insert;
    WellFormedIsSafe(t, action, l.primary);
    OrdersKeepInv(t, action, l.primary);
    WellFormedIsSafe(u, flip, l.makeup);
    OrdersKeepInv(u, flip, l.makeup);
    RebuildDelta(t, action, l.primary);
    RebuildDelta(u, flip, l.makeup);
    HoldsTrim(ApplyOrders(u, flip, l.makeup).0, c, limit);
  }

  lemma UpdateTrim(b: Book, data: seq<Order>, limit: nat)
    requires Inv(b) && WellFormedAll(b, Update, data) && limit > 0
    ensures RebuildLimited(Holding(Trim(b, limit)), Update, LimitOrders(b, Update, data, limit))
      == Holding(Trim(ApplyOrders(b, Update, data).0, limit))
  {
    var t, l, c := Trim(b, limit), LimitOrders(b, Update, data, limit), ApplyOrders(b, Update, data).0;
    TrimInv(b, limit);
    UpdateBatch(b, data, limit);
    OrdersKeepInv(b, Update, data);
    PrimaryFrom(b, Update, data, limit);
    AllGood(b, Update, data);
    forall ord | ord in l.primary ensures OnSide(t, ord) {
      Named(t.orders, Update, l.primary, ord);
      ViewEntries(b, limit);
      var i :| 0 <= i < |data| && data[i] == ord;
      assert Good(b, Update, data, i);
    }
    UpdatesFit(t, l.primary);
    OrdersKeepInv(t, Update, l.primary);
    FitsTwice(t, Update, l, c, limit);
  }

  /** Updates and deletes that a reader can apply name orders that it has. */
  lemma {:induction false} Named(v: View, action: Action, data: seq<Order>, ord: Order)
    requires PatchAll(v, action, data).Some? && ord in data && (action.Update? || action.Delete?)
    ensures ord.price in v
    ensures PatchAll(v, action, data).value.Keys <= v.Keys
    decreases |data|
  {
    var front, last := data[..|data| - 1], data[|data| - 1];
    assert data == front + [last];
    if front != [] {
      Named(v, action, front, if ord in front then ord else front[0]);
    }
  }

  // ---------------------------------------------------------------- inserts

  /** Deletes that a reader can apply name no price twice. */
  lemma {:induction false} DeletesNamed(v: View, data: seq<Order>)
    requires PatchAll(v, Delete, data).Some?
    ensures DistinctPrices(data) && PatchAll(v, Delete, data).value == v - PricesOf(data)
    decreases |data|
  {
    if data == [] {
      assert PricesOf(data) == {};
    } else {
      var front, ord := data[..|data| - 1], data[|data| - 1];
      DeletesNamed(v, front);
      PricesOfSnoc(data);
      DropTwice(v, PricesOf(front), ord.price);
      forall o | o in front ensures o.price != ord.price {
        PriceIn(front, o);
      }
    }
  }

  /** The in-view inserts of a message, applied to the best levels, leave orders of the new book. */
  lemma PrimaryInserts(b: Book, data: seq<Order>, limit: nat)
    requires Inv(b) && WellFormedAll(b, Insert, data) && limit > 0
    ensures var t, c := Trim(b, limit), ApplyOrders(b, Insert, data).0;
      var primary := LimitOrders(b, Insert, data, limit).primary;
      && Inv(t) && WellFormedAll(t, Insert, primary)
      && forall p :: p in ApplyOrders(t, Insert, primary).0.orders ==>
           p in c.orders && ApplyOrders(t, Insert, primary).0.orders[p] == c.orders[p]
  {
    var t, primary := Trim(b, limit), LimitOrders(b, Insert, data, limit).primary;
    TrimInv(b, limit);
    ViewEntries(b, limit);
    PrimaryFrom(b, Insert, data, limit);
    AllGood(b, Insert, data);
    forall ord | ord in primary ensures ord.side.Known() && ord.price !in b.orders {
      var i :| 0 <= i < |data| && data[i] == ord;
      assert Good(b, Insert, data, i);
    }
    InsertsRun(t, primary);
    InsertsPatch(t.orders, primary);
    OrdersKeepInv(t, Insert, primary);
    RunLeaves(b, Insert, data);
    RunLeaves(t, Insert, primary);
    EntriesAfter(b, t, data, primary, ApplyOrders(b, Insert, data).0, ApplyOrders(t, Insert, primary).0);
  }

  lemma EntriesAfter(b: Book, t: Book, data: seq<Order>, primary: seq<Order>, c: Book, u: Book)
    requires Ran(b, Insert, data, c) && Ran(t, Insert, primary, u) && forall ord :: ord in primary ==> ord in data
    requires forall p :: p in t.orders ==> p in b.orders && t.orders[p] == b.orders[p]
    ensures forall p :: p in u.orders ==> p in c.orders && u.orders[p] == c.orders[p]
  {
    forall p | p in u.orders ensures p in c.orders && u.orders[p] == c.orders[p] {
      if p !in t.orders {
        var i :| 0 <= i < |primary| && primary[i].price == p;
        assert primary[i] in primary;
        var j :| 0 <= j < |data| && data[j] == primary[i];
        assert c.orders[data[j].price] == data[j];
      }
    }
  }

  lemma MakeupDeletes(u: Book, c: Book, makeup: seq<Order>, limit: nat)
    requires Inv(u) && Inv(c) && limit > 0 && PatchAll(u.orders, Delete, makeup) == Some(ViewOf(c, limit))
    requires AreCached(c.orders, makeup)
    requires forall p :: p in u.orders ==> p in c.orders && u.orders[p] == c.orders[p]
    ensures WellFormedAll(u, Delete, makeup)
  {
    DeletesNamed(u.orders, makeup);
    forall ord | ord in makeup ensures OnSide(u, ord) {
      Named(u.orders, Delete, makeup, ord);
    }
    ViewSpares(u, c, makeup, Sell, limit);
    ViewSpares(u, c, makeup, Buy, limit);
    DeletesFit(u, makeup);
  }

  /** The best order of a side is in every view. */
  lemma ViewSpares(u: Book, c: Book, makeup: seq<Order>, side: Side, limit: nat)
    requires Inv(u) && Inv(c) && side.Known() && limit > 0 && u.orders - PricesOf(makeup) == ViewOf(c, limit)
    requires forall p :: p in u.orders ==> p in c.orders && u.orders[p] == c.orders[p]
    ensures Spares(u.Prices(side), PricesOf(makeup))
  {
    if u.Prices(side) != [] {
      var first := u.Prices(side)[0];
      assert first in u.Prices(side);
      assert first in c.Prices(side);
      TrimInv(c, limit);
      TopLast(c.Prices(side), limit);
      var p := Top(c.Prices(side), limit)[0];
      assert p in Trim(c, limit).Prices(side);
      assert p in ViewOf(c, limit) && p in u.orders && p !in PricesOf(makeup);
      ViewEntries(c, limit);
      assert p in u.Prices(side);
    }
  }

  lemma InsertTrim(b: Book, data: seq<Order>, limit: nat)
    requires Inv(b) && WellFormedAll(b, Insert, data) && limit > 0
    ensures RebuildLimited(Holding(Trim(b, limit)), Insert, LimitOrders(b, Insert, data, limit))
      == Holding(Trim(ApplyOrders(b, Insert, data).0, limit))
  {
    var t, l, c := Trim(b, limit), LimitOrders(b, Insert, data, limit), ApplyOrders(b, Insert, data).0;
    PrimaryInserts(b, data, limit);
    InsertBatch(b, data, limit);
    InsertMakeup(b, data, limit);
    OrdersKeepInv(b, Insert, data);
    OrdersKeepInv(t, Insert, l.primary);
    var u := ApplyOrders(t, Insert, l.primary).0;
    MakeupDeletes(u, c, l.makeup, limit);
    FitsTwice(t, Insert, l, c, limit);
  }

  // ---------------------------------------------------------------- deletes

  /** The replica has failed, or keeps an order that has been deleted. */
  ghost predicate Astray(r: Replica, lost: set<Price>) {
    r.Failed? || (r.Holding? && exists p :: p in lost && p in r.book.orders)
  }

  /** No delete of the message is late, and none takes the last order of a side of the view. */
  ghost predicate ViewSurvives(b: Book, data: seq<Order>, limit: nat) {
    && NoLateDelete(b, data, limit)
    && Spares(Top(b.asks, limit), PricesOf(data))
    && Spares(Top(b.bids, limit), PricesOf(data))
  }

  lemma PrimaryDeletes(b: Book, data: seq<Order>, limit: nat)
    requires Inv(b) && WellFormedAll(b, Delete, data) && limit > 0
    ensures var t, l := Trim(b, limit), LimitOrders(b, Delete, data, limit);
      && DistinctPrices(l.primary) && PricesOf(l.primary) <= PricesOf(data)
      && forall ord :: ord in l.primary ==> OnSide(b, ord)
  {
    var l := LimitOrders(b, Delete, data, limit);
    PrimaryFrom(b, Delete, data, limit);
    AllGood(b, Delete, data);
    forall ord | ord in l.primary ensures OnSide(b, ord) {
      var i :| 0 <= i < |data| && data[i] == ord;
      assert Good(b, Delete, data, i);
    }
    forall p | p in PricesOf(l.primary) ensures p in PricesOf(data) {
      var i :| 0 <= i < |l.primary| && l.primary[i].price == p;
      PriceIn(data, l.primary[i]);
    }
  }

  /** Without a late delete, all deletes of the view are in the in-view orders, and nothing else is. */
  lemma PrimaryIsInView(b: Book, data: seq<Order>, limit: nat)
    requires Inv(b) && WellFormedAll(b, Delete, data) && limit > 0 && NoLateDelete(b, data, limit)
    ensures var l, v := LimitOrders(b, Delete, data, limit), ViewOf(b, limit);
      && (forall ord :: ord in l.primary ==> ord.price in v)
      && forall p :: p in v ==> (p in PricesOf(l.primary) <==> p in PricesOf(data))
  {
    var l, v, c := LimitOrders(b, Delete, data, limit), ViewOf(b, limit), ApplyOrders(b, Delete, data).0;
    DeleteBatch(b, data, limit);
    DeletesNamed(v, l.primary);
    DeletesLeave(b, data);
    ViewEntries(c, limit);
    PrimaryDeletes(b, data, limit);
    forall ord | ord in l.primary ensures ord.price in v {
      Named(v, Delete, l.primary, ord);
    }
    forall p | p in v && p in PricesOf(data) ensures p in PricesOf(l.primary) {
      InsertsAdd(v - PricesOf(l.primary), l.makeup, p);
    }
  }

  /** The makeup inserts of deletes fit any book that has none of them. */
  lemma MakeupInserts(b: Book, u: Book, makeup: seq<Order>)
    requires Inv(b) && Inv(u) && AreCached(b.orders, makeup) && DistinctPrices(makeup)
    requires forall ord :: ord in makeup ==> ord.price !in u.orders
    ensures WellFormedAll(u, Insert, makeup)
    ensures forall ord :: ord in makeup ==> ord.price in ApplyOrders(u, Insert, makeup).0.orders
  {
    InsertsRun(u, makeup);
    InsertsPatch(u.orders, makeup);
    OrdersKeepInv(u, Insert, makeup);
  }

  /** The makeups of deletes come from below the view. */
  lemma MakeupBelow(b: Book, data: seq<Order>, limit: nat)
    requires Inv(b) && WellFormedAll(b, Delete, data) && limit > 0
    ensures forall ord :: ord in LimitOrders(b, Delete, data, limit).makeup ==> ord.price !in ViewOf(b, limit)
  {
    var makeup := LimitOrders(b, Delete, data, limit).makeup;
    DeleteBatch(b, data, limit);
    forall ord | ord in makeup ensures ord.price !in ViewOf(b, limit) {
      PriceIn(makeup, ord);
    }
  }

  lemma StaysOut(v: View, dels: seq<Order>, w: View, makeup: seq<Order>)
    requires PatchAll(v, Delete, dels) == Some(w) && forall ord :: ord in makeup ==> ord.price !in v
    ensures forall ord :: ord in makeup ==> ord.price !in w
  {
    DeletesNamed(v, dels);
  }

  /** On time, the best levels can take the in-view deletes exactly when each side of the view keeps one. */
  lemma PrimarySafeIff(b: Book, data: seq<Order>, limit: nat)
    requires Inv(b) && WellFormedAll(b, Delete, data) && limit > 0 && NoLateDelete(b, data, limit)
    ensures var t, primary := Trim(b, limit), LimitOrders(b, Delete, data, limit).primary;
      && (SafeAll(t, Delete, primary) <==> ViewSurvives(b, data, limit))
      && (SafeAll(t, Delete, primary) ==> WellFormedAll(t, Delete, primary))
  {
    var t, primary := Trim(b, limit), LimitOrders(b, Delete, data, limit).primary;
    TrimInv(b, limit);
    ViewEntries(b, limit);
    PrimaryDeletes(b, data, limit);
    PrimaryIsInView(b, data, limit);
    assert forall ord :: ord in primary ==> OnSide(t, ord);
    DeletesSafeIff(t, primary);
    SameSpares(t, t.asks, primary, data);
    SameSpares(t, t.bids, primary, data);
  }

  lemma OnTimeTrim(b: Book, data: seq<Order>, limit: nat)
    requires Inv(b) && WellFormedAll(b, Delete, data) && limit > 0 && NoLateDelete(b, data, limit)
    ensures var c := ApplyOrders(b, Delete, data).0;
      RebuildLimited(Holding(Trim(b, limit)), Delete, LimitOrders(b, Delete, data, limit)) ==
        if ViewSurvives(b, data, limit) then Holding(Trim(c, limit)) else Failed
  {
    var t, primary := Trim(b, limit), LimitOrders(b, Delete, data, limit).primary;
    PrimarySafeIff(b, data, limit);
    RebuildDelta(t, Delete, primary);
    if ViewSurvives(b, data, limit) {
      DeleteTrim(b, data, limit, ApplyOrders(t, Delete, primary).0);
    }
  }

  lemma SameSpares(t: Book, prices: seq<Price>, primary: seq<Order>, data: seq<Order>)
    requires forall p :: p in prices ==> p in t.orders
    requires forall p :: p in t.orders ==> (p in PricesOf(primary) <==> p in PricesOf(data))
    ensures Spares(prices, PricesOf(primary)) <==> Spares(prices, PricesOf(data))
  {
  }

  lemma DeleteTrim(b: Book, data: seq<Order>, limit: nat, u: Book)
    requires Inv(b) && WellFormedAll(b, Delete, data) && limit > 0 && NoLateDelete(b, data, limit)
    requires var t, l := Trim(b, limit), LimitOrders(b, Delete, data, limit);
      WellFormedAll(t, Delete, l.primary) && u == ApplyOrders(t, Delete, l.primary).0
    ensures var l, c := LimitOrders(b, Delete, data, limit), ApplyOrders(b, Delete, data).0;
      RebuildLimited(Holding(Trim(b, limit)), Delete, l) == Holding(Trim(c, limit))
  {
    var t, l, c := Trim(b, limit), LimitOrders(b, Delete, data, limit), ApplyOrders(b, Delete, data).0;
    TrimInv(b, limit);
    OrdersKeepInv(b, Delete, data);
    OrdersKeepInv(t, Delete, l.primary);
    DeleteBatch(b, data, limit);
    DeleteMakeup(b, data, limit);
    MakeupBelow(b, data, limit);
    StaysOut(t.orders, l.primary, u.orders, l.makeup);
    MakeupInserts(b, u, l.makeup);
    FitsTwice(t, Delete, l, c, limit);
  }

  // ---------------------------------------------------------------- a late delete

  lemma {:induction false} DeletesOnlyDrop(t: Book, data: seq<Order>)
    ensures ApplyOrders(t, Delete, data).0.orders.Keys <= t.orders.Keys
    decreases |data|
  {
    if data != [] {
      DeletesOnlyDrop(t, data[..|data| - 1]);
    }
  }

  /** Deletes that never name the wrong side leave a book consistent, whether they go through or not. */
  lemma DeletesLeaveInv(t: Book, data: seq<Order>)
    requires Inv(t) && SafeAll(t, Delete, data)
    requires forall ord :: ord in data && ord.price in t.orders ==> OnSide(t, ord)
    ensures Inv(ApplyOrders(t, Delete, data).0)
  {
    MessageInvIff(t, Delete, data);
    var n := FirstBad(t, Delete, data, 0);
    if n < |data| {
      assert data[n] in data;
    }
  }

  /** After a late delete the replica has failed, or keeps an order that the cache has deleted. */
  lemma LateTrim(b: Book, data: seq<Order>, limit: nat)
    requires Inv(b) && WellFormedAll(b, Delete, data) && limit > 0 && !NoLateDelete(b, data, limit)
    ensures Astray(RebuildLimited(Holding(Trim(b, limit)), Delete, LimitOrders(b, Delete, data, limit)), PricesOf(data))
  {
    var t, l := Trim(b, limit), LimitOrders(b, Delete, data, limit);
    RebuildDelta(t, Delete, l.primary);
    if SafeAll(t, Delete, l.primary) {
      var u := ApplyOrders(t, Delete, l.primary).0;
      TrimInv(b, limit);
      ViewEntries(b, limit);
      PrimaryDeletes(b, data, limit);
      DeletesLeaveInv(t, l.primary);
      DeletesOnlyDrop(t, l.primary);
      MakeupBelow(b, data, limit);
      DeleteMakeup(b, data, limit);
      MakeupInserts(b, u, l.makeup);
      WellFormedIsSafe(u, Insert, l.makeup);
      RebuildDelta(u, Insert, l.makeup);
      var p := DeletedMakeup(b, data, limit);
    }
  }

  lemma DeletedMakeup(b: Book, data: seq<Order>, limit: nat) returns (p: Price)
    requires Inv(b) && WellFormedAll(b, Delete, data) && limit > 0 && !NoLateDelete(b, data, limit)
    ensures p in PricesOf(data) && exists ord :: ord in LimitOrders(b, Delete, data, limit).makeup && ord.price == p
  {
    var l := LimitOrders(b, Delete, data, limit);
    DeleteBatch(b, data, limit);
    PrimaryDeletes(b, data, limit);
    p :| p in PricesOf(l.primary) && p in PricesOf(l.makeup);
    var i :| 0 <= i < |l.makeup| && l.makeup[i].price == p;
    assert l.makeup[i] in l.makeup;
  }

  // ---------------------------------------------------------------- every well-formed delta

  /** What a caller can check of a delta for the replicas of a depth channel. */
  ghost predicate Carries(b: Book, action: Action, data: seq<Order>, limit: nat) {
    action.Delete? ==> ViewSurvives(b, data, limit)
  }

  lemma LimitedTrim(b: Book, action: Action, data: seq<Order>, limit: nat)
    requires Inv(b) && action.Delta() && WellFormedAll(b, action, data) && limit > 0
    ensures var c := ApplyOrders(b, action, data).0;
      var r := RebuildLimited(Holding(Trim(b, limit)), action, LimitOrders(b, action, data, limit));
      if Carries(b, action, data, limit) then r == Holding(Trim(c, limit)) else Astray(r, PricesOf(data))
  {
    match action
    case Insert => InsertTrim(b, data, limit);
    case Update => UpdateTrim(b, data, limit);
    case Delete =>
      if NoLateDelete(b, data, limit) {
        OnTimeTrim(b, data, limit);
      } else {
        LateTrim(b, data, limit);
      }
  }

  lemma AstrayIsNotTrim(r: Replica, lost: set<Price>, c: Book, limit: nat)
    requires Astray(r, lost) && limit > 0 && lost !! c.orders.Keys
    ensures r != Holding(Trim(c, limit))
  {
    ViewEntries(c, limit);
  }

  /** What a well-formed delta publishes on a depth channel takes a cache that holds the best levels of the
      book to the best levels of the next book, in all four forms, if and only if no delete is late and none
      takes the last order of a side of the view.  Otherwise that cache indexes an empty list, or keeps an
      order that has been deleted. */
  lemma DeltaTrimIff(depth: nat, b: Book, msg: Message)
    requires Inv(b) && msg.action.Delta() && WellFormedAll(b, msg.action, msg.data) && depth > 0
    ensures var c, r := ApplyOrders(b, msg.action, msg.data).0, RebuildAll(Holding(Trim(b, depth)), DeltaEmits(depth, b, msg));
      && (r == Holding(Trim(c, depth)) <==> Carries(b, msg.action, msg.data, depth))
      && (r != Holding(Trim(c, depth)) ==> Astray(r, PricesOf(msg.data)))
  {
    var (c, err) := ApplyOrders(b, msg.action, msg.data);
    OrdersKeepInv(b, msg.action, msg.data);
    var l := LimitOrders(b, msg.action, msg.data, depth);
    RebuildSent(Holding(Trim(b, depth)), depth, msg, l, c);
    LimitedTrim(b, msg.action, msg.data, depth);
    if !Carries(b, msg.action, msg.data, depth) {
      DeletesLeave(b, msg.data);
      AstrayIsNotTrim(RebuildLimited(Holding(Trim(b, depth)), msg.action, l), PricesOf(msg.data), c, depth);
    }
  }

  // ---------------------------------------------------------------- merges

  lemma OneStays(t: Book, action: Action, ord: Order, p: Price)
    requires p in t.orders && (action.Delete? ==> p != ord.price)
    ensures p in ApplyOrder(t, action, ord).book.orders
  {
  }

  lemma {:induction false} OrderStays(t: Book, action: Action, data: seq<Order>, p: Price)
    requires p in t.orders && (action.Delete? ==> p !in PricesOf(data))
    ensures p in ApplyOrders(t, action, data).0.orders
    decreases |data|
  {
    if data != [] {
      PricesOfSnoc(data);
      OrderStays(t, action, data[..|data| - 1], p);
      OneStays(ApplyOrders(t, action, data[..|data| - 1]).0, action, data[|data| - 1], p);
    }
  }

  lemma AstrayStays(r: Replica, lost: set<Price>, action: Action, data: seq<Order>)
    requires Astray(r, lost) && action.Delta() && (action.Delete? ==> PricesOf(data) !! lost)
    ensures Astray(Rebuild(r, Message(action, data)), lost)
  {
    if r.Holding? {
      var p :| p in lost && p in r.book.orders;
      RebuildDelta(r.book, action, data);
      OrderStays(r.book, action, data, p);
    }
  }

  /** Inserts and updates of a later stage do not bring a replica back. */
  lemma LimitedAstray(r: Replica, lost: set<Price>, b: Book, action: Action, data: seq<Order>, limit: nat)
    requires Inv(b) && (action.Insert? || action.Update?) && WellFormedAll(b, action, data) && limit > 0
    requires Astray(r, lost) && lost !! ApplyOrders(b, action, data).0.orders.Keys
    ensures Astray(RebuildLimited(r, action, LimitOrders(b, action, data, limit)), lost)
  {
    var l := LimitOrders(b, action, data, limit);
    AstrayStays(r, lost, action, l.primary);
    if action.Insert? {
      InsertMakeup(b, data, limit);
    }
    AstrayStays(Rebuild(r, Message(action, l.primary)), lost, if action.Insert? then Delete else Insert, l.makeup);
  }

  /** One stage of a merge: it is skipped when it has no orders. */
  lemma StageTrim(depth: nat, r: Replica, b: Book, action: Action, data: seq<Order>)
    requires depth > 0 && action.Delta()
    ensures var c := ApplyOrders(b, action, data).0;
      RebuildAll(r, Marked(StageSent(depth, b, action, data), c)) == RebuildLimited(r, action, LimitOrders(b, action, data, depth))
  {
    RebuildSent(r, depth, Message(action, data), LimitOrders(b, action, data, depth), ApplyOrders(b, action, data).0);
  }

  lemma {:induction false} RebuildConcat(r: Replica, s: seq<Emission>, t: seq<Emission>)
    ensures RebuildAll(r, s + t) == RebuildAll(RebuildAll(r, s), t)
    decreases |t|
  {
    if t == [] {
      assert s + t == s;
    } else {
      assert (s + t)[..|s + t| - 1] == s + t[..|t| - 1];
      RebuildConcat(r, s, t[..|t| - 1]);
    }
  }

  lemma MergeStagesRebuild(depth: nat, r: Replica, b: Book, ps: Patches)
    requires depth > 0
    ensures var c := ApplyOrders(b, Delete, ps.deletes).0;
      var d := ApplyOrders(c, Insert, ps.inserts).0;
      var s := RebuildLimited(r, Delete, LimitOrders(b, Delete, ps.deletes, depth));
      RebuildAll(r, MergeEmits(depth, b, ps)) ==
        RebuildLimited(RebuildLimited(s, Insert, LimitOrders(c, Insert, ps.inserts, depth)),
                       Update, LimitOrders(d, Update, ps.updates, depth))
  {
    var c := ApplyOrders(b, Delete, ps.deletes).0;
    var d := ApplyOrders(c, Insert, ps.inserts).0;
    var es := Marked(StageSent(depth, b, Delete, ps.deletes), c);
    var fs := Marked(StageSent(depth, c, Insert, ps.inserts), d);
    var gs := Marked(StageSent(depth, d, Update, ps.updates), ApplyOrders(d, Update, ps.updates).0);
    RebuildConcat(r, es, fs);
    RebuildConcat(r, es + fs, gs);
    StageTrim(depth, r, b, Delete, ps.deletes);
    StageTrim(depth, RebuildAll(r, es), c, Insert, ps.inserts);
    StageTrim(depth, RebuildAll(RebuildAll(r, es), fs), d, Update, ps.updates);
  }

  /** What a merge deletes is in none of the books that follow. */
  lemma MergeLoses(b: Book, data: seq<Order>, order: seq<Price>)
    requires Inv(b) && Mergeable(b, data) && Yields(b, data, order)
    ensures var ps := MergePatches(b, data, order);
      var c := ApplyOrders(b, Delete, ps.deletes).0;
      var d := ApplyOrders(c, Insert, ps.inserts).0;
      PricesOf(ps.deletes) !! d.orders.Keys && PricesOf(ps.deletes) !! ApplyPatches(b, ps).orders.Keys
  {
    MergeWellFormed(b, data, order);
    LookupPrices(b, order);
    var c := ApplyOrders(b, Delete, MergePatches(b, data, order).deletes).0;
    MergeInserts(b, data, c);
    MergeUpdates(b, data, c, ApplyOrders(c, Insert, MergePatches(b, data, order).inserts).0);
    DroppedAreCached(b, data);
    forall p | p in DeletedPrices(b, data) ensures p in b.orders && p !in c.orders {
      KeptPrices(b, data, p);
    }
  }

  /** The messages of a merge do so if and only if its deletes do: the inserts and updates after them never
      fail a replica in step, and never bring back one that has gone astray. */
  lemma MergeTrimIff(depth: nat, b: Book, data: seq<Order>, order: seq<Price>)
    requires Inv(b) && Mergeable(b, data) && Yields(b, data, order) && depth > 0
    ensures var ps := MergePatches(b, data, order);
      RebuildAll(Holding(Trim(b, depth)), MergeEmits(depth, b, ps)) == Holding(Trim(ApplyPatches(b, ps), depth)) <==>
      ViewSurvives(b, ps.deletes, depth)
  {
    MergeWellFormed(b, data, order);
    MergeLoses(b, data, order);
    MergeStagesTrim(depth, b, MergePatches(b, data, order));
  }

  lemma MergeStagesTrim(depth: nat, b: Book, ps: Patches)
    requires Inv(b) && depth > 0 && WellFormedAll(b, Delete, ps.deletes)
    requires var c := ApplyOrders(b, Delete, ps.deletes).0;
      var d := ApplyOrders(c, Insert, ps.inserts).0;
      && Inv(c) && WellFormedAll(c, Insert, ps.inserts) && Inv(d) && WellFormedAll(d, Update, ps.updates)
      && PricesOf(ps.deletes) !! d.orders.Keys && PricesOf(ps.deletes) !! ApplyPatches(b, ps).orders.Keys
    ensures RebuildAll(Holding(Trim(b, depth)), MergeEmits(depth, b, ps)) == Holding(Trim(ApplyPatches(b, ps), depth)) <==>
      ViewSurvives(b, ps.deletes, depth)
  {
    var c := ApplyOrders(b, Delete, ps.deletes).0;
    var d := ApplyOrders(c, Insert, ps.inserts).0;
    var s := RebuildLimited(Holding(Trim(b, depth)), Delete, LimitOrders(b, Delete, ps.deletes, depth));
    var t := RebuildLimited(s, Insert, LimitOrders(c, Insert, ps.inserts, depth));
    MergeStagesRebuild(depth, Holding(Trim(b, depth)), b, ps);
    LimitedTrim(b, Delete, ps.deletes, depth);
    if ViewSurvives(b, ps.deletes, depth) {
      LimitedTrim(c, Insert, ps.inserts, depth);
      LimitedTrim(d, Update, ps.updates, depth);
    } else {
      var lost := PricesOf(ps.deletes);
      LimitedAstray(s, lost, c, Insert, ps.inserts, depth);
      LimitedAstray(t, lost, d, Update, ps.updates, depth);
      AstrayIsNotTrim(RebuildLimited(t, Update, LimitOrders(d, Update, ps.updates, depth)), lost, ApplyPatches(b, ps), depth);
    }
  }

  /** The deletes of a merge are timely and take the last order of no side of the view. */
  ghost predicate MergeCarries(b: Book, data: seq<Order>, limit: nat) {
    var dropped := DeletedPrices(b, data);
    Timely(b, data, limit) && Spares(Top(b.asks, limit), dropped) && Spares(Top(b.bids, limit), dropped)
  }

  /** A merge does so in whatever order the set yields its prices, if and only if a caller can tell. */
  lemma MergeTrimAlways(depth: nat, b: Book, data: seq<Order>)
    requires Inv(b) && Mergeable(b, data) && depth > 0
    ensures MergeCarries(b, data, depth) <==>
      forall order :: Yields(b, data, order) ==>
        var ps := MergePatches(b, data, order);
        RebuildAll(Holding(Trim(b, depth)), MergeEmits(depth, b, ps)) == Holding(Trim(ApplyPatches(b, ps), depth))
  {
    TimelyIff(b, data, depth);
    forall order | Yields(b, data, order)
      ensures PricesOf(MergePatches(b, data, order).deletes) == DeletedPrices(b, data)
      ensures var ps := MergePatches(b, data, order);
        RebuildAll(Holding(Trim(b, depth)), MergeEmits(depth, b, ps)) == Holding(Trim(ApplyPatches(b, ps), depth)) <==>
        ViewSurvives(b, ps.deletes, depth)
    {
      LookupPrices(b, order);
      MergeTrimIff(depth, b, data, order);
    }
    DroppedAreCached(b, data);
    var some := SomeOrder(DeletedPrices(b, data));
    assert forall p :: p in some ==> p in Elements(some);
    assert Yields(b, data, some);
  }

  // ---------------------------------------------------------------- runs

  /** What a run of deltas publishes. */
  ghost function RunEmits(depth: nat, b: Book, msgs: seq<Message>): seq<Emission>
    decreases |msgs|
  {
    if msgs == [] then [] else
    var front, msg := msgs[..|msgs| - 1], msgs[|msgs| - 1];
    RunEmits(depth, b, front) + DeltaEmits(depth, Replay(b, front), msg)
  }

  ghost predicate CarriesRun(b: Book, msgs: seq<Message>, limit: nat)
    decreases |msgs|
  {
    msgs != [] ==>
      var front, msg := msgs[..|msgs| - 1], msgs[|msgs| - 1];
      CarriesRun(b, front, limit) && Carries(Replay(b, front), msg.action, msg.data, limit)
  }

  /** After every message of the run the replica holds the best levels of the book. */
  ghost predicate HoldsRun(depth: nat, r: Replica, b: Book, msgs: seq<Message>)
    decreases |msgs|
  {
    && (msgs != [] ==> HoldsRun(depth, r, b, msgs[..|msgs| - 1]))
    && RebuildAll(r, RunEmits(depth, b, msgs)) == Holding(Trim(Replay(b, msgs), depth))
  }

  /** Replication at a depth: a cache that loads a snapshot of the book at that depth, and gets what a run of
      deltas publishes on the channel of that depth, holds the best levels of the book after every message,
      if and only if every message carries. */
  lemma {:induction false} DepthReplication(depth: nat, b: Book, msgs: seq<Message>)
    requires Inv(b) && BothSides(b) && WellFormedRun(b, msgs) && depth > 0
    ensures HoldsRun(depth, Rebuild(Waiting, Message(Partial, Snapshot(b, depth))), b, msgs) <==> CarriesRun(b, msgs, depth)
    decreases |msgs|
  {
    var r := Rebuild(Waiting, Message(Partial, Snapshot(b, depth)));
    SnapshotRoundTrip(b, depth);
    if msgs != [] {
      var front, msg := msgs[..|msgs| - 1], msgs[|msgs| - 1];
      DepthReplication(depth, b, front);
      Replication(b, front);
      RebuildConcat(r, RunEmits(depth, b, front), DeltaEmits(depth, Replay(b, front), msg));
      if HoldsRun(depth, r, b, front) {
        assert msg.action.Delta();
        DeltaTrimIff(depth, Replay(b, front), msg);
      }
    }
  }

  // ---------------------------------------------------------------- the last order in view

  /** Deleting the best of three asks, seen at depth 1: the reader of a map is in step, but the view loses
      its only ask before its makeup arrives, so a cache that holds the best level fails. */
  lemma LastInView()
    ensures var b, msg := ThreeAsks(), Message(Delete, [Ask(1.0)]);
      && Inv(b) && WellFormedAll(b, msg.action, msg.data) && NoLateDelete(b, msg.data, 1)
      && !DeleteSafe(Trim(b, 1), Ask(1.0))
      && RebuildAll(Holding(Trim(b, 1)), DeltaEmits(1, b, msg)) != Holding(Trim(ApplyOrders(b, msg.action, msg.data).0, 1))
  {
    var b, ord := ThreeAsks(), Ask(1.0);
    ThreeAsksInv();
    DeleteBest(b, [3.0, 2.0], 1.0);
    OneDelete(b, ord);
    OnlyAskInView(b, ord);
    DeltaTrimIff(1, b, Message(Delete, [ord]));
  }

  lemma OneDelete(b: Book, ord: Order)
    requires WellFormed(b, Delete, ord)
    ensures WellFormedAll(b, Delete, [ord])
  {
    assert [ord][..0] == [];
  }

  lemma OnlyAskInView(b: Book, ord: Order)
    requires Inv(b) && b.asks == [3.0, 2.0, 1.0] && ord == Ask(1.0) && 1.0 in b.orders
    ensures NoLateDelete(b, [ord], 1) && !ViewSurvives(b, [ord], 1) && !DeleteSafe(Trim(b, 1), ord)
  {
    assert [ord][..0] == [] && [ord][0].price in PricesOf([ord]);
    assert Better(b.asks, 1.0, true) == {};
    assert Top(b.asks, 1) == [1.0] && 1.0 in Top(b.asks, 1);
    PositionOf([1.0], true, 0);
    TrimInv(b, 1);
  }
}
