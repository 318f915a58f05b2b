/** A partial that reaches a cache which already holds a book: handlePartial turns it into deletes,
    inserts and updates and applies them one message after the other. */
module Merging {
  import opened PriceLists
  import opened OrderBooks
  import opened DepthStreams
  import opened Snapshots

  ghost predicate DistinctPrices(data: seq<Order>) {
    forall i, j :: 0 <= i < j < |data| ==> data[i].price != data[j].price
  }

  function Filter(data: seq<Order>, keep: Order -> bool): seq<Order>
    decreases |data|
  {
    if data == [] then [] else
    var front, ord := Filter(data[..|data| - 1], keep), data[|data| - 1];
    if keep(ord) then front + [ord] else front
  }

  /** sellDelSet.Add(buyDelSet). */
  function DeletedPrices(b: Book, data: seq<Order>): set<Price> {
    (Elements(b.asks) - Elements(PricesOn(data, Sell))) + (Elements(b.bids) - Elements(PricesOn(data, Buy)))
  }

  /** sellAddSet and buyAddSet, which the source always tests together. */
  function AddedPrices(b: Book, data: seq<Order>): set<Price> {
    (Elements(PricesOn(data, Sell)) - Elements(b.asks)) + (Elements(PricesOn(data, Buy)) - Elements(b.bids))
  }

  /** The three messages of a merge.  The deleted orders come from the cache, in the order in which
      `Values` yields the set; sizes are compared once the deletes are applied.  Join leaves all the
      old prices in the update sets, not only those that the partial repeats. */
  datatype Patches = Patches(deletes: seq<Order>, inserts: seq<Order>, updates: seq<Order>)

  function MergePatches(b: Book, data: seq<Order>, order: seq<Price>): Patches
    requires forall p :: p in order ==> p in b.orders
  {
    var deletes := Lookup(b.orders, order);
    var cache := ApplyOrders(b, Delete, deletes).0.orders;
    var added, joined := AddedPrices(b, data), Elements(b.asks) + Elements(b.bids);
    Patches(deletes, Filter(data, IsAdded(added)), Filter(data, IsResized(joined, cache)))
  }

  function IsAdded(added: set<Price>): Order -> bool {
    (ord: Order) => ord.price in added
  }

  function IsResized(joined: set<Price>, cache: map<Price, Order>): Order -> bool {
    (ord: Order) => ord.price in joined && ord.price in cache && cache[ord.price].size != ord.size
  }

  function ApplyPatches(b: Book, ps: Patches): Book {
    var c := ApplyOrders(b, Delete, ps.deletes).0;
    var d := ApplyOrders(c, Insert, ps.inserts).0;
    ApplyOrders(d, Update, ps.updates).0
  }

  /** What a merge needs: a partial with distinct prices, none of which changes side, and on each
      side at least one old price that survives.  Orders of an unknown side at new prices are skipped. */
  ghost predicate Mergeable(b: Book, data: seq<Order>) {
    && DistinctPrices(data)
    && (forall ord :: ord in data && ord.price in b.orders ==> b.orders[ord.price].side == ord.side)
    && Survives(b.asks, PricesOn(data, Sell))
    && Survives(b.bids, PricesOn(data, Buy))
  }

  /** The prices that a partial lists on either side. */
  function Listed(data: seq<Order>): set<Price> {
    Elements(PricesOn(data, Sell)) + Elements(PricesOn(data, Buy))
  }

  ghost predicate Survives(cached: seq<Price>, listed: seq<Price>) {
    cached != [] ==> exists p :: p in cached && p in listed
  }

  ghost predicate Enumerates(order: seq<Price>, s: set<Price>) {
    && (forall i, j :: 0 <= i < j < |order| ==> order[i] != order[j])
    && Elements(order) == s
  }

  // ---------------------------------------------------------------- filters

  lemma {:induction false} FilterHolds(data: seq<Order>, keep: Order -> bool, ord: Order)
    ensures ord in Filter(data, keep) <==> ord in data && keep(ord)
    decreases |data|
  {
    if data != [] {
      FilterHolds(data[..|data| - 1], keep, ord);
      assert data == data[..|data| - 1] + [data[|data| - 1]];
    }
  }

  lemma {:induction false} FilterDistinct(data: seq<Order>, keep: Order -> bool)
    requires DistinctPrices(data)
    ensures DistinctPrices(Filter(data, keep))
    decreases |data|
  {
    if data != [] {
      var front, ord := data[..|data| - 1], data[|data| - 1];
      FilterDistinct(front, keep);
      var kept := Filter(front, keep);
      forall i | 0 <= i < |kept| ensures kept[i].price != ord.price {
        FilterHolds(front, keep, kept[i]);
        assert kept[i] in kept && kept[i] in front;
      }
    }
  }

  lemma {:induction false} PricesOnHolds(data: seq<Order>, side: Side, p: Price)
    ensures p in PricesOn(data, side) <==> exists ord :: ord in data && ord.side == side && ord.price == p
    decreases |data|
  {
    if data != [] {
      var front, last := data[..|data| - 1], data[|data| - 1];
      PricesOnHolds(front, side, p);
      assert data == front + [last];
      assert last in data;
      assert forall ord :: ord in data <==> ord in front || ord == last;
    }
  }

  // ---------------------------------------------------------------- the three runs

  lemma {:induction false} DeletesRun(b: Book, order: seq<Price>)
    requires Inv(b) && (forall p :: p in order ==> p in b.orders)
    requires forall i, j :: 0 <= i < j < |order| ==> order[i] != order[j]
    requires forall p :: p in order ==> exists q :: q in b.Prices(b.orders[p].side) && q !in order
    ensures WellFormedAll(b, Delete, Lookup(b.orders, order))
    ensures ApplyOrders(b, Delete, Lookup(b.orders, order)).0.orders == b.orders - Elements(order)
    decreases |order|
  {
    if order != [] {
      var front, p := order[..|order| - 1], order[|order| - 1];
      assert order == front + [p];
      assert p in order;
      DeletesRun(b, front);
      DeletesRunStep(b, front, p, order);
    }
  }

  lemma DeletesRunStep(b: Book, front: seq<Price>, p: Price, order: seq<Price>)
    requires Inv(b) && (forall q :: q in order ==> q in b.orders)
    requires order == front + [p] && p !in front
    requires exists q :: q in b.Prices(b.orders[p].side) && q !in order
    requires WellFormedAll(b, Delete, Lookup(b.orders, front))
    requires ApplyOrders(b, Delete, Lookup(b.orders, front)).0.orders == b.orders - Elements(front)
    ensures WellFormedAll(b, Delete, Lookup(b.orders, order))
    ensures ApplyOrders(b, Delete, Lookup(b.orders, order)).0.orders == b.orders - Elements(order)
  {
    var dels := Lookup(b.orders, front);
    OrdersKeepInv(b, Delete, dels);
    LookupSnoc(b.orders, front, p, order);
    DeleteOneMore(b, ApplyOrders(b, Delete, dels).0, front, p, order);
    RunSnoc(b, Delete, dels, b.orders[p]);
  }

  lemma RunSnoc(b: Book, action: Action, front: seq<Order>, ord: Order)
    requires WellFormedAll(b, action, front) && ApplyOrders(b, action, front).1 == NoError
    requires WellFormed(ApplyOrders(b, action, front).0, action, ord)
    ensures WellFormedAll(b, action, front + [ord])
    ensures ApplyOrders(b, action, front + [ord]).0 == ApplyOrder(ApplyOrders(b, action, front).0, action, ord).book
  {
    assert (front + [ord])[..|front|] == front;
  }

  lemma DeleteOneMore(b: Book, c: Book, front: seq<Price>, p: Price, order: seq<Price>)
    requires Inv(b) && Inv(c) && p in b.orders && order == front + [p] && p !in front
    requires c.orders == b.orders - Elements(front)
    requires exists q :: q in b.Prices(b.orders[p].side) && q !in order
    ensures WellFormed(c, Delete, b.orders[p])
    ensures ApplyOrder(c, Delete, b.orders[p]).book.orders == b.orders - Elements(order)
  {
    DeleteStillSafe(b, c, front, p, order);
    OrderKeepsInv(c, Delete, b.orders[p]);
    assert Elements(order) == Elements(front) + {p};
    DropTwice(b.orders, Elements(front), p);
  }

  lemma DeleteStillSafe(b: Book, c: Book, front: seq<Price>, p: Price, order: seq<Price>)
    requires Inv(b) && Inv(c) && p in b.orders && order == front + [p] && p !in front
    requires c.orders == b.orders - Elements(front)
    requires exists q :: q in b.Prices(b.orders[p].side) && q !in order
    ensures WellFormed(c, Delete, b.orders[p])
  {
    var side := b.orders[p].side;
    var q :| q in b.Prices(side) && q !in order;
    assert q in c.orders && c.orders[q].side == side;
    assert p in c.orders && c.orders[p] == b.orders[p];
    assert p in c.Prices(side) && q in c.Prices(side) && p != q;
  }

  lemma LastDiffers(data: seq<Order>)
    requires DistinctPrices(data) && data != []
    ensures DistinctPrices(data[..|data| - 1])
    ensures data[|data| - 1].price !in PricesOf(data[..|data| - 1])
    ensures forall ord :: ord in data <==> ord in data[..|data| - 1] || ord == data[|data| - 1]
  {
    assert data == data[..|data| - 1] + [data[|data| - 1]];
  }

  lemma {:induction false} InsertsPatch(v: map<Price, Order>, ins: seq<Order>)
    requires DistinctPrices(ins) && forall ord :: ord in ins ==> ord.price !in v
    ensures var w := PatchAll(v, Insert, ins);
      && w.Some? && w.value.Keys == v.Keys + PricesOf(ins)
      && (forall p :: p in v ==> w.value[p] == v[p])
      && (forall ord :: ord in ins ==> ord.price in w.value && w.value[ord.price] == ord)
    decreases |ins|
  {
    if ins != [] {
      LastDiffers(ins);
      InsertsPatch(v, ins[..|ins| - 1]);
      PricesOfSnoc(ins);
      assert forall ord :: ord in ins[..|ins| - 1] ==> ord.price in PricesOf(ins[..|ins| - 1]);
    }
  }

  lemma {:induction false} InsertsRun(b: Book, ins: seq<Order>)
    requires Inv(b) && DistinctPrices(ins)
    requires forall ord :: ord in ins ==> ord.side.Known() && ord.price !in b.orders
    ensures WellFormedAll(b, Insert, ins)
    decreases |ins|
  {
    if ins != [] {
      LastDiffers(ins);
      InsertsRun(b, ins[..|ins| - 1]);
      OrdersKeepInv(b, Insert, ins[..|ins| - 1]);
      InsertsPatch(b.orders, ins[..|ins| - 1]);
    }
  }

  lemma {:induction false} UpdatesPatch(v: map<Price, Order>, upd: seq<Order>)
    requires DistinctPrices(upd) && forall ord :: ord in upd ==> ord.price in v
    ensures var w := PatchAll(v, Update, upd);
      && w.Some? && w.value.Keys == v.Keys
      && (forall p :: p in v && p !in PricesOf(upd) ==> w.value[p] == v[p])
      && (forall ord :: ord in upd ==> w.value[ord.price] == v[ord.price].(size := ord.size))
    decreases |upd|
  {
    if upd != [] {
      LastDiffers(upd);
      UpdatesPatch(v, upd[..|upd| - 1]);
      PricesOfSnoc(upd);
      assert forall ord :: ord in upd[..|upd| - 1] ==> ord.price in PricesOf(upd[..|upd| - 1]);
    }
  }

  lemma {:induction false} UpdatesRun(b: Book, upd: seq<Order>)
    requires Inv(b) && DistinctPrices(upd)
    requires forall ord :: ord in upd ==> ord.price in b.orders && b.orders[ord.price].side == ord.side
    ensures WellFormedAll(b, Update, upd)
    decreases |upd|
  {
    if upd != [] {
      LastDiffers(upd);
      var front, last := upd[..|upd| - 1], upd[|upd| - 1];
      UpdatesRun(b, front);
      OrdersKeepInv(b, Update, front);
      UpdatesPatch(b.orders, front);
    }
  }

  // ---------------------------------------------------------------- the merge

  /** The deletes of a merge leave each side an order and drop what the partial does not list. */
  lemma MergeDeletes(b: Book, data: seq<Order>, order: seq<Price>)
    requires Inv(b) && Mergeable(b, data) && Enumerates(order, DeletedPrices(b, data))
    ensures forall p :: p in order ==> p in b.orders
    ensures WellFormedAll(b, Delete, Lookup(b.orders, order))
    ensures var c := ApplyOrders(b, Delete, Lookup(b.orders, order)).0;
      Inv(c) && forall p :: p in c.orders <==> p in b.orders && p in Listed(data)
    ensures var c := ApplyOrders(b, Delete, Lookup(b.orders, order)).0;
      forall p :: p in c.orders ==> c.orders[p] == b.orders[p]
  {
    forall p ensures p in order <==> p in b.orders && p !in Listed(data) {
      assert p in order <==> p in Elements(order);
      KeptPrices(b, data, p);
    }
    forall p | p in order
      ensures exists q :: q in b.Prices(b.orders[p].side) && q !in order
    {
      var side := b.orders[p].side;
      assert p in b.Prices(side);
      var q :| q in b.Prices(side) && q in PricesOn(data, side);
      KeptPrices(b, data, q);
      assert q !in order;
    }
    DeletesRun(b, order);
    OrdersKeepInv(b, Delete, Lookup(b.orders, order));
  }

  /** A cached price is dropped exactly when the partial does not list it. */
  lemma KeptPrices(b: Book, data: seq<Order>, p: Price)
    requires Inv(b) && Mergeable(b, data)
    ensures p in DeletedPrices(b, data) <==> p in b.orders && p !in Listed(data)
    ensures p in AddedPrices(b, data) <==> p !in b.orders && p in Listed(data)
    ensures p in b.orders <==> p in b.asks || p in b.bids
  {
    PricesOnHolds(data, Sell, p);
    PricesOnHolds(data, Buy, p);
    assert p in b.orders ==> p in b.Prices(b.orders[p].side);
  }

  /** The cache after the deletes: exactly the cached orders that the partial repeats. */
  ghost predicate Kept(b: Book, data: seq<Order>, c: Book) {
    && (forall p :: p in c.orders <==> p in b.orders && p in Listed(data))
    && (forall p :: p in c.orders ==> c.orders[p] == b.orders[p])
  }

  lemma MergeInserts(b: Book, data: seq<Order>, c: Book)
    requires Inv(b) && Mergeable(b, data) && Inv(c) && Kept(b, data, c)
    ensures var ins := Filter(data, IsAdded(AddedPrices(b, data)));
      var d := ApplyOrders(c, Insert, ins).0;
      && WellFormedAll(c, Insert, ins) && Inv(d)
      && (forall p :: p in d.orders <==> p in c.orders || p in PricesOf(ins))
      && (forall p :: p in c.orders ==> d.orders[p] == c.orders[p])
      && (forall ord :: ord in ins ==> ord.price in d.orders && d.orders[ord.price] == ord)
      && (forall ord :: ord in ins <==> ord in data && ord.side.Known() && ord.price !in b.orders)
  {
    var keep := IsAdded(AddedPrices(b, data));
    var ins := Filter(data, keep);
    FilterDistinct(data, keep);
    forall ord ensures ord in ins <==> ord in data && ord.side.Known() && ord.price !in b.orders {
      FilterHolds(data, keep, ord);
      KeptPrices(b, data, ord.price);
      ListedPrice(data, ord);
    }
    InsertsRun(c, ins);
    InsertsPatch(c.orders, ins);
    OrdersKeepInv(c, Insert, ins);
  }

  /** The partial lists an order's price exactly when the order's side is known. */
  lemma ListedPrice(data: seq<Order>, ord: Order)
    requires DistinctPrices(data)
    ensures ord in data ==> (ord.price in Listed(data) <==> ord.side.Known())
  {
    PricesOnHolds(data, Sell, ord.price);
    PricesOnHolds(data, Buy, ord.price);
    if ord in data {
      forall other | other in data && other.price == ord.price ensures other == ord {
        SameEntry(data, other, ord);
      }
    }
  }

  lemma ListedEntry(data: seq<Order>, p: Price)
    requires p in Listed(data)
    ensures exists ord :: ord in data && ord.price == p && ord.side.Known()
  {
    PricesOnHolds(data, Sell, p);
    PricesOnHolds(data, Buy, p);
  }

  lemma MergeUpdates(b: Book, data: seq<Order>, c: Book, d: Book)
    requires Inv(b) && Mergeable(b, data) && Kept(b, data, c) && Inv(d)
    requires forall p :: p in c.orders ==> p in d.orders && d.orders[p] == c.orders[p]
    ensures var upd := Filter(data, IsResized(Elements(b.asks) + Elements(b.bids), c.orders));
      var e := ApplyOrders(d, Update, upd).0;
      && WellFormedAll(d, Update, upd) && Inv(e) && e.orders.Keys == d.orders.Keys
      && (forall p :: p in d.orders && p !in PricesOf(upd) ==> e.orders[p] == d.orders[p])
      && (forall ord :: ord in upd ==> ord.price in d.orders && e.orders[ord.price] == d.orders[ord.price].(size := ord.size))
      && (forall ord :: ord in upd <==> ord in data && ord.price in b.orders && b.orders[ord.price].size != ord.size)
  {
    var keep := IsResized(Elements(b.asks) + Elements(b.bids), c.orders);
    var upd := Filter(data, keep);
    FilterDistinct(data, keep);
    forall ord ensures ord in upd <==> ord in data && ord.price in b.orders && b.orders[ord.price].size != ord.size {
      FilterHolds(data, keep, ord);
      KeptPrices(b, data, ord.price);
      ListedPrice(data, ord);
    }
    forall ord | ord in upd ensures ord.price in d.orders && d.orders[ord.price].side == ord.side {
      ListedPrice(data, ord);
      assert ord.price in c.orders;
    }
    UpdatesRun(d, upd);
    UpdatesPatch(d.orders, upd);
    OrdersKeepInv(d, Update, upd);
  }

  /** What the cache holds for an order of the partial after the merge: a price it already had keeps
      its order id and takes the new size, a new price takes the whole order. */
  function Merged(b: Book, ord: Order): Order {
    if ord.price in b.orders then b.orders[ord.price].(size := ord.size) else ord
  }

  /** A merge sends three well-formed messages, whatever order the deleted prices come in: none of
      the internal applyData calls can fail. */
  lemma MergeWellFormed(b: Book, data: seq<Order>, order: seq<Price>)
    requires Inv(b) && Mergeable(b, data) && Enumerates(order, DeletedPrices(b, data))
    ensures forall p :: p in order ==> p in b.orders
    ensures var ps := MergePatches(b, data, order);
      var c := ApplyOrders(b, Delete, ps.deletes).0;
      var d := ApplyOrders(c, Insert, ps.inserts).0;
      && WellFormedAll(b, Delete, ps.deletes) && WellFormedAll(c, Insert, ps.inserts) && WellFormedAll(d, Update, ps.updates)
      && Inv(c) && Inv(d) && Inv(ApplyPatches(b, ps)) && Kept(b, data, c)
  {
    MergeDeletes(b, data, order);
    var c := ApplyOrders(b, Delete, Lookup(b.orders, order)).0;
    MergeInserts(b, data, c);
    var d := ApplyOrders(c, Insert, Filter(data, IsAdded(AddedPrices(b, data)))).0;
    MergeUpdates(b, data, c, d);
  }

  ghost predicate StandsBefore(data: seq<Order>, x: Order, y: Order) {
    exists k, l :: 0 <= k < l < |data| && data[k] == x && data[l] == y
  }

  /** The orders of one list stand in the other in the same order. */
  ghost predicate InOrderOf(some: seq<Order>, data: seq<Order>) {
    forall i, j :: 0 <= i < j < |some| ==> StandsBefore(data, some[i], some[j])
  }

  lemma StillBefore(data: seq<Order>, n: nat, x: Order, y: Order)
    requires n <= |data| && StandsBefore(data[..n], x, y)
    ensures StandsBefore(data, x, y)
  {
    var front := data[..n];
    var k, l :| 0 <= k < l < |front| && front[k] == x && front[l] == y;
    assert data[k] == x && data[l] == y;
  }

  lemma BeforeLast(data: seq<Order>, x: Order)
    requires data != [] && x in data[..|data| - 1]
    ensures StandsBefore(data, x, data[|data| - 1])
  {
    var front := data[..|data| - 1];
    var k :| 0 <= k < |front| && front[k] == x;
    assert data[k] == x;
  }

  lemma {:induction false} FilterInOrder(data: seq<Order>, keep: Order -> bool)
    ensures InOrderOf(Filter(data, keep), data)
    decreases |data|
  {
    if data != [] {
      var n := |data| - 1;
      var kept, all := Filter(data[..n], keep), Filter(data, keep);
      FilterInOrder(data[..n], keep);
      forall i, j | 0 <= i < j < |all| ensures StandsBefore(data, all[i], all[j]) {
        assert all[i] == kept[i];
        if j < |kept| {
          StillBefore(data, n, kept[i], kept[j]);
        } else {
          FilterHolds(data[..n], keep, kept[i]);
          assert kept[i] in kept;
          BeforeLast(data, kept[i]);
        }
      }
    }
  }

  /** What the three messages of a merge list: the deleted orders as cached, in the order in which their
      prices come; and of the partial, in its order, exactly the new orders and the resized ones. */
  lemma MergeLists(b: Book, data: seq<Order>, order: seq<Price>)
    requires Inv(b) && Mergeable(b, data) && Enumerates(order, DeletedPrices(b, data))
    ensures forall p :: p in order <==> p in b.orders && p !in Listed(data)
    ensures var ps := MergePatches(b, data, order);
      && |ps.deletes| == |order| && (forall i :: 0 <= i < |order| ==> ps.deletes[i] == b.orders[order[i]])
      && DistinctPrices(ps.inserts) && InOrderOf(ps.inserts, data)
      && (forall ord :: ord in ps.inserts <==> ord in data && ord.side.Known() && ord.price !in b.orders)
      && DistinctPrices(ps.updates) && InOrderOf(ps.updates, data)
      && (forall ord :: ord in ps.updates <==> ord in data && ord.price in b.orders && b.orders[ord.price].size != ord.size)
  {
    MergeDeletes(b, data, order);
    forall p ensures p in order <==> p in b.orders && p !in Listed(data) {
      assert p in order <==> p in Elements(order);
      KeptPrices(b, data, p);
    }
    if order != [] {
      forall i | 0 <= i < |order| ensures |Lookup(b.orders, order)| == |order| && Lookup(b.orders, order)[i] == b.orders[order[i]] {
        LookupAt(b.orders, order, i);
      }
    }
    var c := ApplyOrders(b, Delete, Lookup(b.orders, order)).0;
    var added, resized := IsAdded(AddedPrices(b, data)), IsResized(Elements(b.asks) + Elements(b.bids), c.orders);
    MergeInserts(b, data, c);
    MergeUpdates(b, data, c, ApplyOrders(c, Insert, Filter(data, added)).0);
    FilterDistinct(data, added);
    FilterDistinct(data, resized);
    FilterInOrder(data, added);
    FilterInOrder(data, resized);
  }

  lemma SameEntry(data: seq<Order>, o: Order, p: Order)
    requires DistinctPrices(data) && o in data && p in data && o.price == p.price
    ensures o == p
  {
    var i :| 0 <= i < |data| && data[i] == o;
    var j :| 0 <= j < |data| && data[j] == p;
  }

  /** Entry by entry: kept and resized, kept as it was, or inserted. */
  lemma MergedEntries(b: Book, data: seq<Order>, c: map<Price, Order>, ins: seq<Order>, d: map<Price, Order>,
                      upd: seq<Order>, e: map<Price, Order>, ord: Order)
    requires DistinctPrices(data) && ord in data
    requires ord.price in b.orders ==> ord.price in c && c[ord.price] == b.orders[ord.price]
    requires ord.price in c ==> ord.price in d && d[ord.price] == c[ord.price]
    requires ord.price !in b.orders ==> ord.price in d && d[ord.price] == ord
    requires e.Keys == d.Keys
    requires ord.price !in PricesOf(upd) && ord.price in d ==> e[ord.price] == d[ord.price]
    requires ord in upd && ord.price in d ==> e[ord.price] == d[ord.price].(size := ord.size)
    requires forall o :: o in upd <==> o in data && o.price in b.orders && b.orders[o.price].size != o.size
    ensures ord.price in e && e[ord.price] == Merged(b, ord)
  {
    if ord !in upd && ord.price in PricesOf(upd) {
      var i :| 0 <= i < |upd| && upd[i].price == ord.price;
      assert upd[i] in upd;
      SameEntry(data, upd[i], ord);
    }
  }

  /** After a merge the book holds exactly the prices of the partial, on its sides and with its sizes. */
  lemma MergeResult(b: Book, data: seq<Order>, order: seq<Price>)
    requires Inv(b) && Mergeable(b, data) && Enumerates(order, DeletedPrices(b, data))
    requires forall p :: p in order ==> p in b.orders
    ensures var e := ApplyPatches(b, MergePatches(b, data, order));
      && Inv(e) && e.orders.Keys == Listed(data)
      && forall ord :: ord in data && ord.side.Known() ==> ord.price in e.orders && e.orders[ord.price] == Merged(b, ord)
  {
    MergeWellFormed(b, data, order);
    var c := ApplyOrders(b, Delete, Lookup(b.orders, order)).0;
    MergeInserts(b, data, c);
    var ins := Filter(data, IsAdded(AddedPrices(b, data)));
    var d := ApplyOrders(c, Insert, ins).0;
    MergeUpdates(b, data, c, d);
    var upd := Filter(data, IsResized(Elements(b.asks) + Elements(b.bids), c.orders));
    var e := ApplyOrders(d, Update, upd).0;
    forall ord | ord in data && ord.side.Known()
      ensures ord.price in e.orders && e.orders[ord.price] == Merged(b, ord)
    {
      ListedPrice(data, ord);
      MergedEntries(b, data, c.orders, ins, d.orders, upd, e.orders, ord);
    }
    SamePrices(b, data, ins, c, e);
  }

  lemma SamePrices(b: Book, data: seq<Order>, ins: seq<Order>, c: Book, e: Book)
    requires DistinctPrices(data) && Kept(b, data, c)
    requires forall ord :: ord in ins <==> ord in data && ord.side.Known() && ord.price !in b.orders
    requires forall p :: p in e.orders <==> p in c.orders || p in PricesOf(ins)
    ensures e.orders.Keys == Listed(data)
  {
    forall p ensures p in PricesOf(ins) <==> p in Listed(data) && p !in b.orders {
      if p in PricesOf(ins) {
        var i :| 0 <= i < |ins| && ins[i].price == p;
        assert ins[i] in ins;
        ListedPrice(data, ins[i]);
      }
      if p in Listed(data) && p !in b.orders {
        ListedEntry(data, p);
        var ord :| ord in data && ord.price == p && ord.side.Known();
        assert ord in ins;
      }
    }
    assert forall p :: p in e.orders.Keys <==> p in Listed(data);
  }

  /** Each side ends up with exactly the prices that the partial lists for it. */
  lemma MergeSides(b: Book, data: seq<Order>, order: seq<Price>, side: Side)
    requires Inv(b) && Mergeable(b, data) && Enumerates(order, DeletedPrices(b, data)) && side.Known()
    requires forall p :: p in order ==> p in b.orders
    ensures Elements(ApplyPatches(b, MergePatches(b, data, order)).Prices(side)) == Elements(PricesOn(data, side))
  {
    MergeResult(b, data, order);
    var e := ApplyPatches(b, MergePatches(b, data, order));
    forall p ensures p in e.Prices(side) <==> p in PricesOn(data, side) {
      PricesOnHolds(data, side, p);
      if p in e.orders {
        assert p in Listed(data);
        ListedEntry(data, p);
        var ord :| ord in data && ord.price == p && ord.side.Known();
        assert e.orders[p].side == ord.side;
        assert p in PricesOn(data, side) ==> ord.side == side by {
          forall other | other in data && other.price == p ensures other == ord {
            SameEntry(data, other, ord);
          }
        }
      }
    }
  }

  /** The order in which the deleted prices come out of the set does not matter for the book. */
  lemma MergeDeterminate(b: Book, data: seq<Order>, order: seq<Price>, order': seq<Price>)
    requires Inv(b) && Mergeable(b, data)
    requires Enumerates(order, DeletedPrices(b, data)) && Enumerates(order', DeletedPrices(b, data))
    requires forall p :: p in order || p in order' ==> p in b.orders
    ensures ApplyPatches(b, MergePatches(b, data, order)) == ApplyPatches(b, MergePatches(b, data, order'))
  {
    MergeResult(b, data, order);
    MergeResult(b, data, order');
    SameMerge(b, data, ApplyPatches(b, MergePatches(b, data, order)), ApplyPatches(b, MergePatches(b, data, order')));
  }

  lemma SameMerge(b: Book, data: seq<Order>, e: Book, f: Book)
    requires Inv(e) && Inv(f) && e.orders.Keys == Listed(data) && f.orders.Keys == Listed(data)
    requires forall ord :: ord in data && ord.side.Known() ==> ord.price in e.orders && e.orders[ord.price] == Merged(b, ord)
    requires forall ord :: ord in data && ord.side.Known() ==> ord.price in f.orders && f.orders[ord.price] == Merged(b, ord)
    ensures e == f
  {
    forall p | p in Listed(data) ensures e.orders[p] == f.orders[p] {
      ListedEntry(data, p);
    }
    assert e.orders == f.orders;
    BookDetermined(e, f);
  }

  /** Merging a loadable partial that lists both sides leaves the lists, sizes and best quotes that loading it into an
      empty cache would; only the ids of repeated prices are the old ones. */
  lemma MergeIsLoad(b: Book, data: seq<Order>, order: seq<Price>)
    requires Inv(b) && Mergeable(b, data) && Enumerates(order, DeletedPrices(b, data)) && BothListed(data) && Loadable(data)
    requires forall p :: p in order ==> p in b.orders
    ensures var e, f := ApplyPatches(b, MergePatches(b, data, order)), Load(data);
      && e.asks == f.asks && e.bids == f.bids && e.askQuote == f.askQuote && e.bidQuote == f.bidQuote
      && e.orders.Keys == f.orders.Keys
      && forall p :: p in e.orders ==> e.orders[p].size == f.orders[p].size
  {
    var e, f := ApplyPatches(b, MergePatches(b, data, order)), Load(data);
    MergeResult(b, data, order);
    LoadInvIff(data);
    SameLists(e.asks, f.asks, true) by { MergeSides(b, data, order, Sell); }
    SameLists(e.bids, f.bids, false) by {
      MergeSides(b, data, order, Buy);
      ReversedPrices(PricesOn(data, Buy));
    }
    SameKeys(e, f);
    forall p | p in e.orders ensures e.orders[p].size == f.orders[p].size {
      SameSize(b, data, e, p);
    }
    LastSame(e, f);
  }

  lemma SameSize(b: Book, data: seq<Order>, e: Book, p: Price)
    requires DistinctPrices(data) && p in Listed(data)
    requires forall ord :: ord in data && ord.side.Known() ==> ord.price in e.orders && e.orders[ord.price] == Merged(b, ord)
    ensures p in e.orders && p in MapOf(data) && e.orders[p].size == MapOf(data)[p].size
  {
    ListedEntry(data, p);
    var ord :| ord in data && ord.price == p && ord.side.Known();
    var i :| 0 <= i < |data| && data[i] == ord;
    LoadedEntry(data, i);
  }

  lemma SameKeys(e: Book, f: Book)
    requires Inv(e) && Inv(f) && e.asks == f.asks && e.bids == f.bids
    ensures e.orders.Keys == f.orders.Keys
  {
    forall p ensures p in e.orders <==> p in f.orders {
      assert p in e.orders ==> p in e.Prices(e.orders[p].side);
      assert p in f.orders ==> p in f.Prices(f.orders[p].side);
      assert p in e.asks || p in e.bids ==> p in e.orders && p in f.orders;
    }
  }

  lemma SameLists(l: seq<Price>, m: seq<Price>, reverse: bool)
    requires Sorted(l, reverse) && Sorted(m, reverse) && Elements(l) == Elements(m)
    ensures l == m
  {
    assert forall p :: p in l <==> p in Elements(l);
    assert forall p :: p in m <==> p in Elements(m);
    SortedUnique(l, m, reverse);
  }

  lemma LastSame(e: Book, f: Book)
    requires Inv(e) && Inv(f) && e.asks == f.asks && e.bids == f.bids
    requires forall p :: p in e.orders ==> p in f.orders && e.orders[p].size == f.orders[p].size
    ensures e.askQuote == f.askQuote && e.bidQuote == f.bidQuote
  {
    assert e.asks != [] ==> e.asks[|e.asks| - 1] in e.asks;
    assert e.bids != [] ==> e.bids[|e.bids| - 1] in e.bids;
  }

  /** Of the orders that a partial lists at one price, on a known side, loading keeps the last. */
  lemma {:induction false} LoadedEntry(data: seq<Order>, i: nat)
    requires i < |data| && data[i].side.Known()
    requires forall j :: i < j < |data| && data[j].side.Known() ==> data[j].price != data[i].price
    ensures data[i].price in MapOf(data) && MapOf(data)[data[i].price] == data[i]
    decreases |data|
  {
    if i < |data| - 1 {
      LoadedEntry(data[..|data| - 1], i);
    }
  }

  // ---------------------------------------------------------------- when the deletes are safe

  ghost predicate KeepsSides(b: Book, c: Book) {
    forall side: Side :: b.Prices(side) != [] ==> c.Prices(side) != []
  }

  lemma KeepsBoth(b: Book, c: Book)
    requires KeepsSides(b, c)
    ensures BothSides(b) ==> BothSides(c)
  {
    assert b.Prices(Sell) == b.asks && b.Prices(Buy) == b.bids;
    assert c.Prices(Sell) == c.asks && c.Prices(Buy) == c.bids;
  }

  lemma DeleteKeepsSides(c: Book, ord: Order)
    requires DeleteSafe(c, ord)
    ensures KeepsSides(c, DeleteOrder(c, ord).book)
  {
  }

  /** A message that is safe, failing or not, never takes the last order of a side. */
  lemma {:induction false} SafeKeepsSides(b: Book, action: Action, data: seq<Order>)
    requires SafeAll(b, action, data)
    ensures KeepsSides(b, ApplyOrders(b, action, data).0)
    decreases |data|
  {
    if data != [] {
      var front, ord := data[..|data| - 1], data[|data| - 1];
      var (c, err) := ApplyOrders(b, action, front);
      SafeKeepsSides(b, action, front);
      if err == NoError && action.Delete? {
        DeleteKeepsSides(c, ord);
      }
    }
  }

  lemma SafeDelete(c: Book, ord: Order)
    requires Inv(c) && ord.price in c.orders && c.orders[ord.price].side == ord.side && DeleteSafe(c, ord)
    ensures WellFormed(c, Delete, ord)
    ensures KeepsSides(c, DeleteOrder(c, ord).book)
  {
    SafeLeavesBest(c, ord);
    var now := Removed(c.Prices(ord.side), ord.price, ord.side.Sell?);
    RemovedPrices(c.Prices(ord.side), ord.price, ord.side.Sell?);
    assert now[0] in now && ord.price in c.Prices(ord.side);
  }

  /** Deletes that never empty a side leave every side something. */
  lemma {:induction false} SafeDeletes(b: Book, order: seq<Price>)
    requires Inv(b) && (forall p :: p in order ==> p in b.orders)
    requires forall i, j :: 0 <= i < j < |order| ==> order[i] != order[j]
    requires SafeAll(b, Delete, Lookup(b.orders, order))
    ensures WellFormedAll(b, Delete, Lookup(b.orders, order))
    ensures var c := ApplyOrders(b, Delete, Lookup(b.orders, order)).0;
      c.orders == b.orders - Elements(order) && KeepsSides(b, c)
    decreases |order|
  {
    if order != [] {
      var front, p := order[..|order| - 1], order[|order| - 1];
      assert order == front + [p] && p in order;
      LookupSnoc(b.orders, front, p, order);
      var dels := Lookup(b.orders, front);
      assert Lookup(b.orders, order)[..|dels|] == dels;
      SafeDeletes(b, front);
      SafeDeletesStep(b, front, p, order);
    }
  }

  lemma SafeDeletesStep(b: Book, front: seq<Price>, p: Price, order: seq<Price>)
    requires Inv(b) && p in b.orders && order == front + [p] && p !in front && forall q :: q in front ==> q in b.orders
    requires WellFormedAll(b, Delete, Lookup(b.orders, front)) && SafeAll(b, Delete, Lookup(b.orders, front) + [b.orders[p]])
    requires var c := ApplyOrders(b, Delete, Lookup(b.orders, front)).0;
      c.orders == b.orders - Elements(front) && KeepsSides(b, c)
    ensures var run := Lookup(b.orders, front) + [b.orders[p]];
      var c := ApplyOrders(b, Delete, run).0;
      && WellFormedAll(b, Delete, run)
      && c.orders == b.orders - Elements(order) && KeepsSides(b, c)
  {
    var dels, ord := Lookup(b.orders, front), b.orders[p];
    OrdersKeepInv(b, Delete, dels);
    var c := ApplyOrders(b, Delete, dels).0;
    NextSafe(b, Delete, dels + [ord], |dels|) by { assert (dels + [ord])[..|dels|] == dels; }
    assert (dels + [ord])[..|dels|] == dels;
    SafeOneMore(b, c, front, p, order);
    RunSnoc(b, Delete, dels, ord);
  }

  lemma SafeOneMore(b: Book, c: Book, front: seq<Price>, p: Price, order: seq<Price>)
    requires Inv(c) && p in b.orders && order == front + [p] && p !in front
    requires c.orders == b.orders - Elements(front) && KeepsSides(b, c) && DeleteSafe(c, b.orders[p])
    requires b.orders[p].price == p
    ensures WellFormed(c, Delete, b.orders[p])
    ensures var d := ApplyOrder(c, Delete, b.orders[p]).book; d.orders == b.orders - Elements(order) && KeepsSides(b, d)
  {
    assert p in c.orders && c.orders[p] == b.orders[p];
    SafeDelete(c, b.orders[p]);
    OrderKeepsInv(c, Delete, b.orders[p]);
    assert Elements(order) == Elements(front) + {p};
    DropTwice(b.orders, Elements(front), p);
  }

  /** The deletes of a merge go through, in any order of the set, exactly when the partial repeats a
      price of every side that the book has; otherwise handleDelete empties a side and indexes an
      empty list. */
  lemma MergeSafeIff(b: Book, data: seq<Order>, order: seq<Price>)
    requires Inv(b) && DistinctPrices(data)
    requires forall ord :: ord in data && ord.price in b.orders ==> b.orders[ord.price].side == ord.side
    requires Enumerates(order, DeletedPrices(b, data)) && forall p :: p in order ==> p in b.orders
    ensures SafeAll(b, Delete, Lookup(b.orders, order)) <==> Mergeable(b, data)
  {
    if Mergeable(b, data) {
      MergeDeletes(b, data, order);
      WellFormedIsSafe(b, Delete, Lookup(b.orders, order));
    }
    if SafeAll(b, Delete, Lookup(b.orders, order)) {
      SafeDeletes(b, order);
      OrdersKeepInv(b, Delete, Lookup(b.orders, order));
      SideSurvives(b, data, order, Sell);
      SideSurvives(b, data, order, Buy);
    }
  }

  lemma SideSurvives(b: Book, data: seq<Order>, order: seq<Price>, side: Side)
    requires Inv(b) && side.Known() && forall p :: p in order ==> p in b.orders
    requires Enumerates(order, DeletedPrices(b, data))
    requires var c := ApplyOrders(b, Delete, Lookup(b.orders, order)).0;
      Inv(c) && c.orders == b.orders - Elements(order) && (b.Prices(side) != [] ==> c.Prices(side) != [])
    ensures Survives(b.Prices(side), PricesOn(data, side))
  {
    if b.Prices(side) != [] {
      var p := ApplyOrders(b, Delete, Lookup(b.orders, order)).0.Prices(side)[0];
      assert p in ApplyOrders(b, Delete, Lookup(b.orders, order)).0.Prices(side);
      assert p in b.orders && p !in DeletedPrices(b, data) && b.orders[p].side == side;
      assert p in b.Prices(side) && p in PricesOn(data, side);
    }
  }
}
