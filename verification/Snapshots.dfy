/** The first partial, which handlePartial loads into an empty cache, and the snapshot that produces
    such a partial from a book. */
module Snapshots {
  import opened PriceLists
  import opened OrderBooks
  import opened DepthViews
  import opened Slices

  /** The prices that one side of a partial lists, in its order. */
  function PricesOn(data: seq<Order>, side: Side): seq<Price>
    decreases |data|
  {
    if data == [] then [] else
    var front, ord := PricesOn(data[..|data| - 1], side), data[|data| - 1];
    if ord.side == side then front + [ord.price] else front
  }

  /** The orders of a partial by price; those of an unknown side are skipped. */
  function MapOf(data: seq<Order>): map<Price, Order>
    decreases |data|
  {
    if data == [] then map[] else
    var front, ord := MapOf(data[..|data| - 1]), data[|data| - 1];
    if ord.side.Known() then front[ord.price := ord] else front
  }

  /** The partial lists both sides. */
  predicate BothListed(data: seq<Order>) {
    PricesOn(data, Sell) != [] && PricesOn(data, Buy) != []
  }

  /** handlePartial on an empty cache: asks are appended in the order of the data, bids are appended
      and then reversed; nothing is sorted.  It indexes the last price of each side, so it panics on a
      partial that lacks one. */
  function Load(data: seq<Order>): Book
    requires BothListed(data)
  {
    var asks, bids, orders := PricesOn(data, Sell), Reversed(PricesOn(data, Buy)), MapOf(data);
    Book(asks, bids, orders, LastQuote(asks, orders), LastQuote(bids, orders))
  }

  /** Both sides descend and share no price. */
  ghost predicate Loadable(data: seq<Order>) {
    && Sorted(PricesOn(data, Sell), true)
    && Sorted(PricesOn(data, Buy), true)
    && forall p :: p in PricesOn(data, Sell) ==> p !in PricesOn(data, Buy)
  }

  lemma ReversedPrices(l: seq<Price>)
    ensures forall p :: p in Reversed(l) <==> p in l
    decreases |l|
  {
    if l != [] {
      ReversedPrices(l[1..]);
      assert l == [l[0]] + l[1..];
    }
  }

  lemma ReversedSorted(l: seq<Price>, reverse: bool)
    ensures Sorted(Reversed(l), !reverse) <==> Sorted(l, reverse)
  {
    var r := Reversed(l);
    forall k | 0 <= k < |l| ensures r[k] == l[|l| - 1 - k] && l[k] == r[|l| - 1 - k] {
      ReversedAt(l, k);
      ReversedAt(l, |l| - 1 - k);
    }
    if Sorted(l, reverse) {
      forall i, j | 0 <= i < j < |r| ensures Before(!reverse, r[i], r[j]) {
        assert Before(reverse, l[|l| - 1 - j], l[|l| - 1 - i]);
      }
    }
    if Sorted(r, !reverse) {
      forall i, j | 0 <= i < j < |l| ensures Before(reverse, l[i], l[j]) {
        assert Before(!reverse, r[|l| - 1 - j], r[|l| - 1 - i]);
      }
    }
  }

  lemma {:induction false} MapOfSides(data: seq<Order>, p: Price)
    ensures p in MapOf(data) <==> p in PricesOn(data, Sell) || p in PricesOn(data, Buy)
    ensures p in MapOf(data) ==>
      var o := MapOf(data)[p]; o.price == p && o.side.Known() && p in PricesOn(data, o.side)
    decreases |data|
  {
    if data != [] {
      MapOfSides(data[..|data| - 1], p);
    }
  }

  /** The loaded book satisfies the invariant exactly when the partial, which must list both sides, is
      descending on each and no price stands on both. */
  lemma LoadInvIff(data: seq<Order>)
    requires BothListed(data)
    ensures Inv(Load(data)) <==> Loadable(data)
  {
    var b := Load(data);
    ReversedPrices(PricesOn(data, Buy));
    ReversedSorted(PricesOn(data, Buy), true);
    forall p ensures p in MapOf(data) <==> p in b.asks || p in b.bids {
      MapOfSides(data, p);
    }
    forall p | p in MapOf(data)
      ensures var o := MapOf(data)[p]; o.price == p && o.side.Known() && p in b.Prices(o.side)
    {
      MapOfSides(data, p);
    }
  }

  // ---------------------------------------------------------------- snapshot

  function Lookup(orders: map<Price, Order>, prices: seq<Price>): (data: seq<Order>)
    requires forall p :: p in prices ==> p in orders
    decreases |prices|
  {
    if prices == [] then [] else
    var last := prices[|prices| - 1];
    assert last in prices;
    Lookup(orders, prices[..|prices| - 1]) + [orders[last]]
  }

  function TopOrAll(l: seq<Price>, depth: int): seq<Price> {
    if depth > 0 then Top(l, depth) else l
  }

  /** Every listed price is cached. */
  ghost predicate Cached(b: Book) {
    forall p :: p in b.asks || p in b.bids ==> p in b.orders
  }

  lemma ListedPrices(b: Book, depth: int)
    requires Cached(b)
    ensures forall p :: p in TopOrAll(b.asks, depth) + Reversed(TopOrAll(b.bids, depth)) ==> p in b.orders
  {
    ReversedPrices(TopOrAll(b.bids, depth));
    forall p | p in TopOrAll(b.asks, depth) || p in TopOrAll(b.bids, depth) ensures p in b.orders {
      if p !in b.asks && depth > 0 { InTop(b.asks, p, depth); }
      if p !in b.bids && depth > 0 { InTop(b.bids, p, depth); }
    }
  }

  /** snapshot(depth): the asks, worst first, then the bids, best first. */
  function Snapshot(b: Book, depth: int): seq<Order>
    requires Cached(b)
  {
    ListedPrices(b, depth);
    Lookup(b.orders, TopOrAll(b.asks, depth) + Reversed(TopOrAll(b.bids, depth)))
  }

  lemma LoadCached(data: seq<Order>)
    requires BothListed(data)
    ensures Cached(Load(data))
  {
    ReversedPrices(PricesOn(data, Buy));
    forall p | p in Load(data).asks || p in Load(data).bids ensures p in MapOf(data) {
      MapOfSides(data, p);
    }
  }

  /** The best `depth` levels of a book; the whole book when depth is not positive. */
  function Trim(b: Book, depth: int): Book {
    Book(TopOrAll(b.asks, depth), TopOrAll(b.bids, depth), ViewOf(b, if depth > 0 then depth else 0), b.askQuote, b.bidQuote)
  }

  lemma {:induction false} LookupMap(orders: map<Price, Order>, prices: seq<Price>)
    requires Keyed(orders) && forall p :: p in prices ==> p in orders
    ensures MapOf(Lookup(orders, prices)) == Restrict(orders, prices)
    decreases |prices|
  {
    if prices != [] {
      var front, p := prices[..|prices| - 1], prices[|prices| - 1];
      LookupMap(orders, front);
      assert prices == front + [p];
      RestrictMore(orders, front, p);
    }
  }

  lemma RestrictMore(orders: map<Price, Order>, prices: seq<Price>, p: Price)
    requires p in orders
    ensures Restrict(orders, prices + [p]) == Restrict(orders, prices)[p := orders[p]]
  {
    var v, w := Restrict(orders, prices + [p]), Restrict(orders, prices)[p := orders[p]];
    assert forall x :: x in v <==> x in w;
  }

  lemma PricesOnSnoc(data: seq<Order>, ord: Order, side: Side)
    ensures PricesOn(data + [ord], side) ==
      if ord.side == side then PricesOn(data, side) + [ord.price] else PricesOn(data, side)
  {
    assert (data + [ord])[..|data|] == data;
  }

  lemma {:induction false} LookupOneSide(orders: map<Price, Order>, front: seq<Price>, l: seq<Price>, side: Side)
    requires Keyed(orders) && forall p :: p in front + l ==> p in orders
    requires forall p :: p in l ==> orders[p].side == side
    ensures PricesOn(Lookup(orders, front + l), side) == PricesOn(Lookup(orders, front), side) + l
    ensures forall other :: other != side ==> PricesOn(Lookup(orders, front + l), other) == PricesOn(Lookup(orders, front), other)
    decreases |l|
  {
    if l == [] {
      assert front + l == front;
    } else {
      var most, p := l[..|l| - 1], l[|l| - 1];
      assert l == most + [p];
      assert front + l == front + most + [p];
      assert p in l && p in front + l;
      assert forall q :: q in front + most ==> q in front + l;
      LookupOneSide(orders, front, most, side);
      LookupSnoc(orders, front + most, p, front + l);
      OneMorePrice(PricesOn(Lookup(orders, front), side), most, p, l);
    }
  }

  lemma OneMorePrice(before: seq<Price>, most: seq<Price>, p: Price, l: seq<Price>)
    requires l == most + [p]
    ensures before + most + [p] == before + l
  {
  }

  lemma LookupSide(orders: map<Price, Order>, asks: seq<Price>, bids: seq<Price>)
    requires Keyed(orders) && forall p :: p in asks + bids ==> p in orders
    requires forall p :: p in asks ==> orders[p].side == Sell
    requires forall p :: p in bids ==> orders[p].side == Buy
    ensures PricesOn(Lookup(orders, asks + bids), Sell) == asks
    ensures PricesOn(Lookup(orders, asks + bids), Buy) == bids
  {
    assert [] + asks == asks;
    LookupOneSide(orders, [], asks, Sell);
    LookupOneSide(orders, asks, bids, Buy);
  }

  lemma LookupSnoc(orders: map<Price, Order>, front: seq<Price>, p: Price, prices: seq<Price>)
    requires prices == front + [p] && forall q :: q in prices ==> q in orders
    ensures Lookup(orders, prices) == Lookup(orders, front) + [orders[p]]
    ensures forall side ::
      PricesOn(Lookup(orders, prices), side) ==
      PricesOn(Lookup(orders, front), side) + if orders[p].side == side then [orders[p].price] else []
  {
    assert prices[..|prices| - 1] == front;
    forall side {
      PricesOnSnoc(Lookup(orders, front), orders[p], side);
    }
  }

  lemma {:induction false} LookupAt(orders: map<Price, Order>, prices: seq<Price>, i: nat)
    requires (forall p :: p in prices ==> p in orders) && i < |prices|
    ensures |Lookup(orders, prices)| == |prices| && Lookup(orders, prices)[i] == orders[prices[i]]
    decreases |prices|
  {
    var front, p := prices[..|prices| - 1], prices[|prices| - 1];
    assert prices == front + [p] && p in prices;
    assert forall q :: q in front ==> q in prices;
    if front != [] {
      LookupAt(orders, front, if i < |front| then i else 0);
    }
    LookupSnoc(orders, front, p, prices);
  }

  /** How many orders of a side a snapshot takes. */
  function Taken(l: seq<Price>, depth: int): (n: nat)
    ensures n <= |l|
  {
    if 0 < depth < |l| then depth else |l|
  }

  /** The layout of a snapshot: the asks that are taken, from the worst to the best, and then the bids, from
      the best to the worst, each order as it is cached. */
  ghost predicate LaidOut(b: Book, depth: int, data: seq<Order>) {
    var m, n := Taken(b.asks, depth), Taken(b.bids, depth);
    && |data| == m + n
    && (forall i :: 0 <= i < m ==>
          var p := b.asks[|b.asks| - m + i]; p in b.orders && data[i] == b.orders[p])
    && forall i :: m <= i < m + n ==>
         var p := b.bids[|b.bids| - 1 - (i - m)]; p in b.orders && data[i] == b.orders[p]
  }

  /** The price that stands at a place of a snapshot. */
  function PriceAt(b: Book, depth: int, i: nat): (p: Price)
    requires i < Taken(b.asks, depth) + Taken(b.bids, depth)
    ensures p in b.asks || p in b.bids
  {
    var m := Taken(b.asks, depth);
    if i < m then b.asks[|b.asks| - m + i] else b.bids[|b.bids| - 1 - (i - m)]
  }

  lemma LookupAll(orders: map<Price, Order>, prices: seq<Price>)
    requires forall p :: p in prices ==> p in orders
    ensures |Lookup(orders, prices)| == |prices|
  {
    if prices != [] {
      LookupAt(orders, prices, 0);
    }
  }

  lemma ListedAt(b: Book, depth: int, i: nat)
    requires i < Taken(b.asks, depth) + Taken(b.bids, depth)
    ensures var prices := TopOrAll(b.asks, depth) + Reversed(TopOrAll(b.bids, depth));
      i < |prices| && prices[i] == PriceAt(b, depth, i)
  {
    var m, bids := Taken(b.asks, depth), TopOrAll(b.bids, depth);
    if i >= m {
      ReversedAt(bids, i - m);
    }
  }

  lemma ListedLength(b: Book, depth: int)
    ensures |TopOrAll(b.asks, depth) + Reversed(TopOrAll(b.bids, depth))| == Taken(b.asks, depth) + Taken(b.bids, depth)
  {
    if TopOrAll(b.bids, depth) != [] {
      ReversedAt(TopOrAll(b.bids, depth), 0);
    }
  }

  /** Every snapshot, also of a cache that may disagree, has this layout. */
  lemma SnapshotLaidOut(b: Book, depth: int)
    requires Cached(b)
    ensures LaidOut(b, depth, Snapshot(b, depth))
  {
    var prices := TopOrAll(b.asks, depth) + Reversed(TopOrAll(b.bids, depth));
    ListedPrices(b, depth);
    ListedLength(b, depth);
    LookupAll(b.orders, prices);
    forall i | 0 <= i < |prices|
      ensures PriceAt(b, depth, i) in b.orders && Snapshot(b, depth)[i] == b.orders[PriceAt(b, depth, i)]
    {
      ListedAt(b, depth, i);
      LookupAt(b.orders, prices, i);
    }
  }

  lemma ViewOfLists(b: Book, depth: int)
    ensures Restrict(b.orders, TopOrAll(b.asks, depth) + Reversed(TopOrAll(b.bids, depth))) ==
      Restrict(b.orders, TopOrAll(b.asks, depth)) + Restrict(b.orders, TopOrAll(b.bids, depth))
  {
    ReversedPrices(TopOrAll(b.bids, depth));
    var v := Restrict(b.orders, TopOrAll(b.asks, depth) + Reversed(TopOrAll(b.bids, depth)));
    var w := Restrict(b.orders, TopOrAll(b.asks, depth)) + Restrict(b.orders, TopOrAll(b.bids, depth));
    assert forall x :: x in v <==> x in w;
  }

  /** A snapshot lists exactly the orders of the view at its depth. */
  lemma SnapshotView(b: Book, depth: int)
    requires Inv(b)
    ensures MapOf(Snapshot(b, depth)) == ViewOf(b, if depth > 0 then depth else 0)
  {
    ListedPrices(b, depth);
    LookupMap(b.orders, TopOrAll(b.asks, depth) + Reversed(TopOrAll(b.bids, depth)));
    ViewOfLists(b, depth);
    if depth <= 0 {
      ListsAreBook(b);
    }
  }

  lemma ListsAreBook(b: Book)
    requires Inv(b)
    ensures Restrict(b.orders, b.asks) + Restrict(b.orders, b.bids) == b.orders
  {
    var v := Restrict(b.orders, b.asks) + Restrict(b.orders, b.bids);
    forall p ensures p in v <==> p in b.orders {
      if p in b.orders {
        assert p in b.Prices(b.orders[p].side);
      }
    }
  }

  lemma SnapshotSides(b: Book, depth: int)
    requires Inv(b)
    ensures PricesOn(Snapshot(b, depth), Sell) == TopOrAll(b.asks, depth)
    ensures PricesOn(Snapshot(b, depth), Buy) == Reversed(TopOrAll(b.bids, depth))
  {
    var asks, bids := TopOrAll(b.asks, depth), TopOrAll(b.bids, depth);
    ListedPrices(b, depth);
    ReversedPrices(bids);
    forall p | p in asks ensures b.orders[p].side == Sell {
      if p !in b.asks && depth > 0 { InTop(b.asks, p, depth); }
    }
    forall p | p in bids ensures b.orders[p].side == Buy {
      if p !in b.bids && depth > 0 { InTop(b.bids, p, depth); }
    }
    LookupSide(b.orders, asks, Reversed(bids));
  }

  lemma TopLast(l: seq<Price>, depth: int)
    ensures l == [] <==> TopOrAll(l, depth) == []
    ensures l != [] ==> TopOrAll(l, depth)[|TopOrAll(l, depth)| - 1] == l[|l| - 1]
  {
  }

  /** A snapshot can be loaded into an empty cache exactly when the book has both sides. */
  lemma SnapshotLoadsIff(b: Book, depth: int)
    requires Inv(b)
    ensures BothListed(Snapshot(b, depth)) <==> BothSides(b)
  {
    SnapshotSides(b, depth);
    TopLast(b.asks, depth);
    TopLast(b.bids, depth);
  }

  /** Loading the snapshot of a book with both sides into an empty cache gives exactly the best levels of
      each side, in the same internal order and with the same best quotes; at depth 0 or less, the whole
      book.  Of any other book, loading the snapshot panics. */
  lemma SnapshotRoundTrip(b: Book, depth: int)
    requires Inv(b)
    ensures BothListed(Snapshot(b, depth)) <==> BothSides(b)
    ensures BothSides(b) ==> Load(Snapshot(b, depth)) == Trim(b, depth)
    ensures BothSides(b) && depth <= 0 ==> Load(Snapshot(b, depth)) == b
  {
    SnapshotLoadsIff(b, depth);
    if BothSides(b) {
      LoadIsTrim(b, depth, Snapshot(b, depth));
      if depth <= 0 {
        assert Trim(b, depth) == b;
      }
    }
  }

  lemma LoadIsTrim(b: Book, depth: int, data: seq<Order>)
    requires Inv(b) && BothSides(b) && data == Snapshot(b, depth) && BothListed(data)
    ensures Load(data) == Trim(b, depth)
  {
    SnapshotSides(b, depth);
    SnapshotView(b, depth);
    ReversedTwice(TopOrAll(b.bids, depth));
    LoadedQuotes(b, depth);
    assert Load(data).asks == Trim(b, depth).asks && Load(data).bids == Trim(b, depth).bids;
    assert Load(data).orders == Trim(b, depth).orders;
  }

  lemma LoadedQuotes(b: Book, depth: int)
    requires Inv(b) && BothSides(b)
    ensures var v := ViewOf(b, if depth > 0 then depth else 0);
      LastQuote(TopOrAll(b.asks, depth), v) == b.askQuote && LastQuote(TopOrAll(b.bids, depth), v) == b.bidQuote
  {
    TopLast(b.asks, depth);
    TopLast(b.bids, depth);
    ListedPrices(b, depth);
    ViewHolds(b, depth);
  }

  lemma ViewHolds(b: Book, depth: int)
    requires Inv(b)
    ensures var v := ViewOf(b, if depth > 0 then depth else 0);
      forall p :: p in TopOrAll(b.asks, depth) || p in TopOrAll(b.bids, depth) ==> p in v && p in b.orders && v[p] == b.orders[p]
  {
    ReversedPrices(TopOrAll(b.bids, depth));
    ListedPrices(b, depth);
  }

  // ---------------------------------------------------------------- replication

  /** A run of deltas on a book. */
  function Replay(b: Book, msgs: seq<Message>): Book
    decreases |msgs|
  {
    if msgs == [] then b else
    var msg := msgs[|msgs| - 1];
    ApplyOrders(Replay(b, msgs[..|msgs| - 1]), msg.action, msg.data).0
  }

  ghost predicate WellFormedRun(b: Book, msgs: seq<Message>)
    decreases |msgs|
  {
    msgs != [] ==>
      var front, msg := msgs[..|msgs| - 1], msgs[|msgs| - 1];
      WellFormedRun(b, front) && WellFormedAll(Replay(b, front), msg.action, msg.data)
  }

  /** The book's invariant over all runs, and replication: a cache that loads a full snapshot, of a book
      with both sides, and gets the same deltas is the source's book, in all four forms, after every
      message. */
  lemma {:induction false} Replication(b: Book, msgs: seq<Message>)
    requires Inv(b) && WellFormedRun(b, msgs)
    ensures Inv(Replay(b, msgs))
    ensures BothListed(Snapshot(b, 0)) <==> BothSides(b)
    ensures BothSides(b) ==>
      WellFormedRun(Load(Snapshot(b, 0)), msgs) && Replay(Load(Snapshot(b, 0)), msgs) == Replay(b, msgs)
    decreases |msgs|
  {
    SnapshotRoundTrip(b, 0);
    if msgs != [] {
      var front, msg := msgs[..|msgs| - 1], msgs[|msgs| - 1];
      Replication(b, front);
      OrdersKeepInv(Replay(b, front), msg.action, msg.data);
    }
  }
}
