/** The depth-limited streams of applyData: a reader of channel `limit` sees the best `limit` orders
    of each side.  Each message goes out as its in-view orders, then as the makeup orders that
    enter or leave the view because of them. */
module DepthViews {
  import opened PriceLists
  import opened OrderBooks
  import opened Wrappers

  type View = map<Price, Order>

  function Top(l: seq<Price>, limit: nat): seq<Price> {
    if |l| <= limit then l else l[|l| - limit..]
  }

  function Restrict(orders: map<Price, Order>, prices: seq<Price>): View {
    map p | p in orders && p in prices :: orders[p]
  }

  /** What a reader of channel `limit` should hold; channel 0 carries the whole book. */
  function ViewOf(b: Book, limit: nat): View {
    if limit == 0 then b.orders
    else Restrict(b.orders, Top(b.asks, limit)) + Restrict(b.orders, Top(b.bids, limit))
  }

  /** The two responses that applyData fills for one channel. */
  datatype Limited = Limited(primary: seq<Order>, makeup: seq<Order>)

  function LimitOrder(l: Limited, r: Reply, action: Action, ord: Order, limit: nat): Limited
    requires limit > 0
  {
    if r.depth > limit then l else
    var makeup :=
      match action
      case Delete => OrderOnDepth(r.book, ord.side, limit)
      case Insert => OrderOnDepth(r.book, ord.side, limit + 1)
      case _ => None;
    Limited(l.primary + [ord], if makeup.Some? then l.makeup + [makeup.value] else l.makeup)
  }

  function LimitOrders(b: Book, action: Action, data: seq<Order>, limit: nat): Limited
    requires limit > 0
    decreases |data|
  {
    if data == [] then Limited([], []) else
    var front, ord := data[..|data| - 1], data[|data| - 1];
    LimitOrder(LimitOrders(b, action, front, limit), ApplyOrder(ApplyOrders(b, action, front).0, action, ord), action, ord, limit)
  }

  // ---------------------------------------------------------------- one order

  lemma TopBelow(l: seq<Price>, p: Price, idx: nat, limit: nat)
    requires idx <= |l| && |l| + 1 - idx > limit
    ensures Top(l[..idx] + [p] + l[idx..], limit) == Top(l, limit)
  {
  }

  lemma TopSlides(l: seq<Price>, p: Price, idx: nat, limit: nat)
    requires 0 < limit && idx <= |l| && |l| + 1 - idx <= limit <= |l|
    ensures var cut := |l| - limit;
      && Top(l, limit) == [l[cut]] + (l[cut + 1..idx] + l[idx..])
      && Top(l[..idx] + [p] + l[idx..], limit) == l[cut + 1..idx] + [p] + l[idx..]
      && (l[..idx] + [p] + l[idx..])[cut] == l[cut]
  {
    var cut := |l| - limit;
    assert l[cut..] == l[cut..idx] + l[idx..] && l[cut..idx] == [l[cut]] + l[cut + 1..idx];
    var now := l[..idx] + [p] + l[idx..];
    assert now[cut + 1..] == l[cut + 1..idx] + [p] + l[idx..];
  }

  lemma TopPushesOut(l: seq<Price>, p: Price, idx: nat, limit: nat, reverse: bool)
    requires Sorted(l, reverse) && p !in l && limit > 0
    requires idx <= |l| && |l| + 1 - idx <= limit <= |l|
    ensures var now, out := l[..idx] + [p] + l[idx..], l[|l| - limit];
      && out == now[|l| - limit] && out in Top(l, limit) && out != p
      && forall x :: x in Top(now, limit) <==> (x in Top(l, limit) || x == p) && x != out
  {
    TopSlides(l, p, idx, limit);
    var cut := |l| - limit;
    assert l[cut] in l && l[cut] !in l[cut + 1..idx] && l[cut] !in l[idx..];
  }

  /** Where an insert falls decides what the top of the list gains and loses. */
  lemma InsertedTop(l: seq<Price>, p: Price, reverse: bool, limit: nat)
    requires Sorted(l, reverse) && p !in l && limit > 0
    ensures var now := Inserted(l, p, reverse);
      var depth := |now| - Position(l, p, reverse);
      if depth > limit then Top(now, limit) == Top(l, limit)
      else if |now| <= limit then forall x :: x in Top(now, limit) <==> x in Top(l, limit) || x == p
      else var out := now[|now| - limit - 1];
        && out in Top(l, limit) && out != p
        && forall x :: x in Top(now, limit) <==> (x in Top(l, limit) || x == p) && x != out
  {
    var now, idx := Inserted(l, p, reverse), Position(l, p, reverse);
    if |now| - idx > limit {
      TopBelow(l, p, idx, limit);
    } else if |now| <= limit {
      InsertedPrices(l, p, reverse);
    } else {
      TopPushesOut(l, p, idx, limit, reverse);
    }
  }

  /** A delete is an insert read backwards. */
  lemma RemovedTop(l: seq<Price>, p: Price, reverse: bool, limit: nat)
    requires Sorted(l, reverse) && p in l && limit > 0
    ensures var now := Removed(l, p, reverse);
      var depth := |l| - UniPriceSearch(l, p, reverse);
      && (p in Top(l, limit) <==> depth <= limit)
      && if depth > limit then Top(now, limit) == Top(l, limit)
         else if |now| < limit then forall x :: x in Top(now, limit) <==> x in Top(l, limit) && x != p
         else var enter := now[|now| - limit];
           && enter !in Top(l, limit) && enter in now
           && forall x :: x in Top(now, limit) <==> (x in Top(l, limit) && x != p) || x == enter
  {
    var now := Removed(l, p, reverse);
    RemovedSorted(l, p, reverse);
    RemovedPrices(l, p, reverse);
    AddAfterRemove(l, p, reverse);
    InsertedTop(now, p, reverse, limit);
    assert p !in Top(now, limit);
  }

  lemma RestrictGains(orders: map<Price, Order>, t: seq<Price>, u: seq<Price>, ord: Order)
    requires forall x :: x in u <==> x in t || x == ord.price
    ensures Restrict(orders[ord.price := ord], u) == Restrict(orders, t)[ord.price := ord]
  {
    var v, w := Restrict(orders, t)[ord.price := ord], Restrict(orders[ord.price := ord], u);
    assert forall x :: x in v <==> x in w;
  }

  lemma RestrictSwaps(orders: map<Price, Order>, t: seq<Price>, u: seq<Price>, ord: Order, out: Price)
    requires forall x :: x in u <==> (x in t || x == ord.price) && x != out
    requires out != ord.price
    ensures Restrict(orders[ord.price := ord], u) == Restrict(orders, t)[ord.price := ord] - {out}
  {
    var v, w := Restrict(orders, t)[ord.price := ord] - {out}, Restrict(orders[ord.price := ord], u);
    assert forall x :: x in v <==> x in w;
  }

  lemma RestrictLoses(orders: map<Price, Order>, t: seq<Price>, u: seq<Price>, p: Price)
    requires forall x :: x in u <==> x in t && x != p
    ensures Restrict(orders - {p}, u) == Restrict(orders, t) - {p}
  {
    var v, w := Restrict(orders, t) - {p}, Restrict(orders - {p}, u);
    assert forall x :: x in v <==> x in w;
  }

  lemma RestrictTrades(orders: map<Price, Order>, t: seq<Price>, u: seq<Price>, p: Price, enter: Price)
    requires forall x :: x in u <==> (x in t && x != p) || x == enter
    requires enter in orders && enter != p
    ensures Restrict(orders - {p}, u) == (Restrict(orders, t) - {p})[enter := orders[enter]]
  {
    var v, w := (Restrict(orders, t) - {p})[enter := orders[enter]], Restrict(orders - {p}, u);
    assert forall x :: x in v <==> x in w;
  }

  lemma RestrictChanges(orders: map<Price, Order>, t: seq<Price>, ord: Order)
    requires ord.price in orders
    ensures Restrict(orders[ord.price := ord], t) ==
      if ord.price in t then Restrict(orders, t)[ord.price := ord] else Restrict(orders, t)
  {
    var v, w := Restrict(orders, t), Restrict(orders[ord.price := ord], t);
    assert forall x :: x in w <==> x in v;
    assert ord.price in t ==> w == v[ord.price := ord];
    assert ord.price !in t ==> w == v;
  }

  lemma RestrictElsewhere(orders: map<Price, Order>, changed: map<Price, Order>, t: seq<Price>, at: Price)
    requires at !in t && changed - {at} == orders - {at}
    ensures Restrict(changed, t) == Restrict(orders, t) && at !in Restrict(orders, t)
  {
    forall p | p in t
      ensures (p in orders <==> p in changed) && (p in orders ==> orders[p] == changed[p])
    {
      assert p in orders <==> p in orders - {at};
      assert p in changed <==> p in changed - {at};
      assert p in orders ==> orders[p] == (orders - {at})[p];
      assert p in changed ==> changed[p] == (changed - {at})[p];
    }
  }

  lemma InTop(l: seq<Price>, p: Price, limit: nat)
    requires p !in l
    ensures p !in Top(l, limit)
  {
  }

  lemma InsertBelow(l: seq<Price>, orders: map<Price, Order>, ord: Order, limit: nat)
    requires ord.price !in l
    ensures Restrict(orders[ord.price := ord], Top(l, limit)) == Restrict(orders, Top(l, limit))
  {
    InTop(l, ord.price, limit);
    assert orders[ord.price := ord] - {ord.price} == orders - {ord.price};
    RestrictElsewhere(orders, orders[ord.price := ord], Top(l, limit), ord.price);
  }

  lemma InsertSideView(l: seq<Price>, side: Side, orders: map<Price, Order>, quote: Quote, ord: Order, limit: nat)
    requires SideInv(l, side, orders, quote) && ord.price !in orders && limit > 0
    ensures var now := Inserted(l, ord.price, side.Sell?);
      var v, w := Restrict(orders, Top(l, limit)), Restrict(orders[ord.price := ord], Top(now, limit));
      if |now| - Position(l, ord.price, side.Sell?) > limit then w == v
      else if |now| <= limit then w == v[ord.price := ord]
      else now[|now| - limit - 1] in v && w == v[ord.price := ord] - {now[|now| - limit - 1]}
  {
    var now := Inserted(l, ord.price, side.Sell?);
    InsertedTop(l, ord.price, side.Sell?, limit);
    if |now| - Position(l, ord.price, side.Sell?) > limit {
      InsertBelow(l, orders, ord, limit);
    } else if |now| <= limit {
      RestrictGains(orders, Top(l, limit), Top(now, limit), ord);
    } else {
      var out := now[|now| - limit - 1];
      RestrictSwaps(orders, Top(l, limit), Top(now, limit), ord, out);
      assert out in l by { if out !in l { InTop(l, out, limit); } }
    }
  }

  lemma DeleteSideView(l: seq<Price>, side: Side, orders: map<Price, Order>, quote: Quote, price: Price, limit: nat)
    requires SideInv(l, side, orders, quote) && price in l && limit > 0
    ensures var now := Removed(l, price, side.Sell?);
      var v, w := Restrict(orders, Top(l, limit)), Restrict(orders - {price}, Top(now, limit));
      var depth := |l| - UniPriceSearch(l, price, side.Sell?);
      && (price in v <==> depth <= limit)
      && if depth > limit then w == v
         else if |now| < limit then w == v - {price}
         else var enter := now[|now| - limit];
           && enter in orders && enter != price && enter !in v
           && w == (v - {price})[enter := orders[enter]]
  {
    var now := Removed(l, price, side.Sell?);
    RemovedTop(l, price, side.Sell?, limit);
    if |l| - UniPriceSearch(l, price, side.Sell?) > limit {
      RestrictElsewhere(orders, orders - {price}, Top(l, limit), price);
    } else if |now| < limit {
      RestrictLoses(orders, Top(l, limit), Top(now, limit), price);
    } else {
      var enter := now[|now| - limit];
      assert enter in now;
      RemovedPrices(l, price, side.Sell?);
      RestrictTrades(orders, Top(l, limit), Top(now, limit), price, enter);
    }
  }

  function Opposite(side: Side): Side {
    if side.Sell? then Buy else Sell
  }

  lemma SidesApart(b: Book, side: Side, limit: nat)
    requires Inv(b) && side.Known()
    ensures forall p :: p in Top(b.Prices(side), limit) ==> p !in Top(b.Prices(Opposite(side)), limit)
  {
    forall p | p in Top(b.Prices(side), limit)
      ensures p !in Top(b.Prices(Opposite(side)), limit)
    {
      if p !in b.Prices(side) { InTop(b.Prices(side), p, limit); }
      InTop(b.Prices(Opposite(side)), p, limit);
    }
  }

  /** The part of the view that one side fills. */
  function Half(b: Book, side: Side, limit: nat): View {
    Restrict(b.orders, Top(b.Prices(side), limit))
  }

  /** The view is the disjoint union of its two sides. */
  lemma ViewSplit(b: Book, side: Side, limit: nat)
    requires Inv(b) && side.Known() && limit > 0
    ensures Half(b, side, limit).Keys !! Half(b, Opposite(side), limit).Keys
    ensures ViewOf(b, limit) == Half(b, side, limit) + Half(b, Opposite(side), limit)
  {
    SidesApart(b, side, limit);
    RestrictApart(b.orders, Top(b.Prices(side), limit), Top(b.Prices(Opposite(side)), limit));
    if side.Buy? {
      JoinEither(Half(b, side, limit), Half(b, Opposite(side), limit));
    }
  }

  lemma RestrictApart(orders: map<Price, Order>, t: seq<Price>, u: seq<Price>)
    requires forall p :: p in t ==> p !in u
    ensures Restrict(orders, t).Keys !! Restrict(orders, u).Keys
  {
    forall p | p in Restrict(orders, t).Keys ensures p !in Restrict(orders, u).Keys {
      assert p in t;
    }
  }

  lemma JoinEither(v: View, w: View)
    requires v.Keys !! w.Keys
    ensures v + w == w + v
  {
  }

  lemma OtherHalf(b: Book, c: Book, side: Side, p: Price, limit: nat)
    requires Inv(b) && side.Known()
    requires c.Prices(Opposite(side)) == b.Prices(Opposite(side)) && c.orders - {p} == b.orders - {p}
    requires p !in b.orders || b.orders[p].side == side
    ensures Half(c, Opposite(side), limit) == Half(b, Opposite(side), limit)
    ensures p !in Half(b, Opposite(side), limit)
  {
    InTop(b.Prices(Opposite(side)), p, limit);
    RestrictElsewhere(b.orders, c.orders, Top(b.Prices(Opposite(side)), limit), p);
  }

  lemma OnDepthPrice(b: Book, side: Side, depth: nat)
    requires Inv(b) && side.Known() && depth > 0
    ensures var o := OrderOnDepth(b, side, depth);
      if depth > |b.Prices(side)| then o == None
      else
        && o.Some? && o.value.price == b.Prices(side)[|b.Prices(side)| - depth]
        && o.value.price in b.orders && o.value == b.orders[o.value.price]
  {
    var l := b.Prices(side);
    if depth <= |l| {
      assert l[|l| - depth] in l;
    }
  }

  lemma InsertHalf(b: Book, ord: Order, limit: nat)
    requires Inv(b) && WellFormed(b, Insert, ord) && limit > 0
    ensures var r := InsertOrder(b, ord);
      var v, w := Half(b, ord.side, limit), Half(r.book, ord.side, limit);
      var out := OrderOnDepth(r.book, ord.side, limit + 1);
      if r.depth > limit then w == v
      else if out.None? then w == v[ord.price := ord]
      else out.value.price in v && w == v[ord.price := ord] - {out.value.price}
  {
    InsertKeepsInv(b, ord);
    InsertReply(b, ord);
    InsertHalfOf(b, ord, limit, InsertOrder(b, ord));
  }

  lemma InsertReply(b: Book, ord: Order)
    requires Inv(b) && WellFormed(b, Insert, ord)
    ensures var r := InsertOrder(b, ord);
      && r.book.Prices(ord.side) == Inserted(b.Prices(ord.side), ord.price, ord.side.Sell?)
      && r.book.orders == b.orders[ord.price := ord]
      && r.depth == |r.book.Prices(ord.side)| - Position(b.Prices(ord.side), ord.price, ord.side.Sell?)
  {
  }

  lemma InsertHalfOf(b: Book, ord: Order, limit: nat, r: Reply)
    requires Inv(b) && Inv(r.book) && WellFormed(b, Insert, ord) && limit > 0
    requires r.book.Prices(ord.side) == Inserted(b.Prices(ord.side), ord.price, ord.side.Sell?)
    requires r.book.orders == b.orders[ord.price := ord]
    requires r.depth == |r.book.Prices(ord.side)| - Position(b.Prices(ord.side), ord.price, ord.side.Sell?)
    ensures var v, w := Half(b, ord.side, limit), Half(r.book, ord.side, limit);
      var out := OrderOnDepth(r.book, ord.side, limit + 1);
      if r.depth > limit then w == v
      else if out.None? then w == v[ord.price := ord]
      else out.value.price in v && w == v[ord.price := ord] - {out.value.price}
  {
    InsertSideView(b.Prices(ord.side), ord.side, b.orders, b.BestQuote(ord.side), ord, limit);
    OnDepthPrice(r.book, ord.side, limit + 1);
  }

  lemma DeleteHalf(b: Book, ord: Order, limit: nat)
    requires Inv(b) && WellFormed(b, Delete, ord) && limit > 0
    ensures var r := DeleteOrder(b, ord);
      var v, w := Half(b, ord.side, limit), Half(r.book, ord.side, limit);
      var enter := OrderOnDepth(r.book, ord.side, limit);
      && (ord.price in v <==> r.depth <= limit)
      && if r.depth > limit then w == v
         else if enter.None? then w == v - {ord.price}
         else
           && enter.value.price !in v && enter.value.price in b.Prices(ord.side)
           && w == (v - {ord.price})[enter.value.price := enter.value]
  {
    DeleteSideView(b.Prices(ord.side), ord.side, b.orders, b.BestQuote(ord.side), ord.price, limit);
    DeleteKeepsInv(b, ord);
    OnDepthPrice(DeleteOrder(b, ord).book, ord.side, limit);
  }

  lemma UpdateHalf(b: Book, ord: Order, limit: nat)
    requires Inv(b) && WellFormed(b, Update, ord) && limit > 0
    ensures var r := UpdateOrder(b, ord);
      var v, w := Half(b, ord.side, limit), Half(r.book, ord.side, limit);
      && (ord.price in v <==> r.depth <= limit)
      && w == if r.depth > limit then v else v[ord.price := v[ord.price].(size := ord.size)]
  {
    DeleteSideView(b.Prices(ord.side), ord.side, b.orders, b.BestQuote(ord.side), ord.price, limit);
    RestrictChanges(b.orders, Top(b.Prices(ord.side), limit), b.orders[ord.price].(size := ord.size));
  }

  /** One order touches one price of the map. */
  lemma OnePrice(m: map<Price, Order>, p: Price, ord: Order)
    ensures m[p := ord] - {p} == m - {p} && m - {p} - {p} == m - {p}
  {
  }

  // Joining the half that changes to the half that does not.

  lemma JoinGain(v: View, c: View, p: Price, ord: Order)
    requires p !in c
    ensures v[p := ord] + c == (v + c)[p := ord]
  {
  }

  lemma JoinLoss(v: View, c: View, p: Price)
    requires p !in c
    ensures v - {p} + c == v + c - {p}
  {
  }

  lemma JoinSwap(v: View, c: View, p: Price, ord: Order, out: Price)
    requires p !in c && out !in c
    ensures v[p := ord] - {out} + c == (v + c)[p := ord] - {out}
  {
  }

  lemma JoinTrade(v: View, c: View, p: Price, enter: Price, ord: Order)
    requires p !in c && enter !in c
    ensures (v - {p})[enter := ord] + c == (v + c - {p})[enter := ord]
  {
  }

  lemma InsertView(b: Book, ord: Order, limit: nat)
    requires Inv(b) && WellFormed(b, Insert, ord) && limit > 0
    ensures var r := InsertOrder(b, ord);
      var v := ViewOf(b, limit);
      var out := OrderOnDepth(r.book, ord.side, limit + 1);
      if r.depth > limit then ViewOf(r.book, limit) == v
      else if out.None? then ViewOf(r.book, limit) == v[ord.price := ord]
      else out.value.price in v && ViewOf(r.book, limit) == v[ord.price := ord] - {out.value.price}
  {
    var r := InsertOrder(b, ord);
    InsertHalf(b, ord, limit);
    OtherHalf(b, r.book, ord.side, ord.price, limit) by {
      OnePrice(b.orders, ord.price, ord);
    }
    ViewSplit(b, ord.side, limit);
    ViewSplit(r.book, ord.side, limit) by { InsertKeepsInv(b, ord); }
    var v, c := Half(b, ord.side, limit), Half(b, Opposite(ord.side), limit);
    var out := OrderOnDepth(r.book, ord.side, limit + 1);
    JoinGain(v, c, ord.price, ord);
    if r.depth <= limit && out.Some? {
      JoinSwap(v, c, ord.price, ord, out.value.price);
    }
  }

  lemma DeleteView(b: Book, ord: Order, limit: nat)
    requires Inv(b) && WellFormed(b, Delete, ord) && limit > 0
    ensures var r := DeleteOrder(b, ord);
      var v := ViewOf(b, limit);
      var enter := OrderOnDepth(r.book, ord.side, limit);
      && (ord.price in v <==> r.depth <= limit)
      && if r.depth > limit then ViewOf(r.book, limit) == v
         else if enter.None? then ViewOf(r.book, limit) == v - {ord.price}
         else enter.value.price !in v && ViewOf(r.book, limit) == (v - {ord.price})[enter.value.price := enter.value]
  {
    var r := DeleteOrder(b, ord);
    DeleteHalf(b, ord, limit);
    OtherHalf(b, r.book, ord.side, ord.price, limit) by {
      OnePrice(b.orders, ord.price, ord);
    }
    ViewSplit(b, ord.side, limit);
    ViewSplit(r.book, ord.side, limit) by { DeleteKeepsInv(b, ord); }
    var v, c := Half(b, ord.side, limit), Half(b, Opposite(ord.side), limit);
    var enter := OrderOnDepth(r.book, ord.side, limit);
    JoinLoss(v, c, ord.price);
    if r.depth <= limit && enter.Some? {
      SideHalf(b, ord.side, enter.value.price, limit);
      JoinTrade(v, c, ord.price, enter.value.price, enter.value);
    }
  }

  lemma SideHalf(b: Book, side: Side, p: Price, limit: nat)
    requires Inv(b) && side.Known() && p in b.Prices(side)
    ensures p !in Half(b, Opposite(side), limit)
  {
    InTop(b.Prices(Opposite(side)), p, limit);
  }

  lemma UpdateView(b: Book, ord: Order, limit: nat)
    requires Inv(b) && WellFormed(b, Update, ord) && limit > 0
    ensures var r := UpdateOrder(b, ord);
      var v := ViewOf(b, limit);
      && (ord.price in v <==> r.depth <= limit)
      && ViewOf(r.book, limit) == if r.depth > limit then v else v[ord.price := v[ord.price].(size := ord.size)]
  {
    var r := UpdateOrder(b, ord);
    UpdateHalf(b, ord, limit);
    OtherHalf(b, r.book, ord.side, ord.price, limit) by {
      OnePrice(b.orders, ord.price, b.orders[ord.price].(size := ord.size));
    }
    ViewSplit(b, ord.side, limit);
    ViewSplit(r.book, ord.side, limit) by { UpdateKeepsInv(b, ord); }
    var v, c := Half(b, ord.side, limit), Half(b, Opposite(ord.side), limit);
    if r.depth <= limit {
      JoinGain(v, c, ord.price, v[ord.price].(size := ord.size));
    }
  }
}
