/** Whole messages on a depth-limited channel: dispatchRsp sends all the in-view orders of a message
    and then all its makeup orders, not each makeup with the order that caused it. */
module DepthStreams {
  import opened PriceLists
  import opened OrderBooks
  import opened DepthViews
  import opened Wrappers

  /** The two responses in the order they are sent: makeups undo inserts and follow deletes. */
  function PatchLimited(v: View, action: Action, l: Limited): Option<View> {
    var w := PatchAll(v, action, l.primary);
    if w.None? then None
    else if l.makeup == [] then w
    else PatchAll(w.value, if action.Insert? then Delete else Insert, l.makeup)
  }

  lemma PatchSnoc(v: View, action: Action, data: seq<Order>, ord: Order)
    ensures PatchAll(v, action, data + [ord]) ==
      if PatchAll(v, action, data).None? then None else Patch(PatchAll(v, action, data).value, action, ord)
  {
    assert (data + [ord])[..|data|] == data;
  }

  // ---------------------------------------------------------------- inserts

  /** An order that the deletes do not name passes through them. */
  lemma {:induction false} DeletesBeside(v: View, dels: seq<Order>, ord: Order)
    requires ord.price !in v && PatchAll(v, Delete, dels).Some?
    ensures ord.price !in PatchAll(v, Delete, dels).value
    ensures PatchAll(v[ord.price := ord], Delete, dels) == Some(PatchAll(v, Delete, dels).value[ord.price := ord])
    decreases |dels|
  {
    if dels != [] {
      var front, last := dels[..|dels| - 1], dels[|dels| - 1];
      DeletesBeside(v, front, ord);
      var w := PatchAll(v, Delete, front).value;
      assert w[ord.price := ord] - {last.price} == (w - {last.price})[ord.price := ord];
    }
  }

  /** The view after all in-view inserts: it holds only orders of the book. */
  ghost predicate FromBook(w: View, b: Book) {
    forall p :: p in w ==> p in b.orders
  }

  lemma ViewFromBook(b: Book, limit: nat)
    ensures FromBook(ViewOf(b, limit), b)
  {
  }

  /** Sending all in-view inserts of a message and then all makeup deletes takes the old view to the
      new one, whatever the message does: an order inserted early and pushed out later is deleted
      by its makeup. */
  lemma {:induction false} InsertBatch(b: Book, data: seq<Order>, limit: nat)
    requires Inv(b) && WellFormedAll(b, Insert, data) && limit > 0
    ensures var l := LimitOrders(b, Insert, data, limit);
      var c := ApplyOrders(b, Insert, data).0;
      var w := PatchAll(ViewOf(b, limit), Insert, l.primary);
      && w.Some? && FromBook(w.value, c)
      && PatchAll(w.value, Delete, l.makeup) == Some(ViewOf(c, limit))
    decreases |data|
  {
    if data == [] {
      ViewFromBook(b, limit);
    } else {
      var front, ord := data[..|data| - 1], data[|data| - 1];
      InsertBatch(b, front, limit);
      OrdersKeepInv(b, Insert, front);
      InsertBatchStep(ViewOf(b, limit), LimitOrders(b, Insert, front, limit), ApplyOrders(b, Insert, front).0, ord, limit);
    }
  }

  lemma InsertBatchStep(v: View, l: Limited, b: Book, ord: Order, limit: nat)
    requires Inv(b) && WellFormed(b, Insert, ord) && limit > 0
    requires PatchAll(v, Insert, l.primary).Some? && FromBook(PatchAll(v, Insert, l.primary).value, b)
    requires PatchAll(PatchAll(v, Insert, l.primary).value, Delete, l.makeup) == Some(ViewOf(b, limit))
    ensures var r := InsertOrder(b, ord);
      var m := LimitOrder(l, r, Insert, ord, limit);
      var w := PatchAll(v, Insert, m.primary);
      && w.Some? && FromBook(w.value, r.book)
      && PatchAll(w.value, Delete, m.makeup) == Some(ViewOf(r.book, limit))
  {
    InsertView(b, ord, limit);
    var r := InsertOrder(b, ord);
    if r.depth <= limit {
      var w := PatchAll(v, Insert, l.primary).value;
      PatchSnoc(v, Insert, l.primary, ord);
      DeletesBeside(w, l.makeup, ord);
      var out := OrderOnDepth(r.book, ord.side, limit + 1);
      if out.Some? {
        PatchSnoc(w[ord.price := ord], Delete, l.makeup, out.value);
      }
    }
  }

  // ---------------------------------------------------------------- deletes

  ghost function PricesOf(data: seq<Order>): set<Price> {
    set i | 0 <= i < |data| :: data[i].price
  }

  /** Each delete that hits the view names an order that was in the view when the message came, or
      is still below the view when its turn comes.  A caller can check this on the book and the
      message: it compares ranks, less the better orders that the message has already deleted. */
  ghost predicate NoLateDelete(b: Book, data: seq<Order>, limit: nat)
    decreases |data|
  {
    data != [] ==>
      && NoLateDelete(b, data[..|data| - 1], limit)
      && NotLate(b, data[..|data| - 1], data[|data| - 1], limit)
  }

  ghost predicate NotLate(b: Book, front: seq<Order>, ord: Order, limit: nat) {
    var better := Better(b.Prices(ord.side), ord.price, ord.side.Sell?);
    1 + |better| <= limit || 1 + |better - PricesOf(front)| > limit
  }

  lemma PricesOfSnoc(data: seq<Order>)
    requires data != []
    ensures PricesOf(data) == PricesOf(data[..|data| - 1]) + {data[|data| - 1].price}
  {
    var front := data[..|data| - 1];
    forall p | p in PricesOf(data) ensures p in PricesOf(front) + {data[|data| - 1].price} {
      var i :| 0 <= i < |data| && data[i].price == p;
      assert i < |front| ==> front[i].price == p;
    }
    forall p | p in PricesOf(front) ensures p in PricesOf(data) {
      var i :| 0 <= i < |front| && front[i].price == p;
      assert data[i].price == p;
    }
    assert data[|data| - 1].price in PricesOf(data);
  }

  lemma PricesOfAdd(data: seq<Order>, ord: Order)
    ensures PricesOf(data + [ord]) == PricesOf(data) + {ord.price}
  {
    PricesOfSnoc(data + [ord]);
    assert (data + [ord])[..|data|] == data;
  }

  /** A run of deletes leaves exactly the other orders. */
  lemma {:induction false} DeletesLeave(b: Book, data: seq<Order>)
    requires Inv(b) && WellFormedAll(b, Delete, data)
    ensures ApplyOrders(b, Delete, data).0.orders == b.orders - PricesOf(data)
    decreases |data|
  {
    if data != [] {
      var front, ord := data[..|data| - 1], data[|data| - 1];
      DeletesLeave(b, front);
      OrdersKeepInv(b, Delete, front);
      OrderKeepsInv(ApplyOrders(b, Delete, front).0, Delete, ord);
      PricesOfSnoc(data);
      DropTwice(b.orders, PricesOf(front), ord.price);
    }
  }

  lemma DropTwice(m: map<Price, Order>, s: set<Price>, p: Price)
    ensures m - s - {p} == m - (s + {p})
  {
  }

  /** After a run of deletes the rank of an order is its old rank, less the better orders deleted. */
  lemma RankAfterDeletes(b: Book, data: seq<Order>, side: Side, p: Price)
    requires Inv(b) && WellFormedAll(b, Delete, data) && side.Known()
    ensures Better(ApplyOrders(b, Delete, data).0.Prices(side), p, side.Sell?) ==
      Better(b.Prices(side), p, side.Sell?) - PricesOf(data)
  {
    var c := ApplyOrders(b, Delete, data).0;
    OrdersKeepInv(b, Delete, data);
    DeletesLeave(b, data);
    forall q ensures q in c.Prices(side) <==> q in b.Prices(side) && q !in PricesOf(data) {
      assert q in c.orders <==> q in b.orders && q !in PricesOf(data);
    }
  }

  /** The view of a side is its orders of rank at most `limit`. */
  lemma InViewIsRank(b: Book, side: Side, p: Price, limit: nat)
    requires Inv(b) && side.Known() && p in b.Prices(side) && limit > 0
    ensures p in ViewOf(b, limit) <==> Rank(b, side, p) <= limit
  {
    DeleteSideView(b.Prices(side), side, b.orders, b.BestQuote(side), p, limit);
    RankCountsBetter(b.Prices(side), side.Sell?, UniPriceSearch(b.Prices(side), p, side.Sell?));
    ViewSplit(b, side, limit);
    SideHalf(b, side, p, limit);
  }

  lemma NotLateIsSeen(b: Book, front: seq<Order>, ord: Order, limit: nat)
    requires Inv(b) && WellFormedAll(b, Delete, front) && limit > 0
    requires WellFormed(ApplyOrders(b, Delete, front).0, Delete, ord)
    ensures NotLate(b, front, ord, limit) <==>
      (ord.price in ViewOf(ApplyOrders(b, Delete, front).0, limit) ==> ord.price in ViewOf(b, limit))
  {
    var c := ApplyOrders(b, Delete, front).0;
    OrdersKeepInv(b, Delete, front);
    DeletesLeave(b, front);
    RankAfterDeletes(b, front, ord.side, ord.price);
    InViewIsRank(c, ord.side, ord.price, limit);
    assert ord.price in b.orders;
    InViewIsRank(b, ord.side, ord.price, limit);
  }

  lemma {:induction false} InsertsBeside(v: View, ins: seq<Order>, p: Price)
    requires p in v && PatchAll(v, Insert, ins).Some?
    ensures p in PatchAll(v, Insert, ins).value
    ensures PatchAll(v - {p}, Insert, ins) == Some(PatchAll(v, Insert, ins).value - {p})
    decreases |ins|
  {
    if ins != [] {
      var front, last := ins[..|ins| - 1], ins[|ins| - 1];
      InsertsBeside(v, front, p);
      var w := PatchAll(v, Insert, front).value;
      assert (w - {p})[last.price := last] == w[last.price := last] - {p};
    }
  }

  lemma {:induction false} InsertsAdd(v: View, ins: seq<Order>, p: Price)
    requires PatchAll(v, Insert, ins).Some?
    ensures p in PatchAll(v, Insert, ins).value <==> p in v || p in PricesOf(ins)
    decreases |ins|
  {
    if ins != [] {
      InsertsAdd(v, ins[..|ins| - 1], p);
      PricesOfSnoc(ins);
    }
  }

  lemma {:induction false} DeletesShrink(v: View, dels: seq<Order>, p: Price)
    requires PatchAll(v, Delete, dels).Some? && p in PatchAll(v, Delete, dels).value
    ensures p in v
    decreases |dels|
  {
    if dels != [] {
      DeletesShrink(v, dels[..|dels| - 1], p);
    }
  }

  /** How deleted, makeup, visible and cached prices stand to the view when the message came. */
  ghost predicate Tracks(first: set<Price>, deleted: set<Price>, entered: set<Price>, visible: set<Price>, cached: set<Price>) {
    && visible <= first + entered
    && first * cached <= visible
    && entered !! first
    && deleted !! cached
  }

  lemma TracksSets(first: set<Price>, deleted: set<Price>, entered: set<Price>, visible: set<Price>, cached: set<Price>,
                   p: Price, enter: set<Price>)
    requires Tracks(first, deleted, entered, visible, cached)
    requires p in visible && enter !! visible && enter <= cached - {p}
    ensures Tracks(first, deleted + {p}, entered + enter, visible - {p} + enter, cached - {p})
    ensures deleted + {p} !! entered + enter <==> deleted !! entered && p in first
  {
    forall x | x in first * (cached - {p}) ensures x in visible - {p} + enter {
      assert x in first * cached;
    }
    assert forall x :: x in enter && x in first ==> x in first * cached;
    if deleted !! entered {
      assert p in first <==> p !in entered;
    }
  }

  ghost predicate TracksBook(v: View, l: Limited, c: Book, limit: nat) {
    Tracks(v.Keys, PricesOf(l.primary), PricesOf(l.makeup), ViewOf(c, limit).Keys, c.orders.Keys)
  }

  ghost function Entering(o: Option<Order>): set<Price> {
    if o.Some? then {o.value.price} else {}
  }

  lemma DeleteViewKeys(c: Book, ord: Order, limit: nat)
    requires Inv(c) && WellFormed(c, Delete, ord) && limit > 0 && DeleteOrder(c, ord).depth <= limit
    ensures var d := DeleteOrder(c, ord).book;
      var enter := Entering(OrderOnDepth(d, ord.side, limit));
      && d.orders.Keys == c.orders.Keys - {ord.price}
      && enter !! ViewOf(c, limit).Keys && enter <= d.orders.Keys
      && ViewOf(d, limit).Keys == ViewOf(c, limit).Keys - {ord.price} + enter
  {
    DeleteView(c, ord, limit);
    DeleteKeepsInv(c, ord);
    var d := DeleteOrder(c, ord).book;
    OnDepthPrice(d, ord.side, limit);
    KeysSwap(ViewOf(c, limit), ViewOf(d, limit), ord.price, OrderOnDepth(d, ord.side, limit));
  }

  lemma KeysSwap(v: View, w: View, p: Price, enter: Option<Order>)
    requires w == if enter.None? then v - {p} else (v - {p})[enter.value.price := enter.value]
    ensures w.Keys == v.Keys - {p} + Entering(enter)
  {
  }

  lemma TracksStep(v: View, l: Limited, c: Book, ord: Order, limit: nat)
    requires Inv(c) && WellFormed(c, Delete, ord) && limit > 0 && TracksBook(v, l, c, limit)
    ensures var r := DeleteOrder(c, ord);
      var m := LimitOrder(l, r, Delete, ord, limit);
      && TracksBook(v, m, r.book, limit)
      && (PricesOf(m.primary) !! PricesOf(m.makeup) <==>
          PricesOf(l.primary) !! PricesOf(l.makeup) && (ord.price in ViewOf(c, limit) ==> ord.price in v))
  {
    var r := DeleteOrder(c, ord);
    DeleteView(c, ord, limit);
    if r.depth <= limit {
      DeleteViewKeys(c, ord, limit);
      PricesOfAdd(l.primary, ord);
      var o := OrderOnDepth(r.book, ord.side, limit);
      if o.Some? {
        PricesOfAdd(l.makeup, o.value);
      }
      TracksSets(v.Keys, PricesOf(l.primary), PricesOf(l.makeup), ViewOf(c, limit).Keys, c.orders.Keys, ord.price, Entering(o));
    }
  }

  lemma DeleteBatchStep(v: View, l: Limited, c: Book, ord: Order, limit: nat)
    requires Inv(c) && WellFormed(c, Delete, ord) && limit > 0 && TracksBook(v, l, c, limit)
    requires var w := PatchAll(v, Delete, l.primary);
      w.Some? ==> PatchAll(w.value, Insert, l.makeup) == Some(ViewOf(c, limit))
    ensures var r := DeleteOrder(c, ord);
      var m := LimitOrder(l, r, Delete, ord, limit);
      var w := PatchAll(v, Delete, m.primary);
      && (w.Some? <==> PatchAll(v, Delete, l.primary).Some? && (ord.price in ViewOf(c, limit) ==> ord.price in v))
      && (w.Some? ==> PatchAll(w.value, Insert, m.makeup) == Some(ViewOf(r.book, limit)))
  {
    DeleteView(c, ord, limit);
    var r := DeleteOrder(c, ord);
    if r.depth <= limit && PatchAll(v, Delete, l.primary).Some? {
      var w := PatchAll(v, Delete, l.primary).value;
      PatchSnoc(v, Delete, l.primary, ord);
      if ord.price in v {
        InsertsAdd(w, l.makeup, ord.price);
        InsertsBeside(w, l.makeup, ord.price);
        var enter := OrderOnDepth(r.book, ord.side, limit);
        if enter.Some? {
          PatchSnoc(w - {ord.price}, Insert, l.makeup, enter.value);
        }
      } else if ord.price in w {
        DeletesShrink(v, l.primary, ord.price);
      }
    } else if r.depth <= limit {
      PatchSnoc(v, Delete, l.primary, ord);
    }
  }

  /** Sending all deletes of a message and then all makeups gives the reader the new view exactly
      when no delete is late; otherwise the reader is told to delete an order it has not seen.
      Late deletes are just the deletes of makeup orders of the same message. */
  lemma {:induction false} DeleteBatch(b: Book, data: seq<Order>, limit: nat)
    requires Inv(b) && WellFormedAll(b, Delete, data) && limit > 0
    ensures var l := LimitOrders(b, Delete, data, limit);
      var c := ApplyOrders(b, Delete, data).0;
      var w := PatchAll(ViewOf(b, limit), Delete, l.primary);
      && TracksBook(ViewOf(b, limit), l, c, limit)
      && (w.Some? <==> NoLateDelete(b, data, limit))
      && (w.Some? ==> PatchAll(w.value, Insert, l.makeup) == Some(ViewOf(c, limit)))
      && (NoLateDelete(b, data, limit) <==> PricesOf(l.primary) !! PricesOf(l.makeup))
    decreases |data|
  {
    if data != [] {
      var front, ord := data[..|data| - 1], data[|data| - 1];
      DeleteBatch(b, front, limit);
      OrdersKeepInv(b, Delete, front);
      var l, c := LimitOrders(b, Delete, front, limit), ApplyOrders(b, Delete, front).0;
      TracksStep(ViewOf(b, limit), l, c, ord, limit);
      DeleteBatchStep(ViewOf(b, limit), l, c, ord, limit);
      NotLateIsSeen(b, front, ord, limit);
    }
  }

  // ---------------------------------------------------------------- updates, and all three

  lemma {:induction false} UpdateBatch(b: Book, data: seq<Order>, limit: nat)
    requires Inv(b) && WellFormedAll(b, Update, data) && limit > 0
    ensures var l := LimitOrders(b, Update, data, limit);
      l.makeup == [] && PatchAll(ViewOf(b, limit), Update, l.primary) == Some(ViewOf(ApplyOrders(b, Update, data).0, limit))
    decreases |data|
  {
    if data != [] {
      var front, ord := data[..|data| - 1], data[|data| - 1];
      UpdateBatch(b, front, limit);
      OrdersKeepInv(b, Update, front);
      var c := ApplyOrders(b, Update, front).0;
      UpdateView(c, ord, limit);
      if UpdateOrder(c, ord).depth <= limit {
        PatchSnoc(ViewOf(b, limit), Update, LimitOrders(b, Update, front, limit).primary, ord);
      }
    }
  }

  /** Any well-formed message takes the reader of a depth-limited channel from the old view to the new
      one, if and only if it has no late delete. */
  lemma BatchIff(b: Book, action: Action, data: seq<Order>, limit: nat)
    requires Inv(b) && WellFormedAll(b, action, data) && (action.Insert? || action.Delete? || action.Update?) && limit > 0
    ensures PatchLimited(ViewOf(b, limit), action, LimitOrders(b, action, data, limit)) ==
      (if action.Delete? && !NoLateDelete(b, data, limit) then None
       else Some(ViewOf(ApplyOrders(b, action, data).0, limit)))
  {
    match action
    case Insert => InsertBatch(b, data, limit);
    case Delete => DeleteBatch(b, data, limit);
    case Update => UpdateBatch(b, data, limit);
  }

  // ---------------------------------------------------------------- what the responses list

  /** The order in its turn, on the book before it, c, and the book after it, d, ranks within the limit:
      before a delete or an update, and after an insert. */
  ghost predicate RanksWithin(c: Book, d: Book, action: Action, ord: Order, limit: nat) {
    Rank(if action.Insert? then d else c, ord.side, ord.price) <= limit
  }

  /** The orders that an order in its turn lets into the view or pushes out of it, apart from itself. */
  ghost predicate AreMoved(c: Book, d: Book, action: Action, ord: Order, moved: seq<Order>, limit: nat) {
    && |moved| <= 1
    && (forall o :: o in moved ==> o.price in d.orders && o == d.orders[o.price])
    && PricesOf(moved) ==
         match action
         case Delete => ViewOf(d, limit).Keys - ViewOf(c, limit).Keys
         case Insert => ViewOf(c, limit).Keys - ViewOf(d, limit).Keys
         case _ => {}
  }

  lemma PricesOfOne(ord: Order)
    ensures PricesOf([ord]) == {ord.price} && PricesOf([]) == {}
  {
    assert [] + [ord] == [ord];
    PricesOfAdd([], ord);
  }

  lemma MovesOne(c: Book, d: Book, action: Action, ord: Order, o: Option<Order>, limit: nat)
    requires o.Some? ==> o.value.price in d.orders && o.value == d.orders[o.value.price]
    requires match action
      case Delete => ViewOf(d, limit).Keys - ViewOf(c, limit).Keys == Entering(o)
      case Insert => ViewOf(c, limit).Keys - ViewOf(d, limit).Keys == Entering(o)
      case _ => o.None?
    ensures AreMoved(c, d, action, ord, if o.Some? then [o.value] else [], limit)
  {
    PricesOfOne(ord);
    if o.Some? {
      PricesOfOne(o.value);
    }
  }

  lemma DeleteMoves(c: Book, ord: Order, limit: nat)
    requires Inv(c) && WellFormed(c, Delete, ord) && limit > 0
    ensures var r := DeleteOrder(c, ord);
      var o := if r.depth <= limit then OrderOnDepth(r.book, ord.side, limit) else None;
      ViewOf(r.book, limit).Keys - ViewOf(c, limit).Keys == Entering(o)
  {
    var r := DeleteOrder(c, ord);
    if r.depth <= limit {
      DeleteViewKeys(c, ord, limit);
      SwappedKeys(ViewOf(c, limit).Keys, ord.price, Entering(OrderOnDepth(r.book, ord.side, limit)));
    } else {
      DeleteView(c, ord, limit);
    }
  }

  lemma SwappedKeys(v: set<Price>, p: Price, enter: set<Price>)
    requires enter !! v
    ensures v - {p} + enter - v == enter
  {
  }

  lemma InsertMoves(c: Book, ord: Order, limit: nat)
    requires Inv(c) && WellFormed(c, Insert, ord) && limit > 0
    ensures var r := InsertOrder(c, ord);
      var o := if r.depth <= limit then OrderOnDepth(r.book, ord.side, limit + 1) else None;
      ViewOf(c, limit).Keys - ViewOf(r.book, limit).Keys == Entering(o)
  {
    var r := InsertOrder(c, ord);
    InsertView(c, ord, limit);
    ViewFromBook(c, limit);
    if r.depth <= limit {
      PushedOut(ViewOf(c, limit), ViewOf(r.book, limit), ord, OrderOnDepth(r.book, ord.side, limit + 1));
    }
  }

  lemma PushedOut(v: View, w: View, ord: Order, out: Option<Order>)
    requires ord.price !in v && (out.Some? ==> out.value.price in v)
    requires w == if out.None? then v[ord.price := ord] else v[ord.price := ord] - {out.value.price}
    ensures v.Keys - w.Keys == Entering(out)
  {
  }

  /** The makeup order that an order in its turn brings along, if any. */
  ghost function MakeupOf(r: Reply, action: Action, ord: Order, limit: nat): Option<Order>
    requires limit > 0
  {
    if r.depth > limit then None else
    match action
    case Delete => OrderOnDepth(r.book, ord.side, limit)
    case Insert => OrderOnDepth(r.book, ord.side, limit + 1)
    case _ => None
  }

  lemma MakeupMoves(c: Book, action: Action, ord: Order, limit: nat)
    requires Inv(c) && WellFormed(c, action, ord) && limit > 0
    ensures var r := ApplyOrder(c, action, ord);
      var o := MakeupOf(r, action, ord, limit);
      AreMoved(c, r.book, action, ord, if o.Some? then [o.value] else [], limit)
  {
    var r := ApplyOrder(c, action, ord);
    OrderKeepsInv(c, action, ord);
    match action {
      case Delete =>
        DeleteMoves(c, ord, limit);
        OnDepthPrice(r.book, ord.side, limit);
      case Insert =>
        InsertMoves(c, ord, limit);
        OnDepthPrice(r.book, ord.side, limit + 1);
      case Update =>
    }
    MovesOne(c, r.book, action, ord, MakeupOf(r, action, ord, limit), limit);
  }

  lemma LimitParts(l: Limited, r: Reply, action: Action, ord: Order, limit: nat)
    requires limit > 0
    ensures var m, o := LimitOrder(l, r, action, ord, limit), MakeupOf(r, action, ord, limit);
      && m.primary == l.primary + (if r.depth <= limit then [ord] else [])
      && m.makeup == l.makeup + if o.Some? then [o.value] else []
  {
  }

  /** One more order of a message: the in-view response lists it exactly if it ranks within the limit, and
      the makeup response lists exactly what it moves. */
  lemma ListedInTurn(l: Limited, c: Book, action: Action, ord: Order, limit: nat)
    requires Inv(c) && WellFormed(c, action, ord) && limit > 0
    ensures var r := ApplyOrder(c, action, ord);
      var m := LimitOrder(l, r, action, ord, limit);
      && m.primary == l.primary + (if RanksWithin(c, r.book, action, ord, limit) then [ord] else [])
      && l.makeup <= m.makeup && AreMoved(c, r.book, action, ord, m.makeup[|l.makeup|..], limit)
  {
    var r := ApplyOrder(c, action, ord);
    var o := MakeupOf(r, action, ord, limit);
    DepthIsRank(c, action, ord);
    MakeupMoves(c, action, ord, limit);
    LimitParts(l, r, action, ord, limit);
    var more := if o.Some? then [o.value] else [];
    assert (l.makeup + more)[|l.makeup|..] == more;
  }

  /** Order i of a message ranks within the limit in its turn. */
  ghost predicate HitsView(b: Book, action: Action, data: seq<Order>, i: nat, limit: nat)
    requires i < |data|
  {
    RanksWithin(ApplyOrders(b, action, data[..i]).0, ApplyOrders(b, action, data[..i + 1]).0, action, data[i], limit)
  }

  /** The orders of a message that rank within the limit, each in its turn. */
  ghost function InView(b: Book, action: Action, data: seq<Order>, limit: nat): seq<Order>
    decreases |data|
  {
    if data == [] then [] else
    var n := |data| - 1;
    InView(b, action, data[..n], limit) + if HitsView(b, action, data, n, limit) then [data[n]] else []
  }

  lemma LastHits(b: Book, action: Action, data: seq<Order>, limit: nat)
    requires data != [] && WellFormedAll(b, action, data) && Inv(b)
    ensures var c := ApplyOrders(b, action, data[..|data| - 1]).0;
      HitsView(b, action, data, |data| - 1, limit) <==>
      RanksWithin(c, ApplyOrder(c, action, data[|data| - 1]).book, action, data[|data| - 1], limit)
  {
    OrdersKeepInv(b, action, data[..|data| - 1]);
    assert data[..|data|] == data;
  }

  /** The in-view response of a well-formed message is exactly its orders that rank within the limit, in the
      order of the message. */
  lemma {:induction false} PrimaryRanks(b: Book, action: Action, data: seq<Order>, limit: nat)
    requires Inv(b) && action.Delta() && WellFormedAll(b, action, data) && limit > 0
    ensures LimitOrders(b, action, data, limit).primary == InView(b, action, data, limit)
    decreases |data|
  {
    if data != [] {
      var front, ord := data[..|data| - 1], data[|data| - 1];
      PrimaryRanks(b, action, front, limit);
      OrdersKeepInv(b, action, front);
      LastHits(b, action, data, limit);
      ListedInTurn(LimitOrders(b, action, front, limit), ApplyOrders(b, action, front).0, action, ord, limit);
    }
  }

  lemma HitsBefore(b: Book, action: Action, data: seq<Order>, n: nat, i: nat, limit: nat)
    requires i < n <= |data|
    ensures HitsView(b, action, data[..n], i, limit) <==> HitsView(b, action, data, i, limit)
  {
    assert data[..n][..i] == data[..i] && data[..n][..i + 1] == data[..i + 1];
  }

  /** Nothing is in view exactly when no order ranks within the limit in its turn. */
  lemma {:induction false} NoneInView(b: Book, action: Action, data: seq<Order>, limit: nat)
    ensures InView(b, action, data, limit) == [] <==> forall i :: 0 <= i < |data| ==> !HitsView(b, action, data, i, limit)
    decreases |data|
  {
    if data != [] {
      var n := |data| - 1;
      NoneInView(b, action, data[..n], limit);
      forall i | 0 <= i < n ensures HitsView(b, action, data[..n], i, limit) <==> HitsView(b, action, data, i, limit) {
        HitsBefore(b, action, data, n, i, limit);
      }
      assert InView(b, action, data, limit) == [] <==>
        InView(b, action, data[..n], limit) == [] && !HitsView(b, action, data, n, limit);
    }
  }

  /** With one more order, the makeup response grows by exactly what that order moves. */
  lemma MakeupInTurn(b: Book, action: Action, data: seq<Order>, limit: nat)
    requires Inv(b) && WellFormedAll(b, action, data) && data != [] && limit > 0
    ensures var front, ord := data[..|data| - 1], data[|data| - 1];
      var before, now := LimitOrders(b, action, front, limit).makeup, LimitOrders(b, action, data, limit).makeup;
      && before <= now
      && AreMoved(ApplyOrders(b, action, front).0, ApplyOrders(b, action, data).0, action, ord, now[|before|..], limit)
  {
    var front, ord := data[..|data| - 1], data[|data| - 1];
    OrdersKeepInv(b, action, front);
    ListedInTurn(LimitOrders(b, action, front, limit), ApplyOrders(b, action, front).0, action, ord, limit);
  }

  /** Without an in-view order there is no makeup either. */
  lemma {:induction false} PrimaryFirst(b: Book, action: Action, data: seq<Order>, depth: nat)
    requires depth > 0
    ensures var l := LimitOrders(b, action, data, depth);
      (l.primary == [] ==> l.makeup == []) && (action.Update? ==> l.makeup == [])
    decreases |data|
  {
    if data != [] {
      PrimaryFirst(b, action, data[..|data| - 1], depth);
    }
  }

  /** The view of a reader who gets each order of a message together with its makeup. */
  function PairedAll(v: View, b: Book, action: Action, data: seq<Order>, limit: nat): Option<View>
    requires limit > 0
    decreases |data|
  {
    if data == [] then Some(v) else
    var front, ord := data[..|data| - 1], data[|data| - 1];
    var w := PairedAll(v, b, action, front, limit);
    if w.None? then None else
    PatchLimited(w.value, action, LimitOrder(Limited([], []), ApplyOrder(ApplyOrders(b, action, front).0, action, ord), action, ord, limit))
  }

  /** Each paired at once with its makeup, deletes always keep the reader on the view, after every
      order of a message of any length. */
  lemma {:induction false} DeletesPaired(b: Book, data: seq<Order>, limit: nat)
    requires Inv(b) && WellFormedAll(b, Delete, data) && limit > 0
    ensures PairedAll(ViewOf(b, limit), b, Delete, data, limit) == Some(ViewOf(ApplyOrders(b, Delete, data).0, limit))
    decreases |data|
  {
    if data != [] {
      var front, ord := data[..|data| - 1], data[|data| - 1];
      DeletesPaired(b, front, limit);
      OrdersKeepInv(b, Delete, front);
      DeletePaired(ApplyOrders(b, Delete, front).0, ord, limit);
    }
  }

  lemma DeletePaired(b: Book, ord: Order, limit: nat)
    requires Inv(b) && WellFormed(b, Delete, ord) && limit > 0
    ensures PatchLimited(ViewOf(b, limit), Delete, LimitOrder(Limited([], []), DeleteOrder(b, ord), Delete, ord, limit))
      == Some(ViewOf(DeleteOrder(b, ord).book, limit))
  {
    DeleteView(b, ord, limit);
    var r, v := DeleteOrder(b, ord), ViewOf(b, limit);
    var l := LimitOrder(Limited([], []), r, Delete, ord, limit);
    if r.depth <= limit {
      var enter := OrderOnDepth(r.book, ord.side, limit);
      assert l.primary == [ord] && l.makeup == if enter.Some? then [enter.value] else [];
      PairedPatch(v, ord, enter);
    } else {
      assert l == Limited([], []);
    }
  }

  lemma PairedPatch(v: View, ord: Order, enter: Option<Order>)
    requires ord.price in v && (enter.Some? ==> enter.value.price !in v)
    ensures PatchLimited(v, Delete, Limited([ord], if enter.Some? then [enter.value] else [])) ==
      Some(if enter.Some? then (v - {ord.price})[enter.value.price := enter.value] else v - {ord.price})
  {
    PatchSnoc(v, Delete, [], ord);
    assert [] + [ord] == [ord];
    if enter.Some? {
      PatchSnoc(v - {ord.price}, Insert, [], enter.value);
      assert [] + [enter.value] == [enter.value];
    }
  }

  // ---------------------------------------------------------------- a late delete

  function Ask(price: Price): Order {
    Order(0, Sell, price, 1.0)
  }

  function ThreeAsks(): Book {
    Book([3.0, 2.0, 1.0], [], map[3.0 := Ask(3.0), 2.0 := Ask(2.0), 1.0 := Ask(1.0)], Quote(1.0, 1.0), NO_QUOTE)
  }

  lemma ThreeAsksInv()
    ensures Inv(ThreeAsks())
  {
  }

  lemma DeleteBest(b: Book, prices: seq<Price>, p: Price)
    requires Inv(b) && b.asks == prices + [p] && prices != [] && b.bids == []
    ensures WellFormed(b, Delete, Ask(p))
    ensures DeleteOrder(b, Ask(p)) == Reply(Book(prices, [], b.orders - {p}, LastQuote(prices, b.orders), b.bidQuote), 1, NoError)
  {
    assert p in b.asks && prices[|prices| - 1] in b.asks;
    PositionOf(b.asks, true, |prices|);
    assert b.asks[..|prices|] + b.asks[|prices| + 1..] == prices;
  }

  /** The smallest message with a late delete: deleting the two best of three asks, seen at depth 1.
      The second delete names the order that the first one let in, which the reader has not yet got. */
  lemma LateDelete()
    ensures var b, data := ThreeAsks(), [Ask(1.0), Ask(2.0)];
      && Inv(b) && WellFormedAll(b, Delete, data)
      && LimitOrders(b, Delete, data, 1) == Limited(data, [Ask(2.0), Ask(3.0)])
      && PatchLimited(ViewOf(b, 1), Delete, LimitOrders(b, Delete, data, 1)) == None
  {
    ThreeAsksInv();
    BestTwoDeletes(ThreeAsks(), [Ask(1.0)], [Ask(1.0), Ask(2.0)]);
    LateMessage(ThreeAsks(), [Ask(1.0), Ask(2.0)]);
  }

  lemma LateMessage(b: Book, data: seq<Order>)
    requires Inv(b) && WellFormedAll(b, Delete, data) && data == [Ask(1.0), Ask(2.0)]
    requires LimitOrders(b, Delete, data, 1) == Limited(data, [Ask(2.0), Ask(3.0)])
    ensures PatchLimited(ViewOf(b, 1), Delete, LimitOrders(b, Delete, data, 1)) == None
  {
    DeleteBatch(b, data, 1);
    var makeup := [Ask(2.0), Ask(3.0)];
    assert data[1].price in PricesOf(data) && makeup[0].price in PricesOf(makeup);
  }

  lemma BestTwoDeletes(b: Book, one: seq<Order>, data: seq<Order>)
    requires Inv(b) && b.asks == [3.0, 2.0, 1.0] && b.bids == [] && one == [Ask(1.0)] && data == one + [Ask(2.0)]
    requires forall p :: p in b.orders ==> b.orders[p] == Ask(p)
    ensures WellFormedAll(b, Delete, data) && LimitOrders(b, Delete, data, 1) == Limited(data, [Ask(2.0), Ask(3.0)])
  {
    DeleteBest(b, [3.0, 2.0], 1.0);
    DeleteKeepsInv(b, Ask(1.0));
    var c := DeleteOrder(b, Ask(1.0)).book;
    DeleteBest(c, [3.0], 2.0);
    assert 3.0 in b.asks && 2.0 in b.asks && one[..0] == [] && data[..1] == one;
    LateLimits(b, c, one, data);
  }

  lemma LateLimits(b: Book, c: Book, one: seq<Order>, data: seq<Order>)
    requires one == [Ask(1.0)] && data == one + [Ask(2.0)]
    requires DeleteOrder(b, Ask(1.0)) == Reply(c, 1, NoError) && c.asks == [3.0, 2.0] && 2.0 in c.orders && c.orders[2.0] == Ask(2.0)
    requires var d := DeleteOrder(c, Ask(2.0)); d.depth == 1 && d.book.asks == [3.0] && 3.0 in d.book.orders && d.book.orders[3.0] == Ask(3.0)
    ensures LimitOrders(b, Delete, data, 1) == Limited(data, [Ask(2.0), Ask(3.0)])
  {
    assert one[..0] == [] && data[..1] == one;
    assert LimitOrders(b, Delete, one, 1) == Limited(one, [Ask(2.0)]);
  }
}
