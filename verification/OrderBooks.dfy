/** The order book of utils/cache_mbl.go as a value: the four linked forms that the cache keeps,
    what one order does to them, and the invariant that keeps them in agreement. */
module OrderBooks {
  import opened PriceLists
  import opened Wrappers

  type Size = real

  datatype Side = Buy | Sell | Unknown(name: string)
  {
    predicate Known() {
      Buy? || Sell?
    }
  }

  datatype Order = Order(id: int, side: Side, price: Price, size: Size)

  datatype Quote = Quote(price: Price, size: Size)

  const NO_QUOTE := Quote(0.0, 0.0)

  datatype Book = Book(asks: seq<Price>, bids: seq<Price>, orders: map<Price, Order>, askQuote: Quote, bidQuote: Quote)
  {
    function Prices(side: Side): seq<Price> {
      match side
      case Sell => asks
      case Buy => bids
      case Unknown(_) => []
    }

    function BestQuote(side: Side): Quote {
      match side
      case Sell => askQuote
      case Buy => bidQuote
      case Unknown(_) => NO_QUOTE
    }

    function WithSide(side: Side, prices: seq<Price>, quote: Quote): Book {
      match side
      case Sell => this.(asks := prices, askQuote := quote)
      case Buy => this.(bids := prices, bidQuote := quote)
      case Unknown(_) => this
    }
  }

  const EMPTY_BOOK := Book([], [], map[], NO_QUOTE, NO_QUOTE)

  datatype Action = Insert | Delete | Update | Partial | Invalid(name: string)
  {
    predicate Delta() {
      Insert? || Delete? || Update?
    }
  }

  /** An MBLResponse. */
  datatype Message = Message(action: Action, data: seq<Order>)

  datatype Error = NoError | NotExist | AlreadyExist | InvalidSide | NotFound | InvalidAction

  /** What a handler leaves behind: the book, and the depth and error it returns. */
  datatype Reply = Reply(book: Book, depth: int, err: Error)

  /** The quote that the last, best, price of a list stands for. */
  function LastQuote(prices: seq<Price>, orders: map<Price, Order>): Quote {
    if prices == [] || prices[|prices| - 1] !in orders then NO_QUOTE
    else Quote(prices[|prices| - 1], orders[prices[|prices| - 1]].size)
  }

  /** handleDelete. */
  function DeleteOrder(b: Book, ord: Order): Reply {
    if ord.price !in b.orders then Reply(b, 0, NotExist) else
    var orders := b.orders - {ord.price};
    if !ord.side.Known() then Reply(b.(orders := orders), 0, NotFound) else
    var before := b.Prices(ord.side);
    var idx := UniPriceSearch(before, ord.price, ord.side.Sell?);
    var prices := Removed(before, ord.price, ord.side.Sell?);
    var depth := |before| - idx;
    var quote := if depth == 1 then LastQuote(prices, b.orders) else b.BestQuote(ord.side);
    Reply(b.WithSide(ord.side, prices, quote).(orders := orders), depth, if idx < 0 then NotFound else NoError)
  }

  /** handleInsert. */
  function InsertOrder(b: Book, ord: Order): Reply {
    if ord.price in b.orders then Reply(b, 0, AlreadyExist) else
    var orders := b.orders[ord.price := ord];
    if !ord.side.Known() then Reply(b.(orders := orders), 0, InvalidSide) else
    var before := b.Prices(ord.side);
    var idx := Position(before, ord.price, ord.side.Sell?);
    var prices := Inserted(before, ord.price, ord.side.Sell?);
    var depth := |prices| - idx;
    var quote := if depth == 1 then Quote(ord.price, ord.size) else b.BestQuote(ord.side);
    Reply(b.WithSide(ord.side, prices, quote).(orders := orders), depth, NoError)
  }

  /** handleUpdate: only the size of the cached order changes. */
  function UpdateOrder(b: Book, ord: Order): Reply {
    if ord.price !in b.orders then Reply(b, 0, NotExist)
    else if !ord.side.Known() then Reply(b, 0, NotFound) else
    var prices := b.Prices(ord.side);
    var idx := UniPriceSearch(prices, ord.price, ord.side.Sell?);
    var depth := |prices| - idx;
    var quote := if depth == 1 then b.BestQuote(ord.side).(size := ord.size) else b.BestQuote(ord.side);
    var c := b.WithSide(ord.side, prices, quote);
    if idx < 0 then Reply(c, depth, NotFound)
    else Reply(c.(orders := b.orders[ord.price := b.orders[ord.price].(size := ord.size)]), depth, NoError)
  }

  function ApplyOrder(b: Book, action: Action, ord: Order): Reply {
    match action
    case Delete => DeleteOrder(b, ord)
    case Insert => InsertOrder(b, ord)
    case Update => UpdateOrder(b, ord)
    case _ => Reply(b, 0, InvalidAction)
  }

  /** The delete, insert and update branches of applyData, which stop at the first error; any other
      action is an error. */
  function ApplyOrders(b: Book, action: Action, data: seq<Order>): (Book, Error)
    decreases |data|
  {
    if data == [] then (b, if action.Delta() then NoError else InvalidAction) else
    var (c, err) := ApplyOrders(b, action, data[..|data| - 1]);
    if err != NoError then (c, err) else
    var r := ApplyOrder(c, action, data[|data| - 1]);
    (r.book, r.err)
  }

  /** GetOrderOnDepth. */
  function OrderOnDepth(b: Book, side: Side, depth: nat): Option<Order>
    requires 0 < depth
  {
    var prices := b.Prices(side);
    if |prices| < 1 || depth > |prices| then None
    else if prices[|prices| - depth] in b.orders then Some(b.orders[prices[|prices| - depth]])
    else None
  }

  /** The book has orders on both sides. */
  predicate BothSides(b: Book) {
    b.asks != [] && b.bids != []
  }

  // ---------------------------------------------------------------- the invariant

  /** The list holds exactly the prices of the side's orders. */
  ghost predicate Lists(prices: seq<Price>, side: Side, orders: map<Price, Order>) {
    forall p :: p in prices <==> p in orders && orders[p].side == side
  }

  ghost predicate SideInv(prices: seq<Price>, side: Side, orders: map<Price, Order>, quote: Quote) {
    && Sorted(prices, side.Sell?)
    && Lists(prices, side, orders)
    && quote == LastQuote(prices, orders)
  }

  ghost predicate Keyed(orders: map<Price, Order>) {
    forall p :: p in orders ==> orders[p].price == p && orders[p].side.Known()
  }

  ghost predicate Inv(b: Book) {
    && SideInv(b.asks, Sell, b.orders, b.askQuote)
    && SideInv(b.bids, Buy, b.orders, b.bidQuote)
    && Keyed(b.orders)
  }

  /** A well-formed order for the book: an insert names a known side and a new price; a delete or an
      update names a cached order on its own side; a delete leaves the side at least one order. */
  ghost predicate WellFormed(b: Book, action: Action, ord: Order) {
    match action
    case Insert => ord.side.Known() && ord.price !in b.orders
    case Delete => ord.price in b.orders && b.orders[ord.price].side == ord.side && |b.Prices(ord.side)| > 1
    case Update => ord.price in b.orders && b.orders[ord.price].side == ord.side
    case _ => false
  }

  ghost predicate WellFormedAll(b: Book, action: Action, data: seq<Order>)
    decreases |data|
  {
    if data == [] then action.Delta()
    else
      && WellFormedAll(b, action, data[..|data| - 1])
      && WellFormed(ApplyOrders(b, action, data[..|data| - 1]).0, action, data[|data| - 1])
  }

  /** What one order means to a reader who only keeps orders by price.  Deleting or updating an
      absent price and inserting a present one are refused. */
  function Patch(v: map<Price, Order>, action: Action, ord: Order): Option<map<Price, Order>> {
    match action
    case Delete => if ord.price in v then Some(v - {ord.price}) else None
    case Insert => if ord.price !in v then Some(v[ord.price := ord]) else None
    case Update => if ord.price in v then Some(v[ord.price := v[ord.price].(size := ord.size)]) else None
    case _ => None
  }

  function PatchAll(v: map<Price, Order>, action: Action, data: seq<Order>): Option<map<Price, Order>>
    decreases |data|
  {
    if data == [] then Some(v) else
    var w := PatchAll(v, action, data[..|data| - 1]);
    if w.None? then None else Patch(w.value, action, data[|data| - 1])
  }

  /** Orders of the other side may come, go and change. */
  lemma OtherSideInv(prices: seq<Price>, side: Side, orders: map<Price, Order>, quote: Quote, changed: map<Price, Order>, at: Price)
    requires SideInv(prices, side, orders, quote)
    requires changed - {at} == orders - {at}
    requires at in orders ==> orders[at].side != side
    requires at in changed ==> changed[at].side != side
    ensures SideInv(prices, side, changed, quote)
  {
    forall p ensures p in prices <==> p in changed && changed[p].side == side {
      if p != at {
        assert p in changed <==> p in orders by {
          assert p in changed - {at} <==> p in orders - {at};
        }
        assert p in changed ==> (changed - {at})[p] == (orders - {at})[p];
      }
    }
    if prices != [] {
      var last := prices[|prices| - 1];
      assert last in prices;
      assert last != at && (changed - {at})[last] == (orders - {at})[last];
    }
  }

  lemma InsertedSideInv(prices: seq<Price>, side: Side, orders: map<Price, Order>, quote: Quote, ord: Order)
    requires SideInv(prices, side, orders, quote) && ord.side == side && ord.price !in orders
    ensures var now := Inserted(prices, ord.price, side.Sell?);
      var best := Position(prices, ord.price, side.Sell?) == |prices|;
      SideInv(now, side, orders[ord.price := ord], if best then Quote(ord.price, ord.size) else quote)
  {
    var now := Inserted(prices, ord.price, side.Sell?);
    InsertedSorted(prices, ord.price, side.Sell?);
    assert Lists(now, side, orders[ord.price := ord]) by {
      InsertedPrices(prices, ord.price, side.Sell?);
    }
    InsertedBest(prices, orders, ord, side.Sell?);
  }

  /** The last price of a list after an insertion. */
  lemma InsertedBest(prices: seq<Price>, orders: map<Price, Order>, ord: Order, reverse: bool)
    requires ord.price !in orders && forall p :: p in prices ==> p in orders
    ensures LastQuote(Inserted(prices, ord.price, reverse), orders[ord.price := ord]) ==
      if Position(prices, ord.price, reverse) == |prices| then Quote(ord.price, ord.size) else LastQuote(prices, orders)
  {
    if prices != [] {
      assert prices[|prices| - 1] in prices;
    }
  }

  lemma RemovedSideInv(prices: seq<Price>, side: Side, orders: map<Price, Order>, quote: Quote, price: Price)
    requires SideInv(prices, side, orders, quote) && price in prices && |prices| > 1
    ensures var now := Removed(prices, price, side.Sell?);
      var best := UniPriceSearch(prices, price, side.Sell?) == |prices| - 1;
      SideInv(now, side, orders - {price}, if best then LastQuote(now, orders) else quote)
  {
    var now := Removed(prices, price, side.Sell?);
    RemovedSorted(prices, price, side.Sell?);
    assert Lists(now, side, orders - {price}) by {
      RemovedPrices(prices, price, side.Sell?);
    }
    var last := prices[|prices| - 1];
    assert now[|now| - 1] in now && last in prices;
    if UniPriceSearch(prices, price, side.Sell?) != |prices| - 1 {
      assert now[|now| - 1] == last;
    }
  }

  lemma ResizedSideInv(prices: seq<Price>, side: Side, orders: map<Price, Order>, quote: Quote, price: Price, size: Size)
    requires SideInv(prices, side, orders, quote) && price in prices
    ensures var best := UniPriceSearch(prices, price, side.Sell?) == |prices| - 1;
      SideInv(prices, side, orders[price := orders[price].(size := size)], if best then quote.(size := size) else quote)
  {
    var last := prices[|prices| - 1];
    assert last in prices;
    PositionOf(prices, side.Sell?, |prices| - 1);
  }

  lemma InsertKeepsInv(b: Book, ord: Order)
    requires Inv(b) && WellFormed(b, Insert, ord)
    ensures var r := InsertOrder(b, ord);
      r.err == NoError && Inv(r.book) && Patch(b.orders, Insert, ord) == Some(r.book.orders)
  {
    var orders := b.orders[ord.price := ord];
    assert orders - {ord.price} == b.orders - {ord.price};
    InsertedSideInv(b.Prices(ord.side), ord.side, b.orders, b.BestQuote(ord.side), ord);
    var other := if ord.side.Sell? then Buy else Sell;
    OtherSideInv(b.Prices(other), other, b.orders, b.BestQuote(other), orders, ord.price);
  }

  lemma DeleteKeepsInv(b: Book, ord: Order)
    requires Inv(b) && WellFormed(b, Delete, ord)
    ensures var r := DeleteOrder(b, ord);
      r.err == NoError && Inv(r.book) && Patch(b.orders, Delete, ord) == Some(r.book.orders)
  {
    var r := DeleteOrder(b, ord);
    RemovedSideInv(b.Prices(ord.side), ord.side, b.orders, b.BestQuote(ord.side), ord.price);
    var other := if ord.side.Sell? then Buy else Sell;
    OtherSideInv(b.Prices(other), other, b.orders, b.BestQuote(other), r.book.orders, ord.price);
  }

  lemma UpdateKeepsInv(b: Book, ord: Order)
    requires Inv(b) && WellFormed(b, Update, ord)
    ensures var r := UpdateOrder(b, ord);
      r.err == NoError && Inv(r.book) && Patch(b.orders, Update, ord) == Some(r.book.orders)
  {
    var orders := b.orders[ord.price := b.orders[ord.price].(size := ord.size)];
    assert orders - {ord.price} == b.orders - {ord.price};
    ResizedSideInv(b.Prices(ord.side), ord.side, b.orders, b.BestQuote(ord.side), ord.price, ord.size);
    var other := if ord.side.Sell? then Buy else Sell;
    OtherSideInv(b.Prices(other), other, b.orders, b.BestQuote(other), orders, ord.price);
  }

  /** One well-formed order is accepted, keeps the four forms in agreement, and changes the order
      map exactly as a reader of the stream would change its own. */
  lemma OrderKeepsInv(b: Book, action: Action, ord: Order)
    requires Inv(b) && WellFormed(b, action, ord)
    ensures var r := ApplyOrder(b, action, ord);
      r.err == NoError && Inv(r.book) && Patch(b.orders, action, ord) == Some(r.book.orders)
  {
    match action
    case Insert => InsertKeepsInv(b, ord);
    case Delete => DeleteKeepsInv(b, ord);
    case Update => UpdateKeepsInv(b, ord);
  }

  lemma {:induction false} OrdersKeepInv(b: Book, action: Action, data: seq<Order>)
    requires Inv(b) && WellFormedAll(b, action, data)
    ensures ApplyOrders(b, action, data).1 == NoError && Inv(ApplyOrders(b, action, data).0)
    ensures PatchAll(b.orders, action, data) == Some(ApplyOrders(b, action, data).0.orders)
    decreases |data|
  {
    if data != [] {
      OrdersKeepInv(b, action, data[..|data| - 1]);
      OrderKeepsInv(ApplyOrders(b, action, data[..|data| - 1]).0, action, data[|data| - 1]);
    }
  }

  /** The orders determine the rest of the book: both price lists and both quotes. */
  lemma BookDetermined(b: Book, c: Book)
    requires Inv(b) && Inv(c) && b.orders == c.orders
    ensures b == c
  {
    SortedUnique(b.asks, c.asks, true);
    SortedUnique(b.bids, c.bids, false);
  }

  // ---------------------------------------------------------------- errors that break the invariant

  /** handleDelete indexes the list that is left, and looks its last price up in the cache, when it takes
      the price for the best one. */
  ghost predicate HasBest(prices: seq<Price>, orders: map<Price, Order>) {
    prices != [] && prices[|prices| - 1] in orders
  }

  ghost predicate DeleteSafe(b: Book, ord: Order) {
    ord.price in b.orders && ord.side.Known() ==>
      var prices, reverse := b.Prices(ord.side), ord.side.Sell?;
      |prices| - UniPriceSearch(prices, ord.price, reverse) == 1 ==> HasBest(Removed(prices, ord.price, reverse), b.orders)
  }

  /** In a consistent book a safe delete leaves its side something, whatever its depth. */
  lemma SafeLeavesBest(b: Book, ord: Order)
    requires Inv(b) && DeleteSafe(b, ord) && ord.price in b.orders && ord.side.Known()
    ensures HasBest(Removed(b.Prices(ord.side), ord.price, ord.side.Sell?), b.orders)
  {
    var prices, now := b.Prices(ord.side), Removed(b.Prices(ord.side), ord.price, ord.side.Sell?);
    RemovedPrices(prices, ord.price, ord.side.Sell?);
    if prices == [] {
      assert now == [] && UniPriceSearch(prices, ord.price, ord.side.Sell?) == -1;
    } else {
      assert now != [] && now[|now| - 1] in now;
    }
  }

  /** handleDelete drops the price from the map even when it reports an error: the forms stay in
      agreement exactly when the price was absent, or the order names the cached side. */
  lemma DeleteInvIff(b: Book, ord: Order)
    requires Inv(b) && DeleteSafe(b, ord)
    ensures Inv(DeleteOrder(b, ord).book) <==> (ord.price in b.orders ==> b.orders[ord.price].side == ord.side)
  {
    if ord.price in b.orders {
      var side := b.orders[ord.price].side;
      assert ord.price in b.Prices(side);
      if side == ord.side {
        SafeLeavesBest(b, ord);
        RemovedPrices(b.Prices(side), ord.price, side.Sell?);
        var last := Removed(b.Prices(side), ord.price, side.Sell?)[0];
        assert |b.Prices(side)| > 1 by {
          assert last in Removed(b.Prices(side), ord.price, side.Sell?);
        }
        DeleteKeepsInv(b, ord);
      } else {
        var c := DeleteOrder(b, ord).book;
        assert ord.price in c.Prices(side) && ord.price !in c.orders;
      }
    }
  }

  /** handleInsert caches an order of an unknown side that no list holds. */
  lemma InsertInvIff(b: Book, ord: Order)
    requires Inv(b)
    ensures Inv(InsertOrder(b, ord).book) <==> ord.price in b.orders || ord.side.Known()
  {
    if ord.price !in b.orders {
      if ord.side.Known() {
        InsertKeepsInv(b, ord);
      } else {
        assert InsertOrder(b, ord).book.orders[ord.price].side == ord.side;
      }
    }
  }

  /** handleUpdate takes an index of -1 in an empty list for the best price: an update that names the
      wrong side, while that side has no orders, is refused after it has resized the empty side's quote. */
  lemma UpdateInvIff(b: Book, ord: Order)
    requires Inv(b)
    ensures Inv(UpdateOrder(b, ord).book) <==> !ResizesEmpty(b, ord)
  {
    if ord.price in b.orders && ord.side.Known() {
      if b.orders[ord.price].side == ord.side {
        UpdateKeepsInv(b, ord);
      } else {
        assert ord.price !in b.Prices(ord.side);
      }
    }
  }

  predicate ResizesEmpty(b: Book, ord: Order) {
    && ord.price in b.orders && ord.side.Known() && ord.side != b.orders[ord.price].side
    && b.Prices(ord.side) == [] && ord.size != 0.0
  }

  /** The smallest such update: a book with one bid, resized as an ask. */
  lemma WrongSideUpdate()
    ensures var b := InsertOrder(EMPTY_BOOK, Order(0, Buy, 1.0, 1.0)).book;
      && Inv(b)
      && UpdateOrder(b, Order(0, Sell, 1.0, 2.0)).err == NotFound
      && UpdateOrder(b, Order(0, Sell, 1.0, 2.0)).book.askQuote == Quote(0.0, 2.0)
      && !Inv(UpdateOrder(b, Order(0, Sell, 1.0, 2.0)).book)
  {
    InsertKeepsInv(EMPTY_BOOK, Order(0, Buy, 1.0, 1.0));
    UpdateInvIff(InsertOrder(EMPTY_BOOK, Order(0, Buy, 1.0, 1.0)).book, Order(0, Sell, 1.0, 2.0));
  }

  /** What UniPriceAdd asks of its caller. */
  ghost predicate InsertSafe(b: Book, ord: Order) {
    ord.price !in b.orders && ord.side.Known() ==>
      Sorted(b.Prices(ord.side), ord.side.Sell?) && ord.price !in b.Prices(ord.side)
  }

  ghost predicate Safe(b: Book, action: Action, ord: Order) {
    (action.Delete? ==> DeleteSafe(b, ord)) && (action.Insert? ==> InsertSafe(b, ord))
  }

  ghost predicate SafeAll(b: Book, action: Action, data: seq<Order>)
    decreases |data|
  {
    data != [] ==>
      && SafeAll(b, action, data[..|data| - 1])
      && var (c, err) := ApplyOrders(b, action, data[..|data| - 1]);
         err == NoError ==> Safe(c, action, data[|data| - 1])
  }

  /** The handlers report an error exactly for the orders that are not well formed. */
  lemma OrderErrorIff(b: Book, action: Action, ord: Order)
    requires Inv(b) && Safe(b, action, ord)
    ensures ApplyOrder(b, action, ord).err == NoError <==> WellFormed(b, action, ord)
  {
    if action.Delete? && ord.price in b.orders && b.orders[ord.price].side == ord.side {
      SafeLeavesBest(b, ord);
      var now := Removed(b.Prices(ord.side), ord.price, ord.side.Sell?);
      assert now[0] in now;
      RemovedPrices(b.Prices(ord.side), ord.price, ord.side.Sell?);
      assert ord.price in b.Prices(ord.side) && now[0] in b.Prices(ord.side);
    }
  }

  lemma {:induction false} MessageErrorIff(b: Book, action: Action, data: seq<Order>)
    requires Inv(b) && SafeAll(b, action, data)
    ensures ApplyOrders(b, action, data).1 == NoError <==> WellFormedAll(b, action, data)
    decreases |data|
  {
    if data != [] {
      var front := data[..|data| - 1];
      MessageErrorIff(b, action, front);
      if WellFormedAll(b, action, front) {
        OrdersKeepInv(b, action, front);
        OrderErrorIff(ApplyOrders(b, action, front).0, action, data[|data| - 1]);
      }
    }
  }

  lemma {:induction false} WellFormedIsSafe(b: Book, action: Action, data: seq<Order>)
    requires Inv(b) && WellFormedAll(b, action, data)
    ensures SafeAll(b, action, data)
    decreases |data|
  {
    if data != [] {
      var front, ord := data[..|data| - 1], data[|data| - 1];
      WellFormedIsSafe(b, action, front);
      OrdersKeepInv(b, action, front);
      var c := ApplyOrders(b, action, front).0;
      if action.Delete? {
        var now := Removed(c.Prices(ord.side), ord.price, ord.side.Sell?);
        assert now[|now| - 1] in now;
        RemovedPrices(c.Prices(ord.side), ord.price, ord.side.Sell?);
      }
    }
  }

  /** In a consistent book only a delete can be unsafe. */
  lemma {:induction false} OthersSafe(b: Book, action: Action, data: seq<Order>)
    requires Inv(b) && !action.Delete?
    ensures SafeAll(b, action, data)
    decreases |data|
  {
    if data != [] {
      var front := data[..|data| - 1];
      OthersSafe(b, action, front);
      MessageErrorIff(b, action, front);
      if WellFormedAll(b, action, front) {
        OrdersKeepInv(b, action, front);
      }
    }
  }

  lemma {:induction false} NextSafe(b: Book, action: Action, data: seq<Order>, i: nat)
    requires SafeAll(b, action, data) && i < |data| && ApplyOrders(b, action, data[..i]).1 == NoError
    ensures Safe(ApplyOrders(b, action, data[..i]).0, action, data[i])
    decreases |data|
  {
    if i < |data| - 1 {
      assert data[..|data| - 1][..i] == data[..i];
      NextSafe(b, action, data[..|data| - 1], i);
    }
  }

  /** Nothing after the first error is applied. */
  lemma {:induction false} ErrorStops(b: Book, action: Action, data: seq<Order>, i: nat)
    requires i <= |data| && ApplyOrders(b, action, data[..i]).1 != NoError
    ensures ApplyOrders(b, action, data) == ApplyOrders(b, action, data[..i])
    decreases |data|
  {
    if i < |data| {
      assert data[..|data| - 1][..i] == data[..i];
      ErrorStops(b, action, data[..|data| - 1], i);
    } else {
      assert data[..i] == data;
    }
  }

  // ---------------------------------------------------------------- depth is rank

  ghost function Rank(b: Book, side: Side, p: Price): nat {
    1 + |Better(b.Prices(side), p, side.Sell?)|
  }

  /** The depth a handler returns is the rank of the order: after the change for an insert, before
      it for a delete or an update. */
  lemma DepthIsRank(b: Book, action: Action, ord: Order)
    requires Inv(b) && WellFormed(b, action, ord)
    ensures var r := ApplyOrder(b, action, ord);
      r.depth == Rank(if action.Insert? then r.book else b, ord.side, ord.price)
  {
    var r := ApplyOrder(b, action, ord);
    OrderKeepsInv(b, action, ord);
    var c := if action.Insert? then r.book else b;
    var prices := c.Prices(ord.side);
    var idx := if action.Insert? then Position(b.Prices(ord.side), ord.price, ord.side.Sell?)
               else UniPriceSearch(prices, ord.price, ord.side.Sell?);
    assert prices[idx] == ord.price;
    RankCountsBetter(prices, ord.side.Sell?, idx);
  }

  /** GetOrderOnDepth is the inverse of rank. */
  lemma OrderOnDepthInvertsRank(b: Book, side: Side, depth: nat)
    requires Inv(b) && side.Known() && depth > 0
    ensures OrderOnDepth(b, side, depth).Some? <==> depth <= |b.Prices(side)|
    ensures forall p :: p in b.Prices(side) ==>
      (OrderOnDepth(b, side, depth) == Some(b.orders[p]) <==> Rank(b, side, p) == depth)
  {
    var prices := b.Prices(side);
    assert depth <= |prices| ==> prices[|prices| - depth] in prices;
    forall p | p in prices
      ensures OrderOnDepth(b, side, depth) == Some(b.orders[p]) <==> Rank(b, side, p) == depth
    {
      var k :| 0 <= k < |prices| && prices[k] == p;
      RankCountsBetter(prices, side.Sell?, k);
      assert depth <= |prices| && prices[|prices| - depth] == p ==> |prices| - depth == k;
    }
  }
}
