/** MBLCache: the class that keeps the four forms of the book in place and publishes what changes. */
module MblCaches {
  import opened PriceLists
  import opened Slices
  import opened OrderBooks
  import opened DepthViews
  import opened DepthStreams
  import opened Emissions
  import opened Snapshots
  import opened Merging
  import opened FloatSets
  import opened Wrappers

  function Limits(depths: set<nat>, b: Book, action: Action, data: seq<Order>): map<nat, Limited> {
    map d | d in depths && d != 0 :: LimitOrders(b, action, data, d)
  }

  /** An error ends the message. */
  lemma AdvanceError(b: Book, action: Action, data: seq<Order>, i: nat, c: Book, r: Reply)
    requires i < |data| && ApplyOrders(b, action, data[..i]) == (c, NoError)
    requires r == ApplyOrder(c, action, data[i]) && r.err != NoError
    ensures ApplyOrders(b, action, data) == (r.book, r.err)
  {
    assert data[..i + 1][..i] == data[..i];
    ErrorStops(b, action, data, i + 1);
  }

  /** One more order of a message is one more step for every channel. */
  lemma Advance(depths: set<nat>, b: Book, action: Action, data: seq<Order>, i: nat, c: Book, r: Reply)
    requires i < |data| && ApplyOrders(b, action, data[..i]) == (c, NoError)
    requires r == ApplyOrder(c, action, data[i]) && r.err == NoError
    ensures var limits := Limits(depths, b, action, data[..i]);
      && ApplyOrders(b, action, data[..i + 1]) == (r.book, NoError)
      && Limits(depths, b, action, data[..i + 1]) == map d | d in limits :: LimitOrder(limits[d], r, action, data[i], d)
  {
    assert data[..i + 1][..i] == data[..i];
  }

  function AfterDispatch(channels: map<nat, seq<Message>>, msg: Message, limits: map<nat, Limited>): map<nat, seq<Message>>
    requires limits.Keys == channels.Keys - {0}
  {
    map d | d in channels :: channels[d] + Sent(d, msg, if d == 0 then NO_LIMITS else limits[d])
  }

  /** Every channel after one message of a delta. */
  function AfterDelta(channels: map<nat, seq<Message>>, b: Book, msg: Message): map<nat, seq<Message>> {
    map d | d in channels :: channels[d] + DeltaSent(d, b, msg)
  }

  /** Every channel grows at its end: channel 0 by the message, a depth channel by what the message and its
      limits ask for. */
  ghost predicate Dispatched(before: map<nat, seq<Message>>, after: map<nat, seq<Message>>, msg: Message, limits: map<nat, Limited>) {
    && after.Keys == before.Keys
    && (0 in after ==> after[0] == before[0] + [msg])
    && forall d :: d in after && d != 0 && d in limits ==>
         before[d] <= after[d] && Responded(after[d][|before[d]|..], msg.action, limits[d])
  }

  lemma DispatchIsResponse(before: map<nat, seq<Message>>, msg: Message, limits: map<nat, Limited>)
    requires limits.Keys == before.Keys - {0}
    ensures Dispatched(before, AfterDispatch(before, msg, limits), msg, limits)
  {
    var after := AfterDispatch(before, msg, limits);
    forall d | d in after
      ensures d == 0 ==> after[d] == before[d] + [msg]
      ensures d != 0 ==> before[d] <= after[d] && Responded(after[d][|before[d]|..], msg.action, limits[d])
    {
      var l := if d == 0 then NO_LIMITS else limits[d];
      SentResponded(d, msg, l);
      assert (before[d] + Sent(d, msg, l))[|before[d]|..] == Sent(d, msg, l);
    }
  }

  /** Depth channels never get an empty message, and get nothing exactly when no order of the message ranks
      within their depth in its turn. */
  ghost predicate ToldInView(before: map<nat, seq<Message>>, after: map<nat, seq<Message>>, b: Book, msg: Message) {
    forall d :: d in after && d in before && d != 0 ==>
      && before[d] <= after[d]
      && (forall m :: m in after[d][|before[d]|..] ==> m.data != [])
      && (after[d] == before[d] <==> forall i :: 0 <= i < |msg.data| ==> !HitsView(b, msg.action, msg.data, i, d))
  }

  lemma DeltaToldInView(before: map<nat, seq<Message>>, b: Book, msg: Message)
    requires Inv(b) && msg.action.Delta() && WellFormedAll(b, msg.action, msg.data)
    ensures ToldInView(before, AfterDelta(before, b, msg), b, msg)
  {
    var after := AfterDelta(before, b, msg);
    forall d | d in after && d != 0
      ensures before[d] <= after[d] && forall m :: m in after[d][|before[d]|..] ==> m.data != []
      ensures after[d] == before[d] <==> forall i :: 0 <= i < |msg.data| ==> !HitsView(b, msg.action, msg.data, i, d)
    {
      DeltaSilentIff(d, b, msg);
      SentResponded(d, msg, LimitOrders(b, msg.action, msg.data, d));
      assert (before[d] + DeltaSent(d, b, msg))[|before[d]|..] == DeltaSent(d, b, msg);
    }
  }

  lemma AppliedIsTold(before: map<nat, seq<Message>>, after: map<nat, seq<Message>>, b: Book, msg: Message)
    requires after == AfterDelta(before, b, msg) && msg.action.Delta() && SafeAll(b, msg.action, msg.data)
    requires ApplyOrders(b, msg.action, msg.data).1 == NoError
    ensures 0 in after ==> after[0] == before[0] + [msg]
    ensures Inv(b) ==> ToldInView(before, after, b, msg)
  {
    if Inv(b) {
      MessageErrorIff(b, msg.action, msg.data);
      DeltaToldInView(before, b, msg);
    }
  }

  lemma NoErrorKeepsInv(b: Book, action: Action, data: seq<Order>)
    requires Inv(b) && SafeAll(b, action, data)
    ensures ApplyOrders(b, action, data).1 == NoError ==> Inv(ApplyOrders(b, action, data).0)
  {
    MessageErrorIff(b, action, data);
    if WellFormedAll(b, action, data) {
      OrdersKeepInv(b, action, data);
    }
  }

  lemma LimitsAreDelta(channels: map<nat, seq<Message>>, b: Book, msg: Message)
    ensures var limits := Limits(channels.Keys, b, msg.action, msg.data);
      limits.Keys == channels.Keys - {0} && AfterDispatch(channels, msg, limits) == AfterDelta(channels, b, msg)
  {
  }

  function AfterStage(channels: map<nat, seq<Message>>, b: Book, action: Action, data: seq<Order>): map<nat, seq<Message>> {
    map d | d in channels :: channels[d] + StageSent(d, b, action, data)
  }

  /** Every channel after the three messages of a merge. */
  function AfterMerge(channels: map<nat, seq<Message>>, b: Book, ps: Patches): map<nat, seq<Message>> {
    map d | d in channels :: channels[d] + MergeSent(d, b, ps)
  }

  lemma StagesAreMerge(channels: map<nat, seq<Message>>, b: Book, ps: Patches)
    ensures var c := ApplyOrders(b, Delete, ps.deletes).0;
      var d := ApplyOrders(c, Insert, ps.inserts).0;
      AfterStage(AfterStage(AfterStage(channels, b, Delete, ps.deletes), c, Insert, ps.inserts), d, Update, ps.updates)
        == AfterMerge(channels, b, ps)
  {
    var c := ApplyOrders(b, Delete, ps.deletes).0;
    var d := ApplyOrders(c, Insert, ps.inserts).0;
    forall k | k in channels {
      Join3(channels[k], StageSent(k, b, Delete, ps.deletes), StageSent(k, c, Insert, ps.inserts), StageSent(k, d, Update, ps.updates));
    }
  }

  lemma Join3(s: seq<Message>, t: seq<Message>, u: seq<Message>, v: seq<Message>)
    ensures s + t + u + v == s + (t + u + v)
  {
  }

  lemma EmptyStage(channels: map<nat, seq<Message>>, b: Book, action: Action, data: seq<Order>)
    requires data == []
    ensures AfterStage(channels, b, action, data) == channels && ApplyOrders(b, action, data).0 == b
  {
    forall k | k in channels ensures channels[k] + StageSent(k, b, action, []) == channels[k] {
    }
  }

  lemma StageIsDelta(channels: map<nat, seq<Message>>, b: Book, action: Action, data: seq<Order>)
    requires data != []
    ensures AfterStage(channels, b, action, data) == AfterDelta(channels, b, Message(action, data))
  {
  }

  /** A price has left the list of its side; the map is not yet changed. */
  predicate Dropped(b: Book, ord: Order, c: Book, idx: int, depth: int) {
    if !ord.side.Known() then idx == -1 && depth == 0 && c == b else
    var before := b.Prices(ord.side);
    var prices := Removed(before, ord.price, ord.side.Sell?);
    && idx == UniPriceSearch(before, ord.price, ord.side.Sell?) && depth == |before| - idx
    && c == b.WithSide(ord.side, prices, if depth == 1 then LastQuote(prices, b.orders) else b.BestQuote(ord.side))
  }

  lemma DroppedIsDeleted(b: Book, ord: Order, c: Book, idx: int, depth: int)
    requires ord.price in b.orders && Dropped(b, ord, c, idx, depth)
    ensures DeleteOrder(b, ord) == Reply(c.(orders := b.orders - {ord.price}), depth, if idx < 0 then NotFound else NoError)
  {
  }

  function MinInt(i: int, j: int): int {
    if i <= j then i else j
  }

  class MBLCache {
    var askPrices: Slice<Price>
    var bidPrices: Slice<Price>
    var askQuote: Quote
    var bidQuote: Quote
    var l2Cache: map<Price, Order>
    // channelGroup[Realtime]: what has been published to the channel of each depth
    var channels: map<nat, seq<Message>>

    ghost predicate Separate()
      reads this
    {
      askPrices.Valid() && bidPrices.Valid() && askPrices.arr != bidPrices.arr
    }

    function Contents(): Book
      requires Separate()
      reads this, askPrices.arr, bidPrices.arr
    {
      Book(askPrices.Elems(), bidPrices.Elems(), l2Cache, askQuote, bidQuote)
    }

    ghost predicate Valid()
      reads this, askPrices.arr, bidPrices.arr
    {
      Separate() && Inv(Contents())
    }

    constructor (depths: set<nat>)
      ensures Valid() && Contents() == EMPTY_BOOK
      ensures fresh(askPrices.arr) && fresh(bidPrices.arr)
      ensures channels == map d | d in depths + {0} :: []
    {
      var asks, bids := new Price[0], new Price[0];
      askPrices, bidPrices := Slice(asks, 0, 0), Slice(bids, 0, 0);
      askQuote, bidQuote, l2Cache := NO_QUOTE, NO_QUOTE, map[];
      channels := map d | d in depths + {0} :: [];
    }

    method DropBid(price: Price) returns (idx: int, depth: int)
      requires Separate()
      requires bidPrices.len - UniPriceSearch(bidPrices.Elems(), price, false) == 1 ==> HasBest(Removed(bidPrices.Elems(), price, false), l2Cache)
      modifies `bidPrices, `bidQuote, bidPrices.arr
      ensures Separate() && bidPrices.arr == old(bidPrices.arr)
      ensures idx == UniPriceSearch(old(bidPrices.Elems()), price, false) && depth == old(bidPrices.len) - idx
      ensures bidPrices.Elems() == Removed(old(bidPrices.Elems()), price, false)
      ensures bidQuote == if depth == 1 then LastQuote(bidPrices.Elems(), l2Cache) else old(bidQuote)
    {
      var originLen := bidPrices.len;
      idx, bidPrices := UniPriceRemove(bidPrices, price, false);
      depth := originLen - idx;
      if depth == 1 {
        bidQuote := LastQuote(bidPrices.Elems(), l2Cache);
      }
    }

    method DropAsk(price: Price) returns (idx: int, depth: int)
      requires Separate()
      requires askPrices.len - UniPriceSearch(askPrices.Elems(), price, true) == 1 ==> HasBest(Removed(askPrices.Elems(), price, true), l2Cache)
      modifies `askPrices, `askQuote, askPrices.arr
      ensures Separate() && askPrices.arr == old(askPrices.arr)
      ensures idx == UniPriceSearch(old(askPrices.Elems()), price, true) && depth == old(askPrices.len) - idx
      ensures askPrices.Elems() == Removed(old(askPrices.Elems()), price, true)
      ensures askQuote == if depth == 1 then LastQuote(askPrices.Elems(), l2Cache) else old(askQuote)
    {
      var originLen := askPrices.len;
      idx, askPrices := UniPriceRemove(askPrices, price, true);
      depth := originLen - idx;
      if depth == 1 {
        askQuote := LastQuote(askPrices.Elems(), l2Cache);
      }
    }

    /** The switch of handleDelete: the price leaves the list of its side. */
    method DropPrice(ord: Order) returns (idx: int, depth: int)
      requires Separate() && DeleteSafe(Contents(), ord) && ord.price in l2Cache
      modifies `askPrices, `bidPrices, `askQuote, `bidQuote, askPrices.arr, bidPrices.arr
      ensures Separate()
      ensures askPrices.arr == old(askPrices.arr) && bidPrices.arr == old(bidPrices.arr)
      ensures Dropped(old(Contents()), ord, Contents(), idx, depth)
    {
      idx, depth := -1, 0;
      match ord.side {
        case Buy =>
          idx, depth := DropBid(ord.price);
        case Sell =>
          idx, depth := DropAsk(ord.price);
        case Unknown(_) =>
      }
    }

    method HandleDelete(ord: Order) returns (depth: int, err: Error)
      requires Separate() && DeleteSafe(Contents(), ord)
      modifies `askPrices, `bidPrices, `askQuote, `bidQuote, `l2Cache, askPrices.arr, bidPrices.arr
      ensures Separate()
      ensures askPrices.arr == old(askPrices.arr) && bidPrices.arr == old(bidPrices.arr)
      ensures Reply(Contents(), depth, err) == DeleteOrder(old(Contents()), ord)
    {
      ghost var b := Contents();
      if ord.price !in l2Cache {
        return 0, NotExist;
      }
      var idx;
      idx, depth := DropPrice(ord);
      err := if ord.side.Known() then NoError else InvalidSide;
      if idx < 0 {
        err := NotFound;
      }
      DroppedIsDeleted(b, ord, Contents(), idx, depth);
      l2Cache := l2Cache - {ord.price};
    }

    method AddBid(ord: Order) returns (depth: int)
      requires Separate() && Sorted(bidPrices.Elems(), false) && ord.price !in bidPrices.Elems()
      modifies `bidPrices, `bidQuote, bidPrices.arr
      ensures Separate() && (bidPrices.arr == old(bidPrices.arr) || fresh(bidPrices.arr))
      ensures bidPrices.Elems() == Inserted(old(bidPrices.Elems()), ord.price, false)
      ensures depth == bidPrices.len - Position(old(bidPrices.Elems()), ord.price, false)
      ensures bidQuote == if depth == 1 then Quote(ord.price, ord.size) else old(bidQuote)
    {
      var idx;
      idx, bidPrices := UniPriceAdd(bidPrices, ord.price, false);
      depth := bidPrices.len - idx;
      if depth == 1 {
        bidQuote := Quote(ord.price, ord.size);
      }
    }

    method AddAsk(ord: Order) returns (depth: int)
      requires Separate() && Sorted(askPrices.Elems(), true) && ord.price !in askPrices.Elems()
      modifies `askPrices, `askQuote, askPrices.arr
      ensures Separate() && (askPrices.arr == old(askPrices.arr) || fresh(askPrices.arr))
      ensures askPrices.Elems() == Inserted(old(askPrices.Elems()), ord.price, true)
      ensures depth == askPrices.len - Position(old(askPrices.Elems()), ord.price, true)
      ensures askQuote == if depth == 1 then Quote(ord.price, ord.size) else old(askQuote)
    {
      var idx;
      idx, askPrices := UniPriceAdd(askPrices, ord.price, true);
      depth := askPrices.len - idx;
      if depth == 1 {
        askQuote := Quote(ord.price, ord.size);
      }
    }

    method HandleInsert(ord: Order) returns (depth: int, err: Error)
      requires Separate() && InsertSafe(Contents(), ord)
      modifies `askPrices, `bidPrices, `askQuote, `bidQuote, `l2Cache, askPrices.arr, bidPrices.arr
      ensures Separate()
      ensures askPrices.arr == old(askPrices.arr) || fresh(askPrices.arr)
      ensures bidPrices.arr == old(bidPrices.arr) || fresh(bidPrices.arr)
      ensures Reply(Contents(), depth, err) == InsertOrder(old(Contents()), ord)
    {
      ghost var r := InsertOrder(Contents(), ord);
      if ord.price in l2Cache {
        return 0, AlreadyExist;
      }
      depth, err := 0, NoError;
      match ord.side {
        case Buy =>
          depth := AddBid(ord);
        case Sell =>
          depth := AddAsk(ord);
        case Unknown(_) =>
          err := InvalidSide;
      }
      l2Cache := l2Cache[ord.price := ord];
      assert askPrices.Elems() == r.book.asks && bidPrices.Elems() == r.book.bids;
      assert askQuote == r.book.askQuote && bidQuote == r.book.bidQuote && depth == r.depth;
      assert Contents() == r.book;
    }

    method HandleUpdate(ord: Order) returns (depth: int, err: Error)
      requires Separate()
      modifies `l2Cache, `askQuote, `bidQuote
      ensures Separate()
      ensures Reply(Contents(), depth, err) == UpdateOrder(old(Contents()), ord)
    {
      ghost var b := Contents();
      if ord.price !in l2Cache {
        return 0, NotExist;
      }
      var idx := -1;
      depth, err := 0, NoError;
      match ord.side {
        case Buy =>
          idx := UniPriceSearch(bidPrices.Elems(), ord.price, false);
          depth := bidPrices.len - idx;
          if depth == 1 {
            bidQuote := bidQuote.(size := ord.size);
          }
        case Sell =>
          idx := UniPriceSearch(askPrices.Elems(), ord.price, true);
          depth := askPrices.len - idx;
          if depth == 1 {
            askQuote := askQuote.(size := ord.size);
          }
        case Unknown(_) =>
          err := InvalidSide;
      }
      if idx < 0 {
        err := NotFound;
      } else {
        l2Cache := l2Cache[ord.price := l2Cache[ord.price].(size := ord.size)];
      }
    }

    method GetOrderOnDepth(side: Side, depth: nat) returns (ord: Option<Order>)
      requires Separate() && depth > 0
      ensures ord == OrderOnDepth(Contents(), side, depth)
    {
      var depthPrice: Price;
      match side {
        case Buy =>
          if bidPrices.len < 1 || depth > bidPrices.len {
            return None;
          }
          depthPrice := bidPrices.Elems()[bidPrices.len - depth];
        case Sell =>
          if askPrices.len < 1 || depth > askPrices.len {
            return None;
          }
          depthPrice := askPrices.Elems()[askPrices.len - depth];
        case Unknown(_) =>
          return None;
      }
      if depthPrice in l2Cache {
        return Some(l2Cache[depthPrice]);
      }
      return None;
    }

    method ApplyOne(action: Action, ord: Order) returns (depth: int, err: Error)
      requires Separate() && Safe(Contents(), action, ord)
      modifies `askPrices, `bidPrices, `askQuote, `bidQuote, `l2Cache, askPrices.arr, bidPrices.arr
      ensures Separate()
      ensures askPrices.arr == old(askPrices.arr) || fresh(askPrices.arr)
      ensures bidPrices.arr == old(bidPrices.arr) || fresh(bidPrices.arr)
      ensures Reply(Contents(), depth, err) == ApplyOrder(old(Contents()), action, ord)
    {
      match action {
        case Delete => depth, err := HandleDelete(ord);
        case Insert => depth, err := HandleInsert(ord);
        case Update => depth, err := HandleUpdate(ord);
        case _ => depth, err := 0, InvalidAction;
      }
    }

    /** One round of the inner loops of applyData: the order goes to every channel that can see it,
        and with it the order that it pushes out of the view or lets in. */
    method Limit(limits: map<nat, Limited>, action: Action, ord: Order, depth: int) returns (r: map<nat, Limited>)
      requires Separate() && 0 !in limits
      ensures r == map d | d in limits :: LimitOrder(limits[d], Reply(Contents(), depth, NoError), action, ord, d)
    {
      r := limits;
      var rest := limits.Keys;
      while rest != {}
        invariant rest <= limits.Keys && r.Keys == limits.Keys
        invariant forall d :: d in limits ==>
          r[d] == if d in rest then limits[d] else LimitOrder(limits[d], Reply(Contents(), depth, NoError), action, ord, d)
      {
        ghost var some := Member(rest);
        var limit :| limit in rest;
        if depth <= limit {
          var l := r[limit];
          var makeup := None;
          if action.Delete? {
            makeup := GetOrderOnDepth(ord.side, limit);
          } else if action.Insert? {
            makeup := GetOrderOnDepth(ord.side, limit + 1);
          }
          l := l.(primary := l.primary + [ord]);
          if makeup.Some? {
            l := l.(makeup := l.makeup + [makeup.value]);
          }
          r := r[limit := l];
        }
        rest := rest - {limit};
      }
    }

    /** The first `i` orders of a message are applied and limited without an error. */
    ghost predicate Progress(b: Book, action: Action, data: seq<Order>, i: nat, limits: map<nat, Limited>)
      requires i <= |data|
      reads this, askPrices.arr, bidPrices.arr
    {
      && Separate()
      && ApplyOrders(b, action, data[..i]) == (Contents(), NoError)
      && limits == Limits(channels.Keys, b, action, data[..i])
    }

    method ApplyNext(action: Action, data: seq<Order>, i: nat, ghost b: Book) returns (depth: int, err: Error)
      requires Separate() && i < |data| && SafeAll(b, action, data) && ApplyOrders(b, action, data[..i]) == (Contents(), NoError)
      modifies `askPrices, `bidPrices, `askQuote, `bidQuote, `l2Cache, askPrices.arr, bidPrices.arr
      ensures Separate()
      ensures askPrices.arr == old(askPrices.arr) || fresh(askPrices.arr)
      ensures bidPrices.arr == old(bidPrices.arr) || fresh(bidPrices.arr)
      ensures Reply(Contents(), depth, err) == ApplyOrder(old(Contents()), action, data[i])
    {
      NextSafe(b, action, data, i);
      depth, err := ApplyOne(action, data[i]);
    }

    method LimitNext(limits: map<nat, Limited>, action: Action, data: seq<Order>, i: nat, depth: int, ghost b: Book, ghost c: Book)
      returns (r: map<nat, Limited>)
      requires Separate() && i < |data| && limits == Limits(channels.Keys, b, action, data[..i])
      requires ApplyOrders(b, action, data[..i]) == (c, NoError)
      requires ApplyOrder(c, action, data[i]) == Reply(Contents(), depth, NoError)
      ensures Progress(b, action, data, i + 1, r)
    {
      Advance(channels.Keys, b, action, data, i, c, Reply(Contents(), depth, NoError));
      r := Limit(limits, action, data[i], depth);
    }

    /** The delete, insert and update branches of applyData.  The cache need not be consistent: an
        earlier message may have failed. */
    method ApplyDelta(action: Action, data: seq<Order>) returns (limits: map<nat, Limited>, err: Error)
      requires Separate() && action.Delta() && SafeAll(Contents(), action, data)
      modifies `askPrices, `bidPrices, `askQuote, `bidQuote, `l2Cache, askPrices.arr, bidPrices.arr
      ensures Separate()
      ensures askPrices.arr == old(askPrices.arr) || fresh(askPrices.arr)
      ensures bidPrices.arr == old(bidPrices.arr) || fresh(bidPrices.arr)
      ensures ApplyOrders(old(Contents()), action, data) == (Contents(), err)
      ensures err == NoError ==> limits == Limits(channels.Keys, old(Contents()), action, data)
    {
      ghost var b := Contents();
      limits := map d | d in channels && d != 0 :: Limited([], []);
      for i := 0 to |data|
        invariant Progress(b, action, data, i, limits)
        invariant askPrices.arr == old(askPrices.arr) || fresh(askPrices.arr)
        invariant bidPrices.arr == old(bidPrices.arr) || fresh(bidPrices.arr)
      {
        ghost var c := Contents();
        var depth;
        depth, err := ApplyNext(action, data, i, b);
        if err != NoError {
          AdvanceError(b, action, data, i, c, Reply(Contents(), depth, err));
          return;
        }
        limits := LimitNext(limits, action, data, i, depth, b, c);
      }
      assert data[..|data|] == data;
      err := NoError;
    }

    /** dispatchRsp, for the channels in any order. */
    method DispatchRsp(msg: Message, limits: map<nat, Limited>)
      requires limits.Keys == channels.Keys - {0}
      modifies `channels
      ensures channels == AfterDispatch(old(channels), msg, limits)
      ensures Dispatched(old(channels), channels, msg, limits)
    {
      var rest := channels.Keys;
      while rest != {}
        invariant rest <= old(channels).Keys && channels.Keys == old(channels).Keys
        invariant forall d :: d in channels ==>
          channels[d] == if d in rest then old(channels)[d] else old(channels)[d] + Sent(d, msg, if d == 0 then NO_LIMITS else limits[d])
      {
        ghost var some := Member(rest);
        var depth :| depth in rest;
        if depth == 0 {
          Publish(0, msg);
        } else {
          Publish2(depth, msg.action, limits[depth]);
        }
        rest := rest - {depth};
      }
      assert channels == AfterDispatch(old(channels), msg, limits);
      DispatchIsResponse(old(channels), msg, limits);
    }

    method Publish(depth: nat, msg: Message)
      requires depth in channels
      modifies `channels
      ensures channels == old(channels)[depth := old(channels)[depth] + [msg]]
    {
      channels := channels[depth := channels[depth] + [msg]];
    }

    method Publish2(depth: nat, action: Action, l: Limited)
      requires depth in channels && depth != 0
      modifies `channels
      ensures channels == old(channels)[depth := old(channels)[depth] + Sent(depth, Message(action, []), l)]
    {
      if l.primary != [] {
        Publish(depth, Message(action, l.primary));
      }
      if l.makeup != [] {
        Publish(depth, Message(if action.Insert? then Delete else Insert, l.makeup));
      }
      assert channels[depth] == old(channels)[depth] + Sent(depth, Message(action, []), l);
    }

    /** snapshot(depth): copies the tails of both lists into one new list, reverses its second half in
        place, and looks the orders up. */
    method TakeSnapshot(depth: int) returns (data: seq<Order>)
      requires Separate() && Cached(Contents())
      ensures data == Snapshot(Contents(), depth)
      ensures LaidOut(Contents(), depth, data)
    {
      var sellLength, buyLength := askPrices.len, bidPrices.len;
      var sellDepth, buyDepth := sellLength, buyLength;
      if depth > 0 {
        sellDepth, buyDepth := MinInt(sellLength, depth), MinInt(buyLength, depth);
      }
      var priceList := BestFirst(sellDepth, buyDepth);
      assert priceList == TopOrAll(askPrices.Elems(), depth) + Reversed(TopOrAll(bidPrices.Elems(), depth));
      ListedPrices(Contents(), depth);
      data := Orders(priceList);
      SnapshotLaidOut(Contents(), depth);
    }

    method Orders(priceList: seq<Price>) returns (data: seq<Order>)
      requires forall p :: p in priceList ==> p in l2Cache
      ensures data == Lookup(l2Cache, priceList)
    {
      data := [];
      for i := 0 to |priceList|
        invariant data == Lookup(l2Cache, priceList[..i])
      {
        assert priceList[..i + 1][..i] == priceList[..i];
        var price := priceList[i];
        assert price in priceList;
        data := data + [l2Cache[price]];
      }
      assert priceList[..|priceList|] == priceList;
    }

    method BestFirst(sellDepth: nat, buyDepth: nat) returns (priceList: seq<Price>)
      requires Separate() && sellDepth <= askPrices.len && buyDepth <= bidPrices.len
      ensures priceList == askPrices.Elems()[askPrices.len - sellDepth..] + Reversed(bidPrices.Elems()[bidPrices.len - buyDepth..])
    {
      var list := JoinTails(askPrices, bidPrices, sellDepth, buyDepth);
      priceList := list.Elems();
    }

    /** One message of applyData followed by dispatchRsp: on an error nothing is published. */
    method ApplyAndDispatch(msg: Message) returns (err: Error)
      requires Separate() && msg.action.Delta() && SafeAll(Contents(), msg.action, msg.data)
      modifies this, askPrices.arr, bidPrices.arr
      ensures Separate()
      ensures askPrices.arr == old(askPrices.arr) || fresh(askPrices.arr)
      ensures bidPrices.arr == old(bidPrices.arr) || fresh(bidPrices.arr)
      ensures ApplyOrders(old(Contents()), msg.action, msg.data) == (Contents(), err)
      ensures old(Valid()) && err == NoError ==> Valid()
      ensures err != NoError ==> channels == old(channels)
      ensures err == NoError ==> channels == AfterDelta(old(channels), old(Contents()), msg)
      ensures err == NoError && 0 in channels ==> channels[0] == old(channels)[0] + [msg]
      ensures old(Valid()) && err == NoError ==> ToldInView(old(channels), channels, old(Contents()), msg)
    {
      var limits;
      ghost var b := Contents();
      limits, err := ApplyDelta(msg.action, msg.data);
      if Inv(b) {
        NoErrorKeepsInv(b, msg.action, msg.data);
      }
      if err == NoError {
        ghost var before := channels;
        LimitsAreDelta(channels, b, msg);
        DispatchRsp(msg, limits);
        AppliedIsTold(before, channels, b, msg);
      }
    }

    /** One stage of a merge, skipped when it has no orders. */
    method ApplyStage(action: Action, data: seq<Order>)
      requires Valid() && WellFormedAll(Contents(), action, data)
      modifies this, askPrices.arr, bidPrices.arr
      ensures Valid() && Contents() == ApplyOrders(old(Contents()), action, data).0
      ensures askPrices.arr == old(askPrices.arr) || fresh(askPrices.arr)
      ensures bidPrices.arr == old(bidPrices.arr) || fresh(bidPrices.arr)
      ensures channels == AfterStage(old(channels), old(Contents()), action, data)
    {
      ghost var b := Contents();
      if |data| > 0 {
        WellFormedIsSafe(b, action, data);
        OrdersKeepInv(b, action, data);
        StageIsDelta(channels, b, action, data);
        var err := ApplyAndDispatch(Message(action, data));
      } else {
        EmptyStage(channels, b, action, data);
      }
    }

    /** The set algebra of a merge: what to delete, and what to look for in the partial. */
    method Compare(data: seq<Order>) returns (dels: seq<Price>, adds: set<Price>, joined: set<Price>)
      requires Separate()
      ensures Enumerates(dels, DeletedPrices(Contents(), data))
      ensures adds == AddedPrices(Contents(), data)
      ensures joined == Elements(askPrices.Elems()) + Elements(bidPrices.Elems())
    {
      var newSell, newBuy := SplitSides(data);
      var originSell := new Float64Set(askPrices.Elems());
      var originBuy := new Float64Set(bidPrices.Elems());
      var sellAdd := newSell.Sub(originSell);
      var buyAdd := newBuy.Sub(originBuy);
      var sellDel := originSell.Sub(newSell);
      var buyDel := originBuy.Sub(newBuy);
      var sellUpd := originSell.Join(newSell);
      var buyUpd := originBuy.Join(newBuy);
      var del := sellDel.Add(buyDel);
      dels := del.Values();
      adds := sellAdd.values + buyAdd.values;
      joined := sellUpd.values + buyUpd.values;
    }

    /** The loop of a merge over the partial.  The source looks the order up in the cache whenever its
        price is in an update set. */
    method Select(data: seq<Order>, adds: set<Price>, joined: set<Price>) returns (ins: seq<Order>, upd: seq<Order>)
      requires forall ord :: ord in data && ord.price in joined ==> ord.price in l2Cache
      ensures ins == Filter(data, IsAdded(adds))
      ensures upd == Filter(data, IsResized(joined, l2Cache))
    {
      ins, upd := [], [];
      for i := 0 to |data|
        invariant ins == Filter(data[..i], IsAdded(adds))
        invariant upd == Filter(data[..i], IsResized(joined, l2Cache))
      {
        assert data[..i + 1][..i] == data[..i];
        var ord := data[i];
        assert ord in data;
        if ord.price in adds {
          ins := ins + [ord];
        }
        if ord.price in joined && l2Cache[ord.price].size != ord.size {
          upd := upd + [ord];
        }
      }
      assert data[..|data|] == data;
    }

    /** The first message of a merge: delete what the partial drops. */
    method DropMissing(data: seq<Order>) returns (ghost order: seq<Price>, adds: set<Price>, joined: set<Price>)
      requires Valid() && Mergeable(Contents(), data)
      modifies this, askPrices.arr, bidPrices.arr
      ensures Valid()
      ensures askPrices.arr == old(askPrices.arr) || fresh(askPrices.arr)
      ensures bidPrices.arr == old(bidPrices.arr) || fresh(bidPrices.arr)
      ensures Enumerates(order, DeletedPrices(old(Contents()), data))
      ensures forall p :: p in order ==> p in old(l2Cache)
      ensures var b := old(Contents());
        && Contents() == ApplyOrders(b, Delete, Lookup(b.orders, order)).0
        && channels == AfterStage(old(channels), b, Delete, Lookup(b.orders, order))
        && adds == AddedPrices(b, data) && joined == Elements(b.asks) + Elements(b.bids)
    {
      var dels;
      dels, adds, joined := Compare(data);
      order := dels;
      MergeDeletes(Contents(), data, dels);
      var deletes := Orders(dels);
      ApplyStage(Delete, deletes);
    }

    /** The first half of a merge: the deletes, then the choice of the inserts and updates. */
    method MergeDrop(data: seq<Order>) returns (ghost order: seq<Price>, ins: seq<Order>, upd: seq<Order>)
      requires Valid() && Mergeable(Contents(), data)
      modifies this, askPrices.arr, bidPrices.arr
      ensures Valid()
      ensures askPrices.arr == old(askPrices.arr) || fresh(askPrices.arr)
      ensures bidPrices.arr == old(bidPrices.arr) || fresh(bidPrices.arr)
      ensures Enumerates(order, DeletedPrices(old(Contents()), data))
      ensures forall p :: p in order ==> p in old(l2Cache)
      ensures var b := old(Contents());
        var ps := MergePatches(b, data, order);
        && Contents() == ApplyOrders(b, Delete, ps.deletes).0 && ins == ps.inserts && upd == ps.updates
        && channels == AfterStage(old(channels), b, Delete, ps.deletes)
    {
      ghost var b := Contents();
      var adds, joined;
      order, adds, joined := DropMissing(data);
      MergeDeletes(b, data, order);
      KeptAreCached(b, data, Contents(), joined);
      ins, upd := Select(data, adds, joined);
      PatchesAre(b, data, order, Contents());
    }

    /** handlePartial on a cache that holds a book. */
    method MergePartial(data: seq<Order>) returns (ghost order: seq<Price>)
      requires Valid() && Mergeable(Contents(), data)
      modifies this, askPrices.arr, bidPrices.arr
      ensures Valid()
      ensures askPrices.arr == old(askPrices.arr) || fresh(askPrices.arr)
      ensures bidPrices.arr == old(bidPrices.arr) || fresh(bidPrices.arr)
      ensures Enumerates(order, DeletedPrices(old(Contents()), data))
      ensures forall p :: p in order ==> p in old(l2Cache)
      ensures var ps := MergePatches(old(Contents()), data, order);
        Contents() == ApplyPatches(old(Contents()), ps) && channels == AfterMerge(old(channels), old(Contents()), ps)
      ensures 0 in channels ==> channels[0] == old(channels)[0] + InStages(MergePatches(old(Contents()), data, order))
    {
      ghost var b := Contents();
      var ins, upd;
      order, ins, upd := MergeDrop(data);
      MergeWellFormed(b, data, order);
      ApplyBoth(ins, upd);
      StagesAreMerge(old(channels), b, MergePatches(b, data, order));
      if 0 in channels {
        MergeGrowsZero(old(channels), b, MergePatches(b, data, order));
      }
    }

    method ApplyBoth(ins: seq<Order>, upd: seq<Order>)
      requires Valid() && WellFormedAll(Contents(), Insert, ins)
      requires WellFormedAll(ApplyOrders(Contents(), Insert, ins).0, Update, upd)
      modifies this, askPrices.arr, bidPrices.arr
      ensures Valid()
      ensures askPrices.arr == old(askPrices.arr) || fresh(askPrices.arr)
      ensures bidPrices.arr == old(bidPrices.arr) || fresh(bidPrices.arr)
      ensures var b := old(Contents());
        var d := ApplyOrders(b, Insert, ins).0;
        && Contents() == ApplyOrders(d, Update, upd).0
        && channels == AfterStage(AfterStage(old(channels), b, Insert, ins), d, Update, upd)
    {
      ApplyStage(Insert, ins);
      ApplyStage(Update, upd);
    }

    method FillBook(data: seq<Order>)
      modifies `askPrices, `bidPrices, `askQuote, `bidQuote, `l2Cache
      requires PricesOn(data, Sell) != [] && PricesOn(data, Buy) != []
      ensures Separate() && fresh(askPrices.arr) && fresh(bidPrices.arr)
      ensures Contents() == Load(data)
    {
      var asks, bids, cache := Collect(data);
      Reverse(bids);
      askPrices, bidPrices, l2Cache := asks, bids, cache;
      bidQuote := LastQuote(bids.Elems(), cache);
      askQuote := LastQuote(asks.Elems(), cache);
    }

    /** handlePartial on an empty cache: loads the partial and publishes a snapshot on channel 0 alone.
        The source indexes the last price of each side. */
    method LoadPartial(data: seq<Order>)
      requires 0 in channels && PricesOn(data, Sell) != [] && PricesOn(data, Buy) != []
      modifies this
      ensures Separate() && fresh(askPrices.arr) && fresh(bidPrices.arr)
      ensures Contents() == Load(data) && Cached(Load(data))
      ensures channels == old(channels)[0 := old(channels)[0] + [Message(Partial, Snapshot(Load(data), 0))]]
    {
      FillBook(data);
      LoadCached(data);
      var snap := TakeSnapshot(0);
      Publish(0, Message(Partial, snap));
    }

    method HandlePartial(data: seq<Order>) returns (ghost order: seq<Price>)
      requires Separate() && 0 in channels && Ready(Contents(), Message(Partial, data))
      modifies this, askPrices.arr, bidPrices.arr
      ensures Separate()
      ensures Ordered(old(Contents()), Message(Partial, data), order)
      ensures Contents() == NextBook(old(Contents()), Message(Partial, data), order)
      ensures channels == AfterInput(old(channels), old(Contents()), Message(Partial, data), order)
    {
      ghost var b := Contents();
      if |l2Cache| < 1 {
        order := [];
        LoadPartial(data);
        LoadedChannels(old(channels), b, data);
      } else {
        order := MergePartial(data);
        MergedChannels(old(channels), b, data, order);
      }
    }

    /** handleInput for an order book message; a breakpoint is the snapshot request of cache.go. */
    method HandleInput(msg: Message) returns (ghost order: seq<Price>)
      requires Separate() && 0 in channels && Ready(Contents(), msg)
      modifies this, askPrices.arr, bidPrices.arr
      ensures Separate()
      ensures Ordered(old(Contents()), msg, order)
      ensures Contents() == NextBook(old(Contents()), msg, order)
      ensures channels == AfterInput(old(channels), old(Contents()), msg, order)
      ensures GrowsNotEmpty(old(channels), channels)
    {
      ghost var before, b := channels, Contents();
      order := [];
      if msg.action.Partial? {
        order := HandlePartial(msg.data);
      } else {
        DeltaChannels(channels, Contents(), msg);
        if !msg.action.Invalid? {
          var err := ApplyAndDispatch(msg);
        }
      }
      InputGrows(before, b, msg, order);
    }
  }

  /** Depth channels only grow at their end, and never by an empty message. */
  ghost predicate GrowsNotEmpty(before: map<nat, seq<Message>>, after: map<nat, seq<Message>>) {
    && after.Keys == before.Keys
    && forall d :: d in after && d != 0 ==>
         before[d] <= after[d] && forall m :: m in after[d][|before[d]|..] ==> m.data != []
  }

  lemma InputGrows(channels: map<nat, seq<Message>>, b: Book, msg: Message, order: seq<Price>)
    requires Handles(b, msg, order)
    ensures GrowsNotEmpty(channels, AfterInput(channels, b, msg, order))
  {
    var after := AfterInput(channels, b, msg, order);
    forall d | d in channels && d != 0
      ensures channels[d] <= after[d] && forall m :: m in after[d][|channels[d]|..] ==> m.data != []
    {
      PublishedNotEmpty(d, b, msg, order);
      assert (channels[d] + Published(d, b, msg, order))[|channels[d]|..] == Published(d, b, msg, order);
    }
  }

  lemma MergeGrowsZero(channels: map<nat, seq<Message>>, b: Book, ps: Patches)
    requires 0 in channels
    ensures AfterMerge(channels, b, ps)[0] == channels[0] + InStages(ps)
  {
  }

  /** Every channel after one input of the cache. */
  ghost function AfterInput(channels: map<nat, seq<Message>>, b: Book, msg: Message, order: seq<Price>): map<nat, seq<Message>>
    requires Handles(b, msg, order)
  {
    map d | d in channels :: channels[d] + Published(d, b, msg, order)
  }

  lemma DeltaChannels(channels: map<nat, seq<Message>>, b: Book, msg: Message)
    requires Ready(b, msg) && !msg.action.Partial?
    ensures AfterInput(channels, b, msg, []) ==
      if msg.action.Invalid? || ApplyOrders(b, msg.action, msg.data).1 != NoError then channels
      else AfterDelta(channels, b, msg)
  {
    forall d | d in channels
      ensures channels[d] + [] == channels[d]
      ensures Published(d, b, msg, []) ==
        if msg.action.Invalid? || ApplyOrders(b, msg.action, msg.data).1 != NoError then [] else DeltaSent(d, b, msg)
    {
      DeltaPublished(d, b, msg);
    }
  }

  lemma MergedChannels(channels: map<nat, seq<Message>>, b: Book, data: seq<Order>, order: seq<Price>)
    requires Handles(b, Message(Partial, data), order) && b.orders != map[]
    ensures AfterInput(channels, b, Message(Partial, data), order) == AfterMerge(channels, b, MergePatches(b, data, order))
    ensures NextBook(b, Message(Partial, data), order) == ApplyPatches(b, MergePatches(b, data, order))
  {
    forall d | d in channels
      ensures Published(d, b, Message(Partial, data), order) == MergeSent(d, b, MergePatches(b, data, order))
    {
      MergedPublished(d, b, data, order);
    }
  }

  lemma MergedPublished(depth: nat, b: Book, data: seq<Order>, order: seq<Price>)
    requires Handles(b, Message(Partial, data), order) && b.orders != map[]
    ensures Published(depth, b, Message(Partial, data), order) == MergeSent(depth, b, MergePatches(b, data, order))
  {
    MergePublished(depth, b, MergePatches(b, data, order));
  }

  lemma LoadedChannels(channels: map<nat, seq<Message>>, b: Book, data: seq<Order>)
    requires b.orders == map[] && 0 in channels && PricesOn(data, Sell) != [] && PricesOn(data, Buy) != []
    ensures Cached(Load(data))
    ensures AfterInput(channels, b, Message(Partial, data), []) ==
      channels[0 := channels[0] + [Message(Partial, Snapshot(Load(data), 0))]]
  {
    LoadCached(data);
    forall d | d in channels
      ensures Published(d, b, Message(Partial, data), []) == LoadSent(d, data) && channels[d] + [] == channels[d]
    {
      MarkedResponses(LoadSent(d, data), Load(data));
    }
  }

  method SplitSides(data: seq<Order>) returns (sells: Float64Set, buys: Float64Set)
    ensures fresh(sells) && fresh(buys)
    ensures sells.values == Elements(PricesOn(data, Sell)) && buys.values == Elements(PricesOn(data, Buy))
  {
    sells := new Float64Set([]);
    buys := new Float64Set([]);
    for i := 0 to |data|
      invariant fresh(sells) && fresh(buys) && sells != buys
      invariant sells.values == Elements(PricesOn(data[..i], Sell))
      invariant buys.values == Elements(PricesOn(data[..i], Buy))
    {
      assert data[..i + 1][..i] == data[..i];
      if data[i].side == Sell {
        sells.Append([data[i].price]);
      }
      if data[i].side == Buy {
        buys.Append([data[i].price]);
      }
    }
    assert data[..|data|] == data;
  }

  lemma KeptAreCached(b: Book, data: seq<Order>, c: Book, joined: set<Price>)
    requires Inv(b) && Mergeable(b, data) && Kept(b, data, c) && joined == Elements(b.asks) + Elements(b.bids)
    ensures forall ord :: ord in data && ord.price in joined ==> ord.price in c.orders
  {
    forall ord | ord in data && ord.price in joined ensures ord.price in c.orders {
      KeptPrices(b, data, ord.price);
      ListedPrice(data, ord);
    }
  }

  lemma PatchesAre(b: Book, data: seq<Order>, order: seq<Price>, c: Book)
    requires (forall p :: p in order ==> p in b.orders) && c == ApplyOrders(b, Delete, Lookup(b.orders, order)).0
    ensures MergePatches(b, data, order) == Patches(
      Lookup(b.orders, order),
      Filter(data, IsAdded(AddedPrices(b, data))),
      Filter(data, IsResized(Elements(b.asks) + Elements(b.bids), c.orders)))
  {
  }

  /** The loop of handlePartial over a first partial; orders of an unknown side are skipped. */
  method Collect(data: seq<Order>) returns (asks: Slice<Price>, bids: Slice<Price>, cache: map<Price, Order>)
    ensures asks.Valid() && bids.Valid() && fresh(asks.arr) && fresh(bids.arr) && asks.arr != bids.arr
    ensures asks.Elems() == PricesOn(data, Sell) && bids.Elems() == PricesOn(data, Buy)
    ensures cache == MapOf(data)
  {
    asks := Empty();
    bids := Empty();
    cache := map[];
    for i := 0 to |data|
      invariant asks.Valid() && bids.Valid() && fresh(asks.arr) && fresh(bids.arr) && asks.arr != bids.arr
      invariant asks.Elems() == PricesOn(data[..i], Sell) && bids.Elems() == PricesOn(data[..i], Buy)
      invariant cache == MapOf(data[..i])
    {
      assert data[..i + 1][..i] == data[..i];
      var mbl := data[i];
      match mbl.side {
        case Buy =>
          bids := Append(bids, mbl.price);
          cache := cache[mbl.price := mbl];
        case Sell =>
          asks := Append(asks, mbl.price);
          cache := cache[mbl.price := mbl];
        case Unknown(_) =>
      }
    }
    assert data[..|data|] == data;
  }

  method CopyTail(dst: Slice<Price>, src: Slice<Price>)
    requires dst.Valid() && src.Valid() && dst.len <= src.len && dst.arr != src.arr
    modifies dst.arr
    ensures dst.Elems() == old(src.Elems())[src.len - dst.len..]
    ensures forall k :: 0 <= k < dst.arr.Length && !(dst.off <= k < dst.off + dst.len) ==> dst.arr[k] == old(dst.arr[k])
  {
    Copy(dst, src.Cut(src.len - dst.len, src.len));
  }

  /** The price list of a snapshot, in a new array: the best asks, and the best bids reversed in place. */
  method JoinTails(asks: Slice<Price>, bids: Slice<Price>, sellDepth: nat, buyDepth: nat) returns (list: Slice<Price>)
    requires asks.Valid() && bids.Valid() && sellDepth <= asks.len && buyDepth <= bids.len
    ensures list.Valid() && fresh(list.arr)
    ensures list.Elems() == asks.Elems()[asks.len - sellDepth..] + Reversed(bids.Elems()[bids.len - buyDepth..])
  {
    ghost var sellTail, buyTail := asks.Elems()[asks.len - sellDepth..], bids.Elems()[bids.len - buyDepth..];
    var a := new Price[sellDepth + buyDepth];
    var sells, buys := Slice(a, 0, sellDepth), Slice(a, sellDepth, buyDepth);
    CopyTail(sells, asks);
    CopyTail(buys, bids);
    assert sells.Elems() == sellTail && buys.Elems() == buyTail;
    Reverse(buys);
    assert sells.Elems() == sellTail && buys.Elems() == Reversed(buyTail);
    list := Slice(a, 0, sellDepth + buyDepth);
    WindowsJoin(sells, buys, list);
  }
}
