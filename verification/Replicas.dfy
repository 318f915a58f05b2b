/** A replica: what a session rebuilds on channel 0 when it feeds the messages it gets, from some partial
    on, to a cache of its own, as the client of this repository does.  The first partial is loaded into the
    empty cache, which panics if it lacks a side; a later partial is merged, and a delta is applied. */
module Replicas {
  import opened PriceLists
  import opened OrderBooks
  import opened Snapshots
  import opened Slices
  import opened Merging
  import opened FailedDeltas
  import opened MergeOrders
  import opened Emissions
  import opened InSteps

  /** Failed stands for a message that the cache cannot be shown to handle. */
  datatype Replica = Waiting | Holding(book: Book) | Panicked | Failed

  /** Some order in which the prices that a merge deletes may come. */
  ghost function OrderFor(b: Book, msg: Message): (order: seq<Price>)
    ensures Ready(b, msg) ==> Handles(b, msg, order)
  {
    if msg.action.Partial? && b.orders != map[] then
      var order := SomeOrder(DeletedPrices(b, msg.data));
      assert forall p :: p in order ==> p in Elements(order);
      order
    else []
  }

  ghost function Rebuild(r: Replica, rsp: Message): Replica {
    match r
    case Waiting =>
      if !rsp.action.Partial? then Waiting
      else if BothListed(rsp.data) then Holding(Load(rsp.data))
      else Panicked
    case Holding(b) => if Ready(b, rsp) then Holding(NextBook(b, rsp, OrderFor(b, rsp))) else Failed
    case _ => r
  }

  /** The order in which a set yields its prices does not matter to the replica. */
  lemma RebuildAnyOrder(b: Book, msg: Message, order: seq<Price>)
    requires Inv(b) && Handles(b, msg, order)
    ensures Rebuild(Holding(b), msg) == Holding(NextBook(b, msg, order))
  {
    if msg.action.Partial? && b.orders != map[] {
      assert Handles(b, msg, OrderFor(b, msg));
      MergeDeterminate(b, msg.data, OrderFor(b, msg), order);
    }
  }

  ghost function RebuildAll(r: Replica, es: seq<Emission>): Replica
    decreases |es|
  {
    if es == [] then r else Rebuild(RebuildAll(r, es[..|es| - 1]), es[|es| - 1].rsp)
  }

  /** Wherever the emissions mark a book, the replica is that book. */
  ghost predicate Rebuilt(r: Replica, es: seq<Emission>)
    decreases |es|
  {
    es != [] ==>
      && Rebuilt(r, es[..|es| - 1])
      && (es[|es| - 1].at.Some? ==> RebuildAll(r, es) == Holding(es[|es| - 1].at.value))
  }

  lemma {:induction false} RebuiltConcat(r: Replica, s: seq<Emission>, t: seq<Emission>)
    requires Rebuilt(r, s) && Rebuilt(RebuildAll(r, s), t)
    ensures Rebuilt(r, s + t) && RebuildAll(r, s + t) == RebuildAll(RebuildAll(r, s), t)
    decreases |t|
  {
    if t == [] {
      assert s + t == s;
    } else {
      assert (s + t)[..|s + t| - 1] == s + t[..|t| - 1];
      RebuiltConcat(r, s, t[..|t| - 1]);
    }
  }

  lemma OneRebuilt(r: Replica, rsp: Message, c: Book)
    requires Rebuild(r, rsp) == Holding(c)
    ensures Rebuilt(r, Marked([rsp], c)) && RebuildAll(r, Marked([rsp], c)) == Holding(c)
  {
    assert Marked([rsp], c)[..0] == [];
  }

  lemma StageRebuilt(b: Book, action: Action, data: seq<Order>)
    requires Inv(b) && action.Delta() && WellFormedAll(b, action, data)
    ensures var c := ApplyOrders(b, action, data).0;
      var es := Marked(StageSent(0, b, action, data), c);
      Rebuilt(Holding(b), es) && RebuildAll(Holding(b), es) == Holding(c)
  {
    WellFormedIsSafe(b, action, data);
    if data != [] {
      RebuildAnyOrder(b, Message(action, data), []);
      OneRebuilt(Holding(b), Message(action, data), ApplyOrders(b, action, data).0);
    }
  }

  lemma MergeRebuilt(b: Book, data: seq<Order>, order: seq<Price>)
    requires Inv(b) && Mergeable(b, data) && Yields(b, data, order)
    ensures var ps := MergePatches(b, data, order);
      Rebuilt(Holding(b), MergeEmits(0, b, ps)) && RebuildAll(Holding(b), MergeEmits(0, b, ps)) == Holding(ApplyPatches(b, ps))
  {
    MergeWellFormed(b, data, order);
    StagesRebuilt(b, MergePatches(b, data, order));
  }

  lemma StagesRebuilt(b: Book, ps: Patches)
    requires Inv(b) && WellFormedAll(b, Delete, ps.deletes)
    requires var c := ApplyOrders(b, Delete, ps.deletes).0;
      var d := ApplyOrders(c, Insert, ps.inserts).0;
      Inv(c) && WellFormedAll(c, Insert, ps.inserts) && Inv(d) && WellFormedAll(d, Update, ps.updates)
    ensures Rebuilt(Holding(b), MergeEmits(0, b, ps)) && RebuildAll(Holding(b), MergeEmits(0, b, ps)) == Holding(ApplyPatches(b, ps))
  {
    var c := ApplyOrders(b, Delete, ps.deletes).0;
    var d := ApplyOrders(c, Insert, ps.inserts).0;
    StageRebuilt(b, Delete, ps.deletes);
    StageRebuilt(c, Insert, ps.inserts);
    StageRebuilt(d, Update, ps.updates);
    var es := Marked(StageSent(0, b, Delete, ps.deletes), c);
    var fs := Marked(StageSent(0, c, Insert, ps.inserts), d);
    RebuiltConcat(Holding(b), es, fs);
    RebuiltConcat(Holding(b), es + fs, Marked(StageSent(0, d, Update, ps.updates), ApplyOrders(d, Update, ps.updates).0));
  }

  lemma LoadRebuilt(b: Book, data: seq<Order>)
    requires b.orders == map[] && BothListed(data) && Loadable(data)
    ensures Rebuilt(Holding(b), Marked(LoadSent(0, data), Load(data)))
    ensures RebuildAll(Holding(b), Marked(LoadSent(0, data), Load(data))) == Holding(Load(data))
  {
    LoadInvIff(data);
    LoadCached(data);
    SnapshotRoundTrip(Load(data), 0);
    OneRebuilt(Holding(b), Message(Partial, Snapshot(Load(data), 0)), Load(data));
  }

  /** What an accepted input publishes on channel 0 takes a replica of the book to the next book, in all
      four forms, and through every book on the way. */
  lemma InputRebuilt(b: Book, msg: Message, order: seq<Price>)
    requires Inv(b) && Accepts(0, b, msg) && Ordered(b, msg, order)
    ensures Rebuilt(Holding(b), Emits(0, b, msg, order))
    ensures RebuildAll(Holding(b), Emits(0, b, msg, order)) == Holding(NextBook(b, msg, order))
  {
    if msg.action.Partial? {
      if b.orders == map[] {
        LoadRebuilt(b, msg.data);
      } else {
        MergeRebuilt(b, msg.data, order);
      }
    } else if msg.action.Delta() {
      var (c, err) := ApplyOrders(b, msg.action, msg.data);
      if err == NoError {
        RebuildAnyOrder(b, msg, order);
        OneRebuilt(Holding(b), msg, c);
      } else {
        InputInStep(0, b, msg, order);
        BookDetermined(b, c);
      }
    }
  }

  // ---------------------------------------------------------------- a second snapshot

  /** The prices of a snapshot of the whole book. */
  lemma WholePrices(b: Book)
    requires Inv(b)
    ensures var prices := b.asks + Reversed(b.bids);
      && (forall p :: p in prices <==> p in b.orders)
      && (forall i, j :: 0 <= i < j < |prices| ==> prices[i] != prices[j])
  {
    var prices := b.asks + Reversed(b.bids);
    ReversedPrices(b.bids);
    forall p ensures p in prices <==> p in b.orders {
      assert p in b.orders ==> p in b.Prices(b.orders[p].side);
    }
    ReversedSorted(b.bids, false);
    forall i, j | 0 <= i < j < |prices| ensures prices[i] != prices[j] {
      if i < |b.asks| <= j {
        assert prices[i] in b.asks && prices[j] in Reversed(b.bids);
      }
    }
  }

  lemma WholeSnapshot(b: Book)
    requires Inv(b)
    ensures var data := Snapshot(b, 0);
      && DistinctPrices(data)
      && (forall ord :: ord in data ==> ord.price in b.orders && ord == b.orders[ord.price])
      && (forall p :: p in b.orders ==> b.orders[p] in data)
  {
    var data, prices := Snapshot(b, 0), b.asks + Reversed(b.bids);
    WholePrices(b);
    assert data == Lookup(b.orders, prices);
    LookupAll(b.orders, prices);
    forall i | 0 <= i < |prices| ensures prices[i] in b.orders && data[i] == b.orders[prices[i]] {
      assert prices[i] in prices;
      LookupAt(b.orders, prices, i);
    }
    forall p | p in b.orders ensures b.orders[p] in data {
      var i: nat :| i < |prices| && prices[i] == p;
      assert data[i] == b.orders[p];
    }
  }

  lemma SnapshotLists(b: Book)
    requires Inv(b)
    ensures Listed(Snapshot(b, 0)) == b.orders.Keys && DeletedPrices(b, Snapshot(b, 0)) == {}
  {
    SnapshotSides(b, 0);
    ReversedPrices(b.bids);
    WholePrices(b);
    assert forall p :: p in b.asks + Reversed(b.bids) <==> p in b.asks || p in b.bids;
    assert forall p :: p in Listed(Snapshot(b, 0)) <==> p in b.orders.Keys;
  }

  lemma SnapshotMergeable(b: Book)
    requires Inv(b)
    ensures Mergeable(b, Snapshot(b, 0))
  {
    WholeSnapshot(b);
    SnapshotSides(b, 0);
    ReversedPrices(b.bids);
    SurvivesItself(b.asks, PricesOn(Snapshot(b, 0), Sell));
    SurvivesItself(b.bids, PricesOn(Snapshot(b, 0), Buy));
  }

  lemma SurvivesItself(l: seq<Price>, m: seq<Price>)
    requires forall p :: p in l ==> p in m
    ensures Survives(l, m)
  {
    if l != [] {
      var p := l[0];
      assert p in l && p in m;
    }
  }

  /** Merging a book's own snapshot changes nothing. */
  lemma SelfMerge(b: Book)
    requires Inv(b) && b.orders != map[]
    ensures Rebuild(Holding(b), Message(Partial, Snapshot(b, 0))) == Holding(b)
  {
    SnapshotMergeable(b);
    SnapshotLists(b);
    assert Elements([]) == {};
    SelfPatches(b, Snapshot(b, 0));
    RebuildAnyOrder(b, Message(Partial, Snapshot(b, 0)), []);
  }

  lemma SelfPatches(b: Book, data: seq<Order>)
    requires Inv(b) && data == Snapshot(b, 0) && Mergeable(b, data) && Yields(b, data, []) && Listed(data) == b.orders.Keys
    ensures ApplyPatches(b, MergePatches(b, data, [])) == b
  {
    MergeResult(b, data, []);
    WholeSnapshot(b);
    var e := ApplyPatches(b, MergePatches(b, data, []));
    forall p | p in b.orders ensures e.orders[p] == b.orders[p] {
      SelfMerged(b, data, b.orders[p], e);
    }
    SameEntries(b.orders, e.orders);
    BookDetermined(e, b);
  }

  lemma SelfMerged(b: Book, data: seq<Order>, ord: Order, e: Book)
    requires Inv(b) && ord.price in b.orders && b.orders[ord.price] == ord && ord in data
    requires forall o :: o in data && o.side.Known() ==> o.price in e.orders && e.orders[o.price] == Merged(b, o)
    ensures ord.price in e.orders && e.orders[ord.price] == ord
  {
  }
}
