/** When what the cache publishes for an input keeps the reader of a channel in step with the book, and when
    it does not. */
module InSteps {
  import opened PriceLists
  import opened OrderBooks
  import opened DepthViews
  import opened DepthStreams
  import opened Snapshots
  import opened Merging
  import opened FailedDeltas
  import opened MergeOrders
  import opened Emissions
  import opened Wrappers

  // ---------------------------------------------------------------- one pair of responses

  /** The pair of depth responses that carries a reader from one view to the next. */
  lemma SentInStep(depth: nat, v: View, msg: Message, limited: Limited, c: Book)
    requires msg.action.Delta() && depth > 0 && PatchLimited(v, msg.action, limited) == Some(ViewOf(c, depth))
    requires (limited.primary == [] ==> limited.makeup == []) && (msg.action.Update? ==> limited.makeup == [])
    ensures var es := Marked(Sent(depth, msg, limited), c);
      InStep(depth, Synced(v), es) && ReadAll(Synced(v), es) == Synced(ViewOf(c, depth))
  {
    MarkedInStep(depth, Synced(v), Sent(depth, msg, limited), c);
  }

  /** A pair that does not fit breaks the reader. */
  lemma SentBreaks(depth: nat, v: View, msg: Message, limited: Limited, c: Book)
    requires msg.action.Delta() && depth > 0 && PatchLimited(v, msg.action, limited).None?
    requires limited.primary == [] ==> limited.makeup == []
    ensures ReadAll(Synced(v), Marked(Sent(depth, msg, limited), c)) == Broken
  {
    var es := Marked(Sent(depth, msg, limited), c);
    if limited.makeup == [] {
      assert es[..0] == [];
    } else {
      ReadTwo(Synced(v), es);
    }
  }

  lemma ReadTwo(r: Reader, es: seq<Emission>)
    requires |es| == 2
    ensures ReadAll(r, es) == Receive(Receive(r, es[0].rsp), es[1].rsp)
  {
    var front := es[..1];
    assert front[..0] == [] && front[0] == es[0];
    assert ReadAll(r, front) == Receive(r, es[0].rsp);
  }

  ghost predicate NoPartials(es: seq<Emission>) {
    forall i :: 0 <= i < |es| ==> !es[i].rsp.action.Partial?
  }

  /** No delta mends a broken reader. */
  lemma {:induction false} BrokenStays(es: seq<Emission>)
    requires NoPartials(es)
    ensures ReadAll(Broken, es) == Broken
    decreases |es|
  {
    if es != [] {
      BrokenStays(es[..|es| - 1]);
    }
  }

  // ---------------------------------------------------------------- well-formed deltas

  ghost predicate OnTime(depth: nat, b: Book, action: Action, data: seq<Order>) {
    depth > 0 && action.Delete? ==> NoLateDelete(b, data, depth)
  }

  /** A well-formed delta brings a reader that holds the old view to the new one, unless it has a late
      delete; a late delete breaks the reader. */
  lemma DeltaInStep(depth: nat, b: Book, msg: Message)
    requires Inv(b) && WellFormedAll(b, msg.action, msg.data) && msg.action.Delta()
    ensures var r, c := Synced(ViewOf(b, depth)), ApplyOrders(b, msg.action, msg.data).0;
      var es := Marked(DeltaSent(depth, b, msg), c);
      && Inv(c)
      && (OnTime(depth, b, msg.action, msg.data) ==> InStep(depth, r, es) && ReadAll(r, es) == Synced(ViewOf(c, depth)))
      && (!OnTime(depth, b, msg.action, msg.data) ==> ReadAll(r, es) == Broken)
  {
    OrdersKeepInv(b, msg.action, msg.data);
    var c := ApplyOrders(b, msg.action, msg.data).0;
    if depth > 0 {
      BatchIff(b, msg.action, msg.data, depth);
      PrimaryFirst(b, msg.action, msg.data, depth);
      var limited := LimitOrders(b, msg.action, msg.data, depth);
      if OnTime(depth, b, msg.action, msg.data) {
        SentInStep(depth, ViewOf(b, depth), msg, limited, c);
      } else {
        SentBreaks(depth, ViewOf(b, depth), msg, limited, c);
      }
    } else {
      MarkedInStep(depth, Synced(ViewOf(b, depth)), [msg], c);
    }
  }

  // ---------------------------------------------------------------- every delta

  /** What a caller can check before a delta: it is well formed and has no late delete, or nothing that it
      does before it is refused can be seen. */
  ghost predicate DeltaFits(depth: nat, b: Book, action: Action, data: seq<Order>) {
    var n := FirstBad(b, action, data, 0);
    if n == |data| then OnTime(depth, b, action, data) else Unseen(depth, b, action, data, n)
  }

  ghost predicate DeltaClean(b: Book, action: Action, data: seq<Order>) {
    var n := FirstBad(b, action, data, 0);
    n < |data| ==> Clean(b, action, data, n)
  }

  /** A delta, failing or not, leaves the reader of any channel in step if and only if it fits. */
  lemma DeltaInStepIff(depth: nat, b: Book, msg: Message)
    requires Inv(b) && msg.action.Delta() && SafeAll(b, msg.action, msg.data)
    ensures var r, c := Synced(ViewOf(b, depth)), ApplyOrders(b, msg.action, msg.data).0;
      && (ReadAll(r, DeltaEmits(depth, b, msg)) == Synced(ViewOf(c, depth)) <==> DeltaFits(depth, b, msg.action, msg.data))
      && (DeltaFits(depth, b, msg.action, msg.data) ==> InStep(depth, r, DeltaEmits(depth, b, msg)))
  {
    FailsAtFirstBad(b, msg.action, msg.data);
    MessageErrorIff(b, msg.action, msg.data);
    if WellFormedAll(b, msg.action, msg.data) {
      DeltaInStep(depth, b, msg);
    } else {
      FailedDeltaIff(depth, b, msg.action, msg.data);
    }
  }

  // On channel 0 the first order of a failing insert or delete tells.

  lemma InsertInStepIff(b: Book, data: seq<Order>)
    requires Inv(b)
    ensures SafeAll(b, Insert, data)
    ensures ReadAll(Synced(b.orders), DeltaEmits(0, b, Message(Insert, data))) == Synced(ApplyOrders(b, Insert, data).0.orders) <==>
      WellFormedAll(b, Insert, data) || data[0].price in b.orders
  {
    OthersSafe(b, Insert, data);
    DeltaInStepIff(0, b, Message(Insert, data));
    FailsAtFirstBad(b, Insert, data);
    if data != [] && data[0].price in b.orders {
      assert !Good(b, Insert, data, 0);
    }
  }

  lemma DeleteInStepIff(b: Book, data: seq<Order>)
    requires Inv(b) && SafeAll(b, Delete, data)
    ensures ReadAll(Synced(b.orders), DeltaEmits(0, b, Message(Delete, data))) == Synced(ApplyOrders(b, Delete, data).0.orders) <==>
      WellFormedAll(b, Delete, data) || data[0].price !in b.orders
  {
    DeltaInStepIff(0, b, Message(Delete, data));
    DeleteFitsIff(b, data);
  }

  lemma DeleteFitsIff(b: Book, data: seq<Order>)
    requires Inv(b) && SafeAll(b, Delete, data)
    ensures DeltaFits(0, b, Delete, data) <==> WellFormedAll(b, Delete, data) || data[0].price !in b.orders
  {
    FailsAtFirstBad(b, Delete, data);
    if !WellFormedAll(b, Delete, data) {
      FirstDeleteTells(b, data, FirstBad(b, Delete, data, 0));
    }
  }

  lemma FirstDeleteTells(b: Book, data: seq<Order>, n: nat)
    requires n < |data| && n == FirstBad(b, Delete, data, 0)
    ensures PricesOf(data[..n + 1]) !! b.orders.Keys <==> data[0].price !in b.orders
  {
    assert data[..n + 1][0].price in PricesOf(data[..n + 1]);
    if data[0].price !in b.orders {
      assert !Good(b, Delete, data, 0) && n == 0;
      assert forall p :: p in PricesOf(data[..1]) ==> p == data[0].price;
    }
  }

  /** Of a failing update, every price must end up with the size it had. */
  lemma UpdateInStepIff(b: Book, data: seq<Order>)
    requires Inv(b)
    ensures SafeAll(b, Update, data)
    ensures ReadAll(Synced(b.orders), DeltaEmits(0, b, Message(Update, data))) == Synced(ApplyOrders(b, Update, data).0.orders) <==>
      || WellFormedAll(b, Update, data)
      || forall p :: p in b.orders ==>
           LastSize(data[..FirstBad(b, Update, data, 0)], p, b.orders[p].size) == b.orders[p].size
  {
    OthersSafe(b, Update, data);
    DeltaInStepIff(0, b, Message(Update, data));
    FailsAtFirstBad(b, Update, data);
  }

  /** When no price is named twice, every order before the refused one must repeat the cached size. */
  lemma DistinctUpdatesIff(b: Book, data: seq<Order>)
    requires Inv(b) && DistinctPrices(data)
    ensures SafeAll(b, Update, data)
    ensures ReadAll(Synced(b.orders), DeltaEmits(0, b, Message(Update, data))) == Synced(ApplyOrders(b, Update, data).0.orders) <==>
      || WellFormedAll(b, Update, data)
      || forall i :: 0 <= i < FirstBad(b, Update, data, 0) ==> data[i].price in b.orders && data[i].size == b.orders[data[i].price].size
  {
    var n := FirstBad(b, Update, data, 0);
    UpdateInStepIff(b, data);
    forall i | 0 <= i < n ensures data[i].price in b.orders && LastSize(data[..n], data[i].price, b.orders[data[i].price].size) == data[i].size {
      assert Good(b, Update, data, i);
      LastSizeOnce(data, n, i, b.orders[data[i].price].size);
    }
    forall p | p in b.orders && forall i :: 0 <= i < n ==> data[i].price != p
      ensures LastSize(data[..n], p, b.orders[p].size) == b.orders[p].size
    {
      LastSizeNever(data[..n], p, b.orders[p].size);
    }
  }

  lemma {:induction false} LastSizeNever(data: seq<Order>, p: Price, size: Size)
    requires forall i :: 0 <= i < |data| ==> data[i].price != p
    ensures LastSize(data, p, size) == size
    decreases |data|
  {
    if data != [] {
      LastSizeNever(data[..|data| - 1], p, size);
    }
  }

  lemma {:induction false} LastSizeOnce(data: seq<Order>, n: nat, i: nat, size: Size)
    requires DistinctPrices(data) && i < n <= |data|
    ensures LastSize(data[..n], data[i].price, size) == data[i].size
    decreases n
  {
    assert data[..n][..n - 1] == data[..n - 1];
    if i < n - 1 {
      LastSizeOnce(data, n - 1, i, size);
    }
  }

  /** A delta that fails part of the way keeps what it did to the book and tells no channel: any insert,
      sent twice in one message. */
  lemma FailedDelta(b: Book, ord: Order)
    requires Inv(b) && WellFormed(b, Insert, ord)
    ensures var msg := Message(Insert, [ord, ord]);
      && Handles(b, msg, [])
      && (forall depth: nat :: Published(depth, b, msg, []) == [])
      && NextBook(b, msg, []) == InsertOrder(b, ord).book
      && NextBook(b, msg, []).orders != b.orders
  {
    var data := [ord, ord];
    assert data[..1] == [ord] && [ord][..0] == [];
    InsertKeepsInv(b, ord);
    OthersSafe(b, Insert, data);
    assert ApplyOrders(b, Insert, [ord]) == (InsertOrder(b, ord).book, NoError);
    assert ApplyOrders(b, Insert, data) == (InsertOrder(b, ord).book, AlreadyExist);
    assert ord.price in InsertOrder(b, ord).book.orders;
  }

  // ---------------------------------------------------------------- merges

  lemma StageInStep(depth: nat, b: Book, action: Action, data: seq<Order>)
    requires Inv(b) && WellFormedAll(b, action, data) && action.Delta()
    ensures var r, c := Synced(ViewOf(b, depth)), ApplyOrders(b, action, data).0;
      var es := Marked(StageSent(depth, b, action, data), c);
      && Inv(c)
      && (OnTime(depth, b, action, data) ==> InStep(depth, r, es) && ReadAll(r, es) == Synced(ViewOf(c, depth)))
      && (!OnTime(depth, b, action, data) ==> ReadAll(r, es) == Broken)
  {
    if data == [] {
      MarkedInStep(depth, Synced(ViewOf(b, depth)), [], b);
    } else {
      DeltaInStep(depth, b, Message(action, data));
    }
  }

  /** The three messages of a merge bring a reader from the old view to the new one, and are in step after
      each, if and only if the set yields its prices in an order without a late delete.  A late delete
      breaks the reader, and the other two messages leave it broken. */
  lemma MergeInStep(depth: nat, b: Book, data: seq<Order>, order: seq<Price>)
    requires Inv(b) && Mergeable(b, data) && Yields(b, data, order)
    ensures var r, ps := Synced(ViewOf(b, depth)), MergePatches(b, data, order);
      var e, es := ApplyPatches(b, ps), MergeEmits(depth, b, ps);
      && Inv(e)
      && (OnTime(depth, b, Delete, ps.deletes) ==> InStep(depth, r, es) && ReadAll(r, es) == Synced(ViewOf(e, depth)))
      && (!OnTime(depth, b, Delete, ps.deletes) ==> ReadAll(r, es) == Broken)
  {
    MergeWellFormed(b, data, order);
    MergeStages(depth, b, MergePatches(b, data, order));
  }

  lemma MergeStages(depth: nat, b: Book, ps: Patches)
    requires Inv(b) && WellFormedAll(b, Delete, ps.deletes)
    requires var c := ApplyOrders(b, Delete, ps.deletes).0;
      WellFormedAll(c, Insert, ps.inserts) && WellFormedAll(ApplyOrders(c, Insert, ps.inserts).0, Update, ps.updates)
    ensures var r, e, es := Synced(ViewOf(b, depth)), ApplyPatches(b, ps), MergeEmits(depth, b, ps);
      && Inv(e)
      && (OnTime(depth, b, Delete, ps.deletes) ==> InStep(depth, r, es) && ReadAll(r, es) == Synced(ViewOf(e, depth)))
      && (!OnTime(depth, b, Delete, ps.deletes) ==> ReadAll(r, es) == Broken)
  {
    var c := ApplyOrders(b, Delete, ps.deletes).0;
    var d := ApplyOrders(c, Insert, ps.inserts).0;
    StageInStep(depth, b, Delete, ps.deletes);
    StageInStep(depth, c, Insert, ps.inserts);
    StageInStep(depth, d, Update, ps.updates);
    var es := Marked(StageSent(depth, b, Delete, ps.deletes), c);
    var fs := Marked(StageSent(depth, c, Insert, ps.inserts), d);
    var gs := Marked(StageSent(depth, d, Update, ps.updates), ApplyOrders(d, Update, ps.updates).0);
    if OnTime(depth, b, Delete, ps.deletes) {
      ThreeInStep(depth, Synced(ViewOf(b, depth)), es, fs, gs);
    } else {
      StageActions(depth, c, Insert, ps.inserts, d);
      StageActions(depth, d, Update, ps.updates, ApplyOrders(d, Update, ps.updates).0);
      ThreeBroken(Synced(ViewOf(b, depth)), es, fs, gs);
    }
  }

  lemma ThreeInStep(depth: nat, r: Reader, es: seq<Emission>, fs: seq<Emission>, gs: seq<Emission>)
    requires InStep(depth, r, es) && InStep(depth, ReadAll(r, es), fs) && InStep(depth, ReadAll(ReadAll(r, es), fs), gs)
    ensures InStep(depth, r, es + fs + gs) && ReadAll(r, es + fs + gs) == ReadAll(ReadAll(ReadAll(r, es), fs), gs)
  {
    InStepConcat(depth, r, es, fs);
    InStepConcat(depth, r, es + fs, gs);
  }

  lemma ThreeBroken(r: Reader, es: seq<Emission>, fs: seq<Emission>, gs: seq<Emission>)
    requires ReadAll(r, es) == Broken && NoPartials(fs) && NoPartials(gs)
    ensures ReadAll(r, es + fs + gs) == Broken
  {
    ReadConcat(r, es, fs);
    ReadConcat(r, es + fs, gs);
    BrokenStays(fs);
    BrokenStays(gs);
  }

  lemma StageActions(depth: nat, b: Book, action: Action, data: seq<Order>, c: Book)
    requires action.Delta()
    ensures NoPartials(Marked(StageSent(depth, b, action, data), c))
  {
  }

  lemma {:induction false} ReadConcat(r: Reader, s: seq<Emission>, t: seq<Emission>)
    ensures ReadAll(r, s + t) == ReadAll(ReadAll(r, s), t)
    decreases |t|
  {
    if t == [] {
      assert s + t == s;
    } else {
      assert (s + t)[..|s + t| - 1] == s + t[..|t| - 1];
      ReadConcat(r, s, t[..|t| - 1]);
    }
  }

  /** The same partial may keep the readers of a depth channel or break them, as the set yields its prices:
      three asks, of which it keeps the worst. */
  lemma MergeByChance()
    ensures var b, data := ThreeAsks(), [Ask(3.0)];
      var r := Synced(ViewOf(b, 1));
      && Inv(b) && Mergeable(b, data) && Yields(b, data, [1.0, 2.0]) && Yields(b, data, [2.0, 1.0])
      && ReadAll(r, MergeEmits(1, b, MergePatches(b, data, [1.0, 2.0]))) == Broken
      && ReadAll(r, MergeEmits(1, b, MergePatches(b, data, [2.0, 1.0]))).Synced?
  {
    OrderDecides();
    MergeInStep(1, ThreeAsks(), [Ask(3.0)], [1.0, 2.0]);
    MergeInStep(1, ThreeAsks(), [Ask(3.0)], [2.0, 1.0]);
  }

  lemma MergeNoPartials(depth: nat, b: Book, ps: Patches)
    ensures NoPartials(MergeEmits(depth, b, ps))
  {
    var c := ApplyOrders(b, Delete, ps.deletes).0;
    var d := ApplyOrders(c, Insert, ps.inserts).0;
    StageActions(depth, b, Delete, ps.deletes, c);
    StageActions(depth, c, Insert, ps.inserts, d);
    StageActions(depth, d, Update, ps.updates, ApplyOrders(d, Update, ps.updates).0);
  }

  // ---------------------------------------------------------------- the first partial

  lemma LoadInStep(data: seq<Order>)
    requires BothListed(data) && Loadable(data)
    ensures var r, es := Synced(map[]), Marked(LoadSent(0, data), Load(data));
      Inv(Load(data)) && InStep(0, r, es) && ReadAll(r, es) == Synced(ViewOf(Load(data), 0))
  {
    LoadInvIff(data);
    LoadCached(data);
    SnapshotView(Load(data), 0);
    MarkedInStep(0, Synced(map[]), LoadSent(0, data), Load(data));
  }

  /** A first partial brings a reader of an empty book in step only on channel 0: the depth channels
      are never told of it. */
  lemma FirstPartialIff(depth: nat, data: seq<Order>)
    requires BothListed(data) && Loadable(data)
    ensures ReadAll(Synced(map[]), Marked(LoadSent(depth, data), Load(data))) == Synced(ViewOf(Load(data), depth)) <==> depth == 0
  {
    if depth == 0 {
      LoadInStep(data);
    } else {
      var b := Load(data);
      LoadInvIff(data);
      var best := b.asks[|b.asks| - 1];
      assert best in b.asks;
      assert best in Top(b.asks, depth);
      assert best in ViewOf(b, depth);
    }
  }

  // ---------------------------------------------------------------- every input

  /** What a caller can check of an input, on the book before it: a delta fits and is clean, a first partial
      is loadable and on channel 0, and no delete of a merge can be late on a depth channel. */
  ghost predicate Accepts(depth: nat, b: Book, msg: Message) {
    && Ready(b, msg)
    && match msg.action
       case Partial =>
         if b.orders == map[] then depth == 0 && Loadable(msg.data)
         else depth > 0 ==> Timely(b, msg.data, depth)
       case Invalid(_) => true
       case _ => DeltaFits(depth, b, msg.action, msg.data) && DeltaClean(b, msg.action, msg.data)
  }

  /** What a caller can check of an input that is to leave the book consistent. */
  ghost predicate Consistent(b: Book, msg: Message) {
    match msg.action
    case Partial => b.orders == map[] ==> Loadable(msg.data)
    case Invalid(_) => true
    case _ => DeltaClean(b, msg.action, msg.data)
  }

  /** An input that the cache can handle leaves the book consistent, in whatever order the prices of a merge
      come, if and only if the caller can tell so. */
  lemma ConsistentIff(b: Book, msg: Message, order: seq<Price>)
    requires Inv(b) && Handles(b, msg, order)
    ensures Inv(NextBook(b, msg, order)) <==> Consistent(b, msg)
  {
    match msg.action
    case Partial =>
      if b.orders == map[] {
        LoadInvIff(msg.data);
      } else {
        MergeWellFormed(b, msg.data, order);
      }
    case Invalid(_) =>
    case _ => MessageInvIff(b, msg.action, msg.data);
  }

  /** An input never takes the last order of a side, and a first partial fills both. */
  lemma InputKeepsSides(b: Book, msg: Message, order: seq<Price>)
    requires Handles(b, msg, order)
    ensures KeepsSides(b, NextBook(b, msg, order))
    ensures msg.action.Partial? && b.orders == map[] ==> BothSides(NextBook(b, msg, order))
  {
    match msg.action
    case Partial =>
      if b.orders == map[] {
        LoadSides(b, msg.data);
      } else {
        MergeKeepsSides(b, msg.data, order);
      }
    case Invalid(_) =>
    case _ => SafeKeepsSides(b, msg.action, msg.data);
  }

  lemma LoadSides(b: Book, data: seq<Order>)
    requires BothListed(data)
    ensures KeepsSides(b, Load(data)) && BothSides(Load(data))
  {
  }

  lemma MergeKeepsSides(b: Book, data: seq<Order>, order: seq<Price>)
    requires Inv(b) && Mergeable(b, data) && Yields(b, data, order)
    ensures var ps := MergePatches(b, data, order);
      var c := ApplyOrders(b, Delete, ps.deletes).0;
      var d := ApplyOrders(c, Insert, ps.inserts).0;
      KeepsSides(b, c) && KeepsSides(c, d) && KeepsSides(d, ApplyPatches(b, ps)) && KeepsSides(b, ApplyPatches(b, ps))
  {
    MergeWellFormed(b, data, order);
    var ps := MergePatches(b, data, order);
    var c := ApplyOrders(b, Delete, ps.deletes).0;
    var d := ApplyOrders(c, Insert, ps.inserts).0;
    WellFormedIsSafe(b, Delete, ps.deletes);
    WellFormedIsSafe(c, Insert, ps.inserts);
    WellFormedIsSafe(d, Update, ps.updates);
    SafeKeepsSides(b, Delete, ps.deletes);
    SafeKeepsSides(c, Insert, ps.inserts);
    SafeKeepsSides(d, Update, ps.updates);
  }

  /** An input leaves the book consistent and the reader in step with it. */
  ghost predicate Keeps(depth: nat, b: Book, msg: Message, order: seq<Price>)
    requires Handles(b, msg, order)
  {
    var c := NextBook(b, msg, order);
    Inv(c) && ReadAll(Synced(ViewOf(b, depth)), Emits(depth, b, msg, order)) == Synced(ViewOf(c, depth))
  }

  lemma MergeKeepsIff(depth: nat, b: Book, msg: Message, order: seq<Price>)
    requires Inv(b) && Handles(b, msg, order) && msg.action.Partial? && b.orders != map[]
    ensures Keeps(depth, b, msg, order) <==> (depth > 0 ==> NoLateDelete(b, Lookup(b.orders, order), depth))
    ensures Keeps(depth, b, msg, order) ==> InStep(depth, Synced(ViewOf(b, depth)), Emits(depth, b, msg, order))
  {
    MergeInStep(depth, b, msg.data, order);
  }

  lemma LoadKeepsIff(depth: nat, b: Book, msg: Message, order: seq<Price>)
    requires Inv(b) && Handles(b, msg, order) && msg.action.Partial? && b.orders == map[]
    ensures Keeps(depth, b, msg, order) <==> depth == 0 && Loadable(msg.data)
    ensures Keeps(depth, b, msg, order) ==> InStep(depth, Synced(ViewOf(b, depth)), Emits(depth, b, msg, order))
  {
    LoadInvIff(msg.data);
    assert ViewOf(b, depth) == map[];
    if Loadable(msg.data) {
      FirstPartialIff(depth, msg.data);
      if depth == 0 {
        LoadInStep(msg.data);
      }
    }
  }

  lemma DeltaKeepsIff(depth: nat, b: Book, msg: Message, order: seq<Price>)
    requires Inv(b) && Handles(b, msg, order) && msg.action.Delta()
    ensures Keeps(depth, b, msg, order) <==> DeltaFits(depth, b, msg.action, msg.data) && DeltaClean(b, msg.action, msg.data)
    ensures Keeps(depth, b, msg, order) ==> InStep(depth, Synced(ViewOf(b, depth)), Emits(depth, b, msg, order))
  {
    DeltaInStepIff(depth, b, msg);
    MessageInvIff(b, msg.action, msg.data);
  }

  /** Every accepted input keeps the book consistent and brings a reader of the channel from the old view
      to the new one, and to the view of each marked book on the way. */
  lemma InputInStep(depth: nat, b: Book, msg: Message, order: seq<Price>)
    requires Inv(b) && Accepts(depth, b, msg) && Ordered(b, msg, order)
    ensures Keeps(depth, b, msg, order) && InStep(depth, Synced(ViewOf(b, depth)), Emits(depth, b, msg, order))
  {
    if msg.action.Partial? {
      if b.orders == map[] {
        LoadKeepsIff(depth, b, msg, order);
      } else {
        TimelyIff(b, msg.data, depth);
        assert Yields(b, msg.data, order);
        MergeKeepsIff(depth, b, msg, order);
      }
    } else if msg.action.Delta() {
      DeltaKeepsIff(depth, b, msg, order);
    }
  }

  /** The acceptance guard is exact: an input that the cache can handle keeps the book consistent and the
      reader in step, in whatever order the prices of a merge come, if and only if it is accepted. */
  lemma InputInStepIff(depth: nat, b: Book, msg: Message)
    requires Inv(b) && Ready(b, msg)
    ensures Accepts(depth, b, msg) <==> forall order :: Ordered(b, msg, order) ==> Keeps(depth, b, msg, order)
  {
    if Accepts(depth, b, msg) {
      forall order | Ordered(b, msg, order) ensures Keeps(depth, b, msg, order) {
        InputInStep(depth, b, msg, order);
      }
    } else if msg.action.Partial? && b.orders != map[] {
      TimelyIff(b, msg.data, depth);
      var order :| Yields(b, msg.data, order) && !NoLateDelete(b, Lookup(b.orders, order), depth);
      assert Ordered(b, msg, order);
      MergeKeepsIff(depth, b, msg, order);
    } else {
      assert Ordered(b, msg, []);
      if msg.action.Partial? {
        LoadKeepsIff(depth, b, msg, []);
      } else {
        DeltaKeepsIff(depth, b, msg, []);
      }
    }
  }

  // ---------------------------------------------------------------- marks

  /** The snapshot that TakeSnapshot makes of a consistent book. */
  ghost function SnapshotOf(b: Book, depth: nat): Message {
    Message(Partial, if Cached(b) then Snapshot(b, depth) else [])
  }

  /** The books that emissions mark are consistent, on channel 0 every message marks one, and a partial is
      the snapshot of the book it marks. */
  ghost predicate WellMarked(depth: nat, es: seq<Emission>) {
    forall i :: 0 <= i < |es| ==>
      && (es[i].at.Some? ==> Inv(es[i].at.value))
      && (depth == 0 ==> es[i].at.Some?)
      && (es[i].rsp.action.Partial? ==> es[i].at.Some? && es[i].rsp == SnapshotOf(es[i].at.value, depth))
  }

  lemma MarkedWell(depth: nat, rsps: seq<Message>, b: Book)
    requires Inv(b) && (depth == 0 ==> |rsps| <= 1)
    requires forall i :: 0 <= i < |rsps| && rsps[i].action.Partial? ==> |rsps| == 1 && rsps[i] == SnapshotOf(b, depth)
    ensures WellMarked(depth, Marked(rsps, b))
  {
  }

  lemma StageWellMarked(depth: nat, b: Book, action: Action, data: seq<Order>, c: Book)
    requires action.Delta() && Inv(c)
    ensures WellMarked(depth, Marked(StageSent(depth, b, action, data), c))
  {
    MarkedWell(depth, StageSent(depth, b, action, data), c);
  }

  lemma JoinWellMarked(depth: nat, s: seq<Emission>, t: seq<Emission>)
    requires WellMarked(depth, s) && WellMarked(depth, t)
    ensures WellMarked(depth, s + t)
  {
  }

  lemma MergeWellMarked(depth: nat, b: Book, ps: Patches)
    requires var c := ApplyOrders(b, Delete, ps.deletes).0;
      Inv(c) && Inv(ApplyOrders(c, Insert, ps.inserts).0) && Inv(ApplyPatches(b, ps))
    ensures WellMarked(depth, MergeEmits(depth, b, ps))
  {
    var c := ApplyOrders(b, Delete, ps.deletes).0;
    var d := ApplyOrders(c, Insert, ps.inserts).0;
    var es := Marked(StageSent(depth, b, Delete, ps.deletes), c);
    var fs := Marked(StageSent(depth, c, Insert, ps.inserts), d);
    StageWellMarked(depth, b, Delete, ps.deletes, c);
    StageWellMarked(depth, c, Insert, ps.inserts, d);
    StageWellMarked(depth, d, Update, ps.updates, ApplyPatches(b, ps));
    JoinWellMarked(depth, es, fs);
    JoinWellMarked(depth, es + fs, Marked(StageSent(depth, d, Update, ps.updates), ApplyPatches(b, ps)));
  }

  lemma LoadWellMarked(depth: nat, data: seq<Order>)
    requires BothListed(data) && Loadable(data)
    ensures WellMarked(depth, Marked(LoadSent(depth, data), Load(data)))
  {
    LoadInvIff(data);
    LoadCached(data);
    MarkedWell(depth, LoadSent(depth, data), Load(data));
  }

  lemma DeltaWellMarked(depth: nat, b: Book, msg: Message)
    requires msg.action.Delta() && Inv(ApplyOrders(b, msg.action, msg.data).0)
    ensures WellMarked(depth, DeltaEmits(depth, b, msg))
  {
    MarkedWell(depth, DeltaSent(depth, b, msg), ApplyOrders(b, msg.action, msg.data).0);
  }

  lemma InputWellMarked(depth: nat, b: Book, msg: Message, order: seq<Price>)
    requires Inv(b) && Accepts(depth, b, msg) && Ordered(b, msg, order)
    ensures WellMarked(depth, Emits(depth, b, msg, order))
  {
    if msg.action.Partial? {
      if b.orders != map[] {
        MergeWellFormed(b, msg.data, order);
        MergeWellMarked(depth, b, MergePatches(b, msg.data, order));
      } else {
        LoadWellMarked(depth, msg.data);
      }
    } else if msg.action.Delta() {
      InputInStep(depth, b, msg, order);
      DeltaWellMarked(depth, b, msg);
    }
  }
}
