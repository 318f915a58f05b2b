/** What the cache publishes on the channel of one depth, and what a reader makes of it. */
module Emissions {
  import opened PriceLists
  import opened OrderBooks
  import opened DepthViews
  import opened DepthStreams
  import opened Snapshots
  import opened Merging
  import opened Wrappers

  const NO_LIMITS := Limited([], [])

  /** The responses of one message for one channel, in the order in which dispatchRsp sends them:
      channel 0 gets the message itself, a depth channel what is not empty of the two. */
  function Sent(depth: nat, msg: Message, l: Limited): seq<Message> {
    if depth == 0 then [msg] else
    (if l.primary == [] then [] else [Message(msg.action, l.primary)]) +
    (if l.makeup == [] then [] else [Message(if msg.action.Insert? then Delete else Insert, l.makeup)])
  }

  function LimitsAt(depth: nat, b: Book, action: Action, data: seq<Order>): Limited {
    if depth == 0 then NO_LIMITS else LimitOrders(b, action, data, depth)
  }

  function DeltaSent(depth: nat, b: Book, msg: Message): seq<Message> {
    Sent(depth, msg, LimitsAt(depth, b, msg.action, msg.data))
  }

  /** What a depth channel should get for a message: its in-view orders, then its makeup orders, and never a
      response without orders. */
  predicate Responded(more: seq<Message>, action: Action, l: Limited) {
    && (forall m :: m in more ==> m.data != [])
    && (l.primary != [] ==> more != [] && more[0] == Message(action, l.primary))
    && (l.makeup != [] ==> more != [] && more[|more| - 1] == Message(if action.Insert? then Delete else Insert, l.makeup))
    && |more| == (if l.primary == [] then 0 else 1) + if l.makeup == [] then 0 else 1
  }

  lemma SentResponded(depth: nat, msg: Message, l: Limited)
    ensures depth == 0 ==> Sent(depth, msg, l) == [msg]
    ensures depth > 0 ==> Responded(Sent(depth, msg, l), msg.action, l)
  {
  }

  /** A well-formed delta sends nothing to a depth channel exactly when no order of it ranks within the depth
      in its turn. */
  lemma DeltaSilentIff(depth: nat, b: Book, msg: Message)
    requires Inv(b) && msg.action.Delta() && WellFormedAll(b, msg.action, msg.data) && depth > 0
    ensures DeltaSent(depth, b, msg) == [] <==> forall i :: 0 <= i < |msg.data| ==> !HitsView(b, msg.action, msg.data, i, depth)
  {
    PrimaryRanks(b, msg.action, msg.data, depth);
    NoneInView(b, msg.action, msg.data, depth);
    PrimaryFirst(b, msg.action, msg.data, depth);
    SentResponded(depth, msg, LimitOrders(b, msg.action, msg.data, depth));
  }

  /** A merge sends a message only when it has orders. */
  function StageSent(depth: nat, b: Book, action: Action, data: seq<Order>): seq<Message> {
    if data == [] then [] else DeltaSent(depth, b, Message(action, data))
  }

  function MergeSent(depth: nat, b: Book, ps: Patches): seq<Message> {
    var c := ApplyOrders(b, Delete, ps.deletes).0;
    var d := ApplyOrders(c, Insert, ps.inserts).0;
    StageSent(depth, b, Delete, ps.deletes) + StageSent(depth, c, Insert, ps.inserts) + StageSent(depth, d, Update, ps.updates)
  }

  /** What one cache input needs: a delta must not empty a side, nor insert into a list that is not sorted
      or has the price already; a first partial must list both sides, and a later partial must be
      mergeable into a consistent book. */
  ghost predicate Ready(b: Book, msg: Message) {
    match msg.action
    case Partial =>
      if b.orders == map[] then BothListed(msg.data)
      else Inv(b) && Mergeable(b, msg.data)
    case Invalid(_) => true
    case _ => SafeAll(b, msg.action, msg.data)
  }

  /** `order` is the order in which the prices that a merge deletes come out of their set. */
  ghost predicate Ordered(b: Book, msg: Message, order: seq<Price>) {
    msg.action.Partial? && b.orders != map[] ==>
      Enumerates(order, DeletedPrices(b, msg.data)) && forall p :: p in order ==> p in b.orders
  }

  ghost predicate Handles(b: Book, msg: Message, order: seq<Price>) {
    Ready(b, msg) && Ordered(b, msg, order)
  }

  /** The book after handleInput. */
  ghost function NextBook(b: Book, msg: Message, order: seq<Price>): Book
    requires Handles(b, msg, order)
  {
    match msg.action
    case Partial =>
      if b.orders == map[] then Load(msg.data) else ApplyPatches(b, MergePatches(b, msg.data, order))
    case Invalid(_) => b
    case _ => ApplyOrders(b, msg.action, msg.data).0
  }

  function LoadSent(depth: nat, data: seq<Order>): seq<Message>
    requires BothListed(data)
  {
    LoadCached(data);
    if depth == 0 then [Message(Partial, Snapshot(Load(data), 0))] else []
  }

  // ---------------------------------------------------------------- the reader

  /** A reader waits for a partial; from then on each partial replaces its view and each delta patches
      it.  A delta that does not fit breaks it. */
  datatype Reader = Unsynced | Synced(view: View) | Broken

  function Receive(r: Reader, rsp: Message): Reader {
    if rsp.action.Partial? then Synced(MapOf(rsp.data))
    else if r.Synced? then
      var v := PatchAll(r.view, rsp.action, rsp.data);
      if v.Some? then Synced(v.value) else Broken
    else r
  }

  /** A published message; `at` is the cached book when a reader who got it should hold its view, and
      None between the two responses of one message. */
  datatype Emission = Emission(rsp: Message, at: Option<Book>)

  function Marked(rsps: seq<Message>, b: Book): (es: seq<Emission>)
    ensures |es| == |rsps|
  {
    seq(|rsps|, i requires 0 <= i < |rsps| => Emission(rsps[i], if i == |rsps| - 1 then Some(b) else None))
  }

  function Responses(es: seq<Emission>): (rsps: seq<Message>)
    ensures |rsps| == |es|
  {
    seq(|es|, i requires 0 <= i < |es| => es[i].rsp)
  }

  /** What handleInput sends on the channel of a depth, with the books at which a reader should be in
      step.  A first partial only reaches channel 0, and a delta that fails reaches none. */
  ghost function Emits(depth: nat, b: Book, msg: Message, order: seq<Price>): seq<Emission>
    requires Handles(b, msg, order)
  {
    match msg.action
    case Partial =>
      if b.orders == map[] then Marked(LoadSent(depth, msg.data), Load(msg.data))
      else MergeEmits(depth, b, MergePatches(b, msg.data, order))
    case Invalid(_) => []
    case _ => DeltaEmits(depth, b, msg)
  }

  ghost function DeltaEmits(depth: nat, b: Book, msg: Message): seq<Emission> {
    var (c, err) := ApplyOrders(b, msg.action, msg.data);
    if err == NoError then Marked(DeltaSent(depth, b, msg), c) else []
  }

  ghost function MergeEmits(depth: nat, b: Book, ps: Patches): seq<Emission> {
    var c := ApplyOrders(b, Delete, ps.deletes).0;
    var d := ApplyOrders(c, Insert, ps.inserts).0;
    Marked(StageSent(depth, b, Delete, ps.deletes), c) + Marked(StageSent(depth, c, Insert, ps.inserts), d) +
    Marked(StageSent(depth, d, Update, ps.updates), ApplyOrders(d, Update, ps.updates).0)
  }

  /** The messages alone. */
  ghost function Published(depth: nat, b: Book, msg: Message, order: seq<Price>): seq<Message>
    requires Handles(b, msg, order)
  {
    Responses(Emits(depth, b, msg, order))
  }

  lemma MarkedResponses(rsps: seq<Message>, b: Book)
    ensures Responses(Marked(rsps, b)) == rsps
  {
  }

  /** A delta that is refused publishes nothing. */
  lemma DeltaPublished(depth: nat, b: Book, msg: Message)
    ensures Responses(DeltaEmits(depth, b, msg)) ==
      if ApplyOrders(b, msg.action, msg.data).1 == NoError then DeltaSent(depth, b, msg) else []
  {
    MarkedResponses(DeltaSent(depth, b, msg), ApplyOrders(b, msg.action, msg.data).0);
  }

  lemma JoinedResponses(s: seq<Emission>, t: seq<Emission>)
    ensures Responses(s + t) == Responses(s) + Responses(t)
  {
  }

  /** A merge publishes its three stages one after the other. */
  lemma MergePublished(depth: nat, b: Book, ps: Patches)
    ensures Responses(MergeEmits(depth, b, ps)) == MergeSent(depth, b, ps)
  {
    var c := ApplyOrders(b, Delete, ps.deletes).0;
    var d := ApplyOrders(c, Insert, ps.inserts).0;
    var dels, ins, upd := StageSent(depth, b, Delete, ps.deletes), StageSent(depth, c, Insert, ps.inserts), StageSent(depth, d, Update, ps.updates);
    MarkedResponses(dels, c);
    MarkedResponses(ins, d);
    MarkedResponses(upd, ApplyOrders(d, Update, ps.updates).0);
    JoinedResponses(Marked(dels, c), Marked(ins, d));
    JoinedResponses(Marked(dels, c) + Marked(ins, d), Marked(upd, ApplyOrders(d, Update, ps.updates).0));
  }

  lemma StageNotEmpty(depth: nat, b: Book, action: Action, data: seq<Order>)
    requires depth > 0
    ensures forall m :: m in StageSent(depth, b, action, data) ==> m.data != []
  {
    SentResponded(depth, Message(action, data), LimitOrders(b, action, data, depth));
  }

  /** No input puts an empty message on a depth channel. */
  lemma PublishedNotEmpty(depth: nat, b: Book, msg: Message, order: seq<Price>)
    requires Handles(b, msg, order) && depth > 0
    ensures forall m :: m in Published(depth, b, msg, order) ==> m.data != []
  {
    match msg.action
    case Partial =>
      if b.orders != map[] {
        var ps := MergePatches(b, msg.data, order);
        var c := ApplyOrders(b, Delete, ps.deletes).0;
        MergePublished(depth, b, ps);
        StageNotEmpty(depth, b, Delete, ps.deletes);
        StageNotEmpty(depth, c, Insert, ps.inserts);
        StageNotEmpty(depth, ApplyOrders(c, Insert, ps.inserts).0, Update, ps.updates);
      }
    case Invalid(_) =>
    case _ =>
      DeltaPublished(depth, b, msg);
      SentResponded(depth, msg, LimitOrders(b, msg.action, msg.data, depth));
  }

  /** A message, unless it has no orders. */
  function OneOrNone(action: Action, data: seq<Order>): seq<Message> {
    if data == [] then [] else [Message(action, data)]
  }

  function InStages(ps: Patches): seq<Message> {
    OneOrNone(Delete, ps.deletes) + OneOrNone(Insert, ps.inserts) + OneOrNone(Update, ps.updates)
  }

  /** On channel 0 a merge is its deletes, then its inserts, then its updates, each in one message unless
      there are none. */
  lemma MergeOnZero(b: Book, data: seq<Order>, order: seq<Price>)
    requires Handles(b, Message(Partial, data), order) && b.orders != map[]
    ensures Published(0, b, Message(Partial, data), order) == InStages(MergePatches(b, data, order))
  {
    MergePublished(0, b, MergePatches(b, data, order));
  }

  /** The last message that a delta publishes, and on channel 0 the last one that any input publishes, marks
      the book after the input. */
  lemma LastMarksNext(depth: nat, b: Book, msg: Message, order: seq<Price>)
    requires Handles(b, msg, order) && (depth == 0 || msg.action.Delta())
    ensures var es := Emits(depth, b, msg, order);
      es != [] ==> es[|es| - 1].at == Some(NextBook(b, msg, order))
  {
    if msg.action.Partial? && b.orders != map[] {
      MergeMarksLast(b, MergePatches(b, msg.data, order));
    }
  }

  lemma MergeMarksLast(b: Book, ps: Patches)
    ensures var es := MergeEmits(0, b, ps);
      es != [] ==> es[|es| - 1].at == Some(ApplyPatches(b, ps))
  {
    var c := ApplyOrders(b, Delete, ps.deletes).0;
    var d := ApplyOrders(c, Insert, ps.inserts).0;
    var es := Marked(StageSent(0, b, Delete, ps.deletes), c);
    var fs := Marked(StageSent(0, c, Insert, ps.inserts), d);
    var gs := Marked(StageSent(0, d, Update, ps.updates), ApplyPatches(b, ps));
    assert MergeEmits(0, b, ps) == es + fs + gs;
  }

  function ReadAll(r: Reader, es: seq<Emission>): Reader
    decreases |es|
  {
    if es == [] then r else Receive(ReadAll(r, es[..|es| - 1]), es[|es| - 1].rsp)
  }

  /** Wherever the emissions mark a book, a reader that started in state r holds its view. */
  ghost predicate InStep(depth: nat, r: Reader, es: seq<Emission>)
    decreases |es|
  {
    es != [] ==>
      && InStep(depth, r, es[..|es| - 1])
      && (es[|es| - 1].at.Some? ==> ReadAll(r, es) == Synced(ViewOf(es[|es| - 1].at.value, depth)))
  }

  lemma {:induction false} InStepConcat(depth: nat, r: Reader, s: seq<Emission>, t: seq<Emission>)
    requires InStep(depth, r, s) && InStep(depth, ReadAll(r, s), t)
    ensures InStep(depth, r, s + t) && ReadAll(r, s + t) == ReadAll(ReadAll(r, s), t)
    decreases |t|
  {
    if t == [] {
      assert s + t == s;
    } else {
      assert (s + t)[..|s + t| - 1] == s + t[..|t| - 1];
      InStepConcat(depth, r, s, t[..|t| - 1]);
    }
  }

  /** At most two messages, the last of which brings the reader to the book's view. */
  lemma MarkedInStep(depth: nat, r: Reader, rsps: seq<Message>, b: Book)
    requires |rsps| <= 2
    requires rsps == [] ==> r == Synced(ViewOf(b, depth))
    requires |rsps| == 1 ==> Receive(r, rsps[0]) == Synced(ViewOf(b, depth))
    requires |rsps| == 2 ==> Receive(Receive(r, rsps[0]), rsps[1]) == Synced(ViewOf(b, depth))
    ensures InStep(depth, r, Marked(rsps, b)) && ReadAll(r, Marked(rsps, b)) == Synced(ViewOf(b, depth))
  {
    var es := Marked(rsps, b);
    if |rsps| == 2 {
      var front := es[..1];
      assert front[..0] == [] && front[0] == es[0];
      assert ReadAll(r, front) == Receive(r, rsps[0]);
      assert InStep(depth, r, front);
    }
  }
}
