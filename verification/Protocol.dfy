/** Subscription and snapshot: producers, the cache loop, the dispatcher of one channel and any number of
    sessions, as a labelled transition system.  A session first registers on the channel's queue
    (RetriveData), then asks for a snapshot through the cache's pipeline (TakeSnapshot), then drains its
    own queue.  Any interleaving of the steps is a run, with any inputs that the cache can handle and that
    leave its book consistent. */
module Protocol {
  import opened PriceLists
  import opened OrderBooks
  import opened DepthViews
  import opened Snapshots
  import opened Merging
  import opened Emissions
  import opened InSteps
  import opened Replicas
  import opened Channels
  import opened Wrappers

  /** What waits in the pipeline of the cache. */
  datatype Request = Append(msg: Message) | SnapshotFor(session: Session)

  /** An input of the channel, with the book at which a reader who got it should be in step. */
  datatype Logged = Logged(input: Input, at: Option<Book>)

  datatype Phase = Retrieved | Requested

  /** What the last input that was not accepted leaves: the book after it, how much of the history had been
      queued when the last of its own messages was, and whether some of them are still in the outbox.
      From there on readers are in step. */
  datatype Track = Track(base: Book, clean: nat, dirty: bool)

  /** The state of the system.  `outbox` holds what the cache loop still has to put on the queue for
      the input it is handling.  `history` and `log` record what was ever put on the queue, and what the
      dispatcher has processed. */
  datatype System = System(
    pipeline: seq<Request>, book: Book, outbox: seq<Logged>,
    source: seq<Input>, dispatcher: Dispatcher, phases: map<Session, Phase>,
    history: seq<Logged>, log: seq<Event>, track: Track)

  datatype Label =
    | Produce(msg: Message)              // Append
    | Retrieve(session: Session)         // RetriveData, with a fresh session
    | Request(session: Session)          // TakeSnapshot, once RetriveData has returned
    | Stop(session: Session)             // ShutdownRetrive
    | CacheLoop(order: seq<Price>)        // the cache loop takes the next input
    | Send                               // and sends one more of the messages it makes
    | Dispatch(timeouts: set<Session>)   // the dispatcher takes the next input

  function Broadcasts(es: seq<Emission>): (hs: seq<Logged>)
    ensures |hs| == |es|
  {
    seq(|es|, i requires 0 <= i < |es| => Logged(Data(None, es[i].rsp), es[i].at))
  }

  ghost function SnapshotTo(b: Book, depth: nat, s: Session): Logged {
    Logged(Data(Some(s), SnapshotOf(b, depth)), Some(b))
  }

  ghost predicate Enabled(depth: nat, st: System, l: Label) {
    match l
    case Produce(_) => true
    case Retrieve(s) => s !in st.phases
    case Request(s) => s in st.phases && st.phases[s].Retrieved?
    case Stop(s) => s in st.phases
    case CacheLoop(order) =>
      && st.outbox == [] && st.pipeline != []
      && (st.pipeline[0].Append? ==> Handles(st.book, st.pipeline[0].msg, order) && Consistent(st.book, st.pipeline[0].msg))
    case Send => st.outbox != []
    case Dispatch(_) => st.source != []
  }

  function Enqueue(st: System, h: Logged): System {
    st.(source := st.source + [h.input], history := st.history + [h],
        track := if st.track.dirty then st.track.(clean := |st.history| + 1) else st.track)
  }

  ghost function Appended(depth: nat, st: System, msg: Message, order: seq<Price>): System
    requires Handles(st.book, msg, order)
  {
    var book, outbox := NextBook(st.book, msg, order), Broadcasts(Emits(depth, st.book, msg, order));
    st.(pipeline := if st.pipeline == [] then [] else st.pipeline[1..], book := book, outbox := outbox,
        track := if Accepts(depth, st.book, msg) then st.track else Track(book, |st.history|, outbox != []))
  }

  ghost function Next(depth: nat, st: System, l: Label): System
    requires Enabled(depth, st, l)
  {
    match l
    case Produce(msg) => st.(pipeline := st.pipeline + [Append(msg)])
    case Retrieve(s) => Enqueue(st, Logged(Register(s), None)).(phases := st.phases[s := Retrieved])
    case Request(s) => st.(pipeline := st.pipeline + [SnapshotFor(s)], phases := st.phases[s := Requested])
    case Stop(s) => Enqueue(st, Logged(Shutdown(s), None))
    case CacheLoop(order) =>
      (match st.pipeline[0]
       case Append(msg) => Appended(depth, st, msg, order)
       case SnapshotFor(s) =>
         st.(pipeline := st.pipeline[1..], outbox := [SnapshotTo(st.book, depth, s)]))
    case Send => Forward(st)
    case Dispatch(timeouts) =>
      var ev := Event(st.source[0], timeouts);
      st.(source := st.source[1..], dispatcher := Step(st.dispatcher, ev), log := st.log + [ev])
  }

  /** The cache loop puts one more of its messages on the queue. */
  function Forward(st: System): System
    requires st.outbox != []
  {
    var next := Enqueue(st, st.outbox[0]);
    next.(outbox := st.outbox[1..], track := next.track.(dirty := st.track.dirty && |st.outbox| > 1))
  }

  function Start(b: Book): System {
    System([], b, [], [], START, map[], [], [], Track(b, 0, false))
  }

  /** The state after a run of labels, if every one of them was enabled in its turn. */
  ghost function After(depth: nat, b: Book, labels: seq<Label>): Option<System>
    decreases |labels|
  {
    if labels == [] then Some(Start(b)) else
    var prev, l := After(depth, b, labels[..|labels| - 1]), labels[|labels| - 1];
    if prev.Some? && Enabled(depth, prev.value, l) then Some(Next(depth, prev.value, l)) else None
  }

  lemma AfterOne(depth: nat, b: Book, labels: seq<Label>, l: Label)
    requires After(depth, b, labels).Some? && Enabled(depth, After(depth, b, labels).value, l)
    ensures After(depth, b, labels + [l]) == Some(Next(depth, After(depth, b, labels).value, l))
  {
    assert (labels + [l])[..|labels|] == labels;
  }

  // ---------------------------------------------------------------- the stream

  /** Both readers of a stream: one that keeps orders by price, and one that rebuilds the book. */
  datatype Mirror = Mirror(reader: Reader, replica: Replica)

  ghost function Take(m: Mirror, rsp: Message): Mirror {
    Mirror(Receive(m.reader, rsp), Rebuild(m.replica, rsp))
  }

  /** A reader that has the view of a book, and on channel 0 the book. */
  predicate Mirrors(depth: nat, m: Mirror, b: Book) {
    m.reader == Synced(ViewOf(b, depth)) && (depth == 0 ==> m.replica == Holding(b))
  }

  /** A reader that gets every broadcast and no directed message. */
  ghost function Follow(m: Mirror, hs: seq<Logged>): Mirror
    decreases |hs|
  {
    if hs == [] then m else
    var front, h := Follow(m, hs[..|hs| - 1]), hs[|hs| - 1].input;
    if h.Data? && h.dst.None? then Take(front, h.rsp) else front
  }

  /** Where the follower should be after an input: at the marked book.  What is directed to a session, and
      every partial, is the snapshot of the marked book. */
  ghost predicate Fits(depth: nat, m: Mirror, h: Logged) {
    && (h.at.Some? ==> h.input.Data? && Inv(h.at.value) && Mirrors(depth, m, h.at.value))
    && (h.input.Data? && (h.input.dst.Some? || h.input.rsp.action.Partial?) ==>
          h.at.Some? && h.input.rsp == SnapshotOf(h.at.value, depth))
    && (depth == 0 && h.input.Data? ==> h.at.Some?)
  }

  ghost predicate Flow(depth: nat, m: Mirror, hs: seq<Logged>)
    decreases |hs|
  {
    hs != [] ==> Flow(depth, m, hs[..|hs| - 1]) && Fits(depth, Follow(m, hs), hs[|hs| - 1])
  }

  lemma {:induction false} FlowConcat(depth: nat, m: Mirror, hs: seq<Logged>, gs: seq<Logged>)
    ensures Follow(m, hs + gs) == Follow(Follow(m, hs), gs)
    ensures Flow(depth, m, hs + gs) <==> Flow(depth, m, hs) && Flow(depth, Follow(m, hs), gs)
    decreases |gs|
  {
    if gs == [] {
      assert hs + gs == hs;
    } else {
      assert (hs + gs)[..|hs + gs| - 1] == hs + gs[..|gs| - 1];
      FlowConcat(depth, m, hs, gs[..|gs| - 1]);
    }
  }

  lemma FlowOne(depth: nat, m: Mirror, hs: seq<Logged>, h: Logged)
    ensures Flow(depth, m, hs + [h]) <==> Flow(depth, m, hs) && Fits(depth, Follow(m, hs + [h]), h)
    ensures h.input.Data? && h.input.dst.None? ==> Follow(m, hs + [h]) == Take(Follow(m, hs), h.input.rsp)
    ensures !(h.input.Data? && h.input.dst.None?) ==> Follow(m, hs + [h]) == Follow(m, hs)
  {
    assert (hs + [h])[..|hs|] == hs;
  }

  /** Emissions that keep a reader in step, and on channel 0 a replica, flow. */
  lemma {:induction false} EmissionsFlow(depth: nat, m: Mirror, es: seq<Emission>)
    requires InStep(depth, m.reader, es) && WellMarked(depth, es)
    requires depth == 0 ==> Rebuilt(m.replica, es)
    ensures Flow(depth, m, Broadcasts(es))
    ensures Follow(m, Broadcasts(es)) == Mirror(ReadAll(m.reader, es), RebuildAll(m.replica, es))
    decreases |es|
  {
    if es != [] {
      var front := es[..|es| - 1];
      EmissionsFlow(depth, m, front);
      assert Broadcasts(es) == Broadcasts(front) + [Logged(Data(None, es[|es| - 1].rsp), es[|es| - 1].at)];
      FlowOne(depth, m, Broadcasts(front), Logged(Data(None, es[|es| - 1].rsp), es[|es| - 1].at));
    }
  }

  lemma InputFlow(depth: nat, b: Book, m: Mirror, msg: Message, order: seq<Price>)
    requires Inv(b) && Accepts(depth, b, msg) && Ordered(b, msg, order) && Mirrors(depth, m, b)
    ensures Inv(NextBook(b, msg, order))
    ensures Flow(depth, m, Broadcasts(Emits(depth, b, msg, order)))
    ensures Mirrors(depth, Follow(m, Broadcasts(Emits(depth, b, msg, order))), NextBook(b, msg, order))
  {
    InputInStep(depth, b, msg, order);
    InputWellMarked(depth, b, msg, order);
    if depth == 0 {
      InputRebuilt(b, msg, order);
    }
    EmissionsFlow(depth, m, Emits(depth, b, msg, order));
  }

  // ---------------------------------------------------------------- the invariant

  ghost predicate RegisteredIn(hs: seq<Logged>, s: Session) {
    exists j :: 0 <= j < |hs| && hs[j].input == Register(s)
  }

  /** A reader that has the view of a book, and the book. */
  function At(b: Book, depth: nat): Mirror {
    Mirror(Synced(ViewOf(b, depth)), Holding(b))
  }

  /** The stream since the last input that was not accepted, and what is still in the outbox, take a
      follower from the view of the book then to the view of the book now. */
  ghost predicate StreamInv(depth: nat, st: System) {
    var t := st.track;
    && Inv(st.book) && Inv(t.base) && t.clean <= |st.history|
    && var f := Follow(At(t.base, depth), st.history[t.clean..]);
       && Flow(depth, At(t.base, depth), st.history[t.clean..])
       && if t.dirty then st.outbox != [] && t.clean == |st.history| && t.base == st.book
          else Flow(depth, f, st.outbox) && Mirrors(depth, Follow(f, st.outbox), st.book)
  }

  ghost predicate ListBoth(hs: seq<Logged>) {
    forall k :: 0 <= k < |hs| && hs[k].input.Data? && hs[k].input.rsp.action.Partial? ==> BothListed(hs[k].input.rsp.data)
  }

  /** Once the book has both sides it keeps them, and every snapshot can be loaded. */
  ghost predicate SidesInv(b: Book, st: System) {
    BothSides(b) ==> BothSides(st.book) && ListBoth(st.history) && ListBoth(st.outbox)
  }

  /** Sessions register once, and before anything is addressed to them. */
  ghost predicate SessionInv(st: System) {
    && (forall s :: s in st.phases <==> RegisteredIn(st.history, s))
    && (forall i, j :: 0 <= i < j < |st.history| && st.history[i].input.Register? ==> st.history[i].input != st.history[j].input)
    && (forall i :: 0 <= i < |st.pipeline| && st.pipeline[i].SnapshotFor? ==> st.pipeline[i].session in st.phases)
    && (forall i :: 0 <= i < |st.outbox| ==> st.outbox[i].input.Data?)
    && (forall i :: 0 <= i < |st.outbox| && Directed(st.outbox[i].input) ==> st.outbox[i].input.dst.value in st.phases)
    && (forall k :: 0 <= k < |st.history| && Directed(st.history[k].input) ==>
          RegisteredIn(st.history[..k], st.history[k].input.dst.value))
  }

  predicate Directed(input: Input) {
    input.Data? && input.dst.Some?
  }

  /** The dispatcher has processed the front of the history; the rest waits on the queue. */
  ghost predicate QueueInv(st: System) {
    && |st.log| + |st.source| == |st.history|
    && (forall i :: 0 <= i < |st.log| ==> st.log[i].input == st.history[i].input)
    && (forall i :: 0 <= i < |st.source| ==> st.source[i] == st.history[|st.log| + i].input)
    && st.dispatcher == Run(st.log)
  }

  lemma EnqueueQueueInv(st: System, h: Logged)
    requires QueueInv(st)
    ensures QueueInv(Enqueue(st, h))
  {
  }

  lemma DispatchQueueInv(st: System, ev: Event)
    requires QueueInv(st) && st.source != [] && ev.input == st.source[0]
    ensures QueueInv(st.(source := st.source[1..], dispatcher := Step(st.dispatcher, ev), log := st.log + [ev]))
  {
    assert (st.log + [ev])[..|st.log|] == st.log;
  }

  lemma SameQueueInv(st: System, next: System)
    requires QueueInv(st)
    requires next.source == st.source && next.dispatcher == st.dispatcher && next.log == st.log && next.history == st.history
    ensures QueueInv(next)
  {
  }

  lemma {:induction false} NextQueueInv(depth: nat, st: System, l: Label)
    requires QueueInv(st) && Enabled(depth, st, l)
    ensures QueueInv(Next(depth, st, l))
  {
    if l.Retrieve? {
      EnqueueQueueInv(st, Logged(Register(l.session), None));
      SameQueueInv(Enqueue(st, Logged(Register(l.session), None)), Next(depth, st, l));
    } else if l.Stop? {
      EnqueueQueueInv(st, Logged(Shutdown(l.session), None));
    } else if l.Send? {
      EnqueueQueueInv(st, st.outbox[0]);
      SameQueueInv(Enqueue(st, st.outbox[0]), Next(depth, st, l));
    } else if l.Dispatch? {
      DispatchQueueInv(st, Event(st.source[0], l.timeouts));
    } else {
      SameQueueInv(st, Next(depth, st, l));
    }
  }

  lemma NextStreamInv(depth: nat, st: System, l: Label)
    requires StreamInv(depth, st) && Enabled(depth, st, l)
    ensures StreamInv(depth, Next(depth, st, l))
  {
    match l
    case Retrieve(s) => BreakpointStreamInv(depth, st, Logged(Register(s), None));
    case Stop(s) => BreakpointStreamInv(depth, st, Logged(Shutdown(s), None));
    case Send => SendStreamInv(depth, st);
    case CacheLoop(order) =>
      if st.pipeline[0].Append? {
        AppendStreamInv(depth, st, st.pipeline[0].msg, order);
      } else {
        SnapshotStreamInv(depth, st, st.pipeline[0].session, st.pipeline[1..]);
      }
    case _ =>
  }

  /** The history since a place, with one more input. */
  lemma Since(hs: seq<Logged>, h: Logged, clean: nat)
    requires clean <= |hs|
    ensures (hs + [h])[clean..] == hs[clean..] + [h]
    ensures (hs + [h])[|hs| + 1..] == []
  {
  }

  lemma BreakpointStreamInv(depth: nat, st: System, h: Logged)
    requires StreamInv(depth, st) && !h.input.Data? && h.at.None?
    ensures StreamInv(depth, Enqueue(st, h))
  {
    Since(st.history, h, st.track.clean);
    FlowOne(depth, At(st.track.base, depth), st.history[st.track.clean..], h);
  }

  lemma SendStreamInv(depth: nat, st: System)
    requires StreamInv(depth, st) && st.outbox != []
    ensures StreamInv(depth, Forward(st))
  {
    var t := st.track;
    Since(st.history, st.outbox[0], t.clean);
    if t.dirty {
      assert |st.outbox| == 1 ==> st.outbox[1..] == [];
    } else {
      var m, hs := At(t.base, depth), st.history[t.clean..];
      assert st.outbox == [st.outbox[0]] + st.outbox[1..];
      FlowConcat(depth, Follow(m, hs), [st.outbox[0]], st.outbox[1..]);
      FlowConcat(depth, m, hs, [st.outbox[0]]);
    }
  }

  lemma AppendStreamInv(depth: nat, st: System, msg: Message, order: seq<Price>)
    requires StreamInv(depth, st) && st.outbox == [] && Handles(st.book, msg, order) && Consistent(st.book, msg)
    ensures StreamInv(depth, Appended(depth, st, msg, order))
  {
    if Accepts(depth, st.book, msg) {
      AcceptedStreamInv(depth, st, msg, order);
    } else {
      ResetStreamInv(depth, st, msg, order);
    }
  }

  lemma AcceptedStreamInv(depth: nat, st: System, msg: Message, order: seq<Price>)
    requires StreamInv(depth, st) && st.outbox == [] && Accepts(depth, st.book, msg) && Ordered(st.book, msg, order)
    ensures StreamInv(depth, Appended(depth, st, msg, order))
  {
    InputFlow(depth, st.book, Follow(At(st.track.base, depth), st.history[st.track.clean..]), msg, order);
  }

  lemma ResetStreamInv(depth: nat, st: System, msg: Message, order: seq<Price>)
    requires Inv(st.book) && Handles(st.book, msg, order) && Consistent(st.book, msg) && !Accepts(depth, st.book, msg)
    ensures StreamInv(depth, Appended(depth, st, msg, order))
  {
    ConsistentIff(st.book, msg, order);
    assert st.history[|st.history|..] == [];
  }

  lemma SnapshotStreamInv(depth: nat, st: System, s: Session, rest: seq<Request>)
    requires StreamInv(depth, st) && st.outbox == []
    ensures StreamInv(depth, st.(pipeline := rest, outbox := [SnapshotTo(st.book, depth, s)]))
  {
    SnapshotFlow(depth, Follow(At(st.track.base, depth), st.history[st.track.clean..]), st.book, s);
  }

  /** A directed snapshot changes nothing for the follower. */
  lemma SnapshotFlow(depth: nat, f: Mirror, b: Book, s: Session)
    requires Inv(b) && Mirrors(depth, f, b)
    ensures Flow(depth, f, [SnapshotTo(b, depth, s)]) && Follow(f, [SnapshotTo(b, depth, s)]) == f
  {
    FlowOne(depth, f, [], SnapshotTo(b, depth, s));
    assert [] + [SnapshotTo(b, depth, s)] == [SnapshotTo(b, depth, s)];
  }

  // ---------------------------------------------------------------- both sides

  lemma NextSidesInv(depth: nat, b: Book, st: System, l: Label)
    requires Inv(st.book) && SidesInv(b, st) && Enabled(depth, st, l)
    ensures SidesInv(b, Next(depth, st, l))
  {
    match l
    case Retrieve(s) => ListBothMore(st.history, Logged(Register(s), None));
    case Stop(s) => ListBothMore(st.history, Logged(Shutdown(s), None));
    case Send =>
      if BothSides(b) {
        ForwardSides(st.history, st.outbox);
      }
    case CacheLoop(order) => LoopSides(depth, b, st, order);
    case _ =>
  }

  lemma LoopSides(depth: nat, b: Book, st: System, order: seq<Price>)
    requires Inv(st.book) && SidesInv(b, st) && Enabled(depth, st, CacheLoop(order))
    ensures SidesInv(b, Next(depth, st, CacheLoop(order)))
  {
    if st.pipeline[0].Append? {
      AppendSides(depth, st.book, st.pipeline[0].msg, order);
    } else {
      SnapshotLoadsIff(st.book, depth);
    }
  }

  lemma ListBothMore(hs: seq<Logged>, h: Logged)
    requires !h.input.Data?
    ensures ListBoth(hs) ==> ListBoth(hs + [h])
  {
  }

  lemma ForwardSides(hs: seq<Logged>, outbox: seq<Logged>)
    requires ListBoth(hs) && ListBoth(outbox) && outbox != []
    ensures ListBoth(hs + [outbox[0]]) && ListBoth(outbox[1..])
  {
    assert forall k :: 0 <= k < |outbox[1..]| ==> outbox[1..][k] == outbox[k + 1];
  }

  lemma AppendSides(depth: nat, b: Book, msg: Message, order: seq<Price>)
    requires Inv(b) && Handles(b, msg, order) && Consistent(b, msg)
    ensures BothSides(b) ==> BothSides(NextBook(b, msg, order))
    ensures ListBoth(Broadcasts(Emits(depth, b, msg, order)))
  {
    InputKeepsSides(b, msg, order);
    KeepsBoth(b, NextBook(b, msg, order));
    EmitsListBoth(depth, b, msg, order);
  }

  lemma EmitsListBoth(depth: nat, b: Book, msg: Message, order: seq<Price>)
    requires Inv(b) && Handles(b, msg, order) && Consistent(b, msg)
    ensures ListBoth(Broadcasts(Emits(depth, b, msg, order)))
  {
    if msg.action.Partial? && b.orders == map[] {
      LoadListsBoth(depth, msg.data);
    } else if msg.action.Partial? {
      MergeNoPartials(depth, b, MergePatches(b, msg.data, order));
    }
  }

  lemma LoadListsBoth(depth: nat, data: seq<Order>)
    requires BothListed(data) && Loadable(data)
    ensures ListBoth(Broadcasts(Marked(LoadSent(depth, data), Load(data))))
  {
    LoadInvIff(data);
    LoadCached(data);
    LoadSides(EMPTY_BOOK, data);
    SnapshotLoadsIff(Load(data), 0);
  }

  lemma RegisteredMore(hs: seq<Logged>, h: Logged, s: Session)
    ensures RegisteredIn(hs + [h], s) <==> RegisteredIn(hs, s) || h.input == Register(s)
  {
    if RegisteredIn(hs, s) {
      var j :| 0 <= j < |hs| && hs[j].input == Register(s);
      assert (hs + [h])[j].input == Register(s);
    }
    if h.input == Register(s) {
      assert (hs + [h])[|hs|].input == Register(s);
    }
  }

  lemma EnqueueSessionInv(st: System, h: Logged)
    requires SessionInv(st) && !h.input.Register?
    requires Directed(h.input) ==> h.input.dst.value in st.phases
    ensures SessionInv(Enqueue(st, h))
  {
    var hs := st.history + [h];
    forall s ensures s in st.phases <==> RegisteredIn(hs, s) {
      RegisteredMore(st.history, h, s);
    }
    forall k | 0 <= k < |hs| && Directed(hs[k].input)
      ensures RegisteredIn(hs[..k], hs[k].input.dst.value)
    {
      assert k < |st.history| ==> hs[..k] == st.history[..k];
      assert hs[..|st.history|] == st.history;
    }
  }

  lemma RetrieveSessionInv(st: System, s: Session)
    requires SessionInv(st) && s !in st.phases
    ensures SessionInv(Enqueue(st, Logged(Register(s), None)).(phases := st.phases[s := Retrieved]))
  {
    var h := Logged(Register(s), None);
    var hs := st.history + [h];
    forall t ensures t in st.phases[s := Retrieved] <==> RegisteredIn(hs, t) {
      RegisteredMore(st.history, h, t);
    }
    assert !RegisteredIn(st.history, s);
    forall i, j | 0 <= i < j < |hs| && hs[i].input.Register?
      ensures hs[i].input != hs[j].input
    {
      assert st.history[i] == hs[i];
    }
    forall k | 0 <= k < |hs| && Directed(hs[k].input)
      ensures RegisteredIn(hs[..k], hs[k].input.dst.value)
    {
      assert hs[..k] == st.history[..k];
    }
  }

  lemma LoopSessionInv(st: System, c: Book, outbox: seq<Logged>)
    requires SessionInv(st) && st.pipeline != []
    requires forall i :: 0 <= i < |outbox| ==> outbox[i].input.Data?
    requires forall i :: 0 <= i < |outbox| && Directed(outbox[i].input) ==> st.pipeline[0] == SnapshotFor(outbox[i].input.dst.value)
    ensures forall t :: SessionInv(st.(pipeline := st.pipeline[1..], book := c, outbox := outbox, track := t))
  {
    var rest := st.pipeline[1..];
    assert forall i :: 0 <= i < |rest| ==> rest[i] == st.pipeline[i + 1];
  }

  lemma RequestSessionInv(st: System, s: Session)
    requires SessionInv(st) && s in st.phases
    ensures SessionInv(st.(pipeline := st.pipeline + [SnapshotFor(s)], phases := st.phases[s := Requested]))
  {
  }

  lemma NextSessionInv(depth: nat, st: System, l: Label)
    requires SessionInv(st) && Enabled(depth, st, l)
    ensures SessionInv(Next(depth, st, l))
  {
    match l
    case Retrieve(s) => RetrieveSessionInv(st, s);
    case Request(s) => RequestSessionInv(st, s);
    case Stop(s) => EnqueueSessionInv(st, Logged(Shutdown(s), None));
    case Send => SendSessionInv(st);
    case CacheLoop(order) =>
      var next := Next(depth, st, l);
      LoopSessionInv(st, next.book, next.outbox);
    case _ =>
  }

  lemma SendSessionInv(st: System)
    requires SessionInv(st) && st.outbox != [] && !st.outbox[0].input.Register?
    ensures SessionInv(Forward(st))
  {
    EnqueueSessionInv(st, st.outbox[0]);
    assert forall i :: 0 <= i < |st.outbox[1..]| ==> st.outbox[1..][i] == st.outbox[i + 1];
  }

  ghost predicate SystemInv(depth: nat, b: Book, st: System) {
    StreamInv(depth, st) && SidesInv(b, st) && SessionInv(st) && QueueInv(st)
  }

  /** The invariant holds in every state that any interleaving reaches. */
  lemma {:induction false} Reachable(depth: nat, b: Book, labels: seq<Label>)
    requires Inv(b) && After(depth, b, labels).Some?
    ensures SystemInv(depth, b, After(depth, b, labels).value)
    decreases |labels|
  {
    if labels != [] {
      var front, l := labels[..|labels| - 1], labels[|labels| - 1];
      Reachable(depth, b, front);
      var prev := After(depth, b, front).value;
      NextStreamInv(depth, prev, l);
      NextSidesInv(depth, b, prev, l);
      NextSessionInv(depth, prev, l);
      NextQueueInv(depth, prev, l);
    }
  }
}
