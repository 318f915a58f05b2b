/** What a run does, told from its labels alone: which requests the cache has handled and in which order,
    the book that they lead to, and everything that was ever put on the queue of the channel. */
module Runs {
  import opened PriceLists
  import opened OrderBooks
  import opened Emissions
  import opened InSteps
  import opened Channels
  import opened Protocol
  import opened Wrappers

  // ---------------------------------------------------------------- reading the labels

  /** The requests, in the order in which they were made. */
  function Requests(labels: seq<Label>): seq<Request>
    decreases |labels|
  {
    if labels == [] then [] else
    var front := Requests(labels[..|labels| - 1]);
    match labels[|labels| - 1]
    case Produce(msg) => front + [Append(msg)]
    case Request(s) => front + [SnapshotFor(s)]
    case _ => front
  }

  /** One order of prices for every turn of the cache loop. */
  function Turns(labels: seq<Label>): seq<seq<Price>>
    decreases |labels|
  {
    if labels == [] then [] else
    var front, l := Turns(labels[..|labels| - 1]), labels[|labels| - 1];
    if l.CacheLoop? then front + [l.order] else front
  }

  function Sends(labels: seq<Label>): nat
    decreases |labels|
  {
    if labels == [] then 0 else
    Sends(labels[..|labels| - 1]) + if labels[|labels| - 1].Send? then 1 else 0
  }

  /** The sessions that time out, for every turn of the dispatcher. */
  function Rounds(labels: seq<Label>): seq<set<Session>>
    decreases |labels|
  {
    if labels == [] then [] else
    var front, l := Rounds(labels[..|labels| - 1]), labels[|labels| - 1];
    if l.Dispatch? then front + [l.timeouts] else front
  }

  // ---------------------------------------------------------------- what they should lead to

  /** The book after a run of requests; a snapshot does not change it. */
  ghost function BookAfter(b: Book, reqs: seq<Request>, orders: seq<seq<Price>>): Book
    requires |orders| == |reqs|
    decreases |reqs|
  {
    if reqs == [] then b else
    var n := |reqs| - 1;
    var c := BookAfter(b, reqs[..n], orders[..n]);
    if reqs[n].Append? && Handles(c, reqs[n].msg, orders[n]) then NextBook(c, reqs[n].msg, orders[n]) else c
  }

  /** Every input among the requests can be handled in its turn and leaves the book consistent. */
  ghost predicate AllHandled(b: Book, reqs: seq<Request>, orders: seq<seq<Price>>)
    requires |orders| == |reqs|
    decreases |reqs|
  {
    reqs != [] ==>
      var n := |reqs| - 1;
      var c := BookAfter(b, reqs[..n], orders[..n]);
      && AllHandled(b, reqs[..n], orders[..n])
      && (reqs[n].Append? ==> Handles(c, reqs[n].msg, orders[n]) && Consistent(c, reqs[n].msg))
  }

  /** What one request makes: broadcasts of what its input publishes, or one snapshot for its session. */
  ghost function MadeBy(depth: nat, c: Book, req: Request, order: seq<Price>): seq<Logged> {
    match req
    case Append(msg) =>
      if Handles(c, msg, order) then
        var es := Emits(depth, c, msg, order);
        seq(|es|, i requires 0 <= i < |es| => Logged(Data(None, es[i].rsp), es[i].at))
      else []
    case SnapshotFor(s) => [Logged(Data(Some(s), SnapshotOf(c, depth)), Some(c))]
  }

  /** What the requests make, one after the other, each from the book of its moment. */
  ghost function Made(depth: nat, b: Book, reqs: seq<Request>, orders: seq<seq<Price>>): seq<Logged>
    requires |orders| == |reqs|
    decreases |reqs|
  {
    if reqs == [] then [] else
    var n := |reqs| - 1;
    Made(depth, b, reqs[..n], orders[..n]) + MadeBy(depth, BookAfter(b, reqs[..n], orders[..n]), reqs[n], orders[n])
  }

  /** The queue: a registration or a shutdown where its label stands, and the next thing made for each Send. */
  function Queued(labels: seq<Label>, made: seq<Logged>): seq<Logged>
    decreases |labels|
  {
    if labels == [] then [] else
    var front := labels[..|labels| - 1];
    match labels[|labels| - 1]
    case Retrieve(s) => Queued(front, made) + [Logged(Register(s), None)]
    case Stop(s) => Queued(front, made) + [Logged(Shutdown(s), None)]
    case Send => Queued(front, made) + if Sends(front) < |made| then [made[Sends(front)]] else []
    case _ => Queued(front, made)
  }

  function DataOf(hs: seq<Logged>): seq<Logged>
    decreases |hs|
  {
    if hs == [] then [] else
    DataOf(hs[..|hs| - 1]) + if hs[|hs| - 1].input.Data? then [hs[|hs| - 1]] else []
  }

  lemma DataSnoc(hs: seq<Logged>, h: Logged)
    ensures DataOf(hs + [h]) == DataOf(hs) + if h.input.Data? then [h] else []
  {
    assert (hs + [h])[..|hs|] == hs;
  }

  lemma {:induction false} QueuedMore(labels: seq<Label>, made: seq<Logged>, more: seq<Logged>)
    requires Sends(labels) <= |made|
    ensures Queued(labels, made + more) == Queued(labels, made)
    decreases |labels|
  {
    if labels != [] {
      QueuedMore(labels[..|labels| - 1], made, more);
    }
  }

  // ---------------------------------------------------------------- every run

  /** As many requests as there were turns are handled, in order; the rest waits. */
  ghost predicate HandledSoFar(b: Book, reqs: seq<Request>, orders: seq<seq<Price>>, st: System) {
    var k := |orders|;
    && k <= |reqs| && st.pipeline == reqs[k..]
    && AllHandled(b, reqs[..k], orders) && st.book == BookAfter(b, reqs[..k], orders)
  }

  /** The state is what the labels say: k turns of the cache loop have handled the first k requests. */
  ghost predicate Traced(depth: nat, b: Book, labels: seq<Label>, st: System) {
    var reqs, orders := Requests(labels), Turns(labels);
    && HandledSoFar(b, reqs, orders, st)
    && Dispatched(labels, st)
    && MadeAndQueued(labels, Made(depth, b, reqs[..|orders|], orders), st)
  }

  ghost predicate MadeAndQueued(labels: seq<Label>, made: seq<Logged>, st: System) {
    && Sends(labels) <= |made| && st.outbox == made[Sends(labels)..]
    && st.history == Queued(labels, made)
    && DataOf(st.history) + st.outbox == made
    && forall i :: 0 <= i < |made| ==> made[i].input.Data?
  }

  /** The dispatcher has processed the front of the queue, each input with the timeouts of its round. */
  ghost predicate Dispatched(labels: seq<Label>, st: System) {
    var rounds := Rounds(labels);
    && |st.log| == |rounds| <= |st.history|
    && (forall i :: 0 <= i < |rounds| ==> st.log[i] == Event(st.history[i].input, rounds[i]))
    && |st.source| == |st.history| - |rounds|
    && forall i :: 0 <= i < |st.source| ==> st.source[i] == st.history[|rounds| + i].input
  }

  /** A label with what the functions above make of it. */
  lemma LabelSnoc(labels: seq<Label>, l: Label, made: seq<Logged>)
    ensures var more := labels + [l];
      && Requests(more) == Requests(labels) + (match l case Produce(msg) => [Append(msg)] case Request(s) => [SnapshotFor(s)] case _ => [])
      && Turns(more) == Turns(labels) + (if l.CacheLoop? then [l.order] else [])
      && Sends(more) == Sends(labels) + (if l.Send? then 1 else 0)
      && Rounds(more) == Rounds(labels) + (if l.Dispatch? then [l.timeouts] else [])
      && Queued(more, made) == Queued(labels, made) +
           match l
           case Retrieve(s) => [Logged(Register(s), None)]
           case Stop(s) => [Logged(Shutdown(s), None)]
           case Send => if Sends(labels) < |made| then [made[Sends(labels)]] else []
           case _ => []
  {
    assert (labels + [l])[..|labels|] == labels;
  }

  lemma FoldSnoc(depth: nat, b: Book, reqs: seq<Request>, orders: seq<seq<Price>>, req: Request, order: seq<Price>)
    requires |orders| == |reqs|
    ensures var c := BookAfter(b, reqs, orders);
      && BookAfter(b, reqs + [req], orders + [order]) ==
           (if req.Append? && Handles(c, req.msg, order) then NextBook(c, req.msg, order) else c)
      && Made(depth, b, reqs + [req], orders + [order]) == Made(depth, b, reqs, orders) + MadeBy(depth, c, req, order)
      && (AllHandled(b, reqs + [req], orders + [order]) <==>
            AllHandled(b, reqs, orders) && (req.Append? ==> Handles(c, req.msg, order) && Consistent(c, req.msg)))
  {
    assert (reqs + [req])[..|reqs|] == reqs && (orders + [order])[..|orders|] == orders;
  }

  lemma EnqueuedDispatched(labels: seq<Label>, l: Label, st: System, h: Logged)
    requires Dispatched(labels, st) && Rounds(labels + [l]) == Rounds(labels)
    ensures Dispatched(labels + [l], Enqueue(st, h))
  {
  }

  lemma DispatchStep(labels: seq<Label>, st: System, timeouts: set<Session>, depth: nat)
    requires Dispatched(labels, st) && st.source != [] && Rounds(labels + [Dispatch(timeouts)]) == Rounds(labels) + [timeouts]
    ensures Dispatched(labels + [Dispatch(timeouts)], Next(depth, st, Dispatch(timeouts)))
  {
  }

  /** A registration or a shutdown goes on the queue. */
  lemma BreakpointQueued(labels: seq<Label>, l: Label, made: seq<Logged>, st: System, h: Logged)
    requires MadeAndQueued(labels, made, st) && !h.input.Data?
    requires Queued(labels + [l], made) == Queued(labels, made) + [h] && Sends(labels + [l]) == Sends(labels)
    ensures MadeAndQueued(labels + [l], made, Enqueue(st, h))
  {
    DataSnoc(st.history, h);
  }

  lemma SendQueued(labels: seq<Label>, made: seq<Logged>, st: System)
    requires MadeAndQueued(labels, made, st) && st.outbox != []
    ensures MadeAndQueued(labels + [Send], made, Forward(st))
  {
    LabelSnoc(labels, Send, made);
    var h := st.outbox[0];
    assert h == made[Sends(labels)];
    DataSnoc(st.history, h);
    assert DataOf(st.history) + [h] + st.outbox[1..] == DataOf(st.history) + st.outbox;
    assert made[Sends(labels)..][1..] == made[Sends(labels) + 1..];
  }

  /** A turn of the cache loop, which finds the outbox empty. */
  lemma LoopQueued(labels: seq<Label>, l: Label, made: seq<Logged>, more: seq<Logged>, st: System, next: System)
    requires MadeAndQueued(labels, made, st) && st.outbox == [] && l.CacheLoop?
    requires next.history == st.history && next.outbox == more && forall i :: 0 <= i < |more| ==> more[i].input.Data?
    ensures MadeAndQueued(labels + [l], made + more, next)
  {
    LabelSnoc(labels, l, made + more);
    QueuedMore(labels, made, more);
    assert Sends(labels) == |made|;
    assert (made + more)[|made|..] == more;
    assert DataOf(st.history) + [] == DataOf(st.history);
  }

  lemma OtherQueued(labels: seq<Label>, l: Label, made: seq<Logged>, st: System, next: System)
    requires MadeAndQueued(labels, made, st) && (l.Produce? || l.Request? || l.Dispatch?)
    requires next.history == st.history && next.outbox == st.outbox
    ensures MadeAndQueued(labels + [l], made, next)
  {
    LabelSnoc(labels, l, made);
  }

  lemma MadeIsOutbox(depth: nat, st: System, order: seq<Price>)
    requires Enabled(depth, st, CacheLoop(order))
    ensures Next(depth, st, CacheLoop(order)).outbox == MadeBy(depth, st.book, st.pipeline[0], order)
    ensures forall i :: 0 <= i < |MadeBy(depth, st.book, st.pipeline[0], order)| ==>
      MadeBy(depth, st.book, st.pipeline[0], order)[i].input.Data?
  {
  }

  lemma TakeNext(reqs: seq<Request>, k: nat)
    requires k <= |reqs| && reqs[k..] != []
    ensures k < |reqs| && reqs[k] == reqs[k..][0] && reqs[..k + 1] == reqs[..k] + [reqs[k]] && reqs[k + 1..] == reqs[k..][1..]
  {
  }

  lemma LoopNext(depth: nat, st: System, order: seq<Price>)
    requires Enabled(depth, st, CacheLoop(order))
    ensures var next, req := Next(depth, st, CacheLoop(order)), st.pipeline[0];
      && next.pipeline == st.pipeline[1..]
      && (req.Append? ==> Handles(st.book, req.msg, order) && Consistent(st.book, req.msg))
      && next.book == if req.Append? then NextBook(st.book, req.msg, order) else st.book
  {
  }

  lemma LoopHandled(depth: nat, b: Book, reqs: seq<Request>, orders: seq<seq<Price>>, st: System, order: seq<Price>)
    requires HandledSoFar(b, reqs, orders, st) && Enabled(depth, st, CacheLoop(order))
    ensures HandledSoFar(b, reqs, orders + [order], Next(depth, st, CacheLoop(order)))
    ensures |orders| < |reqs| && Made(depth, b, reqs[..|orders| + 1], orders + [order]) ==
      Made(depth, b, reqs[..|orders|], orders) + MadeBy(depth, st.book, st.pipeline[0], order)
  {
    var k := |orders|;
    TakeNext(reqs, k);
    LoopNext(depth, st, order);
    FoldSnoc(depth, b, reqs[..k], orders, reqs[k], order);
  }

  lemma SameDispatched(labels: seq<Label>, l: Label, st: System, next: System)
    requires Dispatched(labels, st) && Rounds(labels + [l]) == Rounds(labels)
    requires next.log == st.log && next.source == st.source && next.history == st.history
    ensures Dispatched(labels + [l], next)
  {
  }

  lemma LoopTraced(depth: nat, b: Book, labels: seq<Label>, st: System, order: seq<Price>)
    requires Traced(depth, b, labels, st) && Enabled(depth, st, CacheLoop(order))
    ensures Traced(depth, b, labels + [CacheLoop(order)], Next(depth, st, CacheLoop(order)))
  {
    var reqs, orders, l, next := Requests(labels), Turns(labels), CacheLoop(order), Next(depth, st, CacheLoop(order));
    var made := Made(depth, b, reqs[..|orders|], orders);
    LabelSnoc(labels, l, made);
    LoopHandled(depth, b, reqs, orders, st, order);
    SameDispatched(labels, l, st, next);
    MadeIsOutbox(depth, st, order);
    LoopQueued(labels, l, made, MadeBy(depth, st.book, st.pipeline[0], order), st, next);
  }

  lemma RequestTraced(depth: nat, b: Book, labels: seq<Label>, l: Label, st: System)
    requires Traced(depth, b, labels, st) && Enabled(depth, st, l) && (l.Produce? || l.Request?)
    ensures Traced(depth, b, labels + [l], Next(depth, st, l))
  {
    var reqs, k, next := Requests(labels), |Turns(labels)|, Next(depth, st, l);
    var made := Made(depth, b, reqs[..k], Turns(labels));
    var req := if l.Produce? then Append(l.msg) else SnapshotFor(l.session);
    LabelSnoc(labels, l, made);
    OneMoreRequest(reqs, req, k);
    SameDispatched(labels, l, st, next);
    OtherQueued(labels, l, made, st, next);
  }

  lemma OneMoreRequest(reqs: seq<Request>, req: Request, k: nat)
    requires k <= |reqs|
    ensures (reqs + [req])[..k] == reqs[..k] && (reqs + [req])[k..] == reqs[k..] + [req]
  {
  }

  /** A label that is no request and no turn of the cache loop. */
  lemma QueueTraced(depth: nat, b: Book, labels: seq<Label>, l: Label, st: System, next: System)
    requires Traced(depth, b, labels, st) && !l.Produce? && !l.Request? && !l.CacheLoop?
    requires next.pipeline == st.pipeline && next.book == st.book && Dispatched(labels + [l], next)
    requires MadeAndQueued(labels + [l], Made(depth, b, Requests(labels)[..|Turns(labels)|], Turns(labels)), next)
    ensures Traced(depth, b, labels + [l], next)
  {
    LabelSnoc(labels, l, []);
  }

  lemma BreakpointTraced(depth: nat, b: Book, labels: seq<Label>, l: Label, st: System, h: Logged)
    requires Traced(depth, b, labels, st) && Enabled(depth, st, l) && (l.Retrieve? || l.Stop?)
    requires h == Logged(if l.Retrieve? then Register(l.session) else Shutdown(l.session), None)
    ensures Traced(depth, b, labels + [l], Next(depth, st, l))
  {
    var made := Made(depth, b, Requests(labels)[..|Turns(labels)|], Turns(labels));
    LabelSnoc(labels, l, made);
    EnqueuedDispatched(labels, l, st, h);
    BreakpointQueued(labels, l, made, st, h);
    QueueTraced(depth, b, labels, l, st, Enqueue(st, h));
  }

  lemma SendTraced(depth: nat, b: Book, labels: seq<Label>, st: System)
    requires Traced(depth, b, labels, st) && Enabled(depth, st, Send)
    ensures Traced(depth, b, labels + [Send], Next(depth, st, Send))
  {
    var made := Made(depth, b, Requests(labels)[..|Turns(labels)|], Turns(labels));
    LabelSnoc(labels, Send, made);
    EnqueuedDispatched(labels, Send, st, st.outbox[0]);
    SendQueued(labels, made, st);
    QueueTraced(depth, b, labels, Send, st, Forward(st));
  }

  lemma DispatchTraced(depth: nat, b: Book, labels: seq<Label>, st: System, timeouts: set<Session>)
    requires Traced(depth, b, labels, st) && Enabled(depth, st, Dispatch(timeouts))
    ensures Traced(depth, b, labels + [Dispatch(timeouts)], Next(depth, st, Dispatch(timeouts)))
  {
    var l, next := Dispatch(timeouts), Next(depth, st, Dispatch(timeouts));
    var made := Made(depth, b, Requests(labels)[..|Turns(labels)|], Turns(labels));
    LabelSnoc(labels, l, made);
    DispatchStep(labels, st, timeouts, depth);
    OtherQueued(labels, l, made, st, next);
    QueueTraced(depth, b, labels, l, st, next);
  }

  lemma StepTraced(depth: nat, b: Book, labels: seq<Label>, l: Label, st: System)
    requires Traced(depth, b, labels, st) && Enabled(depth, st, l)
    ensures Traced(depth, b, labels + [l], Next(depth, st, l))
  {
    match l
    case CacheLoop(order) => LoopTraced(depth, b, labels, st, order);
    case Retrieve(s) => BreakpointTraced(depth, b, labels, l, st, Logged(Register(s), None));
    case Stop(s) => BreakpointTraced(depth, b, labels, l, st, Logged(Shutdown(s), None));
    case Send => SendTraced(depth, b, labels, st);
    case Dispatch(timeouts) => DispatchTraced(depth, b, labels, st, timeouts);
    case _ => RequestTraced(depth, b, labels, l, st);
  }

  lemma StartTraced(depth: nat, b: Book)
    ensures Traced(depth, b, [], Start(b))
  {
  }

  /** Over every interleaving: the cache handles the requests in the order in which they were made, the book
      is the result of the inputs handled, and what was queued, with what is still to be queued, is exactly
      what they make, in order. */
  lemma {:induction false} RunTraced(depth: nat, b: Book, labels: seq<Label>)
    requires After(depth, b, labels).Some?
    ensures Traced(depth, b, labels, After(depth, b, labels).value)
    decreases |labels|
  {
    if labels == [] {
      StartTraced(depth, b);
    } else {
      var front, l := labels[..|labels| - 1], labels[|labels| - 1];
      RunTraced(depth, b, front);
      StepTraced(depth, b, front, l, After(depth, b, front).value);
      SameRun(depth, b, front, l, labels);
    }
  }

  lemma SameRun(depth: nat, b: Book, front: seq<Label>, l: Label, labels: seq<Label>)
    requires labels != [] && front == labels[..|labels| - 1] && l == labels[|labels| - 1] && After(depth, b, labels).Some?
    ensures front + [l] == labels && After(depth, b, front).Some? && Enabled(depth, After(depth, b, front).value, l)
    ensures After(depth, b, labels).value == Next(depth, After(depth, b, front).value, l)
  {
  }

  // ---------------------------------------------------------------- draining

  /** From every state that a run reaches, sends and dispatches alone lead on to one in which nothing is on its
      way any more. */
  lemma {:induction false} Drain(depth: nat, b: Book, labels: seq<Label>) returns (more: seq<Label>)
    requires After(depth, b, labels).Some?
    ensures forall i :: 0 <= i < |more| ==> more[i] == Send || more[i] == Dispatch({})
    ensures After(depth, b, labels + more).Some?
    ensures var st, now := After(depth, b, labels).value, After(depth, b, labels + more).value;
      now.outbox == [] && now.source == [] && now.book == st.book && now.pipeline == st.pipeline
    decreases |After(depth, b, labels).value.outbox|, |After(depth, b, labels).value.source|
  {
    var st := After(depth, b, labels).value;
    if st.outbox == [] && st.source == [] {
      assert labels + [] == labels;
      return [];
    }
    var l := if st.outbox != [] then Send else Dispatch({});
    AfterOne(depth, b, labels, l);
    var rest := Drain(depth, b, labels + [l]);
    more := [l] + rest;
    assert labels + more == labels + [l] + rest;
  }

  lemma {:induction false} QuietMore(labels: seq<Label>, more: seq<Label>)
    requires forall i :: 0 <= i < |more| ==> more[i] == Send || more[i] == Dispatch({})
    ensures Requests(labels + more) == Requests(labels) && Turns(labels + more) == Turns(labels)
    decreases |more|
  {
    if more == [] {
      assert labels + more == labels;
    } else {
      var front, l := more[..|more| - 1], more[|more| - 1];
      QuietMore(labels, front);
      LabelSnoc(labels + front, l, []);
      assert labels + front + [l] == labels + more;
    }
  }

  /** With nothing waiting, an input can be made and handled. */
  lemma OneMoreInput(depth: nat, b: Book, labels: seq<Label>, msg: Message, order: seq<Price>) returns (more: seq<Label>)
    requires After(depth, b, labels).Some? && |Turns(labels)| == |Requests(labels)|
    requires After(depth, b, labels).value.outbox == []
    requires var c := BookAfter(b, Requests(labels), Turns(labels)); Handles(c, msg, order) && Consistent(c, msg)
    ensures After(depth, b, more).Some?
    ensures Requests(more) == Requests(labels) + [Append(msg)] && Turns(more) == Turns(labels) + [order]
  {
    var st := After(depth, b, labels).value;
    RunTraced(depth, b, labels);
    assert Requests(labels)[..|Turns(labels)|] == Requests(labels);
    LabelSnoc(labels, Produce(msg), []);
    LabelSnoc(labels + [Produce(msg)], CacheLoop(order), []);
    AfterOne(depth, b, labels, Produce(msg));
    AfterOne(depth, b, labels + [Produce(msg)], CacheLoop(order));
    more := labels + [Produce(msg)] + [CacheLoop(order)];
  }

  /** And all that it makes can be delivered. */
  lemma ServeOne(depth: nat, b: Book, labels: seq<Label>, msg: Message, order: seq<Price>) returns (served: seq<Label>)
    requires After(depth, b, labels).Some? && |Turns(labels)| == |Requests(labels)|
    requires After(depth, b, labels).value.outbox == []
    requires var c := BookAfter(b, Requests(labels), Turns(labels)); Handles(c, msg, order) && Consistent(c, msg)
    ensures Requests(served) == Requests(labels) + [Append(msg)] && Turns(served) == Turns(labels) + [order]
    ensures After(depth, b, served).Some?
    ensures After(depth, b, served).value.outbox == [] && After(depth, b, served).value.source == []
  {
    var handled := OneMoreInput(depth, b, labels, msg, order);
    var more := Drain(depth, b, handled);
    QuietMore(handled, more);
    served := handled + more;
  }

  lemma LastHandled(b: Book, reqs: seq<Request>, orders: seq<seq<Price>>, n: nat)
    requires |orders| == |reqs| == n + 1 && AllHandled(b, reqs, orders) && reqs[n].Append?
    ensures AllHandled(b, reqs[..n], orders[..n])
    ensures var c := BookAfter(b, reqs[..n], orders[..n]); Handles(c, reqs[n].msg, orders[n]) && Consistent(c, reqs[n].msg)
    ensures reqs == reqs[..n] + [Append(reqs[n].msg)] && orders == orders[..n] + [orders[n]]
  {
  }

  /** Every list of inputs that can be handled one after the other is handled by some run, which leaves
      nothing on its way. */
  lemma {:induction false} Realised(depth: nat, b: Book, reqs: seq<Request>, orders: seq<seq<Price>>) returns (labels: seq<Label>)
    requires |orders| == |reqs| && AllHandled(b, reqs, orders) && forall i :: 0 <= i < |reqs| ==> reqs[i].Append?
    ensures After(depth, b, labels).Some? && Requests(labels) == reqs && Turns(labels) == orders
    ensures After(depth, b, labels).value.outbox == [] && After(depth, b, labels).value.source == []
    decreases |reqs|
  {
    if reqs == [] {
      return [];
    }
    var n := |reqs| - 1;
    LastHandled(b, reqs, orders, n);
    var front := Realised(depth, b, reqs[..n], orders[..n]);
    labels := ServeOne(depth, b, front, reqs[n].msg, orders[n]);
  }
}
