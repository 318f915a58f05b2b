/** rspChannel of utils/channel.go: one queue of inputs, one dispatcher.  Breakpoints in the queue add
    and remove destinations, so that a session's place in the stream is fixed by the queue. */
module Channels {
  import opened OrderBooks
  import opened Wrappers

  /** A session id; RetriveData draws a new one on every call. */
  type Session = nat

  /** A ChannelInput: data for every destination or for one, or one of the two breakpoints. */
  datatype Input = Data(dst: Option<Session>, rsp: Message) | Register(session: Session) | Shutdown(session: Session)

  /** What the dispatcher keeps: the destinations, what each session's queue has been sent, and the
      queues that are closed. */
  datatype Dispatcher = Dispatcher(destinations: set<Session>, delivered: map<Session, seq<Message>>, closed: set<Session>)
  {
    function Got(s: Session): seq<Message> {
      if s in delivered then delivered[s] else []
    }
  }

  const START := Dispatcher({}, map[], {})

  /** One processed input, with the sessions whose write would time out. */
  datatype Event = Event(input: Input, timeouts: set<Session>)

  predicate Addressed(input: Input, s: Session) {
    input.Data? && (input.dst.None? || input.dst.value == s)
  }

  /** The dispatcher's step: a destination that times out is closed and removed, and does not get the
      message. */
  function Step(d: Dispatcher, ev: Event): Dispatcher {
    match ev.input
    case Register(s) => d.(destinations := d.destinations + {s}, delivered := d.delivered[s := []])
    case Shutdown(s) =>
      if s in d.destinations then d.(destinations := d.destinations - {s}, closed := d.closed + {s}) else d
    case Data(dst, rsp) =>
      var dropped := set s | s in d.destinations && Addressed(ev.input, s) && s in ev.timeouts;
      Dispatcher(
        d.destinations - dropped,
        map s | s in d.delivered ::
          if s in d.destinations && Addressed(ev.input, s) && s !in dropped then d.delivered[s] + [rsp] else d.delivered[s],
        d.closed + dropped)
  }

  function Run(log: seq<Event>): Dispatcher
    decreases |log|
  {
    if log == [] then START else Step(Run(log[..|log| - 1]), log[|log| - 1])
  }

  // ---------------------------------------------------------------- what a session should get

  /** The input ends the session's registration: it shuts the session down, or the write to it times out. */
  predicate Ends(ev: Event, s: Session) {
    ev.input == Shutdown(s) || (Addressed(ev.input, s) && s in ev.timeouts)
  }

  ghost predicate RegisteredAt(log: seq<Event>, s: Session, j: int) {
    0 <= j < |log| && log[j].input == Register(s) && forall k :: j < k < |log| ==> !Ends(log[k], s)
  }

  /** The session's registration breakpoint has been processed, and nothing has ended it since. */
  ghost predicate Registered(log: seq<Event>, s: Session) {
    exists j :: RegisteredAt(log, s, j)
  }

  /** The session's registration breakpoint has been processed. */
  ghost predicate Joined(log: seq<Event>, s: Session) {
    exists j :: 0 <= j < |log| && log[j].input == Register(s)
  }

  /** Session ids are fresh: no session registers twice. */
  ghost predicate FreshSessions(log: seq<Event>) {
    forall i, j :: 0 <= i < j < |log| && log[i].input.Register? ==> log[i].input != log[j].input
  }

  /** The places in the log of the messages that a session gets: those addressed to it or to all, while
      it is registered. */
  ghost function Places(log: seq<Event>, s: Session): seq<nat>
    decreases |log|
  {
    if log == [] then [] else
    var front, last := log[..|log| - 1], log[|log| - 1];
    if Registered(front, s) && Addressed(last.input, s) && s !in last.timeouts then Places(front, s) + [|front|]
    else Places(front, s)
  }

  /** A session gets each message at most once, and in order. */
  lemma {:induction false} PlacesInLog(log: seq<Event>, s: Session)
    ensures forall i :: 0 <= i < |Places(log, s)| ==>
      Places(log, s)[i] < |log| && log[Places(log, s)[i]].input.Data?
    ensures forall i, j :: 0 <= i < j < |Places(log, s)| ==> Places(log, s)[i] < Places(log, s)[j]
    decreases |log|
  {
    if log != [] {
      PlacesInLog(log[..|log| - 1], s);
    }
  }

  lemma RegisteredSnoc(log: seq<Event>, s: Session)
    requires log != []
    ensures var front, last := log[..|log| - 1], log[|log| - 1];
      Registered(log, s) <==> last.input == Register(s) || (Registered(front, s) && !Ends(last, s))
  {
    var front, last := log[..|log| - 1], log[|log| - 1];
    if last.input == Register(s) {
      assert RegisteredAt(log, s, |log| - 1);
    } else {
      if Registered(front, s) && !Ends(last, s) {
        var j :| RegisteredAt(front, s, j);
        assert RegisteredAt(log, s, j);
      }
      if Registered(log, s) {
        var j :| RegisteredAt(log, s, j);
        assert j < |front| && RegisteredAt(front, s, j);
      }
    }
  }

  lemma JoinedSnoc(log: seq<Event>, last: Event, s: Session)
    ensures Joined(log + [last], s) <==> Joined(log, s) || last.input == Register(s)
  {
    var more := log + [last];
    if Joined(log, s) {
      var j :| 0 <= j < |log| && log[j].input == Register(s);
      assert more[j] == log[j];
    }
    assert more[|log|] == last;
  }

  /** A session that never registered has nothing. */
  lemma {:induction false} BeforeRegistration(log: seq<Event>, s: Session)
    requires forall i :: 0 <= i < |log| ==> log[i].input != Register(s)
    ensures s !in Run(log).delivered && s !in Run(log).destinations && s !in Run(log).closed && Places(log, s) == []
    decreases |log|
  {
    if log != [] {
      BeforeRegistration(log[..|log| - 1], s);
      assert !Registered(log[..|log| - 1], s);
    }
  }

  predicate Delivers(ev: Event, s: Session) {
    Addressed(ev.input, s) && s !in ev.timeouts
  }

  /** What a step does, seen from one session. */
  lemma StepFor(d: Dispatcher, ev: Event, s: Session)
    ensures var e := Step(d, ev);
      && (s in e.destinations <==> ev.input == Register(s) || (s in d.destinations && !Ends(ev, s)))
      && (s in e.closed <==> s in d.closed || (s in d.destinations && Ends(ev, s)))
      && (s in e.delivered <==> s in d.delivered || ev.input == Register(s))
    ensures s in d.destinations && s in d.delivered && Delivers(ev, s) ==> Step(d, ev).Got(s) == d.Got(s) + [ev.input.rsp]
    ensures !(s in d.destinations && Delivers(ev, s)) && ev.input != Register(s) ==> Step(d, ev).Got(s) == d.Got(s)
    ensures ev.input == Register(s) ==> Step(d, ev).Got(s) == []
  {
  }

  /** A dispatcher is as the log says, for one session. */
  ghost predicate SentAsLogged(d: Dispatcher, log: seq<Event>, s: Session) {
    var places := Places(log, s);
    && (s in d.destinations <==> Registered(log, s))
    && (s in d.destinations ==> s in d.delivered)
    && (s in d.closed <==> Joined(log, s) && !Registered(log, s))
    && |d.Got(s)| == |places|
    && forall i :: 0 <= i < |places| ==>
         places[i] < |log| && log[places[i]].input.Data? && d.Got(s)[i] == log[places[i]].input.rsp
  }

  lemma SentOneMore(d: Dispatcher, front: seq<Event>, last: Event, s: Session)
    requires SentAsLogged(d, front, s)
    requires last.input == Register(s) ==> s !in d.closed && Places(front, s) == []
    ensures SentAsLogged(Step(d, last), front + [last], s)
  {
    var log := front + [last];
    assert log[..|log| - 1] == front;
    RegisteredSnoc(log, s);
    JoinedSnoc(front, last, s);
    StepFor(d, last, s);
    if Registered(front, s) {
      var j :| RegisteredAt(front, s, j);
      assert front[j].input == Register(s);
    }
  }

  /** In every reachable state a session has been sent exactly the messages at its places, in order;
      the destinations are the registered sessions, and the closed queues are those of the sessions that
      have registered and are registered no more. */
  lemma {:induction false} Delivery(log: seq<Event>, s: Session)
    requires FreshSessions(log)
    ensures SentAsLogged(Run(log), log, s)
    decreases |log|
  {
    if log != [] {
      var front, last := log[..|log| - 1], log[|log| - 1];
      Delivery(front, s);
      if last.input == Register(s) {
        BeforeRegistration(front, s);
      }
      SentOneMore(Run(front), front, last, s);
      assert front + [last] == log;
    }
  }

  /** One event adds its message to what a registered session got, or adds nothing. */
  lemma DeliveryStep(front: seq<Event>, last: Event, s: Session)
    requires FreshSessions(front + [last])
    ensures var log := front + [last];
      if Registered(front, s) && Delivers(last, s) then
        Places(log, s) == Places(front, s) + [|front|] && Run(log).Got(s) == Run(front).Got(s) + [last.input.rsp]
      else
        Places(log, s) == Places(front, s) && Run(log).Got(s) == Run(front).Got(s)
    ensures |Run(front).Got(s)| == |Places(front, s)|
    ensures Registered(front + [last], s) ==>
      if last.input == Register(s) then Places(front, s) == [] else Registered(front, s) && (Addressed(last.input, s) ==> Delivers(last, s))
  {
    var log := front + [last];
    assert log[..|log| - 1] == front;
    assert FreshSessions(front) by {
      assert forall i :: 0 <= i < |front| ==> front[i] == log[i];
    }
    Delivery(front, s);
    RegisteredSnoc(log, s);
    if last.input == Register(s) {
      assert forall i :: 0 <= i < |front| ==> front[i] == log[i];
      BeforeRegistration(front, s);
    }
  }

  // ---------------------------------------------------------------- the class

  class RspChannel {
    var source: seq<Input>
    var destinations: set<Session>
    var delivered: map<Session, seq<Message>>
    var closed: set<Session>
    var nextSession: Session
    var isClosed: bool

    function State(): Dispatcher
      reads this
    {
      Dispatcher(destinations, delivered, closed)
    }

    /** No destination is closed: a send on a closed queue would panic.  Every session that is known
        was drawn before. */
    ghost predicate Valid()
      reads this
    {
      && destinations !! closed && destinations + closed <= delivered.Keys
      && (forall s :: s in delivered ==> s < nextSession)
      && (forall i :: 0 <= i < |source| && source[i].Register? ==> source[i].session < nextSession && source[i].session !in delivered)
      && (forall i, j :: 0 <= i < j < |source| && source[i].Register? ==> source[i] != source[j])
    }

    constructor ()
      ensures Valid() && State() == START && source == [] && !isClosed
    {
      source, destinations, delivered, closed := [], {}, map[], {};
      nextSession, isClosed := 0, false;
    }

    method PublishData(rsp: Message) returns (ok: bool)
      requires Valid()
      modifies `source
      ensures Valid() && ok == !isClosed
      ensures source == if ok then old(source) + [Data(None, rsp)] else old(source)
    {
      if isClosed {
        return false;
      }
      source := source + [Data(None, rsp)];
      return true;
    }

    method PublishDataToDestination(rsp: Message, session: Session) returns (ok: bool)
      requires Valid()
      modifies `source
      ensures Valid() && ok == !isClosed
      ensures source == if ok then old(source) + [Data(Some(session), rsp)] else old(source)
    {
      if isClosed {
        return false;
      }
      source := source + [Data(Some(session), rsp)];
      return true;
    }

    method RetriveData() returns (session: Option<Session>)
      requires Valid()
      modifies `source, `nextSession
      ensures Valid() && session.Some? == !isClosed
      ensures session.Some? ==> session.value !in delivered && source == old(source) + [Register(session.value)]
      ensures session.None? ==> source == old(source)
    {
      if isClosed {
        return None;
      }
      var s := nextSession;
      nextSession := nextSession + 1;
      source := source + [Register(s)];
      return Some(s);
    }

    method ShutdownRetrive(session: Session)
      requires Valid()
      modifies `source
      ensures Valid()
      ensures source == if isClosed then old(source) else old(source) + [Shutdown(session)]
    {
      if !isClosed {
        source := source + [Shutdown(session)];
      }
    }

    /** One round of the dispatcher loop; `timeouts` are the sessions whose queue stays full.  `found` is what
        a shutdown answers to its caller: whether the session was a destination. */
    method DispatchNext(timeouts: set<Session>) returns (found: bool)
      requires Valid() && source != []
      modifies `source, `destinations, `delivered, `closed
      ensures Valid() && source == old(source)[1..]
      ensures State() == Step(old(State()), Event(old(source)[0], timeouts))
      ensures old(source)[0].Shutdown? ==> found == (old(source)[0].session in old(destinations))
    {
      var input := source[0];
      found := true;
      assert forall i :: 0 < i < |source| ==> source[i] == source[1..][i - 1];
      source := source[1..];
      match input {
        case Register(s) =>
          destinations := destinations + {s};
          delivered := delivered[s := []];
        case Shutdown(s) =>
          if s in destinations {
            destinations := destinations - {s};
            closed := closed + {s};
          } else {
            found := false;
          }
        case Data(_, _) =>
          DispatchDestinations(input, timeouts);
      }
    }

    /** dispatchDistinations: the destinations in any order; those that time out are closed at once and
        removed from the map after the loop. */
    method DispatchDestinations(input: Input, timeouts: set<Session>)
      requires Valid() && input.Data?
      modifies `destinations, `delivered, `closed
      ensures Valid() && State() == Step(old(State()), Event(input, timeouts))
    {
      var addressed := if input.dst.None? then destinations else destinations * {input.dst.value};
      SendAll(addressed, input.rsp, timeouts);
      destinations := destinations - addressed * timeouts;
      ghost var next := Step(old(State()), Event(input, timeouts));
      assert destinations == next.destinations && closed == next.closed && delivered == next.delivered;
    }

    method SendAll(addressed: set<Session>, rsp: Message, timeouts: set<Session>)
      requires addressed <= delivered.Keys && addressed !! closed
      modifies `delivered, `closed
      ensures delivered.Keys == old(delivered).Keys && closed == old(closed) + addressed * timeouts
      ensures forall s :: s in delivered ==>
        delivered[s] == if s in addressed && s !in timeouts then old(delivered)[s] + [rsp] else old(delivered)[s]
    {
      var rest := addressed;
      while rest != {}
        invariant rest <= addressed && delivered.Keys == old(delivered).Keys
        invariant closed == old(closed) + (addressed - rest) * timeouts
        invariant forall s :: s in delivered ==>
          delivered[s] == if s in addressed - rest && s !in timeouts then old(delivered)[s] + [rsp] else old(delivered)[s]
      {
        ghost var some := Member(rest);
        var s :| s in rest;
        if s in timeouts {
          closed := closed + {s};
        } else {
          Send(s, rsp);
        }
        rest := rest - {s};
      }
    }

    method Send(s: Session, rsp: Message)
      requires s in delivered && s !in closed
      modifies `delivered
      ensures delivered == old(delivered)[s := old(delivered)[s] + [rsp]]
    {
      delivered := delivered[s := delivered[s] + [rsp]];
    }
  }
}
