/** The heartbeat between a client and a session of the server.  In the normal mode the client pings and
    the session replies; in the reverse mode the session pings and the client replies.  Either side
    counts pings up and pongs down, and closes when the count reaches its limit or goes below zero. */
module Heartbeats {
  import opened Wrappers

  datatype Beat = Ping | Pong | Other(value: int)
  {
    function Value(): int {
      match this
      case Ping => 1
      case Pong => -1
      case Other(v) => v
    }
  }

  datatype Status = Open | SendFailed | Mismatch

  /** The state of one loop: whether it is the side that pings, its fail limit, and its counter. */
  datatype Party = Party(pings: bool, limit: int, counter: int, status: Status)

  function NewParty(pings: bool, limit: int): Party {
    Party(pings, limit, 0, Open)
  }

  /** The client pings in the normal mode, the session in the reverse mode. */
  predicate ClientPings(reverse: bool) { !reverse }

  predicate ServerPings(reverse: bool) { reverse }

  /** One heartbeat: what the party becomes and what it sends.  `written` says whether the write, if
      there is one, succeeds. */
  function Handled(p: Party, hb: Beat, written: bool): (Party, seq<Beat>) {
    match hb
    case Other(_) => (p, [])
    case Ping =>
      if !written then (p.(status := SendFailed), [])
      else if p.pings then (Checked(p.(counter := p.counter + 1)), [Ping])
      else (Checked(p), [Pong])
    case Pong => (Checked(p.(counter := p.counter - 1)), [])
  }

  function Checked(p: Party): Party {
    if p.counter >= p.limit || p.counter < 0 then p.(status := Mismatch) else p
  }

  /** All the heartbeats of a queue, up to the one that closes the party. */
  function HandledAll(p: Party, beats: seq<Beat>, writes: seq<bool>): (Party, seq<Beat>)
    requires |writes| == |beats|
    decreases |beats|
  {
    if beats == [] then (p, []) else
    var n := |beats| - 1;
    var (q, out) := HandledAll(p, beats[..n], writes[..n]);
    if !q.status.Open? then (q, out) else
    var (r, more) := Handled(q, beats[n], writes[n]);
    (r, out + more)
  }

  lemma {:induction false} ClosedStays(p: Party, beats: seq<Beat>, writes: seq<bool>, n: nat)
    requires |writes| == |beats| && n <= |beats|
    requires !HandledAll(p, beats[..n], writes[..n]).0.status.Open?
    ensures HandledAll(p, beats, writes) == HandledAll(p, beats[..n], writes[..n])
    decreases |beats|
  {
    if n == |beats| {
      assert beats[..n] == beats && writes[..n] == writes;
    } else {
      var m := |beats| - 1;
      assert beats[..m][..n] == beats[..n] && writes[..m][..n] == writes[..n];
      ClosedStays(p, beats[..m], writes[..m], n);
    }
  }

  // ---------------------------------------------------------------- the loop

  /** heartbeatHandler of the client and heartbeatLoop of the session. */
  class HeartbeatLoop {
    const pings: bool
    const limit: int
    var counter: int
    var status: Status

    function State(): Party
      reads this
    {
      Party(pings, limit, counter, status)
    }

    constructor (pings: bool, limit: int)
      ensures State() == NewParty(pings, limit)
    {
      this.pings, this.limit, counter, status := pings, limit, 0, Open;
    }

    method Close(reason: Status)
      requires !reason.Open?
      modifies `status
      ensures status == reason
    {
      status := reason;
    }

    method Handle(hb: Beat, written: bool) returns (out: seq<Beat>)
      requires status.Open?
      modifies this
      ensures (State(), out) == Handled(old(State()), hb, written)
      ensures hb.Other? ==> out == [] && State() == old(State())
      ensures hb.Ping? && !written ==> out == [] && status == SendFailed && counter == old(counter)
      ensures hb.Ping? && written ==> out == [if pings then Ping else Pong] && counter == old(counter) + if pings then 1 else 0
      ensures hb.Pong? ==> out == [] && counter == old(counter) - 1
      ensures hb.Pong? || (hb.Ping? && written) ==> status == if 0 <= counter < limit then Open else Mismatch
    {
      out := [];
      match hb {
        case Ping =>
          if pings {
            if !written {
              Close(SendFailed);
              return;
            }
            out := [Ping];
            counter := counter + hb.Value();
          } else {
            if !written {
              Close(SendFailed);
              return;
            }
            out := [Pong];
          }
        case Pong =>
          counter := counter + hb.Value();
        case _ =>
          return;
      }
      if counter >= limit || counter < 0 {
        Close(Mismatch);
      }
    }

    /** The loop over the queue, which ends when the party closes. */
    method Run(beats: seq<Beat>, writes: seq<bool>) returns (out: seq<Beat>)
      requires status.Open? && |writes| == |beats|
      modifies this
      ensures (State(), out) == HandledAll(old(State()), beats, writes)
    {
      ghost var p := State();
      out := [];
      for i := 0 to |beats|
        invariant status.Open? && (State(), out) == HandledAll(p, beats[..i], writes[..i])
      {
        assert beats[..i + 1][..i] == beats[..i] && writes[..i + 1][..i] == writes[..i];
        var more := Handle(beats[i], writes[i]);
        out := out + more;
        if !status.Open? {
          ClosedStays(p, beats, writes, i + 1);
          return;
        }
      }
      assert beats[..|beats|] == beats && writes[..|writes|] == writes;
    }
  }

  // ---------------------------------------------------------------- two parties

  /** A connection of two parties in one mode: their queues of heartbeats to handle, the heartbeats on
      the wire in each direction, and the pings whose reply could not be written. */
  datatype Link = Link(
    pinger: Party, replier: Party, pingerQueue: seq<Beat>, replierQueue: seq<Beat>,
    toReplier: seq<Beat>, toPinger: seq<Beat>, lost: nat)
  {
    function Side(pinging: bool): Party { if pinging then pinger else replier }

    function Queue(pinging: bool): seq<Beat> { if pinging then pingerQueue else replierQueue }

    /** What the side sends. */
    function Wire(pinging: bool): seq<Beat> { if pinging then toReplier else toPinger }
  }

  datatype Label =
    | Tick                            // the ticker of the pinging side puts a ping on its own queue
    | PingerHandles(written: bool)
    | ReplierHandles(written: bool)
    | PingArrives                     // the reader of a side puts what it got on its queue
    | PongArrives

  predicate Enabled(k: Link, l: Label) {
    match l
    case Tick => true
    case PingerHandles(_) => k.pinger.status.Open? && k.pingerQueue != []
    case ReplierHandles(_) => k.replier.status.Open? && k.replierQueue != []
    case PingArrives => k.toReplier != []
    case PongArrives => k.toPinger != []
  }

  function Next(k: Link, l: Label): Link
    requires Enabled(k, l)
  {
    match l
    case Tick => k.(pingerQueue := k.pingerQueue + [Ping])
    case PingerHandles(written) =>
      var (p, out) := Handled(k.pinger, k.pingerQueue[0], written);
      k.(pinger := p, pingerQueue := k.pingerQueue[1..], toReplier := k.toReplier + out)
    case ReplierHandles(written) =>
      var (p, out) := Handled(k.replier, k.replierQueue[0], written);
      k.(replier := p, replierQueue := k.replierQueue[1..], toPinger := k.toPinger + out,
         lost := if written then k.lost else k.lost + 1)
    case PingArrives => k.(replierQueue := k.replierQueue + [k.toReplier[0]], toReplier := k.toReplier[1..])
    case PongArrives => k.(pingerQueue := k.pingerQueue + [k.toPinger[0]], toPinger := k.toPinger[1..])
  }

  /** Both sides are configured for the same mode; each has its own limit. */
  function Start(reverse: bool, clientLimit: int, serverLimit: int): Link {
    var client, server := NewParty(ClientPings(reverse), clientLimit), NewParty(ServerPings(reverse), serverLimit);
    Link(if reverse then server else client, if reverse then client else server, [], [], [], [], 0)
  }

  function After(k: Link, labels: seq<Label>): Option<Link>
    decreases |labels|
  {
    if labels == [] then Some(k) else
    var prev, l := After(k, labels[..|labels| - 1]), labels[|labels| - 1];
    if prev.Some? && Enabled(prev.value, l) then Some(Next(prev.value, l)) else None
  }

  function Count(q: seq<Beat>, hb: Beat): nat {
    multiset(q)[hb]
  }

  /** The pings that are sent and not yet handled, and the pongs on their way back. */
  function InFlight(k: Link): nat {
    Count(k.toReplier, Ping) + Count(k.replierQueue, Ping) + Count(k.toPinger, Pong) + Count(k.pingerQueue, Pong)
  }

  ghost predicate Only(q: seq<Beat>, hb: Beat) {
    forall i :: 0 <= i < |q| ==> q[i] == hb
  }

  /** Every ping counted is in flight, or was lost with the reply that closed the replier. */
  ghost predicate Conserved(k: Link) {
    && k.pinger.pings && !k.replier.pings
    && k.pinger.counter == InFlight(k) + k.lost
    && k.replier.counter == 0
    && (if k.replier.status == SendFailed then k.lost == 1 else k.lost == 0)
  }

  /** Pings travel one way and pongs the other. */
  ghost predicate OneWay(k: Link) {
    && Only(k.toReplier, Ping) && Only(k.replierQueue, Ping) && Only(k.toPinger, Pong)
    && forall i :: 0 <= i < |k.pingerQueue| ==> k.pingerQueue[i].Ping? || k.pingerQueue[i].Pong?
  }

  /** A party closes for a mismatch exactly when its count reaches its limit.  With a limit below one, a
      party that is open has counted nothing. */
  ghost predicate ClosesAtLimit(p: Party) {
    && (p.limit >= 1 ==> p.counter <= p.limit && (p.status == Mismatch <==> p.counter == p.limit))
    && (p.limit < 1 && p.status == Open ==> p.counter == 0)
  }

  ghost predicate LinkInv(k: Link) {
    Conserved(k) && OneWay(k) && ClosesAtLimit(k.pinger) && ClosesAtLimit(k.replier)
  }

  lemma CountMore(q: seq<Beat>, hb: Beat, of: Beat)
    ensures Count(q + [hb], of) == Count(q, of) + if hb == of then 1 else 0
  {
  }

  lemma CountFirst(q: seq<Beat>, of: Beat)
    requires q != []
    ensures Count(q, of) == Count(q[1..], of) + if q[0] == of then 1 else 0
  {
    assert q == [q[0]] + q[1..];
  }

  /** A pong finds the count above zero. */
  lemma LimitStep(p: Party, hb: Beat, written: bool)
    requires ClosesAtLimit(p) && p.status.Open? && p.counter >= 0 && (hb.Ping? || (hb.Pong? && p.counter >= 1))
    ensures ClosesAtLimit(Handled(p, hb, written).0)
  {
  }

  lemma PingerStep(k: Link, written: bool)
    requires LinkInv(k) && Enabled(k, PingerHandles(written))
    ensures LinkInv(Next(k, PingerHandles(written)))
  {
    CountFirst(k.pingerQueue, Pong);
    LimitStep(k.pinger, k.pingerQueue[0], written);
    var n := Next(k, PingerHandles(written));
    if k.pingerQueue[0].Ping? && written {
      CountMore(k.toReplier, Ping, Ping);
      assert n.toReplier == k.toReplier + [Ping];
    } else {
      assert n.toReplier == k.toReplier;
    }
    assert Conserved(n) && OneWay(n);
  }

  lemma ReplierStep(k: Link, written: bool)
    requires LinkInv(k) && Enabled(k, ReplierHandles(written))
    ensures LinkInv(Next(k, ReplierHandles(written)))
  {
    CountFirst(k.replierQueue, Ping);
    LimitStep(k.replier, k.replierQueue[0], written);
    var n := Next(k, ReplierHandles(written));
    if written {
      CountMore(k.toPinger, Pong, Pong);
      assert n.toPinger == k.toPinger + [Pong];
    } else {
      assert n.toPinger == k.toPinger;
    }
    assert Conserved(n) && OneWay(n);
  }

  lemma ArrivalStep(k: Link, l: Label)
    requires LinkInv(k) && Enabled(k, l) && (l.PingArrives? || l.PongArrives?)
    ensures LinkInv(Next(k, l))
  {
    if l.PingArrives? {
      CountFirst(k.toReplier, Ping);
      CountMore(k.replierQueue, k.toReplier[0], Ping);
    } else {
      CountFirst(k.toPinger, Pong);
      CountMore(k.pingerQueue, k.toPinger[0], Pong);
    }
  }

  lemma NextLinkInv(k: Link, l: Label)
    requires LinkInv(k) && Enabled(k, l)
    ensures LinkInv(Next(k, l))
  {
    match l
    case Tick => CountMore(k.pingerQueue, Ping, Pong);
    case PingerHandles(written) => PingerStep(k, written);
    case ReplierHandles(written) => ReplierStep(k, written);
    case _ => ArrivalStep(k, l);
  }

  /** Over every interleaving, with every pattern of write failures: the pinging side's counter is the
      number of heartbeats in flight, plus the one whose reply could not be written; the replying
      side's counter stays 0; and the pinging side closes for a mismatch exactly when its counter
      reaches its limit. */
  lemma {:induction false} HeartbeatConserved(reverse: bool, clientLimit: int, serverLimit: int, labels: seq<Label>)
    requires After(Start(reverse, clientLimit, serverLimit), labels).Some?
    ensures LinkInv(After(Start(reverse, clientLimit, serverLimit), labels).value)
    decreases |labels|
  {
    if labels != [] {
      var front := labels[..|labels| - 1];
      HeartbeatConserved(reverse, clientLimit, serverLimit, front);
      NextLinkInv(After(Start(reverse, clientLimit, serverLimit), front).value, labels[|labels| - 1]);
    }
  }

  // ---------------------------------------------------------------- told from the labels

  /** How often a label occurs in a run. */
  function Occurs(labels: seq<Label>, l: Label): nat {
    multiset(labels)[l]
  }

  lemma OccursMore(labels: seq<Label>, l: Label, of: Label)
    ensures Occurs(labels + [l], of) == Occurs(labels, of) + if l == of then 1 else 0
  {
  }

  /** A step at which the side handles a ping that it cannot answer or send. */
  ghost predicate FailsToSend(k: Link, l: Label, pinging: bool) {
    l == Handles(pinging, false) && k.Queue(pinging) != [] && k.Queue(pinging)[0] == Ping
  }

  ghost predicate FailedToSend(k: Link, labels: seq<Label>, pinging: bool) {
    exists j :: 0 <= j < |labels| && After(k, labels[..j]).Some? && FailsToSend(After(k, labels[..j]).value, labels[j], pinging)
  }

  lemma FailedSnoc(k: Link, labels: seq<Label>, l: Label, pinging: bool)
    requires After(k, labels).Some?
    ensures FailedToSend(k, labels + [l], pinging) <==>
      FailedToSend(k, labels, pinging) || FailsToSend(After(k, labels).value, l, pinging)
  {
    var more := labels + [l];
    assert more[..|labels|] == labels;
    if FailedToSend(k, labels, pinging) {
      var j :| 0 <= j < |labels| && After(k, labels[..j]).Some? && FailsToSend(After(k, labels[..j]).value, labels[j], pinging);
      assert more[..j] == labels[..j] && more[j] == labels[j];
    }
    if FailedToSend(k, more, pinging) {
      var j :| 0 <= j < |more| && After(k, more[..j]).Some? && FailsToSend(After(k, more[..j]).value, more[j], pinging);
      assert j < |labels| ==> more[..j] == labels[..j] && more[j] == labels[j];
    }
    if FailsToSend(After(k, labels).value, l, pinging) {
      assert more[|labels|] == l;
    }
  }

  function OneIf(c: bool): nat {
    if c then 1 else 0
  }

  /** No heartbeat is made or lost except by a failed write: every tick is a ping that waits, has been put on
      the wire or closed its side, and every ping that arrived waits, has been answered or closed its side. */
  ghost predicate Balanced(k: Link, labels: seq<Label>) {
    && Occurs(labels, Tick) ==
         Count(k.pingerQueue, Ping) + |k.toReplier| + Occurs(labels, PingArrives) + OneIf(k.pinger.status == SendFailed)
    && Occurs(labels, PingArrives) ==
         |k.replierQueue| + |k.toPinger| + Occurs(labels, PongArrives) + OneIf(k.replier.status == SendFailed)
  }

  /** With a limit below one, a side is open exactly as long as it has handled nothing. */
  ghost predicate ClosesAtOnce(k: Link, labels: seq<Label>, pinging: bool) {
    k.Side(pinging).limit < 1 ==>
      (k.Side(pinging).status.Open? <==> Handles(pinging, true) !in labels && Handles(pinging, false) !in labels)
  }

  lemma OpenHandles(k: Link, pinging: bool, written: bool)
    requires LinkInv(k) && Enabled(k, Handles(pinging, written))
    ensures var hb, p := k.Queue(pinging)[0], Next(k, Handles(pinging, written)).Side(pinging);
      && (hb == Ping || hb == Pong) && (!pinging ==> hb == Ping)
      && (p.status == SendFailed <==> hb == Ping && !written)
      && (p.limit < 1 ==> !p.status.Open?)
      && p.limit == k.Side(pinging).limit
      && Next(k, Handles(pinging, written)).Side(!pinging) == k.Side(!pinging)
  {
  }

  lemma BalanceStep(k: Link, labels: seq<Label>, l: Label)
    requires LinkInv(k) && Balanced(k, labels) && Enabled(k, l)
    ensures Balanced(Next(k, l), labels + [l])
  {
    OccursMore(labels, l, Tick);
    OccursMore(labels, l, PingArrives);
    OccursMore(labels, l, PongArrives);
    match l
    case Tick => CountMore(k.pingerQueue, Ping, Ping);
    case PingerHandles(written) =>
      OpenHandles(k, true, written);
      CountFirst(k.pingerQueue, Ping);
    case ReplierHandles(written) => OpenHandles(k, false, written);
    case PongArrives =>
      assert k.toPinger[0] == Pong;
      CountMore(k.pingerQueue, Pong, Ping);
    case _ =>
  }

  lemma ClosesStep(k: Link, labels: seq<Label>, l: Label, pinging: bool)
    requires LinkInv(k) && ClosesAtOnce(k, labels, pinging) && Enabled(k, l)
    ensures ClosesAtOnce(Next(k, l), labels + [l], pinging)
  {
    if l.PingerHandles? {
      OpenHandles(k, true, l.written);
    } else if l.ReplierHandles? {
      OpenHandles(k, false, l.written);
    }
  }

  lemma FailsStep(k: Link, l: Label, pinging: bool)
    requires LinkInv(k) && Enabled(k, l)
    ensures Next(k, l).Side(pinging).status == SendFailed <==> k.Side(pinging).status == SendFailed || FailsToSend(k, l, pinging)
  {
    if l.PingerHandles? {
      OpenHandles(k, true, l.written);
    } else if l.ReplierHandles? {
      OpenHandles(k, false, l.written);
    }
  }

  /** What the labels of a run tell of the link that it leads to, on one side. */
  ghost predicate Told(start: Link, labels: seq<Label>, k: Link, pinging: bool) {
    && Balanced(k, labels) && ClosesAtOnce(k, labels, pinging)
    && (k.Side(pinging).status == SendFailed <==> FailedToSend(start, labels, pinging))
  }

  lemma StartTold(reverse: bool, clientLimit: int, serverLimit: int, pinging: bool)
    ensures Told(Start(reverse, clientLimit, serverLimit), [], Start(reverse, clientLimit, serverLimit), pinging)
  {
  }

  lemma StepTold(start: Link, labels: seq<Label>, k: Link, l: Label, pinging: bool)
    requires After(start, labels) == Some(k) && LinkInv(k) && Told(start, labels, k, pinging) && Enabled(k, l)
    ensures Told(start, labels + [l], Next(k, l), pinging)
  {
    BalanceStep(k, labels, l);
    ClosesStep(k, labels, l, pinging);
    FailsStep(k, l, pinging);
    FailedSnoc(start, labels, l, pinging);
  }

  lemma LastLabel(k: Link, labels: seq<Label>)
    requires labels != [] && After(k, labels).Some?
    ensures var front, l := labels[..|labels| - 1], labels[|labels| - 1];
      && front + [l] == labels && After(k, front).Some?
      && Enabled(After(k, front).value, l) && After(k, labels).value == Next(After(k, front).value, l)
  {
  }

  /** Over every interleaving, from the labels alone: ticks and arrivals balance what waits, what is on the wire
      and what failed; a side has failed to send if and only if it handled a ping whose write failed; and a side
      with a limit below one closes at the first heartbeat. */
  lemma {:induction false} HeartbeatsBalance(reverse: bool, clientLimit: int, serverLimit: int, labels: seq<Label>, pinging: bool)
    requires After(Start(reverse, clientLimit, serverLimit), labels).Some?
    ensures var start := Start(reverse, clientLimit, serverLimit);
      Told(start, labels, After(start, labels).value, pinging)
    decreases |labels|
  {
    if labels == [] {
      StartTold(reverse, clientLimit, serverLimit, pinging);
    } else {
      var start, front, l := Start(reverse, clientLimit, serverLimit), labels[..|labels| - 1], labels[|labels| - 1];
      LastLabel(start, labels);
      HeartbeatsBalance(reverse, clientLimit, serverLimit, front, pinging);
      HeartbeatConserved(reverse, clientLimit, serverLimit, front);
      StepTold(start, front, After(start, front).value, l, pinging);
    }
  }

  // ---------------------------------------------------------------- the loops in the link

  function Handles(pinging: bool, written: bool): Label {
    if pinging then PingerHandles(written) else ReplierHandles(written)
  }

  /** The link after one side's loop has handled heartbeats of its queue, up to the one that closes it. */
  function AfterRun(k: Link, pinging: bool, writes: seq<bool>): (q: Link)
    requires |writes| <= |k.Queue(pinging)|
    ensures q.Side(pinging).status.Open? ==> q.Queue(pinging) == k.Queue(pinging)[|writes|..]
    decreases |writes|
  {
    if writes == [] then k else
    var q := AfterRun(k, pinging, writes[..|writes| - 1]);
    if !q.Side(pinging).status.Open? then q else Next(q, Handles(pinging, writes[|writes| - 1]))
  }

  /** The link q is k with one side run to a result: that side and what it sent have changed, the other
      side has not. */
  predicate RanTo(k: Link, q: Link, pinging: bool, result: (Party, seq<Beat>)) {
    && q.Side(pinging) == result.0 && q.Wire(pinging) == k.Wire(pinging) + result.1
    && q.Side(!pinging) == k.Side(!pinging)
  }

  lemma OneHandled(k: Link, pinging: bool, written: bool)
    requires Enabled(k, Handles(pinging, written))
    ensures RanTo(k, Next(k, Handles(pinging, written)), pinging, Handled(k.Side(pinging), k.Queue(pinging)[0], written))
  {
  }

  lemma OneMoreHandled(k: Link, q: Link, pinging: bool, beats: seq<Beat>, writes: seq<bool>)
    requires |writes| == |beats| > 0 && q.Side(pinging).status.Open?
    requires RanTo(k, q, pinging, HandledAll(k.Side(pinging), beats[..|beats| - 1], writes[..|beats| - 1]))
    requires q.Queue(pinging) != [] && q.Queue(pinging)[0] == beats[|beats| - 1]
    ensures RanTo(k, Next(q, Handles(pinging, writes[|beats| - 1])), pinging, HandledAll(k.Side(pinging), beats, writes))
  {
    var n := |beats| - 1;
    OneHandled(q, pinging, writes[n]);
    RanOn(k, q, Next(q, Handles(pinging, writes[n])), pinging,
          HandledAll(k.Side(pinging), beats[..n], writes[..n]), Handled(q.Side(pinging), beats[n], writes[n]));
  }

  lemma RanOn(k: Link, q: Link, r: Link, pinging: bool, sofar: (Party, seq<Beat>), more: (Party, seq<Beat>))
    requires RanTo(k, q, pinging, sofar) && RanTo(q, r, pinging, more)
    ensures RanTo(k, r, pinging, (more.0, sofar.1 + more.1))
  {
  }

  /** A run of the loop of either side is a run of steps of the link, with the loop's result. */
  lemma {:induction false} RunInLink(k: Link, pinging: bool, writes: seq<bool>)
    requires |writes| <= |k.Queue(pinging)| && k.Side(pinging).status.Open?
    ensures RanTo(k, AfterRun(k, pinging, writes), pinging, HandledAll(k.Side(pinging), k.Queue(pinging)[..|writes|], writes))
    decreases |writes|
  {
    if writes == [] {
      assert k.Wire(pinging) + [] == k.Wire(pinging);
    } else {
      var n := |writes| - 1;
      var beats := k.Queue(pinging)[..n + 1];
      RunInLink(k, pinging, writes[..n]);
      assert beats[..n] == k.Queue(pinging)[..n];
      var q := AfterRun(k, pinging, writes[..n]);
      if q.Side(pinging).status.Open? {
        assert q.Queue(pinging) == k.Queue(pinging)[n..];
        OneMoreHandled(k, q, pinging, beats, writes);
      }
    }
  }

  /** So the loops keep the balance of heartbeats, however long they run. */
  lemma {:induction false} RunKeepsBalance(k: Link, pinging: bool, writes: seq<bool>)
    requires LinkInv(k) && |writes| <= |k.Queue(pinging)|
    ensures LinkInv(AfterRun(k, pinging, writes))
    decreases |writes|
  {
    if writes != [] {
      var q := AfterRun(k, pinging, writes[..|writes| - 1]);
      RunKeepsBalance(k, pinging, writes[..|writes| - 1]);
      if q.Side(pinging).status.Open? {
        NextLinkInv(q, Handles(pinging, writes[|writes| - 1]));
      }
    }
  }
}
