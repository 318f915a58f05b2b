/** What the sessions of a run hold.  A session that discards what it got before some partial, and starts
    with that partial, is compared with the book that the cache had when its last message was made. */
module Sessions {
  import opened OrderBooks
  import opened DepthViews
  import opened Snapshots
  import opened Merging
  import opened Emissions
  import opened InSteps
  import opened Replicas
  import opened Channels
  import opened Protocol
  import opened Runs
  import opened Wrappers

  /** What a session makes of messages, from nothing. */
  ghost function ReadMessages(rsps: seq<Message>): Mirror
    decreases |rsps|
  {
    if rsps == [] then Mirror(Unsynced, Waiting) else Take(ReadMessages(rsps[..|rsps| - 1]), rsps[|rsps| - 1])
  }

  lemma ReadSnoc(rsps: seq<Message>, rsp: Message)
    ensures ReadMessages(rsps + [rsp]) == Take(ReadMessages(rsps), rsp)
  {
    assert (rsps + [rsp])[..|rsps|] == rsps;
  }

  /** A reader by price need not discard anything: a partial replaces what came before. */
  lemma {:induction false} PartialForgets(rsps: seq<Message>, i: nat)
    requires i < |rsps| && rsps[i].action.Partial?
    ensures ReadMessages(rsps).reader == ReadMessages(rsps[i..]).reader
    decreases |rsps|
  {
    var n := |rsps| - 1;
    assert rsps[i..][..n - i] == rsps[..n][i..];
    if i < n {
      PartialForgets(rsps[..n], i);
    }
  }

  /** The partial that a replica starts with decides for good whether it panics. */
  lemma {:induction false} LoadsOrPanics(rsps: seq<Message>)
    requires rsps != [] && rsps[0].action.Partial?
    ensures var r := ReadMessages(rsps).replica;
      if BothListed(rsps[0].data) then r.Holding? || r.Failed? else r.Panicked?
    decreases |rsps|
  {
    var n := |rsps| - 1;
    if n == 0 {
      assert rsps[..0] == [];
    } else {
      LoadsOrPanics(rsps[..n]);
    }
  }

  /** A replica that holds a book holds one with both sides. */
  lemma {:induction false} ReplicaSides(rsps: seq<Message>)
    ensures ReadMessages(rsps).replica.Holding? ==> BothSides(ReadMessages(rsps).replica.book)
    decreases |rsps|
  {
    if rsps != [] {
      var front, rsp := rsps[..|rsps| - 1], rsps[|rsps| - 1];
      ReplicaSides(front);
      RebuildSides(ReadMessages(front).replica, rsp);
    }
  }

  lemma RebuildSides(r: Replica, rsp: Message)
    requires r.Holding? ==> BothSides(r.book)
    ensures Rebuild(r, rsp).Holding? ==> BothSides(Rebuild(r, rsp).book)
  {
    if r.Waiting? && rsp.action.Partial? && BothListed(rsp.data) {
      LoadSides(EMPTY_BOOK, rsp.data);
    } else if r.Holding? && Ready(r.book, rsp) {
      var order := OrderFor(r.book, rsp);
      InputKeepsSides(r.book, rsp, order);
      KeepsBoth(r.book, NextBook(r.book, rsp, order));
    }
  }

  // ---------------------------------------------------------------- following the stream

  /** The session holds what the follower holds; its replica may have panicked on the partial it started
      with. */
  predicate Agrees(depth: nat, mine: Mirror, follower: Mirror) {
    && mine.reader == follower.reader
    && (depth == 0 ==> mine.replica == follower.replica || mine.replica == Panicked)
  }

  /** Message i of a session is a partial made since the last input that was not accepted. */
  predicate Fresh(got: seq<Message>, places: seq<nat>, clean: nat, i: nat) {
    i < |got| && i < |places| && got[i].action.Partial? && places[i] >= clean
  }

  /** What a session got by place n of the stream: if it starts with a fresh partial it agrees with the
      follower after the last message it got, and for as long as it is registered. */
  ghost predicate Follows(depth: nat, m: Mirror, hs: seq<Logged>, clean: nat, n: nat,
                          got: seq<Message>, places: seq<nat>, registered: bool, i: nat)
    requires clean <= |hs|
  {
    && |got| == |places| && n <= |hs|
    && (Fresh(got, places, clean, i) ==>
          var last := places[|places| - 1];
          && clean <= last < n
          && (registered ==> Agrees(depth, ReadMessages(got[i..]), Follow(m, hs[clean..n])))
          && Agrees(depth, ReadMessages(got[i..]), Follow(m, hs[clean..last + 1])))
  }

  ghost predicate SessionFollows(depth: nat, m: Mirror, hs: seq<Logged>, clean: nat, log: seq<Event>, s: Session, i: nat)
    requires clean <= |hs|
  {
    Follows(depth, m, hs, clean, |log|, Run(log).Got(s), Places(log, s), Registered(log, s), i)
  }

  lemma {:induction false} SessionsFollow(depth: nat, m: Mirror, hs: seq<Logged>, clean: nat, log: seq<Event>, s: Session, i: nat)
    requires clean <= |hs| && Flow(depth, m, hs[clean..]) && FreshSessions(log) && |log| <= |hs|
    requires forall k :: 0 <= k < |log| ==> log[k].input == hs[k].input
    ensures SessionFollows(depth, m, hs, clean, log, s, i)
    decreases |log|
  {
    if log != [] {
      SessionsFollow(depth, m, hs, clean, log[..|log| - 1], s, i);
      SessionStep(depth, m, hs, clean, log, s, i);
    } else {
      BeforeRegistration([], s);
    }
  }

  lemma {:induction false} FlowPrefix(depth: nat, m: Mirror, hs: seq<Logged>, n: nat)
    requires Flow(depth, m, hs) && n <= |hs|
    ensures Flow(depth, m, hs[..n])
    decreases |hs|
  {
    if n < |hs| {
      FlowPrefix(depth, m, hs[..|hs| - 1], n);
      assert hs[..|hs| - 1][..n] == hs[..n];
    } else {
      assert hs[..n] == hs;
    }
  }

  /** The follower takes one more input of the stream, and fits it. */
  lemma FollowerStep(depth: nat, m: Mirror, hs: seq<Logged>, clean: nat, n: nat)
    requires clean <= n < |hs| && Flow(depth, m, hs[clean..])
    ensures Fits(depth, Follow(m, hs[clean..n + 1]), hs[n])
    ensures var h := hs[n].input;
      Follow(m, hs[clean..n + 1]) ==
        if h.Data? && h.dst.None? then Take(Follow(m, hs[clean..n]), h.rsp) else Follow(m, hs[clean..n])
  {
    FlowPrefix(depth, m, hs[clean..], n + 1 - clean);
    assert hs[clean..][..n + 1 - clean] == hs[clean..n + 1];
    assert hs[clean..n + 1] == hs[clean..n] + [hs[n]];
    FollowOne(depth, m, hs[clean..n], hs[n], hs[clean..n + 1]);
  }

  lemma FollowOne(depth: nat, m: Mirror, hs: seq<Logged>, h: Logged, more: seq<Logged>)
    requires more == hs + [h] && Flow(depth, m, more)
    ensures Fits(depth, Follow(m, more), h)
    ensures Follow(m, more) == if h.input.Data? && h.input.dst.None? then Take(Follow(m, hs), h.input.rsp) else Follow(m, hs)
  {
    FlowOne(depth, m, hs, h);
  }

  /** One processed input changes what a session holds, and what the follower holds, alike.  A second
      snapshot of its own is merged and changes nothing. */
  lemma StepAgrees(depth: nat, m: Mirror, hs: seq<Logged>, clean: nat, n: nat, rsps: seq<Message>, s: Session)
    requires clean <= n < |hs| && Flow(depth, m, hs[clean..])
    requires Agrees(depth, ReadMessages(rsps), Follow(m, hs[clean..n]))
    ensures Addressed(hs[n].input, s) ==> Agrees(depth, ReadMessages(rsps + [hs[n].input.rsp]), Follow(m, hs[clean..n + 1]))
    ensures !Addressed(hs[n].input, s) ==> Agrees(depth, ReadMessages(rsps), Follow(m, hs[clean..n + 1]))
  {
    FollowerStep(depth, m, hs, clean, n);
    var h := hs[n];
    if Addressed(h.input, s) {
      ReadSnoc(rsps, h.input.rsp);
      if h.input.dst.Some? {
        OwnSnapshot(depth, ReadMessages(rsps), Follow(m, hs[clean..n]), h);
        ReplicaSides(rsps);
      }
    }
  }

  lemma OwnSnapshot(depth: nat, mine: Mirror, f: Mirror, h: Logged)
    requires Fits(depth, f, h) && h.input.Data? && h.input.dst.Some?
    requires Agrees(depth, mine, f)
    ensures Take(mine, h.input.rsp).reader == f.reader
    ensures depth == 0 && (mine.replica.Holding? ==> BothSides(mine.replica.book)) ==> Take(mine, h.input.rsp).replica == mine.replica
  {
    SnapshotView(h.at.value, depth);
    if depth == 0 && mine.replica.Holding? && BothSides(mine.replica.book) {
      var b := h.at.value;
      assert b.asks[0] in b.asks;
      SelfMerge(b);
    }
  }

  /** A partial of the stream starts a session in agreement. */
  lemma StartAgrees(depth: nat, m: Mirror, hs: seq<Logged>, clean: nat, n: nat)
    requires clean <= n < |hs| && Flow(depth, m, hs[clean..]) && hs[n].input.Data? && hs[n].input.rsp.action.Partial?
    ensures Agrees(depth, ReadMessages([hs[n].input.rsp]), Follow(m, hs[clean..n + 1]))
  {
    FollowerStep(depth, m, hs, clean, n);
    var rsp, b := hs[n].input.rsp, hs[n].at.value;
    assert [rsp][..0] == [];
    SnapshotView(b, depth);
    SnapshotRoundTrip(b, depth);
  }

  /** One processed event, with what the session had and whether it was and is registered. */
  lemma EventFollows(depth: nat, m: Mirror, hs: seq<Logged>, clean: nat, n: nat, last: Event,
                     got: seq<Message>, places: seq<nat>, s: Session, was: bool, now: bool, i: nat)
    requires clean <= |hs| && n < |hs| && Flow(depth, m, hs[clean..]) && last.input == hs[n].input
    requires Follows(depth, m, hs, clean, n, got, places, was, i)
    requires now ==> if last.input == Register(s) then places == [] else was && (Addressed(last.input, s) ==> Delivers(last, s))
    ensures was && Delivers(last, s) ==>
      Follows(depth, m, hs, clean, n + 1, got + [last.input.rsp], places + [n], now, i)
    ensures !(was && Delivers(last, s)) ==> Follows(depth, m, hs, clean, n + 1, got, places, now, i)
  {
    if was && Delivers(last, s) {
      DeliveredFollows(depth, m, hs, clean, n, got, places, s, now, i);
    } else if Fresh(got, places, clean, i) && now {
      StepAgrees(depth, m, hs, clean, n, got[i..], s);
    }
  }

  lemma DeliveredFollows(depth: nat, m: Mirror, hs: seq<Logged>, clean: nat, n: nat,
                         got: seq<Message>, places: seq<nat>, s: Session, now: bool, i: nat)
    requires clean <= |hs| && n < |hs| && Flow(depth, m, hs[clean..]) && Addressed(hs[n].input, s)
    requires Follows(depth, m, hs, clean, n, got, places, true, i)
    ensures Follows(depth, m, hs, clean, n + 1, got + [hs[n].input.rsp], places + [n], now, i)
  {
    var rsp := hs[n].input.rsp;
    if i < |got| {
      assert (got + [rsp])[i..] == got[i..] + [rsp];
      if Fresh(got, places, clean, i) {
        StepAgrees(depth, m, hs, clean, n, got[i..], s);
      }
    } else if i == |got| {
      assert (got + [rsp])[i..] == [rsp];
      if rsp.action.Partial? && n >= clean {
        StartAgrees(depth, m, hs, clean, n);
      }
    }
  }

  lemma SessionStep(depth: nat, m: Mirror, hs: seq<Logged>, clean: nat, log: seq<Event>, s: Session, i: nat)
    requires log != [] && FreshSessions(log) && |log| <= |hs| && log[|log| - 1].input == hs[|log| - 1].input
    requires clean <= |hs| && Flow(depth, m, hs[clean..])
    requires SessionFollows(depth, m, hs, clean, log[..|log| - 1], s, i)
    ensures SessionFollows(depth, m, hs, clean, log, s, i)
  {
    var front, last := log[..|log| - 1], log[|log| - 1];
    assert front + [last] == log;
    DeliveryStep(front, last, s);
    EventFollows(depth, m, hs, clean, |front|, last, Run(front).Got(s), Places(front, s), s, Registered(front, s), Registered(log, s), i);
  }

  // ---------------------------------------------------------------- what a session holds

  /** A session that got a partial made since the last input that was not accepted holds exactly the view of
      the book that the cache had when the last message the session got was made: the best `depth` levels
      of each side on a depth channel, there at the end of each pair of responses, and the whole map on
      channel 0.  On channel 0 every message has such a book, and a replica that starts with the partial is
      that book, with its lists and quotes, unless the partial lacked a side. */
  ghost predicate HoldsBook(depth: nat, st: System, s: Session, i: nat) {
    HoldsLast(depth, st.history, st.track.clean, st.dispatcher.Got(s), Places(st.log, s), i)
  }

  ghost predicate HoldsLast(depth: nat, hs: seq<Logged>, clean: nat, got: seq<Message>, places: seq<nat>, i: nat) {
    && |got| == |places|
    && (Fresh(got, places, clean, i) ==>
          var last := places[|places| - 1];
          && last < |hs| && hs[last].input.Data? && hs[last].input.rsp == got[|got| - 1]
          && (depth == 0 ==> hs[last].at.Some?)
          && (hs[last].at.Some? ==> HasBook(depth, got, i, hs[last].at.value)))
  }

  ghost predicate HasBook(depth: nat, got: seq<Message>, i: nat, b: Book)
    requires i < |got|
  {
    && Inv(b) && ReadMessages(got).reader == Synced(ViewOf(b, depth))
    && (depth == 0 ==> ReadMessages(got[i..]).replica == if BothListed(got[i].data) then Holding(b) else Panicked)
  }

  lemma {:induction false} HeldView(depth: nat, m: Mirror, hs: seq<Logged>, clean: nat, got: seq<Message>, last: nat, i: nat)
    requires clean <= last < |hs| && Flow(depth, m, hs[clean..]) && i < |got| && got[i].action.Partial?
    requires Agrees(depth, ReadMessages(got[i..]), Follow(m, hs[clean..last + 1]))
    ensures hs[last].input.Data? && depth == 0 ==> hs[last].at.Some?
    ensures hs[last].at.Some? ==> HasBook(depth, got, i, hs[last].at.value)
  {
    FollowerStep(depth, m, hs, clean, last);
    PartialForgets(got, i);
    LoadsOrPanics(got[i..]);
  }

  lemma LogIsFresh(st: System)
    requires SessionInv(st) && QueueInv(st)
    ensures FreshSessions(st.log)
  {
  }

  lemma StateDelivered(depth: nat, b: Book, st: System, s: Session)
    requires SystemInv(depth, b, st)
    ensures SentAsLogged(st.dispatcher, st.log, s)
  {
    LogIsFresh(st);
    Delivery(st.log, s);
  }

  lemma FollowsHolds(depth: nat, m: Mirror, hs: seq<Logged>, clean: nat, n: nat,
                     got: seq<Message>, places: seq<nat>, registered: bool, i: nat)
    requires clean <= |hs| && Flow(depth, m, hs[clean..]) && Follows(depth, m, hs, clean, n, got, places, registered, i)
    requires forall k :: 0 <= k < |places| ==>
      places[k] < |hs| && hs[places[k]].input.Data? && got[k] == hs[places[k]].input.rsp
    ensures HoldsLast(depth, hs, clean, got, places, i)
  {
    if Fresh(got, places, clean, i) {
      HeldView(depth, m, hs, clean, got, places[|places| - 1], i);
    }
  }

  lemma StateHoldsBook(depth: nat, b: Book, st: System, s: Session, i: nat)
    requires SystemInv(depth, b, st)
    ensures HoldsBook(depth, st, s, i)
  {
    var m := At(st.track.base, depth);
    LogIsFresh(st);
    SessionsFollow(depth, m, st.history, st.track.clean, st.log, s, i);
    StateDelivered(depth, b, st, s);
    FollowsHolds(depth, m, st.history, st.track.clean, |st.log|, st.dispatcher.Got(s), Places(st.log, s), Registered(st.log, s), i);
  }

  /** End to end, over every interleaving, and with any inputs before the session's partial that the cache
      can handle and that leave the book consistent. */
  lemma EndToEnd(depth: nat, b: Book, labels: seq<Label>, s: Session, i: nat)
    requires Inv(b) && After(depth, b, labels).Some?
    ensures HoldsBook(depth, After(depth, b, labels).value, s, i)
  {
    Reachable(depth, b, labels);
    StateHoldsBook(depth, b, After(depth, b, labels).value, s, i);
  }

  /** Once nothing is on its way any more, a registered session with a fresh partial holds the view of the
      book that the inputs handled so far lead to, and on channel 0 that book. */
  lemma CaughtUp(depth: nat, b: Book, labels: seq<Label>, s: Session, i: nat)
    requires Inv(b) && After(depth, b, labels).Some?
    requires var st := After(depth, b, labels).value;
      && st.outbox == [] && st.source == [] && Registered(st.log, s)
      && Fresh(st.dispatcher.Got(s), Places(st.log, s), st.track.clean, i)
    ensures |Turns(labels)| <= |Requests(labels)|
    ensures HasBook(depth, After(depth, b, labels).value.dispatcher.Got(s), i,
                    BookAfter(b, Requests(labels)[..|Turns(labels)|], Turns(labels)))
  {
    var st := After(depth, b, labels).value;
    Reachable(depth, b, labels);
    RunTraced(depth, b, labels);
    StateCaughtUp(depth, b, st, s, i);
  }

  lemma StateCaughtUp(depth: nat, b: Book, st: System, s: Session, i: nat)
    requires SystemInv(depth, b, st) && st.outbox == [] && st.source == [] && Registered(st.log, s)
    requires Fresh(st.dispatcher.Got(s), Places(st.log, s), st.track.clean, i)
    ensures HasBook(depth, st.dispatcher.Got(s), i, st.book)
  {
    var m, got := At(st.track.base, depth), st.dispatcher.Got(s);
    LogIsFresh(st);
    SessionsFollow(depth, m, st.history, st.track.clean, st.log, s, i);
    assert st.history[st.track.clean..|st.log|] == st.history[st.track.clean..];
    PartialForgets(got, i);
    LoadsOrPanics(got[i..]);
  }

  /** If the book has both sides from the start, every partial can be loaded: on channel 0 a session that
      feeds the messages it gets, from a fresh partial on, to an empty cache of its own has the very book, in
      all four forms, that the cache had when its last message was made. */
  lemma ReplicaIsBook(b: Book, labels: seq<Label>, s: Session, i: nat)
    requires Inv(b) && BothSides(b) && After(0, b, labels).Some?
    ensures var st := After(0, b, labels).value;
      var got, places := st.dispatcher.Got(s), Places(st.log, s);
      Fresh(got, places, st.track.clean, i) ==>
        && |places| == |got| && places[|got| - 1] < |st.history| && st.history[places[|got| - 1]].at.Some?
        && ReadMessages(got[i..]).replica == Holding(st.history[places[|got| - 1]].at.value)
        && Inv(st.history[places[|got| - 1]].at.value) && BothSides(st.history[places[|got| - 1]].at.value)
  {
    var st := After(0, b, labels).value;
    EndToEnd(0, b, labels, s, i);
    Reachable(0, b, labels);
    StateDelivered(0, b, st, s);
    var got, places := st.dispatcher.Got(s), Places(st.log, s);
    if Fresh(got, places, st.track.clean, i) {
      assert st.history[places[i]].input == st.log[places[i]].input;
      ReplicaSides(got[i..]);
    }
  }

  // ---------------------------------------------------------------- which partials are fresh

  /** A step that does not take an input that is not accepted. */
  ghost predicate Accepted(depth: nat, st: System, l: Label) {
    l.CacheLoop? && st.pipeline != [] && st.pipeline[0].Append? ==> Accepts(depth, st.book, st.pipeline[0].msg)
  }

  ghost predicate AcceptedFrom(depth: nat, b: Book, labels: seq<Label>, n: nat) {
    forall j :: n <= j < |labels| ==>
      After(depth, b, labels[..j]).Some? && Accepted(depth, After(depth, b, labels[..j]).value, labels[j])
  }

  lemma {:induction false} PrefixReaches(depth: nat, b: Book, labels: seq<Label>, n: nat)
    requires After(depth, b, labels).Some? && n <= |labels|
    ensures After(depth, b, labels[..n]).Some?
    decreases |labels|
  {
    if n < |labels| {
      PrefixReaches(depth, b, labels[..|labels| - 1], n);
      assert labels[..|labels| - 1][..n] == labels[..n];
    } else {
      assert labels[..n] == labels;
    }
  }

  lemma AcceptedKeepsTrack(depth: nat, st: System, l: Label)
    requires Enabled(depth, st, l) && Accepted(depth, st, l) && !st.track.dirty
    ensures Next(depth, st, l).track == st.track
  {
  }

  /** If every input since some state with an empty outbox was accepted, every partial queued since is
      fresh; so in a run of accepted inputs all are. */
  lemma {:induction false} FreshSince(depth: nat, b: Book, labels: seq<Label>, n: nat)
    requires Inv(b) && After(depth, b, labels).Some? && n <= |labels| && After(depth, b, labels[..n]).Some?
    requires After(depth, b, labels[..n]).value.outbox == [] && AcceptedFrom(depth, b, labels, n)
    ensures var st := After(depth, b, labels[..n]).value;
      After(depth, b, labels).value.track == st.track && st.track.clean <= |st.history| && !st.track.dirty
    decreases |labels|
  {
    Reachable(depth, b, labels[..n]);
    if n == |labels| {
      assert labels[..n] == labels;
    } else {
      var front := labels[..|labels| - 1];
      assert front[..n] == labels[..n];
      assert AcceptedFrom(depth, b, front, n) by {
        forall j | n <= j < |front|
          ensures After(depth, b, front[..j]).Some? && Accepted(depth, After(depth, b, front[..j]).value, front[j])
        {
          assert front[..j] == labels[..j];
        }
      }
      FreshSince(depth, b, front, n);
      AcceptedKeepsTrack(depth, After(depth, b, front).value, labels[|labels| - 1]);
    }
  }

  // ---------------------------------------------------------------- a snapshot that lacks a side

  /** Session 0 registers, asks for a snapshot, and gets it. */
  function Subscribing(): seq<Label> {
    [Retrieve(0), Request(0), CacheLoop([]), Send]
  }

  lemma SnapshotAsked(b: Book)
    ensures var st := After(0, b, [Retrieve(0), Request(0)]);
      && st.Some? && st.value.pipeline == [SnapshotFor(0)] && st.value.outbox == [] && st.value.book == b
      && st.value.source == [Register(0)] && st.value.dispatcher == START
  {
    assert [] + [Retrieve(0)] == [Retrieve(0)] && [Retrieve(0)] + [Request(0)] == [Retrieve(0), Request(0)];
    AfterOne(0, b, [], Retrieve(0));
    AfterOne(0, b, [Retrieve(0)], Request(0));
  }

  lemma SnapshotQueued(b: Book)
    ensures var st := After(0, b, Subscribing());
      st.Some? && st.value.source == [Register(0), SnapshotTo(b, 0, 0).input] && st.value.dispatcher == START
  {
    var asked := [Retrieve(0), Request(0)];
    SnapshotAsked(b);
    AfterOne(0, b, asked, CacheLoop([]));
    AfterOne(0, b, asked + [CacheLoop([])], Send);
    assert asked + [CacheLoop([])] + [Send] == Subscribing();
  }

  lemma FirstTwoInputs(rsp: Message)
    ensures Step(Step(START, Event(Register(0), {})), Event(Data(Some(0), rsp), {})).Got(0) == [rsp]
  {
    assert [] + [rsp] == [rsp];
  }

  lemma SnapshotDelivered(b: Book)
    ensures var st := After(0, b, Subscribing() + [Dispatch({})] + [Dispatch({})]);
      st.Some? && st.value.dispatcher.Got(0) == [SnapshotOf(b, 0)]
  {
    SnapshotQueued(b);
    FirstTwoInputs(SnapshotOf(b, 0));
    AfterOne(0, b, Subscribing(), Dispatch({}));
    AfterOne(0, b, Subscribing() + [Dispatch({})], Dispatch({}));
  }

  /** A session that subscribes to a cache without orders, or with orders on one side only, gets a partial on
      which its own cache panics. */
  lemma OneSidedSnapshot(b: Book)
    requires Inv(b)
    ensures var st := After(0, b, Subscribing() + [Dispatch({})] + [Dispatch({})]);
      && st.Some? && st.value.dispatcher.Got(0) == [SnapshotOf(b, 0)]
      && (ReadMessages(st.value.dispatcher.Got(0)).replica == Panicked <==> !BothSides(b))
  {
    SnapshotDelivered(b);
    SnapshotLoadsIff(b, 0);
    assert [SnapshotOf(b, 0)][..0] == [];
  }

  // ---------------------------------------------------------------- delivery and snapshots

  lemma ReachableDelivery(depth: nat, b: Book, labels: seq<Label>, s: Session)
    requires Inv(b) && After(depth, b, labels).Some?
    ensures var st := After(depth, b, labels).value; SentAsLogged(st.dispatcher, st.log, s) && QueueInv(st)
  {
    Reachable(depth, b, labels);
    StateDelivered(depth, b, After(depth, b, labels).value, s);
  }

  /** A fresh directed snapshot at place k of the queue carries the view of the stream just before it: every
      delta queued earlier is already reflected in it. */
  ghost predicate Reflects(depth: nat, st: System, k: nat) {
    st.track.clean <= k < |st.history| && Directed(st.history[k].input) ==>
      && st.history[k].at.Some?
      && Follow(At(st.track.base, depth), st.history[st.track.clean..k]).reader == Synced(MapOf(st.history[k].input.rsp.data))
      && MapOf(st.history[k].input.rsp.data) == ViewOf(st.history[k].at.value, depth)
  }

  lemma StateReflects(depth: nat, st: System, k: nat)
    requires StreamInv(depth, st)
    ensures Reflects(depth, st, k)
  {
    if st.track.clean <= k < |st.history| && Directed(st.history[k].input) {
      FollowerStep(depth, At(st.track.base, depth), st.history, st.track.clean, k);
      SnapshotView(st.history[k].at.value, depth);
    }
  }

  lemma SnapshotReflects(depth: nat, b: Book, labels: seq<Label>, k: nat)
    requires Inv(b) && After(depth, b, labels).Some?
    ensures Reflects(depth, After(depth, b, labels).value, k)
  {
    Reachable(depth, b, labels);
    StateReflects(depth, After(depth, b, labels).value, k);
  }

  /** When the dispatcher comes to a directed snapshot, the session is registered, unless a shutdown or
      a timed-out write has ended its registration. */
  ghost predicate FindsSession(st: System, k: nat) {
    k < |st.log| && Directed(st.log[k].input) ==>
      var s := st.log[k].input.dst.value;
      Registered(st.log[..k], s) || exists i :: 0 <= i < k && Ends(st.log[i], s)
  }

  lemma StateFindsSession(st: System, k: nat)
    requires SessionInv(st) && QueueInv(st)
    ensures FindsSession(st, k)
  {
    if k < |st.log| && Directed(st.log[k].input) {
      var s := st.log[k].input.dst.value;
      assert Directed(st.history[k].input);
      var j :| 0 <= j < k && st.history[..k][j].input == Register(s);
      if forall i :: 0 <= i < k ==> !Ends(st.log[i], s) {
        assert RegisteredAt(st.log[..k], s, j);
      }
    }
  }

  lemma SnapshotFindsSession(depth: nat, b: Book, labels: seq<Label>, k: nat)
    requires Inv(b) && After(depth, b, labels).Some?
    ensures FindsSession(After(depth, b, labels).value, k)
  {
    Reachable(depth, b, labels);
    StateFindsSession(After(depth, b, labels).value, k);
  }
}
