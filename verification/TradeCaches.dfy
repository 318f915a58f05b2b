/** TradeCache of utils/cache_trade.go: a history that is trimmed now and then, and the snapshots and
    the published stream taken from it.  The trimming cannot be seen in any snapshot. */
module TradeCaches {
  import opened OrderBooks

  const MAX_TRADE_LEN := 200
  const MAX_MULTIPLE := 3
  const MAX_INT64 := 0x7fff_ffff_ffff_ffff

  datatype TradeMessage<T> = TradeMessage(action: Action, data: seq<T>)

  /** The trades to keep, once there are too many. */
  function Trimmed<T>(h: seq<T>): (r: seq<T>) {
    if |h| > MAX_TRADE_LEN * MAX_MULTIPLE then h[|h| - MAX_TRADE_LEN * MAX_MULTIPLE / 2..] else h
  }

  /** One message, on the trimmed history. */
  function Kept<T>(h: seq<T>, msg: TradeMessage<T>): seq<T> {
    match msg.action
    case Partial => msg.data
    case Insert => Trimmed(h + msg.data)
    case _ => h
  }

  /** One message, on a log that is never trimmed: everything since the last partial. */
  function Logged<T>(log: seq<T>, msg: TradeMessage<T>): seq<T> {
    match msg.action
    case Partial => msg.data
    case Insert => log + msg.data
    case _ => log
  }

  function History<T>(msgs: seq<TradeMessage<T>>): seq<T>
    decreases |msgs|
  {
    if msgs == [] then [] else Kept(History(msgs[..|msgs| - 1]), msgs[|msgs| - 1])
  }

  function FullLog<T>(msgs: seq<TradeMessage<T>>): seq<T>
    decreases |msgs|
  {
    if msgs == [] then [] else Logged(FullLog(msgs[..|msgs| - 1]), msgs[|msgs| - 1])
  }

  /** The end of a log: as many trades as there are, but never more than 200, nor than a positive depth. */
  ghost predicate IsLatest<T>(r: seq<T>, log: seq<T>, depth: int) {
    && |r| <= |log| && r == log[|log| - |r|..]
    && |r| <= MAX_TRADE_LEN && (depth >= 1 ==> |r| <= depth)
    && (|r| == |log| || |r| == MAX_TRADE_LEN || (depth >= 1 && |r| == depth))
  }

  /** The last trades: `depth` of them, but never more than 200; 200 when no depth is asked for. */
  function Latest<T>(h: seq<T>, depth: int): (r: seq<T>)
    ensures IsLatest(r, h, depth)
  {
    var most := if 1 <= depth < MAX_TRADE_LEN then depth else MAX_TRADE_LEN;
    if |h| <= most then h else h[|h| - most..]
  }

  /** The history is the end of the log: all of it, or at least 300 trades. */
  ghost predicate Ends<T>(h: seq<T>, log: seq<T>) {
    && |h| <= |log| && h == log[|log| - |h|..]
    && (h == log || |h| >= MAX_TRADE_LEN * MAX_MULTIPLE / 2)
  }

  lemma KeepsEnd<T>(h: seq<T>, log: seq<T>, msg: TradeMessage<T>)
    requires Ends(h, log)
    ensures Ends(Kept(h, msg), Logged(log, msg))
    ensures msg.action.Insert? ==> |Kept(h, msg)| <= MAX_TRADE_LEN * MAX_MULTIPLE
  {
    if msg.action.Insert? {
      var more := h + msg.data;
      assert (log + msg.data)[|log| - |h|..] == more;
    }
  }

  /** One message, on the history and on the log: an insert that leaves more than 600 trades trims the history
      to 300 of them, the end of the log. */
  ghost predicate Trims<T>(was: seq<T>, wasLog: seq<T>, msg: TradeMessage<T>, now: seq<T>, nowLog: seq<T>) {
    match msg.action
    case Partial => now == msg.data && nowLog == msg.data
    case Insert =>
      && nowLog == wasLog + msg.data && |now| <= |nowLog| && now == nowLog[|nowLog| - |now|..]
      && |now| == if |was| + |msg.data| > 600 then 300 else |was| + |msg.data|
    case _ => now == was && nowLog == wasLog
  }

  lemma KeptTrims<T>(h: seq<T>, log: seq<T>, msg: TradeMessage<T>)
    requires Ends(h, log)
    ensures Trims(h, log, msg, Kept(h, msg), Logged(log, msg))
  {
    KeepsEnd(h, log, msg);
  }

  /** Over any run of messages, each step trims the history so. */
  lemma RunTrims<T>(msgs: seq<TradeMessage<T>>, msg: TradeMessage<T>)
    ensures Trims(History(msgs), FullLog(msgs), msg, History(msgs + [msg]), FullLog(msgs + [msg]))
  {
    assert (msgs + [msg])[..|msgs|] == msgs;
    HistoryEndsLog(msgs);
    KeptTrims(History(msgs), FullLog(msgs), msg);
  }

  /** Over any run of messages the history ends the log, and after an insert it has at most 600 trades. */
  lemma {:induction false} HistoryEndsLog<T>(msgs: seq<TradeMessage<T>>)
    ensures Ends(History(msgs), FullLog(msgs))
    ensures msgs != [] && msgs[|msgs| - 1].action.Insert? ==> |History(msgs)| <= MAX_TRADE_LEN * MAX_MULTIPLE
    decreases |msgs|
  {
    if msgs != [] {
      HistoryEndsLog(msgs[..|msgs| - 1]);
      KeepsEnd(History(msgs[..|msgs| - 1]), FullLog(msgs[..|msgs| - 1]), msgs[|msgs| - 1]);
    }
  }

  lemma LatestOfEnd<T>(h: seq<T>, log: seq<T>, depth: int)
    requires Ends(h, log)
    ensures Latest(h, depth) == Latest(log, depth)
  {
  }

  /** A snapshot of the trimmed history is the same snapshot of the full log, at every depth. */
  lemma SnapshotOfLog<T>(msgs: seq<TradeMessage<T>>, depth: int)
    ensures Latest(History(msgs), depth) == Latest(FullLog(msgs), depth)
    ensures IsLatest(Latest(History(msgs), depth), FullLog(msgs), depth)
  {
    HistoryEndsLog(msgs);
    LatestOfEnd(History(msgs), FullLog(msgs), depth);
  }

  // ---------------------------------------------------------------- what is published

  /** A partial is published only when the history is empty. */
  predicate Publishes<T>(h: seq<T>, msg: TradeMessage<T>) {
    msg.action.Insert? || (msg.action.Partial? && h == [])
  }

  function Published<T>(msgs: seq<TradeMessage<T>>): seq<TradeMessage<T>>
    decreases |msgs|
  {
    if msgs == [] then [] else
    var front, msg := msgs[..|msgs| - 1], msgs[|msgs| - 1];
    if Publishes(History(front), msg) then Published(front) + [msg] else Published(front)
  }

  /** After every message, the reader of the published stream has the full log. */
  ghost predicate ReaderHasLog<T>(msgs: seq<TradeMessage<T>>)
    decreases |msgs|
  {
    FullLog(Published(msgs)) == FullLog(msgs) && (msgs != [] ==> ReaderHasLog(msgs[..|msgs| - 1]))
  }

  /** Every partial that comes when there are trades repeats the log. */
  ghost predicate PartialsRepeat<T>(msgs: seq<TradeMessage<T>>)
    decreases |msgs|
  {
    msgs != [] ==>
      var front, msg := msgs[..|msgs| - 1], msgs[|msgs| - 1];
      && PartialsRepeat(front)
      && (msg.action.Partial? && FullLog(front) != [] ==> msg.data == FullLog(front))
  }

  /** A reader of the published stream has the full log after every message, exactly when no partial
      that comes to a history with trades in it says anything new. */
  lemma {:induction false} ReaderInStepIff<T>(msgs: seq<TradeMessage<T>>)
    ensures ReaderHasLog(msgs) <==> PartialsRepeat(msgs)
    decreases |msgs|
  {
    if msgs != [] {
      var front, msg := msgs[..|msgs| - 1], msgs[|msgs| - 1];
      ReaderInStepIff(front);
      HistoryEndsLog(front);
      LogSnoc(Published(front), msg);
    }
  }

  /** The smallest run in which the reader loses the log: an insert, then a partial with other trades, which
      replaces the log and is not published. */
  lemma ReaderLosesLog<T>(x: T, y: T)
    requires x != y
    ensures var msgs := [TradeMessage(Insert, [x]), TradeMessage(Partial, [y])];
      && FullLog(msgs) == [y] && Published(msgs) == msgs[..1] && FullLog(Published(msgs)) == [x]
      && !ReaderHasLog(msgs)
  {
    var msgs := [TradeMessage(Insert, [x]), TradeMessage(Partial, [y])];
    var one := msgs[..1];
    assert one[..0] == [] && one[0] == msgs[0];
    assert [] + [x] == [x];
    assert FullLog(one) == [x] && History(one) == [x] && Published(one) == [msgs[0]] && one == [msgs[0]];
  }

  lemma LogSnoc<T>(msgs: seq<TradeMessage<T>>, msg: TradeMessage<T>)
    ensures FullLog(msgs + [msg]) == Logged(FullLog(msgs), msg)
  {
    assert (msgs + [msg])[..|msgs|] == msgs;
  }

  // ---------------------------------------------------------------- the class

  /** MinInts. */
  method MinInts(numbers: seq<int>) returns (min: int)
    requires forall n :: n in numbers ==> n <= MAX_INT64
    ensures forall n :: n in numbers ==> min <= n
    ensures if numbers == [] then min == MAX_INT64 else min in numbers
  {
    min := MAX_INT64;
    for i := 0 to |numbers|
      invariant forall j :: 0 <= j < i ==> min <= numbers[j]
      invariant min == MAX_INT64 || min in numbers
      invariant min <= MAX_INT64
      invariant i > 0 && min == MAX_INT64 ==> numbers[0] == MAX_INT64
    {
      if numbers[i] < min {
        min := numbers[i];
      }
      assert numbers[0] in numbers;
    }
  }

  method TrimLen(hisLen: nat, depth: int) returns (trimLen: nat)
    requires hisLen <= MAX_INT64 && depth <= MAX_INT64
    ensures trimLen <= hisLen && trimLen <= MAX_TRADE_LEN && (depth >= 1 ==> trimLen <= depth)
    ensures trimLen == hisLen || trimLen == MAX_TRADE_LEN || (depth >= 1 && trimLen == depth)
  {
    if depth < 1 {
      trimLen := if hisLen <= MAX_TRADE_LEN then hisLen else MAX_TRADE_LEN;
    } else {
      var numbers := [MAX_TRADE_LEN, hisLen, depth];
      var min := MinInts(numbers);
      assert numbers[0] in numbers && numbers[1] in numbers && numbers[2] in numbers;
      trimLen := min;
    }
  }

  class TradeCache<T> {
    var historyTrade: seq<T>
    // channelGroup[Realtime][0]: what has been published
    var channel: seq<TradeMessage<T>>
    // every trade since the last partial
    ghost var log: seq<T>

    ghost predicate Valid()
      reads this
    {
      Ends(historyTrade, log)
    }

    constructor ()
      ensures Valid() && historyTrade == [] && log == [] && channel == []
    {
      historyTrade, channel, log := [], [], [];
    }

    /** snapshot(depth), which cannot tell the history from the log.  Lengths are Go ints. */
    method TakeSnapshot(depth: int) returns (data: seq<T>)
      requires Valid() && |historyTrade| <= MAX_INT64 && depth <= MAX_INT64
      ensures data == Latest(historyTrade, depth)
      ensures IsLatest(data, log, depth)
    {
      var trimLen := TrimLen(|historyTrade|, depth);
      data := historyTrade[|historyTrade| - trimLen..];
      LatestOfEnd(historyTrade, log, depth);
    }

    method ApplyData(msg: TradeMessage<T>) returns (publish: bool)
      requires Valid()
      modifies `historyTrade, `log
      ensures Valid() && log == Logged(old(log), msg) && historyTrade == Kept(old(historyTrade), msg)
      ensures publish <==> msg.action.Insert? || (msg.action.Partial? && old(historyTrade) == [])
      ensures Trims(old(historyTrade), old(log), msg, historyTrade, log)
    {
      KeepsEnd(historyTrade, log, msg);
      KeptTrims(historyTrade, log, msg);
      publish := false;
      match msg.action {
        case Partial =>
          if |historyTrade| < 1 {
            publish := true;
          }
          historyTrade := msg.data;
        case Insert =>
          publish := true;
          ghost var was := historyTrade;
          historyTrade := historyTrade + msg.data;
          var hisLen := |historyTrade|;
          if hisLen > MAX_TRADE_LEN * MAX_MULTIPLE {
            historyTrade := historyTrade[hisLen - MAX_TRADE_LEN * MAX_MULTIPLE / 2..];
          }
          assert historyTrade == Kept(was, msg);
        case _ =>
      }
      log := Logged(log, msg);
    }

    method HandleInput(msg: TradeMessage<T>)
      requires Valid()
      modifies this
      ensures Valid() && log == Logged(old(log), msg) && historyTrade == Kept(old(historyTrade), msg)
      ensures channel ==
        if msg.action.Insert? || (msg.action.Partial? && old(historyTrade) == []) then old(channel) + [msg] else old(channel)
      ensures Trims(old(historyTrade), old(log), msg, historyTrade, log)
    {
      var publish := ApplyData(msg);
      if publish {
        channel := channel + [msg];
      }
    }
  }
}
