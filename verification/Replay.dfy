/** The backtest replay loop (internal/backtest/runner.go) over the engine, the
    three ways of recording a trade, and the metrics. */
module Replay {
  import opened Types
  import opened OppHeap
  import opened Engine
  import opened Metrics
  import opened Tallies
  import TradeLog

  const OPPORTUNITY_TTL := 500_000_000
  const TAKER_FEE := 0.001
  const NOTIONAL := 100.0

  // ---------- Dispatch (funding_executor.go, triangular_executor.go, recordSpatialTrade) ----------

  function FundingTrade(o: Opportunity, now: int): Trade {
    Trade(o.id, o.buyExchange, o.sellExchange, 0.0, 0.0, 1.0,
          o.netProfit, 0.0, o.netProfit, 0.0, now, 1.0, false, "funding")
  }

  function TriangularTrade(o: Opportunity, now: int): Trade {
    var fees := 3.0 * TAKER_FEE * NOTIONAL;
    Trade(o.id, o.buyExchange, o.sellExchange, 0.0, 0.0, NOTIONAL,
          o.netProfit + fees, fees, o.netProfit, 0.0, now, NOTIONAL, false, "triangular")
  }

  function SpatialTrade(o: Opportunity, now: int): Trade {
    Trade(o.id, o.buyExchange, o.sellExchange, o.buyPrice, o.sellPrice, o.maxVolume,
          o.netProfit, 0.0, o.netProfit, 0.0, now, 0.0, false, o.strategy)
  }

  function TradeOf(o: Opportunity, now: int): Trade {
    match o.strategy
    case "funding" => FundingTrade(o, now)
    case "triangular" => TriangularTrade(o, now)
    case _ => SpatialTrade(o, now)
  }

  /** Whatever the dispatch target, a trade keeps what the metrics look at, and
      its gross profit is its net profit plus its fees. The target decides the rest:
      only a spatial trade has prices and the opportunity's volume, and only a
      triangular one pays fees, on three legs. */
  lemma TradeKeepsProfit(o: Opportunity, now: int)
    ensures var t := TradeOf(o, now);
            && t.opportunityId == o.id && t.strategy == o.strategy && t.executedAt == now
            && t.buyExchange == o.buyExchange && t.sellExchange == o.sellExchange
            && t.netProfit == o.netProfit == t.grossProfit - t.fees
            && t.slippage == 0.0 && !t.partialFill
    ensures var t := TradeOf(o, now);
            match o.strategy
            case "funding" =>
              t.volume == t.requestedVolume == 1.0 && t.fees == t.buyPrice == t.sellPrice == 0.0
            case "triangular" =>
              t.volume == t.requestedVolume == 100.0 && t.fees == 0.3 && t.buyPrice == t.sellPrice == 0.0
            case _ =>
              && t.volume == o.maxVolume && t.buyPrice == o.buyPrice && t.sellPrice == o.sellPrice
              && t.fees == t.requestedVolume == 0.0
  {
  }

  function TradesOf(opps: seq<Opportunity>, now: int): (t: seq<Trade>)
    ensures |t| == |opps|
  {
    if opps == [] then [] else TradesOf(opps[..|opps| - 1], now) + [TradeOf(opps[|opps| - 1], now)]
  }

  // ---------- What the trade log records ----------

  /** The trades logged for one frame: every detection of the frame exactly once,
      best score first, all at the frame's time. */
  ghost predicate IsFrameLog(trades: seq<Trade>, done: seq<Opportunity>, detections: seq<Opportunity>, now: int) {
    && multiset(done) == multiset(detections)
    && (forall i, j | 0 <= i < j < |done| :: done[i].score >= done[j].score)
    && trades == TradesOf(done, now)
  }

  /** A whole log splits into the logs of its frames. */
  ghost predicate IsLog(trades: seq<Trade>, times: seq<int>, answers: Answers)
    requires |times| == |answers|
    decreases |answers|
  {
    if answers == [] then trades == []
    else
      var n := |answers| - 1;
      exists k, done ::
        && 0 <= k <= |trades|
        && IsLog(trades[..k], times[..n], answers[..n])
        && IsFrameLog(trades[k..], done, Detections(answers[n]), times[n])
  }

  function TallyOfTrades(trades: seq<Trade>, s: string): Tally {
    Tally(TradeLog.NetProfitSum(Of(trades, s)), |Of(trades, s)|)
  }

  lemma TallyOfTradesConcat(a: seq<Trade>, b: seq<Trade>, s: string)
    ensures TallyOfTrades(a + b, s) == TallyOfTrades(a, s).Plus(TallyOfTrades(b, s))
  {
    OfConcat(a, b, s);
    TradeLog.NetProfitOfConcat(Of(a, s), Of(b, s));
  }

  lemma TradeMatchesTally(o: Opportunity, now: int, s: string)
    ensures TallyOfTrades([TradeOf(o, now)], s) == TallyOfOne(o, s)
  {
    var t := TradeOf(o, now);
    TradeKeepsProfit(o, now);
    hide TradeOf;
    assert Of([t], s) == if t.strategy == s then [t] else [];
    assert TradeLog.NetProfitSum([t]) == t.netProfit;
  }

  lemma {:induction false} TradesMatchTally(opps: seq<Opportunity>, now: int, s: string)
    ensures TallyOfTrades(TradesOf(opps, now), s) == TallyOf(opps, s)
  {
    if opps == [] {
    } else {
      var n := |opps| - 1;
      TradesMatchTally(opps[..n], now, s);
      TradeMatchesTally(opps[n], now, s);
      hide TallyOfOne, TallyOfTrades, TradeOf;
      TallyOfTradesConcat(TradesOf(opps[..n], now), [TradeOf(opps[n], now)], s);
    }
  }

  /** Nothing is lost and nothing is counted twice: per strategy, the log's
      profit and length are those of everything detected. */
  lemma {:induction false} LogMatchesDetections(trades: seq<Trade>, times: seq<int>,
                                                answers: Answers, s: string)
    requires |times| == |answers| && IsLog(trades, times, answers)
    ensures TallyOfTrades(trades, s) == TallyOf(AllDetections(answers), s)
    decreases |answers|
  {
    if answers == [] {
      assert Of(trades, s) == [];
    } else {
      hide Of, TradeLog.NetProfitSum, TallyOf, TallyOfTrades, TradesOf, Detections, AllDetections, IsFrameLog;
      var n := |answers| - 1;
      var k, done :|
        && 0 <= k <= |trades|
        && IsLog(trades[..k], times[..n], answers[..n])
        && IsFrameLog(trades[k..], done, Detections(answers[n]), times[n]);
      LogMatchesDetections(trades[..k], times[..n], answers[..n], s);
      FrameMatchesDetections(trades, k, done, times[n], answers, s);
    }
  }

  lemma FrameMatchesDetections(trades: seq<Trade>, k: nat, done: seq<Opportunity>, now: int,
                               answers: Answers, s: string)
    requires answers != [] && k <= |trades|
    requires IsFrameLog(trades[k..], done, Detections(answers[|answers| - 1]), now)
    requires TallyOfTrades(trades[..k], s) == TallyOf(AllDetections(answers[..|answers| - 1]), s)
    ensures TallyOfTrades(trades, s) == TallyOf(AllDetections(answers), s)
  {
    hide Of, TradeLog.NetProfitSum, TallyOf, TallyOfTrades, TradesOf, Detections;
    var n := |answers| - 1;
    TradesMatchTally(done, now, s);
    TallyOfPermutation(done, Detections(answers[n]), s);
    assert trades == trades[..k] + trades[k..];
    TallyOfTradesConcat(trades[..k], trades[k..], s);
    TallyOfConcat(AllDetections(answers[..n]), Detections(answers[n]), s);
  }

  // ---------- The runner ----------

  datatype State = Idle | Running | Done

  datatype RunStatus = RunStatus(state: State, progress: real, currentTs: int)

  class Runner {
    var status: RunStatus

    constructor ()
      ensures status == RunStatus(Idle, 0.0, 0)
    {
      status := RunStatus(Idle, 0.0, 0);
    }

    /** Record the trade of one dequeued opportunity and mark it executed. */
    method Dispatch(store: Store, cell: OpportunityCell, now: int)
      modifies store, cell
      ensures store.trades == old(store.trades) + [TradeOf(old(cell.opp), now)]
      ensures cell.opp == old(cell.opp).(status := StatusExecuted)
      ensures store.opportunities == old(store.opportunities)[cell.opp.id := cell.opp]
    {
      var opp := cell.opp;
      match opp.strategy {
        case "funding" => store.SaveTrade(FundingTrade(opp, now));
        case "triangular" => store.SaveTrade(TriangularTrade(opp, now));
        case _ => store.SaveTrade(SpatialTrade(opp, now));
      }
      cell.opp := opp.(status := StatusExecuted);
      store.Save(cell.opp);
    }

    /** Drain the queue of one frame. Everything queued was detected at `now`, so
        nothing expires and everything is dispatched, best first. */
    method Drain(eng: Engine, store: Store, now: int) returns (ghost done: seq<Opportunity>)
      requires eng.Valid() && eng.ttl >= 0
      requires forall o | o in eng.Queue() :: o.detectedAt == now
      modifies eng.pq, Elements(eng.pq.h), store
      ensures eng.Valid() && eng.Queue() == multiset{} && Elements(eng.pq.h) <= old(Elements(eng.pq.h))
      ensures multiset(done) == old(eng.Queue())
      ensures forall i, j | 0 <= i < j < |done| :: done[i].score >= done[j].score
      ensures store.trades == old(store.trades) + TradesOf(done, now)
    {
      hide IsDraining, Queued, Ordered, TradesOf, TradeOf;
      done := [];
      ghost var before, all := store.trades, eng.Queue();
      DrainStarts(before, all, now);
      var more := true;
      while more
        invariant eng.Valid() && Elements(eng.pq.h) <= old(Elements(eng.pq.h))
        invariant IsDraining(done, eng.Queue(), all) && (!more ==> eng.Queue() == multiset{})
        invariant store.trades == before + TradesOf(done, now)
        decreases more, |eng.pq.h|
      {
        ghost var opp;
        more, opp := DispatchNext(eng, store, now, done, all);
        if more {
          TradesOfStep(done, opp, now);
          done := done + [opp];
        }
      }
      DrainEnds(done, all);
    }

    /** One turn of the drain loop: false when the queue has run empty. */
    method DispatchNext(eng: Engine, store: Store, now: int,
                        ghost done: seq<Opportunity>, ghost all: multiset<Opportunity>)
      returns (more: bool, ghost opp: Opportunity)
      requires eng.Valid() && eng.ttl >= 0 && forall o | o in all :: o.detectedAt == now
      requires IsDraining(done, eng.Queue(), all)
      modifies eng.pq, Elements(eng.pq.h), store
      ensures eng.Valid() && Elements(eng.pq.h) <= old(Elements(eng.pq.h))
      ensures more ==>
                && IsDraining(done + [opp], eng.Queue(), all) && |eng.pq.h| < |old(eng.pq.h)|
                && store.trades == old(store.trades) + [TradeOf(opp, now)]
      ensures !more ==> eng.Queue() == multiset{} == old(eng.Queue()) && store.trades == old(store.trades)
    {
      hide IsDraining, Queued, Ordered, TradeOf;
      ghost var queue := eng.Queue();
      StillUnexpired(done, queue, all, eng.ttl, now);
      ghost var discarded;
      var cell;
      cell, discarded := eng.DequeueTop(now);
      if cell == null {
        NothingExpires(queue, discarded, eng.ttl, now);
        opp := *;
        return false, opp;
      }
      opp := cell.opp;
      DrainStep(done, queue, eng.Queue(), discarded, opp, all, eng.ttl, now);
      Dispatch(store, cell, now);
      more := true;
    }

    /** One frame: hand the update to the engine, then drain the queue. */
    method PlayFrame(eng: Engine, store: Store, answers: seq<seq<Opportunity>>, now: int)
      returns (ghost done: seq<Opportunity>)
      requires eng.Valid() && eng.ttl >= 0 && eng.Queue() == multiset{}
      requires forall j, o | 0 <= j < |answers| && o in answers[j] :: o.detectedAt == now
      modifies eng, eng.pq, Elements(eng.pq.h), store
      ensures eng.Valid() && eng.Queue() == multiset{}
      ensures fresh(Elements(eng.pq.h) - old(Elements(eng.pq.h)))
      ensures multiset(done) == multiset(Detections(answers))
      ensures forall o :: multiset(done)[o]
                == |set j, k | 0 <= j < |answers| && 0 <= k < |answers[j]| && answers[j][k] == o :: (j, k)|
      ensures forall i, j | 0 <= i < j < |done| :: done[i].score >= done[j].score
      ensures store.trades == old(store.trades) + TradesOf(done, now)
    {
      hide Queued, Ordered, TradesOf, Detections, OppHeap.Indexed;
      forall o | o in Detections(answers)
        ensures o.detectedAt == now
      {
        DetectionsComeFrom(answers, o);
      }
      eng.ProcessUpdate(answers);
      done := Drain(eng, store, now);
    }

    /** Replay the frames. `answers[i][j]` is what strategy `j` detects on frame
        `i`; the only thing asked of it is that it is stamped with the time the
        strategy was given, as every strategy's Detect does. Every strategy is
        reported with exactly what was detected under its name. */
    method RunLocked(frames: seq<PriceUpdate>, answers: Answers)
      returns (metrics: map<string, StrategyMetrics>, ghost trades: seq<Trade>)
      requires |answers| == |frames|
      requires forall i, j, o | 0 <= i < |frames| && 0 <= j < |answers[i]| && o in answers[i][j] ::
                 o.detectedAt == frames[i].receivedAt
      modifies this
      ensures IsLog(trades, Times(frames), answers)
      ensures forall s | s in metrics :: AreMetricsOf(metrics[s], Of(trades, s))
      ensures forall s :: IsReported(metrics, answers, s)
      ensures status == RunStatus(Done, 1.0, 0)
    {
      hide IsLog, Times, TradesOf, Detections, AreMetricsOf, Of, IsReported;
      hide Queued, Ordered, OppHeap.Indexed;
      var store := new Store();
      var eng := new Engine(OPPORTUNITY_TTL);
      ghost var times := Times(frames);
      EmptyLog(times, answers);
      for i := 0 to |frames|
        invariant fresh(store) && fresh(eng) && fresh(eng.pq) && fresh(Elements(eng.pq.h))
        invariant eng.Valid() && eng.Queue() == multiset{} && eng.ttl == OPPORTUNITY_TTL
        invariant IsLog(store.trades, times[..i], answers[..i])
        invariant i > 0 ==> status == RunStatus(Running, (i as real) / (|frames| as real), frames[i - 1].receivedAt)
      {
        var now := frames[i].receivedAt;
        ghost var before := store.trades;
        ghost var done := PlayFrame(eng, store, answers[i], now);
        LogExtends(before, store.trades, times, answers, i, done);
        status := RunStatus(Running, ((i + 1) as real) / (|frames| as real), now);
      }
      assert times[..|frames|] == times && answers[..|frames|] == answers;
      trades := store.trades;
      metrics := ComputeMetrics(store.trades);
      forall s
        ensures IsReported(metrics, answers, s)
      {
        MetricsMatchDetections(metrics, trades, times, answers, s);
      }
      status := RunStatus(Done, 1.0, 0);
    }
  }

  function Times(frames: seq<PriceUpdate>): (times: seq<int>)
    ensures |times| == |frames| && forall i | 0 <= i < |frames| :: times[i] == frames[i].receivedAt
  {
    seq(|frames|, i requires 0 <= i < |frames| => frames[i].receivedAt)
  }

  /** Strategy `s` is reported exactly when some answer carries its name, with the
      number of those answers and their total net profit. */
  ghost predicate IsReported(metrics: map<string, StrategyMetrics>, answers: Answers, s: string) {
    var places := set i, j, k | 0 <= i < |answers| && 0 <= j < |answers[i]| && 0 <= k < |answers[i][j]|
                                && answers[i][j][k].strategy == s
                              :: (i, j, k);
    && (s in metrics <==> places != {})
    && (s in metrics ==>
          && metrics[s].tradeCount == |places|
          && metrics[s].totalPnL == ProfitOver(places, answers))
  }

  lemma EmptyLog(times: seq<int>, answers: Answers)
    ensures IsLog([], times[..0], answers[..0])
  {
  }

  /** The metrics of a log say how much each strategy detected, wherever in the
      answers. */
  lemma MetricsMatchDetections(metrics: map<string, StrategyMetrics>, trades: seq<Trade>, times: seq<int>,
                               answers: Answers, s: string)
    requires |times| == |answers| && IsLog(trades, times, answers)
    requires s in metrics <==> Of(trades, s) != []
    requires s in metrics ==> AreMetricsOf(metrics[s], Of(trades, s))
    ensures IsReported(metrics, answers, s)
  {
    hide IsLog, Of, TradeLog.NetProfitSum, TallyOf, AllDetections, IsMaxDrawdown, ProfitOver;
    LogMatchesDetections(trades, times, answers, s);
    TallyIsOverPlaces(answers, s);
  }

  /** `done` was dequeued from `all`, best first, and `queue` is what is left. */
  ghost predicate IsDraining(done: seq<Opportunity>, queue: multiset<Opportunity>, all: multiset<Opportunity>) {
    && multiset(done) + queue == all
    && (forall i, j | 0 <= i < j < |done| :: done[i].score >= done[j].score)
    && (forall i, o | 0 <= i < |done| && o in queue :: done[i].score >= o.score)
  }

  lemma StillUnexpired(done: seq<Opportunity>, queue: multiset<Opportunity>, all: multiset<Opportunity>,
                       ttl: int, now: int)
    requires IsDraining(done, queue, all) && ttl >= 0 && forall o | o in all :: o.detectedAt == now
    ensures forall o | o in queue :: o in all && !Expired(o, ttl, now)
  {
    assert forall o :: o in queue ==> o in multiset(done) + queue;
  }

  lemma NothingExpires(queue: multiset<Opportunity>, discarded: multiset<Opportunity>, ttl: int, now: int)
    requires discarded <= queue && forall o | o in queue :: !Expired(o, ttl, now)
    requires forall o | o in discarded :: Expired(o, ttl, now)
    ensures discarded == multiset{}
  {
    assert forall o :: o in discarded ==> o in queue;
  }

  lemma DrainStep(done: seq<Opportunity>, queue: multiset<Opportunity>, queue': multiset<Opportunity>,
                  discarded: multiset<Opportunity>, opp: Opportunity, all: multiset<Opportunity>, ttl: int, now: int)
    requires IsDraining(done, queue, all) && queue == queue' + discarded + multiset{opp}
    requires forall o | o in queue :: !Expired(o, ttl, now)
    requires forall o | o in discarded :: Expired(o, ttl, now)
    requires forall o | o in queue && !Expired(o, ttl, now) :: o.score <= opp.score
    ensures IsDraining(done + [opp], queue', all)
  {
    NothingExpires(queue, discarded, ttl, now);
    assert queue == queue' + multiset{opp};
    assert opp in queue && forall o :: o in queue' ==> o in queue;
  }

  lemma DrainStarts(before: seq<Trade>, all: multiset<Opportunity>, now: int)
    ensures before + TradesOf([], now) == before && IsDraining([], all, all)
  {
  }

  lemma DrainEnds(done: seq<Opportunity>, all: multiset<Opportunity>)
    requires IsDraining(done, multiset{}, all)
    ensures multiset(done) == all
    ensures forall i, j | 0 <= i < j < |done| :: done[i].score >= done[j].score
  {
  }

  lemma TradesOfStep(done: seq<Opportunity>, opp: Opportunity, now: int)
    ensures TradesOf(done + [opp], now) == TradesOf(done, now) + [TradeOf(opp, now)]
  {
    assert (done + [opp])[..|done|] == done;
  }

  lemma LogExtends(before: seq<Trade>, after: seq<Trade>, times: seq<int>, answers: Answers,
                   i: nat, done: seq<Opportunity>)
    requires i < |times| == |answers|
    requires IsLog(before, times[..i], answers[..i])
    requires multiset(done) == multiset(Detections(answers[i]))
    requires forall k, l | 0 <= k < l < |done| :: done[k].score >= done[l].score
    requires after == before + TradesOf(done, times[i])
    ensures IsLog(after, times[..i + 1], answers[..i + 1])
  {
    hide Detections, TradesOf;
    var k, t, a := |before|, times[..i + 1], answers[..i + 1];
    assert t[..i] == times[..i] && a[..i] == answers[..i];
    assert after[..k] == before && after[k..] == TradesOf(done, times[i]);
    assert IsFrameLog(after[k..], done, Detections(a[i]), t[i]);
    assert IsLog(after[..k], t[..i], a[..i]);
  }
}
