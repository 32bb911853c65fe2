/** The spatial strategy (internal/strategy/spatial/spatial.go): training, detection,
    Kelly sizing; and why what it emits passes the risk manager. */
module Spatial {
  import opened Types
  import opened Welford
  import opened Spread
  import opened SpatialCosts
  import Kelly
  import RecentTrades
  import Risk

  // ---------- The strategy ----------

  class SpatialStrategy {
    const cfg: SpatialConfig
    const models: map<string, SpreadModel>
    var kellyEstimators: map<string, Kelly.KellyEstimator>
    const recentTrades: RecentTrades.RecentTradeRing

    /** No two pairs share a model. */
    ghost predicate ModelsDistinct() {
      forall k, l | k in models && l in models && k != l :: models[k] != models[l] && models[k].buf != models[l].buf
    }

    ghost predicate ModelsValid()
      reads set k | k in models :: models[k], set k | k in models :: models[k].buf
    {
      forall k | k in models :: models[k].Valid()
    }

    /** Every estimator has at least one return, as RecordTradeReturn creates it
        and records in one go, and carries the configured parameters. */
    ghost predicate KellyValid()
      reads `kellyEstimators, set k | k in kellyEstimators :: kellyEstimators[k]
    {
      && (forall k | k in kellyEstimators ::
            var e := kellyEstimators[k];
            e.Valid() && e.n > 0 && e.minN == cfg.kellyMinSamples && e.fracCap == cfg.kellyFraction)
      && (forall k, l | k in kellyEstimators && l in kellyEstimators && k != l ::
            kellyEstimators[k] != kellyEstimators[l])
    }

    ghost predicate RingValid()
      reads recentTrades, recentTrades.buf
    {
      recentTrades.Valid() && recentTrades.buf.Length == CorrWindow(cfg)
    }

    constructor (cfg: SpatialConfig, models: map<string, SpreadModel>)
      ensures this.cfg == WithDefaults(cfg) && this.models == models
      ensures this.cfg == cfg.(imbalancePenaltyWeight := if cfg.imbalancePenaltyWeight == 0.0 then 0.15
                                                         else cfg.imbalancePenaltyWeight,
                               baseMinNetProfitPct := if cfg.baseMinNetProfitPct == 0.0 && cfg.minNetProfitPct > 0.0
                                                      then cfg.minNetProfitPct else cfg.baseMinNetProfitPct,
                               kellyMinSamples := if cfg.kellyMinSamples == 0 then 10 else cfg.kellyMinSamples,
                               kellyFraction := if cfg.kellyFraction == 0.0 then 0.25 else cfg.kellyFraction)
      ensures recentTrades.buf.Length == if cfg.corrWindowN == 0 then 50 else cfg.corrWindowN
      ensures kellyEstimators == map[] && KellyValid()
      ensures RingValid() && fresh(recentTrades) && fresh(recentTrades.buf) && recentTrades.history == []
    {
      this.cfg, this.models, kellyEstimators := WithDefaults(cfg), models, map[];
      recentTrades := new RecentTrades.RecentTradeRing(CorrWindow(cfg));
    }

    /** The pair's model, null when none is configured. */
    function ModelOf(buyEx: string, sellEx: string): SpreadModel? {
      var key := PairKey(buyEx, sellEx);
      if key in models then models[key] else null
    }

    /** The deviation of the pair's model, zero without one. */
    function SpreadStd(fns: MathFns, buyEx: string, sellEx: string): real
      reads ModelOf(buyEx, sellEx)
    {
      var m := ModelOf(buyEx, sellEx);
      if m != null then m.Std(fns) else 0.0
    }

    /** The Kelly fraction when it is positive, the whole position otherwise. */
    function EffectiveFraction(buyEx: string, sellEx: string): real
      reads `kellyEstimators, KellyOf(buyEx, sellEx)
    {
      var est := KellyOf(buyEx, sellEx);
      if est != null && est.Fraction() > 0.0 then est.Fraction() else 1.0
    }

    /** The pair's estimator, null before its first return. */
    function KellyOf(buyEx: string, sellEx: string): Kelly.KellyEstimator?
      reads `kellyEstimators
    {
      var key := PairKey(buyEx, sellEx);
      if key in kellyEstimators then kellyEstimators[key] else null
    }

    /** `o` is what the current state emits for this counterparty. */
    ghost predicate IsDetection(o: Opportunity, fns: MathFns, update: PriceUpdate, sellEx: string, sell: PriceUpdate,
                                now: int)
      requires update.ask != 0.0
      reads `kellyEstimators, KellyOf(update.exchange, sellEx), recentTrades, ModelOf(update.exchange, sellEx)
    {
      o == Emitted(cfg, o.id, update, sellEx, sell, now,
                   EffectiveFraction(update.exchange, sellEx),
                   RecentTrades.Matches(recentTrades.Window(), update.exchange, sellEx),
                   ScoreSignal(fns, ModelOf(update.exchange, sellEx), RawSpread(update, sell),
                               NetPct(cfg, update, sellEx, sell, now)))
    }

    /** The samples behind the pair's score, none without a model. */
    ghost function SamplesOf(buyEx: string, sellEx: string): seq<real>
      reads ModelOf(buyEx, sellEx)
    {
      var m := ModelOf(buyEx, sellEx);
      if m == null then [] else m.Window()
    }

    /** What the opportunity for this counterparty must be, in terms of the quotes, the
        samples of the pair, its Kelly fraction and the recent trades. */
    ghost predicate IsRight(o: Opportunity, fns: MathFns, update: PriceUpdate, sellEx: string, sell: PriceUpdate,
                            now: int)
      reads `kellyEstimators, KellyOf(update.exchange, sellEx), recentTrades, ModelOf(update.exchange, sellEx)
    {
      var spread := if update.ask > 0.0 then (sell.bid - update.ask) / update.ask else 0.0;
      var key := update.exchange + "-" + sellEx;
      var fraction := if key in kellyEstimators && kellyEstimators[key].Fraction() > 0.0
                      then kellyEstimators[key].Fraction() else 1.0;
      var matches := RecentTrades.Matches(recentTrades.Window(), update.exchange, sellEx);
      && o.buyExchange == update.exchange && o.sellExchange == sellEx
      && o.buyPrice == update.ask && o.sellPrice == sell.bid
      && o.detectedAt == now && o.status == StatusDetected && o.strategy == "spatial"
      && IsNetProfit(cfg, update, sellEx, sell, now, o.netProfit)
      && o.netProfitPct * o.buyPrice == o.netProfit
      && IsScoring(fns, SamplesOf(update.exchange, sellEx), spread, o.netProfitPct,
                   o.zScore, o.score + ImbalancePenalty(cfg, sell))
      && IsPosition(cfg, fraction, matches, o.maxVolume, o.buyPrice)
    }

    lemma DetectionIsRight(o: Opportunity, fns: MathFns, update: PriceUpdate, sellEx: string, sell: PriceUpdate,
                           now: int)
      requires update.ask != 0.0 && fns.Valid() && IsDetection(o, fns, update, sellEx, sell, now)
      requires ModelOf(update.exchange, sellEx) != null ==> ModelOf(update.exchange, sellEx).Valid()
      ensures IsRight(o, fns, update, sellEx, sell, now)
    {
      hide NetProfit, MaxVolume, ImbalancePenalty, ScoreSignal;
      hide IsScoring, IsNetProfit, IsPosition, RecentTrades.Matches;
      var m, raw := ModelOf(update.exchange, sellEx), RawSpread(update, sell);
      var pct := NetPct(cfg, update, sellEx, sell, now);
      NetProfitByLeg(cfg, update, sellEx, sell, now);
      QuotientTimes(NetProfit(cfg, update, sellEx, sell, now), update.ask, pct);
      var matches := RecentTrades.Matches(recentTrades.Window(), update.exchange, sellEx);
      SizeIsPosition(cfg, update.ask, EffectiveFraction(update.exchange, sellEx), matches);
      if m == null {
        ScoreWithoutModel(fns, raw, pct);
      } else {
        ScoreSignalIsRight(m, fns, raw, pct);
      }
    }

    ghost function HistoryOf(buyEx: string, sellEx: string): seq<real>
      reads ModelOf(buyEx, sellEx)
    {
      var m := ModelOf(buyEx, sellEx);
      if m == null then [] else m.history
    }

    /** `found` is the right decision about the counterparty `s`, whose model had
        the history `before` and has since been trained on the current spread. */
    ghost predicate Decided(fns: MathFns, update: PriceUpdate, s: string, sell: PriceUpdate, now: int,
                            before: seq<real>, found: Option<Opportunity>)
      requires update.ask != 0.0
      reads `kellyEstimators, KellyOf(update.exchange, s), recentTrades, ModelOf(update.exchange, s)
    {
      && (update.exchange + "-" + s in models ==>
            models[update.exchange + "-" + s].history
            == before + if update.ask > 0.0 then [(sell.bid - update.ask) / update.ask] else [])
      && (found.Some? <==> Qualifies(cfg, update, s, sell, now, SpreadStd(fns, update.exchange, s)))
      && (found.Some? ==>
            && IsDetection(found.value, fns, update, s, sell, now)
            && IsRight(found.value, fns, update, s, sell, now))
    }

    /** One counterparty: train the pair's model, then decide. */
    method DetectPair(fns: MathFns, update: PriceUpdate, sellEx: string, sell: PriceUpdate, now: int)
      returns (found: Option<Opportunity>)
      requires ModelsDistinct() && ModelsValid() && RingValid() && fns.Valid() && update.ask != 0.0
      modifies Footprint(ModelOf(update.exchange, sellEx))
      ensures ModelsValid()
      ensures Decided(fns, update, sellEx, sell, now, old(HistoryOf(update.exchange, sellEx)), found)
      ensures found.Some? ==> found.value.sellExchange == sellEx
    {
      hide Qualifies, IsDetection, IsRight, SpreadStd, EffectiveFraction, ModelsDistinct;
      TrainPair(update, sellEx, sell);
      found := DecidePair(fns, update, sellEx, sell, now);
    }

    method TrainPair(update: PriceUpdate, sellEx: string, sell: PriceUpdate)
      requires ModelsDistinct() && ModelsValid()
      modifies Footprint(ModelOf(update.exchange, sellEx))
      ensures ModelsValid()
      ensures ModelOf(update.exchange, sellEx) != null ==>
                HistoryOf(update.exchange, sellEx)
                == old(HistoryOf(update.exchange, sellEx)) + if update.ask > 0.0 then [RawSpread(update, sell)] else []
    {
      hide RawSpread;
      var sm := ModelOf(update.exchange, sellEx);
      if sm != null {
        if update.ask > 0.0 {
          sm.Update(RawSpread(update, sell));
        } else {
          assert sm.history + [] == sm.history;
        }
      }
    }

    method DecidePair(fns: MathFns, update: PriceUpdate, sellEx: string, sell: PriceUpdate, now: int)
      returns (found: Option<Opportunity>)
      requires RingValid() && fns.Valid() && update.ask != 0.0
      requires ModelOf(update.exchange, sellEx) != null ==> ModelOf(update.exchange, sellEx).Valid()
      ensures found.Some? <==> Qualifies(cfg, update, sellEx, sell, now, SpreadStd(fns, update.exchange, sellEx))
      ensures found.Some? ==> IsDetection(found.value, fns, update, sellEx, sell, now)
      ensures found.Some? ==> IsRight(found.value, fns, update, sellEx, sell, now)
      ensures found.Some? ==> found.value.sellExchange == sellEx
    {
      hide NetProfit, MaxVolume, ImbalancePenalty, ScoreSignal, RecentTrades.Matches, RawSpread;
      hide EffectiveFraction, KellyOf, SpreadStd, SpreadModel.Valid, IsRight;
      var gross := sell.bid - update.ask;
      if gross <= 0.0 {
        return None;
      }
      var netProfit := NetProfit(cfg, update, sellEx, sell, now);
      if netProfit <= 0.0 {
        return None;
      }
      var netPct := NetPct(cfg, update, sellEx, sell, now);
      var adaptiveMin := AdaptiveMin(cfg, SpreadStd(fns, update.exchange, sellEx));
      if netPct < adaptiveMin {
        return None;
      }
      var matches := recentTrades.CountSameExchange(update.exchange, sellEx);
      var fraction := EffectiveFraction(update.exchange, sellEx);
      var signal := ScoreSignal(fns, ModelOf(update.exchange, sellEx), RawSpread(update, sell), netPct);
      var id: string := *;
      found := Some(Emitted(cfg, id, update, sellEx, sell, now, fraction, matches, signal));
      DetectionIsRight(found.value, fns, update, sellEx, sell, now);
    }

    /** The returns recorded for a pair key. */
    ghost function Returns(key: string): seq<real>
      reads `kellyEstimators, if key in kellyEstimators then {kellyEstimators[key]} else {}
    {
      if key in kellyEstimators then kellyEstimators[key].history else []
    }

    ghost function Estimators(): set<object>
      reads `kellyEstimators
    {
      set k | k in kellyEstimators :: kellyEstimators[k]
    }

    /** A realised return: the pair's estimator, created on first use, records it,
        and the pair joins the ring. */
    method RecordTradeReturn(buyEx: string, sellEx: string, netPct: real)
      requires KellyValid() && RingValid()
      modifies `kellyEstimators, recentTrades, recentTrades.buf, Estimators()
      ensures KellyValid() && RingValid() && fresh(Estimators() - old(Estimators()))
      ensures Returns(buyEx + "-" + sellEx) == old(Returns(buyEx + "-" + sellEx)) + [netPct]
      ensures forall k | k != buyEx + "-" + sellEx :: Returns(k) == old(Returns(k))
      ensures recentTrades.history == old(recentTrades.history) + [RecentTrades.Entry(buyEx, sellEx)]
    {
      hide KellyValid, RingValid, Returns, Estimators;
      RecordReturn(PairKey(buyEx, sellEx), netPct);
      PushTrade(RecentTrades.Entry(buyEx, sellEx));
    }

    /** The ring learns the trade; nothing about the estimators changes. */
    method PushTrade(entry: RecentTrades.Entry)
      requires RingValid()
      modifies recentTrades, recentTrades.buf
      ensures RingValid() && recentTrades.history == old(recentTrades.history) + [entry]
      ensures old(KellyValid()) ==> KellyValid()
      ensures forall k :: Returns(k) == old(Returns(k))
    {
      hide KellyValid;
      recentTrades.Push(entry);
    }

    method RecordReturn(key: string, netPct: real)
      requires KellyValid()
      modifies `kellyEstimators, Estimators()
      ensures fresh(Estimators() - old(Estimators()))
      ensures KellyValid() && Returns(key) == old(Returns(key)) + [netPct]
      ensures forall k | k != key :: Returns(k) == old(Returns(k))
      ensures old(RingValid()) ==> RingValid()
      ensures recentTrades.history == old(recentTrades.history)
    {
      hide Represents, RingValid;
      var est: Kelly.KellyEstimator;
      if key in kellyEstimators {
        est := kellyEstimators[key];
      } else {
        est := new Kelly.KellyEstimator(cfg.kellyMinSamples, cfg.kellyFraction);
        kellyEstimators := kellyEstimators[key := est];
      }
      est.Record(netPct);
    }

    ghost function AllModels(): set<object> {
      set k, o | k in models && o in Footprint(models[k]) :: o
    }

    /** Nothing else that decides about the counterparty `s` is among `objects`. */
    ghost predicate Untouched(buyEx: string, s: string, objects: set<object>)
      reads `kellyEstimators
    {
      && this !in objects && recentTrades !in objects && recentTrades.buf !in objects
      && (KellyOf(buyEx, s) != null ==> KellyOf(buyEx, s) !in objects)
    }

    /** Different counterparties of one buy exchange use different models. */
    lemma ModelsApart(buyEx: string, s: string, t: string)
      requires ModelsDistinct() && s != t
      ensures ModelOf(buyEx, s) != null ==> ModelOf(buyEx, s) !in Footprint(ModelOf(buyEx, t))
      ensures Footprint(ModelOf(buyEx, t)) <= AllModels()
      ensures Untouched(buyEx, s, Footprint(ModelOf(buyEx, t)))
    {
      if PairKey(buyEx, s) == PairKey(buyEx, t) {
        PairKeyInjective(buyEx, s, t);
      }
    }

    /** Deciding one counterparty disturbs neither the models of the others nor what
        was decided about them. */
    method DetectNext(fns: MathFns, update: PriceUpdate, sellEx: string, snapshot: Snapshot, now: int,
                      ghost before: map<string, seq<real>>, ghost decisions: map<string, Option<Opportunity>>)
      returns (found: Option<Opportunity>)
      requires ModelsDistinct() && ModelsValid() && RingValid() && fns.Valid() && update.ask != 0.0
      requires sellEx in snapshot && sellEx !in decisions && decisions.Keys <= snapshot.Keys == before.Keys
      requires forall s | s in decisions :: Decided(fns, update, s, snapshot[s], now, before[s], decisions[s])
      modifies AllModels()
      ensures ModelsValid() && RingValid()
      ensures Decided(fns, update, sellEx, snapshot[sellEx], now, old(HistoryOf(update.exchange, sellEx)), found)
      ensures found.Some? ==> found.value.sellExchange == sellEx
      ensures forall s | s != sellEx :: HistoryOf(update.exchange, s) == old(HistoryOf(update.exchange, s))
      ensures forall s | s in decisions :: Decided(fns, update, s, snapshot[s], now, before[s], decisions[s])
    {
      hide Decided, Footprint, AllModels, ModelsDistinct, ModelsValid;
      forall s | s != sellEx
        ensures ModelOf(update.exchange, s) != null ==>
                  ModelOf(update.exchange, s) !in Footprint(ModelOf(update.exchange, sellEx))
        ensures Untouched(update.exchange, s, Footprint(ModelOf(update.exchange, sellEx)))
      {
        ModelsApart(update.exchange, s, sellEx);
      }
      ModelsApart(update.exchange, sellEx + "x", sellEx);
      found := DetectPair(fns, update, sellEx, snapshot[sellEx], now);
      forall s | s in decisions
        ensures Decided(fns, update, s, snapshot[s], now, before[s], decisions[s])
      {
        assert old(Decided(fns, update, s, snapshot[s], now, before[s], decisions[s]));
        var m := ModelOf(update.exchange, s);
        assert Untouched(update.exchange, s, Footprint(ModelOf(update.exchange, sellEx)));
      }
    }

    /** Every fresh counterparty is decided, once, on its freshly trained model;
        exactly the positive decisions are returned; no other model is trained. */
    method Detect(fns: MathFns, update: PriceUpdate, snapshot: Snapshot, now: int)
      returns (opps: seq<Opportunity>, ghost decisions: map<string, Option<Opportunity>>)
      requires ModelsDistinct() && ModelsValid() && RingValid() && fns.Valid() && update.ask != 0.0
      modifies AllModels()
      ensures ModelsValid()
      ensures forall s :: s in decisions <==>
                && s in snapshot && s != update.exchange
                && now - snapshot[s].receivedAt <= cfg.stalenessThreshold
      ensures forall s | s in decisions ::
                Decided(fns, update, s, snapshot[s], now, old(HistoryOf(update.exchange, s)), decisions[s])
      ensures forall s | s in snapshot && s !in decisions ::
                HistoryOf(update.exchange, s) == old(HistoryOf(update.exchange, s))
      ensures Lists(opps, decisions)
    {
      hide Decided, Lists, HistoryOf, AllModels, ModelsDistinct, ModelsValid, RingValid;
      opps, decisions := [], map[];
      NothingListed();
      ghost var before := map s | s in snapshot :: HistoryOf(update.exchange, s);
      var todo := snapshot.Keys;
      while todo != {}
        invariant todo <= snapshot.Keys && ModelsValid() && RingValid()
        invariant forall s :: s in decisions <==>
                    && s in snapshot && s !in todo && s != update.exchange
                    && now - snapshot[s].receivedAt <= cfg.stalenessThreshold
        invariant forall s | s in decisions :: Decided(fns, update, s, snapshot[s], now, before[s], decisions[s])
        invariant forall s | s in snapshot && s !in decisions ::
                    HistoryOf(update.exchange, s) == old(HistoryOf(update.exchange, s))
        invariant Lists(opps, decisions)
        decreases |todo|
      {
        var sellEx :| sellEx in todo;
        todo := todo - {sellEx};
        if sellEx == update.exchange || now - snapshot[sellEx].receivedAt > cfg.stalenessThreshold {
          continue;
        }
        var found := DetectNext(fns, update, sellEx, snapshot, now, before, decisions);
        ListOneMore(opps, decisions, sellEx, found);
        if found.Some? {
          opps := opps + [found.value];
        }
        decisions := decisions[sellEx := found];
      }
    }
  }

  // ---------- Why the risk manager accepts what Detect emits ----------

  lemma EmittedIsAcceptable(cfg: SpatialConfig, id: string, update: PriceUpdate, sellEx: string, sell: PriceUpdate,
                            now: int, fraction: real, matches: nat, signal: (real, real),
                            spreadStd: real, risk: Risk.RiskConfig)
    requires update.ask != 0.0 && Qualifies(cfg, update, sellEx, sell, now, spreadStd)
    requires 0.0 < fraction <= 1.0 && spreadStd >= 0.0
    requires cfg.maxPositionUSDT >= 0.0 && cfg.corrPenaltyWeight >= 0.0 && cfg.adaptiveCoeff >= 0.0
    requires cfg.maxPositionUSDT <= risk.maxPositionUSDT && cfg.baseMinNetProfitPct >= risk.minNetProfitPct
    ensures var o := Emitted(cfg, id, update, sellEx, sell, now, fraction, matches, signal);
            o.maxVolume * o.buyPrice <= cfg.maxPositionUSDT && Risk.Acceptable(o, risk)
  {
    hide NetProfit, MaxVolume, ImbalancePenalty;
    PositionWithinLimit(cfg, update.ask, fraction, matches);
    ProductNonNeg(cfg.adaptiveCoeff, spreadStd, cfg.adaptiveCoeff * spreadStd);
  }

  /** The deviation the adaptive threshold uses is that of the pair's samples. */
  lemma ThresholdDeviation(s: SpatialStrategy, fns: MathFns, buyEx: string, sellEx: string)
    requires fns.Valid() && (s.ModelOf(buyEx, sellEx) != null ==> s.ModelOf(buyEx, sellEx).Valid())
    ensures var w := s.SamplesOf(buyEx, sellEx);
            s.SpreadStd(fns, buyEx, sellEx) == if |w| < 2 then 0.0 else fns.sqrt(Ssd(w) / (|w| as real))
  {
    var m := s.ModelOf(buyEx, sellEx);
    if m != null {
      StdOfSamples(m, fns);
    }
  }

  /** An opportunity is emitted exactly for a positive gross spread and a positive profit
      by leg, of at least the base share of the price plus the coefficient times the
      population deviation of the pair's samples. */
  lemma EmittedIff(s: SpatialStrategy, fns: MathFns, update: PriceUpdate, sellEx: string, sell: PriceUpdate, now: int,
                   before: seq<real>, found: Option<Opportunity>, profit: real)
    requires fns.Valid() && update.ask != 0.0 && s.Decided(fns, update, sellEx, sell, now, before, found)
    requires s.ModelOf(update.exchange, sellEx) != null ==> s.ModelOf(update.exchange, sellEx).Valid()
    requires IsNetProfit(s.cfg, update, sellEx, sell, now, profit)
    ensures var w := s.SamplesOf(update.exchange, sellEx);
            var deviation := if |w| < 2 then 0.0 else fns.sqrt(Ssd(w) / (|w| as real));
            found.Some? <==>
            && sell.bid > update.ask && profit > 0.0
            && profit / update.ask >= s.cfg.baseMinNetProfitPct + s.cfg.adaptiveCoeff * deviation
  {
    hide NetProfit, IsNetProfit, SpatialStrategy.IsDetection, SpatialStrategy.IsRight, SpatialStrategy.SpreadStd;
    NetProfitByLeg(s.cfg, update, sellEx, sell, now);
    ProfitIsUnique(s.cfg, update, sellEx, sell, now, profit, NetProfit(s.cfg, update, sellEx, sell, now));
    ThresholdDeviation(s, fns, update.exchange, sellEx);
  }

  lemma ProfitIsUnique(cfg: SpatialConfig, update: PriceUpdate, sellEx: string, sell: PriceUpdate, now: int,
                       p: real, q: real)
    requires IsNetProfit(cfg, update, sellEx, sell, now, p) && IsNetProfit(cfg, update, sellEx, sell, now, q)
    ensures p == q
  {
    hide AgeFactor;
  }

  lemma StdNonNeg(m: SpreadModel, fns: MathFns)
    requires fns.Valid()
    ensures m.Std(fns) >= 0.0
  {
  }

  lemma EffectiveFractionRange(s: SpatialStrategy, buyEx: string, sellEx: string)
    requires s.KellyValid() && s.cfg.kellyFraction <= 1.0
    ensures 0.0 < s.EffectiveFraction(buyEx, sellEx) <= 1.0
  {
  }

  lemma FractionBelowOneIff(s: SpatialStrategy, buyEx: string, sellEx: string)
    requires s.KellyValid() && 0.0 < s.cfg.kellyFraction < 1.0
    ensures var est := s.KellyOf(buyEx, sellEx);
            s.EffectiveFraction(buyEx, sellEx) < 1.0 <==>
            && est != null && est.n >= est.minN && est.history != []
            && Kelly.Variance(est.history) > 0.0 && Mean(est.history) > 0.0
    ensures s.EffectiveFraction(buyEx, sellEx) < 1.0 || s.EffectiveFraction(buyEx, sellEx) == 1.0
  {
    var est := s.KellyOf(buyEx, sellEx);
    hide Mean, Ssd, Kelly.Variance;
    if est != null {
      Kelly.FractionPositiveIff(est);
    }
  }

  /** A pair has a Kelly edge: warmed up, on returns that vary, with a positive mean. */
  ghost predicate IsWinning(est: Kelly.KellyEstimator?)
    reads est
  {
    && est != null && est.n >= est.minN && est.history != []
    && Kelly.Variance(est.history) > 0.0 && Mean(est.history) > 0.0
  }

  /** The position emitted when no recent trade touches the pair: the Kelly fraction of
      the limit when that is positive, and the whole limit otherwise. */
  lemma PositionWithoutMatches(s: SpatialStrategy, fns: MathFns, update: PriceUpdate, sellEx: string, sell: PriceUpdate,
                               now: int, before: seq<real>, o: Opportunity)
    requires update.ask != 0.0 && s.Decided(fns, update, sellEx, sell, now, before, Some(o))
    requires forall i | 0 <= i < |s.recentTrades.Window()| ::
               {s.recentTrades.Window()[i].buyEx, s.recentTrades.Window()[i].sellEx} !! {update.exchange, sellEx}
    ensures var kelly := s.KellyOf(update.exchange, sellEx);
            o.maxVolume * o.buyPrice == if kelly != null && kelly.Fraction() > 0.0
                                        then kelly.Fraction() * s.cfg.maxPositionUSDT else s.cfg.maxPositionUSDT
  {
    hide Qualifies, SpatialStrategy.IsDetection, IsScoring, IsNetProfit, ImbalancePenalty;
    RecentTrades.NoMatches(s.recentTrades.Window(), update.exchange, sellEx);
  }

  /** The documented cap, Kelly's fraction of the limit once there are samples, holds
      only for pairs that have been winning: a warmed-up pair without a positive
      mean return or without variance is given the whole limit. */
  lemma KellyReducesSizeIff(s: SpatialStrategy, fns: MathFns, update: PriceUpdate, sellEx: string, sell: PriceUpdate,
                            now: int, before: seq<real>, o: Opportunity)
    requires s.KellyValid() && 0.0 < s.cfg.kellyFraction < 1.0 && s.cfg.maxPositionUSDT > 0.0
    requires update.ask != 0.0 && s.Decided(fns, update, sellEx, sell, now, before, Some(o))
    requires forall i | 0 <= i < |s.recentTrades.Window()| ::
               {s.recentTrades.Window()[i].buyEx, s.recentTrades.Window()[i].sellEx} !! {update.exchange, sellEx}
    ensures o.maxVolume * o.buyPrice < s.cfg.maxPositionUSDT <==> IsWinning(s.KellyOf(update.exchange, sellEx))
    ensures o.maxVolume * o.buyPrice <= s.cfg.maxPositionUSDT
  {
    hide SpatialStrategy.Decided, Mean, Kelly.Variance;
    PositionWithoutMatches(s, fns, update, sellEx, sell, now, before, o);
    var est, limit := s.KellyOf(update.exchange, sellEx), s.cfg.maxPositionUSDT;
    FractionBelowOneIff(s, update.exchange, sellEx);
    if est != null && est.Fraction() > 0.0 {
      ProductPositive(1.0 - est.Fraction(), limit, (1.0 - est.Fraction()) * limit);
    }
  }

  /** Two losing returns of different size: a warmed-up pair, varying and losing. */
  lemma TwoLosses()
    ensures Mean([-0.01, -0.03]) == -0.02 && Kelly.Variance([-0.01, -0.03]) > 0.0
  {
    var s: seq<real> := [-0.01, -0.03];
    assert s[..1] == [-0.01] && s[..1][..0] == [];
    assert Sum(s) == -0.04;
    assert SquaredDeviations(s[..1], -0.02) == Sq(0.01) && SquaredDeviations(s, -0.02) == Sq(0.01) + Sq(-0.01);
  }

  /** A pair that has only ever lost is sized at the whole limit, where a winning
      pair would be held to the Kelly cap. */
  method LosingPairUsesWholeLimit(cfg: SpatialConfig, buyEx: string, sellEx: string) returns (s: SpatialStrategy)
    requires cfg.kellyMinSamples == 2 && 0.0 < cfg.kellyFraction < 1.0
    ensures s.cfg == WithDefaults(cfg) && s.KellyValid()
    ensures s.Returns(buyEx + "-" + sellEx) == [-0.01, -0.03]
    ensures s.KellyOf(buyEx, sellEx) != null && s.KellyOf(buyEx, sellEx).n >= s.KellyOf(buyEx, sellEx).minN
    ensures s.EffectiveFraction(buyEx, sellEx) == 1.0
  {
    hide SpatialStrategy.RingValid, Mean, Kelly.Variance;
    s := new SpatialStrategy(cfg, map[]);
    s.RecordTradeReturn(buyEx, sellEx, -0.01);
    s.RecordTradeReturn(buyEx, sellEx, -0.03);
    TwoLosses();
    FractionBelowOneIff(s, buyEx, sellEx);
  }

  /** Across components: whatever returns and trades were recorded before, an
      opportunity the strategy emits is one the risk manager accepts unless its
      breaker is paused, provided the limits of the two are ordered. */
  lemma DetectionIsAdmitted(s: SpatialStrategy, fns: MathFns, update: PriceUpdate, sellEx: string, sell: PriceUpdate,
                            now: int, before: seq<real>, o: Opportunity, risk: Risk.RiskConfig)
    requires s.KellyValid() && fns.Valid() && update.ask != 0.0
    requires s.Decided(fns, update, sellEx, sell, now, before, Some(o))
    requires s.cfg.kellyFraction <= 1.0
    requires s.cfg.maxPositionUSDT >= 0.0 && s.cfg.corrPenaltyWeight >= 0.0 && s.cfg.adaptiveCoeff >= 0.0
    requires s.cfg.maxPositionUSDT <= risk.maxPositionUSDT && s.cfg.baseMinNetProfitPct >= risk.minNetProfitPct
    ensures o.maxVolume * o.buyPrice <= s.cfg.maxPositionUSDT && Risk.Acceptable(o, risk)
  {
    hide Qualifies, Emitted, RecentTrades.Matches, ScoreSignal, NetPct, RawSpread, SpatialStrategy.IsRight;
    var m := s.ModelOf(update.exchange, sellEx);
    if m != null {
      StdNonNeg(m, fns);
    }
    EffectiveFractionRange(s, update.exchange, sellEx);
    EmittedIsAcceptable(s.cfg, o.id, update, sellEx, sell, now,
                        s.EffectiveFraction(update.exchange, sellEx),
                        RecentTrades.Matches(s.recentTrades.Window(), update.exchange, sellEx),
                        ScoreSignal(fns, m, RawSpread(update, sell), NetPct(s.cfg, update, sellEx, sell, now)),
                        s.SpreadStd(fns, update.exchange, sellEx), risk);
  }

  /** The same for all that one call of Detect returns, in terms of its contract. */
  lemma EveryDetectionIsAdmitted(s: SpatialStrategy, fns: MathFns, update: PriceUpdate, snapshot: Snapshot, now: int,
                                 before: map<string, seq<real>>, decisions: map<string, Option<Opportunity>>,
                                 opps: seq<Opportunity>, risk: Risk.RiskConfig)
    requires s.KellyValid() && fns.Valid() && update.ask != 0.0
    requires decisions.Keys <= snapshot.Keys && decisions.Keys <= before.Keys && Lists(opps, decisions)
    requires forall x | x in decisions :: s.Decided(fns, update, x, snapshot[x], now, before[x], decisions[x])
    requires s.cfg.kellyFraction <= 1.0
    requires s.cfg.maxPositionUSDT >= 0.0 && s.cfg.corrPenaltyWeight >= 0.0 && s.cfg.adaptiveCoeff >= 0.0
    requires s.cfg.maxPositionUSDT <= risk.maxPositionUSDT && s.cfg.baseMinNetProfitPct >= risk.minNetProfitPct
    ensures forall i | 0 <= i < |opps| :: Risk.Acceptable(opps[i], risk)
  {
    hide SpatialStrategy.Decided, SpatialStrategy.KellyValid, Risk.Acceptable;
    forall i | 0 <= i < |opps|
      ensures Risk.Acceptable(opps[i], risk)
    {
      var x := opps[i].sellExchange;
      DetectionIsAdmitted(s, fns, update, x, snapshot[x], now, before[x], opps[i], risk);
    }
  }

  /** The signal scored is the one just inserted, so the z-score is bounded. */
  lemma DetectionZScoreBound(s: SpatialStrategy, fns: MathFns, update: PriceUpdate, sellEx: string, sell: PriceUpdate,
                             now: int, before: seq<real>, o: Opportunity)
    requires fns.Valid() && update.ask > 0.0
    requires s.Decided(fns, update, sellEx, sell, now, before, Some(o))
    requires var m := s.ModelOf(update.exchange, sellEx); m != null ==> m.Valid()
    ensures var m := s.ModelOf(update.exchange, sellEx);
            if m == null then o.zScore == 0.0
            else Sq(o.zScore) <= (m.n - 1) as real <= (m.buf.Length - 1) as real
  {
    hide Qualifies, RecentTrades.Matches, NetPct, MaxVolume, Sq, SpatialStrategy.IsRight, IsScoring;
    var m := s.ModelOf(update.exchange, sellEx);
    if m != null {
      JustInsertedScore(m, fns, RawSpread(update, sell), NetPct(s.cfg, update, sellEx, sell, now));
    }
  }

  /** `opps` are exactly the positive decisions, each once. */
  ghost predicate Lists(opps: seq<Opportunity>, decisions: map<string, Option<Opportunity>>) {
    && (forall i | 0 <= i < |opps| ::
          opps[i].sellExchange in decisions && decisions[opps[i].sellExchange] == Some(opps[i]))
    && (forall s | s in decisions && decisions[s].Some? :: decisions[s].value in opps)
    && (forall i, j | 0 <= i < j < |opps| :: opps[i].sellExchange != opps[j].sellExchange)
  }

  lemma NothingListed()
    ensures Lists([], map[])
  {
  }

  lemma ListOneMore(opps: seq<Opportunity>, decisions: map<string, Option<Opportunity>>, s: string,
                    found: Option<Opportunity>)
    requires Lists(opps, decisions) && s !in decisions
    requires found.Some? ==> found.value.sellExchange == s
    ensures Lists(if found.Some? then opps + [found.value] else opps, decisions[s := found])
  {
  }
}
