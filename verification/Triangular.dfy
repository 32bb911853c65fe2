/** The triangular strategy (internal/strategy/triangular/triangular.go). */
module Triangular {
  import opened Types
  import Spread
  import Cooldown
  import opened ModelTable
  import Ring
  import Welford

  datatype TriangularConfig = TriangularConfig(
    takerFee: real,
    noiseRange: real,
    seedRefPrice: real,
    refreshEvery: int,
    notional: real,
    minNetProfit: real,
    emitCooldown: int)

  /** What the random source would return, scaled to [-1, 1). */
  datatype Draws = Draws(seedRef: real, driftRef: real, seedCross: real)

  predicate ValidDraws(d: Draws) {
    -1.0 <= d.seedRef < 1.0 && -1.0 <= d.driftRef < 1.0 && -1.0 <= d.seedCross < 1.0
  }

  /** USDT to BTC to ETH to USDT, before fees. */
  function RatioA(ask: real, ethRef: real, ethBtc: real): real
    requires ask != 0.0 && ethBtc != 0.0
  {
    ProductNonZero(ask, ethBtc, ask * ethBtc);
    ethRef / (ask * ethBtc)
  }

  /** USDT to ETH to BTC to USDT, before fees. */
  function RatioB(bid: real, ethRef: real, ethBtc: real): real
    requires ethRef != 0.0
  {
    (ethBtc * bid) / ethRef
  }

  function CycleGain(ask: real, bid: real, ethRef: real, ethBtc: real): real
    requires ask != 0.0 && ethRef != 0.0 && ethBtc != 0.0
  {
    var a, b := RatioA(ask, ethRef, ethBtc), RatioB(bid, ethRef, ethBtc);
    (if b > a then b else a) - 1.0
  }

  /** `gain` is what the better of the two cycles returns on one USDT, less that USDT. */
  ghost predicate IsBestCycle(ask: real, bid: real, ethRef: real, ethBtc: real, gain: real)
    requires ask != 0.0 && ethRef != 0.0 && ethBtc != 0.0
  {
    ProductNonZero(ask, ethBtc, ask * ethBtc);
    var a, b := ethRef / (ask * ethBtc), (ethBtc * bid) / ethRef;
    gain + 1.0 >= a && gain + 1.0 >= b && (gain + 1.0 == a || gain + 1.0 == b)
  }

  /** Buying one ETH through BTC costs less than it sells for, or the other way round. */
  ghost predicate PaysOff(ask: real, bid: real, ethRef: real, ethBtc: real) {
    ethRef > ask * ethBtc || ethBtc * bid > ethRef
  }

  lemma CycleGainIsBest(ask: real, bid: real, ethRef: real, ethBtc: real)
    requires ask != 0.0 && ethRef != 0.0 && ethBtc != 0.0
    ensures IsBestCycle(ask, bid, ethRef, ethBtc, CycleGain(ask, bid, ethRef, ethBtc))
  {
  }

  /** The same without a division: among positive prices the amounts `gain + 1` brings
      back cover the price of either way round, and meet that of one of them. */
  lemma GainCoversBothWays(ask: real, bid: real, ethRef: real, ethBtc: real, gain: real)
    requires ask > 0.0 && ethRef > 0.0 && ethBtc > 0.0 && IsBestCycle(ask, bid, ethRef, ethBtc, gain)
    ensures (gain + 1.0) * (ask * ethBtc) >= ethRef && (gain + 1.0) * ethRef >= ethBtc * bid
    ensures (gain + 1.0) * (ask * ethBtc) == ethRef || (gain + 1.0) * ethRef == ethBtc * bid
  {
    var p := ask * ethBtc;
    Welford.ProductPositive(ask, ethBtc, p);
    Covers(gain + 1.0, ethRef, p);
    Covers(gain + 1.0, ethBtc * bid, ethRef);
  }

  lemma Covers(x: real, v: real, n: real)
    requires n > 0.0 && x >= v / n
    ensures x * n >= v
    ensures x == v / n ==> x * n == v
  {
    var q := v / n;
    assert q * n == v;
    assert (x - q) * n >= 0.0;
  }

  lemma GainIffPaysOff(ask: real, bid: real, ethRef: real, ethBtc: real, gain: real)
    requires ask > 0.0 && ethRef > 0.0 && ethBtc > 0.0 && IsBestCycle(ask, bid, ethRef, ethBtc, gain)
    ensures gain > 0.0 <==> PaysOff(ask, bid, ethRef, ethBtc)
  {
    var p, q := ask * ethBtc, ethBtc * bid;
    Welford.ProductPositive(ask, ethBtc, p);
    GainCoversBothWays(ask, bid, ethRef, ethBtc, gain);
    hide IsBestCycle;
    GainSign(gain, p, (gain + 1.0) * p);
    GainSign(gain, ethRef, (gain + 1.0) * ethRef);
  }

  lemma GainSign(gain: real, n: real, total: real)
    requires n > 0.0 && total == (gain + 1.0) * n
    ensures gain > 0.0 <==> total > n
  {
    if gain > 0.0 {
      Welford.ProductPositive(gain, n, gain * n);
    } else {
      assert gain * n <= 0.0;
    }
  }

  lemma ProductNonZero(x: real, y: real, p: real)
    requires x != 0.0 && y != 0.0 && p == x * y
    ensures p != 0.0
  {
  }

  lemma CancelFactor(n: real, a: real, b: real)
    requires n != 0.0 && n * a == n * b
    ensures a == b
  {
  }

  lemma QuotientTimes(x: real, y: real, q: real)
    requires y != 0.0 && q == x / y
    ensures q * y == x
  {
  }

  /** Going round both ways only loses the spread, so never both directions gain. */
  lemma RoundTripLosesSpread(ask: real, bid: real, ethRef: real, ethBtc: real)
    requires 0.0 < bid <= ask && ethRef != 0.0 && ethBtc != 0.0
    ensures RatioA(ask, ethRef, ethBtc) * RatioB(bid, ethRef, ethBtc) == bid / ask <= 1.0
    ensures !(RatioA(ask, ethRef, ethBtc) > 1.0 && RatioB(bid, ethRef, ethBtc) > 1.0)
  {
    var a, b, p, c := RatioA(ask, ethRef, ethBtc), RatioB(bid, ethRef, ethBtc), ask * ethBtc, bid / ask;
    ProductNonZero(ask, ethBtc, p);
    QuotientTimes(ethRef, p, a);
    QuotientTimes(ethBtc * bid, ethRef, b);
    QuotientTimes(bid, ask, c);
    RatioProduct(a, b, c, p, ask, bid, ethRef, ethBtc);
    QuotientAtMostOne(bid, ask, c);
    if a > 1.0 {
      BothAboveOne(a, b, a * b);
    }
  }

  lemma RatioProduct(a: real, b: real, c: real, p: real, ask: real, bid: real, ethRef: real, ethBtc: real)
    requires p != 0.0 && p == ask * ethBtc
    requires a * p == ethRef && b * ethRef == ethBtc * bid && c * ask == bid
    ensures a * b == c
  {
    assert p * (a * b) == b * ethRef;
    assert p * c == ethBtc * bid;
    CancelFactor(p, a * b, c);
  }

  lemma QuotientAtMostOne(x: real, y: real, q: real)
    requires y > 0.0 && x <= y && q * y == x
    ensures q <= 1.0
  {
    if q > 1.0 {
      Welford.ProductPositive(q - 1.0, y, (q - 1.0) * y);
    }
  }

  lemma BothAboveOne(a: real, b: real, p: real)
    requires a > 1.0 && p == a * b <= 1.0
    ensures b <= 1.0
  {
    if b > 1.0 {
      Welford.ProductPositive(a - 1.0, b - 1.0, (a - 1.0) * (b - 1.0));
    }
  }

  /** When the market cross is the implied one there is nothing to gain. */
  lemma NoDivergenceNoGain(ask: real, bid: real, ethRef: real, ethBtc: real)
    requires 0.0 < bid <= ask && ethRef != 0.0 && ethBtc != 0.0
    requires ethBtc * ((ask + bid) / 2.0) == ethRef
    ensures CycleGain(ask, bid, ethRef, ethBtc) <= 0.0
  {
    var mid, p := (ask + bid) / 2.0, ask * ethBtc;
    var a, b := RatioA(ask, ethRef, ethBtc), RatioB(bid, ethRef, ethBtc);
    ProductNonZero(ask, ethBtc, p);
    QuotientTimes(ethRef, p, a);
    QuotientTimes(ethBtc * bid, ethRef, b);
    hide RatioA, RatioB;
    NothingToGain(a, b, ask, bid, mid, ethBtc);
  }

  lemma NothingToGain(a: real, b: real, ask: real, bid: real, mid: real, ethBtc: real)
    requires 0.0 < bid <= mid <= ask && ethBtc != 0.0
    requires a * (ask * ethBtc) == ethBtc * mid && b * (ethBtc * mid) == ethBtc * bid
    ensures a <= 1.0 && b <= 1.0
  {
    CancelFactor(ethBtc, a * ask, mid);
    QuotientAtMostOne(mid, ask, a);
    CancelFactor(ethBtc, b * mid, bid);
    QuotientAtMostOne(bid, mid, b);
  }

  function Noisy(x: real, range: real, draw: real): real {
    x * (1.0 + draw * range)
  }

  /** With noise below 100% a positive price stays positive. */
  lemma NoisyPositive(x: real, range: real, draw: real)
    requires x > 0.0 && 0.0 <= range < 1.0 && -1.0 <= draw < 1.0
    ensures Noisy(x, range, draw) > 0.0
  {
    assert (draw + 1.0) * range >= 0.0;
    Welford.ProductPositive(x, 1.0 + draw * range, x * (1.0 + draw * range));
  }

  lemma QuotientPositive(x: real, y: real)
    requires x > 0.0 && y > 0.0
    ensures x / y > 0.0
  {
  }

  class TriangularStrategy {
    const cfg: TriangularConfig
    var refs: map<string, real>
    var ethBtc: map<string, real>
    var last: map<string, int>
    var lastRefresh: map<string, int>
    var models: map<string, Spread.SpreadModel>
    ghost var emissions: seq<Cooldown.Emission>

    /** Every reference has a refresh time. */
    ghost predicate RefsKnown()
      reads `refs, `lastRefresh
    {
      refs.Keys == lastRefresh.Keys
    }

    ghost predicate LogValid()
      reads `last, `emissions
    {
      Cooldown.Spaced(emissions, cfg.emitCooldown) && last == Cooldown.LastEmissions(emissions)
    }

    ghost predicate Valid()
      reads this, Objects(models)
    {
      RefsKnown() && LogValid() && ValidTable(models)
    }

    constructor (cfg: TriangularConfig)
      ensures Valid() && this.cfg == cfg && refs == map[] && ethBtc == map[] && models == map[] && emissions == []
    {
      this.cfg, refs, ethBtc, last, lastRefresh := cfg, map[], map[], map[], map[];
      models, emissions := map[], [];
    }

    /** A reference is due for a step of its random walk. */
    predicate Due(exchange: string, now: int)
      reads `lastRefresh
    {
      cfg.refreshEvery > 0 && exchange in lastRefresh && now - lastRefresh[exchange] >= cfg.refreshEvery
    }

    /** The ETH/USDT reference that an update at `now` uses. */
    function RefAt(exchange: string, now: int, draws: Draws): real
      reads `refs, `lastRefresh
    {
      if exchange !in refs then Noisy(cfg.seedRefPrice, cfg.noiseRange, draws.seedRef)
      else if Due(exchange, now) then Noisy(refs[exchange], cfg.noiseRange, draws.driftRef)
      else refs[exchange]
    }

    /** The BTC/ETH cross that it uses. */
    function CrossAt(exchange: string, btcMid: real, now: int, draws: Draws): real
      requires btcMid != 0.0
      reads `refs, `lastRefresh, `ethBtc
    {
      if exchange in ethBtc then ethBtc[exchange]
      else Noisy(RefAt(exchange, now, draws) / btcMid, cfg.noiseRange, draws.seedCross)
    }

    /** The update's prices are usable, and no cycle divides by zero on them. */
    predicate Finite(update: PriceUpdate, now: int, draws: Draws)
      reads `refs, `lastRefresh, `ethBtc
    {
      update.ask > 0.0 && update.bid > 0.0 ==>
        && RefAt(update.exchange, now, draws) != 0.0
        && CrossAt(update.exchange, (update.ask + update.bid) / 2.0, now, draws) != 0.0
    }

    ghost predicate PricesPositive()
      reads `refs, `ethBtc
    {
      (forall e | e in refs :: refs[e] > 0.0) && (forall e | e in ethBtc :: ethBtc[e] > 0.0)
    }

    /** With noise below 100% and a positive seed no division by zero ever happens,
        and every price used is positive, so the prices stay positive. */
    lemma AlwaysFinite(update: PriceUpdate, now: int, draws: Draws)
      requires ValidDraws(draws) && 0.0 <= cfg.noiseRange < 1.0 && cfg.seedRefPrice > 0.0 && PricesPositive()
      ensures Finite(update, now, draws) && RefAt(update.exchange, now, draws) > 0.0
      ensures update.ask > 0.0 && update.bid > 0.0 ==>
                CrossAt(update.exchange, (update.ask + update.bid) / 2.0, now, draws) > 0.0
    {
      hide Noisy;
      NoisyPositive(cfg.seedRefPrice, cfg.noiseRange, draws.seedRef);
      if update.exchange in refs {
        NoisyPositive(refs[update.exchange], cfg.noiseRange, draws.driftRef);
      }
      if update.ask > 0.0 && update.bid > 0.0 {
        var ref, mid := RefAt(update.exchange, now, draws), (update.ask + update.bid) / 2.0;
        QuotientPositive(ref, mid);
        NoisyPositive(ref / mid, cfg.noiseRange, draws.seedCross);
      }
    }

    /** Seeds the ETH/USDT reference on first use, and lets it drift once whenever
        it is due; either way it is not due afterwards. */
    method RefreshReference(exchange: string, now: int, draws: Draws)
      requires RefsKnown()
      modifies `refs, `lastRefresh
      ensures RefsKnown() && !Due(exchange, now)
      ensures refs == old(refs)[exchange := old(RefAt(exchange, now, draws))]
      ensures refs[exchange] == if exchange !in old(refs) then
                                  cfg.seedRefPrice * (1.0 + draws.seedRef * cfg.noiseRange)
                                else if cfg.refreshEvery > 0
                                        && now - old(lastRefresh)[exchange] >= cfg.refreshEvery then
                                  old(refs)[exchange] * (1.0 + draws.driftRef * cfg.noiseRange)
                                else old(refs)[exchange]
      ensures lastRefresh == if exchange !in old(refs) || old(Due(exchange, now)) then old(lastRefresh)[exchange := now]
                             else old(lastRefresh)
    {
      if exchange !in refs {
        refs := refs[exchange := Noisy(cfg.seedRefPrice, cfg.noiseRange, draws.seedRef)];
        lastRefresh := lastRefresh[exchange := now];
      }
      if cfg.refreshEvery > 0 {
        if now - lastRefresh[exchange] >= cfg.refreshEvery {
          refs := refs[exchange := Noisy(refs[exchange], cfg.noiseRange, draws.driftRef)];
          lastRefresh := lastRefresh[exchange := now];
        }
      }
    }

    /** Seeds the market cross on first use. The program's drift of an existing
        cross can never happen: the refresh it depends on has just been done. */
    method SeedCross(exchange: string, btcMid: real, now: int, draws: Draws)
      requires RefsKnown() && exchange in refs && btcMid != 0.0 && !Due(exchange, now)
      modifies `ethBtc
      ensures ethBtc == old(ethBtc)[exchange := old(CrossAt(exchange, btcMid, now, draws))]
      ensures ethBtc[exchange] == if exchange in old(ethBtc) then old(ethBtc)[exchange]
                                  else refs[exchange] / btcMid * (1.0 + draws.seedCross * cfg.noiseRange)
      ensures exchange in old(ethBtc) ==> ethBtc == old(ethBtc)
    {
      if exchange !in ethBtc {
        var implied := refs[exchange] / btcMid;
        ethBtc := ethBtc[exchange := Noisy(implied, cfg.noiseRange, draws.seedCross)];
      }
      if cfg.refreshEvery > 0 && now - lastRefresh[exchange] >= cfg.refreshEvery {
        assert false;
      }
    }

    method TryEmit(exchange: string, netProfit: real, now: int) returns (emit: bool)
      requires LogValid() && cfg.emitCooldown >= 0
      modifies `last, `emissions
      ensures LogValid()
      ensures emit <==> netProfit > cfg.minNetProfit
                        && Cooldown.Rested(old(emissions), exchange, now, cfg.emitCooldown)
      ensures emissions == old(emissions) + if emit then [Cooldown.Emission(exchange, now)] else []
    {
      hide Cooldown.LastEmissions, Cooldown.Spaced, Cooldown.Rested;
      assert emissions + [] == emissions;
      if netProfit <= cfg.minNetProfit {
        return false;
      }
      Cooldown.CoolingDownIff(emissions, exchange, now, cfg.emitCooldown);
      if Cooldown.CoolingDown(last, exchange, now, cfg.emitCooldown) {
        return false;
      }
      Cooldown.EmittingKeepsSpacing(emissions, cfg.emitCooldown, Cooldown.Emission(exchange, now));
      last := last[exchange := now];
      emissions := emissions + [Cooldown.Emission(exchange, now)];
      return true;
    }

    /** Times, venues and profit as found, and the score of the gain among the samples
        `w`, with a bounded z-score. The profit scored is the gain after three fees. */
    ghost predicate IsEmission(o: Opportunity, exchange: string, gain: real, now: int,
                               fns: Spread.MathFns, w: seq<real>) {
      && o.buyExchange == o.sellExchange == exchange && o.strategy == "triangular" && o.detectedAt == now
      && o.netProfitPct == gain && o.netProfit == (gain - 3.0 * cfg.takerFee) * cfg.notional
      && o.buyPrice == o.sellPrice == o.maxVolume == 0.0 && o.status == StatusDetected
      && Spread.IsScoring(fns, w, gain, gain - 3.0 * cfg.takerFee, o.zScore, o.score)
      && Welford.Sq(o.zScore) <= 499.0 && 0.0 <= o.score <= 1.0
    }

    /** The part of `Detect` that keeps the three prices up to date: the gain of the
        better cycle, or none when the update has no usable price. */
    method Reprice(update: PriceUpdate, now: int, draws: Draws) returns (gain: Option<real>)
      requires RefsKnown() && Finite(update, now, draws)
      modifies `refs, `ethBtc, `lastRefresh
      ensures RefsKnown() && !Due(update.exchange, now)
      ensures refs == old(refs)[update.exchange := old(RefAt(update.exchange, now, draws))]
      ensures gain.Some? <==> update.ask > 0.0 && update.bid > 0.0
      ensures gain.Some? ==>
                var mid := (update.ask + update.bid) / 2.0;
                && ethBtc == old(ethBtc)[update.exchange := old(CrossAt(update.exchange, mid, now, draws))]
                && GainIs(update, gain.value)
      ensures gain == None || update.exchange in old(ethBtc) ==> ethBtc == old(ethBtc)
    {
      hide Noisy, CycleGain, IsBestCycle, PaysOff;
      RefreshReference(update.exchange, now, draws);
      if update.ask <= 0.0 || update.bid <= 0.0 {
        return None;
      }
      SeedCross(update.exchange, (update.ask + update.bid) / 2.0, now, draws);
      var ethRef, cross := refs[update.exchange], ethBtc[update.exchange];
      gain := Some(CycleGain(update.ask, update.bid, ethRef, cross));
      CycleGainIsBest(update.ask, update.bid, ethRef, cross);
      if ethRef > 0.0 && cross > 0.0 {
        GainIffPaysOff(update.ask, update.bid, ethRef, cross, gain.value);
      }
    }

    /** `gain` is the better cycle's at the update's prices and the current references;
        among positive prices it is a gain exactly when one of the two ways round
        costs less than it brings in. */
    ghost predicate GainIs(update: PriceUpdate, gain: real)
      reads `refs, `ethBtc
    {
      && update.ask > 0.0 && update.exchange in refs && update.exchange in ethBtc
      && refs[update.exchange] != 0.0 && ethBtc[update.exchange] != 0.0
      && IsBestCycle(update.ask, update.bid, refs[update.exchange], ethBtc[update.exchange], gain)
      && (refs[update.exchange] > 0.0 && ethBtc[update.exchange] > 0.0 ==>
            (gain > 0.0 <==> PaysOff(update.ask, update.bid, refs[update.exchange], ethBtc[update.exchange])))
    }

    /** Trains on every update with usable prices, also unprofitable ones, and
        scores the gain it has just trained on. A seeded cross never changes. */
    method Detect(fns: Spread.MathFns, update: PriceUpdate, now: int, draws: Draws)
      returns (opps: seq<Opportunity>, ghost gain: Option<real>)
      requires Valid() && fns.Valid() && Finite(update, now, draws) && cfg.emitCooldown >= 0
      modifies this, Objects(models)
      ensures Valid() && !Due(update.exchange, now)
      ensures refs == old(refs)[update.exchange := old(RefAt(update.exchange, now, draws))]
      ensures gain == None || update.exchange in old(ethBtc) ==> ethBtc == old(ethBtc)
      ensures gain.Some? <==> update.ask > 0.0 && update.bid > 0.0
      ensures gain.Some? ==>
                var mid := (update.ask + update.bid) / 2.0;
                ethBtc == old(ethBtc)[update.exchange := old(CrossAt(update.exchange, mid, now, draws))]
      ensures gain == None ==> opps == [] && models == old(models) && emissions == old(emissions)
      ensures gain.Some? ==>
                && GainIs(update, gain.value)
                && models.Keys == old(models.Keys) + {update.exchange}
                && History(models, update.exchange) == old(History(models, update.exchange)) + [gain.value]
                && (opps != [] <==> (gain.value - 3.0 * cfg.takerFee) * cfg.notional > cfg.minNetProfit
                                    && Cooldown.Rested(old(emissions), update.exchange, now, cfg.emitCooldown))
                && emissions == old(emissions) + if opps != [] then [Cooldown.Emission(update.exchange, now)] else []
      ensures opps != [] ==>
                && gain.Some? && |opps| == 1
                && IsEmission(opps[0], update.exchange, gain.value, now,
                              fns, Ring.LastN(History(models, update.exchange), 500))
    {
      hide RefsKnown, LogValid, ValidTable, Due, RefAt, CrossAt, Finite, GainIs, IsEmission;
      hide Cooldown.Rested;
      opps := [];
      var cycleGain := Reprice(update, now, draws);
      gain := cycleGain;
      if cycleGain.Some? {
        opps := TrainAndEmit(fns, update.exchange, cycleGain.value, now);
      }
    }

    /** The part of `Detect` after the cycle gain is known. */
    method TrainAndEmit(fns: Spread.MathFns, exchange: string, cycleGain: real, now: int)
      returns (opps: seq<Opportunity>)
      requires LogValid() && ValidTable(models) && fns.Valid() && cfg.emitCooldown >= 0
      modifies `models, `last, `emissions, Objects(models)
      ensures LogValid() && ValidTable(models) && unchanged(`refs, `ethBtc, `lastRefresh)
      ensures models.Keys == old(models.Keys) + {exchange}
      ensures History(models, exchange) == old(History(models, exchange)) + [cycleGain]
      ensures opps != [] <==> (cycleGain - 3.0 * cfg.takerFee) * cfg.notional > cfg.minNetProfit
                              && Cooldown.Rested(old(emissions), exchange, now, cfg.emitCooldown)
      ensures emissions == old(emissions) + if opps != [] then [Cooldown.Emission(exchange, now)] else []
      ensures opps != [] ==>
                && |opps| == 1
                && IsEmission(opps[0], exchange, cycleGain, now, fns, Ring.LastN(History(models, exchange), 500))
    {
      hide LogValid, Cooldown.Rested, IsEmission, ValidModel;
      opps := [];
      var sm := TrainModel(exchange, cycleGain);
      var netProfit := (cycleGain - 3.0 * cfg.takerFee) * cfg.notional;
      var emit := TryEmit(exchange, netProfit, now);
      if emit {
        var opp := MakeOpportunity(fns, sm, exchange, cycleGain, now);
        opps := [opp];
      }
    }

    /** The model of `key` learns `x`; nothing but the models changes. */
    method TrainModel(key: string, x: real) returns (sm: Spread.SpreadModel)
      requires ValidTable(models)
      modifies `models, Objects(models)
      ensures ValidTable(models) && ValidModel(sm) && fresh(Objects(models) - old(Objects(models)))
      ensures models == old(models)[key := sm] && sm.history == old(History(models, key)) + [x]
      ensures unchanged(`refs, `ethBtc, `lastRefresh, `last, `emissions)
    {
      hide ValidTable, ValidModel;
      models, sm := Train(models, key, x);
    }

    method MakeOpportunity(fns: Spread.MathFns, sm: Spread.SpreadModel, exchange: string, cycleGain: real, now: int)
      returns (opp: Opportunity)
      requires ValidModel(sm) && fns.Valid()
      requires sm.history != [] && sm.history[|sm.history| - 1] == cycleGain
      ensures IsEmission(opp, exchange, cycleGain, now, fns, Ring.LastN(sm.history, 500))
    {
      hide Spread.ScoreSignal, Spread.IsScoring, ValidModel, Welford.Sq;
      var netGainPerUSDT := cycleGain - 3.0 * cfg.takerFee;
      TrainedScore(sm, fns, cycleGain, netGainPerUSDT);
      var (zScore, score) := Spread.ScoreSignal(fns, sm, cycleGain, netGainPerUSDT);
      var id: string := *;
      opp := Opportunity(id, exchange, exchange, 0.0, 0.0, netGainPerUSDT * cfg.notional, cycleGain, zScore, score, 0.0,
                         now, StatusDetected, "triangular");
    }
  }
}
