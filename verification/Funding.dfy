/** The live funding strategy (internal/strategy/funding/funding.go). */
module Funding {
  import Types
  import Spread
  import Cooldown
  import opened FundingPair
  import opened ModelTable
  import Ring
  import Welford

  class FundingStrategy {
    const cfg: FundingConfig
    var rates: map<string, real>
    var lastEmit: map<string, int>
    var models: map<string, Spread.SpreadModel>
    ghost var emissions: seq<Cooldown.Emission>

    ghost predicate Valid()
      reads this, Objects(models)
    {
      ValidTable(models) && LogValid()
    }

    ghost predicate LogValid()
      reads `lastEmit, `emissions
    {
      Cooldown.Spaced(emissions, cfg.emitCooldown) && lastEmit == Cooldown.LastEmissions(emissions)
    }

    constructor (cfg: FundingConfig)
      ensures Valid() && this.cfg == cfg && rates == map[] && models == map[] && emissions == []
    {
      this.cfg, rates, lastEmit, models, emissions := cfg, map[], map[], map[], [];
    }

    /** Profit, rate difference and time as found, and the score of the difference
        among the samples `w`, with a bounded z-score. */
    ghost predicate IsEmission(o: Types.Opportunity, lo: string, hi: string, diff: real, now: int,
                               fns: Spread.MathFns, w: seq<real>) {
      && o.buyExchange == lo && o.sellExchange == hi && o.strategy == "funding" && o.detectedAt == now
      && o.netProfitPct == diff && o.netProfit == diff * cfg.notional
      && o.buyPrice == o.sellPrice == o.maxVolume == 0.0 && o.status == Types.StatusDetected
      && Spread.IsScoring(fns, w, diff, diff, o.zScore, o.score)
      && Welford.Sq(o.zScore) <= 499.0 && 0.0 <= o.score <= 1.0
    }

    /** What a tick or an injection leaves in the rate cache; any rates. */
    method SetRates(fetched: map<string, real>)
      requires Valid()
      modifies `rates
      ensures Valid() && rates == old(rates) + fetched
    {
      rates := rates + fetched;
    }

    /** Trains on every call with rates, also below the threshold, and scores the
        differential it has just trained on. `lo` and `hi` are the venues found. */
    method Detect(fns: Spread.MathFns, now: int)
      returns (opps: seq<Types.Opportunity>, ghost lo: string, ghost hi: string)
      requires Valid() && fns.Valid() && cfg.emitCooldown >= 0
      modifies this, Objects(models)
      ensures Valid() && rates == old(rates)
      ensures rates == map[] ==> opps == [] && models == old(models) && emissions == old(emissions)
      ensures rates != map[] ==>
                && IsWidest(rates, lo, hi)
                && models.Keys == old(models.Keys) + {lo + "->" + hi}
                && History(models, lo + "->" + hi) == old(History(models, lo + "->" + hi)) + [rates[hi] - rates[lo]]
                && (opps != [] <==> rates[hi] - rates[lo] >= cfg.threshold
                                    && Cooldown.Rested(old(emissions), lo + "->" + hi, now, cfg.emitCooldown))
                && emissions == old(emissions) + if opps != [] then [Cooldown.Emission(lo + "->" + hi, now)] else []
      ensures opps != [] ==>
                && rates != map[] && |opps| == 1
                && IsEmission(opps[0], lo, hi, rates[hi] - rates[lo], now,
                              fns, Ring.LastN(History(models, lo + "->" + hi), 500))
    {
      hide LogValid, ValidTable, IsEmission, IsWidest, Cooldown.Rested;
      opps, lo, hi := [], "", "";
      if |rates| == 0 {
        return;
      }
      var maxEx, minEx, maxRate, minRate := ScanMaxMin(rates);
      lo, hi := minEx, maxEx;
      opps := TrainAndEmit(fns, minEx, maxEx, maxRate - minRate, now);
    }

    /** The part of `Detect` after the widest pair is known. */
    method TrainAndEmit(fns: Spread.MathFns, minEx: string, maxEx: string, diff: real, now: int)
      returns (opps: seq<Types.Opportunity>)
      requires Valid() && fns.Valid() && cfg.emitCooldown >= 0
      modifies `models, `lastEmit, `emissions, Objects(models)
      ensures Valid() && unchanged(`rates)
      ensures models.Keys == old(models.Keys) + {PairKey(minEx, maxEx)}
      ensures History(models, PairKey(minEx, maxEx)) == old(History(models, PairKey(minEx, maxEx))) + [diff]
      ensures opps != [] <==> diff >= cfg.threshold
                              && Cooldown.Rested(old(emissions), PairKey(minEx, maxEx), now, cfg.emitCooldown)
      ensures emissions == old(emissions) + if opps != [] then [Cooldown.Emission(PairKey(minEx, maxEx), now)] else []
      ensures opps != [] ==>
                && |opps| == 1
                && IsEmission(opps[0], minEx, maxEx, diff, now,
                              fns, Ring.LastN(History(models, PairKey(minEx, maxEx)), 500))
    {
      hide LogValid, IsEmission, ValidModel, Cooldown.Rested;
      opps := [];
      var sm := TrainModel(PairKey(minEx, maxEx), diff);
      var emit := TryEmit(PairKey(minEx, maxEx), diff, now);
      if emit {
        var opp := MakeOpportunity(fns, sm, minEx, maxEx, diff, now);
        opps := [opp];
      }
    }

    /** The threshold and the cooldown; remembers the emission. */
    method TryEmit(key: string, diff: real, now: int) returns (emit: bool)
      requires LogValid() && cfg.emitCooldown >= 0
      modifies `lastEmit, `emissions
      ensures LogValid()
      ensures emit <==> diff >= cfg.threshold && Cooldown.Rested(old(emissions), key, now, cfg.emitCooldown)
      ensures emissions == old(emissions) + if emit then [Cooldown.Emission(key, now)] else []
    {
      hide Cooldown.LastEmissions, Cooldown.Spaced, Cooldown.Rested;
      assert emissions + [] == emissions;
      if diff < cfg.threshold {
        return false;
      }
      Cooldown.CoolingDownIff(emissions, key, now, cfg.emitCooldown);
      if Cooldown.CoolingDown(lastEmit, key, now, cfg.emitCooldown) {
        return false;
      }
      Cooldown.EmittingKeepsSpacing(emissions, cfg.emitCooldown, Cooldown.Emission(key, now));
      lastEmit := lastEmit[key := now];
      emissions := emissions + [Cooldown.Emission(key, now)];
      return true;
    }

    /** The model of `key` learns `x`; nothing but the models changes. */
    method TrainModel(key: string, x: real) returns (sm: Spread.SpreadModel)
      requires ValidTable(models)
      modifies `models, Objects(models)
      ensures ValidTable(models) && ValidModel(sm) && fresh(Objects(models) - old(Objects(models)))
      ensures models == old(models)[key := sm] && sm.history == old(History(models, key)) + [x]
      ensures unchanged(`rates, `lastEmit, `emissions)
    {
      hide ValidTable, ValidModel;
      models, sm := Train(models, key, x);
    }

    method MakeOpportunity(fns: Spread.MathFns, sm: Spread.SpreadModel, minEx: string, maxEx: string,
                           diff: real, now: int)
      returns (opp: Types.Opportunity)
      requires ValidModel(sm) && fns.Valid()
      requires sm.history != [] && sm.history[|sm.history| - 1] == diff
      ensures IsEmission(opp, minEx, maxEx, diff, now, fns, Ring.LastN(sm.history, 500))
    {
      hide Spread.ScoreSignal, Spread.IsScoring, ValidModel, Welford.Sq;
      TrainedScore(sm, fns, diff, diff);
      var (zScore, score) := Spread.ScoreSignal(fns, sm, diff, diff);
      var id: string := *;
      opp := Types.Opportunity(id, minEx, maxEx, 0.0, 0.0, diff * cfg.notional, diff, zScore, score, 0.0,
                         now, Types.StatusDetected, "funding");
    }
  }
}
