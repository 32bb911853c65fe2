/** What the spatial strategy computes for a pair (internal/strategy/spatial/spatial.go,
    fees.go): the cost model, the adaptive threshold, the size and the penalties. */
module SpatialCosts {
  import opened Types
  import opened Welford
  import opened Spread

  datatype FeeConfig = FeeConfig(takerFee: real, slippageFactor: real, withdrawalBTC: real, networkLatencyBps: real)

  const DEFAULT_FEE := FeeConfig(0.001, 0.0002, 0.0002, 2.0)

  datatype SpatialConfig = SpatialConfig(
    fees: map<string, FeeConfig>,
    minNetProfitPct: real,
    maxPositionUSDT: real,
    stalenessThreshold: int,
    imbalancePenaltyWeight: real,
    baseMinNetProfitPct: real,
    adaptiveCoeff: real,
    kellyMinSamples: int,
    kellyFraction: real,
    corrPenaltyWeight: real,
    corrWindowN: nat)

  /** New's defaults for fields left at zero. The window default is only used for
      the ring, not stored. */
  function WithDefaults(cfg: SpatialConfig): SpatialConfig {
    var weight := if cfg.imbalancePenaltyWeight == 0.0 then 0.15 else cfg.imbalancePenaltyWeight;
    var base := if cfg.baseMinNetProfitPct == 0.0 && cfg.minNetProfitPct > 0.0 then cfg.minNetProfitPct
                else cfg.baseMinNetProfitPct;
    var samples := if cfg.kellyMinSamples == 0 then 10 else cfg.kellyMinSamples;
    var fraction := if cfg.kellyFraction == 0.0 then 0.25 else cfg.kellyFraction;
    cfg.(imbalancePenaltyWeight := weight, baseMinNetProfitPct := base, kellyMinSamples := samples,
         kellyFraction := fraction)
  }

  function CorrWindow(cfg: SpatialConfig): (n: nat)
    ensures n >= 1
  {
    if cfg.corrWindowN == 0 then 50 else cfg.corrWindowN
  }

  function FeeFor(fees: map<string, FeeConfig>, exchange: string): FeeConfig {
    if exchange in fees then fees[exchange] else DEFAULT_FEE
  }

  function PairKey(buyEx: string, sellEx: string): string {
    buyEx + "-" + sellEx
  }

  /** For one buy exchange, different sell exchanges have different keys. */
  lemma PairKeyInjective(buyEx: string, s: string, t: string)
    requires PairKey(buyEx, s) == PairKey(buyEx, t)
    ensures s == t
  {
    var n := |buyEx| + 1;
    assert s == PairKey(buyEx, s)[n..] && t == PairKey(buyEx, t)[n..];
  }

  /** Go's Duration.Milliseconds, which truncates towards zero. */
  function Milliseconds(ns: int): int {
    if ns >= 0 then ns / 1_000_000 else -(-ns / 1_000_000)
  }

  function AgeFactor(ns: int): real {
    var f := 1.0 + (Milliseconds(ns) as real) / 1000.0;
    if f > 3.0 then 3.0 else f
  }

  /** What is left of the gross spread after every modelled cost. */
  function NetProfit(cfg: SpatialConfig, update: PriceUpdate, sellEx: string, sell: PriceUpdate, now: int): real {
    var buyFee, sellFee := FeeFor(cfg.fees, update.exchange), FeeFor(cfg.fees, sellEx);
    var gross := sell.bid - update.ask;
    var costBuyFee := update.ask * buyFee.takerFee;
    var costSellFee := sell.bid * sellFee.takerFee;
    var costSlippage := update.ask * buyFee.slippageFactor;
    var costWithdrawal := buyFee.withdrawalBTC * update.ask;
    var costNetLatency := update.ask * buyFee.networkLatencyBps / 10000.0
                          + sell.bid * sellFee.networkLatencyBps / 10000.0 * AgeFactor(now - sell.receivedAt);
    gross - costBuyFee - costSellFee - costSlippage - costWithdrawal - costNetLatency
  }

  /** `profit` is what a unit earns on the sell side less what it costs on the buy
      side: the price of each leg, scaled by that leg's fees. */
  ghost predicate IsNetProfit(cfg: SpatialConfig, update: PriceUpdate, sellEx: string, sell: PriceUpdate, now: int,
                              profit: real) {
    var usual := FeeConfig(0.001, 0.0002, 0.0002, 2.0);
    var buyFee := if update.exchange in cfg.fees then cfg.fees[update.exchange] else usual;
    var sellFee := if sellEx in cfg.fees then cfg.fees[sellEx] else usual;
    profit == sell.bid * (1.0 - sellFee.takerFee
                          - sellFee.networkLatencyBps / 10000.0 * AgeFactor(now - sell.receivedAt))
              - update.ask * (1.0 + buyFee.takerFee + buyFee.slippageFactor + buyFee.withdrawalBTC
                              + buyFee.networkLatencyBps / 10000.0)
  }

  lemma NetProfitByLeg(cfg: SpatialConfig, update: PriceUpdate, sellEx: string, sell: PriceUpdate, now: int)
    ensures IsNetProfit(cfg, update, sellEx, sell, now, NetProfit(cfg, update, sellEx, sell, now))
  {
    hide AgeFactor;
  }

  /** Whole milliseconds of age count one thousandth each, up to two seconds; a quote
      from the future counts the other way. */
  lemma AgeFactorIs(ns: int)
    ensures AgeFactor(ns) == if ns >= 2_000_000_000 then 3.0
                             else if ns >= 0 then 1.0 + (ns / 1_000_000) as real / 1000.0
                             else 1.0 - (-ns / 1_000_000) as real / 1000.0
  {
    if ns >= 0 {
      MillisecondsOrder(ns, ns);
    }
  }

  lemma AgeFactorRange(young: int, aged: int)
    requires 0 <= young <= aged
    ensures 1.0 <= AgeFactor(young) <= AgeFactor(aged) <= 3.0
    ensures AgeFactor(young) == 3.0 <==> young >= 2_000_000_000
  {
    hide Milliseconds;
    MillisecondsOrder(young, aged);
  }

  lemma MillisecondsOrder(young: int, aged: int)
    requires 0 <= young <= aged
    ensures 0 <= Milliseconds(young) <= Milliseconds(aged)
    ensures Milliseconds(young) >= 2000 <==> young >= 2_000_000_000
  {
  }

  /** The older a counterparty's quote, the less it seems to yield. */
  lemma StaleQuotesNeverLookBetter(cfg: SpatialConfig, update: PriceUpdate, sellEx: string, sell: PriceUpdate,
                                   now: int, later: int)
    requires sell.receivedAt <= now <= later
    requires sell.bid >= 0.0 && FeeFor(cfg.fees, sellEx).networkLatencyBps >= 0.0
    ensures NetProfit(cfg, update, sellEx, sell, later) <= NetProfit(cfg, update, sellEx, sell, now)
  {
    hide AgeFactor;
    AgeFactorRange(now - sell.receivedAt, later - sell.receivedAt);
    var rate := sell.bid * FeeFor(cfg.fees, sellEx).networkLatencyBps / 10000.0;
    var a, b := AgeFactor(now - sell.receivedAt), AgeFactor(later - sell.receivedAt);
    var bps := FeeFor(cfg.fees, sellEx).networkLatencyBps;
    ProductNonNeg(sell.bid, bps, sell.bid * bps);
    ProductNonNeg(rate, b - a, rate * (b - a));
  }

  function RawSpread(update: PriceUpdate, sell: PriceUpdate): real {
    if update.ask > 0.0 then (sell.bid - update.ask) / update.ask else 0.0
  }

  function NetPct(cfg: SpatialConfig, update: PriceUpdate, sellEx: string, sell: PriceUpdate, now: int): real
    requires update.ask != 0.0
  {
    NetProfit(cfg, update, sellEx, sell, now) / update.ask
  }

  function AdaptiveMin(cfg: SpatialConfig, spreadStd: real): real {
    cfg.baseMinNetProfitPct + cfg.adaptiveCoeff * spreadStd
  }

  /** The volume reduction for recently traded exchanges. */
  function Penalty(cfg: SpatialConfig, matches: nat): real {
    var p := 1.0 - cfg.corrPenaltyWeight * (matches as real) / (CorrWindow(cfg) as real);
    if p < 0.1 then 0.1 else p
  }

  function MaxVolume(cfg: SpatialConfig, ask: real, fraction: real, matches: nat): real
    requires ask != 0.0
  {
    var baseVolume := fraction * cfg.maxPositionUSDT / ask;
    baseVolume * Penalty(cfg, matches)
  }

  function ImbalancePenalty(cfg: SpatialConfig, sell: PriceUpdate): real {
    if sell.bidSize + sell.askSize > 0.0 then
      var imbalance := (sell.bidSize - sell.askSize) / (sell.bidSize + sell.askSize);
      if imbalance < 0.0 then cfg.imbalancePenaltyWeight * -imbalance else 0.0
    else 0.0
  }

  /** A sell side with more asks than bids loses up to the weight; any other nothing. */
  lemma ImbalancePenaltyRange(cfg: SpatialConfig, sell: PriceUpdate)
    requires cfg.imbalancePenaltyWeight > 0.0 && sell.bidSize >= 0.0 && sell.askSize >= 0.0
    ensures 0.0 <= ImbalancePenalty(cfg, sell) <= cfg.imbalancePenaltyWeight
    ensures ImbalancePenalty(cfg, sell) > 0.0 <==> sell.askSize > sell.bidSize
    ensures ImbalancePenalty(cfg, sell) == cfg.imbalancePenaltyWeight <==> sell.askSize > 0.0 && sell.bidSize == 0.0
  {
    var b, a, w := sell.bidSize, sell.askSize, cfg.imbalancePenaltyWeight;
    if a + b > 0.0 {
      var share := (b - a) / (b + a);
      assert share * (b + a) == b - a;
      ShareSign(share, b, a);
      if share < 0.0 {
        ProductPositive(w, -share, w * -share);
        ProductNonNeg(w, 1.0 + share, w * (1.0 + share));
        if share > -1.0 {
          ProductPositive(w, 1.0 + share, w * (1.0 + share));
        }
      }
    }
  }

  /** It is the weight times the share by which asks outweigh bids. */
  lemma ImbalancePenaltyIs(cfg: SpatialConfig, sell: PriceUpdate)
    requires sell.bidSize >= 0.0 && sell.askSize >= 0.0
    ensures var p := ImbalancePenalty(cfg, sell);
            if sell.askSize > sell.bidSize then
              p * (sell.bidSize + sell.askSize) == cfg.imbalancePenaltyWeight * (sell.askSize - sell.bidSize)
            else p == 0.0
  {
    var b, a, w := sell.bidSize, sell.askSize, cfg.imbalancePenaltyWeight;
    if a + b > 0.0 {
      var share := (b - a) / (b + a);
      QuotientTimes(b - a, b + a, share);
      ShareSign(share, b, a);
      if share < 0.0 {
        assert w * -share * (b + a) == w * -(share * (b + a));
      }
    }
  }

  lemma ShareSign(share: real, b: real, a: real)
    requires b >= 0.0 && a >= 0.0 && a + b > 0.0 && share * (b + a) == b - a
    ensures share >= -1.0 && (share < 0.0 <==> a > b) && (share == -1.0 <==> b == 0.0)
  {
    assert (share + 1.0) * (b + a) == 2.0 * b;
    if share < -1.0 {
      ProductPositive(-1.0 - share, b + a, (-1.0 - share) * (b + a));
    }
    if share < 0.0 {
      ProductPositive(-share, b + a, -share * (b + a));
    } else {
      ProductNonNeg(share, b + a, share * (b + a));
    }
    if share > -1.0 {
      ProductPositive(share + 1.0, b + a, (share + 1.0) * (b + a));
    }
  }

  /** A positive gross spread, a positive net profit, and more of it than the
      adaptive threshold asks for at the pair's current deviation. */
  predicate Qualifies(cfg: SpatialConfig, update: PriceUpdate, sellEx: string, sell: PriceUpdate, now: int,
                      spreadStd: real)
    requires update.ask != 0.0
  {
    && sell.bid - update.ask > 0.0
    && NetProfit(cfg, update, sellEx, sell, now) > 0.0
    && NetProfit(cfg, update, sellEx, sell, now) / update.ask >= cfg.baseMinNetProfitPct + cfg.adaptiveCoeff * spreadStd
  }

  /** The opportunity emitted for a qualifying pair, given its sizing inputs and
      the z-score and score of its signal. */
  function Emitted(cfg: SpatialConfig, id: string, update: PriceUpdate, sellEx: string, sell: PriceUpdate, now: int,
                   fraction: real, matches: nat, signal: (real, real)): Opportunity
    requires update.ask != 0.0
  {
    Opportunity(id, update.exchange, sellEx, update.ask, sell.bid,
                NetProfit(cfg, update, sellEx, sell, now), NetPct(cfg, update, sellEx, sell, now),
                signal.0, signal.1 - ImbalancePenalty(cfg, sell),
                MaxVolume(cfg, update.ask, fraction, matches), now, StatusDetected, "spatial")
  }

  lemma PenaltyRange(cfg: SpatialConfig, matches: nat)
    requires cfg.corrPenaltyWeight >= 0.0
    ensures 0.0 < Penalty(cfg, matches) <= 1.0
  {
    var w, m, n := cfg.corrPenaltyWeight, matches as real, CorrWindow(cfg) as real;
    ProductNonNeg(w, m, w * m);
    QuotientNonNeg(w * m, n);
  }

  lemma ProductNonNeg(x: real, y: real, p: real)
    requires x >= 0.0 && y >= 0.0 && p == x * y
    ensures p >= 0.0
  {
  }

  /** The position's share of the limit: the fraction, reduced by the weight times the
      share of recent trades that touch the pair, but at least to a tenth. */
  ghost predicate IsPosition(cfg: SpatialConfig, fraction: real, matches: nat, volume: real, price: real) {
    var window := if cfg.corrWindowN == 0 then 50 else cfg.corrWindowN;
    var share := 1.0 - cfg.corrPenaltyWeight * (matches as real) / (window as real);
    volume * price == fraction * cfg.maxPositionUSDT * (if share > 0.1 then share else 0.1)
  }

  lemma SizeIsPosition(cfg: SpatialConfig, ask: real, fraction: real, matches: nat)
    requires ask != 0.0
    ensures IsPosition(cfg, fraction, matches, MaxVolume(cfg, ask, fraction, matches), ask)
  {
    var p, used := Penalty(cfg, matches), fraction * cfg.maxPositionUSDT;
    ScaledQuotient(used, ask, p, used / ask * p);
  }

  lemma ScaledQuotient(used: real, ask: real, p: real, volume: real)
    requires ask != 0.0 && volume == used / ask * p
    ensures volume * ask == used * p
  {
    var base := used / ask;
    assert base * ask == used;
    assert base * p * ask == p * used;
  }

  /** More recent trades that touch the pair never make the position larger. */
  lemma PositionNeverGrows(cfg: SpatialConfig, fraction: real, few: nat, many: nat,
                           v: real, w: real, price: real)
    requires few <= many && cfg.corrPenaltyWeight >= 0.0 && fraction * cfg.maxPositionUSDT >= 0.0
    requires IsPosition(cfg, fraction, few, v, price) && IsPosition(cfg, fraction, many, w, price)
    ensures w * price <= v * price
  {
    var weight, n, x := cfg.corrPenaltyWeight, CorrWindow(cfg) as real, fraction * cfg.maxPositionUSDT;
    var a, b := Penalty(cfg, few), Penalty(cfg, many);
    ProductNonNeg(weight, (many - few) as real, weight * ((many - few) as real));
    assert weight * (many as real) - weight * (few as real) == weight * ((many - few) as real);
    QuotientMonotone(weight * (few as real), weight * (many as real), n);
    assert b <= a;
    hide Penalty;
    ProductNonNeg(x, a - b, x * (a - b));
  }

  /** The position opened never exceeds the strategy's limit: both factors that
      scale it are in (0, 1]. */
  lemma PositionWithinLimit(cfg: SpatialConfig, ask: real, fraction: real, matches: nat)
    requires ask != 0.0 && 0.0 < fraction <= 1.0
    requires cfg.maxPositionUSDT >= 0.0 && cfg.corrPenaltyWeight >= 0.0
    ensures MaxVolume(cfg, ask, fraction, matches) * ask <= cfg.maxPositionUSDT
  {
    PenaltyRange(cfg, matches);
    var p, limit := Penalty(cfg, matches), cfg.maxPositionUSDT;
    var used := fraction * limit;
    hide Penalty;
    ShrinkOnce(fraction, limit, used);
    ShrinkOnce(p, used, p * used);
    var base := used / ask;
    assert base * ask == used;
    assert base * p * ask == p * used;
  }

  lemma ShrinkOnce(k: real, x: real, y: real)
    requires 0.0 < k <= 1.0 && x >= 0.0 && y == k * x
    ensures 0.0 <= y <= x
  {
    assert (1.0 - k) * x >= 0.0;
  }
}
