/** Per-strategy performance of a trade log (internal/backtest/metrics.go). */
module Metrics {
  import opened Types
  import TradeLog

  datatype StrategyMetrics = StrategyMetrics(
    totalPnL: real,
    maxDrawdown: real,
    hitRate: real,
    profitFactor: real,
    tradeCount: nat)

  /** The trades of one strategy, in order. */
  function Of(trades: seq<Trade>, strategy: string): seq<Trade> {
    if trades == [] then []
    else
      var n := |trades| - 1;
      Of(trades[..n], strategy) + if trades[n].strategy == strategy then [trades[n]] else []
  }

  /** Exactly the trades of that strategy are kept, as often as they occur. */
  lemma {:induction false} OfKeepsExactly(trades: seq<Trade>, s: string, t: Trade)
    ensures multiset(Of(trades, s))[t] == if t.strategy == s then multiset(trades)[t] else 0
  {
    if trades == [] {
    } else {
      hide Of;
      var n := |trades| - 1;
      OfKeepsExactly(trades[..n], s, t);
      OfLast(trades, s);
      assert trades == trades[..n] + [trades[n]];
    }
  }

  /** And in their order. */
  lemma {:induction false} OfConcat(a: seq<Trade>, b: seq<Trade>, s: string)
    ensures Of(a + b, s) == Of(a, s) + Of(b, s)
  {
    hide Of;
    if b == [] {
      assert a + b == a;
      OfNone(s);
    } else {
      var n := |b| - 1;
      OfConcat(a, b[..n], s);
      OfLast(b, s);
      OfLast(a + b, s);
      assert (a + b)[..|a| + n] == a + b[..n];
    }
  }

  lemma OfNone(s: string)
    ensures Of([], s) == []
  {
  }

  lemma OfLast(trades: seq<Trade>, s: string)
    requires trades != []
    ensures var n := |trades| - 1;
            Of(trades, s) == Of(trades[..n], s) + if trades[n].strategy == s then [trades[n]] else []
  {
  }

  method SumNetProfit(trades: seq<Trade>) returns (total: real)
    ensures total == TradeLog.NetProfitSum(trades)
  {
    total := 0.0;
    for i := 0 to |trades|
      invariant total == TradeLog.NetProfitSum(trades[..i])
    {
      total := total + trades[i].netProfit;
      assert trades[..i + 1][..i] == trades[..i];
    }
    assert trades[..|trades|] == trades;
  }

  // ---------- Drawdown ----------

  /** Cumulative profit after the first `i` trades. */
  function Equity(trades: seq<Trade>, i: nat): real
    requires i <= |trades|
  {
    TradeLog.NetProfitSum(trades[..i])
  }

  /** The largest fall from any point of the equity curve to any later one. */
  ghost predicate IsMaxDrawdown(trades: seq<Trade>, dd: real) {
    && (exists i, j | 0 <= i <= j <= |trades| :: dd == Equity(trades, i) - Equity(trades, j))
    && (forall i, j | 0 <= i <= j <= |trades| :: Equity(trades, i) - Equity(trades, j) <= dd)
  }

  lemma EquityStep(trades: seq<Trade>, n: nat)
    requires n < |trades|
    ensures Equity(trades, n + 1) == Equity(trades, n) + trades[n].netProfit
  {
    assert trades[..n + 1][..n] == trades[..n];
  }

  /** One pass with a running peak finds the maximum over all pairs. */
  method MaxDrawdown(trades: seq<Trade>) returns (dd: real)
    ensures IsMaxDrawdown(trades, dd)
  {
    hide Equity, FallsAtMost, PeakedAtMost, IsMaxDrawdown;
    DrawdownStarts(trades);
    if |trades| == 0 {
      DrawdownFound(trades, 0.0, 0, 0);
      return 0.0;
    }
    var peak, eq := 0.0, 0.0;
    dd := 0.0;
    ghost var top, from, to := 0, 0, 0;
    for n := 0 to |trades|
      invariant eq == Equity(trades, n)
      invariant 0 <= top <= n && peak == Equity(trades, top) && PeakedAtMost(trades, n, peak)
      invariant 0 <= from <= to <= n && dd == Equity(trades, from) - Equity(trades, to)
      invariant FallsAtMost(trades, n, dd)
    {
      EquityStep(trades, n);
      eq := eq + trades[n].netProfit;
      ghost var dd0, peak0 := dd, peak;
      if eq > peak {
        peak := eq;
        top := n + 1;
      }
      var drop := peak - eq;
      if drop > dd {
        dd := drop;
        from, to := top, n + 1;
      }
      DrawdownStep(trades, n, dd0, dd, peak0, peak);
    }
    DrawdownFound(trades, dd, from, to);
  }

  ghost predicate FallsAtMost(trades: seq<Trade>, n: nat, dd: real)
    requires n <= |trades|
  {
    forall i, j | 0 <= i <= j <= n :: Equity(trades, i) - Equity(trades, j) <= dd
  }

  ghost predicate PeakedAtMost(trades: seq<Trade>, n: nat, peak: real)
    requires n <= |trades|
  {
    forall i | 0 <= i <= n :: Equity(trades, i) <= peak
  }

  lemma DrawdownStarts(trades: seq<Trade>)
    ensures Equity(trades, 0) == 0.0 && FallsAtMost(trades, 0, 0.0) && PeakedAtMost(trades, 0, 0.0)
  {
  }

  lemma DrawdownStep(trades: seq<Trade>, n: nat, dd: real, dd': real, peak: real, peak': real)
    requires n < |trades| && FallsAtMost(trades, n, dd) && PeakedAtMost(trades, n, peak)
    requires dd <= dd' && peak <= peak' && Equity(trades, n + 1) <= peak' && peak' - Equity(trades, n + 1) <= dd'
    ensures FallsAtMost(trades, n + 1, dd') && PeakedAtMost(trades, n + 1, peak')
  {
    hide Equity;
    forall i | 0 <= i <= n + 1
      ensures Equity(trades, i) <= peak'
    {
    }
  }

  lemma DrawdownFound(trades: seq<Trade>, dd: real, i: nat, j: nat)
    requires i <= j <= |trades| && dd == Equity(trades, i) - Equity(trades, j) && FallsAtMost(trades, |trades|, dd)
    ensures IsMaxDrawdown(trades, dd)
  {
  }

  lemma DrawdownIsUnique(trades: seq<Trade>, d: real, e: real)
    requires IsMaxDrawdown(trades, d) && IsMaxDrawdown(trades, e)
    ensures d == e
  {
    var i, j :| 0 <= i <= j <= |trades| && d == Equity(trades, i) - Equity(trades, j);
    var k, l :| 0 <= k <= l <= |trades| && e == Equity(trades, k) - Equity(trades, l);
  }

  /** Zero exactly when no trade loses: the curve never declines. */
  lemma NoDrawdownIffNoLoss(trades: seq<Trade>, dd: real)
    requires IsMaxDrawdown(trades, dd)
    ensures dd >= 0.0
    ensures dd == 0.0 <==> forall i | 0 <= i < |trades| :: trades[i].netProfit >= 0.0
  {
    assert Equity(trades, 0) - Equity(trades, 0) <= dd;
    forall i | 0 <= i < |trades|
      ensures Equity(trades, i + 1) == Equity(trades, i) + trades[i].netProfit
      ensures dd == 0.0 ==> trades[i].netProfit >= 0.0
    {
      EquityStep(trades, i);
      assert Equity(trades, i) - Equity(trades, i + 1) <= dd;
    }
    if forall i | 0 <= i < |trades| :: trades[i].netProfit >= 0.0 {
      var i, j :| 0 <= i <= j <= |trades| && dd == Equity(trades, i) - Equity(trades, j);
      RisingEquity(trades, i, j);
    }
  }

  lemma {:induction false} RisingEquity(trades: seq<Trade>, i: nat, j: nat)
    requires i <= j <= |trades| && forall k | 0 <= k < |trades| :: trades[k].netProfit >= 0.0
    ensures Equity(trades, i) <= Equity(trades, j)
    decreases j - i
  {
    if i == j {
    } else {
      RisingEquity(trades, i, j - 1);
      EquityStep(trades, j - 1);
    }
  }

  // ---------- Hit rate and profit factor ----------

  function Wins(trades: seq<Trade>): nat {
    if trades == [] then 0
    else Wins(trades[..|trades| - 1]) + if trades[|trades| - 1].netProfit > 0.0 then 1 else 0
  }

  /** The sum of the positive (or of the negative) net profits. */
  function Gains(trades: seq<Trade>, positive: bool): real {
    if trades == [] then 0.0
    else
      var v := trades[|trades| - 1].netProfit;
      Gains(trades[..|trades| - 1], positive) + if (v > 0.0) == positive then v else 0.0
  }

  /** The number of trades that made money. */
  lemma {:induction false} WinsCount(trades: seq<Trade>)
    ensures Wins(trades) == |set i | 0 <= i < |trades| && trades[i].netProfit > 0.0|
  {
    var all := set i | 0 <= i < |trades| && trades[i].netProfit > 0.0;
    if trades == [] {
      assert all == {};
    } else {
      var n := |trades| - 1;
      WinsCount(trades[..n]);
      var some := set i | 0 <= i < n && trades[..n][i].netProfit > 0.0;
      assert all == some + if trades[n].netProfit > 0.0 then {n} else {};
    }
  }

  lemma {:induction false} GainsConcat(a: seq<Trade>, b: seq<Trade>, positive: bool)
    ensures Gains(a + b, positive) == Gains(a, positive) + Gains(b, positive)
  {
    if b == [] {
      assert a + b == a;
    } else {
      var n := |b| - 1;
      GainsConcat(a, b[..n], positive);
      assert (a + b)[..|a| + n] == a + b[..n];
    }
  }

  /** Each trade counts in full on the side of its sign. */
  lemma GainsOfOne(t: Trade)
    ensures Gains([t], true) == (if t.netProfit > 0.0 then t.netProfit else 0.0)
    ensures Gains([t], false) == (if t.netProfit < 0.0 then t.netProfit else 0.0)
  {
    assert [t][..0] == [];
  }

  /** The share of the trades that made money. */
  ghost predicate IsHitRate(trades: seq<Trade>, rate: real) {
    var winners := set i | 0 <= i < |trades| && trades[i].netProfit > 0.0;
    && (trades == [] ==> rate == 0.0)
    && rate * (|trades| as real) == |winners| as real
  }

  lemma ShareIsHitRate(trades: seq<Trade>, wins: nat, rate: real)
    requires wins == Wins(trades)
    requires rate == if trades == [] then 0.0 else (wins as real) / (|trades| as real)
    ensures IsHitRate(trades, rate)
  {
    WinsCount(trades);
    hide Wins;
    if trades != [] {
      Quotient(wins as real, |trades| as real, rate);
    }
  }

  lemma Quotient(a: real, b: real, q: real)
    requires b != 0.0 && q == a / b
    ensures q * b == a
  {
  }

  method HitRate(trades: seq<Trade>) returns (rate: real)
    ensures IsHitRate(trades, rate)
  {
    if |trades| == 0 {
      ShareIsHitRate(trades, 0, 0.0);
      return 0.0;
    }
    var wins := 0;
    for i := 0 to |trades|
      invariant wins == Wins(trades[..i])
    {
      if trades[i].netProfit > 0.0 {
        wins := wins + 1;
      }
      assert trades[..i + 1][..i] == trades[..i];
    }
    assert trades[..|trades|] == trades;
    rate := (wins as real) / (|trades| as real);
    ShareIsHitRate(trades, wins, rate);
  }

  function ProfitFactorOf(trades: seq<Trade>): real {
    if trades == [] then 0.0
    else if Gains(trades, false) == 0.0 then 999.0
    else Gains(trades, true) / Abs(Gains(trades, false))
  }

  function Abs(x: real): (a: real)
    ensures x != 0.0 ==> a != 0.0
  {
    if x < 0.0 then -x else x
  }

  method ProfitFactor(trades: seq<Trade>) returns (factor: real)
    ensures factor == ProfitFactorOf(trades)
    ensures trades == [] ==> factor == 0.0
    ensures trades != [] && Gains(trades, false) == 0.0 ==> factor == 999.0
    ensures Gains(trades, false) != 0.0 ==> factor * -Gains(trades, false) == Gains(trades, true)
  {
    if |trades| == 0 {
      return 0.0;
    }
    var pos, neg := 0.0, 0.0;
    for i := 0 to |trades|
      invariant pos == Gains(trades[..i], true) && neg == Gains(trades[..i], false)
    {
      var v := trades[i].netProfit;
      if v > 0.0 {
        pos := pos + v;
      } else if v < 0.0 {
        neg := neg + v;
      }
      assert trades[..i + 1][..i] == trades[..i];
    }
    assert trades[..|trades|] == trades;
    if neg == 0.0 {
      return 999.0;
    }
    factor := pos / Abs(neg);
  }

  /** Gains and losses add up to the total, and there are gains exactly when there
      are hits. */
  lemma {:induction false} GainsAndLosses(trades: seq<Trade>)
    ensures Gains(trades, true) + Gains(trades, false) == TradeLog.NetProfitSum(trades)
    ensures Gains(trades, true) >= 0.0 >= Gains(trades, false)
    ensures Wins(trades) <= |trades|
    ensures Wins(trades) > 0 <==> Gains(trades, true) > 0.0
  {
    if trades == [] {
    } else {
      GainsAndLosses(trades[..|trades| - 1]);
    }
  }

  /** The factor exceeds one exactly when there is a total profit, or when there are
      trades and none of them loses. */
  lemma ProfitFactorAboveOneIff(trades: seq<Trade>)
    ensures ProfitFactorOf(trades) > 1.0 <==>
            TradeLog.NetProfitSum(trades) > 0.0 || (trades != [] && Gains(trades, false) == 0.0)
  {
    GainsAndLosses(trades);
    hide Gains, TradeLog.NetProfitSum;
    var g, l := Gains(trades, true), -Gains(trades, false);
    if trades == [] {
      EmptySums();
    } else if l != 0.0 {
      var f := g / l;
      assert f * l == g;
      RatioAboveOne(f, l, g);
    }
  }

  lemma EmptySums()
    ensures TradeLog.NetProfitSum([]) == 0.0 && Gains([], false) == 0.0
  {
  }

  /** So above one does not mean a profit: one break-even trade has the factor 999. */
  lemma BreakEvenFactor(t: Trade)
    requires t.netProfit == 0.0
    ensures ProfitFactorOf([t]) == 999.0 && TradeLog.NetProfitSum([t]) == 0.0
  {
    EmptySums();
    assert [t][..0] == [];
  }

  lemma RatioAboveOne(f: real, l: real, g: real)
    requires l > 0.0 && f * l == g
    ensures f > 1.0 <==> g > l
  {
    if f > 1.0 {
      assert (f - 1.0) * l > 0.0;
    }
  }

  // ---------- All metrics ----------

  ghost predicate AreMetricsOf(m: StrategyMetrics, trades: seq<Trade>) {
    && m.totalPnL == TradeLog.NetProfitSum(trades)
    && m.tradeCount == |trades|
    && IsMaxDrawdown(trades, m.maxDrawdown)
    && IsHitRate(trades, m.hitRate)
    && m.profitFactor == ProfitFactorOf(trades)
  }

  /** Every strategy with a trade is a key, and its group is its trades. */
  ghost predicate IsGrouping(trades: seq<Trade>, groups: map<string, seq<Trade>>) {
    forall s :: Of(trades, s) == if s in groups then groups[s] else []
  }

  lemma GroupingStep(trades: seq<Trade>, i: nat, groups: map<string, seq<Trade>>)
    requires i < |trades| && IsGrouping(trades[..i], groups)
    ensures var t := trades[i];
            IsGrouping(trades[..i + 1],
                       groups[t.strategy := (if t.strategy in groups then groups[t.strategy] else []) + [t]])
  {
    assert trades[..i + 1][..i] == trades[..i];
  }

  method GroupByStrategy(trades: seq<Trade>) returns (groups: map<string, seq<Trade>>)
    ensures forall s :: s in groups <==> Of(trades, s) != []
    ensures forall s | s in groups :: groups[s] == Of(trades, s)
  {
    groups := map[];
    assert IsGrouping(trades[..0], groups);
    for i := 0 to |trades|
      invariant IsGrouping(trades[..i], groups)
      invariant forall s | s in groups :: groups[s] != []
    {
      hide IsGrouping;
      var t := trades[i];
      GroupingStep(trades, i, groups);
      groups := groups[t.strategy := (if t.strategy in groups then groups[t.strategy] else []) + [t]];
    }
    assert trades[..|trades|] == trades;
  }

  method ComputeMetrics(trades: seq<Trade>) returns (result: map<string, StrategyMetrics>)
    ensures forall s :: s in result <==> Of(trades, s) != []
    ensures forall s | s in result :: AreMetricsOf(result[s], Of(trades, s))
  {
    if |trades| == 0 {
      return map[];
    }
    var byStrategy := GroupByStrategy(trades);
    result := map[];
    var todo := byStrategy.Keys;
    while todo != {}
      invariant todo <= byStrategy.Keys && result.Keys == byStrategy.Keys - todo
      invariant forall s | s in result :: AreMetricsOf(result[s], Of(trades, s))
      decreases |todo|
    {
      var strat :| strat in todo;
      todo := todo - {strat};
      var st := byStrategy[strat];
      var total := SumNetProfit(st);
      var dd := MaxDrawdown(st);
      var hits := HitRate(st);
      var factor := ProfitFactor(st);
      result := result[strat := StrategyMetrics(total, dd, hits, factor, |st|)];
    }
  }
}
