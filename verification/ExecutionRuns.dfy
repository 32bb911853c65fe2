/** What holds of every run of the executor: money is conserved, no balance
    goes negative, and every trade is the best its two books allowed. */
module ExecutionRuns {
  import opened Types
  import opened Depth
  import opened Wallet
  import opened Execution
  import TradeLog

  datatype Call = Call(env: Env, opp: Opportunity)

  /** `trace[i + 1]` is the ledger after the `i`-th call. */
  ghost predicate IsRun(trace: seq<Ledger>, calls: seq<Call>, cfg: ExecConfig) {
    && |trace| == |calls| + 1
    && forall i | 0 <= i < |calls| ::
         && ValidEnv(calls[i].env, cfg, calls[i].opp)
         && Step(trace[i], calls[i].env, cfg, calls[i].opp, trace[i + 1])
  }

  ghost predicate Covers(exchanges: set<string>, calls: seq<Call>) {
    forall i | 0 <= i < |calls| :: calls[i].opp.buyExchange in exchanges && calls[i].opp.sellExchange in exchanges
  }

  lemma StepConserves(s: Ledger, env: Env, cfg: ExecConfig, opp: Opportunity, s': Ledger, exchanges: set<string>)
    requires ValidEnv(env, cfg, opp) && Step(s, env, cfg, opp, s')
    requires opp.buyExchange in exchanges && opp.sellExchange in exchanges
    ensures Total(exchanges, s'.balances, BTC) == Total(exchanges, s.balances, BTC)
    ensures Total(exchanges, s'.balances, USDT) - Total(exchanges, s.balances, USDT)
            == TradeLog.NetProfitSum(s'.trades) - TradeLog.NetProfitSum(s.trades)
    ensures s.trades <= s'.trades
  {
    hide Target, Asks, Bids, Total;
    if Executable(s.balances, env, cfg, opp) {
      var q := Bought(s.balances, env, cfg, opp);
      var paid, earned := Paid(s.balances, env, cfg, opp), Earned(s.balances, env, cfg, opp);
      hide Executable, Bought, Paid, Earned;
      TotalOfTwoShifts(exchanges, s.balances, s'.balances, BTC, opp.buyExchange, q, opp.sellExchange, -q);
      TotalOfTwoShifts(exchanges, s.balances, s'.balances, USDT, opp.buyExchange, -paid, opp.sellExchange, earned);
    } else {
      TotalOfSame(exchanges, s.balances, s'.balances, BTC);
      TotalOfSame(exchanges, s.balances, s'.balances, USDT);
    }
  }

  /** Over every run, BTC is only moved and USDT grows by exactly the net profit
      of the trades saved. */
  lemma {:induction false} MoneyIsConserved(trace: seq<Ledger>, calls: seq<Call>, cfg: ExecConfig,
                                            exchanges: set<string>)
    requires IsRun(trace, calls, cfg) && Covers(exchanges, calls)
    ensures var first, last := trace[0], trace[|calls|];
            && Total(exchanges, last.balances, BTC) == Total(exchanges, first.balances, BTC)
            && Total(exchanges, last.balances, USDT)
               == Total(exchanges, first.balances, USDT)
                  + TradeLog.NetProfitSum(last.trades) - TradeLog.NetProfitSum(first.trades)
            && first.trades <= last.trades
  {
    if calls == [] {
    } else {
      var n := |calls| - 1;
      MoneyIsConserved(trace[..n + 1], calls[..n], cfg, exchanges);
      StepConserves(trace[n], calls[n].env, cfg, calls[n].opp, trace[n + 1], exchanges);
    }
  }

  /** Total BTC is unchanged, and total USDT grew by what the trades logged in between
      say; over whatever exchanges the wallet knows before and after. */
  ghost predicate Conserved(first: Ledger, last: Ledger) {
    && first.trades <= last.trades
    && Total(last.balances.Keys, last.balances, BTC) == Total(first.balances.Keys, first.balances, BTC)
    && Total(last.balances.Keys, last.balances, USDT)
       == Total(first.balances.Keys, first.balances, USDT) + TradeLog.NetProfitSum(last.trades[|first.trades|..])
  }

  /** The same for the wallet's own totals. */
  lemma WalletTotalsFollowTheLog(trace: seq<Ledger>, calls: seq<Call>, cfg: ExecConfig)
    requires IsRun(trace, calls, cfg)
    ensures Conserved(trace[0], trace[|calls|])
  {
    var first, last := trace[0], trace[|calls|];
    var all := first.balances.Keys + last.balances.Keys
               + (set i | 0 <= i < |calls| :: calls[i].opp.buyExchange)
               + (set i | 0 <= i < |calls| :: calls[i].opp.sellExchange);
    MoneyIsConserved(trace, calls, cfg, all);
    forall c | c in {BTC, USDT}
      ensures Total(all, first.balances, c) == Total(first.balances.Keys, first.balances, c)
      ensures Total(all, last.balances, c) == Total(last.balances.Keys, last.balances, c)
    {
      TotalOfWallet(all, first.balances, c);
      TotalOfWallet(all, last.balances, c);
    }
    var added := last.trades[|first.trades|..];
    assert last.trades == first.trades + added;
    TradeLog.NetProfitOfConcat(first.trades, added);
  }

  // ---------- Every trade keeps to its limits ----------

  /** The trade at position `j` of the log is the one of call `i`, within its limits. */
  ghost predicate IsTradeOfCall(trace: seq<Ledger>, calls: seq<Call>, trades: seq<Trade>, i: nat, j: nat)
    requires |trace| == |calls| + 1 && j < |trades|
  {
    && i < |calls| && |trace[i].trades| == j
    && trades[j].opportunityId == calls[i].opp.id
    && calls[i].opp.buyExchange in calls[i].env.snapshot
    && WithinLimits(trades[j], trace[i].balances, calls[i].env, calls[i].opp)
    && trades[j].volume <= calls[i].opp.maxVolume
  }

  /** Over every run each trade logged belongs to one of the calls, and is for no more
      than that call's opportunity allows and its buyer could afford. */
  lemma {:induction false} EveryTradeWithinLimits(trace: seq<Ledger>, calls: seq<Call>, cfg: ExecConfig, j: nat)
    returns (i: nat)
    requires IsRun(trace, calls, cfg)
    requires forall k | 0 <= k < |calls| && calls[k].opp.buyExchange in calls[k].env.snapshot ::
               calls[k].env.snapshot[calls[k].opp.buyExchange].ask > 0.0
    requires |trace[0].trades| <= j < |trace[|calls|].trades|
    ensures IsTradeOfCall(trace, calls, trace[|calls|].trades, i, j)
  {
    var n := |calls| - 1;
    var s, call, s' := trace[n], calls[n], trace[n + 1];
    if j < |s.trades| {
      assert trace[..n + 1][n] == trace[n];
      i := EveryTradeWithinLimits(trace[..n + 1], calls[..n], cfg, j);
      assert s'.trades[j] == s.trades[j];
      assert IsTradeOfCall(trace[..n + 1], calls[..n], s.trades, i, j);
    } else {
      i := n;
      StepWithinLimits(s, call.env, cfg, call.opp, s');
    }
  }

  // ---------- No balance goes negative ----------

  /** The sell side never quotes a negative price. */
  ghost predicate BidsNonNeg(call: Call, cfg: ExecConfig)
    requires ValidEnv(call.env, cfg, call.opp)
  {
    Fresh(call.env, cfg, call.opp) ==> NonNegPrice(Bids(call.env, cfg, call.opp))
  }

  lemma StepKeepsNonNegative(s: Ledger, call: Call, cfg: ExecConfig, s': Ledger)
    requires ValidEnv(call.env, cfg, call.opp) && Step(s, call.env, cfg, call.opp, s')
    requires NonNegative(s.balances) && BidsNonNeg(call, cfg)
    ensures NonNegative(s'.balances)
  {
    hide Target, Asks, Bids, Cost, Takes, Size;
    if Executable(s.balances, call.env, cfg, call.opp) {
      BooksNonNeg(call.env, cfg, call.opp);
      var bids, q := Bids(call.env, cfg, call.opp), Bought(s.balances, call.env, cfg, call.opp);
      GreedyIsFeasible(bids, q);
      CostAtLeast(bids, Takes(bids, q), 0.0);
      assert Earned(s.balances, call.env, cfg, call.opp) >= 0.0;
    }
  }

  lemma {:induction false} NoBalanceGoesNegative(trace: seq<Ledger>, calls: seq<Call>, cfg: ExecConfig)
    requires IsRun(trace, calls, cfg) && NonNegative(trace[0].balances)
    requires forall i | 0 <= i < |calls| :: BidsNonNeg(calls[i], cfg)
    ensures forall i | 0 <= i < |trace| :: NonNegative(trace[i].balances)
  {
    if calls == [] {
    } else {
      var n := |calls| - 1;
      assert forall i | 0 <= i < n :: calls[..n][i] == calls[i] && trace[..n + 1][i] == trace[i];
      NoBalanceGoesNegative(trace[..n + 1], calls[..n], cfg);
      assert trace[..n + 1][n] == trace[n];
      StepKeepsNonNegative(trace[n], calls[n], cfg, trace[n + 1]);
      forall i | 0 <= i < |trace|
        ensures NonNegative(trace[i].balances)
      {
        if i <= n {
          assert trace[..n + 1][i] == trace[i];
        }
      }
    }
  }

  /** A synthetic bid book reaches a negative price exactly when its last level
      is more than 100% below the best bid. */
  lemma SyntheticBidsNonNegIff(bbo: real, cfg: DepthConfig, draws: seq<real>)
    requires ValidConfig(cfg) && ValidDraws(draws, cfg) && bbo > 0.0 && cfg.n > 0
    ensures NonNegPrice(SyntheticBids(bbo, cfg, draws)) <==> cfg.stepPct * ((cfg.n - 1) as real) <= 1.0
  {
    var levels, x := SyntheticBids(bbo, cfg, draws), cfg.stepPct * ((cfg.n - 1) as real);
    SyntheticBidsShape(bbo, cfg, draws);
    var last := levels[cfg.n - 1].price;
    assert last == bbo * (1.0 - x);
    if x <= 1.0 {
      assert last >= 0.0;
      assert forall i | 0 <= i < |levels| :: levels[i].price >= last;
    } else {
      assert last < 0.0;
    }
  }

  // ---------- The quality of a trade ----------

  /** Neither leg could have been filled better from the same books. */
  lemma TradeIsBestExecution(t: Trade, b: Balances, env: Env, cfg: ExecConfig, opp: Opportunity,
                             buys: seq<real>, sells: seq<real>)
    requires ValidEnv(env, cfg, opp) && Executable(b, env, cfg, opp) && IsRecordOf(t, b, env, cfg, opp)
    requires Ascending(Asks(env, cfg, opp)) && Descending(Bids(env, cfg, opp))
    requires Feasible(Asks(env, cfg, opp), buys) && Size(buys) == t.volume
    requires Feasible(Bids(env, cfg, opp), sells) && Size(sells) == t.volume
    ensures t.netProfit >= Cost(Bids(env, cfg, opp), sells) - Cost(Asks(env, cfg, opp), buys)
  {
    hide Target, Asks, Bids, Cost, Takes, Size;
    BooksNonNeg(env, cfg, opp);
    WalkFillsMinimum(Bids(env, cfg, opp), t.volume);
    GreedyBuysCheapest(Asks(env, cfg, opp), t.requestedVolume, buys);
    GreedySellsDearest(Bids(env, cfg, opp), t.volume, sells);
  }

  lemma PriceOfRecord(levels: seq<Level>, target: real, price: real)
    requires Filled(levels, target) > 0.0
    requires Notional(Filled(levels, target), price) == WalkCost(levels, target)
    ensures price == Vwap(levels, target)
  {
    hide Filled, WalkCost, Vwap;
    VwapTimesFilled(levels, target);
    var q, v := Filled(levels, target), Vwap(levels, target);
    assert (price - v) * q == 0.0;
  }

  lemma BuyPriceAboveBest(asks: seq<Level>, target: real, price: real, bbo: real)
    requires NonNegQty(asks) && Ascending(asks) && Filled(asks, target) > 0.0
    requires Notional(Filled(asks, target), price) == WalkCost(asks, target)
    requires forall i | 0 <= i < |asks| :: bbo <= asks[i].price
    ensures bbo <= price
  {
    hide Filled, WalkCost, Vwap, Notional;
    PriceOfRecord(asks, target, price);
    assert asks != [] by { WalkFillsMinimum(asks, target); }
    VwapWithinConsumedPrices(asks, target, bbo, asks[|asks| - 1].price);
  }

  lemma SellPriceBelowBest(bids: seq<Level>, target: real, price: real, bbo: real)
    requires NonNegQty(bids) && Descending(bids) && Filled(bids, target) > 0.0
    requires Notional(Filled(bids, target), price) == WalkCost(bids, target)
    requires forall i | 0 <= i < |bids| :: bids[i].price <= bbo
    ensures price <= bbo
  {
    hide Filled, WalkCost, Vwap, Notional;
    PriceOfRecord(bids, target, price);
    assert bids != [] by { WalkFillsMinimum(bids, target); }
    VwapWithinConsumedPrices(bids, target, bids[|bids| - 1].price, bbo);
  }

  lemma SyntheticBooks(env: Env, cfg: ExecConfig, opp: Opportunity)
    requires ValidEnv(env, cfg, opp) && Fresh(env, cfg, opp)
    requires BookOf(env, opp.buyExchange).asks == [] && BookOf(env, opp.sellExchange).bids == []
    requires env.snapshot[opp.buyExchange].ask > 0.0 && env.snapshot[opp.sellExchange].bid >= 0.0
    ensures var asks, best := Asks(env, cfg, opp), env.snapshot[opp.buyExchange].ask;
            Ascending(asks) && forall i | 0 <= i < |asks| :: best <= asks[i].price
    ensures var bids, best := Bids(env, cfg, opp), env.snapshot[opp.sellExchange].bid;
            Descending(bids) && forall i | 0 <= i < |bids| :: bids[i].price <= best
  {
    hide SyntheticAsks, SyntheticBids;
    SyntheticAsksShape(env.snapshot[opp.buyExchange].ask, cfg.depth, env.askDraws);
    SyntheticBidsShape(env.snapshot[opp.sellExchange].bid, cfg.depth, env.bidDraws);
  }

  /** On synthetic books the recorded slippage is never negative. */
  lemma SyntheticSlippageNonNeg(t: Trade, b: Balances, env: Env, cfg: ExecConfig, opp: Opportunity)
    requires ValidEnv(env, cfg, opp) && Executable(b, env, cfg, opp) && IsRecordOf(t, b, env, cfg, opp)
    requires BookOf(env, opp.buyExchange).asks == [] && BookOf(env, opp.sellExchange).bids == []
    requires env.snapshot[opp.buyExchange].ask > 0.0 && env.snapshot[opp.sellExchange].bid >= 0.0
    ensures t.slippage >= 0.0
  {
    SyntheticBooks(env, cfg, opp);
    hide Asks, Bids, Filled, WalkCost, TotalQty, Target, Notional;
    BooksNonNeg(env, cfg, opp);
    WalkFillsMinimum(Bids(env, cfg, opp), t.volume);
    BuyPriceAboveBest(Asks(env, cfg, opp), t.requestedVolume, t.buyPrice, env.snapshot[opp.buyExchange].ask);
    SellPriceBelowBest(Bids(env, cfg, opp), t.volume, t.sellPrice, env.snapshot[opp.sellExchange].bid);
  }

  // ---------- The executor performs runs ----------

  /** All that Execute asks of a balance, kept by every call whatever the prices. */
  ghost predicate BtcNonNegative(b: Balances) {
    forall e :: Get(b, e, BTC) >= 0.0
  }

  lemma StepKeepsBtc(s: Ledger, call: Call, cfg: ExecConfig, s': Ledger)
    requires ValidEnv(call.env, cfg, call.opp) && Step(s, call.env, cfg, call.opp, s')
    requires BtcNonNegative(s.balances)
    ensures BtcNonNegative(s'.balances)
  {
    hide Target, Asks, Bids, Paid, Earned, WalkCost, Filled;
  }

  /** Executing a sequence of opportunities is a run in the sense above, so what is
      proved of runs holds of it: money is conserved, and no balance goes negative
      unless a bid does. */
  method ExecuteAll(ex: Executor, calls: seq<Call>) returns (ghost trace: seq<Ledger>)
    requires forall i | 0 <= i < |calls| :: ValidEnv(calls[i].env, ex.cfg, calls[i].opp)
    requires BtcNonNegative(ex.wallet.balances)
    modifies ex, ex.wallet, ex.store
    ensures IsRun(trace, calls, ex.cfg) && trace[0] == old(ex.State()) && trace[|calls|] == ex.State()
    ensures BtcNonNegative(ex.wallet.balances)
    ensures Conserved(old(ex.State()), ex.State())
    ensures NonNegative(old(ex.wallet.balances)) && (forall i | 0 <= i < |calls| :: BidsNonNeg(calls[i], ex.cfg)) ==>
              NonNegative(ex.wallet.balances)
  {
    hide Step, ValidEnv, BidsNonNeg, Executable, Fresh, NonNegative, Conserved;
    trace := [ex.State()];
    for i := 0 to |calls|
      invariant IsRun(trace, calls[..i], ex.cfg) && trace[0] == old(ex.State()) && trace[i] == ex.State()
      invariant BtcNonNegative(ex.wallet.balances)
    {
      var cell := new OpportunityCell(calls[i].opp);
      ghost var s := ex.State();
      var _ := ex.Execute(cell, calls[i].env);
      StepKeepsBtc(s, calls[i], ex.cfg, ex.State());
      trace := trace + [ex.State()];
    }
    assert calls[..|calls|] == calls;
    WalletTotalsFollowTheLog(trace, calls, ex.cfg);
    if NonNegative(old(ex.wallet.balances)) && forall i | 0 <= i < |calls| :: BidsNonNeg(calls[i], ex.cfg) {
      NoBalanceGoesNegative(trace, calls, ex.cfg);
      assert NonNegative(trace[|calls|].balances);
    }
  }
}
