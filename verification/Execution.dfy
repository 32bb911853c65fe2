/** Simulated execution of spatial opportunities (internal/executor/executor.go):
    a two-leg transaction over a wallet, with early exits and rollbacks. */
module Execution {
  import opened Types
  import opened Depth
  import opened Wallet

  datatype Error = StalePrice | InsufficientBalance

  /** A call to the trade-return reporter. `None` is the non-finite quotient the
      program would report after buying at an average price of zero. */
  datatype Report = Report(buyExchange: string, sellExchange: string, netPct: Option<real>)

  /** What one call of Execute reads from outside: the clock, the price snapshot,
      the real books, and what the random source would return for each book. */
  datatype Env = Env(
    now: int,
    snapshot: Snapshot,
    books: map<string, OrderBook>,
    askDraws: seq<real>,
    bidDraws: seq<real>)

  datatype ExecConfig = ExecConfig(staleness: int, depth: DepthConfig, hasReporter: bool)

  predicate Stale(env: Env, cfg: ExecConfig, exchange: string) {
    exchange !in env.snapshot || env.now - env.snapshot[exchange].receivedAt > cfg.staleness
  }

  predicate Fresh(env: Env, cfg: ExecConfig, opp: Opportunity) {
    !Stale(env, cfg, opp.buyExchange) && !Stale(env, cfg, opp.sellExchange)
  }

  function BookOf(env: Env, exchange: string): OrderBook {
    if exchange in env.books then env.books[exchange] else OrderBook([], [])
  }

  /** What the model asks of the world: random draws in range, quantities that
      are not negative, and a non-zero ask to divide by. */
  ghost predicate ValidEnv(env: Env, cfg: ExecConfig, opp: Opportunity) {
    && ValidConfig(cfg.depth)
    && ValidDraws(env.askDraws, cfg.depth) && ValidDraws(env.bidDraws, cfg.depth)
    && NonNegQty(BookOf(env, opp.buyExchange).asks)
    && NonNegQty(BookOf(env, opp.sellExchange).bids)
    && (opp.buyExchange in env.snapshot ==> env.snapshot[opp.buyExchange].ask != 0.0)
  }

  ghost function Asks(env: Env, cfg: ExecConfig, opp: Opportunity): seq<Level>
    requires ValidEnv(env, cfg, opp) && Fresh(env, cfg, opp)
  {
    var listed := BookOf(env, opp.buyExchange).asks;
    var bbo := env.snapshot[opp.buyExchange].ask;
    if listed != [] then listed else SyntheticAsks(bbo, cfg.depth, env.askDraws)
  }

  ghost function Bids(env: Env, cfg: ExecConfig, opp: Opportunity): seq<Level>
    requires ValidEnv(env, cfg, opp) && Fresh(env, cfg, opp)
  {
    var listed := BookOf(env, opp.sellExchange).bids;
    var bbo := env.snapshot[opp.sellExchange].bid;
    if listed != [] then listed else SyntheticBids(bbo, cfg.depth, env.bidDraws)
  }

  lemma BooksNonNeg(env: Env, cfg: ExecConfig, opp: Opportunity)
    requires ValidEnv(env, cfg, opp) && Fresh(env, cfg, opp)
    ensures NonNegQty(Asks(env, cfg, opp)) && NonNegQty(Bids(env, cfg, opp))
  {
    var ask, bid := env.snapshot[opp.buyExchange].ask, env.snapshot[opp.sellExchange].bid;
    SyntheticAsksShape(ask, cfg.depth, env.askDraws);
    SyntheticBidsShape(bid, cfg.depth, env.bidDraws);
  }

  // ---------- What an execution should do, stated once ----------

  /** The opportunity's limit or what the USDT balance affords. */
  function OrderSize(maxVolume: real, usdtBalance: real, ask: real): real
    requires ask != 0.0
  {
    Min(maxVolume, usdtBalance / ask)
  }

  ghost function Target(b: Balances, env: Env, cfg: ExecConfig, opp: Opportunity): real
    requires ValidEnv(env, cfg, opp) && Fresh(env, cfg, opp)
  {
    OrderSize(opp.maxVolume, Get(b, opp.buyExchange, USDT), env.snapshot[opp.buyExchange].ask)
  }

  ghost function Bought(b: Balances, env: Env, cfg: ExecConfig, opp: Opportunity): real
    requires ValidEnv(env, cfg, opp) && Fresh(env, cfg, opp)
  {
    Filled(Asks(env, cfg, opp), Target(b, env, cfg, opp))
  }

  ghost function Paid(b: Balances, env: Env, cfg: ExecConfig, opp: Opportunity): real
    requires ValidEnv(env, cfg, opp) && Fresh(env, cfg, opp)
  {
    WalkCost(Asks(env, cfg, opp), Target(b, env, cfg, opp))
  }

  ghost function Earned(b: Balances, env: Env, cfg: ExecConfig, opp: Opportunity): real
    requires ValidEnv(env, cfg, opp) && Fresh(env, cfg, opp)
  {
    WalkCost(Bids(env, cfg, opp), Bought(b, env, cfg, opp))
  }

  /** The one condition under which an opportunity is executed: both prices are
      fresh, something can be bought and paid for, the bid book is deep enough
      for all of it, and the seller already holds it. */
  ghost predicate Executable(b: Balances, env: Env, cfg: ExecConfig, opp: Opportunity)
    requires ValidEnv(env, cfg, opp)
  {
    && Fresh(env, cfg, opp)
    && var q := Bought(b, env, cfg, opp);
    && q > 0.0
    && Paid(b, env, cfg, opp) <= Get(b, opp.buyExchange, USDT)
    && q <= TotalQty(Bids(env, cfg, opp))
    && q <= Get(b, opp.sellExchange, BTC) + if opp.sellExchange == opp.buyExchange then q else 0.0
  }

  /** Four movements and nothing else: USDT out and BTC in on the buy side, BTC
      out and USDT in on the sell side. */
  ghost predicate Settled(b: Balances, b': Balances, buy: string, sell: string, q: real, paid: real, earned: real) {
    forall e, c ::
      Get(b', e, c) == Get(b, e, c)
                       + (if e == buy && c == USDT then -paid else 0.0)
                       + (if e == sell && c == USDT then earned else 0.0)
                       + (if e == buy && c == BTC then q else 0.0)
                       + (if e == sell && c == BTC then -q else 0.0)
  }

  /** The state between the two legs. */
  ghost predicate BuyLegDone(b: Balances, b': Balances, buy: string, q: real, paid: real) {
    forall e, c ::
      Get(b', e, c) == Get(b, e, c) + (if e == buy && c == USDT then -paid else 0.0)
                                    + (if e == buy && c == BTC then q else 0.0)
  }

  lemma BuyLeg(b: Balances, b1: Balances, b2: Balances, buy: string, q: real, paid: real)
    requires Shifted(b, b1, buy, USDT, -paid) && Shifted(b1, b2, buy, BTC, q)
    ensures BuyLegDone(b, b2, buy, q, paid)
  {
  }

  lemma SameThenDone(b: Balances, b2: Balances, b3: Balances, buy: string, q: real, paid: real)
    requires BuyLegDone(b, b2, buy, q, paid) && SameBalances(b2, b3)
    ensures BuyLegDone(b, b3, buy, q, paid)
  {
  }

  lemma BothLegs(b: Balances, b2: Balances, b3: Balances, b4: Balances,
                 buy: string, sell: string, q: real, paid: real, earned: real)
    requires BuyLegDone(b, b2, buy, q, paid)
    requires Shifted(b2, b3, sell, BTC, -q) && Shifted(b3, b4, sell, USDT, earned)
    ensures Settled(b, b4, buy, sell, q, paid, earned)
  {
  }

  /** `Executable` in terms of the values the executor computes on its way. */
  lemma ExecutableMeans(b: Balances, env: Env, cfg: ExecConfig, opp: Opportunity,
                        target: real, asks: seq<Level>, bids: seq<Level>)
    requires ValidEnv(env, cfg, opp) && Fresh(env, cfg, opp)
    requires target == Target(b, env, cfg, opp)
    requires asks == Asks(env, cfg, opp) && bids == Bids(env, cfg, opp)
    ensures var q := Filled(asks, target);
            Executable(b, env, cfg, opp) <==>
            && q > 0.0 && WalkCost(asks, target) <= Get(b, opp.buyExchange, USDT)
            && Filled(bids, q) >= q
            && q <= Get(b, opp.sellExchange, BTC) + if opp.sellExchange == opp.buyExchange then q else 0.0
  {
    hide Target, Asks, Bids, Filled, WalkCost;
    BooksNonNeg(env, cfg, opp);
    WalkFillsMinimum(bids, Filled(asks, target));
  }

  ghost predicate IsRecordOf(t: Trade, b: Balances, env: Env, cfg: ExecConfig, opp: Opportunity)
    requires ValidEnv(env, cfg, opp) && Executable(b, env, cfg, opp)
  {
    var q := Bought(b, env, cfg, opp);
    && t.opportunityId == opp.id && t.strategy == opp.strategy && t.executedAt == env.now
    && t.buyExchange == opp.buyExchange && t.sellExchange == opp.sellExchange
    && t.volume == q && t.requestedVolume == Target(b, env, cfg, opp)
    && t.partialFill == (q < Target(b, env, cfg, opp))
    && Notional(q, t.buyPrice) == Paid(b, env, cfg, opp)
    && Notional(q, t.sellPrice) == Earned(b, env, cfg, opp)
    && t.netProfit == t.grossProfit == Earned(b, env, cfg, opp) - Paid(b, env, cfg, opp)
    && t.fees == 0.0
    && t.slippage == (t.buyPrice - env.snapshot[opp.buyExchange].ask)
                     + (env.snapshot[opp.sellExchange].bid - t.sellPrice)
  }

  // ---------- What the quantities above mean ----------

  /** Orders are filled from the listed book whenever there is one. */
  lemma BooksUsed(env: Env, cfg: ExecConfig, opp: Opportunity)
    requires ValidEnv(env, cfg, opp) && Fresh(env, cfg, opp)
    ensures opp.buyExchange in env.books && env.books[opp.buyExchange].asks != [] ==>
              Asks(env, cfg, opp) == env.books[opp.buyExchange].asks
    ensures opp.sellExchange in env.books && env.books[opp.sellExchange].bids != [] ==>
              Bids(env, cfg, opp) == env.books[opp.sellExchange].bids
    ensures opp.buyExchange !in env.books || env.books[opp.buyExchange].asks == [] ==>
              Asks(env, cfg, opp) == SyntheticAsks(env.snapshot[opp.buyExchange].ask, cfg.depth, env.askDraws)
    ensures opp.sellExchange !in env.books || env.books[opp.sellExchange].bids == [] ==>
              Bids(env, cfg, opp) == SyntheticBids(env.snapshot[opp.sellExchange].bid, cfg.depth, env.bidDraws)
  {
  }

  /** The trade keeps to the opportunity's limit and to what the buyer's USDT affords at
      the best ask; it asks for all that the tighter of the two allows, and it is for
      no more than it asked for. */
  ghost predicate WithinLimits(t: Trade, b: Balances, env: Env, opp: Opportunity)
    requires opp.buyExchange in env.snapshot
  {
    var ask, usdt := env.snapshot[opp.buyExchange].ask, Get(b, opp.buyExchange, USDT);
    && t.requestedVolume <= opp.maxVolume && t.requestedVolume * ask <= usdt
    && (t.requestedVolume == opp.maxVolume || t.requestedVolume * ask == usdt)
    && 0.0 < t.volume <= t.requestedVolume
    && (t.partialFill <==> t.volume < t.requestedVolume)
  }

  lemma OrderIsTighterLimit(maxVolume: real, usdt: real, ask: real)
    requires ask > 0.0
    ensures var size := OrderSize(maxVolume, usdt, ask);
            size <= maxVolume && size * ask <= usdt && (size == maxVolume || size * ask == usdt)
  {
    var affordable, size := usdt / ask, OrderSize(maxVolume, usdt, ask);
    assert affordable * ask == usdt;
    assert (affordable - size) * ask >= 0.0;
  }

  lemma TradeWithinLimits(t: Trade, b: Balances, env: Env, cfg: ExecConfig, opp: Opportunity)
    requires ValidEnv(env, cfg, opp) && Executable(b, env, cfg, opp) && IsRecordOf(t, b, env, cfg, opp)
    requires env.snapshot[opp.buyExchange].ask > 0.0
    ensures WithinLimits(t, b, env, opp) && t.volume <= opp.maxVolume
  {
    hide Filled, Asks, Bids, WalkCost, OrderSize, Notional;
    BooksNonNeg(env, cfg, opp);
    WalkFillsMinimum(Asks(env, cfg, opp), Target(b, env, cfg, opp));
    OrderIsTighterLimit(opp.maxVolume, Get(b, opp.buyExchange, USDT), env.snapshot[opp.buyExchange].ask);
  }

  datatype Ledger = Ledger(balances: Balances, trades: seq<Trade>)

  /** All-or-nothing: either the whole transaction and its record, or no change. */
  ghost predicate Step(s: Ledger, env: Env, cfg: ExecConfig, opp: Opportunity, s': Ledger)
    requires ValidEnv(env, cfg, opp)
  {
    if Executable(s.balances, env, cfg, opp) then
      && Settled(s.balances, s'.balances, opp.buyExchange, opp.sellExchange,
                 Bought(s.balances, env, cfg, opp), Paid(s.balances, env, cfg, opp), Earned(s.balances, env, cfg, opp))
      && |s'.trades| == |s.trades| + 1
      && s'.trades[..|s.trades|] == s.trades
      && IsRecordOf(s'.trades[|s.trades|], s.balances, env, cfg, opp)
    else
      SameBalances(s.balances, s'.balances) && s'.trades == s.trades
  }

  lemma NothingHappened(b: Balances, env: Env, cfg: ExecConfig, opp: Opportunity, trades: seq<Trade>)
    requires ValidEnv(env, cfg, opp) && !Fresh(env, cfg, opp)
    ensures !Executable(b, env, cfg, opp) && Step(Ledger(b, trades), env, cfg, opp, Ledger(b, trades))
  {
  }

  /** The trade record the executor builds from what the two walks returned. */
  function RecordOf(opp: Opportunity, env: Env, vwapBuy: real, vwapSell: real,
                    q: real, target: real, partial: bool): Trade
    requires opp.buyExchange in env.snapshot && opp.sellExchange in env.snapshot
  {
    var grossProfit := (vwapSell - vwapBuy) * q;
    var slippage := (vwapBuy - env.snapshot[opp.buyExchange].ask) + (env.snapshot[opp.sellExchange].bid - vwapSell);
    Trade(opp.id, opp.buyExchange, opp.sellExchange, vwapBuy, vwapSell, q,
          grossProfit, 0.0, grossProfit, slippage, env.now, target, partial, opp.strategy)
  }

  lemma RecordIsRight(b: Balances, env: Env, cfg: ExecConfig, opp: Opportunity)
    requires ValidEnv(env, cfg, opp) && Executable(b, env, cfg, opp)
    ensures var target, q := Target(b, env, cfg, opp), Bought(b, env, cfg, opp);
            IsRecordOf(RecordOf(opp, env, Vwap(Asks(env, cfg, opp), target), Vwap(Bids(env, cfg, opp), q),
                                q, target, q < target), b, env, cfg, opp)
  {
    hide Size, TotalQty, Takes, Cost, Filled, WalkCost, Vwap, Target, Asks, Bids;
    BooksNonNeg(env, cfg, opp);
    var target, q := Target(b, env, cfg, opp), Bought(b, env, cfg, opp);
    WalkFillsMinimum(Bids(env, cfg, opp), q);
    VwapTimesFilled(Asks(env, cfg, opp), target);
    VwapTimesFilled(Bids(env, cfg, opp), q);
  }

  lemma CompletedStep(b: Balances, env: Env, cfg: ExecConfig, opp: Opportunity, b': Balances,
                      trades: seq<Trade>, t: Trade)
    requires ValidEnv(env, cfg, opp) && Executable(b, env, cfg, opp) && IsRecordOf(t, b, env, cfg, opp)
    requires Settled(b, b', opp.buyExchange, opp.sellExchange,
                     Bought(b, env, cfg, opp), Paid(b, env, cfg, opp), Earned(b, env, cfg, opp))
    ensures Step(Ledger(b, trades), env, cfg, opp, Ledger(b', trades + [t]))
  {
  }

  lemma AbandonedStep(b: Balances, env: Env, cfg: ExecConfig, opp: Opportunity, b': Balances, trades: seq<Trade>)
    requires ValidEnv(env, cfg, opp) && !Executable(b, env, cfg, opp) && SameBalances(b, b')
    ensures Step(Ledger(b, trades), env, cfg, opp, Ledger(b', trades))
  {
  }

  /** What the sell leg relies on, in the terms of the values it computes. */
  lemma SellLegFacts(b: Balances, env: Env, cfg: ExecConfig, opp: Opportunity, target: real, q: real, vwapBuy: real)
    requires ValidEnv(env, cfg, opp) && Fresh(env, cfg, opp)
    requires target == Target(b, env, cfg, opp) && q == Bought(b, env, cfg, opp) > 0.0
    requires vwapBuy == Vwap(Asks(env, cfg, opp), target)
    requires Paid(b, env, cfg, opp) <= Get(b, opp.buyExchange, USDT)
    ensures ValidDraws(env.bidDraws, cfg.depth)
    ensures opp.buyExchange in env.snapshot && opp.sellExchange in env.snapshot
    ensures Notional(q, vwapBuy) == Paid(b, env, cfg, opp)
    ensures var book := BookOf(env, opp.sellExchange).bids;
            var bids := if book != [] then book
                        else SyntheticBids(env.snapshot[opp.sellExchange].bid, cfg.depth, env.bidDraws);
            && (Executable(b, env, cfg, opp) <==>
                && Filled(bids, q) >= q
                && q <= Get(b, opp.sellExchange, BTC) + if opp.sellExchange == opp.buyExchange then q else 0.0)
            && (Filled(bids, q) >= q ==> Filled(bids, q) == q && Notional(q, Vwap(bids, q)) == Earned(b, env, cfg, opp))
            && (Executable(b, env, cfg, opp) ==>
                  IsRecordOf(RecordOf(opp, env, vwapBuy, Vwap(bids, q), q, target, q < target), b, env, cfg, opp))
  {
    hide Size, TotalQty, Takes, Cost, Filled, WalkCost, Vwap, Notional, Target, Executable, IsRecordOf, RecordOf;
    var asks, bids := Asks(env, cfg, opp), Bids(env, cfg, opp);
    BooksNonNeg(env, cfg, opp);
    ExecutableMeans(b, env, cfg, opp, target, asks, bids);
    VwapTimesFilled(asks, target);
    WalkFillsMinimum(bids, q);
    if Filled(bids, q) >= q {
      VwapTimesFilled(bids, q);
    }
    if Executable(b, env, cfg, opp) {
      RecordIsRight(b, env, cfg, opp);
    }
  }

  lemma BuyLegLeaves(b: Balances, b2: Balances, buy: string, q: real, paid: real, exchange: string)
    requires BuyLegDone(b, b2, buy, q, paid)
    ensures Get(b2, exchange, BTC) == Get(b, exchange, BTC) + if exchange == buy then q else 0.0
  {
  }

  /** The realised return of a trade, as reported to the Kelly estimators. */
  function ReportOf(t: Trade): Report {
    Report(t.buyExchange, t.sellExchange,
           if t.buyPrice == 0.0 then None else Some((t.sellPrice - t.buyPrice) / t.buyPrice))
  }

  /** The return reported is the realised one on the buy price, so for a positive buy
      price it is a gain exactly when the trade has a net profit. */
  lemma ReportIsRealisedReturn(t: Trade, b: Balances, env: Env, cfg: ExecConfig, opp: Opportunity)
    requires ValidEnv(env, cfg, opp) && Executable(b, env, cfg, opp) && IsRecordOf(t, b, env, cfg, opp)
    ensures var r := ReportOf(t);
            && r.buyExchange == opp.buyExchange && r.sellExchange == opp.sellExchange
            && (r.netPct.Some? <==> t.buyPrice != 0.0)
            && (t.buyPrice != 0.0 ==> r.netPct.value * t.buyPrice == t.sellPrice - t.buyPrice)
            && (t.buyPrice > 0.0 ==> (r.netPct.value > 0.0 <==> t.netProfit > 0.0))
  {
    hide Filled, Asks, Bids, WalkCost, Target;
    if t.buyPrice != 0.0 {
      var x := (t.sellPrice - t.buyPrice) / t.buyPrice;
      assert x * t.buyPrice == t.sellPrice - t.buyPrice;
      if t.buyPrice > 0.0 {
        SameSignTimes(x, t.buyPrice, t.sellPrice - t.buyPrice);
        assert t.netProfit == (t.sellPrice - t.buyPrice) * t.volume;
        SameSignTimes(t.sellPrice - t.buyPrice, t.volume, t.netProfit);
      }
    }
  }

  lemma SameSignTimes(x: real, n: real, p: real)
    requires n > 0.0 && p == x * n
    ensures x > 0.0 <==> p > 0.0
  {
    if x <= 0.0 {
      assert -x * n >= 0.0;
    }
  }

  /** What one executed call adds to the log keeps to the limits. */
  lemma StepWithinLimits(s: Ledger, env: Env, cfg: ExecConfig, opp: Opportunity, s': Ledger)
    requires ValidEnv(env, cfg, opp) && Step(s, env, cfg, opp, s') && Executable(s.balances, env, cfg, opp)
    requires env.snapshot[opp.buyExchange].ask > 0.0
    ensures |s'.trades| == |s.trades| + 1 && WithinLimits(s'.trades[|s.trades|], s.balances, env, opp)
    ensures s'.trades[|s.trades|].volume <= opp.maxVolume
  {
    hide IsRecordOf, WithinLimits, Settled;
    TradeWithinLimits(s'.trades[|s.trades|], s.balances, env, cfg, opp);
  }

  // ---------- The executor ----------

  class Executor {
    const wallet: MultiWallet
    const store: Store
    const cfg: ExecConfig
    var reports: seq<Report>

    constructor (wallet: MultiWallet, store: Store, cfg: ExecConfig)
      ensures this.wallet == wallet && this.store == store && this.cfg == cfg && reports == []
    {
      this.wallet, this.store, this.cfg, this.reports := wallet, store, cfg, [];
    }

    ghost function State(): Ledger
      reads wallet, store
    {
      Ledger(wallet.balances, store.trades)
    }

    method GetAskLevels(env: Env, exchange: string, bboAsk: real) returns (levels: seq<Level>)
      requires ValidDraws(env.askDraws, cfg.depth)
      ensures levels == if BookOf(env, exchange).asks != [] then BookOf(env, exchange).asks
                        else SyntheticAsks(bboAsk, cfg.depth, env.askDraws)
    {
      var book := BookOf(env, exchange);
      if |book.asks| > 0 {
        return book.asks;
      }
      levels := AskLevels(bboAsk, cfg.depth, env.askDraws);
    }

    method GetBidLevels(env: Env, exchange: string, bboBid: real) returns (levels: seq<Level>)
      requires ValidDraws(env.bidDraws, cfg.depth)
      ensures levels == if BookOf(env, exchange).bids != [] then BookOf(env, exchange).bids
                        else SyntheticBids(bboBid, cfg.depth, env.bidDraws)
    {
      var book := BookOf(env, exchange);
      if |book.bids| > 0 {
        return book.bids;
      }
      levels := BidLevels(bboBid, cfg.depth, env.bidDraws);
    }

    method SetStatus(cell: OpportunityCell, status: Status)
      requires cell as object != store
      modifies cell, store`opportunities
      ensures cell.opp == old(cell.opp).(status := status)
      ensures store.opportunities == old(store.opportunities)[cell.opp.id := cell.opp]
    {
      cell.opp := cell.opp.(status := status);
      store.Save(cell.opp);
    }

    method Execute(cell: OpportunityCell, env: Env) returns (err: Option<Error>)
      requires ValidEnv(env, cfg, cell.opp)
      requires Get(wallet.balances, cell.opp.buyExchange, BTC) >= 0.0
      modifies this, wallet, store, cell
      ensures Step(old(State()), env, cfg, old(cell.opp), State())
      ensures err == None <==> Executable(old(wallet.balances), env, cfg, old(cell.opp))
      ensures err == Some(StalePrice) <==> !Fresh(env, cfg, old(cell.opp))
      ensures err != Some(StalePrice) <==>
                && cell.opp.buyExchange in env.snapshot && cell.opp.sellExchange in env.snapshot
                && env.now - env.snapshot[cell.opp.buyExchange].receivedAt <= cfg.staleness
                && env.now - env.snapshot[cell.opp.sellExchange].receivedAt <= cfg.staleness
      ensures err == None && env.snapshot[cell.opp.buyExchange].ask > 0.0 ==>
                && |store.trades| == |old(store.trades)| + 1
                && WithinLimits(store.trades[|old(store.trades)|], old(wallet.balances), env, old(cell.opp))
                && store.trades[|old(store.trades)|].volume <= cell.opp.maxVolume
      ensures cell.opp == old(cell.opp).(status := if err == None then StatusExecuted
                                                   else if err == Some(StalePrice) then StatusExpired
                                                   else StatusSkipped)
      ensures store.opportunities == old(store.opportunities)[cell.opp.id := cell.opp]
      ensures if err == None && cfg.hasReporter && cell.opp.strategy == "spatial"
              then reports == old(reports) + [ReportOf(store.trades[|old(store.trades)|])]
              else reports == old(reports)
    {
      hide ValidEnv, Executable, Settled, IsRecordOf, SameBalances, WithinLimits, ReportOf, Step;
      var opp := cell.opp;
      ghost var b := wallet.balances;
      if Stale(env, cfg, opp.buyExchange) || Stale(env, cfg, opp.sellExchange) {
        NothingHappened(b, env, cfg, opp, store.trades);
        SetStatus(cell, StatusExpired);
        return Some(StalePrice);
      }
      err := PlaceOrder(cell, env);
      if err == None && env.snapshot[opp.buyExchange].ask > 0.0 {
        StepWithinLimits(Ledger(b, old(store.trades)), env, cfg, opp, State());
      }
    }

    /** Execute with both prices fresh. */
    method PlaceOrder(cell: OpportunityCell, env: Env) returns (err: Option<Error>)
      requires ValidEnv(env, cfg, cell.opp) && Fresh(env, cfg, cell.opp)
      requires Get(wallet.balances, cell.opp.buyExchange, BTC) >= 0.0
      modifies this, wallet, store, cell
      ensures Step(old(State()), env, cfg, old(cell.opp), State())
      ensures err == None <==> Executable(old(wallet.balances), env, cfg, old(cell.opp))
      ensures err != Some(StalePrice)
      ensures cell.opp == old(cell.opp).(status := if err == None then StatusExecuted else StatusSkipped)
      ensures store.opportunities == old(store.opportunities)[cell.opp.id := cell.opp]
      ensures if err == None && cfg.hasReporter && cell.opp.strategy == "spatial"
              then reports == old(reports) + [ReportOf(store.trades[|old(store.trades)|])]
              else reports == old(reports)
    {
      var opp := cell.opp;
      ghost var b := wallet.balances;
      BooksNonNeg(env, cfg, opp);
      var bboAsk := env.snapshot[opp.buyExchange].ask;
      var usdtBalance := wallet.Balance(opp.buyExchange, USDT);
      var target := OrderSize(opp.maxVolume, usdtBalance, bboAsk);
      var asks := GetAskLevels(env, opp.buyExchange, bboAsk);
      WalkFillsMinimum(asks, target);
      assert target == Target(b, env, cfg, opp) && SameBalances(b, b);
      ExecutableMeans(b, env, cfg, opp, target, asks, Bids(env, cfg, opp));
      hide Size, TotalQty, Takes, Cost, Filled, WalkCost, Vwap, Notional, OrderSize, Target;
      hide Executable, Settled, SameBalances, BuyLegDone, IsRecordOf, RecordOf;
      if target <= 0.0 {
        SetStatus(cell, StatusSkipped);
        return Some(InsufficientBalance);
      }

      // Buy leg.
      var buyFilled, vwapBuy, buyPartial := Walk(asks, target);
      if buyFilled == 0.0 {
        SetStatus(cell, StatusSkipped);
        return Some(InsufficientBalance);
      }
      VwapTimesFilled(asks, target);
      var costBuy := Notional(buyFilled, vwapBuy);
      var paidUp := wallet.Debit(opp.buyExchange, USDT, costBuy);
      if !paidUp {
        SetStatus(cell, StatusSkipped);
        return Some(InsufficientBalance);
      }
      ghost var b1 := wallet.balances;
      wallet.Credit(opp.buyExchange, BTC, buyFilled);
      ghost var b2 := wallet.balances;
      BuyLeg(b, b1, b2, opp.buyExchange, buyFilled, costBuy);

      err := SellLeg(cell, env, b, target, buyFilled, vwapBuy, buyPartial);
    }

    /** The second half of Execute, entered with the buy leg done. */
    method SellLeg(cell: OpportunityCell, env: Env, ghost b: Balances,
                   target: real, buyFilled: real, vwapBuy: real, buyPartial: bool)
      returns (err: Option<Error>)
      requires ValidEnv(env, cfg, cell.opp) && Fresh(env, cfg, cell.opp)
      requires Get(b, cell.opp.buyExchange, BTC) >= 0.0
      requires target == Target(b, env, cfg, cell.opp) && buyFilled == Bought(b, env, cfg, cell.opp) > 0.0
      requires vwapBuy == Vwap(Asks(env, cfg, cell.opp), target) && buyPartial == (buyFilled < target)
      requires Paid(b, env, cfg, cell.opp) <= Get(b, cell.opp.buyExchange, USDT)
      requires BuyLegDone(b, wallet.balances, cell.opp.buyExchange, buyFilled, Paid(b, env, cfg, cell.opp))
      modifies this, wallet, store, cell
      ensures Step(Ledger(b, old(store.trades)), env, cfg, old(cell.opp), State())
      ensures err == None <==> Executable(b, env, cfg, old(cell.opp))
      ensures err != Some(StalePrice)
      ensures cell.opp == old(cell.opp).(status := if err == None then StatusExecuted else StatusSkipped)
      ensures store.opportunities == old(store.opportunities)[cell.opp.id := cell.opp]
      ensures if err == None && cfg.hasReporter && cell.opp.strategy == "spatial"
              then reports == old(reports) + [ReportOf(store.trades[|old(store.trades)|])]
              else reports == old(reports)
    {
      hide Size, TotalQty, Takes, Cost, Filled, WalkCost, Vwap, Notional, NonNegQty, SyntheticBids, BookOf, ValidEnv;
      hide Fresh, Target, Bought, Paid, Earned, Asks, Bids, Executable, Settled, SameBalances, BuyLegDone;
      hide IsRecordOf, RecordOf, Step, ReportOf;
      var opp := cell.opp;
      ghost var b2 := wallet.balances;
      SellLegFacts(b, env, cfg, opp, target, buyFilled, vwapBuy);
      BuyLegLeaves(b, b2, opp.buyExchange, buyFilled, Paid(b, env, cfg, opp), opp.sellExchange);
      var bids := GetBidLevels(env, opp.sellExchange, env.snapshot[opp.sellExchange].bid);
      var sellFilled, vwapSell, _ := Walk(bids, buyFilled);
      if sellFilled < buyFilled {
        Abandon(cell, env, b, buyFilled, Notional(buyFilled, vwapBuy));
        return Some(InsufficientBalance);
      }
      var sold := wallet.Debit(opp.sellExchange, BTC, sellFilled);
      if !sold {
        SameThenDone(b, b2, wallet.balances, opp.buyExchange, buyFilled, Paid(b, env, cfg, opp));
        Abandon(cell, env, b, buyFilled, Notional(buyFilled, vwapBuy));
        return Some(InsufficientBalance);
      }
      Complete(cell, env, b, b2, Notional(sellFilled, vwapSell),
               RecordOf(opp, env, vwapBuy, vwapSell, sellFilled, target, buyPartial));
      err := None;
    }

    /** Finish after both debits: credit the proceeds, save the trade. */
    method Complete(cell: OpportunityCell, env: Env, ghost b: Balances, ghost b2: Balances,
                    proceeds: real, trade: Trade)
      requires ValidEnv(env, cfg, cell.opp) && Fresh(env, cfg, cell.opp) && Executable(b, env, cfg, cell.opp)
      requires proceeds == Earned(b, env, cfg, cell.opp) && IsRecordOf(trade, b, env, cfg, cell.opp)
      requires var opp, q := cell.opp, Bought(b, env, cfg, cell.opp);
               && BuyLegDone(b, b2, opp.buyExchange, q, Paid(b, env, cfg, opp))
               && Shifted(b2, wallet.balances, opp.sellExchange, BTC, -q)
      modifies this, wallet, store, cell
      ensures Step(Ledger(b, old(store.trades)), env, cfg, old(cell.opp), State())
      ensures store.trades == old(store.trades) + [trade]
      ensures cell.opp == old(cell.opp).(status := StatusExecuted)
      ensures store.opportunities == old(store.opportunities)[cell.opp.id := cell.opp]
      ensures reports == old(reports) + if cfg.hasReporter && cell.opp.strategy == "spatial" then [ReportOf(trade)]
                                        else []
    {
      hide ValidEnv, Executable, Fresh, Settled, BuyLegDone, Shifted, IsRecordOf, Step, ReportOf, Bought, Paid, Earned;
      var opp := cell.opp;
      ghost var b3 := wallet.balances;
      wallet.Credit(opp.sellExchange, USDT, proceeds);
      BothLegs(b, b2, b3, wallet.balances, opp.buyExchange, opp.sellExchange,
               Bought(b, env, cfg, opp), Paid(b, env, cfg, opp), proceeds);
      CompletedStep(b, env, cfg, opp, wallet.balances, store.trades, trade);
      RecordTrade(cell, trade);
    }

    /** Give up after the buy leg: undo it and skip the opportunity. */
    method Abandon(cell: OpportunityCell, env: Env, ghost b: Balances, bought: real, paid: real)
      requires ValidEnv(env, cfg, cell.opp) && !Executable(b, env, cfg, cell.opp)
      requires Get(b, cell.opp.buyExchange, BTC) >= 0.0
      requires BuyLegDone(b, wallet.balances, cell.opp.buyExchange, bought, paid)
      modifies wallet, store`opportunities, cell
      ensures Step(Ledger(b, old(store.trades)), env, cfg, old(cell.opp), State())
      ensures cell.opp == old(cell.opp).(status := StatusSkipped)
      ensures store.opportunities == old(store.opportunities)[cell.opp.id := cell.opp]
    {
      hide ValidEnv, Executable, BuyLegDone, SameBalances, Step;
      var opp := cell.opp;
      Reverse(b, opp.buyExchange, bought, paid);
      AbandonedStep(b, env, cfg, opp, wallet.balances, store.trades);
      SetStatus(cell, StatusSkipped);
    }

    method RecordTrade(cell: OpportunityCell, trade: Trade)
      modifies this, store, cell
      ensures store.trades == old(store.trades) + [trade]
      ensures cell.opp == old(cell.opp).(status := StatusExecuted)
      ensures store.opportunities == old(store.opportunities)[cell.opp.id := cell.opp]
      ensures reports == old(reports) + if cfg.hasReporter && cell.opp.strategy == "spatial" then [ReportOf(trade)]
                                        else []
    {
      store.SaveTrade(trade);
      if cell.opp.strategy == "spatial" && cfg.hasReporter {
        reports := reports + [ReportOf(trade)];
      }
      SetStatus(cell, StatusExecuted);
    }

    /** Undo the buy leg exactly. The program ignores the error of this debit: it
        cannot fail, because the leg itself credited what is debited here. */
    method Reverse(ghost b: Balances, exchange: string, bought: real, paid: real)
      requires Get(b, exchange, BTC) >= 0.0
      requires BuyLegDone(b, wallet.balances, exchange, bought, paid)
      modifies wallet
      ensures SameBalances(b, wallet.balances)
    {
      var ok := wallet.Debit(exchange, BTC, bought);
      assert ok;
      wallet.Credit(exchange, USDT, paid);
    }
  }
}
