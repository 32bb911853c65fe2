/** The value types shared by every component (internal/types/types.go).
    Prices, quantities and profits are exact reals; times and durations are
    integer nanoseconds. */
module Types {

  datatype Option<+T> = None | Some(value: T)

  datatype PriceUpdate = PriceUpdate(
    exchange: string,
    bid: real,
    ask: real,
    bidSize: real,
    askSize: real,
    receivedAt: int)

  datatype Status = StatusDetected | StatusExecuted | StatusSkipped | StatusExpired

  datatype Opportunity = Opportunity(
    id: string,
    buyExchange: string,
    sellExchange: string,
    buyPrice: real,
    sellPrice: real,
    netProfit: real,
    netProfitPct: real,
    zScore: real,
    score: real,
    maxVolume: real,
    detectedAt: int,
    status: Status,
    strategy: string)

  /** A trade record. Its own random identifier is not part of the model. */
  datatype Trade = Trade(
    opportunityId: string,
    buyExchange: string,
    sellExchange: string,
    buyPrice: real,
    sellPrice: real,
    volume: real,
    grossProfit: real,
    fees: real,
    netProfit: real,
    slippage: real,
    executedAt: int,
    requestedVolume: real,
    partialFill: bool,
    strategy: string)

  datatype Level = Level(price: real, qty: real)

  datatype OrderBook = OrderBook(bids: seq<Level>, asks: seq<Level>)

  type Snapshot = map<string, PriceUpdate>

  /** A `*types.Opportunity`: executors update the status through it. */
  class OpportunityCell {
    var opp: Opportunity

    constructor (opp: Opportunity)
      ensures this.opp == opp
    {
      this.opp := opp;
    }
  }

  /** The trade store (internal/store/store.go): an append-only trade sequence
      and the latest saved copy of each opportunity. */
  class Store {
    var trades: seq<Trade>
    var opportunities: map<string, Opportunity>

    constructor ()
      ensures trades == [] && opportunities == map[]
    {
      trades, opportunities := [], map[];
    }

    method Save(opp: Opportunity)
      modifies this`opportunities
      ensures opportunities == old(opportunities)[opp.id := opp]
    {
      opportunities := opportunities[opp.id := opp];
    }

    method SaveTrade(trade: Trade)
      modifies this`trades
      ensures trades == old(trades) + [trade]
    {
      trades := trades + [trade];
    }
  }
}
