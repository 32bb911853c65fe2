/** Sums over a log of trades. */
module TradeLog {
  import Types

  function NetProfitSum(trades: seq<Types.Trade>): real {
    if trades == [] then 0.0 else NetProfitSum(trades[..|trades| - 1]) + trades[|trades| - 1].netProfit
  }

  lemma {:induction false} NetProfitOfConcat(a: seq<Types.Trade>, b: seq<Types.Trade>)
    ensures NetProfitSum(a + b) == NetProfitSum(a) + NetProfitSum(b)
  {
    if b == [] {
      assert a + b == a;
    } else {
      var n := |b| - 1;
      NetProfitOfConcat(a, b[..n]);
      assert (a + b)[..|a| + n] == a + b[..n];
    }
  }
}
