/** Per-exchange, per-currency balances (internal/wallet/wallet.go). */
module Wallet {

  const USDT := "USDT"
  const BTC := "BTC"

  type Balances = map<string, map<string, real>>

  /** A balance that was never touched is zero. */
  function Get(b: Balances, exchange: string, currency: string): real {
    if exchange in b && currency in b[exchange] then b[exchange][currency] else 0.0
  }

  ghost predicate SameBalances(b: Balances, b': Balances) {
    forall e, c :: Get(b', e, c) == Get(b, e, c)
  }

  ghost predicate NonNegative(b: Balances) {
    forall e, c :: Get(b, e, c) >= 0.0
  }

  /** `b'` is `b` with `amount` added to one balance and nothing else changed. */
  ghost predicate Shifted(b: Balances, b': Balances, exchange: string, currency: string, amount: real) {
    forall e, c :: Get(b', e, c) == Get(b, e, c) + if e == exchange && c == currency then amount else 0.0
  }

  class MultiWallet {
    var balances: Balances

    constructor (exchanges: seq<string>, initial: map<string, real>)
      ensures balances.Keys == set ex | ex in exchanges
      ensures forall ex | ex in exchanges :: balances[ex] == initial
    {
      var b: Balances := map[];
      for i := 0 to |exchanges|
        invariant b.Keys == set ex | ex in exchanges[..i]
        invariant forall ex | ex in exchanges[..i] :: b[ex] == initial
      {
        var entry: map<string, real>, todo := map[], initial.Keys;
        while todo != {}
          invariant todo <= initial.Keys && entry.Keys == initial.Keys - todo
          invariant forall c | c in entry :: entry[c] == initial[c]
          decreases |todo|
        {
          var currency :| currency in todo;
          entry := entry[currency := initial[currency]];
          todo := todo - {currency};
        }
        assert exchanges[..i + 1] == exchanges[..i] + [exchanges[i]];
        b := b[exchanges[i] := entry];
      }
      assert exchanges[..|exchanges|] == exchanges;
      balances := b;
    }

    method Credit(exchange: string, currency: string, amount: real)
      modifies this
      ensures Shifted(old(balances), balances, exchange, currency, amount)
    {
      EnsureExists(exchange, currency);
      balances := balances[exchange := balances[exchange][currency := balances[exchange][currency] + amount]];
    }

    /** False is the program's ErrInsufficientFunds. */
    method Debit(exchange: string, currency: string, amount: real) returns (ok: bool)
      modifies this
      ensures ok <==> amount <= Get(old(balances), exchange, currency)
      ensures ok ==> Shifted(old(balances), balances, exchange, currency, -amount)
      ensures !ok ==> SameBalances(old(balances), balances)
    {
      EnsureExists(exchange, currency);
      if balances[exchange][currency] < amount {
        return false;
      }
      balances := balances[exchange := balances[exchange][currency := balances[exchange][currency] - amount]];
      return true;
    }

    method Balance(exchange: string, currency: string) returns (amount: real)
      ensures amount == Get(balances, exchange, currency)
    {
      if exchange in balances {
        amount := if currency in balances[exchange] then balances[exchange][currency] else 0.0;
      } else {
        amount := 0.0;
      }
    }

    method EnsureExists(exchange: string, currency: string)
      modifies this
      ensures exchange in balances && currency in balances[exchange]
      ensures SameBalances(old(balances), balances)
    {
      if exchange !in balances {
        balances := balances[exchange := map[]];
      }
      if currency !in balances[exchange] {
        balances := balances[exchange := balances[exchange][currency := 0.0]];
      }
    }
  }

  // ---------- Totals over a set of exchanges ----------

  ghost function Total(exchanges: set<string>, b: Balances, currency: string): real {
    if exchanges == {} then 0.0
    else
      var e :| e in exchanges;
      Get(b, e, currency) + Total(exchanges - {e}, b, currency)
  }

  /** The total does not depend on the order in which exchanges are added up. */
  lemma {:induction false} TotalSplit(exchanges: set<string>, b: Balances, currency: string, e: string)
    requires e in exchanges
    ensures Total(exchanges, b, currency) == Get(b, e, currency) + Total(exchanges - {e}, b, currency)
    decreases |exchanges|
  {
    var d :| d in exchanges
             && Total(exchanges, b, currency) == Get(b, d, currency) + Total(exchanges - {d}, b, currency);
    if d != e {
      TotalSplit(exchanges - {d}, b, currency, e);
      TotalSplit(exchanges - {e}, b, currency, d);
      assert exchanges - {d} - {e} == exchanges - {e} - {d};
    }
  }

  lemma {:induction false} TotalOfSame(exchanges: set<string>, b: Balances, b': Balances, currency: string)
    requires forall e | e in exchanges :: Get(b', e, currency) == Get(b, e, currency)
    ensures Total(exchanges, b', currency) == Total(exchanges, b, currency)
    decreases |exchanges|
  {
    if exchanges == {} {
    } else {
      var e :| e in exchanges;
      TotalSplit(exchanges, b, currency, e);
      TotalSplit(exchanges, b', currency, e);
      TotalOfSame(exchanges - {e}, b, b', currency);
    }
  }

  /** Adding `x` at one exchange and `y` at another (or the same) one. */
  lemma TotalOfTwoShifts(exchanges: set<string>, b: Balances, b': Balances, currency: string,
                         ex: string, x: real, ey: string, y: real)
    requires {ex, ey} <= exchanges
    requires forall e | e in exchanges ::
               Get(b', e, currency) == Get(b, e, currency) + (if e == ex then x else 0.0) + (if e == ey then y else 0.0)
    ensures Total(exchanges, b', currency) == Total(exchanges, b, currency) + x + y
  {
    TotalSplit(exchanges, b, currency, ex);
    TotalSplit(exchanges, b', currency, ex);
    var rest := exchanges - {ex};
    if ex == ey {
      TotalOfSame(rest, b, b', currency);
    } else {
      TotalSplit(rest, b, currency, ey);
      TotalSplit(rest, b', currency, ey);
      TotalOfSame(rest - {ey}, b, b', currency);
    }
  }

  /** Exchanges the wallet has never seen contribute nothing, so the total over
      any larger set is the wallet's own total. */
  lemma {:induction false} TotalOfWallet(exchanges: set<string>, b: Balances, currency: string)
    requires b.Keys <= exchanges
    ensures Total(exchanges, b, currency) == Total(b.Keys, b, currency)
    decreases |exchanges|
  {
    if exchanges - b.Keys == {} {
      assert exchanges == b.Keys;
    } else {
      var e :| e in exchanges - b.Keys;
      TotalSplit(exchanges, b, currency, e);
      TotalOfWallet(exchanges - {e}, b, currency);
    }
  }
}
