/** The venues with the widest difference of funding rates: what the live and the
    replayed funding strategy share. */
module FundingPair {

  datatype FundingConfig = FundingConfig(threshold: real, emitCooldown: int, notional: real)

  /** `lo` and `hi` are venues with the smallest and the largest rate. */
  ghost predicate IsWidest(rates: map<string, real>, lo: string, hi: string) {
    && lo in rates && hi in rates
    && forall ex | ex in rates :: rates[lo] <= rates[ex] <= rates[hi]
  }

  lemma WidestIsMaximal(rates: map<string, real>, lo: string, hi: string, a: string, b: string)
    requires IsWidest(rates, lo, hi) && a in rates && b in rates
    ensures rates[b] - rates[a] <= rates[hi] - rates[lo]
  {
  }

  /** The one-pass scan; which of several tied venues it names is not determined. */
  method ScanMaxMin(rates: map<string, real>) returns (maxEx: string, minEx: string, maxRate: real, minRate: real)
    requires |rates| > 0
    ensures IsWidest(rates, minEx, maxEx) && maxRate == rates[maxEx] && minRate == rates[minEx]
  {
    var todo := rates.Keys;
    assert |todo| > 0;
    var ex :| ex in todo;
    todo := todo - {ex};
    maxEx, minEx, maxRate, minRate := ex, ex, rates[ex], rates[ex];
    while todo != {}
      invariant todo <= rates.Keys && maxEx in rates && minEx in rates
      invariant maxRate == rates[maxEx] && minRate == rates[minEx]
      invariant forall e | e in rates && e !in todo :: minRate <= rates[e] <= maxRate
      decreases |todo|
    {
      ex :| ex in todo;
      todo := todo - {ex};
      var r := rates[ex];
      if r > maxRate {
        maxRate, maxEx := r, ex;
      }
      if r < minRate {
        minRate, minEx := r, ex;
      }
    }
  }

  lemma FirstTip(a: string, b: string)
    requires '>' !in a
    ensures |PairKey(a, b)| > |a| + 1 && PairKey(a, b)[|a| + 1] == '>'
    ensures forall i | 0 <= i <= |a| :: PairKey(a, b)[i] != '>'
    ensures PairKey(a, b)[..|a|] == a && PairKey(a, b)[|a| + 2..] == b
  {
  }

  /** Names without the arrow's tip: the key tells the two venues, in their order. */
  lemma PairKeyInjective(a: string, b: string, c: string, d: string)
    requires '>' !in a && '>' !in c && PairKey(a, b) == PairKey(c, d)
    ensures a == c && b == d
  {
    hide PairKey;
    FirstTip(a, b);
    FirstTip(c, d);
    assert |a| == |c|;
  }

  function PairKey(minEx: string, maxEx: string): string {
    minEx + "->" + maxEx
  }
}
