/** Fractional Kelly sizing from realised returns (internal/sizing/kelly.go). */
module Kelly {
  import opened Welford

  class KellyEstimator {
    var n: int
    var mean: real
    var m2: real
    const minN: int
    const fracCap: real
    ghost var history: seq<real>

    ghost predicate Valid()
      reads this
    {
      Represents(Moments(n, mean, m2), history)
    }

    constructor (minSamples: int, fracCap: real)
      ensures Valid() && n == 0 && history == [] && minN == minSamples && this.fracCap == fracCap
    {
      n, mean, m2, history := 0, 0.0, 0.0, [];
      minN, this.fracCap := minSamples, fracCap;
    }

    method Record(netPct: real)
      requires Valid()
      modifies this
      ensures Valid() && n == old(n) + 1 && history == old(history) + [netPct]
    {
      ghost var before := Moments(n, mean, m2);
      AddRepresents(before, history, netPct);
      n := n + 1;
      var delta := netPct - mean;
      mean := mean + delta / (n as real);
      m2 := m2 + delta * (netPct - mean);
      history := history + [netPct];
      assert Moments(n, mean, m2) == Add(before, netPct);
    }

    /** With no sample at all the program divides zero by zero: a quotient that
        fails every comparison, so that the cap is returned. */
    function Fraction(): real
      reads this
    {
      if n < minN then 0.0
      else if n == 0 then fracCap
      else
        var v := m2 / (n as real);
        if v <= 0.0 then 0.0
        else
          var raw := mean / v;
          if raw < 0.0 then 0.0 else if raw < fracCap then raw else fracCap
    }
  }

  /** Population variance. */
  function Variance(s: seq<real>): real
    requires s != []
  {
    Ssd(s) / (|s| as real)
  }

  /** The expected log-growth, to second order, of betting the fraction `f`. */
  function Growth(mean: real, v: real, f: real): real {
    mean * f - v * f * f / 2.0
  }

  lemma GrowthIsConcave(mean: real, v: real, best: real, f: real, cap: real)
    requires v > 0.0 && 0.0 <= f <= cap && 0.0 <= best <= cap
    requires (best == 0.0 && mean <= 0.0) || mean == v * best || (best == cap && mean >= v * cap)
    ensures Growth(mean, v, f) <= Growth(mean, v, best)
  {
    var d := best - f;
    assert Growth(mean, v, best) - Growth(mean, v, f) == d * (mean - v * best) + v * (d * d) / 2.0;
    assert d * d >= 0.0 && v * (d * d) >= 0.0;
    assert d * (mean - v * best) >= 0.0;
  }

  /** Once warmed up on returns that vary, the fraction is the best one between
      zero and the cap, for the batch mean and variance of all that was recorded: the
      mean over the variance, cut off at both ends. */
  lemma FractionIsConstrainedOptimum(k: KellyEstimator, f: real)
    requires k.Valid() && k.n > 0 && k.n >= k.minN && k.fracCap >= 0.0
    requires Variance(k.history) > 0.0
    requires 0.0 <= f <= k.fracCap
    ensures 0.0 <= k.Fraction() <= k.fracCap
    ensures var mean, v := Mean(k.history), Variance(k.history);
            && v * (|k.history| as real) == Ssd(k.history)
            && (k.Fraction() * v == mean
                || (k.Fraction() == 0.0 && mean <= 0.0)
                || (k.Fraction() == k.fracCap && mean >= k.fracCap * v))
    ensures Growth(Mean(k.history), Variance(k.history), f)
            <= Growth(Mean(k.history), Variance(k.history), k.Fraction())
  {
    hide Mean, SquaredDeviations, Growth;
    var mean, v := Mean(k.history), Variance(k.history);
    var raw := mean / v;
    assert raw * v == mean;
    RatioSign(raw, v, k.fracCap);
    GrowthIsConcave(mean, v, k.Fraction(), f, k.fracCap);
  }

  lemma RatioSign(raw: real, v: real, cap: real)
    requires v > 0.0
    ensures raw < 0.0 ==> raw * v <= 0.0
    ensures raw >= cap ==> raw * v >= v * cap
  {
    if raw >= cap {
      assert (raw - cap) * v >= 0.0;
    }
  }

  /** After any return, a positive fraction means: warmed up, returns that vary,
      and a positive mean. */
  lemma FractionPositiveIff(k: KellyEstimator)
    requires k.Valid() && k.n > 0 && k.fracCap > 0.0
    ensures k.Fraction() > 0.0 <==>
            k.n >= k.minN && Variance(k.history) > 0.0 && Mean(k.history) > 0.0
    ensures 0.0 <= k.Fraction() <= k.fracCap
  {
    hide Mean, SquaredDeviations;
    if k.n >= k.minN && Variance(k.history) > 0.0 {
      var mean, v := Mean(k.history), Variance(k.history);
      var raw := mean / v;
      assert raw * v == mean;
      SameSign(raw, v);
    }
  }

  lemma SameSign(raw: real, v: real)
    requires v > 0.0
    ensures raw > 0.0 <==> raw * v > 0.0
  {
    if raw > 0.0 {
      ProductPositive(raw, v, raw * v);
    }
  }
}
