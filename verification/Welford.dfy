/** One-pass mean and variance, forward and in reverse, against the batch
    definitions. Shared by the spread model and the Kelly estimator. */
module Welford {

  // ---------- Batch statistics ----------

  function Sum(s: seq<real>): real {
    if s == [] then 0.0 else Sum(s[..|s| - 1]) + s[|s| - 1]
  }

  function Sq(x: real): (r: real)
    ensures r >= 0.0 && (x == 0.0 <==> r == 0.0)
  {
    SquarePositive(x, x * x);
    x * x
  }

  lemma SquarePositive(x: real, y: real)
    requires y == x * x
    ensures y >= 0.0 && (x == 0.0 <==> y == 0.0)
  {
    var z := if x >= 0.0 then x else -x;
    assert y == z * z;
    if z > 0.0 {
      ProductPositive(z, z, y);
    }
  }

  lemma ProductPositive(x: real, y: real, p: real)
    requires x > 0.0 && y > 0.0 && p == x * y
    ensures p > 0.0
  {
  }

  /** Sum of squared deviations from `c`. */
  function SquaredDeviations(s: seq<real>, c: real): real {
    if s == [] then 0.0
    else SquaredDeviations(s[..|s| - 1], c) + Sq(s[|s| - 1] - c)
  }

  function Mean(s: seq<real>): real {
    if s == [] then 0.0 else Sum(s) / (|s| as real)
  }

  /** Sum of squared deviations from the mean. */
  function Ssd(s: seq<real>): real {
    SquaredDeviations(s, Mean(s))
  }

  lemma {:induction false} SsdNonNeg(s: seq<real>, c: real)
    ensures SquaredDeviations(s, c) >= 0.0
  {
    if s == [] {
    } else {
      SsdNonNeg(s[..|s| - 1], c);
    }
  }

  /** `s` without its `i`-th element. */
  function Without(s: seq<real>, i: nat): seq<real>
    requires i < |s|
  {
    s[..i] + s[i + 1..]
  }

  lemma {:induction false} SumWithout(s: seq<real>, i: nat)
    requires i < |s|
    ensures Sum(s) == Sum(Without(s, i)) + s[i]
  {
    var n := |s| - 1;
    if i == n {
      assert Without(s, i) == s[..n];
    } else {
      SumWithout(s[..n], i);
      assert Without(s, i)[..n - 1] == Without(s[..n], i);
    }
  }

  lemma {:induction false} DeviationsWithout(s: seq<real>, i: nat, c: real)
    requires i < |s|
    ensures SquaredDeviations(s, c) == SquaredDeviations(Without(s, i), c) + Sq(s[i] - c)
  {
    var n := |s| - 1;
    if i == n {
      assert Without(s, i) == s[..n];
    } else {
      DeviationsWithout(s[..n], i, c);
      assert Without(s, i)[..n - 1] == Without(s[..n], i);
    }
  }

  /** What moving the centre from `d` to `c` adds to the squared deviations. */
  function CentreShift(sum: real, n: real, c: real, d: real): real {
    2.0 * (d - c) * (sum - n * d) + n * Sq(d - c)
  }

  lemma ShiftFromMean(sum: real, n: real, c: real, d: real)
    requires sum == n * d
    ensures CentreShift(sum, n, c, d) == n * Sq(d - c)
  {
    assert sum - n * d == 0.0;
  }

  lemma {:induction false} Recentre(s: seq<real>, c: real, d: real)
    ensures SquaredDeviations(s, c) == SquaredDeviations(s, d) + CentreShift(Sum(s), |s| as real, c, d)
  {
    if s == [] {
    } else {
      var n := |s| - 1;
      Recentre(s[..n], c, d);
      RecentreStep(s[n], c, d, Sum(s[..n]), n as real);
      assert (|s| as real) == (n as real) + 1.0;
      hide CentreShift, Sq;
    }
  }

  lemma RecentreStep(x: real, c: real, d: real, sum: real, n: real)
    ensures CentreShift(sum, n, c, d) + Sq(x - c) == CentreShift(sum + x, n + 1.0, c, d) + Sq(x - d)
  {
    assert Sq(x - c) == Sq(x - d) + 2.0 * (d - c) * (x - d) + Sq(d - c);
  }

  // ---------- The one-pass state ----------

  /** The running state: a count, a mean and a sum of squared deviations. */
  datatype Moments = Moments(n: int, mu: real, m2: real)

  ghost predicate Represents(w: Moments, s: seq<real>) {
    w.n == |s| && w.mu == Mean(s) && w.m2 == Ssd(s)
  }

  function Add(w: Moments, x: real): Moments
    requires w.n >= 0
  {
    var n := (w.n + 1) as real;
    var delta := x - w.mu;
    var mu := w.mu + delta / n;
    Moments(w.n + 1, mu, w.m2 + delta * (x - mu))
  }

  function Remove(w: Moments, x: real): Moments
    requires w.n > 0
  {
    if w.n == 1 then Moments(0, 0.0, 0.0)
    else
      var oldMu := ((w.n as real) * w.mu - x) / ((w.n - 1) as real);
      Moments(w.n - 1, oldMu, w.m2 - (x - w.mu) * (x - oldMu))
  }

  /** How the two means and the two sums of squares of `rest` and of `rest` with
      `x` added are related, for `n` elements in `rest`. */
  lemma AddAlgebra(n: real, mu: real, x: real, mu': real)
    requires n >= 0.0 && mu' == mu + (x - mu) / (n + 1.0)
    ensures (n + 1.0) * mu' == n * mu + x
    ensures n * Sq(mu - mu') + Sq(x - mu') == (x - mu) * (x - mu')
  {
    var d := (x - mu) / (n + 1.0);
    assert d * (n + 1.0) == x - mu;
    assert mu - mu' == -d && x - mu' == n * d;
    assert n * (d * d) + (n * d) * (n * d) == ((n + 1.0) * d) * (n * d);
  }

  lemma MeanTimesCount(s: seq<real>)
    ensures (|s| as real) * Mean(s) == Sum(s)
  {
  }

  lemma MeanFromProduct(n: real, mu: real, sum: real)
    requires n > 0.0 && n * mu == sum
    ensures mu == sum / n
  {
  }

  /** The batch statistics of a sequence from those of the rest of it: taking any
      one element out and adding it again is the forward step. */
  lemma AddIsBatch(s: seq<real>, i: nat)
    requires i < |s|
    ensures Add(Moments(|s| - 1, Mean(Without(s, i)), Ssd(Without(s, i))), s[i]) == Moments(|s|, Mean(s), Ssd(s))
  {
    hide Sum, Mean, SquaredDeviations, Sq, CentreShift;
    var rest, x, n := Without(s, i), s[i], (|s| - 1) as real;
    var mu := Mean(rest);
    var mu' := mu + (x - mu) / (n + 1.0);
    assert (|s| as real) == n + 1.0;
    AddAlgebra(n, mu, x, mu');
    MeanTimesCount(rest);
    MeanTimesCount(s);
    SumWithout(s, i);
    SameFactor(n + 1.0, mu', Mean(s));
    DeviationsWithout(s, i, mu');
    Recentre(rest, mu', mu);
    ShiftFromMean(Sum(rest), n, mu', mu);
  }

  lemma SameFactor(n: real, a: real, b: real)
    requires n > 0.0 && n * a == n * b
    ensures a == b
  {
  }

  /** The forward step keeps the state exact. */
  lemma AddRepresents(w: Moments, s: seq<real>, x: real)
    requires Represents(w, s)
    ensures Represents(Add(w, x), s + [x])
  {
    assert Without(s + [x], |s|) == s;
    AddIsBatch(s + [x], |s|);
  }

  /** The reverse step undoes the forward step. */
  lemma RemoveUndoesAdd(w: Moments, x: real)
    requires w.n > 0 || (w.n == 0 && w.mu == 0.0 && w.m2 == 0.0)
    ensures Remove(Add(w, x), x) == w
  {
    if w.n > 0 {
      var n, a := w.n as real, Add(w, x);
      assert ((w.n + 1) as real) == n + 1.0;
      AddAlgebra(n, w.mu, x, a.mu);
      assert ((a.n as real) * a.mu - x) == n * w.mu;
      MeanFromProduct(n, w.mu, n * w.mu);
    }
  }

  /** So evicting any element of the window leaves exact statistics of the rest. */
  lemma RemoveRepresents(w: Moments, s: seq<real>, i: nat)
    requires Represents(w, s) && i < |s| && w.n > 0
    ensures Represents(Remove(w, s[i]), Without(s, i))
  {
    AddIsBatch(s, i);
    var rest := Without(s, i);
    RemoveUndoesAdd(Moments(|rest|, Mean(rest), Ssd(rest)), s[i]);
  }

  /** A window slides exactly: evict the oldest sample, then add the newest. */
  lemma SlideRepresents(w: Moments, s: seq<real>, x: real)
    requires Represents(w, s) && s != [] && w.n > 0
    ensures Remove(w, s[0]).n >= 0 && Represents(Add(Remove(w, s[0]), x), s[1..] + [x])
  {
    assert Remove(w, s[0]).n >= 0;
    hide Represents, Add, Remove;
    RemoveRepresents(w, s, 0);
    assert Without(s, 0) == s[1..];
    AddRepresents(Remove(w, s[0]), s[1..], x);
  }

  /** Every sample of `s` as its distance from `c` in units of `d`. */
  function Standardised(s: seq<real>, c: real, d: real): (t: seq<real>)
    requires d != 0.0
    ensures |t| == |s| && forall i | 0 <= i < |s| :: t[i] == (s[i] - c) / d
  {
    seq(|s|, i requires 0 <= i < |s| => (s[i] - c) / d)
  }

  function Times(x: real, y: real): real {
    x * y
  }

  lemma {:induction false} StandardisedSum(s: seq<real>, c: real, d: real)
    requires d != 0.0
    ensures Times(Sum(Standardised(s, c, d)), d) == Sum(s) - Times(|s| as real, c)
  {
    hide Times;
    if s == [] {
      StandardisedStart(c, d);
    } else {
      var n := |s| - 1;
      var t, front := Standardised(s, c, d), s[..n];
      StandardisedSum(front, c, d);
      assert t[..n] == Standardised(front, c, d);
      assert (|s| as real) == (n as real) + 1.0;
      StandardisedStep(Sum(front), s[n], n as real, c, d, Sum(t[..n]), t[n]);
    }
  }

  lemma StandardisedStart(c: real, d: real)
    ensures Times(0.0, c) == 0.0 == Times(0.0, d)
  {
  }

  lemma StandardisedStep(sum: real, x: real, n: real, c: real, d: real, units: real, u: real)
    requires d != 0.0 && u == (x - c) / d && Times(units, d) == sum - Times(n, c)
    ensures Times(units + u, d) == sum + x - Times(n + 1.0, c)
  {
    assert u * d == x - c;
  }

  lemma {:induction false} StandardisedDeviations(s: seq<real>, c: real, d: real)
    requires d != 0.0
    ensures SquaredDeviations(Standardised(s, c, d), 0.0) * Sq(d) == SquaredDeviations(s, c)
  {
    hide Sq;
    if s == [] {
    } else {
      var n := |s| - 1;
      var t, front := Standardised(s, c, d), s[..n];
      StandardisedDeviations(front, c, d);
      assert t[..n] == Standardised(front, c, d);
      Distribute(SquaredDeviations(t[..n], 0.0), Sq(t[n]), Sq(d));
      UnitsOf(s[n] - c, d);
      assert t[n] - 0.0 == (s[n] - c) / d;
    }
  }

  lemma Distribute(a: real, b: real, q: real)
    ensures (a + b) * q == a * q + b * q
  {
  }

  lemma UnitsOf(x: real, d: real)
    requires d != 0.0
    ensures Sq(x / d) * Sq(d) == Sq(x)
  {
    ProductOfSquares(x / d, d, x);
  }

  lemma ProductOfSquares(x: real, y: real, p: real)
    requires p == x * y
    ensures Sq(x) * Sq(y) == Sq(p)
  {
    assert (x * x) * (y * y) == (x * y) * (x * y);
  }

  /** In units of its own deviation a sample set has mean zero and, per sample,
      a squared deviation of one. */
  lemma StandardisedMoments(s: seq<real>, d: real)
    requires s != [] && d != 0.0 && Sq(d) * (|s| as real) == Ssd(s)
    ensures Mean(Standardised(s, Mean(s), d)) == 0.0 && Ssd(Standardised(s, Mean(s), d)) == |s| as real
  {
    hide Sq, Sum, SquaredDeviations;
    var t := Standardised(s, Mean(s), d);
    StandardisedSum(s, Mean(s), d);
    StandardisedDeviations(s, Mean(s), d);
    MeanTimesCount(s);
    ZeroFactor(Sum(t), d);
    SameFactor(Sq(d), SquaredDeviations(t, 0.0), |s| as real);
  }

  lemma ZeroFactor(x: real, y: real)
    requires y != 0.0 && x * y == 0.0
    ensures x == 0.0
  {
  }

  /** Samuelson's inequality: no sample lies further than sqrt(n - 1) population
      standard deviations from the mean of its own sample set. */
  lemma Samuelson(s: seq<real>, i: nat)
    requires i < |s|
    ensures (|s| as real) * Sq(s[i] - Mean(s)) <= (|s| as real - 1.0) * Ssd(s)
  {
    hide Sum, Mean, SquaredDeviations, Sq;
    var rest, x, n := Without(s, i), s[i], (|s| - 1) as real;
    var mu, mu' := Mean(rest), Mean(s);
    assert (|s| as real) == n + 1.0;
    AddIsBatch(s, i);
    SsdNonNeg(rest, mu);
    AddAlgebra(n, mu, x, mu');
    SamuelsonAlgebra(n, mu, x, mu', Ssd(rest), Ssd(s));
  }

  lemma SamuelsonAlgebra(n: real, mu: real, x: real, mu': real, restSsd: real, ssd: real)
    requires n >= 0.0 && restSsd >= 0.0
    requires (n + 1.0) * mu' == n * mu + x && ssd == restSsd + (x - mu) * (x - mu')
    ensures (n + 1.0) * Sq(x - mu') <= n * ssd
  {
    var d := x - mu';
    assert n * (x - mu) == (n + 1.0) * d;
    assert n * ((x - mu) * d) == (n + 1.0) * d * d;
    assert n * restSsd >= 0.0;
  }
}
