/** The sliding-window spread model (internal/model/spread.go). */
module Spread {
  import Ring
  import opened Welford

  const MIN_SAMPLES := 30
  const WINDOW_SIZE := 500
  const NET_PCT_SCALE := 0.01

  /** The two functions the program takes from its maths library. Everything is
      proved for every pair of functions that satisfies `Valid`. */
  datatype MathFns = MathFns(sqrt: real -> real, sigmoid: real -> real) {
    ghost predicate Valid() {
      && (forall v | v >= 0.0 :: sqrt(v) >= 0.0 && sqrt(v) * sqrt(v) == v)
      && (forall x :: 0.0 < sigmoid(x) < 1.0)
      && (forall x, y | x <= y :: sigmoid(x) <= sigmoid(y))
    }
  }

  /** Mean and deviation of the last `buf.Length` samples, updated in constant
      time. The program fixes the window at WINDOW_SIZE; here it is any size. */
  class SpreadModel {
    var n: int
    var mu: real
    var m2: real
    const buf: array<real>
    var pos: nat
    var len: nat
    ghost var history: seq<real>

    /** The samples the statistics are about, oldest first. */
    ghost function Window(): seq<real>
      reads `history
    {
      Ring.LastN(history, buf.Length)
    }

    ghost predicate Valid()
      reads this, buf
    {
      RingHoldsWindow() && Represents(Moments(n, mu, m2), Window())
    }

    constructor (window: nat)
      requires window >= 1
      ensures Valid() && fresh(buf) && buf.Length == window && history == []
    {
      buf := new real[window](_ => 0.0);
      n, mu, m2, pos, len, history := 0, 0.0, 0.0, 0, 0, [];
    }

    method Update(x: real)
      requires Valid()
      modifies this, buf
      ensures Valid() && history == old(history) + [x]
    {
      if len == buf.Length {
        EvictAndAdd(x);
      } else {
        AddOnly(x);
      }
    }

    method EvictAndAdd(x: real)
      requires Valid() && len == buf.Length > 0 && n > 0
      modifies this, buf
      ensures Valid() && history == old(history) + [x]
    {
      hide Represents, Add, Remove, RingHoldsWindow;
      OldestIsFirst();
      SlideRepresents(Moments(n, mu, m2), Window(), x);
      ReverseStep(buf[pos]);
      Overwrite(x);
      ForwardStep(x);
    }

    method AddOnly(x: real)
      requires Valid() && len < buf.Length
      modifies this, buf
      ensures Valid() && history == old(history) + [x]
    {
      AddRepresents(Moments(n, mu, m2), Window(), x);
      hide Represents, Add, RingHoldsWindow;
      Append(x);
      ForwardStep(x);
    }

    /** Take the oldest sample out of the running state. */
    method ReverseStep(oldest: real)
      requires n > 0
      modifies this`n, this`mu, this`m2
      ensures Moments(n, mu, m2) == Remove(old(Moments(n, mu, m2)), oldest)
    {
      n := n - 1;
      if n == 0 {
        mu := 0.0;
        m2 := 0.0;
      } else {
        var oldMu := (((n + 1) as real) * mu - oldest) / (n as real);
        m2 := m2 - (oldest - mu) * (oldest - oldMu);
        mu := oldMu;
      }
    }

    /** Put a new sample into the running state. */
    method ForwardStep(x: real)
      requires n >= 0
      modifies this`n, this`mu, this`m2
      ensures Moments(n, mu, m2) == Add(old(Moments(n, mu, m2)), x)
    {
      n := n + 1;
      var delta := x - mu;
      mu := mu + delta / (n as real);
      var delta2 := x - mu;
      m2 := m2 + delta * delta2;
    }

    /** The ring holds the window, starting at `pos`. */
    ghost predicate RingHoldsWindow()
      reads `pos, `len, `history, buf
    {
      && buf.Length >= 1 && pos < buf.Length
      && len == |Window()| && (len < buf.Length ==> pos == 0)
      && forall i | 0 <= i < len :: buf[(pos + i) % buf.Length] == Window()[i]
    }

    lemma OldestIsFirst()
      requires RingHoldsWindow() && len > 0
      ensures Window() != [] && pos < buf.Length && buf[pos] == Window()[0]
    {
      Ring.ModSmall(pos, buf.Length);
      assert buf[(pos + 0) % buf.Length] == Window()[0];
    }

    /** Fill the next slot of a ring that is not yet full. */
    method Append(x: real)
      requires RingHoldsWindow() && len < buf.Length
      modifies this`len, this`history, buf
      ensures RingHoldsWindow() && history == old(history) + [x] && Window() == old(Window()) + [x]
    {
      ghost var w := Window();
      Ring.ModSmall(len, buf.Length);
      buf[(pos + len) % buf.Length] := x;
      len := len + 1;
      history := history + [x];
      assert Window() == w + [x];
      forall i | 0 <= i < len
        ensures buf[(pos + i) % buf.Length] == Window()[i]
      {
        Ring.ModSmall(i, buf.Length);
        if i < len - 1 {
          assert old(buf[(pos + i) % buf.Length]) == w[i];
        }
      }
    }

    /** Overwrite the oldest slot of a full ring and step past it. */
    method Overwrite(x: real)
      requires RingHoldsWindow() && len == buf.Length
      modifies this`pos, this`history, buf
      ensures RingHoldsWindow() && history == old(history) + [x] && Window() == old(Window())[1..] + [x]
    {
      ghost var w, p, k := Window(), pos, buf.Length;
      buf[pos] := x;
      Ring.ModSmall(pos + 1, buf.Length);
      pos := (pos + 1) % buf.Length;
      history := history + [x];
      assert Window() == w[1..] + [x];
      forall i | 0 <= i < len
        ensures buf[(pos + i) % buf.Length] == Window()[i]
      {
        Ring.ModSmall(pos + i, k);
        if i < k - 1 {
          Ring.ModSmall(p + i + 1, k);
          assert old(buf[(p + (i + 1)) % k]) == w[i + 1];
        }
      }
    }

    function Std(fns: MathFns): real
      reads this
    {
      if n < 2 then 0.0
      else
        var variance := m2 / (n as real);
        if variance < 0.0 then 0.0 else fns.sqrt(variance)
    }

    function ZScore(fns: MathFns, x: real): real
      reads this
    {
      var std := Std(fns);
      if std == 0.0 then 0.0 else (x - mu) / std
    }

    predicate IsReady()
      reads this
    {
      n >= MIN_SAMPLES
    }
  }

  /** The objects an update of `sm` may change. */
  ghost function Footprint(sm: SpreadModel?): set<object> {
    if sm == null then {} else {sm, sm.buf}
  }

  /** The shared scoring helper; `sm` may be null. Returns the z-score and the score. */
  function ScoreSignal(fns: MathFns, sm: SpreadModel?, rawSignal: real, netPct: real): (real, real)
    reads sm
  {
    var scaled := netPct / NET_PCT_SCALE;
    var clipped := if scaled > 1.0 then 1.0 else scaled;
    var normNetPct := if clipped < 0.0 then 0.0 else clipped;
    if sm == null || !sm.IsReady() then (0.0, normNetPct)
    else
      var z := sm.ZScore(fns, rawSignal);
      (z, normNetPct * 0.5 + fns.sigmoid(z) * 0.5)
  }

  // ---------- What the statistics are ----------

  /** After any sequence of updates the model holds exactly the batch statistics
      of the last min(k, W) samples, and its sum of squares is never negative,
      so the negative-variance guard is never taken. */
  lemma SlidingWindowIsBatch(m: SpreadModel)
    requires m.Valid()
    ensures m.n == m.len == if |m.history| <= m.buf.Length then |m.history| else m.buf.Length
    ensures m.mu == Mean(Ring.LastN(m.history, m.buf.Length))
    ensures m.m2 == Ssd(Ring.LastN(m.history, m.buf.Length)) >= 0.0
  {
    SsdNonNeg(m.Window(), Mean(m.Window()));
  }

  /** The deviation squared is the population variance of the window. */
  lemma StdIsPopulationDeviation(m: SpreadModel, fns: MathFns)
    requires m.Valid() && fns.Valid()
    ensures m.Std(fns) >= 0.0
    ensures m.n >= 2 ==> Sq(m.Std(fns)) == Ssd(m.Window()) / (m.n as real)
  {
    hide Mean, SquaredDeviations, Sq;
    SsdNonNeg(m.Window(), Mean(m.Window()));
    if m.n >= 2 {
      QuotientNonNeg(m.m2, m.n as real);
      SqrtSquared(fns, m.m2 / (m.n as real));
    }
  }

  lemma StdOfSamples(m: SpreadModel, fns: MathFns)
    requires m.Valid() && fns.Valid()
    ensures var w := m.Window();
            m.Std(fns) == if |w| < 2 then 0.0 else fns.sqrt(Ssd(w) / (|w| as real))
  {
    hide Mean, SquaredDeviations;
    SsdNonNeg(m.Window(), Mean(m.Window()));
    if m.n >= 2 {
      QuotientNonNeg(m.m2, m.n as real);
    }
  }

  ghost function ZScores(m: SpreadModel, fns: MathFns): (z: seq<real>)
    reads m
    ensures |z| == |m.Window()|
  {
    var w := m.Window();
    seq(|w|, i requires 0 <= i < |w| reads m => m.ZScore(fns, w[i]))
  }

  /** The z-scores of the window's own samples have mean zero and deviation one. */
  lemma WindowIsStandardised(m: SpreadModel, fns: MathFns)
    requires m.Valid() && fns.Valid() && m.Std(fns) != 0.0
    ensures Mean(ZScores(m, fns)) == 0.0 && Ssd(ZScores(m, fns)) == m.n as real
  {
    hide Mean, Ssd, Sq;
    var w, std := m.Window(), m.Std(fns);
    StdIsPopulationDeviation(m, fns);
    StdNonZero(std);
    assert Sq(std) * (m.n as real) == Ssd(w);
    StandardisedMoments(w, std);
    assert ZScores(m, fns) == Standardised(w, Mean(w), std);
  }

  lemma StdNonZero(std: real)
    requires std != 0.0
    ensures Sq(std) > 0.0
  {
  }

  lemma SqrtSquared(fns: MathFns, v: real)
    requires fns.Valid() && v >= 0.0
    ensures fns.sqrt(v) >= 0.0 && Sq(fns.sqrt(v)) == v
  {
  }

  lemma QuotientNonNeg(a: real, b: real)
    requires a >= 0.0 && b > 0.0
    ensures a / b >= 0.0
  {
  }

  /** A sample of the window has a z-score of at most sqrt(n - 1). */
  lemma ZScoreBound(m: SpreadModel, fns: MathFns, i: nat)
    requires m.Valid() && fns.Valid() && i < |m.Window()|
    ensures Sq(m.ZScore(fns, m.Window()[i])) <= (m.n - 1) as real <= (m.buf.Length - 1) as real
  {
    hide Mean, SquaredDeviations, Sq;
    var std, x := m.Std(fns), m.Window()[i];
    if std != 0.0 {
      StdIsPopulationDeviation(m, fns);
      Samuelson(m.Window(), i);
      assert (|m.Window()| as real) - 1.0 == (m.n - 1) as real;
      BoundedQuotient(x - m.mu, std, m.n as real, Ssd(m.Window()));
    }
  }

  lemma BoundedQuotient(d: real, std: real, n: real, ssd: real)
    requires std > 0.0 && n > 0.0 && Sq(std) == ssd / n
    requires n * Sq(d) <= (n - 1.0) * ssd
    ensures Sq(d / std) <= n - 1.0
  {
    var z, v := d / std, Sq(std);
    assert z * std == d && n * v == ssd;
    assert Sq(d) == Sq(z) * v by { assert (z * std) * (z * std) == (z * z) * (std * std); }
    hide Sq;
    CancelVariance(n, v, Sq(z), Sq(d), ssd);
  }

  lemma CancelVariance(n: real, v: real, zz: real, dd: real, ssd: real)
    requires n > 0.0 && v > 0.0 && n * v == ssd && dd == zz * v
    requires n * dd <= (n - 1.0) * ssd
    ensures zz <= n - 1.0
  {
    assert n * dd == ssd * zz;
    assert ssd > 0.0;
    CancelPositive(ssd, zz, n - 1.0);
  }

  lemma CancelPositive(k: real, a: real, b: real)
    requires k > 0.0 && k * a <= k * b
    ensures a <= b
  {
    assert k * (b - a) >= 0.0;
  }

  // ---------- What a score is ----------

  /** `z` is the z-score of `x` among the samples `w`, by their batch mean and their
      population deviation; zero before there are 30 samples or when they agree. */
  ghost predicate IsZScore(fns: MathFns, w: seq<real>, x: real, z: real) {
    if |w| < 30 then z == 0.0
    else
      var deviation := fns.sqrt(Ssd(w) / (|w| as real));
      if deviation == 0.0 then z == 0.0 else z * deviation == x - Mean(w)
  }

  /** `score` is half the profit, counted from zero at no profit to one at one
      percent, and half the sigmoid of `z`; before 30 samples the profit alone. */
  ghost predicate IsScore(fns: MathFns, samples: nat, netPct: real, z: real, score: real) {
    var profit := if samples < 30 then score else 2.0 * score - fns.sigmoid(z);
    && 0.0 <= profit <= 1.0
    && (netPct <= 0.0 ==> profit == 0.0)
    && (0.0 < netPct < 0.01 ==> profit * 0.01 == netPct)
    && (netPct >= 0.01 ==> profit == 1.0)
  }

  ghost predicate IsScoring(fns: MathFns, w: seq<real>, x: real, netPct: real, z: real, score: real) {
    IsZScore(fns, w, x, z) && IsScore(fns, |w|, netPct, z, score)
  }

  /** The scores attached are those of the batch statistics of the window. */
  lemma ScoreSignalIsRight(m: SpreadModel, fns: MathFns, x: real, netPct: real)
    requires m.Valid() && fns.Valid()
    ensures var (z, score) := ScoreSignal(fns, m, x, netPct);
            IsScoring(fns, m.Window(), x, netPct, z, score)
  {
    hide Mean, SquaredDeviations;
    var w, std := m.Window(), m.Std(fns);
    SsdNonNeg(w, Mean(w));
    if m.n >= 30 {
      QuotientNonNeg(m.m2, m.n as real);
      assert std == fns.sqrt(Ssd(w) / (|w| as real));
      if std != 0.0 {
        QuotientTimes(x - m.mu, std, m.ZScore(fns, x));
      }
    }
  }

  lemma QuotientTimes(a: real, d: real, q: real)
    requires d != 0.0 && q == a / d
    ensures q * d == a
  {
  }

  /** Without a model only the profit counts. */
  lemma ScoreWithoutModel(fns: MathFns, x: real, netPct: real)
    ensures var (z, score) := ScoreSignal(fns, null, x, netPct);
            IsScoring(fns, [], x, netPct, z, score)
  {
  }

  /** A stronger signal with more profit never ranks lower. */
  lemma ScoreIsMonotone(m: SpreadModel, fns: MathFns, x: real, y: real, p: real, q: real)
    requires m.Valid() && fns.Valid() && x <= y && p <= q
    ensures ScoreSignal(fns, m, x, p).0 <= ScoreSignal(fns, m, y, q).0
    ensures ScoreSignal(fns, m, x, p).1 <= ScoreSignal(fns, m, y, q).1
  {
    var std := m.Std(fns);
    if std != 0.0 {
      StdIsPopulationDeviation(m, fns);
      QuotientMonotone(x - m.mu, y - m.mu, std);
    }
  }

  lemma QuotientMonotone(a: real, b: real, d: real)
    requires a <= b && d > 0.0
    ensures a / d <= b / d
  {
    QuotientNonNeg(b - a, d);
    assert b / d - a / d == (b - a) / d;
  }

  /** Every strategy scores a signal it has just inserted, so the score it
      attaches is bounded: the z-score by the window, the score by [0, 1]. */
  lemma JustInsertedScore(m: SpreadModel, fns: MathFns, x: real, netPct: real)
    requires m.Valid() && fns.Valid() && m.history != [] && m.history[|m.history| - 1] == x
    ensures var (z, score) := ScoreSignal(fns, m, x, netPct);
            && IsScoring(fns, m.Window(), x, netPct, z, score)
            && Sq(z) <= (m.n - 1) as real <= (m.buf.Length - 1) as real
            && 0.0 <= score <= 1.0
  {
    hide IsScoring;
    var w := m.Window();
    assert w[|w| - 1] == x;
    ScoreSignalIsRight(m, fns, x, netPct);
    ZScoreBound(m, fns, |w| - 1);
  }
}
