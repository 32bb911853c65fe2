/** The circuit breaker (internal/risk/risk.go). The program looks at the clock
    only when it is called; here that lazy object is proved to show exactly what
    an eager timed automaton, which watches every instant, would show. */
module Risk {
  import Types

  datatype State = Active | Watching | Paused

  datatype RiskConfig = RiskConfig(
    minNetProfitPct: real,
    maxPositionUSDT: real,
    lossThreshold: real,
    consecutiveLossN: int,
    pauseDuration: int)

  /** A trade outcome and the time at which it was reported. */
  datatype Result = Result(at: int, netPct: real)

  // ---------- The eager automaton ----------

  datatype Eager = RunningWith(streak: nat) | PausedUntil(until: int)

  function StateOf(e: Eager): State {
    match e
    case PausedUntil(_) => Paused
    case RunningWith(streak) => if streak == 0 then Active else Watching
  }

  /** One instant passes: a pause that is over ends. */
  function Tick(e: Eager, instant: int): Eager {
    if e.PausedUntil? && instant >= e.until then RunningWith(0) else e
  }

  /** Every instant from `start` to `end` passes, both included. */
  function Elapse(e: Eager, start: int, end: int): Eager
    decreases end - start
  {
    if end < start then e else Tick(Elapse(e, start, end - 1), end)
  }

  function AfterResult(e: Eager, cfg: RiskConfig, r: Result): Eager {
    match e
    case PausedUntil(_) => e
    case RunningWith(streak) =>
      if r.netPct >= cfg.lossThreshold then RunningWith(0)
      else if streak + 1 >= cfg.consecutiveLossN then PausedUntil(r.at + cfg.pauseDuration)
      else RunningWith(streak + 1)
  }

  ghost predicate InOrder(results: seq<Result>) {
    forall i, j | 0 <= i < j < |results| :: results[i].at <= results[j].at
  }

  /** The automaton at the instant of the last result, just after it. */
  function EagerAfter(results: seq<Result>, cfg: RiskConfig): Eager
    decreases |results|, 0
  {
    if results == [] then RunningWith(0)
    else
      var n := |results| - 1;
      AfterResult(EagerAt(results[..n], cfg, results[n].at), cfg, results[n])
  }

  /** The automaton at instant `t`: a function of the timed results alone. */
  function EagerAt(results: seq<Result>, cfg: RiskConfig, t: int): Eager
    decreases |results|, 1
  {
    if results == [] then RunningWith(0)
    else Elapse(EagerAfter(results, cfg), results[|results| - 1].at, t)
  }

  /** Watching every instant or only the last one comes to the same. */
  lemma {:induction false} ElapseIsLastTick(e: Eager, start: int, end: int)
    requires start <= end
    ensures Elapse(e, start, end) == Tick(e, end)
    decreases end - start
  {
    if start < end {
      ElapseIsLastTick(e, start, end - 1);
    } else {
      assert Elapse(e, start, end - 1) == e;
    }
  }

  lemma EagerAtIsTick(results: seq<Result>, cfg: RiskConfig, t: int)
    requires results != [] ==> results[|results| - 1].at <= t
    ensures EagerAt(results, cfg, t) == Tick(EagerAfter(results, cfg), t)
  {
    if results != [] {
      ElapseIsLastTick(EagerAfter(results, cfg), results[|results| - 1].at, t);
    }
  }

  lemma AfterOneMore(results: seq<Result>, cfg: RiskConfig, r: Result)
    requires InOrder(results) && (results != [] ==> results[|results| - 1].at <= r.at)
    ensures InOrder(results + [r])
    ensures EagerAfter(results + [r], cfg) == AfterResult(EagerAt(results, cfg, r.at), cfg, r)
  {
    assert (results + [r])[..|results|] == results;
  }

  // ---------- The lazy object ----------

  class RiskManager {
    const cfg: RiskConfig
    var state: State
    var lossCount: int
    var pauseUntil: int
    ghost var results: seq<Result>
    ghost var lastSeen: int

    constructor (cfg: RiskConfig, ghost now: int)
      ensures Valid() && results == [] && lastSeen == now && this.cfg == cfg
    {
      this.cfg, state, lossCount, pauseUntil := cfg, Active, 0, 0;
      results, lastSeen := [], now;
    }

    ghost predicate Coherent()
      reads this
    {
      lossCount >= 0 && (state != Paused ==> (state == Active <==> lossCount == 0))
    }

    ghost function View(): Eager
      reads this
      requires Coherent()
    {
      if state == Paused then PausedUntil(pauseUntil) else RunningWith(lossCount)
    }

    /** The stored state is the automaton's, or a pause that the automaton has
        already left has already been noticed here. */
    ghost predicate Valid()
      reads this
    {
      && Coherent() && InOrder(results)
      && (results != [] ==> results[|results| - 1].at <= lastSeen)
      && var e := EagerAfter(results, cfg);
      || View() == e
      || (e.PausedUntil? && e.until <= lastSeen && View() == RunningWith(0))
    }

    method CheckPauseExpiry(now: int)
      requires Valid() && now >= lastSeen
      modifies this
      ensures Valid() && View() == EagerAt(results, cfg, now)
      ensures results == old(results) && lastSeen == now
    {
      EagerAtIsTick(results, cfg, now);
      if state == Paused && now >= pauseUntil {
        state := Active;
        lossCount := 0;
      }
      lastSeen := now;
    }

    /** What is shown depends on the timed results and the time alone. */
    method CurrentState(now: int) returns (s: State)
      requires Valid() && now >= lastSeen
      modifies this
      ensures Valid() && results == old(results) && lastSeen == now
      ensures s == StateOf(EagerAt(results, cfg, now))
      ensures s == Paused <==> EagerAt(results, cfg, now).PausedUntil?
      ensures s == Active <==> EagerAt(results, cfg, now) == RunningWith(0)
    {
      CheckPauseExpiry(now);
      s := state;
    }

    method Evaluate(opp: Types.Opportunity, now: int) returns (approved: bool)
      requires Valid() && now >= lastSeen
      modifies this
      ensures Valid() && results == old(results) && lastSeen == now
      ensures approved <==> EagerAt(results, cfg, now).RunningWith? && Acceptable(opp, cfg)
      ensures Acceptable(opp, cfg) <==>
              opp.netProfitPct >= cfg.minNetProfitPct && opp.maxVolume * opp.buyPrice <= cfg.maxPositionUSDT
    {
      CheckPauseExpiry(now);
      if state == Paused {
        return false;
      }
      if opp.netProfitPct < cfg.minNetProfitPct {
        return false;
      }
      var position := opp.maxVolume * opp.buyPrice;
      if position > cfg.maxPositionUSDT {
        return false;
      }
      return true;
    }

    method RecordTradeResult(netPct: real, now: int)
      requires Valid() && now >= lastSeen
      modifies this
      ensures Valid() && results == old(results) + [Result(now, netPct)] && lastSeen == now
    {
      hide EagerAfter, EagerAt, InOrder;
      CheckPauseExpiry(now);
      AfterOneMore(results, cfg, Result(now, netPct));
      results := results + [Result(now, netPct)];
      if state == Paused {
        return;
      }
      if netPct < cfg.lossThreshold {
        lossCount := lossCount + 1;
        if state == Active {
          state := Watching;
        }
        if lossCount >= cfg.consecutiveLossN {
          state := Paused;
          pauseUntil := now + cfg.pauseDuration;
        }
      } else {
        lossCount := 0;
        state := Active;
      }
    }
  }

  predicate Acceptable(opp: Types.Opportunity, cfg: RiskConfig) {
    opp.netProfitPct >= cfg.minNetProfitPct && opp.maxVolume * opp.buyPrice <= cfg.maxPositionUSDT
  }

  // ---------- What the automaton does over whole histories ----------

  /** The `i`-th result trips the breaker. */
  ghost predicate TripsAt(results: seq<Result>, cfg: RiskConfig, i: nat) {
    && i < |results|
    && EagerAt(results[..i], cfg, results[i].at).RunningWith?
    && EagerAfter(results[..i + 1], cfg).PausedUntil?
  }

  /** The `i`-th result trips the breaker until the instant `until`. */
  ghost predicate TripsUntil(results: seq<Result>, cfg: RiskConfig, i: nat, until: int) {
    TripsAt(results, cfg, i) && until == results[i].at + cfg.pauseDuration
  }

  lemma TripsOfPrefix(results: seq<Result>, cfg: RiskConfig, n: nat, i: nat, until: int)
    requires i < n <= |results|
    ensures TripsUntil(results[..n], cfg, i, until) <==> TripsUntil(results, cfg, i, until)
  {
    assert results[..n][..i] == results[..i] && results[..n][..i + 1] == results[..i + 1];
  }

  /** The last result trips exactly when it moves the automaton into a pause. */
  lemma TripAtLast(results: seq<Result>, cfg: RiskConfig, until: int)
    requires results != []
    ensures var n := |results| - 1;
            TripsUntil(results, cfg, n, until) <==>
            && EagerAt(results[..n], cfg, results[n].at).RunningWith?
            && EagerAfter(results, cfg) == PausedUntil(until)
  {
    assert results[..|results|] == results;
  }

  /** The automaton after one more result, from the automaton at its instant. */
  lemma AfterLast(results: seq<Result>, cfg: RiskConfig, t: int)
    requires results != [] && InOrder(results) && results[|results| - 1].at <= t
    ensures var n := |results| - 1;
            && InOrder(results[..n]) && (n > 0 ==> results[n - 1].at <= results[n].at)
            && EagerAfter(results, cfg) == AfterResult(EagerAt(results[..n], cfg, results[n].at), cfg, results[n])
            && EagerAt(results, cfg, t) == Tick(EagerAfter(results, cfg), t)
  {
    hide EagerAt;
    EagerAtIsTick(results, cfg, t);
  }

  lemma {:induction false} PauseHasTrip(results: seq<Result>, cfg: RiskConfig, t: int, until: int) returns (i: nat)
    requires InOrder(results) && (results != [] ==> results[|results| - 1].at <= t)
    requires EagerAt(results, cfg, t) == PausedUntil(until)
    ensures t < until && i < |results| && TripsUntil(results, cfg, i, until)
    decreases |results|
  {
    var n := |results| - 1;
    AfterLast(results, cfg, t);
    hide EagerAfter, TripsUntil;
    if EagerAt(results[..n], cfg, results[n].at).RunningWith? {
      TripAtLast(results, cfg, until);
      i := n;
    } else {
      i := PauseHasTrip(results[..n], cfg, results[n].at, until);
      TripsOfPrefix(results, cfg, n, i, until);
    }
  }

  lemma {:induction false} TripStillPauses(results: seq<Result>, cfg: RiskConfig, t: int, until: int, i: nat)
    requires InOrder(results) && (results != [] ==> results[|results| - 1].at <= t)
    requires t < until && i < |results| && TripsUntil(results, cfg, i, until)
    ensures EagerAt(results, cfg, t) == PausedUntil(until)
    decreases |results|
  {
    hide EagerAfter, EagerAt, TripsUntil;
    var n := |results| - 1;
    AfterLast(results, cfg, t);
    if i == n {
      TripAtLast(results, cfg, until);
    } else {
      TripsOfPrefix(results, cfg, n, i, until);
      TripStillPauses(results[..n], cfg, results[n].at, until, i);
    }
  }

  /** It is paused exactly from each trip until the pause duration has passed. */
  lemma PausedIffRecentTrip(results: seq<Result>, cfg: RiskConfig, t: int, until: int)
    requires InOrder(results) && (results != [] ==> results[|results| - 1].at <= t)
    ensures EagerAt(results, cfg, t) == PausedUntil(until) <==>
            t < until && exists i: nat :: i < |results| && TripsUntil(results, cfg, i, until)
  {
    hide EagerAt, TripsUntil;
    if EagerAt(results, cfg, t) == PausedUntil(until) {
      var i := PauseHasTrip(results, cfg, t, until);
    }
    if t < until {
      forall i: nat | i < |results| && TripsUntil(results, cfg, i, until)
        ensures EagerAt(results, cfg, t) == PausedUntil(until)
      {
        TripStillPauses(results, cfg, t, until, i);
      }
    }
  }

  /** The length of the run of losses at the end. */
  function TrailingLosses(results: seq<Result>, cfg: RiskConfig): nat {
    if results == [] || results[|results| - 1].netPct >= cfg.lossThreshold then 0
    else TrailingLosses(results[..|results| - 1], cfg) + 1
  }

  /** Where the results that count start: after the last result that tripped the
      breaker or arrived during a pause. */
  ghost function CountedFrom(results: seq<Result>, cfg: RiskConfig): (start: nat)
    ensures start <= |results|
  {
    if results == [] then 0
    else if EagerAfter(results, cfg).PausedUntil? then |results|
    else CountedFrom(results[..|results| - 1], cfg)
  }

  /** While running, the streak is the length of the current run of losses, and
      it is below the limit. */
  lemma {:induction false} StreakIsTrailingLosses(results: seq<Result>, cfg: RiskConfig)
    requires cfg.consecutiveLossN >= 1 && EagerAfter(results, cfg).RunningWith?
    ensures EagerAfter(results, cfg).streak
            == TrailingLosses(results[CountedFrom(results, cfg)..], cfg) < cfg.consecutiveLossN
    decreases |results|, 0
  {
    if results == [] {
    } else {
      var n := |results| - 1;
      var init := results[..n];
      var from := CountedFrom(init, cfg);
      assert results[from..][..n - from] == init[from..];
      StreakBeforeResult(init, cfg, results[n].at);
    }
  }

  /** The same at a later instant: an expired pause counts from zero again. */
  lemma {:induction false} StreakBeforeResult(results: seq<Result>, cfg: RiskConfig, t: int)
    requires cfg.consecutiveLossN >= 1 && EagerAt(results, cfg, t).RunningWith?
    ensures EagerAt(results, cfg, t).streak
            == TrailingLosses(results[CountedFrom(results, cfg)..], cfg) < cfg.consecutiveLossN
    decreases |results|, 1
  {
    if results == [] {
    } else {
      ElapseKeepsStreak(EagerAfter(results, cfg), results[|results| - 1].at, t);
      if EagerAfter(results, cfg).RunningWith? {
        StreakIsTrailingLosses(results, cfg);
      }
    }
  }

  lemma {:induction false} ElapseKeepsStreak(e: Eager, start: int, end: int)
    requires Elapse(e, start, end).RunningWith?
    ensures Elapse(e, start, end) == (if e.RunningWith? then e else RunningWith(0))
    decreases end - start
  {
    if end < start {
    } else {
      var before := Elapse(e, start, end - 1);
      if before.RunningWith? {
        ElapseKeepsStreak(e, start, end - 1);
      } else {
        ElapsePaused(e, start, end - 1);
      }
    }
  }

  lemma {:induction false} ElapsePaused(e: Eager, start: int, end: int)
    requires Elapse(e, start, end).PausedUntil?
    ensures e.PausedUntil?
    decreases end - start
  {
    if end < start {
    } else {
      ElapsePaused(e, start, end - 1);
    }
  }

  /** A running breaker trips exactly on the N-th consecutive loss. */
  lemma TripsOnNthLoss(results: seq<Result>, cfg: RiskConfig, r: Result)
    requires cfg.consecutiveLossN >= 1 && EagerAt(results, cfg, r.at).RunningWith?
    ensures var counted := results[CountedFrom(results, cfg)..] + [r];
            EagerAfter(results + [r], cfg).PausedUntil? <==> TrailingLosses(counted, cfg) == cfg.consecutiveLossN
    ensures EagerAfter(results + [r], cfg).PausedUntil? ==>
              EagerAfter(results + [r], cfg).until == r.at + cfg.pauseDuration
  {
    StreakBeforeResult(results, cfg, r.at);
    var kept := results[CountedFrom(results, cfg)..];
    assert (results + [r])[..|results|] == results && (kept + [r])[..|kept|] == kept;
  }

  /** The documented rule, that the sum of the last N results decides, is not the
      code's: results that are acceptable one by one never trip the breaker. */
  lemma {:induction false} SmallLossesNeverTrip(results: seq<Result>, cfg: RiskConfig)
    requires InOrder(results) && forall i | 0 <= i < |results| :: results[i].netPct >= cfg.lossThreshold
    ensures EagerAfter(results, cfg) == RunningWith(0)
  {
    if results == [] {
    } else {
      var n := |results| - 1;
      SmallLossesNeverTrip(results[..n], cfg);
      EagerAtIsTick(results[..n], cfg, results[n].at);
    }
  }

  // ---------- The documented rule ----------

  function NetSum(results: seq<Result>): real {
    if results == [] then 0.0 else NetSum(results[..|results| - 1]) + results[|results| - 1].netPct
  }

  function LastOf(results: seq<Result>, n: nat): seq<Result>
    requires n <= |results|
  {
    results[|results| - n..]
  }

  /** The documented rule: the last N results add up to less than the threshold. */
  predicate DocumentedRule(results: seq<Result>, cfg: RiskConfig)
    requires cfg.consecutiveLossN >= 1
  {
    cfg.consecutiveLossN <= |results| && NetSum(LastOf(results, cfg.consecutiveLossN)) < cfg.lossThreshold
  }

  ghost predicate AllLosses(results: seq<Result>, cfg: RiskConfig) {
    forall i | 0 <= i < |results| :: results[i].netPct < cfg.lossThreshold
  }

  /** The N latest results are losses exactly when the run of losses is that long. */
  lemma {:induction false} TrailingAreLosses(results: seq<Result>, cfg: RiskConfig, n: nat)
    requires n <= |results|
    ensures TrailingLosses(results, cfg) >= n <==> AllLosses(LastOf(results, n), cfg)
  {
    hide AllLosses;
    if n == 0 {
      NoLosses(cfg);
      assert LastOf(results, n) == [];
    } else {
      var k := |results| - 1;
      TrailingAreLosses(results[..k], cfg, n - 1);
      assert LastOf(results, n) == LastOf(results[..k], n - 1) + [results[k]];
      OneMoreLoss(LastOf(results[..k], n - 1), results[k], cfg);
    }
  }

  lemma NoLosses(cfg: RiskConfig)
    ensures AllLosses([], cfg)
  {
  }

  lemma OneMoreLoss(front: seq<Result>, r: Result, cfg: RiskConfig)
    ensures AllLosses(front + [r], cfg) <==> AllLosses(front, cfg) && r.netPct < cfg.lossThreshold
  {
    if AllLosses(front + [r], cfg) {
      assert forall i | 0 <= i < |front| :: front[i] == (front + [r])[i];
      assert (front + [r])[|front|] == r;
    }
  }

  /** Under a threshold of zero or less any losses add up to less than it. */
  lemma {:induction false} LossesSumBelow(results: seq<Result>, cfg: RiskConfig)
    requires results != [] && AllLosses(results, cfg) && cfg.lossThreshold <= 0.0
    ensures NetSum(results) < cfg.lossThreshold
  {
    var n := |results| - 1;
    if n == 0 {
      assert NetSum(results[..0]) == 0.0;
    } else {
      LossesSumBelow(results[..n], cfg);
    }
  }

  /** The results a running breaker has counted when `r` arrives, with `r`. */
  ghost function Counted(results: seq<Result>, cfg: RiskConfig, r: Result): seq<Result> {
    results[CountedFrom(results, cfg)..] + [r]
  }

  /** The code's rule in the terms of the documented one: all of the last N results
      counted are losses. */
  lemma TripsIffLastAreLosses(results: seq<Result>, cfg: RiskConfig, r: Result)
    requires cfg.consecutiveLossN >= 1 && EagerAt(results, cfg, r.at).RunningWith?
    ensures var counted, n := Counted(results, cfg, r), cfg.consecutiveLossN;
            EagerAfter(results + [r], cfg).PausedUntil? <==> n <= |counted| && AllLosses(LastOf(counted, n), cfg)
  {
    hide EagerAt, EagerAfter, CountedFrom;
    var counted, n := Counted(results, cfg, r), cfg.consecutiveLossN;
    TripsOnNthLoss(results, cfg, r);
    TrailingAtMost(counted, cfg);
    CountedRunIsShort(results, cfg, r);
    if n <= |counted| {
      TrailingAreLosses(counted, cfg, n);
    }
  }

  lemma {:induction false} TrailingAtMost(results: seq<Result>, cfg: RiskConfig)
    ensures TrailingLosses(results, cfg) <= |results|
  {
    if results == [] {
    } else {
      TrailingAtMost(results[..|results| - 1], cfg);
    }
  }

  lemma CountedRunIsShort(results: seq<Result>, cfg: RiskConfig, r: Result)
    requires cfg.consecutiveLossN >= 1 && EagerAt(results, cfg, r.at).RunningWith?
    ensures TrailingLosses(Counted(results, cfg, r), cfg) <= cfg.consecutiveLossN
  {
    hide EagerAt, EagerAfter, CountedFrom;
    StreakBeforeResult(results, cfg, r.at);
    var kept := results[CountedFrom(results, cfg)..];
    assert (kept + [r])[..|kept|] == kept;
  }

  /** Where the two rules part. Under a threshold of zero or less, which is what a
      loss is, a trip always meets the documented rule; and the two agree on a result
      exactly when no acceptable result is among the last N counted, or the sum is
      not below the threshold. */
  lemma RulesAgreeIff(results: seq<Result>, cfg: RiskConfig, r: Result)
    requires cfg.consecutiveLossN >= 1 && EagerAt(results, cfg, r.at).RunningWith?
    ensures var counted, n := Counted(results, cfg, r), cfg.consecutiveLossN;
            var trips, documented := EagerAfter(results + [r], cfg).PausedUntil?, DocumentedRule(counted, cfg);
            && ((trips <==> documented) <==>
                n <= |counted| ==>
                  (AllLosses(LastOf(counted, n), cfg) <==> NetSum(LastOf(counted, n)) < cfg.lossThreshold))
            && (cfg.lossThreshold <= 0.0 ==>
                && (trips ==> documented)
                && ((trips <==> documented) <==>
                    |counted| < n || AllLosses(LastOf(counted, n), cfg)
                    || NetSum(LastOf(counted, n)) >= cfg.lossThreshold))
  {
    hide EagerAt, EagerAfter, Counted;
    var counted, n := Counted(results, cfg, r), cfg.consecutiveLossN;
    TripsIffLastAreLosses(results, cfg, r);
    if n <= |counted| && AllLosses(LastOf(counted, n), cfg) && cfg.lossThreshold <= 0.0 {
      LossesSumBelow(LastOf(counted, n), cfg);
    }
  }

  /** A trip also meets the documented rule on the whole history, pauses included. */
  lemma TripMeetsDocumentedRule(results: seq<Result>, cfg: RiskConfig, r: Result)
    requires cfg.consecutiveLossN >= 1 && cfg.lossThreshold <= 0.0 && EagerAt(results, cfg, r.at).RunningWith?
    requires EagerAfter(results + [r], cfg).PausedUntil?
    ensures DocumentedRule(results + [r], cfg)
  {
    hide EagerAt, EagerAfter, CountedFrom, NetSum;
    RulesAgreeIff(results, cfg, r);
    assert LastOf(results + [r], cfg.consecutiveLossN) == LastOf(Counted(results, cfg, r), cfg.consecutiveLossN);
  }

  function Repeated(r: Result, n: nat): (results: seq<Result>)
    ensures |results| == n && forall i | 0 <= i < n :: results[i] == r
  {
    seq(n, _ => r)
  }

  lemma {:induction false} SumOfRepeated(r: Result, n: nat)
    ensures NetSum(Repeated(r, n)) == (n as real) * r.netPct
  {
    if n == 0 {
    } else {
      SumOfRepeated(r, n - 1);
      assert Repeated(r, n)[..n - 1] == Repeated(r, n - 1);
      assert (n as real) == ((n - 1) as real) + 1.0;
    }
  }

  /** For every N the rules do differ: N results that are each acceptable, but only
      just, meet the documented rule and do not trip the breaker. */
  lemma LossSumDoesNotTrip(cfg: RiskConfig, loss: real, at: int)
    requires cfg.consecutiveLossN >= 2
    requires cfg.lossThreshold <= loss < cfg.lossThreshold / (cfg.consecutiveLossN as real)
    ensures var results := Repeated(Result(at, loss), cfg.consecutiveLossN);
            DocumentedRule(results, cfg) && EagerAfter(results, cfg) == RunningWith(0)
  {
    hide EagerAfter, NetSum;
    var n, r := cfg.consecutiveLossN, Result(at, loss);
    SmallLossesNeverTrip(Repeated(r, n), cfg);
    RepeatedSumBelow(r, n, cfg.lossThreshold);
    assert LastOf(Repeated(r, n), n) == Repeated(r, n);
  }

  lemma {:induction false} LossesBeforeTrip(cfg: RiskConfig, r: Result, m: nat)
    requires m < cfg.consecutiveLossN && r.netPct < cfg.lossThreshold
    ensures EagerAfter(Repeated(r, m), cfg) == RunningWith(m)
  {
    if m == 0 {
    } else {
      LossesBeforeTrip(cfg, r, m - 1);
      assert Repeated(r, m)[..m - 1] == Repeated(r, m - 1);
      EagerAtIsTick(Repeated(r, m - 1), cfg, r.at);
    }
  }

  lemma EqualLossesTrip(cfg: RiskConfig, r: Result)
    requires cfg.consecutiveLossN >= 1 && r.netPct < cfg.lossThreshold
    ensures EagerAfter(Repeated(r, cfg.consecutiveLossN), cfg).PausedUntil?
  {
    var n := cfg.consecutiveLossN;
    LossesBeforeTrip(cfg, r, n - 1);
    assert Repeated(r, n)[..n - 1] == Repeated(r, n - 1);
    EagerAtIsTick(Repeated(r, n - 1), cfg, r.at);
  }

  /** Above a threshold of zero they differ the other way too: N gains that are each
      below the threshold trip the breaker, though their sum is not below it. */
  lemma GainsBelowThresholdTrip(cfg: RiskConfig, gain: real, at: int)
    requires cfg.consecutiveLossN >= 2
    requires cfg.lossThreshold / (cfg.consecutiveLossN as real) <= gain < cfg.lossThreshold
    ensures var results := Repeated(Result(at, gain), cfg.consecutiveLossN);
            !DocumentedRule(results, cfg) && EagerAfter(results, cfg).PausedUntil?
  {
    hide EagerAfter, NetSum;
    var n, r := cfg.consecutiveLossN, Result(at, gain);
    EqualLossesTrip(cfg, r);
    RepeatedSumBelow(r, n, cfg.lossThreshold);
    assert LastOf(Repeated(r, n), n) == Repeated(r, n);
  }

  /** N equal results add up to less than `y` exactly when each is below y / N. */
  lemma RepeatedSumBelow(r: Result, n: nat, y: real)
    requires n > 0
    ensures NetSum(Repeated(r, n)) < y <==> r.netPct < y / (n as real)
  {
    hide NetSum;
    SumOfRepeated(r, n);
    TimesDivisor(r.netPct, y, n as real, y / (n as real), (n as real) * r.netPct);
  }

  lemma TimesDivisor(x: real, y: real, n: real, q: real, p: real)
    requires n > 0.0 && q == y / n && p == n * x
    ensures x < q <==> p < y
  {
    assert q * n == y;
    if x < q {
      assert (q - x) * n > 0.0;
    } else {
      assert (x - q) * n >= 0.0;
    }
  }

  /** Nothing is approved from a trip until its pause is over, whatever else is
      reported in the meantime. */
  lemma NothingApprovedDuringPause(results: seq<Result>, cfg: RiskConfig, i: nat, t: int)
    requires InOrder(results) && (results != [] ==> results[|results| - 1].at <= t)
    requires TripsAt(results, cfg, i) && t < results[i].at + cfg.pauseDuration
    ensures EagerAt(results, cfg, t) == PausedUntil(results[i].at + cfg.pauseDuration)
  {
    var until := results[i].at + cfg.pauseDuration;
    assert TripsUntil(results, cfg, i, until);
    TripStillPauses(results, cfg, t, until, i);
  }
}
