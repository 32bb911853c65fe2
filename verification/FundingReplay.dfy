/** Replaying recorded funding rates (internal/backtest/factories.go): an index
    per exchange, a binary search in it, and a rate-limited emission. */
module FundingReplay {
  import opened Types
  import Cooldown
  import opened FundingPair

  datatype FundingRate = FundingRate(exchange: string, rate: real, at: int)

  /** The recorded rates of one exchange, in recording order. */
  function RatesOf(rates: seq<FundingRate>, exchange: string): seq<FundingRate> {
    if rates == [] then []
    else
      var n := |rates| - 1;
      RatesOf(rates[..n], exchange) + if rates[n].exchange == exchange then [rates[n]] else []
  }

  /** Exactly that exchange's rates, as often as they were recorded. */
  lemma {:induction false} RatesOfKeepsExactly(rates: seq<FundingRate>, exchange: string, r: FundingRate)
    ensures multiset(RatesOf(rates, exchange))[r] == if r.exchange == exchange then multiset(rates)[r] else 0
  {
    if rates == [] {
    } else {
      var n := |rates| - 1;
      RatesOfKeepsExactly(rates[..n], exchange, r);
      assert rates == rates[..n] + [rates[n]];
    }
  }

  ghost predicate SortedByTime(rs: seq<FundingRate>) {
    forall i, j | 0 <= i < j < |rs| :: rs[i].at <= rs[j].at
  }

  /** The specification of the lookup, by scanning: the latest rate at or before `t`. */
  ghost predicate IsLatest(rates: seq<FundingRate>, t: int, found: Option<FundingRate>) {
    match found
    case None => forall r | r in rates :: r.at > t
    case Some(r) => r in rates && r.at <= t && forall q | q in rates && q.at <= t :: q.at <= r.at
  }

  ghost predicate DistinctTimes(rates: seq<FundingRate>) {
    forall r, q | r in rates && q in rates && r.at == q.at :: r == q
  }

  lemma LatestIsUnique(rates: seq<FundingRate>, t: int, a: Option<FundingRate>, b: Option<FundingRate>)
    requires DistinctTimes(rates) && IsLatest(rates, t, a) && IsLatest(rates, t, b)
    ensures a == b
  {
  }

  // ---------- Building the index ----------

  /** Go's sort.Slice promises no more than this: sorted, and a permutation. */
  method SortByTime(rs: seq<FundingRate>) returns (sorted: seq<FundingRate>)
    ensures SortedByTime(sorted) && multiset(sorted) == multiset(rs)
  {
    sorted := [];
    for i := 0 to |rs|
      invariant SortedByTime(sorted) && multiset(sorted) == multiset(rs[..i])
    {
      assert rs[..i + 1] == rs[..i] + [rs[i]];
      InsertKeepsSorted(sorted, rs[i]);
      InsertAdds(sorted, rs[i]);
      sorted := Insert(sorted, rs[i]);
    }
    assert rs[..|rs|] == rs;
  }

  function Insert(s: seq<FundingRate>, r: FundingRate): seq<FundingRate> {
    if s == [] || r.at < s[0].at then [r] + s else [s[0]] + Insert(s[1..], r)
  }

  lemma {:induction false} InsertAdds(s: seq<FundingRate>, r: FundingRate)
    ensures multiset(Insert(s, r)) == multiset(s) + multiset{r}
  {
    if s == [] || r.at < s[0].at {
    } else {
      InsertAdds(s[1..], r);
      assert s == [s[0]] + s[1..];
    }
  }

  lemma {:induction false} InsertNotBefore(s: seq<FundingRate>, r: FundingRate, t: int)
    requires t <= r.at && forall i | 0 <= i < |s| :: t <= s[i].at
    ensures forall i | 0 <= i < |Insert(s, r)| :: t <= Insert(s, r)[i].at
  {
    if s == [] || r.at < s[0].at {
    } else {
      InsertNotBefore(s[1..], r, t);
    }
  }

  lemma {:induction false} InsertKeepsSorted(s: seq<FundingRate>, r: FundingRate)
    requires SortedByTime(s)
    ensures SortedByTime(Insert(s, r))
  {
    if s == [] || r.at < s[0].at {
    } else {
      InsertKeepsSorted(s[1..], r);
      InsertNotBefore(s[1..], r, s[0].at);
    }
  }

  /** An index holds, per exchange, its recorded rates in time order. */
  ghost predicate IsIndex(index: map<string, seq<FundingRate>>, rates: seq<FundingRate>) {
    && (forall ex :: ex in index <==> RatesOf(rates, ex) != [])
    && (forall ex | ex in index :: SortedByTime(index[ex]) && multiset(index[ex]) == multiset(RatesOf(rates, ex)))
  }

  ghost predicate IsGrouping(groups: map<string, seq<FundingRate>>, rates: seq<FundingRate>) {
    forall ex :: RatesOf(rates, ex) == if ex in groups then groups[ex] else []
  }

  lemma GroupingStep(groups: map<string, seq<FundingRate>>, rates: seq<FundingRate>, i: nat)
    requires i < |rates| && IsGrouping(groups, rates[..i])
    ensures var r := rates[i];
            var group := if r.exchange in groups then groups[r.exchange] else [];
            IsGrouping(groups[r.exchange := group + [r]], rates[..i + 1])
  {
    assert rates[..i + 1][..i] == rates[..i];
  }

  method GroupByExchange(rates: seq<FundingRate>) returns (groups: map<string, seq<FundingRate>>)
    ensures IsGrouping(groups, rates) && forall ex | ex in groups :: groups[ex] != []
  {
    hide RatesOf, IsGrouping;
    groups := map[];
    NothingGrouped(rates);
    for i := 0 to |rates|
      invariant IsGrouping(groups, rates[..i]) && forall ex | ex in groups :: groups[ex] != []
    {
      var r := rates[i];
      GroupingStep(groups, rates, i);
      groups := groups[r.exchange := (if r.exchange in groups then groups[r.exchange] else []) + [r]];
    }
    assert rates[..|rates|] == rates;
  }

  lemma NothingGrouped(rates: seq<FundingRate>)
    ensures IsGrouping(map[], rates[..0])
  {
  }

  method BuildIndex(rates: seq<FundingRate>) returns (index: map<string, seq<FundingRate>>)
    ensures IsIndex(index, rates)
  {
    hide RatesOf, SortedByTime, IsGrouping, IsIndex;
    var groups := GroupByExchange(rates);
    index := map[];
    var todo := groups.Keys;
    while todo != {}
      invariant todo <= groups.Keys && index.Keys == groups.Keys - todo
      invariant forall ex | ex in index :: SortedByTime(index[ex]) && multiset(index[ex]) == multiset(groups[ex])
      decreases |todo|
    {
      var ex :| ex in todo;
      todo := todo - {ex};
      var sorted := SortByTime(groups[ex]);
      index := index[ex := sorted];
    }
    SortedGroupsAreIndex(groups, index, rates);
  }

  lemma SortedGroupsAreIndex(groups: map<string, seq<FundingRate>>, index: map<string, seq<FundingRate>>,
                             rates: seq<FundingRate>)
    requires IsGrouping(groups, rates) && forall ex | ex in groups :: groups[ex] != []
    requires index.Keys == groups.Keys
    requires forall ex | ex in index :: SortedByTime(index[ex]) && multiset(index[ex]) == multiset(groups[ex])
    ensures IsIndex(index, rates)
  {
    hide RatesOf, SortedByTime;
  }

  /** sort.Search for the first later rate, then one step back. */
  method LatestAtOrBefore(rs: seq<FundingRate>, t: int) returns (found: Option<FundingRate>)
    requires SortedByTime(rs)
    ensures IsLatest(rs, t, found)
  {
    var i, j := 0, |rs|;
    while i < j
      invariant 0 <= i <= j <= |rs|
      invariant forall k | 0 <= k < i :: rs[k].at <= t
      invariant forall k | j <= k < |rs| :: rs[k].at > t
    {
      var h := (i + j) / 2;
      if rs[h].at > t {
        j := h;
      } else {
        i := h + 1;
      }
    }
    if i == 0 {
      return None;
    }
    found := Some(rs[i - 1]);
  }

  lemma LatestOfPermutation(rs: seq<FundingRate>, rates: seq<FundingRate>, t: int, found: Option<FundingRate>)
    requires multiset(rs) == multiset(rates) && IsLatest(rs, t, found)
    ensures IsLatest(rates, t, found)
  {
    assert forall r :: r in rates <==> r in multiset(rates);
    assert forall r :: r in rs <==> r in multiset(rs);
  }

  // ---------- The strategy ----------

  /** The rate of every exchange that has one at or before `now`. */
  ghost predicate AreCurrentRates(current: map<string, real>, recorded: seq<FundingRate>, now: int) {
    && (forall ex | ex !in current :: IsLatest(RatesOf(recorded, ex), now, None))
    && (forall ex | ex in current ::
          exists r :: IsLatest(RatesOf(recorded, ex), now, Some(r)) && r.rate == current[ex])
  }

  class FundingReplayStrategy {
    const cfg: FundingConfig
    const byExchange: map<string, seq<FundingRate>>
    var lastEmit: map<string, int>
    ghost const recorded: seq<FundingRate>
    ghost var emissions: seq<Cooldown.Emission>

    ghost predicate Valid()
      reads this
    {
      && IsIndex(byExchange, recorded)
      && Cooldown.Spaced(emissions, cfg.emitCooldown) && lastEmit == Cooldown.LastEmissions(emissions)
    }

    constructor (cfg: FundingConfig, byExchange: map<string, seq<FundingRate>>, ghost recorded: seq<FundingRate>)
      requires IsIndex(byExchange, recorded)
      ensures Valid() && this.cfg == cfg && this.recorded == recorded && emissions == []
    {
      this.cfg, this.byExchange, lastEmit := cfg, byExchange, map[];
      this.recorded, emissions := recorded, [];
    }

    method CurrentRates(now: int) returns (current: map<string, real>)
      requires Valid()
      ensures AreCurrentRates(current, recorded, now)
    {
      current := map[];
      var todo := byExchange.Keys;
      while todo != {}
        invariant todo <= byExchange.Keys && current.Keys <= byExchange.Keys - todo
        invariant forall ex | ex in byExchange && ex !in todo && ex !in current ::
                    IsLatest(RatesOf(recorded, ex), now, None)
        invariant forall ex | ex in current ::
                    exists r :: IsLatest(RatesOf(recorded, ex), now, Some(r)) && r.rate == current[ex]
        decreases |todo|
      {
        hide IsLatest, RatesOf;
        var ex :| ex in todo;
        todo := todo - {ex};
        var found := LatestAtOrBefore(byExchange[ex], now);
        LatestOfPermutation(byExchange[ex], RatesOf(recorded, ex), now, found);
        if found.Some? {
          current := current[ex := found.value.rate];
        }
      }
    }

    /** Emits for the widest current pair when it is wide enough and its key is
        not cooling down; over any run, a key's emissions are a cooldown apart. */
    method Detect(now: int) returns (opps: seq<Opportunity>, ghost current: map<string, real>)
      requires Valid() && cfg.emitCooldown >= 0
      modifies this
      ensures Valid() && AreCurrentRates(current, recorded, now)
      ensures opps == [] ==> emissions == old(emissions)
      ensures opps == [] ==>
                || |current| < 2
                || exists lo, hi :: IsWidest(current, lo, hi)
                     && (current[hi] - current[lo] < cfg.threshold
                         || !Cooldown.Rested(old(emissions), lo + "->" + hi, now, cfg.emitCooldown))
      ensures opps != [] ==>
                && |opps| == 1 && |current| >= 2
                && var lo, hi := opps[0].buyExchange, opps[0].sellExchange;
                && IsWidest(current, lo, hi) && current[hi] - current[lo] >= cfg.threshold
                && opps[0] == Opportunity(opps[0].id, lo, hi, 0.0, 0.0, (current[hi] - current[lo]) * cfg.notional,
                                          current[hi] - current[lo], 0.0, 0.0, 0.0, now, StatusDetected, "funding")
                && Cooldown.Rested(old(emissions), lo + "->" + hi, now, cfg.emitCooldown)
                && emissions == old(emissions) + [Cooldown.Emission(lo + "->" + hi, now)]
    {
      hide AreCurrentRates, IsIndex, Cooldown.LastEmissions, Cooldown.Spaced, Cooldown.Rested;
      var cur := CurrentRates(now);
      current := cur;
      opps := [];
      if |cur| < 2 {
        return;
      }
      var maxEx, minEx, maxRate, minRate := ScanMaxMin(cur);
      var diff := maxRate - minRate;
      if diff < cfg.threshold {
        return;
      }
      var pairKey := PairKey(minEx, maxEx);
      Cooldown.CoolingDownIff(emissions, pairKey, now, cfg.emitCooldown);
      if Cooldown.CoolingDown(lastEmit, pairKey, now, cfg.emitCooldown) {
        return;
      }
      Cooldown.EmittingKeepsSpacing(emissions, cfg.emitCooldown, Cooldown.Emission(pairKey, now));
      lastEmit := lastEmit[pairKey := now];
      emissions := emissions + [Cooldown.Emission(pairKey, now)];
      var id: string := *;
      opps := [Opportunity(id, minEx, maxEx, 0.0, 0.0, diff * cfg.notional, diff, 0.0, 0.0, 0.0,
                           now, StatusDetected, "funding")];
    }
  }

  /** A fresh strategy over a recording; the index it searches is the recording's. */
  method NewFundingReplay(cfg: FundingConfig, rates: seq<FundingRate>) returns (s: FundingReplayStrategy)
    ensures fresh(s) && s.Valid() && s.cfg == cfg && s.recorded == rates && s.emissions == []
  {
    var byExchange := BuildIndex(rates);
    s := new FundingReplayStrategy(cfg, byExchange, rates);
  }

  /** With distinct timestamps per exchange the current rates are determined. */
  lemma CurrentRatesAreUnique(a: map<string, real>, b: map<string, real>, recorded: seq<FundingRate>, now: int)
    requires AreCurrentRates(a, recorded, now) && AreCurrentRates(b, recorded, now)
    requires forall ex :: DistinctTimes(RatesOf(recorded, ex))
    ensures a == b
  {
    hide DistinctTimes, RatesOf;
    forall ex
      ensures ex in a <==> ex in b
      ensures ex in a && ex in b ==> a[ex] == b[ex]
    {
      if ex in a {
        var r :| IsLatest(RatesOf(recorded, ex), now, Some(r)) && r.rate == a[ex];
        if ex in b {
          var q :| IsLatest(RatesOf(recorded, ex), now, Some(q)) && q.rate == b[ex];
          LatestIsUnique(RatesOf(recorded, ex), now, Some(r), Some(q));
        }
      } else if ex in b {
        var q :| IsLatest(RatesOf(recorded, ex), now, Some(q)) && q.rate == b[ex];
        LatestIsUnique(RatesOf(recorded, ex), now, None, Some(q));
      }
    }
  }
}
