/** Which pairs the dashboard features, and the store actions that decide it
    (web/src/store/marketStore.ts). */
module FeaturedPairs {
  import opened Types
  import opened PairColors

  predicate OneUnitEach(text: string) {
    forall i | 0 <= i < |text| :: text[i] as int < 0x1_0000
  }

  function UnitAt(text: string, i: nat): CodeUnit
    requires OneUnitEach(text) && i < |text|
  {
    text[i] as int
  }

  /** The code units of a text that has one per character. */
  function Units(text: string): (name: Name)
    requires OneUnitEach(text)
    ensures |name| == |text|
  {
    seq(|text|, i requires OneUnitEach(text) && 0 <= i < |text| => UnitAt(text, i))
  }

  const DEFAULT_FEATURED: seq<Name> :=
    [Units("binance-okx"), Units("binance-bybit"), Units("okx-bybit"), Units("binance-kraken")]
  const MAX_FEATURED := 6
  const FEATURED := 4
  const MIN_SAMPLES := 30

  datatype SpreadStats = SpreadStats(pair: Name, mean: real, std: real, samples: int)

  function Eligible(stats: seq<SpreadStats>, minSamples: int): seq<SpreadStats> {
    if stats == [] then []
    else if stats[0].samples >= minSamples && stats[0].std > 0.0 then [stats[0]] + Eligible(stats[1..], minSamples)
    else Eligible(stats[1..], minSamples)
  }

  function NamesOf(stats: seq<SpreadStats>): (names: seq<Name>)
    ensures |names| == |stats| && forall i :: 0 <= i < |stats| ==> names[i] == stats[i].pair
  {
    seq(|stats|, i requires 0 <= i < |stats| => stats[i].pair)
  }

  /** The previous pairs that are among `names`, in order. */
  function Sticky(prev: seq<Name>, names: seq<Name>): seq<Name> {
    if prev == [] then []
    else if prev[0] in names then [prev[0]] + Sticky(prev[1..], names)
    else Sticky(prev[1..], names)
  }

  function Without(stats: seq<SpreadStats>, names: seq<Name>): seq<SpreadStats> {
    if stats == [] then []
    else if stats[0].pair in names then Without(stats[1..], names)
    else [stats[0]] + Without(stats[1..], names)
  }

  function InsertByStd(s: seq<SpreadStats>, x: SpreadStats): seq<SpreadStats> {
    if s == [] || x.std >= s[0].std then [x] + s else [s[0]] + InsertByStd(s[1..], x)
  }

  /** The array sort by descending deviation, which is stable. */
  function SortByStd(s: seq<SpreadStats>): seq<SpreadStats> {
    if s == [] then [] else InsertByStd(SortByStd(s[1..]), s[0])
  }

  function Take<T>(s: seq<T>, n: nat): seq<T> {
    if n <= |s| then s[..n] else s
  }

  function PickFeaturedPairs(stats: seq<SpreadStats>, prev: seq<Name>, n: nat, minSamples: int): (picked: seq<Name>)
    ensures |picked| <= n
  {
    var eligible := Eligible(stats, minSamples);
    if eligible == [] then
      if |prev| == n then prev else Take(DEFAULT_FEATURED, n)
    else
      var sticky := Sticky(prev, NamesOf(eligible));
      if |sticky| >= n then sticky[..n]
      else
        var result := sticky + NamesOf(Take(SortByStd(Without(eligible, sticky)), n - |sticky|));
        if |result| == n then result else Take(DEFAULT_FEATURED, n)
  }

  // What the building blocks keep.

  lemma {:induction false} EligibleMeans(stats: seq<SpreadStats>, minSamples: int, s: SpreadStats)
    ensures s in Eligible(stats, minSamples) <==> s in stats && s.samples >= minSamples && s.std > 0.0
  {
    if stats == [] {
    } else {
      EligibleMeans(stats[1..], minSamples, s);
      assert stats == [stats[0]] + stats[1..];
    }
  }

  // Each of the three filters keeps the order.

  lemma EligibleStep(x: SpreadStats, rest: seq<SpreadStats>, minSamples: int)
    ensures Eligible([x] + rest, minSamples)
            == (if x.samples >= minSamples && x.std > 0.0 then [x] else []) + Eligible(rest, minSamples)
  {
    assert ([x] + rest)[1..] == rest;
  }

  lemma {:induction false} EligibleConcat(a: seq<SpreadStats>, b: seq<SpreadStats>, minSamples: int)
    ensures Eligible(a + b, minSamples) == Eligible(a, minSamples) + Eligible(b, minSamples)
  {
    if a == [] {
      assert a + b == b;
    } else {
      hide Eligible;
      var x, rest := a[0], a[1..];
      assert a == [x] + rest && a + b == [x] + (rest + b);
      EligibleConcat(rest, b, minSamples);
      EligibleStep(x, rest, minSamples);
      EligibleStep(x, rest + b, minSamples);
    }
  }

  lemma StickyStep(x: Name, rest: seq<Name>, names: seq<Name>)
    ensures Sticky([x] + rest, names) == (if x in names then [x] else []) + Sticky(rest, names)
  {
    assert ([x] + rest)[1..] == rest;
  }

  lemma {:induction false} StickyConcat(a: seq<Name>, b: seq<Name>, names: seq<Name>)
    ensures Sticky(a + b, names) == Sticky(a, names) + Sticky(b, names)
  {
    if a == [] {
      assert a + b == b;
    } else {
      hide Sticky;
      var x, rest := a[0], a[1..];
      assert a == [x] + rest && a + b == [x] + (rest + b);
      StickyConcat(rest, b, names);
      StickyStep(x, rest, names);
      StickyStep(x, rest + b, names);
    }
  }

  lemma WithoutStep(x: SpreadStats, rest: seq<SpreadStats>, names: seq<Name>)
    ensures Without([x] + rest, names) == (if x.pair in names then [] else [x]) + Without(rest, names)
  {
    assert ([x] + rest)[1..] == rest;
  }

  lemma {:induction false} WithoutConcat(a: seq<SpreadStats>, b: seq<SpreadStats>, names: seq<Name>)
    ensures Without(a + b, names) == Without(a, names) + Without(b, names)
  {
    if a == [] {
      assert a + b == b;
    } else {
      hide Without;
      var x, rest := a[0], a[1..];
      assert a == [x] + rest && a + b == [x] + (rest + b);
      WithoutConcat(rest, b, names);
      WithoutStep(x, rest, names);
      WithoutStep(x, rest + b, names);
    }
  }

  lemma {:induction false} StickyMeans(prev: seq<Name>, names: seq<Name>)
    ensures |Sticky(prev, names)| <= |prev|
    ensures forall p :: p in Sticky(prev, names) <==> p in prev && p in names
  {
    if prev == [] {
    } else {
      StickyMeans(prev[1..], names);
      assert prev == [prev[0]] + prev[1..];
    }
  }

  lemma {:induction false} StickyKeepsDistinct(prev: seq<Name>, names: seq<Name>)
    requires AreDistinct(prev)
    ensures AreDistinct(Sticky(prev, names))
  {
    if prev == [] {
    } else {
      StickyKeepsDistinct(prev[1..], names);
      StickyMeans(prev[1..], names);
      var rest := Sticky(prev[1..], names);
      forall i | 0 <= i < |rest| ensures rest[i] != prev[0] {
        assert rest[i] in prev[1..];
      }
    }
  }

  lemma {:induction false} StickyKeepsAll(prev: seq<Name>, names: seq<Name>)
    requires forall p | p in prev :: p in names
    ensures Sticky(prev, names) == prev
  {
    if prev == [] {
    } else {
      StickyKeepsAll(prev[1..], names);
    }
  }

  /** The kept pairs are a subsequence: exactly the known ones, without repeats
      when there were none, and all of them when all are known. */
  lemma StickyKeeps(prev: seq<Name>, names: seq<Name>)
    ensures forall p :: p in Sticky(prev, names) <==> p in prev && p in names
    ensures AreDistinct(prev) ==> AreDistinct(Sticky(prev, names))
    ensures (forall p | p in prev :: p in names) ==> Sticky(prev, names) == prev
    ensures |Sticky(prev, names)| <= |prev|
  {
    hide Sticky, AreDistinct;
    StickyMeans(prev, names);
    if AreDistinct(prev) {
      StickyKeepsDistinct(prev, names);
    }
    if forall p | p in prev :: p in names {
      StickyKeepsAll(prev, names);
    }
  }

  lemma {:induction false} EligibleKeepsDistinct(stats: seq<SpreadStats>, minSamples: int)
    requires DistinctNames(stats)
    ensures DistinctNames(Eligible(stats, minSamples))
  {
    if stats == [] {
    } else {
      EligibleKeepsDistinct(stats[1..], minSamples);
      var rest := Eligible(stats[1..], minSamples);
      forall j | 0 <= j < |rest| ensures rest[j].pair != stats[0].pair {
        EligibleMeans(stats[1..], minSamples, rest[j]);
      }
    }
  }

  ghost predicate DistinctNames(s: seq<SpreadStats>) {
    forall i, j :: 0 <= i < j < |s| ==> s[i].pair != s[j].pair
  }

  lemma {:induction false} WithoutMeans(stats: seq<SpreadStats>, names: seq<Name>)
    ensures forall s :: s in Without(stats, names) <==> s in stats && s.pair !in names
  {
    if stats == [] {
    } else {
      WithoutMeans(stats[1..], names);
      assert stats == [stats[0]] + stats[1..];
    }
  }

  lemma {:induction false} WithoutKeepsDistinct(stats: seq<SpreadStats>, names: seq<Name>)
    requires DistinctNames(stats)
    ensures DistinctNames(Without(stats, names))
  {
    if stats == [] {
    } else {
      WithoutKeepsDistinct(stats[1..], names);
      WithoutMeans(stats[1..], names);
      var rest := Without(stats[1..], names);
      forall j | 0 <= j < |rest| ensures rest[j].pair != stats[0].pair {
        assert rest[j] in stats[1..];
      }
    }
  }

  ghost predicate Descending(s: seq<SpreadStats>) {
    forall i, j :: 0 <= i < j < |s| ==> s[i].std >= s[j].std
  }

  lemma {:induction false} InsertMeans(s: seq<SpreadStats>, x: SpreadStats)
    ensures forall y :: y in InsertByStd(s, x) <==> y in s || y == x
    ensures |InsertByStd(s, x)| == |s| + 1
  {
    if s == [] || x.std >= s[0].std {
    } else {
      InsertMeans(s[1..], x);
      assert s == [s[0]] + s[1..];
    }
  }

  lemma {:induction false} InsertKeepsDescending(s: seq<SpreadStats>, x: SpreadStats)
    requires Descending(s)
    ensures Descending(InsertByStd(s, x))
  {
    if s == [] || x.std >= s[0].std {
    } else {
      InsertKeepsDescending(s[1..], x);
      InsertMeans(s[1..], x);
      var rest := InsertByStd(s[1..], x);
      forall j | 0 <= j < |rest| ensures s[0].std >= rest[j].std {
        assert rest[j] in s[1..] || rest[j] == x;
      }
    }
  }

  lemma {:induction false} InsertKeepsDistinct(s: seq<SpreadStats>, x: SpreadStats)
    requires DistinctNames(s) && forall i :: 0 <= i < |s| ==> s[i].pair != x.pair
    ensures DistinctNames(InsertByStd(s, x))
  {
    if s == [] || x.std >= s[0].std {
    } else {
      InsertKeepsDistinct(s[1..], x);
      InsertMeans(s[1..], x);
      var rest := InsertByStd(s[1..], x);
      forall j | 0 <= j < |rest| ensures s[0].pair != rest[j].pair {
        assert rest[j] in s[1..] || rest[j] == x;
      }
    }
  }

  lemma {:induction false} SortMeans(s: seq<SpreadStats>)
    ensures Descending(SortByStd(s)) && |SortByStd(s)| == |s|
    ensures forall y :: y in SortByStd(s) <==> y in s
  {
    if s == [] {
    } else {
      SortMeans(s[1..]);
      InsertMeans(SortByStd(s[1..]), s[0]);
      InsertKeepsDescending(SortByStd(s[1..]), s[0]);
      assert s == [s[0]] + s[1..];
    }
  }

  lemma {:induction false} SortKeepsDistinct(s: seq<SpreadStats>)
    requires DistinctNames(s)
    ensures DistinctNames(SortByStd(s))
  {
    if s == [] {
    } else {
      SortKeepsDistinct(s[1..]);
      SortMeans(s[1..]);
      var rest := SortByStd(s[1..]);
      forall j | 0 <= j < |rest| ensures s[0].pair != rest[j].pair {
        assert rest[j] in s[1..];
      }
      InsertKeepsDistinct(rest, s[0]);
    }
  }

  function WithStd(s: seq<SpreadStats>, std: real): seq<SpreadStats> {
    if s == [] then []
    else if s[0].std == std then [s[0]] + WithStd(s[1..], std)
    else WithStd(s[1..], std)
  }

  lemma {:induction false} InsertIsStable(s: seq<SpreadStats>, x: SpreadStats, std: real)
    requires Descending(s)
    ensures WithStd(InsertByStd(s, x), std) == if x.std == std then [x] + WithStd(s, std) else WithStd(s, std)
  {
    if s == [] || x.std >= s[0].std {
      assert ([x] + s)[1..] == s;
    } else {
      InsertIsStable(s[1..], x, std);
      assert ([s[0]] + InsertByStd(s[1..], x))[1..] == InsertByStd(s[1..], x);
    }
  }

  /** Pairs of equal deviation stay in the order they came in. */
  lemma {:induction false} SortIsStable(s: seq<SpreadStats>, std: real)
    ensures WithStd(SortByStd(s), std) == WithStd(s, std)
  {
    if s == [] {
    } else {
      SortIsStable(s[1..], std);
      SortMeans(s[1..]);
      InsertIsStable(SortByStd(s[1..]), s[0], std);
    }
  }

  /** The candidates for the free places, best first. */
  lemma FillShape(eligible: seq<SpreadStats>, sticky: seq<Name>)
    requires DistinctNames(eligible)
    ensures var sorted := SortByStd(Without(eligible, sticky));
            && Descending(sorted) && DistinctNames(sorted)
            && forall s :: s in sorted <==> s in eligible && s.pair !in sticky
  {
    var rest := Without(eligible, sticky);
    WithoutMeans(eligible, sticky);
    WithoutKeepsDistinct(eligible, sticky);
    SortMeans(rest);
    SortKeepsDistinct(rest);
  }

  lemma NamesMember(stats: seq<SpreadStats>, s: SpreadStats)
    requires s in stats
    ensures s.pair in NamesOf(stats)
  {
    var i :| 0 <= i < |stats| && stats[i] == s;
    assert NamesOf(stats)[i] == s.pair;
  }

  /** A list that covers all the names is no shorter. */
  lemma CoverIsLonger(names: seq<Name>, cover: seq<Name>)
    requires AreDistinct(names) && forall p | p in names :: p in cover
    ensures |names| <= |cover|
  {
    var a, b := set p | p in names, set p | p in cover;
    DistinctCardinality(names);
    Subset(a, b);
    CardinalityAtMost(cover);
  }

  lemma {:induction false} CardinalityAtMost<T>(s: seq<T>)
    ensures |(set x | x in s)| <= |s|
  {
    if s == [] {
    } else {
      var front, last := s[..|s| - 1], s[|s| - 1];
      CardinalityAtMost(front);
      assert (set x | x in s) == (set x | x in front) + {last};
    }
  }

  /** Enough eligible pairs leave enough to fill the free places with. */
  lemma EnoughToFill(eligible: seq<SpreadStats>, sticky: seq<Name>)
    requires DistinctNames(eligible)
    ensures |eligible| <= |sticky| + |SortByStd(Without(eligible, sticky))|
  {
    var sorted := SortByStd(Without(eligible, sticky));
    FillShape(eligible, sticky);
    forall p | p in NamesOf(eligible) ensures p in sticky + NamesOf(sorted) {
      var i :| 0 <= i < |eligible| && eligible[i].pair == p;
      if p !in sticky {
        assert eligible[i] in sorted;
        NamesMember(sorted, eligible[i]);
      }
    }
    CoverIsLonger(NamesOf(eligible), sticky + NamesOf(sorted));
  }

  ghost predicate AllEligible(names: seq<Name>, stats: seq<SpreadStats>, minSamples: int) {
    forall p :: p in names ==> p in NamesOf(Eligible(stats, minSamples))
  }

  /** The branch in which free places are filled. */
  lemma FilledSelection(eligible: seq<SpreadStats>, sticky: seq<Name>, m: nat)
    requires DistinctNames(eligible) && AreDistinct(sticky)
    requires forall p | p in sticky :: p in NamesOf(eligible)
    ensures var picked := sticky + NamesOf(Take(SortByStd(Without(eligible, sticky)), m));
            && AreDistinct(picked) && (forall p | p in picked :: p in NamesOf(eligible))
            && (forall x, y | x in eligible && y in eligible
                              && x.pair in picked && x.pair !in sticky && y.pair !in picked ::
                  x.std >= y.std)
  {
    hide SortByStd, Without;
    var sorted := SortByStd(Without(eligible, sticky));
    FillShape(eligible, sticky);
    FillIsEligible(eligible, sticky, m);
    AddedAreNew(sticky, Take(sorted, m));
    forall x, y | x in eligible && y in eligible && x.pair in sticky + NamesOf(Take(sorted, m)) && x.pair !in sticky
                  && y.pair !in sticky + NamesOf(Take(sorted, m))
      ensures x.std >= y.std
    {
      TakenAreBest(sorted, m, x, y);
    }
  }

  lemma AddedAreNew(sticky: seq<Name>, added: seq<SpreadStats>)
    requires AreDistinct(sticky) && DistinctNames(added) && forall s :: s in added ==> s.pair !in sticky
    ensures AreDistinct(sticky + NamesOf(added))
  {
    forall i | 0 <= i < |added| ensures NamesOf(added)[i] !in sticky {
      assert added[i] in added;
    }
  }

  lemma TakenAreBest(sorted: seq<SpreadStats>, m: nat, x: SpreadStats, y: SpreadStats)
    requires Descending(sorted) && DistinctNames(sorted) && x in sorted && y in sorted
    requires x.pair in NamesOf(Take(sorted, m)) && y.pair !in NamesOf(Take(sorted, m))
    ensures x.std >= y.std
  {
    var i :| 0 <= i < |sorted| && sorted[i] == x;
    var j :| 0 <= j < |sorted| && sorted[j] == y;
    var k :| 0 <= k < |Take(sorted, m)| && NamesOf(Take(sorted, m))[k] == x.pair;
    assert i == k;
    if j < |Take(sorted, m)| {
      NamesMember(Take(sorted, m), y);
    }
  }

  /** What the selection is for: `n` different eligible pairs; those still eligible
      are kept, in order; and those added deviate most among the rest. */
  ghost predicate IsGoodChoice(picked: seq<Name>, stats: seq<SpreadStats>, prev: seq<Name>, n: nat, minSamples: int) {
    var eligible := Eligible(stats, minSamples);
    var sticky := Sticky(prev, NamesOf(eligible));
    && |picked| == n && AreDistinct(picked) && AllEligible(picked, stats, minSamples)
    && (if |sticky| <= n then sticky else sticky[..n]) <= picked
    && forall x, y | x in eligible && y in eligible && x.pair in picked && x.pair !in sticky && y.pair !in picked ::
         x.std >= y.std
  }

  /** With enough eligible pairs the choice is good. */
  lemma SelectionIsRight(stats: seq<SpreadStats>, prev: seq<Name>, n: nat, minSamples: int)
    requires DistinctNames(Eligible(stats, minSamples)) && AreDistinct(prev)
    requires |Eligible(stats, minSamples)| >= n
    ensures IsGoodChoice(PickFeaturedPairs(stats, prev, n, minSamples), stats, prev, n, minSamples)
  {
    hide SortByStd, Without, Eligible, Sticky;
    var eligible := Eligible(stats, minSamples);
    var sticky := Sticky(prev, NamesOf(eligible));
    StickyKeeps(prev, NamesOf(eligible));
    if |sticky| < n {
      EnoughToFill(eligible, sticky);
      FilledSelection(eligible, sticky, n - |sticky|);
    }
  }

  /** With no eligible pair the previous ones stay, unless there are not `n`. */
  lemma NoneEligible(stats: seq<SpreadStats>, prev: seq<Name>, n: nat, minSamples: int)
    requires forall s | s in stats :: s.samples < minSamples || s.std <= 0.0
    ensures PickFeaturedPairs(stats, prev, n, minSamples)
            == if |prev| == n then prev else if n <= 4 then DEFAULT_FEATURED[..n] else DEFAULT_FEATURED
  {
    hide Eligible;
    var eligible := Eligible(stats, minSamples);
    if eligible != [] {
      EligibleMeans(stats, minSamples, eligible[0]);
    }
  }

  /** With some eligible pairs but too few, the defaults are shown. */
  lemma TooFewFallBack(stats: seq<SpreadStats>, prev: seq<Name>, n: nat, minSamples: int)
    requires DistinctNames(Eligible(stats, minSamples)) && AreDistinct(prev)
    requires 0 < |Eligible(stats, minSamples)| < n
    ensures PickFeaturedPairs(stats, prev, n, minSamples)
            == if n <= 4 then DEFAULT_FEATURED[..n] else DEFAULT_FEATURED
  {
    hide SortByStd, Without, Eligible, Sticky;
    var eligible := Eligible(stats, minSamples);
    var sticky := Sticky(prev, NamesOf(eligible));
    StickyKeeps(prev, NamesOf(eligible));
    FilledSelection(eligible, sticky, n);
    CoverIsLonger(sticky, NamesOf(eligible));
    CoverIsLonger(sticky + NamesOf(Take(SortByStd(Without(eligible, sticky)), n)), NamesOf(eligible));
  }

  /** The choice consists of `n` different eligible pairs exactly when there are
      that many. */
  lemma SelectionPossibleIff(stats: seq<SpreadStats>, prev: seq<Name>, n: nat, minSamples: int)
    requires DistinctNames(Eligible(stats, minSamples)) && AreDistinct(prev)
    ensures var picked := PickFeaturedPairs(stats, prev, n, minSamples);
            (|picked| == n && AreDistinct(picked) && AllEligible(picked, stats, minSamples))
            <==> |Eligible(stats, minSamples)| >= n
  {
    var picked := PickFeaturedPairs(stats, prev, n, minSamples);
    if |Eligible(stats, minSamples)| >= n {
      SelectionIsRight(stats, prev, n, minSamples);
    } else if |picked| == n && AreDistinct(picked) && AllEligible(picked, stats, minSamples) {
      CoverIsLonger(picked, NamesOf(Eligible(stats, minSamples)));
    }
  }

  /** However many are eligible, no pair is picked twice. */
  lemma SelectionIsDistinct(stats: seq<SpreadStats>, prev: seq<Name>, n: nat, minSamples: int)
    requires DistinctNames(Eligible(stats, minSamples)) && AreDistinct(prev)
    ensures AreDistinct(PickFeaturedPairs(stats, prev, n, minSamples))
  {
    hide SortByStd, Without, Eligible, Sticky;
    DefaultsAreDistinct(n);
    if |Eligible(stats, minSamples)| >= n {
      SelectionIsRight(stats, prev, n, minSamples);
    } else if Eligible(stats, minSamples) != [] {
      TooFewFallBack(stats, prev, n, minSamples);
    }
  }

  /** Selecting again on the same statistics changes nothing, whatever was
      featured before. */
  lemma ReselectionIsStable(stats: seq<SpreadStats>, prev: seq<Name>, n: nat, minSamples: int)
    requires DistinctNames(Eligible(stats, minSamples))
    ensures var picked := PickFeaturedPairs(stats, prev, n, minSamples);
            PickFeaturedPairs(stats, picked, n, minSamples) == picked
  {
    hide SortByStd, Without, Eligible, Sticky;
    var eligible := Eligible(stats, minSamples);
    var picked := PickFeaturedPairs(stats, prev, n, minSamples);
    if eligible != [] {
      var sticky := Sticky(prev, NamesOf(eligible));
      StickyKeeps(prev, NamesOf(eligible));
      StickyKeeps(picked, NamesOf(eligible));
      if |eligible| >= n {
        if |sticky| < n {
          EnoughToFill(eligible, sticky);
          FillIsEligible(eligible, sticky, n - |sticky|);
        }
      } else if picked == Take(DEFAULT_FEATURED, n) {
        DefaultsAreDistinct(n);
        TooFewFallBack(stats, picked, n, minSamples);
      } else {
        FillIsEligible(eligible, sticky, if |sticky| < n then n - |sticky| else 0);
      }
    }
  }

  lemma AutomaticChoice(stats: seq<SpreadStats>, prev: seq<Name>)
    requires DistinctNames(stats) && AreDistinct(prev)
    ensures var picked := PickFeaturedPairs(stats, prev, FEATURED, MIN_SAMPLES);
            && AreDistinct(picked)
            && (|Eligible(stats, MIN_SAMPLES)| >= FEATURED ==>
                  IsGoodChoice(picked, stats, prev, FEATURED, MIN_SAMPLES))
  {
    hide PickFeaturedPairs, IsGoodChoice, Eligible;
    EligibleKeepsDistinct(stats, MIN_SAMPLES);
    SelectionIsDistinct(stats, prev, FEATURED, MIN_SAMPLES);
    if |Eligible(stats, MIN_SAMPLES)| >= FEATURED {
      SelectionIsRight(stats, prev, FEATURED, MIN_SAMPLES);
    }
  }

  lemma FillIsEligible(eligible: seq<SpreadStats>, sticky: seq<Name>, m: nat)
    requires DistinctNames(eligible) && forall p | p in sticky :: p in NamesOf(eligible)
    ensures forall p | p in sticky + NamesOf(Take(SortByStd(Without(eligible, sticky)), m)) :: p in NamesOf(eligible)
  {
    var sorted := SortByStd(Without(eligible, sticky));
    FillShape(eligible, sticky);
    forall p | p in NamesOf(Take(sorted, m)) ensures p in NamesOf(eligible) {
      var i :| 0 <= i < |Take(sorted, m)| && Take(sorted, m)[i].pair == p;
      assert sorted[i] in sorted;
      NamesMember(eligible, sorted[i]);
    }
  }

  lemma DefaultsAreDistinct(n: nat)
    ensures AreDistinct(Take(DEFAULT_FEATURED, n))
  {
    var names := DEFAULT_FEATURED;
    assert |names[0]| == 11 && |names[1]| == 13 && |names[2]| == 9 && |names[3]| == 14;
  }

  /** The part of the store that decides what is featured. */
  class MarketStore {
    var spreads: seq<SpreadStats>
    var featuredPairs: seq<Name>
    /** None while the choice is automatic. */
    var selectedPairs: Option<seq<Name>>

    /** Never more pairs than colours, and a user's choice is what is shown. */
    ghost predicate Valid()
      reads this
    {
      && |featuredPairs| <= MAX_FEATURED
      && (selectedPairs.Some? ==> selectedPairs.value == featuredPairs)
    }

    /** As it stays while users choose no pair twice and statistics name none twice. */
    ghost predicate Tidy()
      reads this
    {
      AreDistinct(featuredPairs) && DistinctNames(spreads)
    }

    constructor ()
      ensures Tidy() && Valid() && spreads == [] && featuredPairs == DEFAULT_FEATURED && selectedPairs == None
    {
      DefaultsAreDistinct(4);
      spreads, featuredPairs, selectedPairs := [], DEFAULT_FEATURED[..4], None;
    }

    /** New statistics reselect only while the choice is automatic. */
    method SetSpreads(stats: seq<SpreadStats>)
      requires Valid()
      modifies this
      ensures Valid() && spreads == stats && selectedPairs == old(selectedPairs)
      ensures featuredPairs == if selectedPairs.Some? then old(featuredPairs)
                               else PickFeaturedPairs(stats, old(featuredPairs), 4, 30)
      ensures old(Tidy()) && DistinctNames(stats) ==> Tidy()
      ensures old(Tidy()) && DistinctNames(stats) && selectedPairs == None
              && |Eligible(stats, MIN_SAMPLES)| >= FEATURED ==>
                IsGoodChoice(featuredPairs, stats, old(featuredPairs), FEATURED, MIN_SAMPLES)
    {
      hide PickFeaturedPairs, IsGoodChoice, Eligible;
      if AreDistinct(featuredPairs) && DistinctNames(stats) {
        AutomaticChoice(stats, featuredPairs);
      }
      var featured := if selectedPairs.Some? then selectedPairs.value
                      else PickFeaturedPairs(stats, featuredPairs, FEATURED, MIN_SAMPLES);
      spreads, featuredPairs := stats, featured;
    }

    /** None goes back to the automatic choice; a user's list is cut to six. */
    method SetSelectedPairs(pairs: Option<seq<Name>>)
      requires Valid()
      modifies this
      ensures Valid() && spreads == old(spreads)
      ensures match pairs
              case None =>
                && selectedPairs == None
                && featuredPairs == PickFeaturedPairs(spreads, old(featuredPairs), 4, 30)
              case Some(p) =>
                && featuredPairs == (if |p| <= 6 then p else p[..6])
                && selectedPairs == Some(featuredPairs)
      ensures old(Tidy()) && (pairs.Some? ==> AreDistinct(pairs.value)) ==> Tidy()
      ensures old(Tidy()) && pairs == None && |Eligible(spreads, MIN_SAMPLES)| >= FEATURED ==>
                IsGoodChoice(featuredPairs, spreads, old(featuredPairs), FEATURED, MIN_SAMPLES)
    {
      hide PickFeaturedPairs, IsGoodChoice, Eligible;
      if Tidy() {
        AutomaticChoice(spreads, featuredPairs);
      }
      if pairs.None? {
        selectedPairs, featuredPairs := None, PickFeaturedPairs(spreads, featuredPairs, FEATURED, MIN_SAMPLES);
        return;
      }
      var clipped := Take(pairs.value, MAX_FEATURED);
      selectedPairs, featuredPairs := Some(clipped), clipped;
    }

    /** In every reachable state no two featured pairs share a colour. */
    lemma FeaturedAreToldApart(p: Name, q: Name)
      requires Valid() && p in featuredPairs && q in featuredPairs && p != q
      ensures ColorOf(p, featuredPairs) != ColorOf(q, featuredPairs)
    {
      FeaturedColorsDiffer(featuredPairs, p, q);
    }
  }
}
