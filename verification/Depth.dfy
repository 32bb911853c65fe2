/** Synthetic order books and the greedy book walk (internal/depth/depth.go). */
module Depth {
  import opened Types

  datatype DepthConfig = DepthConfig(n: nat, stepPct: real, minQty: real, maxQty: real)

  /** What the random source may return: one number in [0, 1) per level. */
  predicate ValidDraws(draws: seq<real>, cfg: DepthConfig) {
    |draws| == cfg.n && forall r | r in draws :: 0.0 <= r < 1.0
  }

  function DrawnQty(cfg: DepthConfig, draw: real): real {
    cfg.minQty + draw * (cfg.maxQty - cfg.minQty)
  }

  /** Level `i` is `i` steps worse than the best price. */
  function AskLevel(bbo: real, cfg: DepthConfig, i: nat, draw: real): Level {
    var step := bbo * cfg.stepPct;
    Level(bbo + step * (i as real), DrawnQty(cfg, draw))
  }

  function BidLevel(bbo: real, cfg: DepthConfig, i: nat, draw: real): Level {
    var step := bbo * cfg.stepPct;
    Level(bbo - step * (i as real), DrawnQty(cfg, draw))
  }

  ghost function SyntheticAsks(bbo: real, cfg: DepthConfig, draws: seq<real>): seq<Level> {
    seq(|draws|, i requires 0 <= i < |draws| => AskLevel(bbo, cfg, i, draws[i]))
  }

  ghost function SyntheticBids(bbo: real, cfg: DepthConfig, draws: seq<real>): seq<Level> {
    seq(|draws|, i requires 0 <= i < |draws| => BidLevel(bbo, cfg, i, draws[i]))
  }

  method AskLevels(bbo: real, cfg: DepthConfig, draws: seq<real>) returns (levels: seq<Level>)
    requires ValidDraws(draws, cfg)
    ensures levels == SyntheticAsks(bbo, cfg, draws)
    ensures |levels| == cfg.n && forall i | 0 <= i < cfg.n ::
              && levels[i].price == bbo + bbo * cfg.stepPct * (i as real)
              && levels[i].qty == cfg.minQty + draws[i] * (cfg.maxQty - cfg.minQty)
  {
    var out := new Level[cfg.n](_ => Level(0.0, 0.0));
    var step := bbo * cfg.stepPct;
    for i := 0 to cfg.n
      invariant forall k | 0 <= k < i :: out[k] == AskLevel(bbo, cfg, k, draws[k])
    {
      out[i] := Level(bbo + step * (i as real), DrawnQty(cfg, draws[i]));
    }
    levels := out[..];
  }

  method BidLevels(bbo: real, cfg: DepthConfig, draws: seq<real>) returns (levels: seq<Level>)
    requires ValidDraws(draws, cfg)
    ensures levels == SyntheticBids(bbo, cfg, draws)
    ensures |levels| == cfg.n && forall i | 0 <= i < cfg.n ::
              && levels[i].price == bbo - bbo * cfg.stepPct * (i as real)
              && levels[i].qty == cfg.minQty + draws[i] * (cfg.maxQty - cfg.minQty)
  {
    var out := new Level[cfg.n](_ => Level(0.0, 0.0));
    var step := bbo * cfg.stepPct;
    for i := 0 to cfg.n
      invariant forall k | 0 <= k < i :: out[k] == BidLevel(bbo, cfg, k, draws[k])
    {
      out[i] := Level(bbo - step * (i as real), DrawnQty(cfg, draws[i]));
    }
    levels := out[..];
  }

  // ---------- Books and allocations ----------

  ghost predicate NonNegQty(levels: seq<Level>) {
    forall i | 0 <= i < |levels| :: levels[i].qty >= 0.0
  }

  ghost predicate NonNegPrice(levels: seq<Level>) {
    forall i | 0 <= i < |levels| :: levels[i].price >= 0.0
  }

  ghost predicate Ascending(levels: seq<Level>) {
    forall i, j | 0 <= i < j < |levels| :: levels[i].price <= levels[j].price
  }

  ghost predicate Descending(levels: seq<Level>) {
    forall i, j | 0 <= i < j < |levels| :: levels[i].price >= levels[j].price
  }

  /** The quantity an allocation takes altogether. */
  function Size(a: seq<real>): real {
    if a == [] then 0.0 else a[0] + Size(a[1..])
  }

  function TotalQty(levels: seq<Level>): real {
    if levels == [] then 0.0 else levels[0].qty + TotalQty(levels[1..])
  }

  /** A way of filling an order: what to take from each level. */
  ghost predicate Feasible(levels: seq<Level>, a: seq<real>) {
    |a| == |levels| && forall i | 0 <= i < |a| :: 0.0 <= a[i] <= levels[i].qty
  }

  function Notional(qty: real, price: real): real {
    qty * price
  }

  function Cost(levels: seq<Level>, a: seq<real>): real
    requires |a| == |levels|
  {
    if a == [] then 0.0 else Notional(a[0], levels[0].price) + Cost(levels[1..], a[1..])
  }

  // ---------- The greedy allocation ----------

  function Min(x: real, y: real): real {
    if x <= y then x else y
  }

  /** What the walk takes from each level. */
  function Takes(levels: seq<Level>, target: real): (a: seq<real>)
    ensures |a| == |levels|
  {
    if levels == [] then []
    else if target <= 0.0 then seq(|levels|, _ => 0.0)
    else
      var take := Min(levels[0].qty, target);
      [take] + Takes(levels[1..], target - take)
  }

  function Filled(levels: seq<Level>, target: real): real {
    Size(Takes(levels, target))
  }

  function WalkCost(levels: seq<Level>, target: real): real {
    Cost(levels, Takes(levels, target))
  }

  function Vwap(levels: seq<Level>, target: real): real {
    if Filled(levels, target) == 0.0 then 0.0 else WalkCost(levels, target) / Filled(levels, target)
  }

  /** The program's loop; it refines the greedy allocation. */
  method Walk(levels: seq<Level>, target: real) returns (filled: real, vwap: real, partial: bool)
    ensures filled == Filled(levels, target)
    ensures vwap == Vwap(levels, target)
    ensures partial <==> Filled(levels, target) < target
  {
    hide Notional;
    var costSum := 0.0;
    filled := 0.0;
    var i := 0;
    while i < |levels|
      invariant 0 <= i <= |levels|
      invariant filled + Filled(levels[i..], target - filled) == Filled(levels, target)
      invariant costSum + WalkCost(levels[i..], target - filled) == WalkCost(levels, target)
    {
      var remaining := target - filled;
      if remaining <= 0.0 {
        ZeroAllocation(levels[i..]);
        break;
      }
      var take := Min(levels[i].qty, remaining);
      StepTakes(levels[i..], remaining);
      assert levels[i..][1..] == levels[i + 1..];
      costSum := costSum + Notional(take, levels[i].price);
      filled := filled + take;
      assert target - filled == remaining - take;
      i := i + 1;
    }
    partial := filled < target;
    vwap := if filled == 0.0 then 0.0 else costSum / filled;
  }

  lemma ZeroAllocation(levels: seq<Level>)
    ensures Size(seq(|levels|, _ => 0.0)) == 0.0
    ensures Cost(levels, seq(|levels|, _ => 0.0)) == 0.0
  {
    if levels != [] {
      var z := seq(|levels|, _ => 0.0);
      assert z[1..] == seq(|levels[1..]|, _ => 0.0);
      ZeroAllocation(levels[1..]);
    }
  }

  lemma StepTakes(levels: seq<Level>, target: real)
    requires levels != [] && target > 0.0
    ensures var take := Min(levels[0].qty, target);
            && Filled(levels, target) == take + Filled(levels[1..], target - take)
            && WalkCost(levels, target) == Notional(take, levels[0].price) + WalkCost(levels[1..], target - take)
  {
    var take := Min(levels[0].qty, target);
    assert Takes(levels, target)[1..] == Takes(levels[1..], target - take);
  }

  // ---------- How much is filled ----------

  lemma {:induction false} TotalQtyNonNeg(levels: seq<Level>)
    requires NonNegQty(levels)
    ensures TotalQty(levels) >= 0.0
  {
    if levels == [] {
    } else {
      TotalQtyNonNeg(levels[1..]);
    }
  }

  /** The walk fills min(target, liquidity), so it is partial exactly when the
      book is too thin. */
  lemma {:induction false} WalkFillsMinimum(levels: seq<Level>, target: real)
    requires NonNegQty(levels)
    ensures Filled(levels, target) == if target <= 0.0 then 0.0 else Min(target, TotalQty(levels))
    ensures Filled(levels, target) < target <==> TotalQty(levels) < target
    ensures Filled(levels, target) >= 0.0
  {
    TotalQtyNonNeg(levels);
    if levels == [] || target <= 0.0 {
      ZeroAllocation(levels);
    } else {
      StepTakes(levels, target);
      var take := Min(levels[0].qty, target);
      WalkFillsMinimum(levels[1..], target - take);
      TotalQtyNonNeg(levels[1..]);
    }
  }

  /** The greedy allocation respects every level's quantity. */
  lemma {:induction false} GreedyIsFeasible(levels: seq<Level>, target: real)
    requires NonNegQty(levels)
    ensures Feasible(levels, Takes(levels, target))
  {
    if levels == [] || target <= 0.0 {
    } else {
      var take := Min(levels[0].qty, target);
      GreedyIsFeasible(levels[1..], target - take);
      var rest := Takes(levels[1..], target - take);
      forall i | 0 <= i < |levels|
        ensures 0.0 <= Takes(levels, target)[i] <= levels[i].qty
      {
        if i > 0 {
          assert Takes(levels, target)[i] == rest[i - 1] && levels[i] == levels[1..][i - 1];
        }
      }
    }
  }

  // ---------- Greedy is optimal ----------

  /** Any allocation costs at least the cheapest price times its size. */
  lemma {:induction false} CostAtLeast(levels: seq<Level>, a: seq<real>, p: real)
    requires Feasible(levels, a)
    requires forall i | 0 <= i < |levels| :: a[i] > 0.0 ==> p <= levels[i].price
    ensures Cost(levels, a) >= Notional(Size(a), p)
  {
    hide Cost, Size, Notional;
    if a == [] {
      NothingTaken(levels, p);
    } else {
      CostAtLeast(levels[1..], a[1..], p);
      StepTotals(levels, a);
      CostStep(a[0], levels[0].price, p, Cost(levels[1..], a[1..]), Size(a[1..]));
    }
  }

  lemma NothingTaken(levels: seq<Level>, p: real)
    requires levels == []
    ensures Cost(levels, []) == 0.0 == Notional(Size([]), p)
  {
  }

  lemma CostStep(a0: real, p0: real, p: real, restCost: real, restSize: real)
    requires a0 >= 0.0 && (a0 > 0.0 ==> p <= p0) && restCost >= Notional(restSize, p)
    ensures Notional(a0, p0) + restCost >= Notional(a0 + restSize, p)
  {
    if a0 > 0.0 {
      assert a0 * (p0 - p) >= 0.0;
    }
  }

  lemma {:induction false} SizeNonNeg(levels: seq<Level>, a: seq<real>)
    requires Feasible(levels, a)
    ensures Size(a) >= 0.0
  {
    if a == [] {
    } else {
      SizeNonNeg(levels[1..], a[1..]);
    }
  }

  /** The inductive core: an allocation that fills at least as much as the walk
      pays the walk's cost plus at least `p` for every extra unit. */
  lemma {:induction false} GreedyCore(levels: seq<Level>, target: real, a: seq<real>, p: real)
    requires NonNegQty(levels) && Ascending(levels) && Feasible(levels, a)
    requires forall i | 0 <= i < |levels| :: p <= levels[i].price
    requires Size(a) >= Filled(levels, target)
    ensures Cost(levels, a) >= WalkCost(levels, target) + Notional(Size(a) - Filled(levels, target), p)
    decreases |levels|, 1
  {
    if levels == [] || target <= 0.0 {
      ZeroAllocation(levels);
      CostAtLeast(levels, a, p);
    } else {
      GreedyCoreStep(levels, target, a, p);
    }
  }

  lemma {:induction false} GreedyCoreStep(levels: seq<Level>, target: real, a: seq<real>, p: real)
    requires NonNegQty(levels) && Ascending(levels) && Feasible(levels, a)
    requires levels != [] && target > 0.0 && p <= levels[0].price
    requires Size(a) >= Filled(levels, target)
    ensures Cost(levels, a) >= WalkCost(levels, target) + Notional(Size(a) - Filled(levels, target), p)
    decreases |levels|, 0
  {
    hide Cost, Size, Takes, TotalQty, Filled, WalkCost, Notional;
    var rest, take := levels[1..], Min(levels[0].qty, target);
    StepTakes(levels, target);
    StepTotals(levels, a);
    WalkFillsMinimum(levels, target);
    WalkFillsMinimum(rest, target - take);
    SizeNonNeg(rest, a[1..]);
    assert Size(a[1..]) >= Filled(rest, target - take);
    GreedyCore(rest, target - take, a[1..], levels[0].price);
    GreedyStep(a[0], levels[0].price, Size(a[1..]), Filled(rest, target - take), take,
               WalkCost(rest, target - take), Cost(rest, a[1..]), p);
  }

  lemma StepTotals(levels: seq<Level>, a: seq<real>)
    requires |a| == |levels| && a != []
    ensures Cost(levels, a) == Notional(a[0], levels[0].price) + Cost(levels[1..], a[1..])
    ensures Size(a) == a[0] + Size(a[1..])
    ensures TotalQty(levels) == levels[0].qty + TotalQty(levels[1..])
  {
  }

  lemma GreedyStep(a0: real, p0: real, tailSum: real, tailFilled: real, take: real,
                   tailWalk: real, tailCost: real, p: real)
    requires tailCost >= tailWalk + Notional(tailSum - tailFilled, p0)
    requires p <= p0 && a0 + tailSum >= take + tailFilled
    ensures Notional(a0, p0) + tailCost
            >= Notional(take, p0) + tailWalk + Notional(a0 + tailSum - (take + tailFilled), p)
  {
    var extra := a0 + tailSum - (take + tailFilled);
    assert extra * p0 == a0 * p0 + (tailSum - tailFilled) * p0 - take * p0;
    assert extra * (p0 - p) >= 0.0;
  }

  /** On an ascending ask book no other way of buying the same quantity is cheaper. */
  lemma GreedyBuysCheapest(levels: seq<Level>, target: real, a: seq<real>)
    requires NonNegQty(levels) && Ascending(levels) && Feasible(levels, a)
    requires Size(a) == Filled(levels, target)
    ensures WalkCost(levels, target) <= Cost(levels, a)
  {
    if levels != [] {
      GreedyCore(levels, target, a, levels[0].price);
    }
  }

  function Negated(levels: seq<Level>): (n: seq<Level>)
    ensures |n| == |levels|
    ensures forall i | 0 <= i < |n| :: n[i] == Level(-levels[i].price, levels[i].qty)
  {
    seq(|levels|, i requires 0 <= i < |levels| => Level(-levels[i].price, levels[i].qty))
  }

  lemma {:induction false} NegatedCost(levels: seq<Level>, a: seq<real>)
    requires |a| == |levels|
    ensures Cost(Negated(levels), a) == -Cost(levels, a)
  {
    if a == [] {
    } else {
      NegatedCost(levels[1..], a[1..]);
      assert Negated(levels)[1..] == Negated(levels[1..]);
    }
  }

  lemma {:induction false} NegatedTakes(levels: seq<Level>, target: real)
    ensures Takes(Negated(levels), target) == Takes(levels, target)
  {
    if levels == [] || target <= 0.0 {
    } else {
      NegatedTakes(levels[1..], target - Min(levels[0].qty, target));
      assert Negated(levels)[1..] == Negated(levels[1..]);
    }
  }

  /** Dually, on a descending bid book no other way of selling the same
      quantity earns more. */
  lemma GreedySellsDearest(levels: seq<Level>, target: real, a: seq<real>)
    requires NonNegQty(levels) && Descending(levels) && Feasible(levels, a)
    requires Size(a) == Filled(levels, target)
    ensures WalkCost(levels, target) >= Cost(levels, a)
  {
    NegatedTakes(levels, target);
    GreedyBuysCheapest(Negated(levels), target, a);
    NegatedCost(levels, a);
    NegatedCost(levels, Takes(levels, target));
  }

  // ---------- The volume-weighted average price ----------

  lemma CostAtMost(levels: seq<Level>, a: seq<real>, p: real)
    requires Feasible(levels, a)
    requires forall i | 0 <= i < |levels| :: a[i] > 0.0 ==> levels[i].price <= p
    ensures Cost(levels, a) <= Notional(Size(a), p)
  {
    hide Cost, Size;
    CostAtLeast(Negated(levels), a, -p);
    NegatedCost(levels, a);
    assert Notional(Size(a), -p) == -Notional(Size(a), p);
  }

  lemma VwapTimesFilled(levels: seq<Level>, target: real)
    requires Filled(levels, target) != 0.0
    ensures Notional(Filled(levels, target), Vwap(levels, target)) == WalkCost(levels, target)
  {
  }

  /** The average lies between any bounds on the prices of the levels consumed. */
  lemma VwapWithinConsumedPrices(levels: seq<Level>, target: real, lo: real, hi: real)
    requires NonNegQty(levels) && Filled(levels, target) > 0.0
    requires forall i | 0 <= i < |levels| :: Takes(levels, target)[i] > 0.0 ==> lo <= levels[i].price <= hi
    ensures lo <= Vwap(levels, target) <= hi
  {
    var a, filled := Takes(levels, target), Filled(levels, target);
    GreedyIsFeasible(levels, target);
    CostAtLeast(levels, a, lo);
    CostAtMost(levels, a, hi);
    QuotientBounds(WalkCost(levels, target), filled, lo, hi);
  }

  lemma QuotientBounds(cost: real, filled: real, lo: real, hi: real)
    requires filled > 0.0 && lo * filled <= cost <= hi * filled
    ensures lo <= cost / filled <= hi
  {
    var v := cost / filled;
    assert v * filled == cost;
    FactorNonNeg(v - lo, filled);
    FactorNonNeg(hi - v, filled);
  }

  lemma FactorNonNeg(x: real, y: real)
    requires y > 0.0 && x * y >= 0.0
    ensures x >= 0.0
  {
  }

  function Scaled(a: seq<real>, k: real): (b: seq<real>)
    ensures |b| == |a|
  {
    if a == [] then [] else [k * a[0]] + Scaled(a[1..], k)
  }

  lemma {:induction false} ScaledTotals(levels: seq<Level>, a: seq<real>, k: real)
    requires |a| == |levels|
    ensures Size(Scaled(a, k)) == k * Size(a)
    ensures Cost(levels, Scaled(a, k)) == k * Cost(levels, a)
  {
    if a == [] {
    } else {
      ScaledTotals(levels[1..], a[1..], k);
      assert Scaled(a, k)[1..] == Scaled(a[1..], k);
      ScaledStep(a[0], levels[0].price, k, Size(a[1..]), Cost(levels[1..], a[1..]));
    }
  }

  lemma ScaledStep(x: real, price: real, k: real, size: real, cost: real)
    ensures k * x + k * size == k * (x + size)
    ensures Notional(k * x, price) + k * cost == k * (Notional(x, price) + cost)
  {
    assert k * x * price == k * (x * price);
  }

  lemma {:induction false} ScaledAt(a: seq<real>, k: real, i: nat)
    requires i < |a|
    ensures Scaled(a, k)[i] == k * a[i]
  {
    if i == 0 {
    } else {
      ScaledAt(a[1..], k, i - 1);
    }
  }

  lemma ScaledFeasible(levels: seq<Level>, a: seq<real>, k: real)
    requires Feasible(levels, a) && 0.0 <= k <= 1.0
    ensures Feasible(levels, Scaled(a, k))
  {
    hide Scaled;
    forall i | 0 <= i < |a|
      ensures 0.0 <= Scaled(a, k)[i] <= levels[i].qty
    {
      ScaledAt(a, k, i);
      ScaleDown(k, a[i], Scaled(a, k)[i]);
    }
  }

  lemma ScaleDown(k: real, x: real, y: real)
    requires 0.0 <= k <= 1.0 && x >= 0.0 && y == k * x
    ensures 0.0 <= y <= x
  {
  }

  /** A larger order never gets a better average ask: scaling down what the
      larger walk bought is one of the allocations the smaller walk beats. */
  lemma VwapMonotone(levels: seq<Level>, small: real, large: real)
    requires NonNegQty(levels) && Ascending(levels)
    requires small <= large && Filled(levels, small) > 0.0
    ensures Vwap(levels, small) <= Vwap(levels, large)
  {
    WalkFillsMinimum(levels, small);
    WalkFillsMinimum(levels, large);
    var f, g := Filled(levels, small), Filled(levels, large);
    QuotientBounds(f, g, 0.0, 1.0);
    ScaledWalkCost(levels, small, large, f / g);
    AverageOfScaled(WalkCost(levels, small), WalkCost(levels, large), f, g, f / g);
  }

  lemma ScaledWalkCost(levels: seq<Level>, small: real, large: real, k: real)
    requires NonNegQty(levels) && Ascending(levels) && 0.0 <= k <= 1.0
    requires k * Filled(levels, large) == Filled(levels, small)
    ensures WalkCost(levels, small) <= k * WalkCost(levels, large)
  {
    hide Cost, Size, Takes, Scaled;
    var big := Takes(levels, large);
    GreedyIsFeasible(levels, large);
    ScaledTotals(levels, big, k);
    ScaledFeasible(levels, big, k);
    GreedyBuysCheapest(levels, small, Scaled(big, k));
  }

  lemma AverageOfScaled(c: real, d: real, f: real, g: real, k: real)
    requires f > 0.0 && g > 0.0 && k == f / g && c <= k * d
    ensures c / f <= d / g
  {
    var v := d / g;
    assert d == v * g && f == k * g;
    assert k * d == v * f;
    FactorNonNeg(v - c / f, f);
  }

  /** Dually, a larger order never gets a better average bid. */
  lemma BidVwapMonotone(levels: seq<Level>, small: real, large: real)
    requires NonNegQty(levels) && Descending(levels)
    requires small <= large && Filled(levels, small) > 0.0
    ensures Vwap(levels, small) >= Vwap(levels, large)
  {
    NegatedVwap(levels, small);
    NegatedVwap(levels, large);
    VwapMonotone(Negated(levels), small, large);
  }

  lemma NegatedVwap(levels: seq<Level>, target: real)
    ensures Filled(Negated(levels), target) == Filled(levels, target)
    ensures Vwap(Negated(levels), target) == -Vwap(levels, target)
  {
    NegatedTakes(levels, target);
    NegatedCost(levels, Takes(levels, target));
  }

  // ---------- Synthetic books ----------

  predicate ValidConfig(cfg: DepthConfig) {
    0.0 <= cfg.minQty <= cfg.maxQty && cfg.stepPct >= 0.0
  }

  lemma DrawnQtyInRange(cfg: DepthConfig, draw: real)
    requires ValidConfig(cfg) && 0.0 <= draw < 1.0
    ensures cfg.minQty <= DrawnQty(cfg, draw) <= cfg.maxQty
  {
    ScaleDown(draw, cfg.maxQty - cfg.minQty, DrawnQty(cfg, draw) - cfg.minQty);
  }

  /** Synthetic asks ascend from the best ask, with quantities in [minQty, maxQty]. */
  lemma SyntheticAsksShape(bbo: real, cfg: DepthConfig, draws: seq<real>)
    requires ValidConfig(cfg) && ValidDraws(draws, cfg)
    ensures var levels := SyntheticAsks(bbo, cfg, draws);
            && (forall i | 0 <= i < |levels| :: cfg.minQty <= levels[i].qty <= cfg.maxQty)
            && (bbo >= 0.0 ==> Ascending(levels) && forall i | 0 <= i < |levels| :: levels[i].price >= bbo)
  {
    var levels, step := SyntheticAsks(bbo, cfg, draws), bbo * cfg.stepPct;
    forall i, j | 0 <= i <= j < |levels|
      ensures cfg.minQty <= levels[i].qty <= cfg.maxQty
      ensures bbo >= 0.0 ==> bbo <= levels[i].price <= levels[j].price
    {
      assert draws[i] in draws;
      DrawnQtyInRange(cfg, draws[i]);
      if bbo >= 0.0 {
        StepOrder(step, i as real, j as real, levels[i].price - bbo, levels[j].price - bbo);
      }
    }
  }

  /** Synthetic bids descend from the best bid, with quantities in [minQty, maxQty]. */
  lemma SyntheticBidsShape(bbo: real, cfg: DepthConfig, draws: seq<real>)
    requires ValidConfig(cfg) && ValidDraws(draws, cfg)
    ensures var levels := SyntheticBids(bbo, cfg, draws);
            && (forall i | 0 <= i < |levels| :: cfg.minQty <= levels[i].qty <= cfg.maxQty)
            && (bbo >= 0.0 ==> Descending(levels) && forall i | 0 <= i < |levels| :: levels[i].price <= bbo)
  {
    var levels, step := SyntheticBids(bbo, cfg, draws), bbo * cfg.stepPct;
    forall i, j | 0 <= i <= j < |levels|
      ensures cfg.minQty <= levels[i].qty <= cfg.maxQty
      ensures bbo >= 0.0 ==> bbo >= levels[i].price >= levels[j].price
    {
      assert draws[i] in draws;
      DrawnQtyInRange(cfg, draws[i]);
      if bbo >= 0.0 {
        StepOrder(step, i as real, j as real, bbo - levels[i].price, bbo - levels[j].price);
      }
    }
  }

  lemma StepOrder(step: real, i: real, j: real, pi: real, pj: real)
    requires step >= 0.0 && 0.0 <= i <= j && pi == step * i && pj == step * j
    ensures 0.0 <= pi <= pj
  {
    assert pj - pi == step * (j - i);
  }
}
