/** Tick-rounded limit prices: `protective_limit_price` (sizing.py) plans one,
    `guarded_ioc_limit_price` (gate_price_guard.py) clamps it to the exchange's band. */
module Pricing {
  import opened Models
  import opened Arithmetic

  const BUY := "buy"
  const SELL := "sell"

  datatype Guarded = InvalidInputs | NoPrice | Price(limit: real)

  function Ceiling(x: real): int { -((-x).Floor) }

  /** The largest multiple of the tick not above `x`. */
  function AlignDown(x: real, tick: real): real
    requires tick > 0.0
  {
    Ticks((x / tick).Floor, tick)
  }

  /** The smallest multiple of the tick not below `x`. */
  function AlignUp(x: real, tick: real): real
    requires tick > 0.0
  {
    Ticks(Ceiling(x / tick), tick)
  }

  function Ticks(k: int, tick: real): real { k as real * tick }

  ghost predicate Aligned(x: real, tick: real) { exists k :: x == Ticks(k, tick) }

  /** The price a fraction away from `reference`, in the direction that costs the trader. */
  function Bound(reference: real, fraction: real, side: string): real {
    if side == BUY then reference * (1.0 + fraction) else reference * (1.0 - fraction)
  }

  /** None stands for the OrderSizingError the source raises. */
  function ProtectiveLimitPrice(reference: real, slippage: real, side: string, tick: real): Option<real> {
    if reference <= 0.0 || tick <= 0.0 then None
    else if slippage < 0.0 || slippage >= 1.0 then None
    else if side == BUY then
      Positive(AlignDown(Bound(reference, slippage, side), tick))
    else if side == SELL then
      Positive(AlignUp(Bound(reference, slippage, side), tick))
    else None
  }

  function Positive(x: real): Option<real> { if x <= 0.0 then None else Some(x) }

  predicate ValidInputs(side: string, planned: real, top: real, mark: real, deviation: real, tick: real) {
    side in {BUY, SELL} && planned > 0.0 && top > 0.0 && mark > 0.0 && 0.0 < deviation < 1.0 && tick > 0.0
  }

  function GuardedIocLimitPrice(side: string, planned: real, top: real, mark: real, deviation: real, tick: real): Guarded {
    if !ValidInputs(side, planned, top, mark, deviation, tick) then InvalidInputs
    else if side == BUY then
      var guarded := MinReal(planned, AlignDown(Bound(mark, deviation, side), tick));
      if guarded >= top then Price(guarded) else NoPrice
    else
      var guarded := MaxReal(planned, AlignUp(Bound(mark, deviation, side), tick));
      if guarded <= top then Price(guarded) else NoPrice
  }

  // ---------- what a limit must respect ----------

  /** At least as protective as the plan, inside the exchange's band, and reaching the book. */
  ghost predicate Admissible(side: string, planned: real, top: real, band: real, p: real) {
    if side == BUY then top <= p <= planned && p <= band else planned <= p <= top && band <= p
  }

  predicate Reaches(side: string, p: real, q: real) { if side == BUY then q <= p else p <= q }

  /** The tick-aligned admissible price that reaches furthest, or none when there is none. */
  ghost predicate Optimal(side: string, planned: real, top: real, band: real, tick: real, g: Guarded) {
    match g
    case InvalidInputs => false
    case NoPrice => forall q :: Aligned(q, tick) ==> !Admissible(side, planned, top, band, q)
    case Price(p) =>
      && Aligned(p, tick) && Admissible(side, planned, top, band, p)
      && forall q :: Aligned(q, tick) && Admissible(side, planned, top, band, q) ==> Reaches(side, p, q)
  }

  /** The aligned price next to `bound`, on the side that protects the trader. */
  ghost predicate Nearest(side: string, bound: real, tick: real, p: real) {
    && Aligned(p, tick) && Reaches(side, bound, p)
    && forall q :: Aligned(q, tick) && Reaches(side, bound, q) ==> Reaches(side, p, q)
  }

  /** All the slippage the grid allows; nothing only when no positive price is within it. */
  ghost predicate BestPlan(side: string, bound: real, tick: real, planned: Option<real>) {
    match planned
    case Some(p) => p > 0.0 && Nearest(side, bound, tick, p)
    case None => forall q :: Aligned(q, tick) && 0.0 < q ==> !Reaches(side, bound, q)
  }

  // ---------- rounding ----------

  /** With `x` being `r` ticks, `k` ticks are not more exactly when `k` is not more than `r`. */
  lemma TicksUpTo(x: real, r: real, tick: real, k: int)
    requires tick > 0.0 && x == r * tick
    ensures Ticks(k, tick) <= x <==> k as real <= r
    ensures x <= Ticks(k, tick) <==> r <= k as real
    ensures k as real < r + 1.0 ==> Ticks(k, tick) < x + tick
    ensures r < k as real + 1.0 ==> x < Ticks(k, tick) + tick
  {
    UpTo(k as real, r, tick, Ticks(k, tick), x);
  }

  /** `p` is `n` ticks and `x` is `r` ticks. */
  lemma UpTo(n: real, r: real, tick: real, p: real, x: real)
    requires tick > 0.0 && p == n * tick && x == r * tick
    ensures p <= x <==> n <= r
    ensures x <= p <==> r <= n
    ensures n < r + 1.0 ==> p < x + tick
    ensures r < n + 1.0 ==> x < p + tick
  {
    MultiplyBoth(n, r, tick);
    MultiplyBoth(r, n, tick);
    if n < r + 1.0 {
      LessThanNext(n, r, tick, p, x);
    }
    if r < n + 1.0 {
      LessThanNext(r, n, tick, x, p);
    }
  }

  lemma LessThanNext(a: real, b: real, tick: real, p: real, q: real)
    requires tick > 0.0 && a < b + 1.0 && p == a * tick && q == b * tick
    ensures p < q + tick
  {
    PositiveTimes(b + 1.0 - a, tick);
    OneMoreTick(a, b, tick);
  }

  lemma OneMoreTick(a: real, b: real, tick: real)
    ensures (b + 1.0 - a) * tick == b * tick + tick - a * tick
  {
  }

  lemma TicksGrow(m: int, n: int, tick: real)
    requires tick > 0.0 && m <= n
    ensures Ticks(m, tick) <= Ticks(n, tick)
  {
    MultiplyBoth(m as real, n as real, tick);
  }

  /** Rounding down to the grid: the nearest multiple, less than a tick away. */
  lemma AlignDownIsGreatest(x: real, tick: real)
    requires tick > 0.0
    ensures Nearest(BUY, x, tick, AlignDown(x, tick)) && x - tick < AlignDown(x, tick)
  {
    var r := x / tick;
    DivideThenMultiply(x, tick);
    TicksUpTo(x, r, tick, r.Floor);
    forall q | Aligned(q, tick) && q <= x ensures q <= AlignDown(x, tick) {
      var k :| q == Ticks(k, tick);
      TicksUpTo(x, r, tick, k);
      TicksGrow(k, r.Floor, tick);
    }
  }

  lemma AlignUpIsLeast(x: real, tick: real)
    requires tick > 0.0
    ensures Nearest(SELL, x, tick, AlignUp(x, tick)) && AlignUp(x, tick) < x + tick
  {
    var r := x / tick;
    var c := Ceiling(r);
    DivideThenMultiply(x, tick);
    CeilingIs(r);
    TicksUpTo(x, r, tick, c);
    forall q | Aligned(q, tick) && x <= q ensures q >= AlignUp(x, tick) {
      var k :| q == Ticks(k, tick);
      TicksUpTo(x, r, tick, k);
      CeilingIsLeast(r, k);
      TicksGrow(c, k, tick);
    }
  }

  lemma CeilingIs(r: real)
    ensures r <= Ceiling(r) as real < r + 1.0
  {
  }

  lemma CeilingIsLeast(r: real, k: int)
    requires r <= k as real
    ensures Ceiling(r) <= k
  {
  }

  // ---------- the guard ----------

  lemma BoundPositive(reference: real, fraction: real, side: string)
    requires reference > 0.0 && 0.0 <= fraction < 1.0
    ensures Bound(reference, fraction, side) > 0.0
  {
    PositiveTimes(reference, 1.0 + fraction);
    PositiveTimes(reference, 1.0 - fraction);
  }

  /** The exchange's boundary price. */
  function Boundary(side: string, band: real, tick: real): real
    requires tick > 0.0
  {
    if side == BUY then AlignDown(band, tick) else AlignUp(band, tick)
  }

  lemma BoundaryIsNearest(side: string, band: real, tick: real)
    requires tick > 0.0 && side in {BUY, SELL}
    ensures Nearest(side, band, tick, Boundary(side, band, tick))
  {
    if side == BUY {
      AlignDownIsGreatest(band, tick);
    } else {
      AlignUpIsLeast(band, tick);
    }
  }

  /** Clamping the plan to a boundary price. */
  function Clamped(side: string, planned: real, top: real, boundary: real): Guarded {
    var guarded := if side == BUY then MinReal(planned, boundary) else MaxReal(planned, boundary);
    if Reaches(side, guarded, top) then Price(guarded) else NoPrice
  }

  /** For every input the source accepts, aligned or not: a returned limit is admissible,
      so it never loosens the plan. */
  lemma GuardNeverLoosens(side: string, planned: real, top: real, mark: real, deviation: real, tick: real)
    requires ValidInputs(side, planned, top, mark, deviation, tick)
    ensures var g := GuardedIocLimitPrice(side, planned, top, mark, deviation, tick);
      g.Price? ==> Admissible(side, planned, top, Bound(mark, deviation, side), g.limit) && g.limit > 0.0
  {
    BoundaryIsNearest(side, Bound(mark, deviation, side), tick);
  }

  /** The guard is optimal exactly when the plan is on the tick grid, or the band
      binds first, or the plan does not reach the book anyway. */
  lemma GuardOptimalExactly(side: string, planned: real, top: real, mark: real, deviation: real, tick: real)
    requires ValidInputs(side, planned, top, mark, deviation, tick)
    ensures var band := Bound(mark, deviation, side);
      Optimal(side, planned, top, band, tick, GuardedIocLimitPrice(side, planned, top, mark, deviation, tick))
      <==> Aligned(planned, tick)
           || Reaches(side, planned, Boundary(side, band, tick))
           || !Reaches(side, planned, top)
  {
    var band := Bound(mark, deviation, side);
    BoundaryIsNearest(side, band, tick);
    ClampOptimalExactly(side, planned, top, band, tick, Boundary(side, band, tick));
  }

  lemma ClampOptimalExactly(side: string, planned: real, top: real, band: real, tick: real, boundary: real)
    requires side in {BUY, SELL} && Nearest(side, band, tick, boundary)
    ensures Optimal(side, planned, top, band, tick, Clamped(side, planned, top, boundary))
      <==> Aligned(planned, tick) || Reaches(side, planned, boundary) || !Reaches(side, planned, top)
  {
  }

  /** A planned limit uses all the slippage the grid allows and no more; planning fails
      for unusable inputs, or when even that limit is not positive. */
  lemma PlannedPriceIsAligned(reference: real, slippage: real, side: string, tick: real)
    requires reference > 0.0 && tick > 0.0 && 0.0 <= slippage < 1.0 && side in {BUY, SELL}
    ensures BestPlan(side, Bound(reference, slippage, side), tick, ProtectiveLimitPrice(reference, slippage, side, tick))
  {
    var bound := Bound(reference, slippage, side);
    BoundPositive(reference, slippage, side);
    BoundaryIsNearest(side, bound, tick);
    NearestIsBest(side, bound, tick, Boundary(side, bound, tick));
  }

  lemma NearestIsBest(side: string, bound: real, tick: real, p: real)
    requires side in {BUY, SELL} && bound > 0.0 && Nearest(side, bound, tick, p)
    ensures BestPlan(side, bound, tick, Positive(p))
  {
  }

  lemma PlanNeedsInputs(reference: real, slippage: real, side: string, tick: real)
    requires ProtectiveLimitPrice(reference, slippage, side, tick).Some?
    ensures reference > 0.0 && tick > 0.0 && 0.0 <= slippage < 1.0 && side in {BUY, SELL}
  {
  }

  /** A plan made on the exchange's own tick and then guarded is optimal and stays
      within the slippage the strategy allows. */
  lemma PlanThenGuard(reference: real, slippage: real, side: string, top: real, mark: real, deviation: real, tick: real)
    requires ProtectiveLimitPrice(reference, slippage, side, tick).Some?
    requires top > 0.0 && mark > 0.0 && 0.0 < deviation < 1.0
    ensures var planned := ProtectiveLimitPrice(reference, slippage, side, tick).value;
      var g := GuardedIocLimitPrice(side, planned, top, mark, deviation, tick);
      && Optimal(side, planned, top, Bound(mark, deviation, side), tick, g)
      && (g.Price? ==> Reaches(side, Bound(reference, slippage, side), g.limit))
  {
    PlanNeedsInputs(reference, slippage, side, tick);
    PlannedPriceIsAligned(reference, slippage, side, tick);
    var planned := ProtectiveLimitPrice(reference, slippage, side, tick).value;
    GuardOptimalExactly(side, planned, top, mark, deviation, tick);
    GuardNeverLoosens(side, planned, top, mark, deviation, tick);
  }

  /** An off-grid plan can come back off the grid: a buy planned at 10.05 on a 0.1 tick. */
  lemma OffGridPlanStaysOffGrid()
    ensures GuardedIocLimitPrice(BUY, 10.05, 10.0, 10.0, 0.5, 0.1) == Price(10.05)
    ensures !Aligned(10.05, 0.1)
    ensures !Optimal(BUY, 10.05, 10.0, Bound(10.0, 0.5, BUY), 0.1, Price(10.05))
  {
    AlignDownIsGreatest(15.0, 0.1);
    assert Aligned(15.0, 0.1) by { assert 15.0 == Ticks(150, 0.1); }
    AlignDownIsGreatest(10.05, 0.1);
    assert AlignDown(10.05, 0.1) == 10.0;
  }

  /** The cost of a filled spot leg: an order sized by flooring `notional / ask` to the
      lot, filled at or below its protective limit, costs at most the notional plus slippage. */
  lemma FilledCost(notional: real, ask: real, slippage: real, lot: real, tick: real, quantity: real, average: real)
    requires notional > 0.0 && ask > 0.0 && lot > 0.0
    requires ProtectiveLimitPrice(ask, slippage, BUY, tick).Some?
    requires 0.0 <= quantity <= AlignDown(notional / ask, lot)
    requires 0.0 <= average <= ProtectiveLimitPrice(ask, slippage, BUY, tick).value
    ensures quantity * average <= notional * (1.0 + slippage)
  {
    AlignDownIsGreatest(notional / ask, lot);
    PlanNeedsInputs(ask, slippage, BUY, tick);
    PlannedPriceIsAligned(ask, slippage, BUY, tick);
    Product(quantity, notional / ask, average, ask * (1.0 + slippage));
    Cost(notional, ask, 1.0 + slippage);
  }

  lemma Cost(notional: real, ask: real, factor: real)
    requires ask > 0.0
    ensures notional / ask * (ask * factor) == notional * factor
  {
    DivideThenMultiply(notional, ask);
    Reassociate(notional / ask, ask, factor);
  }

  // ---------- in the source's own terms ----------

  lemma BuyPlan(bound: real, tick: real)
    requires tick > 0.0
    ensures var p := Positive(AlignDown(bound, tick));
      && (p.Some? <==> tick <= bound)
      && (p.Some? ==> p.value > 0.0 && Aligned(p.value, tick) && bound - tick < p.value <= bound)
  {
    AlignDownIsGreatest(bound, tick);
    OneTickPositive(bound, tick, AlignDown(bound, tick));
  }

  lemma OneTickPositive(bound: real, tick: real, p: real)
    requires tick > 0.0 && Nearest(BUY, bound, tick, p) && bound - tick < p
    ensures p > 0.0 <==> tick <= bound
  {
    assert Aligned(tick, tick) by { OneTick(tick); }
    if p > 0.0 {
      var k :| p == Ticks(k, tick);
      PositiveTicks(k, tick);
    }
  }

  lemma OneTick(tick: real)
    ensures tick == Ticks(1, tick)
  {
  }

  lemma PositiveTicks(k: int, tick: real)
    requires tick > 0.0 && Ticks(k, tick) > 0.0
    ensures Ticks(k, tick) >= tick
  {
    if k >= 1 {
      TicksGrow(1, k, tick);
    } else {
      TicksGrow(k, 0, tick);
    }
  }

  lemma SellPlan(bound: real, tick: real)
    requires tick > 0.0 && bound > 0.0
    ensures var p := Positive(AlignUp(bound, tick));
      p.Some? && p.value > 0.0 && Aligned(p.value, tick) && bound <= p.value < bound + tick
  {
    AlignUpIsLeast(bound, tick);
  }

  /** A plan exists exactly for usable inputs whose buying bound reaches one tick. It is on the
      grid, and less than a tick short of the slippage: above for a buy, below for a sell. */
  lemma PlannedWithinTick(reference: real, slippage: real, side: string, tick: real)
    ensures var planned := ProtectiveLimitPrice(reference, slippage, side, tick);
      && (planned.Some? <==>
            && reference > 0.0 && tick > 0.0 && 0.0 <= slippage < 1.0 && side in {"buy", "sell"}
            && (side == "buy" ==> tick <= reference * (1.0 + slippage)))
      && (planned.Some? ==> var p := planned.value;
            && p > 0.0 && Aligned(p, tick)
            && (side == "buy" ==> reference * (1.0 + slippage) - tick < p <= reference * (1.0 + slippage))
            && (side == "sell" ==> reference * (1.0 - slippage) <= p < reference * (1.0 - slippage) + tick))
  {
    if reference > 0.0 && tick > 0.0 && 0.0 <= slippage < 1.0 {
      PositiveTimes(reference, 1.0 - slippage);
      BuyPlan(reference * (1.0 + slippage), tick);
      SellPlan(reference * (1.0 - slippage), tick);
    }
  }

  /** When the guard gives a price and which: never beyond plan or band, always reaching the
      book, and either the plan itself or less than a tick short of the band. */
  lemma GuardExactly(side: string, planned: real, top: real, mark: real, deviation: real, tick: real)
    requires ValidInputs(side, planned, top, mark, deviation, tick)
    ensures var g := GuardedIocLimitPrice(side, planned, top, mark, deviation, tick);
      && (g == NoPrice <==>
            if side == "buy" then planned < top || forall q :: Aligned(q, tick) && top <= q ==> mark * (1.0 + deviation) < q
            else top < planned || forall q :: Aligned(q, tick) && q <= top ==> q < mark * (1.0 - deviation))
      && (g != NoPrice ==> g.Price? && var p := g.limit;
            if side == "buy" then
              top <= p <= planned && p <= mark * (1.0 + deviation) && (p == planned || mark * (1.0 + deviation) - tick < p)
            else
              planned <= p <= top && mark * (1.0 - deviation) <= p && (p == planned || p < mark * (1.0 - deviation) + tick))
  {
    if side == BUY {
      AlignDownIsGreatest(mark * (1.0 + deviation), tick);
    } else {
      AlignUpIsLeast(mark * (1.0 - deviation), tick);
    }
  }

  /** The proceeds of a filled sale: at or above its protective limit it brings at least the
      quantity at the reference price, less the slippage. */
  lemma FilledProceeds(reference: real, slippage: real, tick: real, quantity: real, average: real)
    requires ProtectiveLimitPrice(reference, slippage, SELL, tick).Some?
    requires quantity >= 0.0 && average >= ProtectiveLimitPrice(reference, slippage, SELL, tick).value
    ensures quantity * average >= quantity * (reference * (1.0 - slippage))
  {
    PlannedWithinTick(reference, slippage, SELL, tick);
    Times(quantity, average - reference * (1.0 - slippage));
    Distribute(average, reference * (1.0 - slippage), quantity);
  }
}
