/** Funding annualisation and opportunity building (calculations.py), and the
    depth-quote refresh of an opportunity (executable_quotes.py). */
module Calculations {
  import opened Models
  import opened Arithmetic
  import opened Sorting

  const HOURS_PER_DAY := 24.0
  const DAYS_PER_YEAR := 365.0

  /** None stands for the ValueError raised for a non-positive interval. */
  function AnnualizeCurrent(rate: real, intervalHours: real): Option<real> {
    if intervalHours <= 0.0 then None else Some(rate * HOURS_PER_DAY / intervalHours * DAYS_PER_YEAR)
  }

  // ---------- annualize_history ----------

  function SettledIn(start: Time, end: Time): FundingObservation -> bool {
    (x: FundingObservation) => x.settled && start <= x.fundingAt <= end
  }

  predicate FundingLeq(a: FundingObservation, b: FundingObservation) { a.fundingAt <= b.fundingAt }

  function RateOf(): FundingObservation -> real { (x: FundingObservation) => x.rate }

  datatype History = RangeError | NoHistory | Apr(value: real)

  /** The settled observations of the window, oldest first. */
  function Selected(observations: seq<FundingObservation>, start: Time, end: Time): seq<FundingObservation> {
    Sort(FundingLeq, Filter(SettledIn(start, end), observations))
  }

  /** How much time the observations stand for. */
  function ObservedSpan(values: seq<FundingObservation>): Time
    requires values != []
  {
    values[|values| - 1].fundingAt - values[0].fundingAt + values[0].intervalHours * HOUR
  }

  function AnnualizeHistory(observations: seq<FundingObservation>, start: Time, end: Time): History {
    if end <= start then RangeError
    else
      var values := Selected(observations, start, end);
      if values == [] then NoHistory
      else
        var covered := MinReal(end - start, ObservedSpan(values));
        if covered <= 0.0 then NoHistory
        else Apr(Sum(RateOf(), values) / (covered / DAY) * DAYS_PER_YEAR)
  }

  lemma FundingIsTotalPreorder()
    ensures TotalPreorder(FundingLeq)
  {
  }

  lemma SelectedMembers(observations: seq<FundingObservation>, start: Time, end: Time)
    ensures forall x :: x in Selected(observations, start, end) <==> x in observations && SettledIn(start, end)(x)
  {
    var kept := Filter(SettledIn(start, end), observations);
    FilterMembers(SettledIn(start, end), observations);
    SortPermutes(FundingLeq, kept);
    SameMembers(kept, Sort(FundingLeq, kept));
  }

  /** The order in which history is listed does not matter when no two observations
      share a funding time. */
  lemma HistoryOrderIrrelevant(a: seq<FundingObservation>, b: seq<FundingObservation>, start: Time, end: Time)
    requires multiset(a) == multiset(b)
    requires forall x, y :: x in a && y in a && x.fundingAt == y.fundingAt ==> x == y
    ensures AnnualizeHistory(a, start, end) == AnnualizeHistory(b, start, end)
  {
    var keep := SettledIn(start, end);
    FilterPermutes(keep, a, b);
    FilterMembers(keep, a);
    FundingIsTotalPreorder();
    SortPermutationInvariant(FundingLeq, Filter(keep, a), Filter(keep, b));
  }

  ghost predicate EvenlySpaced(values: seq<FundingObservation>, first: Time, intervalHours: real) {
    forall i :: 0 <= i < |values| ==>
      values[i].fundingAt == first + i as real * (intervalHours * HOUR) && values[i].intervalHours == intervalHours
  }

  /** Evenly spaced settlements that fit the window annualise like their mean rate. */
  lemma EvenSpacingIsMeanRate(
    observations: seq<FundingObservation>, start: Time, end: Time, first: Time, intervalHours: real)
    requires intervalHours > 0.0 && end > start
    requires var values := Selected(observations, start, end);
      values != [] && EvenlySpaced(values, first, intervalHours)
      && |values| as real * (intervalHours * HOUR) <= end - start
    ensures var values := Selected(observations, start, end);
      var mean := Sum(RateOf(), values) / |values| as real;
      AnnualizeHistory(observations, start, end) == Apr(AnnualizeCurrent(mean, intervalHours).value)
  {
    var values := Selected(observations, start, end);
    EvenSpan(values, first, intervalHours);
    MeanRate(Sum(RateOf(), values), |values| as real, intervalHours, ObservedSpan(values));
  }

  lemma EvenSpan(values: seq<FundingObservation>, first: Time, h: real)
    requires values != [] && h > 0.0 && EvenlySpaced(values, first, h)
    ensures ObservedSpan(values) == |values| as real * (h * HOUR) && ObservedSpan(values) > 0.0
  {
    var n, step := |values| as real, h * HOUR;
    assert values[|values| - 1].fundingAt == first + (n - 1.0) * step;
    Distribute(n - 1.0, 1.0, step);
    PositiveTimes(n, step);
  }

  lemma MeanRate(total: real, n: real, h: real, span: real)
    requires n > 0.0 && h > 0.0 && span == n * (h * HOUR)
    ensures span / DAY != 0.0
    ensures total / (span / DAY) * DAYS_PER_YEAR == total / n * HOURS_PER_DAY / h * DAYS_PER_YEAR
  {
    var days, x := span / DAY, total / n / h;
    SpanInDays(n, h);
    DivideThenMultiply(total / n, h);
    DivideThenMultiply(total, n);
    assert x * (n * h) == total by { Reassociate(x, h, n); }
    assert x * 24.0 * days == total by { Rescale(x, n * h); }
    QuotientIs(total, days, x * 24.0);
    HourlyFirst(total / n, h);
  }

  lemma SpanInDays(n: real, h: real)
    requires n > 0.0 && h > 0.0
    ensures n * (h * HOUR) / DAY == n * h / 24.0 && n * h > 0.0
  {
    PositiveTimes(n, h);
    Reassociate(n, h, HOUR);
  }

  lemma Rescale(x: real, y: real)
    ensures x * 24.0 * (y / 24.0) == x * y
  {
  }

  lemma HourlyFirst(x: real, h: real)
    requires h > 0.0
    ensures x * HOURS_PER_DAY / h == x / h * 24.0
  {
  }

  /** Settlements are never spread over more than the window: non-negative rates give at
      least the APR of their sum over the whole window, and exactly it when the
      observations stand for the window or more. */
  lemma NeverDiluted(observations: seq<FundingObservation>, start: Time, end: Time)
    requires AnnualizeHistory(observations, start, end).Apr?
    requires Sum(RateOf(), Selected(observations, start, end)) >= 0.0
    ensures end > start
    ensures var values := Selected(observations, start, end);
      var whole := Sum(RateOf(), values) / ((end - start) / DAY) * DAYS_PER_YEAR;
      && AnnualizeHistory(observations, start, end).value >= whole
      && (ObservedSpan(values) >= end - start ==> AnnualizeHistory(observations, start, end).value == whole)
  {
    var values := Selected(observations, start, end);
    QuotientGrows(Sum(RateOf(), values), MinReal(end - start, ObservedSpan(values)) / DAY, (end - start) / DAY);
  }

  lemma QuotientGrows(x: real, less: real, more: real)
    requires x >= 0.0 && 0.0 < less <= more
    ensures x / less >= x / more
  {
    var b := x / more;
    DivideThenMultiply(x, less);
    DivideThenMultiply(x, more);
    QuotientSign(x, more);
    Times(b, more - less);
    Distribute(more, less, b);
    MultiplyBoth(b, x / less, less);
  }

  lemma QuotientSign(x: real, y: real)
    requires x >= 0.0 && y > 0.0
    ensures x / y >= 0.0
  {
  }

  // ---------- build_opportunity ----------

  function ProjectedNetReturn(apr7d: real, fee: FeeRate, holdingDays: int): real {
    apr7d * holdingDays as real / DAYS_PER_YEAR - 2.0 * (fee.spotTaker + fee.perpTaker)
  }

  function AprOf(h: History): Option<real> { if h.Apr? then Some(h.value) else None }

  function SettledSince(start: Time): FundingObservation -> bool {
    (x: FundingObservation) => x.settled && x.fundingAt >= start
  }

  function Latest(s: seq<FundingObservation>): Time
    requires s != []
  {
    if |s| == 1 then s[0].fundingAt else MaxReal(s[0].fundingAt, Latest(s[1..]))
  }

  function Earliest(s: seq<FundingObservation>): Time
    requires s != []
  {
    if |s| == 1 then s[0].fundingAt else MinReal(s[0].fundingAt, Earliest(s[1..]))
  }

  predicate WarmingUp(history: seq<FundingObservation>, now: Time) {
    var coverage := Filter(SettledSince(now - 7.0 * DAY), history);
    coverage == [] || Latest(coverage) - Earliest(coverage) < 6.0 * DAY
  }

  /** None stands for the ValueErrors the source raises. */
  function BuildOpportunity(
    pair: InstrumentPair, quote: MarketQuote, current: FundingObservation, history: seq<FundingObservation>,
    fee: FeeRate, holdingDays: int, now: Time): Option<Opportunity>
  {
    if quote.spotBid <= 0.0 || quote.spotAsk <= 0.0 || quote.perpBid <= 0.0 || quote.perpAsk <= 0.0 then None
    else if AnnualizeCurrent(current.rate, current.intervalHours).None? then None
    else
      var spotAskNotional, perpBidNotional := quote.spotAsk * quote.spotAskQty, quote.perpBid * quote.perpBidQty;
      var apr7d := AprOf(AnnualizeHistory(history, now - 7.0 * DAY, now));
      var stale := now - quote.observedAt > 15.0 || now - current.observedAt > 10.0 * MINUTE;
      Some(Opportunity(
        pair.exchange, pair.baseAsset, pair.spotSymbol, pair.perpSymbol, quote.observedAt,
        quote.spotBid, quote.spotAsk, quote.perpBid, quote.perpAsk,
        quote.perpBid / quote.spotAsk - 1.0,
        MinReal(spotAskNotional, perpBidNotional),
        MinReal(quote.spotBid * quote.spotBidQty, quote.perpAsk * quote.perpAskQty),
        current.rate, current.intervalHours, current.nextFundingAt,
        AnnualizeCurrent(current.rate, current.intervalHours).value,
        AprOf(AnnualizeHistory(history, now - DAY, now)), apr7d,
        if apr7d.Some? then Some(ProjectedNetReturn(apr7d.value, fee, holdingDays)) else None,
        quote.spotQuoteVolume24h, quote.perpQuoteVolume24h, fee.spotTaker, fee.perpTaker,
        if stale then Stale else if WarmingUp(history, now) then Warming else Healthy,
        spotAskNotional, perpBidNotional))
  }

  function ApplyCurrentFundingFallback(o: Opportunity, fee: FeeRate, holdingDays: int): Option<Opportunity> {
    var fallback := AnnualizeCurrent(o.currentFundingRate, o.fundingIntervalHours);
    if fallback.None? then None
    else Some(o.(
      apr24h := if o.apr24h.Some? then o.apr24h else fallback,
      apr7d := if o.apr7d.Some? then o.apr7d else fallback,
      netReturn := if o.netReturn.Some? then o.netReturn
                   else Some(ProjectedNetReturn(fallback.value, fee, holdingDays)),
      quality := Healthy))
  }

  function BuildSandboxOpportunity(
    pair: InstrumentPair, quote: MarketQuote, current: FundingObservation, fee: FeeRate, holdingDays: int, now: Time):
    Option<Opportunity>
  {
    var built := BuildOpportunity(pair, quote, current, [], fee, holdingDays, now);
    if built.None? || built.value.quality == Stale then built
    else ApplyCurrentFundingFallback(built.value, fee, holdingDays)
  }

  // ---------- what a built opportunity promises ----------

  ghost predicate PositiveIntervals(history: seq<FundingObservation>) {
    forall x :: x in history && x.settled ==> x.intervalHours > 0.0
  }

  ghost predicate SettledWithin(history: seq<FundingObservation>, start: Time, end: Time) {
    exists x :: x in history && x.settled && start <= x.fundingAt <= end
  }

  /** With positive intervals a window has an APR exactly when something settled in it. */
  lemma AprWhenSettled(history: seq<FundingObservation>, start: Time, end: Time)
    requires PositiveIntervals(history) && end > start
    ensures AnnualizeHistory(history, start, end).Apr? <==> SettledWithin(history, start, end)
  {
    var values := Selected(history, start, end);
    SelectedMembers(history, start, end);
    if SettledWithin(history, start, end) {
      var x :| x in history && x.settled && start <= x.fundingAt <= end;
      assert x in values;
    }
    if values != [] {
      assert values[0] in values && values[0] in history;
      FundingIsTotalPreorder();
      SortSorts(FundingLeq, Filter(SettledIn(start, end), history));
      assert values[0].fundingAt <= values[|values| - 1].fundingAt;
      assert ObservedSpan(values) > 0.0;
    }
  }

  lemma CoverageMeansSettled(history: seq<FundingObservation>, now: Time)
    requires !WarmingUp(history, now)
    requires forall x :: x in history && x.settled ==> x.fundingAt <= now
    ensures SettledWithin(history, now - 7.0 * DAY, now)
  {
    var coverage := Filter(SettledSince(now - 7.0 * DAY), history);
    FilterMembers(SettledSince(now - 7.0 * DAY), history);
    assert coverage[0] in coverage;
  }

  /** A built opportunity has a 7-day APR exactly when something settled in the last 7
      days, then also a net return; a 24-hour APR never comes without a 7-day one; and
      without future observations HEALTHY guarantees both. */
  lemma BuiltHistory(
    pair: InstrumentPair, quote: MarketQuote, current: FundingObservation, history: seq<FundingObservation>,
    fee: FeeRate, holdingDays: int, now: Time)
    requires PositiveIntervals(history)
    requires BuildOpportunity(pair, quote, current, history, fee, holdingDays, now).Some?
    ensures var o := BuildOpportunity(pair, quote, current, history, fee, holdingDays, now).value;
      && (o.apr7d.Some? <==> SettledWithin(history, now - 7.0 * DAY, now))
      && (o.apr24h.Some? <==> SettledWithin(history, now - DAY, now))
      && (o.apr24h.Some? ==> o.apr7d.Some?)
      && (o.quality == Healthy && (forall x :: x in history && x.settled ==> x.fundingAt <= now) ==>
            o.apr7d.Some? && o.netReturn.Some?)
  {
    AprWhenSettled(history, now - 7.0 * DAY, now);
    AprWhenSettled(history, now - DAY, now);
    if !WarmingUp(history, now) && forall x :: x in history && x.settled ==> x.fundingAt <= now {
      CoverageMeansSettled(history, now);
    }
    if SettledWithin(history, now - DAY, now) {
      var x :| x in history && x.settled && now - DAY <= x.fundingAt <= now;
      assert now - 7.0 * DAY <= x.fundingAt;
    }
  }

  // ---------- quality ----------

  /** The quote is over 15 seconds or the current funding over 10 minutes old. */
  predicate TooOld(quote: MarketQuote, current: FundingObservation, now: Time) {
    quote.observedAt + 15.0 < now || current.observedAt + 600.0 < now
  }

  /** Two settlements since seven days ago lie at least six days apart. */
  ghost predicate SixDaysSettled(history: seq<FundingObservation>, now: Time) {
    exists x, y :: x in history && y in history && SixDaysApart(x, y, now)
  }

  predicate SixDaysApart(x: FundingObservation, y: FundingObservation, now: Time) {
    x.settled && y.settled && now - 604800.0 <= x.fundingAt && x.fundingAt + 518400.0 <= y.fundingAt
  }

  lemma {:induction false} LatestIs(s: seq<FundingObservation>)
    requires s != []
    ensures exists i :: 0 <= i < |s| && s[i].fundingAt == Latest(s)
    ensures forall i :: 0 <= i < |s| ==> s[i].fundingAt <= Latest(s)
  {
    if |s| == 1 {
      assert s[0].fundingAt == Latest(s);
    } else {
      LatestIs(s[1..]);
      var i :| 0 <= i < |s[1..]| && s[1..][i].fundingAt == Latest(s[1..]);
      assert s[i + 1].fundingAt == Latest(s[1..]);
      assert s[0].fundingAt == Latest(s) || s[i + 1].fundingAt == Latest(s);
      forall k | 0 <= k < |s| ensures s[k].fundingAt <= Latest(s) {
        assert k > 0 ==> s[k] == s[1..][k - 1];
      }
    }
  }

  lemma {:induction false} EarliestIs(s: seq<FundingObservation>)
    requires s != []
    ensures exists i :: 0 <= i < |s| && s[i].fundingAt == Earliest(s)
    ensures forall i :: 0 <= i < |s| ==> Earliest(s) <= s[i].fundingAt
  {
    if |s| == 1 {
      assert s[0].fundingAt == Earliest(s);
    } else {
      EarliestIs(s[1..]);
      var i :| 0 <= i < |s[1..]| && s[1..][i].fundingAt == Earliest(s[1..]);
      assert s[i + 1].fundingAt == Earliest(s[1..]);
      assert s[0].fundingAt == Earliest(s) || s[i + 1].fundingAt == Earliest(s);
      forall k | 0 <= k < |s| ensures Earliest(s) <= s[k].fundingAt {
        assert k > 0 ==> s[k] == s[1..][k - 1];
      }
    }
  }

  lemma WarmedUpExactly(history: seq<FundingObservation>, now: Time)
    ensures WarmingUp(history, now) <==> !SixDaysSettled(history, now)
  {
    var coverage := Filter(SettledSince(now - 7.0 * DAY), history);
    FilterMembers(SettledSince(now - 7.0 * DAY), history);
    if coverage != [] {
      LatestIs(coverage);
      EarliestIs(coverage);
      var i :| 0 <= i < |coverage| && coverage[i].fundingAt == Earliest(coverage);
      var j :| 0 <= j < |coverage| && coverage[j].fundingAt == Latest(coverage);
      assert coverage[i] in coverage && coverage[j] in coverage;
    }
    if x, y :| x in history && y in history && SixDaysApart(x, y, now) {
      assert x in coverage && y in coverage;
    }
  }

  /** The quality of every built opportunity; STALE and HEALTHY exactly as said, WARMING
      otherwise. */
  lemma BuiltQuality(
    pair: InstrumentPair, quote: MarketQuote, current: FundingObservation, history: seq<FundingObservation>,
    fee: FeeRate, holdingDays: int, now: Time)
    ensures var b := BuildOpportunity(pair, quote, current, history, fee, holdingDays, now);
      b.Some? ==>
        && (b.value.quality == Stale <==> TooOld(quote, current, now))
        && (b.value.quality == Healthy <==> !TooOld(quote, current, now) && SixDaysSettled(history, now))
  {
    WarmedUpExactly(history, now);
  }

  /** The sandbox is STALE for the same quotes and then reports no funding history; otherwise
      it is HEALTHY and reports the current funding as both averages. */
  lemma SandboxQuality(
    pair: InstrumentPair, quote: MarketQuote, current: FundingObservation, fee: FeeRate, holdingDays: int, now: Time)
    ensures var s := BuildSandboxOpportunity(pair, quote, current, fee, holdingDays, now);
      s.Some? ==>
        if TooOld(quote, current, now) then
          s.value.quality == Stale && s.value.apr24h == None && s.value.apr7d == None && s.value.netReturn == None
        else
          && s.value.quality == Healthy
          && s.value.apr24h == Some(s.value.currentApr) && s.value.apr7d == Some(s.value.currentApr)
  {
    BuiltQuality(pair, quote, current, [], fee, holdingDays, now);
    assert Selected([], now - 7.0 * DAY, now) == [] && Selected([], now - DAY, now) == [];
  }

  /** A rate paid every interval adds up to its APR over the 8760 hours of a year; holding
      earns the APR by the day and pays both taker fees twice. */
  lemma AprAddsUp(rate: real, intervalHours: real, fee: FeeRate, holdingDays: int)
    requires intervalHours > 0.0
    ensures var apr := AnnualizeCurrent(rate, intervalHours).value;
      && apr * intervalHours == rate * 8760.0
      && (ProjectedNetReturn(apr, fee, holdingDays) + fee.spotTaker + fee.perpTaker + fee.spotTaker + fee.perpTaker) * 365.0
         == apr * holdingDays as real
  {
    DivideThenMultiply(rate * HOURS_PER_DAY, intervalHours);
    Reassociate(DAYS_PER_YEAR, rate * HOURS_PER_DAY / intervalHours, intervalHours);
  }

  /** Observations from the future can make an opportunity HEALTHY with no 7-day APR. */
  lemma FutureHistoryIsHealthyWithoutApr(pair: InstrumentPair, quote: MarketQuote, current: FundingObservation, fee: FeeRate, now: Time)
    requires quote.spotBid > 0.0 && quote.spotAsk > 0.0 && quote.perpBid > 0.0 && quote.perpAsk > 0.0
    requires current.intervalHours > 0.0 && quote.observedAt == now && current.observedAt == now
    ensures exists history, o ::
      && PositiveIntervals(history)
      && BuildOpportunity(pair, quote, current, history, fee, 30, now) == Some(o)
      && o.quality == Healthy && o.apr7d == None && o.netReturn == None
  {
    var early := FundingObservation(pair.exchange, pair.baseAsset, 0.0, now + 1.0 * DAY, now, true, None, 8.0);
    var late := early.(fundingAt := now + 8.0 * DAY);
    var history := [early, late];
    var keep := SettledSince(now - 7.0 * DAY);
    assert history[1..] == [late] && [late][1..] == [];
    assert keep(early) && keep(late);
    assert Filter(keep, [late]) == [late];
    assert Filter(keep, history) == [early, late];
    assert Latest([late]) == late.fundingAt && Earliest([late]) == late.fundingAt;
    assert !WarmingUp(history, now);
    AprWhenSettled(history, now - 7.0 * DAY, now);
    assert BuildOpportunity(pair, quote, current, history, fee, 30, now).Some?;
  }

  /** The net return is the projection of the reported 7-day APR. */
  ghost predicate Coherent(o: Opportunity, fee: FeeRate, holdingDays: int) {
    o.netReturn == if o.apr7d.Some? then Some(ProjectedNetReturn(o.apr7d.value, fee, holdingDays)) else None
  }

  lemma FallbackKeepsCoherence(o: Opportunity, fee: FeeRate, holdingDays: int)
    requires Coherent(o, fee, holdingDays) && ApplyCurrentFundingFallback(o, fee, holdingDays).Some?
    ensures var f := ApplyCurrentFundingFallback(o, fee, holdingDays).value;
      && Coherent(f, fee, holdingDays)
      && f.quality == Healthy && f.apr24h.Some? && f.apr7d.Some? && f.netReturn.Some?
      && (o.apr7d.Some? ==> f.apr7d == o.apr7d && f.netReturn == o.netReturn)
      && (o.apr24h.Some? ==> f.apr24h == o.apr24h)
      && ApplyCurrentFundingFallback(f, fee, holdingDays) == Some(f)
  {
  }

  /** Net returns agree with 7-day APRs after building and after the sandbox fallback. */
  lemma BuildersAreCoherent(
    pair: InstrumentPair, quote: MarketQuote, current: FundingObservation, history: seq<FundingObservation>,
    fee: FeeRate, holdingDays: int, now: Time)
    ensures var b := BuildOpportunity(pair, quote, current, history, fee, holdingDays, now);
      b.Some? ==> Coherent(b.value, fee, holdingDays)
    ensures var s := BuildSandboxOpportunity(pair, quote, current, fee, holdingDays, now);
      s.Some? ==>
        && Coherent(s.value, fee, holdingDays)
        && (s.value.quality == Stale || (s.value.quality == Healthy && s.value.netReturn.Some?))
  {
    var built := BuildOpportunity(pair, quote, current, [], fee, holdingDays, now);
    if built.Some? && built.value.quality != Stale {
      assert AnnualizeCurrent(current.rate, current.intervalHours).Some?;
      FallbackKeepsCoherence(built.value, fee, holdingDays);
    }
  }

  // ---------- executable quotes ----------

  function MarketQuoteFromOpportunity(o: Opportunity): MarketQuote {
    MarketQuote(o.exchange, o.baseAsset, o.observedAt,
                o.spotBid, 0.0,
                o.spotAsk, if o.spotAsk > 0.0 then o.spotAskNotional / o.spotAsk else 0.0,
                o.perpBid, if o.perpBid > 0.0 then o.perpBidNotional / o.perpBid else 0.0,
                o.perpAsk, 0.0,
                o.spotQuoteVolume24h, o.perpQuoteVolume24h)
  }

  /** None stands for the division by a zero ask. */
  function OpportunityWithExecutableQuote(o: Opportunity, quote: MarketQuote): Option<Opportunity> {
    if quote.spotAsk == 0.0 then None
    else
      var spotAskNotional, perpBidNotional := quote.spotAsk * quote.spotAskQty, quote.perpBid * quote.perpBidQty;
      Some(o.(
        observedAt := quote.observedAt,
        spotBid := quote.spotBid, spotAsk := quote.spotAsk, perpBid := quote.perpBid, perpAsk := quote.perpAsk,
        executableBasis := quote.perpBid / quote.spotAsk - 1.0,
        topBookNotional := MinReal(spotAskNotional, perpBidNotional),
        closeTopBookNotional := MinReal(quote.spotBid * quote.spotBidQty, quote.perpAsk * quote.perpAskQty),
        spotAskNotional := spotAskNotional,
        perpBidNotional := perpBidNotional))
  }

  /** Refreshing a built opportunity with a new quote gives what building from that quote
      gives, but for the quality and the 24-hour volumes, which are kept. */
  lemma RefreshAgreesWithBuild(
    pair: InstrumentPair, oldQuote: MarketQuote, quote: MarketQuote, current: FundingObservation,
    history: seq<FundingObservation>, fee: FeeRate, holdingDays: int, now: Time)
    requires BuildOpportunity(pair, oldQuote, current, history, fee, holdingDays, now).Some?
    requires BuildOpportunity(pair, quote, current, history, fee, holdingDays, now).Some?
    ensures var o := BuildOpportunity(pair, oldQuote, current, history, fee, holdingDays, now).value;
      var b := BuildOpportunity(pair, quote, current, history, fee, holdingDays, now).value;
      OpportunityWithExecutableQuote(o, quote) == Some(b.(
        quality := o.quality,
        spotQuoteVolume24h := o.spotQuoteVolume24h, perpQuoteVolume24h := o.perpQuoteVolume24h))
  {
  }

  /** Turning a built opportunity into a quote and back changes only the close capacity,
      which the opportunity does not remember leg by leg. */
  lemma QuoteRoundTrip(
    pair: InstrumentPair, quote: MarketQuote, current: FundingObservation,
    history: seq<FundingObservation>, fee: FeeRate, holdingDays: int, now: Time)
    requires BuildOpportunity(pair, quote, current, history, fee, holdingDays, now).Some?
    ensures var o := BuildOpportunity(pair, quote, current, history, fee, holdingDays, now).value;
      OpportunityWithExecutableQuote(o, MarketQuoteFromOpportunity(o)) == Some(o.(closeTopBookNotional := 0.0))
  {
    var o := BuildOpportunity(pair, quote, current, history, fee, holdingDays, now).value;
    assert o.spotAsk > 0.0 && o.perpBid > 0.0;
    var q := MarketQuoteFromOpportunity(o);
    DivideThenMultiply(o.spotAskNotional, o.spotAsk);
    DivideThenMultiply(o.perpBidNotional, o.perpBid);
    assert q.spotAsk * q.spotAskQty == o.spotAskNotional;
    assert q.perpBid * q.perpBidQty == o.perpBidNotional;
    assert q.spotBid * q.spotBidQty == 0.0 && q.perpAsk * q.perpAskQty == 0.0;
    var r := OpportunityWithExecutableQuote(o, q).value;
    assert r.executableBasis == o.executableBasis;
    assert r.topBookNotional == o.topBookNotional;
    assert r.closeTopBookNotional == 0.0;
    assert r.spotAskNotional == o.spotAskNotional;
    assert r.perpBidNotional == o.perpBidNotional;
    assert r.observedAt == o.observedAt;
  }
}
