/** What decided closes and opens mean in cash, on the clock and on the book. */
module DecisionLaws {
  import opened Models
  import opened Arithmetic
  import opened Sorting
  import opened Text
  import opened Automation
  import opened AutomationLaws
  import opened Calculations

  // ---------- the cash account of a close ----------

  /** What selling brings in and what buying costs, after the taker fee. */
  function SaleProceeds(quantity: real, price: real, fee: real): real { quantity * price - quantity * price * fee }

  function PurchaseCost(quantity: real, price: real, fee: real): real { quantity * price + quantity * price * fee }

  /** The long leg is sold at the spot bid, the short leg bought back at the perpetual ask;
      both were entered before, at a fee that is still to be charged. */
  function CashResult(p: Position, o: Opportunity): real {
    var spotLeg := SaleProceeds(p.quantity, o.spotBid, o.spotTakerFee) - p.quantity * p.spotEntryPrice;
    var perpLeg := p.quantity * p.perpEntryPrice - PurchaseCost(p.quantity, o.perpAsk, o.perpTakerFee);
    spotLeg + perpLeg - p.remainingOpeningFeesUsdt
  }

  lemma EstimateIsCash(p: Position, o: Opportunity)
    ensures EstimatedNetPnl(p, o) == CashResult(p, o)
  {
    Distribute(o.spotBid - p.spotEntryPrice + p.perpEntryPrice, o.perpAsk, p.quantity);
    Distribute(o.spotBid - p.spotEntryPrice, p.perpEntryPrice, p.quantity);
    Distribute(o.spotBid, p.spotEntryPrice, p.quantity);
  }

  /** The estimate rises with the spot bid, falls with the perpetual ask, and without fees
      does not move when both move alike: the pair is hedged. */
  lemma EstimateFollowsPrices(p: Position, o: Opportunity, rise: real)
    requires p.quantity > 0.0 && rise > 0.0
    ensures o.spotTakerFee < 1.0 ==> EstimatedNetPnl(p, o.(spotBid := o.spotBid + rise)) > EstimatedNetPnl(p, o)
    ensures o.perpTakerFee > -1.0 ==> EstimatedNetPnl(p, o.(perpAsk := o.perpAsk + rise)) < EstimatedNetPnl(p, o)
    ensures o.spotTakerFee == 0.0 && o.perpTakerFee == 0.0 ==>
      EstimatedNetPnl(p, o.(spotBid := o.spotBid + rise, perpAsk := o.perpAsk + rise)) == EstimatedNetPnl(p, o)
  {
    var higherBid, higherAsk := o.(spotBid := o.spotBid + rise), o.(perpAsk := o.perpAsk + rise);
    EstimateIsCash(p, o);
    EstimateIsCash(p, higherBid);
    EstimateIsCash(p, higherAsk);
    EstimateIsCash(p, o.(spotBid := o.spotBid + rise, perpAsk := o.perpAsk + rise));
    ProceedsRise(p.quantity, o.spotBid, rise, o.spotTakerFee);
    CostRises(p.quantity, o.perpAsk, rise, o.perpTakerFee);
  }

  lemma ProceedsRise(quantity: real, price: real, rise: real, fee: real)
    requires quantity > 0.0 && rise > 0.0
    ensures SaleProceeds(quantity, price + rise, fee) == SaleProceeds(quantity, price, fee) + quantity * rise * (1.0 - fee)
    ensures fee < 1.0 ==> quantity * rise * (1.0 - fee) > 0.0
  {
    Distribute(price, rise, quantity);
    Distribute(quantity * price, quantity * rise, fee);
    Distribute(1.0, fee, quantity * rise);
    PositiveTimes(quantity, rise);
    if fee < 1.0 {
      PositiveTimes(quantity * rise, 1.0 - fee);
    }
  }

  lemma CostRises(quantity: real, price: real, rise: real, fee: real)
    requires quantity > 0.0 && rise > 0.0
    ensures PurchaseCost(quantity, price + rise, fee) == PurchaseCost(quantity, price, fee) + quantity * rise * (1.0 + fee)
    ensures fee > -1.0 ==> quantity * rise * (1.0 + fee) > 0.0
  {
    Distribute(price, rise, quantity);
    Distribute(quantity * price, quantity * rise, fee);
    Distribute(1.0, fee, quantity * rise);
    PositiveTimes(quantity, rise);
    if fee > -1.0 {
      PositiveTimes(quantity * rise, 1.0 + fee);
    }
  }

  // ---------- when a close is due ----------

  /** The quote is healthy, observed at most 15 s ago and at most 5 s ahead, with prices. */
  ghost predicate Fresh(o: Opportunity, now: Time) {
    && o.quality == Healthy && now - 15.0 <= o.observedAt <= now + 5.0
    && 0.0 < o.spotBid && 0.0 < o.spotAsk && 0.0 < o.perpBid && 0.0 < o.perpAsk
  }

  predicate OfMarket(p: Position, o: Opportunity) { o.exchange == p.exchange && o.baseAsset == p.baseAsset }

  /** The last opportunity listed for the position's market. */
  ghost predicate LastQuote(opportunities: seq<Opportunity>, p: Position, o: Opportunity) {
    exists i :: LastAt(opportunities, p, i) && opportunities[i] == o
  }

  ghost predicate LastAt(opportunities: seq<Opportunity>, p: Position, i: int) {
    && 0 <= i < |opportunities| && OfMarket(p, opportunities[i])
    && forall j :: i < j < |opportunities| ==> !OfMarket(p, opportunities[j])
  }

  /** The opportunity quotes the market of the position, and either leg fits what it may
      trade at once. */
  ghost predicate Closable(t: Tick, p: Position, o: Opportunity) {
    && p in t.positions && p.environment == t.config.environment && p.exchange in t.config.enabledExchanges
    && p.status == Open && 0.0 < p.quantity
    && LastQuote(t.opportunities, p, o) && Fresh(o, t.now)
    && p.quantity * o.spotBid <= o.closeTopBookNotional && p.quantity * o.perpAsk <= o.closeTopBookNotional
  }

  /** The reasons to close, most urgent first, in cash and without the division. */
  ghost predicate Due(c: Config, p: Position, o: Opportunity, now: Time, urgency: int) {
    || (urgency == 0 && p.liquidationBuffer.Some? && p.liquidationBuffer.value < c.minimumLiquidationBuffer)
    || (urgency == 1 && CashResult(p, o) + c.stopLossUsdt <= 0.0)
    || (urgency == 2 && p.openedAt + c.maximumHoldingHours as real * 3600.0 <= now)
    || (urgency == 3 && o.currentFundingRate < c.closeFundingRateBelow)
    || (urgency == 4 && o.netReturn.Some? && o.netReturn.value < c.closeNetReturnBelow)
    || (urgency == 5 && o.perpAsk > o.spotBid * (1.0 + c.closeBasisAbove))
    || (urgency == 6 && CashResult(p, o) >= c.takeProfitUsdt)
  }

  /** `urgency` is the first reason that applies. */
  ghost predicate FirstDue(c: Config, p: Position, o: Opportunity, now: Time, urgency: int) {
    Due(c, p, o, now, urgency) && forall k :: k < urgency ==> !Due(c, p, o, now, k)
  }

  lemma BasisAbove(perpAsk: real, spotBid: real, limit: real)
    requires spotBid > 0.0
    ensures (perpAsk - spotBid) / spotBid > limit <==> perpAsk > spotBid * (1.0 + limit)
  {
    var basis := (perpAsk - spotBid) / spotBid;
    DivideThenMultiply(perpAsk - spotBid, spotBid);
    MultiplyBoth(basis, limit, spotBid);
    Distribute(1.0, limit, spotBid);
  }

  lemma TriggerIsDue(c: Config, p: Position, o: Opportunity, now: Time, k: int)
    requires o.spotBid > 0.0
    ensures Trigger(c, p, o, now, k) <==> Due(c, p, o, now, k)
  {
    EstimateIsCash(p, o);
    BasisAbove(o.perpAsk, o.spotBid, c.closeBasisAbove);
  }

  lemma FirstTriggerIsDue(c: Config, p: Position, o: Opportunity, now: Time, k: int)
    requires o.spotBid > 0.0
    ensures FirstTrigger(c, p, o, now, k) <==> FirstDue(c, p, o, now, k)
  {
    forall j ensures Trigger(c, p, o, now, j) <==> Due(c, p, o, now, j) {
      TriggerIsDue(c, p, o, now, j);
    }
    assert forall j :: Due(c, p, o, now, j) ==> 0 <= j < 7;
  }

  function CandidateFor(p: Position, o: Opportunity, urgency: int): CloseCandidate {
    var reason := if 0 <= urgency < 7 then CLOSE_REASONS[urgency] else "";
    CloseCandidate(urgency, CashResult(p, o), p.openedAt, Close(o, p.id, reason, CashResult(p, o)))
  }

  /** What one position contributes, from its own quote. */
  lemma ContributesExactly(t: Tick, p: Position, x: CloseCandidate)
    requires p in t.positions && InScope(t.config, p)
    ensures Contributes(t, p, x) <==>
      exists o :: Closable(t, p, o) && FirstDue(t.config, p, o, t.now, x.rank)
        && x == CandidateFor(p, o, x.rank)
  {
    var q := Quoted(t.config, t.opportunities, p.Key());
    if CanClose(t, p) {
      QuotedMarket(t.config, t.opportunities, p, q.value);
      EstimateIsCash(p, q.value);
      FirstTriggerIsDue(t.config, p, q.value, t.now, x.rank);
    }
    forall o | Closable(t, p, o) ensures q == Some(o) && CanClose(t, p) {
      QuotedMarket(t.config, t.opportunities, p, o);
    }
  }

  /** The dictionary entry for a position's key is the last opportunity of its market. */
  lemma {:induction false} QuotedMarket(c: Config, opportunities: seq<Opportunity>, p: Position, o: Opportunity)
    requires InScope(c, p)
    ensures Quoted(c, opportunities, p.Key()) == Some(o) <==> LastQuote(opportunities, p, o)
  {
    if opportunities != [] {
      var n := |opportunities| - 1;
      var before, last := opportunities[..n], opportunities[n];
      if last.Key() == p.Key() {
        PairKeyInjective(last.exchange, last.baseAsset, p.exchange, p.baseAsset);
      }
      QuotedMarket(c, before, p, o);
      if OfMarket(p, last) {
        assert LastAt(opportunities, p, n);
      } else {
        LastQuoteBefore(opportunities, p, o);
      }
    }
  }

  lemma LastQuoteBefore(opportunities: seq<Opportunity>, p: Position, o: Opportunity)
    requires opportunities != [] && !OfMarket(p, opportunities[|opportunities| - 1])
    ensures LastQuote(opportunities, p, o) <==> LastQuote(opportunities[..|opportunities| - 1], p, o)
  {
    var before := opportunities[..|opportunities| - 1];
    forall i ensures LastAt(before, p, i) <==> LastAt(opportunities, p, i) {
    }
  }

  lemma MustCloseExactly(t: Tick, p: Position)
    requires p in t.positions && InScope(t.config, p)
    ensures MustClose(t, p) <==> exists o, k :: Closable(t, p, o) && Due(t.config, p, o, t.now, k)
  {
    var c := t.config;
    if MustClose(t, p) {
      var o := Quoted(c, t.opportunities, p.Key()).value;
      QuotedMarket(c, t.opportunities, p, o);
      var k :| FirstTrigger(c, p, o, t.now, k);
      TriggerIsDue(c, p, o, t.now, k);
      assert Closable(t, p, o) && Due(c, p, o, t.now, k);
    }
    if o, k :| Closable(t, p, o) && Due(c, p, o, t.now, k) {
      QuotedMarket(c, t.opportunities, p, o);
      var first := FirstReason(c, p, o, t.now, k);
      FirstTriggerIsDue(c, p, o, t.now, first);
    }
  }

  /** Something due has a first reason. */
  lemma {:induction false} FirstReason(c: Config, p: Position, o: Opportunity, now: Time, k: int) returns (first: int)
    requires Due(c, p, o, now, k)
    ensures FirstDue(c, p, o, now, first)
    decreases k
  {
    if j :| j < k && Due(c, p, o, now, j) {
      first := FirstReason(c, p, o, now, j);
    } else {
      first := k;
    }
  }

  /** A close is decided exactly when some position that can be closed is due. */
  lemma ClosesExactlyWhenDue(t: Tick, e: Evaluation)
    requires t.config.bookCapacityMultiple > 0.0 && Answers(t, e)
    ensures e.Decided? && e.decision.Close? <==>
      exists p, o, k :: Closable(t, p, o) && Due(t.config, p, o, t.now, k)
  {
    ClosePreempts(t, e);
    if p :| p in t.positions && InScope(t.config, p) && MustClose(t, p) {
      MustCloseExactly(t, p);
    }
    if p, o, k :| Closable(t, p, o) && Due(t.config, p, o, t.now, k) {
      MustCloseExactly(t, p);
    }
  }

  /** Of all closes due, the most urgent; then the one with the lowest cash result; then
      the oldest. */
  ghost predicate MostUrgent(t: Tick, p: Position, o: Opportunity, k: int) {
    && Closable(t, p, o) && FirstDue(t.config, p, o, t.now, k)
    && forall p', o', k' :: Closable(t, p', o') && FirstDue(t.config, p', o', t.now, k') ==>
         || k < k'
         || (k == k' && CashResult(p, o) < CashResult(p', o'))
         || (k == k' && CashResult(p, o) == CashResult(p', o') && p.openedAt <= p'.openedAt)
  }

  /** The close that is decided is the most urgent one, and the estimate it carries is what
      selling the spot leg and buying back the perpetual leg brings in. */
  lemma ClosePaysOut(t: Tick, e: Evaluation)
    requires t.config.bookCapacityMultiple > 0.0 && Answers(t, e)
    requires e.Decided? && e.decision.Close?
    ensures exists p, k :: MostUrgent(t, p, e.decision.opportunity, k) && e.decision == CandidateFor(p, e.decision.opportunity, k).decision
  {
    ClosePreempts(t, e);
    var p, x :| LeastClose(t, p, x) && e.decision == x.decision;
    ContributesExactly(t, p, x);
    var o :| Closable(t, p, o) && FirstDue(t.config, p, o, t.now, x.rank) && x == CandidateFor(p, o, x.rank);
    forall p', o', k' | Closable(t, p', o') && FirstDue(t.config, p', o', t.now, k')
      ensures CloseLeq(x, CandidateFor(p', o', k'))
    {
      ContributesExactly(t, p', CandidateFor(p', o', k'));
    }
    assert MostUrgent(t, p, o, x.rank);
  }

  // ---------- when an open is decided ----------

  /** Every rule for opening `o`, and room for the least notional in each of the caps. */
  ghost predicate OpenAllowed(t: Tick, o: Opportunity) {
    var c := t.config;
    && o in t.opportunities && o.exchange in c.enabledExchanges && o.Key() !in t.blockedOpenKeys && Fresh(o, t.now)
    && o.apr24h.Some? && o.apr7d.Some? && o.netReturn.Some?
    && c.minimumCurrentApr <= o.currentApr && c.minimumApr24h <= o.apr24h.value && c.minimumApr7d <= o.apr7d.value
    && c.minimumNetReturn <= o.netReturn.value
    && c.minimumOpeningBasis <= o.executableBasis <= c.maximumOpeningBasis
    && (forall p :: p in t.positions && p.environment == c.environment && OfMarket(p, o) ==>
          && (p.quantity > 0.0 ==> p.status == Closed)
          && (p.closedAt.Some? ==> p.closedAt.value + c.minimumReentryMinutes as real * 60.0 <= t.now))
    && Affords(t, o, c.minimumTwoLegNotional)
  }

  /** A trade of `n` is within every cap: its own, the book's, the exchange's, the global one. */
  ghost predicate Affords(t: Tick, o: Opportunity, n: real) {
    && n <= t.config.notionalPerTrade
    && n * t.config.bookCapacityMultiple <= o.topBookNotional
    && Sum(ExposureOn(o.exchange), Scoped(t)) + n <= t.config.perExchangeMaxExposure
    && Sum(ExposureOf, Scoped(t)) + n <= t.config.globalMaxExposure
  }

  lemma AffordsExactly(t: Tick, o: Opportunity, n: real)
    requires t.config.bookCapacityMultiple > 0.0
    ensures Affords(t, o, n) <==> n <= BoundedNotional(t, o)
  {
    DivideThenMultiply(o.topBookNotional, t.config.bookCapacityMultiple);
    MultiplyBoth(n, o.topBookNotional / t.config.bookCapacityMultiple, t.config.bookCapacityMultiple);
  }

  lemma OpenableExactly(t: Tick, o: Opportunity)
    requires t.config.bookCapacityMultiple > 0.0 && o in t.opportunities
    ensures Openable(t, o) <==> OpenAllowed(t, o)
  {
    AffordsExactly(t, o, t.config.minimumTwoLegNotional);
    if o.exchange in t.config.enabledExchanges {
      SameMarket(t, o);
    }
  }

  lemma SameMarket(t: Tick, o: Opportunity)
    requires o.exchange in t.config.enabledExchanges
    ensures forall p: Position ::
      InScope(t.config, p) && p.Key() == o.Key() <==> p.environment == t.config.environment && OfMarket(p, o)
  {
    forall p: Position ensures p.Key() == o.Key() <==> OfMarket(p, o) {
      if p.Key() == o.Key() {
        PairKeyInjective(p.exchange, p.baseAsset, o.exchange, o.baseAsset);
      }
    }
  }

  /** No loss beyond the daily limit, and fewer positions held than allowed. */
  ghost predicate MayOpen(t: Tick) {
    && -t.config.dailyMaxLoss < t.dailyRealizedPnl
    && Count(ActiveBy(), Scoped(t)) < t.config.maxConcurrentPositions
  }

  /** The highest net return first, except that zero comes last; then the highest current
      APR; then the names in order. */
  ghost predicate Preferred(o: Opportunity, x: Opportunity)
    requires o.netReturn.Some? && x.netReturn.Some?
  {
    var a, b := o.netReturn.value, x.netReturn.value;
    if a != b then a != 0.0 && (b == 0.0 || b < a)
    else if o.currentApr != x.currentApr then x.currentApr < o.currentApr
    else if o.exchange != x.exchange then StringLeq(o.exchange.Value(), x.exchange.Value())
    else StringLeq(o.baseAsset, x.baseAsset)
  }

  /** An open is decided exactly when no close is due, the portfolio may open, and some
      opportunity is allowed. The preferred one is opened, with the greatest notional that
      is within every cap. */
  lemma OpensExactly(t: Tick, e: Evaluation)
    requires t.config.bookCapacityMultiple > 0.0 && Answers(t, e)
    ensures e.Decided? && e.decision.OpenTrade? <==>
      && MayOpen(t)
      && !(exists p, o, k :: Closable(t, p, o) && Due(t.config, p, o, t.now, k))
      && exists o :: OpenAllowed(t, o)
    ensures e.Decided? && e.decision.OpenTrade? ==>
      var o, n := e.decision.opportunity, e.decision.notional;
      && OpenAllowed(t, o) && Affords(t, o, n) && t.config.minimumTwoLegNotional <= n
      && (forall m :: Affords(t, o, m) ==> m <= n)
      && (forall x :: OpenAllowed(t, x) ==> Preferred(o, x))
  {
    ClosesExactlyWhenDue(t, e);
    if !(e.Decided? && e.decision.Close?) {
      forall x: Opportunity ensures OpenAllowed(t, x) ==> x in t.opportunities && Openable(t, x) {
        if x in t.opportunities {
          OpenableExactly(t, x);
        }
      }
      if MayOpen(t) {
        OpensExactlyWhenPossible(t, e);
        if e.Decided? {
          OpenedIsPreferred(t, e.decision.opportunity, e.decision.notional);
        } else if o :| o in t.opportunities && Openable(t, o) {
          OpenableExactly(t, o);
        }
      }
    }
  }

  lemma OpenedIsPreferred(t: Tick, o: Opportunity, n: real)
    requires t.config.bookCapacityMultiple > 0.0 && FirstInRank(t, o) && n == BoundedNotional(t, o)
    ensures OpenAllowed(t, o) && Affords(t, o, n) && t.config.minimumTwoLegNotional <= n
    ensures forall m :: Affords(t, o, m) ==> m <= n
    ensures forall x :: OpenAllowed(t, x) ==> Preferred(o, x)
  {
    OpenableExactly(t, o);
    forall m ensures Affords(t, o, m) <==> m <= n {
      AffordsExactly(t, o, m);
    }
    forall x | OpenAllowed(t, x) ensures Preferred(o, x) {
      OpenableExactly(t, x);
      assert RankLeq(o, x);
    }
  }

  // ---------- both legs fit the quoted book ----------

  /** The opportunity shows the prices of the quote, and of each side of the book the least
      value that can be traded there at once. */
  ghost predicate Shows(o: Opportunity, quote: MarketQuote) {
    && o.spotBid == quote.spotBid && o.spotAsk == quote.spotAsk && o.perpBid == quote.perpBid && o.perpAsk == quote.perpAsk
    && o.observedAt == quote.observedAt
    && o.topBookNotional <= quote.spotAsk * quote.spotAskQty && o.topBookNotional <= quote.perpBid * quote.perpBidQty
    && o.topBookNotional in {quote.spotAsk * quote.spotAskQty, quote.perpBid * quote.perpBidQty}
    && o.closeTopBookNotional <= quote.spotBid * quote.spotBidQty && o.closeTopBookNotional <= quote.perpAsk * quote.perpAskQty
    && o.closeTopBookNotional in {quote.spotBid * quote.spotBidQty, quote.perpAsk * quote.perpAskQty}
    && o.spotAsk * (1.0 + o.executableBasis) == o.perpBid
  }

  lemma BuiltShowsQuote(
    pair: InstrumentPair, quote: MarketQuote, current: FundingObservation, history: seq<FundingObservation>,
    fee: FeeRate, holdingDays: int, now: Time, before: Opportunity)
    ensures var built := BuildOpportunity(pair, quote, current, history, fee, holdingDays, now);
      built.Some? ==>
        && Shows(built.value, quote)
        && built.value.Key() == pair.Key()
        && built.value.spotTakerFee == fee.spotTaker && built.value.perpTakerFee == fee.perpTaker
    ensures var refreshed := OpportunityWithExecutableQuote(before, quote);
      refreshed.Some? ==> Shows(refreshed.value, quote)
  {
    if quote.spotAsk != 0.0 {
      DivideThenMultiply(quote.perpBid, quote.spotAsk);
      Distribute(1.0, quote.perpBid / quote.spotAsk - 1.0, quote.spotAsk);
    }
  }

  /** What `n` buys of the asset, `multiple` times over, is offered and asked for. */
  ghost predicate DeepEnough(quote: MarketQuote, n: real, multiple: real) {
    && quote.spotAsk > 0.0 && n / quote.spotAsk * multiple <= quote.spotAskQty
    && quote.perpBid > 0.0 && n / quote.perpBid * multiple <= quote.perpBidQty
  }

  lemma OpenHas(t: Tick, e: Evaluation)
    requires t.config.bookCapacityMultiple > 0.0 && Answers(t, e) && e.Decided? && e.decision.OpenTrade?
    ensures Affords(t, e.decision.opportunity, e.decision.notional)
    ensures Fresh(e.decision.opportunity, t.now)
  {
    OpensExactly(t, e);
  }

  /** A decided open can be bought and sold at the best prices, the multiple of the book
      capacity over. */
  lemma OpenFitsTheBook(t: Tick, e: Evaluation, quote: MarketQuote)
    requires t.config.bookCapacityMultiple > 0.0 && Answers(t, e) && e.Decided? && e.decision.OpenTrade?
    requires Shows(e.decision.opportunity, quote)
    ensures DeepEnough(quote, e.decision.notional, t.config.bookCapacityMultiple)
  {
    OpenHas(t, e);
    AffordableFits(t, e.decision.opportunity, e.decision.notional, quote);
  }

  lemma AffordableFits(t: Tick, o: Opportunity, n: real, quote: MarketQuote)
    requires Affords(t, o, n) && Shows(o, quote) && quote.spotAsk > 0.0 && quote.perpBid > 0.0
    ensures DeepEnough(quote, n, t.config.bookCapacityMultiple)
  {
    FitsSide(n, t.config.bookCapacityMultiple, quote.spotAsk, quote.spotAskQty);
    FitsSide(n, t.config.bookCapacityMultiple, quote.perpBid, quote.perpBidQty);
  }

  /** A decided close can be sold and bought back at the best prices. */
  lemma CloseFitsTheBook(t: Tick, e: Evaluation, quote: MarketQuote)
    requires t.config.bookCapacityMultiple > 0.0 && Answers(t, e) && e.Decided? && e.decision.Close?
    requires Shows(e.decision.opportunity, quote)
    ensures exists p :: p in t.positions && p.id == e.decision.positionId && CoveredBy(p, quote)
  {
    ClosePaysOut(t, e);
    var p, k :| MostUrgent(t, p, e.decision.opportunity, k) && e.decision == CandidateFor(p, e.decision.opportunity, k).decision;
    ClosableIsCovered(t, p, e.decision.opportunity, quote);
  }

  ghost predicate CoveredBy(p: Position, quote: MarketQuote) {
    p.quantity <= quote.spotBidQty && p.quantity <= quote.perpAskQty
  }

  lemma ClosableIsCovered(t: Tick, p: Position, o: Opportunity, quote: MarketQuote)
    requires Closable(t, p, o) && Shows(o, quote)
    ensures CoveredBy(p, quote)
  {
    MultiplyBoth(p.quantity, quote.spotBidQty, quote.spotBid);
    MultiplyBoth(p.quantity, quote.perpAskQty, quote.perpAsk);
  }

  lemma FitsSide(n: real, multiple: real, price: real, quantity: real)
    requires price > 0.0 && n * multiple <= price * quantity
    ensures n / price * multiple <= quantity
  {
    DivideThenMultiply(n, price);
    Reassociate(n / price, price, multiple);
    Reassociate(n / price, multiple, price);
    MultiplyBoth(n / price * multiple, quantity, price);
  }
}
