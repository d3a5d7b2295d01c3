/** The automatic strategy evaluator (automation.py): what it must decide, and
    the code that decides it. */
module Automation {
  import opened Models
  import opened Sorting
  import opened Text

  // ---------- configuration and records ----------

  datatype Config = Config(
    environment: Environment,
    enabledExchanges: set<Exchange>,
    notionalPerTrade: real,
    perExchangeMaxExposure: real,
    globalMaxExposure: real,
    maxConcurrentPositions: int,
    minimumCurrentApr: real,
    minimumApr24h: real,
    minimumApr7d: real,
    minimumNetReturn: real,
    minimumOpeningBasis: real,
    maximumOpeningBasis: real,
    minimumTwoLegNotional: real,
    bookCapacityMultiple: real,
    normalMaxSlippage: real,
    emergencyMaxSlippage: real,
    dailyMaxLoss: real,
    minimumReentryMinutes: int,
    maximumHoldingHours: int,
    minimumLiquidationBuffer: real,
    closeFundingRateBelow: real,
    closeNetReturnBelow: real,
    closeBasisAbove: real,
    takeProfitUsdt: real,
    stopLossUsdt: real)

  /** The field bounds and cross-field checks of `AutoStrategyConfig` used here. */
  predicate ValidConfig(c: Config) {
    && c.environment != Paper
    && c.enabledExchanges != {}
    && 0.0 < c.minimumTwoLegNotional <= c.notionalPerTrade <= c.perExchangeMaxExposure <= c.globalMaxExposure
    && 1 <= c.maxConcurrentPositions <= 1000
    && -1.0 < c.minimumOpeningBasis <= c.maximumOpeningBasis < 1.0
    && 1.0 <= c.bookCapacityMultiple <= 100.0
    && 0.0 < c.normalMaxSlippage <= c.emergencyMaxSlippage <= 0.25
    && c.normalMaxSlippage <= 0.1
    && 0.0 < c.dailyMaxLoss
    && 0 <= c.minimumReentryMinutes <= 10080
    && 1 <= c.maximumHoldingHours <= 8760
    && 0.0 < c.minimumLiquidationBuffer <= 1.0
    && 0.0 < c.takeProfitUsdt && 0.0 < c.stopLossUsdt
  }

  datatype PositionStatus = Open | Closing | Closed

  datatype Position = Position(
    id: string,
    exchange: Exchange,
    environment: Environment,
    baseAsset: string,
    quantity: real,
    spotEntryPrice: real,
    perpEntryPrice: real,
    remainingOpeningFeesUsdt: real,
    status: PositionStatus,
    openedAt: Time,
    closedAt: Option<Time>,
    liquidationBuffer: Option<real>)
  {
    function Key(): string { PairKey(exchange, baseAsset) }

    predicate Active() { status in {Open, Closing} && quantity > 0.0 }
  }

  datatype Decision =
    | Close(opportunity: Opportunity, positionId: string, reason: string, estimatedNetPnl: real)
    | OpenTrade(opportunity: Opportunity, notional: real)

  datatype Evaluation = Decided(decision: Decision) | Blocked(reason: string)

  const DAILY_LOSS := "daily realized loss limit was reached"
  const TOO_MANY := "maximum concurrent positions was reached"
  const NO_OPPORTUNITY := "no opportunity satisfies every opening rule"

  const CLOSE_REASONS: seq<string> := [
    "liquidation buffer is below the configured minimum",
    "estimated net PnL reached the stop loss",
    "maximum holding period was reached",
    "current funding rate crossed the close threshold",
    "estimated net return crossed the close threshold",
    "executable closing basis crossed the close threshold",
    "estimated net PnL reached the take profit"]

  /** Everything one evaluation looks at. */
  datatype Tick = Tick(
    config: Config,
    opportunities: seq<Opportunity>,
    positions: seq<Position>,
    dailyRealizedPnl: real,
    blockedOpenKeys: set<string>,
    now: Time)

  // ---------- shared conditions ----------

  predicate TradableQuote(o: Opportunity, now: Time) {
    && o.quality == Healthy
    && o.observedAt <= now + 5.0
    && now - o.observedAt <= 15.0
    && o.spotBid > 0.0 && o.spotAsk > 0.0 && o.perpBid > 0.0 && o.perpAsk > 0.0
  }

  predicate InScope(c: Config, p: Position) {
    p.environment == c.environment && p.exchange in c.enabledExchanges
  }

  function InScopeBy(c: Config): Position -> bool { p => InScope(c, p) }

  function Scoped(t: Tick): seq<Position> { Filter(InScopeBy(t.config), t.positions) }

  /** The dictionary entry for a key: the last enabled opportunity that carries it. */
  function Quoted(c: Config, opportunities: seq<Opportunity>, key: string): Option<Opportunity> {
    if opportunities == [] then None
    else
      var last := opportunities[|opportunities| - 1];
      if last.exchange in c.enabledExchanges && last.Key() == key then Some(last)
      else Quoted(c, opportunities[..|opportunities| - 1], key)
  }

  ghost predicate DistinctKeys(opportunities: seq<Opportunity>) {
    forall i, j :: 0 <= i < j < |opportunities| ==> opportunities[i].Key() != opportunities[j].Key()
  }

  // ---------- when a position must be closed ----------

  function EstimatedNetPnl(p: Position, o: Opportunity): real {
    (o.spotBid - p.spotEntryPrice + p.perpEntryPrice - o.perpAsk) * p.quantity
    - p.remainingOpeningFeesUsdt
    - (p.quantity * o.spotBid * o.spotTakerFee + p.quantity * o.perpAsk * o.perpTakerFee)
  }

  /** The `k`-th close trigger, on its own. */
  predicate Trigger(c: Config, p: Position, o: Opportunity, now: Time, k: int)
    requires o.spotBid > 0.0
  {
    match k
    case 0 => p.liquidationBuffer.Some? && p.liquidationBuffer.value < c.minimumLiquidationBuffer
    case 1 => EstimatedNetPnl(p, o) <= -c.stopLossUsdt
    case 2 => now - p.openedAt >= c.maximumHoldingHours as real * HOUR
    case 3 => o.currentFundingRate < c.closeFundingRateBelow
    case 4 => o.netReturn.Some? && o.netReturn.value < c.closeNetReturnBelow
    case 5 => (o.perpAsk - o.spotBid) / o.spotBid > c.closeBasisAbove
    case 6 => EstimatedNetPnl(p, o) >= c.takeProfitUsdt
    case _ => false
  }

  /** `k` is the first trigger that holds. */
  ghost predicate FirstTrigger(c: Config, p: Position, o: Opportunity, now: Time, k: int)
    requires o.spotBid > 0.0
  {
    && 0 <= k < 7 && Trigger(c, p, o, now, k)
    && forall j :: 0 <= j < k ==> !Trigger(c, p, o, now, j)
  }

  /** An open position with a tradable quote that can absorb it. */
  predicate CanClose(t: Tick, p: Position) {
    && p.status == Open && p.quantity > 0.0
    && var q := Quoted(t.config, t.opportunities, p.Key());
       q.Some? && TradableQuote(q.value, t.now)
       && p.quantity * q.value.spotBid <= q.value.closeTopBookNotional
       && p.quantity * q.value.perpAsk <= q.value.closeTopBookNotional
  }

  datatype CloseCandidate = CloseCandidate(rank: int, estimatedNetPnl: real, openedAt: Time, decision: Decision)

  predicate CloseLeq(a: CloseCandidate, b: CloseCandidate) {
    a.rank < b.rank || (a.rank == b.rank &&
    (a.estimatedNetPnl < b.estimatedNetPnl || (a.estimatedNetPnl == b.estimatedNetPnl &&
    a.openedAt <= b.openedAt)))
  }

  ghost predicate MustClose(t: Tick, p: Position) {
    CanClose(t, p)
    && exists k :: FirstTrigger(t.config, p, Quoted(t.config, t.opportunities, p.Key()).value, t.now, k)
  }

  /** The candidate a position contributes, if it must be closed. */
  ghost predicate Contributes(t: Tick, p: Position, candidate: CloseCandidate) {
    CanClose(t, p)
    && var o := Quoted(t.config, t.opportunities, p.Key()).value;
       FirstTrigger(t.config, p, o, t.now, candidate.rank)
       && candidate.estimatedNetPnl == EstimatedNetPnl(p, o)
       && candidate.openedAt == p.openedAt
       && candidate.decision == Close(o, p.id, CLOSE_REASONS[candidate.rank], candidate.estimatedNetPnl)
  }

  // ---------- exposure ----------

  function ExposureOf(p: Position): real {
    if p.Active() then p.quantity * p.spotEntryPrice else 0.0
  }

  function ExposureOn(e: Exchange): Position -> real {
    (p: Position) => if p.exchange == e then ExposureOf(p) else 0.0
  }

  function ActiveBy(): Position -> bool { (p: Position) => p.Active() }

  function OpeningPortfolioBlock(c: Config, positions: seq<Position>, dailyRealizedPnl: real): Option<string> {
    if dailyRealizedPnl <= -c.dailyMaxLoss then Some(DAILY_LOSS)
    else if Count(ActiveBy(), positions) >= c.maxConcurrentPositions then Some(TOO_MANY)
    else None
  }

  /** The least of the four caps on one trade. */
  function BoundedNotional(t: Tick, o: Opportunity): real
    requires t.config.bookCapacityMultiple > 0.0
  {
    MinReal(
      MinReal(t.config.notionalPerTrade, o.topBookNotional / t.config.bookCapacityMultiple),
      MinReal(
        t.config.perExchangeMaxExposure - Sum(ExposureOn(o.exchange), Scoped(t)),
        t.config.globalMaxExposure - Sum(ExposureOf, Scoped(t))))
  }

  // ---------- which opportunity may be opened ----------

  /** Every opening rule, for the positions given. */
  ghost predicate PassesOpeningRules(c: Config, positions: seq<Position>, blocked: set<string>, now: Time, o: Opportunity) {
    && o.exchange in c.enabledExchanges
    && o.Key() !in blocked
    && TradableQuote(o, now)
    && o.apr24h.Some? && o.apr7d.Some? && o.netReturn.Some?
    && o.currentApr >= c.minimumCurrentApr
    && o.apr24h.value >= c.minimumApr24h
    && o.apr7d.value >= c.minimumApr7d
    && o.netReturn.value >= c.minimumNetReturn
    && c.minimumOpeningBasis <= o.executableBasis <= c.maximumOpeningBasis
    && forall p :: p in positions && InScope(c, p) && p.Key() == o.Key() ==>
         && !p.Active()
         && (p.closedAt.Some? ==> now - p.closedAt.value >= c.minimumReentryMinutes as real * MINUTE)
  }

  ghost function PassesBy(c: Config, positions: seq<Position>, blocked: set<string>, now: Time): Opportunity -> bool {
    o => PassesOpeningRules(c, positions, blocked, now, o)
  }

  ghost predicate Openable(t: Tick, o: Opportunity)
    requires t.config.bookCapacityMultiple > 0.0
  {
    && PassesOpeningRules(t.config, t.positions, t.blockedOpenKeys, t.now, o)
    && BoundedNotional(t, o) >= t.config.minimumTwoLegNotional
  }

  /** `-(net_return or Decimal("-Infinity"))`: a net return of exactly zero sorts last. */
  predicate NetBefore(a: real, b: real) {
    if a == 0.0 then false else b == 0.0 || a > b
  }

  predicate RankLeq(a: Opportunity, b: Opportunity) {
    var na, nb := if a.netReturn.Some? then a.netReturn.value else 0.0,
                  if b.netReturn.Some? then b.netReturn.value else 0.0;
    NetBefore(na, nb) || (na == nb &&
    (a.currentApr > b.currentApr || (a.currentApr == b.currentApr &&
    (if a.exchange == b.exchange then StringLeq(a.baseAsset, b.baseAsset)
     else StringLeq(a.exchange.Value(), b.exchange.Value())))))
  }

  // ---------- the decision ----------

  ghost predicate BestClose(t: Tick, i: int, candidate: CloseCandidate) {
    && 0 <= i < |Scoped(t)| && Contributes(t, Scoped(t)[i], candidate)
    && (forall j, other :: 0 <= j < |Scoped(t)| && Contributes(t, Scoped(t)[j], other) ==>
          CloseLeq(candidate, other) && (j < i ==> !CloseLeq(other, candidate)))
  }

  ghost predicate BestOpen(t: Tick, i: int)
    requires t.config.bookCapacityMultiple > 0.0
  {
    && 0 <= i < |t.opportunities| && Openable(t, t.opportunities[i])
    && (forall j :: 0 <= j < |t.opportunities| && Openable(t, t.opportunities[j]) ==>
          RankLeq(t.opportunities[i], t.opportunities[j])
          && (j < i ==> !RankLeq(t.opportunities[j], t.opportunities[i])))
  }

  ghost predicate NothingToClose(t: Tick) {
    forall p :: p in Scoped(t) ==> !MustClose(t, p)
  }

  /** What the evaluator must answer, stated without saying how it is found. */
  ghost predicate Answers(t: Tick, e: Evaluation)
    requires t.config.bookCapacityMultiple > 0.0
  {
    match e
    case Decided(Close(_, _, _, _)) =>
      exists i, candidate :: BestClose(t, i, candidate) && e.decision == candidate.decision
    case Decided(OpenTrade(o, n)) =>
      && NothingToClose(t)
      && OpeningPortfolioBlock(t.config, Scoped(t), t.dailyRealizedPnl).None?
      && exists i :: BestOpen(t, i) && o == t.opportunities[i] && n == BoundedNotional(t, o)
    case Blocked(reason) =>
      && NothingToClose(t)
      && match OpeningPortfolioBlock(t.config, Scoped(t), t.dailyRealizedPnl)
         case Some(r) => reason == r
         case None => reason == NO_OPPORTUNITY && forall o :: o in t.opportunities ==> !Openable(t, o)
  }

  // ---------- orders ----------

  lemma RankIsTotalPreorder()
    ensures TotalPreorder(RankLeq)
  {
    forall a, b ensures RankLeq(a, b) || RankLeq(b, a) {
      StringLeqTotal(a.exchange.Value(), b.exchange.Value());
      StringLeqTotal(a.baseAsset, b.baseAsset);
    }
    forall a, b, c | RankLeq(a, b) && RankLeq(b, c) ensures RankLeq(a, c) {
      RankTransitive(a, b, c);
    }
  }

  lemma ExchangeNamesDiffer(e: Exchange, e': Exchange)
    requires StringLeq(e.Value(), e'.Value()) && StringLeq(e'.Value(), e.Value())
    ensures e == e'
  {
    StringLeqTotal(e.Value(), e'.Value());
    assert e.Value() + ":" == e'.Value() + ":";
    PairKeyInjective(e, "", e', "");
  }

  lemma RankTransitive(a: Opportunity, b: Opportunity, c: Opportunity)
    requires RankLeq(a, b) && RankLeq(b, c)
    ensures RankLeq(a, c)
  {
    if StringLeq(a.exchange.Value(), b.exchange.Value()) && StringLeq(b.exchange.Value(), c.exchange.Value()) {
      StringLeqTransitive(a.exchange.Value(), b.exchange.Value(), c.exchange.Value());
      if a.exchange == c.exchange {
        ExchangeNamesDiffer(a.exchange, b.exchange);
      }
    }
    if StringLeq(a.baseAsset, b.baseAsset) && StringLeq(b.baseAsset, c.baseAsset) {
      StringLeqTransitive(a.baseAsset, b.baseAsset, c.baseAsset);
    }
  }

  /** Ties in the rank are the same market. */
  lemma RankTie(a: Opportunity, b: Opportunity)
    requires RankLeq(a, b) && RankLeq(b, a)
    ensures a.Key() == b.Key()
  {
    StringLeqTotal(a.baseAsset, b.baseAsset);
    if a.exchange != b.exchange {
      ExchangeNamesDiffer(a.exchange, b.exchange);
    }
  }

  lemma CloseIsTotalPreorder()
    ensures TotalPreorder(CloseLeq)
  {
  }
}
