/** The loops of `evaluate_automatic_strategy` and `_opening_rule_candidates`,
    proved to give the answer that `Automation.Answers` demands. */
module Evaluator {
  import opened Models
  import opened Sorting
  import opened Automation

  // ---------- what the working dictionaries hold ----------

  ghost predicate ActiveKeysOf(c: Config, positions: seq<Position>, keys: set<string>) {
    && (forall p :: p in positions && InScope(c, p) && p.Active() ==> p.Key() in keys)
    && (forall k :: k in keys ==> exists p :: p in positions && InScope(c, p) && p.Active() && p.Key() == k)
  }

  ghost predicate ClosedOn(c: Config, p: Position, key: string) {
    InScope(c, p) && !p.Active() && p.closedAt.Some? && p.Key() == key
  }

  ghost predicate LastClosedOf(c: Config, positions: seq<Position>, last: map<string, Time>) {
    && (forall p :: p in positions && ClosedOn(c, p, p.Key()) ==> p.Key() in last && p.closedAt.value <= last[p.Key()])
    && (forall k :: k in last ==> exists p :: p in positions && ClosedOn(c, p, k) && p.closedAt.value == last[k])
  }

  ghost predicate Dictionary(c: Config, opportunities: seq<Opportunity>, byKey: map<string, Opportunity>) {
    forall k :: Quoted(c, opportunities, k) == if k in byKey then Some(byKey[k]) else None
  }

  lemma DictionaryStep(c: Config, opportunities: seq<Opportunity>, i: int, byKey: map<string, Opportunity>)
    requires 0 <= i < |opportunities| && Dictionary(c, opportunities[..i], byKey)
    ensures Dictionary(c, opportunities[..i + 1],
              if opportunities[i].exchange in c.enabledExchanges
              then byKey[opportunities[i].Key() := opportunities[i]] else byKey)
  {
    TakeStep(opportunities, i);
    assert opportunities[..i + 1][|opportunities[..i + 1]| - 1] == opportunities[i];
  }

  /** `now - last_closed >= wait` says the same of every earlier close of the key. */
  lemma ReentryRule(c: Config, positions: seq<Position>, keys: set<string>, last: map<string, Time>, now: Time, o: Opportunity)
    requires ActiveKeysOf(c, positions, keys) && LastClosedOf(c, positions, last)
    ensures (o.Key() !in keys
             && (o.Key() in last ==> now - last[o.Key()] >= c.minimumReentryMinutes as real * MINUTE))
         <==> (forall p :: p in positions && InScope(c, p) && p.Key() == o.Key() ==>
                !p.Active()
                && (p.closedAt.Some? ==> now - p.closedAt.value >= c.minimumReentryMinutes as real * MINUTE))
  {
  }

  // ---------- _opening_rule_candidates ----------

  method OpeningRuleCandidates(
    c: Config, opportunities: seq<Opportunity>, positions: seq<Position>, blockedOpenKeys: set<string>, now: Time)
    returns (candidates: seq<Opportunity>)
    ensures candidates == Sort(RankLeq, Filter(PassesBy(c, positions, blockedOpenKeys, now), opportunities))
  {
    var activeKeys: set<string> := {};
    var lastClosedByKey: map<string, Time> := map[];
    for i := 0 to |positions|
      invariant ActiveKeysOf(c, positions[..i], activeKeys)
      invariant LastClosedOf(c, positions[..i], lastClosedByKey)
    {
      TakeStep(positions, i);
      var position := positions[i];
      if position.environment != c.environment || position.exchange !in c.enabledExchanges {
        continue;
      }
      var key := position.Key();
      if position.Active() {
        activeKeys := activeKeys + {key};
      } else if position.closedAt.Some? {
        var closedAt := position.closedAt.value;
        var known := if key in lastClosedByKey then lastClosedByKey[key] else closedAt;
        ghost var before := lastClosedByKey;
        lastClosedByKey := lastClosedByKey[key := MaxReal(known, closedAt)];
        LastClosedStep(c, positions[..i], position, before, lastClosedByKey);
      }
    }
    assert positions[..|positions|] == positions;
    ghost var passes := PassesBy(c, positions, blockedOpenKeys, now);
    candidates := [];
    for i := 0 to |opportunities|
      invariant candidates == Filter(passes, opportunities[..i])
    {
      var o := opportunities[i];
      TakeStep(opportunities, i);
      FilterAppend(passes, opportunities[..i], [o]);
      ReentryRule(c, positions, activeKeys, lastClosedByKey, now, o);
      assert Filter(passes, [o]) == if passes(o) then [o] else [];
      if o.exchange !in c.enabledExchanges
         || o.Key() in blockedOpenKeys
         || o.Key() in activeKeys
         || !TradableQuote(o, now)
         || o.apr24h.None?
         || o.apr7d.None?
         || o.netReturn.None?
         || o.currentApr < c.minimumCurrentApr
         || o.apr24h.value < c.minimumApr24h
         || o.apr7d.value < c.minimumApr7d
         || o.netReturn.value < c.minimumNetReturn
         || o.executableBasis < c.minimumOpeningBasis
         || o.executableBasis > c.maximumOpeningBasis
      {
        continue;
      }
      if o.Key() in lastClosedByKey
         && now - lastClosedByKey[o.Key()] < c.minimumReentryMinutes as real * MINUTE
      {
        continue;
      }
      candidates := candidates + [o];
    }
    assert opportunities[..|opportunities|] == opportunities;
    candidates := Sort(RankLeq, candidates);
  }

  lemma LastClosedStep(c: Config, done: seq<Position>, q: Position, before: map<string, Time>, after: map<string, Time>)
    requires LastClosedOf(c, done, before)
    requires ClosedOn(c, q, q.Key())
    requires after == before[q.Key() := MaxReal(if q.Key() in before then before[q.Key()] else q.closedAt.value, q.closedAt.value)]
    ensures LastClosedOf(c, done + [q], after)
  {
    var key, at := q.Key(), q.closedAt.value;
    forall p | p in done + [q] && ClosedOn(c, p, p.Key())
      ensures p.Key() in after && p.closedAt.value <= after[p.Key()]
    {
      if p in done {
        assert p.closedAt.value <= before[p.Key()];
      }
    }
    forall k | k in after
      ensures exists p :: p in done + [q] && ClosedOn(c, p, k) && p.closedAt.value == after[k]
    {
      if k in before && after[k] == before[k] {
        var p :| p in done && ClosedOn(c, p, k) && p.closedAt.value == before[k];
        assert p in done + [q];
      } else {
        assert q in done + [q] && ClosedOn(c, q, k) && q.closedAt.value == after[k];
      }
    }
  }

  // ---------- the close half ----------

  /** The candidate for one position, as the loop body builds it. */
  method CloseCandidateFor(t: Tick, byKey: map<string, Opportunity>, position: Position) returns (found: Option<CloseCandidate>)
    requires Dictionary(t.config, t.opportunities, byKey)
    ensures found.Some? <==> MustClose(t, position)
    ensures found.Some? ==> Contributes(t, position, found.value)
  {
    found := None;
    var quote := ClosingQuote(t, byKey, position);
    if quote.None? {
      return;
    }
    var o := quote.value;
    var estimatedNetPnl := EstimateNetPnl(position, o);
    var trigger := TriggerFor(t.config, position, o, t.now, estimatedNetPnl);
    if trigger.None? {
      return;
    }
    var rank := trigger.value;
    found := Some(CloseCandidate(rank, estimatedNetPnl, position.openedAt,
                                 Close(o, position.id, CLOSE_REASONS[rank], estimatedNetPnl)));
  }

  /** The quote an open position can be closed at, if there is one deep enough. */
  method ClosingQuote(t: Tick, byKey: map<string, Opportunity>, position: Position) returns (quote: Option<Opportunity>)
    requires Dictionary(t.config, t.opportunities, byKey)
    ensures quote.Some? <==> CanClose(t, position)
    ensures quote.Some? ==> quote == Quoted(t.config, t.opportunities, position.Key())
  {
    assert Quoted(t.config, t.opportunities, position.Key())
        == if position.Key() in byKey then Some(byKey[position.Key()]) else None;
    if position.status != Open || position.quantity <= 0.0 {
      return None;
    }
    if position.Key() !in byKey || !TradableQuote(byKey[position.Key()], t.now) {
      return None;
    }
    var o := byKey[position.Key()];
    var requiredCapacity := MaxReal(position.quantity * o.spotBid, position.quantity * o.perpAsk);
    if requiredCapacity > o.closeTopBookNotional {
      return None;
    }
    return Some(o);
  }

  method EstimateNetPnl(position: Position, o: Opportunity) returns (estimatedNetPnl: real)
    ensures estimatedNetPnl == EstimatedNetPnl(position, o)
  {
    var closingFees := position.quantity * o.spotBid * o.spotTakerFee + position.quantity * o.perpAsk * o.perpTakerFee;
    estimatedNetPnl :=
      (o.spotBid - position.spotEntryPrice + position.perpEntryPrice - o.perpAsk) * position.quantity
      - position.remainingOpeningFeesUsdt
      - closingFees;
  }

  /** The chain of close conditions. */
  method TriggerFor(c: Config, position: Position, o: Opportunity, now: Time, estimatedNetPnl: real)
    returns (trigger: Option<int>)
    requires o.spotBid > 0.0 && estimatedNetPnl == EstimatedNetPnl(position, o)
    ensures trigger.None? <==> forall k :: !FirstTrigger(c, position, o, now, k)
    ensures trigger.Some? ==> FirstTrigger(c, position, o, now, trigger.value)
  {
    var closeBasis := (o.perpAsk - o.spotBid) / o.spotBid;
    trigger := None;
    if position.liquidationBuffer.Some? && position.liquidationBuffer.value < c.minimumLiquidationBuffer {
      trigger := Some(0);
    } else if estimatedNetPnl <= -c.stopLossUsdt {
      trigger := Some(1);
    } else if now - position.openedAt >= c.maximumHoldingHours as real * HOUR {
      trigger := Some(2);
    } else if o.currentFundingRate < c.closeFundingRateBelow {
      trigger := Some(3);
    } else if o.netReturn.Some? && o.netReturn.value < c.closeNetReturnBelow {
      trigger := Some(4);
    } else if closeBasis > c.closeBasisAbove {
      trigger := Some(5);
    } else if estimatedNetPnl >= c.takeProfitUsdt {
      trigger := Some(6);
    }
    if trigger.None? {
      NoTrigger(c, position, o, now);
    } else {
      assert FirstTrigger(c, position, o, now, trigger.value);
    }
  }

  lemma NoTrigger(c: Config, p: Position, o: Opportunity, now: Time)
    requires o.spotBid > 0.0
    requires !Trigger(c, p, o, now, 0) && !Trigger(c, p, o, now, 1) && !Trigger(c, p, o, now, 2)
    requires !Trigger(c, p, o, now, 3) && !Trigger(c, p, o, now, 4) && !Trigger(c, p, o, now, 5)
    requires !Trigger(c, p, o, now, 6)
    ensures forall k :: !FirstTrigger(c, p, o, now, k)
  {
  }

  lemma CandidateUnique(t: Tick, p: Position, a: CloseCandidate, b: CloseCandidate)
    requires Contributes(t, p, a) && Contributes(t, p, b)
    ensures a == b
  {
    var o := Quoted(t.config, t.opportunities, p.Key()).value;
    var ta, tb := Trigger(t.config, p, o, t.now, a.rank), Trigger(t.config, p, o, t.now, b.rank);
  }

  ghost function CandidateOf(t: Tick): Position -> Option<CloseCandidate> {
    (p: Position) => if exists x :: Contributes(t, p, x) then (var x :| Contributes(t, p, x); Some(x)) else None
  }

  lemma CandidateOfIs(t: Tick, p: Position, x: CloseCandidate)
    requires Contributes(t, p, x)
    ensures CandidateOf(t)(p) == Some(x)
  {
    CandidateUnique(t, p, x, CandidateOf(t)(p).value);
  }

  lemma NoCandidate(t: Tick, p: Position)
    requires !MustClose(t, p)
    ensures CandidateOf(t)(p).None?
  {
  }

  lemma BestCloseFound(t: Tick, candidates: seq<CloseCandidate>)
    requires candidates == Collect(CandidateOf(t), Scoped(t)) && candidates != []
    ensures |Sort(CloseLeq, candidates)| > 0
    ensures exists i :: BestClose(t, i, Sort(CloseLeq, candidates)[0])
  {
    var f, s := CandidateOf(t), Scoped(t);
    CloseIsTotalPreorder();
    SortHead(CloseLeq, candidates);
    var j :| StableLeast(CloseLeq, candidates, j) && candidates[j] == Sort(CloseLeq, candidates)[0];
    CollectStableLeast(CloseLeq, f, s, j);
    var i :| StableLeastOf(CloseLeq, f, s, i) && f(s[i]).value == candidates[j];
    var best := candidates[j];
    forall k, other | 0 <= k < |s| && Contributes(t, s[k], other)
      ensures CloseLeq(best, other) && (k < i ==> !CloseLeq(other, best))
    {
      CandidateOfIs(t, s[k], other);
    }
    assert BestClose(t, i, best);
  }

  // ---------- the open half ----------

  ghost function AffordableBy(t: Tick): Opportunity -> bool
    requires t.config.bookCapacityMultiple > 0.0
  {
    o => BoundedNotional(t, o) >= t.config.minimumTwoLegNotional
  }

  ghost function OpenableBy(t: Tick): Opportunity -> bool
    requires t.config.bookCapacityMultiple > 0.0
  {
    o => Openable(t, o)
  }

  lemma {:induction false} FilterTwice(t: Tick, positions: seq<Position>, s: seq<Opportunity>)
    requires t.config.bookCapacityMultiple > 0.0
    requires forall o :: PassesOpeningRules(t.config, positions, t.blockedOpenKeys, t.now, o)
                    <==> PassesOpeningRules(t.config, t.positions, t.blockedOpenKeys, t.now, o)
    ensures Filter(AffordableBy(t), Filter(PassesBy(t.config, positions, t.blockedOpenKeys, t.now), s))
         == Filter(OpenableBy(t), s)
  {
    if s != [] {
      FilterTwice(t, positions, s[1..]);
      var passes := PassesBy(t.config, positions, t.blockedOpenKeys, t.now);
      if passes(s[0]) {
        assert ([s[0]] + Filter(passes, s[1..]))[1..] == Filter(passes, s[1..]);
      }
    }
  }

  lemma ScopedPositionsSuffice(t: Tick)
    ensures forall o :: PassesOpeningRules(t.config, Scoped(t), t.blockedOpenKeys, t.now, o)
                   <==> PassesOpeningRules(t.config, t.positions, t.blockedOpenKeys, t.now, o)
  {
    FilterMembers(InScopeBy(t.config), t.positions);
  }

  lemma BestOpenFound(t: Tick, ranked: seq<Opportunity>, affordable: seq<Opportunity>)
    requires t.config.bookCapacityMultiple > 0.0
    requires ranked == Sort(RankLeq, Filter(PassesBy(t.config, Scoped(t), t.blockedOpenKeys, t.now), t.opportunities))
    requires affordable == Filter(AffordableBy(t), ranked)
    ensures affordable == [] ==> forall o :: o in t.opportunities ==> !Openable(t, o)
    ensures affordable != [] ==> exists i :: BestOpen(t, i) && affordable[0] == t.opportunities[i]
  {
    RankIsTotalPreorder();
    ScopedPositionsSuffice(t);
    var passing := Filter(PassesBy(t.config, Scoped(t), t.blockedOpenKeys, t.now), t.opportunities);
    FilterSort(RankLeq, AffordableBy(t), passing);
    FilterTwice(t, Scoped(t), t.opportunities);
    var openable := Filter(OpenableBy(t), t.opportunities);
    assert affordable == Sort(RankLeq, openable);
    FilterMembers(OpenableBy(t), t.opportunities);
    SortPermutes(RankLeq, openable);
    if affordable != [] {
      SortHead(RankLeq, openable);
      var j :| StableLeast(RankLeq, openable, j) && openable[j] == affordable[0];
      FilterStableLeast(RankLeq, OpenableBy(t), t.opportunities, j);
      var i :| StableLeastKept(RankLeq, OpenableBy(t), t.opportunities, i) && t.opportunities[i] == openable[j];
      assert BestOpen(t, i);
    } else {
      forall o | o in t.opportunities ensures !Openable(t, o) {
        assert o !in openable;
      }
    }
  }

  // ---------- evaluate_automatic_strategy ----------

  method EvaluateAutomaticStrategy(t: Tick) returns (evaluation: Evaluation)
    requires t.config.bookCapacityMultiple > 0.0
    ensures Answers(t, evaluation)
  {
    var c := t.config;
    var opportunityByKey := OpportunityByKey(c, t.opportunities);
    var scoped := Scoped(t);

    var closeCandidates := CloseCandidates(t, opportunityByKey, scoped);
    if closeCandidates != [] {
      BestCloseFound(t, closeCandidates);
      closeCandidates := Sort(CloseLeq, closeCandidates);
      return Decided(closeCandidates[0].decision);
    }

    var openingBlockReason := OpeningPortfolioBlock(c, scoped, t.dailyRealizedPnl);
    if openingBlockReason.Some? {
      return Blocked(openingBlockReason.value);
    }

    var ranked := OpeningRuleCandidates(c, t.opportunities, scoped, t.blockedOpenKeys, t.now);
    var candidates := BoundedCandidates(t, scoped, ranked);
    BestOpenFound(t, ranked, Filter(AffordableBy(t), ranked));
    if candidates == [] {
      return Blocked(NO_OPPORTUNITY);
    }
    var (opportunity, notional) := candidates[0];
    return Decided(OpenTrade(opportunity, notional));
  }

  method OpportunityByKey(c: Config, opportunities: seq<Opportunity>) returns (byKey: map<string, Opportunity>)
    ensures Dictionary(c, opportunities, byKey)
  {
    byKey := map[];
    for i := 0 to |opportunities|
      invariant Dictionary(c, opportunities[..i], byKey)
    {
      DictionaryStep(c, opportunities, i, byKey);
      var item := opportunities[i];
      if item.exchange in c.enabledExchanges {
        byKey := byKey[item.Key() := item];
      }
    }
    assert opportunities[..|opportunities|] == opportunities;
  }

  method CloseCandidates(t: Tick, byKey: map<string, Opportunity>, scoped: seq<Position>)
    returns (candidates: seq<CloseCandidate>)
    requires Dictionary(t.config, t.opportunities, byKey)
    ensures candidates == Collect(CandidateOf(t), scoped)
    ensures candidates == [] ==> forall p :: p in scoped ==> !MustClose(t, p)
  {
    candidates := [];
    for i := 0 to |scoped|
      invariant candidates == Collect(CandidateOf(t), scoped[..i])
      invariant candidates == [] ==> forall p :: p in scoped[..i] ==> !MustClose(t, p)
    {
      TakeStep(scoped, i);
      CollectStep(CandidateOf(t), scoped, i);
      var found := CloseCandidateFor(t, byKey, scoped[i]);
      if found.Some? {
        CandidateOfIs(t, scoped[i], found.value);
        candidates := candidates + [found.value];
      } else {
        NoCandidate(t, scoped[i]);
      }
    }
    assert scoped[..|scoped|] == scoped;
  }

  /** The ranked opportunities whose bounded notional is large enough, each with that notional. */
  method BoundedCandidates(t: Tick, scoped: seq<Position>, ranked: seq<Opportunity>)
    returns (candidates: seq<(Opportunity, real)>)
    requires t.config.bookCapacityMultiple > 0.0 && scoped == Scoped(t)
    ensures |candidates| == |Filter(AffordableBy(t), ranked)|
    ensures forall k :: 0 <= k < |candidates| ==>
      candidates[k].0 == Filter(AffordableBy(t), ranked)[k] && candidates[k].1 == BoundedNotional(t, candidates[k].0)
  {
    var c := t.config;
    var exposureByExchange, globalExposure := ExposureTotals(scoped);
    candidates := [];
    ghost var affordable: seq<Opportunity> := [];
    for i := 0 to |ranked|
      invariant affordable == Filter(AffordableBy(t), ranked[..i])
      invariant |candidates| == |affordable|
      invariant forall k :: 0 <= k < |candidates| ==>
        candidates[k].0 == affordable[k] && candidates[k].1 == BoundedNotional(t, affordable[k])
    {
      var opportunity := ranked[i];
      TakeStep(ranked, i);
      FilterAppend(AffordableBy(t), ranked[..i], [opportunity]);
      assert Filter(AffordableBy(t), [opportunity]) == if AffordableBy(t)(opportunity) then [opportunity] else [];
      var exchangeExposure :=
        if opportunity.exchange in exposureByExchange then exposureByExchange[opportunity.exchange] else 0.0;
      var notional := MinReal(
        MinReal(c.notionalPerTrade, opportunity.topBookNotional / c.bookCapacityMultiple),
        MinReal(c.perExchangeMaxExposure - exchangeExposure, c.globalMaxExposure - globalExposure));
      if notional < c.minimumTwoLegNotional {
        continue;
      }
      candidates := candidates + [(opportunity, notional)];
      affordable := affordable + [opportunity];
    }
    assert ranked[..|ranked|] == ranked;
  }

  ghost predicate TotalsOf(byExchange: map<Exchange, real>, total: real, positions: seq<Position>) {
    && total == Sum(ExposureOf, positions)
    && forall e :: Sum(ExposureOn(e), positions) == if e in byExchange then byExchange[e] else 0.0
  }

  lemma TotalsStep(byExchange: map<Exchange, real>, total: real, positions: seq<Position>, p: Position)
    requires TotalsOf(byExchange, total, positions)
    ensures var known := if p.exchange in byExchange then byExchange[p.exchange] else 0.0;
      TotalsOf(byExchange[p.exchange := known + ExposureOf(p)], total + ExposureOf(p), positions + [p])
    ensures ExposureOf(p) == 0.0 ==> TotalsOf(byExchange, total, positions + [p])
  {
    SumAppendOne(ExposureOf, positions, p);
    forall e ensures Sum(ExposureOn(e), positions + [p]) == Sum(ExposureOn(e), positions) + ExposureOn(e)(p) {
      SumAppendOne(ExposureOn(e), positions, p);
    }
  }

  /** The running totals: one per exchange and one over all. */
  method ExposureTotals(scoped: seq<Position>) returns (byExchange: map<Exchange, real>, total: real)
    ensures forall e :: Sum(ExposureOn(e), scoped) == if e in byExchange then byExchange[e] else 0.0
    ensures total == Sum(ExposureOf, scoped)
  {
    byExchange, total := map[], 0.0;
    for i := 0 to |scoped|
      invariant TotalsOf(byExchange, total, scoped[..i])
    {
      var position := scoped[i];
      TakeStep(scoped, i);
      TotalsStep(byExchange, total, scoped[..i], position);
      if position.Active() {
        var exposure := position.quantity * position.spotEntryPrice;
        var known := if position.exchange in byExchange then byExchange[position.exchange] else 0.0;
        byExchange := byExchange[position.exchange := known + exposure];
        total := total + exposure;
      }
    }
    assert scoped[..|scoped|] == scoped;
  }
}
