/** How tight the portfolio limits are: what a run can reach at most, that some run does
    reach it, and so when each configured limit holds. */
module PortfolioBounds {
  import opened Models
  import opened Arithmetic
  import opened Sorting
  import opened Text
  import opened Automation
  import opened AutomationLaws
  import opened Portfolio
  import opened Pricing

  ghost predicate Reachable(c: Config, d: Discipline, s: State) {
    exists states, events :: Run(c, d, states, events) && s == states[|events|]
  }

  lemma ReachableStep(c: Config, d: Discipline, s: State, e: Event, s': State)
    requires Reachable(c, d, s) && Step(c, d, s, e, s')
    ensures Reachable(c, d, s')
  {
    var states, events :| Run(c, d, states, events) && s == states[|events|];
    var states', events' := states + [s'], events + [e];
    forall i | 0 <= i < |events'| ensures Step(c, d, states'[i], events'[i], states'[i + 1]) {
      if i < |events| {
        assert states'[i + 1] == states[i + 1];
      }
    }
    assert Run(c, d, states', events') && states'[|events'|] == s';
  }

  lemma RunTo(c: Config, d: Discipline, s: State) returns (states: seq<State>, events: seq<Event>)
    requires Reachable(c, d, s)
    ensures Run(c, d, states, events) && s == states[|events|]
  {
    states, events :| Run(c, d, states, events) && s == states[|events|];
  }

  ghost predicate NeverOverGlobal(c: Config, d: Discipline) {
    forall states: seq<State>, events: seq<Event>, i: nat |
      Run(c, d, states, events) && i < |states| :: Sum(ExposureOf, states[i].positions) <= c.globalMaxExposure
  }

  ghost predicate NeverOverExchange(c: Config, d: Discipline) {
    forall states: seq<State>, events: seq<Event>, i: nat, e: Exchange |
      Run(c, d, states, events) && i < |states| :: Sum(ExposureOn(e), states[i].positions) <= c.perExchangeMaxExposure
  }

  ghost predicate NeverOverCount(c: Config, d: Discipline) {
    forall states: seq<State>, events: seq<Event>, i: nat |
      Run(c, d, states, events) && i < |states| :: Count(ActiveBy(), states[i].positions) <= c.maxConcurrentPositions
  }

  // ---------- no run reaches more ----------

  /** `n` times `x`, see TotalIs. */
  function Total(n: nat, x: real): real { if n == 0 then 0.0 else Total(n - 1, x) + x }

  lemma {:induction false} TotalIs(n: nat, x: real)
    ensures Total(n, x) == n as real * x
  {
    if n > 0 {
      TotalIs(n - 1, x);
      Distribute((n - 1) as real, 1.0, x);
    }
  }

  lemma {:induction false} TotalOfSum(m: nat, n: nat, x: real)
    ensures Total(m + n, x) == Total(m, x) + Total(n, x)
  {
    if n > 0 {
      TotalOfSum(m, n - 1, x);
    }
  }

  lemma {:induction false} TotalGrows(m: nat, n: nat, x: real)
    requires m <= n && x >= 0.0
    ensures 0.0 <= Total(m, x) <= Total(n, x)
    decreases n
  {
    if m < n {
      TotalGrows(m, n - 1, x);
    } else if n > 0 {
      TotalGrows(n - 1, n - 1, x);
    }
  }

  /** Either limit: the exposure already allowed before the last opens, or a portfolio
      full of trades; and then every open in flight is filled at its highest price. */
  function Greatest(c: Config, d: Discipline, cap: real): real
    requires c.maxConcurrentPositions >= 1
  {
    MinReal(cap - c.notionalPerTrade, Total(c.maxConcurrentPositions - 1, TradeCost(c, d)))
    + Total(d.inFlight, TradeCost(c, d))
  }

  ghost predicate CostsBounded(c: Config, d: Discipline, s: State) {
    forall p :: p in s.positions ==> 0.0 <= ExposureOf(p) <= TradeCost(c, d)
  }

  lemma StepKeepsCosts(c: Config, d: Discipline, s: State, e: Event, s': State)
    requires Legal(c, d) && Invariant(c, d, s) && Step(c, d, s, e, s') && CostsBounded(c, d, s)
    ensures CostsBounded(c, d, s')
  {
    match e
    case Wait(_) =>
    case PlanOpen(_, _) =>
    case Abandon(_) =>
    case Fill(_, _) => FillKeepsCosts(c, d, s, e, s');
    case Reserve(i) => ChangeKeepsCosts(c, d, s, i, s'.positions[i], s');
    case Release(i) => ChangeKeepsCosts(c, d, s, i, s'.positions[i], s');
    case SettleClose(i, _) => ChangeKeepsCosts(c, d, s, i, s'.positions[i], s');
  }

  lemma FillKeepsCosts(c: Config, d: Discipline, s: State, e: Event, s': State)
    requires Legal(c, d) && Invariant(c, d, s) && e.Fill? && Step(c, d, s, e, s') && CostsBounded(c, d, s)
    ensures CostsBounded(c, d, s')
  {
    assert s.inFlight[e.intent] in s.inFlight && IntentOk(c, s, s.inFlight[e.intent]);
    FillCostBounded(c, d, s.inFlight[e.intent].notional, e.filled);
    forall p | p in s'.positions ensures 0.0 <= ExposureOf(p) <= TradeCost(c, d) {
      assert p == e.filled || p in s.positions;
    }
  }

  lemma FillCostBounded(c: Config, d: Discipline, notional: real, p: Position)
    requires notional <= c.notionalPerTrade && d.slippage >= 0.0 && p.quantity > 0.0 && p.spotEntryPrice > 0.0
    requires p.quantity * p.spotEntryPrice <= notional * (1.0 + d.slippage)
    ensures 0.0 <= ExposureOf(p) <= TradeCost(c, d)
  {
    Times(c.notionalPerTrade - notional, 1.0 + d.slippage);
    Times(p.quantity, p.spotEntryPrice);
  }

  lemma ChangeKeepsCosts(c: Config, d: Discipline, s: State, i: nat, p: Position, s': State)
    requires Legal(c, d) && Invariant(c, d, s) && CostsBounded(c, d, s) && i < |s.positions|
    requires s' == s.(positions := s.positions[i := p])
    requires p.spotEntryPrice == s.positions[i].spotEntryPrice && p.quantity <= s.positions[i].quantity
    ensures CostsBounded(c, d, s')
  {
    var was := s.positions[i];
    assert was in s.positions && PositionOk(c, s, was);
    ExposureShrinks(was, p);
    forall q | q in s'.positions ensures 0.0 <= ExposureOf(q) <= TradeCost(c, d) {
      assert q == p || q in s.positions;
    }
  }

  lemma ExposureShrinks(was: Position, p: Position)
    requires p.spotEntryPrice == was.spotEntryPrice > 0.0 && p.quantity <= was.quantity
    requires was.status != Closed || was.quantity == 0.0
    ensures 0.0 <= ExposureOf(p) <= ExposureOf(was)
  {
    if p.Active() {
      Times(p.quantity, p.spotEntryPrice);
      Times(was.quantity - p.quantity, p.spotEntryPrice);
    } else if was.Active() {
      Times(was.quantity, was.spotEntryPrice);
    }
  }

  lemma RunStep(c: Config, d: Discipline, states: seq<State>, events: seq<Event>, i: nat)
    requires Run(c, d, states, events) && i < |events|
    ensures Step(c, d, states[i], events[i], states[i + 1])
  {
  }

  lemma {:induction false} RunKeepsCosts(c: Config, d: Discipline, states: seq<State>, events: seq<Event>, i: nat)
    requires Legal(c, d) && Run(c, d, states, events) && i < |states|
    ensures CostsBounded(c, d, states[i])
  {
    if i > 0 {
      RunKeepsCosts(c, d, states, events, i - 1);
      RunKeeps(c, d, states, events, i - 1);
      RunStep(c, d, states, events, i - 1);
      StepKeepsCosts(c, d, states[i - 1], events[i - 1], states[i]);
    }
  }

  /** A sum of bounded amounts, all zero but on active positions. */
  lemma {:induction false} SumOfActive(f: Position -> real, positions: seq<Position>, most: real)
    requires forall p :: p in positions ==> f(p) <= if p.Active() then most else 0.0
    ensures Sum(f, positions) <= Total(Count(ActiveBy(), positions), most)
  {
    if positions != [] {
      SumOfActive(f, positions[1..], most);
      assert f(positions[0]) <= if positions[0].Active() then most else 0.0;
    }
  }

  lemma SumWithin(f: Position -> real, positions: seq<Position>, most: real, n: nat)
    requires most >= 0.0 && Count(ActiveBy(), positions) <= n
    requires forall p :: p in positions ==> f(p) <= ExposureOf(p) <= most
    ensures Sum(f, positions) <= Total(n, most)
  {
    forall p | p in positions ensures f(p) <= if p.Active() then most else 0.0 {
      assert f(p) <= ExposureOf(p);
    }
    SumOfActive(f, positions, most);
    TotalGrows(Count(ActiveBy(), positions), n, most);
  }

  /** The two bounds on an exposure, put together. */
  lemma HeldBelowGreatest(c: Config, d: Discipline, cap: real, s: State, f: Position -> real)
    requires Legal(c, d) && CostsBounded(c, d, s)
    requires Count(ActiveBy(), s.positions) <= c.maxConcurrentPositions + d.inFlight - 1
    requires forall p :: p in s.positions ==> f(p) <= ExposureOf(p)
    requires Sum(f, s.positions) <= cap + Overshoot(c, d)
    ensures Sum(f, s.positions) <= Greatest(c, d, cap)
  {
    var w := TradeCost(c, d);
    Times(c.notionalPerTrade, 1.0 + d.slippage);
    forall p | p in s.positions ensures f(p) <= ExposureOf(p) <= w {
    }
    SumWithin(f, s.positions, w, c.maxConcurrentPositions - 1 + d.inFlight);
    TotalOfSum(c.maxConcurrentPositions - 1, d.inFlight, w);
    OvershootIs(c, d);
    TotalIs(d.inFlight, w);
  }

  lemma NeverMore(c: Config, d: Discipline, states: seq<State>, events: seq<Event>, i: nat)
    requires Legal(c, d) && Run(c, d, states, events) && i < |states|
    ensures Sum(ExposureOf, states[i].positions) <= Greatest(c, d, c.globalMaxExposure)
    ensures forall e :: Sum(ExposureOn(e), states[i].positions) <= Greatest(c, d, c.perExchangeMaxExposure)
  {
    SafeOverEveryRun(c, d, states, events, i);
    RunKeepsCosts(c, d, states, events, i);
    HeldBelowGreatest(c, d, c.globalMaxExposure, states[i], ExposureOf);
    forall e ensures Sum(ExposureOn(e), states[i].positions) <= Greatest(c, d, c.perExchangeMaxExposure) {
      ExposureOnLess(e, states[i].positions, TradeCost(c, d));
      HeldBelowGreatest(c, d, c.perExchangeMaxExposure, states[i], ExposureOn(e));
    }
  }

  lemma ExposureOnLess(e: Exchange, positions: seq<Position>, most: real)
    requires forall p :: p in positions ==> 0.0 <= ExposureOf(p) <= most
    ensures forall p :: p in positions ==> ExposureOn(e)(p) <= ExposureOf(p)
  {
  }

  // ---------- one exchange, market after market ----------

  function Filled(c: Config, e: Exchange, k: nat, quantity: real): Position {
    Position(Asset(k), e, c.environment, Asset(k), quantity, 1.0, 1.0, 0.0, Open, 0.0, None, None)
  }

  function Planned(e: Exchange, k: nat, notional: real): Intent { Intent(e, Asset(k), notional, 0.0) }

  /** Markets were opened in turn on `e`; those in flight for `v` each. */
  ghost predicate Staged(c: Config, e: Exchange, v: real, s: State) {
    && s.now == 0.0
    && (forall k :: 0 <= k < |s.positions| ==>
          s.positions[k].quantity > 0.0 && s.positions[k] == Filled(c, e, k, s.positions[k].quantity))
    && (forall k :: 0 <= k < |s.inFlight| ==> s.inFlight[k] == Planned(e, |s.positions| + k, v))
  }

  /** The next market, deep enough for `v` and no more. */
  function NextMarket(c: Config, e: Exchange, v: real, s: State): Opportunity {
    Market(c, e, Asset(|s.positions| + |s.inFlight|), c.minimumNetReturn, 0.0)
      .(topBookNotional := v * c.bookCapacityMultiple)
  }

  function NextTick(c: Config, e: Exchange, v: real, s: State): Tick {
    Tick(c, [NextMarket(c, e, v, s)], s.positions, 0.0, set x | x in s.inFlight :: x.Key(), 0.0)
  }

  function NextOpen(c: Config, e: Exchange, v: real, s: State): Evaluation {
    Decided(OpenTrade(NextMarket(c, e, v, s), v))
  }

  /** Room for one more trade of `v` on `e`. */
  ghost predicate HasRoom(c: Config, e: Exchange, v: real, s: State) {
    && ValidConfig(c) && e in c.enabledExchanges && c.minimumTwoLegNotional <= v <= c.notionalPerTrade
    && |s.positions| < c.maxConcurrentPositions
    && Sum(ExposureOf, s.positions) + v <= c.perExchangeMaxExposure
  }

  lemma {:induction false} AllOn(e: Exchange, positions: seq<Position>)
    requires forall k :: 0 <= k < |positions| ==> positions[k].exchange == e
    ensures Sum(ExposureOn(e), positions) == Sum(ExposureOf, positions)
  {
    if positions != [] {
      AllOn(e, positions[1..]);
    }
  }

  lemma StagedTotals(c: Config, e: Exchange, v: real, s: State)
    requires Staged(c, e, v, s)
    ensures Sum(ExposureOn(e), s.positions) == Sum(ExposureOf, s.positions)
    ensures Count(ActiveBy(), s.positions) == |s.positions|
    ensures e in c.enabledExchanges ==> Filter(InScopeBy(c), s.positions) == s.positions
  {
    AllOn(e, s.positions);
    CountAll(ActiveBy(), s.positions);
    if e in c.enabledExchanges {
      FilterAll(InScopeBy(c), s.positions);
    }
  }

  lemma NewKey(c: Config, e: Exchange, v: real, s: State)
    requires Staged(c, e, v, s)
    ensures forall p :: p in s.positions ==> p.Key() != NextMarket(c, e, v, s).Key()
    ensures forall x :: x in s.inFlight ==> x.Key() != NextMarket(c, e, v, s).Key()
  {
    var n := |s.positions| + |s.inFlight|;
    forall p | p in s.positions ensures p.Key() != NextMarket(c, e, v, s).Key() {
      var k :| 0 <= k < |s.positions| && s.positions[k] == p;
      AssetsDiffer(e, k, n);
    }
    forall x | x in s.inFlight ensures x.Key() != NextMarket(c, e, v, s).Key() {
      var k :| 0 <= k < |s.inFlight| && s.inFlight[k] == x;
      AssetsDiffer(e, |s.positions| + k, n);
    }
  }

  lemma NextPasses(c: Config, e: Exchange, v: real, s: State)
    requires Staged(c, e, v, s) && HasRoom(c, e, v, s)
    ensures PassesOpeningRules(c, s.positions, NextTick(c, e, v, s).blockedOpenKeys, 0.0, NextMarket(c, e, v, s))
  {
    NewKey(c, e, v, s);
  }

  lemma NextBounded(c: Config, e: Exchange, v: real, s: State)
    requires Staged(c, e, v, s) && HasRoom(c, e, v, s)
    ensures BoundedNotional(NextTick(c, e, v, s), NextMarket(c, e, v, s)) == v
  {
    StagedTotals(c, e, v, s);
    assert Scoped(NextTick(c, e, v, s)) == s.positions;
    DepthIs(c, e, v, s);
    LeastIs(v, c.notionalPerTrade, NextMarket(c, e, v, s).topBookNotional / c.bookCapacityMultiple,
            c.perExchangeMaxExposure - Sum(ExposureOf, s.positions), c.globalMaxExposure - Sum(ExposureOf, s.positions));
  }

  lemma DepthIs(c: Config, e: Exchange, v: real, s: State)
    requires c.bookCapacityMultiple > 0.0
    ensures NextMarket(c, e, v, s).topBookNotional / c.bookCapacityMultiple == v
  {
    MultiplyThenDivide(v, c.bookCapacityMultiple);
  }

  lemma LeastIs(v: real, a: real, b: real, x: real, y: real)
    requires v <= a && v == b && v <= x && v <= y
    ensures MinReal(MinReal(a, b), MinReal(x, y)) == v
  {
  }

  lemma NextIsOpenable(c: Config, e: Exchange, v: real, s: State)
    requires Staged(c, e, v, s) && HasRoom(c, e, v, s)
    ensures Openable(NextTick(c, e, v, s), NextMarket(c, e, v, s))
    ensures BoundedNotional(NextTick(c, e, v, s), NextMarket(c, e, v, s)) == v
  {
    NextPasses(c, e, v, s);
    NextBounded(c, e, v, s);
  }

  lemma NextAnswers(c: Config, e: Exchange, v: real, s: State)
    requires Staged(c, e, v, s) && HasRoom(c, e, v, s)
    ensures Answers(NextTick(c, e, v, s), NextOpen(c, e, v, s))
  {
    var t, o := NextTick(c, e, v, s), NextMarket(c, e, v, s);
    NextIsOpenable(c, e, v, s);
    StagedTotals(c, e, v, s);
    NewKey(c, e, v, s);
    forall p | p in Scoped(t) ensures !MustClose(t, p) {
      assert t.opportunities[..0] == [] && t.opportunities[0].Key() != p.Key();
      assert Quoted(c, t.opportunities, p.Key()) == Quoted(c, [], p.Key());
    }
    assert RankLeq(o, o) by { StringLeqTotal(o.baseAsset, o.baseAsset); }
    assert BestOpen(t, 0);
  }

  function AfterPlan(e: Exchange, v: real, s: State): State {
    s.(inFlight := s.inFlight + [Planned(e, |s.positions| + |s.inFlight|, v)])
  }

  lemma PlanReaches(c: Config, d: Discipline, e: Exchange, v: real, s: State)
    requires Staged(c, e, v, s) && HasRoom(c, e, v, s) && |s.inFlight| < d.inFlight && Reachable(c, d, s)
    ensures Reachable(c, d, AfterPlan(e, v, s))
  {
    NextAnswers(c, e, v, s);
    ReachableStep(c, d, s, PlanOpen(NextTick(c, e, v, s), NextOpen(c, e, v, s)), AfterPlan(e, v, s));
  }

  /** One more open is planned. */
  lemma StagePlan(c: Config, d: Discipline, e: Exchange, v: real, s: State) returns (s': State)
    requires Staged(c, e, v, s) && HasRoom(c, e, v, s) && |s.inFlight| < d.inFlight
    requires Reachable(c, d, s)
    ensures Staged(c, e, v, s') && Reachable(c, d, s')
    ensures s'.positions == s.positions && |s'.inFlight| == |s.inFlight| + 1
  {
    s' := AfterPlan(e, v, s);
    PlanReaches(c, d, e, v, s);
  }

  function AfterFill(c: Config, e: Exchange, s: State, quantity: real): State
    requires s.inFlight != []
  {
    s.(positions := s.positions + [Filled(c, e, |s.positions|, quantity)], inFlight := s.inFlight[1..])
  }

  lemma FillReaches(c: Config, d: Discipline, e: Exchange, v: real, s: State, quantity: real)
    requires Staged(c, e, v, s) && Reachable(c, d, s) && s.inFlight != []
    requires 0.0 < quantity <= v * (1.0 + d.slippage)
    ensures Reachable(c, d, AfterFill(c, e, s, quantity))
  {
    assert s.inFlight[0] == Planned(e, |s.positions|, v);
    assert Without(s.inFlight, 0) == s.inFlight[1..];
    ReachableStep(c, d, s, Fill(0, Filled(c, e, |s.positions|, quantity)), AfterFill(c, e, s, quantity));
  }

  lemma FillStages(c: Config, e: Exchange, v: real, s: State, quantity: real)
    requires Staged(c, e, v, s) && s.inFlight != [] && quantity > 0.0
    ensures Staged(c, e, v, AfterFill(c, e, s, quantity))
    ensures Sum(ExposureOf, AfterFill(c, e, s, quantity).positions) == Sum(ExposureOf, s.positions) + quantity
  {
    SumAppendOne(ExposureOf, s.positions, Filled(c, e, |s.positions|, quantity));
  }

  /** The oldest open in flight is filled. */
  lemma StageFill(c: Config, d: Discipline, e: Exchange, v: real, s: State, quantity: real) returns (s': State)
    requires Staged(c, e, v, s) && Reachable(c, d, s) && s.inFlight != []
    requires 0.0 < quantity <= v * (1.0 + d.slippage)
    ensures Staged(c, e, v, s') && Reachable(c, d, s')
    ensures |s'.positions| == |s.positions| + 1 && s'.inFlight == s.inFlight[1..]
    ensures Sum(ExposureOf, s'.positions) == Sum(ExposureOf, s.positions) + quantity
  {
    s' := AfterFill(c, e, s, quantity);
    FillReaches(c, d, e, v, s, quantity);
    FillStages(c, e, v, s, quantity);
  }

  /** `n` opens one after the other, each filled for `q`. */
  lemma {:induction false} Climb(c: Config, d: Discipline, e: Exchange, v: real, q: real, n: nat) returns (s: State)
    requires ValidConfig(c) && e in c.enabledExchanges && c.minimumTwoLegNotional <= v <= c.notionalPerTrade
    requires d.inFlight >= 1 && n < c.maxConcurrentPositions
    requires n > 0 ==> 0.0 < q <= v * (1.0 + d.slippage)
    requires Total(n, q) + v <= c.perExchangeMaxExposure
    ensures Staged(c, e, v, s) && Reachable(c, d, s)
    ensures s.inFlight == [] && |s.positions| == n && Sum(ExposureOf, s.positions) == Total(n, q)
  {
    if n == 0 {
      s := State(0.0, [], []);
      assert Run(c, d, [s], []);
    } else {
      var before := Climb(c, d, e, v, q, n - 1);
      var planned := StagePlan(c, d, e, v, before);
      s := StageFill(c, d, e, v, planned, q);
    }
  }

  /** `k` opens are planned before any of them is filled. */
  lemma {:induction false} PlanMany(c: Config, d: Discipline, e: Exchange, v: real, s: State, k: nat) returns (s': State)
    requires Staged(c, e, v, s) && Reachable(c, d, s) && (k > 0 ==> HasRoom(c, e, v, s))
    requires |s.inFlight| + k <= d.inFlight
    ensures Staged(c, e, v, s') && Reachable(c, d, s')
    ensures s'.positions == s.positions && |s'.inFlight| == |s.inFlight| + k
    decreases k
  {
    s' := s;
    if k > 0 {
      var next := StagePlan(c, d, e, v, s);
      s' := PlanMany(c, d, e, v, next, k - 1);
    }
  }

  /** Everything in flight is filled for `w`. */
  lemma {:induction false} FillAll(c: Config, d: Discipline, e: Exchange, v: real, s: State, w: real) returns (s': State)
    requires Staged(c, e, v, s) && Reachable(c, d, s) && 0.0 < w <= v * (1.0 + d.slippage)
    ensures Staged(c, e, v, s') && Reachable(c, d, s')
    ensures |s'.positions| == |s.positions| + |s.inFlight|
    ensures Sum(ExposureOf, s'.positions) == Sum(ExposureOf, s.positions) + Total(|s.inFlight|, w)
    decreases |s.inFlight|
  {
    s' := s;
    if s.inFlight != [] {
      var next := StageFill(c, d, e, v, s, w);
      s' := FillAll(c, d, e, v, next, w);
    }
  }

  /** `n` trades filled for `q` each, then everything allowed in flight at once and
      filled for `w`. */
  lemma Burst(c: Config, d: Discipline, e: Exchange, v: real, q: real, n: nat, w: real) returns (s: State)
    requires Legal(c, d) && e in c.enabledExchanges && c.minimumTwoLegNotional <= v <= c.notionalPerTrade
    requires n < c.maxConcurrentPositions && Total(n, q) + v <= c.perExchangeMaxExposure
    requires n > 0 ==> 0.0 < q <= w
    requires 0.0 < w <= v * (1.0 + d.slippage)
    ensures Reachable(c, d, s)
    ensures Sum(ExposureOf, s.positions) == Total(n, q) + Total(d.inFlight, w)
    ensures Sum(ExposureOn(e), s.positions) == Sum(ExposureOf, s.positions)
    ensures Count(ActiveBy(), s.positions) == n + d.inFlight
  {
    var held := Climb(c, d, e, v, q, n);
    var flying := PlanMany(c, d, e, v, held, d.inFlight);
    s := FillAll(c, d, e, v, flying, w);
    StagedTotals(c, e, v, s);
  }

  lemma Raised(v: real, slippage: real)
    requires v > 0.0 && slippage >= 0.0
    ensures v * (1.0 + slippage) >= v
  {
    Times(v, slippage);
  }

  // ---------- some run reaches it ----------

  lemma Shares(total: real, n: nat, most: real) returns (q: real)
    requires 0.0 <= total <= Total(n, most)
    ensures Total(n, q) == total
    ensures n > 0 && total > 0.0 ==> 0.0 < q <= most
  {
    q := if n == 0 then 0.0 else total / n as real;
    TotalIs(n, q);
    TotalIs(n, most);
    if n > 0 && q > most {
      PositiveTimes(q - most, n as real);
    }
  }

  /** The greatest exposure of one exchange is reached, for every configuration, number
      of opens in flight and slippage. */
  lemma ReachesGreatest(c: Config, d: Discipline) returns (s: State, e: Exchange)
    requires Legal(c, d)
    ensures Reachable(c, d, s)
    ensures Sum(ExposureOn(e), s.positions) == Greatest(c, d, c.perExchangeMaxExposure)
    ensures Sum(ExposureOf, s.positions) == Sum(ExposureOn(e), s.positions)
  {
    e :| e in c.enabledExchanges;
    Raised(c.notionalPerTrade, d.slippage);
    s := BurstFor(c, d, e, c.perExchangeMaxExposure - c.notionalPerTrade, TradeCost(c, d));
  }

  lemma BurstFor(c: Config, d: Discipline, e: Exchange, most: real, w: real) returns (s: State)
    requires Legal(c, d) && e in c.enabledExchanges && most == c.perExchangeMaxExposure - c.notionalPerTrade
    requires c.notionalPerTrade <= w <= c.notionalPerTrade * (1.0 + d.slippage)
    ensures Reachable(c, d, s)
    ensures Sum(ExposureOn(e), s.positions)
         == MinReal(most, Total(c.maxConcurrentPositions - 1, w)) + Total(d.inFlight, w)
    ensures Sum(ExposureOf, s.positions) == Sum(ExposureOn(e), s.positions)
  {
    var n := c.maxConcurrentPositions - 1;
    TotalGrows(0, n, w);
    var held := MinReal(most, Total(n, w));
    if held == 0.0 {
      s := Burst(c, d, e, c.notionalPerTrade, w, 0, w);
    } else {
      var q := Shares(held, n, w);
      s := Burst(c, d, e, c.notionalPerTrade, q, n, w);
    }
  }

  /** More positions than allowed, as soon as two opens may be in flight and a position
      leaves room for another. */
  lemma ReachesCount(c: Config, d: Discipline) returns (s: State)
    requires Legal(c, d) && (c.maxConcurrentPositions == 1 || c.minimumTwoLegNotional < c.perExchangeMaxExposure)
    ensures Reachable(c, d, s)
    ensures Count(ActiveBy(), s.positions) == c.maxConcurrentPositions + d.inFlight - 1
  {
    var e :| e in c.enabledExchanges;
    var v, n := c.minimumTwoLegNotional, c.maxConcurrentPositions - 1;
    Raised(v, d.slippage);
    if n == 0 {
      s := Burst(c, d, e, v, v, 0, v);
    } else {
      var q := SmallShare(v, c.perExchangeMaxExposure - v, n);
      s := Burst(c, d, e, v, q, n, v);
    }
  }

  lemma SmallShare(v: real, room: real, n: nat) returns (q: real)
    requires n > 0 && v > 0.0 && room > 0.0
    ensures 0.0 < q <= v && Total(n, q) <= room
  {
    var share := room / n as real;
    q := MinReal(v, share);
    Times(n as real, share - q);
    TotalIs(n, q);
  }

  // ---------- when the configured limits hold ----------

  /** One open at a time without slippage, or too few trades to fill the limit. */
  predicate Fits(c: Config, d: Discipline, cap: real)
    requires c.maxConcurrentPositions >= 1
  {
    || (d.inFlight == 1 && d.slippage == 0.0)
    || Total(c.maxConcurrentPositions - 1 + d.inFlight, TradeCost(c, d)) <= cap
  }

  lemma FitsExactly(c: Config, d: Discipline, cap: real)
    requires Legal(c, d)
    ensures Greatest(c, d, cap) <= cap <==> Fits(c, d, cap)
  {
    TotalOfSum(c.maxConcurrentPositions - 1, d.inFlight, TradeCost(c, d));
    RaisedExactly(c.notionalPerTrade, d.slippage, TradeCost(c, d));
    OnlyOneFits(d.inFlight, TradeCost(c, d), c.notionalPerTrade);
  }

  lemma OnlyOneFits(k: nat, w: real, v: real)
    requires k >= 1 && w >= v > 0.0
    ensures Total(k, w) <= v <==> k == 1 && w == v
  {
    assert Total(1, w) == w;
    if k > 1 {
      TotalGrows(2, k, w);
    }
  }

  lemma RaisedExactly(v: real, slippage: real, w: real)
    requires v > 0.0 && slippage >= 0.0 && w == v * (1.0 + slippage)
    ensures w >= v && (w == v <==> slippage == 0.0)
  {
    Times(v, slippage);
    if slippage > 0.0 {
      PositiveTimes(v, slippage);
    }
  }

  /** The greatest exposure of one exchange over all runs, for every configuration, number
      of opens in flight and slippage. */
  lemma ExchangeExposureExactly(c: Config, d: Discipline)
    requires Legal(c, d)
    ensures forall s, e :: Reachable(c, d, s) ==> Sum(ExposureOn(e), s.positions) <= Greatest(c, d, c.perExchangeMaxExposure)
    ensures exists s, e :: Reachable(c, d, s) && Sum(ExposureOn(e), s.positions) == Greatest(c, d, c.perExchangeMaxExposure)
  {
    forall s, e | Reachable(c, d, s)
      ensures Sum(ExposureOn(e), s.positions) <= Greatest(c, d, c.perExchangeMaxExposure)
    {
      var states, events := RunTo(c, d, s);
      NeverMore(c, d, states, events, |events|);
    }
    var s, e := ReachesGreatest(c, d);
  }

  /** The per-exchange limit of a strategy holds over every run exactly when one open is
      in flight and fills cost no more than decided, or the positions it may hold and have
      in flight cannot cost that much together. */
  lemma ExchangeLimitHoldsExactly(c: Config, d: Discipline)
    requires Legal(c, d)
    ensures NeverOverExchange(c, d) <==> Fits(c, d, c.perExchangeMaxExposure)
  {
    FitsExactly(c, d, c.perExchangeMaxExposure);
    if Fits(c, d, c.perExchangeMaxExposure) {
      forall states: seq<State>, events: seq<Event>, i: nat, e: Exchange | Run(c, d, states, events) && i < |states|
        ensures Sum(ExposureOn(e), states[i].positions) <= c.perExchangeMaxExposure
      {
        NeverMore(c, d, states, events, i);
      }
    } else {
      var s, e := ReachesGreatest(c, d);
      var states, events := RunTo(c, d, s);
      assert Sum(ExposureOn(e), states[|events|].positions) > c.perExchangeMaxExposure;
    }
  }

  /** The same for the global limit, exactly so when one exchange may use all of it. */
  lemma SharedGlobalLimitHoldsExactly(c: Config, d: Discipline)
    requires Legal(c, d)
    ensures Fits(c, d, c.globalMaxExposure) ==> NeverOverGlobal(c, d)
    ensures c.perExchangeMaxExposure == c.globalMaxExposure ==>
      (NeverOverGlobal(c, d) <==> Fits(c, d, c.globalMaxExposure))
  {
    FitsExactly(c, d, c.globalMaxExposure);
    if Fits(c, d, c.globalMaxExposure) {
      forall states: seq<State>, events: seq<Event>, i: nat | Run(c, d, states, events) && i < |states|
        ensures Sum(ExposureOf, states[i].positions) <= c.globalMaxExposure
      {
        NeverMore(c, d, states, events, i);
      }
    } else if c.perExchangeMaxExposure == c.globalMaxExposure {
      var s, e := ReachesGreatest(c, d);
      var states, events := RunTo(c, d, s);
      assert Sum(ExposureOf, states[|events|].positions) > c.globalMaxExposure;
    }
  }

  /** The position count keeps its limit exactly when one open is in flight, whatever the
      slippage, unless a single position already leaves no room on its exchange. */
  lemma CountLimitHoldsExactly(c: Config, d: Discipline)
    requires Legal(c, d)
    ensures d.inFlight == 1 ==> NeverOverCount(c, d)
    ensures c.maxConcurrentPositions == 1 || c.minimumTwoLegNotional < c.perExchangeMaxExposure ==>
      (NeverOverCount(c, d) <==> d.inFlight == 1)
  {
    if d.inFlight == 1 {
      forall states: seq<State>, events: seq<Event>, i: nat | Run(c, d, states, events) && i < |states|
        ensures Count(ActiveBy(), states[i].positions) <= c.maxConcurrentPositions
      {
        SafeOverEveryRun(c, d, states, events, i);
      }
    } else if c.maxConcurrentPositions == 1 || c.minimumTwoLegNotional < c.perExchangeMaxExposure {
      var s := ReachesCount(c, d);
      var states, events := RunTo(c, d, s);
      assert Count(ActiveBy(), states[|events|].positions) > c.maxConcurrentPositions;
    }
  }

  /** A strategy whose exposure limits are one trade. */
  const ONE_TRADE: Config := Config(
    Live, {Gate}, 100.0, 100.0, 100.0, 1, 0.0, 0.0, 0.0, 0.0, 0.0, 0.5, 50.0, 1.0,
    0.05, 0.1, 10.0, 0, 1, 0.5, 0.0, 0.0, 0.5, 1.0, 1.0)

  lemma OneTradeFits(c: Config, d: Discipline)
    requires Legal(c, d) && c.maxConcurrentPositions == 1
    ensures Fits(c, d, c.notionalPerTrade) <==> d.inFlight == 1 && d.slippage == 0.0
  {
    RaisedExactly(c.notionalPerTrade, d.slippage, TradeCost(c, d));
    OnlyOneFits(d.inFlight, TradeCost(c, d), c.notionalPerTrade);
  }

  /** The configured exposure limits are kept by every strategy over every run exactly
      when at most one open is in flight and fills cost no more than was decided. */
  lemma GlobalLimitHoldsExactly(d: Discipline)
    requires d.inFlight >= 1 && d.slippage >= 0.0
    ensures (forall c :: ValidConfig(c) ==> NeverOverGlobal(c, d)) <==> d.inFlight == 1 && d.slippage == 0.0
    ensures (forall c :: ValidConfig(c) ==> NeverOverExchange(c, d)) <==> d.inFlight == 1 && d.slippage == 0.0
    ensures (forall c :: ValidConfig(c) ==> NeverOverCount(c, d)) <==> d.inFlight == 1
  {
    assert Legal(ONE_TRADE, d);
    OneTradeFits(ONE_TRADE, d);
    SharedGlobalLimitHoldsExactly(ONE_TRADE, d);
    ExchangeLimitHoldsExactly(ONE_TRADE, d);
    CountLimitHoldsExactly(ONE_TRADE, d);
    forall c | ValidConfig(c)
      ensures d.inFlight == 1 && d.slippage == 0.0 ==> NeverOverGlobal(c, d) && NeverOverExchange(c, d)
      ensures d.inFlight == 1 ==> NeverOverCount(c, d)
    {
      SharedGlobalLimitHoldsExactly(c, d);
      ExchangeLimitHoldsExactly(c, d);
      CountLimitHoldsExactly(c, d);
    }
  }

  /** With one open in flight and no slippage every limit holds as configured. */
  lemma LimitsHoldAsConfigured(c: Config, states: seq<State>, events: seq<Event>, i: nat)
    requires ValidConfig(c) && Run(c, Discipline(1, 0.0), states, events) && i < |states|
    ensures Sum(ExposureOf, states[i].positions) <= c.globalMaxExposure
    ensures forall e :: Sum(ExposureOn(e), states[i].positions) <= c.perExchangeMaxExposure
    ensures Count(ActiveBy(), states[i].positions) <= c.maxConcurrentPositions
  {
    SafeOverEveryRun(c, Discipline(1, 0.0), states, events, i);
    assert Overshoot(c, Discipline(1, 0.0)) == 0.0;
  }

  /** Why fills obey the discipline: the spot order is floored to the lot, its limit is
      the ask plus the allowed slippage, and an IOC order fills at its limit or better. */
  lemma IocFillIsAStep(c: Config, d: Discipline, s: State, m: nat, p: Position, ask: real, lot: real, tick: real)
    requires m < |s.inFlight| && s.inFlight[m].notional > 0.0 && ask > 0.0 && lot > 0.0
    requires ProtectiveLimitPrice(ask, d.slippage, BUY, tick).Some?
    requires 0.0 < p.quantity <= AlignDown(s.inFlight[m].notional / ask, lot)
    requires 0.0 < p.spotEntryPrice <= ProtectiveLimitPrice(ask, d.slippage, BUY, tick).value
    requires p.environment == c.environment && p.exchange == s.inFlight[m].exchange
    requires p.baseAsset == s.inFlight[m].baseAsset
    requires p.status == Open && p.openedAt == s.now && p.closedAt == None
    ensures Step(c, d, s, Fill(m, p), s.(positions := s.positions + [p], inFlight := Without(s.inFlight, m)))
  {
    FilledCost(s.inFlight[m].notional, ask, d.slippage, lot, tick, p.quantity, p.spotEntryPrice);
  }
}
