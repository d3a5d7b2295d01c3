/** The portfolio as a state machine: the evaluator decides, the ledger plans an intent,
    fills and closes settle later, in any order. What every run keeps. */
module Portfolio {
  import opened Models
  import opened Arithmetic
  import opened Sorting
  import opened Automation
  import opened AutomationLaws

  /** An open that was planned but has not settled: it blocks its key, and its
      notional is not part of any exposure the evaluator sees. */
  datatype Intent = Intent(exchange: Exchange, baseAsset: string, notional: real, decidedAt: Time) {
    function Key(): string { PairKey(exchange, baseAsset) }
  }

  datatype State = State(now: Time, positions: seq<Position>, inFlight: seq<Intent>)

  /** What the environment allows: at most `inFlight` opens unsettled at once, and a
      fill that costs at most the decided notional plus the fraction `slippage`. */
  datatype Discipline = Discipline(inFlight: nat, slippage: real)

  datatype Event =
    | Wait(until: Time)
    | PlanOpen(tick: Tick, evaluation: Evaluation)
    | Fill(intent: nat, filled: Position)
    | Abandon(intent: nat)
    | Reserve(position: nat)
    | Release(position: nat)
    | SettleClose(position: nat, remaining: real)

  /** `_numeric_equal` with zero: a remainder this small is a full close. */
  const DUST: real := 0.000000000000001

  ghost predicate Step(c: Config, d: Discipline, s: State, e: Event, s': State) {
    match e
    case Wait(until) =>
      until >= s.now && s' == s.(now := until)
    case PlanOpen(t, evaluation) =>
      && c.bookCapacityMultiple > 0.0
      && t.config == c && multiset(t.positions) == multiset(s.positions) && t.now == s.now
      && (forall x :: x in s.inFlight ==> x.Key() in t.blockedOpenKeys)
      && Answers(t, evaluation)
      && evaluation.Decided? && evaluation.decision.OpenTrade?
      && |s.inFlight| < d.inFlight
      && var o := evaluation.decision.opportunity;
         s' == s.(inFlight := s.inFlight + [Intent(o.exchange, o.baseAsset, evaluation.decision.notional, s.now)])
    case Fill(m, p) =>
      && m < |s.inFlight|
      && p.environment == c.environment
      && p.exchange == s.inFlight[m].exchange && p.baseAsset == s.inFlight[m].baseAsset
      && p.quantity > 0.0 && p.spotEntryPrice > 0.0
      && p.quantity * p.spotEntryPrice <= s.inFlight[m].notional * (1.0 + d.slippage)
      && p.status == Open && p.openedAt == s.now && p.closedAt == None
      && s' == s.(positions := s.positions + [p], inFlight := Without(s.inFlight, m))
    case Abandon(m) =>
      && m < |s.inFlight|
      && s' == s.(inFlight := Without(s.inFlight, m))
    case Reserve(i) =>
      // a close decided by the evaluator, or ordered by hand
      && i < |s.positions| && s.positions[i].status == Open
      && s' == s.(positions := s.positions[i := s.positions[i].(status := Closing)])
    case Release(i) =>
      && i < |s.positions| && s.positions[i].status == Closing
      && s' == s.(positions := s.positions[i := s.positions[i].(status := Open)])
    case SettleClose(i, remaining) =>
      && i < |s.positions| && s.positions[i].status == Closing
      && 0.0 <= remaining <= s.positions[i].quantity
      && s' == s.(positions := s.positions[i :=
           if remaining <= DUST then s.positions[i].(quantity := 0.0, status := Closed, closedAt := Some(s.now))
           else s.positions[i].(quantity := remaining, status := Open)])
  }

  ghost predicate Run(c: Config, d: Discipline, states: seq<State>, events: seq<Event>) {
    && |states| == |events| + 1
    && states[0].positions == [] && states[0].inFlight == []
    && forall i :: 0 <= i < |events| ==> Step(c, d, states[i], events[i], states[i + 1])
  }

  // ---------- the invariant ----------

  function NotionalOf(): Intent -> real { (x: Intent) => x.notional }

  function NotionalOn(e: Exchange): Intent -> real {
    (x: Intent) => if x.exchange == e then x.notional else 0.0
  }

  /** How far a limit can be passed: nothing with one open in flight and no slippage. */
  function Overshoot(c: Config, d: Discipline): real {
    (d.inFlight as real * (1.0 + d.slippage) - 1.0) * c.notionalPerTrade
  }

  ghost predicate PositionOk(c: Config, s: State, p: Position) {
    && InScope(c, p)
    && p.spotEntryPrice > 0.0
    && p.openedAt <= s.now
    && (p.status == Closed <==> p.closedAt.Some?)
    && (p.status == Closed ==> p.quantity == 0.0 && p.closedAt.value <= s.now)
    && (p.status != Closed ==> p.quantity > 0.0)
  }

  ghost predicate IntentOk(c: Config, s: State, x: Intent) {
    x.exchange in c.enabledExchanges && 0.0 <= x.notional <= c.notionalPerTrade && x.decidedAt <= s.now
  }

  function Reentry(c: Config): Time { c.minimumReentryMinutes as real * MINUTE }

  ghost predicate Separated(c: Config, s: State) {
    && (forall i, j :: 0 <= i < j < |s.inFlight| ==> s.inFlight[i].Key() != s.inFlight[j].Key())
    && (forall p, x :: p in s.positions && x in s.inFlight && p.Key() == x.Key() ==>
          p.closedAt.Some? && x.decidedAt - p.closedAt.value >= Reentry(c))
    && (forall i, j :: 0 <= i < j < |s.positions| && s.positions[i].Key() == s.positions[j].Key() ==>
          s.positions[i].closedAt.Some? && s.positions[j].openedAt - s.positions[i].closedAt.value >= Reentry(c))
  }

  ghost predicate GlobalOk(c: Config, d: Discipline, s: State) {
    Committed(d, Sum(ExposureOf, s.positions), Sum(NotionalOf(), s.inFlight)) <= c.globalMaxExposure + Overshoot(c, d)
  }

  ghost predicate ExchangeOk(c: Config, d: Discipline, s: State, e: Exchange) {
    Committed(d, Sum(ExposureOn(e), s.positions), Sum(NotionalOn(e), s.inFlight)) <= c.perExchangeMaxExposure + Overshoot(c, d)
  }

  ghost predicate CountOk(c: Config, d: Discipline, s: State) {
    && |s.inFlight| <= d.inFlight
    && Count(ActiveBy(), s.positions) + |s.inFlight| <= c.maxConcurrentPositions + d.inFlight - 1
  }

  ghost predicate WithinLimits(c: Config, d: Discipline, s: State) {
    CountOk(c, d, s) && GlobalOk(c, d, s) && forall e :: ExchangeOk(c, d, s, e)
  }

  /** Exposure held plus the most that can still be filled. */
  function Committed(d: Discipline, held: real, pending: real): real { held + (1.0 + d.slippage) * pending }

  ghost predicate Invariant(c: Config, d: Discipline, s: State) {
    && (forall p :: p in s.positions ==> PositionOk(c, s, p))
    && (forall x :: x in s.inFlight ==> IntentOk(c, s, x))
    && Separated(c, s)
    && WithinLimits(c, d, s)
  }

  ghost predicate Legal(c: Config, d: Discipline) {
    ValidConfig(c) && d.inFlight >= 1 && d.slippage >= 0.0
  }

  // ---------- arithmetic ----------

  /** What one trade can cost at most. */
  function TradeCost(c: Config, d: Discipline): real { (1.0 + d.slippage) * c.notionalPerTrade }

  lemma OvershootIs(c: Config, d: Discipline)
    ensures Overshoot(c, d) == d.inFlight as real * TradeCost(c, d) - c.notionalPerTrade
  {
    var k, f, npt := d.inFlight as real, 1.0 + d.slippage, c.notionalPerTrade;
    Distribute(k * f, 1.0, npt);
    Reassociate(k, f, npt);
  }

  lemma TradeCostAtLeast(c: Config, d: Discipline)
    requires Legal(c, d)
    ensures TradeCost(c, d) >= c.notionalPerTrade
  {
    Distribute(1.0, d.slippage, c.notionalPerTrade);
    Times(d.slippage, c.notionalPerTrade);
  }

  lemma OvershootNonNegative(c: Config, d: Discipline)
    requires Legal(c, d)
    ensures Overshoot(c, d) >= 0.0
  {
    OvershootIs(c, d);
    TradeCostAtLeast(c, d);
    Times(d.inFlight as real - 1.0, TradeCost(c, d));
    Distribute(d.inFlight as real, 1.0, TradeCost(c, d));
  }

  /** One more open of `n`, decided while `pending` is still in flight and unseen. */
  lemma OneMoreOpen(c: Config, d: Discipline, held: real, pending: real, n: real, cap: real, flying: nat)
    requires Legal(c, d) && flying < d.inFlight
    requires 0.0 <= n <= c.notionalPerTrade && held + n <= cap
    requires 0.0 <= pending <= flying as real * c.notionalPerTrade
    ensures Committed(d, held, pending + n) <= cap + Overshoot(c, d)
  {
    var f, npt := 1.0 + d.slippage, c.notionalPerTrade;
    OvershootIs(c, d);
    PendingCost(d.inFlight as real, flying as real, f, npt, pending);
    SlippageCost(d.slippage, npt, n);
    Distribute(pending, n, f);
  }

  /** What is pending costs at most one trade less than everything in flight. */
  lemma PendingCost(k: real, flying: real, f: real, npt: real, pending: real)
    requires flying <= k - 1.0 && f >= 0.0 && npt >= 0.0 && pending <= flying * npt
    ensures f * pending <= k * (f * npt) - f * npt
  {
    Times(k - 1.0 - flying, npt);
    Distribute(k - 1.0, flying, npt);
    Times(f, (k - 1.0) * npt - pending);
    Distribute((k - 1.0) * npt, pending, f);
    Reassociate(f, k - 1.0, npt);
    Reassociate(k - 1.0, f, npt);
    Distribute(k, 1.0, f * npt);
  }

  lemma SlippageCost(slippage: real, npt: real, n: real)
    requires slippage >= 0.0 && n <= npt
    ensures (1.0 + slippage) * n - n <= (1.0 + slippage) * npt - npt
  {
    Times(slippage, npt - n);
    Distribute(npt, n, slippage);
    Distribute(1.0, slippage, n);
    Distribute(1.0, slippage, npt);
  }

  lemma FillCommits(d: Discipline, held: real, pending: real, cost: real, n: real)
    requires cost <= n * (1.0 + d.slippage)
    ensures Committed(d, held + cost, pending - n) <= Committed(d, held, pending)
  {
    Distribute(pending, n, 1.0 + d.slippage);
  }

  lemma PendingShrinks(d: Discipline, held: real, pending: real, n: real)
    requires d.slippage >= 0.0 && n >= 0.0
    ensures Committed(d, held, pending - n) <= Committed(d, held, pending)
  {
    Times(1.0 + d.slippage, n);
    Distribute(pending, n, 1.0 + d.slippage);
  }

  // ---------- every step keeps the invariant ----------

  lemma OpenRespectsCaps(c: Config, t: Tick, e: Evaluation)
    requires ValidConfig(c) && t.config == c && (forall p :: p in t.positions ==> InScope(c, p))
    requires Answers(t, e) && e.Decided? && e.decision.OpenTrade?
    ensures var o, n := e.decision.opportunity, e.decision.notional;
      && PassesOpeningRules(c, t.positions, t.blockedOpenKeys, t.now, o)
      && 0.0 < n <= c.notionalPerTrade
      && Sum(ExposureOf, t.positions) + n <= c.globalMaxExposure
      && Sum(ExposureOn(o.exchange), t.positions) + n <= c.perExchangeMaxExposure
      && Count(ActiveBy(), t.positions) < c.maxConcurrentPositions
  {
    FilterAll(InScopeBy(c), t.positions);
    OpensExactlyWhenPossible(t, e);
  }

  lemma AppendCommits(c: Config, d: Discipline, f: Intent -> real, flying: seq<Intent>, x: Intent, held: real, cap: real)
    requires Legal(c, d) && |flying| < d.inFlight
    requires forall y :: y in flying ==> 0.0 <= f(y) <= c.notionalPerTrade
    requires 0.0 <= f(x) <= c.notionalPerTrade && held + f(x) <= cap
    ensures Committed(d, held, Sum(f, flying + [x])) <= cap + Overshoot(c, d)
  {
    SumBounded(f, flying, c.notionalPerTrade);
    OneMoreOpen(c, d, held, Sum(f, flying), f(x), cap, |flying|);
    SumAppendOne(f, flying, x);
  }

  lemma PlanOpenKeepsLimits(c: Config, d: Discipline, s: State, x: Intent, s': State)
    requires Legal(c, d) && Invariant(c, d, s) && |s.inFlight| < d.inFlight
    requires s' == s.(inFlight := s.inFlight + [x])
    requires 0.0 <= x.notional <= c.notionalPerTrade
    requires Sum(ExposureOf, s.positions) + x.notional <= c.globalMaxExposure
    requires Sum(ExposureOn(x.exchange), s.positions) + x.notional <= c.perExchangeMaxExposure
    requires Count(ActiveBy(), s.positions) < c.maxConcurrentPositions
    ensures WithinLimits(c, d, s')
  {
    forall y | y in s.inFlight ensures 0.0 <= y.notional <= c.notionalPerTrade {
      assert IntentOk(c, s, y);
    }
    AppendCommits(c, d, NotionalOf(), s.inFlight, x, Sum(ExposureOf, s.positions), c.globalMaxExposure);
    forall e ensures ExchangeOk(c, d, s', e) {
      assert ExchangeOk(c, d, s, e);
      if e == x.exchange {
        AppendCommits(c, d, NotionalOn(e), s.inFlight, x, Sum(ExposureOn(e), s.positions), c.perExchangeMaxExposure);
      } else {
        SumAppendOne(NotionalOn(e), s.inFlight, x);
      }
    }
  }

  /** A decided open is for a market that has no active position, no open in flight, and
      no close more recent than the wait. */
  lemma PlanOpenKeepsSeparated(c: Config, d: Discipline, s: State, x: Intent, s': State)
    requires Invariant(c, d, s) && s' == s.(inFlight := s.inFlight + [x])
    requires x.decidedAt == s.now
    requires forall y :: y in s.inFlight ==> y.Key() != x.Key()
    requires forall p :: p in s.positions && p.Key() == x.Key() ==>
      !p.Active() && (p.closedAt.Some? ==> s.now - p.closedAt.value >= Reentry(c))
    ensures Separated(c, s')
  {
    forall p, y | p in s'.positions && y in s'.inFlight && p.Key() == y.Key()
      ensures p.closedAt.Some? && y.decidedAt - p.closedAt.value >= Reentry(c)
    {
      assert y in s.inFlight || y == x;
      assert PositionOk(c, s, p);
    }
    forall i, j | 0 <= i < j < |s'.inFlight| ensures s'.inFlight[i].Key() != s'.inFlight[j].Key() {
      assert s'.inFlight[i] == s.inFlight[i] && s.inFlight[i] in s.inFlight;
    }
  }

  lemma PlanOpenKeeps(c: Config, d: Discipline, s: State, e: Event, s': State)
    requires Legal(c, d) && Invariant(c, d, s) && e.PlanOpen? && Step(c, d, s, e, s')
    ensures Invariant(c, d, s')
  {
    var t, o := e.tick, e.evaluation.decision.opportunity;
    var x := Intent(o.exchange, o.baseAsset, e.evaluation.decision.notional, s.now);
    SameMembers(t.positions, s.positions);
    OpenRespectsCaps(c, t, e.evaluation);
    SameExposures(t.positions, s.positions);
    assert x.Key() == o.Key();
    PlanOpenKeepsLimits(c, d, s, x, s');
    forall p | p in s.positions && p.Key() == x.Key()
      ensures !p.Active() && (p.closedAt.Some? ==> s.now - p.closedAt.value >= Reentry(c))
    {
      assert PositionOk(c, s, p);
    }
    PlanOpenKeepsSeparated(c, d, s, x, s');
    forall p | p in s'.positions ensures PositionOk(c, s', p) {
      assert PositionOk(c, s, p);
    }
    forall y | y in s'.inFlight ensures IntentOk(c, s', y) {
      assert y in s.inFlight || y == x;
    }
  }

  /** One intent settles at `cost`, at most what it had committed. */
  lemma SettleCommits(
    d: Discipline, exposure: Position -> real, pending: Intent -> real,
    held: seq<Position>, flying: seq<Intent>, m: nat, more: seq<Position>)
    requires m < |flying| && (forall p :: p in more ==> exposure(p) <= pending(flying[m]) * (1.0 + d.slippage))
    requires |more| <= 1 && pending(flying[m]) >= 0.0 && d.slippage >= 0.0
    ensures Committed(d, Sum(exposure, held + more), Sum(pending, Without(flying, m)))
         <= Committed(d, Sum(exposure, held), Sum(pending, flying))
  {
    SumSplit(pending, flying, m);
    if more == [] {
      assert held + more == held;
      PendingShrinks(d, Sum(exposure, held), Sum(pending, flying), pending(flying[m]));
    } else {
      assert more == [more[0]] && more[0] in more;
      SumAppendOne(exposure, held, more[0]);
      FillCommits(d, Sum(exposure, held), Sum(pending, flying), exposure(more[0]), pending(flying[m]));
    }
  }

  lemma SettleKeepsLimits(c: Config, d: Discipline, s: State, m: nat, more: seq<Position>, s': State)
    requires Legal(c, d) && WithinLimits(c, d, s) && m < |s.inFlight| && |more| <= 1
    requires s' == s.(positions := s.positions + more, inFlight := Without(s.inFlight, m))
    requires s.inFlight[m].notional >= 0.0
    requires forall p :: p in more ==> p.exchange == s.inFlight[m].exchange
    requires forall p :: p in more ==> 0.0 <= ExposureOf(p) <= s.inFlight[m].notional * (1.0 + d.slippage)
    ensures WithinLimits(c, d, s')
  {
    SettleKeepsGlobal(c, d, s, m, more, s');
    forall e ensures ExchangeOk(c, d, s', e) {
      assert ExchangeOk(c, d, s, e);
      SettleOn(d, e, s.positions, s.inFlight, m, more);
    }
    CountAppend(ActiveBy(), s.positions, more);
    assert Count(ActiveBy(), more) <= |more|;
  }

  lemma SettleKeepsGlobal(c: Config, d: Discipline, s: State, m: nat, more: seq<Position>, s': State)
    requires Legal(c, d) && GlobalOk(c, d, s) && m < |s.inFlight| && |more| <= 1
    requires s' == s.(positions := s.positions + more, inFlight := Without(s.inFlight, m))
    requires s.inFlight[m].notional >= 0.0
    requires forall p :: p in more ==> ExposureOf(p) <= s.inFlight[m].notional * (1.0 + d.slippage)
    ensures GlobalOk(c, d, s')
  {
    SettleCommits(d, ExposureOf, NotionalOf(), s.positions, s.inFlight, m, more);
  }

  lemma SettleOn(d: Discipline, e: Exchange, held: seq<Position>, flying: seq<Intent>, m: nat, more: seq<Position>)
    requires m < |flying| && |more| <= 1 && flying[m].notional >= 0.0 && d.slippage >= 0.0
    requires forall p :: p in more ==> p.exchange == flying[m].exchange
    requires forall p :: p in more ==> ExposureOf(p) <= flying[m].notional * (1.0 + d.slippage)
    ensures Committed(d, Sum(ExposureOn(e), held + more), Sum(NotionalOn(e), Without(flying, m)))
         <= Committed(d, Sum(ExposureOn(e), held), Sum(NotionalOn(e), flying))
  {
    forall p | p in more ensures ExposureOn(e)(p) <= NotionalOn(e)(flying[m]) * (1.0 + d.slippage) {
      if flying[m].exchange != e {
        assert ExposureOn(e)(p) == 0.0 && NotionalOn(e)(flying[m]) == 0.0;
      }
    }
    SettleCommits(d, ExposureOn(e), NotionalOn(e), held, flying, m, more);
  }

  lemma AbandonKeeps(c: Config, d: Discipline, s: State, e: Event, s': State)
    requires Legal(c, d) && Invariant(c, d, s) && e.Abandon? && Step(c, d, s, e, s')
    ensures Invariant(c, d, s')
  {
    assert s.positions + [] == s.positions;
    assert s.inFlight[e.intent] in s.inFlight && IntentOk(c, s, s.inFlight[e.intent]);
    SettleKeepsLimits(c, d, s, e.intent, [], s');
    forall p | p in s'.positions ensures PositionOk(c, s', p) {
      assert PositionOk(c, s, p);
    }
    forall y | y in s'.inFlight ensures IntentOk(c, s', y) {
      assert y in s.inFlight;
    }
  }

  lemma FillKeepsSeparated(c: Config, d: Discipline, s: State, m: nat, p: Position, s': State)
    requires Invariant(c, d, s) && m < |s.inFlight|
    requires s' == s.(positions := s.positions + [p], inFlight := Without(s.inFlight, m))
    requires p.Key() == s.inFlight[m].Key() && p.openedAt == s.now
    ensures Separated(c, s')
  {
    var x := s.inFlight[m];
    assert x in s.inFlight && IntentOk(c, s, x);
    forall i | 0 <= i < |s'.inFlight| ensures s'.inFlight[i].Key() != p.Key() {
      assert s'.inFlight[i] == s.inFlight[if i < m then i else i + 1];
    }
    forall q, y | q in s'.positions && y in s'.inFlight && q.Key() == y.Key()
      ensures q.closedAt.Some? && y.decidedAt - q.closedAt.value >= Reentry(c)
    {
      assert y in s.inFlight && q in s.positions;
    }
    forall i, j | 0 <= i < j < |s'.positions| && s'.positions[i].Key() == s'.positions[j].Key()
      ensures s'.positions[i].closedAt.Some?
           && s'.positions[j].openedAt - s'.positions[i].closedAt.value >= Reentry(c)
    {
      assert s'.positions[i] == s.positions[i] && s.positions[i] in s.positions;
    }
  }

  lemma FillKeeps(c: Config, d: Discipline, s: State, e: Event, s': State)
    requires Legal(c, d) && Invariant(c, d, s) && e.Fill? && Step(c, d, s, e, s')
    ensures Invariant(c, d, s')
  {
    var m, p := e.intent, e.filled;
    assert s.inFlight[m] in s.inFlight && IntentOk(c, s, s.inFlight[m]);
    SettleKeepsLimits(c, d, s, m, [p], s');
    FillKeepsSeparated(c, d, s, m, p, s');
    forall q | q in s'.positions ensures PositionOk(c, s', q) {
      assert q in s.positions || q == p;
    }
    forall y | y in s'.inFlight ensures IntentOk(c, s', y) {
      assert y in s.inFlight;
    }
  }

  lemma HeldShrinks(d: Discipline, less: real, held: real, pending: real)
    requires less <= held
    ensures Committed(d, less, pending) <= Committed(d, held, pending)
  {
  }

  lemma UpdateKeepsLimits(c: Config, d: Discipline, s: State, i: nat, p: Position, s': State)
    requires WithinLimits(c, d, s) && i < |s.positions|
    requires s' == s.(positions := s.positions[i := p])
    requires p.exchange == s.positions[i].exchange
    requires ExposureOf(p) <= ExposureOf(s.positions[i]) && (p.Active() ==> s.positions[i].Active())
    ensures WithinLimits(c, d, s')
  {
    CountUpdate(ActiveBy(), s.positions, i, p);
    SumUpdate(ExposureOf, s.positions, i, p);
    HeldShrinks(d, Sum(ExposureOf, s'.positions), Sum(ExposureOf, s.positions), Sum(NotionalOf(), s.inFlight));
    assert GlobalOk(c, d, s');
    forall e ensures ExchangeOk(c, d, s', e) {
      assert ExchangeOk(c, d, s, e);
      SumUpdate(ExposureOn(e), s.positions, i, p);
      HeldShrinks(d, Sum(ExposureOn(e), s'.positions), Sum(ExposureOn(e), s.positions), Sum(NotionalOn(e), s.inFlight));
    }
  }

  /** A change to one position that keeps its market and does not raise its exposure. */
  lemma UpdateKeeps(c: Config, d: Discipline, s: State, i: nat, p: Position, s': State)
    requires Legal(c, d) && Invariant(c, d, s) && i < |s.positions|
    requires s' == s.(positions := s.positions[i := p])
    requires s.positions[i].status != Closed && PositionOk(c, s, p)
    requires p.exchange == s.positions[i].exchange && p.baseAsset == s.positions[i].baseAsset
    requires p.openedAt == s.positions[i].openedAt && p.spotEntryPrice == s.positions[i].spotEntryPrice
    requires p.quantity <= s.positions[i].quantity
    ensures Invariant(c, d, s')
  {
    var was := s.positions[i];
    assert was in s.positions && PositionOk(c, s, was);
    Times(was.quantity - p.quantity, p.spotEntryPrice);
    UpdateKeepsLimits(c, d, s, i, p, s');
    forall q | q in s'.positions ensures PositionOk(c, s', q) {
      assert q == p || q in s.positions;
    }
    UpdateKeepsSeparated(c, d, s, i, p, s');
  }

  lemma UpdateKeepsSeparated(c: Config, d: Discipline, s: State, i: nat, p: Position, s': State)
    requires Invariant(c, d, s) && i < |s.positions|
    requires s' == s.(positions := s.positions[i := p])
    requires s.positions[i].status != Closed
    requires p.Key() == s.positions[i].Key() && p.openedAt == s.positions[i].openedAt
    ensures Separated(c, s')
  {
    var was := s.positions[i];
    assert was in s.positions && PositionOk(c, s, was);
    forall q, x | q in s'.positions && x in s'.inFlight && q.Key() == x.Key()
      ensures q.closedAt.Some? && x.decidedAt - q.closedAt.value >= Reentry(c)
    {
      assert q == p || q in s.positions;
      assert !(was.Key() == x.Key());
    }
    forall a, b | 0 <= a < b < |s'.positions| && s'.positions[a].Key() == s'.positions[b].Key()
      ensures s'.positions[a].closedAt.Some?
           && s'.positions[b].openedAt - s'.positions[a].closedAt.value >= Reentry(c)
    {
      assert s.positions[a].Key() == s.positions[b].Key();
    }
  }

  lemma WaitKeeps(c: Config, d: Discipline, s: State, e: Event, s': State)
    requires Legal(c, d) && Invariant(c, d, s) && e.Wait? && Step(c, d, s, e, s')
    ensures Invariant(c, d, s')
  {
    assert WithinLimits(c, d, s') by {
      assert GlobalOk(c, d, s') && forall ex :: ExchangeOk(c, d, s, ex) ==> ExchangeOk(c, d, s', ex);
    }
    forall p | p in s'.positions ensures PositionOk(c, s', p) {
      assert PositionOk(c, s, p);
    }
  }

  lemma StepKeeps(c: Config, d: Discipline, s: State, e: Event, s': State)
    requires Legal(c, d) && Invariant(c, d, s) && Step(c, d, s, e, s')
    ensures Invariant(c, d, s')
  {
    match e
    case Wait(_) => WaitKeeps(c, d, s, e, s');
    case PlanOpen(_, _) => PlanOpenKeeps(c, d, s, e, s');
    case Fill(_, _) => FillKeeps(c, d, s, e, s');
    case Abandon(_) => AbandonKeeps(c, d, s, e, s');
    case Reserve(i) =>
      assert s.positions[i] in s.positions && PositionOk(c, s, s.positions[i]);
      UpdateKeeps(c, d, s, i, s'.positions[i], s');
    case Release(i) =>
      assert s.positions[i] in s.positions && PositionOk(c, s, s.positions[i]);
      UpdateKeeps(c, d, s, i, s'.positions[i], s');
    case SettleClose(i, _) =>
      assert s.positions[i] in s.positions && PositionOk(c, s, s.positions[i]);
      UpdateKeeps(c, d, s, i, s'.positions[i], s');
  }

  lemma StartKeeps(c: Config, d: Discipline, s: State)
    requires Legal(c, d) && s.positions == [] && s.inFlight == []
    ensures Invariant(c, d, s)
  {
    OvershootNonNegative(c, d);
    NothingCommitted(d);
  }

  lemma NothingCommitted(d: Discipline)
    ensures Committed(d, 0.0, 0.0) == 0.0
  {
  }

  lemma {:induction false} RunKeeps(c: Config, d: Discipline, states: seq<State>, events: seq<Event>, i: nat)
    requires Legal(c, d) && Run(c, d, states, events) && i < |states|
    ensures Invariant(c, d, states[i])
  {
    if i == 0 {
      StartKeeps(c, d, states[0]);
    } else {
      RunKeeps(c, d, states, events, i - 1);
      assert Step(c, d, states[i - 1], events[i - 1], states[i]);
      StepKeeps(c, d, states[i - 1], events[i - 1], states[i]);
    }
  }

  // ---------- what every run keeps ----------

  lemma HeldWithin(d: Discipline, f: Intent -> real, flying: seq<Intent>, held: real, cap: real)
    requires d.slippage >= 0.0 && forall x :: x in flying ==> f(x) >= 0.0
    requires Committed(d, held, Sum(f, flying)) <= cap
    ensures held <= cap
  {
    SumNonNegative(f, flying);
    Times(1.0 + d.slippage, Sum(f, flying));
  }

  lemma {:induction false} SumNonNegative(f: Intent -> real, flying: seq<Intent>)
    requires forall x :: x in flying ==> f(x) >= 0.0
    ensures Sum(f, flying) >= 0.0
  {
    if flying != [] {
      SumNonNegative(f, flying[1..]);
    }
  }

  /** Over every run from an empty portfolio, for any number of opens in flight and any
      slippage: exposures and position count stay within their limits plus what was in
      flight; no market is active twice; a market is re-entered only after the wait. */
  lemma SafeOverEveryRun(c: Config, d: Discipline, states: seq<State>, events: seq<Event>, i: nat)
    requires Legal(c, d) && Run(c, d, states, events) && i < |states|
    ensures var ps := states[i].positions;
      && Sum(ExposureOf, ps) <= c.globalMaxExposure + Overshoot(c, d)
      && (forall e :: Sum(ExposureOn(e), ps) <= c.perExchangeMaxExposure + Overshoot(c, d))
      && Count(ActiveBy(), ps) <= c.maxConcurrentPositions + d.inFlight - 1
      && (forall a, b :: 0 <= a < b < |ps| && ps[a].Active() && ps[b].Active() ==> ps[a].Key() != ps[b].Key())
      && (forall a, b :: 0 <= a < b < |ps| && ps[a].Key() == ps[b].Key() ==>
            ps[a].closedAt.Some? && ps[b].openedAt >= ps[a].closedAt.value + c.minimumReentryMinutes as real * 60.0)
  {
    RunKeeps(c, d, states, events, i);
    var s := states[i];
    forall x | x in s.inFlight ensures x.notional >= 0.0 {
      assert IntentOk(c, s, x);
    }
    assert GlobalOk(c, d, s);
    HeldWithin(d, NotionalOf(), s.inFlight, Sum(ExposureOf, s.positions), c.globalMaxExposure + Overshoot(c, d));
    forall e ensures Sum(ExposureOn(e), s.positions) <= c.perExchangeMaxExposure + Overshoot(c, d) {
      assert ExchangeOk(c, d, s, e);
      HeldWithin(d, NotionalOn(e), s.inFlight, Sum(ExposureOn(e), s.positions), c.perExchangeMaxExposure + Overshoot(c, d));
    }
    forall a, b | 0 <= a < b < |s.positions| && s.positions[a].Active() && s.positions[b].Active()
      ensures s.positions[a].Key() != s.positions[b].Key()
    {
      assert s.positions[a] in s.positions && PositionOk(c, s, s.positions[a]);
    }
  }
}
