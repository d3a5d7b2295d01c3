/** What follows for every evaluation from `Automation.Answers`. */
module AutomationLaws {
  import opened Models
  import opened Sorting
  import opened Text
  import opened Arithmetic
  import opened Automation
  import opened Evaluator

  // ---------- the answer does not depend on list order ----------

  lemma {:induction false} QuotedWhenDistinct(c: Config, opportunities: seq<Opportunity>, key: string, o: Opportunity)
    requires DistinctKeys(opportunities)
    ensures Quoted(c, opportunities, key) == Some(o)
        <==> o in opportunities && o.exchange in c.enabledExchanges && o.Key() == key
  {
    if opportunities != [] {
      var n := |opportunities| - 1;
      var rest, last := opportunities[..n], opportunities[n];
      assert opportunities == rest + [last];
      QuotedWhenDistinct(c, rest, key, o);
      if o in rest {
        var i :| 0 <= i < n && opportunities[i] == o;
        assert opportunities[i].Key() != opportunities[n].Key();
      }
    }
  }

  lemma DistinctPermutes(a: seq<Opportunity>, b: seq<Opportunity>)
    requires multiset(a) == multiset(b) && DistinctKeys(a)
    ensures DistinctKeys(b)
  {
    forall i, j | 0 <= i < j < |b| ensures b[i].Key() != b[j].Key() {
      var k, m := TwoIndices(a, b, i, j);
      SameKeySameIndex(a, k, m);
    }
  }

  lemma SameKeySameIndex(s: seq<Opportunity>, k: int, m: int)
    requires DistinctKeys(s) && 0 <= k < |s| && 0 <= m < |s|
    ensures s[k].Key() == s[m].Key() ==> k == m
  {
  }

  ghost predicate SameButForOrder(t: Tick, t': Tick) {
    && t'.config == t.config
    && t'.dailyRealizedPnl == t.dailyRealizedPnl
    && t'.blockedOpenKeys == t.blockedOpenKeys
    && t'.now == t.now
    && multiset(t'.opportunities) == multiset(t.opportunities)
    && multiset(t'.positions) == multiset(t.positions)
  }

  /** All closes that are least by trigger, estimated PnL and opening time are the same. */
  ghost predicate UniqueLeastClose(t: Tick) {
    forall p, q, x, y | LeastClose(t, p, x) && LeastClose(t, q, y) :: x == y
  }

  lemma SameQuotes(t: Tick, t': Tick)
    requires SameButForOrder(t, t') && DistinctKeys(t.opportunities)
    ensures forall key :: Quoted(t'.config, t'.opportunities, key) == Quoted(t.config, t.opportunities, key)
  {
    DistinctPermutes(t.opportunities, t'.opportunities);
    forall key ensures Quoted(t'.config, t'.opportunities, key) == Quoted(t.config, t.opportunities, key) {
      var q, q' := Quoted(t.config, t.opportunities, key), Quoted(t'.config, t'.opportunities, key);
      if q.Some? {
        QuotedWhenDistinct(t.config, t.opportunities, key, q.value);
        QuotedWhenDistinct(t'.config, t'.opportunities, key, q.value);
        assert q.value in multiset(t'.opportunities);
      } else if q'.Some? {
        QuotedWhenDistinct(t.config, t.opportunities, key, q'.value);
        QuotedWhenDistinct(t'.config, t'.opportunities, key, q'.value);
        assert q'.value in multiset(t.opportunities);
      }
    }
  }

  lemma SameExposures(a: seq<Position>, b: seq<Position>)
    requires multiset(a) == multiset(b)
    ensures Count(ActiveBy(), a) == Count(ActiveBy(), b) && Sum(ExposureOf, a) == Sum(ExposureOf, b)
    ensures forall e :: Sum(ExposureOn(e), a) == Sum(ExposureOn(e), b)
  {
    CountPermutes(ActiveBy(), a, b);
    SumPermutes(ExposureOf, a, b);
    forall e ensures Sum(ExposureOn(e), a) == Sum(ExposureOn(e), b) {
      SumPermutes(ExposureOn(e), a, b);
    }
  }

  lemma SameCloses(t: Tick, t': Tick)
    requires SameButForOrder(t, t')
    requires forall key :: Quoted(t'.config, t'.opportunities, key) == Quoted(t.config, t.opportunities, key)
    ensures forall p, x :: Contributes(t', p, x) == Contributes(t, p, x)
    ensures forall p :: MustClose(t', p) == MustClose(t, p)
  {
  }

  lemma SameConditions(t: Tick, t': Tick)
    requires t.config.bookCapacityMultiple > 0.0
    requires SameButForOrder(t, t') && DistinctKeys(t.opportunities)
    ensures multiset(Scoped(t')) == multiset(Scoped(t))
    ensures forall p, x :: Contributes(t', p, x) == Contributes(t, p, x)
    ensures forall p :: MustClose(t', p) == MustClose(t, p)
    ensures forall o :: Openable(t', o) == Openable(t, o)
    ensures forall o :: BoundedNotional(t', o) == BoundedNotional(t, o)
    ensures OpeningPortfolioBlock(t'.config, Scoped(t'), t'.dailyRealizedPnl)
         == OpeningPortfolioBlock(t.config, Scoped(t), t.dailyRealizedPnl)
  {
    SameQuotes(t, t');
    SameCloses(t, t');
    FilterPermutes(InScopeBy(t.config), t.positions, t'.positions);
    SameExposures(Scoped(t), Scoped(t'));
    SameMembers(t.positions, t'.positions);
    forall o ensures Openable(t', o) == Openable(t, o) && BoundedNotional(t', o) == BoundedNotional(t, o) {
      assert Sum(ExposureOn(o.exchange), Scoped(t)) == Sum(ExposureOn(o.exchange), Scoped(t'));
    }
  }

  lemma ClosesCorrespond(t: Tick, t': Tick, e: Evaluation, e': Evaluation)
    requires t.config.bookCapacityMultiple > 0.0 && t'.config == t.config
    requires multiset(Scoped(t')) == multiset(Scoped(t)) && forall p :: MustClose(t', p) == MustClose(t, p)
    requires Answers(t, e) && Answers(t', e')
    requires e.Decided? && e.decision.Close?
    ensures e'.Decided? && e'.decision.Close?
  {
    SameMembers(Scoped(t), Scoped(t'));
    var i, x :| BestClose(t, i, x) && e.decision == x.decision;
    assert Scoped(t)[i] in Scoped(t') && MustClose(t', Scoped(t)[i]);
  }

  lemma OpensCorrespond(t: Tick, t': Tick, e: Evaluation, e': Evaluation)
    requires t.config.bookCapacityMultiple > 0.0 && t'.config == t.config
    requires multiset(t'.opportunities) == multiset(t.opportunities)
    requires forall o :: Openable(t', o) == Openable(t, o)
    requires OpeningPortfolioBlock(t'.config, Scoped(t'), t'.dailyRealizedPnl)
          == OpeningPortfolioBlock(t.config, Scoped(t), t.dailyRealizedPnl)
    requires Answers(t, e) && Answers(t', e')
    requires e.Decided? && e.decision.OpenTrade? && !(e'.Decided? && e'.decision.Close?)
    ensures e'.Decided? && e'.decision.OpenTrade?
  {
    SameMembers(t.opportunities, t'.opportunities);
    var i :| BestOpen(t, i) && e.decision.opportunity == t.opportunities[i];
    assert t.opportunities[i] in t'.opportunities && Openable(t', t.opportunities[i]);
  }

  /** Permuting the opportunities never changes the answer; permuting the positions
      can change it only by breaking a tie between two least closes. */
  lemma OrderIndependent(t: Tick, t': Tick, e: Evaluation, e': Evaluation)
    requires t.config.bookCapacityMultiple > 0.0
    requires SameButForOrder(t, t') && DistinctKeys(t.opportunities)
    requires t'.positions == t.positions || UniqueLeastClose(t)
    requires Answers(t, e) && Answers(t', e')
    ensures e == e'
  {
    SameConditions(t, t');
    if e.Decided? && e.decision.Close? {
      ClosesCorrespond(t, t', e, e');
      var i, x :| BestClose(t, i, x) && e.decision == x.decision;
      var j, y :| BestClose(t', j, y) && e'.decision == y.decision;
      SameClose(t, t', i, x, j, y);
    } else if e'.Decided? && e'.decision.Close? {
      ClosesCorrespond(t', t, e', e);
    } else if e.Decided? {
      OpensCorrespond(t, t', e, e');
      var i :| BestOpen(t, i) && e.decision.opportunity == t.opportunities[i];
      var j :| BestOpen(t', j) && e'.decision.opportunity == t'.opportunities[j];
      SameOpen(t, t', i, j);
    } else if e'.Decided? {
      OpensCorrespond(t', t, e', e);
    }
  }

  lemma SameClose(t: Tick, t': Tick, i: int, x: CloseCandidate, j: int, y: CloseCandidate)
    requires multiset(Scoped(t')) == multiset(Scoped(t))
    requires forall p, z :: Contributes(t', p, z) == Contributes(t, p, z)
    requires t'.config == t.config && (t'.positions == t.positions || UniqueLeastClose(t))
    requires BestClose(t, i, x) && BestClose(t', j, y)
    ensures x == y
  {
    if t'.positions == t.positions {
      assert Scoped(t') == Scoped(t);
      SameBest(t, t', i, x, j, y);
    } else {
      BestIsLeast(t, i, x);
      BestIsLeast(t', j, y);
      LeastPermutes(t', t, Scoped(t')[j], y);
    }
  }

  lemma SameBest(t: Tick, t': Tick, i: int, x: CloseCandidate, j: int, y: CloseCandidate)
    requires Scoped(t') == Scoped(t)
    requires forall p, z :: Contributes(t', p, z) == Contributes(t, p, z)
    requires BestClose(t, i, x) && BestClose(t', j, y)
    ensures x == y
  {
    BestBeats(t, i, x, j, y);
    BestBeats(t', j, y, i, x);
    CandidateUnique(t, Scoped(t)[i], x, y);
  }

  lemma BestBeats(t: Tick, i: int, x: CloseCandidate, j: int, y: CloseCandidate)
    requires BestClose(t, i, x) && 0 <= j < |Scoped(t)| && Contributes(t, Scoped(t)[j], y)
    ensures CloseLeq(x, y) && (j < i ==> !CloseLeq(y, x))
  {
  }

  lemma LeastPermutes(t: Tick, t': Tick, p: Position, x: CloseCandidate)
    requires multiset(Scoped(t')) == multiset(Scoped(t)) && t'.config == t.config
    requires forall q, y :: Contributes(t', q, y) == Contributes(t, q, y)
    requires LeastClose(t, p, x)
    ensures LeastClose(t', p, x)
  {
    SameMembers(Scoped(t), Scoped(t'));
    FilterMembers(InScopeBy(t.config), t.positions);
    FilterMembers(InScopeBy(t'.config), t'.positions);
    assert p in Scoped(t);
    forall q, y | q in t'.positions && InScope(t'.config, q) && Contributes(t', q, y) ensures CloseLeq(x, y) {
      assert q in Scoped(t);
    }
  }

  lemma SameOpen(t: Tick, t': Tick, i: int, j: int)
    requires t.config.bookCapacityMultiple > 0.0
    requires SameButForOrder(t, t') && DistinctKeys(t.opportunities)
    requires forall o :: Openable(t', o) == Openable(t, o)
    requires BestOpen(t, i) && BestOpen(t', j)
    ensures t.opportunities[i] == t'.opportunities[j]
  {
    var a, b := t.opportunities[i], t'.opportunities[j];
    SameMembers(t.opportunities, t'.opportunities);
    assert a in t'.opportunities && b in t.opportunities;
    var k :| 0 <= k < |t.opportunities| && t.opportunities[k] == b;
    var m :| 0 <= m < |t'.opportunities| && t'.opportunities[m] == a;
    assert RankLeq(a, t.opportunities[k]) && RankLeq(b, t'.opportunities[m]);
    RankTie(a, b);
    SameKeySameIndex(t.opportunities, i, k);
  }

  /** Every arrangement of the same lists gets the same answer. */
  ghost predicate OrderIrrelevant(t: Tick)
    requires t.config.bookCapacityMultiple > 0.0
  {
    forall t', t'', e', e'' ::
      SameButForOrder(t, t') && SameButForOrder(t, t'') && Answers(t', e') && Answers(t'', e'') ==> e' == e''
  }

  /** A least close is the answer when its position is listed first. */
  lemma LeastCloseFirst(t: Tick, p: Position, x: CloseCandidate) returns (t': Tick)
    requires t.config.bookCapacityMultiple > 0.0 && LeastClose(t, p, x)
    ensures SameButForOrder(t, t') && Answers(t', Decided(x.decision))
  {
    var i :| 0 <= i < |t.positions| && t.positions[i] == p;
    SplitAt(t.positions, i);
    t' := t.(positions := [p] + Without(t.positions, i));
    assert multiset(t'.positions) == multiset(t.positions);
    SameCloses(t, t');
    FilterPermutes(InScopeBy(t.config), t.positions, t'.positions);
    LeastPermutes(t, t', p, x);
    FirstIsBest(t', p, x);
  }

  lemma FirstIsBest(t: Tick, p: Position, x: CloseCandidate)
    requires t.config.bookCapacityMultiple > 0.0 && t.positions != [] && t.positions[0] == p
    requires LeastClose(t, p, x)
    ensures Answers(t, Decided(x.decision))
  {
    assert Scoped(t)[0] == p;
    forall j, y | 0 <= j < |Scoped(t)| && Contributes(t, Scoped(t)[j], y) ensures CloseLeq(x, y) {
      ScopedPosition(t, j);
    }
    assert BestClose(t, 0, x);
    assert x.decision.Close?;
  }

  /** The order of the lists is irrelevant exactly when no two different closes are both
      least. */
  lemma OrderMattersExactly(t: Tick)
    requires t.config.bookCapacityMultiple > 0.0 && DistinctKeys(t.opportunities)
    ensures OrderIrrelevant(t) <==> UniqueLeastClose(t)
  {
    if UniqueLeastClose(t) {
      forall t', t'', e', e'' |
        SameButForOrder(t, t') && SameButForOrder(t, t'') && Answers(t', e') && Answers(t'', e'')
        ensures e' == e''
      {
        DistinctPermutes(t.opportunities, t'.opportunities);
        UniquePermutes(t, t');
        OrderIndependent(t', t'', e', e'');
      }
    } else {
      TieDecides(t);
    }
  }

  lemma TieDecides(t: Tick)
    requires t.config.bookCapacityMultiple > 0.0 && !UniqueLeastClose(t)
    ensures !OrderIrrelevant(t)
  {
    var p, q, x, y :| LeastClose(t, p, x) && LeastClose(t, q, y) && x != y;
    assert CloseLeq(x, y) && CloseLeq(y, x);
    TiedClosesDiffer(t, p, q, x, y);
    var t' := LeastCloseFirst(t, p, x);
    var t'' := LeastCloseFirst(t, q, y);
    var e', e'' := Decided(x.decision), Decided(y.decision);
    assert Answers(t', e') && Answers(t'', e'') && e' != e'';
  }

  lemma TiedClosesDiffer(t: Tick, p: Position, q: Position, x: CloseCandidate, y: CloseCandidate)
    requires Contributes(t, p, x) && Contributes(t, q, y) && CloseLeq(x, y) && CloseLeq(y, x) && x != y
    ensures x.decision != y.decision
  {
  }

  lemma UniquePermutes(t: Tick, t': Tick)
    requires t.config.bookCapacityMultiple > 0.0
    requires SameButForOrder(t, t') && DistinctKeys(t.opportunities) && UniqueLeastClose(t)
    ensures UniqueLeastClose(t')
  {
    SameConditions(t, t');
    forall p, q, x, y | LeastClose(t', p, x) && LeastClose(t', q, y) ensures x == y {
      LeastPermutes(t', t, p, x);
      LeastPermutes(t', t, q, y);
    }
  }

  // ---------- closes come first, opens are exact ----------

  /** `x` is the least close, over every position in scope. */
  ghost predicate LeastClose(t: Tick, p: Position, x: CloseCandidate) {
    && p in t.positions && InScope(t.config, p) && Contributes(t, p, x)
    && forall q, y | q in t.positions && InScope(t.config, q) && Contributes(t, q, y) :: CloseLeq(x, y)
  }

  lemma ScopedIndex(t: Tick, p: Position) returns (k: int)
    requires p in t.positions && InScope(t.config, p)
    ensures 0 <= k < |Scoped(t)| && Scoped(t)[k] == p
  {
    FilterMembers(InScopeBy(t.config), t.positions);
    assert p in Scoped(t);
    k :| 0 <= k < |Scoped(t)| && Scoped(t)[k] == p;
  }

  lemma ScopedPosition(t: Tick, k: int)
    requires 0 <= k < |Scoped(t)|
    ensures Scoped(t)[k] in t.positions && InScope(t.config, Scoped(t)[k]) && Scoped(t)[k] in Scoped(t)
  {
    FilterMembers(InScopeBy(t.config), t.positions);
  }

  lemma BestIsLeast(t: Tick, i: int, x: CloseCandidate)
    requires BestClose(t, i, x)
    ensures LeastClose(t, Scoped(t)[i], x)
  {
    ScopedPosition(t, i);
    forall q, y | q in t.positions && InScope(t.config, q) && Contributes(t, q, y) ensures CloseLeq(x, y) {
      var k := ScopedIndex(t, q);
      assert Contributes(t, Scoped(t)[k], y);
    }
  }

  lemma CloseHasCause(t: Tick, e: Evaluation)
    requires t.config.bookCapacityMultiple > 0.0
    requires Answers(t, e) && e.Decided? && e.decision.Close?
    ensures !NothingToClose(t)
  {
    var i, x :| BestClose(t, i, x) && e.decision == x.decision;
    ScopedPosition(t, i);
    assert MustClose(t, Scoped(t)[i]);
  }

  /** A close is decided exactly when some position in scope must close, and it is the
      least such close by (trigger, estimated PnL, opening time), carrying the reason of
      the first trigger that holds. */
  lemma ClosePreempts(t: Tick, e: Evaluation)
    requires t.config.bookCapacityMultiple > 0.0
    requires Answers(t, e)
    ensures e.Decided? && e.decision.Close? <==> exists p :: p in t.positions && InScope(t.config, p) && MustClose(t, p)
    ensures e.Decided? && e.decision.Close? ==> exists p, x :: LeastClose(t, p, x) && e.decision == x.decision
  {
    FilterMembers(InScopeBy(t.config), t.positions);
    if e.Decided? && e.decision.Close? {
      var i, x :| BestClose(t, i, x) && e.decision == x.decision;
      BestIsLeast(t, i, x);
      assert MustClose(t, Scoped(t)[i]);
    } else {
      forall p | p in t.positions && InScope(t.config, p) ensures !MustClose(t, p) {
        assert p in Scoped(t);
      }
    }
  }

  /** The four caps on one trade. */
  function Caps(t: Tick, o: Opportunity): seq<real>
    requires t.config.bookCapacityMultiple > 0.0
  {
    [t.config.notionalPerTrade,
     o.topBookNotional / t.config.bookCapacityMultiple,
     t.config.perExchangeMaxExposure - Sum(ExposureOn(o.exchange), Scoped(t)),
     t.config.globalMaxExposure - Sum(ExposureOf, Scoped(t))]
  }

  lemma BoundedIsLeastCap(t: Tick, o: Opportunity)
    requires t.config.bookCapacityMultiple > 0.0
    ensures exists k :: 0 <= k < 4 && BoundedNotional(t, o) == Caps(t, o)[k]
    ensures forall k :: 0 <= k < 4 ==> BoundedNotional(t, o) <= Caps(t, o)[k]
  {
    var n, caps := BoundedNotional(t, o), Caps(t, o);
    assert n == caps[0] || n == caps[1] || n == caps[2] || n == caps[3];
  }

  /** `o` is the first in rank of everything that may be opened. */
  ghost predicate FirstInRank(t: Tick, o: Opportunity)
    requires t.config.bookCapacityMultiple > 0.0
  {
    && o in t.opportunities && Openable(t, o)
    && forall x :: x in t.opportunities && Openable(t, x) ==> RankLeq(o, x)
  }

  lemma BestIsFirst(t: Tick, i: int)
    requires t.config.bookCapacityMultiple > 0.0 && BestOpen(t, i)
    ensures FirstInRank(t, t.opportunities[i])
  {
    forall x | x in t.opportunities && Openable(t, x) ensures RankLeq(t.opportunities[i], x) {
      var k :| 0 <= k < |t.opportunities| && t.opportunities[k] == x;
      assert Openable(t, t.opportunities[k]);
    }
  }

  /** With nothing to close and no portfolio block, a trade is opened exactly when
      some opportunity passes every rule at a sufficient notional; the one opened is
      first in rank, and its notional is within all four caps and equal to one. */
  lemma OpensExactlyWhenPossible(t: Tick, e: Evaluation)
    requires t.config.bookCapacityMultiple > 0.0
    requires Answers(t, e) && NothingToClose(t)
    requires OpeningPortfolioBlock(t.config, Scoped(t), t.dailyRealizedPnl).None?
    ensures e.Decided? <==> exists o :: o in t.opportunities && Openable(t, o)
    ensures e.Decided? ==>
      && e.decision.OpenTrade?
      && FirstInRank(t, e.decision.opportunity)
      && e.decision.notional >= t.config.minimumTwoLegNotional
      && (exists k :: 0 <= k < 4 && e.decision.notional == Caps(t, e.decision.opportunity)[k])
      && (forall k :: 0 <= k < 4 ==> e.decision.notional <= Caps(t, e.decision.opportunity)[k])
  {
    if e.Decided? && e.decision.Close? {
      CloseHasCause(t, e);
      assert false;
    } else if e.Decided? {
      var i :| BestOpen(t, i) && e.decision.opportunity == t.opportunities[i]
            && e.decision.notional == BoundedNotional(t, e.decision.opportunity);
      BestIsFirst(t, i);
      BoundedIsLeastCap(t, t.opportunities[i]);
    }
  }

  // ---------- "highest-ranked" and a net return of zero ----------

  ghost predicate OpensBest(t: Tick, e: Evaluation)
    requires t.config.bookCapacityMultiple > 0.0
  {
    e.Decided? && e.decision.OpenTrade? ==>
      e.decision.opportunity.netReturn.Some?
      && forall x :: x in t.opportunities && Openable(t, x) ==> x.netReturn.value <= e.decision.opportunity.netReturn.value
  }

  /** On one tick the opened trade has the highest net return unless every candidate
      is at most zero, one is exactly zero and one is negative. */
  lemma HighestNetReturnExactly(t: Tick, e: Evaluation)
    requires t.config.bookCapacityMultiple > 0.0
    requires Answers(t, e) && e.Decided? && e.decision.OpenTrade?
    ensures OpensBest(t, e) <==>
      (exists x :: x in t.opportunities && Openable(t, x) && x.netReturn.value > 0.0)
      || !(exists x :: x in t.opportunities && Openable(t, x) && x.netReturn.value == 0.0)
      || !(exists x :: x in t.opportunities && Openable(t, x) && x.netReturn.value < 0.0)
  {
    OpensExactlyWhenPossible(t, e);
    var o := e.decision.opportunity;
    assert o in t.opportunities && Openable(t, o);
    if x :| x in t.opportunities && Openable(t, x) && x.netReturn.value > 0.0 {
      assert RankLeq(o, x);
    } else if x :| x in t.opportunities && Openable(t, x) && x.netReturn.value == 0.0 {
      if y :| y in t.opportunities && Openable(t, y) && y.netReturn.value < 0.0 {
        assert RankLeq(o, y);
        assert x.netReturn.value > o.netReturn.value;
      }
    }
  }

  /** Asset names, all different. */
  function Asset(i: nat): string { seq(i, _ => 'A') }

  lemma AssetsDiffer(e: Exchange, i: nat, j: nat)
    ensures PairKey(e, Asset(i)) == PairKey(e, Asset(j)) ==> i == j
  {
    if PairKey(e, Asset(i)) == PairKey(e, Asset(j)) {
      PairKeyInjective(e, Asset(i), e, Asset(j));
      assert |Asset(i)| == i && |Asset(j)| == j;
    }
  }

  /** A market that passes every rule of a valid configuration. */
  function Market(c: Config, e: Exchange, asset: string, net: real, now: Time): Opportunity {
    Opportunity(e, asset, "S", "P", now, 1.0, 1.0, 1.0, 1.0, c.minimumOpeningBasis,
                c.notionalPerTrade * c.bookCapacityMultiple, 0.0, 0.0, 8.0, None,
                c.minimumCurrentApr, Some(c.minimumApr24h), Some(c.minimumApr7d), Some(net),
                0.0, 0.0, 0.0, 0.0, Healthy, 0.0, 0.0)
  }

  lemma MarketOpens(t: Tick, e: Exchange, asset: string, net: real)
    requires ValidConfig(t.config) && e in t.config.enabledExchanges && net >= t.config.minimumNetReturn
    requires t.positions == [] && PairKey(e, asset) !in t.blockedOpenKeys
    ensures Openable(t, Market(t.config, e, asset, net, t.now))
    ensures BoundedNotional(t, Market(t.config, e, asset, net, t.now)) == t.config.notionalPerTrade
  {
    var c := t.config;
    MultiplyThenDivide(c.notionalPerTrade, c.bookCapacityMultiple);
    assert Scoped(t) == [];
  }

  lemma ZeroRanksLast(c: Config)
    requires ValidConfig(c) && c.minimumNetReturn < 0.0
    ensures exists t: Tick, e: Evaluation :: t.config == c && Answers(t, e) && !OpensBest(t, e)
  {
    var x :| x in c.enabledExchanges;
    var zero, negative := Market(c, x, "A", 0.0, 0.0), Market(c, x, "B", c.minimumNetReturn, 0.0);
    var t := Tick(c, [zero, negative], [], 0.0, {}, 0.0);
    MarketOpens(t, x, "A", 0.0);
    MarketOpens(t, x, "B", c.minimumNetReturn);
    assert Scoped(t) == [];
    assert RankLeq(negative, negative) by { StringLeqTotal("B", "B"); }
    assert BestOpen(t, 1);
    var e := Decided(OpenTrade(negative, c.notionalPerTrade));
    assert Answers(t, e);
    assert zero in t.opportunities && Openable(t, zero);
    assert !OpensBest(t, e);
  }

  /** Whether "highest-ranked" always means highest net return is decided by the sign
      of one threshold. */
  lemma HighestNetReturnIffThresholdNonNegative(c: Config)
    requires ValidConfig(c)
    ensures c.minimumNetReturn >= 0.0 <==> forall t: Tick, e: Evaluation :: t.config == c && Answers(t, e) ==> OpensBest(t, e)
  {
    if c.minimumNetReturn >= 0.0 {
      forall t: Tick, e: Evaluation | t.config == c && Answers(t, e) ensures OpensBest(t, e) {
        if e.Decided? && e.decision.OpenTrade? {
          HighestNetReturnExactly(t, e);
        }
      }
    } else {
      ZeroRanksLast(c);
    }
  }
}
