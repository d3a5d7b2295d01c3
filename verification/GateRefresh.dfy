/** The live path of `_refresh_gate_automatic_capacity` (automation.py): before each
    evaluation, a bounded number of Gate opportunities get a depth-checked quote. */
module GateRefresh {
  import opened Models
  import opened Sorting
  import opened Text
  import opened Automation
  import opened Evaluator
  import opened AutomationLaws
  import Calculations

  const DEPTH_CANDIDATES := 20

  /** What one refresh looks at; `pairs` are the keys with known trading rules. */
  datatype Scan = Scan(
    config: Config,
    opportunities: seq<Opportunity>,
    positions: seq<Position>,
    blocked: set<string>,
    pairs: set<string>,
    now: Time)

  // ---------- which positions come first ----------

  predicate OpenGate(c: Config, p: Position) {
    p.exchange == Gate && p.environment == c.environment && p.status == Open && p.quantity > 0.0
  }

  function OpenGateBy(c: Config): Position -> bool { (p: Position) => OpenGate(c, p) }

  /** `buffer or Decimal("Infinity")`: a buffer of exactly zero counts as infinite. */
  predicate BufferBefore(a: real, b: real) { a != 0.0 && (b == 0.0 || a < b) }

  predicate PositionLeq(p: Position, q: Position) {
    if p.liquidationBuffer.None? != q.liquidationBuffer.None? then q.liquidationBuffer.None?
    else if p.liquidationBuffer.Some? && p.liquidationBuffer != q.liquidationBuffer then
      BufferBefore(p.liquidationBuffer.value, q.liquidationBuffer.value)
    else p.openedAt < q.openedAt || (p.openedAt == q.openedAt && StringLeq(p.baseAsset, q.baseAsset))
  }

  lemma PositionIsTotalPreorder()
    ensures TotalPreorder(PositionLeq)
  {
    forall p, q ensures PositionLeq(p, q) || PositionLeq(q, p) {
      StringLeqTotal(p.baseAsset, q.baseAsset);
    }
    forall p, q, r | PositionLeq(p, q) && PositionLeq(q, r) ensures PositionLeq(p, r) {
      if StringLeq(p.baseAsset, q.baseAsset) && StringLeq(q.baseAsset, r.baseAsset) {
        StringLeqTransitive(p.baseAsset, q.baseAsset, r.baseAsset);
      }
    }
  }

  // ---------- what is requested ----------

  function GateOnly(c: Config): Config { c.(enabledExchanges := {Gate}) }

  /** The opportunity to request for one position, if any. */
  function BackedBy(s: Scan): Position -> Option<Opportunity> {
    (p: Position) =>
      var q := Quoted(GateOnly(s.config), s.opportunities, p.Key());
      if q.Some? && q.value.Key() in s.pairs && TradableQuote(q.value, s.now) then q else None
  }

  /** An open Gate position with a tradable opportunity to request. */
  predicate Askable(s: Scan, p: Position) { OpenGate(s.config, p) && BackedBy(s)(p).Some? }

  function AskableBy(s: Scan): Position -> bool { (p: Position) => Askable(s, p) }

  /** All positions that could be asked for, most exposed first. */
  function Queue(s: Scan): seq<Position> { Sort(PositionLeq, Filter(AskableBy(s), s.positions)) }

  /** The positions asked for, and those dropped at the limit. */
  function Asked(s: Scan): seq<Position> { First(DEPTH_CANDIDATES, Queue(s)) }

  function Dropped(s: Scan): seq<Position> { Queue(s)[|Asked(s)|..] }

  function Backing(s: Scan): (r: seq<Opportunity>)
    ensures |r| <= DEPTH_CANDIDATES
  {
    CollectLength(BackedBy(s), Asked(s));
    Collect(BackedBy(s), Asked(s))
  }

  function KeysOf(requests: seq<Opportunity>): set<string> { set o | o in requests :: o.Key() }

  function NewKey(keys: set<string>, pairs: set<string>): Opportunity -> bool {
    (o: Opportunity) => o.exchange == Gate && o.Key() in pairs && o.Key() !in keys
  }

  /** The openings that no asked position already stands for, in rank order. */
  ghost function Openings(s: Scan): seq<Opportunity> {
    Filter(NewKey(KeysOf(Backing(s)), s.pairs),
           Sort(RankLeq, Filter(PassesBy(s.config, s.positions, s.blocked, s.now), s.opportunities)))
  }

  /** The asked positions' opportunities, then openings up to the limit. */
  ghost function DepthRequests(s: Scan): seq<Opportunity> {
    Backing(s) + First(DEPTH_CANDIDATES - |Backing(s)|, Openings(s))
  }

  /** An opportunity that backs an open Gate position. */
  ghost predicate Backs(s: Scan, o: Opportunity) {
    && TradableQuote(o, s.now)
    && exists p :: p in s.positions && OpenGate(s.config, p) && Quoted(GateOnly(s.config), s.opportunities, p.Key()) == Some(o)
  }

  ghost predicate Requestable(s: Scan, o: Opportunity) {
    && o in s.opportunities && o.exchange == Gate && o.Key() in s.pairs
    && (Backs(s, o) || PassesOpeningRules(s.config, s.positions, s.blocked, s.now, o))
  }

  ghost predicate Requested(requests: seq<Opportunity>, key: string) {
    exists r :: r in requests && r.Key() == key
  }

  // ---------- the loops ----------

  lemma KeysGrow(requests: seq<Opportunity>, o: Opportunity)
    ensures KeysOf(requests + [o]) == KeysOf(requests) + {o.Key()}
  {
    assert o in requests + [o];
    forall k | k in KeysOf(requests) ensures k in KeysOf(requests + [o]) {
      var r :| r in requests && r.Key() == k;
      assert r in requests + [o];
    }
  }

  /** The position loop: the requests of the first positions, until the limit. */
  method PositionLoop(s: Scan, gatePositions: seq<Position>) returns (candidates: seq<Opportunity>, keys: set<string>)
    ensures candidates == First(DEPTH_CANDIDATES, Collect(BackedBy(s), gatePositions))
    ensures keys == KeysOf(candidates)
  {
    var byKey := OpportunityByKey(GateOnly(s.config), s.opportunities);
    ghost var f := BackedBy(s);
    candidates, keys := [], {};
    for i := 0 to |gatePositions|
      invariant |candidates| < DEPTH_CANDIDATES
      invariant candidates == Collect(f, gatePositions[..i]) && keys == KeysOf(candidates)
    {
      var position := gatePositions[i];
      var key := position.Key();
      CollectStep(f, gatePositions, i);
      assert Quoted(GateOnly(s.config), s.opportunities, key) == if key in byKey then Some(byKey[key]) else None;
      if key in byKey && byKey[key].Key() in s.pairs && TradableQuote(byKey[key], s.now) {
        KeysGrow(candidates, byKey[key]);
        candidates := candidates + [byKey[key]];
        keys := keys + {byKey[key].Key()};
      }
      if |candidates| >= DEPTH_CANDIDATES {
        CollectPrefix(f, gatePositions, i + 1);
        return candidates, keys;
      }
    }
    assert gatePositions[..|gatePositions|] == gatePositions;
  }

  /** Sorting the open positions and then skipping those without an opportunity asks for
      the first of the queue. */
  lemma LoopFollowsQueue(s: Scan)
    ensures First(DEPTH_CANDIDATES, Collect(BackedBy(s), Sort(PositionLeq, Filter(OpenGateBy(s.config), s.positions))))
         == Backing(s)
    ensures |Backing(s)| == |Asked(s)|
    ensures forall k :: 0 <= k < |Asked(s)| ==> Askable(s, Asked(s)[k]) && BackedBy(s)(Asked(s)[k]) == Some(Backing(s)[k])
  {
    var f, open := BackedBy(s), Filter(OpenGateBy(s.config), s.positions);
    QueueIsTotal(s);
    QueueSkips(s);
    CollectSkipsNone(f, Sort(PositionLeq, open));
    CollectTotal(f, Queue(s));
    CollectTotal(f, Asked(s));
  }

  lemma QueueIsTotal(s: Scan)
    ensures forall k :: 0 <= k < |Queue(s)| ==> Askable(s, Queue(s)[k]) && BackedBy(s)(Queue(s)[k]).Some?
  {
    QueueMembers(s);
    forall k | 0 <= k < |Queue(s)| ensures Askable(s, Queue(s)[k]) {
      assert Queue(s)[k] in Queue(s);
    }
  }

  lemma QueueSkips(s: Scan)
    ensures Filter(IsSomeBy(BackedBy(s)), Sort(PositionLeq, Filter(OpenGateBy(s.config), s.positions))) == Queue(s)
  {
    PositionIsTotalPreorder();
    FilterSort(PositionLeq, IsSomeBy(BackedBy(s)), Filter(OpenGateBy(s.config), s.positions));
    FilterBoth(OpenGateBy(s.config), IsSomeBy(BackedBy(s)), AskableBy(s), s.positions);
  }

  /** The opportunities behind open Gate positions, most exposed first, up to the limit. */
  method PositionCandidates(s: Scan) returns (candidates: seq<Opportunity>, keys: set<string>)
    ensures candidates == Backing(s) && keys == KeysOf(candidates)
  {
    var gatePositions := Sort(PositionLeq, Filter(OpenGateBy(s.config), s.positions));
    LoopFollowsQueue(s);
    candidates, keys := PositionLoop(s, gatePositions);
  }

  /** All candidates: the ones behind positions, then ranked openings, twenty at most.
      With fewer than twenty, nothing that could be requested was left out. */
  method DepthCandidates(s: Scan) returns (requests: seq<Opportunity>)
    ensures requests == DepthRequests(s)
    ensures |requests| <= DEPTH_CANDIDATES
    ensures forall o :: o in requests ==> Requestable(s, o)
    ensures |requests| < DEPTH_CANDIDATES ==> forall o :: Requestable(s, o) ==> Requested(requests, o.Key())
  {
    var first, keys := PositionCandidates(s);
    var ranked := OpeningRuleCandidates(s.config, s.opportunities, s.positions, s.blocked, s.now);
    var openings := Filter(NewKey(keys, s.pairs), ranked);
    requests := first + First(DEPTH_CANDIDATES - |first|, openings);
    RequestsAreRequestable(s);
    if |requests| < DEPTH_CANDIDATES {
      NothingLeftOut(s);
    }
  }

  lemma {:induction false} QuotedMember(c: Config, opportunities: seq<Opportunity>, key: string)
    requires Quoted(c, opportunities, key).Some?
    ensures var o := Quoted(c, opportunities, key).value;
      o in opportunities && o.exchange in c.enabledExchanges && o.Key() == key
  {
    var n := |opportunities| - 1;
    assert opportunities == opportunities[..n] + [opportunities[n]];
    if !(opportunities[n].exchange in c.enabledExchanges && opportunities[n].Key() == key) {
      QuotedMember(c, opportunities[..n], key);
    }
  }

  lemma QueueMembers(s: Scan)
    ensures forall p :: p in Queue(s) <==> p in s.positions && Askable(s, p)
  {
    FilterMembers(AskableBy(s), s.positions);
    SortPermutes(PositionLeq, Filter(AskableBy(s), s.positions));
    SameMembers(Queue(s), Filter(AskableBy(s), s.positions));
  }

  lemma BackingIs(s: Scan, k: int)
    requires 0 <= k < |Asked(s)|
    ensures |Backing(s)| == |Asked(s)|
    ensures Asked(s)[k] in s.positions && Askable(s, Asked(s)[k]) && BackedBy(s)(Asked(s)[k]) == Some(Backing(s)[k])
    ensures Requestable(s, Backing(s)[k]) && Backs(s, Backing(s)[k]) && Backing(s)[k].Key() == Asked(s)[k].Key()
  {
    LoopFollowsQueue(s);
    QueueMembers(s);
    assert Asked(s)[k] in Queue(s);
    QuotedMember(GateOnly(s.config), s.opportunities, Asked(s)[k].Key());
  }

  lemma OpeningMembers(s: Scan)
    ensures forall o :: o in Openings(s) <==>
      && o in s.opportunities && PassesOpeningRules(s.config, s.positions, s.blocked, s.now, o)
      && o.exchange == Gate && o.Key() in s.pairs && o.Key() !in KeysOf(Backing(s))
  {
    var passes := PassesBy(s.config, s.positions, s.blocked, s.now);
    var passed := Filter(passes, s.opportunities);
    SortPermutes(RankLeq, passed);
    SameMembers(Sort(RankLeq, passed), passed);
    FilterMembers(passes, s.opportunities);
    FilterMembers(NewKey(KeysOf(Backing(s)), s.pairs), Sort(RankLeq, passed));
  }

  lemma RequestsAreRequestable(s: Scan)
    ensures forall o :: o in DepthRequests(s) ==> Requestable(s, o)
  {
    LoopFollowsQueue(s);
    forall o | o in DepthRequests(s) ensures Requestable(s, o) {
      if o in Backing(s) {
        var k :| 0 <= k < |Backing(s)| && Backing(s)[k] == o;
        BackingIs(s, k);
      } else {
        OpeningMembers(s);
        assert o in Openings(s);
      }
    }
  }

  lemma NothingLeftOut(s: Scan)
    requires |DepthRequests(s)| < DEPTH_CANDIDATES
    ensures forall o :: Requestable(s, o) ==> Requested(DepthRequests(s), o.Key())
  {
    LoopFollowsQueue(s);
    QueueMembers(s);
    OpeningMembers(s);
    forall o | Requestable(s, o) ensures Requested(DepthRequests(s), o.Key()) {
      if Backs(s, o) {
        var p :| p in s.positions && OpenGate(s.config, p) && Quoted(GateOnly(s.config), s.opportunities, p.Key()) == Some(o);
        assert p in Asked(s);
        var k :| 0 <= k < |Asked(s)| && Asked(s)[k] == p;
        BackingIs(s, k);
        assert Backing(s)[k] in DepthRequests(s);
      } else if o.Key() in KeysOf(Backing(s)) {
        var r :| r in Backing(s) && r.Key() == o.Key();
        assert r in DepthRequests(s);
      } else {
        assert o in Openings(s);
        assert o in DepthRequests(s);
      }
    }
  }

  // ---------- the order of the requests ----------

  /** The first requests are those of the asked positions, in order; the asked and the
      dropped positions are all the positions that could be asked for, and no dropped
      one precedes an asked one. */
  lemma MostExposedFirst(s: Scan)
    ensures |Asked(s)| <= |DepthRequests(s)|
    ensures Sorted(PositionLeq, Asked(s))
    ensures forall k :: 0 <= k < |Asked(s)| ==> BackedBy(s)(Asked(s)[k]) == Some(DepthRequests(s)[k])
    ensures multiset(Asked(s)) + multiset(Dropped(s)) == multiset(Filter(AskableBy(s), s.positions))
    ensures forall k, j :: 0 <= k < |Asked(s)| && 0 <= j < |Dropped(s)| ==> PositionLeq(Asked(s)[k], Dropped(s)[j])
    ensures Dropped(s) != [] ==> |Asked(s)| == 20
  {
    var askable := Filter(AskableBy(s), s.positions);
    LoopFollowsQueue(s);
    QueueIsSorted(s);
    SortPermutes(PositionLeq, askable);
    assert Queue(s) == Asked(s) + Dropped(s);
  }

  /** A position with an unknown buffer is never asked for before one with a known buffer;
      with equal buffers, or none, the one opened first is asked for first. */
  lemma AskedInTurn(s: Scan, k: int, j: int)
    requires 0 <= k < j < |Queue(s)|
    ensures var p, q := Queue(s)[k], Queue(s)[j];
      && (p.liquidationBuffer.None? ==> q.liquidationBuffer.None?)
      && (p.liquidationBuffer == q.liquidationBuffer ==> p.openedAt <= q.openedAt)
      && (p.liquidationBuffer == q.liquidationBuffer && p.openedAt == q.openedAt ==> StringLeq(p.baseAsset, q.baseAsset))
  {
    QueueIsSorted(s);
    assert PositionLeq(Queue(s)[k], Queue(s)[j]);
  }

  lemma QueueIsSorted(s: Scan)
    ensures Sorted(PositionLeq, Queue(s))
  {
    PositionIsTotalPreorder();
    SortSorts(PositionLeq, Filter(AskableBy(s), s.positions));
  }

  /** The other requests are openings in rank order; an opening left out ranks after all
      of them, and only when the limit was reached. */
  lemma OpeningsInRank(s: Scan)
    ensures var n := |Backing(s)|;
      && Sorted(RankLeq, DepthRequests(s)[n..])
      && forall o :: o in Openings(s) && o !in DepthRequests(s)[n..] ==>
           |DepthRequests(s)| == DEPTH_CANDIDATES && forall r :: r in DepthRequests(s)[n..] ==> RankLeq(r, o)
  {
    LoopFollowsQueue(s);
    RankIsTotalPreorder();
    var n := |Backing(s)|;
    var passed := Filter(PassesBy(s.config, s.positions, s.blocked, s.now), s.opportunities);
    var isNew := NewKey(KeysOf(Backing(s)), s.pairs);
    SortSorts(RankLeq, Filter(isNew, passed));
    FilterSort(RankLeq, isNew, passed);
    var taken := DepthRequests(s)[n..];
    assert taken == First(DEPTH_CANDIDATES - n, Openings(s));
    forall o | o in Openings(s) && o !in taken
      ensures |DepthRequests(s)| == DEPTH_CANDIDATES && forall r :: r in taken ==> RankLeq(r, o)
    {
      var k :| 0 <= k < |Openings(s)| && Openings(s)[k] == o;
      BeyondFirst(DEPTH_CANDIDATES - n, Openings(s), k);
    }
  }

  /** The market of an open position gets a quote exactly through an asked position. */
  lemma RequestedExactlyIfAsked(s: Scan, p: Position)
    requires p in s.positions && OpenGate(s.config, p)
    ensures Requested(DepthRequests(s), p.Key()) <==> exists k :: 0 <= k < |Asked(s)| && Asked(s)[k].Key() == p.Key()
  {
    if r :| r in DepthRequests(s) && r.Key() == p.Key() {
      if r in Backing(s) {
        LoopFollowsQueue(s);
        var k :| 0 <= k < |Backing(s)| && Backing(s)[k] == r;
        BackingIs(s, k);
      } else {
        OpeningMembers(s);
        assert r in Openings(s);
        assert InScope(s.config, p) && p.Active();
        assert false;
      }
    }
    if k :| 0 <= k < |Asked(s)| && Asked(s)[k].Key() == p.Key() {
      BackingIs(s, k);
      assert Backing(s)[k] in DepthRequests(s);
    }
  }

  // ---------- smaller buffers ----------

  predicate Negative(p: Position) { p.liquidationBuffer.Some? && p.liquidationBuffer.value < 0.0 }

  predicate Nonzero(p: Position) { p.liquidationBuffer.Some? && p.liquidationBuffer.value != 0.0 }

  /** The position is at its liquidation price. */
  predicate AtLiquidation(p: Position) { p.liquidationBuffer == Some(0.0) }

  predicate Positive(p: Position) { p.liquidationBuffer.Some? && p.liquidationBuffer.value > 0.0 }

  /** No known buffer is asked for behind a larger one or dropped for it. */
  ghost predicate BuffersInOrder(s: Scan) {
    forall p, k ::
      && p in s.positions && Askable(s, p) && p.liquidationBuffer.Some?
      && 0 <= k < |Asked(s)| && Asked(s)[k].liquidationBuffer.Some?
      && p.liquidationBuffer.value < Asked(s)[k].liquidationBuffer.value
      ==> p in Asked(s)[..k]
  }

  /** How many of the positions that could be asked for satisfy `kind`. */
  function Waiting(s: Scan, kind: Position -> bool): nat { Count(kind, Filter(AskableBy(s), s.positions)) }

  lemma FrontOfQueue(s: Scan, front: Position -> bool)
    requires forall p, q :: PositionLeq(p, q) && front(q) ==> front(p)
    ensures forall k :: 0 <= k < |Queue(s)| ==> (front(Queue(s)[k]) <==> k < Waiting(s, front))
  {
    var askable := Filter(AskableBy(s), s.positions);
    PositionIsTotalPreorder();
    SortSorts(PositionLeq, askable);
    SortPermutes(PositionLeq, askable);
    CountPermutes(front, askable, Queue(s));
    CountOfSorted(PositionLeq, front, Queue(s));
  }

  /** A position at its liquidation price is asked for exactly when there is one and fewer
      than twenty others have a known buffer. */
  lemma AtLiquidationAskedExactly(s: Scan)
    ensures (exists k :: 0 <= k < |Asked(s)| && AtLiquidation(Asked(s)[k]))
       <==> Waiting(s, Nonzero) < DEPTH_CANDIDATES
            && exists p :: p in s.positions && Askable(s, p) && AtLiquidation(p)
  {
    FrontOfQueue(s, Nonzero);
    QueueMembers(s);
    var m := Waiting(s, Nonzero);
    if k :| 0 <= k < |Asked(s)| && AtLiquidation(Asked(s)[k]) {
      assert Asked(s)[k] == Queue(s)[k] && Queue(s)[k] in Queue(s);
    }
    if p :| m < DEPTH_CANDIDATES && p in s.positions && Askable(s, p) && AtLiquidation(p) {
      var k :| 0 <= k < |Queue(s)| && Queue(s)[k] == p;
      QueueSorted(s, m, k);
      assert AtLiquidation(Asked(s)[m]);
    }
  }

  lemma QueueSorted(s: Scan, i: int, j: int)
    requires 0 <= i <= j < |Queue(s)|
    ensures PositionLeq(Queue(s)[i], Queue(s)[j])
  {
    PositionIsTotalPreorder();
    SortSorts(PositionLeq, Filter(AskableBy(s), s.positions));
    Reflexive(PositionLeq, Queue(s)[i]);
  }

  /** Smaller known buffers come first exactly when no position at its liquidation price
      stands beside one with a buffer left, or twenty are past theirs. */
  lemma BuffersInOrderExactly(s: Scan)
    ensures BuffersInOrder(s) <==>
      || Waiting(s, Negative) >= DEPTH_CANDIDATES
      || !(exists p :: p in s.positions && Askable(s, p) && AtLiquidation(p))
      || !(exists p :: p in s.positions && Askable(s, p) && Positive(p))
  {
    if !BuffersInOrder(s) {
      OutOfOrder(s);
    } else if z, q :| z in s.positions && q in s.positions && Askable(s, z) && Askable(s, q) && AtLiquidation(z) && Positive(q) {
      if Waiting(s, Negative) < DEPTH_CANDIDATES {
        LargerBufferFirst(s, z, q);
      }
    }
  }

  /** A position with a buffer left is asked for before the one at its liquidation price. */
  lemma LargerBufferFirst(s: Scan, z: Position, q: Position)
    requires Waiting(s, Negative) < DEPTH_CANDIDATES
    requires z in s.positions && Askable(s, z) && AtLiquidation(z)
    requires q in s.positions && Askable(s, q) && Positive(q)
    ensures !BuffersInOrder(s)
  {
    var m := FirstNotNegative(s, q);
    assert z !in Asked(s)[..m];
    assert z.liquidationBuffer.value < Asked(s)[m].liquidationBuffer.value;
  }

  lemma FirstNotNegative(s: Scan, q: Position) returns (m: nat)
    requires Waiting(s, Negative) < DEPTH_CANDIDATES
    requires q in s.positions && Askable(s, q) && Positive(q)
    ensures m < |Asked(s)| && Positive(Asked(s)[m])
    ensures forall j :: 0 <= j < m ==> Negative(Asked(s)[j])
  {
    m := Waiting(s, Negative);
    QueueMembers(s);
    FrontOfQueue(s, Negative);
    var k :| 0 <= k < |Queue(s)| && Queue(s)[k] == q;
    QueueSorted(s, m, k);
  }

  /** What being out of order takes. */
  lemma OutOfOrder(s: Scan)
    requires !BuffersInOrder(s)
    ensures Waiting(s, Negative) < DEPTH_CANDIDATES
    ensures exists p :: p in s.positions && Askable(s, p) && AtLiquidation(p)
    ensures exists p :: p in s.positions && Askable(s, p) && Positive(p)
  {
    QueueMembers(s);
    FrontOfQueue(s, Negative);
    var p, k :| p in s.positions && Askable(s, p) && p.liquidationBuffer.Some?
      && 0 <= k < |Asked(s)| && Asked(s)[k].liquidationBuffer.Some?
      && p.liquidationBuffer.value < Asked(s)[k].liquidationBuffer.value && p !in Asked(s)[..k];
    assert Asked(s)[k] == Queue(s)[k] && Queue(s)[k] in Queue(s);
    var i :| 0 <= i < |Queue(s)| && Queue(s)[i] == p;
    assert Asked(s)[..k] == First(k, Queue(s));
    BeyondFirst(k, Queue(s), i);
    QueueSorted(s, k, i);
    assert AtLiquidation(p) && Positive(Queue(s)[k]);
  }

  // ---------- twenty-one positions ----------

  function GateOpportunity(asset: string, now: Time): Opportunity {
    Opportunity(Gate, asset, "S", "P", now, 1.0, 1.0, 1.0, 1.0, 0.0, 0.0, 0.0, 0.0, 8.0, None,
                0.0, None, None, None, 0.0, 0.0, 0.0, 0.0, Healthy, 0.0, 0.0)
  }

  function GatePosition(c: Config, asset: string, buffer: real, now: Time): Position {
    Position(asset, Gate, c.environment, asset, 1.0, 1.0, 1.0, 0.0, Open, now, None, Some(buffer))
  }

  /** `n` positions with half their value as buffer, and one at its liquidation price. */
  function Crowded(c: Config, n: nat, now: Time): Scan {
    Scan(c,
         seq(n + 1, (i: nat) => GateOpportunity(Asset(i), now)),
         seq(n, (i: nat) => GatePosition(c, Asset(i), 0.5, now)) + [GatePosition(c, Asset(n), 0.0, now)],
         {},
         set i | 0 <= i <= n :: PairKey(Gate, Asset(i)),
         now)
  }

  lemma CrowdedAskable(c: Config, n: nat, now: Time, i: int)
    requires 0 <= i <= n
    ensures Askable(Crowded(c, n, now), Crowded(c, n, now).positions[i])
  {
    var s := Crowded(c, n, now);
    forall i, j | 0 <= i < j < |s.opportunities| ensures s.opportunities[i].Key() != s.opportunities[j].Key() {
      assert |s.opportunities[i].Key()| != |s.opportunities[j].Key()|;
    }
    assert s.opportunities[i] in s.opportunities && s.opportunities[i].Key() == s.positions[i].Key();
    QuotedWhenDistinct(GateOnly(c), s.opportunities, s.positions[i].Key(), s.opportunities[i]);
  }

  lemma CrowdedKeys(c: Config, n: nat, now: Time, p: Position)
    requires p in Crowded(c, n, now).positions && !AtLiquidation(p)
    ensures p.Key() != PairKey(Gate, Asset(n))
  {
    var i :| 0 <= i <= n && Crowded(c, n, now).positions[i] == p;
    assert |p.Key()| == |PairKey(Gate, "")| + i;
  }

  /** With twenty others open, the position at its liquidation price gets no quote at all. */
  lemma AtLiquidationStarved(c: Config, n: nat, now: Time)
    requires n >= DEPTH_CANDIDATES
    ensures var s, z := Crowded(c, n, now), GatePosition(c, Asset(n), 0.0, now);
      && z in s.positions && Askable(s, z)
      && !Requested(DepthRequests(s), z.Key())
      && !BuffersInOrder(s)
  {
    var s, z := Crowded(c, n, now), GatePosition(c, Asset(n), 0.0, now);
    CrowdedCounts(c, n, now);
    assert s.positions[n] == z && s.positions[0] in s.positions && Positive(s.positions[0]);
    CrowdedAskable(c, n, now, 0);
    CrowdedAskable(c, n, now, n);
    LargerBufferFirst(s, z, s.positions[0]);
    AtLiquidationAskedExactly(s);
    RequestedExactlyIfAsked(s, z);
    forall k | 0 <= k < |Asked(s)| ensures Asked(s)[k].Key() != z.Key() {
      BackingIs(s, k);
      CrowdedKeys(c, n, now, Asked(s)[k]);
    }
  }

  lemma CrowdedCounts(c: Config, n: nat, now: Time)
    ensures Waiting(Crowded(c, n, now), Nonzero) == n
    ensures Waiting(Crowded(c, n, now), Negative) == 0
  {
    var s, z := Crowded(c, n, now), GatePosition(c, Asset(n), 0.0, now);
    var others := s.positions[..n];
    assert s.positions == others + [z];
    forall p | p in s.positions ensures Askable(s, p) {
      var i :| 0 <= i < |s.positions| && s.positions[i] == p;
      CrowdedAskable(c, n, now, i);
    }
    FilterAll(AskableBy(s), s.positions);
    CountAppendOne(Nonzero, others, z);
    CountAll(Nonzero, others);
    CountNone(Negative, s.positions);
  }

  // ---------- merging the quotes ----------

  /** The refreshed entry for `o`, when its quote was obtained; the quote source is keyed
      by market, and None stands for a failed request. */
  ghost predicate RefreshedFrom(
    requests: seq<Opportunity>, quotes: string -> Option<MarketQuote>, key: string, refreshed: Opportunity)
  {
    exists r :: r in requests && r.Key() == key && quotes(key).Some?
      && Calculations.OpportunityWithExecutableQuote(r, quotes(key).value) == Some(refreshed)
  }

  function Merged(refreshed: map<string, Opportunity>): Opportunity -> Opportunity {
    (o: Opportunity) => if o.Key() in refreshed then refreshed[o.Key()] else o
  }

  /** None when a returned quote has a zero ask, whose division error is not caught. */
  method RefreshGateCapacity(
    s: Scan, quotes: string -> Option<MarketQuote>)
    returns (result: Option<seq<Opportunity>>, requests: seq<Opportunity>)
    ensures requests == DepthRequests(s)
    ensures |requests| <= DEPTH_CANDIDATES
    ensures forall o :: o in requests ==> Requestable(s, o)
    ensures result.None? <==> exists r :: r in requests && quotes(r.Key()).Some? && quotes(r.Key()).value.spotAsk == 0.0
    ensures result.Some? ==>
      && |result.value| == |s.opportunities|
      && forall i | 0 <= i < |s.opportunities| ::
           && result.value[i].Key() == s.opportunities[i].Key()
           && (s.opportunities[i].exchange != Gate ==> result.value[i] == s.opportunities[i])
           && (if Requested(requests, s.opportunities[i].Key()) && quotes(s.opportunities[i].Key()).Some?
               then RefreshedFrom(requests, quotes, s.opportunities[i].Key(), result.value[i])
               else result.value[i] == s.opportunities[i])
  {
    requests := DepthCandidates(s);
    var refreshed := ObtainQuotes(requests, quotes);
    if refreshed.None? {
      return None, requests;
    }
    var merged := Map(Merged(refreshed.value), s.opportunities);
    forall i | 0 <= i < |s.opportunities|
      ensures merged[i].Key() == s.opportunities[i].Key()
      ensures s.opportunities[i].exchange != Gate ==> merged[i] == s.opportunities[i]
      ensures if Requested(requests, s.opportunities[i].Key()) && quotes(s.opportunities[i].Key()).Some?
              then RefreshedFrom(requests, quotes, s.opportunities[i].Key(), merged[i])
              else merged[i] == s.opportunities[i]
    {
      MergedEntry(requests, quotes, refreshed.value, s.opportunities[i]);
    }
    return Some(merged), requests;
  }

  /** The request loop; None when a returned quote has a zero ask. */
  method ObtainQuotes(requests: seq<Opportunity>, quotes: string -> Option<MarketQuote>)
    returns (refreshed: Option<map<string, Opportunity>>)
    ensures refreshed.None? <==> exists r :: r in requests && quotes(r.Key()).Some? && quotes(r.Key()).value.spotAsk == 0.0
    ensures refreshed.Some? ==>
      && (forall k :: k in refreshed.value ==> RefreshedFrom(requests, quotes, k, refreshed.value[k]))
      && (forall r :: r in requests && quotes(r.Key()).Some? ==> r.Key() in refreshed.value)
  {
    var m: map<string, Opportunity> := map[];
    for i := 0 to |requests|
      invariant forall k :: k in m ==> RefreshedFrom(requests, quotes, k, m[k])
      invariant forall j :: 0 <= j < i && quotes(requests[j].Key()).Some? ==>
        requests[j].Key() in m && quotes(requests[j].Key()).value.spotAsk != 0.0
    {
      var o := requests[i];
      assert o in requests;
      var quote := quotes(o.Key());
      if quote.Some? {
        var item := Calculations.OpportunityWithExecutableQuote(o, quote.value);
        if item.None? {
          return None;
        }
        m := m[o.Key() := item.value];
      }
    }
    return Some(m);
  }

  lemma MergedEntry(
    requests: seq<Opportunity>, quotes: string -> Option<MarketQuote>, refreshed: map<string, Opportunity>, o: Opportunity)
    requires forall r :: r in requests ==> r.exchange == Gate
    requires forall k :: k in refreshed ==> RefreshedFrom(requests, quotes, k, refreshed[k])
    requires forall r :: r in requests && quotes(r.Key()).Some? ==> r.Key() in refreshed
    ensures var m := Merged(refreshed)(o);
      && m.Key() == o.Key()
      && (o.exchange != Gate ==> m == o)
      && (if Requested(requests, o.Key()) && quotes(o.Key()).Some? then RefreshedFrom(requests, quotes, o.Key(), m) else m == o)
  {
    if o.Key() in refreshed {
      var r :| r in requests && r.Key() == o.Key() && quotes(o.Key()).Some?
        && Calculations.OpportunityWithExecutableQuote(r, quotes(o.Key()).value) == Some(refreshed[o.Key()]);
      PairKeyInjective(r.exchange, r.baseAsset, o.exchange, o.baseAsset);
      assert Requested(requests, o.Key());
    }
  }
}
