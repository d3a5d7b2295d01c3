/** One pass of the live submission service: `_execute` and `run_once`. */
module LivePass {
  import opened Models
  import opened Arithmetic
  import opened Sorting
  import opened Pricing
  import opened PositionMatching
  import opened Ledger
  import opened LiveExecution

  // ---------- _execute ----------

  /** The guarded limit the perpetual order will carry, where one is needed. */
  function GuardedPerp(intent: Intent, perp: Leg, v: Venue): Call<Option<real>> {
    if GateSandbox(intent) then ExecutableLimit(v.guard, perp.side, perp.limitPrice) else Returned(None)
  }

  /** All that has to hold for an intent's orders to be sent. */
  ghost predicate Submittable(db: Database, intent: Intent, v: Venue)
    reads db
  {
    && intent.id in db.intents && (intent.id, Spot) in db.legs && (intent.id, Perp) in db.legs
    && var spot, perp := db.legs[(intent.id, Spot)], db.legs[(intent.id, Perp)];
       && AccountAllows(db.positions, intent, spot, perp, v)
       && GuardedPerp(intent, perp, v).Returned?
       && (GateSandbox(intent) ==> GuardedPerp(intent, perp, v).value.Some?)
       && (intent.action == OpenPair ==> v.configures)
       && db.Preparable(intent.id, GuardedPerp(intent, perp, v).value)
  }

  ghost predicate RowCurrent(db: Database, intent: Intent)
    reads db
  {
    intent.id in db.intents ==> db.intents[intent.id] == intent
  }

  /** The intent is a row of the database that may be submitted under its control state. */
  ghost predicate TakenUp(db: Database, intent: Intent)
    reads db
  {
    && intent.id in db.intents && db.intents[intent.id] == intent
    && intent.environment != Paper && intent.status == Planned && MaySubmit(db.control, intent)
  }

  /** What becomes of an intent that a pass takes up. */
  datatype Disposition = Expires | Waits | Unexecutable | Fails | Submits

  /** Two primary legs that were never submitted, and nothing to compensate. */
  predicate NeverSubmitted(legs: map<LegKey, Leg>, id: string) {
    && (id, Spot) in legs && (id, Perp) in legs
    && (id, SpotCompensation) !in legs && (id, PerpCompensation) !in legs
    && legs[(id, Spot)].status == Created && legs[(id, Perp)].status == Created
  }

  /** The account allows the intent as these tables have it. */
  ghost predicate WasAllowed(legs: map<LegKey, Leg>, positions: map<string, PairedPosition>, intent: Intent, v: Venue) {
    && (intent.id, Spot) in legs && (intent.id, Perp) in legs
    && AccountAllows(positions, intent, legs[(intent.id, Spot)], legs[(intent.id, Perp)], v)
  }

  /** With a fresh quote: the account and then the guarded price decide. */
  ghost function FreshDisposition(
    legs: map<LegKey, Leg>, positions: map<string, PairedPosition>, intent: Intent, v: Venue): Disposition
  {
    if !WasAllowed(legs, positions, intent, v) then Fails
    else
      var guarded := GuardedPerp(intent, legs[(intent.id, Perp)], v);
      if guarded.Raised? then Waits
      else if GateSandbox(intent) && guarded.value.None? then Unexecutable
      else if intent.action == OpenPair && !v.configures then Fails
      else if NeverSubmitted(legs, intent.id) then Submits
      else Fails
  }

  ghost function DispositionOf(
    legs: map<LegKey, Leg>, positions: map<string, PairedPosition>, intent: Intent, v: Venue): Disposition
  {
    if StaleQuote(intent.marketObservedAt, v.now) then Expires else FreshDisposition(legs, positions, intent, v)
  }

  /** An intent that is taken up is submitted exactly when nothing speaks against it. */
  lemma SubmitsExactly(db: Database, intent: Intent, v: Venue)
    requires TakenUp(db, intent)
    ensures Submittable(db, intent, v) <==> FreshDisposition(db.legs, db.positions, intent, v) == Submits
  {
    if WasAllowed(db.legs, db.positions, intent, v) {
      var perp := db.legs[(intent.id, Perp)];
      if GuardedPerp(intent, perp, v).Returned? && GuardedPerp(intent, perp, v).value.Some? {
        GuardNeverWeakens(intent, perp, v);
      }
    }
  }

  /** The wallets cover the spot order and the margin of the perpetual order, which is its
      value over the leverage; a shared wallet covers both at once. */
  ghost predicate Covers(s: Snapshot, intent: Intent, spot: Leg, perp: Leg, margin: real) {
    && margin * intent.leverage as real == perp.quantity * perp.baseMultiplier * perp.limitPrice
    && spot.quantity * spot.limitPrice <= s.spotUsdtAvailable
    && margin + (if s.sharedBalance then spot.quantity * spot.limitPrice else 0.0) <= s.perpUsdtAvailable
  }

  lemma BalanceCovers(s: Snapshot, intent: Intent, spot: Leg, perp: Leg)
    requires ValidBalance(s, intent, spot, perp)
    ensures exists margin :: Covers(s, intent, spot, perp, margin)
  {
    var value := perp.quantity * perp.baseMultiplier * perp.limitPrice;
    DivideThenMultiply(value, intent.leverage as real);
    assert Covers(s, intent, spot, perp, value / intent.leverage as real);
  }

  /** What is true whenever an intent's orders are sent: the market data is fresh, the
      account answers for the intent and has nothing open; an open is covered by the wallets,
      a close reduces the position reserved for it; no leg was sent before; and the
      perpetual order is at least as protective as planned. */
  lemma SubmitsOnlyWhen(legs: map<LegKey, Leg>, positions: map<string, PairedPosition>, intent: Intent, v: Venue)
    requires DispositionOf(legs, positions, intent, v) == Submits
    ensures intent.marketObservedAt - 5.0 <= v.now <= intent.marketObservedAt + 15.0
    ensures (intent.id, Spot) in legs && (intent.id, Perp) in legs
    ensures legs[(intent.id, Spot)].status == Created && legs[(intent.id, Perp)].status == Created
    ensures v.snapshot.Returned? && v.state.Returned?
    ensures var account := v.snapshot.value;
      && account.exchange == intent.exchange && account.environment == intent.environment
      && v.now <= account.observedAt + 30.0 && account.tradePermission == Some(true)
      && v.state.value.complete && v.state.value.openOrders == 0
    ensures var spot, perp := legs[(intent.id, Spot)], legs[(intent.id, Perp)];
      match intent.action
      case OpenPair => exists margin :: Covers(v.snapshot.value, intent, spot, perp, margin)
      case ClosePair => exists p :: p in positions && ReservedBy(positions[p], intent.id, spot, perp)
    ensures var perp, sent := legs[(intent.id, Perp)], PreparedLegs(legs, intent, v)[(intent.id, Perp)];
      && (perp.side == "buy" ==> sent.limitPrice <= perp.limitPrice)
      && (perp.side == "sell" ==> perp.limitPrice <= sent.limitPrice)
  {
    var perp := legs[(intent.id, Perp)];
    if intent.action == OpenPair {
      BalanceCovers(v.snapshot.value, intent, legs[(intent.id, Spot)], perp);
    }
    if GuardedPerp(intent, perp, v).Returned? && GuardedPerp(intent, perp, v).value.Some? {
      GuardNeverWeakens(intent, perp, v);
    }
  }

  /** The position is closing for this intent, and the legs sell and buy back its quantity. */
  ghost predicate ReservedBy(p: PairedPosition, id: string, spot: Leg, perp: Leg) {
    && p.status == ClosingPosition && p.closingIntentId == Some(id)
    && spot.side == "sell" && !spot.reduceOnly && perp.side == "buy" && perp.reduceOnly
    && Near(spot.quantity * spot.baseMultiplier, p.quantity) && Near(perp.quantity * perp.baseMultiplier, p.quantity)
  }

  predicate Near(a: real, b: real) { a <= b + 0.000000000000001 && b <= a + 0.000000000000001 }

  /** The legs as `prepare_live_submission` leaves them. */
  function PreparedLegs(legs: map<LegKey, Leg>, intent: Intent, v: Venue): map<LegKey, Leg>
    requires (intent.id, Spot) in legs && (intent.id, Perp) in legs
  {
    var spot, perp := legs[(intent.id, Spot)], legs[(intent.id, Perp)];
    var guarded := GuardedPerp(intent, perp, v);
    legs[(intent.id, Spot) := spot.(status := Submitted)]
        [(intent.id, Perp) := perp.(status := Submitted,
           limitPrice := if guarded.Returned? && guarded.value.Some? then guarded.value.value else perp.limitPrice)]
  }

  /** A guarded price never trips the ledger's "weakens protection" check. */
  lemma GuardNeverWeakens(intent: Intent, perp: Leg, v: Venue)
    requires GuardedPerp(intent, perp, v).Returned? && GuardedPerp(intent, perp, v).value.Some?
    ensures var p := GuardedPerp(intent, perp, v).value.value; p > 0.0 && !Weakens(perp, p)
  {
    GuardNeverLoosens(perp.side, perp.limitPrice, v.guard.top, v.guard.mark, v.guard.deviation, v.guard.tick);
  }

  /** The state after both orders have been answered. */
  ghost predicate SubmittedState(
    now: Tables, nowSent: seq<LegKey>, intent: Intent, v: Venue, uncertain: nat,
    legs: map<LegKey, Leg>, control: Option<Control>, sent: seq<LegKey>)
  {
    && (intent.id, Spot) in legs && (intent.id, Perp) in legs
    && LegsSettled(PreparedLegs(legs, intent, v), now.legs, intent, v)
    && nowSent == sent + OrdersSent(intent, v)
    && var spot, perp := now.legs[(intent.id, Spot)], now.legs[(intent.id, Perp)];
       && uncertain == Uncertain(spot) + Uncertain(perp)
       && now.control == if spot.status == Acknowledged && perp.status == Acknowledged then control else Some(Paused)
  }

  /** From `prepare_live_submission` to the end of `_execute`. */
  method PrepareAndSubmit(db: Database, intent: Intent, v: Venue, adjusted: Option<real>) returns (outcome: Outcome)
    requires db.Valid() && RowCurrent(db, intent)
    requires (intent.id, Spot) in db.legs && (intent.id, Perp) in db.legs
    requires GuardedPerp(intent, db.legs[(intent.id, Perp)], v) == Returned(adjusted)
    modifies db
    ensures db.Valid() && db.createdOrder == old(db.createdOrder) && db.positions == old(db.positions)
    ensures outcome.Done? && outcome.didSubmit <==> old(db.Preparable(intent.id, adjusted))
    ensures !(outcome.Done? && outcome.didSubmit) ==>
      && db.intents == old(db.intents) && db.legs == old(db.legs) && db.control == old(db.control) && db.sent == old(db.sent)
    ensures outcome.Done? && !outcome.didSubmit ==> outcome.uncertain == 0
    ensures outcome.Done? && outcome.didSubmit ==>
      && db.intents == old(db.intents)[intent.id := intent.(status := Executing, failureCode := None)]
      && SubmittedState(db.Now(), db.sent, intent, v, outcome.uncertain, old(db.legs), old(db.control), old(db.sent))
    ensures outcome.Done? && !outcome.didSubmit ==> old(!TakenUp(db, intent))
    ensures outcome.PreflightFailed? ==> outcome.code == INTERNAL_ERROR
    ensures outcome.PreflightFailed? ==>
      old((adjusted.Some? && (adjusted.value <= 0.0 || Weakens(db.legs[(intent.id, Perp)], adjusted.value)))
          || intent.environment == Paper || !db.HasTwoPrimaryLegs(intent.id)
          || db.legs[(intent.id, Spot)].status != Created || db.legs[(intent.id, Perp)].status != Created
          || (intent.action == ClosePair
              && !ReducesReserved(db.positions, intent, db.legs[(intent.id, Spot)], db.legs[(intent.id, Perp)])))
  {
    var prepared := db.PrepareLiveSubmission(intent.id, adjusted);
    match prepared
    case MissingIntent => return Done(false, 0);
    case NotPrepared => return Done(false, 0);
    case ValueError => return PreflightFailed(INTERNAL_ERROR);
    case Prepared =>
      assert db.legs == PreparedLegs(old(db.legs), intent, v);
      var uncertain := SubmitPrepared(db, intent, v);
      return Done(true, uncertain);
  }

  /** Both orders, in turn on the Gate sandbox and together elsewhere. */
  method SubmitPrepared(db: Database, intent: Intent, v: Venue) returns (uncertain: nat)
    requires BothSubmitted(db, intent.id)
    modifies db`legs, db`control, db`sent
    ensures db.Valid()
    ensures LegsSettled(old(db.legs), db.legs, intent, v)
    ensures db.sent == old(db.sent) + OrdersSent(intent, v)
    ensures uncertain == Uncertain(db.legs[(intent.id, Spot)]) + Uncertain(db.legs[(intent.id, Perp)])
    ensures db.control ==
      if db.legs[(intent.id, Spot)].status == Acknowledged && db.legs[(intent.id, Perp)].status == Acknowledged
      then old(db.control) else Some(Paused)
  {
    if GateSandbox(intent) {
      uncertain := SubmitInTurn(db, intent, v);
    } else {
      uncertain := SubmitTogether(db, intent, v);
    }
  }

  /** How `_execute` ends for each disposition of a fresh intent. */
  predicate EndsAs(d: Disposition, outcome: Outcome) {
    match d
    case Expires => false
    case Submits => outcome.Done? && outcome.didSubmit
    case Fails => outcome.PreflightFailed?
    case Waits => outcome == Done(false, 0)
    case Unexecutable => outcome == Done(false, 0)
  }

  method Execute(db: Database, intent: Intent, v: Venue) returns (outcome: Outcome)
    requires db.Valid() && RowCurrent(db, intent) && intent.environment != Paper
    modifies db
    ensures db.Valid() && db.createdOrder == old(db.createdOrder)
    ensures outcome.Done? && outcome.didSubmit <==> old(Submittable(db, intent, v))
    ensures outcome.PreflightFailed? ==>
      db.intents == old(db.intents) && db.positions == old(db.positions) && db.control == old(db.control)
    ensures !(outcome.Done? && outcome.didSubmit) ==> db.legs == old(db.legs) && db.sent == old(db.sent)
    ensures outcome.Done? && !outcome.didSubmit ==>
      && outcome.uncertain == 0 && db.control == old(db.control)
      && ((db.intents == old(db.intents) && db.positions == old(db.positions)) ||
          (intent.status == Planned
           && db.intents == old(db.intents)[intent.id := intent.(status := FailedIntent, failureCode := Some(MARKET_UNEXECUTABLE))]
           && db.positions == ReopenFor(old(db.positions), intent)))
    ensures outcome.Done? && outcome.didSubmit ==>
      && db.intents == old(db.intents)[intent.id := intent.(status := Executing, failureCode := None)]
      && db.positions == old(db.positions)
      && SubmittedState(db.Now(), db.sent, intent, v, outcome.uncertain, old(db.legs), old(db.control), old(db.sent))
    ensures old(TakenUp(db, intent)) ==>
      var d := old(FreshDisposition(db.legs, db.positions, intent, v));
      && EndsAs(d, outcome)
      && (d == Waits ==> db.intents == old(db.intents) && db.positions == old(db.positions))
      && (d == Unexecutable ==>
            && db.intents == old(db.intents)[intent.id := intent.(status := FailedIntent, failureCode := Some(MARKET_UNEXECUTABLE))]
            && db.positions == ReopenFor(old(db.positions), intent))
    ensures outcome == PreflightFailed(INTERNAL_ERROR) ==>
      && (intent.id, Spot) in old(db.legs) && (intent.id, Perp) in old(db.legs)
      && (!old(db.HasTwoPrimaryLegs(intent.id))
          || old(db.legs)[(intent.id, Spot)].status != Created || old(db.legs)[(intent.id, Perp)].status != Created)
  {
    var failure := Preflight(db, intent, v);
    if failure.Some? {
      return PreflightFailed(failure.value);
    }
    var spot, perp := db.legs[(intent.id, Spot)], db.legs[(intent.id, Perp)];
    var adjusted: Option<real> := None;
    if GateSandbox(intent) {
      var guarded := ExecutableLimit(v.guard, perp.side, perp.limitPrice);
      if guarded.Raised? {
        return Done(false, 0);
      }
      adjusted := guarded.value;
      if adjusted.None? {
        var _ := db.FailPlannedIntent(intent.id, MARKET_UNEXECUTABLE);
        return Done(false, 0);
      }
      GuardNeverWeakens(intent, perp, v);
    }
    if intent.action == OpenPair && !v.configures {
      return PreflightFailed("perp_configuration_failed");
    }
    if TakenUp(db, intent) {
      SubmitsExactly(db, intent, v);
    }
    outcome := PrepareAndSubmit(db, intent, v, adjusted);
  }

  /** `_execute` for a row that is taken up: what each disposition leaves. */
  method ExecuteTaken(db: Database, intent: Intent, v: Venue, ghost d: Disposition) returns (outcome: Outcome)
    requires db.Valid() && TakenUp(db, intent) && d == FreshDisposition(db.legs, db.positions, intent, v)
    modifies db
    ensures db.Valid() && db.createdOrder == old(db.createdOrder)
    ensures EndsAs(d, outcome)
    ensures outcome.PreflightFailed? || outcome.didSubmit ==> db.positions == old(db.positions)
    ensures outcome.PreflightFailed? ==> db.intents == old(db.intents) && db.legs == old(db.legs) && db.sent == old(db.sent)
    ensures outcome.Done? && outcome.didSubmit ==>
      && db.intents == old(db.intents)[intent.id := intent.(status := Executing, failureCode := None)]
      && SubmittedState(db.Now(), db.sent, intent, v, outcome.uncertain, old(db.legs), old(db.control), old(db.sent))
    ensures outcome.Done? && !outcome.didSubmit ==>
      && db.legs == old(db.legs) && db.control == old(db.control) && db.sent == old(db.sent)
      && if d == Waits then
           db.intents == old(db.intents) && db.positions == old(db.positions)
         else
           && db.intents == old(db.intents)[intent.id := intent.(status := FailedIntent, failureCode := Some(MARKET_UNEXECUTABLE))]
           && db.positions == ReopenFor(old(db.positions), intent)
  {
    outcome := Execute(db, intent, v);
  }

  // ---------- run_once ----------

  datatype PassResult = PassResult(examined: nat, submitted: nat, uncertain: nat, preflightFailed: nat)

  /** Whether a planned intent is taken up under the current control state. */
  predicate Eligible(control: Option<Control>, intent: Intent) {
    && intent.environment in {Sandbox, Live}
    && intent.status == Planned
    && MaySubmit(control, intent)
  }

  predicate EligibleId(control: Option<Control>, intents: map<string, Intent>, id: string) {
    id in intents && Eligible(control, intents[id])
  }

  function EligibleBy(control: Option<Control>, intents: map<string, Intent>): string -> bool {
    id => EligibleId(control, intents, id)
  }

  /** The planned intents one pass may take up, oldest first. */
  function Candidates(control: Option<Control>, intents: map<string, Intent>, createdOrder: seq<string>): (ids: seq<string>)
    ensures forall id :: id in ids ==> EligibleId(control, intents, id)
  {
    FilterMembers(EligibleBy(control, intents), createdOrder);
    Filter(EligibleBy(control, intents), createdOrder)
  }

  /** What examining an intent without stopping did: it expired, ended for want of a
      market, or waits for the exchange's price data. */
  ghost predicate PassedOver(was: Intent, now: Intent, d: Disposition) {
    match d
    case Expires => now == was.(status := FailedIntent, failureCode := Some(MARKET_DATA_EXPIRED))
    case Unexecutable => now == was.(status := FailedIntent, failureCode := Some(MARKET_UNEXECUTABLE))
    case Waits => now == was
    case Fails => false
    case Submits => false
  }

  /** Positions change only by being handed back, open again, by an intent in `ended`. */
  ghost predicate OnlyReopened(was: map<string, PairedPosition>, now: map<string, PairedPosition>, ended: seq<string>) {
    && now.Keys == was.Keys
    && forall p | p in was :: now[p] == was[p] || HandedBack(was[p], now[p], ended)
  }

  predicate HandedBack(was: PairedPosition, now: PairedPosition, ended: seq<string>) {
    && was.status == ClosingPosition && was.closingIntentId.Some? && was.closingIntentId.value in ended
    && now.quantity == was.quantity && now.status == OpenPosition && now.closingIntentId == None
  }

  lemma {:induction false} FilterDistinct(keep: string -> bool, s: seq<string>)
    requires forall i, j :: 0 <= i < j < |s| ==> s[i] != s[j]
    ensures forall i, j :: 0 <= i < j < |Filter(keep, s)| ==> Filter(keep, s)[i] != Filter(keep, s)[j]
  {
    FilterMembers(keep, s);
    if s != [] {
      FilterDistinct(keep, s[1..]);
      FilterMembers(keep, s[1..]);
      assert forall i :: 1 <= i < |s| ==> s[i] == s[1..][i - 1];
      if keep(s[0]) {
        var rest := Filter(keep, s[1..]);
        forall j | 0 <= j < |rest| ensures rest[j] != s[0] {
          assert rest[j] in s[1..];
        }
      }
    }
  }

  /** Another intent's reopened position is not one this intent has reserved. */
  lemma ReservationKept(
    was: map<string, PairedPosition>, now: map<string, PairedPosition>, ended: seq<string>, intent: Intent, spot: Leg, perp: Leg)
    requires OnlyReopened(was, now, ended) && intent.id !in ended
    ensures ReducesReserved(now, intent, spot, perp) == ReducesReserved(was, intent, spot, perp)
  {
  }

  lemma ReopenStep(was: map<string, PairedPosition>, now: map<string, PairedPosition>, ended: seq<string>, intent: Intent)
    requires OnlyReopened(was, now, ended) && intent.id !in ended
    ensures OnlyReopened(was, now, ended + [intent.id])
    ensures OnlyReopened(was, ReopenFor(now, intent), ended + [intent.id])
  {
    var after := ReopenFor(now, intent);
    forall p | p in was ensures after[p] == was[p] || HandedBack(was[p], after[p], ended + [intent.id]) {
      assert intent.id in ended + [intent.id];
      if after[p] != now[p] {
        assert now[p].closingIntentId == Some(intent.id);
      }
    }
  }

  /** How examining one intent ended: it was passed over, or it stopped the pass. */
  datatype Examined = Continue | Stop(submitted: nat, uncertain: nat, preflightFailed: nat)

  /** What a stop leaves: either both orders' answers recorded, or a failed preflight,
      nothing sent, and execution paused. */
  ghost predicate Stopped(
    now: Tables, nowSent: seq<LegKey>, intent: Intent, v: Venue, e: Examined, d: Disposition,
    legs: map<LegKey, Leg>, control: Option<Control>, sent: seq<LegKey>)
    requires e.Stop?
  {
    && intent.id in now.intents
    && match d
       case Submits =>
         && e.submitted == 1 && e.preflightFailed == 0
         && now.intents[intent.id] == intent.(status := Executing, failureCode := None)
         && SubmittedState(now, nowSent, intent, v, e.uncertain, legs, control, sent)
       case Fails =>
         && e.submitted == 0 && e.preflightFailed == 1 && e.uncertain == 0
         && now.control == Some(Paused) && now.legs == legs && nowSent == sent
         && now.intents[intent.id].failureCode.Some?
         && now.intents[intent.id] == intent.(failureCode := now.intents[intent.id].failureCode)
       case _ => false
  }

  /** The body of the loop in `run_once`: the disposition decides. */
  method Examine(db: Database, item: Intent, v: Venue) returns (e: Examined)
    requires db.Valid() && item.id in db.intents && db.intents[item.id] == item
    requires Eligible(db.control, item)
    modifies db
    ensures db.Valid() && db.createdOrder == old(db.createdOrder)
    ensures db.intents.Keys == old(db.intents.Keys)
    ensures forall id :: id in db.intents && id != item.id ==> db.intents[id] == old(db.intents)[id]
    ensures var d := old(DispositionOf(db.legs, db.positions, item, v));
      && (e.Continue? ==>
           && PassedOver(item, db.intents[item.id], d)
           && db.positions == (if d == Waits then old(db.positions) else ReopenFor(old(db.positions), item))
           && db.legs == old(db.legs) && db.control == old(db.control) && db.sent == old(db.sent))
      && (e.Stop? ==>
           && db.positions == old(db.positions)
           && Stopped(db.Now(), db.sent, item, v, e, d, old(db.legs), old(db.control), old(db.sent)))
  {
    if StaleQuote(item.marketObservedAt, v.now) {
      var expired := db.FailPlannedIntent(item.id, MARKET_DATA_EXPIRED);
      assert expired;
      return Continue;
    }
    e := ExamineFresh(db, item, v, FreshDisposition(db.legs, db.positions, item, v));
  }

  /** A failed preflight pauses execution and leaves the intent planned. */
  method StopOnFailure(db: Database, item: Intent, v: Venue, code: string) returns (e: Examined)
    requires db.Valid() && item.id in db.intents && db.intents[item.id] == item && item.status == Planned
    modifies db`intents, db`control
    ensures db.Valid() && e == Stop(0, 0, 1) && db.intents.Keys == old(db.intents.Keys)
    ensures forall id :: id in db.intents && id != item.id ==> db.intents[id] == old(db.intents)[id]
    ensures Stopped(db.Now(), db.sent, item, v, e, Fails, db.legs, old(db.control), db.sent)
  {
    db.RecordLivePreflightFailure(item.id, code);
    e := Stop(0, 0, 1);
  }

  /** The same for an intent whose quote is fresh. */
  method ExamineFresh(db: Database, item: Intent, v: Venue, ghost d: Disposition) returns (e: Examined)
    requires db.Valid() && TakenUp(db, item) && d == FreshDisposition(db.legs, db.positions, item, v)
    modifies db
    ensures db.Valid() && db.createdOrder == old(db.createdOrder)
    ensures db.intents.Keys == old(db.intents.Keys)
    ensures forall id :: id in db.intents && id != item.id ==> db.intents[id] == old(db.intents)[id]
    ensures e.Continue? ==>
      && PassedOver(item, db.intents[item.id], d)
      && db.positions == (if d == Waits then old(db.positions) else ReopenFor(old(db.positions), item))
      && db.legs == old(db.legs) && db.control == old(db.control) && db.sent == old(db.sent)
    ensures e.Stop? ==>
      && db.positions == old(db.positions)
      && Stopped(db.Now(), db.sent, item, v, e, d, old(db.legs), old(db.control), old(db.sent))
  {
    var outcome := ExecuteTaken(db, item, v, d);
    if outcome.PreflightFailed? {
      e := StopOnFailure(db, item, v, outcome.code);
      return;
    }
    if outcome.didSubmit || outcome.uncertain > 0 {
      return Stop(if outcome.didSubmit then 1 else 0, outcome.uncertain, 0);
    }
    return Continue;
  }

  ghost predicate RowsOf(ids: seq<string>, intents: map<string, Intent>) {
    && (forall i, j :: 0 <= i < j < |ids| ==> ids[i] != ids[j])
    && (forall id :: id in ids ==> id in intents && intents[id].id == id)
  }

  /** The disposition of every row, by the tables the pass found. */
  ghost function FateOf(
    legs: map<LegKey, Leg>, positions: map<string, PairedPosition>, rows: map<string, Intent>, venue: string -> Venue):
    string -> Disposition
  {
    (id: string) => if id in rows then DispositionOf(legs, positions, rows[id], venue(id)) else Waits
  }

  /** The intents after the first `n` candidates have been passed over. */
  ghost predicate PassedFirst(
    now: map<string, Intent>, was: map<string, Intent>, ids: seq<string>, n: nat, fate: string -> Disposition)
    requires n <= |ids| && RowsOf(ids, was) && now.Keys == was.Keys
  {
    forall j :: 0 <= j < n ==> PassedOver(was[ids[j]], now[ids[j]], fate(ids[j]))
  }

  /** Nothing but the first `n` candidates has been touched. */
  ghost predicate OthersKept(now: map<string, Intent>, was: map<string, Intent>, ids: seq<string>, n: nat)
    requires n <= |ids| && now.Keys == was.Keys
  {
    forall id :: id in was && id !in ids[..n] ==> now[id] == was[id]
  }

  lemma PassedStep(
    before: map<string, Intent>, now: map<string, Intent>, was: map<string, Intent>,
    ids: seq<string>, n: nat, fate: string -> Disposition)
    requires n < |ids| && RowsOf(ids, was) && before.Keys == was.Keys && now.Keys == was.Keys
    requires PassedFirst(before, was, ids, n, fate) && OthersKept(before, was, ids, n)
    requires forall id :: id in was && id != ids[n] ==> now[id] == before[id]
    ensures PassedFirst(now, was, ids, n, fate) && OthersKept(now, was, ids, n + 1)
    ensures before[ids[n]] == was[ids[n]]
    ensures PassedOver(was[ids[n]], now[ids[n]], fate(ids[n])) ==> PassedFirst(now, was, ids, n + 1, fate)
  {
    assert ids[..n + 1] == ids[..n] + [ids[n]];
    assert ids[n] !in ids[..n];
    forall j | 0 <= j < n ensures now[ids[j]] == before[ids[j]] {
      assert ids[j] != ids[n];
    }
  }

  /** Passing over other intents does not change what becomes of this one. */
  lemma DispositionKept(
    was: map<string, PairedPosition>, now: map<string, PairedPosition>, ended: seq<string>,
    legs: map<LegKey, Leg>, intent: Intent, v: Venue)
    requires OnlyReopened(was, now, ended) && intent.id !in ended
    ensures DispositionOf(legs, now, intent, v) == DispositionOf(legs, was, intent, v)
  {
    if (intent.id, Spot) in legs && (intent.id, Perp) in legs {
      ReservationKept(was, now, ended, intent, legs[(intent.id, Spot)], legs[(intent.id, Perp)]);
    }
  }

  /** What holds between two candidates of the loop, `n` of them passed over. */
  ghost predicate Between(
    db: Database, ids: seq<string>, n: nat, rows: map<string, Intent>, positions: map<string, PairedPosition>,
    fate: string -> Disposition)
    reads db
    requires n <= |ids| && RowsOf(ids, rows)
  {
    && db.Valid() && db.intents.Keys == rows.Keys
    && PassedFirst(db.intents, rows, ids, n, fate)
    && OthersKept(db.intents, rows, ids, n)
    && OnlyReopened(positions, db.positions, ids[..n])
  }

  lemma NextCandidate(
    db: Database, ids: seq<string>, n: nat, rows: map<string, Intent>, positions: map<string, PairedPosition>,
    venue: string -> Venue)
    requires n < |ids| && RowsOf(ids, rows)
    requires Between(db, ids, n, rows, positions, FateOf(db.legs, positions, rows, venue))
    ensures ids[n] in rows && rows[ids[n]].id == ids[n] && ids[n] !in ids[..n]
    ensures db.intents[ids[n]] == rows[ids[n]]
    ensures ids[..n + 1] == ids[..n] + [ids[n]]
    ensures DispositionOf(db.legs, db.positions, rows[ids[n]], venue(ids[n]))
         == FateOf(db.legs, positions, rows, venue)(ids[n])
  {
    assert ids[n] in ids;
    DispositionKept(positions, db.positions, ids[..n], db.legs, rows[ids[n]], venue(ids[n]));
  }

  /** Where a pass ends: at the first candidate that is submitted or fails, or after all. */
  ghost predicate PassEnds(
    now: Tables, nowSent: seq<LegKey>, ids: seq<string>, rows: map<string, Intent>, venue: string -> Venue,
    fate: string -> Disposition, r: PassResult, e: Examined,
    legs: map<LegKey, Leg>, control: Option<Control>, sent: seq<LegKey>)
    requires RowsOf(ids, rows)
  {
    && now.intents.Keys == rows.Keys
    && r.examined <= |ids| && OthersKept(now.intents, rows, ids, r.examined)
    && match e
       case Continue =>
         && r == PassResult(|ids|, 0, 0, 0)
         && PassedFirst(now.intents, rows, ids, |ids|, fate)
         && now.legs == legs && now.control == control && nowSent == sent
       case Stop(_, _, _) =>
         && 1 <= r.examined && r == PassResult(r.examined, e.submitted, e.uncertain, e.preflightFailed)
         && PassedFirst(now.intents, rows, ids, r.examined - 1, fate)
         && var last := ids[r.examined - 1];
            last in rows && Stopped(now, nowSent, rows[last], venue(last), e, fate(last), legs, control, sent)
  }

  /** One turn of the loop below. */
  method ExamineNext(
    db: Database, ids: seq<string>, n: nat, rows: map<string, Intent>, venue: string -> Venue,
    ghost positions: map<string, PairedPosition>)
    returns (step: Examined)
    requires n < |ids| && RowsOf(ids, rows)
    requires Between(db, ids, n, rows, positions, FateOf(db.legs, positions, rows, venue))
    requires Eligible(db.control, rows[ids[n]])
    modifies db
    ensures db.Valid() && db.intents.Keys == rows.Keys && OthersKept(db.intents, rows, ids, n + 1)
    ensures OnlyReopened(positions, db.positions, ids[..n + 1])
    ensures step.Continue? ==>
      && Between(db, ids, n + 1, rows, positions, old(FateOf(db.legs, positions, rows, venue)))
      && db.legs == old(db.legs) && db.control == old(db.control) && db.sent == old(db.sent)
    ensures step.Stop? ==>
      && PassedFirst(db.intents, rows, ids, n, old(FateOf(db.legs, positions, rows, venue)))
      && Stopped(db.Now(), db.sent, rows[ids[n]], venue(ids[n]), step, old(FateOf(db.legs, positions, rows, venue)(ids[n])),
                 old(db.legs), old(db.control), old(db.sent))
  {
    ghost var fate := FateOf(db.legs, positions, rows, venue);
    NextCandidate(db, ids, n, rows, positions, venue);
    var item := rows[ids[n]];
    ghost var before := db.intents;
    ReopenStep(positions, db.positions, ids[..n], item);
    step := Examine(db, item, venue(item.id));
    PassedStep(before, db.intents, rows, ids, n, fate);
  }

  /** The loop of `run_once` over the candidates `ids`, whose rows were read as `rows`. */
  method ExamineAll(db: Database, ids: seq<string>, rows: map<string, Intent>, venue: string -> Venue)
    returns (r: PassResult, ghost e: Examined)
    requires db.Valid() && rows == db.intents && RowsOf(ids, rows)
    requires forall id :: id in ids ==> Eligible(db.control, rows[id])
    modifies db
    ensures db.Valid()
    ensures PassEnds(db.Now(), db.sent, ids, rows, venue, FateOf(old(db.legs), old(db.positions), rows, venue), r, e,
                     old(db.legs), old(db.control), old(db.sent))
    ensures OnlyReopened(old(db.positions), db.positions, ids[..r.examined])
  {
    var examined := 0;
    while examined < |ids|
      invariant examined <= |ids|
      invariant Between(db, ids, examined, rows, old(db.positions), FateOf(old(db.legs), old(db.positions), rows, venue))
      invariant db.legs == old(db.legs) && db.control == old(db.control) && db.sent == old(db.sent)
    {
      assert ids[examined] in ids;
      var step := ExamineNext(db, ids, examined, rows, venue, old(db.positions));
      examined := examined + 1;
      if step.Stop? {
        return PassResult(examined, step.submitted, step.uncertain, step.preflightFailed), step;
      }
    }
    assert ids[..|ids|] == ids;
    return PassResult(examined, 0, 0, 0), Continue;
  }

  /** One pass. It stops at exactly the first candidate, oldest first, that is submitted or
      fails its preflight; all before it expired, found no market, or wait for price data.
      A pass under paused execution touches nothing but emergency closes. */
  method RunOnce(db: Database, venue: string -> Venue) returns (r: PassResult, ghost e: Examined)
    requires db.Valid()
    modifies db
    ensures db.Valid()
    ensures r.submitted + r.preflightFailed <= 1
    ensures old(db.sent) <= db.sent && |db.sent| <= |old(db.sent)| + 2 * r.submitted
    ensures RowsOf(Candidates(old(db.control), old(db.intents), old(db.createdOrder)), old(db.intents))
    ensures PassEnds(db.Now(), db.sent, Candidates(old(db.control), old(db.intents), old(db.createdOrder)), old(db.intents), venue,
                     FateOf(old(db.legs), old(db.positions), old(db.intents), venue), r, e,
                     old(db.legs), old(db.control), old(db.sent))
    ensures OnlyReopened(old(db.positions), db.positions,
                         Candidates(old(db.control), old(db.intents), old(db.createdOrder))[..r.examined])
    ensures old(db.control) == Some(Paused) ==>
      && db.control == Some(Paused)
      && OnlyEmergencyCloses(old(db.intents), db.intents, old(db.legs), db.legs, old(db.sent), db.sent)
  {
    ghost var ids := Candidates(db.control, db.intents, db.createdOrder);
    ghost var rows, legs, control, sent := db.intents, db.legs, db.control, db.sent;
    ghost var fate := FateOf(db.legs, db.positions, db.intents, venue);
    FilterDistinct(EligibleBy(db.control, db.intents), db.createdOrder);
    if db.control != Some(Ready) && db.control != Some(Paused) {
      FilterNone(EligibleBy(db.control, db.intents), db.createdOrder);
      return PassResult(0, 0, 0, 0), Continue;
    }
    var candidates := Candidates(db.control, db.intents, db.createdOrder);
    r, e := ExamineAll(db, candidates, db.intents, venue);
    PassSends(db.Now(), db.sent, ids, rows, venue, fate, r, e, legs, control, sent);
    if control == Some(Paused) {
      PausedPass(db.Now(), db.sent, ids, rows, venue, fate, r, e, legs, sent);
    }
  }

  lemma PassSends(
    now: Tables, nowSent: seq<LegKey>, ids: seq<string>, rows: map<string, Intent>, venue: string -> Venue, fate: string -> Disposition,
    r: PassResult, e: Examined, legs: map<LegKey, Leg>, control: Option<Control>, sent: seq<LegKey>)
    requires RowsOf(ids, rows) && PassEnds(now, nowSent, ids, rows, venue, fate, r, e, legs, control, sent)
    ensures r.submitted + r.preflightFailed <= 1
    ensures sent <= nowSent && |nowSent| <= |sent| + 2 * r.submitted
  {
  }

  // ---------- paused execution ----------

  predicate EmergencyClose(intent: Intent) { intent.action == ClosePair && intent.emergency }

  /** Every row and leg that differs, and every order sent since, belongs to an emergency
      close; and no row changed what it orders. */
  ghost predicate OnlyEmergencyCloses(
    was: map<string, Intent>, now: map<string, Intent>, wasLegs: map<LegKey, Leg>, nowLegs: map<LegKey, Leg>,
    wasSent: seq<LegKey>, nowSent: seq<LegKey>)
  {
    && now.Keys == was.Keys && nowLegs.Keys == wasLegs.Keys && wasSent <= nowSent
    && (forall id | id in was :: now[id] == was[id].(status := now[id].status, failureCode := now[id].failureCode))
    && (forall id | id in was :: now[id] == was[id] || EmergencyClose(was[id]))
    && (forall k | k in wasLegs :: nowLegs[k] == wasLegs[k] || (k.0 in was && EmergencyClose(was[k.0])))
    && (forall j | |wasSent| <= j < |nowSent| :: nowSent[j].0 in was && EmergencyClose(was[nowSent[j].0]))
  }

  lemma PausedFirst(
    now: map<string, Intent>, was: map<string, Intent>, ids: seq<string>, n: nat, fate: string -> Disposition)
    requires n <= |ids| && RowsOf(ids, was) && now.Keys == was.Keys
    requires PassedFirst(now, was, ids, n, fate) && forall k :: k in ids ==> Eligible(Some(Paused), was[k])
    ensures forall id :: id in ids[..n] ==> SameOrder(was[id], now[id]) && EmergencyClose(was[id])
  {
    forall id | id in ids[..n] ensures SameOrder(was[id], now[id]) && EmergencyClose(was[id]) {
      var j :| 0 <= j < n && ids[j] == id;
      assert ids[j] in ids;
    }
  }

  lemma PausedPass(
    now: Tables, nowSent: seq<LegKey>, ids: seq<string>, rows: map<string, Intent>, venue: string -> Venue, fate: string -> Disposition,
    r: PassResult, e: Examined, legs: map<LegKey, Leg>, sent: seq<LegKey>)
    requires RowsOf(ids, rows) && forall id :: id in ids ==> Eligible(Some(Paused), rows[id])
    requires PassEnds(now, nowSent, ids, rows, venue, fate, r, e, legs, Some(Paused), sent)
    ensures now.control == Some(Paused)
    ensures OnlyEmergencyCloses(rows, now.intents, legs, now.legs, sent, nowSent)
  {
    if e.Stop? {
      PausedStopped(now, nowSent, ids, rows, venue, fate, r, e, legs, sent);
    } else {
      assert ids[..|ids|] == ids;
      PausedFirst(now.intents, rows, ids, |ids|, fate);
      PausedTogether(now, nowSent, rows, legs, sent, ids);
    }
  }

  lemma PausedStopped(
    now: Tables, nowSent: seq<LegKey>, ids: seq<string>, rows: map<string, Intent>, venue: string -> Venue, fate: string -> Disposition,
    r: PassResult, e: Examined, legs: map<LegKey, Leg>, sent: seq<LegKey>)
    requires RowsOf(ids, rows) && forall id :: id in ids ==> Eligible(Some(Paused), rows[id])
    requires e.Stop? && PassEnds(now, nowSent, ids, rows, venue, fate, r, e, legs, Some(Paused), sent)
    ensures now.control == Some(Paused)
    ensures OnlyEmergencyCloses(rows, now.intents, legs, now.legs, sent, nowSent)
  {
    var last := ids[r.examined - 1];
    assert last in ids && ids[..r.examined] == ids[..r.examined - 1] + [last];
    PausedFirst(now.intents, rows, ids, r.examined - 1, fate);
    PausedStop(now, nowSent, rows[last], venue(last), e, fate(last), legs, sent);
    PausedTogether(now, nowSent, rows, legs, sent, ids[..r.examined]);
  }

  /** The rows, legs and orders of emergency closes only, put together. */
  lemma PausedTogether(now: Tables, nowSent: seq<LegKey>, rows: map<string, Intent>, legs: map<LegKey, Leg>, sent: seq<LegKey>, touched: seq<string>)
    requires now.intents.Keys == rows.Keys && now.legs.Keys == legs.Keys && sent <= nowSent
    requires forall id :: id in touched ==> id in rows && SameOrder(rows[id], now.intents[id]) && EmergencyClose(rows[id])
    requires forall id :: id in rows && id !in touched ==> now.intents[id] == rows[id]
    requires forall k :: k in legs && k.0 !in touched ==> now.legs[k] == legs[k]
    requires forall j :: |sent| <= j < |nowSent| ==> nowSent[j].0 in touched
    ensures OnlyEmergencyCloses(rows, now.intents, legs, now.legs, sent, nowSent)
  {
    forall id | id in rows ensures SameOrder(rows[id], now.intents[id]) && (now.intents[id] == rows[id] || EmergencyClose(rows[id])) {
      if id !in touched {
        assert now.intents[id] == rows[id];
      }
    }
  }

  predicate SameOrder(was: Intent, now: Intent) { now == was.(status := now.status, failureCode := now.failureCode) }

  lemma PausedStop(
    now: Tables, nowSent: seq<LegKey>, intent: Intent, v: Venue, e: Examined, d: Disposition,
    legs: map<LegKey, Leg>, sent: seq<LegKey>)
    requires e.Stop? && Stopped(now, nowSent, intent, v, e, d, legs, Some(Paused), sent)
    ensures SameOrder(intent, now.intents[intent.id]) && now.control == Some(Paused)
    ensures now.legs.Keys == legs.Keys && forall k :: k in legs && k.0 != intent.id ==> now.legs[k] == legs[k]
    ensures sent <= nowSent && forall j :: |sent| <= j < |nowSent| ==> nowSent[j].0 == intent.id
  {
  }

  lemma StillOnlyEmergencyCloses(
    a: map<string, Intent>, b: map<string, Intent>, c: map<string, Intent>,
    aLegs: map<LegKey, Leg>, bLegs: map<LegKey, Leg>, cLegs: map<LegKey, Leg>,
    aSent: seq<LegKey>, bSent: seq<LegKey>, cSent: seq<LegKey>)
    requires OnlyEmergencyCloses(a, b, aLegs, bLegs, aSent, bSent) && OnlyEmergencyCloses(b, c, bLegs, cLegs, bSent, cSent)
    ensures OnlyEmergencyCloses(a, c, aLegs, cLegs, aSent, cSent)
  {
    forall id | id in a ensures SameOrder(a[id], c[id]) && (c[id] == a[id] || EmergencyClose(a[id])) {
      assert SameOrder(a[id], b[id]) && SameOrder(b[id], c[id]);
    }
    forall j | |aSent| <= j < |cSent| ensures cSent[j].0 in a && EmergencyClose(a[cSent[j].0]) {
      if j < |bSent| {
        assert cSent[j] == bSent[j];
      } else {
        assert SameOrder(a[cSent[j].0], b[cSent[j].0]);
      }
    }
  }

  /** However the calls end, both primary legs are acknowledged, failed or unknown; a leg
      fails only on a definitive rejection or, for a spot order never sent, because the
      Gate sandbox perpetual call failed first. */
  lemma LegsResolved(legs: map<LegKey, Leg>, after: map<LegKey, Leg>, intent: Intent, v: Venue)
    requires (intent.id, Spot) in legs && (intent.id, Perp) in legs
    requires LegsSettled(PreparedLegs(legs, intent, v), after, intent, v)
    ensures after.Keys == legs.Keys
    ensures forall k :: k in legs && k != (intent.id, Spot) && k != (intent.id, Perp) ==> after[k] == legs[k]
    ensures forall name | name in {Spot, Perp} ::
      var status, call := after[(intent.id, name)].status, if name == Spot then v.spotOrder else v.perpOrder;
      && status in {Acknowledged, FailedLeg, Unknown}
      && ((intent.id, name) !in OrdersSent(intent, v) ==> name == Spot && GateSandbox(intent) && v.perpOrder.Raised?)
      && (status == FailedLeg <==> (intent.id, name) !in OrdersSent(intent, v)
                                   || (call.Raised? && DefinitiveRejection(call.error)))
      && (status == Acknowledged <==>
            && (intent.id, name) in OrdersSent(intent, v) && call.Returned?
            && Acknowledges(name, PreparedLegs(legs, intent, v)[(intent.id, name)], call.value))
      && ((intent.id, name) in OrdersSent(intent, v) && call.Raised? ==>
            (status == FailedLeg <==>
              && call.error.PrivateRequestError? && call.error.statusCode.Some?
              && var code := call.error.statusCode.value; 400 <= code <= 499 && code != 408 && code != 425 && code != 429))
  {
  }

  // ---------- passes one after the other ----------

  /** What a pass found and what it left. */
  datatype Pass = Pass(
    before: Tables, sentBefore: seq<LegKey>, after: Tables, sentAfter: seq<LegKey>, result: PassResult, ended: Examined)

  /** It took up the candidates there were, and ended at the first submitted or failed. */
  ghost predicate PassOf(p: Pass, venue: string -> Venue) {
    var ids := Candidates(p.before.control, p.before.intents, p.before.createdOrder);
    && RowsOf(ids, p.before.intents)
    && PassEnds(p.after, p.sentAfter, ids, p.before.intents, venue,
                FateOf(p.before.legs, p.before.positions, p.before.intents, venue), p.result, p.ended,
                p.before.legs, p.before.control, p.sentBefore)
  }

  /** The tables after the first `n` passes, and what had been sent. */
  function TablesAt(start: Tables, passes: seq<Pass>, n: nat): Tables
    requires n <= |passes|
  {
    if n == 0 then start else passes[n - 1].after
  }

  function SentAt(sent: seq<LegKey>, passes: seq<Pass>, n: nat): seq<LegKey>
    requires n <= |passes|
  {
    if n == 0 then sent else passes[n - 1].sentAfter
  }

  /** Other writers leave tables of theirs, where these fit what was sent. */
  function Rewritten(was: Tables, written: Option<Tables>, sent: seq<LegKey>): Tables {
    if written.Some? && Fits(written.value, sent) then written.value else was
  }

  /** Pass `n` starts from what the one before it and other writers left. */
  ghost predicate PassAt(
    start: Tables, sent: seq<LegKey>, passes: seq<Pass>, n: nat, venue: string -> Venue, written: Option<Tables>)
    requires n < |passes|
  {
    && PassOf(passes[n], venue)
    && passes[n].sentBefore == SentAt(sent, passes, n)
    && passes[n].before == Rewritten(TablesAt(start, passes, n), written, passes[n].sentBefore)
  }

  /** How many of the passes submitted an intent. */
  function Submissions(passes: seq<Pass>): nat {
    if passes == [] then 0
    else
      var n := |passes| - 1;
      Submissions(passes[..n]) + if passes[n].ended.Stop? && passes[n].ended.submitted == 1 then 1 else 0
  }

  /** One pass and what it was. */
  method RunOnePass(db: Database, venue: string -> Venue) returns (r: PassResult, ghost p: Pass)
    requires db.Valid()
    modifies db
    ensures db.Valid() && PassOf(p, venue)
    ensures p.before == old(db.Now()) && p.sentBefore == old(db.sent) && p.after == db.Now() && p.sentAfter == db.sent
    ensures r.submitted == if p.ended.Stop? && p.ended.submitted == 1 then 1 else 0
    ensures old(db.sent) <= db.sent && |db.sent| <= |old(db.sent)| + 2 * r.submitted
    ensures old(db.control) == Some(Paused) ==>
      && db.control == Some(Paused)
      && OnlyEmergencyCloses(old(db.intents), db.intents, old(db.legs), db.legs, old(db.sent), db.sent)
  {
    ghost var before, sent := db.Now(), db.sent;
    ghost var e;
    r, e := RunOnce(db, venue);
    p := Pass(before, sent, db.Now(), db.sent, r, e);
  }

  /** Other writers, and then one pass. */
  method RunAfterWriters(db: Database, venue: string -> Venue, written: Option<Tables>) returns (r: PassResult, ghost p: Pass)
    requires db.Valid()
    modifies db
    ensures db.Valid() && PassOf(p, venue)
    ensures p.before == Rewritten(old(db.Now()), written, old(db.sent)) && p.sentBefore == old(db.sent)
    ensures p.after == db.Now() && p.sentAfter == db.sent
    ensures r.submitted == if p.ended.Stop? && p.ended.submitted == 1 then 1 else 0
    ensures old(db.sent) <= db.sent && |db.sent| <= |old(db.sent)| + 2 * r.submitted
  {
    if written.Some? {
      var _ := db.Adopt(written.value);
    }
    r, p := RunOnePass(db, venue);
  }

  /** Nobody writes between the passes. */
  function Nobody(n: nat): (r: seq<Option<Tables>>)
    ensures |r| == n && forall i :: 0 <= i < n ==> r[i] == None
  {
    seq(n, _ => None)
  }

  /** `passes` are the traces that lead from `start` to `now`. */
  ghost predicate Traced(
    start: Tables, sent: seq<LegKey>, passes: seq<Pass>, venues: seq<string -> Venue>, written: seq<Option<Tables>>,
    now: Tables, nowSent: seq<LegKey>)
  {
    && |passes| <= |venues| == |written|
    && (forall n :: 0 <= n < |passes| ==> PassAt(start, sent, passes, n, venues[n], written[n]))
    && now == TablesAt(start, passes, |passes|) && nowSent == SentAt(sent, passes, |passes|)
  }

  lemma {:induction false} OneMorePass(
    start: Tables, sent: seq<LegKey>, passes: seq<Pass>, venues: seq<string -> Venue>, written: seq<Option<Tables>>,
    now: Tables, nowSent: seq<LegKey>, p: Pass)
    requires Traced(start, sent, passes, venues, written, now, nowSent) && |passes| < |venues|
    requires PassOf(p, venues[|passes|]) && p.sentBefore == nowSent
    requires p.before == Rewritten(now, written[|passes|], nowSent)
    ensures Traced(start, sent, passes + [p], venues, written, p.after, p.sentAfter)
    ensures Submissions(passes + [p]) == Submissions(passes) + if p.ended.Stop? && p.ended.submitted == 1 then 1 else 0
  {
    assert (passes + [p])[..|passes|] == passes;
    forall n | 0 <= n < |passes| + 1 ensures PassAt(start, sent, passes + [p], n, venues[n], written[n]) {
      if n < |passes| {
        assert PassAt(start, sent, passes, n, venues[n], written[n]);
      }
    }
  }

  /** Any number of passes, each facing whatever the exchanges answer, and between any two
      of them whatever other writers do to the tables. Each is a pass from where the one
      before and the writers left off; `submitted` counts those that submitted an intent;
      and no order is ever handed to an exchange twice. */
  method RunPasses(db: Database, venues: seq<string -> Venue>, between: seq<Option<Tables>>)
    returns (submitted: nat, ghost passes: seq<Pass>)
    requires db.Valid() && |between| == |venues|
    modifies db
    ensures db.Valid() && |passes| == |venues|
    ensures Traced(old(db.Now()), old(db.sent), passes, venues, between, db.Now(), db.sent)
    ensures submitted == Submissions(passes)
    ensures forall i, j :: 0 <= i < j < |db.sent| ==> db.sent[i] != db.sent[j]
    ensures old(db.sent) <= db.sent && |db.sent| <= |old(db.sent)| + 2 * submitted
  {
    submitted, passes := 0, [];
    ghost var start, sent := db.Now(), db.sent;
    for n := 0 to |venues|
      invariant db.Valid() && |passes| == n && submitted == Submissions(passes)
      invariant Traced(start, sent, passes, venues, between, db.Now(), db.sent)
      invariant sent <= db.sent && |db.sent| <= |sent| + 2 * submitted
    {
      var r;
      r, passes := RunNext(db, venues, between, n, start, sent, passes);
      submitted := submitted + r;
    }
  }

  /** The next pass, and its trace. */
  method RunNext(
    db: Database, venues: seq<string -> Venue>, between: seq<Option<Tables>>, n: nat,
    ghost start: Tables, ghost sent: seq<LegKey>, ghost passes: seq<Pass>)
    returns (submitted: nat, ghost passes': seq<Pass>)
    requires db.Valid() && n == |passes| < |venues|
    requires Traced(start, sent, passes, venues, between, db.Now(), db.sent)
    modifies db
    ensures db.Valid() && |passes'| == n + 1
    ensures Traced(start, sent, passes', venues, between, db.Now(), db.sent)
    ensures Submissions(passes') == Submissions(passes) + submitted
    ensures old(db.sent) <= db.sent && |db.sent| <= |old(db.sent)| + 2 * submitted
  {
    ghost var now, nowSent := db.Now(), db.sent;
    var r;
    ghost var p;
    r, p := RunAfterWriters(db, venues[n], between[n]);
    OneMorePass(start, sent, passes, venues, between, now, nowSent, p);
    submitted, passes' := r.submitted, passes + [p];
  }

  /** While execution is paused, over any number of passes, it stays paused, and every row
      and leg that changes and every order that is sent belongs to an emergency close. */
  method RunPaused(db: Database, venues: seq<string -> Venue>) returns (ghost passes: seq<Pass>)
    requires db.Valid() && db.control == Some(Paused)
    modifies db
    ensures db.Valid() && db.control == Some(Paused) && |passes| == |venues|
    ensures Traced(old(db.Now()), old(db.sent), passes, venues, Nobody(|venues|), db.Now(), db.sent)
    ensures OnlyEmergencyCloses(old(db.intents), db.intents, old(db.legs), db.legs, old(db.sent), db.sent)
  {
    passes := [];
    ghost var start, sent := db.Now(), db.sent;
    ghost var written := Nobody(|venues|);
    for n := 0 to |venues|
      invariant db.Valid() && db.control == Some(Paused) && |passes| == n
      invariant Traced(start, sent, passes, venues, written, db.Now(), db.sent)
      invariant OnlyEmergencyCloses(start.intents, db.intents, start.legs, db.legs, sent, db.sent)
    {
      ghost var rows, legs, now, nowSent := db.intents, db.legs, db.Now(), db.sent;
      ghost var p;
      var r;
      r, p := RunOnePass(db, venues[n]);
      OneMorePass(start, sent, passes, venues, written, now, nowSent, p);
      passes := passes + [p];
      StillOnlyEmergencyCloses(start.intents, rows, db.intents, start.legs, legs, db.legs, sent, nowSent, db.sent);
    }
  }
}
