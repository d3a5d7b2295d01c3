/** `LiveExecutionService` (live_execution.py): one pass picks a planned intent, checks the
    account, and submits its two orders; exchange calls may fail in any way. */
module LiveExecution {
  import opened Models
  import opened Pricing
  import opened PositionMatching
  import opened Ledger

  /** The codes `_safe_remote_error_code` lets through. */
  type SafeCode = s: string | 1 <= |s| <= 64 && forall i :: 0 <= i < |s| ==> CodeChar(s[i]) witness "x"

  datatype CallError =
    | PrivateRequestError(statusCode: Option<int>, remoteCode: Option<SafeCode>)
    | OtherError

  datatype Call<T> = Raised(error: CallError) | Returned(value: T)

  datatype Snapshot = Snapshot(
    exchange: Exchange, environment: Environment, observedAt: Time, tradePermission: Option<bool>,
    positionModeKnown: bool, spotBuyFeeInBase: Option<bool>, isolatedMargin: bool, sharedBalance: bool,
    spotUsdtAvailable: real, perpUsdtAvailable: real)

  datatype RemoteState = RemoteState(complete: bool, openOrders: nat, positions: seq<RemoteRow>)

  /** What the price guard's two public requests return. */
  datatype GuardData = GuardUnavailable | EmptyBook | Book(top: real, mark: real, deviation: real, tick: real)

  /** Everything outside the database during one execution. */
  datatype Venue = Venue(
    now: Time,
    hasCredentials: bool,
    clientOpens: bool,
    snapshot: Call<Snapshot>,
    state: Call<RemoteState>,
    localRows: seq<LocalRow>,
    guard: GuardData,
    configures: bool,
    spotOrder: Call<Submission>,
    perpOrder: Call<Submission>)

  datatype Outcome = PreflightFailed(code: string) | Done(didSubmit: bool, uncertain: nat)

  const INTERNAL_ERROR := "preflight_internal_error"

  // ---------- rejections ----------

  predicate DefinitiveRejection(e: CallError) {
    e.PrivateRequestError? && e.statusCode.Some?
    && 400 <= e.statusCode.value < 500 && e.statusCode.value !in {408, 425, 429}
  }

  function Digits(n: nat): string {
    if n < 10 then [('0' as int + n) as char] else Digits(n / 10) + [('0' as int + n % 10) as char]
  }

  function RejectionCode(exchange: Exchange, e: CallError): string {
    if e.PrivateRequestError? && e.remoteCode.Some? then
      var full := exchange.Value() + "_" + e.remoteCode.value;
      if |full| <= 100 then full else full[..100]
    else if e.PrivateRequestError? && e.statusCode.Some? && e.statusCode.value >= 0 then
      exchange.Value() + "_http_" + Digits(e.statusCode.value)
    else exchange.Value() + "_order_rejected"
  }

  lemma AllCodeChars(a: string, b: string)
    requires forall i :: 0 <= i < |a| ==> CodeChar(a[i])
    requires forall i :: 0 <= i < |b| ==> CodeChar(b[i])
    ensures forall i :: 0 <= i < |a + b| ==> CodeChar((a + b)[i])
  {
  }

  /** The code recorded for a definitive rejection is always one the ledger accepts, and
      begins with the exchange. */
  lemma RejectionCodeValid(exchange: Exchange, e: CallError)
    requires DefinitiveRejection(e)
    ensures ValidCode(RejectionCode(exchange, e))
    ensures exchange.Value() + "_" <= RejectionCode(exchange, e)
  {
    var name := exchange.Value();
    assert forall i :: 0 <= i < |name| ==> CodeChar(name[i]);
    assert |name| <= 7;
    if e.remoteCode.Some? {
      AllCodeChars(name, "_");
      AllCodeChars(name + "_", e.remoteCode.value);
    } else {
      var d := Digits(e.statusCode.value);
      assert |d| == 3 && forall i :: 0 <= i < |d| ==> CodeChar(d[i]) by {
        assert Digits(e.statusCode.value / 10) == Digits(e.statusCode.value / 100) + [('0' as int + e.statusCode.value / 10 % 10) as char];
      }
      AllCodeChars(name, "_http_");
      AllCodeChars(name + "_http_", d);
    }
  }

  /** How one submitted leg is left by the answer to its order. */
  function Settled(exchange: Exchange, name: LegName, leg: Leg, call: Call<Submission>): Leg {
    match call
    case Raised(e) =>
      if DefinitiveRejection(e) then leg.(status := FailedLeg, failureCode := Some(RejectionCode(exchange, e)))
      else leg.(status := Unknown)
    case Returned(s) =>
      if Acknowledges(name, leg, s) then Acknowledge(leg, s) else leg.(status := Unknown)
  }

  function Uncertain(leg: Leg): nat { if leg.status == Unknown then 1 else 0 }

  // ---------- checks before anything is sent ----------

  predicate StaleQuote(observedAt: Time, now: Time) {
    observedAt > now + 5.0 || now - observedAt > 15.0
  }

  predicate ValidBalance(s: Snapshot, intent: Intent, spot: Leg, perp: Leg) {
    intent.leverage != 0 &&
    var spotRequired := spot.quantity * spot.limitPrice;
    var perpRequired := perp.quantity * perp.baseMultiplier * perp.limitPrice / intent.leverage as real;
    if s.sharedBalance then
      s.spotUsdtAvailable >= spotRequired && s.perpUsdtAvailable >= spotRequired + perpRequired
    else
      s.spotUsdtAvailable >= spotRequired && s.perpUsdtAvailable >= perpRequired
  }

  predicate GateSandbox(intent: Intent) { intent.exchange == Gate && intent.environment == Sandbox }

  /** `executable_limit`: Raised for unusable data, None for a market that cannot be reached. */
  function ExecutableLimit(data: GuardData, side: string, planned: real): Call<Option<real>> {
    if side !in {BUY, SELL} || planned <= 0.0 then Raised(OtherError)
    else match data
      case GuardUnavailable => Raised(OtherError)
      case EmptyBook => Returned(None)
      case Book(top, mark, deviation, tick) =>
        if mark <= 0.0 || deviation <= 0.0 || deviation >= 1.0 || tick <= 0.0 then Raised(OtherError)
        else if top <= 0.0 then Returned(None)
        else match GuardedIocLimitPrice(side, planned, top, mark, deviation, tick)
          case InvalidInputs => Raised(OtherError)
          case NoPrice => Returned(None)
          case Price(p) => Returned(Some(p))
  }

  /** The account, its positions and its balance allow this intent to be submitted. */
  ghost predicate AccountAllows(
    positions: map<string, PairedPosition>, intent: Intent, spot: Leg, perp: Leg, v: Venue)
  {
    && v.hasCredentials && v.clientOpens
    && v.snapshot.Returned? && v.state.Returned?
    && var s, r := v.snapshot.value, v.state.value;
       && s.exchange == intent.exchange && s.environment == intent.environment
       && s.observedAt >= v.now - 30.0
       && s.tradePermission == Some(true)
       && s.positionModeKnown
       && r.complete && r.openOrders == 0
       && Accepts(v.localRows, r.positions, s.isolatedMargin)
       && match intent.action
          case OpenPair =>
            (intent.spotBuyFeeInBase ==> s.spotBuyFeeInBase == Some(true)) && ValidBalance(s, intent, spot, perp)
          case ClosePair => ReducesReserved(positions, intent, spot, perp)
  }

  /** What each preflight code says is wrong. */
  ghost predicate Names(code: string, db: Database, intent: Intent, v: Venue)
    reads db
  {
    match code
    case "credential_missing" => !v.hasCredentials
    case "account_client_failed" => !v.clientOpens
    case "account_snapshot_failed" => v.snapshot.Raised?
    case "remote_state_failed" => v.state.Raised?
    case "intent_missing" => intent.id !in db.intents
    case "intent_legs_invalid" => (intent.id, Spot) !in db.legs || (intent.id, Perp) !in db.legs
    case _ => v.snapshot.Returned? && v.state.Returned? && NamesState(code, db, intent, v.snapshot.value, v.state.value, v)
  }

  ghost predicate NamesState(code: string, db: Database, intent: Intent, account: Snapshot, remote: RemoteState, v: Venue)
    reads db
  {
    match code
    case "account_snapshot_stale" =>
      account.exchange != intent.exchange || account.environment != intent.environment || account.observedAt + 30.0 < v.now
    case "trade_permission_unconfirmed" => account.tradePermission != Some(true)
    case "position_mode_unknown" => !account.positionModeKnown
    case "remote_state_incomplete" => !remote.complete
    case "remote_open_orders" => remote.openOrders > 0
    case "spot_fee_mode_changed" => intent.action == OpenPair && intent.spotBuyFeeInBase && account.spotBuyFeeInBase != Some(true)
    case "remote_positions_present" => intent.action == OpenPair && !Accepts(v.localRows, remote.positions, account.isolatedMargin)
    case "balance_insufficient" =>
      && intent.action == OpenPair && (intent.id, Spot) in db.legs && (intent.id, Perp) in db.legs
      && !ValidBalance(account, intent, db.legs[(intent.id, Spot)], db.legs[(intent.id, Perp)])
    case "close_state_mismatch" =>
      && intent.action == ClosePair && (intent.id, Spot) in db.legs && (intent.id, Perp) in db.legs
      && (!ReducesReserved(db.positions, intent, db.legs[(intent.id, Spot)], db.legs[(intent.id, Perp)])
          || !Accepts(v.localRows, remote.positions, account.isolatedMargin))
    case _ => false
  }

  /** All the checks of `_execute` up to the guarded price; None when they pass, and
      otherwise a code that names something wrong. */
  method Preflight(db: Database, intent: Intent, v: Venue) returns (failure: Option<string>)
    requires db.Valid()
    ensures failure != Some(INTERNAL_ERROR)
    ensures failure.Some? ==> Names(failure.value, db, intent, v)
    ensures failure.None? ==>
      && intent.id in db.intents && (intent.id, Spot) in db.legs && (intent.id, Perp) in db.legs
      && AccountAllows(db.positions, intent, db.legs[(intent.id, Spot)], db.legs[(intent.id, Perp)], v)
    ensures failure.Some? && intent.id in db.intents && (intent.id, Spot) in db.legs && (intent.id, Perp) in db.legs ==>
      !AccountAllows(db.positions, intent, db.legs[(intent.id, Spot)], db.legs[(intent.id, Perp)], v)
  {
    if !v.hasCredentials {
      return Some("credential_missing");
    }
    if !v.clientOpens {
      return Some("account_client_failed");
    }
    if v.snapshot.Raised? {
      return Some("account_snapshot_failed");
    }
    if v.state.Raised? {
      return Some("remote_state_failed");
    }
    var snapshot, remoteState := v.snapshot.value, v.state.value;
    if snapshot.exchange != intent.exchange
       || snapshot.environment != intent.environment
       || snapshot.observedAt < v.now - 30.0
    {
      return Some("account_snapshot_stale");
    }
    if snapshot.tradePermission != Some(true) {
      return Some("trade_permission_unconfirmed");
    }
    if !snapshot.positionModeKnown {
      return Some("position_mode_unknown");
    }
    if !remoteState.complete {
      return Some("remote_state_incomplete");
    }
    if remoteState.openOrders > 0 {
      return Some("remote_open_orders");
    }
    if intent.id !in db.intents {
      return Some("intent_missing");
    }
    if (intent.id, Spot) !in db.legs || (intent.id, Perp) !in db.legs {
      return Some("intent_legs_invalid");
    }
    var spot, perp := db.legs[(intent.id, Spot)], db.legs[(intent.id, Perp)];
    if intent.action == OpenPair {
      if intent.spotBuyFeeInBase && snapshot.spotBuyFeeInBase != Some(true) {
        return Some("spot_fee_mode_changed");
      }
      var verdict := ValidatePairedPositions(v.localRows, remoteState.positions, snapshot.isolatedMargin);
      if verdict != Accepted {
        return Some("remote_positions_present");
      }
      if !ValidBalance(snapshot, intent, spot, perp) {
        return Some("balance_insufficient");
      }
    } else {
      if !ReducesReserved(db.positions, intent, spot, perp) {
        return Some("close_state_mismatch");
      }
      var verdict := ValidatePairedPositions(v.localRows, remoteState.positions, snapshot.isolatedMargin);
      if verdict != Accepted {
        return Some("close_state_mismatch");
      }
    }
    return None;
  }

  // ---------- recording what the exchange answered ----------

  type Answer = (LegName, Call<Submission>)

  ghost predicate AwaitingAnswers(legs: map<LegKey, Leg>, id: string, results: seq<Answer>) {
    && (forall i :: 0 <= i < |results| ==> (id, results[i].0) in legs && legs[(id, results[i].0)].status == Submitted)
    && (forall i, j :: 0 <= i < j < |results| ==> results[i].0 != results[j].0)
  }

  function SettleOne(legs: map<LegKey, Leg>, exchange: Exchange, id: string, r: Answer): map<LegKey, Leg>
    requires (id, r.0) in legs
  {
    legs[(id, r.0) := Settled(exchange, r.0, legs[(id, r.0)], r.1)]
  }

  /** What recording the answers in turn leaves: the leg table, how many legs are
      unknown, and whether every one was acknowledged. */
  ghost function SettleAll(legs: map<LegKey, Leg>, exchange: Exchange, id: string, results: seq<Answer>): (map<LegKey, Leg>, nat, bool)
    requires AwaitingAnswers(legs, id, results)
  {
    if results == [] then (legs, 0, true)
    else
      var next := SettleOne(legs, exchange, id, results[0]);
      var rest := SettleAll(next, exchange, id, results[1..]);
      var leg := next[(id, results[0].0)];
      (rest.0, Uncertain(leg) + rest.1, leg.status == Acknowledged && rest.2)
  }

  /** The body of the loop over `zip(processed_legs, results)`. */
  method RecordResult(db: Database, exchange: Exchange, id: string, result: Answer) returns (uncertain: nat)
    requires db.Valid() && (id, result.0) in db.legs && db.legs[(id, result.0)].status == Submitted
    modifies db`legs, db`control
    ensures db.Valid()
    ensures db.legs == SettleOne(old(db.legs), exchange, id, result)
    ensures uncertain == Uncertain(db.legs[(id, result.0)])
    ensures db.control == if db.legs[(id, result.0)].status == Acknowledged then old(db.control) else Some(Paused)
  {
    var key := (id, result.0);
    match result.1
    case Raised(e) =>
      if DefinitiveRejection(e) {
        RejectionCodeValid(exchange, e);
        var recorded := db.MarkOrderSubmissionRejected(key, RejectionCode(exchange, e));
        assert recorded;
        return 0;
      }
      db.MarkOrderSubmissionUnknown(key);
      return 1;
    case Returned(submission) =>
      var ok := db.RecordOrderSubmission(key, submission);
      if ok {
        return 0;
      }
      db.MarkOrderSubmissionUnknown(key);
      return 1;
  }

  /** Recording the answers from `n` on starts with the one at `n`. */
  lemma NextAnswer(legs: map<LegKey, Leg>, exchange: Exchange, id: string, results: seq<Answer>, n: nat)
    requires n < |results| && AwaitingAnswers(legs, id, results[n..])
    ensures (id, results[n].0) in legs && legs[(id, results[n].0)].status == Submitted
    ensures var next := SettleOne(legs, exchange, id, results[n]);
      && AwaitingAnswers(next, id, results[n + 1..])
      && var rest, leg := SettleAll(next, exchange, id, results[n + 1..]), next[(id, results[n].0)];
         SettleAll(legs, exchange, id, results[n..]) == (rest.0, Uncertain(leg) + rest.1, leg.status == Acknowledged && rest.2)
  {
    assert results[n..][0] == results[n] && results[n..][1..] == results[n + 1..];
    var all, tail := results[n..], results[n + 1..];
    forall i | 0 <= i < |tail| ensures tail[i].0 != results[n].0 {
      assert all[0].0 != all[i + 1].0;
    }
  }

  method RecordResults(db: Database, exchange: Exchange, id: string, results: seq<Answer>) returns (uncertain: nat)
    requires db.Valid() && AwaitingAnswers(db.legs, id, results)
    modifies db`legs, db`control
    ensures db.Valid()
    ensures (db.legs, uncertain) == (SettleAll(old(db.legs), exchange, id, results).0, SettleAll(old(db.legs), exchange, id, results).1)
    ensures db.control == if SettleAll(old(db.legs), exchange, id, results).2 then old(db.control) else Some(Paused)
  {
    uncertain := 0;
    ghost var goal := SettleAll(db.legs, exchange, id, results);
    for n := 0 to |results|
      invariant db.Valid() && AwaitingAnswers(db.legs, id, results[n..])
      invariant SettleAll(db.legs, exchange, id, results[n..]).0 == goal.0
      invariant SettleAll(db.legs, exchange, id, results[n..]).1 + uncertain == goal.1
      invariant (if SettleAll(db.legs, exchange, id, results[n..]).2 then db.control else Some(Paused))
             == (if goal.2 then old(db.control) else Some(Paused))
    {
      NextAnswer(db.legs, exchange, id, results, n);
      var u := RecordResult(db, exchange, id, results[n]);
      uncertain := uncertain + u;
    }
  }

  const PRIOR_LEG := "gate_prior_leg_not_submitted"

  lemma PriorLegCodeValid()
    ensures ValidCode(PRIOR_LEG)
  {
  }

  /** On the Gate sandbox the perpetual order goes first; when that call fails the spot
      order is never sent. */
  predicate SpotSkipped(intent: Intent, v: Venue) { GateSandbox(intent) && v.perpOrder.Raised? }

  function FinalPerp(intent: Intent, perp: Leg, v: Venue): Leg { Settled(intent.exchange, Perp, perp, v.perpOrder) }

  function FinalSpot(intent: Intent, spot: Leg, v: Venue): Leg {
    if SpotSkipped(intent, v) then spot.(status := FailedLeg, failureCode := Some(PRIOR_LEG))
    else Settled(intent.exchange, Spot, spot, v.spotOrder)
  }

  function OrdersSent(intent: Intent, v: Venue): seq<LegKey> {
    if SpotSkipped(intent, v) then [(intent.id, Perp)]
    else if GateSandbox(intent) then [(intent.id, Perp), (intent.id, Spot)]
    else [(intent.id, Spot), (intent.id, Perp)]
  }

  /** The two primary legs after submission, and everything else as it was. */
  ghost predicate LegsSettled(before: map<LegKey, Leg>, after: map<LegKey, Leg>, intent: Intent, v: Venue)
    requires (intent.id, Spot) in before && (intent.id, Perp) in before
  {
    after == before[(intent.id, Spot) := FinalSpot(intent, before[(intent.id, Spot)], v)]
                   [(intent.id, Perp) := FinalPerp(intent, before[(intent.id, Perp)], v)]
  }

  ghost predicate BothSubmitted(db: Database, id: string)
    reads db
  {
    && db.Valid()
    && (id, Spot) in db.legs && db.legs[(id, Spot)].status == Submitted && (id, Spot) !in db.sent
    && (id, Perp) in db.legs && db.legs[(id, Perp)].status == Submitted && (id, Perp) !in db.sent
  }

  /** The sequential branch of `_execute`. */
  method SubmitInTurn(db: Database, intent: Intent, v: Venue) returns (uncertain: nat)
    requires BothSubmitted(db, intent.id) && GateSandbox(intent)
    modifies db`legs, db`control, db`sent
    ensures db.Valid()
    ensures LegsSettled(old(db.legs), db.legs, intent, v)
    ensures db.sent == old(db.sent) + OrdersSent(intent, v)
    ensures uncertain == Uncertain(db.legs[(intent.id, Spot)]) + Uncertain(db.legs[(intent.id, Perp)])
    ensures db.control ==
      if db.legs[(intent.id, Spot)].status == Acknowledged && db.legs[(intent.id, Perp)].status == Acknowledged
      then old(db.control) else Some(Paused)
  {
    db.Send((intent.id, Perp));
    if v.perpOrder.Raised? {
      uncertain := SettleWithoutSpot(db, intent, v);
    } else {
      db.Send((intent.id, Spot));
      uncertain := SettleInTurn(db, intent, v);
      assert db.sent == old(db.sent) + [(intent.id, Perp), (intent.id, Spot)];
    }
  }

  /** The perpetual call failed: the spot leg is rejected unsent. */
  method SettleWithoutSpot(db: Database, intent: Intent, v: Venue) returns (uncertain: nat)
    requires db.Valid() && SpotSkipped(intent, v)
    requires (intent.id, Spot) in db.legs && db.legs[(intent.id, Spot)].status == Submitted
    requires (intent.id, Perp) in db.legs && db.legs[(intent.id, Perp)].status == Submitted
    modifies db`legs, db`control
    ensures db.Valid() && LegsSettled(old(db.legs), db.legs, intent, v)
    ensures uncertain == Uncertain(db.legs[(intent.id, Spot)]) + Uncertain(db.legs[(intent.id, Perp)])
    ensures db.control == Some(Paused)
  {
    var id := intent.id;
    PriorLegCodeValid();
    var recorded := db.MarkOrderSubmissionRejected((id, Spot), PRIOR_LEG);
    assert recorded;
    OneAnswer(db.legs, intent.exchange, id, (Perp, v.perpOrder));
    uncertain := RecordResults(db, intent.exchange, id, [(Perp, v.perpOrder)]);
  }

  method SettleInTurn(db: Database, intent: Intent, v: Venue) returns (uncertain: nat)
    requires db.Valid() && !SpotSkipped(intent, v)
    requires (intent.id, Spot) in db.legs && db.legs[(intent.id, Spot)].status == Submitted
    requires (intent.id, Perp) in db.legs && db.legs[(intent.id, Perp)].status == Submitted
    modifies db`legs, db`control
    ensures db.Valid() && LegsSettled(old(db.legs), db.legs, intent, v)
    ensures uncertain == Uncertain(db.legs[(intent.id, Spot)]) + Uncertain(db.legs[(intent.id, Perp)])
    ensures db.control ==
      if db.legs[(intent.id, Spot)].status == Acknowledged && db.legs[(intent.id, Perp)].status == Acknowledged
      then old(db.control) else Some(Paused)
  {
    var id := intent.id;
    TwoAnswers(db.legs, intent.exchange, id, (Perp, v.perpOrder), (Spot, v.spotOrder));
    uncertain := RecordResults(db, intent.exchange, id, [(Perp, v.perpOrder), (Spot, v.spotOrder)]);
    UpdatesCommute(old(db.legs), (id, Spot), FinalSpot(intent, old(db.legs)[(id, Spot)], v),
                   (id, Perp), FinalPerp(intent, old(db.legs)[(id, Perp)], v));
  }

  lemma UpdatesCommute(m: map<LegKey, Leg>, a: LegKey, x: Leg, b: LegKey, y: Leg)
    requires a != b
    ensures m[a := x][b := y] == m[b := y][a := x]
  {
  }

  /** The `gather` branch: both orders are sent whatever happens to either. */
  method SubmitTogether(db: Database, intent: Intent, v: Venue) returns (uncertain: nat)
    requires BothSubmitted(db, intent.id) && !GateSandbox(intent)
    modifies db`legs, db`control, db`sent
    ensures db.Valid()
    ensures LegsSettled(old(db.legs), db.legs, intent, v)
    ensures db.sent == old(db.sent) + OrdersSent(intent, v)
    ensures uncertain == Uncertain(db.legs[(intent.id, Spot)]) + Uncertain(db.legs[(intent.id, Perp)])
    ensures db.control ==
      if db.legs[(intent.id, Spot)].status == Acknowledged && db.legs[(intent.id, Perp)].status == Acknowledged
      then old(db.control) else Some(Paused)
  {
    var id := intent.id;
    db.Send((id, Spot));
    db.Send((id, Perp));
    TwoAnswers(db.legs, intent.exchange, id, (Spot, v.spotOrder), (Perp, v.perpOrder));
    uncertain := RecordResults(db, intent.exchange, id, [(Spot, v.spotOrder), (Perp, v.perpOrder)]);
    assert db.sent == old(db.sent) + [(id, Spot), (id, Perp)];
  }

  lemma OneAnswer(legs: map<LegKey, Leg>, exchange: Exchange, id: string, a: Answer)
    requires AwaitingAnswers(legs, id, [a]) && (id, a.0) in legs
    ensures var after := SettleOne(legs, exchange, id, a);
      SettleAll(legs, exchange, id, [a]) == (after, Uncertain(after[(id, a.0)]), after[(id, a.0)].status == Acknowledged)
  {
    assert [a][1..] == [];
  }

  lemma TwoAnswers(legs: map<LegKey, Leg>, exchange: Exchange, id: string, a: Answer, b: Answer)
    requires AwaitingAnswers(legs, id, [a, b]) && (id, a.0) in legs && (id, b.0) in legs && a.0 != b.0
    ensures var after := SettleOne(SettleOne(legs, exchange, id, a), exchange, id, b);
      SettleAll(legs, exchange, id, [a, b]) ==
        (after, Uncertain(after[(id, a.0)]) + Uncertain(after[(id, b.0)]),
         after[(id, a.0)].status == Acknowledged && after[(id, b.0)].status == Acknowledged)
  {
    assert [a, b][1..] == [b];
    var next := SettleOne(legs, exchange, id, a);
    assert AwaitingAnswers(next, id, [b]);
    OneAnswer(next, exchange, id, b);
  }
}
