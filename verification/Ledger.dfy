/** The part of the database (storage.py) that live submission reads and writes. */
module Ledger {
  import opened Models
  import opened Pricing
  import opened PositionMatching

  datatype Control = Ready | Paused | Reconciling

  datatype Action = OpenPair | ClosePair

  datatype IntentStatus = Planned | Executing | FailedIntent | Hedged | ClosedIntent | Compensating | ManualReview

  datatype Intent = Intent(
    id: string,
    exchange: Exchange,
    environment: Environment,
    action: Action,
    emergency: bool,
    status: IntentStatus,
    leverage: int,
    marketObservedAt: Time,
    spotBuyFeeInBase: bool,
    pairedPositionId: Option<string>,
    failureCode: Option<string>)

  datatype LegName = Spot | Perp | SpotCompensation | PerpCompensation

  datatype LegStatus = Created | Submitted | Acknowledged | Unknown | FailedLeg

  datatype Leg = Leg(
    symbol: string,
    side: string,
    quantity: real,
    limitPrice: real,
    baseMultiplier: real,
    reduceOnly: bool,
    clientOrderId: string,
    exchangeOrderId: Option<string>,
    status: LegStatus,
    failureCode: Option<string>)

  /** Order legs are unique per intent and leg name. */
  type LegKey = (string, LegName)

  datatype ReservedStatus = OpenPosition | ClosingPosition | ClosedPosition

  datatype PairedPosition = PairedPosition(quantity: real, status: ReservedStatus, closingIntentId: Option<string>)

  datatype Submission = Submission(market: LegName, symbol: string, clientOrderId: string, exchangeOrderId: Option<string>)

  datatype Preparation = MissingIntent | ValueError | NotPrepared | Prepared

  const MARKET_DATA_EXPIRED := "market_data_expired"
  const MARKET_UNEXECUTABLE := "market_unexecutable"

  predicate ValidCode(code: string) {
    1 <= |code| <= 100 && forall i :: 0 <= i < |code| ==> CodeChar(code[i])
  }

  predicate CodeChar(ch: char) { 'a' <= ch <= 'z' || '0' <= ch <= '9' || ch == '_' }

  /** The acknowledgement is the one this leg is waiting for. */
  predicate Acknowledges(name: LegName, leg: Leg, s: Submission) {
    && leg.status in {Submitted, Acknowledged}
    && s.market == name && s.symbol == leg.symbol && s.clientOrderId == leg.clientOrderId
    && (leg.exchangeOrderId.Some? && s.exchangeOrderId.Some? ==> leg.exchangeOrderId == s.exchangeOrderId)
  }

  function Acknowledge(leg: Leg, s: Submission): Leg {
    leg.(status := Acknowledged,
         exchangeOrderId := if s.exchangeOrderId.Some? then s.exchangeOrderId else leg.exchangeOrderId)
  }

  /** A position handed back when its close intent ends without an order. */
  function ReopenFor(positions: map<string, PairedPosition>, intent: Intent): map<string, PairedPosition> {
    if intent.action == ClosePair && intent.pairedPositionId.Some?
       && intent.pairedPositionId.value in positions
       && positions[intent.pairedPositionId.value].status == ClosingPosition
       && positions[intent.pairedPositionId.value].closingIntentId == Some(intent.id)
    then positions[intent.pairedPositionId.value :=
           positions[intent.pairedPositionId.value].(status := OpenPosition, closingIntentId := None)]
    else positions
  }

  /** The close legs reduce exactly the position the intent has reserved. */
  predicate ReducesReserved(positions: map<string, PairedPosition>, intent: Intent, spot: Leg, perp: Leg) {
    && intent.pairedPositionId.Some? && intent.pairedPositionId.value in positions
    && var p := positions[intent.pairedPositionId.value];
       p.status == ClosingPosition && p.closingIntentId == Some(intent.id)
       && DecimalEqual(spot.quantity * spot.baseMultiplier, p.quantity)
       && DecimalEqual(perp.quantity * perp.baseMultiplier, p.quantity)
       && spot.side == SELL && !spot.reduceOnly
       && perp.side == BUY && perp.reduceOnly
  }

  predicate Weakens(perp: Leg, adjusted: real) {
    (perp.side == BUY && adjusted > perp.limitPrice) || (perp.side == SELL && adjusted < perp.limitPrice)
  }

  predicate MaySubmit(control: Option<Control>, intent: Intent) {
    control == Some(Ready) || (control == Some(Paused) && intent.emergency && intent.action == ClosePair)
  }

  /** Everything in the database that someone else may write between two passes. */
  datatype Tables = Tables(
    control: Option<Control>,
    intents: map<string, Intent>,
    createdOrder: seq<string>,
    legs: map<LegKey, Leg>,
    positions: map<string, PairedPosition>)

  /** Rows are filed under their own identity, and an order that was sent has left the
      state in which it may be sent. */
  predicate Fits(t: Tables, sent: seq<LegKey>) {
    && (forall id :: id in t.intents ==> t.intents[id].id == id)
    && (forall i, j :: 0 <= i < j < |t.createdOrder| ==> t.createdOrder[i] != t.createdOrder[j])
    && (forall id :: id in t.createdOrder ==> id in t.intents)
    && (forall k :: k in sent ==> k in t.legs && t.legs[k].status != Created)
  }

  class Database {
    var control: Option<Control>
    var intents: map<string, Intent>
    var createdOrder: seq<string>
    var legs: map<LegKey, Leg>
    var positions: map<string, PairedPosition>
    /** Every order ever handed to an exchange. */
    var sent: seq<LegKey>

    function Now(): Tables
      reads this
    {
      Tables(control, intents, createdOrder, legs, positions)
    }

    /** The tables fit what was sent, and no order has been sent twice. */
    ghost predicate Valid()
      reads this
    {
      && Fits(Now(), sent)
      && (forall i, j :: 0 <= i < j < |sent| ==> sent[i] != sent[j])
    }

    /** Other writers: planning, settlement, reconciliation, an operator. They may leave
        any tables that fit what was sent. */
    method Adopt(t: Tables) returns (adopted: bool)
      requires Valid()
      modifies this`control, this`intents, this`createdOrder, this`legs, this`positions
      ensures Valid()
      ensures adopted <==> Fits(t, sent)
      ensures Now() == if adopted then t else old(Now())
    {
      adopted := Fits(t, sent);
      if adopted {
        control, intents, createdOrder := t.control, t.intents, t.createdOrder;
        legs, positions := t.legs, t.positions;
      }
    }

    predicate HasTwoPrimaryLegs(id: string)
      reads this
    {
      && (id, Spot) in legs && (id, Perp) in legs
      && (id, SpotCompensation) !in legs && (id, PerpCompensation) !in legs
    }

    predicate Preparable(id: string, adjusted: Option<real>)
      reads this
    {
      && id in intents && HasTwoPrimaryLegs(id)
      && intents[id].environment != Paper && intents[id].status == Planned
      && MaySubmit(control, intents[id])
      && legs[(id, Spot)].status == Created && legs[(id, Perp)].status == Created
      && (adjusted.Some? ==> adjusted.value > 0.0 && !Weakens(legs[(id, Perp)], adjusted.value))
      && (intents[id].action == ClosePair ==> ReducesReserved(positions, intents[id], legs[(id, Spot)], legs[(id, Perp)]))
    }

    method PrepareLiveSubmission(id: string, adjusted: Option<real>) returns (outcome: Preparation)
      requires Valid()
      modifies this`intents, this`legs
      ensures Valid()
      ensures outcome == Prepared <==> old(Preparable(id, adjusted))
      ensures outcome == ValueError ==>
        || (adjusted.Some? && adjusted.value <= 0.0)
        || (id in intents && (intents[id].environment == Paper || !HasTwoPrimaryLegs(id)
            || legs[(id, Spot)].status != Created || legs[(id, Perp)].status != Created
            || (adjusted.Some? && Weakens(legs[(id, Perp)], adjusted.value))
            || (intents[id].action == ClosePair
                && !ReducesReserved(positions, intents[id], legs[(id, Spot)], legs[(id, Perp)]))))
      ensures outcome == Prepared && adjusted.Some? ==> var perp := old(legs)[(id, Perp)];
        && (perp.side == "buy" ==> adjusted.value <= perp.limitPrice)
        && (perp.side == "sell" ==> perp.limitPrice <= adjusted.value)
      ensures outcome == MissingIntent ==> id !in intents
      ensures outcome == NotPrepared ==> id in intents && (intents[id].status != Planned || !MaySubmit(control, intents[id]))
      ensures outcome != Prepared ==> intents == old(intents) && legs == old(legs)
      ensures outcome == Prepared ==>
        && intents == old(intents)[id := old(intents)[id].(status := Executing, failureCode := None)]
        && var spot, perp := old(legs)[(id, Spot)], old(legs)[(id, Perp)];
           legs == old(legs)[(id, Spot) := spot.(status := Submitted)]
             [(id, Perp) := perp.(status := Submitted, limitPrice := if adjusted.Some? then adjusted.value else perp.limitPrice)]
    {
      if adjusted.Some? && adjusted.value <= 0.0 {
        return ValueError;
      }
      if id !in intents {
        return MissingIntent;
      }
      var intent := intents[id];
      if intent.environment !in {Sandbox, Live} {
        return ValueError;
      }
      if !HasTwoPrimaryLegs(id) {
        return ValueError;
      }
      if intent.status != Planned {
        return NotPrepared;
      }
      if !MaySubmit(control, intent) {
        return NotPrepared;
      }
      var spot, perp := legs[(id, Spot)], legs[(id, Perp)];
      if spot.status != Created || perp.status != Created {
        return ValueError;
      }
      if adjusted.Some? {
        if Weakens(perp, adjusted.value) {
          return ValueError;
        }
        perp := perp.(limitPrice := adjusted.value);
      }
      if intent.action == ClosePair && !ReducesReserved(positions, intent, spot, perp) {
        return ValueError;
      }
      intents := intents[id := intent.(status := Executing, failureCode := None)];
      legs := legs[(id, Spot) := spot.(status := Submitted)][(id, Perp) := perp.(status := Submitted)];
      return Prepared;
    }

    /** False stands for the ValueError a mismatched acknowledgement raises. */
    method RecordOrderSubmission(key: LegKey, s: Submission) returns (ok: bool)
      requires Valid() && key in legs
      modifies this`legs
      ensures Valid()
      ensures ok <==> Acknowledges(key.1, old(legs)[key], s)
      ensures ok ==> var leg := old(legs)[key];
        && leg.status in {Submitted, Acknowledged}
        && s.market == key.1 && s.symbol == leg.symbol && s.clientOrderId == leg.clientOrderId
        && (leg.exchangeOrderId.None? || s.exchangeOrderId.None? || leg.exchangeOrderId == s.exchangeOrderId)
      ensures legs == if ok then old(legs)[key := Acknowledge(old(legs)[key], s)] else old(legs)
    {
      var leg := legs[key];
      if leg.status !in {Submitted, Acknowledged} {
        return false;
      }
      if s.market != key.1 || s.symbol != leg.symbol || s.clientOrderId != leg.clientOrderId {
        return false;
      }
      if leg.exchangeOrderId.Some? && s.exchangeOrderId.Some? && leg.exchangeOrderId != s.exchangeOrderId {
        return false;
      }
      if s.exchangeOrderId.Some? {
        leg := leg.(exchangeOrderId := s.exchangeOrderId);
      }
      legs := legs[key := leg.(status := Acknowledged)];
      return true;
    }

    method MarkOrderSubmissionUnknown(key: LegKey)
      requires Valid() && key in legs
      modifies this`legs, this`control
      ensures Valid() && control == Some(Paused)
      ensures legs == if old(legs)[key].status == Submitted
                      then old(legs)[key := old(legs)[key].(status := Unknown)] else old(legs)
    {
      if legs[key].status == Submitted {
        legs := legs[key := legs[key].(status := Unknown)];
      }
      control := Some(Paused);
    }

    /** False stands for the ValueError raised for a malformed failure code. */
    method MarkOrderSubmissionRejected(key: LegKey, code: string) returns (ok: bool)
      requires Valid() && key in legs
      modifies this`legs, this`control
      ensures Valid()
      ensures ok <==> ValidCode(code)
      ensures !ok ==> legs == old(legs) && control == old(control)
      ensures ok ==> control == Some(Paused)
      ensures ok ==> legs == if old(legs)[key].status == Submitted
        then old(legs)[key := old(legs)[key].(status := FailedLeg, failureCode := Some(code))] else old(legs)
    {
      if !ValidCode(code) {
        return false;
      }
      if legs[key].status == Submitted {
        legs := legs[key := legs[key].(status := FailedLeg, failureCode := Some(code))];
      }
      control := Some(Paused);
      return true;
    }

    /** `expire_planned_trade_intent` and `fail_market_unexecutable_trade_intent`. */
    method FailPlannedIntent(id: string, code: string) returns (changed: bool)
      requires Valid()
      modifies this`intents, this`positions
      ensures Valid()
      ensures changed <==> id in old(intents) && old(intents)[id].environment != Paper && old(intents)[id].status == Planned
      ensures intents == if changed
        then old(intents)[id := old(intents)[id].(status := FailedIntent, failureCode := Some(code))] else old(intents)
      ensures positions == if changed then ReopenFor(old(positions), old(intents)[id]) else old(positions)
    {
      if id !in intents || intents[id].environment !in {Sandbox, Live} || intents[id].status != Planned {
        return false;
      }
      var intent := intents[id];
      positions := ReopenFor(positions, intent);
      intents := intents[id := intent.(status := FailedIntent, failureCode := Some(code))];
      return true;
    }

    method RecordLivePreflightFailure(id: string, code: string)
      requires Valid()
      modifies this`intents, this`control
      ensures Valid() && control == Some(Paused)
      ensures intents == if id in old(intents) && old(intents)[id].status == Planned
        then old(intents)[id := old(intents)[id].(failureCode := Some(code))] else old(intents)
    {
      if id in intents && intents[id].status == Planned {
        intents := intents[id := intents[id].(failureCode := Some(code))];
      }
      control := Some(Paused);
    }

    /** Handing one order to the exchange. */
    method Send(key: LegKey)
      requires Valid() && key in legs && legs[key].status != Created && key !in sent
      modifies this`sent
      ensures Valid() && sent == old(sent) + [key]
    {
      sent := sent + [key];
    }
  }
}
