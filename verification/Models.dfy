/** The records the trading worker passes around (models.py).

    A `Decimal` is a `real`; a `datetime` is a number of seconds, so that
    `timedelta` arithmetic is ordinary arithmetic. */
module Models {

  datatype Option<+T> = None | Some(value: T)

  type Time = real

  const MINUTE: Time := 60.0
  const HOUR: Time := 3600.0
  const DAY: Time := 86400.0

  datatype Exchange = Binance | Okx | Mexc | Bybit | Bitget | Gate {
    function Value(): string {
      match this
      case Binance => "binance"
      case Okx => "okx"
      case Mexc => "mexc"
      case Bybit => "bybit"
      case Bitget => "bitget"
      case Gate => "gate"
    }
  }

  datatype Environment = Sandbox | Live | Paper

  datatype Quality = Healthy | Warming | Stale

  /** The string the worker uses to name one market: `exchange:asset`. */
  function PairKey(exchange: Exchange, baseAsset: string): string {
    exchange.Value() + ":" + baseAsset
  }

  /** Keys are unambiguous: no exchange name holds a colon or is a prefix of another. */
  lemma PairKeyInjective(e: Exchange, a: string, e': Exchange, a': string)
    requires PairKey(e, a) == PairKey(e', a')
    ensures e == e' && a == a'
  {
    var k, k' := PairKey(e, a), PairKey(e', a');
    assert k[..3] == e.Value()[..3] && k'[..3] == e'.Value()[..3];
    assert e == e' by {
      assert e.Value()[..3][0] == e'.Value()[..3][0];
      assert e.Value()[..3][1] == e'.Value()[..3][1];
      assert e.Value()[..3][2] == e'.Value()[..3][2];
    }
    var n := |e.Value()| + 1;
    assert k[n..] == a && k'[n..] == a';
  }

  datatype MarketQuote = MarketQuote(
    exchange: Exchange,
    baseAsset: string,
    observedAt: Time,
    spotBid: real,
    spotBidQty: real,
    spotAsk: real,
    spotAskQty: real,
    perpBid: real,
    perpBidQty: real,
    perpAsk: real,
    perpAskQty: real,
    spotQuoteVolume24h: real,
    perpQuoteVolume24h: real)

  datatype InstrumentPair = InstrumentPair(
    exchange: Exchange,
    baseAsset: string,
    spotSymbol: string,
    perpSymbol: string)
  {
    function Key(): string { PairKey(exchange, baseAsset) }
  }

  datatype FundingObservation = FundingObservation(
    exchange: Exchange,
    baseAsset: string,
    rate: real,
    fundingAt: Time,
    observedAt: Time,
    settled: bool,
    nextFundingAt: Option<Time>,
    intervalHours: real)

  datatype FeeRate = FeeRate(spotTaker: real, perpTaker: real)

  datatype Opportunity = Opportunity(
    exchange: Exchange,
    baseAsset: string,
    spotSymbol: string,
    perpSymbol: string,
    observedAt: Time,
    spotBid: real,
    spotAsk: real,
    perpBid: real,
    perpAsk: real,
    executableBasis: real,
    topBookNotional: real,
    closeTopBookNotional: real,
    currentFundingRate: real,
    fundingIntervalHours: real,
    nextFundingAt: Option<Time>,
    currentApr: real,
    apr24h: Option<real>,
    apr7d: Option<real>,
    netReturn: Option<real>,
    spotQuoteVolume24h: real,
    perpQuoteVolume24h: real,
    spotTakerFee: real,
    perpTakerFee: real,
    quality: Quality,
    spotAskNotional: real,
    perpBidNotional: real)
  {
    function Key(): string { PairKey(exchange, baseAsset) }
  }

  function MinReal(a: real, b: real): real { if b < a then b else a }

  function MaxReal(a: real, b: real): real { if b > a then b else a }
}
