/**
 * The records the arbitrage scanner works on: decoded exchange listings and
 * the normalised quote that both exchange adapters produce.
 */
module Quotes {
  import opened Wrappers

  /** Best bid and ask of one exchange for one symbol, as exact decimals. */
  datatype ExchangePrice = ExchangePrice(symbol: string, bidPrice: real, askPrice: real)

  /** One entry of Bybit's spot instruments listing. */
  datatype Instrument = Instrument(symbol: string, baseCoin: string, quoteCoin: string, status: string)

  /**
   * One decoded ticker record: a symbol with its best bid and ask as decimal
   * text. Bybit calls the fields bid1Price/ask1Price and Binance bidPrice/askPrice;
   * past decoding they carry the same information.
   */
  datatype Ticker = Ticker(symbol: string, bidPrice: string, askPrice: string)

  /** The quotes of one exchange, keyed by symbol. */
  type QuoteSet = map<string, ExchangePrice>

  /** Decimal parsing of price text: Some(value) when the text is a decimal, None otherwise. */
  type DecimalParser = string -> Option<real>

  /** The instrument status that marks a Bybit symbol as tradable. */
  const TradingStatus: string := "Trading"

  /** Every stored quote sits under its own symbol and has a non-zero bid and ask. */
  predicate WellFormed(pairs: QuoteSet)
  {
    forall s :: s in pairs ==>
      pairs[s].symbol == s && pairs[s].bidPrice != 0.0 && pairs[s].askPrice != 0.0
  }

  /** The symbols quoted by both exchanges (exact string equality, no normalisation). */
  function Joined(bybit: QuoteSet, binance: QuoteSet): set<string>
  {
    bybit.Keys * binance.Keys
  }
}
