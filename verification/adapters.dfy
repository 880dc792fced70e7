/**
 * The two quote-source adapters: they turn decoded ticker listings into a
 * quote set, dropping every record whose bid or ask does not parse or is zero.
 * Bybit additionally keeps only symbols its instruments listing marks as trading.
 */
module Adapters {
  import opened Wrappers
  import opened Quotes

  /** A ticker record is kept when both of its prices parse to non-zero decimals. */
  predicate ValidTicker(parse: DecimalParser, t: Ticker)
  {
    && parse(t.bidPrice).Some? && parse(t.bidPrice).value != 0.0
    && parse(t.askPrice).Some? && parse(t.askPrice).value != 0.0
  }

  /** The quote a kept ticker record is stored as. */
  function QuoteOf(parse: DecimalParser, t: Ticker): ExchangePrice
    requires ValidTicker(parse, t)
  {
    ExchangePrice(t.symbol, parse(t.bidPrice).value, parse(t.askPrice).value)
  }

  /** One step of an adapter loop: store a kept record under its symbol, ignore the rest. */
  function Ingest(pairs: QuoteSet, parse: DecimalParser, t: Ticker): (next: QuoteSet)
    ensures next.Keys == if ValidTicker(parse, t) then pairs.Keys + {t.symbol} else pairs.Keys
    ensures forall s :: s in pairs && s != t.symbol ==> next[s] == pairs[s]
    ensures WellFormed(pairs) ==> WellFormed(next)
    ensures ValidTicker(parse, t) ==> next[t.symbol] == QuoteOf(parse, t)
    ensures !ValidTicker(parse, t) ==> next == pairs
  {
    if ValidTicker(parse, t) then pairs[t.symbol := QuoteOf(parse, t)] else pairs
  }

  /** The quote set an adapter builds from a ticker listing read front to back. */
  function QuoteSetOf(parse: DecimalParser, tickers: seq<Ticker>): (pairs: QuoteSet)
    ensures WellFormed(pairs)
    decreases |tickers|
  {
    if tickers == [] then map[]
    else Ingest(QuoteSetOf(parse, tickers[..|tickers| - 1]), parse, tickers[|tickers| - 1])
  }

  /** The symbols Bybit's instruments listing marks as trading. */
  function ActiveSymbols(instruments: seq<Instrument>): (active: set<string>)
    ensures forall s :: s in active ==>
      exists i :: i in instruments && i.symbol == s && i.status == TradingStatus
    decreases |instruments|
  {
    if instruments == [] then {}
    else
      var init := instruments[..|instruments| - 1];
      var last := instruments[|instruments| - 1];
      assert forall i :: i in init ==> i in instruments;
      if last.status == TradingStatus then ActiveSymbols(init) + {last.symbol}
      else ActiveSymbols(init)
  }

  /** The ticker records whose symbol is active, in their original order. */
  function ActiveTickers(active: set<string>, tickers: seq<Ticker>): (kept: seq<Ticker>)
    ensures forall t :: t in kept <==> t in tickers && t.symbol in active
    decreases |tickers|
  {
    if tickers == [] then []
    else
      var init := tickers[..|tickers| - 1];
      var last := tickers[|tickers| - 1];
      assert tickers == init + [last];
      if last.symbol in active then ActiveTickers(active, init) + [last]
      else ActiveTickers(active, init)
  }

  /** The quote set the Bybit adapter builds. */
  function BybitQuoteSet(parse: DecimalParser, instruments: seq<Instrument>, tickers: seq<Ticker>): (pairs: QuoteSet)
    ensures WellFormed(pairs)
    ensures pairs.Keys <= ActiveSymbols(instruments)
  {
    var kept := ActiveTickers(ActiveSymbols(instruments), tickers);
    assert QuoteSetOf(parse, kept).Keys <= ActiveSymbols(instruments) by {
      forall s | s in QuoteSetOf(parse, kept)
        ensures s in ActiveSymbols(instruments)
      {
        QuoteSetKeys(parse, kept, s);
      }
    }
    QuoteSetOf(parse, kept)
  }

  // ---------------------------------------------------------------------------
  // The adapter loops

  /** Collects the symbols of the instruments whose status is exactly "Trading". */
  method CollectActivePairs(instruments: seq<Instrument>) returns (active: set<string>)
    ensures active == ActiveSymbols(instruments)
  {
    active := {};
    for k := 0 to |instruments|
      invariant active == ActiveSymbols(instruments[..k])
    {
      assert instruments[..k + 1][..k] == instruments[..k];
      if instruments[k].status == TradingStatus {
        active := active + {instruments[k].symbol};
      }
    }
    assert instruments[..|instruments|] == instruments;
  }

  /**
   * The Bybit adapter: fails with the first failed fetch; otherwise stores every
   * active ticker whose bid and ask parse to non-zero decimals.
   */
  method GetBybitPairs(parse: DecimalParser,
                       instrumentsInfo: Result<seq<Instrument>, string>,
                       tickers: Result<seq<Ticker>, string>)
    returns (r: Result<QuoteSet, string>)
    ensures instrumentsInfo.Failure? ==> r == Failure(instrumentsInfo.error)
    ensures instrumentsInfo.Success? && tickers.Failure? ==> r == Failure(tickers.error)
    ensures instrumentsInfo.Success? && tickers.Success? ==>
      r == Success(BybitQuoteSet(parse, instrumentsInfo.value, tickers.value))
  {
    if instrumentsInfo.Failure? {
      return Failure(instrumentsInfo.error);
    }
    if tickers.Failure? {
      return Failure(tickers.error);
    }
    var active := CollectActivePairs(instrumentsInfo.value);
    var list := tickers.value;
    var pairs: QuoteSet := map[];
    for k := 0 to |list|
      invariant pairs == QuoteSetOf(parse, ActiveTickers(active, list[..k]))
    {
      var ticker := list[k];
      BybitStep(parse, active, list, k);
      if ticker.symbol !in active {
        continue;
      }
      var bid := parse(ticker.bidPrice);
      if bid.None? || bid.value == 0.0 {
        continue;
      }
      var ask := parse(ticker.askPrice);
      if ask.None? || ask.value == 0.0 {
        continue;
      }
      pairs := pairs[ticker.symbol := ExchangePrice(ticker.symbol, bid.value, ask.value)];
    }
    assert list[..|list|] == list;
    return Success(pairs);
  }

  /**
   * The Binance adapter: fails when the fetch failed; otherwise stores every
   * ticker whose bid and ask parse to non-zero decimals, with no activity filter.
   */
  method GetBinancePairs(parse: DecimalParser, tickers: Result<seq<Ticker>, string>)
    returns (r: Result<QuoteSet, string>)
    ensures tickers.Failure? ==> r == Failure(tickers.error)
    ensures tickers.Success? ==> r == Success(QuoteSetOf(parse, tickers.value))
  {
    if tickers.Failure? {
      return Failure(tickers.error);
    }
    var list := tickers.value;
    var pairs: QuoteSet := map[];
    for k := 0 to |list|
      invariant pairs == QuoteSetOf(parse, list[..k])
    {
      var ticker := list[k];
      BinanceStep(parse, list, k);
      var bid := parse(ticker.bidPrice);
      if bid.None? || bid.value == 0.0 {
        continue;
      }
      var ask := parse(ticker.askPrice);
      if ask.None? || ask.value == 0.0 {
        continue;
      }
      pairs := pairs[ticker.symbol := ExchangePrice(ticker.symbol, bid.value, ask.value)];
    }
    assert list[..|list|] == list;
    return Success(pairs);
  }

  /** Reading one more record of a listing ingests it. */
  lemma BinanceStep(parse: DecimalParser, list: seq<Ticker>, k: nat)
    requires k < |list|
    ensures QuoteSetOf(parse, list[..k + 1]) == Ingest(QuoteSetOf(parse, list[..k]), parse, list[k])
  {
    assert list[..k + 1][..k] == list[..k];
  }

  /** Reading one more Bybit record ingests it when its symbol is active and skips it otherwise. */
  lemma BybitStep(parse: DecimalParser, active: set<string>, list: seq<Ticker>, k: nat)
    requires k < |list|
    ensures var before := QuoteSetOf(parse, ActiveTickers(active, list[..k]));
            QuoteSetOf(parse, ActiveTickers(active, list[..k + 1])) ==
              if list[k].symbol in active then Ingest(before, parse, list[k]) else before
  {
    assert list[..k + 1][..k] == list[..k];
    var kept := ActiveTickers(active, list[..k]);
    assert (kept + [list[k]])[..|kept|] == kept;
  }

  // ---------------------------------------------------------------------------
  // What the quote sets contain

  /** A symbol is stored exactly when some record for it has a valid bid and ask. */
  lemma {:induction false} QuoteSetKeys(parse: DecimalParser, tickers: seq<Ticker>, s: string)
    ensures s in QuoteSetOf(parse, tickers) <==>
      exists t :: t in tickers && t.symbol == s && ValidTicker(parse, t)
    decreases |tickers|
  {
    if tickers != [] {
      var init := tickers[..|tickers| - 1];
      var last := tickers[|tickers| - 1];
      assert tickers == init + [last];
      QuoteSetKeys(parse, init, s);
    }
  }

  /** An invalid record anywhere in the listing leaves the quote set as if it were absent. */
  lemma {:induction false} InvalidTickerIgnored(parse: DecimalParser, before: seq<Ticker>, t: Ticker, after: seq<Ticker>)
    requires !ValidTicker(parse, t)
    ensures QuoteSetOf(parse, before + [t] + after) == QuoteSetOf(parse, before + after)
    decreases |after|
  {
    if after == [] {
      assert before + [t] + after == before + [t];
      assert (before + [t])[..|before|] == before;
      assert before + after == before;
    } else {
      var init := after[..|after| - 1];
      var last := after[|after| - 1];
      InvalidTickerIgnored(parse, before, t, init);
      assert (before + [t] + after)[..|before + [t] + after| - 1] == before + [t] + init;
      assert (before + after)[..|before + after| - 1] == before + init;
    }
  }

  /** For a duplicated symbol the last valid record wins; later invalid duplicates do not overwrite it. */
  lemma {:induction false} LastValidTickerWins(parse: DecimalParser, before: seq<Ticker>, t: Ticker, after: seq<Ticker>)
    requires ValidTicker(parse, t)
    requires forall u :: u in after && u.symbol == t.symbol ==> !ValidTicker(parse, u)
    ensures t.symbol in QuoteSetOf(parse, before + [t] + after)
    ensures QuoteSetOf(parse, before + [t] + after)[t.symbol] == QuoteOf(parse, t)
    decreases |after|
  {
    if after == [] {
      assert (before + [t])[..|before|] == before;
      assert before + [t] + after == before + [t];
    } else {
      var init := after[..|after| - 1];
      var last := after[|after| - 1];
      assert after == init + [last];
      LastValidTickerWins(parse, before, t, init);
      assert (before + [t] + after)[..|before + [t] + after| - 1] == before + [t] + init;
    }
  }

  /** Every symbol marked trading in the instruments listing is active. */
  lemma {:induction false} TradingInstrumentActive(instruments: seq<Instrument>, i: Instrument)
    requires i in instruments && i.status == TradingStatus
    ensures i.symbol in ActiveSymbols(instruments)
    decreases |instruments|
  {
    var init := instruments[..|instruments| - 1];
    var last := instruments[|instruments| - 1];
    assert instruments == init + [last];
    if i != last {
      TradingInstrumentActive(init, i);
    }
  }

  /** Keeping the active records commutes with splitting the listing. */
  lemma {:induction false} ActiveTickersAppend(active: set<string>, front: seq<Ticker>, back: seq<Ticker>)
    ensures ActiveTickers(active, front + back) == ActiveTickers(active, front) + ActiveTickers(active, back)
    decreases |back|
  {
    if back == [] {
      assert front + back == front;
    } else {
      var init := back[..|back| - 1];
      var last := back[|back| - 1];
      assert (front + back)[..|front + back| - 1] == front + init;
      ActiveTickersAppend(active, front, init);
    }
  }

  /**
   * A Bybit symbol is stored exactly when some instrument with that symbol has
   * status "Trading" and some ticker record for it has a valid bid and ask; a
   * ticker of an inactive or unlisted symbol never appears.
   */
  lemma BybitQuoteSetKeys(parse: DecimalParser, instruments: seq<Instrument>, tickers: seq<Ticker>, s: string)
    ensures s in BybitQuoteSet(parse, instruments, tickers) <==>
      && (exists i :: i in instruments && i.symbol == s && i.status == TradingStatus)
      && (exists t :: t in tickers && t.symbol == s && ValidTicker(parse, t))
  {
    var active := ActiveSymbols(instruments);
    QuoteSetKeys(parse, ActiveTickers(active, tickers), s);
    if exists i :: i in instruments && i.symbol == s && i.status == TradingStatus {
      var i :| i in instruments && i.symbol == s && i.status == TradingStatus;
      TradingInstrumentActive(instruments, i);
    }
  }

  /** In the Bybit quote set, too, the last valid record of an active symbol wins. */
  lemma BybitLastValidTickerWins(parse: DecimalParser, instruments: seq<Instrument>,
                                 before: seq<Ticker>, t: Ticker, after: seq<Ticker>)
    requires exists i :: i in instruments && i.symbol == t.symbol && i.status == TradingStatus
    requires ValidTicker(parse, t)
    requires forall u :: u in after && u.symbol == t.symbol ==> !ValidTicker(parse, u)
    ensures t.symbol in BybitQuoteSet(parse, instruments, before + [t] + after)
    ensures BybitQuoteSet(parse, instruments, before + [t] + after)[t.symbol] == QuoteOf(parse, t)
  {
    var active := ActiveSymbols(instruments);
    var i :| i in instruments && i.symbol == t.symbol && i.status == TradingStatus;
    TradingInstrumentActive(instruments, i);
    ActiveTickersAppend(active, before + [t], after);
    ActiveTickersAppend(active, before, [t]);
    assert ActiveTickers(active, [t]) == ActiveTickers(active, []) + [t] by {
      assert [t][..0] == [];
    }
    LastValidTickerWins(parse, ActiveTickers(active, before), t, ActiveTickers(active, after));
  }
}
