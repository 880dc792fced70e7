# Cross-exchange arbitrage scanner, modelled in Dafny

The scanner in `main.go` loads the spot quote books of two exchanges, Bybit and
Binance. It joins them on the trading-pair symbol and reports every
direction (buy on one exchange, sell on the other) whose fee-adjusted profit
reaches a threshold. When nothing qualifies, it prints up to five joined symbols
as debugging samples.

The model has seven modules:

- `Wrappers` (`wrappers.dfy`) holds the `Option` and `Result` types. `Result`
  carries a failed fetch's error text.
- `Sets` (`sets.dfy`) holds lemmas on the sizes of finite sets, used by the
  loops over a quote set's keys.
- `Quotes` (`quotes.dfy`) holds the records: an exchange price, a Bybit
  instrument, a ticker, and a quote set, which is a map from symbol to price.
  A quote set is well formed when every price sits under its own symbol with
  a non-zero bid and ask. `Joined` is the set of symbols both exchanges quote.
- `Adapters` (`adapters.dfy`) holds the two adapter loops.
  - `GetBybitPairs` collects the symbols whose instrument status is exactly
    `"Trading"`. It then stores every ticker of such a symbol whose bid and ask
    parse to non-zero decimals.
  - `GetBinancePairs` does the same without the status filter.
  - Both are proved equal to a recursive definition, `QuoteSetOf` over a
    filtered listing. The lemmas then state which symbols end up stored and
    which record wins for a duplicated symbol.
- `Profit` (`profit.dfy`) holds the per-direction rule.
  - The buy price is `ask * (1 + fee)` and the sell price is `bid * (1 - fee)`.
  - The profit is `(sell - buy) / buy`.
  - A direction qualifies when the buy price is positive and the profit
    reaches the threshold, inclusively.
  - The shipped constants are a threshold of 0.01 and a fee of 0.001.
- `Arbitrage` (`arbitrage.dfy`) holds the scan itself.
  - `EvaluatePairs` walks the Bybit quote set in an arbitrary order. It counts
    the joined symbols and skips a pair with a zero price after counting it.
    It records each qualifying direction of each pair.
  - The method is proved against `Opportunities`, which is the set of findings
    defined symbol by symbol.
  - `FindArbitrageBetweenExchanges` adds the samples when nothing was found.
- `Sampling` (`sampling.dfy`) holds the sampling loop, which stops after the
  fifth joined symbol.

Go's map iteration order is unspecified. The loops over a quote set therefore
pick an arbitrary remaining key (`:|`), and their contracts speak only of
counts and membership, never of order.

## Model

| member | source | states |
|---|---|---|
| Adapters.QuoteSetOf | main.go:126-141 | the quote set built from a ticker listing read front to back is well formed: every stored price sits under its own symbol with non-zero bid and ask |
| Adapters.ValidTicker | main.go:128-135 | a ticker record is kept exactly when its bid and its ask both parse and neither is zero (also main.go:89-96) |
| Adapters.Ingest | main.go:136-140 | storing a valid record puts its parsed bid and ask under its symbol, overwriting any earlier price, and leaves every other symbol's price unchanged; an invalid record leaves the quote set unchanged; a well-formed quote set stays well formed (also main.go:97-101) |
| Adapters.ActiveSymbols | main.go:76-82 | every active symbol comes from an instrument in the listing whose status is exactly "Trading" |
| Adapters.ActiveTickers | main.go:85-88 | a ticker record is kept exactly when it is in the listing and its symbol is active |
| Adapters.BybitQuoteSet | main.go:76-102 | the Bybit quote set is well formed and holds only active symbols |
| Adapters.CollectActivePairs | main.go:76-82 | the loop over the instruments listing collects exactly the active symbols |
| Adapters.GetBybitPairs | main.go:65-105 | a failed instruments fetch is returned first, then a failed tickers fetch; otherwise the result is the quote set of the active tickers with valid prices |
| Adapters.GetBinancePairs | main.go:107-144 | a failed fetch is returned; otherwise the result is the quote set of all tickers with valid prices, with no activity filter |
| Adapters.QuoteSetKeys | main.go:127-141 | a symbol is stored exactly when some record for it has a bid and an ask that parse to non-zero values |
| Adapters.InvalidTickerIgnored | main.go:128-135 | a record whose bid or ask fails to parse or is zero leaves the quote set as if it were absent, wherever it appears |
| Adapters.LastValidTickerWins | main.go:136-140 | for a duplicated symbol the last valid record is the stored price; later invalid duplicates do not overwrite it |
| Adapters.TradingInstrumentActive | main.go:78-81 | every instrument with status "Trading" makes its symbol active |
| Adapters.BybitQuoteSetKeys | main.go:76-102 | a Bybit symbol is stored exactly when a trading instrument has that symbol and some ticker for it has valid prices |
| Adapters.BybitLastValidTickerWins | main.go:97-101 | in the Bybit quote set, too, the last valid record of an active symbol is the stored price |
| Profit.DefaultConfig | main.go:46-47 | the shipped threshold 0.01 and fee 0.001 |
| Profit.BuyPrice | main.go:211 | the fee-inclusive buy price, ask × (1 + fee) (also main.go:227) |
| Profit.SellPrice | main.go:212 | the fee-inclusive sell price, bid × (1 − fee) (also main.go:228) |
| Profit.ProfitFraction | main.go:215 | the gain as a fraction of the buy price, (sell − buy) / buy (also main.go:231) |
| Profit.Qualifies | main.go:214-217 | a direction counts when its buy price is positive and its profit fraction reaches the threshold inclusively (also main.go:230-233) |
| Profit.ProfitFractionScales | main.go:215 | the profit fraction times the buy price is the gain, and with a positive buy price the fraction is non-negative exactly when the sell price covers the buy price |
| Profit.QualifiesIff | main.go:211-217 | a direction qualifies exactly when the fee-inclusive buy price is positive and the fee-inclusive sell price is at least the buy price grown by the threshold |
| Profit.ThresholdInclusive | main.go:217 | a profit exactly at the threshold qualifies |
| Profit.LowerThresholdKeeps | main.go:217 | lowering the threshold never loses a qualifying direction |
| Profit.ReciprocalProfit | main.go:211-231 | with no fee and no spread, the profit one way is -p/(1+p) for the profit p the other way |
| Profit.ClearsThreshold | main.go:46-47 | with the shipped constants, buying at 100 (100.1 with fee) and selling at 103 (102.897 after fee) qualifies |
| Profit.MissesThreshold | main.go:46-47 | with the shipped constants, buying at 100 and selling at 100.5 (100.3995 after fee) does not qualify |
| Profit.BelowTwoPercentQualifies | main.go:46 | the shipped threshold is 0.01: a direction near 1.3% after fees qualifies, though it would fail the 2% threshold named in the comment |
| Arbitrage.HasZeroPrice | main.go:205-206 | some of the four prices of a joined symbol is zero |
| Arbitrage.Direction | main.go:210-224 | a direction yields a finding exactly when it qualifies, tagged with its symbol and its buy and sell exchanges |
| Arbitrage.QualifyingDirections | main.go:222-238 | how many of a pair's two directions qualify: what one pair whose four prices are non-zero adds to opportunitiesFound |
| Arbitrage.Opportunities | main.go:196-240 | a finding belongs to the scan exactly when its symbol is quoted by both exchanges and it is one of that pair's findings |
| Arbitrage.PairOpportunities | main.go:204-240 | one pair yields at most two findings, all about its symbol, and none when any of its four prices is zero |
| Arbitrage.PairEmitted | main.go:210-240 | the two direction checks together emit exactly the pair's findings, each once |
| Arbitrage.EvaluateDirections | main.go:210-240 | the imperative direction checks of one pair with non-zero prices emit exactly its findings, each once, and as many as of its directions qualify |
| Arbitrage.EvaluateStep | main.go:196-240 | visiting one more Bybit symbol counts it exactly when Binance quotes it and records exactly its findings |
| Arbitrage.EvaluatedAll | main.go:241-244 | once every Bybit symbol is visited, the pair counter is the number of joined symbols and the record is exactly the set of findings |
| Arbitrage.EvaluatePairs | main.go:193-241 | pairsCompared is the number of joined symbols; opportunitiesFound is the number of findings recorded, which are exactly the scan's findings with none repeated, and at most twice pairsCompared |
| Arbitrage.FindArbitrageBetweenExchanges | main.go:190-262 | the report carries the sizes of both quote sets and the two counters; it lists exactly the findings; its samples are empty when something was found and otherwise min(5, pairs compared) distinct joined symbols with both exchanges' quotes |
| Arbitrage.FindingsOfJoined | main.go:196-202 | a joined symbol's findings in the whole scan are exactly its own pair's findings |
| Arbitrage.PairDirectionsFound | main.go:210-240 | for a pair with non-zero prices, each direction is found exactly when it qualifies; the pair has one finding per qualifying direction, and each finding carries its exchanges, the fee-inclusive buy and sell prices and their profit fraction |
| Arbitrage.DirectionsFound | main.go:196-240 | for well-formed quote sets and a joined symbol, buying on Bybit is found exactly when that direction qualifies, and likewise buying on Binance |
| Arbitrage.UnjoinedSymbolIgnored | main.go:197-200 | a symbol quoted by only one exchange yields no finding |
| Arbitrage.LowerThresholdFindsMore | main.go:217-233 | lowering the threshold keeps every finding of the scan |
| Sampling.ShowStep | main.go:251-255 | showing a joined symbol not shown before keeps the samples exactly the joined symbols visited so far |
| Sampling.SkipStep | main.go:250-251 | passing over a symbol Binance does not quote changes no sample |
| Sampling.WalkingSamples | main.go:249-260 | every sample is a distinct joined symbol with both quotes; there are never more samples than joined symbols, and all are shown once the walk ends |
| Sampling.SampleComparisons | main.go:246-260 | the loop shows min(5, joined symbols) distinct joined symbols, each with the quotes of both exchanges |

## Left out

- HTTP fetching and JSON decoding (main.go:146-188, and the fetch part of
  main.go:107-124) are not modelled. An adapter receives each decoded listing
  as a `Result` whose `Failure` carries the error text. The exact error
  wording is not modelled.
- Decimal parsing from the decimal library is a parameter of type
  `string -> Option<real>` (`None` for a parse error). The library itself is
  not part of this model.
- Decimal arithmetic is exact rational arithmetic. The library's division
  rounds to a fixed number of digits, and the model does not capture that
  rounding in `Profit.ProfitFraction`. A profit within rounding distance of
  the threshold may therefore be classified differently by the program.
- The `1 ± fee` factors and the threshold are built in the program from
  float64 constants. They are taken here as the exact decimals 1.001, 0.999
  and 0.01 that those constants print as.
- Printing is not modelled: the opportunity lines, the counts, the sample
  lines and the fixed-point formatting. A printed opportunity becomes an
  `Opportunity` value and a printed sample becomes a `Sample` value. The
  profit is kept as a fraction, not multiplied by 100 for display.
- `main` and `log.Fatal` are not modelled. `FindArbitrageBetweenExchanges`
  takes the two quote sets that `main` would pass it.
- Go's randomised map iteration order is not modelled. The order of the
  findings and which five joined symbols are sampled are left arbitrary; the
  contracts fix only counts, membership and distinctness.
- Bybit and Binance ticker records have different JSON field names but the
  same three fields. Both are modelled by one `Ticker` record, and the
  instrument's base and quote coins are carried but unused, as in the program.
- The minimum-profit constant is 0.01, while its comment and the "nothing
  found" message call it 2%. The model follows the code: `Profit.DefaultConfig`
  holds 0.01, and `Profit.BelowTwoPercentQualifies` shows the difference.
