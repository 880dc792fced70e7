/**
 * The scan over two quote sets: join them on the symbol, evaluate both trade
 * directions of every joined symbol, count what qualifies and, when nothing
 * does, pick a few joined symbols as debugging samples.
 */
module Arbitrage {
  import opened Wrappers
  import opened Quotes
  import opened Profit
  import opened Sets
  import opened Sampling

  datatype Exchange = Bybit | Binance

  /** A qualifying trade direction: buy on one exchange, sell on the other. */
  datatype Opportunity = Opportunity(symbol: string, buyExchange: Exchange, sellExchange: Exchange,
                                     buyPrice: real, sellPrice: real, profitPercentage: real)

  /** What a scan reports: the sizes of both quote sets, the two counters, the findings and the samples. */
  datatype Report = Report(bybitPairs: nat, binancePairs: nat, pairsCompared: nat, opportunitiesFound: nat,
                           opportunities: seq<Opportunity>, samples: seq<Sample>)

  /** The finding for buying at `ask` on `buyOn` and selling at `bid` on `sellOn`, if it qualifies. */
  function Direction(cfg: Config, symbol: string, buyOn: Exchange, sellOn: Exchange, ask: real, bid: real): (d: Option<Opportunity>)
    ensures d.Some? <==> Qualifies(cfg, ask, bid)
    ensures d.Some? ==> d.value.symbol == symbol && d.value.buyExchange == buyOn && d.value.sellExchange == sellOn
  {
    if Qualifies(cfg, ask, bid) then
      var buy := BuyPrice(ask, cfg.transactionFee);
      var sell := SellPrice(bid, cfg.transactionFee);
      Some(Opportunity(symbol, buyOn, sellOn, buy, sell, ProfitFraction(buy, sell)))
    else None
  }

  function Found(d: Option<Opportunity>): set<Opportunity>
  {
    if d.Some? then {d.value} else {}
  }

  /** The report lines of one direction: its finding, if any. */
  function Emitted(d: Option<Opportunity>): seq<Opportunity>
  {
    if d.Some? then [d.value] else []
  }

  /** The defensive re-check: some of the four prices of a joined symbol is zero. */
  predicate HasZeroPrice(bybit: ExchangePrice, binance: ExchangePrice)
  {
    bybit.askPrice == 0.0 || bybit.bidPrice == 0.0 || binance.askPrice == 0.0 || binance.bidPrice == 0.0
  }

  /** How many of the two directions of a pair qualify: what one pair adds to the opportunity counter. */
  function QualifyingDirections(cfg: Config, bybit: ExchangePrice, binance: ExchangePrice): nat
  {
    (if Qualifies(cfg, bybit.askPrice, binance.bidPrice) then 1 else 0)
    + (if Qualifies(cfg, binance.askPrice, bybit.bidPrice) then 1 else 0)
  }

  /** The findings for one joined symbol: none when a price is zero, else each qualifying direction. */
  function PairOpportunities(cfg: Config, symbol: string, bybit: ExchangePrice, binance: ExchangePrice): (found: set<Opportunity>)
    ensures |found| <= 2
    ensures forall o :: o in found ==> o.symbol == symbol
    ensures HasZeroPrice(bybit, binance) ==> found == {}
  {
    if HasZeroPrice(bybit, binance) then {}
    else
      var there := Direction(cfg, symbol, Bybit, Binance, bybit.askPrice, binance.bidPrice);
      var back := Direction(cfg, symbol, Binance, Bybit, binance.askPrice, bybit.bidPrice);
      assert there.Some? && back.Some? ==> Found(there) + Found(back) == {there.value, back.value};
      Found(there) + Found(back)
  }

  /** The two directions of a symbol with non-zero prices emit exactly its findings, each once. */
  lemma PairEmitted(cfg: Config, symbol: string, bybit: ExchangePrice, binance: ExchangePrice)
    requires !HasZeroPrice(bybit, binance)
    ensures var emitted := Emitted(Direction(cfg, symbol, Bybit, Binance, bybit.askPrice, binance.bidPrice))
                         + Emitted(Direction(cfg, symbol, Binance, Bybit, binance.askPrice, bybit.bidPrice));
            && (forall o :: o in emitted <==> o in PairOpportunities(cfg, symbol, bybit, binance))
            && |emitted| == |PairOpportunities(cfg, symbol, bybit, binance)|
  {
  }

  /** The findings of every joined symbol, by symbol. */
  function FindingsBySymbol(cfg: Config, bybit: QuoteSet, binance: QuoteSet): (bySymbol: map<string, set<Opportunity>>)
    ensures bySymbol.Keys == Joined(bybit, binance)
    ensures Tagged(bySymbol)
  {
    map s | s in bybit.Keys * binance.Keys :: PairOpportunities(cfg, s, bybit[s], binance[s])
  }

  lemma FindingsOfSymbol(cfg: Config, bybit: QuoteSet, binance: QuoteSet, s: string)
    requires s in bybit && s in binance
    ensures FindingsBySymbol(cfg, bybit, binance)[s] == PairOpportunities(cfg, s, bybit[s], binance[s])
  {
  }

  /** Every finding filed under a symbol is about that symbol. */
  ghost predicate Tagged(bySymbol: map<string, set<Opportunity>>)
  {
    forall s, o :: s in bySymbol && o in bySymbol[s] ==> o.symbol == s
  }

  /** The findings filed under the symbols among `symbols`. */
  ghost function FindingsAmong(bySymbol: map<string, set<Opportunity>>, symbols: set<string>): (found: set<Opportunity>)
    requires Tagged(bySymbol)
    ensures forall o :: o in found <==> o.symbol in symbols && o.symbol in bySymbol && o in bySymbol[o.symbol]
  {
    set s, o | s in symbols && s in bySymbol && o in bySymbol[s] :: o
  }

  /** All findings of a scan. */
  ghost function Opportunities(cfg: Config, bybit: QuoteSet, binance: QuoteSet): (all: set<Opportunity>)
    ensures forall o :: o in all <==>
      o.symbol in bybit && o.symbol in binance &&
      o in PairOpportunities(cfg, o.symbol, bybit[o.symbol], binance[o.symbol])
  {
    FindingsAmong(FindingsBySymbol(cfg, bybit, binance), bybit.Keys)
  }

  /** Visiting one more symbol adds exactly that symbol's findings, none of them seen before. */
  lemma FindingsAmongAdd(bySymbol: map<string, set<Opportunity>>, symbols: set<string>, s: string)
    requires Tagged(bySymbol)
    requires s !in symbols
    ensures var added := if s in bySymbol then bySymbol[s] else {};
            && FindingsAmong(bySymbol, symbols + {s}) == FindingsAmong(bySymbol, symbols) + added
            && |FindingsAmong(bySymbol, symbols + {s})| == |FindingsAmong(bySymbol, symbols)| + |added|
  {
    var added := if s in bySymbol then bySymbol[s] else {};
    FindingsAmongGrow(bySymbol, symbols, s, added);
    FindingsAmongFresh(bySymbol, symbols, s, added);
    DisjointUnionSize(FindingsAmong(bySymbol, symbols), added);
  }

  lemma FindingsAmongGrow(bySymbol: map<string, set<Opportunity>>, symbols: set<string>, s: string, added: set<Opportunity>)
    requires Tagged(bySymbol)
    requires added == if s in bySymbol then bySymbol[s] else {}
    ensures FindingsAmong(bySymbol, symbols + {s}) == FindingsAmong(bySymbol, symbols) + added
  {
  }

  lemma FindingsAmongFresh(bySymbol: map<string, set<Opportunity>>, symbols: set<string>, s: string, added: set<Opportunity>)
    requires Tagged(bySymbol)
    requires s !in symbols
    requires added == if s in bySymbol then bySymbol[s] else {}
    ensures FindingsAmong(bySymbol, symbols) !! added
  {
  }

  /** `found` lists the findings of the symbols among `visited`, each once. */
  ghost predicate Recorded(bySymbol: map<string, set<Opportunity>>, visited: set<string>, found: seq<Opportunity>)
    requires Tagged(bySymbol)
  {
    && |found| == |FindingsAmong(bySymbol, visited)|
    && forall o :: o in found <==> o in FindingsAmong(bySymbol, visited)
  }

  /** Recording one more symbol's emitted findings keeps the record equal to the findings visited so far. */
  lemma FindingsStep(bySymbol: map<string, set<Opportunity>>, visited: set<string>, s: string,
                     found: seq<Opportunity>, emitted: seq<Opportunity>)
    requires Tagged(bySymbol) && s !in visited
    requires Recorded(bySymbol, visited, found)
    requires var added := if s in bySymbol then bySymbol[s] else {};
             |emitted| == |added| && forall o :: o in emitted <==> o in added
    ensures Recorded(bySymbol, visited + {s}, found + emitted)
  {
    FindingsAmongAdd(bySymbol, visited, s);
  }

  /**
   * The state of the evaluation loop: `remaining` Bybit symbols are left, the
   * joined ones among the others are counted and their findings recorded.
   */
  ghost predicate Evaluated(cfg: Config, bybit: QuoteSet, binance: QuoteSet, remaining: set<string>,
                            pairsCompared: nat, found: seq<Opportunity>)
  {
    && remaining <= bybit.Keys
    && pairsCompared == |(bybit.Keys - remaining) * binance.Keys|
    && Recorded(FindingsBySymbol(cfg, bybit, binance), bybit.Keys - remaining, found)
    && |found| <= 2 * pairsCompared
  }

  /** Evaluating one more symbol counts it when joined and records exactly its findings. */
  lemma EvaluateStep(cfg: Config, bybit: QuoteSet, binance: QuoteSet, remaining: set<string>,
                     pairsCompared: nat, found: seq<Opportunity>, s: string, emitted: seq<Opportunity>)
    requires Evaluated(cfg, bybit, binance, remaining, pairsCompared, found)
    requires s in remaining
    requires var added := if s in binance then PairOpportunities(cfg, s, bybit[s], binance[s]) else {};
             |emitted| == |added| && forall o :: o in emitted <==> o in added
    ensures Evaluated(cfg, bybit, binance, remaining - {s},
                      pairsCompared + (if s in binance then 1 else 0), found + emitted)
  {
    var visited := bybit.Keys - remaining;
    assert bybit.Keys - (remaining - {s}) == visited + {s};
    JoinedStep(visited, binance.Keys, s);
    if s in binance {
      FindingsOfSymbol(cfg, bybit, binance, s);
    }
    FindingsStep(FindingsBySymbol(cfg, bybit, binance), visited, s, found, emitted);
  }

  /** Once no symbol remains, the counters and the record describe the whole scan. */
  lemma EvaluatedAll(cfg: Config, bybit: QuoteSet, binance: QuoteSet, pairsCompared: nat, found: seq<Opportunity>)
    requires Evaluated(cfg, bybit, binance, {}, pairsCompared, found)
    ensures pairsCompared == |Joined(bybit, binance)|
    ensures |found| == |Opportunities(cfg, bybit, binance)|
    ensures forall o :: o in found <==> o in Opportunities(cfg, bybit, binance)
  {
    assert bybit.Keys - {} == bybit.Keys;
  }

  // ---------------------------------------------------------------------------
  // The scan

  /**
   * Both trade directions of one joined symbol whose four prices are non-zero:
   * each direction that qualifies emits one finding.
   */
  method EvaluateDirections(cfg: Config, symbol: string, bybitPrice: ExchangePrice, binancePrice: ExchangePrice)
    returns (emitted: seq<Opportunity>)
    requires !HasZeroPrice(bybitPrice, binancePrice)
    ensures forall o :: o in emitted <==> o in PairOpportunities(cfg, symbol, bybitPrice, binancePrice)
    ensures |emitted| == |PairOpportunities(cfg, symbol, bybitPrice, binancePrice)|
    ensures |emitted| == QualifyingDirections(cfg, bybitPrice, binancePrice)
  {
    ghost var there := Direction(cfg, symbol, Bybit, Binance, bybitPrice.askPrice, binancePrice.bidPrice);
    ghost var back := Direction(cfg, symbol, Binance, Bybit, binancePrice.askPrice, bybitPrice.bidPrice);
    emitted := [];
    // Buy on Bybit, sell on Binance.
    var bybitBuyPrice := BuyPrice(bybitPrice.askPrice, cfg.transactionFee);
    var binanceSellPrice := SellPrice(binancePrice.bidPrice, cfg.transactionFee);
    if bybitBuyPrice > 0.0 {
      var profit := ProfitFraction(bybitBuyPrice, binanceSellPrice);
      if profit >= cfg.minProfitPercentage {
        emitted := emitted + [Opportunity(symbol, Bybit, Binance, bybitBuyPrice, binanceSellPrice, profit)];
      }
    }
    assert emitted == Emitted(there);
    // Buy on Binance, sell on Bybit.
    var binanceBuyPrice := BuyPrice(binancePrice.askPrice, cfg.transactionFee);
    var bybitSellPrice := SellPrice(bybitPrice.bidPrice, cfg.transactionFee);
    if binanceBuyPrice > 0.0 {
      var profit := ProfitFraction(binanceBuyPrice, bybitSellPrice);
      if profit >= cfg.minProfitPercentage {
        emitted := emitted + [Opportunity(symbol, Binance, Bybit, binanceBuyPrice, bybitSellPrice, profit)];
      }
    }
    assert emitted == Emitted(there) + Emitted(back);
    PairEmitted(cfg, symbol, bybitPrice, binancePrice);
    PairDirectionsFound(cfg, symbol, bybitPrice, binancePrice);
  }

  /**
   * The evaluation loop: visits the Bybit symbols in an arbitrary order, skips
   * those Binance does not quote, counts the joined ones and records every
   * qualifying direction.
   */
  method EvaluatePairs(cfg: Config, bybit: QuoteSet, binance: QuoteSet)
    returns (pairsCompared: nat, opportunitiesFound: nat, found: seq<Opportunity>)
    ensures pairsCompared == |Joined(bybit, binance)|
    ensures opportunitiesFound == |found| == |Opportunities(cfg, bybit, binance)|
    ensures forall o :: o in found <==> o in Opportunities(cfg, bybit, binance)
    ensures opportunitiesFound <= 2 * pairsCompared
  {
    pairsCompared, opportunitiesFound, found := 0, 0, [];
    var remaining := bybit.Keys;
    assert bybit.Keys - remaining == {};
    while remaining != {}
      invariant opportunitiesFound == |found|
      invariant Evaluated(cfg, bybit, binance, remaining, pairsCompared, found)
      decreases remaining
    {
      var symbol :| symbol in remaining;
      var bybitPrice := bybit[symbol];
      ghost var comparedBefore := pairsCompared;
      var emitted: seq<Opportunity> := [];
      if symbol in binance {
        var binancePrice := binance[symbol];
        pairsCompared := pairsCompared + 1;
        if !HasZeroPrice(bybitPrice, binancePrice) {
          emitted := EvaluateDirections(cfg, symbol, bybitPrice, binancePrice);
        }
      }
      EvaluateStep(cfg, bybit, binance, remaining, comparedBefore, found, symbol, emitted);
      found := found + emitted;
      opportunitiesFound := opportunitiesFound + |emitted|;
      remaining := remaining - {symbol};
    }
    EvaluatedAll(cfg, bybit, binance, pairsCompared, found);
  }

  /**
   * The whole scan: evaluate every joined symbol and, when nothing qualifies,
   * attach up to five samples.
   */
  method FindArbitrageBetweenExchanges(cfg: Config, bybit: QuoteSet, binance: QuoteSet) returns (report: Report)
    ensures report.bybitPairs == |bybit| && report.binancePairs == |binance|
    ensures report.pairsCompared == |Joined(bybit, binance)|
    ensures report.opportunitiesFound == |report.opportunities| == |Opportunities(cfg, bybit, binance)|
    ensures forall o :: o in report.opportunities <==> o in Opportunities(cfg, bybit, binance)
    ensures report.opportunitiesFound <= 2 * report.pairsCompared
    ensures report.opportunitiesFound > 0 ==> report.samples == []
    ensures report.opportunitiesFound == 0 ==> |report.samples| == Min(SampleLimit, report.pairsCompared)
    ensures forall k :: 0 <= k < |report.samples| ==> IsSampleOf(report.samples[k], bybit, binance)
    ensures forall j, k :: 0 <= j < k < |report.samples| ==> report.samples[j].symbol != report.samples[k].symbol
  {
    var pairsCompared, opportunitiesFound, found := EvaluatePairs(cfg, bybit, binance);
    var samples := [];
    if opportunitiesFound == 0 {
      samples := SampleComparisons(bybit, binance);
    }
    report := Report(|bybit|, |binance|, pairsCompared, opportunitiesFound, found, samples);
  }

  // ---------------------------------------------------------------------------
  // What the findings are

  /** A joined symbol's findings in the whole scan are exactly its own pair's findings. */
  lemma FindingsOfJoined(cfg: Config, bybit: QuoteSet, binance: QuoteSet, s: string, o: Opportunity)
    requires s in bybit && s in binance && o.symbol == s
    ensures o in Opportunities(cfg, bybit, binance) <==> o in PairOpportunities(cfg, s, bybit[s], binance[s])
  {
    FindingsOfSymbol(cfg, bybit, binance, s);
  }

  /** With non-zero prices, each direction of one pair is found exactly when it qualifies. */
  lemma PairDirectionsFound(cfg: Config, s: string, bybit: ExchangePrice, binance: ExchangePrice)
    requires !HasZeroPrice(bybit, binance)
    ensures (exists o :: o in PairOpportunities(cfg, s, bybit, binance) && o.buyExchange == Bybit)
            <==> Qualifies(cfg, bybit.askPrice, binance.bidPrice)
    ensures (exists o :: o in PairOpportunities(cfg, s, bybit, binance) && o.buyExchange == Binance)
            <==> Qualifies(cfg, binance.askPrice, bybit.bidPrice)
    ensures |PairOpportunities(cfg, s, bybit, binance)| == QualifyingDirections(cfg, bybit, binance)
    ensures forall o :: o in PairOpportunities(cfg, s, bybit, binance) && o.buyExchange == Bybit ==>
      var buy := BuyPrice(bybit.askPrice, cfg.transactionFee);
      var sell := SellPrice(binance.bidPrice, cfg.transactionFee);
      buy > 0.0 && o == Opportunity(s, Bybit, Binance, buy, sell, ProfitFraction(buy, sell))
    ensures forall o :: o in PairOpportunities(cfg, s, bybit, binance) && o.buyExchange == Binance ==>
      var buy := BuyPrice(binance.askPrice, cfg.transactionFee);
      var sell := SellPrice(bybit.bidPrice, cfg.transactionFee);
      buy > 0.0 && o == Opportunity(s, Binance, Bybit, buy, sell, ProfitFraction(buy, sell))
  {
    var there := Direction(cfg, s, Bybit, Binance, bybit.askPrice, binance.bidPrice);
    var back := Direction(cfg, s, Binance, Bybit, binance.askPrice, bybit.bidPrice);
    if there.Some? {
      assert there.value in PairOpportunities(cfg, s, bybit, binance);
    }
    if back.Some? {
      assert back.value in PairOpportunities(cfg, s, bybit, binance);
    }
    if there.Some? && back.Some? {
      assert there.value != back.value;
    }
  }

  /**
   * For a joined symbol of two well-formed quote sets, each direction is found
   * exactly when it qualifies, independently of the other.
   */
  lemma DirectionsFound(cfg: Config, bybit: QuoteSet, binance: QuoteSet, s: string)
    requires WellFormed(bybit) && WellFormed(binance)
    requires s in bybit && s in binance
    ensures (exists o :: o in Opportunities(cfg, bybit, binance) && o.symbol == s && o.buyExchange == Bybit)
            <==> Qualifies(cfg, bybit[s].askPrice, binance[s].bidPrice)
    ensures (exists o :: o in Opportunities(cfg, bybit, binance) && o.symbol == s && o.buyExchange == Binance)
            <==> Qualifies(cfg, binance[s].askPrice, bybit[s].bidPrice)
  {
    var pair := PairOpportunities(cfg, s, bybit[s], binance[s]);
    PairDirectionsFound(cfg, s, bybit[s], binance[s]);
    forall o: Opportunity | o.symbol == s
      ensures o in Opportunities(cfg, bybit, binance) <==> o in pair
    {
      FindingsOfJoined(cfg, bybit, binance, s, o);
    }
  }

  /** A symbol quoted by only one exchange yields no finding. */
  lemma UnjoinedSymbolIgnored(cfg: Config, bybit: QuoteSet, binance: QuoteSet, o: Opportunity)
    requires o.symbol !in Joined(bybit, binance)
    ensures o !in Opportunities(cfg, bybit, binance)
  {
  }

  /** Lowering the threshold keeps every finding. */
  lemma LowerThresholdFindsMore(cfg: Config, lower: real, bybit: QuoteSet, binance: QuoteSet)
    requires lower <= cfg.minProfitPercentage
    ensures Opportunities(cfg, bybit, binance) <= Opportunities(cfg.(minProfitPercentage := lower), bybit, binance)
  {
    var low := cfg.(minProfitPercentage := lower);
    forall s | s in bybit && s in binance
      ensures PairOpportunities(cfg, s, bybit[s], binance[s]) <= PairOpportunities(low, s, bybit[s], binance[s])
    {
      LowerThresholdKeeps(cfg, lower, bybit[s].askPrice, binance[s].bidPrice);
      LowerThresholdKeeps(cfg, lower, binance[s].askPrice, bybit[s].bidPrice);
    }
  }
}
