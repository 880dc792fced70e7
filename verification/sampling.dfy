/**
 * The debugging output of a scan that finds nothing: up to five joined
 * symbols, each shown with the quotes of both exchanges.
 */
module Sampling {
  import opened Quotes
  import opened Sets

  /** A joined symbol shown with the raw quotes of both exchanges. */
  datatype Sample = Sample(symbol: string, bybit: ExchangePrice, binance: ExchangePrice)

  /** At most this many samples are shown when nothing qualifies. */
  const SampleLimit: nat := 5

  function Min(a: nat, b: nat): nat
  {
    if a <= b then a else b
  }

  /** One sample is a joined symbol shown with both of its quotes. */
  predicate IsSampleOf(sample: Sample, bybit: QuoteSet, binance: QuoteSet)
  {
    && sample.symbol in bybit && sample.symbol in binance
    && sample.bybit == bybit[sample.symbol] && sample.binance == binance[sample.symbol]
  }

  /**
   * `samples` shows every joined symbol among `visited` exactly once: each
   * sample is a joined symbol among `visited` and no symbol is shown twice.
   */
  ghost predicate Shown(samples: seq<Sample>, bybit: QuoteSet, binance: QuoteSet, visited: set<string>)
  {
    && |samples| == |visited * binance.Keys|
    && (forall k :: 0 <= k < |samples| ==> samples[k].symbol in visited && IsSampleOf(samples[k], bybit, binance))
    && (forall j, k :: 0 <= j < k < |samples| ==> samples[j].symbol != samples[k].symbol)
  }

  /** The state of the walk: `remaining` Bybit symbols are left, the others are shown exactly. */
  ghost predicate Walking(samples: seq<Sample>, bybit: QuoteSet, binance: QuoteSet, remaining: set<string>)
  {
    remaining <= bybit.Keys && Shown(samples, bybit, binance, bybit.Keys - remaining)
  }

  /** Showing a joined symbol not visited before keeps the samples exact. */
  lemma ShowStep(samples: seq<Sample>, bybit: QuoteSet, binance: QuoteSet, remaining: set<string>, s: string)
    requires Walking(samples, bybit, binance, remaining)
    requires s in remaining && s in binance
    ensures Walking(samples + [Sample(s, bybit[s], binance[s])], bybit, binance, remaining - {s})
  {
    var visited := bybit.Keys - remaining;
    assert bybit.Keys - (remaining - {s}) == visited + {s};
    JoinedStep(visited, binance.Keys, s);
  }

  /** Passing over a symbol Binance does not quote keeps the samples exact. */
  lemma SkipStep(samples: seq<Sample>, bybit: QuoteSet, binance: QuoteSet, remaining: set<string>, s: string)
    requires Walking(samples, bybit, binance, remaining)
    requires s in remaining && s !in binance
    ensures Walking(samples, bybit, binance, remaining - {s})
  {
    var visited := bybit.Keys - remaining;
    assert bybit.Keys - (remaining - {s}) == visited + {s};
    JoinedStep(visited, binance.Keys, s);
  }

  /**
   * What the walk's state promises about the samples: each is a distinct joined
   * symbol, all joined symbols are shown once the walk is over, and never more
   * than there are.
   */
  lemma WalkingSamples(samples: seq<Sample>, bybit: QuoteSet, binance: QuoteSet, remaining: set<string>)
    requires Walking(samples, bybit, binance, remaining)
    ensures |samples| <= |Joined(bybit, binance)|
    ensures remaining == {} ==> |samples| == |Joined(bybit, binance)|
    ensures forall k :: 0 <= k < |samples| ==> IsSampleOf(samples[k], bybit, binance)
    ensures forall j, k :: 0 <= j < k < |samples| ==> samples[j].symbol != samples[k].symbol
  {
    var visited := bybit.Keys - remaining;
    SubsetSize(visited * binance.Keys, Joined(bybit, binance));
    if remaining == {} {
      assert visited * binance.Keys == Joined(bybit, binance);
    }
  }

  /**
   * The debugging loop: walks the Bybit symbols in an arbitrary order and shows
   * each joined one, stopping after the fifth.
   */
  method SampleComparisons(bybit: QuoteSet, binance: QuoteSet) returns (samples: seq<Sample>)
    ensures |samples| == Min(SampleLimit, |Joined(bybit, binance)|)
    ensures forall k :: 0 <= k < |samples| ==> IsSampleOf(samples[k], bybit, binance)
    ensures forall j, k :: 0 <= j < k < |samples| ==> samples[j].symbol != samples[k].symbol
  {
    samples := [];
    var count := 0;
    var remaining := bybit.Keys;
    assert bybit.Keys - remaining == {};
    while remaining != {}
      invariant count == |samples| < SampleLimit
      invariant Walking(samples, bybit, binance, remaining)
      decreases remaining
    {
      var symbol :| symbol in remaining;
      var bybitPrice := bybit[symbol];
      if symbol in binance {
        var binancePrice := binance[symbol];
        ShowStep(samples, bybit, binance, remaining, symbol);
        samples := samples + [Sample(symbol, bybitPrice, binancePrice)];
        remaining := remaining - {symbol};
        count := count + 1;
        if count >= SampleLimit {
          WalkingSamples(samples, bybit, binance, remaining);
          break;
        }
      } else {
        SkipStep(samples, bybit, binance, remaining, symbol);
        remaining := remaining - {symbol};
      }
    }
    WalkingSamples(samples, bybit, binance, remaining);
  }
}
