/**
 * The per-direction profit rule: buy at one exchange's ask plus the fee, sell at
 * the other's bid minus the fee, and compare the profit fraction with the
 * threshold. Prices, fee and threshold are exact rationals.
 */
module Profit {

  /** The two scanner constants: the minimum profit fraction and the per-leg fee fraction. */
  datatype Config = Config(minProfitPercentage: real, transactionFee: real)

  /** The values the scanner ships with: a 1% threshold and a 0.1% fee per exchange. */
  const DefaultConfig: Config := Config(0.01, 0.001)

  /** What buying costs: the ask plus the fee. */
  function BuyPrice(ask: real, fee: real): real
  {
    ask * (1.0 + fee)
  }

  /** What selling yields: the bid minus the fee. */
  function SellPrice(bid: real, fee: real): real
  {
    bid * (1.0 - fee)
  }

  /** The gain of selling at `sell` what was bought at `buy`, as a fraction of `buy`. */
  function ProfitFraction(buy: real, sell: real): real
    requires buy != 0.0
  {
    (sell - buy) / buy
  }

  /** The profit fraction is the gain measured in units of the buy price. */
  lemma ProfitFractionScales(buy: real, sell: real)
    requires buy != 0.0
    ensures buy * ProfitFraction(buy, sell) == sell - buy
    ensures buy > 0.0 ==> (ProfitFraction(buy, sell) >= 0.0 <==> sell >= buy)
  {
    var p := ProfitFraction(buy, sell);
    QuotientUnique(sell - buy, buy, p);
    if buy > 0.0 {
      if p >= 0.0 {
        assert buy * p >= 0.0;
      } else {
        assert buy * -p > 0.0;
      }
    }
  }

  /**
   * One direction counts: the fee-inclusive buy price is positive and the profit
   * fraction reaches the threshold (inclusively).
   */
  predicate Qualifies(cfg: Config, ask: real, bid: real)
  {
    var buy := BuyPrice(ask, cfg.transactionFee);
    buy > 0.0 && ProfitFraction(buy, SellPrice(bid, cfg.transactionFee)) >= cfg.minProfitPercentage
  }

  /**
   * The threshold rule without division: a direction counts exactly when the
   * fee-inclusive sell price covers the fee-inclusive buy price grown by the threshold.
   */
  lemma QualifiesIff(cfg: Config, ask: real, bid: real)
    ensures Qualifies(cfg, ask, bid) <==>
      && BuyPrice(ask, cfg.transactionFee) > 0.0
      && SellPrice(bid, cfg.transactionFee) >= BuyPrice(ask, cfg.transactionFee) * (1.0 + cfg.minProfitPercentage)
  {
    var buy := BuyPrice(ask, cfg.transactionFee);
    var sell := SellPrice(bid, cfg.transactionFee);
    if buy > 0.0 {
      var p := ProfitFraction(buy, sell);
      var m := cfg.minProfitPercentage;
      ProfitFractionScales(buy, sell);
      assert p >= m <==> buy * p >= buy * m by {
        if p >= m { assert buy * (p - m) >= 0.0; }
        if buy * p >= buy * m { assert buy * (p - m) >= 0.0; }
      }
    }
  }

  /** The threshold is inclusive: a profit exactly at the threshold counts. */
  lemma ThresholdInclusive(cfg: Config, ask: real, bid: real)
    requires BuyPrice(ask, cfg.transactionFee) > 0.0
    requires SellPrice(bid, cfg.transactionFee) == BuyPrice(ask, cfg.transactionFee) * (1.0 + cfg.minProfitPercentage)
    ensures Qualifies(cfg, ask, bid)
  {
    QualifiesIff(cfg, ask, bid);
  }

  /** Lowering the threshold never loses a qualifying direction. */
  lemma LowerThresholdKeeps(cfg: Config, lower: real, ask: real, bid: real)
    requires lower <= cfg.minProfitPercentage
    ensures Qualifies(cfg, ask, bid) ==> Qualifies(cfg.(minProfitPercentage := lower), ask, bid)
  {
  }

  /**
   * With no fee and no spread the two directions' profits are reciprocal, not
   * negations: the profit one way is -p / (1 + p) for the profit p the other way.
   */
  lemma ReciprocalProfit(x: real, y: real)
    requires x > 0.0 && y > 0.0
    ensures var there := ProfitFraction(BuyPrice(x, 0.0), SellPrice(y, 0.0));
            var back := ProfitFraction(BuyPrice(y, 0.0), SellPrice(x, 0.0));
            1.0 + back != 0.0 && there == -back / (1.0 + back)
  {
    assert BuyPrice(x, 0.0) == x && SellPrice(x, 0.0) == x;
    assert BuyPrice(y, 0.0) == y && SellPrice(y, 0.0) == y;
    var there := ProfitFraction(x, y);
    var back := ProfitFraction(y, x);
    ProfitFractionScales(x, y);
    ProfitFractionScales(y, x);
    var q := 1.0 + back;
    assert y * q == x by {
      assert y * q == y + y * back;
    }
    assert q != 0.0;
    assert y * (q * there) == y * -back by {
      assert y * (q * there) == (y * q) * there;
      assert y * -back == y - x;
    }
    Cancel(y, q * there, -back);
    QuotientUnique(-back, q, there);
  }

  lemma Cancel(c: real, a: real, b: real)
    requires c != 0.0 && c * a == c * b
    ensures a == b
  {
    assert c * (a - b) == 0.0;
  }

  lemma QuotientUnique(a: real, d: real, r: real)
    requires d != 0.0 && d * r == a
    ensures r == a / d
  {
    assert d * (a / d) == a;
    Cancel(d, r, a / d);
  }

  /** With the shipped constants, buying at 100 and selling at 103 qualifies. */
  lemma ClearsThreshold()
    ensures BuyPrice(100.0, DefaultConfig.transactionFee) == 100.1
    ensures SellPrice(103.0, DefaultConfig.transactionFee) == 102.897
    ensures Qualifies(DefaultConfig, 100.0, 103.0)
  {
    QualifiesIff(DefaultConfig, 100.0, 103.0);
  }

  /** With the shipped constants, buying at 100 and selling at 100.5 does not qualify: the fees eat the spread. */
  lemma MissesThreshold()
    ensures BuyPrice(100.0, DefaultConfig.transactionFee) == 100.1
    ensures SellPrice(100.5, DefaultConfig.transactionFee) == 100.3995
    ensures !Qualifies(DefaultConfig, 100.0, 100.5)
  {
    QualifiesIff(DefaultConfig, 100.0, 100.5);
  }

  /**
   * The shipped threshold is 1%, not the 2% its comment and the "nothing found"
   * message name: a direction yielding about 1.3% after fees qualifies, and would
   * not under a 2% threshold.
   */
  lemma BelowTwoPercentQualifies()
    ensures DefaultConfig == Config(0.01, 0.001)
    ensures SellPrice(101.5, DefaultConfig.transactionFee) == 101.3985
    ensures Qualifies(DefaultConfig, 100.0, 101.5)
    ensures !Qualifies(DefaultConfig.(minProfitPercentage := 0.02), 100.0, 101.5)
  {
    QualifiesIff(DefaultConfig, 100.0, 101.5);
    QualifiesIff(DefaultConfig.(minProfitPercentage := 0.02), 100.0, 101.5);
  }
}
