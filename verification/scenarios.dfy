/**
 The cycle BTC-EUR, ETH-EUR, ETH-BTC with one set of quotes and a fee of
 0.002 (the trader's default): both rates are finite; forward chains and
 loses a little; reverse falls through to the forward swaps and reports a
 rate above a billion. A second snapshot, with a zero ask and a market
 missing, makes the calculation raise.
 */
module Scenarios {
  import opened Decimals
  import opened Markets
  import opened Closure
  import opened PriceSnapshot
  import opened SurfaceRate
  import opened Chaining

  /** The trader's default fee. */
  const DefaultFee: real := 0.002

  const Example: Cycle :=
    Cycle("BTC", "ETH", "ETH", "EUR", "EUR", "BTC", "BTC-EUR", "ETH-EUR", "ETH-BTC", "BTC-EUR,ETH-EUR,ETH-BTC")

  const Feed: seq<Ticker> :=
    [Ticker("BTC-EUR", 50000.0, 49990.0), Ticker("ETH-EUR", 3000.0, 2995.0), Ticker("ETH-BTC", 0.06, 0.0598)]

  lemma ExampleValid()
    ensures ValidCycle(Example)
  {
    var c := Example;
    assert c.pairA[0] != c.pairB[0] && c.pairA[0] != c.pairC[0] && c.pairB[4] != c.pairC[4];
    assert "BTC"[0] != "EUR"[0] && "ETH"[1] != "EUR"[1] && "ETH"[0] != "BTC"[0];
    CycleThrough("BTC", "ETH", "EUR");
  }

  /** x/z, y/z, y/x: three distinct currencies, each met twice. */
  lemma CycleThrough(x: string, y: string, z: string)
    requires x != y && x != z && y != z
    ensures Triangle(x, z, y, z, y, x)
  {
    AllBoxCounts(x, z, y, z, y, x);
    EveryNameTwice(x, z, y, z, y, x);
  }

  lemma FeedMarketsDistinct()
    ensures Feed[0].market != Feed[1].market && Feed[0].market != Feed[2].market && Feed[1].market != Feed[2].market
  {
    assert Feed[0].market[0] != Feed[1].market[0];
    assert Feed[0].market[0] != Feed[2].market[0];
    assert Feed[1].market[4] != Feed[2].market[4];
  }

  /** The rates the snapshot built from the feed gives each of the cycle's markets. */
  lemma ExampleRates(t: Trade)
    ensures RateFor(AskOf(GetPriceForTPair(Example, Feed), "BTC-EUR"), BidOf(GetPriceForTPair(Example, Feed), "BTC-EUR"), t)
            == RateFor(Fin(50000.0), Fin(49990.0), t)
    ensures RateFor(AskOf(GetPriceForTPair(Example, Feed), "ETH-EUR"), BidOf(GetPriceForTPair(Example, Feed), "ETH-EUR"), t)
            == RateFor(Fin(3000.0), Fin(2995.0), t)
    ensures RateFor(AskOf(GetPriceForTPair(Example, Feed), "ETH-BTC"), BidOf(GetPriceForTPair(Example, Feed), "ETH-BTC"), t)
            == RateFor(Fin(0.06), Fin(0.0598), t)
  {
    FeedMarketsDistinct();
    assert LastEntry(Feed, "BTC-EUR", 0);
    assert LastEntry(Feed, "ETH-EUR", 1);
    assert LastEntry(Feed, "ETH-BTC", 2);
    QuotedMarketRate(Example, Feed, "BTC-EUR", 0, t);
    QuotedMarketRate(Example, Feed, "ETH-EUR", 1, t);
    QuotedMarketRate(Example, Feed, "ETH-BTC", 2, t);
  }

  lemma ExampleNoZeroAsk()
    ensures NoZeroAsk(Example, GetPriceForTPair(Example, Feed))
  {
    var prices := GetPriceForTPair(Example, Feed);
    FeedMarketsDistinct();
    assert LastEntry(Feed, "BTC-EUR", 0) && LastEntry(Feed, "ETH-EUR", 1) && LastEntry(Feed, "ETH-BTC", 2);
    LastEntryWins(Example, Feed, "BTC-EUR", 0);
    LastEntryWins(Example, Feed, "ETH-EUR", 1);
    LastEntryWins(Example, Feed, "ETH-BTC", 2);
  }

  /** The forward swaps: 1/ask on BTC-EUR, the bid of ETH-EUR, 1/ask on ETH-BTC. */
  lemma ExampleForwardSwaps()
    ensures FirstSwapOf(Example, GetPriceForTPair(Example, Feed), Forward).rate == Fin(1.0 / 50000.0)
    ensures LegsOf(Example, GetPriceForTPair(Example, Feed), Forward).second == Leg("ETH-EUR", Fin(2995.0), QuoteToBase)
    ensures LegsOf(Example, GetPriceForTPair(Example, Feed), Forward).third == Leg("ETH-BTC", Fin(1.0 / 0.06), BaseToQuote)
  {
    ExampleRates(BaseToQuote);
    ExampleRates(QuoteToBase);
  }

  /** Reverse falls through: its second and third swaps are forward's, after the bid of BTC-EUR. */
  lemma ExampleReverseSwaps()
    ensures ReverseFallsThrough(Example)
    ensures FirstSwapOf(Example, GetPriceForTPair(Example, Feed), Reverse).rate == Fin(49990.0)
    ensures LegsOf(Example, GetPriceForTPair(Example, Feed), Reverse)
            == LegsOf(Example, GetPriceForTPair(Example, Feed), Forward)
  {
    assert "BTC"[0] != "ETH"[0] && "BTC"[0] != "EUR"[0];
    ExampleRates(QuoteToBase);
  }

  /** Forward: finite, a loss of about 0.76 per cent. */
  lemma ExampleForwardRate()
    ensures SurfaceRates(Example, GetPriceForTPair(Example, Feed), DefaultFee).Ok?
    ensures var s := SurfaceRates(Example, GetPriceForTPair(Example, Feed), DefaultFee).value[Forward];
            s.arbitrageRate.Fin? && -0.008 < s.arbitrageRate.v < -0.007
  {
    var prices := GetPriceForTPair(Example, Feed);
    ExampleNoZeroAsk();
    NoZeroAskRates(Example, prices, DefaultFee, Forward);
    DirectionEntry(Example, prices, DefaultFee, Forward);
    ExampleForwardSwaps();
    var s := SurfaceRates(Example, prices, DefaultFee).value[Forward];
    assert s.swap1.rate.v * s.swap2.rate.v * s.swap3.rate.v == (1.0 / 50000.0) * 2995.0 * (1.0 / 0.06);
    assert (1.0 / 50000.0) * 2995.0 * (1.0 / 0.06) == 599.0 / 600.0;
    assert Cube(1.0 - DefaultFee) == 0.994011992;
  }

  /** Reverse: finite, but above a billion, because it reuses the forward swaps. */
  lemma ExampleReverseRate()
    ensures SurfaceRates(Example, GetPriceForTPair(Example, Feed), DefaultFee).Ok?
    ensures var s := SurfaceRates(Example, GetPriceForTPair(Example, Feed), DefaultFee).value[Reverse];
            s.arbitrageRate.Fin? && s.arbitrageRate.v > 1000000000.0
  {
    var prices := GetPriceForTPair(Example, Feed);
    ExampleNoZeroAsk();
    NoZeroAskRates(Example, prices, DefaultFee, Reverse);
    DirectionEntry(Example, prices, DefaultFee, Reverse);
    ExampleForwardSwaps();
    ExampleReverseSwaps();
    var s := SurfaceRates(Example, prices, DefaultFee).value[Reverse];
    assert s.swap1.rate.v * s.swap2.rate.v * s.swap3.rate.v == 49990.0 * 2995.0 * (1.0 / 0.06);
    assert 49990.0 * 2995.0 * (1.0 / 0.06) > 2000000000.0;
    assert Cube(1.0 - DefaultFee) == 0.994011992;
  }

  /** Forward is a round trip; reverse is not. */
  lemma ExampleChaining()
    ensures DirectionChains(Example, GetPriceForTPair(Example, Feed), Forward)
    ensures !DirectionChains(Example, GetPriceForTPair(Example, Feed), Reverse)
  {
    ExampleValid();
    ForwardChainsIff(Example, GetPriceForTPair(Example, Feed));
    ReverseChainsIff(Example, GetPriceForTPair(Example, Feed));
    assert "BTC"[0] != "ETH"[0] && "BTC"[0] != "EUR"[0];
  }

  /** Oriented by the coin held, the reverse direction trades ETH-BTC second and ETH-EUR third. */
  lemma ExampleChainedReverse()
    ensures ChainedLegs(Example, GetPriceForTPair(Example, Feed), Reverse)
            == Legs(Leg("ETH-BTC", Fin(0.0598), QuoteToBase), Leg("ETH-EUR", Fin(1.0 / 3000.0), BaseToQuote))
  {
    var prices := GetPriceForTPair(Example, Feed);
    assert FirstSwapOf(Example, prices, Reverse).obtain == "BTC";
    assert !InPairB(Example, "BTC") by {
      assert "BTC"[0] != "ETH"[0] && "BTC"[0] != "EUR"[0];
    }
    assert MarketNamed(Example, "ETH-BTC") == Market("ETH", "BTC") by {
      assert "ETH-BTC"[0] != "BTC-EUR"[0] && "ETH-BTC"[4] != "ETH-EUR"[4];
    }
    assert MarketNamed(Example, "ETH-EUR") == Market("ETH", "EUR") by {
      assert "ETH-EUR"[0] != "BTC-EUR"[0];
    }
    assert "BTC" != "ETH" by {
      assert "BTC"[0] != "ETH"[0];
    }
    ExampleRates(QuoteToBase);
    ExampleRates(BaseToQuote);
  }

  /** And that reverse direction is a round trip. */
  lemma ExampleChainedReverseChains()
    ensures Chains(Example, FirstSwapOf(Example, GetPriceForTPair(Example, Feed), Reverse),
                   ChainedLegs(Example, GetPriceForTPair(Example, Feed), Reverse))
  {
    ExampleValid();
    ChainedLegsChain(Example, GetPriceForTPair(Example, Feed), Reverse);
  }

  const Sparse: seq<Ticker> := [Ticker("BTC-EUR", 0.0, 49990.0), Ticker("ETH-BTC", 0.06, 0.0598)]

  /**
   A zero ask on BTC-EUR and no quote for ETH-EUR: forward's first rate is
   infinite and its second is zero, so the product raises InvalidOperation.
   */
  lemma ZeroAskAndMissingMarketRaise()
    ensures SurfaceRates(Example, GetPriceForTPair(Example, Sparse), DefaultFee).Err?
  {
    var prices := GetPriceForTPair(Example, Sparse);
    assert Sparse[0].market[0] != Sparse[1].market[0];
    assert LastEntry(Sparse, "BTC-EUR", 0);
    QuotedMarketRate(Example, Sparse, "BTC-EUR", 0, BaseToQuote);
    assert !Quoted(Sparse, "ETH-EUR") by {
      assert Sparse[0].market[0] != "ETH-EUR"[0] && Sparse[1].market[4] != "ETH-EUR"[4];
    }
    UnquotedMarketRateZero(Example, Sparse, "ETH-EUR", QuoteToBase);
    SurfaceRatesFailsIff(Example, prices, DefaultFee);
  }
}
