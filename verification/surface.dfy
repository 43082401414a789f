/**
 `cal_triangular_arb_surface_rate`: for each direction, forward then
 reverse, pick the side of each of the cycle's three markets to trade, read
 the rate from the price snapshot (a missing ask counts as an infinite
 price, a missing bid as zero), and compound the three fee-charged rates.

 Trades are named as the source names them: `base_to_quote` uses the rate
 `1/ask`, `quote_to_base` uses the bid, and the first swap's coin tuple
 says that `base_to_quote` on a market turns its base into its quote.
 */
module SurfaceRate {
  import opened Results
  import opened Decimals
  import opened Markets
  import opened PriceSnapshot

  datatype Direction = Forward | Reverse

  datatype Trade = BaseToQuote | QuoteToBase

  /** `(swap_1, swap_2, swap_1_rate, direction_trade_1)`: the coin given, the coin obtained, the rate, the trade. */
  datatype FirstSwap = FirstSwap(give: string, obtain: string, rate: Dec, trade: Trade)

  /** `(contract, rate, direction_trade)` of the second or third swap. */
  datatype Leg = Leg(contract: string, rate: Dec, trade: Trade)

  /** The second and third swaps of one direction. */
  datatype Legs = Legs(second: Leg, third: Leg)

  /** One entry of the result dictionary. */
  datatype Surface = Surface(swap1: FirstSwap, swap2: Leg, swap3: Leg, arbitrageRate: Dec)

  /** `prices_dict.get(m + '_ask', Decimal('Infinity'))`. */
  function AskOf(prices: map<string, real>, m: string): Dec
  {
    if AskKey(m) in prices then Fin(prices[AskKey(m)]) else PosInf
  }

  /** `prices_dict.get(m + '_bid', Decimal('0'))`. */
  function BidOf(prices: map<string, real>, m: string): Dec
  {
    if BidKey(m) in prices then Fin(prices[BidKey(m)]) else Fin(0.0)
  }

  /** The rate a trade of the given kind reads: `1/ask` for base_to_quote, the bid for quote_to_base. */
  function RateFor(ask: Dec, bid: Dec, t: Trade): Dec
  {
    match t
    case BaseToQuote => SafeDivide(1.0, ask)
    case QuoteToBase => bid
  }

  /** The coin a trade of the given kind gives up on market `m`. */
  function Gives(m: Market, t: Trade): string
  {
    match t
    case BaseToQuote => m.base
    case QuoteToBase => m.quote
  }

  /** The coin a trade of the given kind obtains on market `m`. */
  function Obtains(m: Market, t: Trade): string
  {
    match t
    case BaseToQuote => m.quote
    case QuoteToBase => m.base
  }

  /**
   `determine_swap_details`: forward gives the base for the quote at `1/ask`,
   reverse gives the quote for the base at the bid.
   */
  function DetermineSwapDetails(base: string, quote: string, ask: Dec, bid: Dec, d: Direction): (s: FirstSwap)
    ensures s.trade == (if d == Forward then BaseToQuote else QuoteToBase)
    ensures s.give == Gives(Market(base, quote), s.trade) && s.obtain == Obtains(Market(base, quote), s.trade)
    ensures s.rate == RateFor(ask, bid, s.trade)
  {
    if d == Forward then FirstSwap(base, quote, SafeDivide(1.0, ask), BaseToQuote)
    else FirstSwap(quote, base, bid, QuoteToBase)
  }

  /** The first swap of a direction, on pair_a, with the snapshot's defaults. */
  function FirstSwapOf(c: Cycle, prices: map<string, real>, d: Direction): FirstSwap
  {
    DetermineSwapDetails(c.aBase, c.aQuote, AskOf(prices, c.pairA), BidOf(prices, c.pairA), d)
  }

  /** A swap of the given kind on the market named `m`, at the rate the snapshot gives it. */
  function LegOn(prices: map<string, real>, m: string, t: Trade): Leg
  {
    Leg(m, RateFor(AskOf(prices, m), BidOf(prices, m), t), t)
  }

  /** A leg whose rate is the one its trade kind reads from its own market. */
  predicate Priced(prices: map<string, real>, l: Leg)
  {
    l.rate == RateFor(AskOf(prices, l.contract), BidOf(prices, l.contract), l.trade)
  }

  /** The forward direction's second and third swaps. */
  function ForwardLegs(c: Cycle, prices: map<string, real>): (legs: Legs)
    ensures legs.second.contract == c.pairB && legs.third.contract == c.pairC
    ensures Priced(prices, legs.second) && Priced(prices, legs.third)
  {
    if c.aQuote == c.bQuote then
      Legs(LegOn(prices, c.pairB, QuoteToBase),
           LegOn(prices, c.pairC, if c.bBase == c.cBase then BaseToQuote else QuoteToBase))
    else if c.aQuote == c.bBase then
      Legs(LegOn(prices, c.pairB, BaseToQuote),
           LegOn(prices, c.pairC, if c.bQuote == c.cBase then BaseToQuote else QuoteToBase))
    else
      Legs(LegOn(prices, c.pairB, QuoteToBase),
           LegOn(prices, c.pairC, if c.bQuote == c.cBase then BaseToQuote else QuoteToBase))
  }

  /** Neither reverse branch applies: a_base is neither b_base nor b_quote. */
  predicate ReverseFallsThrough(c: Cycle)
  {
    c.aBase != c.bBase && c.aBase != c.bQuote
  }

  /**
   The reverse direction's second and third swaps. The reverse `if` has no
   `else`: when neither branch applies the variables keep the values the
   forward iteration left in them, passed here as `forward`.
   */
  function ReverseLegs(c: Cycle, prices: map<string, real>, forward: Legs): (legs: Legs)
    ensures ReverseFallsThrough(c) ==> legs == forward
    ensures !ReverseFallsThrough(c) ==> legs.second.contract == c.pairB && legs.third.contract == c.pairC
    ensures !ReverseFallsThrough(c) ==> Priced(prices, legs.second) && Priced(prices, legs.third)
  {
    if c.aBase == c.bBase then
      Legs(LegOn(prices, c.pairB, BaseToQuote),
           LegOn(prices, c.pairC, if c.bQuote == c.cQuote then QuoteToBase else BaseToQuote))
    else if c.aBase == c.bQuote then
      Legs(LegOn(prices, c.pairB, QuoteToBase),
           LegOn(prices, c.pairC, if c.bBase == c.cQuote then QuoteToBase else BaseToQuote))
    else
      forward
  }

  /** The second and third swaps of a direction, as the two iterations of the loop leave them. */
  function LegsOf(c: Cycle, prices: map<string, real>, d: Direction): Legs
  {
    if d == Forward then ForwardLegs(c, prices) else ReverseLegs(c, prices, ForwardLegs(c, prices))
  }

  /**
   One direction's entry: the three swaps and their compounded rate. It raises
   exactly when an infinite rate meets a zero rate or a fee of one; the rate is
   infinite exactly when a swap rate is; with finite swap rates it is their
   fee-charged product minus one.
   */
  function SurfaceFor(s1: FirstSwap, legs: Legs, fee: real): (r: Result<Surface, CalcError>)
    ensures r.Err? <==> RatesFail(s1.rate, legs.second.rate, legs.third.rate, fee)
    ensures r.Ok? ==> r.value.swap1 == s1 && r.value.swap2 == legs.second && r.value.swap3 == legs.third
    ensures r.Ok? ==> (IsInfinite(r.value.arbitrageRate)
                       <==> IsInfinite(s1.rate) || IsInfinite(legs.second.rate) || IsInfinite(legs.third.rate))
    ensures s1.rate.Fin? && legs.second.rate.Fin? && legs.third.rate.Fin? ==> r.Ok? && CompoundsTo(r.value, fee)
  {
    var rate := ArbitrageRate(s1.rate, legs.second.rate, legs.third.rate, fee);
    ArbitrageRateFailsIff(s1.rate, legs.second.rate, legs.third.rate, fee);
    if rate.Err? then Err(rate.error)
    else if s1.rate.Fin? && legs.second.rate.Fin? && legs.third.rate.Fin? then
      ArbitrageRateFinite(s1.rate.v, legs.second.rate.v, legs.third.rate.v, fee);
      Ok(Surface(s1, legs.second, legs.third, rate.value))
    else Ok(Surface(s1, legs.second, legs.third, rate.value))
  }

  /** `cal_triangular_arb_surface_rate`, with the trading fee as a parameter. */
  function SurfaceRates(c: Cycle, prices: map<string, real>, fee: real): (r: Result<map<Direction, Surface>, CalcError>)
    ensures r.Ok? ==> r.value.Keys == {Forward, Reverse}
  {
    var fwd := SurfaceFor(FirstSwapOf(c, prices, Forward), LegsOf(c, prices, Forward), fee);
    if fwd.Err? then Err(fwd.error)
    else
      var rev := SurfaceFor(FirstSwapOf(c, prices, Reverse), LegsOf(c, prices, Reverse), fee);
      if rev.Err? then Err(rev.error)
      else Ok(map[Forward := fwd.value, Reverse := rev.value])
  }

  // ---------------------------------------------------------------------
  // Rates and the snapshot's defaults

  /** The rates `safe_divide` and the defaults produce: infinite exactly for a present zero ask read as `1/ask`. */
  lemma RateInfiniteIff(prices: map<string, real>, m: string, t: Trade)
    ensures IsInfinite(RateFor(AskOf(prices, m), BidOf(prices, m), t))
        <==> t == BaseToQuote && AskKey(m) in prices && prices[AskKey(m)] == 0.0
  {
  }

  /** A market the snapshot has no quotes for contributes a zero rate, whichever side is traded. */
  lemma MissingMarketRateZero(prices: map<string, real>, m: string, t: Trade)
    requires AskKey(m) !in prices && BidKey(m) !in prices
    ensures RateFor(AskOf(prices, m), BidOf(prices, m), t) == Fin(0.0)
  {
  }

  /** A market of the cycle that the feed never quotes contributes a zero rate. */
  lemma UnquotedMarketRateZero(c: Cycle, feed: seq<Ticker>, m: string, t: Trade)
    requires !Quoted(feed, m)
    ensures RateFor(AskOf(GetPriceForTPair(c, feed), m), BidOf(GetPriceForTPair(c, feed), m), t) == Fin(0.0)
  {
    UnquotedMarketAbsent(c, feed, m);
    MissingMarketRateZero(GetPriceForTPair(c, feed), m, t);
  }

  /** The rate of a quoted market is read from the last feed entry for it. */
  lemma QuotedMarketRate(c: Cycle, feed: seq<Ticker>, m: string, i: int, t: Trade)
    requires m in CycleMarkets(c) && LastEntry(feed, m, i)
    ensures RateFor(AskOf(GetPriceForTPair(c, feed), m), BidOf(GetPriceForTPair(c, feed), m), t)
            == RateFor(Fin(feed[i].ask), Fin(feed[i].bid), t)
  {
    LastEntryWins(c, feed, m, i);
  }

  /** The three rates of a direction raise InvalidOperation when compounded. */
  predicate RatesFail(r1: Dec, r2: Dec, r3: Dec, fee: real)
  {
    (IsInfinite(r1) || IsInfinite(r2) || IsInfinite(r3)) && (fee == 1.0 || IsZero(r1) || IsZero(r2) || IsZero(r3))
  }

  /**
   The calculation raises exactly when, in one direction, an infinite rate
   (a zero ask read as `1/ask`) meets a zero rate or a fee of one. Missing
   quotes are not always harmless.
   */
  lemma SurfaceRatesFailsIff(c: Cycle, prices: map<string, real>, fee: real)
    ensures SurfaceRates(c, prices, fee).Err? <==>
      || RatesFail(FirstSwapOf(c, prices, Forward).rate, ForwardLegs(c, prices).second.rate,
                   ForwardLegs(c, prices).third.rate, fee)
      || RatesFail(FirstSwapOf(c, prices, Reverse).rate, ReverseLegs(c, prices, ForwardLegs(c, prices)).second.rate,
                   ReverseLegs(c, prices, ForwardLegs(c, prices)).third.rate, fee)
  {
  }

  /** No market of the cycle has a zero ask in the snapshot. */
  predicate NoZeroAsk(c: Cycle, prices: map<string, real>)
  {
    forall m :: m in CycleMarkets(c) && AskKey(m) in prices ==> prices[AskKey(m)] != 0.0
  }

  /** Without a zero ask every rate is finite, so nothing raises. */
  lemma NoZeroAskNoError(c: Cycle, prices: map<string, real>, fee: real)
    requires NoZeroAsk(c, prices)
    ensures SurfaceRates(c, prices, fee).Ok?
  {
    var f := ForwardLegs(c, prices);
    var r := ReverseLegs(c, prices, f);
    RateInfiniteIff(prices, c.pairA, BaseToQuote);
    RateInfiniteIff(prices, c.pairB, f.second.trade);
    RateInfiniteIff(prices, c.pairC, f.third.trade);
    RateInfiniteIff(prices, c.pairB, r.second.trade);
    RateInfiniteIff(prices, c.pairC, r.third.trade);
    SurfaceRatesFailsIff(c, prices, fee);
  }

  /** The entry of a direction is that direction's first swap and legs, compounded. */
  lemma DirectionEntry(c: Cycle, prices: map<string, real>, fee: real, d: Direction)
    requires SurfaceRates(c, prices, fee).Ok?
    ensures SurfaceFor(FirstSwapOf(c, prices, d), LegsOf(c, prices, d), fee).Ok?
    ensures SurfaceRates(c, prices, fee).value[d] == SurfaceFor(FirstSwapOf(c, prices, d), LegsOf(c, prices, d), fee).value
  {
  }

  /**
   All three rates of the entry are finite and its `arbitrage_rate` is their
   product with the fee charged on each, minus one.
   */
  predicate CompoundsTo(s: Surface, fee: real)
  {
    && s.swap1.rate.Fin? && s.swap2.rate.Fin? && s.swap3.rate.Fin?
    && s.arbitrageRate == Fin(s.swap1.rate.v * s.swap2.rate.v * s.swap3.rate.v
                              * Cube(1.0 - fee) - 1.0)
  }

  /** Without a zero ask each direction's `arbitrage_rate` is the fee-charged product of its three rates, minus one. */
  lemma NoZeroAskRates(c: Cycle, prices: map<string, real>, fee: real, d: Direction)
    requires NoZeroAsk(c, prices)
    ensures SurfaceRates(c, prices, fee).Ok?
    ensures CompoundsTo(SurfaceRates(c, prices, fee).value[d], fee)
  {
    NoZeroAskNoError(c, prices, fee);
    DirectionEntry(c, prices, fee, d);
    var s1 := FirstSwapOf(c, prices, d);
    var legs := LegsOf(c, prices, d);
    var f := ForwardLegs(c, prices);
    var r := ReverseLegs(c, prices, f);
    RateInfiniteIff(prices, c.pairA, s1.trade);
    RateInfiniteIff(prices, c.pairB, f.second.trade);
    RateInfiniteIff(prices, c.pairC, f.third.trade);
    RateInfiniteIff(prices, c.pairB, r.second.trade);
    RateInfiniteIff(prices, c.pairC, r.third.trade);
  }

  /**
   `acquired_coin_t1`, computed and never used, can only raise when the
   compounding of the same direction raises too, so leaving it out changes
   no outcome.
   */
  lemma AcquiredCoinRaisesOnlyWithRate(r1: Dec, r2: Dec, r3: Dec, fee: real)
    requires Mul(Fin(1.0), r1).Ok? && Mul(Mul(Fin(1.0), r1).value, Fin(1.0 - fee)).Err?
    ensures ArbitrageRate(r1, r2, r3, fee).Err?
  {
    ArbitrageRateFailsIff(r1, r2, r3, fee);
  }

  /** `acquired_coin_t1`'s first product never raises. */
  lemma AcquiredCoinFirstProduct(r1: Dec)
    ensures Mul(Fin(1.0), r1) == Ok(r1)
  {
  }
}
