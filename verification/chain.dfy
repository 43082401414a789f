/**
 Whether the three swaps of a direction form a round trip. By the source's
 own naming, a `base_to_quote` swap on a market gives its base and obtains
 its quote, and `quote_to_base` the other way round; the round trip gives
 the first swap's coin and, after the third swap, holds that coin again.

 As written, only one direction of each cycle chains: forward exactly when
 pair_b contains a_quote, reverse exactly when pair_b contains a_base. The
 other direction uses a second swap that gives a coin not held (forward's
 last branch) or reuses the forward swaps (reverse's missing `else`).
 Orienting each swap by the coin actually held chains both directions.
 */
module Chaining {
  import opened Results
  import opened Decimals
  import opened Markets
  import opened Closure
  import opened CycleBuilder
  import opened SurfaceRate

  /** An emitted cycle: three distinct markets whose six currency names form a triangle. */
  predicate ValidCycle(c: Cycle)
  {
    && c.pairA != c.pairB && c.pairA != c.pairC && c.pairB != c.pairC
    && Triangle(c.aBase, c.aQuote, c.bBase, c.bQuote, c.cBase, c.cQuote)
  }

  /** Every dictionary the builder emits is a valid cycle. */
  lemma EmittedCyclesValid(scheme: KeyScheme, symbols: seq<string>)
    requires BuildWith(scheme, symbols).Ok?
    ensures forall x :: 0 <= x < |BuildWith(scheme, symbols).value| ==> ValidCycle(BuildWith(scheme, symbols).value[x])
  {
    BuildSound(scheme, symbols);
  }

  /** The currencies of the cycle's market named `m`. */
  function MarketNamed(c: Cycle, m: string): Market
  {
    if m == c.pairA then Market(c.aBase, c.aQuote)
    else if m == c.pairB then Market(c.bBase, c.bQuote)
    else Market(c.cBase, c.cQuote)
  }

  /** A swap on the cycle's market `l.contract` that gives `held`; the coin it obtains. */
  predicate LegTakes(c: Cycle, l: Leg, held: string)
  {
    Gives(MarketNamed(c, l.contract), l.trade) == held
  }

  function LegYields(c: Cycle, l: Leg): string
  {
    Obtains(MarketNamed(c, l.contract), l.trade)
  }

  /** The first swap gives its coin on pair_a; each later swap gives what the one before obtained; the last obtains the first coin back. */
  predicate Chains(c: Cycle, s1: FirstSwap, legs: Legs)
  {
    && s1.give == Gives(Market(c.aBase, c.aQuote), s1.trade)
    && s1.obtain == Obtains(Market(c.aBase, c.aQuote), s1.trade)
    && LegTakes(c, legs.second, s1.obtain)
    && LegTakes(c, legs.third, LegYields(c, legs.second))
    && LegYields(c, legs.third) == s1.give
  }

  /** The direction, as written, is a round trip. */
  predicate DirectionChains(c: Cycle, prices: map<string, real>, d: Direction)
  {
    Chains(c, FirstSwapOf(c, prices, d), LegsOf(c, prices, d))
  }

  /** pair_b contains `x`. */
  predicate InPairB(c: Cycle, x: string)
  {
    x == c.bBase || x == c.bQuote
  }

  /** As written, forward chains exactly when pair_b contains a_quote. */
  lemma ForwardChainsIff(c: Cycle, prices: map<string, real>)
    requires ValidCycle(c)
    ensures DirectionChains(c, prices, Forward) <==> InPairB(c, c.aQuote)
  {
    AllBoxCounts(c.aBase, c.aQuote, c.bBase, c.bQuote, c.cBase, c.cQuote);
  }

  /** As written, reverse chains exactly when pair_b contains a_base. */
  lemma ReverseChainsIff(c: Cycle, prices: map<string, real>)
    requires ValidCycle(c)
    ensures DirectionChains(c, prices, Reverse) <==> InPairB(c, c.aBase)
  {
    AllBoxCounts(c.aBase, c.aQuote, c.bBase, c.bQuote, c.cBase, c.cQuote);
    TriangleSharesOne(c.aBase, c.aQuote, c.bBase, c.bQuote, c.cBase, c.cQuote);
  }

  /**
   On every valid cycle exactly one direction chains as written; the
   reverse falls through to the forward swaps exactly when pair_b contains
   a_quote.
   */
  lemma ExactlyOneDirectionChains(c: Cycle, prices: map<string, real>)
    requires ValidCycle(c)
    ensures DirectionChains(c, prices, Forward) != DirectionChains(c, prices, Reverse)
    ensures ReverseFallsThrough(c) <==> InPairB(c, c.aQuote)
  {
    ForwardChainsIff(c, prices);
    ReverseChainsIff(c, prices);
    TriangleSharesOne(c.aBase, c.aQuote, c.bBase, c.bQuote, c.cBase, c.cQuote);
  }

  // ---------------------------------------------------------------------
  // Swaps oriented by the coin held

  /** The trade on market `m` that gives `held`. */
  function Orient(m: Market, held: string): Trade
  {
    if held == m.base then BaseToQuote else QuoteToBase
  }

  /**
   The second and third swaps of a direction chosen by the coin held after
   the first swap: the second on whichever of pair_b and pair_c holds that
   coin, the third on the other, each traded so that it gives the coin held.
   */
  function ChainedLegs(c: Cycle, prices: map<string, real>, d: Direction): Legs
  {
    var held := FirstSwapOf(c, prices, d).obtain;
    var m2 := if InPairB(c, held) then c.pairB else c.pairC;
    var m3 := if InPairB(c, held) then c.pairC else c.pairB;
    var t2 := Orient(MarketNamed(c, m2), held);
    var t3 := Orient(MarketNamed(c, m3), Obtains(MarketNamed(c, m2), t2));
    Legs(LegOn(prices, m2, t2), LegOn(prices, m3, t3))
  }

  /** Oriented by the coin held, both directions of every valid cycle chain. */
  lemma ChainedLegsChain(c: Cycle, prices: map<string, real>, d: Direction)
    requires ValidCycle(c)
    ensures Chains(c, FirstSwapOf(c, prices, d), ChainedLegs(c, prices, d))
  {
    var s1 := FirstSwapOf(c, prices, d);
    assert MarketNamed(c, c.pairB) == Market(c.bBase, c.bQuote);
    assert MarketNamed(c, c.pairC) == Market(c.cBase, c.cQuote);
    TriangleRoute(Market(c.aBase, c.aQuote), Market(c.bBase, c.bQuote), Market(c.cBase, c.cQuote), s1.give, s1.obtain);
  }

  /** The other currency of market `m`. */
  function Other(m: Market, x: string): string
  {
    if x == m.base then m.quote else m.base
  }

  /**
   In a triangle, holding one currency of pair_a after giving the other, the
   market of pair_b and pair_c that trades the held coin yields a coin that
   the remaining market trades back into the coin given.
   */
  lemma TriangleRoute(a: Market, b: Market, c: Market, give: string, held: string)
    requires Triangle(a.base, a.quote, b.base, b.quote, c.base, c.quote)
    requires (give == a.base && held == a.quote) || (give == a.quote && held == a.base)
    ensures var second := if held == b.base || held == b.quote then b else c;
            var third := if held == b.base || held == b.quote then c else b;
            && (held == second.base || held == second.quote)
            && (Other(second, held) == third.base || Other(second, held) == third.quote)
            && Other(third, Other(second, held)) == give
  {
    AllBoxCounts(a.base, a.quote, b.base, b.quote, c.base, c.quote);
  }

  /** Where the written dispatch does chain, the oriented swaps are exactly the written ones. */
  lemma ChainedAgreesWhereWrittenChains(c: Cycle, prices: map<string, real>, d: Direction)
    requires ValidCycle(c)
    requires DirectionChains(c, prices, d)
    ensures ChainedLegs(c, prices, d) == LegsOf(c, prices, d)
  {
    AllBoxCounts(c.aBase, c.aQuote, c.bBase, c.bQuote, c.cBase, c.cQuote);
    TriangleSharesOne(c.aBase, c.aQuote, c.bBase, c.bQuote, c.cBase, c.cQuote);
  }

  /** The surface-rate calculation with both directions' swaps oriented by the coin held. */
  function SurfaceRatesChained(c: Cycle, prices: map<string, real>, fee: real): (r: Result<map<Direction, Surface>, CalcError>)
    ensures r.Ok? ==> r.value.Keys == {Forward, Reverse}
  {
    var fwd := SurfaceFor(FirstSwapOf(c, prices, Forward), ChainedLegs(c, prices, Forward), fee);
    if fwd.Err? then Err(fwd.error)
    else
      var rev := SurfaceFor(FirstSwapOf(c, prices, Reverse), ChainedLegs(c, prices, Reverse), fee);
      if rev.Err? then Err(rev.error)
      else Ok(map[Forward := fwd.value, Reverse := rev.value])
  }

  /** Every entry of the corrected calculation is a round trip. */
  lemma SurfaceRatesChainedChains(c: Cycle, prices: map<string, real>, fee: real, d: Direction)
    requires ValidCycle(c)
    requires SurfaceRatesChained(c, prices, fee).Ok?
    ensures var s := SurfaceRatesChained(c, prices, fee).value[d];
            Chains(c, s.swap1, Legs(s.swap2, s.swap3))
  {
    ChainedLegsChain(c, prices, d);
  }

  /** The corrected calculation agrees with the written one on the direction that chains as written. */
  lemma SurfaceRatesChainedAgrees(c: Cycle, prices: map<string, real>, fee: real, d: Direction)
    requires ValidCycle(c)
    requires DirectionChains(c, prices, d)
    requires SurfaceRates(c, prices, fee).Ok? && SurfaceRatesChained(c, prices, fee).Ok?
    ensures SurfaceRatesChained(c, prices, fee).value[d] == SurfaceRates(c, prices, fee).value[d]
  {
    ChainedAgreesWhereWrittenChains(c, prices, d);
  }
}
