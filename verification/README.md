# Triangular arbitrage surface rates, in Dafny

This project models the core of a Bitvavo triangular-arbitrage scanner (`index.py`, class `BitvavoTrader`):

- **Collecting symbols.** `collect_tradeables` reads the market symbols out of a ticker feed.
- **Building cycles.** `structure_triangular_pairs` turns the symbol list into triangular cycles of three markets. It does this with three nested loops, a closure test on the six currency names, and a dedup key.
- **Pricing a cycle.** `get_price_for_t_pair` builds the `<market>_ask` / `<market>_bid` price snapshot of one cycle.
- **Computing surface rates.** `safe_divide`, `determine_swap_details` and `cal_triangular_arb_surface_rate` compute a swap route and an `arbitrage_rate` for the forward and the reverse direction.

Modules:

| module | file | models |
|---|---|---|
| `Results` | `results.dfy` | the `Result` type the partial operations return |
| `Text` | `text.dfy` | Python's `str` ordering (for `sorted`) and `str.split('-')` |
| `Markets` | `markets.dfy` | markets, ticker entries and emitted cycle dictionaries; splitting symbols; `collect_tradeables` |
| `Closure` | `closure.dfy` | the pre-filter and the `pair_box` count condition, and the triangle shape they recognise |
| `Dedup` | `dedup.dfy` | the keep-first-of-each-key scan, for any element and key type |
| `CycleBuilder` | `cycle_builder.dfy` | `structure_triangular_pairs`: loop order, acceptance, dedup, and what is emitted |
| `PriceSnapshot` | `prices.dfy` | `get_price_for_t_pair` |
| `Decimals` | `decimals.dfy` | Decimal values with infinities, `safe_divide`, the partial product, and the compounded `arbitrage_rate` |
| `SurfaceRate` | `surface.dfy` | `determine_swap_details` and `cal_triangular_arb_surface_rate` |
| `Chaining` | `chain.dfy` | whether each direction's three swaps form a round trip, and a corrected dispatch |
| `KeyCollision` | `key_collision.dfy` | five symbols on which the dedup key drops a cycle |
| `Scenarios` | `scenarios.dfy` | the cycle BTC-EUR, ETH-EUR, ETH-BTC with concrete quotes |

Modelling choices:

- **Decimal values.** A Decimal is `Fin(real) | PosInf | NegInf`. Arithmetic is exact.
- **Products that raise.** Python's default Decimal context raises `InvalidOperation` when a zero meets an infinity in a product. So `Decimals.Mul`, the compounding fold and the whole surface-rate calculation return a `Result`.
- **The trading fee** is a parameter. The trader's default is `0.002`, used in `Scenarios`.
- **Malformed symbols.** The tuple unpacking `a_base, a_quote = pair.split('-')` raises `ValueError` on a symbol without exactly one `-`. This is modelled as `Err(MalformedMarketSymbol(s))`. The loops split `pair_a`, then every `pair_b` (and every `pair_c`) in list order, so the error always names the first malformed symbol of the list.
- **Loop state across directions.** The reverse branch of `cal_triangular_arb_surface_rate` has no `else`. When neither reverse branch applies, `swap_2_rate`, `contract_2`, … keep the values the forward iteration left in them. `SurfaceRate.ReverseLegs` takes those forward legs as an argument for that reason.
- **Missing quotes can raise.** A market missing from the snapshot reads as an infinite ask and a zero bid, which are the `.get` defaults. These defaults are not always harmless. A zero ask read as `1/ask` gives an infinite rate. If that meets a zero rate or a fee of one in the same direction, the code raises `InvalidOperation` (`SurfaceRate.SurfaceRatesFailsIff`, `Scenarios.ZeroAskAndMissingMarketRaise`). The model follows the code here, not the intent that missing quotes degrade to a zero rate.

## Model

| member | source | states |
|---|---|---|
| Text.SplitDash | index.py:79 | `split('-')` yields one more part than there are dashes, no part contains a dash, and joining the parts with `-` gives back the input |
| Text.SplitJoin | index.py:79 | splitting the `-`-join of dash-free parts gives back exactly those parts |
| Text.LexLeTotal | index.py:103 | Python's string order, used by `sorted`, relates any two strings |
| Text.LexLeAntisymmetric | index.py:103 | two strings each at most the other are equal |
| Text.LexLeTransitive | index.py:103 | the string order is transitive |
| Text.Sort3Canonical | index.py:103 | `sorted` of three strings is the same list exactly when the two triples are the same multiset |
| Markets.ParseMarket | index.py:79-80 | unpacking succeeds exactly when the symbol has one dash; the two halves are then dash-free and print back to the symbol; otherwise the error names the symbol |
| Markets.ParseSymbol | index.py:79-80 | printing a well-formed market and splitting it again gives the same market |
| Markets.SymbolInjective | index.py:88-95 | for well-formed markets, comparing symbols (`pair_b != pair_a`) is comparing markets |
| Markets.ParseAll | index.py:78-93 | on failure the error names the first malformed symbol of the list; on success there is one market per symbol, each parsed from it |
| Markets.ParseAllFailsIffMalformed | index.py:78-93 | The symbol list fails to parse exactly when some symbol does not contain exactly one `-`. |
| Markets.ParseAllSymbols | index.py:78-93 | parsing the symbols of well-formed markets gives back those markets |
| Markets.CollectTradeables | index.py:70-71 | one symbol per feed entry, in feed order, each the entry's market; `PriceSnapshot.CollectedIsQuoted` and `PriceSnapshot.BuiltCyclesFullyPriced` carry what callers rely on |
| Markets.FirstMalformed | index.py:78-93 | the position returned holds a malformed symbol and every earlier symbol splits |
| PriceSnapshot.CollectedIsQuoted | index.py:70-71 | every symbol `collect_tradeables` returns is the market of some entry of the feed |
| PriceSnapshot.BuiltCyclesFullyPriced | index.py:70-71 | every cycle built from the collected symbols of a feed has both price keys of all three markets in that feed's snapshot |
| Closure.ClosureIsTriangle | index.py:89-101 | the pre-filter plus `counts == 2` condition accepts exactly the six names in which every currency occurs twice and no market trades a currency against itself |
| Closure.TriangleHasThreeCurrencies | index.py:97-101 | an accepted cycle names exactly three distinct currencies |
| Closure.TriangleSharesOne | index.py:89 | in a triangle pair_b shares exactly one currency with pair_a |
| Closure.TriangleDistinctMarkets | index.py:88-95 | the three markets of a triangle are pairwise different markets |
| Dedup.ScanFacts | index.py:103-118 | the remembered keys are the keys of the kept elements, pairwise distinct; every kept element was accepted; every accepted element's key is remembered |
| Dedup.ScanIsRepresentatives | index.py:103-118 | the scan keeps exactly the accepted elements whose key no earlier accepted element has, in order |
| Dedup.RepresentativesAreFirst | index.py:103-118 | each kept element sits at a position where it is the first accepted one of its key |
| CycleBuilder.BuildWith | index.py:73-119 | the builder, parameterised by the dedup key; its contracts are `BuildFailsIffMalformed`, `BuildSound`, `BuildKeepsFirstOfKey`, `BuildEmitsEarliest`, `BuildKeysDistinct` and `BuildComplete` below |
| CycleBuilder.StructureTriangularPairs | index.py:73-119 | `structure_triangular_pairs` as written, the builder with the joined key; the `Build…` lemmas below state its contract, and `KeyCollision.JoinedDropsCycle` its flaw |
| CycleBuilder.LoopOrderSortedAndComplete | index.py:78-95 | the three loops visit every position triple below the list length, once each, in lexicographic order |
| CycleBuilder.AcceptedIffTriangle | index.py:88-101 | for well-formed markets the distinctness, pre-filter and count conditions accept exactly the triangles |
| CycleBuilder.BuildFailsIffMalformed | index.py:78-93 | the builder fails exactly when a symbol is malformed, naming the first one |
| CycleBuilder.BuildSound | index.py:96-117 | every emitted dictionary has three distinct input symbols, fields equal to their halves, `combined` the comma join, and a triangle of currencies |
| CycleBuilder.BuildKeepsFirstOfKey | index.py:102-118 | the output is, in loop order, the record of the first accepted triple of each dedup key and nothing else |
| CycleBuilder.BuildEmitsEarliest | index.py:102-118 | every emitted dictionary comes from an accepted triple with no earlier accepted triple of the same key |
| CycleBuilder.BuildKeysDistinct | index.py:103-118 | no two emitted dictionaries share a dedup key |
| CycleBuilder.BuildComplete | index.py:95-118 | every accepted position triple has its dedup key represented in the output |
| CycleBuilder.PrecededNotEmitted | index.py:103-104 | a cycle is never emitted when an earlier accepted triple has its key and none of its symbols comes at or before that triple's first position |
| CycleBuilder.ListedKeyIsPairSet | index.py:103 | with the sorted symbols kept apart, two keys are equal exactly when the symbol multisets are |
| CycleBuilder.ListedNoRepeatedCycle | index.py:103-118 | with that key no set of three markets is emitted twice |
| CycleBuilder.ListedComplete | index.py:103-118 | with that key every accepted position triple is emitted, as a set of markets |
| Chaining.EmittedCyclesValid | index.py:88-101 | every emitted dictionary has three distinct markets forming a triangle |
| PriceSnapshot.GetPriceForTPair | index.py:121-132 | the snapshot after the feed, in order; `SnapshotKeysBelongToCycle`, `UnquotedMarketAbsent`, `LastEntryWins`, `SnapshotCoversQuotedMarkets` and `OtherMarketsIgnored` below state its contract |
| PriceSnapshot.AskKeyInjective | index.py:129 | two markets' ask keys are equal exactly when the markets are |
| PriceSnapshot.AskKeyNotBidKey | index.py:129-130 | an ask key never equals a bid key |
| PriceSnapshot.SnapshotKeysBelongToCycle | index.py:126-130 | every snapshot key is the `_ask` or `_bid` key of one of the cycle's three markets that the feed quotes |
| PriceSnapshot.UnquotedMarketAbsent | index.py:127-130 | a market no feed entry quotes has neither key |
| PriceSnapshot.LastEntryWins | index.py:127-130 | a quoted market's keys hold the ask and bid of its last feed entry |
| PriceSnapshot.SnapshotCoversQuotedMarkets | index.py:127-130 | a cycle market has its ask key exactly when it has its bid key, exactly when the feed quotes it |
| PriceSnapshot.OtherMarketsIgnored | index.py:128 | appending entries for markets outside the cycle leaves the snapshot unchanged |
| Decimals.SafeDivide | index.py:134-135 | the result is positive infinity, and infinite at all, exactly when the denominator is zero; for a finite non-zero denominator it is the finite value whose product with the denominator is the numerator, that is `n / d`; an infinite denominator gives zero |
| Decimals.Mul | index.py:235 | a Decimal product raises exactly when a zero meets an infinity; otherwise its sign is the product of signs, it is infinite iff a factor is, and zero iff a factor is |
| Decimals.Compound | index.py:233-235 | the `final_amount *= swap_rate * (1 - fee)` loop; `CompoundFailsIff` and `CompoundFinite` below state its contract |
| Decimals.ArbitrageRate | index.py:233-237 | `arbitrage_rate`; `ArbitrageRateFailsIff`, `ArbitrageRateFinite`, `ZeroFeeIdentity` and `FeeStrictlyDecreasing` below state its contract |
| Decimals.CompoundFailsIff | index.py:233-235 | the fold raises exactly when an infinity and a zero factor both enter it; otherwise it is infinite exactly when an infinity entered and zero exactly when a zero did |
| Decimals.CompoundFinite | index.py:233-235 | with finite rates the fold leaves the product of the rates times the kept fraction cubed |
| Decimals.ArbitrageRateFinite | index.py:233-237 | with finite rates `arbitrage_rate` is the product of `rate * (1 - fee)` over the three swaps, minus one |
| Decimals.ZeroFeeIdentity | index.py:233-237 | with no fee it is the plain product of the three rates minus one |
| Decimals.FeeStrictlyDecreasing | index.py:233-237 | for positive rates and fees in [0, 1) a higher fee gives a strictly lower rate |
| Decimals.ArbitrageRateFailsIff | index.py:233-237 | the rate raises exactly when some rate is infinite and some rate is zero or the fee is one; when it does not raise it is infinite exactly when some rate is |
| SurfaceRate.DetermineSwapDetails | index.py:137-141 | forward trades base for quote at `1/ask` (`base_to_quote`); reverse trades quote for base at the bid (`quote_to_base`) |
| SurfaceRate.AskOf | index.py:155-156 | `prices_dict.get(m + '_ask', Decimal('Infinity'))`; `RateInfiniteIff` and `MissingMarketRateZero` below state what the default means for a rate |
| SurfaceRate.BidOf | index.py:155-156 | `prices_dict.get(m + '_bid', Decimal('0'))`; `MissingMarketRateZero` and `QuotedMarketRate` below state its contract |
| SurfaceRate.RateInfiniteIff | index.py:155-156 | a rate read from the snapshot is infinite exactly when a present ask of zero is read as `1/ask` |
| SurfaceRate.MissingMarketRateZero | index.py:155-156 | a market missing from the snapshot contributes rate zero, whichever side is traded |
| SurfaceRate.UnquotedMarketRateZero | index.py:155-156 | a cycle market the feed never quotes contributes rate zero |
| SurfaceRate.QuotedMarketRate | index.py:129-130 | a quoted market's rate is read from its last feed entry |
| SurfaceRate.ForwardLegs | index.py:163-202 | forward's second and third swaps are on pair_b and pair_c, each at the rate its trade kind reads from that market |
| SurfaceRate.ReverseLegs | index.py:204-230 | when a_base is in pair_b, reverse's swaps are on pair_b and pair_c at their own rates; otherwise they are forward's swaps unchanged |
| SurfaceRate.SurfaceFor | index.py:232-244 | an entry raises exactly when an infinite swap rate meets a zero swap rate or a fee of one; otherwise it records the three swaps, its `arbitrage_rate` is infinite exactly when a swap rate is, and with finite swap rates it is their product with `1 - fee` charged on each, minus one |
| SurfaceRate.SurfaceRates | index.py:143-246 | a successful result has exactly the keys forward and reverse |
| SurfaceRate.SurfaceRatesFailsIff | index.py:143-246 | the calculation raises exactly when, in some direction, an infinite rate meets a zero rate or a fee of one |
| SurfaceRate.NoZeroAskNoError | index.py:143-246 | with no zero ask on the cycle's markets, nothing raises |
| SurfaceRate.NoZeroAskRates | index.py:233-244 | with no zero ask each direction's rates are finite and its `arbitrage_rate` is their fee-charged product minus one |
| SurfaceRate.AcquiredCoinRaisesOnlyWithRate | index.py:160 | `acquired_coin_t1` raises only when the same direction's compounding raises too |
| SurfaceRate.AcquiredCoinFirstProduct | index.py:160 | `acquired_coin_t1`'s first product never raises |
| Chaining.ForwardChainsIff | index.py:163-202 | forward is a round trip exactly when pair_b contains a_quote |
| Chaining.ReverseChainsIff | index.py:204-230 | reverse is a round trip exactly when pair_b contains a_base |
| Chaining.ExactlyOneDirectionChains | index.py:163-230 | on every cycle exactly one direction is a round trip; reverse falls through to forward's swaps exactly when pair_b contains a_quote |
| Chaining.ChainedLegsChain | index.py:163-230 | with each swap oriented by the coin held, both directions of every cycle are round trips |
| Chaining.TriangleRoute | index.py:163-230 | in a triangle, the market trading the coin held after pair_a leads to a coin the remaining market trades back into the first coin |
| Chaining.ChainedAgreesWhereWrittenChains | index.py:163-230 | where the written dispatch chains, the oriented swaps are the written ones |
| Chaining.SurfaceRatesChained | index.py:143-246 | the corrected calculation's successful result has exactly the keys forward and reverse |
| Chaining.SurfaceRatesChainedChains | index.py:143-246 | every entry of the corrected calculation is a round trip |
| Chaining.SurfaceRatesChainedAgrees | index.py:143-246 | on the direction that chains as written, the corrected entry equals the written one |
| KeyCollision.JoinedKeysCollide | index.py:103-104 | {A-B, BB-A, BB-B} and {A-BB, B-A, BB-B} are both accepted cycles with the same joined key |
| KeyCollision.JoinedDropsCycle | index.py:103-104 | on the symbols A-B, BB-A, BB-B, A-BB, B-A the builder as written never emits {A-BB, B-A, BB-B} |
| KeyCollision.ListedKeepsBothCycles | index.py:103-104 | with the symbols kept apart in the key, both cycles are emitted |
| Scenarios.ExampleForwardRate | index.py:143-246 | on BTC-EUR, ETH-EUR, ETH-BTC with the sample quotes and fee 0.002, forward's rate is finite, between -0.8% and -0.7% |
| Scenarios.ExampleReverseRate | index.py:204-237 | on the same cycle reverse falls through and reports a rate above one billion |
| Scenarios.ExampleReverseSwaps | index.py:204-230 | reverse's first rate is BTC-EUR's bid and its other two swaps are forward's |
| Scenarios.ExampleChaining | index.py:163-230 | on that cycle forward is a round trip and reverse is not |
| Scenarios.ExampleChainedReverse | index.py:163-230 | oriented by the coin held, reverse trades ETH-BTC at its bid and then ETH-EUR at `1/ask` |
| Scenarios.ZeroAskAndMissingMarketRaise | index.py:143-237 | a zero ask on BTC-EUR with ETH-EUR unquoted makes the calculation raise |

## Left out

- HTTP requests, request signing, the order-book and ticker endpoints: these are I/O. The ticker feed is a parameter (`seq<Ticker>`).
- The constructor: the trading fee is a parameter of every calculation; the default `0.002` appears in `Scenarios.DefaultFee`.
- The `__main__` driver: it only wires the calls together and prints.
- Decimal precision 10 and rounding: values are exact reals, so the model's rates are the exact values the rounded Decimal computation approximates.
- Parsing the decimal strings of the feed: a ticker entry holds already-parsed finite `real` ask and bid; feed strings such as `"NaN"` or `"Infinity"` are not modelled.
- `acquired_coin_t1` (index.py:160): computed and never used. `SurfaceRate.AcquiredCoinRaisesOnlyWithRate` shows it cannot raise unless the same direction's compounding raises, so leaving it out changes no outcome.
- Dictionary representation: an emitted cycle is a datatype with the ten fields of the source's dictionary, and a surface entry is a datatype with the `swap_1`, `swap_2`, `swap_3` and `arbitrage_rate` fields; the string keys of those dictionaries are not modelled.
- Which way a swap turns money: `base_to_quote` at `1/ask` is taken at its word (it gives the base and obtains the quote), as the first swap's coin tuple says; the round-trip analysis in `Chaining` rests on that naming.

## Findings

| source | as written | input that shows it | evidently intended | confidence | as-written member | corrected member |
|---|---|---|---|---|---|---|
| index.py:103-104 | the dedup key joins the three sorted symbols with no separator, so two different cycles can share a key and the later one is dropped | symbols `A-B, BB-A, BB-B, A-BB, B-A`: {A-B, BB-A, BB-B} and {A-BB, B-A, BB-B} both have key `A-BBB-ABB-B` | each set of three markets is emitted once, and every cycle is emitted | high, not executed | KeyCollision.JoinedDropsCycle | KeyCollision.ListedKeepsBothCycles |
| index.py:163-230 | the second swap is always on pair_b, chosen by comparing pair_a's currencies with pair_b's, so in every cycle one direction's swaps do not form a round trip; reverse, lacking an `else`, then reuses forward's swaps | cycle BTC-EUR, ETH-EUR, ETH-BTC with asks 50000, 3000, 0.06 and bids 49990, 2995, 0.0598: reverse reports an `arbitrage_rate` above one billion | each direction trades the coin it holds, visiting pair_b and pair_c in whichever order that coin dictates | medium, not executed | Chaining.ExactlyOneDirectionChains | Chaining.SurfaceRatesChainedChains |
