/**
 The trader's data model: a market symbol "BASE-QUOTE" and the two currencies
 it splits into, one ticker line of the price feed, and the dictionary the
 cycle builder emits for each triangular cycle.
 */
module Markets {
  import opened Results
  import opened Text

  /** A market, as the two halves of `symbol.split('-')`. */
  datatype Market = Market(base: string, quote: string)

  /** The symbol a well-formed market was read from: `base + '-' + quote`. */
  function Symbol(m: Market): string
  {
    m.base + "-" + m.quote
  }

  predicate WellFormed(m: Market)
  {
    DashFree(m.base) && DashFree(m.quote)
  }

  /** The `ValueError` raised by `a_base, a_quote = pair_a.split('-')` on a symbol without exactly one dash. */
  datatype BuildError = MalformedMarketSymbol(symbol: string)

  /** One entry of the ticker feed; `ask` and `bid` already parsed. */
  datatype Ticker = Ticker(market: string, ask: real, bid: real)

  /** The dictionary `structure_triangular_pairs` emits for one cycle. */
  datatype Cycle = Cycle(
    aBase: string, bBase: string, cBase: string,
    aQuote: string, bQuote: string, cQuote: string,
    pairA: string, pairB: string, pairC: string,
    combined: string)

  /** Unpacking `symbol.split('-')` into two names. */
  function ParseMarket(symbol: string): (r: Result<Market, BuildError>)
    ensures r.Ok? <==> Splittable(symbol)
    ensures r.Ok? ==> WellFormed(r.value) && Symbol(r.value) == symbol
    ensures r.Err? ==> r.error == MalformedMarketSymbol(symbol)
  {
    var parts := SplitDash(symbol);
    if |parts| == 2 then
      assert JoinDash(parts) == parts[0] + "-" + JoinDash(parts[1..]);
      Ok(Market(parts[0], parts[1]))
    else
      Err(MalformedMarketSymbol(symbol))
  }

  /** Printing a well-formed market and reading it back gives the same market. */
  lemma ParseSymbol(m: Market)
    requires WellFormed(m)
    ensures ParseMarket(Symbol(m)) == Ok(m)
  {
    SplitJoin([m.base, m.quote]);
    assert JoinDash([m.base, m.quote]) == Symbol(m);
  }

  /** Distinct well-formed markets have distinct symbols, so comparing symbols compares markets. */
  lemma SymbolInjective(m: Market, n: Market)
    requires WellFormed(m) && WellFormed(n)
    ensures Symbol(m) == Symbol(n) <==> m == n
  {
    if Symbol(m) == Symbol(n) {
      ParseSymbol(m);
      ParseSymbol(n);
    }
  }

  /** A symbol the builder can unpack: exactly one '-'. */
  predicate Splittable(symbol: string)
  {
    multiset(symbol)['-'] == 1
  }

  /** Position of the first symbol that cannot be unpacked, or the length of the list. */
  function FirstMalformed(symbols: seq<string>): (i: nat)
    ensures i <= |symbols|
    ensures i < |symbols| ==> !Splittable(symbols[i])
    ensures forall j :: 0 <= j < i ==> Splittable(symbols[j])
  {
    if |symbols| == 0 then 0
    else if !Splittable(symbols[0]) then 0
    else
      var k := FirstMalformed(symbols[1..]);
      assert forall j :: 1 <= j < k + 1 ==> symbols[j] == symbols[1..][j - 1];
      k + 1
  }

  /**
   Splitting every symbol of the list, in list order. The builder splits
   `pair_a` (the first symbol) and then every `pair_b` before anything else
   can fail, so its exception always names the first malformed symbol.
   */
  function ParseAll(symbols: seq<string>): (r: Result<seq<Market>, BuildError>)
    ensures r.Ok? ==> |r.value| == |symbols|
    ensures r.Ok? ==> forall i :: 0 <= i < |symbols| ==> ParseMarket(symbols[i]) == Ok(r.value[i])
    ensures r.Err? ==> FirstMalformed(symbols) < |symbols|
                       && r.error == MalformedMarketSymbol(symbols[FirstMalformed(symbols)])
  {
    if |symbols| == 0 then Ok([])
    else
      var head := ParseMarket(symbols[0]);
      if head.Err? then
        Err(head.error)
      else
        var tail := ParseAll(symbols[1..]);
        if tail.Err? then
          FirstMalformedStep(symbols);
          Err(tail.error)
        else
          ParsedCons(symbols, head.value, tail.value);
          Ok([head.value] + tail.value)
  }

  /** Past a splittable head, the first malformed symbol is the tail's, one position on. */
  lemma FirstMalformedStep(symbols: seq<string>)
    requires |symbols| > 0 && Splittable(symbols[0])
    ensures FirstMalformed(symbols) == FirstMalformed(symbols[1..]) + 1
    ensures FirstMalformed(symbols) < |symbols| ==> symbols[FirstMalformed(symbols)] == symbols[1..][FirstMalformed(symbols[1..])]
  {
  }

  lemma ParsedCons(symbols: seq<string>, head: Market, tail: seq<Market>)
    requires |symbols| > 0 && ParseMarket(symbols[0]) == Ok(head)
    requires |tail| == |symbols| - 1
    requires forall i :: 0 <= i < |tail| ==> ParseMarket(symbols[1..][i]) == Ok(tail[i])
    ensures forall i :: 0 <= i < |symbols| ==> ParseMarket(symbols[i]) == Ok(([head] + tail)[i])
  {
    var all := [head] + tail;
    forall i | 0 <= i < |symbols|
      ensures ParseMarket(symbols[i]) == Ok(all[i])
    {
      if i > 0 {
        assert symbols[i] == symbols[1..][i - 1] && all[i] == tail[i - 1];
      }
    }
  }

  /** The list fails to parse exactly when one of its symbols is malformed: nothing is skipped. */
  lemma ParseAllFailsIffMalformed(symbols: seq<string>)
    ensures ParseAll(symbols).Err? <==> exists i :: 0 <= i < |symbols| && !Splittable(symbols[i])
  {
    if ParseAll(symbols).Ok? {
      forall i | 0 <= i < |symbols|
        ensures Splittable(symbols[i])
      {
        assert ParseMarket(symbols[i]).Ok?;
      }
    }
  }

  /** The symbols of a list of well-formed markets. */
  function Symbols(ms: seq<Market>): (symbols: seq<string>)
    ensures |symbols| == |ms|
    ensures forall i :: 0 <= i < |ms| ==> symbols[i] == Symbol(ms[i])
  {
    seq(|ms|, i requires 0 <= i < |ms| => Symbol(ms[i]))
  }

  /** Printing a list of well-formed markets and parsing it back gives the same list. */
  lemma {:induction false} ParseAllSymbols(ms: seq<Market>)
    requires forall i :: 0 <= i < |ms| ==> WellFormed(ms[i])
    ensures ParseAll(Symbols(ms)) == Ok(ms)
    decreases |ms|
  {
    if |ms| > 0 {
      var ss := Symbols(ms);
      assert ss[0] == Symbol(ms[0]) && ss[1..] == Symbols(ms[1..]);
      ParseSymbol(ms[0]);
      ParseAllSymbols(ms[1..]);
      assert ParseAll(ss) == Ok([ms[0]] + ms[1..]);
      assert ms == [ms[0]] + ms[1..];
    }
  }

  /** `collect_tradeables`: the market symbol of every feed entry, in feed order. */
  function CollectTradeables(feed: seq<Ticker>): (symbols: seq<string>)
    ensures |symbols| == |feed|
    ensures forall i :: 0 <= i < |feed| ==> symbols[i] == feed[i].market
  {
    seq(|feed|, i requires 0 <= i < |feed| => feed[i].market)
  }
}
