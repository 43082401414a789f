/**
 `structure_triangular_pairs`: three nested loops over the market list pick
 pair_a, pair_b and pair_c; a triple that passes the distinctness,
 pre-filter and closure tests is emitted unless a triple with the same dedup
 key was emitted before.
 */
module CycleBuilder {
  import opened Results
  import opened Text
  import opened Markets
  import opened Closure
  import opened Dedup

  // ---------------------------------------------------------------------
  // Loop order

  /** The positions of pair_a, pair_b and pair_c in the market list at one iteration. */
  datatype Pick = Pick(i: nat, j: nat, k: nat)

  /** Strictly earlier in the nested loops: pair_a's position first, then pair_b's, then pair_c's. */
  predicate PickBefore(p: Pick, q: Pick)
  {
    p.i < q.i || (p.i == q.i && (p.j < q.j || (p.j == q.j && p.k < q.k)))
  }

  predicate SortedPicks(ps: seq<Pick>)
  {
    forall x, y :: 0 <= x < y < |ps| ==> PickBefore(ps[x], ps[y])
  }

  /** The innermost loop: pair_c runs over positions `0 .. n-1`. */
  function InnerLoop(i: nat, j: nat, n: nat): (ps: seq<Pick>)
    ensures |ps| == n
    ensures forall x :: 0 <= x < n ==> ps[x] == Pick(i, j, x)
  {
    if n == 0 then [] else InnerLoop(i, j, n - 1) + [Pick(i, j, n - 1)]
  }

  /** The middle loop: pair_b runs over positions `0 .. nb-1`, pair_c over `0 .. n-1` each time. */
  function MiddleLoop(i: nat, nb: nat, n: nat): seq<Pick>
  {
    if nb == 0 then [] else MiddleLoop(i, nb - 1, n) + InnerLoop(i, nb - 1, n)
  }

  /** The outer loop: pair_a runs over positions `0 .. na-1`. */
  function OuterLoop(na: nat, n: nat): seq<Pick>
  {
    if na == 0 then [] else OuterLoop(na - 1, n) + MiddleLoop(na - 1, n, n)
  }

  /** Every iteration of the three loops over a list of `n` markets, in execution order. */
  function LoopOrder(n: nat): (ps: seq<Pick>)
    ensures forall x :: 0 <= x < |ps| ==> ps[x].i < n && ps[x].j < n && ps[x].k < n
  {
    OuterLoopBounds(n, n);
    OuterLoop(n, n)
  }

  /** The picks of one pass of the middle loop. */
  predicate MiddleBounded(ps: seq<Pick>, i: nat, nb: nat, n: nat)
  {
    forall x :: 0 <= x < |ps| ==> ps[x].i == i && ps[x].j < nb && ps[x].k < n
  }

  lemma {:induction false} MiddleLoopBounds(i: nat, nb: nat, n: nat)
    ensures MiddleBounded(MiddleLoop(i, nb, n), i, nb, n)
    decreases nb
  {
    if nb > 0 {
      MiddleLoopBounds(i, nb - 1, n);
      MiddleStepBounded(i, nb, n);
    }
  }

  lemma MiddleStepBounded(i: nat, nb: nat, n: nat)
    requires 0 < nb && MiddleBounded(MiddleLoop(i, nb - 1, n), i, nb - 1, n)
    ensures MiddleBounded(MiddleLoop(i, nb, n), i, nb, n)
  {
    MiddleBoundedAppend(MiddleLoop(i, nb - 1, n), InnerLoop(i, nb - 1, n), i, nb, n);
    assert MiddleLoop(i, nb, n) == MiddleLoop(i, nb - 1, n) + InnerLoop(i, nb - 1, n);
  }

  lemma MiddleBoundedAppend(prev: seq<Pick>, inner: seq<Pick>, i: nat, nb: nat, n: nat)
    requires 0 < nb && MiddleBounded(prev, i, nb - 1, n) && inner == InnerLoop(i, nb - 1, n)
    ensures MiddleBounded(prev + inner, i, nb, n)
  {
    forall x | 0 <= x < |prev + inner|
      ensures (prev + inner)[x].i == i && (prev + inner)[x].j < nb && (prev + inner)[x].k < n
    {
      if x < |prev| {
        assert (prev + inner)[x] == prev[x];
      } else {
        assert (prev + inner)[x] == inner[x - |prev|];
      }
    }
  }

  /** The picks of a run of the outer loop. */
  predicate OuterBounded(ps: seq<Pick>, na: nat, n: nat)
  {
    forall x :: 0 <= x < |ps| ==> ps[x].i < na && ps[x].j < n && ps[x].k < n
  }

  lemma {:induction false} OuterLoopBounds(na: nat, n: nat)
    ensures OuterBounded(OuterLoop(na, n), na, n)
    decreases na
  {
    if na > 0 {
      OuterLoopBounds(na - 1, n);
      OuterStepBounded(na, n);
    }
  }

  lemma OuterStepBounded(na: nat, n: nat)
    requires 0 < na && OuterBounded(OuterLoop(na - 1, n), na - 1, n)
    ensures OuterBounded(OuterLoop(na, n), na, n)
  {
    MiddleLoopBounds(na - 1, n, n);
    OuterBoundedAppend(OuterLoop(na - 1, n), MiddleLoop(na - 1, n, n), na, n);
    assert OuterLoop(na, n) == OuterLoop(na - 1, n) + MiddleLoop(na - 1, n, n);
  }

  lemma OuterBoundedAppend(prev: seq<Pick>, middle: seq<Pick>, na: nat, n: nat)
    requires 0 < na && OuterBounded(prev, na - 1, n) && MiddleBounded(middle, na - 1, n, n)
    ensures OuterBounded(prev + middle, na, n)
  {
    forall x | 0 <= x < |prev + middle|
      ensures (prev + middle)[x].i < na && (prev + middle)[x].j < n && (prev + middle)[x].k < n
    {
      if x < |prev| {
        assert (prev + middle)[x] == prev[x];
      } else {
        assert (prev + middle)[x] == middle[x - |prev|];
      }
    }
  }

  lemma SortedAppend(a: seq<Pick>, b: seq<Pick>)
    requires SortedPicks(a) && SortedPicks(b)
    requires forall x, y :: 0 <= x < |a| && 0 <= y < |b| ==> PickBefore(a[x], b[y])
    ensures SortedPicks(a + b)
  {
    var ab := a + b;
    forall x, y | 0 <= x < y < |ab|
      ensures PickBefore(ab[x], ab[y])
    {
      if y < |a| {
        assert ab[x] == a[x] && ab[y] == a[y];
      } else if x < |a| {
        assert ab[x] == a[x] && ab[y] == b[y - |a|];
      } else {
        assert ab[x] == b[x - |a|] && ab[y] == b[y - |a|];
      }
    }
  }

  lemma {:induction false} MiddleLoopSorted(i: nat, nb: nat, n: nat)
    ensures SortedPicks(MiddleLoop(i, nb, n))
    decreases nb
  {
    if nb > 0 {
      MiddleLoopSorted(i, nb - 1, n);
      MiddleStepSorted(i, nb, n);
    }
  }

  lemma {:induction false} OuterLoopSorted(na: nat, n: nat)
    ensures SortedPicks(OuterLoop(na, n))
    decreases na
  {
    if na > 0 {
      OuterLoopSorted(na - 1, n);
      OuterStepSorted(na, n);
    }
  }

  /** Earlier passes of the middle loop, then one more pass of the inner loop, stay sorted. */
  lemma MiddleStepSorted(i: nat, nb: nat, n: nat)
    requires 0 < nb && SortedPicks(MiddleLoop(i, nb - 1, n))
    ensures SortedPicks(MiddleLoop(i, nb, n))
  {
    var prev: seq<Pick>, inner: seq<Pick> := MiddleLoop(i, nb - 1, n), InnerLoop(i, nb - 1, n);
    MiddleLoopBounds(i, nb - 1, n);
    forall x, y | 0 <= x < |prev| && 0 <= y < |inner|
      ensures PickBefore(prev[x], inner[y])
    {
      assert prev[x].i == i && prev[x].j < nb - 1;
    }
    SortedAppend(prev, inner);
    assert MiddleLoop(i, nb, n) == prev + inner;
  }

  /** Earlier passes of the outer loop, then one more pass of the middle loop, stay sorted. */
  lemma OuterStepSorted(na: nat, n: nat)
    requires 0 < na && SortedPicks(OuterLoop(na - 1, n))
    ensures SortedPicks(OuterLoop(na, n))
  {
    var i := na - 1;
    MiddleLoopSorted(i, n, n);
    var prev: seq<Pick>, middle: seq<Pick> := OuterLoop(i, n), MiddleLoop(i, n, n);
    OuterLoopBounds(i, n);
    MiddleLoopBounds(i, n, n);
    forall x, y | 0 <= x < |prev| && 0 <= y < |middle|
      ensures PickBefore(prev[x], middle[y])
    {
      assert prev[x].i < i && middle[y].i == i;
    }
    SortedAppend(prev, middle);
    assert OuterLoop(na, n) == prev + middle;
  }

  /** Where the middle loop visits (i, j, k). */
  lemma {:induction false} MiddleLoopIndex(i: nat, nb: nat, n: nat, j: nat, k: nat) returns (x: nat)
    requires j < nb && k < n
    ensures x < |MiddleLoop(i, nb, n)| && MiddleLoop(i, nb, n)[x] == Pick(i, j, k)
    decreases nb
  {
    if j < nb - 1 {
      x := MiddleLoopIndex(i, nb - 1, n, j, k);
      MiddleKeepsPrefix(i, nb, n, x, Pick(i, j, k));
    } else {
      x := MiddleAppendsInner(i, nb, n, k);
    }
  }

  /** Another pass of the middle loop keeps the picks already made... */
  lemma MiddleKeepsPrefix(i: nat, nb: nat, n: nat, x: nat, p: Pick)
    requires 0 < nb && x < |MiddleLoop(i, nb - 1, n)| && MiddleLoop(i, nb - 1, n)[x] == p
    ensures x < |MiddleLoop(i, nb, n)| && MiddleLoop(i, nb, n)[x] == p
  {
    var prev, inner := MiddleLoop(i, nb - 1, n), InnerLoop(i, nb - 1, n);
    assert MiddleLoop(i, nb, n) == prev + inner;
    assert (prev + inner)[x] == prev[x];
  }

  /** ...and adds (i, nb - 1, k) for every position k of pair_c. */
  lemma MiddleAppendsInner(i: nat, nb: nat, n: nat, k: nat) returns (x: nat)
    requires 0 < nb && k < n
    ensures x < |MiddleLoop(i, nb, n)| && MiddleLoop(i, nb, n)[x] == Pick(i, nb - 1, k)
  {
    var prev, inner := MiddleLoop(i, nb - 1, n), InnerLoop(i, nb - 1, n);
    assert MiddleLoop(i, nb, n) == prev + inner;
    x := |prev| + k;
    assert (prev + inner)[x] == inner[k];
  }

  /** Where the outer loop visits `p`. */
  lemma {:induction false} OuterLoopIndex(na: nat, n: nat, p: Pick) returns (x: nat)
    requires p.i < na && p.j < n && p.k < n
    ensures x < |OuterLoop(na, n)| && OuterLoop(na, n)[x] == p
    decreases na
  {
    if p.i < na - 1 {
      x := OuterLoopIndex(na - 1, n, p);
      OuterKeepsPrefix(na, n, x, p);
    } else {
      x := OuterLastPassIndex(na, n, p);
    }
  }

  /** Where the last pass of the outer loop visits `p`. */
  lemma OuterLastPassIndex(na: nat, n: nat, p: Pick) returns (x: nat)
    requires p.i == na - 1 && 0 < na && p.j < n && p.k < n
    ensures x < |OuterLoop(na, n)| && OuterLoop(na, n)[x] == p
  {
    var y := MiddleLoopIndex(na - 1, n, n, p.j, p.k);
    x := OuterAppendsMiddle(na, n, y, p);
  }

  /** Another pass of the outer loop keeps the picks already made... */
  lemma OuterKeepsPrefix(na: nat, n: nat, x: nat, p: Pick)
    requires 0 < na && x < |OuterLoop(na - 1, n)| && OuterLoop(na - 1, n)[x] == p
    ensures x < |OuterLoop(na, n)| && OuterLoop(na, n)[x] == p
  {
    var prev, middle := OuterLoop(na - 1, n), MiddleLoop(na - 1, n, n);
    assert OuterLoop(na, n) == prev + middle;
    assert (prev + middle)[x] == prev[x];
  }

  /** ...and appends one pass of the middle loop. */
  lemma OuterAppendsMiddle(na: nat, n: nat, y: nat, p: Pick) returns (x: nat)
    requires 0 < na && y < |MiddleLoop(na - 1, n, n)| && MiddleLoop(na - 1, n, n)[y] == p
    ensures x < |OuterLoop(na, n)| && OuterLoop(na, n)[x] == p
  {
    var prev, middle := OuterLoop(na - 1, n), MiddleLoop(na - 1, n, n);
    assert OuterLoop(na, n) == prev + middle;
    x := |prev| + y;
    assert (prev + middle)[x] == middle[y];
  }

  /**
   The loops visit exactly the position triples below `n`, each once, in
   lexicographic order: pair_a's position changes slowest, pair_c's fastest.
   */
  lemma LoopOrderSortedAndComplete(n: nat)
    ensures SortedPicks(LoopOrder(n))
    ensures forall p :: p in LoopOrder(n) <==> p.i < n && p.j < n && p.k < n
  {
    OuterLoopSorted(n, n);
    forall p: Pick | p.i < n && p.j < n && p.k < n
      ensures p in LoopOrder(n)
    {
      var x := OuterLoopIndex(n, n, p);
    }
  }

  // ---------------------------------------------------------------------
  // One iteration

  /** The loop variables (pair_a, pair_b, pair_c), already split into currencies. */
  datatype Triple = Triple(a: Market, b: Market, c: Market)

  function TripleAt(ms: seq<Market>, p: Pick): Triple
    requires p.i < |ms| && p.j < |ms| && p.k < |ms|
  {
    Triple(ms[p.i], ms[p.j], ms[p.k])
  }

  /** The triples the innermost loop body sees, in execution order. */
  function Candidates(ms: seq<Market>): (ts: seq<Triple>)
    ensures |ts| == |LoopOrder(|ms|)|
    ensures forall x :: 0 <= x < |ts| ==> ts[x] == TripleAt(ms, LoopOrder(|ms|)[x])
  {
    var ps := LoopOrder(|ms|);
    seq(|ps|, x requires 0 <= x < |ps| => TripleAt(ms, ps[x]))
  }

  /** Every test an iteration applies before the dedup check, in the source's order. */
  predicate Accepted(t: Triple)
  {
    && Symbol(t.b) != Symbol(t.a)
    && SharesCurrency(t.a.base, t.a.quote, t.b.base, t.b.quote)
    && Symbol(t.c) != Symbol(t.a) && Symbol(t.c) != Symbol(t.b)
    && CountsClose(t.a.base, t.a.quote, t.b.base, t.b.quote, t.c.base, t.c.quote)
  }

  /** How three market symbols are turned into a dedup key. */
  datatype KeyScheme =
    | Joined  // `''.join(sorted(...))`, as the source does
    | Listed  // the sorted triple itself, the symbols kept apart

  function KeyOf(scheme: KeyScheme, x: string, y: string, z: string): seq<string>
  {
    var s := Sort3(x, y, z);
    match scheme
    case Joined => [s[0] + s[1] + s[2]]
    case Listed => s
  }

  /** `unique_item` of an iteration. */
  function KeyBy(scheme: KeyScheme): Triple -> seq<string>
  {
    (t: Triple) => KeyOf(scheme, Symbol(t.a), Symbol(t.b), Symbol(t.c))
  }

  /** The dictionary emitted for a kept triple. */
  function Record(t: Triple): Cycle
  {
    Cycle(t.a.base, t.b.base, t.c.base, t.a.quote, t.b.quote, t.c.quote,
          Symbol(t.a), Symbol(t.b), Symbol(t.c),
          Symbol(t.a) + "," + Symbol(t.b) + "," + Symbol(t.c))
  }

  function Records(ts: seq<Triple>): (rs: seq<Cycle>)
    ensures |rs| == |ts|
    ensures forall x :: 0 <= x < |ts| ==> rs[x] == Record(ts[x])
  {
    seq(|ts|, x requires 0 <= x < |ts| => Record(ts[x]))
  }

  function BuildWith(scheme: KeyScheme, symbols: seq<string>): Result<seq<Cycle>, BuildError>
  {
    var parsed := ParseAll(symbols);
    if parsed.Err? then Err(parsed.error)
    else Ok(Records(Scan(Accepted, KeyBy(scheme), Candidates(parsed.value)).found))
  }

  /** `structure_triangular_pairs`, as written. */
  function StructureTriangularPairs(symbols: seq<string>): Result<seq<Cycle>, BuildError>
  {
    BuildWith(Joined, symbols)
  }

  /** The builder with a dedup key that keeps the three symbols apart. */
  function StructureTriangularPairsListed(symbols: seq<string>): Result<seq<Cycle>, BuildError>
  {
    BuildWith(Listed, symbols)
  }

  // ---------------------------------------------------------------------
  // What the builder promises

  /** For well-formed markets the builder's tests accept exactly the triangles. */
  lemma AcceptedIffTriangle(t: Triple)
    requires WellFormed(t.a) && WellFormed(t.b) && WellFormed(t.c)
    ensures Accepted(t) <==> Triangle(t.a.base, t.a.quote, t.b.base, t.b.quote, t.c.base, t.c.quote)
  {
    ClosureIsTriangle(t.a.base, t.a.quote, t.b.base, t.b.quote, t.c.base, t.c.quote);
    if Triangle(t.a.base, t.a.quote, t.b.base, t.b.quote, t.c.base, t.c.quote) {
      TriangleDistinctMarkets(t.a.base, t.a.quote, t.b.base, t.b.quote, t.c.base, t.c.quote);
      SymbolInjective(t.a, t.b);
      SymbolInjective(t.a, t.c);
      SymbolInjective(t.b, t.c);
    }
  }

  /**
   An emitted dictionary: three distinct symbols of the input, each field the
   corresponding half of its symbol, `combined` the three symbols joined by
   commas, and the six currencies forming a triangle.
   */
  predicate SoundRecord(symbols: seq<string>, r: Cycle)
  {
    && r.pairA in symbols && r.pairB in symbols && r.pairC in symbols
    && r.pairA != r.pairB && r.pairA != r.pairC && r.pairB != r.pairC
    && ParseMarket(r.pairA) == Ok(Market(r.aBase, r.aQuote))
    && ParseMarket(r.pairB) == Ok(Market(r.bBase, r.bQuote))
    && ParseMarket(r.pairC) == Ok(Market(r.cBase, r.cQuote))
    && r.combined == r.pairA + "," + r.pairB + "," + r.pairC
    && Triangle(r.aBase, r.aQuote, r.bBase, r.bQuote, r.cBase, r.cQuote)
  }

  /** The market at a position of the parsed list prints as the symbol at that position. */
  lemma ParsedAt(symbols: seq<string>, ms: seq<Market>, i: nat)
    requires ParseAll(symbols) == Ok(ms) && i < |ms|
    ensures ParseMarket(symbols[i]) == Ok(ms[i]) && Symbol(ms[i]) == symbols[i] && symbols[i] in symbols
  {
  }

  /** Position by position, the markets print as the symbols. */
  predicate ParsedAs(symbols: seq<string>, ms: seq<Market>)
  {
    |ms| == |symbols| && forall i :: 0 <= i < |ms| ==> Symbol(ms[i]) == symbols[i]
  }

  lemma ParsedAsAll(symbols: seq<string>)
    requires ParseAll(symbols).Ok?
    ensures ParsedAs(symbols, ParseAll(symbols).value)
  {
    var ms := ParseAll(symbols).value;
    forall i | 0 <= i < |ms|
      ensures Symbol(ms[i]) == symbols[i]
    {
      ParsedAt(symbols, ms, i);
    }
  }

  /** The record and the dedup key of the triple at positions `p`, in terms of the input symbols. */
  lemma TripleAtSymbols(scheme: KeyScheme, symbols: seq<string>, ms: seq<Market>, p: Pick)
    requires ParsedAs(symbols, ms)
    requires p.i < |ms| && p.j < |ms| && p.k < |ms|
    ensures Record(TripleAt(ms, p)).pairA == symbols[p.i]
    ensures Record(TripleAt(ms, p)).pairB == symbols[p.j]
    ensures Record(TripleAt(ms, p)).pairC == symbols[p.k]
    ensures KeyBy(scheme)(TripleAt(ms, p)) == KeyOf(scheme, symbols[p.i], symbols[p.j], symbols[p.k])
    ensures PairSet(Record(TripleAt(ms, p))) == multiset{symbols[p.i], symbols[p.j], symbols[p.k]}
  {
  }

  lemma CandidateSound(symbols: seq<string>, ms: seq<Market>, t: Triple)
    requires ParseAll(symbols) == Ok(ms)
    requires t in Candidates(ms) && Accepted(t)
    ensures SoundRecord(symbols, Record(t))
  {
    var x :| 0 <= x < |Candidates(ms)| && Candidates(ms)[x] == t;
    var p := LoopOrder(|ms|)[x];
    ParsedAt(symbols, ms, p.i);
    ParsedAt(symbols, ms, p.j);
    ParsedAt(symbols, ms, p.k);
    ClosureImpliesTriangle(t.a.base, t.a.quote, t.b.base, t.b.quote, t.c.base, t.c.quote);
  }

  /** A list with a malformed symbol is an error naming the first one; nothing is skipped. */
  lemma BuildFailsIffMalformed(scheme: KeyScheme, symbols: seq<string>)
    ensures BuildWith(scheme, symbols).Err? <==> exists i :: 0 <= i < |symbols| && !Splittable(symbols[i])
    ensures BuildWith(scheme, symbols).Err? ==>
              BuildWith(scheme, symbols).error == MalformedMarketSymbol(symbols[FirstMalformed(symbols)])
  {
    ParseAllFailsIffMalformed(symbols);
  }

  /** Every emitted dictionary is sound. */
  lemma BuildSound(scheme: KeyScheme, symbols: seq<string>)
    requires BuildWith(scheme, symbols).Ok?
    ensures forall x :: 0 <= x < |BuildWith(scheme, symbols).value| ==>
              SoundRecord(symbols, BuildWith(scheme, symbols).value[x])
  {
    var ms := ParseAll(symbols).value;
    var ts := Candidates(ms);
    ScanFacts(Accepted, KeyBy(scheme), ts);
    var found := Scan(Accepted, KeyBy(scheme), ts).found;
    forall x | 0 <= x < |found|
      ensures SoundRecord(symbols, Record(found[x]))
    {
      CandidateSound(symbols, ms, found[x]);
    }
  }

  /**
   The builder emits, in loop order, the first accepted triple of every dedup
   key and nothing else.
   */
  lemma BuildKeepsFirstOfKey(scheme: KeyScheme, symbols: seq<string>)
    requires BuildWith(scheme, symbols).Ok?
    ensures BuildWith(scheme, symbols).value
            == Records(Representatives(Accepted, KeyBy(scheme), Candidates(ParseAll(symbols).value)))
  {
    ScanIsRepresentatives(Accepted, KeyBy(scheme), Candidates(ParseAll(symbols).value));
  }

  /**
   The dictionary `r` is the record of the accepted triple at positions `p`,
   and no accepted triple at earlier positions has the same dedup key.
   */
  ghost predicate EmittedFrom(scheme: KeyScheme, ms: seq<Market>, r: Cycle, p: Pick)
  {
    && p.i < |ms| && p.j < |ms| && p.k < |ms|
    && Accepted(TripleAt(ms, p)) && r == Record(TripleAt(ms, p))
    && forall q: Pick :: q.i < |ms| && q.j < |ms| && q.k < |ms| && PickBefore(q, p) && Accepted(TripleAt(ms, q)) ==>
         KeyBy(scheme)(TripleAt(ms, q)) != KeyBy(scheme)(TripleAt(ms, p))
  }

  ghost predicate EmittedFromEarliest(scheme: KeyScheme, ms: seq<Market>, r: Cycle)
  {
    exists p :: EmittedFrom(scheme, ms, r, p)
  }

  /** A position earlier in loop order than position `y` sits earlier in the candidate list. */
  lemma EarlierPickEarlierIndex(n: nat, y: nat, q: Pick)
    requires y < |LoopOrder(n)|
    requires q.i < n && q.j < n && q.k < n && PickBefore(q, LoopOrder(n)[y])
    ensures exists z :: 0 <= z < y && LoopOrder(n)[z] == q
  {
    LoopOrderSortedAndComplete(n);
    var z :| 0 <= z < |LoopOrder(n)| && LoopOrder(n)[z] == q;
    SortedIndexOrder(LoopOrder(n), z, y);
  }

  /** In a sorted list, an earlier pick sits at an earlier index. */
  lemma SortedIndexOrder(ps: seq<Pick>, a: nat, b: nat)
    requires SortedPicks(ps) && a < |ps| && b < |ps|
    requires PickBefore(ps[a], ps[b])
    ensures a < b
  {
  }

  /** The candidate at a first-of-its-key position is emitted from that position. */
  lemma FirstOfKeyEmittedFrom(scheme: KeyScheme, ms: seq<Market>, y: int)
    requires FirstOfKey(Accepted, KeyBy(scheme), Candidates(ms), y)
    ensures EmittedFrom(scheme, ms, Record(Candidates(ms)[y]), LoopOrder(|ms|)[y])
  {
    var ts := Candidates(ms);
    var p := LoopOrder(|ms|)[y];
    forall q: Pick | q.i < |ms| && q.j < |ms| && q.k < |ms| && PickBefore(q, p) && Accepted(TripleAt(ms, q))
      ensures KeyBy(scheme)(TripleAt(ms, q)) != KeyBy(scheme)(TripleAt(ms, p))
    {
      EarlierPickEarlierIndex(|ms|, y, q);
      var z :| 0 <= z < y && LoopOrder(|ms|)[z] == q;
      assert ts[z] == TripleAt(ms, q);
    }
  }

  /**
   Every emitted dictionary is the record of an accepted triple that comes
   first, in loop order, among the accepted triples with its dedup key.
   */
  lemma BuildEmitsEarliest(scheme: KeyScheme, symbols: seq<string>)
    requires BuildWith(scheme, symbols).Ok?
    ensures forall x :: 0 <= x < |BuildWith(scheme, symbols).value| ==>
              EmittedFromEarliest(scheme, ParseAll(symbols).value, BuildWith(scheme, symbols).value[x])
  {
    forall x | 0 <= x < |BuildWith(scheme, symbols).value|
      ensures EmittedFromEarliest(scheme, ParseAll(symbols).value, BuildWith(scheme, symbols).value[x])
    {
      EmittedAt(scheme, symbols, x);
    }
  }

  /** The `x`-th emitted dictionary is the record of a first-of-its-key candidate. */
  lemma EmittedAt(scheme: KeyScheme, symbols: seq<string>, x: int)
    requires BuildWith(scheme, symbols).Ok? && 0 <= x < |BuildWith(scheme, symbols).value|
    ensures EmittedFromEarliest(scheme, ParseAll(symbols).value, BuildWith(scheme, symbols).value[x])
  {
    var ts := Candidates(ParseAll(symbols).value);
    var reps := Representatives(Accepted, KeyBy(scheme), ts);
    BuildKeepsFirstOfKey(scheme, symbols);
    RepresentativesAreFirst(Accepted, KeyBy(scheme), ts);
    assert BuildWith(scheme, symbols).value[x] == Record(reps[x]);
    RepresentativeEmitted(scheme, ParseAll(symbols).value, reps[x]);
  }

  /** A candidate that comes first among the accepted ones with its key is emitted from its own position. */
  lemma RepresentativeEmitted(scheme: KeyScheme, ms: seq<Market>, t: Triple)
    requires FirstOfItsKey(Accepted, KeyBy(scheme), Candidates(ms), t)
    ensures EmittedFromEarliest(scheme, ms, Record(t))
  {
    var y :| FirstOfKey(Accepted, KeyBy(scheme), Candidates(ms), y) && Candidates(ms)[y] == t;
    FirstOfKeyEmittedFrom(scheme, ms, y);
  }

  /**
   The cycle on symbols x, y, z is not emitted when an accepted triple with
   the same dedup key starts at position q.i and none of x, y, z occurs at or
   before that position: every triple naming x, y, z comes later in loop order.
   */
  lemma PrecededNotEmitted(scheme: KeyScheme, symbols: seq<string>, q: Pick, x: string, y: string, z: string)
    requires BuildWith(scheme, symbols).Ok?
    requires q.i < |symbols| && q.j < |symbols| && q.k < |symbols|
    requires Accepted(TripleAt(ParseAll(symbols).value, q))
    requires KeyOf(scheme, symbols[q.i], symbols[q.j], symbols[q.k]) == KeyOf(scheme, x, y, z)
    requires forall t :: 0 <= t <= q.i ==> symbols[t] != x && symbols[t] != y && symbols[t] != z
    ensures forall n :: 0 <= n < |BuildWith(scheme, symbols).value| ==>
              PairSet(BuildWith(scheme, symbols).value[n]) != multiset{x, y, z}
  {
    var ms := ParseAll(symbols).value;
    var recs := BuildWith(scheme, symbols).value;
    ParsedAsAll(symbols);
    forall n | 0 <= n < |recs|
      ensures PairSet(recs[n]) != multiset{x, y, z}
    {
      EmittedAt(scheme, symbols, n);
      var p := EmittedPick(scheme, ms, recs[n], q);
      EarliestNotNamed(scheme, symbols, ms, q, x, y, z, recs[n], p);
    }
  }

  /** The same, for one dictionary emitted from positions p. */
  lemma EarliestNotNamed(scheme: KeyScheme, symbols: seq<string>, ms: seq<Market>, q: Pick,
                         x: string, y: string, z: string, r: Cycle, p: Pick)
    requires ParsedAs(symbols, ms)
    requires q.i < |symbols| && q.j < |symbols| && q.k < |symbols|
    requires Accepted(TripleAt(ms, q))
    requires KeyOf(scheme, symbols[q.i], symbols[q.j], symbols[q.k]) == KeyOf(scheme, x, y, z)
    requires forall t :: 0 <= t <= q.i ==> symbols[t] != x && symbols[t] != y && symbols[t] != z
    requires p.i < |ms| && p.j < |ms| && p.k < |ms| && r == Record(TripleAt(ms, p))
    requires PickBefore(q, p) ==> KeyBy(scheme)(TripleAt(ms, q)) != KeyBy(scheme)(TripleAt(ms, p))
    ensures PairSet(r) != multiset{x, y, z}
  {
    TripleAtSymbols(scheme, symbols, ms, p);
    TripleAtSymbols(scheme, symbols, ms, q);
    EmittedNotNamed(scheme, symbols, q, x, y, z, p, PairSet(r));
  }

  /** The position a dictionary was emitted from, and what that says about the triple at `q`. */
  lemma EmittedPick(scheme: KeyScheme, ms: seq<Market>, r: Cycle, q: Pick) returns (p: Pick)
    requires EmittedFromEarliest(scheme, ms, r)
    ensures p.i < |ms| && p.j < |ms| && p.k < |ms| && r == Record(TripleAt(ms, p))
    ensures q.i < |ms| && q.j < |ms| && q.k < |ms| && PickBefore(q, p) && Accepted(TripleAt(ms, q)) ==>
              KeyBy(scheme)(TripleAt(ms, q)) != KeyBy(scheme)(TripleAt(ms, p))
  {
    p :| EmittedFrom(scheme, ms, r, p);
  }

  /**
   The symbols at positions p do not form x, y, z when the triple at q, with
   the same key, would have kept p's triple out had q come first.
   */
  lemma EmittedNotNamed(scheme: KeyScheme, symbols: seq<string>, q: Pick,
                        x: string, y: string, z: string, p: Pick, names: multiset<string>)
    requires q.i < |symbols| && q.j < |symbols| && q.k < |symbols|
    requires p.i < |symbols| && p.j < |symbols| && p.k < |symbols|
    requires KeyOf(scheme, symbols[q.i], symbols[q.j], symbols[q.k]) == KeyOf(scheme, x, y, z)
    requires forall t :: 0 <= t <= q.i ==> symbols[t] != x && symbols[t] != y && symbols[t] != z
    requires PickBefore(q, p) ==>
               KeyOf(scheme, symbols[q.i], symbols[q.j], symbols[q.k]) != KeyOf(scheme, symbols[p.i], symbols[p.j], symbols[p.k])
    requires names == multiset{symbols[p.i], symbols[p.j], symbols[p.k]}
    ensures names != multiset{x, y, z}
  {
    if names == multiset{x, y, z} {
      LaterWithSameKey(scheme, symbols, q, p, x, y, z);
      assert false;
    }
  }

  /** A triple naming x, y, z comes after q and shares its key, under the conditions above. */
  lemma LaterWithSameKey(scheme: KeyScheme, symbols: seq<string>, q: Pick, p: Pick, x: string, y: string, z: string)
    requires q.i < |symbols| && q.j < |symbols| && q.k < |symbols|
    requires p.i < |symbols| && p.j < |symbols| && p.k < |symbols|
    requires KeyOf(scheme, symbols[q.i], symbols[q.j], symbols[q.k]) == KeyOf(scheme, x, y, z)
    requires forall t :: 0 <= t <= q.i ==> symbols[t] != x && symbols[t] != y && symbols[t] != z
    requires multiset{symbols[p.i], symbols[p.j], symbols[p.k]} == multiset{x, y, z}
    ensures PickBefore(q, p)
    ensures KeyOf(scheme, symbols[p.i], symbols[p.j], symbols[p.k]) == KeyOf(scheme, symbols[q.i], symbols[q.j], symbols[q.k])
  {
    assert symbols[p.i] in multiset{x, y, z};
    Sort3Canonical(symbols[p.i], symbols[p.j], symbols[p.k], x, y, z);
  }

  /** The dedup key of an emitted dictionary, computed from its three symbols. */
  function CycleKey(scheme: KeyScheme, r: Cycle): seq<string>
  {
    KeyOf(scheme, r.pairA, r.pairB, r.pairC)
  }

  /** No two emitted dictionaries share a dedup key. */
  lemma BuildKeysDistinct(scheme: KeyScheme, symbols: seq<string>)
    requires BuildWith(scheme, symbols).Ok?
    ensures forall x, y :: 0 <= x < y < |BuildWith(scheme, symbols).value| ==>
              CycleKey(scheme, BuildWith(scheme, symbols).value[x])
              != CycleKey(scheme, BuildWith(scheme, symbols).value[y])
  {
    var ts := Candidates(ParseAll(symbols).value);
    var p := Scan(Accepted, KeyBy(scheme), ts);
    var recs := BuildWith(scheme, symbols).value;
    ScanFacts(Accepted, KeyBy(scheme), ts);
    forall x, y | 0 <= x < y < |recs|
      ensures CycleKey(scheme, recs[x]) != CycleKey(scheme, recs[y])
    {
      EmittedKey(scheme, symbols, x);
      EmittedKey(scheme, symbols, y);
      assert p.seen[x] != p.seen[y];
    }
  }

  /** The key of the `x`-th emitted dictionary is the `x`-th remembered key. */
  lemma EmittedKey(scheme: KeyScheme, symbols: seq<string>, x: int)
    requires BuildWith(scheme, symbols).Ok? && 0 <= x < |BuildWith(scheme, symbols).value|
    ensures var p := Scan(Accepted, KeyBy(scheme), Candidates(ParseAll(symbols).value));
            x < |p.seen| && CycleKey(scheme, BuildWith(scheme, symbols).value[x]) == p.seen[x]
  {
    var ts := Candidates(ParseAll(symbols).value);
    var p := Scan(Accepted, KeyBy(scheme), ts);
    ScanFacts(Accepted, KeyBy(scheme), ts);
    var t := p.found[x];
    assert BuildWith(scheme, symbols).value[x] == Record(t);
    assert CycleKey(scheme, Record(t)) == KeyBy(scheme)(t);
  }

  /** Some emitted dictionary has dedup key `k`. */
  ghost predicate HasKey(scheme: KeyScheme, recs: seq<Cycle>, k: seq<string>)
  {
    exists x :: 0 <= x < |recs| && CycleKey(scheme, recs[x]) == k
  }

  /** Every accepted triple of positions is represented by an emitted dictionary with its key. */
  lemma BuildComplete(scheme: KeyScheme, symbols: seq<string>)
    requires BuildWith(scheme, symbols).Ok?
    ensures forall i, j, k ::
              (0 <= i < |symbols| && 0 <= j < |symbols| && 0 <= k < |symbols|
               && Accepted(TripleAt(ParseAll(symbols).value, Pick(i, j, k)))) ==>
              HasKey(scheme, BuildWith(scheme, symbols).value, KeyOf(scheme, symbols[i], symbols[j], symbols[k]))
  {
    forall i, j, k | 0 <= i < |symbols| && 0 <= j < |symbols| && 0 <= k < |symbols|
      && Accepted(TripleAt(ParseAll(symbols).value, Pick(i, j, k)))
      ensures HasKey(scheme, BuildWith(scheme, symbols).value, KeyOf(scheme, symbols[i], symbols[j], symbols[k]))
    {
      AcceptedPickHasKey(scheme, symbols, Pick(i, j, k));
    }
  }

  lemma AcceptedPickHasKey(scheme: KeyScheme, symbols: seq<string>, q: Pick)
    requires BuildWith(scheme, symbols).Ok?
    requires q.i < |symbols| && q.j < |symbols| && q.k < |symbols|
    requires Accepted(TripleAt(ParseAll(symbols).value, q))
    ensures HasKey(scheme, BuildWith(scheme, symbols).value, KeyOf(scheme, symbols[q.i], symbols[q.j], symbols[q.k]))
  {
    var ms := ParseAll(symbols).value;
    var ts := Candidates(ms);
    var p := Scan(Accepted, KeyBy(scheme), ts);
    var y := OuterLoopIndex(|ms|, |ms|, q);
    ParsedAsAll(symbols);
    TripleAtSymbols(scheme, symbols, ms, q);
    assert ts[y] == TripleAt(ms, q);
    ScanFacts(Accepted, KeyBy(scheme), ts);
    var x :| 0 <= x < |p.seen| && p.seen[x] == KeyBy(scheme)(ts[y]);
    EmittedKey(scheme, symbols, x);
  }

  /** The three market symbols of an emitted dictionary, order forgotten. */
  function PairSet(r: Cycle): multiset<string>
  {
    multiset{r.pairA, r.pairB, r.pairC}
  }

  /** With the listed key, the key of three symbols determines exactly which symbols they are. */
  lemma ListedKeyIsPairSet(x: string, y: string, z: string, x': string, y': string, z': string)
    ensures KeyOf(Listed, x, y, z) == KeyOf(Listed, x', y', z') <==> multiset{x, y, z} == multiset{x', y', z'}
  {
    Sort3Canonical(x, y, z, x', y', z');
  }

  /** With the listed key no cycle, as a set of three markets, is emitted twice. */
  lemma ListedNoRepeatedCycle(symbols: seq<string>)
    requires StructureTriangularPairsListed(symbols).Ok?
    ensures forall x, y :: 0 <= x < y < |StructureTriangularPairsListed(symbols).value| ==>
              PairSet(StructureTriangularPairsListed(symbols).value[x])
              != PairSet(StructureTriangularPairsListed(symbols).value[y])
  {
    var recs := StructureTriangularPairsListed(symbols).value;
    BuildKeysDistinct(Listed, symbols);
    forall x, y | 0 <= x < y < |recs|
      ensures PairSet(recs[x]) != PairSet(recs[y])
    {
      ListedKeyIsPairSet(recs[x].pairA, recs[x].pairB, recs[x].pairC, recs[y].pairA, recs[y].pairB, recs[y].pairC);
    }
  }

  /** Some emitted dictionary names exactly the symbols `x`, `y`, `z`, in some order. */
  ghost predicate HasCycle(recs: seq<Cycle>, x: string, y: string, z: string)
  {
    exists n :: 0 <= n < |recs| && PairSet(recs[n]) == multiset{x, y, z}
  }

  lemma ListedKeyToCycle(recs: seq<Cycle>, x: string, y: string, z: string)
    requires HasKey(Listed, recs, KeyOf(Listed, x, y, z))
    ensures HasCycle(recs, x, y, z)
  {
    var n :| 0 <= n < |recs| && CycleKey(Listed, recs[n]) == KeyOf(Listed, x, y, z);
    ListedKeyIsPairSet(recs[n].pairA, recs[n].pairB, recs[n].pairC, x, y, z);
  }

  /** With the listed key every accepted triple of positions is emitted, in some order of its three markets. */
  lemma ListedComplete(symbols: seq<string>)
    requires StructureTriangularPairsListed(symbols).Ok?
    ensures forall i, j, k ::
              (0 <= i < |symbols| && 0 <= j < |symbols| && 0 <= k < |symbols|
               && Accepted(TripleAt(ParseAll(symbols).value, Pick(i, j, k)))) ==>
              HasCycle(StructureTriangularPairsListed(symbols).value, symbols[i], symbols[j], symbols[k])
  {
    var recs := StructureTriangularPairsListed(symbols).value;
    BuildComplete(Listed, symbols);
    forall i, j, k |
      0 <= i < |symbols| && 0 <= j < |symbols| && 0 <= k < |symbols|
      && Accepted(TripleAt(ParseAll(symbols).value, Pick(i, j, k)))
      ensures HasCycle(recs, symbols[i], symbols[j], symbols[k])
    {
      ListedKeyToCycle(recs, symbols[i], symbols[j], symbols[k]);
    }
  }
}
