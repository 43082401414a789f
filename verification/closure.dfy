/**
 The closure condition of the cycle builder, stated over the six currency
 names a_base, a_quote, b_base, b_quote, c_base, c_quote, and the triangle
 shape it is meant to recognise.
 */
module Closure {

  /** The pre-filter: `b_base in [a_base, a_quote] or b_quote in [a_base, a_quote]`. */
  predicate SharesCurrency(aB: string, aQ: string, bB: string, bQ: string)
  {
    bB in [aB, aQ] || bQ in [aB, aQ]
  }

  /** `pair_box`, with `list.count` read as multiplicity. */
  function PairBox(aB: string, aQ: string, bB: string, bQ: string, cB: string, cQ: string): multiset<string>
  {
    multiset{aB, aQ, bB, bQ, cB, cQ}
  }

  /** `counts_c_base == 2 and counts_c_quote == 2 and c_base != c_quote`. */
  predicate CountsClose(aB: string, aQ: string, bB: string, bQ: string, cB: string, cQ: string)
  {
    var box := PairBox(aB, aQ, bB, bQ, cB, cQ);
    box[cB] == 2 && box[cQ] == 2 && cB != cQ
  }

  /**
   A triangle: every currency that occurs occurs exactly twice, and no
   market trades a currency against itself.
   */
  predicate Triangle(aB: string, aQ: string, bB: string, bQ: string, cB: string, cQ: string)
  {
    && aB != aQ && bB != bQ && cB != cQ
    && var box := PairBox(aB, aQ, bB, bQ, cB, cQ);
       forall x :: x in box ==> box[x] == 2
  }

  /** The set of currencies the six names mention. */
  function Currencies(aB: string, aQ: string, bB: string, bQ: string, cB: string, cQ: string): set<string>
  {
    {aB, aQ, bB, bQ, cB, cQ}
  }

  lemma BoxCount(aB: string, aQ: string, bB: string, bQ: string, cB: string, cQ: string, x: string)
    ensures PairBox(aB, aQ, bB, bQ, cB, cQ)[x]
            == (if aB == x then 1 else 0) + (if aQ == x then 1 else 0)
             + (if bB == x then 1 else 0) + (if bQ == x then 1 else 0)
             + (if cB == x then 1 else 0) + (if cQ == x then 1 else 0)
  {
    var n1 := if aB == x then 1 else 0;
    var n2 := n1 + if aQ == x then 1 else 0;
    var n3 := n2 + if bB == x then 1 else 0;
    var n4 := n3 + if bQ == x then 1 else 0;
    var n5 := n4 + if cB == x then 1 else 0;
    assert multiset{aB}[x] == n1;
    assert multiset{aB, aQ}[x] == n2;
    assert multiset{aB, aQ, bB}[x] == n3;
    assert multiset{aB, aQ, bB, bQ}[x] == n4;
    assert multiset{aB, aQ, bB, bQ, cB}[x] == n5;
  }

  /** All six multiplicities of the box, as the per-name sums of `BoxCount`. */
  lemma AllBoxCounts(aB: string, aQ: string, bB: string, bQ: string, cB: string, cQ: string)
    ensures var box := PairBox(aB, aQ, bB, bQ, cB, cQ);
      && box[aB] == (if aB == aB then 1 else 0) + (if aQ == aB then 1 else 0) + (if bB == aB then 1 else 0)
                    + (if bQ == aB then 1 else 0) + (if cB == aB then 1 else 0) + (if cQ == aB then 1 else 0)
      && box[aQ] == (if aB == aQ then 1 else 0) + (if aQ == aQ then 1 else 0) + (if bB == aQ then 1 else 0)
                    + (if bQ == aQ then 1 else 0) + (if cB == aQ then 1 else 0) + (if cQ == aQ then 1 else 0)
      && box[bB] == (if aB == bB then 1 else 0) + (if aQ == bB then 1 else 0) + (if bB == bB then 1 else 0)
                    + (if bQ == bB then 1 else 0) + (if cB == bB then 1 else 0) + (if cQ == bB then 1 else 0)
      && box[bQ] == (if aB == bQ then 1 else 0) + (if aQ == bQ then 1 else 0) + (if bB == bQ then 1 else 0)
                    + (if bQ == bQ then 1 else 0) + (if cB == bQ then 1 else 0) + (if cQ == bQ then 1 else 0)
      && box[cB] == (if aB == cB then 1 else 0) + (if aQ == cB then 1 else 0) + (if bB == cB then 1 else 0)
                    + (if bQ == cB then 1 else 0) + (if cB == cB then 1 else 0) + (if cQ == cB then 1 else 0)
      && box[cQ] == (if aB == cQ then 1 else 0) + (if aQ == cQ then 1 else 0) + (if bB == cQ then 1 else 0)
                    + (if bQ == cQ then 1 else 0) + (if cB == cQ then 1 else 0) + (if cQ == cQ then 1 else 0)
  {
    BoxCount(aB, aQ, bB, bQ, cB, cQ, aB);
    BoxCount(aB, aQ, bB, bQ, cB, cQ, aQ);
    BoxCount(aB, aQ, bB, bQ, cB, cQ, bB);
    BoxCount(aB, aQ, bB, bQ, cB, cQ, bQ);
    BoxCount(aB, aQ, bB, bQ, cB, cQ, cB);
    BoxCount(aB, aQ, bB, bQ, cB, cQ, cQ);
  }

  /** Every currency of the box has multiplicity two once each of the six names has. */
  lemma EveryNameTwice(aB: string, aQ: string, bB: string, bQ: string, cB: string, cQ: string)
    requires var box := PairBox(aB, aQ, bB, bQ, cB, cQ);
      box[aB] == 2 && box[aQ] == 2 && box[bB] == 2 && box[bQ] == 2 && box[cB] == 2 && box[cQ] == 2
    ensures var box := PairBox(aB, aQ, bB, bQ, cB, cQ); forall z :: z in box ==> box[z] == 2
  {
    var box := PairBox(aB, aQ, bB, bQ, cB, cQ);
    forall z | z in box
      ensures box[z] == 2
    {
      assert z == aB || z == aQ || z == bB || z == bQ || z == cB || z == cQ;
    }
  }

  lemma ClosureImpliesTriangle(aB: string, aQ: string, bB: string, bQ: string, cB: string, cQ: string)
    requires SharesCurrency(aB, aQ, bB, bQ) && CountsClose(aB, aQ, bB, bQ, cB, cQ)
    ensures Triangle(aB, aQ, bB, bQ, cB, cQ)
  {
    AllBoxCounts(aB, aQ, bB, bQ, cB, cQ);
    assert aB != aQ && bB != bQ;
    var box := PairBox(aB, aQ, bB, bQ, cB, cQ);
    assert box[aB] == 2 && box[aQ] == 2 && box[bB] == 2 && box[bQ] == 2;
    EveryNameTwice(aB, aQ, bB, bQ, cB, cQ);
  }

  lemma TriangleImpliesClosure(aB: string, aQ: string, bB: string, bQ: string, cB: string, cQ: string)
    requires Triangle(aB, aQ, bB, bQ, cB, cQ)
    ensures SharesCurrency(aB, aQ, bB, bQ) && CountsClose(aB, aQ, bB, bQ, cB, cQ)
  {
    var box := PairBox(aB, aQ, bB, bQ, cB, cQ);
    assert aB in box && bB in box && bQ in box && cB in box && cQ in box;
    BoxCount(aB, aQ, bB, bQ, cB, cQ, aB);
    BoxCount(aB, aQ, bB, bQ, cB, cQ, bB);
    BoxCount(aB, aQ, bB, bQ, cB, cQ, bQ);
  }

  /** The builder's pre-filter and count test together accept exactly the triangles. */
  lemma ClosureIsTriangle(aB: string, aQ: string, bB: string, bQ: string, cB: string, cQ: string)
    ensures SharesCurrency(aB, aQ, bB, bQ) && CountsClose(aB, aQ, bB, bQ, cB, cQ)
            <==> Triangle(aB, aQ, bB, bQ, cB, cQ)
  {
    if SharesCurrency(aB, aQ, bB, bQ) && CountsClose(aB, aQ, bB, bQ, cB, cQ) {
      ClosureImpliesTriangle(aB, aQ, bB, bQ, cB, cQ);
    }
    if Triangle(aB, aQ, bB, bQ, cB, cQ) {
      TriangleImpliesClosure(aB, aQ, bB, bQ, cB, cQ);
    }
  }

  /** A triangle names exactly three currencies. */
  lemma TriangleHasThreeCurrencies(aB: string, aQ: string, bB: string, bQ: string, cB: string, cQ: string)
    requires Triangle(aB, aQ, bB, bQ, cB, cQ)
    ensures |Currencies(aB, aQ, bB, bQ, cB, cQ)| == 3
  {
    TriangleSharesOne(aB, aQ, bB, bQ, cB, cQ);
    // pair_b shares exactly one currency with pair_a; the third is the other half of pair_b
    var third := if bB == aB || bB == aQ then bQ else bB;
    ThirdCurrency(aB, aQ, bB, bQ, cB, cQ, third);
    NamesWithin(aB, aQ, bB, bQ, cB, cQ, {aB, aQ, third});
    ThreeDistinct(aB, aQ, third);
  }

  /** The half of pair_b that pair_a lacks is new, and pair_c draws only on it and pair_a. */
  lemma ThirdCurrency(aB: string, aQ: string, bB: string, bQ: string, cB: string, cQ: string, third: string)
    requires Triangle(aB, aQ, bB, bQ, cB, cQ)
    requires (aB in [bB, bQ]) != (aQ in [bB, bQ])
    requires third == if bB == aB || bB == aQ then bQ else bB
    ensures third != aB && third != aQ
    ensures cB in {aB, aQ, third} && cQ in {aB, aQ, third}
  {
    var box := PairBox(aB, aQ, bB, bQ, cB, cQ);
    assert cB in box && cQ in box;
    BoxCount(aB, aQ, bB, bQ, cB, cQ, cB);
    BoxCount(aB, aQ, bB, bQ, cB, cQ, cQ);
  }

  lemma ThreeDistinct(x: string, y: string, z: string)
    requires x != y && x != z && y != z
    ensures |{x, y, z}| == 3
  {
    assert {x, y, z} == {x, y} + {z};
  }

  /** Six names that all fall in a set of names the six cover make up exactly that set. */
  lemma NamesWithin(aB: string, aQ: string, bB: string, bQ: string, cB: string, cQ: string, names: set<string>)
    requires aB in names && aQ in names && bB in names && bQ in names && cB in names && cQ in names
    requires forall x :: x in names ==> x == aB || x == aQ || x == bB || x == bQ || x == cB || x == cQ
    ensures Currencies(aB, aQ, bB, bQ, cB, cQ) == names
  {
  }

  /**
   In a triangle pair_b shares exactly one currency with pair_a: either
   a_base or a_quote, never both.
   */
  lemma TriangleSharesOne(aB: string, aQ: string, bB: string, bQ: string, cB: string, cQ: string)
    requires Triangle(aB, aQ, bB, bQ, cB, cQ)
    ensures (aB in [bB, bQ]) != (aQ in [bB, bQ])
  {
    var box := PairBox(aB, aQ, bB, bQ, cB, cQ);
    BoxCount(aB, aQ, bB, bQ, cB, cQ, aB);
    BoxCount(aB, aQ, bB, bQ, cB, cQ, aQ);
    BoxCount(aB, aQ, bB, bQ, cB, cQ, bB);
    BoxCount(aB, aQ, bB, bQ, cB, cQ, bQ);
    assert aB in box && aQ in box && bB in box && bQ in box;
  }

  /** No two markets of a triangle are the same market. */
  lemma TriangleDistinctMarkets(aB: string, aQ: string, bB: string, bQ: string, cB: string, cQ: string)
    requires Triangle(aB, aQ, bB, bQ, cB, cQ)
    ensures (aB, aQ) != (bB, bQ) && (aB, aQ) != (cB, cQ) && (bB, bQ) != (cB, cQ)
  {
    var box := PairBox(aB, aQ, bB, bQ, cB, cQ);
    assert aB in box && bB in box && cB in box;
    BoxCount(aB, aQ, bB, bQ, cB, cQ, aB);
    BoxCount(aB, aQ, bB, bQ, cB, cQ, bB);
    BoxCount(aB, aQ, bB, bQ, cB, cQ, cB);
  }
}
