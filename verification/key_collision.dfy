/**
 The builder's dedup key glues the three sorted symbols together with no
 separator, so two different cycles can share a key. On the five markets
 below, {A-B, BB-A, BB-B} and {A-BB, B-A, BB-B} are both triangles and both
 have the key "A-BBB-ABB-B"; the second is never emitted. Keeping the
 sorted symbols apart emits both.
 */
module KeyCollision {
  import opened Results
  import opened Text
  import opened Markets
  import opened Closure
  import opened CycleBuilder

  const Listing: seq<string> := ["A-B", "BB-A", "BB-B", "A-BB", "B-A"]
  const ListingMarkets: seq<Market> :=
    [Market("A", "B"), Market("BB", "A"), Market("BB", "B"), Market("A", "BB"), Market("B", "A")]

  /** The cycle every position triple below is compared against: the markets at positions 0, 1, 2. */
  const Early: multiset<string> := multiset{"A-B", "BB-A", "BB-B"}
  /** The cycle at positions 3, 4, 2, whose key collides with `Early`'s. */
  const Late: multiset<string> := multiset{"A-BB", "B-A", "BB-B"}

  lemma ListingWellFormed()
    ensures forall i :: 0 <= i < |ListingMarkets| ==> WellFormed(ListingMarkets[i])
  {
    var ms := ListingMarkets;
    assert WellFormed(ms[0]) && WellFormed(ms[1]) && WellFormed(ms[2]) && WellFormed(ms[3]) && WellFormed(ms[4]);
  }

  lemma ListingSymbols()
    ensures Symbols(ListingMarkets) == Listing
  {
    var ss := Symbols(ListingMarkets);
    assert ss[0] == Listing[0] && ss[1] == Listing[1] && ss[2] == Listing[2];
    assert ss[3] == Listing[3] && ss[4] == Listing[4];
  }

  /** Every symbol of the listing splits, into the markets above. */
  lemma ListingParses()
    ensures ParseAll(Listing) == Ok(ListingMarkets)
    ensures forall i :: 0 <= i < |ListingMarkets| ==> Symbol(ListingMarkets[i]) == Listing[i]
  {
    ListingWellFormed();
    ListingSymbols();
    ParseAllSymbols(ListingMarkets);
  }

  lemma EarlyAccepted()
    ensures Accepted(TripleAt(ListingMarkets, Pick(0, 1, 2)))
  {
    var t := TripleAt(ListingMarkets, Pick(0, 1, 2));
    assert t == Triple(Market("A", "B"), Market("BB", "A"), Market("BB", "B"));
    assert Symbol(t.a) == "A-B" && Symbol(t.b) == "BB-A" && Symbol(t.c) == "BB-B";
    assert "A-B"[1] != "BB-A"[1] && "A-B"[0] != "BB-B"[0] && "BB-A"[3] != "BB-B"[3];
    var box := PairBox("A", "B", "BB", "A", "BB", "B");
    assert box == multiset{"A", "B", "BB", "A", "BB", "B"};
    assert box["BB"] == 2 && box["B"] == 2;
  }

  lemma LateAccepted()
    ensures Accepted(TripleAt(ListingMarkets, Pick(3, 4, 2)))
  {
    var t := TripleAt(ListingMarkets, Pick(3, 4, 2));
    assert t == Triple(Market("A", "BB"), Market("B", "A"), Market("BB", "B"));
    assert Symbol(t.a) == "A-BB" && Symbol(t.b) == "B-A" && Symbol(t.c) == "BB-B";
    assert "A-BB"[0] != "B-A"[0] && "A-BB"[0] != "BB-B"[0] && "B-A"[1] != "BB-B"[1];
    var box := PairBox("A", "BB", "B", "A", "BB", "B");
    assert box == multiset{"A", "BB", "B", "A", "BB", "B"};
    assert box["BB"] == 2 && box["B"] == 2;
  }

  lemma EarlySorted()
    ensures Sort3("A-B", "BB-A", "BB-B") == ["A-B", "BB-A", "BB-B"]
  {
    assert LexLe("A-B", "BB-A");
    assert LexLe("B-A", "B-B");
    assert LexLe("BB-A", "BB-B");
  }

  lemma LateSorted()
    ensures Sort3("A-BB", "B-A", "BB-B") == ["A-BB", "B-A", "BB-B"]
  {
    assert LexLe("A-BB", "B-A");
    assert LexLe("-A", "B-B");
    assert LexLe("B-A", "BB-B");
  }

  /** Both triples are cycles; their joined keys agree although their symbols differ. */
  lemma JoinedKeysCollide()
    ensures Accepted(TripleAt(ListingMarkets, Pick(0, 1, 2)))
    ensures Accepted(TripleAt(ListingMarkets, Pick(3, 4, 2)))
    ensures KeyOf(Joined, "A-B", "BB-A", "BB-B") == KeyOf(Joined, "A-BB", "B-A", "BB-B") == ["A-BBB-ABB-B"]
    ensures Early != Late
    ensures KeyOf(Listed, "A-B", "BB-A", "BB-B") != KeyOf(Listed, "A-BB", "B-A", "BB-B")
  {
    EarlyAccepted();
    LateAccepted();
    EarlyJoinedKey();
    LateJoinedKey();
    assert "A-B" in Early && "A-B" !in Late by {
      assert "A-B" != "A-BB" && "A-B"[0] != "B-A"[0] && "A-B"[0] != "BB-B"[0];
    }
    ListedKeyIsPairSet("A-B", "BB-A", "BB-B", "A-BB", "B-A", "BB-B");
  }

  lemma EarlyJoinedKey()
    ensures KeyOf(Joined, "A-B", "BB-A", "BB-B") == ["A-BBB-ABB-B"]
  {
    EarlySorted();
    var k := "A-BBB-ABB-B";
    var e := "A-B" + "BB-A" + "BB-B";
    assert |e| == |k| && forall i :: 0 <= i < |k| ==> e[i] == k[i];
    assert e == k;
    assert KeyOf(Joined, "A-B", "BB-A", "BB-B") == [e];
  }

  lemma LateJoinedKey()
    ensures KeyOf(Joined, "A-BB", "B-A", "BB-B") == ["A-BBB-ABB-B"]
  {
    LateSorted();
    var k := "A-BBB-ABB-B";
    var l := "A-BB" + "B-A" + "BB-B";
    assert |l| == |k| && forall i :: 0 <= i < |k| ==> l[i] == k[i];
    assert l == k;
    assert KeyOf(Joined, "A-BB", "B-A", "BB-B") == [l];
  }

  /**
   As written, the cycle {A-BB, B-A, BB-B} is missing from the output: the
   triple at positions (0, 1, 2) comes first in loop order and takes its key.
   */
  lemma JoinedDropsCycle()
    ensures StructureTriangularPairs(Listing).Ok?
    ensures !HasCycle(StructureTriangularPairs(Listing).value, "A-BB", "B-A", "BB-B")
  {
    ListingParses();
    EarlyAccepted();
    ListingEarlyKey();
    PrecededNotEmitted(Joined, Listing, Pick(0, 1, 2), "A-BB", "B-A", "BB-B");
  }

  /** The first three symbols of the listing carry the late cycle's joined key, and the first is none of its symbols. */
  lemma ListingEarlyKey()
    ensures KeyOf(Joined, Listing[0], Listing[1], Listing[2]) == KeyOf(Joined, "A-BB", "B-A", "BB-B")
    ensures forall t :: 0 <= t <= 0 ==> Listing[t] != "A-BB" && Listing[t] != "B-A" && Listing[t] != "BB-B"
  {
    assert Listing[0] == "A-B" && Listing[1] == "BB-A" && Listing[2] == "BB-B";
    EarlyJoinedKey();
    LateJoinedKey();
    assert "A-B" != "A-BB" && "A-B"[0] != "B-A"[0] && "A-B"[0] != "BB-B"[0];
  }

  /** The listed builder emits the cycle of one accepted position triple. */
  lemma ListedEmits(symbols: seq<string>, p: Pick)
    requires StructureTriangularPairsListed(symbols).Ok?
    requires p.i < |symbols| && p.j < |symbols| && p.k < |symbols|
    requires Accepted(TripleAt(ParseAll(symbols).value, p))
    ensures HasCycle(StructureTriangularPairsListed(symbols).value, symbols[p.i], symbols[p.j], symbols[p.k])
  {
    ListedComplete(symbols);
  }

  lemma ListedKeepsEarly()
    ensures StructureTriangularPairsListed(Listing).Ok?
    ensures HasCycle(StructureTriangularPairsListed(Listing).value, Listing[0], Listing[1], Listing[2])
  {
    ListingParses();
    EarlyAccepted();
    ListedEmits(Listing, Pick(0, 1, 2));
  }

  lemma ListedKeepsLate()
    ensures StructureTriangularPairsListed(Listing).Ok?
    ensures HasCycle(StructureTriangularPairsListed(Listing).value, Listing[3], Listing[4], Listing[2])
  {
    ListingParses();
    LateAccepted();
    ListedEmits(Listing, Pick(3, 4, 2));
  }

  /** With the sorted symbols kept apart, both cycles are emitted. */
  lemma ListedKeepsBothCycles()
    ensures StructureTriangularPairsListed(Listing).Ok?
    ensures HasCycle(StructureTriangularPairsListed(Listing).value, "A-B", "BB-A", "BB-B")
    ensures HasCycle(StructureTriangularPairsListed(Listing).value, "A-BB", "B-A", "BB-B")
  {
    ListedKeepsEarly();
    ListedKeepsLate();
  }
}
