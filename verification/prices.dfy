/**
 `get_price_for_t_pair`: walk the ticker feed in order and, for every entry
 whose market is one of the cycle's three, store its ask under
 "<market>_ask" and its bid under "<market>_bid", a later entry overwriting
 an earlier one.
 */
module PriceSnapshot {
  import opened Markets
  import opened CycleBuilder

  /** The three markets of a cycle, as `[pair_a, pair_b, pair_c]`. */
  function CycleMarkets(c: Cycle): seq<string>
  {
    [c.pairA, c.pairB, c.pairC]
  }

  function AskKey(m: string): string
  {
    m + "_ask"
  }

  function BidKey(m: string): string
  {
    m + "_bid"
  }

  /** The snapshot after the entries of `feed`, in order, starting from an empty dictionary. */
  function GetPriceForTPair(c: Cycle, feed: seq<Ticker>): map<string, real>
    decreases |feed|
  {
    if |feed| == 0 then map[]
    else
      var prices := GetPriceForTPair(c, feed[..|feed| - 1]);
      var x := feed[|feed| - 1];
      if x.market in CycleMarkets(c) then prices[AskKey(x.market) := x.ask][BidKey(x.market) := x.bid]
      else prices
  }

  // ---------------------------------------------------------------------
  // The two key suffixes never clash

  lemma AskKeyInjective(m: string, n: string)
    ensures AskKey(m) == AskKey(n) <==> m == n
  {
    if AskKey(m) == AskKey(n) {
      assert m == AskKey(m)[..|m|] && n == AskKey(n)[..|n|];
    }
  }

  lemma BidKeyInjective(m: string, n: string)
    ensures BidKey(m) == BidKey(n) <==> m == n
  {
    if BidKey(m) == BidKey(n) {
      assert m == BidKey(m)[..|m|] && n == BidKey(n)[..|n|];
    }
  }

  /** An ask key and a bid key differ in their last character. */
  lemma AskKeyNotBidKey(m: string, n: string)
    ensures AskKey(m) != BidKey(n)
  {
    assert AskKey(m)[|AskKey(m)| - 1] == 'k';
    assert BidKey(n)[|BidKey(n)| - 1] == 'd';
  }

  // ---------------------------------------------------------------------
  // What the snapshot holds

  /** Some entry of the feed quotes market `m`. */
  predicate Quoted(feed: seq<Ticker>, m: string)
  {
    exists i :: 0 <= i < |feed| && feed[i].market == m
  }

  /** Position `i` holds the last entry of the feed for market `m`. */
  predicate LastEntry(feed: seq<Ticker>, m: string, i: int)
  {
    && 0 <= i < |feed| && feed[i].market == m
    && forall j :: i < j < |feed| ==> feed[j].market != m
  }

  /** `k` is the ask or bid key of one of the cycle's markets that the feed quotes. */
  ghost predicate SnapshotKey(c: Cycle, feed: seq<Ticker>, k: string)
  {
    exists m :: m in CycleMarkets(c) && Quoted(feed, m) && (k == AskKey(m) || k == BidKey(m))
  }

  /** Every key of the snapshot belongs to a quoted market of the cycle. */
  lemma {:induction false} SnapshotKeysBelongToCycle(c: Cycle, feed: seq<Ticker>)
    ensures forall k :: k in GetPriceForTPair(c, feed) ==> SnapshotKey(c, feed, k)
    decreases |feed|
  {
    if |feed| > 0 {
      var pre := feed[..|feed| - 1];
      SnapshotKeysBelongToCycle(c, pre);
      forall k | k in GetPriceForTPair(c, feed)
        ensures SnapshotKey(c, feed, k)
      {
        if k in GetPriceForTPair(c, pre) {
          var m :| m in CycleMarkets(c) && Quoted(pre, m) && (k == AskKey(m) || k == BidKey(m));
          var i :| 0 <= i < |pre| && pre[i].market == m;
          assert feed[i] == pre[i];
        } else {
          var x := feed[|feed| - 1];
          assert Quoted(feed, x.market);
        }
      }
    }
  }

  /** A market of the cycle that no entry quotes has neither key. */
  lemma {:induction false} UnquotedMarketAbsent(c: Cycle, feed: seq<Ticker>, m: string)
    requires !Quoted(feed, m)
    ensures AskKey(m) !in GetPriceForTPair(c, feed) && BidKey(m) !in GetPriceForTPair(c, feed)
    decreases |feed|
  {
    if |feed| > 0 {
      var pre := feed[..|feed| - 1];
      assert forall i :: 0 <= i < |pre| ==> pre[i] == feed[i];
      UnquotedMarketAbsent(c, pre, m);
      var x := feed[|feed| - 1];
      AskKeyInjective(x.market, m);
      BidKeyInjective(x.market, m);
      AskKeyNotBidKey(m, x.market);
      AskKeyNotBidKey(x.market, m);
    }
  }

  /**
   A market of the cycle has both keys, holding the ask and the bid of its
   last entry in the feed.
   */
  lemma {:induction false} LastEntryWins(c: Cycle, feed: seq<Ticker>, m: string, i: int)
    requires m in CycleMarkets(c) && LastEntry(feed, m, i)
    ensures AskKey(m) in GetPriceForTPair(c, feed) && GetPriceForTPair(c, feed)[AskKey(m)] == feed[i].ask
    ensures BidKey(m) in GetPriceForTPair(c, feed) && GetPriceForTPair(c, feed)[BidKey(m)] == feed[i].bid
    decreases |feed|
  {
    var n := |feed|;
    var pre := feed[..n - 1];
    var x := feed[n - 1];
    AskKeyNotBidKey(m, m);
    if i < n - 1 {
      assert LastEntry(pre, m, i);
      LastEntryWins(c, pre, m, i);
      AskKeyInjective(x.market, m);
      BidKeyInjective(x.market, m);
      AskKeyNotBidKey(m, x.market);
      AskKeyNotBidKey(x.market, m);
    }
  }

  /** A market of the cycle has its ask key exactly when it has its bid key, exactly when the feed quotes it. */
  lemma SnapshotCoversQuotedMarkets(c: Cycle, feed: seq<Ticker>, m: string)
    requires m in CycleMarkets(c)
    ensures AskKey(m) in GetPriceForTPair(c, feed) <==> Quoted(feed, m)
    ensures BidKey(m) in GetPriceForTPair(c, feed) <==> Quoted(feed, m)
  {
    if Quoted(feed, m) {
      var i := LastIndexOf(feed, m);
      LastEntryWins(c, feed, m, i);
    } else {
      UnquotedMarketAbsent(c, feed, m);
    }
  }

  /** The position of the last entry for a quoted market. */
  lemma {:induction false} LastIndexOf(feed: seq<Ticker>, m: string) returns (i: int)
    requires Quoted(feed, m)
    ensures LastEntry(feed, m, i)
    decreases |feed|
  {
    var n := |feed|;
    if feed[n - 1].market == m {
      i := n - 1;
    } else {
      var pre := feed[..n - 1];
      var j :| 0 <= j < n && feed[j].market == m;
      assert pre[j] == feed[j];
      i := LastIndexOf(pre, m);
      assert forall k :: 0 <= k < n - 1 ==> pre[k] == feed[k];
    }
  }

  /** Only the cycle's markets matter: entries for other markets leave the snapshot unchanged. */
  lemma {:induction false} OtherMarketsIgnored(c: Cycle, feed: seq<Ticker>, other: seq<Ticker>)
    requires forall j :: 0 <= j < |other| ==> other[j].market !in CycleMarkets(c)
    ensures GetPriceForTPair(c, feed + other) == GetPriceForTPair(c, feed)
    decreases |other|
  {
    if |other| == 0 {
      assert feed + other == feed;
    } else {
      var all := feed + other;
      var rest := other[..|other| - 1];
      assert all[..|all| - 1] == feed + rest;
      assert all[|all| - 1] == other[|other| - 1];
      OtherMarketsIgnored(c, feed, rest);
    }
  }

  /** A symbol collected from the feed is quoted by it. */
  lemma CollectedIsQuoted(feed: seq<Ticker>, m: string)
    requires m in CollectTradeables(feed)
    ensures Quoted(feed, m)
  {
    var i :| 0 <= i < |CollectTradeables(feed)| && CollectTradeables(feed)[i] == m;
    assert feed[i].market == m;
  }

  /**
   Every cycle built from the markets of a feed is fully priced by that same
   feed: its three markets have both keys.
   */
  lemma BuiltCyclesFullyPriced(feed: seq<Ticker>, c: Cycle)
    requires StructureTriangularPairs(CollectTradeables(feed)).Ok?
    requires c in StructureTriangularPairs(CollectTradeables(feed)).value
    ensures forall m :: m in CycleMarkets(c) ==>
              AskKey(m) in GetPriceForTPair(c, feed) && BidKey(m) in GetPriceForTPair(c, feed)
  {
    var symbols := CollectTradeables(feed);
    assert SoundRecord(symbols, c) by {
      var recs := StructureTriangularPairs(symbols).value;
      BuildSound(Joined, symbols);
      var x :| 0 <= x < |recs| && recs[x] == c;
    }
    forall m | m in CycleMarkets(c)
      ensures AskKey(m) in GetPriceForTPair(c, feed) && BidKey(m) in GetPriceForTPair(c, feed)
    {
      CollectedIsQuoted(feed, m);
      SnapshotCoversQuotedMarkets(c, feed, m);
    }
  }
}
