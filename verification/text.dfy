/**
 The two string operations the cycle builder relies on: Python's ordering of
 `str` values (used by `sorted`) and `str.split('-')`.
 */
module Text {

  /** Python's `a <= b` on str: code point by code point, a proper prefix first. */
  predicate LexLe(a: string, b: string)
    decreases |a|
  {
    |a| == 0 || (|b| > 0 && (a[0] < b[0] || (a[0] == b[0] && LexLe(a[1..], b[1..]))))
  }

  lemma {:induction false} LexLeTotal(a: string, b: string)
    ensures LexLe(a, b) || LexLe(b, a)
    decreases |a|
  {
    if |a| > 0 && |b| > 0 && a[0] == b[0] {
      LexLeTotal(a[1..], b[1..]);
    }
  }

  lemma {:induction false} LexLeReflexive(a: string)
    ensures LexLe(a, a)
    decreases |a|
  {
    if |a| > 0 {
      LexLeReflexive(a[1..]);
    }
  }

  lemma {:induction false} LexLeAntisymmetric(a: string, b: string)
    requires LexLe(a, b) && LexLe(b, a)
    ensures a == b
    decreases |a|
  {
    if |a| > 0 {
      LexLeAntisymmetric(a[1..], b[1..]);
      assert a == [a[0]] + a[1..];
      assert b == [b[0]] + b[1..];
    }
  }

  lemma {:induction false} LexLeTransitive(a: string, b: string, c: string)
    requires LexLe(a, b) && LexLe(b, c)
    ensures LexLe(a, c)
    decreases |a|
  {
    if |a| > 0 && a[0] == b[0] && b[0] == c[0] {
      LexLeTransitive(a[1..], b[1..], c[1..]);
    }
  }

  predicate SortedTriple(s: seq<string>)
  {
    |s| == 3 && LexLe(s[0], s[1]) && LexLe(s[1], s[2])
  }

  /** `sorted([x, y, z])` on three strings. */
  function Sort3(x: string, y: string, z: string): (s: seq<string>)
    ensures SortedTriple(s)
    ensures multiset(s) == multiset{x, y, z}
  {
    if LexLe(x, y) then
      if LexLe(y, z) then
        TripleBag(x, y, z);
        [x, y, z]
      else if LexLe(x, z) then
        LexLeTotal(y, z);
        TripleBag(x, z, y); SwapLast(x, y, z);
        [x, z, y]
      else
        LexLeTotal(x, z);
        TripleBag(z, x, y); SwapLast(x, y, z); SwapFirst(x, z, y);
        [z, x, y]
    else
      LexLeTotal(x, y);
      if LexLe(x, z) then
        TripleBag(y, x, z); SwapFirst(x, y, z);
        [y, x, z]
      else if LexLe(y, z) then
        LexLeTotal(x, z);
        TripleBag(y, z, x); SwapFirst(x, y, z); SwapLast(y, x, z);
        [y, z, x]
      else
        LexLeTotal(y, z);
        TripleBag(z, y, x); SwapFirst(x, y, z); SwapLast(y, x, z); SwapFirst(y, z, x);
        [z, y, x]
  }

  lemma TripleBag(a: string, b: string, c: string)
    ensures multiset([a, b, c]) == multiset{a, b, c}
  {
  }

  lemma SwapFirst(a: string, b: string, c: string)
    ensures multiset{a, b, c} == multiset{b, a, c}
  {
  }

  lemma SwapLast(a: string, b: string, c: string)
    ensures multiset{a, b, c} == multiset{a, c, b}
  {
  }


  /** Two sorted triples holding the same strings are the same triple. */
  lemma SortedTripleUnique(s: seq<string>, t: seq<string>)
    requires SortedTriple(s) && SortedTriple(t)
    requires multiset(s) == multiset(t)
    ensures s == t
  {
    SeqBag(s);
    SeqBag(t);
    SortedBagUnique(s[0], s[1], s[2], t[0], t[1], t[2]);
  }

  lemma SeqBag(s: seq<string>)
    requires |s| == 3
    ensures multiset(s) == multiset{s[0], s[1], s[2]}
  {
    assert s == [s[0], s[1], s[2]];
    TripleBag(s[0], s[1], s[2]);
  }

  lemma SortedBagUnique(a: string, b: string, c: string, d: string, e: string, f: string)
    requires LexLe(a, b) && LexLe(b, c) && LexLe(d, e) && LexLe(e, f)
    requires multiset{a, b, c} == multiset{d, e, f}
    ensures a == d && b == e && c == f
  {
    LeastOfBag(a, b, c, d);
    LeastOfBag(d, e, f, a);
    LexLeAntisymmetric(a, d);
    MultisetCancel(a, b, c, e, f);
    SortedPairUnique(b, c, e, f);
  }

  /** The least of a sorted triple is below every string of it. */
  lemma LeastOfBag(a: string, b: string, c: string, x: string)
    requires LexLe(a, b) && LexLe(b, c)
    requires x in multiset{a, b, c}
    ensures LexLe(a, x)
  {
    LexLeReflexive(a);
    LexLeTransitive(a, b, c);
  }

  lemma MultisetCancel(x: string, a: string, b: string, c: string, d: string)
    requires multiset{x, a, b} == multiset{x, c, d}
    ensures multiset{a, b} == multiset{c, d}
  {
    assert multiset{x, a, b} == multiset{x} + multiset{a, b};
    assert multiset{x, c, d} == multiset{x} + multiset{c, d};
  }

  lemma SortedPairUnique(a: string, b: string, c: string, d: string)
    requires LexLe(a, b) && LexLe(c, d)
    requires multiset{a, b} == multiset{c, d}
    ensures a == c && b == d
  {
    assert c in multiset{a, b} && a in multiset{c, d};
    LexLeReflexive(a);
    LexLeReflexive(c);
    LexLeAntisymmetric(a, c);
    assert multiset{b} == multiset{a, b} - multiset{a};
    assert multiset{d} == multiset{c, d} - multiset{c};
    assert b in multiset{d};
  }

  /** Sorting three strings forgets the order they came in and nothing else. */
  lemma Sort3Canonical(x: string, y: string, z: string, x': string, y': string, z': string)
    ensures Sort3(x, y, z) == Sort3(x', y', z') <==> multiset{x, y, z} == multiset{x', y', z'}
  {
    if multiset{x, y, z} == multiset{x', y', z'} {
      SortedTripleUnique(Sort3(x, y, z), Sort3(x', y', z'));
    }
  }

  predicate DashFree(s: string)
  {
    '-' !in s
  }

  /** Index of the first '-' in `s`, or `|s|` when there is none. */
  function FindDash(s: string): (i: nat)
    ensures i <= |s|
    ensures i < |s| ==> s[i] == '-'
    ensures DashFree(s[..i])
  {
    if |s| == 0 then 0
    else if s[0] == '-' then 0
    else
      var k := FindDash(s[1..]);
      assert s[..k + 1] == [s[0]] + s[1..][..k];
      k + 1
  }

  /** `'-'.join(parts)`. */
  function JoinDash(parts: seq<string>): string
  {
    if |parts| == 0 then ""
    else if |parts| == 1 then parts[0]
    else parts[0] + "-" + JoinDash(parts[1..])
  }

  /** Python's `s.split('-')`: the dash-free pieces between the separators, empty pieces included. */
  function SplitDash(s: string): (parts: seq<string>)
    ensures |parts| == multiset(s)['-'] + 1
    ensures forall k :: 0 <= k < |parts| ==> DashFree(parts[k])
    ensures JoinDash(parts) == s
    decreases |s|
  {
    var i := FindDash(s);
    if i == |s| then
      assert s[..i] == s;
      [s]
    else
      var rest := SplitDash(s[i + 1..]);
      CutAtDash(s, i);
      JoinCons(s[..i], rest);
      [s[..i]] + rest
  }

  /** Cutting at the first dash: the text before it, the dash, and the rest, which holds every other dash. */
  lemma CutAtDash(s: string, i: int)
    requires 0 <= i < |s| && s[i] == '-' && DashFree(s[..i])
    ensures s == s[..i] + "-" + s[i + 1..]
    ensures multiset(s)['-'] == multiset(s[i + 1..])['-'] + 1
  {
    assert s == s[..i] + "-" + s[i + 1..];
    assert multiset(s) == multiset(s[..i]) + multiset{'-'} + multiset(s[i + 1..]);
  }

  lemma JoinCons(p: string, rest: seq<string>)
    requires |rest| >= 1
    ensures JoinDash([p] + rest) == p + "-" + JoinDash(rest)
  {
    assert ([p] + rest)[1..] == rest;
  }

  /** The other half of the round trip: splitting a join of dash-free pieces gives the pieces back. */
  lemma {:induction false} SplitJoin(parts: seq<string>)
    requires |parts| >= 1
    requires forall k :: 0 <= k < |parts| ==> DashFree(parts[k])
    ensures SplitDash(JoinDash(parts)) == parts
    decreases |parts|
  {
    var p := parts[0];
    if |parts| == 1 {
      assert FindDash(p) == |p| by { DashFreeHasNoDash(p); }
    } else {
      var s := JoinDash(parts);
      assert s == p + "-" + JoinDash(parts[1..]);
      assert s[..|p|] == p;
      assert FindDash(s) == |p| by { FirstDashAfterPrefix(p, JoinDash(parts[1..])); }
      assert s[|p| + 1..] == JoinDash(parts[1..]);
      SplitJoin(parts[1..]);
      assert parts == [p] + parts[1..];
    }
  }

  lemma DashFreeHasNoDash(p: string)
    requires DashFree(p)
    ensures FindDash(p) == |p|
  {
    var i := FindDash(p);
    if i < |p| {
      assert p[i] in p;
    }
  }

  lemma FirstDashAfterPrefix(p: string, r: string)
    requires DashFree(p)
    ensures FindDash(p + "-" + r) == |p|
  {
    var s := p + "-" + r;
    assert s[|p|] == '-';
    assert s[..|p|] == p;
  }
}
