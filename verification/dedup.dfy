/**
 The dedup scan of the cycle builder, independent of what is scanned: walk a
 sequence in order, keep each element that passes the filter and whose key
 has not been remembered yet, and remember its key.
 */
module Dedup {

  /** The kept elements and the remembered keys, between two iterations. */
  datatype Progress<T, K> = Progress(found: seq<T>, seen: seq<K>)

  /** One iteration: `if accept(t) and key(t) not in seen: found.append(t); seen.append(key(t))`. */
  function Step<T, K(==)>(accept: T -> bool, key: T -> K, p: Progress<T, K>, t: T): Progress<T, K>
  {
    if accept(t) && key(t) !in p.seen then Progress(p.found + [t], p.seen + [key(t)])
    else p
  }

  /** The state after the iterations over `ts`, in order, starting from two empty lists. */
  function Scan<T, K(==)>(accept: T -> bool, key: T -> K, ts: seq<T>): Progress<T, K>
    decreases |ts|
  {
    if |ts| == 0 then Progress([], [])
    else Step(accept, key, Scan(accept, key, ts[..|ts| - 1]), ts[|ts| - 1])
  }

  /** Position `i` holds an accepted element whose key no earlier accepted element has. */
  predicate FirstOfKey<T, K(==)>(accept: T -> bool, key: T -> K, ts: seq<T>, i: int)
  {
    && 0 <= i < |ts|
    && accept(ts[i])
    && forall j :: 0 <= j < i && accept(ts[j]) ==> key(ts[j]) != key(ts[i])
  }

  /**
   The elements at the positions where `FirstOfKey` holds, in order: what a
   dedup scan is meant to keep, defined without a list of remembered keys.
   */
  function Representatives<T, K(==)>(accept: T -> bool, key: T -> K, ts: seq<T>): seq<T>
    decreases |ts|
  {
    if |ts| == 0 then []
    else Representatives(accept, key, ts[..|ts| - 1])
         + (if FirstOfKey(accept, key, ts, |ts| - 1) then [ts[|ts| - 1]] else [])
  }

  /**
   The remembered keys are the keys of the kept elements, with no key twice;
   every kept element was accepted and met; every accepted element met has its
   key remembered.
   */
  lemma {:induction false} ScanFacts<T, K>(accept: T -> bool, key: T -> K, ts: seq<T>)
    ensures |Scan(accept, key, ts).seen| == |Scan(accept, key, ts).found|
    ensures forall i :: 0 <= i < |Scan(accept, key, ts).found| ==>
              Scan(accept, key, ts).seen[i] == key(Scan(accept, key, ts).found[i])
    ensures forall i :: 0 <= i < |Scan(accept, key, ts).found| ==>
              accept(Scan(accept, key, ts).found[i]) && Scan(accept, key, ts).found[i] in ts
    ensures forall i, j :: 0 <= i < j < |Scan(accept, key, ts).seen| ==>
              Scan(accept, key, ts).seen[i] != Scan(accept, key, ts).seen[j]
    ensures forall j :: 0 <= j < |ts| && accept(ts[j]) ==> key(ts[j]) in Scan(accept, key, ts).seen
    decreases |ts|
  {
    if |ts| > 0 {
      var pre := ts[..|ts| - 1];
      ScanFacts(accept, key, pre);
      assert forall j :: 0 <= j < |pre| ==> ts[j] == pre[j];
      assert forall t :: t in pre ==> t in ts;
    }
  }

  /** The scan keeps exactly the first accepted element of every key, in the order met. */
  lemma {:induction false} ScanIsRepresentatives<T, K>(accept: T -> bool, key: T -> K, ts: seq<T>)
    ensures Scan(accept, key, ts).found == Representatives(accept, key, ts)
    decreases |ts|
  {
    if |ts| > 0 {
      var n := |ts|;
      var pre := ts[..n - 1];
      var t := ts[n - 1];
      ScanIsRepresentatives(accept, key, pre);
      ScanFacts(accept, key, pre);
      var p := Scan(accept, key, pre);
      if accept(t) {
        if key(t) in p.seen {
          var x :| 0 <= x < |p.seen| && p.seen[x] == key(t);
          var j :| 0 <= j < |pre| && pre[j] == p.found[x];
          assert ts[j] == pre[j];
          assert !FirstOfKey(accept, key, ts, n - 1);
        } else {
          forall j | 0 <= j < n - 1 && accept(ts[j])
            ensures key(ts[j]) != key(t)
          {
            assert ts[j] == pre[j];
          }
          assert FirstOfKey(accept, key, ts, n - 1);
        }
      }
    }
  }

  /** `t` is the element at some position where `FirstOfKey` holds. */
  ghost predicate FirstOfItsKey<T, K>(accept: T -> bool, key: T -> K, ts: seq<T>, t: T)
  {
    exists i :: FirstOfKey(accept, key, ts, i) && ts[i] == t
  }

  /** Every representative sits at a position where it is the first of its key. */
  lemma {:induction false} RepresentativesAreFirst<T, K>(accept: T -> bool, key: T -> K, ts: seq<T>)
    ensures forall x :: 0 <= x < |Representatives(accept, key, ts)| ==>
              FirstOfItsKey(accept, key, ts, Representatives(accept, key, ts)[x])
    decreases |ts|
  {
    if |ts| > 0 {
      var n := |ts|;
      var pre := ts[..n - 1];
      RepresentativesAreFirst(accept, key, pre);
      var rs := Representatives(accept, key, ts);
      var rp := Representatives(accept, key, pre);
      forall x | 0 <= x < |rs|
        ensures FirstOfItsKey(accept, key, ts, rs[x])
      {
        if x < |rp| {
          assert FirstOfItsKey(accept, key, pre, rp[x]);
          var i :| FirstOfKey(accept, key, pre, i) && pre[i] == rp[x];
          assert forall j :: 0 <= j <= i ==> ts[j] == pre[j];
          assert FirstOfKey(accept, key, ts, i) && ts[i] == rs[x];
        } else {
          assert FirstOfKey(accept, key, ts, n - 1) && ts[n - 1] == rs[x];
        }
      }
    }
  }
}
