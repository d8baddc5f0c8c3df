/** Stable ordering by an integer key: the model of `orderBy(asc(column))` over a table scan,
    with rows of equal key kept in table order. */
module Sorting {

  /** `xs` is in ascending key order. */
  ghost predicate SortedBy<T>(xs: seq<T>, key: T -> int)
  {
    forall i, j :: 0 <= i < j < |xs| ==> key(xs[i]) <= key(xs[j])
  }

  /** `x` placed into sorted `xs` before the first element whose key is not smaller,
      so that it precedes every element of equal key. */
  function InsertBy<T>(x: T, xs: seq<T>, key: T -> int): (r: seq<T>)
    requires SortedBy(xs, key)
    ensures SortedBy(r, key)
    ensures multiset(r) == multiset(xs) + multiset{x}
    ensures |r| == |xs| + 1
    ensures r[0] == x || (|xs| > 0 && r[0] == xs[0])
  {
    if |xs| == 0 then [x]
    else if key(x) <= key(xs[0]) then [x] + xs
    else
      var rest := InsertBy(x, xs[1..], key);
      assert xs == [xs[0]] + xs[1..];
      [xs[0]] + rest
  }

  /** Stable insertion sort of `xs` by `key`. */
  function SortBy<T>(xs: seq<T>, key: T -> int): (r: seq<T>)
    ensures SortedBy(r, key)
    ensures multiset(r) == multiset(xs)
    ensures |r| == |xs|
  {
    if |xs| == 0 then []
    else
      assert xs == [xs[0]] + xs[1..];
      InsertBy(xs[0], SortBy(xs[1..], key), key)
  }

  /** Sorting neither adds nor drops elements. */
  lemma SortBySameElements<T>(xs: seq<T>, key: T -> int)
    ensures forall i :: 0 <= i < |SortBy(xs, key)| ==> SortBy(xs, key)[i] in xs
    ensures forall i :: 0 <= i < |xs| ==> xs[i] in SortBy(xs, key)
  {
    var r := SortBy(xs, key);
    forall i | 0 <= i < |r| ensures r[i] in xs { assert r[i] in multiset(r); }
    forall i | 0 <= i < |xs| ensures xs[i] in r { assert xs[i] in multiset(xs); }
  }

  /** The first element of `xs` whose key is minimal: what `orderBy(asc(key)).limit(1)` selects. */
  function MinBy<T>(xs: seq<T>, key: T -> int): (m: T)
    requires |xs| > 0
    ensures m in xs
    ensures forall i :: 0 <= i < |xs| ==> key(m) <= key(xs[i])
    ensures exists i :: 0 <= i < |xs| && xs[i] == m && forall j :: 0 <= j < i ==> key(xs[j]) > key(m)
  {
    if |xs| == 1 then xs[0]
    else
      var m := MinBy(xs[1..], key);
      if key(xs[0]) <= key(m) then xs[0]
      else
        assert forall i :: 1 <= i < |xs| ==> key(m) <= key(xs[i]) by {
          forall i | 1 <= i < |xs| ensures key(m) <= key(xs[i]) { assert xs[i] == xs[1..][i - 1]; }
        }
        assert exists i :: 1 <= i < |xs| && xs[i] == m && forall j :: 0 <= j < i ==> key(xs[j]) > key(m) by {
          var k :| 0 <= k < |xs[1..]| && xs[1..][k] == m && forall j :: 0 <= j < k ==> key(xs[1..][j]) > key(m);
          forall j | 0 <= j < k + 1 ensures key(xs[j]) > key(m) {
            if j > 0 { assert xs[j] == xs[1..][j - 1]; }
          }
        }
        m
  }

  /** The head of the sorted sequence is the element `MinBy` selects: the ordered listing and the
      `limit 1` query agree, including on ties. */
  lemma {:induction false} SortHeadIsMin<T>(xs: seq<T>, key: T -> int)
    requires |xs| > 0
    ensures SortBy(xs, key)[0] == MinBy(xs, key)
  {
    if |xs| > 1 {
      SortHeadIsMin(xs[1..], key);
    }
  }
}
