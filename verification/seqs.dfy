/** Sequence helpers shared by the model: the source's `find`, `filter`, `map` and
    `update ... where` over a list of rows. */
module Seqs {
  import opened Wrappers

  /** The first element of `xs` satisfying `p`, as `Array.prototype.find` or a
      `select ... where ... limit 1` returns it. */
  function Find<T>(xs: seq<T>, p: T -> bool): (r: Option<T>)
    ensures r.None? <==> forall i :: 0 <= i < |xs| ==> !p(xs[i])
    ensures r.Some? ==> exists i :: 0 <= i < |xs| && xs[i] == r.value && p(xs[i])
                                    && forall j :: 0 <= j < i ==> !p(xs[j])
  {
    if |xs| == 0 then None
    else if p(xs[0]) then Some(xs[0])
    else
      var r := Find(xs[1..], p);
      assert r.Some? ==> exists i :: 1 <= i < |xs| && xs[i] == r.value && p(xs[i])
                                     && forall j :: 0 <= j < i ==> !p(xs[j]) by {
        if r.Some? {
          var k :| 0 <= k < |xs[1..]| && xs[1..][k] == r.value && p(xs[1..][k])
                   && forall j :: 0 <= j < k ==> !p(xs[1..][j]);
          assert forall j :: 0 <= j < k + 1 ==> !p(xs[j]) by {
            forall j | 0 <= j < k + 1 ensures !p(xs[j]) {
              if j > 0 { assert xs[j] == xs[1..][j - 1]; }
            }
          }
        }
      }
      r
  }

  /** `Find` returns the element at the first index satisfying `p`. */
  lemma {:induction false} FindFirstMatch<T>(xs: seq<T>, p: T -> bool)
    ensures forall i :: 0 <= i < |xs| && p(xs[i]) && (forall j :: 0 <= j < i ==> !p(xs[j]))
                        ==> Find(xs, p) == Some(xs[i])
  {
    if |xs| > 0 && !p(xs[0]) {
      FindFirstMatch(xs[1..], p);
      forall i | 0 <= i < |xs| && p(xs[i]) && (forall j :: 0 <= j < i ==> !p(xs[j]))
        ensures Find(xs, p) == Some(xs[i])
      {
        assert i > 0;
        assert xs[1..][i - 1] == xs[i];
        assert forall j :: 0 <= j < i - 1 ==> !p(xs[1..][j]) by {
          forall j | 0 <= j < i - 1 ensures !p(xs[1..][j]) { assert xs[1..][j] == xs[j + 1]; }
        }
      }
    }
  }

  /** The elements of `xs` satisfying `p`, in their original order (`Array.prototype.filter`). */
  function Filter<T>(xs: seq<T>, p: T -> bool): (r: seq<T>)
    ensures |r| <= |xs|
    ensures forall i :: 0 <= i < |r| ==> r[i] in xs && p(r[i])
    ensures forall i :: 0 <= i < |xs| && p(xs[i]) ==> xs[i] in r
  {
    if |xs| == 0 then []
    else (if p(xs[0]) then [xs[0]] else []) + Filter(xs[1..], p)
  }

  /** Replacing the single element at `k` changes the number of elements satisfying `p` by
      what the old and the new element contribute. */
  lemma {:induction false} FilterCountUpdate<T>(xs: seq<T>, ys: seq<T>, k: nat, p: T -> bool)
    requires |xs| == |ys| && k < |xs|
    requires forall i :: 0 <= i < |xs| && i != k ==> xs[i] == ys[i]
    ensures |Filter(ys, p)| + (if p(xs[k]) then 1 else 0) == |Filter(xs, p)| + (if p(ys[k]) then 1 else 0)
    decreases k
  {
    if k == 0 {
      assert xs[1..] == ys[1..];
    } else {
      assert xs[0] == ys[0];
      FilterCountUpdate(xs[1..], ys[1..], k - 1, p);
    }
  }

  /** `xs` with every element satisfying `p` replaced by `f` of it and the rest untouched:
      an `update ... set ... where p` on a table, or `list.map(x => p(x) ? f(x) : x)`. */
  function MapWhere<T>(xs: seq<T>, p: T -> bool, f: T -> T): (r: seq<T>)
    ensures |r| == |xs|
    ensures forall i :: 0 <= i < |xs| && !p(xs[i]) ==> r[i] == xs[i]
    ensures forall i :: 0 <= i < |xs| && p(xs[i]) ==> r[i] == f(xs[i])
  {
    seq(|xs|, i requires 0 <= i < |xs| => if p(xs[i]) then f(xs[i]) else xs[i])
  }

  /** `a` can be obtained from `b` by deleting elements (order is kept). */
  ghost predicate SubsequenceOf<T>(a: seq<T>, b: seq<T>)
    decreases |b|
  {
    if |a| == 0 then true
    else if |b| == 0 then false
    else (a[0] == b[0] && SubsequenceOf(a[1..], b[1..])) || SubsequenceOf(a, b[1..])
  }

  /** Filtering keeps the survivors in their original relative order. */
  lemma {:induction false} FilterIsSubsequence<T>(xs: seq<T>, p: T -> bool)
    ensures SubsequenceOf(Filter(xs, p), xs)
  {
    if |xs| > 0 {
      FilterIsSubsequence(xs[1..], p);
      var rest := Filter(xs[1..], p);
      if p(xs[0]) {
        assert Filter(xs, p) == [xs[0]] + rest;
        assert ([xs[0]] + rest)[1..] == rest;
      } else {
        assert Filter(xs, p) == rest;
      }
    }
  }

  /** Filtering with a predicate every element satisfies changes nothing. */
  lemma {:induction false} FilterAll<T>(xs: seq<T>, p: T -> bool)
    requires forall i :: 0 <= i < |xs| ==> p(xs[i])
    ensures Filter(xs, p) == xs
  {
    if |xs| > 0 {
      FilterAll(xs[1..], p);
      assert [xs[0]] + xs[1..] == xs;
    }
  }

  /** Filtering distributes over concatenation. */
  lemma {:induction false} FilterAppend<T>(xs: seq<T>, ys: seq<T>, p: T -> bool)
    ensures Filter(xs + ys, p) == Filter(xs, p) + Filter(ys, p)
  {
    if |xs| == 0 {
      assert xs + ys == ys;
    } else {
      assert (xs + ys)[0] == xs[0];
      assert (xs + ys)[1..] == xs[1..] + ys;
      FilterAppend(xs[1..], ys, p);
    }
  }

  /** Filtering by `p` and then by `q` is filtering by their conjunction. */
  lemma {:induction false} FilterFilter<T>(xs: seq<T>, p: T -> bool, q: T -> bool, r: T -> bool)
    requires forall x :: r(x) == (p(x) && q(x))
    ensures Filter(Filter(xs, p), q) == Filter(xs, r)
  {
    if |xs| > 0 {
      var head := if p(xs[0]) then [xs[0]] else [];
      FilterFilter(xs[1..], p, q, r);
      FilterAppend(head, Filter(xs[1..], p), q);
      assert [xs[0]][1..] == [];
    }
  }

  /** Sequences with the same elements have equally many elements satisfying `p`. */
  lemma {:induction false} FilterPermutationLength<T>(a: seq<T>, b: seq<T>, p: T -> bool)
    requires multiset(a) == multiset(b)
    ensures |Filter(a, p)| == |Filter(b, p)|
    decreases |a|
  {
    if |a| == 0 {
      assert |b| == |multiset(b)| == 0;
    } else {
      var x := a[0];
      assert x in multiset(b);
      var j :| 0 <= j < |b| && b[j] == x;
      var rest := b[..j] + b[j + 1..];
      assert b == b[..j] + ([x] + b[j + 1..]);
      assert a == [x] + a[1..];
      assert multiset(b) == multiset(b[..j]) + multiset{x} + multiset(b[j + 1..]) by {
        assert multiset(b[..j] + ([x] + b[j + 1..])) == multiset(b[..j]) + multiset([x] + b[j + 1..]);
      }
      assert multiset(a) == multiset{x} + multiset(a[1..]);
      assert multiset(rest) == multiset(b[..j]) + multiset(b[j + 1..]);
      assert multiset(rest) == multiset(b) - multiset{x};
      assert multiset(a[1..]) == multiset(a) - multiset{x};
      FilterPermutationLength(a[1..], rest, p);
      FilterAppend(b[..j], [x] + b[j + 1..], p);
      FilterAppend([x], b[j + 1..], p);
      FilterAppend(b[..j], b[j + 1..], p);
      assert [x][1..] == [];
    }
  }

  /** The positions of `xs` whose element satisfies `p`. */
  ghost function Positions<T>(xs: seq<T>, p: T -> bool): set<int>
  {
    set i | 0 <= i < |xs| && p(xs[i])
  }

  /** The length of a filter is the number of positions whose element satisfies `p`. */
  lemma {:induction false} FilterLengthCountsIndices<T>(xs: seq<T>, p: T -> bool)
    ensures |Filter(xs, p)| == |Positions(xs, p)|
    decreases |xs|
  {
    if |xs| > 0 {
      var ys := xs[..|xs| - 1];
      var x := xs[|xs| - 1];
      assert xs == ys + [x];
      FilterLengthCountsIndices(ys, p);
      FilterAppend(ys, [x], p);
      assert [x][1..] == [];
      var before := Positions(ys, p);
      var after := Positions(xs, p);
      if p(x) {
        assert after == before + {|ys|};
        assert |ys| !in before;
      } else {
        assert after == before;
      }
    }
  }

  /** The elements of a duplicate-free sequence are pairwise distinct. */
  ghost predicate Distinct<T>(xs: seq<T>)
  {
    forall i, j :: 0 <= i < |xs| && 0 <= j < |xs| && i != j ==> xs[i] != xs[j]
  }
}
