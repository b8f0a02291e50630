/** Optional values: JavaScript's `null`/`undefined` next to a present value. */
module Options {

  datatype Option<+T> = None | Some(value: T)
}

/**
 Order-preserving list operations shared by the pages: JavaScript's
 `Array.prototype.filter` and the "map, replacing the matching elements"
 idiom `xs.map(x => pick(x) ? f(x) : x)`.
 */
module Lists {

  /** `xs.filter(keep)`: the kept elements, in their original order. */
  function Filter<T(==,!new)>(xs: seq<T>, keep: T -> bool): (r: seq<T>)
    ensures |r| <= |xs|
    ensures forall x :: x in r <==> x in xs && keep(x)
    ensures forall i :: 0 <= i < |r| ==> keep(r[i])
  {
    if |xs| == 0 then []
    else if keep(xs[0]) then [xs[0]] + Filter(xs[1..], keep)
    else Filter(xs[1..], keep)
  }

  /** `a` is obtained from `b` by deleting elements, keeping the order of the rest. */
  predicate IsSubsequence<T(==,!new)>(a: seq<T>, b: seq<T>)
    decreases |b|
  {
    |a| == 0 ||
    (|b| > 0 && ((a[0] == b[0] && IsSubsequence(a[1..], b[1..])) || IsSubsequence(a, b[1..])))
  }

  lemma {:induction false} FilterIsSubsequence<T(!new)>(xs: seq<T>, keep: T -> bool)
    ensures IsSubsequence(Filter(xs, keep), xs)
    decreases |xs|
  {
    if |xs| > 0 {
      FilterIsSubsequence(xs[1..], keep);
      var r := Filter(xs, keep);
      if keep(xs[0]) {
        assert r[0] == xs[0] && r[1..] == Filter(xs[1..], keep);
      } else if |r| > 0 {
        assert r == Filter(xs[1..], keep);
      }
    }
  }

  /** When every element passes, filtering returns the list itself. */
  lemma {:induction false} FilterKeepsAll<T(!new)>(xs: seq<T>, keep: T -> bool)
    requires forall i :: 0 <= i < |xs| ==> keep(xs[i])
    ensures Filter(xs, keep) == xs
    decreases |xs|
  {
    if |xs| > 0 {
      FilterKeepsAll(xs[1..], keep);
      assert [xs[0]] + xs[1..] == xs;
    }
  }

  /** Filtering distributes over concatenation (appending a page, then filtering). */
  lemma {:induction false} FilterAppend<T(!new)>(a: seq<T>, b: seq<T>, keep: T -> bool)
    ensures Filter(a + b, keep) == Filter(a, keep) + Filter(b, keep)
    decreases |a|
  {
    if |a| > 0 {
      assert (a + b)[1..] == a[1..] + b;
      FilterAppend(a[1..], b, keep);
    } else {
      assert a + b == b;
    }
  }

  /** Filtering depends only on which elements the predicate keeps. */
  lemma {:induction false} FilterSamePredicate<T(!new)>(xs: seq<T>, p: T -> bool, q: T -> bool)
    requires forall i :: 0 <= i < |xs| ==> p(xs[i]) == q(xs[i])
    ensures Filter(xs, p) == Filter(xs, q)
    decreases |xs|
  {
    if |xs| > 0 {
      FilterSamePredicate(xs[1..], p, q);
    }
  }

  /** `xs.map(x => pick(x) ? f(x) : x)`. */
  function MapWhere<T>(xs: seq<T>, pick: T -> bool, f: T -> T): (r: seq<T>)
    ensures |r| == |xs|
    ensures forall i :: 0 <= i < |xs| ==> r[i] == (if pick(xs[i]) then f(xs[i]) else xs[i])
  {
    seq(|xs|, i requires 0 <= i < |xs| => if pick(xs[i]) then f(xs[i]) else xs[i])
  }

  /** Number of elements satisfying `p`. */
  function CountWhere<T>(xs: seq<T>, p: T -> bool): (n: nat)
    ensures n <= |xs|
  {
    if |xs| == 0 then 0 else (if p(xs[0]) then 1 else 0) + CountWhere(xs[1..], p)
  }

  /** Filtering keeps exactly the elements the predicate counts. */
  lemma {:induction false} FilterLength<T(!new)>(xs: seq<T>, keep: T -> bool)
    ensures |Filter(xs, keep)| == CountWhere(xs, keep)
    decreases |xs|
  {
    if |xs| > 0 {
      FilterLength(xs[1..], keep);
    }
  }
}
