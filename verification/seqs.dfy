/** Generic sequence helpers: order-preserving filtering, subsequences and
    flattening. */
module Seqs {

  /** The elements of `xs` that satisfy `p`, in their original order. */
  function Filter<T(==,!new)>(xs: seq<T>, p: T -> bool): (r: seq<T>)
    ensures |r| <= |xs|
    ensures forall x :: x in r <==> x in xs && p(x)
    decreases |xs|
  {
    if |xs| == 0 then []
    else (if p(xs[0]) then [xs[0]] else []) + Filter(xs[1..], p)
  }

  /** `a` is obtained from `b` by deleting elements (order kept). */
  predicate IsSubsequence<T(==,!new)>(a: seq<T>, b: seq<T>)
    decreases |b|
  {
    if |a| == 0 then true
    else if |b| == 0 then false
    else if a[0] == b[0] then IsSubsequence(a[1..], b[1..])
    else IsSubsequence(a, b[1..])
  }

  lemma {:induction false} FilterIsSubsequence<T(!new)>(xs: seq<T>, p: T -> bool)
    ensures IsSubsequence(Filter(xs, p), xs)
    decreases |xs|
  {
    if |xs| > 0 {
      FilterIsSubsequence(xs[1..], p);
      if p(xs[0]) {
        assert Filter(xs, p)[1..] == Filter(xs[1..], p);
      } else {
        assert Filter(xs, p) == Filter(xs[1..], p);
        SubsequenceOfTail(Filter(xs[1..], p), xs);
      }
    }
  }

  /** Dropping the head of `b` keeps every subsequence of the tail a
      subsequence of `b`. */
  lemma {:induction false} SubsequenceOfTail<T(!new)>(a: seq<T>, b: seq<T>)
    requires |b| > 0 && IsSubsequence(a, b[1..])
    ensures IsSubsequence(a, b)
    decreases |b|, 0
  {
    if |a| > 0 && a[0] == b[0] {
      SubsequenceWeaken(a, b[1..]);
    }
  }

  /** A subsequence of `b` with its head dropped is still a subsequence of `b`. */
  lemma {:induction false} SubsequenceWeaken<T(!new)>(a: seq<T>, b: seq<T>)
    requires |a| > 0 && IsSubsequence(a, b)
    ensures IsSubsequence(a[1..], b)
    decreases |b|, 1
  {
    if a[0] == b[0] {
      if |a[1..]| > 0 {
        SubsequenceOfTail(a[1..], b);
      }
    } else {
      SubsequenceWeaken(a, b[1..]);
      if |a[1..]| > 0 {
        SubsequenceOfTail(a[1..], b);
      }
    }
  }

  /** Filtering twice is filtering once by the conjunction. */
  lemma {:induction false} FilterFilter<T(!new)>(xs: seq<T>, p: T -> bool, q: T -> bool, pq: T -> bool)
    requires forall x :: pq(x) == (p(x) && q(x))
    ensures Filter(Filter(xs, p), q) == Filter(xs, pq)
    decreases |xs|
  {
    if |xs| > 0 {
      FilterFilter(xs[1..], p, q, pq);
      var head: seq<T> := if p(xs[0]) then [xs[0]] else [];
      FilterAppend(head, Filter(xs[1..], p), q);
      if p(xs[0]) {
        assert head[1..] == [];
        assert Filter(head, q) == (if q(xs[0]) then [xs[0]] else []) + Filter([], q);
      }
    }
  }

  lemma {:induction false} FilterAppend<T(!new)>(a: seq<T>, b: seq<T>, p: T -> bool)
    ensures Filter(a + b, p) == Filter(a, p) + Filter(b, p)
    decreases |a|
  {
    if |a| > 0 {
      assert (a + b)[1..] == a[1..] + b;
      FilterAppend(a[1..], b, p);
    } else {
      assert a + b == b;
    }
  }

  /** The concatenation of a list of lists. */
  function Flatten<T>(xss: seq<seq<T>>): (r: seq<T>)
    decreases |xss|
  {
    if |xss| == 0 then [] else xss[0] + Flatten(xss[1..])
  }

  /** Flattening a list with one more list at the end appends that list. */
  lemma {:induction false} FlattenSnoc<T>(xss: seq<seq<T>>, xs: seq<T>)
    ensures Flatten(xss + [xs]) == Flatten(xss) + xs
    decreases |xss|
  {
    if |xss| == 0 {
      assert [xs][1..] == [];
    } else {
      assert (xss + [xs])[1..] == xss[1..] + [xs];
      FlattenSnoc(xss[1..], xs);
    }
  }

  /** A slice of a suffix of `s` is a slice of `s`. */
  lemma SliceOfSuffix<T>(s: seq<T>, a: seq<T>, k: int, n: int)
    requires |a| <= |s| && a == s[|s| - |a|..] && 0 <= k && 0 <= n && k + n <= |a|
    ensures a[k..k + n] == s[|s| - |a| + k..|s| - |a| + k + n]
  {
    var off := |s| - |a|;
    var x, y := a[k..k + n], s[off + k..off + k + n];
    forall i | 0 <= i < n ensures x[i] == y[i] {
      assert a[k + i] == s[off + k + i];
    }
  }

  /** A slice of a suffix of `s` is a slice of `s`. */
  lemma SliceOfSuffixAt<T>(s: seq<T>, a: seq<T>, t: seq<T>, k: nat) returns (lo: nat)
    requires |a| <= |s| && a == s[|s| - |a|..] && k + |t| <= |a| && t == a[k..k + |t|]
    ensures lo == |s| - |a| + k && lo + |t| <= |s| && t == s[lo..lo + |t|]
  {
    SliceOfSuffix(s, a, k, |t|);
    lo := |s| - |a| + k;
  }

  /** The middle of a three-part concatenation. */
  lemma MiddleOf<T>(h: seq<T>, m: seq<T>, t: seq<T>)
    ensures (h + m + t)[|h|..|h| + |m|] == m
  {
    var w := h + m + t;
    var mid := w[|h|..|h| + |m|];
    forall i | 0 <= i < |m| ensures mid[i] == m[i] {
      assert w[|h| + i] == m[i];
    }
  }

  /** Growing a prefix of `b` by one element, after a fixed `a`. */
  lemma SnocTake<T>(a: seq<T>, b: seq<T>, j: int)
    requires 0 <= j < |b|
    ensures a + b[..j + 1] == (a + b[..j]) + [b[j]]
  {
    assert b[..j + 1] == b[..j] + [b[j]];
  }
}
