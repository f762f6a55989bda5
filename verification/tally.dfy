/** Counting, filtering and de-duplicating sequences of rows: the table
    operations that boolean-mask indexing and `value_counts` perform. */
module Tally {

  function Min(a: nat, b: nat): nat
  {
    if a <= b then a else b
  }

  /** Number of occurrences of `v` in `xs`. */
  function Count<T(==)>(xs: seq<T>, v: T): (n: nat)
    ensures n <= |xs|
    ensures n > 0 <==> v in xs
  {
    if |xs| == 0 then 0
    else
      assert xs == [xs[0]] + xs[1..];
      (if xs[0] == v then 1 else 0) + Count(xs[1..], v)
  }

  lemma {:induction false} CountAppend<T>(a: seq<T>, b: seq<T>, v: T)
    ensures Count(a + b, v) == Count(a, v) + Count(b, v)
  {
    if |a| == 0 {
      assert a + b == b;
    } else {
      assert (a + b)[1..] == a[1..] + b;
      CountAppend(a[1..], b, v);
    }
  }

  /** Every element of `xs` equals `v` exactly when `v` occurs |xs| times. */
  lemma {:induction false} CountAllEqual<T>(xs: seq<T>, v: T)
    requires forall i :: 0 <= i < |xs| ==> xs[i] == v
    ensures Count(xs, v) == |xs|
  {
    if |xs| > 0 {
      CountAllEqual(xs[1..], v);
    }
  }

  /** The set of elements of a sequence. */
  function Elems<T>(xs: seq<T>): set<T>
  {
    set x | x in xs
  }

  predicate NoDuplicates<T(==)>(s: seq<T>)
  {
    forall i, j :: 0 <= i < j < |s| ==> s[i] != s[j]
  }

  /** A sequence without repetitions has as many elements as its set. */
  lemma {:induction false} NoDuplicatesCard<T>(s: seq<T>)
    requires NoDuplicates(s)
    ensures |Elems(s)| == |s|
  {
    if |s| > 0 {
      var t := s[1..];
      assert NoDuplicates(t) by {
        forall i, j | 0 <= i < j < |t| ensures t[i] != t[j] {
          assert t[i] == s[i + 1] && t[j] == s[j + 1];
        }
      }
      NoDuplicatesCard(t);
      assert s == [s[0]] + t;
      assert Elems(s) == {s[0]} + Elems(t);
      assert s[0] !in Elems(t);
    }
  }

  /** An element of a sequence without repetitions occurs exactly once. */
  lemma {:induction false} CountUnique<T>(s: seq<T>, v: T)
    requires NoDuplicates(s) && v in s
    ensures Count(s, v) == 1
  {
    assert s == [s[0]] + s[1..];
    if s[0] == v {
      assert v !in s[1..];
    } else {
      CountUnique(s[1..], v);
    }
  }

  /** The keep-if-true mask `xs[p(xs)]`: the elements satisfying `p`, in order. */
  function Filter<T(!new)>(xs: seq<T>, p: T -> bool): (r: seq<T>)
    ensures |r| <= |xs|
    ensures forall x :: x in r <==> x in xs && p(x)
  {
    if |xs| == 0 then []
    else
      assert xs == [xs[0]] + xs[1..];
      (if p(xs[0]) then [xs[0]] else []) + Filter(xs[1..], p)
  }

  /** `a` is obtained from `b` by deleting elements (order kept). */
  predicate IsSubsequence<T(==)>(a: seq<T>, b: seq<T>)
    decreases |b|
  {
    if |a| == 0 then true
    else if |b| == 0 then false
    else if a[0] == b[0] then IsSubsequence(a[1..], b[1..])
    else IsSubsequence(a, b[1..])
  }

  /** Filtering keeps the surviving rows in their original order. */
  lemma {:induction false} FilterIsSubsequence<T(!new)>(xs: seq<T>, p: T -> bool)
    ensures IsSubsequence(Filter(xs, p), xs)
  {
    if |xs| > 0 {
      FilterIsSubsequence(xs[1..], p);
      var rest := Filter(xs[1..], p);
      if p(xs[0]) {
        assert Filter(xs, p) == [xs[0]] + rest;
        assert ([xs[0]] + rest)[1..] == rest;
      } else {
        assert Filter(xs, p) == rest;
        if |rest| > 0 {
          assert rest[0] in rest;
          assert rest[0] != xs[0];
        }
      }
    }
  }

  /** Filtering keeps every copy of a matching row and no copy of any other. */
  lemma {:induction false} FilterCount<T(!new)>(xs: seq<T>, p: T -> bool, v: T)
    ensures Count(Filter(xs, p), v) == if p(v) then Count(xs, v) else 0
  {
    if |xs| > 0 {
      FilterCount(xs[1..], p, v);
      var head := if p(xs[0]) then [xs[0]] else [];
      CountAppend(head, Filter(xs[1..], p), v);
    }
  }

  lemma {:induction false} FilterAppend<T(!new)>(a: seq<T>, b: seq<T>, p: T -> bool)
    ensures Filter(a + b, p) == Filter(a, p) + Filter(b, p)
  {
    if |a| == 0 {
      assert a + b == b;
    } else {
      assert (a + b)[1..] == a[1..] + b;
      FilterAppend(a[1..], b, p);
    }
  }

  /** Masks that agree on every element select the same rows. */
  lemma {:induction false} FilterAgree<T(!new)>(xs: seq<T>, p: T -> bool, q: T -> bool)
    requires forall i :: 0 <= i < |xs| ==> (p(xs[i]) <==> q(xs[i]))
    ensures Filter(xs, p) == Filter(xs, q)
  {
    if |xs| > 0 {
      FilterAgree(xs[1..], p, q);
    }
  }

  /** The conjunction `p & q` of two masks. */
  function And<T>(p: T -> bool, q: T -> bool): T -> bool
  {
    x => p(x) && q(x)
  }

  /** Two successive masks select what their conjunction selects. */
  lemma {:induction false} FilterFilter<T(!new)>(xs: seq<T>, p: T -> bool, q: T -> bool)
    ensures Filter(Filter(xs, p), q) == Filter(xs, And(p, q))
  {
    if |xs| > 0 {
      var head := if p(xs[0]) then [xs[0]] else [];
      FilterAppend(head, Filter(xs[1..], p), q);
      FilterFilter(xs[1..], p, q);
    }
  }

  /** The distinct elements of `xs`, each once. */
  function Distinct<T(==,!new)>(xs: seq<T>): (d: seq<T>)
    ensures NoDuplicates(d)
    ensures forall v :: v in d <==> v in xs
    ensures |d| <= |xs|
  {
    if |xs| == 0 then []
    else
      var last := xs[|xs| - 1];
      var init := xs[..|xs| - 1];
      assert xs == init + [last];
      var d := Distinct(init);
      if last in d then d else d + [last]
  }

  /** The number of distinct elements is the size of the element set. */
  lemma {:induction false} DistinctCard<T(!new)>(xs: seq<T>)
    ensures |Distinct(xs)| == |Elems(xs)|
  {
    var d := Distinct(xs);
    NoDuplicatesCard(d);
    assert Elems(d) == Elems(xs);
  }

  /** Sum of a sequence of integers. */
  function SumOf(xs: seq<int>): int
  {
    if |xs| == 0 then 0 else xs[0] + SumOf(xs[1..])
  }

  lemma {:induction false} SumOfAppend(a: seq<int>, b: seq<int>)
    ensures SumOf(a + b) == SumOf(a) + SumOf(b)
  {
    if |a| == 0 {
      assert a + b == b;
    } else {
      assert (a + b)[1..] == a[1..] + b;
      SumOfAppend(a[1..], b);
    }
  }

  /** With no negative terms, the sum is at least every term. */
  lemma {:induction false} SumOfBoundsTerms(xs: seq<int>)
    requires forall i :: 0 <= i < |xs| ==> xs[i] >= 0
    ensures SumOf(xs) >= 0
    ensures forall i :: 0 <= i < |xs| ==> xs[i] <= SumOf(xs)
  {
    if |xs| > 0 {
      SumOfBoundsTerms(xs[1..]);
      assert forall i :: 1 <= i < |xs| ==> xs[i] == xs[1..][i - 1];
    }
  }
}
