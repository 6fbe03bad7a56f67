/** Relational building blocks over sequences of rows: selection (`Filter`),
    projection (`Map`, `Image`), summation (`SumOf`) and counting (`CountIf`),
    with the lemmas that connect them. A pandas boolean mask `df[mask]`, a
    column `.sum()`, `mask.sum()` and `.nunique()` are all written with these. */
module Seqs {

  /** `a` is obtained from `b` by deleting elements: same relative order,
      nothing new. */
  ghost predicate IsSubsequence<T>(a: seq<T>, b: seq<T>)
    decreases |b|
  {
    |a| == 0 ||
    (|b| > 0 && ((a[0] == b[0] && IsSubsequence(a[1..], b[1..])) || IsSubsequence(a, b[1..])))
  }

  /** No element occurs twice. */
  ghost predicate Distinct<T>(s: seq<T>) {
    forall i, j :: 0 <= i < j < |s| ==> s[i] != s[j]
  }

  /** The set of elements of a sequence. */
  function Elements<T(==)>(s: seq<T>): set<T> {
    set x | x in s
  }

  /** The rows of `s` that satisfy `p`, in their original order. */
  function Filter<T(!new)>(p: T -> bool, s: seq<T>): (r: seq<T>)
    ensures |r| <= |s|
    ensures forall x :: x in r <==> x in s && p(x)
    ensures IsSubsequence(r, s)
  {
    if |s| == 0 then []
    else if p(s[0]) then
      var rest := Filter(p, s[1..]);
      assert ([s[0]] + rest)[1..] == rest;
      [s[0]] + rest
    else Filter(p, s[1..])
  }

  /** Element-wise projection. */
  function Map<T, U>(f: T -> U, s: seq<T>): (r: seq<U>)
    ensures |r| == |s|
    ensures forall i :: 0 <= i < |s| ==> r[i] == f(s[i])
  {
    seq(|s|, i requires 0 <= i < |s| => f(s[i]))
  }

  /** The set of values `f` takes on the elements of `s`. */
  function Image<T(==), U>(f: T -> U, s: seq<T>): set<U> {
    set x | x in s :: f(x)
  }

  /** The sum of `f` over the rows of `s`. */
  function SumOf<T>(f: T -> nat, s: seq<T>): nat {
    if |s| == 0 then 0 else f(s[0]) + SumOf(f, s[1..])
  }

  /** The number of rows of `s` that satisfy `p`. */
  function CountIf<T>(p: T -> bool, s: seq<T>): nat {
    if |s| == 0 then 0 else (if p(s[0]) then 1 else 0) + CountIf(p, s[1..])
  }

  /** The conjunction of two row predicates. */
  function And<T>(p: T -> bool, q: T -> bool): T -> bool {
    x => p(x) && q(x)
  }

  /** `f` where `p` holds, zero elsewhere. */
  function Masked<T>(f: T -> nat, p: T -> bool): T -> nat {
    x => if p(x) then f(x) else 0
  }

  /** Function composition: `f` after `g`. */
  function Compose<T, U>(f: U -> nat, g: T -> U): T -> nat {
    x => f(g(x))
  }

  // ---------------------------------------------------------------------
  // Filtering

  /** A filter that keeps every element is the identity. */
  lemma {:induction false} FilterKeepsAll<T(!new)>(p: T -> bool, s: seq<T>)
    requires forall x :: x in s ==> p(x)
    ensures Filter(p, s) == s
  {
    if |s| > 0 {
      FilterKeepsAll(p, s[1..]);
      assert s == [s[0]] + s[1..];
    }
  }

  /** Filters by pointwise-equal predicates agree. */
  lemma {:induction false} FilterExt<T(!new)>(p: T -> bool, q: T -> bool, s: seq<T>)
    requires forall x :: x in s ==> p(x) == q(x)
    ensures Filter(p, s) == Filter(q, s)
  {
    if |s| > 0 {
      FilterExt(p, q, s[1..]);
    }
  }

  /** Two successive filters are one filter on the conjunction. */
  lemma {:induction false} FilterFilter<T(!new)>(p: T -> bool, q: T -> bool, s: seq<T>)
    ensures Filter(p, Filter(q, s)) == Filter(And(q, p), s)
  {
    if |s| > 0 {
      FilterFilter(p, q, s[1..]);
      if q(s[0]) {
        assert ([s[0]] + Filter(q, s[1..]))[1..] == Filter(q, s[1..]);
      }
    }
  }

  /** Every sequence is a subsequence of itself. */
  lemma {:induction false} SubsequenceReflexive<T>(s: seq<T>)
    ensures IsSubsequence(s, s)
  {
    if |s| > 0 {
      SubsequenceReflexive(s[1..]);
    }
  }

  /** A subsequence of a subsequence is a subsequence. */
  lemma {:induction false} SubsequenceTransitive<T>(a: seq<T>, b: seq<T>, c: seq<T>)
    requires IsSubsequence(a, b) && IsSubsequence(b, c)
    ensures IsSubsequence(a, c)
    decreases |c|
  {
    if |a| > 0 {
      if IsSubsequence(b, c[1..]) {
        SubsequenceTransitive(a, b, c[1..]);
      } else if a[0] == b[0] && IsSubsequence(a[1..], b[1..]) {
        SubsequenceTransitive(a[1..], b[1..], c[1..]);
      } else {
        SubsequenceTransitive(a, b[1..], c[1..]);
      }
    }
  }

  /** Every element of a subsequence is an element of the whole. */
  lemma {:induction false} SubsequenceElements<T>(a: seq<T>, b: seq<T>)
    requires IsSubsequence(a, b)
    ensures forall x :: x in a ==> x in b
    decreases |b|
  {
    if |a| > 0 {
      if a[0] == b[0] && IsSubsequence(a[1..], b[1..]) {
        SubsequenceElements(a[1..], b[1..]);
        assert a == [a[0]] + a[1..];
      } else {
        SubsequenceElements(a, b[1..]);
      }
    }
  }

  // ---------------------------------------------------------------------
  // Sums

  /** Summation distributes over concatenation. */
  lemma {:induction false} SumOfAppend<T>(f: T -> nat, a: seq<T>, b: seq<T>)
    ensures SumOf(f, a + b) == SumOf(f, a) + SumOf(f, b)
  {
    if |a| > 0 {
      SumOfAppend(f, a[1..], b);
      assert (a + b)[1..] == a[1..] + b;
    } else {
      assert a + b == b;
    }
  }

  /** Sums of pointwise-equal functions agree. */
  lemma {:induction false} SumOfExt<T>(f: T -> nat, g: T -> nat, s: seq<T>)
    requires forall x :: x in s ==> f(x) == g(x)
    ensures SumOf(f, s) == SumOf(g, s)
  {
    if |s| > 0 {
      SumOfExt(f, g, s[1..]);
    }
  }

  /** Summing over the selected rows is summing `f` masked by the selection. */
  lemma {:induction false} SumOfFilter<T(!new)>(f: T -> nat, p: T -> bool, s: seq<T>)
    ensures SumOf(f, Filter(p, s)) == SumOf(Masked(f, p), s)
  {
    if |s| > 0 {
      SumOfFilter(f, p, s[1..]);
      if p(s[0]) {
        assert ([s[0]] + Filter(p, s[1..]))[1..] == Filter(p, s[1..]);
      }
    }
  }

  /** Summing over a projection is summing the composition. */
  lemma {:induction false} SumOfMap<T, U>(f: U -> nat, g: T -> U, s: seq<T>)
    ensures SumOf(f, Map(g, s)) == SumOf(Compose(f, g), s)
  {
    if |s| > 0 {
      SumOfMap(f, g, s[1..]);
      assert Map(g, s)[1..] == Map(g, s[1..]);
    }
  }

  /** Dropping rows never increases a sum of naturals. */
  lemma {:induction false} SumOfSubsequence<T>(f: T -> nat, a: seq<T>, b: seq<T>)
    requires IsSubsequence(a, b)
    ensures SumOf(f, a) <= SumOf(f, b)
    decreases |b|
  {
    if |a| > 0 {
      if a[0] == b[0] && IsSubsequence(a[1..], b[1..]) {
        SumOfSubsequence(f, a[1..], b[1..]);
      } else {
        SumOfSubsequence(f, a, b[1..]);
      }
    } else if |b| > 0 {
      assert IsSubsequence(a, b[1..]);
      SumOfSubsequence(f, a, b[1..]);
    }
  }

  // ---------------------------------------------------------------------
  // Counts

  /** Counting distributes over concatenation. */
  lemma {:induction false} CountIfAppend<T>(p: T -> bool, a: seq<T>, b: seq<T>)
    ensures CountIf(p, a + b) == CountIf(p, a) + CountIf(p, b)
  {
    if |a| > 0 {
      CountIfAppend(p, a[1..], b);
      assert (a + b)[1..] == a[1..] + b;
    } else {
      assert a + b == b;
    }
  }

  /** The positions of `s` whose element satisfies `p`. */
  ghost function Indices<T>(p: T -> bool, s: seq<T>): set<int> {
    set i | 0 <= i < |s| && p(s[i])
  }

  /** `CountIf` counts exactly the positions whose element satisfies `p`. */
  lemma {:induction false} CountIfIndices<T>(p: T -> bool, s: seq<T>)
    ensures CountIf(p, s) == |Indices(p, s)|
    decreases |s|
  {
    if |s| > 0 {
      var n := |s| - 1;
      var init := s[..n];
      CountIfIndices(p, init);
      assert s == init + [s[n]];
      CountIfAppend(p, init, [s[n]]);
      if p(s[n]) {
        assert Indices(p, s) == Indices(p, init) + {n};
      } else {
        assert Indices(p, s) == Indices(p, init);
      }
    }
  }

  /** The length of a selection is the number of selected rows, and a count
      over a selection is a count of the conjunction over the whole. */
  lemma {:induction false} CountIfFilter<T(!new)>(p: T -> bool, q: T -> bool, s: seq<T>)
    ensures |Filter(q, s)| == CountIf(q, s)
    ensures CountIf(p, Filter(q, s)) == CountIf(And(q, p), s)
  {
    if |s| > 0 {
      CountIfFilter(p, q, s[1..]);
      if q(s[0]) {
        assert ([s[0]] + Filter(q, s[1..]))[1..] == Filter(q, s[1..]);
      }
    }
  }

  /** Summing a 0/1 indicator of `p` counts the rows satisfying `p`. */
  lemma {:induction false} CountIfAsSum<T>(p: T -> bool, f: T -> nat, s: seq<T>)
    requires forall x :: x in s ==> f(x) == if p(x) then 1 else 0
    ensures SumOf(f, s) == CountIf(p, s)
  {
    if |s| > 0 {
      CountIfAsSum(p, f, s[1..]);
    }
  }

  /** A row that satisfies `p` is counted. */
  lemma {:induction false} CountIfPositive<T>(p: T -> bool, s: seq<T>, x: T)
    requires x in s && p(x)
    ensures CountIf(p, s) >= 1
  {
    if s[0] != x {
      CountIfPositive(p, s[1..], x);
    }
  }

  /** Counts of two predicates that never hold together add up to at most
      the number of rows. */
  lemma {:induction false} CountIfDisjoint<T>(p: T -> bool, q: T -> bool, s: seq<T>)
    requires forall x :: x in s ==> !(p(x) && q(x))
    ensures CountIf(p, s) + CountIf(q, s) <= |s|
  {
    if |s| > 0 {
      CountIfDisjoint(p, q, s[1..]);
    }
  }

  /** Dropping rows never increases a count. */
  lemma {:induction false} CountIfSubsequence<T>(p: T -> bool, a: seq<T>, b: seq<T>)
    requires IsSubsequence(a, b)
    ensures CountIf(p, a) <= CountIf(p, b)
    decreases |b|
  {
    if |a| > 0 {
      if a[0] == b[0] && IsSubsequence(a[1..], b[1..]) {
        CountIfSubsequence(p, a[1..], b[1..]);
      } else {
        CountIfSubsequence(p, a, b[1..]);
      }
    } else if |b| > 0 {
      assert IsSubsequence(a, b[1..]);
      CountIfSubsequence(p, a, b[1..]);
    }
  }

  // ---------------------------------------------------------------------
  // Distinct values

  /** A proper subset has fewer elements. */
  lemma {:induction false} SubsetCard<T>(a: set<T>, b: set<T>)
    requires a <= b
    ensures |a| <= |b|
    decreases |a|
  {
    if a != {} {
      var x :| x in a;
      SubsetCard(a - {x}, b - {x});
    }
  }

  /** A sequence has at most as many distinct projected values as rows, and
      at least one when it is non-empty. */
  lemma {:induction false} ImageBounds<T, U>(f: T -> U, s: seq<T>)
    ensures |Image(f, s)| <= |s|
    ensures |s| > 0 ==> 1 <= |Image(f, s)|
  {
    if |s| > 0 {
      ImageBounds(f, s[1..]);
      assert Image(f, s) == {f(s[0])} + Image(f, s[1..]);
    } else {
      assert Image(f, s) == {};
    }
  }

  /** The projected values of a subsequence are projected values of the whole. */
  lemma ImageSubsequence<T, U>(f: T -> U, a: seq<T>, b: seq<T>)
    requires IsSubsequence(a, b)
    ensures Image(f, a) <= Image(f, b)
    ensures |Image(f, a)| <= |Image(f, b)|
  {
    SubsequenceElements(a, b);
    SubsetCard(Image(f, a), Image(f, b));
  }

  /** A duplicate-free sequence has as many elements as its set. */
  lemma {:induction false} DistinctCard<T>(s: seq<T>)
    requires Distinct(s)
    ensures |Elements(s)| == |s|
  {
    if |s| > 0 {
      DistinctCard(s[1..]);
      assert Elements(s) == {s[0]} + Elements(s[1..]);
      assert s[0] !in Elements(s[1..]);
    } else {
      assert Elements(s) == {};
    }
  }
}
