/** Orders and the "sorted distinct values" listing. Python's `sorted` on
    strings compares code point by code point (a proper prefix sorts first);
    on integers it is the usual order. `sorted(x.unique())` is `SortDistinct`. */
module Ordering {
  import opened Seqs

  /** `lt` is a strict total order. */
  ghost predicate StrictTotalOrder<T(!new)>(lt: (T, T) -> bool) {
    && (forall a :: !lt(a, a))
    && (forall a, b, c :: lt(a, b) && lt(b, c) ==> lt(a, c))
    && (forall a, b :: a == b || lt(a, b) || lt(b, a))
  }

  /** Strictly ascending under `lt`; for a strict order this also means
      duplicate-free. */
  ghost predicate Increasing<T>(s: seq<T>, lt: (T, T) -> bool) {
    forall i, j :: 0 <= i < j < |s| ==> lt(s[i], s[j])
  }

  /** Lexicographic order on strings, as Python's `<` on `str`. */
  predicate StrLess(a: string, b: string)
    decreases |a|
  {
    if |a| == 0 then |b| > 0
    else |b| > 0 && (a[0] < b[0] || (a[0] == b[0] && StrLess(a[1..], b[1..])))
  }

  /** The usual order on integers, as Python's `<` on `int`. */
  predicate IntLess(a: int, b: int) {
    a < b
  }

  lemma {:induction false} StrLessIrreflexive(a: string)
    ensures !StrLess(a, a)
  {
    if |a| > 0 {
      StrLessIrreflexive(a[1..]);
    }
  }

  lemma {:induction false} StrLessTransitive(a: string, b: string, c: string)
    requires StrLess(a, b) && StrLess(b, c)
    ensures StrLess(a, c)
    decreases |a|
  {
    if |a| > 0 && a[0] == b[0] && b[0] == c[0] {
      StrLessTransitive(a[1..], b[1..], c[1..]);
    }
  }

  lemma {:induction false} StrLessTotal(a: string, b: string)
    ensures a == b || StrLess(a, b) || StrLess(b, a)
    decreases |a|
  {
    if |a| > 0 && |b| > 0 && a[0] == b[0] {
      StrLessTotal(a[1..], b[1..]);
      if a[1..] == b[1..] {
        assert a == [a[0]] + a[1..] && b == [b[0]] + b[1..];
      }
    }
  }

  /** Python's string comparison is a strict total order. */
  lemma StrLessOrder()
    ensures StrictTotalOrder(StrLess)
  {
    forall a: string ensures !StrLess(a, a) {
      StrLessIrreflexive(a);
    }
    forall a: string, b: string, c: string | StrLess(a, b) && StrLess(b, c)
      ensures StrLess(a, c)
    {
      StrLessTransitive(a, b, c);
    }
    forall a: string, b: string ensures a == b || StrLess(a, b) || StrLess(b, a) {
      StrLessTotal(a, b);
    }
  }

  lemma IntLessOrder()
    ensures StrictTotalOrder(IntLess)
  {
  }

  /** Inserts `x` into an ascending, duplicate-free sequence, unless it is
      already there. */
  function Insert<T(==,!new)>(x: T, s: seq<T>, lt: (T, T) -> bool): (r: seq<T>)
    requires StrictTotalOrder(lt)
    requires Increasing(s, lt)
    ensures Increasing(r, lt)
    ensures forall y :: y in r <==> y == x || y in s
    ensures |r| == if x in s then |s| else |s| + 1
  {
    if |s| == 0 then [x]
    else if x == s[0] then s
    else if lt(x, s[0]) then [x] + s
    else
      var rest := Insert(x, s[1..], lt);
      assert forall y :: y in s[1..] ==> lt(s[0], y);
      [s[0]] + rest
  }

  /** The distinct elements of `xs`, in ascending order: `sorted(set(xs))`. */
  function SortDistinct<T(==,!new)>(xs: seq<T>, lt: (T, T) -> bool): (r: seq<T>)
    requires StrictTotalOrder(lt)
    ensures Increasing(r, lt)
    ensures forall y :: y in r <==> y in xs
  {
    if |xs| == 0 then []
    else Insert(xs[0], SortDistinct(xs[1..], lt), lt)
  }

  /** An ascending sequence has no duplicates, so its length is the number
      of distinct values. */
  lemma IncreasingDistinct<T(!new)>(s: seq<T>, lt: (T, T) -> bool)
    requires StrictTotalOrder(lt)
    requires Increasing(s, lt)
    ensures Distinct(s)
    ensures |s| == |Elements(s)|
  {
    DistinctCard(s);
  }

  /** A strictly ascending sequence is determined by its elements: sorting
      the distinct values gives the same list whatever order they came in. */
  lemma {:induction false} IncreasingUnique<T(!new)>(a: seq<T>, b: seq<T>, lt: (T, T) -> bool)
    requires StrictTotalOrder(lt)
    requires Increasing(a, lt) && Increasing(b, lt)
    requires forall x :: x in a <==> x in b
    ensures a == b
  {
    IncreasingDistinct(a, lt);
    IncreasingDistinct(b, lt);
    assert Elements(a) == Elements(b);
    if |a| > 0 {
      assert a[0] in b;
      assert b[0] in a;
      var j :| 0 <= j < |b| && b[j] == a[0];
      var i :| 0 <= i < |a| && a[i] == b[0];
      assert a[0] == b[0];
      forall x ensures x in a[1..] <==> x in b[1..] {
        if x in a[1..] {
          var i :| 1 <= i < |a| && a[i] == x;
          assert x != a[0] by { assert lt(a[0], a[i]); }
          assert x in a && x in b;
          var k :| 0 <= k < |b| && b[k] == x;
          assert b[1..][k - 1] == x;
        }
        if x in b[1..] {
          var j :| 1 <= j < |b| && b[j] == x;
          assert x != b[0] by { assert lt(b[0], b[j]); }
          assert x in b && x in a;
          var k :| 0 <= k < |a| && a[k] == x;
          assert a[1..][k - 1] == x;
        }
      }
      IncreasingUnique(a[1..], b[1..], lt);
      assert a == [a[0]] + a[1..] && b == [b[0]] + b[1..];
    }
  }

  /** `sorted(set(xs))` for strings. */
  function SortedStrings(xs: seq<string>): (r: seq<string>)
    ensures Increasing(r, StrLess)
    ensures forall y :: y in r <==> y in xs
    ensures |r| == |Elements(xs)|
  {
    StrLessOrder();
    var r := SortDistinct(xs, StrLess);
    IncreasingDistinct(r, StrLess);
    assert Elements(r) == Elements(xs);
    r
  }

  /** `sorted(set(xs))` for integers. */
  function SortedInts(xs: seq<int>): (r: seq<int>)
    ensures Increasing(r, IntLess)
    ensures forall y :: y in r <==> y in xs
    ensures |r| == |Elements(xs)|
  {
    IntLessOrder();
    var r := SortDistinct(xs, IntLess);
    IncreasingDistinct(r, IntLess);
    assert Elements(r) == Elements(xs);
    r
  }
}
