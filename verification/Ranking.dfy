/** Group-by-and-sum followed by "sort descending, take N": the shape of both
    top-player rankings. `groupby(key)[col].sum()` and `value_counts()` become
    `Tally` over credits; `.sort_values(ascending=False).head(N)` becomes `Top`.
    pandas gives no tie-breaking guarantee, so the contracts say nothing about
    the order of equal scores. */
module Ranking {
  import opened Seqs
  import opened Ordering

  /** One row's contribution: `amount` credited to `name`. */
  datatype Credit = Credit(name: string, amount: nat)

  /** One ranked entry: a name and its aggregated score. */
  datatype Ranked = Ranked(name: string, score: nat)

  /** A ranking split into the selected entries and the remaining ones. */
  datatype Split = Split(top: seq<Ranked>, rest: seq<Ranked>)

  function CreditName(c: Credit): string { c.name }

  function NameOf(e: Ranked): string { e.name }

  function AmountFor(name: string): Credit -> nat {
    (c: Credit) => if c.name == name then c.amount else 0
  }

  /** The total credited to `name`. */
  function Total(cs: seq<Credit>, name: string): nat {
    SumOf(AmountFor(name), cs)
  }

  /** The names that received some credit. */
  function Names(cs: seq<Credit>): set<string> {
    Image(CreditName, cs)
  }

  ghost predicate DistinctNames(es: seq<Ranked>) {
    forall i, j :: 0 <= i < j < |es| ==> es[i].name != es[j].name
  }

  ghost predicate NonIncreasing(es: seq<Ranked>) {
    forall i, j :: 0 <= i < j < |es| ==> es[j].score <= es[i].score
  }

  /** No remaining entry scores more than a selected one. */
  ghost predicate Dominates(s: Split) {
    forall i, j :: 0 <= i < |s.top| && 0 <= j < |s.rest| ==> s.rest[j].score <= s.top[i].score
  }

  function Min(a: nat, b: nat): nat {
    if a <= b then a else b
  }

  /** One entry per credited name, in ascending name order (the grouping
      sorts its keys), carrying that name's total. */
  function Tally(cs: seq<Credit>): (r: seq<Ranked>)
    ensures |r| == |Names(cs)|
    ensures Increasing(Map(NameOf, r), StrLess)
    ensures DistinctNames(r)
    ensures forall i :: 0 <= i < |r| ==> r[i].name in Names(cs) && r[i].score == Total(cs, r[i].name)
    ensures forall n :: n in Names(cs) ==> exists i :: 0 <= i < |r| && r[i].name == n
  {
    var keys := SortedStrings(Map(CreditName, cs));
    assert Elements(Map(CreditName, cs)) == Names(cs);
    var r := Map((k: string) => Ranked(k, Total(cs, k)), keys);
    assert Map(NameOf, r) == keys;
    StrLessOrder();
    assert forall n :: n in keys ==> exists i :: 0 <= i < |keys| && keys[i] == n;
    r
  }

  /** The position of a highest score (the first one). */
  function MaxIndex(es: seq<Ranked>): (k: nat)
    requires |es| > 0
    ensures k < |es|
    ensures forall j :: 0 <= j < |es| ==> es[j].score <= es[k].score
  {
    if |es| == 1 then 0
    else
      var k := MaxIndex(es[1..]);
      if es[0].score >= es[k + 1].score then 0 else k + 1
  }

  function RemoveAt(es: seq<Ranked>, k: nat): seq<Ranked>
    requires k < |es|
  {
    es[..k] + es[k + 1..]
  }

  /** Removing one position leaves the other entries. */
  lemma RemoveAtFacts(es: seq<Ranked>, k: nat)
    requires k < |es|
    ensures multiset(es) == multiset(RemoveAt(es, k)) + multiset{es[k]}
    ensures forall x :: x in RemoveAt(es, k) ==> x in es
  {
    assert es == es[..k] + [es[k]] + es[k + 1..];
    assert multiset(es) == multiset(es[..k]) + multiset{es[k]} + multiset(es[k + 1..]);
    forall x | x in RemoveAt(es, k) ensures x in es {
      assert x in multiset(RemoveAt(es, k));
    }
  }

  /** Removing one position from entries with distinct names leaves distinct
      names, none of them the removed one's. */
  lemma RemoveAtDistinct(es: seq<Ranked>, k: nat)
    requires k < |es|
    requires DistinctNames(es)
    ensures DistinctNames(RemoveAt(es, k))
    ensures forall x :: x in RemoveAt(es, k) ==> x.name != es[k].name
  {
    var others := RemoveAt(es, k);
    assert forall i :: 0 <= i < |others| ==> others[i] == es[if i < k then i else i + 1];
  }

  /** The members of two sequences whose multisets add up to a third are
      members of the third. */
  lemma MultisetParts(a: seq<Ranked>, b: seq<Ranked>, c: seq<Ranked>)
    requires multiset(a) + multiset(b) == multiset(c)
    ensures forall x :: x in a ==> x in c
    ensures forall x :: x in b ==> x in c
  {
    forall x | x in a ensures x in c {
      assert multiset(c)[x] == multiset(a)[x] + multiset(b)[x];
      assert x in multiset(c);
    }
    forall x | x in b ensures x in c {
      assert multiset(c)[x] == multiset(a)[x] + multiset(b)[x];
      assert x in multiset(c);
    }
  }

  /** Selects up to `n` highest-scoring entries by repeatedly taking a
      maximum; the remaining entries go to `rest`. Nothing is lost or
      invented, and exactly min(n, |es|) entries are selected. */
  function TopSplit(es: seq<Ranked>, n: nat): (r: Split)
    ensures multiset(r.top) + multiset(r.rest) == multiset(es)
    ensures |r.top| == Min(n, |es|)
  {
    if n == 0 || |es| == 0 then Split([], es)
    else
      var k := MaxIndex(es);
      RemoveAtFacts(es, k);
      var s := TopSplit(RemoveAt(es, k), n - 1);
      Split([es[k]] + s.top, s.rest)
  }

  /** Putting an entry that scores at least as much as every remaining one
      in front of an ordered split keeps it ordered. */
  lemma ConsOrdered(x: Ranked, s: Split, others: seq<Ranked>)
    requires NonIncreasing(s.top) && Dominates(s)
    requires multiset(s.top) + multiset(s.rest) == multiset(others)
    requires forall y :: y in others ==> y.score <= x.score
    ensures NonIncreasing([x] + s.top)
    ensures Dominates(Split([x] + s.top, s.rest))
  {
    MultisetParts(s.top, s.rest, others);
    var top := [x] + s.top;
    forall i, j | 0 <= i < j < |top| ensures top[j].score <= top[i].score {
      assert top[j] == s.top[j - 1];
      if i > 0 {
        assert top[i] == s.top[i - 1];
      } else {
        assert top[j] in others;
      }
    }
    forall i, j | 0 <= i < |top| && 0 <= j < |s.rest| ensures s.rest[j].score <= top[i].score {
      if i > 0 {
        assert top[i] == s.top[i - 1];
      } else {
        assert s.rest[j] in others;
      }
    }
  }

  /** The selected entries are in non-increasing order of score and none of
      the remaining entries scores more than a selected one. */
  lemma {:induction false} TopSplitOrdered(es: seq<Ranked>, n: nat)
    ensures NonIncreasing(TopSplit(es, n).top)
    ensures Dominates(TopSplit(es, n))
  {
    if n > 0 && |es| > 0 {
      var k := MaxIndex(es);
      var others := RemoveAt(es, k);
      RemoveAtFacts(es, k);
      TopSplitOrdered(others, n - 1);
      var s := TopSplit(others, n - 1);
      assert forall y :: y in others ==> y.score <= es[k].score;
      ConsOrdered(es[k], s, others);
    }
  }

  /** Putting an entry in front of a selection whose names it does not
      share keeps the names distinct. */
  lemma ConsDistinct(x: Ranked, top: seq<Ranked>)
    requires DistinctNames(top)
    requires forall y :: y in top ==> y.name != x.name
    ensures DistinctNames([x] + top)
  {
    var r := [x] + top;
    forall i, j | 0 <= i < j < |r| ensures r[i].name != r[j].name {
      assert r[j] == top[j - 1];
      if i > 0 {
        assert r[i] == top[i - 1];
      } else {
        assert top[j - 1] in top;
      }
    }
  }

  /** Selecting from entries with distinct names yields distinct names. */
  lemma {:induction false} TopSplitDistinct(es: seq<Ranked>, n: nat)
    requires DistinctNames(es)
    ensures DistinctNames(TopSplit(es, n).top)
  {
    if n > 0 && |es| > 0 {
      var k := MaxIndex(es);
      var others := RemoveAt(es, k);
      RemoveAtFacts(es, k);
      RemoveAtDistinct(es, k);
      TopSplitDistinct(others, n - 1);
      var s := TopSplit(others, n - 1);
      MultisetParts(s.top, s.rest, others);
      ConsDistinct(es[k], s.top);
    }
  }

  /** The `n` best-scoring names among the credits: exactly min(n, #names)
      entries, in non-increasing order of total, each with its total, no name
      twice, and no unlisted name scoring more than a listed one. */
  function Top(cs: seq<Credit>, n: nat): (r: seq<Ranked>)
    ensures |r| == Min(n, |Names(cs)|)
    ensures NonIncreasing(r)
    ensures DistinctNames(r)
    ensures forall i :: 0 <= i < |r| ==> r[i].name in Names(cs) && r[i].score == Total(cs, r[i].name)
    ensures forall name, i :: name in Names(cs) && name !in Image(NameOf, r) && 0 <= i < |r| ==>
      Total(cs, name) <= r[i].score
  {
    var tally := Tally(cs);
    var s := TopSplit(tally, n);
    TopSplitOrdered(tally, n);
    TopSplitDistinct(tally, n);
    TopEntries(cs, tally, s);
    TopUnlisted(cs, tally, s);
    s.top
  }

  /** Every selected entry is a tallied name with its total. */
  lemma TopEntries(cs: seq<Credit>, tally: seq<Ranked>, s: Split)
    requires tally == Tally(cs)
    requires multiset(s.top) + multiset(s.rest) == multiset(tally)
    ensures forall i :: 0 <= i < |s.top| ==> s.top[i].name in Names(cs) && s.top[i].score == Total(cs, s.top[i].name)
  {
    MultisetParts(s.top, s.rest, tally);
    forall i | 0 <= i < |s.top|
      ensures s.top[i].name in Names(cs) && s.top[i].score == Total(cs, s.top[i].name)
    {
      assert s.top[i] in tally;
      var j :| 0 <= j < |tally| && tally[j] == s.top[i];
    }
  }

  /** A credited name missing from the selection is in the remainder, so it
      scores no more than any selected entry. */
  lemma TopUnlisted(cs: seq<Credit>, tally: seq<Ranked>, s: Split)
    requires tally == Tally(cs)
    requires multiset(s.top) + multiset(s.rest) == multiset(tally)
    requires Dominates(s)
    ensures forall name, i :: name in Names(cs) && name !in Image(NameOf, s.top) && 0 <= i < |s.top| ==>
      Total(cs, name) <= s.top[i].score
  {
    forall name, i | name in Names(cs) && name !in Image(NameOf, s.top) && 0 <= i < |s.top|
      ensures Total(cs, name) <= s.top[i].score
    {
      var j :| 0 <= j < |tally| && tally[j].name == name;
      assert tally[j] in multiset(tally);
      assert tally[j] !in s.top;
      assert tally[j] in multiset(s.rest);
      var m :| 0 <= m < |s.rest| && s.rest[m] == tally[j];
    }
  }
}
