/**
 * `collections.Counter` over a list of reviewers and its `most_common(n)`:
 * the distinct elements with their counts in order of first appearance,
 * ranked by descending count with ties kept in that order (a stable
 * reverse sort on the count), and cut after `n`.
 */
module CounterModel {
  import opened Wrappers
  import opened Assoc
  import opened KeySort
  import opened Text

  /** `xs.count(x)`. */
  function Occurrences<T(==)>(xs: seq<T>, x: T): nat
    decreases |xs|
  {
    if |xs| == 0 then 0
    else Occurrences(xs[..|xs| - 1], x) + (if xs[|xs| - 1] == x then 1 else 0)
  }

  /** A prefix grown by its next element. */
  lemma TakeOneMore<T>(xs: seq<T>, k: nat)
    requires k < |xs|
    ensures xs[..k] + [xs[k]] == xs[..k + 1]
  {
  }

  /** Counting over one more element of a prefix. */
  lemma OccurrencesPrefix<T>(xs: seq<T>, k: nat, x: T)
    requires k < |xs|
    ensures Occurrences(xs[..k + 1], x) == Occurrences(xs[..k], x) + (if xs[k] == x then 1 else 0)
  {
    assert xs[..k + 1][..k] == xs[..k];
  }

  lemma {:induction false} OccurrencesPositive<T>(xs: seq<T>, x: T)
    ensures Occurrences(xs, x) > 0 <==> x in xs
    decreases |xs|
  {
    if |xs| > 0 {
      OccurrencesPositive(xs[..|xs| - 1], x);
      assert xs == xs[..|xs| - 1] + [xs[|xs| - 1]];
    }
  }

  /** The positions holding `x`. */
  function Positions<T(==)>(xs: seq<T>, x: T): set<nat> {
    set i: nat | i < |xs| && xs[i] == x
  }

  lemma PositionsSnoc<T>(xs: seq<T>, x: T)
    requires |xs| > 0
    ensures Positions(xs, x) == Positions(xs[..|xs| - 1], x) + (if xs[|xs| - 1] == x then {|xs| - 1} else {})
  {
    var n := |xs| - 1;
    assert forall i: nat :: i < n ==> xs[..n][i] == xs[i];
  }

  /** The count of `x` is the number of positions holding it. */
  lemma {:induction false} OccurrencesPositions<T>(xs: seq<T>, x: T)
    ensures Occurrences(xs, x) == |Positions(xs, x)|
    decreases |xs|
  {
    if |xs| > 0 {
      var n := |xs| - 1;
      OccurrencesPositions(xs[..n], x);
      PositionsSnoc(xs, x);
      assert n !in Positions(xs[..n], x);
    }
  }

  /** The distinct elements in order of first appearance (the keys of a `Counter`). */
  function Distinct<T(==)>(xs: seq<T>): seq<T>
    decreases |xs|
  {
    if |xs| == 0 then []
    else
      var d := Distinct(xs[..|xs| - 1]);
      if xs[|xs| - 1] in d then d else d + [xs[|xs| - 1]]
  }

  lemma {:induction false} DistinctMembers<T>(xs: seq<T>)
    ensures forall x :: x in Distinct(xs) <==> x in xs
    ensures forall i, j :: 0 <= i < j < |Distinct(xs)| ==> Distinct(xs)[i] != Distinct(xs)[j]
    decreases |xs|
  {
    if |xs| > 0 {
      DistinctMembers(xs[..|xs| - 1]);
      assert xs == xs[..|xs| - 1] + [xs[|xs| - 1]];
    }
  }

  lemma DistinctHas<T>(xs: seq<T>, x: T)
    ensures x in Distinct(xs) <==> x in xs
  {
    DistinctMembers(xs);
  }

  /** Positions of first occurrence in a longer list are unchanged for the old elements. */
  lemma IndexOfSnoc<T>(init: seq<T>, last: T, y: T)
    requires y in init
    ensures IndexOf(init + [last], y) == IndexOf(init, y) < |init|
  {
    var xs := init + [last];
    var k := IndexOf(init, y);
    assert xs[k] == y;
    assert forall j :: 0 <= j < k ==> xs[j] == init[j];
  }

  lemma IndexOfNew<T>(init: seq<T>, last: T)
    requires last !in init
    ensures IndexOf(init + [last], last) == |init|
  {
    var xs := init + [last];
    assert xs[|init|] == last;
    var i := IndexOf(xs, last);
    assert i <= |init|;
  }

  /** `Distinct` lists the elements in the order in which they first occur. */
  lemma {:induction false} DistinctOrder<T>(xs: seq<T>)
    ensures forall i, j :: 0 <= i < j < |Distinct(xs)| ==> IndexOf(xs, Distinct(xs)[i]) < IndexOf(xs, Distinct(xs)[j])
    decreases |xs|
  {
    if |xs| > 0 {
      var init := xs[..|xs| - 1];
      var last := xs[|xs| - 1];
      DistinctOrder(init);
      DistinctMembers(init);
      assert xs == init + [last];
      var d := Distinct(init);
      var e := Distinct(xs);
      assert e == if last in d then d else d + [last];
      forall i, j | 0 <= i < j < |e| ensures IndexOf(xs, e[i]) < IndexOf(xs, e[j]) {
        assert e[i] == d[i];
        assert d[i] in d;
        DistinctHas(init, d[i]);
        IndexOfSnoc(init, last, e[i]);
        if j < |d| {
          assert e[j] == d[j];
          assert d[j] in d;
          DistinctHas(init, d[j]);
          IndexOfSnoc(init, last, e[j]);
        } else {
          IndexOfNew(init, last);
        }
      }
    }
  }

  /** `Counter(xs)`: each distinct element with its count, as a dictionary in insertion order. */
  function Tally<T(==)>(xs: seq<T>): seq<(T, nat)>
    decreases |xs|
  {
    if |xs| == 0 then []
    else
      var t := Tally(xs[..|xs| - 1]);
      Put(t, xs[|xs| - 1], GetOr(t, xs[|xs| - 1], 0) + 1)
  }

  /** The counter holds exactly the elements of the list, once each, with their counts. */
  lemma {:induction false} TallyGet<T>(xs: seq<T>, x: T)
    ensures Get(Tally(xs), x) == if x in xs then Some(Occurrences(xs, x)) else None
    decreases |xs|
  {
    if |xs| > 0 {
      var init := xs[..|xs| - 1];
      var last := xs[|xs| - 1];
      TallyGet(init, x);
      TallyGet(init, last);
      OccurrencesPositive(init, last);
      PutGet(Tally(init), last, GetOr(Tally(init), last, 0) + 1, x);
      assert xs == init + [last];
    }
  }

  lemma {:induction false} TallyKeys<T>(xs: seq<T>)
    ensures UniqueKeys(Tally(xs))
    ensures Keys(Tally(xs)) == Distinct(xs)
    decreases |xs|
  {
    if |xs| > 0 {
      var init := xs[..|xs| - 1];
      var last := xs[|xs| - 1];
      var t := Tally(init);
      var n := GetOr(t, last, 0) + 1;
      assert Tally(xs) == Put(t, last, n);
      TallyKeys(init);
      PutUnique(t, last, n);
      PutKeys(t, last, n);
      HasKeyInKeys(t, last);
      if HasKey(t, last) {
        assert Keys(Tally(xs)) == Keys(t) == Distinct(xs);
      } else {
        assert Keys(Tally(xs)) == Keys(t) + [last] == Distinct(xs);
      }
    }
  }

  lemma TallySpec<T>(xs: seq<T>)
    ensures UniqueKeys(Tally(xs)) && Keys(Tally(xs)) == Distinct(xs)
    ensures forall i :: 0 <= i < |Tally(xs)| ==> Tally(xs)[i].0 in xs && Tally(xs)[i].1 == Occurrences(xs, Tally(xs)[i].0)
  {
    TallyKeys(xs);
    DistinctMembers(xs);
    var t := Tally(xs);
    forall i | 0 <= i < |t| ensures t[i].0 in xs && t[i].1 == Occurrences(xs, t[i].0) {
      assert Keys(t)[i] == t[i].0;
      GetAt(t, i);
      TallyGet(xs, t[i].0);
    }
  }

  /** The ranking key of `most_common`: larger counts first, ties in insertion order. */
  function ByCount<T>(e: (T, nat)): (int, int) {
    (-(e.1 as int), 0)
  }

  /** The counter's entries after `sorted(..., key=count, reverse=True)`, with their keys. */
  function Ranked<T(==)>(xs: seq<T>): seq<(Key, (T, nat))> {
    Sort(Tag(Tally(xs), ByCount))
  }

  /** `Counter(xs).most_common(n)`. */
  function MostCommon<T(==)>(xs: seq<T>, n: nat): seq<(T, nat)> {
    var ranked := Items(Ranked(xs));
    if n <= |ranked| then ranked[..n] else ranked
  }

  /** Each ranked entry is a counter entry: an element of the list with its true count. */
  lemma RankedEntries<T>(xs: seq<T>)
    ensures |Items(Ranked(xs))| == |Distinct(xs)|
    ensures forall q :: 0 <= q < |Items(Ranked(xs))| ==>
      Items(Ranked(xs))[q].0 in xs && Items(Ranked(xs))[q].1 == Occurrences(xs, Items(Ranked(xs))[q].0)
  {
    var t := Tally(xs);
    var s := Ranked(xs);
    SortTagSpec(t, ByCount, s);
    TallySpec(xs);
  }

  /**
   * The ranked entries hold distinct elements in non-increasing count
   * order, equal counts in order of first appearance.
   */
  lemma RankedOrder<T>(xs: seq<T>)
    ensures forall i, j :: 0 <= i < j < |Items(Ranked(xs))| ==>
      Items(Ranked(xs))[i].0 != Items(Ranked(xs))[j].0 && Items(Ranked(xs))[i].1 >= Items(Ranked(xs))[j].1
    ensures forall i, j :: 0 <= i < j < |Items(Ranked(xs))| && Items(Ranked(xs))[i].1 == Items(Ranked(xs))[j].1 ==>
      IndexOf(xs, Items(Ranked(xs))[i].0) < IndexOf(xs, Items(Ranked(xs))[j].0)
  {
    var t := Tally(xs);
    var s := Ranked(xs);
    var r := Items(s);
    SortTagSpec(t, ByCount, s);
    TallyKeys(xs);
    DistinctOrder(xs);
    forall i, j | 0 <= i < j < |r|
      ensures r[i].0 != r[j].0 && r[i].1 >= r[j].1
      ensures r[i].1 == r[j].1 ==> IndexOf(xs, r[i].0) < IndexOf(xs, r[j].0)
    {
      assert Before(s[i].0, s[j].0);
      var mi := s[i].0.idx;
      var mj := s[j].0.idx;
      assert Keys(t)[mi] == t[mi].0 && Keys(t)[mj] == t[mj].0;
    }
  }

  /** Every element of the list is ranked. */
  lemma RankedCovers<T>(xs: seq<T>, x: T)
    requires x in xs
    ensures exists q :: 0 <= q < |Items(Ranked(xs))| && Items(Ranked(xs))[q].0 == x
  {
    var t := Tally(xs);
    var s := Ranked(xs);
    var r := Items(s);
    SortTagSpec(t, ByCount, s);
    TallyKeys(xs);
    DistinctMembers(xs);
    var d := Distinct(xs);
    var m :| 0 <= m < |d| && d[m] == x;
    assert Keys(t)[m] == t[m].0;
    assert (Key(ByCount(t[m]).0, ByCount(t[m]).1, m), t[m]) in s;
    var q :| 0 <= q < |s| && s[q] == (Key(ByCount(t[m]).0, ByCount(t[m]).1, m), t[m]);
    assert r[q].0 == x;
  }

  /**
   * `most_common(n)`: at most `n` distinct elements, each with its true
   * count, in non-increasing count order, equal counts in order of first
   * appearance, and no element left out counts more than one kept.
   */
  lemma MostCommonSpec<T>(xs: seq<T>, n: nat)
    ensures |MostCommon(xs, n)| == if n <= |Distinct(xs)| then n else |Distinct(xs)|
    ensures forall i :: 0 <= i < |MostCommon(xs, n)| ==>
      MostCommon(xs, n)[i].0 in xs && MostCommon(xs, n)[i].1 == Occurrences(xs, MostCommon(xs, n)[i].0)
    ensures forall i, j :: 0 <= i < j < |MostCommon(xs, n)| ==>
      MostCommon(xs, n)[i].0 != MostCommon(xs, n)[j].0 && MostCommon(xs, n)[i].1 >= MostCommon(xs, n)[j].1
    ensures forall i, j :: 0 <= i < j < |MostCommon(xs, n)| && MostCommon(xs, n)[i].1 == MostCommon(xs, n)[j].1 ==>
      IndexOf(xs, MostCommon(xs, n)[i].0) < IndexOf(xs, MostCommon(xs, n)[j].0)
    ensures forall x :: x in xs && (forall i :: 0 <= i < |MostCommon(xs, n)| ==> MostCommon(xs, n)[i].0 != x) ==>
      forall i :: 0 <= i < |MostCommon(xs, n)| ==> Occurrences(xs, x) <= MostCommon(xs, n)[i].1
  {
    var all := Items(Ranked(xs));
    var r := MostCommon(xs, n);
    RankedEntries(xs);
    RankedOrder(xs);
    assert forall i :: 0 <= i < |r| ==> r[i] == all[i];
    forall x | x in xs && (forall i :: 0 <= i < |r| ==> r[i].0 != x)
      ensures forall i :: 0 <= i < |r| ==> Occurrences(xs, x) <= r[i].1
    {
      RankedCovers(xs, x);
      var q :| 0 <= q < |all| && all[q].0 == x;
      assert q >= |r|;
    }
  }
  /** An element left out of `most_common(n)` occurs no more often than any kept one. */
  lemma MostCommonLeftOut<T>(xs: seq<T>, n: nat, x: T)
    requires x in xs
    requires forall i :: 0 <= i < |MostCommon(xs, n)| ==> MostCommon(xs, n)[i].0 != x
    ensures forall i :: 0 <= i < |MostCommon(xs, n)| ==> Occurrences(xs, x) <= MostCommon(xs, n)[i].1
  {
    MostCommonSpec(xs, n);
  }

}
