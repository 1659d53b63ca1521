/**
 * Python's `sorted(enumerate(xs), key=...)` when the key ends in the
 * element's original position. Keys are tuples compared
 * lexicographically, and no two elements of one list share a key, so
 * the sorted order is determined by the keys alone: any correct sort
 * gives the same list. The ranking of GitLab owners and
 * `Counter.most_common` are both this sort.
 */
module KeySort {

  /** A sort key `(major, minor, position)`. */
  datatype Key = Key(major: int, minor: int, idx: nat)

  /** Tuple comparison: `a` sorts strictly before `b`. */
  predicate Before(a: Key, b: Key) {
    a.major < b.major || (a.major == b.major && (a.minor < b.minor || (a.minor == b.minor && a.idx < b.idx)))
  }

  lemma BeforeTotal(a: Key, b: Key)
    ensures a == b || Before(a, b) || Before(b, a)
  {
  }

  lemma BeforeTransitive(a: Key, b: Key, c: Key)
    requires Before(a, b) && Before(b, c)
    ensures Before(a, c)
  {
  }

  /** Strictly increasing keys. */
  predicate Sorted<T>(s: seq<(Key, T)>) {
    forall i, j {:trigger Before(s[i].0, s[j].0)} :: 0 <= i < j < |s| ==> Before(s[i].0, s[j].0)
  }

  function KeySet<T>(s: seq<(Key, T)>): set<Key> {
    set i | 0 <= i < |s| :: s[i].0
  }

  predicate DistinctKeys<T>(s: seq<(Key, T)>) {
    forall i, j :: 0 <= i < j < |s| ==> s[i].0 != s[j].0
  }

  /** The elements without their keys. */
  function Items<T>(s: seq<(Key, T)>): (r: seq<T>)
    ensures |r| == |s|
    ensures forall i :: 0 <= i < |s| ==> r[i] == s[i].1
  {
    seq(|s|, i requires 0 <= i < |s| => s[i].1)
  }

  /** `enumerate(xs)` with each element's key built from `rank` and its position. */
  function Tag<T>(xs: seq<T>, rank: T -> (int, int)): (r: seq<(Key, T)>)
    ensures |r| == |xs|
    ensures forall i :: 0 <= i < |xs| ==> r[i] == (Key(rank(xs[i]).0, rank(xs[i]).1, i), xs[i])
  {
    seq(|xs|, i requires 0 <= i < |xs| => (Key(rank(xs[i]).0, rank(xs[i]).1, i), xs[i]))
  }

  lemma TagDistinct<T>(xs: seq<T>, rank: T -> (int, int))
    ensures DistinctKeys(Tag(xs, rank))
    ensures Items(Tag(xs, rank)) == xs
  {
  }

  function Insert<T>(x: (Key, T), s: seq<(Key, T)>): (r: seq<(Key, T)>)
    ensures |r| == |s| + 1
    decreases |s|
  {
    if |s| == 0 then [x]
    else if Before(s[0].0, x.0) then [s[0]] + Insert(x, s[1..])
    else [x] + s
  }

  function Sort<T>(s: seq<(Key, T)>): (r: seq<(Key, T)>)
    ensures |r| == |s|
    decreases |s|
  {
    if |s| == 0 then [] else Insert(s[0], Sort(s[1..]))
  }

  lemma KeySetCons<T>(y: (Key, T), s: seq<(Key, T)>)
    ensures KeySet([y] + s) == {y.0} + KeySet(s)
  {
    var r := [y] + s;
    assert r[0].0 == y.0;
    forall k | k in KeySet(r) ensures k in {y.0} + KeySet(s) {
      var m :| 0 <= m < |r| && r[m].0 == k;
      if m > 0 {
        assert s[m - 1].0 == k;
      }
    }
    forall k | k in KeySet(s) ensures k in KeySet(r) {
      var m :| 0 <= m < |s| && s[m].0 == k;
      assert r[m + 1].0 == k;
    }
  }

  lemma SortedCons<T>(y: (Key, T), s: seq<(Key, T)>)
    requires Sorted(s)
    requires forall k :: 0 <= k < |s| ==> Before(y.0, s[k].0)
    ensures Sorted([y] + s)
  {
    var r := [y] + s;
    forall i, j | 0 <= i < j < |r| ensures Before(r[i].0, r[j].0) {
      assert r[j] == s[j - 1];
      if i > 0 {
        assert r[i] == s[i - 1];
      }
    }
  }

  /** Below the head of a sorted list everything sorts after it. */
  lemma SortedTail<T>(s: seq<(Key, T)>)
    requires Sorted(s) && |s| > 0
    ensures Sorted(s[1..])
    ensures s == [s[0]] + s[1..]
    ensures forall k :: 0 <= k < |s| - 1 ==> Before(s[0].0, s[1..][k].0)
    ensures Items(s) == [s[0].1] + Items(s[1..])
    ensures KeySet(s) == {s[0].0} + KeySet(s[1..])
  {
    var t := s[1..];
    forall i, j | 0 <= i < j < |t| ensures Before(t[i].0, t[j].0) {
      assert t[i] == s[i + 1] && t[j] == s[j + 1];
    }
    forall k | 0 <= k < |t| ensures Before(s[0].0, t[k].0) {
      assert t[k] == s[k + 1];
    }
    assert s == [s[0]] + t;
    KeySetCons(s[0], t);
  }

  /** Inserting adds exactly the one element, wherever it lands. */
  lemma {:induction false} InsertContents<T>(x: (Key, T), s: seq<(Key, T)>)
    ensures multiset(Insert(x, s)) == multiset(s) + multiset{x}
    decreases |s|
  {
    if |s| > 0 && Before(s[0].0, x.0) {
      InsertContents(x, s[1..]);
      assert s == [s[0]] + s[1..];
    }
  }

  lemma {:induction false} InsertItems<T>(x: (Key, T), s: seq<(Key, T)>)
    ensures multiset(Items(Insert(x, s))) == multiset(Items(s)) + multiset{x.1}
    decreases |s|
  {
    if |s| == 0 {
      assert Items([x]) == [x.1];
    } else if Before(s[0].0, x.0) {
      var u := Insert(x, s[1..]);
      InsertItems(x, s[1..]);
      assert Items([s[0]] + u) == [s[0].1] + Items(u);
      assert Items(s) == [s[0].1] + Items(s[1..]);
    } else {
      assert Items([x] + s) == [x.1] + Items(s);
    }
  }

  lemma {:induction false} InsertKeys<T>(x: (Key, T), s: seq<(Key, T)>)
    ensures KeySet(Insert(x, s)) == KeySet(s) + {x.0}
    decreases |s|
  {
    if |s| == 0 {
      KeySetCons(x, s);
    } else if Before(s[0].0, x.0) {
      InsertKeys(x, s[1..]);
      assert s == [s[0]] + s[1..];
      KeySetCons(s[0], Insert(x, s[1..]));
      KeySetCons(s[0], s[1..]);
    } else {
      KeySetCons(x, s);
    }
  }

  /** The new element goes in front when the head sorts after it. */
  lemma InsertFront<T>(x: (Key, T), s: seq<(Key, T)>)
    requires Sorted(s) && x.0 !in KeySet(s) && |s| > 0 && !Before(s[0].0, x.0)
    ensures Sorted(Insert(x, s))
  {
    assert s[0].0 in KeySet(s);
    SortedTail(s);
    BeforeTotal(x.0, s[0].0);
    forall j | 0 <= j < |s| ensures Before(x.0, s[j].0) {
      if j > 0 {
        assert s[j] == s[1..][j - 1];
        BeforeTransitive(x.0, s[0].0, s[j].0);
      }
    }
    SortedCons(x, s);
  }

  /** Inserting a new key into a sorted list keeps it sorted and adds exactly that element. */
  lemma {:induction false} InsertSpec<T>(x: (Key, T), s: seq<(Key, T)>)
    requires Sorted(s) && x.0 !in KeySet(s)
    ensures Sorted(Insert(x, s))
    ensures multiset(Insert(x, s)) == multiset(s) + multiset{x}
    ensures multiset(Items(Insert(x, s))) == multiset(Items(s)) + multiset{x.1}
    ensures KeySet(Insert(x, s)) == KeySet(s) + {x.0}
    decreases |s|
  {
    InsertContents(x, s);
    InsertItems(x, s);
    InsertKeys(x, s);
    if |s| > 0 {
      if Before(s[0].0, x.0) {
        SortedTail(s);
        InsertSpec(x, s[1..]);
        InsertLater(x, s, Insert(x, s[1..]));
      } else {
        InsertFront(x, s);
      }
    }
  }

  /** The step of `InsertSpec` where the head stays first. */
  lemma InsertLater<T>(x: (Key, T), s: seq<(Key, T)>, u: seq<(Key, T)>)
    requires Sorted(s) && |s| > 0 && Before(s[0].0, x.0) && u == Insert(x, s[1..])
    requires Sorted(u) && KeySet(u) == KeySet(s[1..]) + {x.0}
    ensures Sorted(Insert(x, s))
  {
    var t := s[1..];
    SortedTail(s);
    forall k | 0 <= k < |u| ensures Before(s[0].0, u[k].0) {
      assert u[k].0 in KeySet(u);
      if u[k].0 != x.0 {
        assert u[k].0 in KeySet(t);
        var m :| 0 <= m < |t| && t[m].0 == u[k].0;
      }
    }
    SortedCons(s[0], u);
  }

  /** A non-empty list is its head followed by its tail. */
  lemma Uncons<T>(s: seq<(Key, T)>)
    requires |s| > 0
    ensures s == [s[0]] + s[1..]
    ensures multiset(s) == multiset{s[0]} + multiset(s[1..])
    ensures Items(s) == [s[0].1] + Items(s[1..])
    ensures multiset(Items(s)) == multiset{s[0].1} + multiset(Items(s[1..]))
    ensures KeySet(s) == {s[0].0} + KeySet(s[1..])
  {
    assert s == [s[0]] + s[1..];
    assert Items(s) == [s[0].1] + Items(s[1..]);
    KeySetCons(s[0], s[1..]);
  }

  lemma DistinctTail<T>(s: seq<(Key, T)>)
    requires DistinctKeys(s) && |s| > 0
    ensures DistinctKeys(s[1..])
    ensures s[0].0 !in KeySet(s[1..])
  {
    var t := s[1..];
    forall i, j | 0 <= i < j < |t| ensures t[i].0 != t[j].0 {
      assert t[i] == s[i + 1] && t[j] == s[j + 1];
    }
    forall m | 0 <= m < |t| ensures t[m].0 != s[0].0 {
      assert t[m] == s[m + 1];
    }
  }

  /**
   * `sorted`: on a list whose keys are distinct the result is in strictly
   * increasing key order and is a permutation of the input.
   */
  lemma {:induction false} SortSpec<T>(s: seq<(Key, T)>)
    requires DistinctKeys(s)
    ensures Sorted(Sort(s))
    ensures multiset(Sort(s)) == multiset(s)
    ensures multiset(Items(Sort(s))) == multiset(Items(s))
    ensures KeySet(Sort(s)) == KeySet(s)
    decreases |s|
  {
    if |s| > 0 {
      Uncons(s);
      DistinctTail(s);
      SortSpec(s[1..]);
      InsertSpec(s[0], Sort(s[1..]));
    }
  }

  /** Two sorted lists with the same elements start with the same element. */
  lemma SortedSameHead<T>(a: seq<(Key, T)>, b: seq<(Key, T)>)
    requires Sorted(a) && Sorted(b) && multiset(a) == multiset(b) && |a| > 0
    ensures |b| > 0 && a[0] == b[0]
  {
    assert a[0] in multiset(b);
    assert b[0] in multiset(a);
    var i :| 0 <= i < |b| && b[i] == a[0];
    var j :| 0 <= j < |a| && a[j] == b[0];
    assert forall k :: 0 <= k < |b| ==> b[k] == b[0] || Before(b[0].0, b[k].0);
    assert forall k :: 0 <= k < |a| ==> a[k] == a[0] || Before(a[0].0, a[k].0);
  }

  /**
   * Two strictly sorted lists holding the same elements are equal, so the
   * insertion sort above gives the same list as Python's own `sorted`.
   */
  lemma {:induction false} SortedUnique<T>(a: seq<(Key, T)>, b: seq<(Key, T)>)
    requires Sorted(a) && Sorted(b) && multiset(a) == multiset(b)
    ensures a == b
    decreases |a|
  {
    if |a| > 0 {
      SortedSameHead(a, b);
      SortedTail(a);
      SortedTail(b);
      Uncons(a);
      Uncons(b);
      assert multiset(a[1..]) == multiset(a) - multiset{a[0]};
      assert multiset(b[1..]) == multiset(b) - multiset{b[0]};
      SortedUnique(a[1..], b[1..]);
    } else {
      assert |b| == |multiset(b)| == 0;
    }
  }

  /**
   * `sorted(enumerate(xs), key=...)`, element by element: each entry of the
   * result is the input element at its key's position with that element's
   * key, and every position of the input appears.
   */
  lemma SortTagSpec<T>(xs: seq<T>, rank: T -> (int, int), s: seq<(Key, T)>)
    requires s == Sort(Tag(xs, rank))
    ensures Sorted(s) && |s| == |xs|
    ensures multiset(Items(s)) == multiset(xs)
    ensures forall q :: 0 <= q < |s| ==> s[q].0.idx < |xs| && s[q].1 == xs[s[q].0.idx]
    ensures forall q :: 0 <= q < |s| ==> s[q].0 == Key(rank(s[q].1).0, rank(s[q].1).1, s[q].0.idx)
    ensures forall m :: 0 <= m < |xs| ==> (Key(rank(xs[m]).0, rank(xs[m]).1, m), xs[m]) in s
  {
    var p := Tag(xs, rank);
    TagDistinct(xs, rank);
    SortSpec(p);
    forall q | 0 <= q < |s|
      ensures s[q].0.idx < |xs| && s[q].1 == xs[s[q].0.idx]
      ensures s[q].0 == Key(rank(s[q].1).0, rank(s[q].1).1, s[q].0.idx)
    {
      assert s[q] in multiset(p);
      var m :| 0 <= m < |p| && p[m] == s[q];
    }
    forall m | 0 <= m < |xs| ensures (Key(rank(xs[m]).0, rank(xs[m]).1, m), xs[m]) in s {
      assert p[m] in multiset(s);
    }
  }
}
