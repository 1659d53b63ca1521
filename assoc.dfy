/**
 * Python dictionaries as association lists: a sequence of (key, value)
 * pairs in insertion order, with each key at most once. Assigning to an
 * existing key keeps its position; a new key goes at the end.
 */
module Assoc {
  import opened Wrappers

  function Keys<K(==), V>(m: seq<(K, V)>): (ks: seq<K>)
    ensures |ks| == |m|
    ensures forall i :: 0 <= i < |m| ==> ks[i] == m[i].0
  {
    seq(|m|, i requires 0 <= i < |m| => m[i].0)
  }

  function Values<K(==), V>(m: seq<(K, V)>): (vs: seq<V>)
    ensures |vs| == |m|
    ensures forall i :: 0 <= i < |m| ==> vs[i] == m[i].1
  {
    seq(|m|, i requires 0 <= i < |m| => m[i].1)
  }

  predicate HasKey<K(==), V>(m: seq<(K, V)>, k: K) {
    exists i :: 0 <= i < |m| && m[i].0 == k
  }

  lemma HasKeyInKeys<K, V>(m: seq<(K, V)>, k: K)
    ensures HasKey(m, k) <==> k in Keys(m)
  {
    if HasKey(m, k) {
      var i :| 0 <= i < |m| && m[i].0 == k;
      assert Keys(m)[i] == k;
    }
  }

  /** No key occurs twice. */
  predicate UniqueKeys<K(==), V>(m: seq<(K, V)>) {
    forall i, j :: 0 <= i < j < |m| ==> m[i].0 != m[j].0
  }

  /** Position of the first entry for `k`, or `|m|` when there is none. */
  function IndexOfKey<K(==), V>(m: seq<(K, V)>, k: K): (i: nat)
    ensures i <= |m|
    ensures i < |m| ==> m[i].0 == k
    ensures forall j :: 0 <= j < i ==> m[j].0 != k
    decreases |m|
  {
    if |m| == 0 then 0
    else if m[0].0 == k then 0
    else 1 + IndexOfKey(m[1..], k)
  }

  /** `d.get(k)`: the value stored under `k`, or None. */
  function Get<K(==), V>(m: seq<(K, V)>, k: K): (r: Option<V>)
    ensures r.None? <==> !HasKey(m, k)
  {
    var i := IndexOfKey(m, k);
    if i < |m| then Some(m[i].1) else None
  }

  /** `d.get(k, default)`. */
  function GetOr<K(==), V>(m: seq<(K, V)>, k: K, default: V): V {
    Get(m, k).GetOr(default)
  }

  /** `d[k] = v`. */
  function Put<K(==), V>(m: seq<(K, V)>, k: K, v: V): (r: seq<(K, V)>)
    decreases |m|
  {
    if |m| == 0 then [(k, v)]
    else if m[0].0 == k then [(k, v)] + m[1..]
    else [m[0]] + Put(m[1..], k, v)
  }

  /** After `d[k] = v`, `k` maps to `v` and every other key keeps its value. */
  lemma {:induction false} PutGet<K, V>(m: seq<(K, V)>, k: K, v: V, k2: K)
    ensures Get(Put(m, k, v), k2) == if k2 == k then Some(v) else Get(m, k2)
    decreases |m|
  {
    if |m| > 0 && m[0].0 != k {
      PutGet(m[1..], k, v, k2);
      assert Put(m, k, v)[1..] == Put(m[1..], k, v);
      if k2 != m[0].0 {
        assert IndexOfKey(m, k2) == 1 + IndexOfKey(m[1..], k2);
        assert IndexOfKey(Put(m, k, v), k2) == 1 + IndexOfKey(Put(m[1..], k, v), k2);
      }
    } else if |m| > 0 {
      assert Put(m, k, v)[1..] == m[1..];
      if k2 != k {
        assert IndexOfKey(m, k2) == 1 + IndexOfKey(m[1..], k2);
        assert IndexOfKey(Put(m, k, v), k2) == 1 + IndexOfKey(m[1..], k2);
      }
    }
  }

  /**
   * `d[k] = v` keeps existing keys where they were: an existing key's
   * position is reused, a new key is appended.
   */
  lemma {:induction false} PutKeys<K, V>(m: seq<(K, V)>, k: K, v: V)
    ensures HasKey(m, k) ==> Keys(Put(m, k, v)) == Keys(m)
    ensures !HasKey(m, k) ==> Keys(Put(m, k, v)) == Keys(m) + [k]
    decreases |m|
  {
    if |m| > 0 {
      KeysCons(m);
      if m[0].0 != k {
        PutKeys(m[1..], k, v);
        HasKeyTail(m, k);
        KeysCons(Put(m, k, v));
        assert Put(m, k, v)[1..] == Put(m[1..], k, v);
      } else {
        assert HasKey(m, k) by { assert m[0].0 == k; }
        KeysCons(Put(m, k, v));
        assert Put(m, k, v)[1..] == m[1..];
      }
    }
  }

  lemma KeysCons<K, V>(m: seq<(K, V)>)
    requires |m| > 0
    ensures Keys(m) == [m[0].0] + Keys(m[1..])
  {
  }

  /** Past a first entry with another key, the key is present exactly when it is in the rest. */
  lemma HasKeyTail<K, V>(m: seq<(K, V)>, k: K)
    requires |m| > 0 && m[0].0 != k
    ensures HasKey(m, k) <==> HasKey(m[1..], k)
  {
    if HasKey(m, k) {
      var i :| 0 <= i < |m| && m[i].0 == k;
      assert m[1..][i - 1].0 == k;
    }
    if HasKey(m[1..], k) {
      var i :| 0 <= i < |m[1..]| && m[1..][i].0 == k;
      assert m[i + 1].0 == k;
    }
  }

  /** `d[k] = v` keeps keys unique. */
  lemma PutUnique<K, V>(m: seq<(K, V)>, k: K, v: V)
    requires UniqueKeys(m)
    ensures UniqueKeys(Put(m, k, v))
  {
    PutKeys(m, k, v);
    var r := Put(m, k, v);
    forall i, j | 0 <= i < j < |r| ensures r[i].0 != r[j].0 {
      assert Keys(r)[i] == r[i].0 && Keys(r)[j] == r[j].0;
      if !HasKey(m, k) && j == |m| {
        assert Keys(m)[i] == m[i].0;
      } else {
        assert Keys(m)[i] == m[i].0 && Keys(m)[j] == m[j].0;
      }
    }
  }

  /** Assigning a new key appends one entry. */
  lemma {:induction false} PutNew<K, V>(m: seq<(K, V)>, k: K, v: V)
    requires !HasKey(m, k)
    ensures Put(m, k, v) == m + [(k, v)]
    decreases |m|
  {
    if |m| > 0 {
      assert m[0].0 != k;
      assert forall i :: 0 <= i < |m[1..]| ==> m[1..][i] == m[i + 1];
      PutNew(m[1..], k, v);
      assert m == [m[0]] + m[1..];
    }
  }

  /** Looking up in a list with one more entry at the end. */
  lemma {:induction false} GetSnoc<K, V>(m: seq<(K, V)>, k2: K, v: V, k: K)
    ensures Get(m + [(k2, v)], k) == if HasKey(m, k) then Get(m, k) else if k == k2 then Some(v) else None
    decreases |m|
  {
    if |m| > 0 {
      assert (m + [(k2, v)])[1..] == m[1..] + [(k2, v)];
      GetSnoc(m[1..], k2, v, k);
      if m[0].0 != k {
        assert IndexOfKey(m, k) == 1 + IndexOfKey(m[1..], k);
        assert IndexOfKey(m + [(k2, v)], k) == 1 + IndexOfKey(m[1..] + [(k2, v)], k);
        assert HasKey(m, k) <==> HasKey(m[1..], k) by {
          if HasKey(m, k) {
            var i :| 0 <= i < |m| && m[i].0 == k;
            assert m[1..][i - 1].0 == k;
          }
          if HasKey(m[1..], k) {
            var i :| 0 <= i < |m[1..]| && m[1..][i].0 == k;
            assert m[i + 1].0 == k;
          }
        }
      } else {
        assert HasKey(m, k) by { assert m[0].0 == k; }
      }
    } else {
      assert m + [(k2, v)] == [(k2, v)];
    }
  }

  /** With unique keys, the entry at a position is what its key looks up. */
  lemma GetAt<K, V>(m: seq<(K, V)>, i: nat)
    requires UniqueKeys(m) && i < |m|
    ensures Get(m, m[i].0) == Some(m[i].1)
  {
    var j := IndexOfKey(m, m[i].0);
    assert j <= i;
  }

  /** Looking up in a concatenation: the first list wins. */
  lemma {:induction false} GetAppend<K, V>(a: seq<(K, V)>, b: seq<(K, V)>, k: K)
    ensures Get(a + b, k) == if HasKey(a, k) then Get(a, k) else Get(b, k)
    decreases |a|
  {
    if |a| == 0 {
      assert a + b == b;
    } else if a[0].0 != k {
      assert (a + b)[1..] == a[1..] + b;
      GetAppend(a[1..], b, k);
      assert IndexOfKey(a, k) == 1 + IndexOfKey(a[1..], k);
      assert IndexOfKey(a + b, k) == 1 + IndexOfKey(a[1..] + b, k);
      assert HasKey(a, k) <==> HasKey(a[1..], k) by {
        if HasKey(a, k) {
          var i :| 0 <= i < |a| && a[i].0 == k;
          assert a[1..][i - 1].0 == k;
        }
        if HasKey(a[1..], k) {
          var i :| 0 <= i < |a[1..]| && a[1..][i].0 == k;
          assert a[i + 1].0 == k;
        }
      }
    } else {
      assert HasKey(a, k) by { assert a[0].0 == k; }
      assert (a + b)[0] == a[0];
    }
  }

  /** Two lists with unique and disjoint keys concatenate into one with unique keys. */
  lemma UniqueAppend<K, V>(a: seq<(K, V)>, b: seq<(K, V)>)
    requires UniqueKeys(a) && UniqueKeys(b)
    requires forall i, j :: 0 <= i < |a| && 0 <= j < |b| ==> a[i].0 != b[j].0
    ensures UniqueKeys(a + b)
  {
    var c := a + b;
    forall i, j | 0 <= i < j < |c| ensures c[i].0 != c[j].0 {
      if j < |a| {
        assert c[i] == a[i] && c[j] == a[j];
      } else if i >= |a| {
        assert c[i] == b[i - |a|] && c[j] == b[j - |a|];
      } else {
        assert c[i] == a[i] && c[j] == b[j - |a|];
      }
    }
  }

  /** `d.setdefault(k, []).append(x)`. */
  function AppendAt<K(==), V>(m: seq<(K, seq<V>)>, k: K, x: V): seq<(K, seq<V>)> {
    Put(m, k, GetOr(m, k, []) + [x])
  }

  /** Appending under `k` extends that list and leaves every other key as it was. */
  lemma AppendAtGet<K, V>(m: seq<(K, seq<V>)>, k: K, x: V, k2: K)
    ensures Get(AppendAt(m, k, x), k2) == if k2 == k then Some(GetOr(m, k, []) + [x]) else Get(m, k2)
  {
    PutGet(m, k, GetOr(m, k, []) + [x], k2);
  }

  /** `b` keeps every entry of `a` in place, each list possibly extended, and may add entries after them. */
  predicate ExtendsLists<K(==), V(==)>(a: seq<(K, seq<V>)>, b: seq<(K, seq<V>)>) {
    |a| <= |b| && forall i :: 0 <= i < |a| ==> b[i].0 == a[i].0 && a[i].1 <= b[i].1
  }

  lemma ExtendsListsTransitive<K, V>(a: seq<(K, seq<V>)>, b: seq<(K, seq<V>)>, c: seq<(K, seq<V>)>)
    requires ExtendsLists(a, b) && ExtendsLists(b, c)
    ensures ExtendsLists(a, c)
  {
  }

  lemma ExtendsListsRefl<K, V>(a: seq<(K, seq<V>)>)
    ensures ExtendsLists(a, a)
  {
  }

  /** Writing a longer list under a key extends the dictionary. */
  lemma {:induction false} PutExtends<K, V>(m: seq<(K, seq<V>)>, k: K, v: seq<V>)
    requires HasKey(m, k) ==> Get(m, k).value <= v
    ensures ExtendsLists(m, Put(m, k, v))
    decreases |m|
  {
    if |m| > 0 && m[0].0 != k {
      assert HasKey(m[1..], k) ==> HasKey(m, k) by {
        if HasKey(m[1..], k) {
          var i :| 0 <= i < |m[1..]| && m[1..][i].0 == k;
          assert m[i + 1].0 == k;
        }
      }
      assert IndexOfKey(m, k) == 1 + IndexOfKey(m[1..], k);
      PutExtends(m[1..], k, v);
      var r := Put(m, k, v);
      assert r == [m[0]] + Put(m[1..], k, v);
      forall i | 0 <= i < |m| ensures r[i].0 == m[i].0 && m[i].1 <= r[i].1 {
        if i > 0 {
          assert r[i] == Put(m[1..], k, v)[i - 1];
          assert m[i] == m[1..][i - 1];
        }
      }
    } else if |m| > 0 {
      assert Get(m, k).value == m[0].1;
    }
  }

  lemma AppendAtExtends<K, V>(m: seq<(K, seq<V>)>, k: K, x: V)
    ensures ExtendsLists(m, AppendAt(m, k, x))
  {
    PutExtends(m, k, GetOr(m, k, []) + [x]);
  }

  /** `m.update(d)`: the entries of `d` put in order into `m`. */
  function UpdateWith<K(==), V>(m: seq<(K, V)>, d: seq<(K, V)>): seq<(K, V)>
    decreases |d|
  {
    if |d| == 0 then m
    else
      var n := |d| - 1;
      Put(UpdateWith(m, d[..n]), d[n].0, d[n].1)
  }

  lemma {:induction false} UpdateWithUnique<K, V>(m: seq<(K, V)>, d: seq<(K, V)>)
    requires UniqueKeys(m)
    ensures UniqueKeys(UpdateWith(m, d))
    decreases |d|
  {
    if |d| > 0 {
      var n := |d| - 1;
      UpdateWithUnique(m, d[..n]);
      PutUnique(UpdateWith(m, d[..n]), d[n].0, d[n].1);
    }
  }

  /** Updating with a dictionary: its keys take its values, the others keep theirs. */
  lemma {:induction false} UpdateWithGet<K, V>(m: seq<(K, V)>, d: seq<(K, V)>, k: K)
    requires UniqueKeys(d)
    ensures Get(UpdateWith(m, d), k) == if HasKey(d, k) then Get(d, k) else Get(m, k)
    decreases |d|
  {
    if |d| > 0 {
      var n := |d| - 1;
      var init := d[..n];
      assert UniqueKeys(init);
      UpdateWithGet(m, init, k);
      PutGet(UpdateWith(m, init), d[n].0, d[n].1, k);
      assert d == init + [(d[n].0, d[n].1)];
      GetSnoc(init, d[n].0, d[n].1, k);
      assert !HasKey(init, d[n].0);
    }
  }

  /** After an update, the keys present are those of `m` and those of `d`. */
  lemma {:induction false} UpdateWithHasKey<K, V>(m: seq<(K, V)>, d: seq<(K, V)>, k: K)
    ensures HasKey(UpdateWith(m, d), k) <==> HasKey(m, k) || HasKey(d, k)
    decreases |d|
  {
    if |d| > 0 {
      var n := |d| - 1;
      UpdateWithHasKey(m, d[..n], k);
      PutGet(UpdateWith(m, d[..n]), d[n].0, d[n].1, k);
      assert d == d[..n] + [d[n]];
      if HasKey(d, k) && !HasKey(d[..n], k) {
        var i :| 0 <= i < |d| && d[i].0 == k;
        assert i == n;
      }
    }
  }

  /** Updating with an entry last for its key leaves that key holding the entry's value. */
  lemma UpdateWithLast<K, V>(m: seq<(K, V)>, d: seq<(K, V)>, k: K, v: V)
    ensures Get(UpdateWith(m, d + [(k, v)]), k) == Some(v)
  {
    var e := d + [(k, v)];
    assert e[..|e| - 1] == d;
    PutGet(UpdateWith(m, d), k, v, k);
  }
}
