/**
 * The stable sort the source gets from Python's `sorted(..., key=k, reverse=True)`
 * and `list.sort(key=k, reverse=True)`: elements are ordered by a real key, largest
 * first, and elements with equal keys keep their original order.  An ascending
 * sort (`sorted(..., key=k)`) is the same sort on the negated key.
 */
module Sorting {
  import opened Wrappers

  /** Places x in front of the first element whose key is not larger than x's. */
  function Insert<T>(x: T, s: seq<T>, key: T -> real): seq<T>
  {
    if s == [] || key(x) >= key(s[0]) then [x] + s else [s[0]] + Insert(x, s[1..], key)
  }

  /** Stable insertion sort, largest key first. */
  function SortDesc<T>(s: seq<T>, key: T -> real): seq<T>
  {
    if s == [] then [] else Insert(s[0], SortDesc(s[1..], key), key)
  }

  ghost predicate SortedDesc<T>(s: seq<T>, key: T -> real)
  {
    forall i, j :: 0 <= i < j < |s| ==> key(s[i]) >= key(s[j])
  }

  /** The sequence without its element at index i. */
  function RemoveAt<T>(s: seq<T>, i: nat): (r: seq<T>)
    requires i < |s|
    ensures |r| == |s| - 1
    ensures forall k :: 0 <= k < i ==> r[k] == s[k]
    ensures forall k :: i <= k < |r| ==> r[k] == s[k + 1]
  {
    s[..i] + s[i + 1..]
  }

  /** Index of the first element with the largest key: what `max` returns in Python. */
  function FirstMax<T>(s: seq<T>, key: T -> real): (i: nat)
    requires s != []
    ensures i < |s|
    ensures forall k :: 0 <= k < |s| ==> key(s[k]) <= key(s[i])
    ensures forall k :: 0 <= k < i ==> key(s[k]) < key(s[i])
  {
    if |s| == 1 then 0
    else
      var j := FirstMax(s[1..], key);
      if key(s[0]) >= key(s[1..][j]) then 0 else j + 1
  }

  lemma {:induction false} InsertPermutes<T>(x: T, s: seq<T>, key: T -> real)
    ensures multiset(Insert(x, s, key)) == multiset(s) + multiset{x}
    ensures |Insert(x, s, key)| == |s| + 1
  {
    if s != [] && key(x) < key(s[0]) {
      InsertPermutes(x, s[1..], key);
      assert s == [s[0]] + s[1..];
    }
  }

  /** Inserting an element no larger than a bound into elements no larger than it keeps them all below it. */
  lemma {:induction false} InsertBelow<T>(x: T, s: seq<T>, key: T -> real, b: real)
    requires key(x) <= b && forall k :: 0 <= k < |s| ==> key(s[k]) <= b
    ensures forall k :: 0 <= k < |Insert(x, s, key)| ==> key(Insert(x, s, key)[k]) <= b
  {
    var r := Insert(x, s, key);
    if s != [] && key(x) < key(s[0]) {
      var rest := s[1..];
      assert forall k :: 0 <= k < |rest| ==> rest[k] == s[k + 1];
      InsertBelow(x, rest, key, b);
      var t := Insert(x, rest, key);
      assert r == [s[0]] + t;
      forall k | 0 <= k < |r| ensures key(r[k]) <= b {
        if k > 0 { assert r[k] == t[k - 1]; }
      }
    } else {
      assert r == [x] + s;
      forall k | 0 <= k < |r| ensures key(r[k]) <= b {
        if k > 0 { assert r[k] == s[k - 1]; }
      }
    }
  }

  lemma {:induction false} InsertSorted<T>(x: T, s: seq<T>, key: T -> real)
    requires SortedDesc(s, key)
    ensures SortedDesc(Insert(x, s, key), key)
  {
    if s != [] && key(x) < key(s[0]) {
      var rest := s[1..];
      assert SortedDesc(rest, key) by {
        forall i, j | 0 <= i < j < |rest| ensures key(rest[i]) >= key(rest[j]) {
          assert rest[i] == s[i + 1] && rest[j] == s[j + 1];
        }
      }
      InsertSorted(x, rest, key);
      assert forall k :: 0 <= k < |rest| ==> key(rest[k]) <= key(s[0]) by {
        forall k | 0 <= k < |rest| ensures key(rest[k]) <= key(s[0]) {
          assert rest[k] == s[k + 1];
        }
      }
      InsertBelow(x, rest, key, key(s[0]));
      var t := Insert(x, rest, key);
      var r := [s[0]] + t;
      assert Insert(x, s, key) == r;
      forall i, j | 0 <= i < j < |r| ensures key(r[i]) >= key(r[j]) {
        if i > 0 { assert r[i] == t[i - 1] && r[j] == t[j - 1]; }
        else { assert r[j] == t[j - 1]; }
      }
    }
  }

  /** The sort is a permutation of its input, ordered by key, largest first. */
  lemma SortDescCorrect<T>(s: seq<T>, key: T -> real)
    ensures multiset(SortDesc(s, key)) == multiset(s)
    ensures |SortDesc(s, key)| == |s|
    ensures SortedDesc(SortDesc(s, key), key)
  {
    SortDescPermutes(s, key);
    SortDescSorted(s, key);
  }

  lemma {:induction false} SortDescPermutes<T>(s: seq<T>, key: T -> real)
    ensures multiset(SortDesc(s, key)) == multiset(s)
    ensures |SortDesc(s, key)| == |s|
  {
    if s != [] {
      var rest := SortDesc(s[1..], key);
      SortDescPermutes(s[1..], key);
      InsertPermutes(s[0], rest, key);
      assert s == [s[0]] + s[1..];
    }
  }

  lemma {:induction false} SortDescSorted<T>(s: seq<T>, key: T -> real)
    ensures SortedDesc(SortDesc(s, key), key)
  {
    if s != [] {
      SortDescSorted(s[1..], key);
      InsertSorted(s[0], SortDesc(s[1..], key), key);
    }
  }

  /**
   * Stability: the sorted sequence starts with the first element of largest key,
   * followed by the sort of everything else.
   */
  lemma {:induction false} SortDescHead<T>(s: seq<T>, key: T -> real)
    requires s != []
    ensures SortDesc(s, key) == [s[FirstMax(s, key)]] + SortDesc(RemoveAt(s, FirstMax(s, key)), key)
  {
    var i := FirstMax(s, key);
    var x, r := s[0], s[1..];
    if r == [] {
      assert RemoveAt(s, i) == [];
    } else {
      var j := FirstMax(r, key);
      SortDescHead(r, key);
      var rr := RemoveAt(r, j);
      assert SortDesc(r, key) == [r[j]] + SortDesc(rr, key);
      if key(x) >= key(r[j]) {
        assert i == 0;
        assert RemoveAt(s, 0) == r;
      } else {
        assert i == j + 1;
        calc {
          SortDesc(s, key);
          Insert(x, [r[j]] + SortDesc(rr, key), key);
          [r[j]] + Insert(x, SortDesc(rr, key), key);
          { assert ([x] + rr)[0] == x && ([x] + rr)[1..] == rr; }
          [r[j]] + SortDesc([x] + rr, key);
          { assert [x] + rr == RemoveAt(s, i); }
          [s[i]] + SortDesc(RemoveAt(s, i), key);
        }
      }
    }
  }

  /** The first n elements (Python's `s[:n]`). */
  function Take<T>(s: seq<T>, n: nat): (r: seq<T>)
    ensures |r| <= n && |r| <= |s|
    ensures |s| <= n ==> r == s
    ensures |s| > n ==> |r| == n
    ensures r == s[..|r|]
  {
    if |s| <= n then s else s[..n]
  }

  /**
   * The first n of a sorted sequence are sorted, come from it, and nothing
   * left out has a larger key than anything kept.
   */
  lemma TakeSorted<T>(s: seq<T>, key: T -> real, n: nat)
    requires SortedDesc(s, key)
    ensures SortedDesc(Take(s, n), key)
    ensures multiset(Take(s, n)) <= multiset(s)
    ensures forall w, v :: w in multiset(s) - multiset(Take(s, n)) && v in Take(s, n) ==> key(w) <= key(v)
  {
    var r := Take(s, n);
    SplitMultiset(s, |r|);
    forall w, v | w in multiset(s) - multiset(r) && v in r ensures key(w) <= key(v) {
      LaterNotLarger(s, key, |r|, w, v);
    }
  }

  lemma SplitMultiset<T>(s: seq<T>, k: nat)
    requires k <= |s|
    ensures multiset(s) == multiset(s[..k]) + multiset(s[k..])
  {
    assert s == s[..k] + s[k..];
  }

  /** In a descending sequence nothing after index k outranks anything before it. */
  lemma LaterNotLarger<T>(s: seq<T>, key: T -> real, k: nat, w: T, v: T)
    requires SortedDesc(s, key) && k <= |s|
    requires w in s[k..] && v in s[..k]
    ensures key(w) <= key(v)
  {
    var j :| 0 <= j < |s[k..]| && s[k..][j] == w;
    var i :| 0 <= i < k && s[..k][i] == v;
    assert s[i] == v && s[k + j] == w;
  }

  /** Filtering keeps a descending sequence descending. */
  lemma {:induction false} FilterSorted<T>(s: seq<T>, key: T -> real, p: T -> bool)
    requires SortedDesc(s, key)
    ensures SortedDesc(Filter(s, p), key)
  {
    if s != [] {
      var rest := s[1..];
      assert SortedDesc(rest, key) by {
        forall i, j | 0 <= i < j < |rest| ensures key(rest[i]) >= key(rest[j]) {
          assert rest[i] == s[i + 1] && rest[j] == s[j + 1];
        }
      }
      FilterSorted(rest, key, p);
      var f := Filter(rest, p);
      if p(s[0]) {
        forall k | 0 <= k < |f| ensures key(s[0]) >= key(f[k]) {
          var m :| 0 <= m < |rest| && rest[m] == f[k];
          assert rest[m] == s[m + 1];
        }
        var r := [s[0]] + f;
        forall i, j | 0 <= i < j < |r| ensures key(r[i]) >= key(r[j]) {
          assert r[j] == f[j - 1];
          if i > 0 { assert r[i] == f[i - 1]; }
        }
      }
    }
  }

  /**
   * Of a descending sequence, an element that passes f but is not among the
   * first n that pass is preceded by n chosen elements, none with a smaller key.
   */
  lemma TakeFilterSkipped<T>(s: seq<T>, key: T -> real, f: T -> bool, n: nat, x: T)
    requires SortedDesc(s, key) && x in s && f(x) && x !in Take(Filter(s, f), n)
    ensures |Take(Filter(s, f), n)| == n
    ensures forall k :: 0 <= k < n ==> key(Take(Filter(s, f), n)[k]) >= key(x)
  {
    var fs := Filter(s, f);
    FilterSorted(s, key, f);
    assert x in fs;
    assert fs == fs[..n] + fs[n..];
    forall k | 0 <= k < n ensures key(Take(fs, n)[k]) >= key(x) {
      LaterNotLarger(fs, key, n, x, fs[k]);
    }
  }
}
