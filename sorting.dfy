/**
 * The two sorts the scripts use: Python's stable `list.sort(key=...)` on a
 * real-valued key, and `sorted()` on file names (code-point lexicographic
 * order).  Both are insertion sorts here; what matters are the properties
 * proved about them.
 */
module Sorting {

  /** Places `x` before the first element whose key is not smaller than its own. */
  function InsertByKey<T>(x: T, s: seq<T>, key: T -> real): (r: seq<T>)
    ensures |r| == |s| + 1
    ensures multiset(r) == multiset(s) + multiset{x}
  {
    if s == [] || key(x) <= key(s[0]) then [x] + s
    else
      assert s == [s[0]] + s[1..];
      [s[0]] + InsertByKey(x, s[1..], key)
  }

  lemma MultisetSnoc<T>(s: seq<T>)
    requires s != []
    ensures multiset(s) == multiset(s[..|s| - 1]) + multiset{s[|s| - 1]}
  {
    assert s == s[..|s| - 1] + [s[|s| - 1]];
  }

  /** Python `list.sort(key=key)`. */
  function SortByKey<T>(s: seq<T>, key: T -> real): (r: seq<T>)
    ensures |r| == |s|
    ensures multiset(r) == multiset(s)
  {
    if s == [] then []
    else
      assert s == [s[0]] + s[1..];
      InsertByKey(s[0], SortByKey(s[1..], key), key)
  }

  ghost predicate SortedByKey<T>(s: seq<T>, key: T -> real) {
    forall i, j :: 0 <= i < j < |s| ==> key(s[i]) <= key(s[j])
  }

  /** The elements whose key equals `k`, in their order. */
  function WithKey<T>(s: seq<T>, key: T -> real, k: real): seq<T>
  {
    if s == [] then []
    else (if key(s[0]) == k then [s[0]] else []) + WithKey(s[1..], key, k)
  }

  lemma {:induction false} InsertSorted<T>(x: T, s: seq<T>, key: T -> real)
    requires SortedByKey(s, key)
    ensures SortedByKey(InsertByKey(x, s, key), key)
  {
    if s == [] {
    } else if key(x) <= key(s[0]) {
      SortedCons(x, s, key);
    } else {
      var t := InsertByKey(x, s[1..], key);
      assert SortedByKey(s[1..], key);
      InsertSorted(x, s[1..], key);
      InsertLowerBound(x, s[1..], key, key(s[0]));
      SortedCons(s[0], t, key);
    }
  }

  /** A sorted sequence stays sorted with an element in front that is no larger than any of it. */
  lemma SortedCons<T>(y: T, s: seq<T>, key: T -> real)
    requires SortedByKey(s, key)
    requires s != [] ==> key(y) <= key(s[0])
    ensures SortedByKey([y] + s, key)
  {
    var r := [y] + s;
    forall i, j | 0 <= i < j < |r| ensures key(r[i]) <= key(r[j]) {
      assert r[j] == s[j - 1];
      if i > 0 {
        assert r[i] == s[i - 1];
      }
    }
  }

  /** Inserting keeps every key at or above a bound that `x` and all of `s` respect. */
  lemma {:induction false} InsertLowerBound<T>(x: T, s: seq<T>, key: T -> real, b: real)
    requires b <= key(x) && forall j :: 0 <= j < |s| ==> b <= key(s[j])
    ensures forall j :: 0 <= j < |InsertByKey(x, s, key)| ==> b <= key(InsertByKey(x, s, key)[j])
  {
    if s != [] && key(s[0]) < key(x) {
      assert forall j :: 0 <= j < |s[1..]| ==> s[1..][j] == s[j + 1];
      InsertLowerBound(x, s[1..], key, b);
    }
  }

  /** The sort puts keys in ascending order. */
  lemma {:induction false} SortByKeySorted<T>(s: seq<T>, key: T -> real)
    ensures SortedByKey(SortByKey(s, key), key)
  {
    if s != [] {
      SortByKeySorted(s[1..], key);
      InsertSorted(s[0], SortByKey(s[1..], key), key);
    }
  }

  lemma WithKeyCons<T>(y: T, s: seq<T>, key: T -> real, k: real)
    ensures WithKey([y] + s, key, k) == (if key(y) == k then [y] else []) + WithKey(s, key, k)
  {
    assert ([y] + s)[0] == y && ([y] + s)[1..] == s;
  }

  lemma {:induction false} InsertStable<T>(x: T, s: seq<T>, key: T -> real, k: real)
    ensures WithKey(InsertByKey(x, s, key), key, k)
            == (if key(x) == k then [x] else []) + WithKey(s, key, k)
  {
    if s == [] || key(x) <= key(s[0]) {
      assert InsertByKey(x, s, key) == [x] + s;
      WithKeyCons(x, s, key, k);
    } else {
      var t := InsertByKey(x, s[1..], key);
      assert InsertByKey(x, s, key) == [s[0]] + t;
      InsertStable(x, s[1..], key, k);
      assert s == [s[0]] + s[1..];
      InsertStableStep(x, s[0], t, s[1..], key, k);
    }
  }

  /** An element passed over by the insertion has a smaller key than `x`, so the two never share the key. */
  lemma InsertStableStep<T>(x: T, y: T, t: seq<T>, rest: seq<T>, key: T -> real, k: real)
    requires key(y) < key(x)
    requires WithKey(t, key, k) == (if key(x) == k then [x] else []) + WithKey(rest, key, k)
    ensures WithKey([y] + t, key, k) == (if key(x) == k then [x] else []) + WithKey([y] + rest, key, k)
  {
    WithKeyCons(y, t, key, k);
    WithKeyCons(y, rest, key, k);
    var w := WithKey(rest, key, k);
    if key(x) == k {
      assert key(y) != k;
      assert WithKey([y] + t, key, k) == [] + ([x] + w);
      assert WithKey([y] + rest, key, k) == [] + w;
    } else if key(y) == k {
      assert WithKey([y] + t, key, k) == [y] + ([] + w);
    } else {
      assert WithKey([y] + t, key, k) == [] + ([] + w);
    }
  }

  /** Stability: among equal keys the input order survives. */
  lemma {:induction false} SortByKeyStable<T>(s: seq<T>, key: T -> real, k: real)
    ensures WithKey(SortByKey(s, key), key, k) == WithKey(s, key, k)
  {
    if s != [] {
      SortByKeyStable(s[1..], key, k);
      InsertStable(s[0], SortByKey(s[1..], key), key, k);
    }
  }

  /** Code-point lexicographic order, as Python compares `str` values. */
  predicate LexLe(a: string, b: string)
  {
    a == [] || (b != [] && (a[0] < b[0] || (a[0] == b[0] && LexLe(a[1..], b[1..]))))
  }

  lemma {:induction false} LexLeTotal(a: string, b: string)
    ensures LexLe(a, b) || LexLe(b, a)
  {
    if a != [] && b != [] && a[0] == b[0] {
      LexLeTotal(a[1..], b[1..]);
    }
  }

  lemma {:induction false} LexLeTransitive(a: string, b: string, c: string)
    requires LexLe(a, b) && LexLe(b, c)
    ensures LexLe(a, c)
  {
    if a != [] && a[0] == b[0] && b[0] == c[0] {
      LexLeTransitive(a[1..], b[1..], c[1..]);
    }
  }

  function InsertName(x: string, s: seq<string>): (r: seq<string>)
    ensures |r| == |s| + 1
    ensures multiset(r) == multiset(s) + multiset{x}
  {
    if s == [] || LexLe(x, s[0]) then [x] + s
    else
      assert s == [s[0]] + s[1..];
      [s[0]] + InsertName(x, s[1..])
  }

  /** Python `sorted(names)`. */
  function SortNames(s: seq<string>): (r: seq<string>)
    ensures |r| == |s|
    ensures multiset(r) == multiset(s)
  {
    if s == [] then []
    else
      assert s == [s[0]] + s[1..];
      InsertName(s[0], SortNames(s[1..]))
  }

  ghost predicate NamesSorted(s: seq<string>) {
    forall i, j :: 0 <= i < j < |s| ==> LexLe(s[i], s[j])
  }

  lemma {:induction false} InsertNameSorted(x: string, s: seq<string>)
    requires NamesSorted(s)
    ensures NamesSorted(InsertName(x, s))
  {
    if s == [] {
    } else if LexLe(x, s[0]) {
      var r := [x] + s;
      forall i, j | 0 <= i < j < |r| ensures LexLe(r[i], r[j]) {
        if i == 0 && j > 1 { LexLeTransitive(x, s[0], s[j - 1]); }
      }
    } else {
      LexLeTotal(x, s[0]);
      var t := InsertName(x, s[1..]);
      InsertNameSorted(x, s[1..]);
      var r := [s[0]] + t;
      forall i, j | 0 <= i < j < |r| ensures LexLe(r[i], r[j]) {
        if i == 0 {
          assert t[j - 1] in multiset(t);
          if t[j - 1] != x {
            assert t[j - 1] in multiset(s[1..]);
            var m :| 0 <= m < |s[1..]| && s[1..][m] == t[j - 1];
            assert s[m + 1] == t[j - 1];
          }
        }
      }
    }
  }

  /** `sorted()` yields its input in ascending order. */
  lemma {:induction false} SortNamesSorted(s: seq<string>)
    ensures NamesSorted(SortNames(s))
  {
    if s != [] {
      SortNamesSorted(s[1..]);
      InsertNameSorted(s[0], SortNames(s[1..]));
    }
  }
}
