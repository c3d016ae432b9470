/**
 * Ordering of records by an integer key compared lexicographically: the order
 * of `usort` by `sorting` in a column (one key) and of the shortcut page query's
 * ORDER BY inSet, colPos, sorting (three keys). The sort is an insertion sort
 * that keeps records with equal keys in their input order.
 */
module Sorting {
  import opened Records

  /** Lexicographic order on integer keys. */
  predicate KeyLe(a: seq<int>, b: seq<int>)
    decreases |a|
  {
    a == [] || (b != [] && (a[0] < b[0] || (a[0] == b[0] && KeyLe(a[1..], b[1..]))))
  }

  lemma {:induction false} KeyLeReflexive(a: seq<int>)
    ensures KeyLe(a, a)
    decreases |a|
  {
    if a != [] {
      KeyLeReflexive(a[1..]);
    }
  }

  lemma {:induction false} KeyLeTotal(a: seq<int>, b: seq<int>)
    ensures KeyLe(a, b) || KeyLe(b, a)
    decreases |a|
  {
    if a != [] && b != [] && a[0] == b[0] {
      KeyLeTotal(a[1..], b[1..]);
    }
  }

  lemma {:induction false} KeyLeTransitive(a: seq<int>, b: seq<int>, c: seq<int>)
    requires KeyLe(a, b) && KeyLe(b, c)
    ensures KeyLe(a, c)
    decreases |a|
  {
    if a != [] && b != [] && c != [] && a[0] == b[0] && b[0] == c[0] {
      KeyLeTransitive(a[1..], b[1..], c[1..]);
    }
  }

  /** `s` is ordered by `key`; records with equal keys may stand in any order. */
  ghost predicate SortedBy(s: seq<Row>, key: Row -> seq<int>)
  {
    forall i, j :: 0 <= i < j < |s| ==> KeyLe(key(s[i]), key(s[j]))
  }

  /** The records of `s` whose key is `k`, in their order in `s`. */
  function WithKey(s: seq<Row>, key: Row -> seq<int>, k: seq<int>): seq<Row>
  {
    if s == [] then []
    else (if key(s[0]) == k then [s[0]] else []) + WithKey(s[1..], key, k)
  }

  /** `x` placed before the first record of the sorted `s` whose key is not below its own. */
  function Insert(x: Row, s: seq<Row>, key: Row -> seq<int>): seq<Row>
  {
    if s == [] then [x]
    else if KeyLe(key(x), key(s[0])) then [x] + s
    else [s[0]] + Insert(x, s[1..], key)
  }

  /** Insertion sort: each record inserted into the sorted rest. */
  function SortBy(s: seq<Row>, key: Row -> seq<int>): seq<Row>
  {
    if s == [] then []
    else Insert(s[0], SortBy(s[1..], key), key)
  }

  lemma {:induction false} InsertPermutation(x: Row, s: seq<Row>, key: Row -> seq<int>)
    ensures multiset(Insert(x, s, key)) == multiset(s) + multiset{x}
    decreases |s|
  {
    if s != [] {
      assert s == [s[0]] + s[1..];
      if !KeyLe(key(x), key(s[0])) {
        InsertPermutation(x, s[1..], key);
      }
    }
  }

  /** Sorting keeps exactly the records it was given. */
  lemma {:induction false} SortByPermutation(s: seq<Row>, key: Row -> seq<int>)
    ensures multiset(SortBy(s, key)) == multiset(s)
    decreases |s|
  {
    if s != [] {
      assert s == [s[0]] + s[1..];
      SortByPermutation(s[1..], key);
      InsertPermutation(s[0], SortBy(s[1..], key), key);
    }
  }

  lemma {:induction false} InsertSorted(x: Row, s: seq<Row>, key: Row -> seq<int>)
    requires SortedBy(s, key)
    ensures SortedBy(Insert(x, s, key), key)
    decreases |s|
  {
    if s == [] {
    } else if KeyLe(key(x), key(s[0])) {
      InsertAtHeadSorted(x, s, key);
    } else {
      InsertSorted(x, s[1..], key);
      InsertPastHeadSorted(x, s, key);
    }
  }

  lemma InsertAtHeadSorted(x: Row, s: seq<Row>, key: Row -> seq<int>)
    requires SortedBy(s, key) && s != [] && KeyLe(key(x), key(s[0]))
    ensures SortedBy([x] + s, key)
  {
    var r := [x] + s;
    forall i, j | 0 <= i < j < |r| ensures KeyLe(key(r[i]), key(r[j])) {
      if i == 0 && j > 1 {
        KeyLeTransitive(key(x), key(s[0]), key(s[j - 1]));
      }
    }
  }

  lemma InsertPastHeadSorted(x: Row, s: seq<Row>, key: Row -> seq<int>)
    requires SortedBy(s, key) && s != [] && !KeyLe(key(x), key(s[0]))
    requires SortedBy(Insert(x, s[1..], key), key)
    ensures SortedBy(Insert(x, s, key), key)
  {
    HeadBelowInserted(x, s, key);
    ConsSorted(s[0], Insert(x, s[1..], key), key);
  }

  /** The head of a sorted list is at most every record of the rest with `x` inserted past it. */
  lemma HeadBelowInserted(x: Row, s: seq<Row>, key: Row -> seq<int>)
    requires SortedBy(s, key) && s != [] && !KeyLe(key(x), key(s[0]))
    ensures forall y :: y in Insert(x, s[1..], key) ==> KeyLe(key(s[0]), key(y))
  {
    KeyLeTotal(key(x), key(s[0]));
    forall y | y in Insert(x, s[1..], key) ensures KeyLe(key(s[0]), key(y)) {
      InsertMember(x, s[1..], key, y);
      if y != x {
        var k :| 0 <= k < |s[1..]| && s[1..][k] == y;
        assert s[k + 1] == y;
      }
    }
  }

  lemma ConsSorted(h: Row, t: seq<Row>, key: Row -> seq<int>)
    requires SortedBy(t, key)
    requires forall y :: y in t ==> KeyLe(key(h), key(y))
    ensures SortedBy([h] + t, key)
  {
    var r := [h] + t;
    forall i, j | 0 <= i < j < |r| ensures KeyLe(key(r[i]), key(r[j])) {
      if i == 0 {
        assert r[j] == t[j - 1];
      } else {
        assert r[i] == t[i - 1] && r[j] == t[j - 1];
      }
    }
  }

  lemma InsertMember(x: Row, s: seq<Row>, key: Row -> seq<int>, y: Row)
    requires y in Insert(x, s, key)
    ensures y == x || y in s
  {
    InsertPermutation(x, s, key);
    assert y in multiset(Insert(x, s, key));
  }

  /** The sorted list is ordered by key. */
  lemma {:induction false} SortBySorted(s: seq<Row>, key: Row -> seq<int>)
    ensures SortedBy(SortBy(s, key), key)
    decreases |s|
  {
    if s != [] {
      SortBySorted(s[1..], key);
      InsertSorted(s[0], SortBy(s[1..], key), key);
    }
  }

  lemma {:induction false} InsertWithKey(x: Row, s: seq<Row>, key: Row -> seq<int>, k: seq<int>)
    ensures WithKey(Insert(x, s, key), key, k) == (if key(x) == k then [x] else []) + WithKey(s, key, k)
    decreases |s|
  {
    if s == [] {
      assert [x][1..] == [];
    } else if KeyLe(key(x), key(s[0])) {
      assert ([x] + s)[1..] == s;
    } else {
      InsertWithKey(x, s[1..], key, k);
      InsertPastHead(x, s, key, k);
    }
  }

  /** Inserting past the head of the list: the head's key differs from the inserted record's. */
  lemma InsertPastHead(x: Row, s: seq<Row>, key: Row -> seq<int>, k: seq<int>)
    requires s != [] && !KeyLe(key(x), key(s[0]))
    requires WithKey(Insert(x, s[1..], key), key, k) == (if key(x) == k then [x] else []) + WithKey(s[1..], key, k)
    ensures WithKey(Insert(x, s, key), key, k) == (if key(x) == k then [x] else []) + WithKey(s, key, k)
  {
    var t := Insert(x, s[1..], key);
    var rest := WithKey(s[1..], key, k);
    assert Insert(x, s, key) == [s[0]] + t;
    WithKeyCons(s[0], t, key, k);
    assert WithKey(s, key, k) == (if key(s[0]) == k then [s[0]] else []) + rest;
    if key(x) == k {
      KeyLeReflexive(key(x));
      assert key(s[0]) != k;
      assert WithKey(Insert(x, s, key), key, k) == [] + ([x] + rest) == [x] + rest;
      assert WithKey(s, key, k) == [] + rest == rest;
    } else {
      assert WithKey(t, key, k) == [] + rest == rest;
      assert WithKey(Insert(x, s, key), key, k) == WithKey(s, key, k);
      assert [] + WithKey(s, key, k) == WithKey(s, key, k);
    }
  }

  lemma WithKeyCons(h: Row, t: seq<Row>, key: Row -> seq<int>, k: seq<int>)
    ensures WithKey([h] + t, key, k) == (if key(h) == k then [h] else []) + WithKey(t, key, k)
  {
    assert ([h] + t)[1..] == t;
  }

  /** Records with equal keys keep their input order (the sort is stable). */
  lemma {:induction false} SortByStable(s: seq<Row>, key: Row -> seq<int>, k: seq<int>)
    ensures WithKey(SortBy(s, key), key, k) == WithKey(s, key, k)
    decreases |s|
  {
    if s != [] {
      SortByStable(s[1..], key, k);
      InsertWithKey(s[0], SortBy(s[1..], key), key, k);
    }
  }
}
