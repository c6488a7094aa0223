/** Python's `sorted(xs, key=key, reverse=True)` and `xs.sort(key=key,
    reverse=True)`: a stable sort into descending key order, so elements
    with equal keys keep their input order. Modelled as insertion sort. */
module Sorting {
  import opened Base

  predicate Descending<T>(s: seq<T>, key: T -> real) {
    forall i, j :: 0 <= i < j < |s| ==> key(s[i]) >= key(s[j])
  }

  /** The elements of `s` whose key is `v`, in their order in `s`. */
  function WithKey<T>(s: seq<T>, key: T -> real, v: real): (r: seq<T>)
    ensures forall y :: y in r ==> y in s && key(y) == v
  {
    if |s| == 0 then []
    else (if key(s[0]) == v then [s[0]] else []) + WithKey(s[1..], key, v)
  }

  /** Place `x` in front of the first element whose key is not larger. */
  function Insert<T>(x: T, s: seq<T>, key: T -> real): (r: seq<T>)
    ensures multiset(r) == multiset(s) + multiset{x}
  {
    if |s| == 0 || key(x) >= key(s[0]) then [x] + s
    else
      assert s == [s[0]] + s[1..];
      [s[0]] + Insert(x, s[1..], key)
  }

  lemma {:induction false} InsertDescending<T>(x: T, s: seq<T>, key: T -> real)
    requires Descending(s, key)
    ensures Descending(Insert(x, s, key), key)
    decreases |s|
  {
    if |s| > 0 && key(x) < key(s[0]) {
      InsertDescending(x, s[1..], key);
      var rest := Insert(x, s[1..], key);
      InsertBelow(x, s, key);
      ConsDescending(s[0], rest, key);
      assert Insert(x, s, key) == [s[0]] + rest;
    }
  }

  /** Behind the head of a descending list, inserting a smaller key leaves
      only keys up to the head's. */
  lemma InsertBelow<T>(x: T, s: seq<T>, key: T -> real)
    requires Descending(s, key) && |s| > 0 && key(x) < key(s[0])
    ensures forall y :: y in Insert(x, s[1..], key) ==> key(y) <= key(s[0])
  {
    var rest := Insert(x, s[1..], key);
    forall y | y in rest ensures key(y) <= key(s[0]) {
      assert y in multiset(rest);
      if y != x {
        assert y in multiset(s[1..]);
        var j :| 0 <= j < |s[1..]| && s[1..][j] == y;
        assert s[j + 1] == y;
      }
    }
  }

  /** A head no smaller than anything in a descending tail keeps the order. */
  lemma ConsDescending<T>(h: T, rest: seq<T>, key: T -> real)
    requires Descending(rest, key)
    requires forall y :: y in rest ==> key(y) <= key(h)
    ensures Descending([h] + rest, key)
  {
    var r := [h] + rest;
    ConsIndex(h, rest);
    forall i, j | 0 <= i < j < |r| ensures key(r[i]) >= key(r[j]) {
      assert r[j] == rest[j - 1];
      if i == 0 {
        assert r[j] in rest;
      } else {
        assert r[i] == rest[i - 1];
      }
    }
  }

  function SortDesc<T>(s: seq<T>, key: T -> real): (r: seq<T>)
    ensures multiset(r) == multiset(s)
    ensures |r| == |s|
    ensures Descending(r, key)
  {
    if |s| == 0 then []
    else
      assert s == [s[0]] + s[1..];
      var rest := SortDesc(s[1..], key);
      InsertDescending(s[0], rest, key);
      Insert(s[0], rest, key)
  }

  lemma WithKeyCons<T>(y: T, t: seq<T>, key: T -> real, v: real)
    ensures WithKey([y] + t, key, v) == (if key(y) == v then [y] else []) + WithKey(t, key, v)
  {
    assert ([y] + t)[1..] == t;
  }

  lemma {:induction false} InsertWithKey<T>(x: T, s: seq<T>, key: T -> real, v: real)
    ensures WithKey(Insert(x, s, key), key, v)
         == (if key(x) == v then [x] else []) + WithKey(s, key, v)
    decreases |s|
  {
    if |s| == 0 || key(x) >= key(s[0]) {
      WithKeyCons(x, s, key, v);
    } else {
      InsertWithKey(x, s[1..], key, v);
      var rest := Insert(x, s[1..], key);
      WithKeyCons(s[0], rest, key, v);
      WithKeyCons(s[0], s[1..], key, v);
      assert s == [s[0]] + s[1..];
      var w := WithKey(s[1..], key, v);
      if key(x) == v {
        assert [s[0]] + rest == Insert(x, s, key);
        assert WithKey(s, key, v) == w;
        assert WithKey(Insert(x, s, key), key, v) == WithKey(rest, key, v) == [x] + w;
      } else if key(s[0]) == v {
        assert WithKey(rest, key, v) == w;
        assert WithKey(Insert(x, s, key), key, v) == [s[0]] + w == WithKey(s, key, v);
      } else {
        assert WithKey(Insert(x, s, key), key, v) == WithKey(rest, key, v) == w == WithKey(s, key, v);
      }
    }
  }

  /** Stability: among elements with the same key the output keeps the
      input order. Together with the permutation and the descending order
      this pins the output down uniquely. */
  lemma {:induction false} SortDescStable<T>(s: seq<T>, key: T -> real, v: real)
    ensures WithKey(SortDesc(s, key), key, v) == WithKey(s, key, v)
    decreases |s|
  {
    if |s| > 0 {
      SortDescStable(s[1..], key, v);
      InsertWithKey(s[0], SortDesc(s[1..], key), key, v);
    }
  }

  /** Sorting an already descending sequence changes nothing. */
  lemma {:induction false} SortDescOfDescending<T>(s: seq<T>, key: T -> real)
    requires Descending(s, key)
    ensures SortDesc(s, key) == s
    decreases |s|
  {
    if |s| > 0 {
      assert Descending(s[1..], key);
      SortDescOfDescending(s[1..], key);
      assert s == [s[0]] + s[1..];
    }
  }
}
