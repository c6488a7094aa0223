/** Small shared vocabulary: an optional value, integer helpers with the
    rounding the Python program uses, and Python's prefix slice `xs[:k]`. */
module Base {

  /** Python's `None` versus a present value. */
  datatype Option<+T> = None | Some(value: T) {
    function GetOr(default: T): T {
      match this
      case Some(v) => v
      case None => default
    }
  }

  function Min(a: int, b: int): (r: int)
    ensures r <= a && r <= b && (r == a || r == b)
  {
    if a <= b then a else b
  }

  function Max(a: int, b: int): (r: int)
    ensures r >= a && r >= b && (r == a || r == b)
  {
    if a >= b then a else b
  }

  function Abs(x: int): (r: nat)
    ensures r == x || r == -x
  {
    if x >= 0 then x else -x
  }

  /** The length of Python's `xs[:k]`: a negative `k` counts from the end. */
  function SliceLen(n: nat, k: int): (m: nat)
    ensures m <= n
    ensures k >= 0 ==> m == Min(k, n)
    ensures k < 0 ==> m == Max(n + k, 0)
  {
    if k >= 0 then (if k <= n then k else n)
    else if n + k >= 0 then n + k else 0
  }

  /** Python's `xs[:k]`. */
  function PrefixSlice<T>(xs: seq<T>, k: int): (r: seq<T>)
    ensures r <= xs
    ensures 0 <= k <= |xs| ==> |r| == k
    ensures k < 0 ==> |r| == Max(|xs| + k, 0)
    ensures k >= |xs| ==> r == xs
  {
    xs[..SliceLen(|xs|, k)]
  }

  /** Python's `set(xs)`. */
  function Elems<T>(xs: seq<T>): set<T> {
    set x | x in xs
  }

  /** No element occurs twice. */
  predicate Distinct<T(==)>(xs: seq<T>) {
    forall i, j :: 0 <= i < j < |xs| ==> xs[i] != xs[j]
  }

  lemma SubsetSize<T>(a: set<T>, b: set<T>)
    requires a <= b
    ensures |a| <= |b|
    ensures |a| == |b| ==> a == b
  {
    assert b == a + (b - a);
    assert |b| == |a| + |b - a|;
  }

  /** `len(set(xs)) <= len(xs)`, with equality exactly when no element
      repeats. */
  lemma {:induction false} ElemsSize<T>(xs: seq<T>)
    ensures |Elems(xs)| <= |xs|
    ensures |Elems(xs)| == |xs| <==> Distinct(xs)
    decreases |xs|
  {
    if |xs| > 0 {
      var rest := xs[1..];
      ElemsSize(rest);
      if xs[0] in rest {
        assert Elems(xs) == Elems(rest);
        var j :| 0 <= j < |rest| && rest[j] == xs[0];
        assert xs[0] == xs[j + 1];
      } else {
        assert Elems(xs) == Elems(rest) + {xs[0]};
        if Distinct(rest) {
          forall i, j | 0 <= i < j < |xs| ensures xs[i] != xs[j] {
            if i == 0 {
              assert xs[j] == rest[j - 1];
            } else {
              assert xs[i] == rest[i - 1] && xs[j] == rest[j - 1];
            }
          }
        } else {
          var i, j :| 0 <= i < j < |rest| && rest[i] == rest[j];
          assert xs[i + 1] == xs[j + 1];
        }
      }
    } else {
      assert Elems(xs) == {};
    }
  }

  /** A non-empty sequence is its head followed by its tail. */
  lemma HeadTail<T>(xs: seq<T>)
    requires |xs| >= 1
    ensures [xs[0]] + xs[1..] == xs
  {
  }

  /** The elements of a sequence with one element put in front. */
  lemma ConsIndex<T>(x: T, rest: seq<T>)
    ensures |[x] + rest| == 1 + |rest| && ([x] + rest)[0] == x
    ensures forall i :: 1 <= i <= |rest| ==> ([x] + rest)[i] == rest[i - 1]
  {
  }

  /** The elements of the tail of a sequence, by their index in it. */
  lemma TailIndex<T>(xs: seq<T>)
    requires |xs| >= 1
    ensures forall i :: 1 <= i < |xs| ==> xs[1..][i - 1] == xs[i]
  {
  }

  /** The part of `xs` after a prefix `p + [x]` of it, seen from `p`. */
  lemma SuffixStep<T>(xs: seq<T>, p: seq<T>, x: T)
    requires p + [x] <= xs
    ensures xs[|p|..] == [x] + xs[|p| + 1..]
  {
    assert xs[|p|] == (p + [x])[|p|];
  }

  /** The head and tail of a concatenation with a non-empty left operand. */
  lemma AppendTail<T>(a: seq<T>, b: seq<T>)
    requires |a| > 0
    ensures (a + b)[0] == a[0] && (a + b)[1..] == a[1..] + b
  {
  }

  /** A slice inside the left operand of a concatenation. */
  lemma SliceLeft<T>(a: seq<T>, b: seq<T>, i: int, j: int)
    requires 0 <= i <= j <= |a|
    ensures (a + b)[i..j] == a[i..j]
  {
  }

  /** A slice inside the right operand of a concatenation. */
  lemma SliceRight<T>(a: seq<T>, b: seq<T>, i: int, j: int)
    requires |a| <= i <= j <= |a| + |b|
    ensures (a + b)[i..j] == b[i - |a|..j - |a|]
  {
  }

  /** Taking `n >= 1` elements of a sequence with a head takes the head and
      `n - 1` elements of the rest. */
  lemma PrefixCons<T>(x: T, xs: seq<T>, n: int)
    requires n >= 1
    ensures PrefixSlice([x] + xs, n) == [x] + PrefixSlice(xs, n - 1)
  {
    var m := Min(n - 1, |xs|);
    assert ([x] + xs)[..m + 1] == [x] + xs[..m];
  }

  /** Concatenation regrouped around its middle operands. */
  lemma Assoc<T>(a: seq<T>, b: seq<T>, c: seq<T>)
    ensures a + b + c == a + (b + c)
  {
  }

  lemma Regroup<T>(a: seq<T>, b: seq<T>, c: seq<T>, d: seq<T>)
    ensures a + (b + c) + d == a + b + (c + d)
  {
  }

  /** Taking out the element at `k` takes it out of the multiset. */
  lemma RemoveAt<T>(s: seq<T>, k: nat)
    requires k < |s|
    ensures multiset(s) == multiset(s[..k] + s[k + 1..]) + multiset{s[k]}
    ensures s[..0] + s[1..] == s[1..]
  {
    assert s == s[..k] + [s[k]] + s[k + 1..];
  }

  /** Dropping matching elements from two permutations of each other leaves
      two permutations of each other. */
  lemma RemoveMatching<T>(a: seq<T>, b: seq<T>, k: nat)
    requires multiset(a) == multiset(b)
    requires |a| > 0 && k < |b| && b[k] == a[0]
    ensures multiset(a[1..]) == multiset(b[..k] + b[k + 1..])
  {
    RemoveAt(a, 0);
    RemoveAt(b, k);
    MultisetCancel(multiset(a[1..]), multiset(b[..k] + b[k + 1..]), a[0]);
  }

  /** Adding the same element to both sides can be cancelled. */
  lemma MultisetCancel<T>(m: multiset<T>, n: multiset<T>, x: T)
    requires m + multiset{x} == n + multiset{x}
    ensures m == n
  {
    forall y ensures m[y] == n[y] {
      assert (m + multiset{x})[y] == (n + multiset{x})[y];
    }
  }

  /** Mapping a function over two permutations of each other gives two
      permutations of each other; `fa` and `fb` are the mapped sequences. */
  lemma {:induction false} MapPermuted<A, B>(a: seq<A>, b: seq<A>, f: A -> B, fa: seq<B>, fb: seq<B>)
    requires multiset(a) == multiset(b)
    requires |fa| == |a| && forall i :: 0 <= i < |a| ==> fa[i] == f(a[i])
    requires |fb| == |b| && forall i :: 0 <= i < |b| ==> fb[i] == f(b[i])
    ensures multiset(fa) == multiset(fb)
    decreases |a|
  {
    assert |a| == |multiset(a)| == |multiset(b)| == |b|;
    if |a| > 0 {
      var x := a[0];
      assert x in multiset(b);
      var k :| 0 <= k < |b| && b[k] == x;
      RemoveMatching(a, b, k);
      var b' := b[..k] + b[k + 1..];
      var fb' := fb[..k] + fb[k + 1..];
      assert forall i :: 0 <= i < |b'| ==> fb'[i] == f(b'[i]) by {
        forall i | 0 <= i < |b'| ensures fb'[i] == f(b'[i]) {
          if i < k { assert b'[i] == b[i]; } else { assert b'[i] == b[i + 1]; }
        }
      }
      MapPermuted(a[1..], b', f, fa[1..], fb');
      RemoveAt(fa, 0);
      RemoveAt(fb, k);
    }
  }

  /** `part / total` for `0 <= part <= total`, `total > 0`. */
  function Share(part: nat, total: nat): (r: real)
    requires part <= total && total > 0
    ensures 0.0 <= r <= 1.0
    ensures r == 0.0 <==> part == 0
    ensures r == 1.0 <==> part == total
    ensures r * total as real == part as real
  {
    part as real / total as real
  }

  /** A larger part is a larger share. */
  lemma ShareMonotone(a: nat, b: nat, total: nat)
    requires a <= b <= total && total > 0
    ensures Share(a, total) <= Share(b, total)
  {
    var x := Share(a, total);
    var y := Share(b, total);
    var t := total as real;
    assert x * t == a as real && y * t == b as real;
    assert (y - x) * t == (b - a) as real >= 0.0;
  }
}
