/**
 * Python's `sorted(xs, key=key, reverse=True)` on real-valued keys: a stable sort into
 * non-increasing key order (elements with equal keys keep their original order).
 */
module PySorted {

  /** Keys never increase along `s`. */
  predicate NonIncreasing<T>(s: seq<T>, key: T -> real) {
    forall i, j :: 0 <= i < j < |s| ==> key(s[i]) >= key(s[j])
  }

  /** The elements of `s` whose key is `v`, in their order in `s`. */
  function WithKey<T>(s: seq<T>, key: T -> real, v: real): (r: seq<T>)
    ensures |r| <= |s|
  {
    if s == [] then [] else (if key(s[0]) == v then [s[0]] else []) + WithKey(s[1..], key, v)
  }

  /** Inserts `x` into the non-increasing `sorted` after every element whose key is at least `x`'s. */
  function Insert<T>(x: T, sorted: seq<T>, key: T -> real): seq<T>
  {
    if sorted == [] then [x]
    else if key(sorted[0]) >= key(x) then [sorted[0]] + Insert(x, sorted[1..], key)
    else [x] + sorted
  }

  /** `sorted(xs, key=key, reverse=True)`: each element in turn is inserted into the sorted prefix. */
  function SortDesc<T>(xs: seq<T>, key: T -> real): seq<T>
  {
    if xs == [] then [] else Insert(xs[|xs| - 1], SortDesc(xs[..|xs| - 1], key), key)
  }

  // ---------------------------------------------------------------------------
  // The sort is a permutation into non-increasing order, and stable
  // ---------------------------------------------------------------------------

  /** The result is ordered, holds the same elements, and keeps the order of equal keys. */
  lemma SortDescSpec<T>(xs: seq<T>, key: T -> real)
    ensures NonIncreasing(SortDesc(xs, key), key)
    ensures multiset(SortDesc(xs, key)) == multiset(xs)
    ensures forall v :: WithKey(SortDesc(xs, key), key, v) == WithKey(xs, key, v)
  {
    SortDescOrdered(xs, key);
    SortDescElements(xs, key);
    forall v ensures WithKey(SortDesc(xs, key), key, v) == WithKey(xs, key, v) {
      SortDescStable(xs, key, v);
    }
  }

  lemma {:induction false} SortDescOrdered<T>(xs: seq<T>, key: T -> real)
    ensures NonIncreasing(SortDesc(xs, key), key)
  {
    if xs != [] {
      SortDescOrdered(xs[..|xs| - 1], key);
      InsertOrdered(xs[|xs| - 1], SortDesc(xs[..|xs| - 1], key), key);
    }
  }

  lemma {:induction false} SortDescElements<T>(xs: seq<T>, key: T -> real)
    ensures multiset(SortDesc(xs, key)) == multiset(xs)
  {
    if xs != [] {
      var init, x := xs[..|xs| - 1], xs[|xs| - 1];
      SortDescElements(init, key);
      InsertElements(x, SortDesc(init, key), key);
      assert xs == init + [x];
    }
  }

  lemma {:induction false} SortDescStable<T>(xs: seq<T>, key: T -> real, v: real)
    ensures WithKey(SortDesc(xs, key), key, v) == WithKey(xs, key, v)
  {
    if xs != [] {
      var init, x := xs[..|xs| - 1], xs[|xs| - 1];
      SortDescStable(init, key, v);
      SortDescOrdered(init, key);
      InsertStable(x, SortDesc(init, key), key, v);
      assert xs == init + [x];
      WithKeyAppend(init, [x], key, v);
    }
  }

  /** A sort keeps the number of elements. */
  lemma SortDescLength<T>(xs: seq<T>, key: T -> real)
    ensures |SortDesc(xs, key)| == |xs|
  {
    SortDescElements(xs, key);
    assert |multiset(SortDesc(xs, key))| == |multiset(xs)|;
  }

  lemma {:induction false} InsertElements<T>(x: T, s: seq<T>, key: T -> real)
    ensures multiset(Insert(x, s, key)) == multiset(s) + multiset{x}
  {
    if s != [] && key(s[0]) >= key(x) {
      InsertElements(x, s[1..], key);
      assert s == [s[0]] + s[1..];
    }
  }

  /** Every element of the insertion is `x` or an element of `s`. */
  lemma {:induction false} InsertMembers<T>(x: T, s: seq<T>, key: T -> real)
    ensures forall e :: e in Insert(x, s, key) ==> e == x || e in s
  {
    if s != [] && key(s[0]) >= key(x) {
      InsertMembers(x, s[1..], key);
      assert Insert(x, s, key) == [s[0]] + Insert(x, s[1..], key);
    }
  }

  lemma {:induction false} InsertOrdered<T>(x: T, s: seq<T>, key: T -> real)
    requires NonIncreasing(s, key)
    ensures NonIncreasing(Insert(x, s, key), key)
  {
    if s != [] {
      if key(s[0]) >= key(x) {
        var tail := s[1..];
        InsertOrdered(x, tail, key);
        InsertMembers(x, tail, key);
        var rest := Insert(x, tail, key);
        forall j | 0 <= j < |rest| ensures key(s[0]) >= key(rest[j]) {
          assert rest[j] in rest;
          if rest[j] != x {
            var i :| 0 <= i < |tail| && tail[i] == rest[j];
            assert s[i + 1] == rest[j];
          }
        }
        assert Insert(x, s, key) == [s[0]] + rest;
      }
    }
  }

  /** `x` goes after every element with its key, so the run of its key gains it at the end. */
  lemma {:induction false} InsertStable<T>(x: T, s: seq<T>, key: T -> real, v: real)
    requires NonIncreasing(s, key)
    ensures WithKey(Insert(x, s, key), key, v) == WithKey(s, key, v) + (if key(x) == v then [x] else [])
  {
    if s == [] {
    } else if key(s[0]) >= key(x) {
      InsertStable(x, s[1..], key, v);
      assert Insert(x, s, key) == [s[0]] + Insert(x, s[1..], key);
      assert ([s[0]] + Insert(x, s[1..], key))[1..] == Insert(x, s[1..], key);
    } else {
      assert ([x] + s)[1..] == s;
      if key(x) == v {
        NoneWithKey(s, key, v);
      }
    }
  }

  /** No element of an ordered `s` has a key above its first. */
  lemma {:induction false} NoneWithKey<T>(s: seq<T>, key: T -> real, v: real)
    requires NonIncreasing(s, key)
    requires s != [] && key(s[0]) < v
    ensures WithKey(s, key, v) == []
  {
    if |s| > 1 {
      assert key(s[1]) <= key(s[0]);
      NoneWithKey(s[1..], key, v);
    }
  }

  lemma {:induction false} WithKeyAppend<T>(a: seq<T>, b: seq<T>, key: T -> real, v: real)
    ensures WithKey(a + b, key, v) == WithKey(a, key, v) + WithKey(b, key, v)
  {
    if a == [] {
      assert a + b == b;
    } else {
      var ab := a + b;
      assert ab[0] == a[0] && ab[1..] == a[1..] + b;
      WithKeyAppend(a[1..], b, key, v);
      var h := if key(a[0]) == v then [a[0]] else [];
      assert WithKey(ab, key, v) == h + WithKey(a[1..] + b, key, v);
      assert WithKey(a, key, v) == h + WithKey(a[1..], key, v);
    }
  }

  // ---------------------------------------------------------------------------
  // A symmetric relation that holds between every two elements survives the sort
  // ---------------------------------------------------------------------------

  /** `R` holds between every element and every later one. */
  predicate Pairwise<T>(s: seq<T>, R: (T, T) -> bool) {
    forall i, j :: 0 <= i < j < |s| ==> R(s[i], s[j])
  }

  /** Reordering keeps a symmetric relation between every two elements (distinct ids, say). */
  lemma {:induction false} SortDescPairwise<T>(xs: seq<T>, key: T -> real, R: (T, T) -> bool)
    requires (forall a, b :: R(a, b) == R(b, a)) && Pairwise(xs, R)
    ensures Pairwise(SortDesc(xs, key), R)
  {
    if xs != [] {
      var init, x := xs[..|xs| - 1], xs[|xs| - 1];
      assert Pairwise(init, R);
      SortDescPairwise(init, key, R);
      var s := SortDesc(init, key);
      SortDescSpec(init, key);
      forall y | y in s ensures R(x, y) {
        assert y in multiset(init);
        var i :| 0 <= i < |init| && init[i] == y;
        assert R(xs[i], xs[|xs| - 1]);
      }
      InsertPairwise(x, s, key, R);
    }
  }

  lemma {:induction false} InsertPairwise<T>(x: T, s: seq<T>, key: T -> real, R: (T, T) -> bool)
    requires (forall a, b :: R(a, b) == R(b, a)) && Pairwise(s, R)
    requires forall y :: y in s ==> R(x, y)
    ensures Pairwise(Insert(x, s, key), R)
  {
    if s != [] {
      if key(s[0]) >= key(x) {
        var tail := s[1..];
        assert Pairwise(tail, R);
        InsertPairwise(x, tail, key, R);
        InsertMembers(x, tail, key);
        var rest := Insert(x, tail, key);
        forall j | 0 <= j < |rest| ensures R(s[0], rest[j]) {
          assert rest[j] in rest;
          if rest[j] in tail {
            var i :| 0 <= i < |tail| && tail[i] == rest[j];
            assert R(s[0], s[i + 1]);
          } else {
            assert R(x, s[0]);
          }
        }
        assert Insert(x, s, key) == [s[0]] + rest;
      } else {
        assert Insert(x, s, key) == [x] + s;
      }
    }
  }

  // ---------------------------------------------------------------------------
  // Taking the first elements of the sorted sequence (`sorted(...)[:n]`)
  // ---------------------------------------------------------------------------

  /** `a` is a prefix of `b`. */
  predicate IsPrefix<T(==)>(a: seq<T>, b: seq<T>) {
    |a| <= |b| && a == b[..|a|]
  }

  /** The first `n` elements of a prefix of an ordered sequence are ordered. */
  lemma PrefixOrdered<T>(s: seq<T>, n: nat, key: T -> real)
    requires n <= |s| && NonIncreasing(s, key)
    ensures NonIncreasing(s[..n], key)
  {
  }

  /** What an ordered sequence's first `n` elements leave out has keys no higher than any they keep. */
  lemma PrefixKeepsBest<T>(s: seq<T>, n: nat, key: T -> real)
    requires n <= |s| && NonIncreasing(s, key)
    ensures forall h, i :: h in multiset(s) - multiset(s[..n]) && 0 <= i < n ==> key(s[i]) >= key(h)
  {
    assert s == s[..n] + s[n..];
    forall h, i | h in multiset(s) - multiset(s[..n]) && 0 <= i < n ensures key(s[i]) >= key(h) {
      assert h in multiset(s[n..]);
      var t :| 0 <= t < |s[n..]| && s[n..][t] == h;
      assert s[n + t] == h;
    }
  }

  /** The elements of a given key in a prefix are a prefix of those in the whole. */
  lemma PrefixWithKey<T>(s: seq<T>, n: nat, key: T -> real, v: real)
    requires n <= |s|
    ensures IsPrefix(WithKey(s[..n], key, v), WithKey(s, key, v))
  {
    assert s == s[..n] + s[n..];
    WithKeyAppend(s[..n], s[n..], key, v);
  }

  /**
   * `sorted(xs, key=key, reverse=True)[:n]`: ordered, the `n` highest keys (whatever is
   * left out has a key no higher than any kept), and equal keys in their order in `xs`.
   */
  lemma TopOfSort<T>(xs: seq<T>, key: T -> real, n: nat)
    requires n <= |xs|
    ensures |SortDesc(xs, key)| == |xs|
    ensures var top := SortDesc(xs, key)[..n];
      && NonIncreasing(top, key)
      && (forall h, i :: h in multiset(xs) - multiset(top) && 0 <= i < n ==> key(top[i]) >= key(h))
      && (forall v :: IsPrefix(WithKey(top, key, v), WithKey(xs, key, v)))
  {
    var sorted := SortDesc(xs, key);
    SortDescLength(xs, key);
    SortDescOrdered(xs, key);
    SortDescElements(xs, key);
    PrefixOrdered(sorted, n, key);
    PrefixKeepsBest(sorted, n, key);
    forall v ensures IsPrefix(WithKey(sorted[..n], key, v), WithKey(xs, key, v)) {
      PrefixWithKey(sorted, n, key, v);
      SortDescStable(xs, key, v);
    }
  }
}
