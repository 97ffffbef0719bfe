/** Small shared vocabulary: an optional value (used where the source keeps
    `-Infinity`/`Infinity` or `null` sentinels), integer helpers, and the
    stable sort that stands for the source's `Array.prototype.sort` with a
    numeric comparator. */
module Basics {

  datatype Option<T> = None | Some(value: T)

  function Abs(x: int): int { if x < 0 then -x else x }

  function Min(a: int, b: int): int { if a <= b then a else b }

  function Max(a: int, b: int): int { if a >= b then a else b }

  /** `Math.round(p / c)` for a positive divisor: rounds half up. */
  function RoundDiv(p: int, c: int): (r: int)
    requires c > 0
    ensures 2 * p - c < 2 * c * r <= 2 * p + c
  {
    var q := (2 * p + c) / (2 * c);
    assert 2 * p + c == (2 * c) * q + (2 * p + c) % (2 * c);
    q
  }

  /** Sum of a sequence, accumulated left to right. */
  function Sum(xs: seq<int>): int
  {
    if xs == [] then 0 else Sum(xs[..|xs| - 1]) + xs[|xs| - 1]
  }

  /** Extending a prefix by one element adds that element to the sum. */
  lemma SumPrefix(xs: seq<int>, i: int)
    requires 0 <= i < |xs|
    ensures Sum(xs[..i + 1]) == Sum(xs[..i]) + xs[i]
  {
    assert xs[..i + 1][..i] == xs[..i];
  }

  /** Appending adds the new element to the sum. */
  lemma SumAppend(xs: seq<int>, x: int)
    ensures Sum(xs + [x]) == Sum(xs) + x
  {
    assert (xs + [x])[..|xs|] == xs;
  }

  /** Replacing one element changes the sum by the difference. */
  lemma {:induction false} SumUpdate(xs: seq<int>, k: int, v: int)
    requires 0 <= k < |xs|
    ensures Sum(xs[k := v]) == Sum(xs) - xs[k] + v
  {
    var n := |xs| - 1;
    if k == n {
      assert xs[k := v][..n] == xs[..n];
    } else {
      assert xs[k := v][..n] == xs[..n][k := v];
      SumUpdate(xs[..n], k, v);
    }
  }

  /** `xs` is in ascending order of `key`. */
  ghost predicate SortedBy<T>(xs: seq<T>, key: T -> int)
  {
    forall a, b :: 0 <= a < b < |xs| ==> key(xs[a]) <= key(xs[b])
  }

  /** Inserts `x` in front of the first element whose key is not smaller,
      so that `x` precedes every element with an equal key. */
  function InsertBy<T>(x: T, xs: seq<T>, key: T -> int): (r: seq<T>)
    ensures |r| == |xs| + 1
    ensures multiset(r) == multiset(xs) + multiset{x}
  {
    if xs == [] || key(x) <= key(xs[0]) then [x] + xs
    else
      assert xs == [xs[0]] + xs[1..];
      [xs[0]] + InsertBy(x, xs[1..], key)
  }

  /** A stable sort, ascending by `key`: elements with equal keys keep their
      original relative order, as the source's engine sort does. Sorting
      descending by a value is sorting ascending by its negation. */
  function SortBy<T>(xs: seq<T>, key: T -> int): (r: seq<T>)
    ensures |r| == |xs|
    ensures multiset(r) == multiset(xs)
  {
    if xs == [] then []
    else
      assert xs == [xs[0]] + xs[1..];
      InsertBy(xs[0], SortBy(xs[1..], key), key)
  }

  /** Inserting adds `x` and nothing else. */
  lemma InsertByMembers<T>(x: T, xs: seq<T>, key: T -> int, e: T)
    requires e in InsertBy(x, xs, key)
    ensures e == x || e in xs
  {
    assert e in multiset(InsertBy(x, xs, key));
  }

  lemma {:induction false} InsertBySorted<T>(x: T, xs: seq<T>, key: T -> int)
    requires SortedBy(xs, key)
    ensures SortedBy(InsertBy(x, xs, key), key)
  {
    if xs == [] || key(x) <= key(xs[0]) {
    } else {
      InsertBySorted(x, xs[1..], key);
      var rest := InsertBy(x, xs[1..], key);
      forall b | 0 <= b < |rest| ensures key(xs[0]) <= key(rest[b]) {
        InsertByMembers(x, xs[1..], key, rest[b]);
      }
      assert InsertBy(x, xs, key) == [xs[0]] + rest;
    }
  }

  lemma {:induction false} SortBySorted<T>(xs: seq<T>, key: T -> int)
    ensures SortedBy(SortBy(xs, key), key)
  {
    if xs != [] {
      SortBySorted(xs[1..], key);
      InsertBySorted(xs[0], SortBy(xs[1..], key), key);
    }
  }

  /** The elements of `xs` whose key is `v`, in their order in `xs`. */
  function WithKey<T>(xs: seq<T>, key: T -> int, v: int): seq<T>
  {
    if xs == [] then [] else (if key(xs[0]) == v then [xs[0]] else []) + WithKey(xs[1..], key, v)
  }

  lemma WithKeyCons<T>(x: T, xs: seq<T>, key: T -> int, v: int)
    ensures WithKey([x] + xs, key, v) == (if key(x) == v then [x] else []) + WithKey(xs, key, v)
  {
    assert ([x] + xs)[0] == x && ([x] + xs)[1..] == xs;
  }

  /** Inserting `x` puts it behind nothing that has its key: among the
      elements with any one key, `x` comes first and the rest keep their order. */
  lemma {:induction false} InsertByStable<T>(x: T, xs: seq<T>, key: T -> int, v: int)
    ensures WithKey(InsertBy(x, xs, key), key, v) == (if key(x) == v then [x] else []) + WithKey(xs, key, v)
  {
    if xs == [] || key(x) <= key(xs[0]) {
      WithKeyCons(x, xs, key, v);
    } else {
      var h, tl := xs[0], xs[1..];
      var rest := InsertBy(x, tl, key);
      assert InsertBy(x, xs, key) == [h] + rest;
      assert xs == [h] + tl;
      InsertByStable(x, tl, key, v);
      WithKeyCons(h, rest, key, v);
      WithKeyCons(h, tl, key, v);
      // `h` has a smaller key than `x`, so at most one of the two is kept.
      if key(h) == v {
        assert key(x) != v;
      } else {
        assert WithKey([h] + tl, key, v) == WithKey(tl, key, v);
      }
    }
  }

  /** The sort is stable: for every key value, the elements with that key
      come out in the order they went in. */
  lemma {:induction false} SortByStable<T>(xs: seq<T>, key: T -> int, v: int)
    ensures WithKey(SortBy(xs, key), key, v) == WithKey(xs, key, v)
  {
    if xs != [] {
      SortByStable(xs[1..], key, v);
      InsertByStable(xs[0], SortBy(xs[1..], key), key, v);
    }
  }

  /** No value occurs twice in `xs`. */
  predicate Distinct<T(==)>(xs: seq<T>)
  {
    forall a, b :: 0 <= a < b < |xs| ==> xs[a] != xs[b]
  }
}
