/**
 * The query shapes the routes use on fetched rows: `WHERE` / `Array.filter`
 * (an order-preserving filter) and `ORDER BY <TEXT column> DESC`.
 */
module Lists {
  import opened Wrappers
  import opened Text

  /** The order of a nullable TEXT column under ORDER BY: NULL below every string. */
  predicate KeyLe(a: Option<string>, b: Option<string>)
  {
    a.None? || (b.Some? && LexLe(a.value, b.value))
  }

  lemma KeyLeTotal(a: Option<string>, b: Option<string>)
    ensures KeyLe(a, b) || KeyLe(b, a)
  {
    if a.Some? && b.Some? {
      LexLeTotal(a.value, b.value);
    }
  }

  lemma KeyLeTransitive(a: Option<string>, b: Option<string>, c: Option<string>)
    requires KeyLe(a, b) && KeyLe(b, c)
    ensures KeyLe(a, c)
  {
    if a.Some? {
      LexLeTransitive(a.value, b.value, c.value);
    }
  }

  /** `ORDER BY key DESC`: keys never increase along the sequence. */
  ghost predicate SortedDesc<T>(xs: seq<T>, key: T -> Option<string>)
  {
    forall i, j :: 0 <= i < j < |xs| ==> KeyLe(key(xs[j]), key(xs[i]))
  }

  /** `LIMIT n` keeps a sorted result sorted. */
  lemma SortedDescPrefix<T>(xs: seq<T>, key: T -> Option<string>, n: int)
    requires SortedDesc(xs, key) && 0 <= n <= |xs|
    ensures SortedDesc(xs[..n], key)
  {
    assert forall i :: 0 <= i < n ==> xs[..n][i] == xs[i];
  }

  /** Puts `x` in front of the first element whose key is not above its own. */
  function InsertDesc<T>(x: T, xs: seq<T>, key: T -> Option<string>): (r: seq<T>)
    requires SortedDesc(xs, key)
    ensures |r| == |xs| + 1
    ensures forall i :: 0 <= i < |r| ==> r[i] == x || r[i] in xs
    ensures SortedDesc(r, key) && multiset(r) == multiset(xs) + multiset{x}
  {
    if xs == [] || KeyLe(key(xs[0]), key(x)) then
      assert forall j :: 0 <= j < |xs| ==> KeyLe(key(xs[j]), key(x)) by {
        forall j | 0 <= j < |xs| ensures KeyLe(key(xs[j]), key(x)) {
          if j > 0 { KeyLeTransitive(key(xs[j]), key(xs[0]), key(x)); }
        }
      }
      [x] + xs
    else
      var rest := InsertDesc(x, xs[1..], key);
      KeyLeTotal(key(xs[0]), key(x));
      assert forall i :: 0 <= i < |rest| ==> KeyLe(key(rest[i]), key(xs[0])) by {
        forall i | 0 <= i < |rest| ensures KeyLe(key(rest[i]), key(xs[0])) {
          if rest[i] != x {
            var k :| 0 <= k < |xs[1..]| && xs[1..][k] == rest[i];
            assert xs[k + 1] == rest[i];
          }
        }
      }
      assert xs == [xs[0]] + xs[1..];
      [xs[0]] + rest
  }

  /**
   * `ORDER BY key DESC` on a whole result: a permutation of the input whose keys
   * never increase. SQLite leaves the order of equal keys open; this is one choice.
   */
  function SortDesc<T>(xs: seq<T>, key: T -> Option<string>): (r: seq<T>)
    ensures |r| == |xs|
    ensures SortedDesc(r, key) && multiset(r) == multiset(xs)
  {
    if xs == [] then []
    else
      assert xs == [xs[0]] + xs[1..];
      InsertDesc(xs[0], SortDesc(xs[1..], key), key)
  }

  /** Sequences with the same multiset have the same elements. */
  lemma SameElements<T>(a: seq<T>, b: seq<T>)
    requires multiset(a) == multiset(b)
    ensures forall k :: 0 <= k < |a| ==> a[k] in b
    ensures forall k :: 0 <= k < |b| ==> b[k] in a
  {
    assert forall k :: 0 <= k < |a| ==> a[k] in multiset(b);
    assert forall k :: 0 <= k < |b| ==> b[k] in multiset(a);
  }

  /** A prefix takes no element more often than the whole sequence holds it. */
  lemma PrefixWithin<T>(xs: seq<T>, n: nat)
    requires n <= |xs|
    ensures multiset(xs[..n]) <= multiset(xs)
  {
    assert xs == xs[..n] + xs[n..];
  }

  /** The elements satisfying `p`, in their original order. */
  function Filter<T>(xs: seq<T>, p: T -> bool): (r: seq<T>)
    ensures |r| <= |xs|
    ensures forall i :: 0 <= i < |r| ==> p(r[i]) && r[i] in xs
    ensures forall i :: 0 <= i < |xs| && p(xs[i]) ==> xs[i] in r
  {
    if xs == [] then []
    else if p(xs[0]) then [xs[0]] + Filter(xs[1..], p)
    else Filter(xs[1..], p)
  }

  /** Filtering distributes over concatenation: relative order is kept. */
  lemma {:induction false} FilterConcat<T>(a: seq<T>, b: seq<T>, p: T -> bool)
    ensures Filter(a + b, p) == Filter(a, p) + Filter(b, p)
  {
    if a == [] {
      assert a + b == b;
    } else {
      assert (a + b)[0] == a[0] && (a + b)[1..] == a[1..] + b;
      FilterConcat(a[1..], b, p);
    }
  }

  /** Two filters in a row are one filter by the conjunction. */
  lemma {:induction false} FilterFilter<T>(xs: seq<T>, p: T -> bool, q: T -> bool, pq: T -> bool)
    requires forall x :: pq(x) == (p(x) && q(x))
    ensures Filter(Filter(xs, p), q) == Filter(xs, pq)
  {
    if xs != [] {
      FilterFilter(xs[1..], p, q, pq);
    }
  }

  /** `a` is `b` with some elements left out and the others in their order. */
  predicate Subsequence<T(==)>(a: seq<T>, b: seq<T>)
    decreases |b|
  {
    if b == [] then a == []
    else Subsequence(a, b[1..]) || (a != [] && a[0] == b[0] && Subsequence(a[1..], b[1..]))
  }

  /** A filter keeps the relative order of what it keeps. */
  lemma {:induction false} FilterSubsequence<T>(xs: seq<T>, p: T -> bool)
    ensures Subsequence(Filter(xs, p), xs)
  {
    if xs != [] {
      FilterSubsequence(xs[1..], p);
    }
  }

  /** Filters by tests that agree everywhere agree. */
  lemma {:induction false} FilterSame<T>(xs: seq<T>, p: T -> bool, q: T -> bool)
    requires forall x :: p(x) == q(x)
    ensures Filter(xs, p) == Filter(xs, q)
  {
    if xs != [] {
      FilterSame(xs[1..], p, q);
    }
  }

  /** A filter keeps a pair whose elements both pass. */
  lemma FilterPair<T>(a: T, b: T, p: T -> bool)
    requires p(a) && p(b)
    ensures Filter([a, b], p) == [a, b]
  {
    assert [a, b][1..] == [b];
  }

  /** A filter whose test always passes keeps everything. */
  lemma {:induction false} FilterAll<T>(xs: seq<T>, p: T -> bool)
    requires forall i :: 0 <= i < |xs| ==> p(xs[i])
    ensures Filter(xs, p) == xs
  {
    if xs != [] {
      FilterAll(xs[1..], p);
    }
  }

  /** `SELECT COUNT(*) ... WHERE p`. */
  function Count<T>(xs: seq<T>, p: T -> bool): nat
  {
    |Filter(xs, p)|
  }
}
