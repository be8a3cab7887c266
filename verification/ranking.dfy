/** Ordering rows by a key, highest first, and cutting the ranking off: the
    `ORDER BY … DESC … LIMIT n` of the discovery queries and the comparator
    sorts of the player. The sort is a stable insertion sort, so rows whose keys
    tie keep their input order. */
module Ranking {

  /** A sort key compared lexicographically: `major` first, then `minor`. */
  datatype Rank = Rank(major: int, minor: int)

  /** `a` ranks at or above `b`. */
  predicate AtLeast(a: Rank, b: Rank) {
    a.major > b.major || (a.major == b.major && a.minor >= b.minor)
  }

  /** Every row ranks at or above every later row. */
  predicate SortedDesc<T>(xs: seq<T>, key: T -> Rank) {
    forall i, j :: 0 <= i < j < |xs| ==> AtLeast(key(xs[i]), key(xs[j]))
  }

  /** Places `x` into a ranking, before the first row it ranks at or above. */
  function Insert<T(==)>(x: T, xs: seq<T>, key: T -> Rank): (r: seq<T>)
    requires SortedDesc(xs, key)
    ensures SortedDesc(r, key)
    ensures multiset(r) == multiset(xs) + multiset{x}
    decreases |xs|
  {
    if |xs| == 0 then [x]
    else if AtLeast(key(x), key(xs[0])) then
      [x] + xs
    else
      var rest := Insert(x, xs[1..], key);
      InsertBelowHead(x, xs, rest, key);
      [xs[0]] + rest
  }

  /** The head of a ranking stays in front of a row that does not reach it. */
  lemma InsertBelowHead<T>(x: T, xs: seq<T>, rest: seq<T>, key: T -> Rank)
    requires |xs| > 0 && SortedDesc(xs, key) && !AtLeast(key(x), key(xs[0]))
    requires SortedDesc(rest, key) && multiset(rest) == multiset(xs[1..]) + multiset{x}
    ensures SortedDesc([xs[0]] + rest, key)
    ensures multiset([xs[0]] + rest) == multiset(xs) + multiset{x}
  {
    assert xs == [xs[0]] + xs[1..];
    forall k | 0 <= k < |rest|
      ensures AtLeast(key(xs[0]), key(rest[k]))
    {
      assert rest[k] in multiset(rest);
      if rest[k] != x {
        assert rest[k] in xs[1..];
      }
    }
    var r := [xs[0]] + rest;
    forall i, j | 0 <= i < j < |r| ensures AtLeast(key(r[i]), key(r[j])) {
      if i > 0 {
        assert r[i] == rest[i - 1] && r[j] == rest[j - 1];
      } else {
        assert r[j] == rest[j - 1];
      }
    }
  }

  /** Stable descending sort: a permutation of `xs` whose keys never increase. */
  function SortDesc<T(==)>(xs: seq<T>, key: T -> Rank): (r: seq<T>)
    ensures SortedDesc(r, key)
    ensures multiset(r) == multiset(xs)
    decreases |xs|
  {
    if |xs| == 0 then []
    else
      assert xs == [xs[0]] + xs[1..];
      Insert(xs[0], SortDesc(xs[1..], key), key)
  }

  /** In a ranking, each row of a prefix ranks at or above each row after it. */
  lemma PrefixDominates<T>(sorted: seq<T>, n: nat, key: T -> Rank)
    requires SortedDesc(sorted, key)
    requires n <= |sorted|
    ensures forall x, y :: x in sorted[..n] && y in sorted[n..] ==> AtLeast(key(x), key(y))
  {
    forall x, y | x in sorted[..n] && y in sorted[n..]
      ensures AtLeast(key(x), key(y))
    {
      var i :| 0 <= i < n && sorted[..n][i] == x;
      var j :| 0 <= j < |sorted| - n && sorted[n..][j] == y;
      assert sorted[i] == x && sorted[n + j] == y;
    }
  }

  /** Cutting a sequence in two splits its multiset. */
  lemma CutMultiset<T>(s: seq<T>, n: nat)
    requires n <= |s|
    ensures multiset(s) - multiset(s[..n]) == multiset(s[n..])
    ensures multiset(s[..n]) <= multiset(s)
  {
    assert s == s[..n] + s[n..];
  }

  /** `ORDER BY key DESC LIMIT limit`: the first `limit` rows of the ranking. Every
      returned row ranks at or above every row that was cut off. */
  function TopRanked<T(==)>(xs: seq<T>, key: T -> Rank, limit: nat): (r: seq<T>)
    ensures |r| == if |xs| < limit then |xs| else limit
    ensures SortedDesc(r, key)
    ensures multiset(r) <= multiset(xs)
    ensures |xs| <= limit ==> multiset(r) == multiset(xs)
    ensures forall x, y :: x in r && y in multiset(xs) - multiset(r) ==> AtLeast(key(x), key(y))
  {
    var sorted := SortDesc(xs, key);
    assert |sorted| == |xs| by {
      assert |multiset(sorted)| == |multiset(xs)|;
    }
    var n := if |sorted| < limit then |sorted| else limit;
    CutMultiset(sorted, n);
    PrefixDominates(sorted, n, key);
    assert n == |sorted| ==> sorted[..n] == sorted;
    sorted[..n]
  }
}
