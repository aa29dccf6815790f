/**
 * Sequence orderings used when the notice feed is assembled.
 *
 * `SortNewestFirst` is the behaviour of `Array.prototype.sort` with the
 * comparator that orders by creation time, newest first: the result holds the same
 * elements, largest key first, and (the sort being stable) elements with
 * equal keys keep their original relative order.
 */
module Ordering {

  /** `s` is ordered by `key`, largest key first. */
  ghost predicate NewestFirst<T>(s: seq<T>, key: T -> int) {
    forall i, j :: 0 <= i < j < |s| ==> key(s[i]) >= key(s[j])
  }

  /** The elements of `s` whose key is `k`, in the order they appear in `s`. */
  function WithKey<T>(s: seq<T>, key: T -> int, k: int): seq<T> {
    if s == [] then [] else (if key(s[0]) == k then [s[0]] else []) + WithKey(s[1..], key, k)
  }

  /** Puts `x` in front of the first element whose key is not larger than its own. */
  function InsertNewestFirst<T>(x: T, s: seq<T>, key: T -> int): (r: seq<T>)
    ensures |r| == |s| + 1
    ensures multiset(r) == multiset(s) + multiset{x}
  {
    if s == [] || key(s[0]) <= key(x) then
      [x] + s
    else
      assert s == [s[0]] + s[1..];
      [s[0]] + InsertNewestFirst(x, s[1..], key)
  }

  lemma {:induction false} InsertKeepsNewestFirst<T>(x: T, s: seq<T>, key: T -> int)
    requires NewestFirst(s, key)
    ensures NewestFirst(InsertNewestFirst(x, s, key), key)
  {
    if s != [] && key(s[0]) > key(x) {
      var rest := InsertNewestFirst(x, s[1..], key);
      InsertKeepsNewestFirst(x, s[1..], key);
      assert s == [s[0]] + s[1..];
      forall y | y in rest ensures key(s[0]) >= key(y) {
        assert y in multiset(rest);
        assert y == x || y in multiset(s[1..]);
      }
      ConsKeepsNewestFirst(s[0], rest, key);
    }
  }

  /** Stable insertion sort, largest key first. */
  function SortNewestFirst<T>(s: seq<T>, key: T -> int): (r: seq<T>)
    ensures |r| == |s|
    ensures multiset(r) == multiset(s)
    ensures NewestFirst(r, key)
  {
    if s == [] then
      []
    else
      assert s == [s[0]] + s[1..];
      var rest := SortNewestFirst(s[1..], key);
      InsertKeepsNewestFirst(s[0], rest, key);
      InsertNewestFirst(s[0], rest, key)
  }

  lemma {:induction false} InsertKeepsKeyOrder<T>(x: T, s: seq<T>, key: T -> int, k: int)
    ensures WithKey(InsertNewestFirst(x, s, key), key, k)
         == (if key(x) == k then [x] else []) + WithKey(s, key, k)
  {
    if s == [] || key(s[0]) <= key(x) {
      var r := [x] + s;
      assert r[0] == x && r[1..] == s;
    } else {
      var rest := InsertNewestFirst(x, s[1..], key);
      var r := [s[0]] + rest;
      assert r[0] == s[0] && r[1..] == rest;
      InsertKeepsKeyOrder(x, s[1..], key, k);
    }
  }

  /** Stability: among elements with the same key, the sort keeps the input order. */
  lemma {:induction false} SortIsStable<T>(s: seq<T>, key: T -> int, k: int)
    ensures WithKey(SortNewestFirst(s, key), key, k) == WithKey(s, key, k)
  {
    if s != [] {
      SortIsStable(s[1..], key, k);
      InsertKeepsKeyOrder(s[0], SortNewestFirst(s[1..], key), key, k);
    }
  }

  /** Drops every element authored by `actor`, keeping the order of the rest. */
  function WithoutAuthor<T(!new), U(==)>(s: seq<T>, author: T -> U, actor: U): (r: seq<T>)
    ensures |r| <= |s|
    ensures forall x :: x in r <==> x in s && author(x) != actor
  {
    if s == [] then
      []
    else
      assert s == [s[0]] + s[1..];
      (if author(s[0]) == actor then [] else [s[0]]) + WithoutAuthor(s[1..], author, actor)
  }

  /** The filter distributes over concatenation, so relative order is preserved. */
  lemma {:induction false} WithoutAuthorAppend<T(!new), U>(a: seq<T>, b: seq<T>, author: T -> U, actor: U)
    ensures WithoutAuthor(a + b, author, actor) == WithoutAuthor(a, author, actor) + WithoutAuthor(b, author, actor)
  {
    if a == [] {
      assert a + b == b;
    } else {
      assert (a + b)[0] == a[0] && (a + b)[1..] == a[1..] + b;
      WithoutAuthorAppend(a[1..], b, author, actor);
    }
  }

  lemma ConsKeepsNewestFirst<T>(x: T, rest: seq<T>, key: T -> int)
    requires NewestFirst(rest, key)
    requires forall y :: y in rest ==> key(x) >= key(y)
    ensures NewestFirst([x] + rest, key)
  {
    var r := [x] + rest;
    forall i, j | 0 <= i < j < |r| ensures key(r[i]) >= key(r[j]) {
      assert r[j] == rest[j - 1];
      if i > 0 {
        assert r[i] == rest[i - 1];
      }
    }
  }

  /** Dropping elements from a list ordered newest first leaves it ordered newest first. */
  lemma {:induction false} WithoutAuthorKeepsNewestFirst<T(!new), U>(s: seq<T>, author: T -> U, actor: U, key: T -> int)
    requires NewestFirst(s, key)
    ensures NewestFirst(WithoutAuthor(s, author, actor), key)
  {
    if s != [] {
      var tail := s[1..];
      assert NewestFirst(tail, key) by {
        forall i, j | 0 <= i < j < |tail| ensures key(tail[i]) >= key(tail[j]) {
          assert tail[i] == s[i + 1] && tail[j] == s[j + 1];
        }
      }
      WithoutAuthorKeepsNewestFirst(tail, author, actor, key);
      if author(s[0]) != actor {
        var rest := WithoutAuthor(tail, author, actor);
        forall y | y in rest ensures key(s[0]) >= key(y) {
          var m :| 0 <= m < |tail| && tail[m] == y;
          assert s[m + 1] == y;
        }
        ConsKeepsNewestFirst(s[0], rest, key);
      }
    }
  }
}
