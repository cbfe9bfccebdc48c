/**
 * The orderings the feed uses for posts and comments. Both are
 * "higher first" comparisons on a pair of integers: the score decides, and
 * a second integer breaks ties (a post's timestamp, or a comment's timestamp
 * negated so that older comments come first).
 *
 * `Array.prototype.sort` is modelled by an insertion sort that returns a
 * permutation of its input ordered by that comparison.
 */
module Ranking {

  datatype Rank = Rank(primary: int, secondary: int)

  /** `x` may come before `y`: the comparator `(a, b) => b - a` on the pair does not put `y` first. */
  predicate Before(x: Rank, y: Rank) {
    x.primary > y.primary || (x.primary == y.primary && x.secondary >= y.secondary)
  }

  /** Any two ranks are ordered one way or the other. */
  lemma BeforeTotal(x: Rank, y: Rank)
    ensures Before(x, y) || Before(y, x)
    ensures Before(x, y) && Before(y, x) <==> x == y
  {
  }

  lemma BeforeTransitive(x: Rank, y: Rank, z: Rank)
    requires Before(x, y) && Before(y, z)
    ensures Before(x, z)
  {
  }

  predicate Ordered<T>(s: seq<T>, rank: T -> Rank) {
    forall i, j :: 0 <= i < j < |s| ==> Before(rank(s[i]), rank(s[j]))
  }

  /** Places `x` in front of the first element it may precede. */
  function Insert<T>(x: T, s: seq<T>, rank: T -> Rank): (r: seq<T>)
    ensures multiset(r) == multiset(s) + multiset{x}
    ensures Ordered(s, rank) ==> Ordered(r, rank)
  {
    if |s| == 0 then [x]
    else if Before(rank(x), rank(s[0])) then
      PrependOrdered(x, s, rank);
      [x] + s
    else
      var tail := Insert(x, s[1..], rank);
      assert s == [s[0]] + s[1..];
      ConsOrdered(x, s, tail, rank);
      [s[0]] + tail
  }

  /** An element that may precede the head of an ordered list may precede all of it. */
  lemma PrependOrdered<T>(x: T, s: seq<T>, rank: T -> Rank)
    requires |s| > 0 && Before(rank(x), rank(s[0]))
    ensures Ordered(s, rank) ==> Ordered([x] + s, rank)
  {
    if Ordered(s, rank) {
      var r := [x] + s;
      forall j | 1 <= j < |r|
        ensures Before(rank(x), rank(r[j]))
      {
        assert r[j] == s[j - 1];
        BeforeTransitive(rank(x), rank(s[0]), rank(s[j - 1]));
      }
    }
  }

  /** The head stays in front when `x` goes into the ordered rest behind it. */
  lemma ConsOrdered<T>(x: T, s: seq<T>, tail: seq<T>, rank: T -> Rank)
    requires |s| > 0 && !Before(rank(x), rank(s[0]))
    requires multiset(tail) == multiset(s[1..]) + multiset{x}
    requires Ordered(s[1..], rank) ==> Ordered(tail, rank)
    ensures Ordered(s, rank) ==> Ordered([s[0]] + tail, rank)
  {
    if Ordered(s, rank) {
      var r := [s[0]] + tail;
      assert Ordered(s[1..], rank);
      forall j | 1 <= j < |r|
        ensures Before(rank(s[0]), rank(r[j]))
      {
        var y := r[j];
        assert y == tail[j - 1];
        assert y in multiset(tail);
        if y == x {
          BeforeTotal(rank(x), rank(s[0]));
        } else {
          assert y in multiset(s[1..]);
          var k :| 0 <= k < |s[1..]| && s[1..][k] == y;
          assert s[k + 1] == y;
        }
      }
    }
  }

  /** The result of sorting with the comparator: a permutation of `s`, highest rank first. */
  function Sort<T>(s: seq<T>, rank: T -> Rank): (r: seq<T>)
    ensures multiset(r) == multiset(s)
    ensures |r| == |s|
    ensures Ordered(r, rank)
  {
    if |s| == 0 then []
    else
      assert s == [s[0]] + s[1..];
      Insert(s[0], Sort(s[1..], rank), rank)
  }
}
