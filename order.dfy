/** `ORDER BY`: sorting a query result by a total preorder, and a
    code-point lexicographic order on text, standing in for the database's
    collation, which is not modelled. */
module Order {

  /** `le` compares every pair and is transitive: a sort key. */
  ghost predicate TotalPreorder<T(!new)>(le: (T, T) -> bool)
  {
    && (forall a, b :: le(a, b) || le(b, a))
    && (forall a, b, c :: le(a, b) && le(b, c) ==> le(a, c))
  }

  /** Every element is `le` every later element. */
  ghost predicate SortedBy<T>(s: seq<T>, le: (T, T) -> bool)
  {
    forall i, j :: 0 <= i < j < |s| ==> le(s[i], s[j])
  }

  /** A head that is `le` every element of a sorted tail gives a sorted sequence. */
  lemma ConsSorted<T>(h: T, tail: seq<T>, le: (T, T) -> bool)
    requires SortedBy(tail, le)
    requires forall y :: y in tail ==> le(h, y)
    ensures SortedBy([h] + tail, le)
  {
    var r := [h] + tail;
    forall i, j | 0 <= i < j < |r| ensures le(r[i], r[j]) {
      assert r[j] == tail[j - 1];
      if i > 0 {
        assert r[i] == tail[i - 1];
      }
    }
  }

  /** Insert `x` into a sorted sequence, ahead of the first element it is `le` to. */
  function InsertBy<T(!new)>(x: T, s: seq<T>, le: (T, T) -> bool): (r: seq<T>)
    requires TotalPreorder(le) && SortedBy(s, le)
    ensures SortedBy(r, le)
    ensures multiset(r) == multiset(s) + multiset{x}
  {
    if s == [] then [x]
    else
      assert s == [s[0]] + s[1..];
      if le(x, s[0]) then
        assert forall y :: y in s ==> le(x, y) by {
          forall y | y in s ensures le(x, y) {
            var j :| 0 <= j < |s| && s[j] == y;
            if j > 0 {
              assert le(s[0], s[j]);
            }
          }
        }
        ConsSorted(x, s, le);
        [x] + s
      else
        var rest := InsertBy(x, s[1..], le);
        assert forall y :: y in rest ==> le(s[0], y) by {
          forall y | y in rest ensures le(s[0], y) {
            assert multiset(rest)[y] > 0;
            if y != x {
              var j :| 0 <= j < |s[1..]| && s[1..][j] == y;
              assert s[j + 1] == y;
            }
          }
        }
        assert SortedBy(s[1..], le) by {
          forall i, j | 0 <= i < j < |s[1..]| ensures le(s[1..][i], s[1..][j]) {
            assert s[1..][i] == s[i + 1] && s[1..][j] == s[j + 1];
          }
        }
        ConsSorted(s[0], rest, le);
        [s[0]] + rest
  }

  /** `query.order_by(le)`: the same elements, sorted by `le`. */
  function SortBy<T(!new)>(s: seq<T>, le: (T, T) -> bool): (r: seq<T>)
    requires TotalPreorder(le)
    ensures SortedBy(r, le)
    ensures multiset(r) == multiset(s)
  {
    if s == [] then []
    else
      assert s == [s[0]] + s[1..];
      InsertBy(s[0], SortBy(s[1..], le), le)
  }

  /** The first `n` elements of a sorted sequence are `le` every element left
      behind: a `LIMIT` applied after an `ORDER BY` keeps the front of the order. */
  lemma SortedFrontFirst<T>(s: seq<T>, le: (T, T) -> bool, n: nat)
    requires SortedBy(s, le) && n <= |s|
    ensures forall x, y :: x in s[..n] && y in s[n..] ==> le(x, y)
  {
    forall x, y | x in s[..n] && y in s[n..] ensures le(x, y) {
      var i :| 0 <= i < n && s[..n][i] == x;
      var j :| 0 <= j < |s| - n && s[n..][j] == y;
      assert s[i] == x && s[n + j] == y;
    }
  }

  /** `ORDER BY le LIMIT n` over `s`: the kept rows come from `s`, are still
      sorted, and every row of `s` left out is `le`-after every kept row. */
  lemma {:induction false} SortedLimit<T>(s: seq<T>, all: seq<T>, le: (T, T) -> bool, n: nat)
    requires SortedBy(all, le) && multiset(all) == multiset(s) && n <= |all|
    ensures |all| == |s|
    ensures SortedBy(all[..n], le)
    ensures multiset(all[..n]) <= multiset(s)
    ensures forall x :: x in all[..n] ==> x in s
    ensures forall x, y :: x in all[..n] && y in s && y !in all[..n] ==> le(x, y)
  {
    assert |all| == |multiset(all)| == |multiset(s)| == |s|;
    SortedFrontFirst(all, le, n);
    assert all == all[..n] + all[n..];
    assert multiset(all) == multiset(all[..n]) + multiset(all[n..]);
    forall x | x in all[..n] ensures x in s {
      assert multiset(all)[x] > 0;
    }
    forall x, y | x in all[..n] && y in s && y !in all[..n] ensures le(x, y) {
      assert multiset(s)[y] > 0;
      assert y in all;
    }
  }

  /** Lexicographic order on text, by code point, a proper prefix first. */
  predicate StrLe(a: string, b: string)
  {
    if a == [] then true
    else if b == [] then false
    else if a[0] != b[0] then a[0] < b[0]
    else StrLe(a[1..], b[1..])
  }

  lemma {:induction false} StrLeTotal(a: string, b: string)
    ensures StrLe(a, b) || StrLe(b, a)
  {
    if a != [] && b != [] && a[0] == b[0] {
      StrLeTotal(a[1..], b[1..]);
    }
  }

  lemma {:induction false} StrLeTransitive(a: string, b: string, c: string)
    requires StrLe(a, b) && StrLe(b, c)
    ensures StrLe(a, c)
  {
    if a != [] && b != [] && c != [] && a[0] == b[0] && b[0] == c[0] {
      StrLeTransitive(a[1..], b[1..], c[1..]);
    }
  }

  lemma {:induction false} StrLeAntisymmetric(a: string, b: string)
    requires StrLe(a, b) && StrLe(b, a)
    ensures a == b
  {
    if a != [] && b != [] {
      StrLeAntisymmetric(a[1..], b[1..]);
      assert a == [a[0]] + a[1..] && b == [b[0]] + b[1..];
    }
  }
}
