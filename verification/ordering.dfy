/** Row ordering for the listing queries: `ORDER BY <key> DESC` followed by
    `LIMIT n`, over an integer sort key. Rows with equal keys come back in an
    order the database does not fix; the model keeps them in table order. */
module Ordering {

  ghost predicate SortedDesc<T>(s: seq<T>, key: T -> int) {
    forall i, j :: 0 <= i < j < |s| ==> key(s[i]) >= key(s[j])
  }

  /** Inserts `x` into a descending sequence, before the first smaller key. */
  function InsertDesc<T(==)>(x: T, s: seq<T>, key: T -> int): (r: seq<T>)
    requires SortedDesc(s, key)
    ensures SortedDesc(r, key)
    ensures multiset(r) == multiset(s) + multiset{x}
    ensures |r| == |s| + 1
  {
    if |s| == 0 || key(x) >= key(s[0]) then
      [x] + s
    else
      var tail := InsertDesc(x, s[1..], key);
      assert s == [s[0]] + s[1..];
      assert forall k :: 0 <= k < |tail| ==> key(tail[k]) <= key(s[0]) by {
        forall k | 0 <= k < |tail|
          ensures key(tail[k]) <= key(s[0])
        {
          assert tail[k] in multiset(tail);
          if tail[k] != x {
            assert tail[k] in multiset(s[1..]);
            var m :| 0 <= m < |s[1..]| && s[1..][m] == tail[k];
            assert s[m + 1] == tail[k];
          }
        }
      }
      [s[0]] + tail
  }

  /** The rows in descending key order: a sorted permutation of the input. */
  function SortDesc<T(==)>(s: seq<T>, key: T -> int): (r: seq<T>)
    ensures SortedDesc(r, key)
    ensures multiset(r) == multiset(s)
    ensures |r| == |s|
  {
    if |s| == 0 then []
    else
      assert s == [s[0]] + s[1..];
      InsertDesc(s[0], SortDesc(s[1..], key), key)
  }

  /** No row of `s` left out of `r` has a key above the last key of `r`. */
  ghost predicate NoneLeftAbove<T>(s: seq<T>, r: seq<T>, key: T -> int) {
    |r| > 0 ==> forall x :: x in multiset(s) - multiset(r) ==> key(x) <= key(r[|r| - 1])
  }

  /** `ORDER BY key DESC LIMIT limit`: the `limit` rows with the greatest keys,
      greatest first. Every row left out has a key no greater than the last row
      returned. */
  function TopDesc<T(==)>(s: seq<T>, key: T -> int, limit: nat): (r: seq<T>)
    ensures |r| == if limit < |s| then limit else |s|
    ensures SortedDesc(r, key)
    ensures multiset(r) <= multiset(s)
    ensures NoneLeftAbove(s, r, key)
  {
    var sorted := SortDesc(s, key);
    var n := if limit < |s| then limit else |s|;
    PrefixOfSorted(s, sorted, key, n);
    sorted[..n]
  }

  lemma PrefixOfSorted<T>(s: seq<T>, sorted: seq<T>, key: T -> int, n: nat)
    requires SortedDesc(sorted, key) && multiset(sorted) == multiset(s) && n <= |sorted|
    ensures SortedDesc(sorted[..n], key)
    ensures multiset(sorted[..n]) <= multiset(s)
    ensures NoneLeftAbove(s, sorted[..n], key)
  {
    var r := sorted[..n];
    SplitMultiset(sorted, n);
    assert multiset(s) - multiset(r) == multiset(sorted[n..]);
    if n > 0 {
      forall x | x in multiset(s) - multiset(r)
        ensures key(x) <= key(r[n - 1])
      {
        SuffixBelow(sorted, key, n, x);
      }
    }
  }

  lemma SplitMultiset<T>(s: seq<T>, n: nat)
    requires n <= |s|
    ensures multiset(s) == multiset(s[..n]) + multiset(s[n..])
  {
    assert s == s[..n] + s[n..];
  }

  /** In a descending sequence, every row after position `n - 1` has a key no
      greater than the row at `n - 1`. */
  lemma SuffixBelow<T>(sorted: seq<T>, key: T -> int, n: nat, x: T)
    requires SortedDesc(sorted, key) && 0 < n <= |sorted| && x in multiset(sorted[n..])
    ensures key(x) <= key(sorted[n - 1])
  {
    var m :| 0 <= m < |sorted[n..]| && sorted[n..][m] == x;
    assert sorted[n + m] == x;
  }
}
