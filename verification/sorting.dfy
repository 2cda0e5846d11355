/** Sorting by an integer key, used wherever the renderer calls `std::sort`.

    `std::sort` is not stable, so callers only rely on the two promises made
    here: the result is a permutation of the input and it is non-decreasing by
    the key. The concrete order chosen among equal keys (that of an insertion
    sort) is not part of any contract. */
module Sorting {

  /** `s` is non-decreasing by `key`. */
  ghost predicate SortedBy<T>(s: seq<T>, key: T -> int) {
    forall i, j :: 0 <= i < j < |s| ==> key(s[i]) <= key(s[j])
  }

  /** Inserts `x` before the first element whose key is larger than its own. */
  function Insert<T>(x: T, s: seq<T>, key: T -> int): (r: seq<T>)
    requires SortedBy(s, key)
    ensures |r| == |s| + 1
    ensures multiset(r) == multiset(s) + multiset{x}
    ensures SortedBy(r, key)
  {
    if |s| == 0 then [x]
    else if key(x) <= key(s[0]) then [x] + s
    else
      var rest := Insert(x, s[1..], key);
      HeadBeforeSorted(s, x, rest, key);
      assert s == [s[0]] + s[1..];
      [s[0]] + rest
  }

  /** Putting the head of a sorted `s` before a sorted arrangement of its
      tail and an `x` with a larger key keeps the order. */
  lemma HeadBeforeSorted<T>(s: seq<T>, x: T, rest: seq<T>, key: T -> int)
    requires |s| > 0 && SortedBy(s, key) && key(s[0]) < key(x)
    requires multiset(rest) == multiset(s[1..]) + multiset{x}
    requires SortedBy(rest, key)
    ensures SortedBy([s[0]] + rest, key)
  {
    forall k | 0 <= k < |rest|
      ensures key(s[0]) <= key(rest[k])
    {
      assert rest[k] in multiset(rest);
      if rest[k] != x {
        assert rest[k] in multiset(s[1..]);
        var j :| 0 <= j < |s[1..]| && s[1..][j] == rest[k];
        assert s[j + 1] == rest[k];
      }
    }
  }

  /** Sorts `s` by `key`. */
  function SortBy<T>(s: seq<T>, key: T -> int): (r: seq<T>)
    ensures |r| == |s|
    ensures multiset(r) == multiset(s)
    ensures SortedBy(r, key)
  {
    if |s| == 0 then []
    else
      assert s == [s[0]] + s[1..];
      Insert(s[0], SortBy(s[1..], key), key)
  }

  /** `s` is non-decreasing. */
  ghost predicate Ascending(s: seq<int>) {
    forall i, j :: 0 <= i < j < |s| ==> s[i] <= s[j]
  }

  /** Sorting integers by their own value yields an ascending sequence. */
  function SortInts(s: seq<int>): (r: seq<int>)
    ensures |r| == |s|
    ensures multiset(r) == multiset(s)
    ensures Ascending(r)
  {
    var r := SortBy(s, (x: int) => x);
    assert forall i, j :: 0 <= i < j < |r| ==> r[i] <= r[j] by {
      forall i, j | 0 <= i < j < |r|
        ensures r[i] <= r[j]
      {
        assert ((x: int) => x)(r[i]) <= ((x: int) => x)(r[j]);
      }
    }
    r
  }

  /** The least element of an ascending sequence is its head. */
  lemma AscendingHeadsEqual(s: seq<int>, t: seq<int>)
    requires Ascending(s) && Ascending(t)
    requires multiset(s) == multiset(t)
    requires |s| > 0 && |t| > 0
    ensures s[0] == t[0]
  {
    assert s[0] in multiset(t);
    assert t[0] in multiset(s);
    var i :| 0 <= i < |t| && t[i] == s[0];
    var j :| 0 <= j < |s| && s[j] == t[0];
    assert s[0] <= s[j] && t[0] <= t[i];
  }

  /** Two ascending sequences with the same elements are the same sequence:
      sorting a list of integers is canonical. */
  lemma {:induction false} AscendingUnique(s: seq<int>, t: seq<int>)
    requires Ascending(s) && Ascending(t)
    requires multiset(s) == multiset(t)
    ensures s == t
    decreases |s|
  {
    assert |t| == |multiset(t)| == |multiset(s)| == |s|;
    if |s| > 0 {
      AscendingHeadsEqual(s, t);
      var s', t' := s[1..], t[1..];
      assert s == [s[0]] + s';
      assert t == [t[0]] + t';
      assert multiset(s') == multiset(t') by {
        assert multiset(s) == multiset{s[0]} + multiset(s');
        assert multiset(t) == multiset{t[0]} + multiset(t');
        assert multiset(s') == multiset(s) - multiset{s[0]};
        assert multiset(t') == multiset(t) - multiset{t[0]};
      }
      assert Ascending(s') && Ascending(t');
      AscendingUnique(s', t');
    }
  }
}
