/** The shape of the `WHERE … ORDER BY <key> DESC LIMIT n` queries: keep the
    rows a predicate accepts, order them by a key, newest first, and keep the
    first `n`. */
module Listas {

  function Filter<T(!new)>(s: seq<T>, p: T -> bool): (r: seq<T>)
    ensures |r| <= |s|
    ensures forall i :: 0 <= i < |r| ==> p(r[i]) && r[i] in s
  {
    if s == [] then []
    else (if p(s[0]) then [s[0]] else []) + Filter(s[1..], p)
  }

  /** The filter keeps every occurrence of an accepted element and nothing else. */
  lemma {:induction false} FilterMultiset<T(!new)>(s: seq<T>, p: T -> bool)
    ensures forall x :: multiset(Filter(s, p))[x] == if p(x) then multiset(s)[x] else 0
  {
    if s != [] {
      assert s == [s[0]] + s[1..];
      FilterMultiset(s[1..], p);
    }
  }

  /** Filtering distributes over concatenation. */
  lemma {:induction false} FilterConcat<T(!new)>(a: seq<T>, b: seq<T>, p: T -> bool)
    ensures Filter(a + b, p) == Filter(a, p) + Filter(b, p)
  {
    if a == [] {
      assert a + b == b;
    } else {
      var h := if p(a[0]) then [a[0]] else [];
      assert (a + b)[0] == a[0];
      assert (a + b)[1..] == a[1..] + b;
      assert Filter(a + b, p) == h + Filter(a[1..] + b, p);
      assert Filter(a, p) == h + Filter(a[1..], p);
      FilterConcat(a[1..], b, p);
    }
  }

  ghost predicate SortedDesc<T>(s: seq<T>, key: T -> int)
  {
    forall i, j :: 0 <= i < j < |s| ==> key(s[i]) >= key(s[j])
  }

  /** Inserts `x` before the first element whose key is smaller than its own. */
  function InsertDesc<T>(x: T, s: seq<T>, key: T -> int): (r: seq<T>)
    requires SortedDesc(s, key)
    ensures |r| == |s| + 1
    ensures multiset(r) == multiset(s) + multiset{x}
    ensures SortedDesc(r, key)
  {
    if s == [] || key(x) >= key(s[0]) then
      CabezaOrdenada(x, s, key);
      [x] + s
    else
      var t := InsertDesc(x, s[1..], key);
      assert s == [s[0]] + s[1..];
      forall k | 0 <= k < |t| ensures key(s[0]) >= key(t[k]) {
        assert t[k] in multiset(s[1..]) + multiset{x};
        if t[k] != x {
          assert t[k] in s[1..];
        }
      }
      CabezaOrdenada(s[0], t, key);
      [s[0]] + t
  }

  /** A head with a key at least every key of a descending tail keeps it descending. */
  lemma CabezaOrdenada<T>(h: T, t: seq<T>, key: T -> int)
    requires SortedDesc(t, key)
    requires t == [] || key(h) >= key(t[0])
    ensures SortedDesc([h] + t, key)
  {
    forall i, j | 0 <= i < j < |[h] + t| ensures key(([h] + t)[i]) >= key(([h] + t)[j]) {
      if i > 0 {
        assert ([h] + t)[i] == t[i - 1];
      } else if j > 1 {
        assert ([h] + t)[j] == t[j - 1];
      }
    }
  }

  /** A stable sort by descending key: among equal keys the earlier element stays first. */
  function SortDesc<T>(s: seq<T>, key: T -> int): (r: seq<T>)
    ensures |r| == |s|
    ensures multiset(r) == multiset(s)
    ensures SortedDesc(r, key)
  {
    if s == [] then []
    else
      assert s == [s[0]] + s[1..];
      InsertDesc(s[0], SortDesc(s[1..], key), key)
  }

  /** Cutting a descending arrangement of `s` after `k` elements leaves
      behind nothing with a larger key than what was kept. */
  lemma {:induction false} PrefixDominates<T(!new)>(s: seq<T>, sorted: seq<T>, key: T -> int, k: nat)
    requires multiset(sorted) == multiset(s)
    requires SortedDesc(sorted, key) && k <= |sorted|
    ensures forall x, y :: x in s && multiset(sorted[..k])[x] < multiset(s)[x] && y in sorted[..k] ==> key(x) <= key(y)
  {
    var r := sorted[..k];
    assert sorted == r + sorted[k..];
    assert multiset(sorted) == multiset(r) + multiset(sorted[k..]);
    forall x, y | x in s && multiset(r)[x] < multiset(s)[x] && y in r
      ensures key(x) <= key(y)
    {
      assert x in multiset(sorted[k..]);
      var j :| k <= j < |sorted| && sorted[j] == x;
      var i :| 0 <= i < k && r[i] == y;
      assert sorted[i] == y;
    }
  }

  /** The first `n` of `s` by descending key: exactly min(n, |s|) of its
      elements, in order, and no element left out has a larger key than one
      that was kept. */
  function TopDesc<T(!new)>(s: seq<T>, key: T -> int, n: nat): (r: seq<T>)
    ensures |r| == if n < |s| then n else |s|
    ensures SortedDesc(r, key)
    ensures multiset(r) <= multiset(s)
    ensures forall x, y :: x in s && multiset(r)[x] < multiset(s)[x] && y in r ==> key(x) <= key(y)
  {
    var sorted := SortDesc(s, key);
    var k := if n < |s| then n else |s|;
    PrefixDominates(s, sorted, key, k);
    PrefixSorted(sorted, key, k);
    sorted[..k]
  }

  lemma PrefixSorted<T>(s: seq<T>, key: T -> int, k: nat)
    requires SortedDesc(s, key) && k <= |s|
    ensures SortedDesc(s[..k], key)
    ensures multiset(s[..k]) <= multiset(s)
  {
    assert s == s[..k] + s[k..];
    assert multiset(s) == multiset(s[..k]) + multiset(s[k..]);
  }

  /** `WHERE p ORDER BY key DESC LIMIT n`: min(n, #matching) matching
      elements of `s`, by descending key (what is left out is described by
      `SelectDescOmitidos`). */
  function SelectDesc<T(!new)>(s: seq<T>, p: T -> bool, key: T -> int, n: nat): (r: seq<T>)
    ensures var m := |Filter(s, p)|; |r| == if n < m then n else m
    ensures forall i :: 0 <= i < |r| ==> r[i] in s && p(r[i])
    ensures SortedDesc(r, key)
    ensures multiset(r) <= multiset(s)
  {
    var c := Filter(s, p);
    var r := TopDesc(c, key, n);
    SelectDescProps(s, p, key, n, c, r);
    r
  }

  lemma SelectDescProps<T(!new)>(s: seq<T>, p: T -> bool, key: T -> int, n: nat, c: seq<T>, r: seq<T>)
    requires c == Filter(s, p) && r == TopDesc(c, key, n)
    ensures forall i :: 0 <= i < |r| ==> r[i] in s && p(r[i])
    ensures multiset(r) <= multiset(s)
  {
    FilterMultiset(s, p);
    forall i | 0 <= i < |r| ensures r[i] in s && p(r[i]) {
      assert r[i] in multiset(c);
      assert r[i] in c;
    }
    forall x ensures multiset(r)[x] <= multiset(s)[x] {
      assert multiset(r)[x] <= multiset(c)[x];
    }
  }

  /** A matching element is left out (or kept fewer times than it occurs)
      only when every returned element has at least its key. */
  lemma SelectDescOmitidos<T(!new)>(s: seq<T>, p: T -> bool, key: T -> int, n: nat)
    ensures var r := SelectDesc(s, p, key, n);
            forall x, y :: (x in s && p(x) && multiset(r)[x] < multiset(s)[x] && y in r) ==> key(x) <= key(y)
  {
    var c := Filter(s, p);
    var r := TopDesc(c, key, n);
    assert r == SelectDesc(s, p, key, n);
    FilterMultiset(s, p);
    forall x, y | x in s && p(x) && multiset(r)[x] < multiset(s)[x] && y in r
      ensures key(x) <= key(y)
    {
      assert multiset(c)[x] == multiset(s)[x];
      assert x in multiset(c);
      assert x in c;
    }
  }
}
