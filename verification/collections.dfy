/** Sequence operations behind the pandas idioms the pipeline uses:
    `unique()` (first-appearance order), `sorted(unique())`, `groupby`
    (row indices of one key), a stable sort by a real key (Python's
    `list.sort(reverse=True)`), and lexicographic string order. */
module Collections {

  predicate Distinct<T(==)>(s: seq<T>)
  {
    forall i, j :: 0 <= i < j < |s| ==> s[i] != s[j]
  }

  /** Number of occurrences of `v` in `s`. */
  function Count<T(==)>(s: seq<T>, v: T): nat
  {
    if |s| == 0 then 0 else (if s[0] == v then 1 else 0) + Count(s[1..], v)
  }

  lemma {:induction false} CountPositive<T>(s: seq<T>, v: T)
    requires v in s
    ensures Count(s, v) > 0
  {
    if s[0] != v {
      assert v in s[1..];
      CountPositive(s[1..], v);
    }
  }

  lemma {:induction false} CountZero<T>(s: seq<T>, v: T)
    requires v !in s
    ensures Count(s, v) == 0
  {
    if |s| > 0 {
      assert v !in s[1..];
      CountZero(s[1..], v);
    }
  }

  /** In a sequence without duplicates every member occurs exactly once. */
  lemma {:induction false} DistinctCountOne<T>(s: seq<T>, v: T)
    requires Distinct(s) && v in s
    ensures Count(s, v) == 1
  {
    if s[0] == v {
      assert v !in s[1..] by {
        forall i | 0 <= i < |s[1..]| ensures s[1..][i] != v {
          assert s[1..][i] == s[i + 1];
        }
      }
      CountZero(s[1..], v);
    } else {
      assert v in s[1..];
      DistinctCountOne(s[1..], v);
    }
  }

  /** Ascending indices of the rows of `s[lo..]` equal to `v`: one `groupby` group. */
  function IndicesFrom<T(==)>(s: seq<T>, v: T, lo: nat): (r: seq<nat>)
    requires lo <= |s|
    ensures forall k :: 0 <= k < |r| ==> lo <= r[k] < |s| && s[r[k]] == v
    ensures forall i :: lo <= i < |s| && s[i] == v ==> i in r
    ensures forall a, b :: 0 <= a < b < |r| ==> r[a] < r[b]
    ensures |r| == Count(s[lo..], v)
    decreases |s| - lo
  {
    if lo == |s| then []
    else
      assert s[lo..][1..] == s[lo + 1..];
      (if s[lo] == v then [lo] else []) + IndicesFrom(s, v, lo + 1)
  }

  function IndicesOf<T(==)>(s: seq<T>, v: T): (r: seq<nat>)
    ensures forall k :: 0 <= k < |r| ==> r[k] < |s| && s[r[k]] == v
    ensures forall i :: 0 <= i < |s| && s[i] == v ==> i in r
    ensures forall a, b :: 0 <= a < b < |r| ==> r[a] < r[b]
    ensures |r| == Count(s, v)
  {
    assert s[0..] == s;
    IndicesFrom(s, v, 0)
  }

  /** The cells of `s` at the given rows, in the given order. */
  function Gather<T>(s: seq<T>, idx: seq<nat>): (r: seq<T>)
    requires forall k :: 0 <= k < |idx| ==> idx[k] < |s|
    ensures |r| == |idx|
    ensures forall k :: 0 <= k < |idx| ==> r[k] == s[idx[k]]
  {
    seq(|idx|, k requires 0 <= k < |idx| => s[idx[k]])
  }

  /** Sum over `keys` of the group sizes of `s`. */
  function SumCounts<T(==)>(s: seq<T>, keys: seq<T>): nat
  {
    if |keys| == 0 then 0 else Count(s, keys[0]) + SumCounts(s, keys[1..])
  }

  lemma {:induction false} SumCountsCons<T>(s: seq<T>, keys: seq<T>)
    requires |s| > 0
    ensures SumCounts(s, keys) == Count(keys, s[0]) + SumCounts(s[1..], keys)
  {
    if |keys| > 0 {
      SumCountsCons(s, keys[1..]);
    }
  }

  /** Grouping by a complete list of distinct keys partitions the rows:
      the group sizes add up to the row count. */
  lemma {:induction false} GroupsPartition<T>(s: seq<T>, keys: seq<T>)
    requires Distinct(keys)
    requires forall i :: 0 <= i < |s| ==> s[i] in keys
    ensures SumCounts(s, keys) == |s|
  {
    if |s| == 0 {
      if |keys| > 0 {
        assert keys[1..] == keys[1..];
        ZeroCounts(keys);
      }
    } else {
      SumCountsCons(s, keys);
      DistinctCountOne(keys, s[0]);
      assert forall i :: 0 <= i < |s[1..]| ==> s[1..][i] == s[i + 1];
      GroupsPartition(s[1..], keys);
    }
  }

  lemma {:induction false} ZeroCounts<T>(keys: seq<T>)
    ensures SumCounts([], keys) == 0
  {
    if |keys| > 0 {
      ZeroCounts(keys[1..]);
    }
  }

  /** The elements of `p` that occur in `keys`, in the order of `p`. */
  function Keep<T(!new,==)>(p: seq<T>, keys: seq<T>): (q: seq<T>)
    ensures forall x :: x in q <==> x in p && x in keys
  {
    if |p| == 0 then []
    else (if p[0] in keys then [p[0]] else []) + Keep(p[1..], keys)
  }

  /** Keeping elements preserves any pairwise order. */
  lemma {:induction false} KeepOrdered<T(!new)>(p: seq<T>, keys: seq<T>, before: (T, T) -> bool)
    requires forall a, b :: 0 <= a < b < |p| ==> before(p[a], p[b])
    ensures forall a, b :: 0 <= a < b < |Keep(p, keys)| ==> before(Keep(p, keys)[a], Keep(p, keys)[b])
  {
    if |p| > 0 {
      assert forall a, b :: 0 <= a < b < |p[1..]| ==> p[1..][a] == p[a + 1] && p[1..][b] == p[b + 1];
      KeepOrdered(p[1..], keys, before);
      var rest := Keep(p[1..], keys);
      assert forall a, b :: 0 <= a < b < |rest| ==> before(rest[a], rest[b]);
      var head := if p[0] in keys then [p[0]] else [];
      var q := head + rest;
      assert Keep(p, keys) == q;
      forall a, b | 0 <= a < b < |q| ensures before(q[a], q[b]) {
        assert q[b] == rest[b - |head|];
        assert q[b] in rest;
        if a < |head| {
          assert q[a] == p[0];
          var i :| 0 <= i < |p[1..]| && p[1..][i] == q[b];
          assert p[i + 1] == q[b];
          assert before(p[0], p[i + 1]);
        } else {
          assert q[a] == rest[a - |head|];
          assert before(rest[a - |head|], rest[b - |head|]);
        }
      }
    }
  }

  // ---------------------------------------------------------------------------
  // Sorted distinct keys (`sorted(s.unique())`, `groupby` index order)

  ghost predicate StrictTotalOrder<T(!new)>(less: (T, T) -> bool)
  {
    && (forall x :: !less(x, x))
    && (forall x, y, z :: less(x, y) && less(y, z) ==> less(x, z))
    && (forall x, y :: x != y ==> less(x, y) || less(y, x))
  }

  predicate StrictlySorted<T>(s: seq<T>, less: (T, T) -> bool)
  {
    forall i, j :: 0 <= i < j < |s| ==> less(s[i], s[j])
  }

  lemma StrictlySortedDistinct<T(!new)>(s: seq<T>, less: (T, T) -> bool)
    requires StrictTotalOrder(less) && StrictlySorted(s, less)
    ensures Distinct(s)
  {
  }

  function InsertUnique<T(!new,==)>(x: T, t: seq<T>, less: (T, T) -> bool): (r: seq<T>)
    requires StrictTotalOrder(less) && StrictlySorted(t, less)
    ensures StrictlySorted(r, less)
    ensures forall y :: y in r <==> y == x || y in t
  {
    if |t| == 0 || less(x, t[0]) then [x] + t
    else if x == t[0] then t
    else
      var rest := InsertUnique(x, t[1..], less);
      assert forall y :: y in rest ==> less(t[0], y);
      [t[0]] + rest
  }

  /** The distinct elements of `s` in ascending order. */
  function SortedDistinct<T(!new,==)>(s: seq<T>, less: (T, T) -> bool): (r: seq<T>)
    requires StrictTotalOrder(less)
    ensures StrictlySorted(r, less)
    ensures forall y :: y in r <==> y in s
  {
    if |s| == 0 then [] else InsertUnique(s[0], SortedDistinct(s[1..], less), less)
  }

  predicate IntLess(a: int, b: int)
  {
    a < b
  }

  lemma IntLessIsStrictTotalOrder()
    ensures StrictTotalOrder(IntLess)
  {
  }

  /** Python string comparison: lexicographic by code point, a proper prefix first. */
  predicate StrLess(a: string, b: string)
  {
    if |a| == 0 then |b| > 0
    else if |b| == 0 then false
    else if a[0] != b[0] then a[0] < b[0]
    else StrLess(a[1..], b[1..])
  }

  lemma {:induction false} StrLessIrreflexive(a: string)
    ensures !StrLess(a, a)
  {
    if |a| > 0 {
      StrLessIrreflexive(a[1..]);
    }
  }

  lemma {:induction false} StrLessTransitive(a: string, b: string, c: string)
    requires StrLess(a, b) && StrLess(b, c)
    ensures StrLess(a, c)
  {
    if |a| > 0 && |b| > 0 && |c| > 0 && a[0] == b[0] && b[0] == c[0] {
      StrLessTransitive(a[1..], b[1..], c[1..]);
    }
  }

  lemma {:induction false} StrLessTotal(a: string, b: string)
    requires a != b
    ensures StrLess(a, b) || StrLess(b, a)
  {
    if |a| > 0 && |b| > 0 && a[0] == b[0] {
      assert a == [a[0]] + a[1..] && b == [b[0]] + b[1..];
      StrLessTotal(a[1..], b[1..]);
    }
  }

  lemma StrLessIsStrictTotalOrder()
    ensures StrictTotalOrder(StrLess)
  {
    forall x: string ensures !StrLess(x, x) {
      StrLessIrreflexive(x);
    }
    forall x: string, y: string, z: string | StrLess(x, y) && StrLess(y, z)
      ensures StrLess(x, z)
    {
      StrLessTransitive(x, y, z);
    }
    forall x: string, y: string | x != y ensures StrLess(x, y) || StrLess(y, x) {
      StrLessTotal(x, y);
    }
  }

  // ---------------------------------------------------------------------------
  // Distinct values in first-appearance order (pandas `unique()`)

  /** Position of the first occurrence of `v`. */
  function FirstIndex<T(==)>(s: seq<T>, v: T): (k: nat)
    requires v in s
    ensures k < |s| && s[k] == v
    ensures forall i :: 0 <= i < k ==> s[i] != v
  {
    if s[0] == v then 0
    else
      assert v in s[1..];
      1 + FirstIndex(s[1..], v)
  }

  /** Position of the last occurrence of `v`. */
  function LastIndex<T(==)>(s: seq<T>, v: T): (k: nat)
    requires v in s
    ensures k < |s| && s[k] == v
    ensures forall i :: k < i < |s| ==> s[i] != v
  {
    if s[|s| - 1] == v then |s| - 1
    else
      assert v in s[..|s| - 1];
      LastIndex(s[..|s| - 1], v)
  }

  /** A group's first and last rows are its first and last occurrences. */
  lemma GroupEnds<T>(s: seq<T>, v: T)
    requires v in s
    ensures |IndicesOf(s, v)| > 0
    ensures IndicesOf(s, v)[0] == FirstIndex(s, v)
    ensures IndicesOf(s, v)[|IndicesOf(s, v)| - 1] == LastIndex(s, v)
  {
    var r := IndicesOf(s, v);
    var a := FirstIndex(s, v);
    var b := LastIndex(s, v);
    assert a in r && b in r;
    assert r[0] == a;
    assert r[|r| - 1] == b;
  }

  lemma FirstIndexPrefix<T(!new)>(s: seq<T>, n: nat, v: T)
    requires n <= |s| && v in s[..n]
    ensures FirstIndex(s, v) == FirstIndex(s[..n], v)
  {
  }

  function Unique<T(!new,==)>(s: seq<T>): (r: seq<T>)
    ensures Distinct(r)
    ensures forall y :: y in r <==> y in s
    ensures forall i, j :: 0 <= i < j < |r| ==> FirstIndex(s, r[i]) < FirstIndex(s, r[j])
  {
    if |s| == 0 then []
    else
      var init := s[..|s| - 1];
      var r := Unique(init);
      assert s == init + [s[|s| - 1]];
      forall i | 0 <= i < |r| ensures FirstIndex(s, r[i]) == FirstIndex(init, r[i]) {
        FirstIndexPrefix(s, |s| - 1, r[i]);
      }
      if s[|s| - 1] in r then r
      else
        var x := s[|s| - 1];
        assert FirstIndex(s, x) == |s| - 1;
        r + [x]
  }

  // ---------------------------------------------------------------------------
  // Stable descending sort by a real key (`list.sort(key=..., reverse=True)`)

  predicate SortedDesc<T>(s: seq<T>, key: T -> real)
  {
    forall i, j :: 0 <= i < j < |s| ==> key(s[i]) >= key(s[j])
  }

  /** The elements of `s` whose key is `k`, in order: the tie classes. */
  function KeyFilter<T>(s: seq<T>, key: T -> real, k: real): seq<T>
  {
    if |s| == 0 then []
    else (if key(s[0]) == k then [s[0]] else []) + KeyFilter(s[1..], key, k)
  }

  /** Inserts `x` before the first element whose key is not larger. */
  function InsertDesc<T(==)>(x: T, t: seq<T>, key: T -> real): (r: seq<T>)
    ensures |r| == |t| + 1
    ensures multiset(r) == multiset(t) + multiset{x}
  {
    if |t| == 0 || key(t[0]) <= key(x) then [x] + t
    else
      assert t == [t[0]] + t[1..];
      [t[0]] + InsertDesc(x, t[1..], key)
  }

  lemma {:induction false} InsertDescSorted<T>(x: T, t: seq<T>, key: T -> real)
    requires SortedDesc(t, key)
    ensures SortedDesc(InsertDesc(x, t, key), key)
  {
    if |t| > 0 && key(t[0]) > key(x) {
      var rest := InsertDesc(x, t[1..], key);
      InsertDescSorted(x, t[1..], key);
      forall y | y in rest ensures key(y) <= key(t[0]) {
        assert y in multiset(rest);
        assert y == x || y in t[1..];
      }
    }
  }

  /** Insertion keeps every tie class in order, with `x` at the front of its own. */
  lemma {:induction false} InsertDescFilter<T>(x: T, t: seq<T>, key: T -> real, k: real)
    ensures KeyFilter(InsertDesc(x, t, key), key, k)
            == (if key(x) == k then [x] else []) + KeyFilter(t, key, k)
  {
    if |t| == 0 || key(t[0]) <= key(x) {
      assert ([x] + t)[1..] == t;
    } else {
      var rest := InsertDesc(x, t[1..], key);
      assert ([t[0]] + rest)[1..] == rest;
      InsertDescFilter(x, t[1..], key, k);
    }
  }

  /** Stable sort, largest key first. */
  function SortDesc<T(==)>(s: seq<T>, key: T -> real): (r: seq<T>)
    ensures |r| == |s|
    ensures multiset(r) == multiset(s)
    ensures SortedDesc(r, key)
    ensures forall k :: KeyFilter(r, key, k) == KeyFilter(s, key, k)
  {
    if |s| == 0 then []
    else
      assert s == [s[0]] + s[1..];
      var rest := SortDesc(s[1..], key);
      InsertDescSorted(s[0], rest, key);
      forall k ensures KeyFilter(InsertDesc(s[0], rest, key), key, k) == KeyFilter(s, key, k) {
        InsertDescFilter(s[0], rest, key, k);
      }
      InsertDesc(s[0], rest, key)
  }

  /** A value at two positions of a sequence occurs at least twice in it. */
  lemma MultisetTwice<T>(s: seq<T>, i: nat, j: nat)
    requires i < j < |s| && s[i] == s[j]
    ensures multiset(s)[s[i]] >= 2
  {
    assert s == s[..j] + s[j..];
    assert s[i] in s[..j];
    assert s[j] in s[j..];
  }
}
