/** Order-keeping filters, duplicate-free sorting and descending sorting:
    the sequence meanings of the pandas operations the dashboard chains
    (boolean-mask filtering, `unique` then `sorted`, `groupby` keys,
    `sort_values(ascending=False)`). */
module Sequences {

  /** `a` is `b` with some elements removed, the rest kept in order. */
  predicate Subsequence<T(==)>(a: seq<T>, b: seq<T>)
    decreases |b|
  {
    a == [] || (b != [] && ((a[0] == b[0] && Subsequence(a[1..], b[1..])) || Subsequence(a, b[1..])))
  }

  lemma {:induction false} SubsequenceTransitive<T>(a: seq<T>, b: seq<T>, c: seq<T>)
    requires Subsequence(a, b) && Subsequence(b, c)
    ensures Subsequence(a, c)
    decreases |c|
  {
    if a != [] {
      if b[0] == c[0] && Subsequence(b[1..], c[1..]) {
        if a[0] == b[0] && Subsequence(a[1..], b[1..]) {
          SubsequenceTransitive(a[1..], b[1..], c[1..]);
        } else {
          SubsequenceTransitive(a, b[1..], c[1..]);
        }
      } else {
        SubsequenceTransitive(a, b, c[1..]);
      }
    }
  }

  /** `lt` is a strict total order on all of `T`. */
  ghost predicate StrictTotalOrder<T(!new)>(lt: (T, T) -> bool)
  {
    && (forall a :: !lt(a, a))
    && (forall a, b, c :: lt(a, b) && lt(b, c) ==> lt(a, c))
    && (forall a, b :: a != b ==> lt(a, b) || lt(b, a))
  }

  /** Strictly ascending under `lt`, hence free of duplicates. */
  predicate StrictlySorted<T>(s: seq<T>, lt: (T, T) -> bool)
  {
    forall i, j :: 0 <= i < j < |s| ==> lt(s[i], s[j])
  }

  /** Inserts `x` into the ascending `s` unless it is already there. */
  function InsertUnique<T(==)>(s: seq<T>, x: T, lt: (T, T) -> bool): seq<T>
  {
    if s == [] then [x]
    else if x == s[0] then s
    else if lt(x, s[0]) then [x] + s
    else [s[0]] + InsertUnique(s[1..], x, lt)
  }

  /** The distinct elements of `s` in ascending order: Python's
      `sorted(set(s))`, and the key order of a pandas `groupby`. */
  function SortedUnique<T(==)>(s: seq<T>, lt: (T, T) -> bool): seq<T>
  {
    if s == [] then [] else InsertUnique(SortedUnique(s[1..], lt), s[0], lt)
  }

  lemma {:induction false} InsertUniqueSpec<T(!new)>(s: seq<T>, x: T, lt: (T, T) -> bool)
    requires StrictTotalOrder(lt) && StrictlySorted(s, lt)
    ensures StrictlySorted(InsertUnique(s, x, lt), lt)
    ensures x in InsertUnique(s, x, lt) && forall y :: y in s ==> y in InsertUnique(s, x, lt)
    ensures forall y :: y in InsertUnique(s, x, lt) ==> y in s || y == x
  {
    if s != [] && x != s[0] && !lt(x, s[0]) {
      InsertUniqueSpec(s[1..], x, lt);
      var r := InsertUnique(s[1..], x, lt);
      assert lt(s[0], x);
      forall j | 0 < j < |[s[0]] + r|
        ensures lt(s[0], ([s[0]] + r)[j])
      {
        assert ([s[0]] + r)[j] == r[j - 1];
        assert r[j - 1] in r;
      }
    }
  }

  /** The result is strictly ascending and holds exactly the elements of `s`. */
  lemma {:induction false} SortedUniqueSpec<T(!new)>(s: seq<T>, lt: (T, T) -> bool)
    requires StrictTotalOrder(lt)
    ensures StrictlySorted(SortedUnique(s, lt), lt)
    ensures forall y :: y in SortedUnique(s, lt) <==> y in s
  {
    if s != [] {
      SortedUniqueSpec(s[1..], lt);
      InsertUniqueSpec(SortedUnique(s[1..], lt), s[0], lt);
      assert s == [s[0]] + s[1..];
    }
  }

  /** Non-increasing in `key`. */
  predicate Descending<T>(s: seq<T>, key: T -> real)
  {
    forall i, j :: 0 <= i < j < |s| ==> key(s[i]) >= key(s[j])
  }

  /** Inserts `x` into the non-increasing `s` ahead of the first element
      whose key is not greater than its own. */
  function InsertDesc<T>(s: seq<T>, x: T, key: T -> real): seq<T>
  {
    if s == [] || key(s[0]) <= key(x) then [x] + s
    else [s[0]] + InsertDesc(s[1..], x, key)
  }

  /** `sort_values(key, ascending=False)`, by insertion. The order it gives
      to equal keys is its own; pandas promises none. */
  function SortDesc<T>(s: seq<T>, key: T -> real): seq<T>
  {
    if s == [] then [] else InsertDesc(SortDesc(s[1..], key), s[0], key)
  }

  /** Inserting below a bound keeps every key below the bound. */
  lemma {:induction false} InsertDescBound<T>(s: seq<T>, x: T, key: T -> real, b: real)
    requires forall i :: 0 <= i < |s| ==> key(s[i]) <= b
    requires key(x) <= b
    ensures forall i :: 0 <= i < |InsertDesc(s, x, key)| ==> key(InsertDesc(s, x, key)[i]) <= b
  {
    if s != [] && key(s[0]) > key(x) {
      InsertDescBound(s[1..], x, key, b);
    }
  }

  lemma {:induction false} InsertDescCount<T>(s: seq<T>, x: T, key: T -> real)
    ensures multiset(InsertDesc(s, x, key)) == multiset(s) + multiset{x}
  {
    if s != [] && key(s[0]) > key(x) {
      InsertDescCount(s[1..], x, key);
      assert s == [s[0]] + s[1..];
      assert multiset(s) == multiset{s[0]} + multiset(s[1..]);
    }
  }

  lemma {:induction false} InsertDescSpec<T>(s: seq<T>, x: T, key: T -> real)
    requires Descending(s, key)
    ensures Descending(InsertDesc(s, x, key), key)
    ensures multiset(InsertDesc(s, x, key)) == multiset(s) + multiset{x}
  {
    InsertDescCount(s, x, key);
    if s != [] && key(s[0]) > key(x) {
      var t := s[1..];
      assert Descending(t, key);
      InsertDescSpec(t, x, key);
      InsertDescBound(t, x, key, key(s[0]));
      var r := InsertDesc(t, x, key);
      assert InsertDesc(s, x, key) == [s[0]] + r;
    }
  }

  /** Sorting yields a non-increasing permutation of the input. */
  lemma {:induction false} SortDescSpec<T>(s: seq<T>, key: T -> real)
    ensures Descending(SortDesc(s, key), key)
    ensures multiset(SortDesc(s, key)) == multiset(s)
  {
    if s != [] {
      SortDescSpec(s[1..], key);
      InsertDescSpec(SortDesc(s[1..], key), s[0], key);
      assert s == [s[0]] + s[1..];
      assert multiset(s) == multiset(s[1..]) + multiset{s[0]};
    }
  }

  lemma SortDescLength<T>(s: seq<T>, key: T -> real)
    ensures |SortDesc(s, key)| == |s|
  {
    SortDescSpec(s, key);
    assert |multiset(SortDesc(s, key))| == |multiset(s)|;
  }

  /** Sorting neither adds nor loses an element. */
  lemma SortDescSameElements<T>(s: seq<T>, key: T -> real, x: T)
    ensures x in SortDesc(s, key) <==> x in s
  {
    SortDescSpec(s, key);
    assert x in SortDesc(s, key) <==> x in multiset(SortDesc(s, key));
    assert x in s <==> x in multiset(s);
  }

  predicate StrictlyDescending<T>(s: seq<T>, key: T -> real)
  {
    forall i, j :: 0 <= i < j < |s| ==> key(s[i]) > key(s[j])
  }

  /** An input whose keys strictly decrease comes back unchanged: with no
      ties, a non-increasing order is unique, so no sort can reorder it. */
  lemma {:induction false} SortDescOfDescending<T>(s: seq<T>, key: T -> real)
    requires StrictlyDescending(s, key)
    ensures SortDesc(s, key) == s
  {
    if s != [] {
      SortDescOfDescending(s[1..], key);
    }
  }

  /** Two non-increasing orderings of the same elements agree on the key at
      every position: however a sort orders equal keys, the key column it
      produces is the same. */
  lemma {:induction false} DescendingKeysAgree<T>(a: seq<T>, b: seq<T>, key: T -> real)
    requires Descending(a, key) && Descending(b, key) && multiset(a) == multiset(b)
    ensures |a| == |b|
    ensures forall k :: 0 <= k < |a| ==> key(a[k]) == key(b[k])
    decreases |a|
  {
    assert |multiset(a)| == |multiset(b)|;
    if a != [] {
      assert a[0] in multiset(b);
      var j :| 0 <= j < |b| && b[j] == a[0];
      assert b[0] in multiset(a);
      var i :| 0 <= i < |a| && a[i] == b[0];
      assert key(a[i]) <= key(a[0]);
      assert key(b[j]) <= key(b[0]);
      var c := b[..j] + b[j + 1..];
      RemoveOne(a, b, j);
      DescendingRemove(b, j, key);
      DescendingKeysAgree(a[1..], c, key);
      ShiftedKeys(a, b, j, key);
    }
  }

  /** Taking the first element of `a` out of `b`, at a position `j` where
      `b` holds it, leaves the rest of `a`. */
  lemma RemoveOne<T>(a: seq<T>, b: seq<T>, j: int)
    requires multiset(a) == multiset(b) && 0 <= j < |b| && a != [] && b[j] == a[0]
    ensures multiset(b[..j] + b[j + 1..]) == multiset(a[1..])
  {
    assert b == b[..j] + [b[j]] + b[j + 1..];
    assert multiset(b) == multiset(b[..j]) + multiset{b[j]} + multiset(b[j + 1..]);
    assert multiset(b[..j] + b[j + 1..]) == multiset(b[..j]) + multiset(b[j + 1..]);
    assert a == [a[0]] + a[1..];
    assert multiset(a) == multiset{a[0]} + multiset(a[1..]);
    var c := b[..j] + b[j + 1..];
    forall x
      ensures multiset(c)[x] == multiset(a[1..])[x]
    {
      assert multiset(b)[x] == multiset(b[..j])[x] + multiset{b[j]}[x] + multiset(b[j + 1..])[x];
      assert multiset(a)[x] == multiset{a[0]}[x] + multiset(a[1..])[x];
      assert multiset(c)[x] == multiset(b[..j])[x] + multiset(b[j + 1..])[x];
    }
  }

  lemma ShiftedKeys<T>(a: seq<T>, b: seq<T>, j: int, key: T -> real)
    requires Descending(b, key) && 0 <= j < |b| && |a| == |b|
    requires key(b[0]) == key(a[0]) == key(b[j])
    requires var c := b[..j] + b[j + 1..];
             forall k :: 0 <= k < |a[1..]| ==> key(a[1..][k]) == key(c[k])
    ensures forall k :: 0 <= k < |a| ==> key(a[k]) == key(b[k])
  {
    var c := b[..j] + b[j + 1..];
    forall k | 0 < k < |a|
      ensures key(a[k]) == key(b[k])
    {
      assert a[k] == a[1..][k - 1];
      if k - 1 < j {
        assert c[k - 1] == b[k - 1];
        assert key(b[0]) >= key(b[k - 1]) >= key(b[k]) >= key(b[j]);
      } else {
        assert c[k - 1] == b[k];
      }
    }
  }

  /** Removing one element keeps a sequence non-increasing. */
  lemma DescendingRemove<T>(b: seq<T>, j: int, key: T -> real)
    requires Descending(b, key) && 0 <= j < |b|
    ensures Descending(b[..j] + b[j + 1..], key)
  {
    var c := b[..j] + b[j + 1..];
    forall p, q | 0 <= p < q < |c|
      ensures key(c[p]) >= key(c[q])
    {
      var p' := if p < j then p else p + 1;
      var q' := if q < j then q else q + 1;
      assert c[p] == b[p'] && c[q] == b[q'];
    }
  }

  /** Elements whose `name`s are pairwise distinct before sorting are so
      after sorting. */
  lemma {:induction false} SortDescKeepsDistinct<T, U>(s: seq<T>, key: T -> real, name: T -> U)
    requires forall i, j :: 0 <= i < j < |s| ==> name(s[i]) != name(s[j])
    ensures forall i, j :: 0 <= i < j < |SortDesc(s, key)| ==> name(SortDesc(s, key)[i]) != name(SortDesc(s, key)[j])
  {
    if s != [] {
      SortDescKeepsDistinct(s[1..], key, name);
      SortDescSpec(s[1..], key);
      var r := SortDesc(s[1..], key);
      forall y | y in r
        ensures name(y) != name(s[0])
      {
        assert y in multiset(s[1..]);
        var k :| 0 <= k < |s[1..]| && s[1..][k] == y;
        assert s[k + 1] == y;
      }
      InsertDescKeepsDistinct(r, s[0], key, name);
    }
  }

  lemma {:induction false} InsertDescKeepsDistinct<T, U>(s: seq<T>, x: T, key: T -> real, name: T -> U)
    requires forall i, j :: 0 <= i < j < |s| ==> name(s[i]) != name(s[j])
    requires forall y :: y in s ==> name(y) != name(x)
    ensures forall i, j :: 0 <= i < j < |InsertDesc(s, x, key)| ==> name(InsertDesc(s, x, key)[i]) != name(InsertDesc(s, x, key)[j])
    ensures forall y :: y in InsertDesc(s, x, key) ==> y in s || y == x
  {
    if s != [] && key(s[0]) > key(x) {
      InsertDescKeepsDistinct(s[1..], x, key, name);
      var r := InsertDesc(s[1..], x, key);
      forall j | 0 < j < |[s[0]] + r|
        ensures name(s[0]) != name(([s[0]] + r)[j])
      {
        var y := r[j - 1];
        assert ([s[0]] + r)[j] == y;
        assert y in r;
        assert y in s[1..] || y == x;
        assert s[0] in s;
        if y in s[1..] {
          var k :| 0 <= k < |s[1..]| && s[1..][k] == y;
          assert s[k + 1] == y;
        }
      }
      assert s == [s[0]] + s[1..];
    }
  }

  /** The elements whose `key` is `k`, in order: a boolean-mask filter
      on one column, and the rows of one `groupby` group. */
  function Select<T(==,!new), K(==)>(s: seq<T>, key: T -> K, k: K): (r: seq<T>)
    ensures forall x :: multiset(r)[x] == if key(x) == k then multiset(s)[x] else 0
    ensures Subsequence(r, s)
  {
    if s == [] then []
    else
      assert s == [s[0]] + s[1..];
      if key(s[0]) == k then [s[0]] + Select(s[1..], key, k) else Select(s[1..], key, k)
  }

  /** `sum()` of one column. */
  function Total<T>(s: seq<T>, amount: T -> int): int
  {
    if s == [] then 0 else amount(s[0]) + Total(s[1..], amount)
  }

  /** The `keys` are pairwise distinct. */
  predicate Distinct<K(==)>(keys: seq<K>)
  {
    forall i, j :: 0 <= i < j < |keys| ==> keys[i] != keys[j]
  }

  /** The group totals of `s` for the `keys`, added up. */
  function SumOfGroups<T(==,!new), K(==)>(keys: seq<K>, s: seq<T>, key: T -> K, amount: T -> int): int
  {
    if keys == [] then 0 else Total(Select(s, key, keys[0]), amount) + SumOfGroups(keys[1..], s, key, amount)
  }

  lemma {:induction false} SumOfGroupsCons<T(!new), K>(keys: seq<K>, x: T, s: seq<T>, key: T -> K, amount: T -> int)
    requires Distinct(keys)
    ensures SumOfGroups(keys, [x] + s, key, amount)
            == SumOfGroups(keys, s, key, amount) + (if key(x) in keys then amount(x) else 0)
  {
    if keys != [] {
      assert ([x] + s)[1..] == s;
      SumOfGroupsCons(keys[1..], x, s, key, amount);
    }
  }

  lemma {:induction false} SumOfGroupsEmpty<T(!new), K>(keys: seq<K>, s: seq<T>, key: T -> K, amount: T -> int)
    requires s == []
    ensures SumOfGroups(keys, s, key, amount) == 0
  {
    if keys != [] {
      SumOfGroupsEmpty(keys[1..], s, key, amount);
    }
  }

  /** Distinct keys that cover every element split the total among them:
      the group sums of a `groupby` add up to the column's sum. */
  lemma {:induction false} GroupsCoverTotal<T(!new), K>(keys: seq<K>, s: seq<T>, key: T -> K, amount: T -> int)
    requires Distinct(keys)
    requires forall x :: x in s ==> key(x) in keys
    ensures SumOfGroups(keys, s, key, amount) == Total(s, amount)
  {
    if s == [] {
      SumOfGroupsEmpty(keys, s, key, amount);
    } else {
      assert s == [s[0]] + s[1..];
      SumOfGroupsCons(keys, s[0], s[1..], key, amount);
      GroupsCoverTotal(keys, s[1..], key, amount);
    }
  }

  /** The group totals listed in key order add up to the sum of the groups. */
  lemma {:induction false} GroupTotalsSum<T(!new), K, G>(ks: seq<K>, g: seq<G>, gAmount: G -> int, s: seq<T>, key: T -> K, amount: T -> int)
    requires |g| == |ks|
    requires forall k :: 0 <= k < |ks| ==> gAmount(g[k]) == Total(Select(s, key, ks[k]), amount)
    ensures Total(g, gAmount) == SumOfGroups(ks, s, key, amount)
  {
    if ks != [] {
      GroupTotalsSum(ks[1..], g[1..], gAmount, s, key, amount);
    }
  }

  /** `f` applied to every element. */
  function MapSeq<T, U>(s: seq<T>, f: T -> U): (r: seq<U>)
    ensures |r| == |s| && forall i :: 0 <= i < |s| ==> r[i] == f(s[i])
  {
    if s == [] then [] else [f(s[0])] + MapSeq(s[1..], f)
  }

  /** Mapping a prefix gives the prefix of the mapping. */
  lemma MapSeqTake<T, U>(s: seq<T>, f: T -> U, n: nat)
    requires n <= |s|
    ensures MapSeq(s[..n], f) == MapSeq(s, f)[..n]
  {
  }

  lemma {:induction false} InsertDescMap<T, U>(s: seq<T>, x: T, key: U -> real, key2: T -> real, f: T -> U)
    requires forall y :: key2(y) == key(f(y))
    ensures InsertDesc(MapSeq(s, f), f(x), key) == MapSeq(InsertDesc(s, x, key2), f)
  {
    if s != [] && key2(s[0]) > key2(x) {
      InsertDescMap(s[1..], x, key, key2, f);
      assert MapSeq(s, f)[1..] == MapSeq(s[1..], f);
    }
  }

  /** Sorting a projection of `s` by a key on the projection gives the
      projection of `s` sorted by the same key read through it. */
  lemma {:induction false} SortDescMap<T, U>(s: seq<T>, key: U -> real, key2: T -> real, f: T -> U)
    requires forall y :: key2(y) == key(f(y))
    ensures SortDesc(MapSeq(s, f), key) == MapSeq(SortDesc(s, key2), f)
  {
    if s != [] {
      SortDescMap(s[1..], key, key2, f);
      assert MapSeq(s, f)[1..] == MapSeq(s[1..], f);
      InsertDescMap(SortDesc(s[1..], key2), s[0], key, key2, f);
    }
  }

  lemma {:induction false} TotalInsertDesc<T>(s: seq<T>, x: T, key: T -> real, amount: T -> int)
    ensures Total(InsertDesc(s, x, key), amount) == amount(x) + Total(s, amount)
  {
    if s != [] && key(s[0]) > key(x) {
      TotalInsertDesc(s[1..], x, key, amount);
    }
  }

  /** Reordering keeps the sum. */
  lemma {:induction false} TotalSortDesc<T>(s: seq<T>, key: T -> real, amount: T -> int)
    ensures Total(SortDesc(s, key), amount) == Total(s, amount)
  {
    if s != [] {
      TotalSortDesc(s[1..], key, amount);
      TotalInsertDesc(SortDesc(s[1..], key), s[0], key, amount);
    }
  }

  /** With no negative amounts, a prefix sums to no more than the whole. */
  lemma {:induction false} TotalPrefix<T>(s: seq<T>, n: nat, amount: T -> int)
    requires n <= |s|
    requires forall i :: 0 <= i < |s| ==> amount(s[i]) >= 0
    ensures 0 <= Total(s[..n], amount) <= Total(s, amount)
  {
    if s != [] {
      if n == 0 {
        TotalPrefix(s[1..], 0, amount);
        assert s[1..][..0] == s[..0];
      } else {
        TotalPrefix(s[1..], n - 1, amount);
        assert s[..n][1..] == s[1..][..n - 1];
      }
    }
  }
}
