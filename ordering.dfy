/** The two sorts the feed generators apply to a match set: LINQ's
    `OrderBy(p => p)` on full paths (Sitemap) and
    `OrderByDescending(fi => fi.LastWriteTimeUtc)` (RSS). Both LINQ sorts
    are stable; both are modelled as insertion sorts. Strings are compared
    ordinally, character by character. */
module Ordering {

  // ---------------------------------------------------------------------
  // Ordinal string order

  /** `a` sorts no later than `b`: at the first differing character `a`'s is
      smaller, or `a` is a prefix of `b`. */
  predicate LessEq(a: string, b: string)
  {
    a == [] || (b != [] && (a[0] < b[0] || (a[0] == b[0] && LessEq(a[1..], b[1..]))))
  }

  lemma {:induction false} LessEqTotal(a: string, b: string)
    ensures LessEq(a, b) || LessEq(b, a)
  {
    if a != [] && b != [] && a[0] == b[0] {
      LessEqTotal(a[1..], b[1..]);
    }
  }

  lemma {:induction false} LessEqTransitive(a: string, b: string, c: string)
    requires LessEq(a, b) && LessEq(b, c)
    ensures LessEq(a, c)
  {
    if a != [] && a[0] == b[0] && b[0] == c[0] {
      LessEqTransitive(a[1..], b[1..], c[1..]);
    }
  }

  lemma {:induction false} LessEqAntisymmetric(a: string, b: string)
    requires LessEq(a, b) && LessEq(b, a)
    ensures a == b
  {
    if a != [] {
      LessEqAntisymmetric(a[1..], b[1..]);
      assert a == [a[0]] + a[1..] && b == [b[0]] + b[1..];
    }
  }

  predicate Sorted(s: seq<string>)
  {
    forall i, j | 0 <= i < j < |s| :: LessEq(s[i], s[j])
  }

  /** Puts `x` before the first element it sorts no later than. */
  function Insert(x: string, s: seq<string>): (r: seq<string>)
    ensures multiset(r) == multiset(s) + multiset{x}
  {
    if s == [] || LessEq(x, s[0]) then [x] + s
    else
      assert s == [s[0]] + s[1..];
      [s[0]] + Insert(x, s[1..])
  }

  /** Putting in front an element that sorts no later than any other keeps
      a sorted sequence sorted. */
  lemma ConsSorted(a: string, r: seq<string>)
    requires Sorted(r)
    requires forall j | 0 <= j < |r| :: LessEq(a, r[j])
    ensures Sorted([a] + r)
  {
    var r' := [a] + r;
    forall i, j | 0 <= i < j < |r'|
      ensures LessEq(r'[i], r'[j])
    {
      assert r'[j] == r[j - 1];
      if i > 0 {
        assert r'[i] == r[i - 1];
      }
    }
  }

  /** A lower bound of `x` and of all of `s` is one of all of `Insert(x, s)`. */
  lemma InsertBelow(a: string, x: string, s: seq<string>)
    requires LessEq(a, x)
    requires forall j | 0 <= j < |s| :: LessEq(a, s[j])
    ensures forall j | 0 <= j < |Insert(x, s)| :: LessEq(a, Insert(x, s)[j])
  {
    var r := Insert(x, s);
    forall j | 0 <= j < |r|
      ensures LessEq(a, r[j])
    {
      assert r[j] in multiset(r);
      if r[j] != x {
        assert r[j] in multiset(s);
        var k :| 0 <= k < |s| && s[k] == r[j];
      }
    }
  }

  lemma {:induction false} InsertSorted(x: string, s: seq<string>)
    requires Sorted(s)
    ensures Sorted(Insert(x, s))
  {
    if s == [] {
      ConsSorted(x, s);
    } else if LessEq(x, s[0]) {
      forall j | 0 <= j < |s|
        ensures LessEq(x, s[j])
      {
        if j > 0 {
          LessEqTransitive(x, s[0], s[j]);
        }
      }
      ConsSorted(x, s);
    } else {
      LessEqTotal(x, s[0]);
      InsertSorted(x, s[1..]);
      InsertBelow(s[0], x, s[1..]);
      ConsSorted(s[0], Insert(x, s[1..]));
    }
  }

  /** `OrderBy(p => p)` on strings. */
  function OrderByOrdinal(s: seq<string>): (r: seq<string>)
    ensures multiset(r) == multiset(s)
  {
    if s == [] then []
    else
      assert s == [s[0]] + s[1..];
      Insert(s[0], OrderByOrdinal(s[1..]))
  }

  /** The result is in ascending ordinal order and holds exactly the input's
      elements, each as often as in the input. */
  lemma {:induction false} OrderByOrdinalSorted(s: seq<string>)
    ensures Sorted(OrderByOrdinal(s))
    ensures multiset(OrderByOrdinal(s)) == multiset(s)
  {
    if s != [] {
      OrderByOrdinalSorted(s[1..]);
      InsertSorted(s[0], OrderByOrdinal(s[1..]));
    }
  }

  // ---------------------------------------------------------------------
  // Stable descending order on an integer key

  predicate SortedDescending<T>(s: seq<T>, key: T -> int)
  {
    forall i, j | 0 <= i < j < |s| :: key(s[i]) >= key(s[j])
  }

  /** The elements of `s` whose key is `k`, in their order in `s`. */
  function WithKey<T>(s: seq<T>, key: T -> int, k: int): seq<T>
  {
    if s == [] then []
    else (if key(s[0]) == k then [s[0]] else []) + WithKey(s[1..], key, k)
  }

  /** Filtering by key works piece by piece. */
  lemma {:induction false} WithKeyAppend<T>(a: seq<T>, b: seq<T>, key: T -> int, k: int)
    ensures WithKey(a + b, key, k) == WithKey(a, key, k) + WithKey(b, key, k)
  {
    if a != [] {
      WithKeyAppend(a[1..], b, key, k);
      assert (a + b)[0] == a[0] && (a + b)[1..] == a[1..] + b;
    } else {
      assert a + b == b;
    }
  }

  /** Puts `x` after every element with a larger key and before the rest. */
  function InsertByKey<T>(x: T, s: seq<T>, key: T -> int): (r: seq<T>)
    ensures multiset(r) == multiset(s) + multiset{x}
  {
    if s == [] || key(s[0]) <= key(x) then [x] + s
    else
      assert s == [s[0]] + s[1..];
      [s[0]] + InsertByKey(x, s[1..], key)
  }

  /** Putting in front an element with a key no smaller than any other
      keeps a descending sequence descending. */
  lemma ConsDescending<T>(a: T, r: seq<T>, key: T -> int)
    requires SortedDescending(r, key)
    requires forall j | 0 <= j < |r| :: key(a) >= key(r[j])
    ensures SortedDescending([a] + r, key)
  {
    var r' := [a] + r;
    forall i, j | 0 <= i < j < |r'|
      ensures key(r'[i]) >= key(r'[j])
    {
      assert r'[j] == r[j - 1];
      if i > 0 {
        assert r'[i] == r[i - 1];
      }
    }
  }

  /** An upper bound of the keys of `x` and of all of `s` is one of all of
      `InsertByKey(x, s, key)`. */
  lemma InsertByKeyBelow<T>(a: T, x: T, s: seq<T>, key: T -> int)
    requires key(a) >= key(x)
    requires forall j | 0 <= j < |s| :: key(a) >= key(s[j])
    ensures forall j | 0 <= j < |InsertByKey(x, s, key)| :: key(a) >= key(InsertByKey(x, s, key)[j])
  {
    var r := InsertByKey(x, s, key);
    forall j | 0 <= j < |r|
      ensures key(a) >= key(r[j])
    {
      assert r[j] in multiset(r);
      if r[j] != x {
        assert r[j] in multiset(s);
        var k :| 0 <= k < |s| && s[k] == r[j];
      }
    }
  }

  lemma {:induction false} InsertByKeySorted<T>(x: T, s: seq<T>, key: T -> int)
    requires SortedDescending(s, key)
    ensures SortedDescending(InsertByKey(x, s, key), key)
  {
    if s == [] || key(s[0]) <= key(x) {
      ConsDescending(x, s, key);
    } else {
      InsertByKeySorted(x, s[1..], key);
      InsertByKeyBelow(s[0], x, s[1..], key);
      ConsDescending(s[0], InsertByKey(x, s[1..], key), key);
    }
  }

  /** Inserting `x` keeps the order among the elements that share a key:
      it only passes elements with a larger key. */
  lemma {:induction false} InsertByKeyWithKey<T>(x: T, s: seq<T>, key: T -> int, k: int)
    ensures WithKey(InsertByKey(x, s, key), key, k) ==
      (if key(x) == k then [x] else []) + WithKey(s, key, k)
  {
    var r := InsertByKey(x, s, key);
    if s == [] || key(s[0]) <= key(x) {
      assert r[0] == x && r[1..] == s;
    } else {
      var r1 := InsertByKey(x, s[1..], key);
      InsertByKeyWithKey(x, s[1..], key, k);
      assert r[0] == s[0] && r[1..] == r1;
      var head := if key(s[0]) == k then [s[0]] else [];
      assert WithKey(r, key, k) == head + WithKey(r1, key, k);
      assert WithKey(s, key, k) == head + WithKey(s[1..], key, k);
      if key(x) == k {
        assert head == [];
      }
    }
  }

  /** `OrderByDescending(key)`. */
  function OrderByDescending<T>(s: seq<T>, key: T -> int): (r: seq<T>)
    ensures multiset(r) == multiset(s)
  {
    if s == [] then []
    else
      assert s == [s[0]] + s[1..];
      InsertByKey(s[0], OrderByDescending(s[1..], key), key)
  }

  /** The result runs from the largest key to the smallest, is a
      permutation of the input, and keeps elements with equal keys in their
      input order. */
  lemma {:induction false} OrderByDescendingSpec<T>(s: seq<T>, key: T -> int)
    ensures SortedDescending(OrderByDescending(s, key), key)
    ensures multiset(OrderByDescending(s, key)) == multiset(s)
    ensures forall k :: WithKey(OrderByDescending(s, key), key, k) == WithKey(s, key, k)
  {
    if s != [] {
      OrderByDescendingSpec(s[1..], key);
      InsertByKeySorted(s[0], OrderByDescending(s[1..], key), key);
      forall k
        ensures WithKey(OrderByDescending(s, key), key, k) == WithKey(s, key, k)
      {
        InsertByKeyWithKey(s[0], OrderByDescending(s[1..], key), key, k);
      }
    }
  }

  /** Cutting a descending sequence in two: the front is descending and
      nothing in the back has a larger key than anything in the front. */
  lemma SplitDescending<T>(front: seq<T>, back: seq<T>, key: T -> int)
    requires SortedDescending(front + back, key)
    ensures SortedDescending(front, key)
    ensures forall x, y | x in front && y in multiset(back) :: key(y) <= key(x)
  {
    var whole := front + back;
    forall x, y | x in front && y in multiset(back)
      ensures key(y) <= key(x)
    {
      var i :| 0 <= i < |front| && front[i] == x;
      var j :| 0 <= j < |back| && back[j] == y;
      assert whole[i] == x && whole[|front| + j] == y;
    }
    forall i, j | 0 <= i < j < |front|
      ensures key(front[i]) >= key(front[j])
    {
      assert whole[i] == front[i] && whole[j] == front[j];
    }
  }

  /** Any prefix of the descending order (what `Take` keeps): still
      descending, drawn from the input, never older than an element it
      leaves out, and in input order among equal keys. */
  lemma OrderByDescendingPrefix<T>(s: seq<T>, key: T -> int, r: seq<T>)
    requires r <= OrderByDescending(s, key)
    ensures SortedDescending(r, key)
    ensures multiset(r) <= multiset(s)
    ensures forall x, y | x in r && y in multiset(s) - multiset(r) :: key(y) <= key(x)
    ensures forall k :: WithKey(r, key, k) <= WithKey(s, key, k)
  {
    var sorted := OrderByDescending(s, key);
    OrderByDescendingSpec(s, key);
    var rest := sorted[|r|..];
    assert sorted == r + rest;
    SplitDescending(r, rest, key);
    assert multiset(s) == multiset(r) + multiset(rest);
    forall k
      ensures WithKey(r, key, k) <= WithKey(s, key, k)
    {
      WithKeyAppend(r, rest, key, k);
    }
  }
}
