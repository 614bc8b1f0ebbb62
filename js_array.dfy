/**
 * The two array methods format selection is built from: `filter`, and `sort`
 * with a comparator `(a, b) => key(b) - key(a)`, which orders by descending
 * key. ECMAScript (since its 2019 edition) requires `sort` to be stable, so
 * elements with equal keys keep their relative order; the model is a stable
 * insertion sort, and the lemmas below state sortedness, permutation and
 * stability of it.
 */
module JsArray {
  import opened Wrappers

  /** `xs.filter(p)` */
  function Filter<T>(xs: seq<T>, p: T -> bool): (r: seq<T>)
    ensures |r| <= |xs|
    ensures forall x | x in r :: x in xs && p(x)
    ensures forall x | x in xs && p(x) :: x in r
  {
    if xs == [] then []
    else
      var rest := Filter(xs[1..], p);
      assert forall x | x in xs && x != xs[0] :: x in xs[1..];
      if p(xs[0]) then [xs[0]] + rest else rest
  }

  /** Filtering a list whose every element passes changes nothing. */
  lemma {:induction false} FilterAllPass<T>(xs: seq<T>, p: T -> bool)
    requires forall x | x in xs :: p(x)
    ensures Filter(xs, p) == xs
  {
    if xs != [] {
      assert forall x | x in xs[1..] :: x in xs;
      FilterAllPass(xs[1..], p);
      assert [xs[0]] + xs[1..] == xs;
    }
  }

  /** `xs.map(f)` */
  function Map<T, U>(xs: seq<T>, f: T -> U): (r: seq<U>)
    ensures |r| == |xs|
    ensures forall i | 0 <= i < |xs| :: r[i] == f(xs[i])
  {
    if xs == [] then [] else [f(xs[0])] + Map(xs[1..], f)
  }

  /**
   * `xs.map(f).filter(p)` keeps the images of exactly the elements whose
   * image passes (`q` says which), in their order.
   */
  lemma {:induction false} FilterOfMap<T, U>(xs: seq<T>, f: T -> U, p: U -> bool, q: T -> bool)
    requires forall x :: q(x) == p(f(x))
    ensures Filter(Map(xs, f), p) == Map(Filter(xs, q), f)
  {
    if xs != [] {
      FilterOfMap(xs[1..], f, p, q);
      assert Map(xs, f)[1..] == Map(xs[1..], f);
    }
  }

  /** Keys never increase from left to right. */
  predicate SortedDesc<T>(xs: seq<T>, key: T -> int)
  {
    forall i, j | 0 <= i < j < |xs| :: key(xs[i]) >= key(xs[j])
  }

  /** `x` placed before the first element whose key is not larger than its own. */
  function InsertDesc<T>(x: T, sorted: seq<T>, key: T -> int): (r: seq<T>)
    ensures |r| == |sorted| + 1
  {
    if sorted == [] || key(sorted[0]) <= key(x) then [x] + sorted
    else [sorted[0]] + InsertDesc(x, sorted[1..], key)
  }

  /** `xs.sort((a, b) => key(b) - key(a))` */
  function SortDesc<T>(xs: seq<T>, key: T -> int): (r: seq<T>)
    ensures |r| == |xs|
  {
    if xs == [] then [] else InsertDesc(xs[0], SortDesc(xs[1..], key), key)
  }

  lemma {:induction false} InsertDescPermutes<T>(x: T, sorted: seq<T>, key: T -> int)
    ensures multiset(InsertDesc(x, sorted, key)) == multiset(sorted) + multiset{x}
  {
    if sorted != [] && key(sorted[0]) > key(x) {
      InsertDescPermutes(x, sorted[1..], key);
      assert sorted == [sorted[0]] + sorted[1..];
    }
  }

  lemma {:induction false} InsertDescSorted<T>(x: T, sorted: seq<T>, key: T -> int)
    requires SortedDesc(sorted, key)
    ensures SortedDesc(InsertDesc(x, sorted, key), key)
  {
    if sorted != [] && key(sorted[0]) > key(x) {
      var t := sorted[1..];
      InsertDescSorted(x, t, key);
      InsertDescPermutes(x, t, key);
      var r := InsertDesc(x, t, key);
      forall y | y in r
        ensures key(y) <= key(sorted[0])
      {
        assert y in multiset(r);
        if y != x {
          assert y in multiset(t);
          var j :| 0 <= j < |t| && t[j] == y;
          assert sorted[j + 1] == y;
        }
      }
      assert forall j | 0 < j < |r| + 1 :: ([sorted[0]] + r)[j] == r[j - 1];
    }
  }

  /** The sort is a permutation of its input. */
  lemma {:induction false} SortDescPermutes<T>(xs: seq<T>, key: T -> int)
    ensures multiset(SortDesc(xs, key)) == multiset(xs)
  {
    if xs != [] {
      SortDescPermutes(xs[1..], key);
      InsertDescPermutes(xs[0], SortDesc(xs[1..], key), key);
      assert xs == [xs[0]] + xs[1..];
    }
  }

  /** The sort neither loses nor invents elements. */
  lemma SortDescSameElements<T>(xs: seq<T>, key: T -> int)
    ensures forall y :: y in SortDesc(xs, key) <==> y in xs
  {
    SortDescPermutes(xs, key);
    forall y
      ensures y in SortDesc(xs, key) <==> y in xs
    {
      assert y in SortDesc(xs, key) <==> y in multiset(SortDesc(xs, key));
      assert y in xs <==> y in multiset(xs);
    }
  }

  /** The sort orders by descending key. */
  lemma {:induction false} SortDescSorted<T>(xs: seq<T>, key: T -> int)
    ensures SortedDesc(SortDesc(xs, key), key)
  {
    if xs != [] {
      SortDescSorted(xs[1..], key);
      InsertDescSorted(xs[0], SortDesc(xs[1..], key), key);
    }
  }

  /** The elements of `xs` whose key is `k`, in their order. */
  function WithKey<T>(xs: seq<T>, key: T -> int, k: int): seq<T>
  {
    if xs == [] then []
    else (if key(xs[0]) == k then [xs[0]] else []) + WithKey(xs[1..], key, k)
  }

  lemma {:induction false} InsertDescWithKey<T>(x: T, sorted: seq<T>, key: T -> int, k: int)
    ensures WithKey(InsertDesc(x, sorted, key), key, k) ==
      (if key(x) == k then [x] else []) + WithKey(sorted, key, k)
  {
    if sorted != [] && key(sorted[0]) > key(x) {
      InsertDescWithKey(x, sorted[1..], key, k);
      var r := InsertDesc(x, sorted[1..], key);
      assert ([sorted[0]] + r)[0] == sorted[0] && ([sorted[0]] + r)[1..] == r;
      if key(x) == k {
        assert key(sorted[0]) != k;
      }
    } else {
      assert ([x] + sorted)[1..] == sorted;
    }
  }

  /** The sort is stable: the elements of each key come out in the order they went in. */
  lemma {:induction false} SortDescStable<T>(xs: seq<T>, key: T -> int, k: int)
    ensures WithKey(SortDesc(xs, key), key, k) == WithKey(xs, key, k)
  {
    if xs != [] {
      SortDescStable(xs[1..], key, k);
      InsertDescWithKey(xs[0], SortDesc(xs[1..], key), key, k);
    }
  }

  /** The first element that satisfies `p`: what a scan with an early return finds. */
  function FirstWhere<T>(xs: seq<T>, p: T -> bool): (r: Option<T>)
    ensures r.Some? ==> r.value in xs && p(r.value)
  {
    if xs == [] then None
    else if p(xs[0]) then Some(xs[0])
    else
      var r := FirstWhere(xs[1..], p);
      assert r.Some? ==> r.value in xs;
      r
  }

  /** The scan finds something exactly when some element satisfies `p`, and then the earliest such element. */
  lemma {:induction false} FirstWhereSpec<T>(xs: seq<T>, p: T -> bool)
    ensures FirstWhere(xs, p).Some? <==> exists i | 0 <= i < |xs| :: p(xs[i])
    ensures FirstWhere(xs, p).Some? ==> exists i | 0 <= i < |xs| ::
      FirstWhere(xs, p) == Some(xs[i]) && p(xs[i]) && forall j | 0 <= j < i :: !p(xs[j])
  {
    if xs != [] && !p(xs[0]) {
      FirstWhereSpec(xs[1..], p);
      if FirstWhere(xs, p).Some? {
        var i :| 0 <= i < |xs[1..]| && FirstWhere(xs[1..], p) == Some(xs[1..][i])
          && p(xs[1..][i]) && forall j | 0 <= j < i :: !p(xs[1..][j]);
        assert forall j | 0 < j <= i :: xs[j] == xs[1..][j - 1];
        assert xs[i + 1] == xs[1..][i];
      }
      if exists i | 0 <= i < |xs| :: p(xs[i]) {
        var i :| 0 <= i < |xs| && p(xs[i]);
        assert xs[1..][i - 1] == xs[i];
      }
    }
  }

  /** Scanning two lists one after the other: the second is reached only when the first has no match. */
  lemma {:induction false} FirstWhereAppend<T>(xs: seq<T>, ys: seq<T>, p: T -> bool)
    ensures FirstWhere(xs + ys, p) == if FirstWhere(xs, p).Some? then FirstWhere(xs, p) else FirstWhere(ys, p)
  {
    if xs == [] {
      assert xs + ys == ys;
    } else {
      assert (xs + ys)[0] == xs[0] && (xs + ys)[1..] == xs[1..] + ys;
      FirstWhereAppend(xs[1..], ys, p);
    }
  }

  /** In a list sorted by descending key, the first match has the largest key among all matches. */
  lemma {:induction false} FirstWhereInSortedIsHighest<T>(xs: seq<T>, key: T -> int, p: T -> bool)
    requires SortedDesc(xs, key)
    requires FirstWhere(xs, p).Some?
    ensures forall y | y in xs && p(y) :: key(y) <= key(FirstWhere(xs, p).value)
  {
    if !p(xs[0]) {
      var t := xs[1..];
      assert SortedDesc(t, key) by {
        assert forall i, j | 0 <= i < j < |t| :: t[i] == xs[i + 1] && t[j] == xs[j + 1];
      }
      FirstWhereInSortedIsHighest(t, key, p);
      forall y | y in xs && p(y)
        ensures y in t
      {
        var k :| 0 <= k < |xs| && xs[k] == y;
        assert k != 0;
        assert t[k - 1] == y;
      }
    } else {
      forall y | y in xs
        ensures key(y) <= key(xs[0])
      {
        var k :| 0 <= k < |xs| && xs[k] == y;
      }
    }
  }

  /** The head of a list sorted by descending key has the largest key. */
  lemma HeadIsHighest<T>(xs: seq<T>, key: T -> int)
    requires SortedDesc(xs, key) && xs != []
    ensures forall y | y in xs :: key(y) <= key(xs[0])
  {
    forall y | y in xs
      ensures key(y) <= key(xs[0])
    {
      var k :| 0 <= k < |xs| && xs[k] == y;
    }
  }
}
