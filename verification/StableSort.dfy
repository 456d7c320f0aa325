/**
 * Array.prototype.sort, URLSearchParams.sort and an ORDER BY clause, as one stable sort.
 * Any stable sort gives this list: see SortedIsUnique.
 */
module StableSort {
  import opened Sequences

  ghost predicate TotalPreorder<T(!new)>(le: (T, T) -> bool) {
    && (forall a, b :: le(a, b) || le(b, a))
    && (forall a, b, c :: le(a, b) && le(b, c) ==> le(a, c))
  }

  ghost predicate Sorted<T>(xs: seq<T>, le: (T, T) -> bool) {
    forall i, j :: 0 <= i < j < |xs| ==> le(xs[i], xs[j])
  }

  /** Puts x before the first element it does not exceed. */
  function Insert<T>(x: T, ys: seq<T>, le: (T, T) -> bool): (r: seq<T>)
    ensures multiset(r) == multiset{x} + multiset(ys)
  {
    if |ys| == 0 || le(x, ys[0]) then [x] + ys
    else
      assert ys == [ys[0]] + ys[1..];
      [ys[0]] + Insert(x, ys[1..], le)
  }

  function Sort<T>(xs: seq<T>, le: (T, T) -> bool): (r: seq<T>)
    ensures multiset(r) == multiset(xs)
  {
    if |xs| == 0 then []
    else
      assert xs == [xs[0]] + xs[1..];
      Insert(xs[0], Sort(xs[1..], le), le)
  }

  lemma SameMembers<T>(xs: seq<T>, le: (T, T) -> bool)
    ensures |Sort(xs, le)| == |xs|
    ensures forall x :: x in Sort(xs, le) <==> x in xs
  {
    var s := Sort(xs, le);
    assert |multiset(s)| == |multiset(xs)|;
    forall x ensures x in s <==> x in xs {
      assert x in multiset(s) <==> x in multiset(xs);
    }
  }

  lemma {:induction false} InsertKeepsDistinct<T, K>(x: T, ys: seq<T>, le: (T, T) -> bool, key: T -> K)
    requires DistinctBy(ys, key) && forall y :: y in ys ==> key(y) != key(x)
    ensures DistinctBy(Insert(x, ys, le), key)
  {
    if |ys| > 0 && !le(x, ys[0]) {
      InsertKeepsDistinct(x, ys[1..], le, key);
      var r := Insert(x, ys[1..], le);
      forall j | 0 <= j < |r| ensures key(r[j]) != key(ys[0]) {
        assert r[j] in multiset(r);
      }
    }
  }

  lemma HeadIsDistinct<T, K>(xs: seq<T>, key: T -> K)
    requires DistinctBy(xs, key) && |xs| > 0
    ensures forall y :: y in xs[1..] ==> key(y) != key(xs[0])
  {
    forall y | y in xs[1..] ensures key(y) != key(xs[0]) {
      var k :| 0 <= k < |xs[1..]| && xs[1..][k] == y;
      assert xs[k + 1] == y;
    }
  }

  /** Sorting leaves keys distinct. */
  lemma {:induction false} SortKeepsDistinct<T, K>(xs: seq<T>, le: (T, T) -> bool, key: T -> K)
    requires DistinctBy(xs, key)
    ensures DistinctBy(Sort(xs, le), key)
  {
    if |xs| > 0 {
      SortKeepsDistinct(xs[1..], le, key);
      HeadIsDistinct(xs, key);
      var rest := Sort(xs[1..], le);
      forall y | y in rest ensures key(y) != key(xs[0]) {
        assert y in multiset(rest);
        assert y in xs[1..];
      }
      InsertKeepsDistinct(xs[0], rest, le, key);
    }
  }

  lemma {:induction false} InsertSorted<T(!new)>(x: T, ys: seq<T>, le: (T, T) -> bool)
    requires TotalPreorder(le) && Sorted(ys, le)
    ensures Sorted(Insert(x, ys, le), le)
  {
    if |ys| > 0 && !le(x, ys[0]) {
      InsertSorted(x, ys[1..], le);
      var r := Insert(x, ys[1..], le);
      forall y | y in r ensures le(ys[0], y) {
        assert y in multiset(r);
      }
    }
  }

  lemma {:induction false} SortSorted<T(!new)>(xs: seq<T>, le: (T, T) -> bool)
    requires TotalPreorder(le)
    ensures Sorted(Sort(xs, le), le)
  {
    if |xs| > 0 {
      SortSorted(xs[1..], le);
      InsertSorted(xs[0], Sort(xs[1..], le), le);
    }
  }

  lemma {:induction false} SortOfSorted<T>(xs: seq<T>, le: (T, T) -> bool)
    requires Sorted(xs, le)
    ensures Sort(xs, le) == xs
  {
    if |xs| > 0 {
      SortOfSorted(xs[1..], le);
    }
  }

  lemma {:induction false} FilterInsert<T(!new)>(x: T, ys: seq<T>, le: (T, T) -> bool, keep: T -> bool)
    requires TotalPreorder(le) && Sorted(ys, le)
    ensures Filter(Insert(x, ys, le), keep)
         == if keep(x) then Insert(x, Filter(ys, keep), le) else Filter(ys, keep)
  {
    if |ys| == 0 {
    } else if le(x, ys[0]) {
      assert ([x] + ys)[1..] == ys;
      var f := Filter(ys, keep);
      if |f| > 0 {
        assert f[0] in ys;
        assert le(ys[0], ys[0]);
        assert le(x, f[0]);
      }
    } else {
      FilterInsert(x, ys[1..], le, keep);
      assert Insert(x, ys, le)[1..] == Insert(x, ys[1..], le);
      if keep(ys[0]) && keep(x) {
        var f := Filter(ys, keep);
        assert f[0] == ys[0] && f[1..] == Filter(ys[1..], keep);
      }
    }
  }

  /** Dropping elements before or after a stable sort gives the same list. */
  lemma {:induction false} SortCommutesWithFilter<T(!new)>(xs: seq<T>, le: (T, T) -> bool, keep: T -> bool)
    requires TotalPreorder(le)
    ensures Filter(Sort(xs, le), keep) == Sort(Filter(xs, keep), le)
  {
    if |xs| > 0 {
      SortCommutesWithFilter(xs[1..], le, keep);
      SortSorted(xs[1..], le);
      FilterInsert(xs[0], Sort(xs[1..], le), le, keep);
      if keep(xs[0]) {
        var f := Filter(xs, keep);
        assert f[0] == xs[0] && f[1..] == Filter(xs[1..], keep);
      }
    }
  }

  /** x's equivalence class under le. */
  function Tie<T>(x: T, le: (T, T) -> bool): T -> bool {
    y => le(x, y) && le(y, x)
  }

  /**
   * A sorted list is determined by the order inside each class of ties, so a sort that keeps
   * that order has only one possible result.
   */
  lemma {:induction false} SortedIsUnique<T(!new)>(xs: seq<T>, ys: seq<T>, le: (T, T) -> bool)
    requires TotalPreorder(le) && Sorted(xs, le) && Sorted(ys, le)
    requires forall x :: Filter(xs, Tie(x, le)) == Filter(ys, Tie(x, le))
    ensures xs == ys
  {
    if |ys| > 0 {
      assert ys[0] in Filter(ys, Tie(ys[0], le));
      assert ys[0] in xs;
    }
    if |xs| > 0 {
      assert xs[0] in Filter(xs, Tie(xs[0], le));
      assert xs[0] in ys;
      assert Tie(xs[0], le)(ys[0]);
      assert Filter(xs, Tie(xs[0], le))[0] == xs[0];
      assert Filter(ys, Tie(xs[0], le))[0] == ys[0];
      forall x ensures Filter(xs[1..], Tie(x, le)) == Filter(ys[1..], Tie(x, le)) {
        assert Filter(xs, Tie(x, le)) == Filter(ys, Tie(x, le));
        if Tie(x, le)(xs[0]) {
          assert Filter(xs, Tie(x, le))[1..] == Filter(xs[1..], Tie(x, le));
          assert Filter(ys, Tie(x, le))[1..] == Filter(ys[1..], Tie(x, le));
        }
      }
      SortedIsUnique(xs[1..], ys[1..], le);
    }
  }

  /** Two lists with the same order inside each class of ties sort to the same list. */
  lemma SortDependsOnTies<T(!new)>(xs: seq<T>, ys: seq<T>, le: (T, T) -> bool)
    requires TotalPreorder(le)
    requires forall x :: Filter(xs, Tie(x, le)) == Filter(ys, Tie(x, le))
    ensures Sort(xs, le) == Sort(ys, le)
  {
    SortSorted(xs, le);
    SortSorted(ys, le);
    forall x ensures Filter(Sort(xs, le), Tie(x, le)) == Filter(Sort(ys, le), Tie(x, le)) {
      SortCommutesWithFilter(xs, le, Tie(x, le));
      SortCommutesWithFilter(ys, le, Tie(x, le));
    }
    SortedIsUnique(Sort(xs, le), Sort(ys, le), le);
  }
}
