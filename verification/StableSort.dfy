/** The stable sort of the source's runtime, as a function of a comparison. */
module StableSort {

  /** Not less in one direction chains, and nothing is less both ways: a strict weak order. */
  ghost predicate WeakOrder<T(!new)>(less: (T, T) -> bool) {
    && (forall a, b :: !(less(a, b) && less(b, a)))
    && (forall a, b, c :: !less(b, a) && !less(c, b) ==> !less(c, a))
  }

  ghost predicate Sorted<T(!new)>(xs: seq<T>, less: (T, T) -> bool) {
    forall i, j :: 0 <= i < j < |xs| ==> !less(xs[j], xs[i])
  }

  /** Inserts behind the elements that are not greater, so that equal elements keep their order. */
  function Insert<T>(xs: seq<T>, x: T, less: (T, T) -> bool): seq<T> {
    if xs != [] && less(x, xs[|xs| - 1]) then Insert(xs[..|xs| - 1], x, less) + [xs[|xs| - 1]] else xs + [x]
  }

  function Sort<T>(xs: seq<T>, less: (T, T) -> bool): seq<T> {
    if xs == [] then [] else Insert(Sort(xs[..|xs| - 1], less), xs[|xs| - 1], less)
  }

  lemma {:induction false} InsertAdds<T>(xs: seq<T>, x: T, less: (T, T) -> bool)
    ensures multiset(Insert(xs, x, less)) == multiset(xs + [x])
  {
    if xs != [] && less(x, xs[|xs| - 1]) {
      var init, last := xs[..|xs| - 1], xs[|xs| - 1];
      assert xs == init + [last];
      InsertAdds(init, x, less);
    }
  }

  lemma {:induction false} InsertSorts<T(!new)>(xs: seq<T>, x: T, less: (T, T) -> bool)
    requires WeakOrder(less) && Sorted(xs, less)
    ensures Sorted(Insert(xs, x, less), less)
  {
    if xs != [] && less(x, xs[|xs| - 1]) {
      var init, last := xs[..|xs| - 1], xs[|xs| - 1];
      InsertSorts(init, x, less);
      InsertAdds(init, x, less);
      SameElements(Insert(init, x, less), init + [x]);
      forall y | y in Insert(init, x, less) ensures !less(last, y) {
        assert y == x || y in init;
      }
    } else {
      forall i | 0 <= i < |xs| ensures !less(x, xs[i]) {
        assert i < |xs| - 1 ==> !less(xs[|xs| - 1], xs[i]);
      }
    }
  }

  lemma {:induction false} SortPermutes<T>(xs: seq<T>, less: (T, T) -> bool)
    ensures multiset(Sort(xs, less)) == multiset(xs)
  {
    if xs != [] {
      var init, last := xs[..|xs| - 1], xs[|xs| - 1];
      var sorted := Sort(init, less);
      SortPermutes(init, less);
      InsertAdds(sorted, last, less);
      assert Sort(xs, less) == Insert(sorted, last, less);
      assert multiset(sorted + [last]) == multiset(init + [last]);
      assert xs == init + [last];
    }
  }

  /** The result is ordered and holds the same elements. */
  lemma {:induction false} SortSorts<T(!new)>(xs: seq<T>, less: (T, T) -> bool)
    requires WeakOrder(less)
    ensures Sorted(Sort(xs, less), less) && multiset(Sort(xs, less)) == multiset(xs)
  {
    SortPermutes(xs, less);
    if xs != [] {
      SortSorts(xs[..|xs| - 1], less);
      InsertSorts(Sort(xs[..|xs| - 1], less), xs[|xs| - 1], less);
    }
  }

  predicate Equal<T>(less: (T, T) -> bool, x: T, y: T) {
    !less(x, y) && !less(y, x)
  }

  /** The elements that are equal to `x`, in their order. */
  function Alike<T>(xs: seq<T>, x: T, less: (T, T) -> bool): seq<T> {
    if xs == [] then []
    else Alike(xs[..|xs| - 1], x, less) + if Equal(less, xs[|xs| - 1], x) then [xs[|xs| - 1]] else []
  }

  lemma AlikeOfOneMore<T>(xs: seq<T>, y: T, x: T, less: (T, T) -> bool)
    ensures Alike(xs + [y], x, less) == Alike(xs, x, less) + if Equal(less, y, x) then [y] else []
  {
    assert (xs + [y])[..|xs|] == xs;
  }

  lemma {:induction false} InsertIsStable<T(!new)>(xs: seq<T>, y: T, x: T, less: (T, T) -> bool)
    requires WeakOrder(less)
    ensures Alike(Insert(xs, y, less), x, less) == Alike(xs + [y], x, less)
  {
    if xs != [] && less(y, xs[|xs| - 1]) {
      var init, last := xs[..|xs| - 1], xs[|xs| - 1];
      InsertIsStable(init, y, x, less);
      AlikeOfOneMore(Insert(init, y, less), last, x, less);
      AlikeOfOneMore(init, y, x, less);
      AlikeOfOneMore(xs, y, x, less);
    }
  }

  /** Elements that are equal keep their order. */
  lemma {:induction false} SortIsStable<T(!new)>(xs: seq<T>, x: T, less: (T, T) -> bool)
    requires WeakOrder(less)
    ensures Alike(Sort(xs, less), x, less) == Alike(xs, x, less)
  {
    if xs != [] {
      var init, last := xs[..|xs| - 1], xs[|xs| - 1];
      SortIsStable(init, x, less);
      InsertIsStable(Sort(init, less), last, x, less);
      AlikeOfOneMore(Sort(init, less), last, x, less);
    }
  }

  lemma SameElements<T>(a: seq<T>, b: seq<T>)
    requires multiset(a) == multiset(b)
    ensures |a| == |b| && forall x :: x in a <==> x in b
  {
    assert |multiset(a)| == |a| && |multiset(b)| == |b|;
    forall x ensures x in a <==> x in b {
      assert x in a <==> x in multiset(a);
      assert x in b <==> x in multiset(b);
    }
  }
}
