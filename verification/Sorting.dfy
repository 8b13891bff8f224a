/** `Array.prototype.sort` with a comparator: the stable sorted permutation. */
module Sorting {

  type Comparator<!T> = (T, T) -> int

  /** A comparator that orders everything, ties included. */
  ghost predicate TotalPreorder<T(!new)>(cmp: Comparator<T>) {
    && (forall a, b :: cmp(a, b) <= 0 || cmp(b, a) <= 0)
    && (forall a, b, c :: cmp(a, b) <= 0 && cmp(b, c) <= 0 ==> cmp(a, c) <= 0)
  }

  ghost predicate Sorted<T(!new)>(xs: seq<T>, cmp: Comparator<T>) {
    forall i, j :: 0 <= i < j < |xs| ==> cmp(xs[i], xs[j]) <= 0
  }

  function Insert<T>(x: T, ys: seq<T>, cmp: Comparator<T>): (r: seq<T>)
    ensures multiset(r) == multiset([x]) + multiset(ys)
  {
    if ys == [] || cmp(x, ys[0]) <= 0 then [x] + ys
    else
      assert ys == [ys[0]] + ys[1..];
      [ys[0]] + Insert(x, ys[1..], cmp)
  }

  function Sort<T>(xs: seq<T>, cmp: Comparator<T>): (r: seq<T>)
    ensures multiset(r) == multiset(xs)
  {
    if xs == [] then []
    else
      assert xs == [xs[0]] + xs[1..];
      Insert(xs[0], Sort(xs[1..], cmp), cmp)
  }

  lemma {:induction false} InsertMembers<T>(x: T, ys: seq<T>, cmp: Comparator<T>)
    ensures forall y :: y in Insert(x, ys, cmp) <==> y == x || y in ys
  {
    assert forall y :: y in Insert(x, ys, cmp) <==> y in multiset(Insert(x, ys, cmp));
  }

  lemma SortMembers<T>(xs: seq<T>, cmp: Comparator<T>)
    ensures |Sort(xs, cmp)| == |xs| && forall y :: y in Sort(xs, cmp) <==> y in xs
  {
    assert |multiset(Sort(xs, cmp))| == |multiset(xs)|;
    assert forall y :: y in Sort(xs, cmp) <==> y in multiset(Sort(xs, cmp));
  }

  lemma {:induction false} InsertSorts<T(!new)>(x: T, ys: seq<T>, cmp: Comparator<T>)
    requires TotalPreorder(cmp) && Sorted(ys, cmp)
    ensures Sorted(Insert(x, ys, cmp), cmp)
  {
    if ys != [] && cmp(x, ys[0]) > 0 {
      InsertSorts(x, ys[1..], cmp);
      InsertMembers(x, ys[1..], cmp);
      var r := Insert(x, ys[1..], cmp);
      forall j | 0 <= j < |r| ensures cmp(ys[0], r[j]) <= 0 {
        assert r[j] in r;
      }
    }
  }

  lemma {:induction false} SortSorts<T(!new)>(xs: seq<T>, cmp: Comparator<T>)
    requires TotalPreorder(cmp)
    ensures Sorted(Sort(xs, cmp), cmp)
  {
    if xs != [] {
      SortSorts(xs[1..], cmp);
      InsertSorts(xs[0], Sort(xs[1..], cmp), cmp);
    }
  }

  ghost predicate Pairwise<T(!new)>(xs: seq<T>, rel: (T, T) -> bool) {
    forall i, j :: 0 <= i < j < |xs| ==> rel(xs[i], xs[j])
  }

  lemma {:induction false} InsertPairwise<T(!new)>(x: T, ys: seq<T>, cmp: Comparator<T>, rel: (T, T) -> bool)
    requires forall a, b :: rel(a, b) ==> rel(b, a)
    requires Pairwise(ys, rel) && forall y :: y in ys ==> rel(x, y)
    ensures Pairwise(Insert(x, ys, cmp), rel)
  {
    if ys != [] && cmp(x, ys[0]) > 0 {
      InsertPairwise(x, ys[1..], cmp, rel);
      InsertMembers(x, ys[1..], cmp);
      var r := Insert(x, ys[1..], cmp);
      forall j | 0 <= j < |r| ensures rel(ys[0], r[j]) {
        assert r[j] in r;
      }
    }
  }

  /** Sorting keeps what holds of every two elements, whatever their order. */
  lemma {:induction false} SortPairwise<T(!new)>(xs: seq<T>, cmp: Comparator<T>, rel: (T, T) -> bool)
    requires forall a, b :: rel(a, b) ==> rel(b, a)
    requires Pairwise(xs, rel)
    ensures Pairwise(Sort(xs, cmp), rel)
  {
    if xs != [] {
      SortPairwise(xs[1..], cmp, rel);
      SortMembers(xs[1..], cmp);
      InsertPairwise(xs[0], Sort(xs[1..], cmp), cmp, rel);
    }
  }
}
