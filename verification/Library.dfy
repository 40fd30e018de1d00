/** What the standard library does for the components: ranging over the keys of a map, in no
    particular order, and sorting by a strict order. */
module Library {
  predicate Distinct<T(==)>(xs: seq<T>) { forall i, j :: 0 <= i < j < |xs| ==> xs[i] != xs[j] }

  lemma SomeIn<T>(s: set<T>)
    requires s != {}
    ensures exists x :: x in s
  {
  }

  /** The keys of a map in the order they are ranged over. */
  method RangeKeys<K(==)>(keys: set<K>) returns (ks: seq<K>)
    ensures Distinct(ks) && forall k :: k in ks <==> k in keys
  {
    ks := [];
    var left := keys;
    while left != {}
      invariant left <= keys && Distinct(ks) && forall k :: k in ks <==> k in keys && k !in left
      decreases |left|
    {
      SomeIn(left);
      var k :| k in left;
      ks, left := ks + [k], left - {k};
    }
  }

  predicate Ordered<T>(xs: seq<T>, less: (T, T) -> bool) { forall i, j :: 0 <= i < j < |xs| ==> less(xs[i], xs[j]) }

  /** A strict order that is total on the given elements. */
  ghost predicate Orders<T(!new)>(less: (T, T) -> bool, xs: seq<T>) {
    && (forall a, b, c :: less(a, b) && less(b, c) ==> less(a, c))
    && (forall i, j :: 0 <= i < j < |xs| ==> less(xs[i], xs[j]) || less(xs[j], xs[i]))
  }

  function Insert<T>(xs: seq<T>, x: T, less: (T, T) -> bool): seq<T> {
    if xs == [] || less(x, xs[0]) then [x] + xs else [xs[0]] + Insert(xs[1..], x, less)
  }

  function Sort<T>(xs: seq<T>, less: (T, T) -> bool): seq<T> {
    if xs == [] then [] else Insert(Sort(xs[1..], less), xs[0], less)
  }

  lemma {:induction false} InsertKeeps<T>(xs: seq<T>, x: T, less: (T, T) -> bool)
    ensures forall y :: y in Insert(xs, x, less) <==> y == x || y in xs
  {
    if xs != [] && !less(x, xs[0]) {
      InsertKeeps(xs[1..], x, less);
      assert xs == [xs[0]] + xs[1..];
    }
  }

  lemma {:induction false} InsertOrders<T(!new)>(xs: seq<T>, x: T, less: (T, T) -> bool)
    requires Ordered(xs, less) && (forall a, b, c :: less(a, b) && less(b, c) ==> less(a, c))
    requires forall y :: y in xs ==> less(x, y) || less(y, x)
    ensures Ordered(Insert(xs, x, less), less)
  {
    if xs != [] && !less(x, xs[0]) {
      var rest := Insert(xs[1..], x, less);
      InsertOrders(xs[1..], x, less);
      InsertKeeps(xs[1..], x, less);
      forall j | 0 <= j < |rest| ensures less(xs[0], rest[j]) {
        assert rest[j] in rest;
      }
    }
  }

  /** Sorting keeps the elements and puts them in order. */
  lemma {:induction false} SortSorts<T(!new)>(xs: seq<T>, less: (T, T) -> bool)
    requires Orders(less, xs)
    ensures Ordered(Sort(xs, less), less)
    ensures forall y :: y in Sort(xs, less) <==> y in xs
  {
    if xs != [] {
      SortSorts(xs[1..], less);
      InsertKeeps(Sort(xs[1..], less), xs[0], less);
      InsertOrders(Sort(xs[1..], less), xs[0], less);
      assert xs == [xs[0]] + xs[1..];
    }
  }

  /** A strict order in which elements may be tied. */
  ghost predicate IsWeakOrder<T(!new)>(less: (T, T) -> bool) {
    && (forall a, b :: less(a, b) ==> !less(b, a))
    && (forall a, b, c :: less(a, b) && !less(c, b) ==> less(a, c))
  }

  predicate WeaklyOrdered<T>(xs: seq<T>, less: (T, T) -> bool) {
    forall i, j :: 0 <= i < j < |xs| ==> !less(xs[j], xs[i])
  }

  lemma {:induction false} InsertPermutes<T>(xs: seq<T>, x: T, less: (T, T) -> bool)
    ensures multiset(Insert(xs, x, less)) == multiset(xs) + multiset{x}
  {
    if xs != [] && !less(x, xs[0]) {
      InsertPermutes(xs[1..], x, less);
      assert xs == [xs[0]] + xs[1..];
    }
  }

  lemma {:induction false} InsertOrdersWeakly<T(!new)>(xs: seq<T>, x: T, less: (T, T) -> bool)
    requires WeaklyOrdered(xs, less) && IsWeakOrder(less)
    ensures WeaklyOrdered(Insert(xs, x, less), less)
  {
    if xs != [] && !less(x, xs[0]) {
      var rest := Insert(xs[1..], x, less);
      InsertOrdersWeakly(xs[1..], x, less);
      InsertKeeps(xs[1..], x, less);
      forall j | 0 <= j < |rest| ensures !less(rest[j], xs[0]) {
        assert rest[j] in rest;
      }
    }
  }

  /** With ties, sorting still permutes, and puts nothing before what it comes after. */
  lemma {:induction false} SortSortsWeakly<T(!new)>(xs: seq<T>, less: (T, T) -> bool)
    requires IsWeakOrder(less)
    ensures WeaklyOrdered(Sort(xs, less), less) && multiset(Sort(xs, less)) == multiset(xs)
  {
    if xs != [] {
      SortSortsWeakly(xs[1..], less);
      InsertPermutes(Sort(xs[1..], less), xs[0], less);
      InsertOrdersWeakly(Sort(xs[1..], less), xs[0], less);
      assert xs == [xs[0]] + xs[1..];
    }
  }

  lemma SameElements<T>(xs: seq<T>, ys: seq<T>)
    requires multiset(xs) == multiset(ys)
    ensures |xs| == |ys| && forall x :: x in xs <==> x in ys
  {
    forall x ensures x in xs <==> x in ys {
      assert x in xs <==> x in multiset(xs);
      assert x in ys <==> x in multiset(ys);
    }
    assert |multiset(xs)| == |xs| && |multiset(ys)| == |ys|;
  }

  predicate DistinctKeys<T, K(==)>(xs: seq<T>, key: T -> K) {
    forall i, j :: 0 <= i < j < |xs| ==> key(xs[i]) != key(xs[j])
  }

  /** A permutation of elements with distinct keys has distinct keys. */
  lemma PermutedKeys<T(!new), K(!new)>(xs: seq<T>, ys: seq<T>, key: T -> K)
    requires multiset(xs) == multiset(ys) && DistinctKeys(xs, key)
    ensures DistinctKeys(ys, key)
  {
    SameElements(xs, ys);
    forall i, j | 0 <= i < j < |ys| ensures key(ys[i]) != key(ys[j]) {
      if key(ys[i]) == key(ys[j]) {
        assert ys[i] in xs && ys[j] in xs;
        var p :| 0 <= p < |xs| && xs[p] == ys[i];
        var q :| 0 <= q < |xs| && xs[q] == ys[j];
        assert p == q;
        Twice(ys, i, j);
        Once(xs, p, key);
      }
    }
  }

  lemma Twice<T>(xs: seq<T>, i: nat, j: nat)
    requires i < j < |xs| && xs[i] == xs[j]
    ensures multiset(xs)[xs[i]] >= 2
  {
    assert xs == xs[..j] + xs[j..];
    assert xs[..j][i] == xs[i] && xs[j..][0] == xs[j];
    assert multiset(xs) == multiset(xs[..j]) + multiset(xs[j..]);
    assert xs[i] in xs[..j] && xs[i] in xs[j..];
  }

  lemma Once<T, K>(xs: seq<T>, p: nat, key: T -> K)
    requires p < |xs| && DistinctKeys(xs, key)
    ensures multiset(xs)[xs[p]] == 1
  {
    assert xs == xs[..p] + [xs[p]] + xs[p + 1..];
    assert multiset(xs) == multiset(xs[..p]) + multiset{xs[p]} + multiset(xs[p + 1..]);
    assert xs[p] !in xs[..p] && xs[p] !in xs[p + 1..];
  }
}
