// Go's `<=` on strings, and sorting by a total preorder (sort.Slice / sort.Strings). Which algorithm sorts is
// not modelled: for a preorder that tells different elements apart the sorted list is the only one with its
// elements, so any algorithm gives the same; where ties are possible no contract here says how they are broken.

module Order {
  import Sorting

  /** Byte-wise comparison of strings. Code-point order and UTF-8 byte order coincide. */
  predicate Leq(a: string, b: string)
  {
    a == [] || (b != [] && (a[0] < b[0] || (a[0] == b[0] && Leq(a[1..], b[1..]))))
  }

  predicate Less(a: string, b: string)
  {
    Leq(a, b) && a != b
  }

  lemma {:induction false} LeqReflexive(a: string)
    ensures Leq(a, a)
  {
    if a != [] { LeqReflexive(a[1..]); }
  }

  lemma {:induction false} LeqTotal(a: string, b: string)
    ensures Leq(a, b) || Leq(b, a)
  {
    if a != [] && b != [] { LeqTotal(a[1..], b[1..]); }
  }

  lemma {:induction false} LeqAntisymmetric(a: string, b: string)
    requires Leq(a, b) && Leq(b, a)
    ensures a == b
  {
    if a != [] && b != [] {
      LeqAntisymmetric(a[1..], b[1..]);
      assert a == [a[0]] + a[1..] && b == [b[0]] + b[1..];
    }
  }

  lemma {:induction false} LeqTransitive(a: string, b: string, c: string)
    requires Leq(a, b) && Leq(b, c)
    ensures Leq(a, c)
  {
    if a != [] && a[0] == b[0] && b[0] == c[0] {
      LeqTransitive(a[1..], b[1..], c[1..]);
    }
  }

  lemma LeqIsTotalOrder()
    ensures Sorting.TotalPreorder(Leq)
    ensures Sorting.Antisymmetric(Leq)
  {
    forall a, b ensures Leq(a, b) || Leq(b, a) { LeqTotal(a, b); }
    forall a, b, c | Leq(a, b) && Leq(b, c) ensures Leq(a, c) { LeqTransitive(a, b, c); }
    forall a, b | Leq(a, b) && Leq(b, a) ensures a == b { LeqAntisymmetric(a, b); }
  }

  /** sort.Strings. */
  function SortStrings(xs: seq<string>): (r: seq<string>)
    ensures multiset(r) == multiset(xs)
    ensures Sorting.Sorted(r, Leq)
  {
    LeqIsTotalOrder();
    Sorting.Sort(xs, Leq)
  }

  ghost predicate StrictlySorted(xs: seq<string>)
  {
    forall i, j | 0 <= i < j < |xs| :: Less(xs[i], xs[j])
  }

  /** The keys of a Go map used as a set, collected in any order and sorted. */
  method SortedKeys(s: set<string>) returns (r: seq<string>)
    ensures StrictlySorted(r)
    ensures forall x :: x in r <==> x in s
  {
    r := [];
    var todo := s;
    while todo != {}
      invariant todo <= s && Sorting.Distinct(r)
      invariant forall x :: x in r <==> x in s - todo
      decreases todo
    {
      var x :| x in todo;
      assert x !in r;
      r := r + [x];
      todo := todo - {x};
    }
    ghost var unsorted := r;
    r := SortStrings(r);
    Sorting.PermutationKeepsDistinct(unsorted, r);
  }

  lemma StrictlySortedUnique(xs: seq<string>, ys: seq<string>)
    requires StrictlySorted(xs) && StrictlySorted(ys)
    requires forall x :: x in xs <==> x in ys
    ensures xs == ys
  {
    LeqIsTotalOrder();
    Sorting.SameElements(xs, ys);
    Sorting.SortedUnique(xs, ys, Leq);
  }
}

module Sorting {

  ghost predicate TotalPreorder<T(!new)>(leq: (T, T) -> bool) {
    && (forall x, y :: leq(x, y) || leq(y, x))
    && (forall x, y, z :: leq(x, y) && leq(y, z) ==> leq(x, z))
  }

  ghost predicate Antisymmetric<T(!new)>(leq: (T, T) -> bool) {
    forall x, y :: leq(x, y) && leq(y, x) ==> x == y
  }

  ghost predicate Sorted<T>(xs: seq<T>, leq: (T, T) -> bool) {
    forall i, j | 0 <= i < j < |xs| :: leq(xs[i], xs[j])
  }

  function Insert<T(!new)>(x: T, xs: seq<T>, leq: (T, T) -> bool): (r: seq<T>)
    ensures multiset(r) == multiset(xs) + multiset{x}
  {
    if xs == [] || leq(x, xs[0]) then [x] + xs
    else
      assert xs == [xs[0]] + xs[1..];
      [xs[0]] + Insert(x, xs[1..], leq)
  }

  lemma {:induction false} InsertKeepsSorted<T(!new)>(x: T, xs: seq<T>, leq: (T, T) -> bool)
    requires TotalPreorder(leq) && Sorted(xs, leq)
    ensures Sorted(Insert(x, xs, leq), leq)
  {
    if xs != [] && !leq(x, xs[0]) {
      var rest := Insert(x, xs[1..], leq);
      InsertKeepsSorted(x, xs[1..], leq);
      forall j | 0 <= j < |rest| ensures leq(xs[0], rest[j]) {
        assert rest[j] in multiset(rest);
        assert rest[j] == x || rest[j] in xs[1..];
      }
    }
  }

  function Sort<T(!new)>(xs: seq<T>, leq: (T, T) -> bool): (r: seq<T>)
    requires TotalPreorder(leq)
    ensures multiset(r) == multiset(xs)
    ensures Sorted(r, leq)
  {
    if xs == [] then []
    else
      assert xs == [xs[0]] + xs[1..];
      InsertKeepsSorted(xs[0], Sort(xs[1..], leq), leq);
      Insert(xs[0], Sort(xs[1..], leq), leq)
  }

  lemma RemoveAt<T>(xs: seq<T>, i: nat)
    requires i < |xs|
    ensures multiset(xs[..i] + xs[i + 1..]) == multiset(xs) - multiset{xs[i]}
  {
    assert xs == xs[..i] + [xs[i]] + xs[i + 1..];
  }

  lemma IndexOf<T>(xs: seq<T>, x: T) returns (i: nat)
    requires x in multiset(xs)
    ensures i < |xs| && xs[i] == x
  {
    i :| 0 <= i < |xs| && xs[i] == x;
  }

  /** Two duplicate-free sequences with the same elements are arrangements of each other. */
  lemma SameElements<T>(xs: seq<T>, ys: seq<T>)
    requires Distinct(xs) && Distinct(ys) && forall x :: x in xs <==> x in ys
    ensures multiset(xs) == multiset(ys)
  {
    forall x ensures multiset(xs)[x] == multiset(ys)[x] {
      DistinctCounts(xs, x);
      DistinctCounts(ys, x);
      assert x in xs <==> x in ys;
      assert (x in xs <==> x in multiset(xs)) && (x in ys <==> x in multiset(ys));
    }
  }

  lemma TailElements<T>(xs: seq<T>)
    requires xs != []
    ensures multiset(xs[1..]) == multiset(xs) - multiset{xs[0]}
  {
    assert xs == [xs[0]] + xs[1..];
  }

  lemma SameHead<T(!new)>(xs: seq<T>, ys: seq<T>, leq: (T, T) -> bool)
    requires TotalPreorder(leq) && Antisymmetric(leq)
    requires Sorted(xs, leq) && Sorted(ys, leq) && multiset(xs) == multiset(ys) && xs != [] && ys != []
    ensures xs[0] == ys[0]
  {
    assert xs[0] in multiset(ys) && ys[0] in multiset(xs);
    var i := IndexOf(ys, xs[0]);
    var j := IndexOf(xs, ys[0]);
    assert leq(xs[0], xs[j]) && leq(ys[0], ys[i]);
  }

  /** A sorted arrangement is determined by its elements when the order is antisymmetric. */
  lemma {:induction false} SortedUnique<T(!new)>(xs: seq<T>, ys: seq<T>, leq: (T, T) -> bool)
    requires TotalPreorder(leq) && Antisymmetric(leq)
    requires Sorted(xs, leq) && Sorted(ys, leq) && multiset(xs) == multiset(ys)
    ensures xs == ys
  {
    assert |xs| == |multiset(xs)| == |multiset(ys)| == |ys|;
    if xs != [] {
      SameHead(xs, ys, leq);
      TailElements(xs);
      TailElements(ys);
      SortedUnique(xs[1..], ys[1..], leq);
    }
  }

  ghost predicate Distinct<T>(xs: seq<T>) {
    forall i, j | 0 <= i < j < |xs| :: xs[i] != xs[j]
  }

  lemma {:induction false} DistinctCounts<T>(xs: seq<T>, x: T)
    requires Distinct(xs)
    ensures multiset(xs)[x] <= 1
  {
    if xs != [] {
      DistinctCounts(xs[1..], x);
      assert xs == [xs[0]] + xs[1..];
      if x == xs[0] { assert x !in xs[1..]; }
    }
  }

  lemma PermutationKeepsDistinct<T>(xs: seq<T>, ys: seq<T>)
    requires Distinct(xs) && multiset(xs) == multiset(ys)
    ensures Distinct(ys)
    ensures forall x :: x in xs <==> x in ys
  {
    forall x ensures x in xs <==> x in ys { assert x in multiset(xs) <==> x in multiset(ys); }
    forall i, j | 0 <= i < j < |ys| ensures ys[i] != ys[j] {
      DistinctCounts(xs, ys[j]);
      assert ys == ys[..j] + ys[j..];
      assert multiset(ys) == multiset(ys[..j]) + multiset(ys[j..]);
      assert ys[i] == ys[..j][i] && ys[j] == ys[j..][0];
      assert ys[i] in multiset(ys[..j]) && ys[j] in multiset(ys[j..]);
    }
  }

  ghost predicate StrictOrder<T(!new)>(less: (T, T) -> bool) {
    (forall x, y :: !(less(x, y) && less(y, x))) && (forall x, y, z :: less(x, y) && less(y, z) ==> less(x, z))
  }

  ghost predicate Ascending<T>(xs: seq<T>, less: (T, T) -> bool) {
    forall i, j | 0 <= i < j < |xs| :: less(xs[i], xs[j])
  }

  lemma SameFirst<T(!new)>(xs: seq<T>, ys: seq<T>, less: (T, T) -> bool)
    requires StrictOrder(less) && Ascending(xs, less) && Ascending(ys, less) && xs != [] && ys != []
    requires forall x :: x in xs <==> x in ys
    ensures xs[0] == ys[0]
  {
    assert xs[0] in ys && ys[0] in xs;
    var i :| 0 <= i < |ys| && ys[i] == xs[0];
    var j :| 0 <= j < |xs| && xs[j] == ys[0];
    assert i > 0 ==> less(ys[0], xs[0]);
    assert j > 0 ==> less(xs[0], ys[0]);
  }

  lemma FirstIsNotLater<T(!new)>(xs: seq<T>, less: (T, T) -> bool, x: T)
    requires StrictOrder(less) && Ascending(xs, less) && xs != []
    ensures x in xs[1..] <==> x in xs && x != xs[0]
  {
    if x in xs[1..] {
      var i :| 0 <= i < |xs[1..]| && xs[1..][i] == x;
      assert less(xs[0], xs[i + 1]);
    }
  }

  /** An ascending arrangement is determined by its elements. */
  lemma {:induction false} AscendingUnique<T(!new)>(xs: seq<T>, ys: seq<T>, less: (T, T) -> bool)
    requires StrictOrder(less) && Ascending(xs, less) && Ascending(ys, less)
    requires forall x :: x in xs <==> x in ys
    ensures xs == ys
  {
    assert xs != [] ==> xs[0] in xs;
    assert ys != [] ==> ys[0] in ys;
    if xs != [] && ys != [] {
      SameFirst(xs, ys, less);
      forall x ensures x in xs[1..] <==> x in ys[1..] {
        FirstIsNotLater(xs, less, x);
        FirstIsNotLater(ys, less, x);
      }
      AscendingUnique(xs[1..], ys[1..], less);
    }
  }

  /** A sorted arrangement of different elements ascends, where the preorder ties none of them. */
  lemma SortedAscends<T(!new)>(xs: seq<T>, r: seq<T>, leq: (T, T) -> bool, less: (T, T) -> bool)
    requires Distinct(xs) && multiset(r) == multiset(xs) && Sorted(r, leq)
    requires forall x, y | x in xs && y in xs && x != y && leq(x, y) :: less(x, y)
    ensures Ascending(r, less) && forall x :: x in r <==> x in xs
  {
    PermutationKeepsDistinct(xs, r);
    forall i, j | 0 <= i < j < |r| ensures less(r[i], r[j]) {
      assert r[i] in xs && r[j] in xs && r[i] != r[j];
    }
  }
}
