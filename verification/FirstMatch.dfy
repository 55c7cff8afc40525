// Editing the first element of a list that satisfies a test: replace it, drop all such elements, count them.
// The breadcrumb injector does the first to the lines of a frontmatter block, StripBreadcrumb the second, and
// the rate limiter counts the entries of a log; the laws are stated for any list and any test.

module FirstMatch {

  predicate Any<T>(xs: seq<T>, p: T -> bool)
  {
    exists i :: 0 <= i < |xs| && p(xs[i])
  }

  function ReplaceFirst<T>(xs: seq<T>, p: T -> bool, f: T -> T): seq<T>
  {
    if xs == [] then []
    else if p(xs[0]) then [f(xs[0])] + xs[1..]
    else [xs[0]] + ReplaceFirst(xs[1..], p, f)
  }

  function Without<T>(xs: seq<T>, p: T -> bool): seq<T>
  {
    if xs == [] then [] else (if p(xs[0]) then [] else [xs[0]]) + Without(xs[1..], p)
  }

  function Count<T>(xs: seq<T>, p: T -> bool): nat
  {
    if xs == [] then 0 else (if p(xs[0]) then 1 else 0) + Count(xs[1..], p)
  }

  /** What follows position k; nothing when k is past the end. */
  function After<T>(xs: seq<T>, k: nat): seq<T>
  {
    if k < |xs| then xs[k + 1..] else []
  }

  lemma AnyStep<T>(xs: seq<T>, p: T -> bool)
    requires xs != []
    ensures Any(xs, p) <==> p(xs[0]) || Any(xs[1..], p)
  {
    if Any(xs, p) && !p(xs[0]) {
      var j :| 0 <= j < |xs| && p(xs[j]);
      assert p(xs[1..][j - 1]);
    }
    if Any(xs[1..], p) {
      var j :| 0 <= j < |xs[1..]| && p(xs[1..][j]);
      assert p(xs[j + 1]);
    }
  }

  lemma AnyAppend<T>(xs: seq<T>, x: T, p: T -> bool)
    ensures Any(xs + [x], p) <==> Any(xs, p) || p(x)
  {
    var all := xs + [x];
    if Any(all, p) {
      var j :| 0 <= j < |all| && p(all[j]);
      assert j < |xs| ==> p(xs[j]);
    }
    if Any(xs, p) {
      var j :| 0 <= j < |xs| && p(xs[j]);
      assert p(all[j]);
    }
    assert all[|xs|] == x;
  }

  /** Some element matches: here is the first. */
  lemma {:induction false} First<T>(xs: seq<T>, p: T -> bool) returns (k: nat)
    requires Any(xs, p)
    ensures k < |xs| && p(xs[k]) && !Any(xs[..k], p)
  {
    AnyStep(xs, p);
    if p(xs[0]) { k := 0; } else {
      var m := First(xs[1..], p);
      k := m + 1;
      AnyStep(xs[..k], p);
      assert xs[..k][1..] == xs[1..][..m];
    }
  }

  /** Two positions that are both first are the same one. */
  lemma FirstUnique<T>(xs: seq<T>, p: T -> bool, j: nat, k: nat)
    requires j <= |xs| && k <= |xs| && !Any(xs[..j], p) && !Any(xs[..k], p)
    requires (j < |xs| ==> p(xs[j])) && (k < |xs| ==> p(xs[k]))
    ensures j == k
  {
    assert forall i | 0 <= i < k :: !p(xs[..k][i]);
    assert forall i | 0 <= i < k :: !p(xs[i]);
    assert forall i | 0 <= i < j :: !p(xs[..j][i]);
    assert forall i | 0 <= i < j :: !p(xs[i]);
  }

  lemma {:induction false} ReplaceAt<T>(head: seq<T>, x: T, tail: seq<T>, p: T -> bool, f: T -> T)
    requires !Any(head, p) && p(x)
    ensures ReplaceFirst(head + [x] + tail, p, f) == head + [f(x)] + tail
    ensures Any(head + [x] + tail, p)
  {
    var all := head + [x] + tail;
    assert all[|head|] == x;
    if head == [] {
      assert all[1..] == tail;
    } else {
      AnyStep(head, p);
      ReplaceAt(head[1..], x, tail, p, f);
      assert all[1..] == head[1..] + [x] + tail;
    }
  }

  lemma SplitAt<T>(xs: seq<T>, k: nat)
    requires k <= |xs|
    ensures k < |xs| ==> xs == xs[..k] + [xs[k]] + After(xs, k)
    ensures k == |xs| ==> xs == xs[..k] && After(xs, k) == []
  {
  }

  lemma {:induction false} WithoutConcat<T>(a: seq<T>, b: seq<T>, p: T -> bool)
    ensures Without(a + b, p) == Without(a, p) + Without(b, p)
  {
    if a == [] { assert a + b == b; } else {
      assert (a + b)[1..] == a[1..] + b;
      WithoutConcat(a[1..], b, p);
    }
  }

  lemma {:induction false} CountConcat<T>(a: seq<T>, b: seq<T>, p: T -> bool)
    ensures Count(a + b, p) == Count(a, p) + Count(b, p)
  {
    if a == [] { assert a + b == b; } else {
      assert (a + b)[1..] == a[1..] + b;
      CountConcat(a[1..], b, p);
    }
  }

  lemma WithoutAround<T>(head: seq<T>, x: T, tail: seq<T>, p: T -> bool)
    requires p(x)
    ensures Without(head + [x] + tail, p) == Without(head, p) + Without(tail, p)
    ensures Count(head + [x] + tail, p) == Count(head, p) + 1 + Count(tail, p)
  {
    WithoutConcat(head + [x], tail, p);
    WithoutConcat(head, [x], p);
    CountConcat(head + [x], tail, p);
    CountConcat(head, [x], p);
    assert Without([x], p) == [] && Without(head, p) + [] == Without(head, p) && Count([x], p) == 1;
  }

  /** Putting a match in place of the first match, or at the end, changes nothing that Without keeps. */
  lemma WithoutSwap<T>(xs: seq<T>, k: nat, x: T, p: T -> bool)
    requires k <= |xs| && p(x) && (k < |xs| ==> p(xs[k]))
    ensures Without(xs[..k] + [x] + After(xs, k), p) == Without(xs, p)
    ensures Count(xs[..k] + [x] + After(xs, k), p) == if k < |xs| then Count(xs, p) else Count(xs, p) + 1
  {
    WithoutAround(xs[..k], x, After(xs, k), p);
    SplitAt(xs, k);
    if k < |xs| { WithoutAround(xs[..k], xs[k], After(xs, k), p); }
  }

  lemma {:induction false} NoneIff<T>(xs: seq<T>, p: T -> bool)
    ensures Count(xs, p) == 0 <==> !Any(xs, p)
    ensures !Any(xs, p) <==> Without(xs, p) == xs
    ensures |Without(xs, p)| == |xs| - Count(xs, p)
  {
    if xs != [] {
      AnyStep(xs, p);
      NoneIff(xs[1..], p);
      var rest := Without(xs[1..], p);
      assert !p(xs[0]) ==> ([xs[0]] + rest)[1..] == rest;
    }
  }

  function Map<S, T>(xs: seq<S>, f: S -> T): (r: seq<T>)
    ensures |r| == |xs|
  {
    if xs == [] then [] else [f(xs[0])] + Map(xs[1..], f)
  }

  lemma {:induction false} MapAt<S, T>(xs: seq<S>, f: S -> T, i: nat)
    requires i < |xs|
    ensures Map(xs, f)[i] == f(xs[i])
  {
    if i > 0 { MapAt(xs[1..], f, i - 1); }
  }

  lemma {:induction false} MapConcat<S, T>(a: seq<S>, b: seq<S>, f: S -> T)
    ensures Map(a + b, f) == Map(a, f) + Map(b, f)
  {
    if a == [] { assert a + b == b; } else {
      assert (a + b)[1..] == a[1..] + b;
      MapConcat(a[1..], b, f);
    }
  }

  lemma MapHead<S, T>(x: S, xs: seq<S>, f: S -> T)
    ensures Map([x] + xs, f) == [f(x)] + Map(xs, f)
  {
    assert ([x] + xs)[1..] == xs;
  }

  lemma MapAppend<S, T>(a: seq<S>, x: S, f: S -> T)
    ensures Map(a + [x], f) == Map(a, f) + [f(x)]
  {
    MapConcat(a, [x], f);
    assert [x][1..] == [] && Map([x], f) == [f(x)];
  }

  lemma Halves<T>(a: seq<T>, b: seq<T>)
    ensures (a + b)[..|a|] == a && (a + b)[|a|..] == b
  {
  }

  lemma MapHalves<S, T>(a: seq<S>, b: seq<S>, f: S -> T)
    ensures Map(a + b, f)[..|a|] == Map(a, f) && Map(a + b, f)[|a|..] == Map(b, f)
  {
    MapConcat(a, b, f);
    Halves(Map(a, f), Map(b, f));
  }

  lemma MapCut<S, T>(xs: seq<S>, k: nat, f: S -> T)
    requires k <= |xs|
    ensures Map(xs[..k], f) == Map(xs, f)[..k] && Map(xs[k..], f) == Map(xs, f)[k..]
  {
    assert xs[..k] + xs[k..] == xs;
    MapHalves(xs[..k], xs[k..], f);
  }

  lemma MapAround<S, T>(xs: seq<S>, k: nat, x: S, f: S -> T)
    requires k <= |xs|
    ensures Map(xs[..k] + [x] + After(xs, k), f) == Map(xs, f)[..k] + [f(x)] + After(Map(xs, f), k)
  {
    MapConcat(xs[..k] + [x], After(xs, k), f);
    MapAppend(xs[..k], x, f);
    MapCut(xs, k, f);
    if k < |xs| { MapCut(xs, k + 1, f); }
  }

  /** Position of the first element that passes the test, or |xs|. */
  function Position<T>(xs: seq<T>, p: T -> bool): (k: nat)
    ensures k <= |xs|
  {
    if xs == [] || p(xs[0]) then 0 else Position(xs[1..], p) + 1
  }

  lemma {:induction false} PositionAt<T>(head: seq<T>, x: T, tail: seq<T>, p: T -> bool)
    requires !Any(head, p) && p(x)
    ensures Position(head + [x] + tail, p) == |head|
  {
    var all := head + [x] + tail;
    assert all[|head|] == x;
    if head != [] {
      AnyStep(head, p);
      assert all[1..] == head[1..] + [x] + tail;
      PositionAt(head[1..], x, tail, p);
    }
  }

  /** One element written among others of a kind. */
  lemma AllAround<T>(xs: seq<T>, k: nat, x: T, p: T -> bool)
    requires k <= |xs| && p(x) && forall i | 0 <= i < |xs| :: p(xs[i])
    ensures forall i | 0 <= i < |xs[..k] + [x] + After(xs, k)| :: p((xs[..k] + [x] + After(xs, k))[i])
  {
  }
}
