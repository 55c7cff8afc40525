// Numbers written in a base, most significant digit first. An id is the base-32 spelling of a number whose
// bytes are its digits in base 256, so the ids inherit the laws here: words of one length are compared digit
// by digit from the left, and a number has only one spelling of a given length.

module Positional {

  function Pow(b: nat, n: nat): nat
  {
    if n == 0 then 1 else b * Pow(b, n - 1)
  }

  lemma {:induction false} PowPositive(b: nat, n: nat)
    requires b > 0
    ensures Pow(b, n) > 0
  {
    if n > 0 { PowPositive(b, n - 1); }
  }

  lemma {:induction false} PowAdd(b: nat, m: nat, n: nat)
    ensures Pow(b, m + n) == Pow(b, m) * Pow(b, n)
  {
    if m > 0 {
      PowAdd(b, m - 1, n);
      Associate(b, Pow(b, m - 1), Pow(b, n));
    }
  }

  lemma Associate(x: int, y: int, z: int)
    ensures x * (y * z) == (x * y) * z
  {
  }

  function Value(b: nat, ds: seq<nat>): nat
  {
    if ds == [] then 0 else ds[0] * Pow(b, |ds| - 1) + Value(b, ds[1..])
  }

  ghost predicate Digits(b: nat, ds: seq<nat>)
  {
    forall i | 0 <= i < |ds| :: ds[i] < b
  }

  lemma {:induction false} ValueConcat(b: nat, xs: seq<nat>, ys: seq<nat>)
    ensures Value(b, xs + ys) == Value(b, xs) * Pow(b, |ys|) + Value(b, ys)
  {
    if xs == [] { assert xs + ys == ys; } else {
      var p, q, r := Pow(b, |xs| - 1), Pow(b, |ys|), Value(b, xs[1..]);
      assert (xs + ys)[1..] == xs[1..] + ys;
      ValueConcat(b, xs[1..], ys);
      PowAdd(b, |xs| - 1, |ys|);
      Associate(xs[0], p, q);
      Distribute(xs[0] * p, r, q);
    }
  }

  lemma ValueSnoc(b: nat, xs: seq<nat>, d: nat)
    ensures Value(b, xs + [d]) == Value(b, xs) * b + d
  {
    ValueConcat(b, xs, [d]);
    assert [d][1..] == [] && Pow(b, 1) == b * Pow(b, 0) && Value(b, [d]) == d * Pow(b, 0) + Value(b, []);
  }

  lemma Distribute(x: int, y: int, z: int)
    ensures (x + y) * z == x * z + y * z
  {
  }

  lemma {:induction false} ValueBound(b: nat, ds: seq<nat>)
    requires b > 0 && Digits(b, ds)
    ensures Value(b, ds) < Pow(b, |ds|)
  {
    if ds != [] {
      ValueBound(b, ds[1..]);
      Below(ds[0], b, Pow(b, |ds| - 1), Value(b, ds[1..]));
    }
  }

  /** d * p + r < b * p for a digit d and a remainder r. */
  lemma Below(d: nat, b: nat, p: nat, r: nat)
    requires d < b && r < p
    ensures d * p + r < b * p
  {
    Distribute(b - d - 1, d + 1, p);
    Distribute(d, 1, p);
    assert (b - d - 1) * p >= 0;
  }

  /** Equally long digit strings compare as their first difference does. */
  lemma {:induction false} CompareHead(b: nat, xs: seq<nat>, ys: seq<nat>)
    requires b > 0 && Digits(b, xs) && Digits(b, ys) && |xs| == |ys| && xs != []
    ensures xs[0] < ys[0] ==> Value(b, xs) < Value(b, ys)
    ensures xs[0] == ys[0] ==> Value(b, xs) - Value(b, ys) == Value(b, xs[1..]) - Value(b, ys[1..])
  {
    if xs[0] < ys[0] {
      var p := Pow(b, |xs| - 1);
      ValueBound(b, xs[1..]);
      Below(xs[0], ys[0], p, Value(b, xs[1..]));
    }
  }

  /** A number has one representation of a given length. */
  lemma {:induction false} Unique(b: nat, xs: seq<nat>, ys: seq<nat>)
    requires b > 0 && Digits(b, xs) && Digits(b, ys) && |xs| == |ys| && Value(b, xs) == Value(b, ys)
    ensures xs == ys
  {
    if xs != [] {
      CompareHead(b, xs, ys);
      CompareHead(b, ys, xs);
      Unique(b, xs[1..], ys[1..]);
    }
  }
}
