// Paths as lists of their segments: written with slashes, split at slashes, and cleaned as filepath.Clean does
// it. The bundle hash needs that the written form tells paths apart, the archive that cleaning leaves names
// alone and keeps the rest inside, and the cache that it is all cleaning ever does to a URL.

module Paths {
  import opened Substring

  type Path = seq<string>

  predicate Segment(s: string)
  {
    s != "" && s != "." && s != ".." && '/' !in s
  }

  ghost predicate Proper(p: Path)
  {
    forall i | 0 <= i < |p| :: Segment(p[i])
  }

  /** filepath.ToSlash of a relative path. */
  function Slashed(p: Path): string
    requires p != []
  {
    if |p| == 1 then p[0] else p[0] + "/" + Slashed(p[1..])
  }

  // ---------------------------------------------------------------- slashed paths are unambiguous

  lemma StopAt(a: string, c: char, x: string)
    requires c !in a
    ensures var s := a + [c] + x; s[|a|] == c && s[..|a|] == a && s[|a| + 1..] == x && forall i | 0 <= i < |a| :: s[i] != c
  {
  }

  /** Where a character first stops a text. */
  lemma FirstStop(a: string, b: string, c: char, x: string, y: string)
    requires c !in a && c !in b && a + [c] + x == b + [c] + y
    ensures a == b && x == y
  {
    StopAt(a, c, x);
    StopAt(b, c, y);
    assert |a| == |b|;
  }

  lemma {:induction false} SlashedHasSlash(p: Path)
    requires |p| > 1
    ensures '/' in Slashed(p)
  {
    assert Slashed(p)[|p[0]|] == '/';
  }

  lemma {:induction false} SlashedInjective(p: Path, q: Path)
    requires p != [] && q != [] && Proper(p) && Proper(q) && Slashed(p) == Slashed(q)
    ensures p == q
  {
    if |p| > 1 && |q| > 1 {
      FirstStop(p[0], q[0], '/', Slashed(p[1..]), Slashed(q[1..]));
      SlashedInjective(p[1..], q[1..]);
      assert p == [p[0]] + p[1..] && q == [q[0]] + q[1..];
    } else {
      if |p| > 1 { SlashedHasSlash(p); }
      if |q| > 1 { SlashedHasSlash(q); }
    }
  }

  // ---------------------------------------------------------------- splitting and joining

  predicate SlashFree(p: Path)
  {
    forall i | 0 <= i < |p| :: '/' !in p[i]
  }

  lemma {:induction false} SplitSlashed(p: Path)
    requires p != [] && SlashFree(p)
    ensures Split(Slashed(p), '/') == p
  {
    if |p| == 1 {
      SplitNone(p[0], '/');
      assert p == [p[0]];
    } else {
      SplitSlashed(p[1..]);
      SplitLine(p[0], Slashed(p[1..]), '/');
      assert p == [p[0]] + p[1..];
    }
  }

  /** Splitting loses nothing. */
  lemma {:induction false} SlashedSplit(s: string)
    ensures SlashFree(Split(s, '/')) && Slashed(Split(s, '/')) == s
  {
    if s != "" {
      var rest := Split(s[1..], '/');
      SlashedSplit(s[1..]);
      assert s == [s[0]] + s[1..];
      if s[0] == '/' {
        assert ([""] + rest)[1..] == rest;
        assert "" + "/" + Slashed(rest) == s;
      } else {
        SlashedHead([s[0]], rest);
      }
    }
  }

  lemma SlashedHead(c: string, p: Path)
    requires p != []
    ensures Slashed([c + p[0]] + p[1..]) == c + Slashed(p)
  {
    if |p| > 1 { assert ([c + p[0]] + p[1..])[1..] == p[1..]; }
  }

  /** Splitting one more character: it closes an empty segment or goes in front of the first. */
  function SplitStep(c: char, rest: Path): Path
    requires rest != []
  {
    if c == '/' then [""] + rest else [[c] + rest[0]] + rest[1..]
  }

  lemma SplitChar(c: char, s: string)
    ensures Split([c] + s, '/') == SplitStep(c, Split(s, '/'))
  {
    assert ([c] + s)[1..] == s;
  }

  lemma SplitStepConcat(c: char, front: Path, back: Path)
    requires front != []
    ensures SplitStep(c, front + back) == SplitStep(c, front) + back
  {
    assert (front + back)[0] == front[0] && (front + back)[1..] == front[1..] + back;
    assert [""] + (front + back) == [""] + front + back;
    assert [[c] + front[0]] + (front[1..] + back) == [[c] + front[0]] + front[1..] + back;
  }

  lemma {:induction false} SplitConcat(x: string, y: string)
    ensures Split(x + "/" + y, '/') == Split(x, '/') + Split(y, '/')
  {
    if x == "" {
      assert x + "/" + y == ['/'] + y;
      SplitChar('/', y);
    } else {
      var c, rest := x[0], x[1..];
      assert x == [c] + rest && x + "/" + y == [c] + (rest + "/" + y);
      SplitConcat(rest, y);
      SplitChar(c, rest);
      SplitChar(c, rest + "/" + y);
      SplitStepConcat(c, Split(rest, '/'), Split(y, '/'));
    }
  }

  /** x put behind the last segment. */
  function Suffixed(p: Path, x: string): Path
    requires p != []
  {
    p[..|p| - 1] + [p[|p| - 1] + x]
  }

  lemma {:induction false} SplitSuffixed(s: string, x: string)
    requires '/' !in x
    ensures Split(s + x, '/') == Suffixed(Split(s, '/'), x)
  {
    if s == "" {
      SplitNone(x, '/');
      assert s + x == x && "" + x == x;
    } else {
      var c, rest := s[0], s[1..];
      assert s == [c] + rest && s + x == [c] + (rest + x);
      SplitSuffixed(rest, x);
      SplitChar(c, rest);
      SplitChar(c, rest + x);
      SplitStepSuffixed(c, Split(rest, '/'), x);
    }
  }

  lemma SplitStepSuffixed(c: char, p: Path, x: string)
    requires p != []
    ensures SplitStep(c, Suffixed(p, x)) == Suffixed(SplitStep(c, p), x)
  {
    if |p| == 1 { assert [c] + (p[0] + x) == [c] + p[0] + x; }
  }

  // ---------------------------------------------------------------- cleaning

  function CleanStep(q: Path, s: string): Path
  {
    if s == "" || s == "." then q
    else if s == ".." then if q == [] then [] else q[..|q| - 1]
    else q + [s]
  }

  /** filepath.Clean of an absolute path. */
  function Clean(p: Path): Path
  {
    if p == [] then [] else CleanStep(Clean(p[..|p| - 1]), p[|p| - 1])
  }

  lemma {:induction false} CleanProper(p: Path)
    requires Proper(p)
    ensures Clean(p) == p
  {
    if p != [] {
      CleanProper(p[..|p| - 1]);
      assert p[..|p| - 1] + [p[|p| - 1]] == p;
    }
  }

  lemma CleanSnoc(p: Path, s: string)
    ensures Clean(p + [s]) == CleanStep(Clean(p), s)
  {
    assert (p + [s])[..|p|] == p;
  }

  lemma {:induction false} CleanIsProper(p: Path)
    requires SlashFree(p)
    ensures Proper(Clean(p)) && |Clean(p)| <= |p|
  {
    if p != [] { CleanIsProper(p[..|p| - 1]); }
  }

  /** Cleaning changes nothing exactly when every segment is a proper name. */
  lemma {:induction false} CleanKeepsIff(p: Path)
    requires SlashFree(p)
    ensures Clean(p) == p <==> Proper(p)
  {
    if Proper(p) { CleanProper(p); }
    if Clean(p) == p { CleanIsProper(p); }
  }

  lemma LastApart(p: Path, q: Path)
    requires q != []
    ensures p + q == (p + q[..|q| - 1]) + [q[|q| - 1]] && q == q[..|q| - 1] + [q[|q| - 1]]
  {
  }

  lemma CleanLonger(p: Path, q: Path)
    requires q != []
    ensures Clean(p + q) == CleanStep(Clean(p + q[..|q| - 1]), q[|q| - 1])
  {
    LastApart(p, q);
    CleanSnoc(p + q[..|q| - 1], q[|q| - 1]);
  }

  lemma {:induction false} CleanAlike(p: Path, q: Path, tail: Path)
    requires Clean(p) == Clean(q)
    ensures Clean(p + tail) == Clean(q + tail)
  {
    if tail == [] { assert p + tail == p && q + tail == q; } else {
      CleanAlike(p, q, tail[..|tail| - 1]);
      CleanLonger(p, tail);
      CleanLonger(q, tail);
    }
  }

  /** No ".." leads above where the path starts. */
  predicate Inside(p: Path)
  {
    p == [] || (Inside(p[..|p| - 1]) && (p[|p| - 1] == ".." ==> Clean(p[..|p| - 1]) != []))
  }

  lemma {:induction false} ProperIsInside(p: Path)
    requires Proper(p)
    ensures Inside(p)
  {
    if p != [] { ProperIsInside(p[..|p| - 1]); }
  }

  /** Such a path is cleaned on its own, wherever it starts. */
  lemma {:induction false} CleanAppend(p: Path, q: Path)
    requires Inside(q)
    ensures Clean(p + q) == Clean(p) + Clean(q)
  {
    if q == [] { assert p + q == p; } else {
      CleanAppend(p, q[..|q| - 1]);
      CleanLonger(p, q);
      StepBehind(Clean(p), Clean(q[..|q| - 1]), q[|q| - 1]);
    }
  }

  lemma StepBehind(a: Path, b: Path, s: string)
    requires s == ".." ==> b != []
    ensures CleanStep(a + b, s) == a + CleanStep(b, s)
  {
    if b != [] { assert (a + b)[..|a + b| - 1] == a + b[..|b| - 1]; }
  }
}
