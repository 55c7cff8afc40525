// strings.Index and strings.Split, character by character. Both search from the left for a word in a text:
// the gitignore editor looks for its sentinels with the first, and the reader of instinct files looks for the
// fences of its frontmatter. What matters to both is where a first occurrence is, and when there is none.

module Substring {

  /** p occurs in s at position i. */
  predicate At(s: string, p: string, i: nat)
  {
    i + |p| <= |s| && forall q | 0 <= q < |p| :: s[i + q] == p[q]
  }

  ghost predicate FreeOf(s: string, p: string)
  {
    forall i: nat :: !At(s, p, i)
  }

  /** Position of the first occurrence from i on, or -1. */
  function IndexFrom(s: string, p: string, i: nat): (r: int)
    requires i <= |s|
    ensures -1 <= r <= |s|
    decreases |s| - i
  {
    if At(s, p, i) then i else if i == |s| then -1 else IndexFrom(s, p, i + 1)
  }

  function Index(s: string, p: string): (r: int)
    ensures -1 <= r <= |s|
  {
    IndexFrom(s, p, 0)
  }

  lemma {:induction false} IndexFromMeans(s: string, p: string, i: nat)
    requires i <= |s| && p != ""
    ensures var r := IndexFrom(s, p, i);
      && (r >= 0 ==> i <= r && At(s, p, r))
      && (forall k: nat | i <= k && (r == -1 || k < r) :: !At(s, p, k))
    decreases |s| - i
  {
    if !At(s, p, i) && i < |s| { IndexFromMeans(s, p, i + 1); }
  }

  lemma IndexIs(s: string, p: string, r: nat)
    requires p != "" && At(s, p, r) && forall k: nat | k < r :: !At(s, p, k)
    ensures Index(s, p) == r
  {
    IndexFromMeans(s, p, 0);
  }

  lemma IndexNone(s: string, p: string)
    requires p != ""
    ensures Index(s, p) == -1 <==> FreeOf(s, p)
  {
    IndexFromMeans(s, p, 0);
  }

  lemma AtChar(s: string, p: string, k: nat, i: nat)
    requires At(s, p, k) && k <= i < k + |p|
    ensures s[i] == p[i - k]
  {
    assert s[k + (i - k)] == p[i - k];
  }

  lemma AtLonger(s: string, p: string, n: nat, k: nat)
    requires n <= |s| && At(s[..n], p, k)
    ensures At(s, p, k)
  {
    forall q | 0 <= q < |p| ensures s[k + q] == p[q] { assert s[..n][k + q] == p[q]; }
  }

  lemma AtLater(s: string, p: string, n: nat, k: nat)
    requires n <= |s| && At(s[n..], p, k)
    ensures At(s, p, n + k)
  {
    forall q | 0 <= q < |p| ensures s[n + k + q] == p[q] { assert s[n..][k + q] == p[q]; }
  }

  lemma FreeShorter(s: string, p: string, n: nat)
    requires n <= |s| && FreeOf(s, p)
    ensures FreeOf(s[..n], p)
  {
    forall k: nat ensures !At(s[..n], p, k) {
      if At(s[..n], p, k) { AtLonger(s, p, n, k); }
    }
  }

  /** What comes before a first occurrence is free of it. */
  lemma FreeBefore(s: string, p: string, n: nat)
    requires p != "" && n <= |s| && (Index(s, p) == -1 || n <= Index(s, p))
    ensures FreeOf(s[..n], p)
  {
    IndexFromMeans(s, p, 0);
    forall k: nat ensures !At(s[..n], p, k) {
      if At(s[..n], p, k) { AtLonger(s, p, n, k); }
    }
  }

  /** strings.Split(s, sep). */
  function Split(s: string, sep: char := '\n'): (r: seq<string>)
    ensures r != []
  {
    if s == "" then [""]
    else
      var rest := Split(s[1..], sep);
      if s[0] == sep then [""] + rest else [[s[0]] + rest[0]] + rest[1..]
  }

  lemma {:induction false} SplitLine(line: string, rest: string, sep: char := '\n')
    requires sep !in line
    ensures Split(line + [sep] + rest, sep) == [line] + Split(rest, sep)
  {
    var s := line + [sep] + rest;
    if line == "" {
      assert s[0] == sep && s[1..] == rest;
    } else {
      assert s[0] == line[0] && s[1..] == line[1..] + [sep] + rest;
      SplitLine(line[1..], rest, sep);
      assert [line[0]] + line[1..] == line;
      assert ([line[1..]] + Split(rest, sep))[1..] == Split(rest, sep);
    }
  }

  lemma {:induction false} SplitNone(line: string, sep: char := '\n')
    requires sep !in line
    ensures Split(line, sep) == [line]
  {
    if line != "" {
      SplitNone(line[1..], sep);
      assert [line[0]] + line[1..] == line;
    }
  }
}
