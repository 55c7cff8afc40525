// The line-ending-insensitive content hash (pkg/adapters/skill_adapter.go) and the planner's copy of it.

module ContentHash {
  import opened Digests
  import opened Order
  import Sorting
  import Text

  // ---------------------------------------------------------------- line endings

  /** CRLF and lone CR become LF. */
  function NormaliseLF(s: string): string
  {
    if s == [] then []
    else if s[0] != '\r' then [s[0]] + NormaliseLF(s[1..])
    else "\n" + NormaliseLF(if |s| > 1 && s[1] == '\n' then s[2..] else s[1..])
  }

  /** How many input characters the loop consumes at i, and the one it emits. */
  function Width(s: string, i: nat): nat
    requires i < |s|
  {
    if s[i] == '\r' && i + 1 < |s| && s[i + 1] == '\n' then 2 else 1
  }

  function Emitted(s: string, i: nat): string
    requires i < |s|
  {
    if s[i] == '\r' then "\n" else [s[i]]
  }

  lemma NormaliseStep(s: string, i: nat, out: string)
    requires i < |s|
    ensures i + Width(s, i) <= |s|
    ensures out + NormaliseLF(s[i..]) == (out + Emitted(s, i)) + NormaliseLF(s[i + Width(s, i)..])
  {
    assert s[i..][1..] == s[i + 1..];
    if i + 1 < |s| { assert s[i..][2..] == s[i + 2..]; }
    assert NormaliseLF(s[i..]) == Emitted(s, i) + NormaliseLF(s[i + Width(s, i)..]);
  }

  /** normaliseLF of the adapters. */
  method Normalise(input: string) returns (out: string)
    ensures out == NormaliseLF(input)
  {
    out := [];
    var i := 0;
    while i < |input|
      invariant i <= |input| && NormaliseLF(input) == out + NormaliseLF(input[i..])
    {
      NormaliseStep(input, i, out);
      if input[i] == '\r' {
        out := out + "\n";
        if i + 1 < |input| && input[i + 1] == '\n' { i := i + 1; }
      } else {
        out := out + [input[i]];
      }
      i := i + 1;
    }
  }

  /** hashFileLF of the update planner, which carries its own copy of the loop. */
  method HashFileLF(body: string) returns (hash: Digest)
    ensures hash == Digest(NormaliseLF(body))
  {
    var out := [];
    var i := 0;
    while i < |body|
      invariant i <= |body| && NormaliseLF(body) == out + NormaliseLF(body[i..])
    {
      NormaliseStep(body, i, out);
      var c := body[i];
      if c == '\r' {
        out := out + ['\n'];
        i := if i + 1 < |body| && body[i + 1] == '\n' then i + 2 else i + 1;
        continue;
      }
      out := out + [c];
      i := i + 1;
    }
    hash := Digest(out);
  }

  lemma {:induction false} NormalisedHasNoCR(s: string)
    ensures '\r' !in NormaliseLF(s)
  {
    if s != [] {
      NormalisedHasNoCR(if s[0] == '\r' && |s| > 1 && s[1] == '\n' then s[2..] else s[1..]);
    }
  }

  lemma {:induction false} NormaliseKeepsLF(s: string)
    requires '\r' !in s
    ensures NormaliseLF(s) == s
  {
    if s != [] { NormaliseKeepsLF(s[1..]); }
  }

  lemma NormaliseIdempotent(s: string)
    ensures NormaliseLF(NormaliseLF(s)) == NormaliseLF(s)
  {
    NormalisedHasNoCR(s);
    NormaliseKeepsLF(NormaliseLF(s));
  }

  /** A checkout that turns every bare LF into CRLF. */
  function CheckoutCRLF(s: string): string
  {
    if s == [] then []
    else if s[0] == '\r' && |s| > 1 && s[1] == '\n' then "\r\n" + CheckoutCRLF(s[2..])
    else if s[0] == '\n' then "\r\n" + CheckoutCRLF(s[1..])
    else [s[0]] + CheckoutCRLF(s[1..])
  }

  /** The opposite conversion: every CRLF becomes LF. */
  function CheckinLF(s: string): string
  {
    Text.ReplaceCRLF(s)
  }

  lemma {:induction false} CheckoutNormalisesAlike(s: string)
    ensures NormaliseLF(CheckoutCRLF(s)) == NormaliseLF(s)
  {
    if s != [] {
      if s[0] == '\r' && |s| > 1 && s[1] == '\n' {
        CheckoutNormalisesAlike(s[2..]);
        assert CheckoutCRLF(s)[2..] == CheckoutCRLF(s[2..]);
      } else if s[0] == '\n' {
        CheckoutNormalisesAlike(s[1..]);
        assert CheckoutCRLF(s)[2..] == CheckoutCRLF(s[1..]);
      } else {
        CheckoutNormalisesAlike(s[1..]);
        assert CheckoutCRLF(s)[1..] == CheckoutCRLF(s[1..]);
        if s[0] == '\r' && |s| > 1 { assert CheckoutCRLF(s[1..])[0] != '\n'; }
      }
    }
  }

  /** CR CR LF occurs somewhere in s. */
  predicate HasCRCRLF(s: string)
  {
    exists i :: 0 <= i < |s| - 2 && s[i] == '\r' && s[i + 1] == '\r' && s[i + 2] == '\n'
  }

  lemma {:induction false} CheckinShortens(s: string)
    ensures |NormaliseLF(CheckinLF(s))| <= |NormaliseLF(s)|
    ensures HasCRCRLF(s) ==> |NormaliseLF(CheckinLF(s))| < |NormaliseLF(s)|
    ensures !HasCRCRLF(s) ==> NormaliseLF(CheckinLF(s)) == NormaliseLF(s)
  {
    if s != [] {
      var c := CheckinLF(s);
      if s[0] == '\r' && |s| > 1 && s[1] == '\n' {
        CheckinShortens(s[2..]);
        assert c[1..] == CheckinLF(s[2..]);
        HasCRCRLFAfter(s, 2);
      } else {
        CheckinShortens(s[1..]);
        assert c[1..] == CheckinLF(s[1..]);
        HasCRCRLFAfter(s, 1);
        if s[0] == '\r' && |c| > 1 && c[1] == '\n' {
          // the next two characters were CR LF: their LF is swallowed by the CR before them
          assert s[1..][0] == '\r' && s[1..][1] == '\n';
          assert HasCRCRLF(s);
          assert NormaliseLF(c) == NormaliseLF(c[1..]) by { assert c[1..][1..] == c[2..]; }
        }
      }
    }
  }

  lemma HasCRCRLFAfter(s: string, n: nat)
    requires n <= |s| && (n == 1 || (n == 2 && s[0] == '\r' && s[1] == '\n'))
    ensures HasCRCRLF(s[n..]) ==> HasCRCRLF(s)
    ensures HasCRCRLF(s) && !(s[0] == '\r' && |s| > 2 && s[1] == '\r' && s[2] == '\n') ==> HasCRCRLF(s[n..])
  {
    if HasCRCRLF(s[n..]) {
      var i :| 0 <= i < |s[n..]| - 2 && s[n..][i] == '\r' && s[n..][i + 1] == '\r' && s[n..][i + 2] == '\n';
      assert s[i + n] == '\r' && s[i + n + 1] == '\r' && s[i + n + 2] == '\n';
    }
    if HasCRCRLF(s) && !(s[0] == '\r' && |s| > 2 && s[1] == '\r' && s[2] == '\n') {
      var i :| 0 <= i < |s| - 2 && s[i] == '\r' && s[i + 1] == '\r' && s[i + 2] == '\n';
      assert i >= n;
      assert s[n..][i - n] == '\r' && s[n..][i - n + 1] == '\r' && s[n..][i - n + 2] == '\n';
    }
  }

  /** Turning CRLF into LF keeps the normal form exactly when no CR CR LF occurs. */
  lemma CheckinNormalisesAlikeIff(s: string)
    ensures NormaliseLF(CheckinLF(s)) == NormaliseLF(s) <==> !HasCRCRLF(s)
  {
    CheckinShortens(s);
  }

  // ---------------------------------------------------------------- framing

  /** Decimal digits of n. */
  function Itoa(n: nat): (r: string)
    ensures r != [] && forall c | c in r :: '0' <= c <= '9'
  {
    var d := [('0' as int + n % 10) as char];
    if n < 10 then d else Itoa(n / 10) + d
  }

  lemma {:induction false} ItoaInjective(m: nat, n: nat)
    requires Itoa(m) == Itoa(n)
    ensures m == n
  {
    var a, b := Itoa(m), Itoa(n);
    assert a[|a| - 1] == b[|b| - 1];
    assert (m < 10 <==> |a| == 1) && (n < 10 <==> |b| == 1);
    if m >= 10 {
      assert a[..|a| - 1] == Itoa(m / 10) && b[..|b| - 1] == Itoa(n / 10);
      ItoaInjective(m / 10, n / 10);
    }
  }

  const NUL := '\0'

  datatype FileEntry = FileEntry(rel: string, body: string)

  function Frame(f: FileEntry): string
  {
    f.rel + [NUL] + Itoa(|f.body|) + [NUL] + f.body
  }

  function PreImage(files: seq<FileEntry>): string
  {
    if files == [] then [] else Frame(files[0]) + PreImage(files[1..])
  }

  ghost predicate NulFree(files: seq<FileEntry>)
  {
    forall i | 0 <= i < |files| :: NUL !in files[i].rel
  }

  lemma {:induction false} SplitAtNul(a: string, x: string, b: string, y: string)
    requires NUL !in a && NUL !in b && a + [NUL] + x == b + [NUL] + y
    ensures a == b && x == y
  {
    var s, t := a + [NUL] + x, b + [NUL] + y;
    assert s[0] == t[0] && (a != [] ==> s[0] == a[0] && a[0] in a) && (b != [] ==> t[0] == b[0] && b[0] in b);
    assert s[1..] == t[1..];
    if a == [] {
      assert s[1..] == x && t[1..] == y;
    } else {
      assert s[1..] == a[1..] + [NUL] + x && t[1..] == b[1..] + [NUL] + y;
      SplitAtNul(a[1..], x, b[1..], y);
      assert a == [a[0]] + a[1..] && b == [b[0]] + b[1..];
    }
  }

  lemma FrameDecodes(f: FileEntry, x: string, g: FileEntry, y: string)
    requires NUL !in f.rel && NUL !in g.rel && Frame(f) + x == Frame(g) + y
    ensures f == g && x == y
  {
    var m, n := Itoa(|f.body|), Itoa(|g.body|);
    assert Frame(f) + x == f.rel + [NUL] + (m + [NUL] + (f.body + x));
    assert Frame(g) + y == g.rel + [NUL] + (n + [NUL] + (g.body + y));
    SplitAtNul(f.rel, m + [NUL] + (f.body + x), g.rel, n + [NUL] + (g.body + y));
    SplitAtNul(m, f.body + x, n, g.body + y);
    ItoaInjective(|f.body|, |g.body|);
    assert f.body == (f.body + x)[..|f.body|] && g.body == (g.body + y)[..|g.body|];
    assert x == (f.body + x)[|f.body|..] && y == (g.body + y)[|g.body|..];
  }

  /** The framing is uniquely decodable: whatever the bodies hold, no two file lists share a pre-image. */
  lemma {:induction false} PreImageInjective(a: seq<FileEntry>, b: seq<FileEntry>)
    requires NulFree(a) && NulFree(b) && PreImage(a) == PreImage(b)
    ensures a == b
  {
    if a != [] && b != [] {
      FrameDecodes(a[0], PreImage(a[1..]), b[0], PreImage(b[1..]));
      PreImageInjective(a[1..], b[1..]);
      assert a == [a[0]] + a[1..] && b == [b[0]] + b[1..];
    } else {
      assert (a != [] ==> |PreImage(a)| > 0) && (b != [] ==> |PreImage(b)| > 0);
    }
  }

  // ---------------------------------------------------------------- trees

  /** A directory's regular files: slash-separated relative path to bytes. */
  type Tree = map<string, string>

  function BaseName(path: string): string
  {
    if path == [] then []
    else if path[|path| - 1] == '/' then []
    else BaseName(path[..|path| - 1]) + [path[|path| - 1]]
  }

  const MARKER := ".fdh-managed.yaml"
  const LEGACY := ".skill-version"
  const LEGACY_PREFIX := ".skill-version-"

  /** managed.IsAnyMarkerFilename. */
  predicate IsMarkerName(name: string)
  {
    || name == MARKER || (Text.HasSuffix(name, MARKER) && name != MARKER)
    || name == LEGACY || (Text.HasPrefix(name, LEGACY_PREFIX) && name != LEGACY_PREFIX)
  }

  predicate Counted(path: string)
  {
    !IsMarkerName(BaseName(path))
  }

  /** The tree as the hash sees it: marker files gone, line endings normalised. */
  function Normal(t: Tree): Tree
  {
    map p | p in t && Counted(p) :: NormaliseLF(t[p])
  }

  function Entries(t: Tree, paths: seq<string>): (r: seq<FileEntry>)
    requires forall i | 0 <= i < |paths| :: paths[i] in t
    ensures |r| == |paths|
  {
    seq(|paths|, i requires 0 <= i < |paths| => FileEntry(paths[i], t[paths[i]]))
  }

  ghost function SortedPaths(paths: set<string>): (r: seq<string>)
    ensures StrictlySorted(r) && forall p :: p in r <==> p in paths
  {
    if paths == {} then [] else
      var p :| p in paths;
      LeqIsTotalOrder();
      var rest := SortedPaths(paths - {p});
      var r := Sorting.Insert(p, rest, Leq);
      InsertNew(p, rest);
      r
  }

  lemma InsertNew(p: string, rest: seq<string>)
    requires StrictlySorted(rest) && p !in rest
    ensures var r := Sorting.Insert(p, rest, Leq);
      StrictlySorted(r) && forall q :: q in r <==> q == p || q in rest
  {
    LeqIsTotalOrder();
    var r := Sorting.Insert(p, rest, Leq);
    Sorting.InsertKeepsSorted(p, rest, Leq);
    assert multiset(r) == multiset([p] + rest);
    assert Sorting.Distinct([p] + rest);
    Sorting.PermutationKeepsDistinct([p] + rest, r);
  }

  /** ComputeContentHash. */
  ghost function ContentHashOf(t: Tree): Digest
  {
    var n := Normal(t);
    Digest(PreImage(Entries(n, SortedPaths(n.Keys))))
  }

  /** File systems have no NUL in a path. */
  ghost predicate ValidPaths(t: Tree)
  {
    forall p | p in t :: NUL !in p
  }

  /** Equal content hashes mean equal trees up to marker files and line endings, and conversely. */
  lemma HashEqualIffTreesEqual(t: Tree, u: Tree)
    requires ValidPaths(t) && ValidPaths(u)
    ensures ContentHashOf(t) == ContentHashOf(u) <==> Normal(t) == Normal(u)
  {
    if ContentHashOf(t) == ContentHashOf(u) {
      var m, n := Normal(t), Normal(u);
      var p, q := SortedPaths(m.Keys), SortedPaths(n.Keys);
      EntriesNulFree(m, p);
      EntriesNulFree(n, q);
      PreImageInjective(Entries(m, p), Entries(n, q));
      EntriesInjective(m, n, p, q);
    }
  }

  lemma EntriesNulFree(t: Tree, paths: seq<string>)
    requires ValidPaths(t) && forall p :: p in paths <==> p in t
    ensures NulFree(Entries(t, paths))
  {
    forall i | 0 <= i < |paths| ensures NUL !in Entries(t, paths)[i].rel { assert paths[i] in paths; }
  }

  lemma EntriesInjective(m: Tree, n: Tree, p: seq<string>, q: seq<string>)
    requires (forall x :: x in p <==> x in m) && (forall x :: x in q <==> x in n)
    requires Entries(m, p) == Entries(n, q)
    ensures m == n
  {
    var e, f := Entries(m, p), Entries(n, q);
    forall x | x in m ensures x in n && m[x] == n[x] {
      var i :| 0 <= i < |p| && p[i] == x;
      assert e[i] == FileEntry(x, m[x]) && f[i] == FileEntry(q[i], n[q[i]]) && q[i] in q;
    }
    forall x | x in n ensures x in m {
      var i :| 0 <= i < |q| && q[i] == x;
      assert e[i] == FileEntry(p[i], m[p[i]]) && f[i] == FileEntry(x, n[x]) && p[i] in p;
    }
  }

  /** Any rewriting of line endings that keeps each file's normal form keeps the hash. */
  lemma RewritingKeepsHash(t: Tree, u: Tree)
    requires t.Keys == u.Keys && forall p | p in t :: NormaliseLF(t[p]) == NormaliseLF(u[p])
    ensures ContentHashOf(t) == ContentHashOf(u)
  {
    assert Normal(t) == Normal(u);
  }

  /** The loop that feeds the hash. */
  method FrameAll(bodies: Tree, rels: seq<string>) returns (out: string)
    requires forall i | 0 <= i < |rels| :: rels[i] in bodies
    ensures out == PreImage(Entries(bodies, rels))
  {
    ghost var all := Entries(bodies, rels);
    out := [];
    for i := 0 to |rels|
      invariant PreImage(all) == out + PreImage(all[i..])
    {
      var f := FileEntry(rels[i], bodies[rels[i]]);
      assert all[i..][0] == f && all[i..][1..] == all[i + 1..];
      assert out + (Frame(f) + PreImage(all[i + 1..])) == (out + Frame(f)) + PreImage(all[i + 1..]);
      out := out + Frame(f);
    }
  }

  /** The walk meets the files in some order; the entries are sorted before they are framed. */
  method ComputeContentHash(t: Tree) returns (hash: Digest)
    ensures hash == ContentHashOf(t)
  {
    var bodies: Tree := map[];
    var todo := t.Keys;
    while todo != {}
      invariant todo <= t.Keys
      invariant bodies == map p | p in t && p !in todo && Counted(p) :: NormaliseLF(t[p])
      decreases todo
    {
      var p :| p in todo;
      if !IsMarkerName(BaseName(p)) {
        var body := Normalise(t[p]);
        bodies := bodies[p := body];
      }
      todo := todo - {p};
    }
    assert bodies == Normal(t);
    var rels := SortedKeys(bodies.Keys);
    StrictlySortedUnique(rels, SortedPaths(bodies.Keys));
    var out := FrameAll(bodies, rels);
    hash := Digest(out);
  }
}
