// Canonical bundle hashes (pkg/bundle/bundle.go, pkg/bundle/hash.go). A path is the list of its segments.

module Bundles {
  import opened Digests
  import opened Paths
  import Order
  import Sorting
  import Text

  datatype File = File(mode: nat, body: string)
  type Files = map<Path, File>

  /** The paths of a file system have proper segments. */
  ghost predicate ProperFiles(files: Files)
  {
    forall p | p in files :: Proper(p)
  }

  /** m & 0o111 != 0. */
  predicate Executable(mode: nat)
  {
    mode % 2 == 1 || mode / 8 % 2 == 1 || mode / 64 % 2 == 1
  }

  function CanonicalMode(mode: nat): string
  {
    if Executable(mode) then "100755" else "100644"
  }

  /** The hexadecimal SHA-256 of a file: injective, and free of blanks and newlines. */
  type Sha = string -> string

  ghost predicate IsSha(sha: Sha)
  {
    && (forall x: string, y: string :: sha(x) == sha(y) ==> x == y)
    && (forall x: string :: ' ' !in sha(x) && '\n' !in sha(x))
  }

  datatype Entry = Entry(path: string, mode: string, sum: string)

  function EntryOf(sha: Sha, rel: Path, f: File): Entry
    requires rel != []
  {
    Entry(Slashed(rel), CanonicalMode(f.mode), sha(f.body))
  }

  /** A file counts unless its own name starts with a dot; the names of the directories above it do not matter. */
  predicate Counted(rel: Path)
  {
    rel != [] && !Text.HasPrefix(rel[|rel| - 1], ".")
  }

  ghost predicate IsEntry(sha: Sha, files: Files, root: Path, e: Entry)
  {
    exists rel: Path :: Counted(rel) && root + rel in files && e == EntryOf(sha, rel, files[root + rel])
  }

  function EntryLess(): (Entry, Entry) -> bool
  {
    (a: Entry, b: Entry) => Order.Less(a.path, b.path)
  }

  function EntryLeq(): (Entry, Entry) -> bool
  {
    (a: Entry, b: Entry) => Order.Leq(a.path, b.path)
  }

  lemma EntryOrder()
    ensures Sorting.StrictOrder(EntryLess()) && Sorting.TotalPreorder(EntryLeq())
  {
    Order.LeqIsTotalOrder();
  }

  // ---------------------------------------------------------------- the program

  ghost predicate IsWalk(sha: Sha, files: Files, root: Path, out: seq<Entry>)
  {
    Sorting.Ascending(out, EntryLess()) && forall e :: e in out <==> IsEntry(sha, files, root, e)
  }

  ghost predicate DistinctPaths(out: seq<Entry>)
  {
    forall i, j | 0 <= i < j < |out| :: out[i].path != out[j].path
  }

  method SortEntries(entries: seq<Entry>) returns (out: seq<Entry>)
    requires DistinctPaths(entries)
    ensures Sorting.Ascending(out, EntryLess()) && forall e :: e in out <==> e in entries
  {
    EntryOrder();
    out := Sorting.Sort(entries, EntryLeq());
    PathsTell(entries);
    Sorting.SortedAscends(entries, out, EntryLeq(), EntryLess());
  }

  lemma PathsTell(entries: seq<Entry>)
    requires DistinctPaths(entries)
    ensures Sorting.Distinct(entries)
    ensures forall x, y | x in entries && y in entries && x != y :: x.path != y.path
  {
    forall x, y | x in entries && y in entries && x != y ensures x.path != y.path {
      var i :| 0 <= i < |entries| && entries[i] == x;
      var j :| 0 <= j < |entries| && entries[j] == y;
      assert i < j || j < i;
    }
  }

  /** The entries of the files met so far. */
  ghost predicate EntriesOf(sha: Sha, files: Files, root: Path, met: set<Path>, out: seq<Entry>)
  {
    forall e :: e in out <==> exists rel: Path ::
      Counted(rel) && root + rel in met && root + rel in files && e == EntryOf(sha, rel, files[root + rel])
  }

  /** Every file under root, whatever the order of the walk, then sorted by path. */
  method WalkFiles(sha: Sha, files: Files, root: Path) returns (out: seq<Entry>)
    requires ProperFiles(files)
    ensures IsWalk(sha, files, root, out)
  {
    var entries: seq<Entry> := [];
    var todo := files.Keys;
    while todo != {}
      invariant todo <= files.Keys
      invariant DistinctPaths(entries) && EntriesOf(sha, files, root, files.Keys - todo, entries)
      decreases todo
    {
      var p :| p in todo;
      ghost var met := files.Keys - todo;
      todo := todo - {p};
      ghost var before := entries;
      if root <= p && Counted(p[|root|..]) {
        var rel := p[|root|..];
        assert root + rel == p;
        NewPath(sha, files, root, met, before, rel);
        entries := entries + [EntryOf(sha, rel, files[p])];
      }
      EntriesStep(sha, files, root, met, before, p, entries);
      assert files.Keys - todo == met + {p};
    }
    out := SortEntries(entries);
    assert files.Keys - todo == files.Keys;
  }

  lemma NewPath(sha: Sha, files: Files, root: Path, met: set<Path>, out: seq<Entry>, rel: Path)
    requires ProperFiles(files) && EntriesOf(sha, files, root, met, out) && Counted(rel) && root + rel in files && root + rel !in met
    ensures forall i | 0 <= i < |out| :: out[i].path != Slashed(rel)
  {
    forall i | 0 <= i < |out| ensures out[i].path != Slashed(rel) {
      assert out[i] in out;
      var r: Path :| Counted(r) && root + r in met && root + r in files && out[i] == EntryOf(sha, r, files[root + r]);
      Tail(root, r, files);
      Tail(root, rel, files);
      if Slashed(r) == Slashed(rel) { SlashedInjective(r, rel); }
    }
  }

  lemma Tail(root: Path, rel: Path, files: Files)
    requires ProperFiles(files) && root + rel in files
    ensures Proper(rel)
  {
    var p := root + rel;
    assert Proper(p);
    forall i | 0 <= i < |rel| ensures Segment(rel[i]) { assert p[|root| + i] == rel[i]; }
  }

  lemma EntriesStep(sha: Sha, files: Files, root: Path, met: set<Path>, before: seq<Entry>, p: Path, after: seq<Entry>)
    requires EntriesOf(sha, files, root, met, before) && p in files
    requires after == if root <= p && Counted(p[|root|..]) then before + [EntryOf(sha, p[|root|..], files[p])] else before
    ensures EntriesOf(sha, files, root, met + {p}, after)
  {
    forall e ensures e in after <==> exists rel: Path ::
      Counted(rel) && root + rel in met + {p} && root + rel in files && e == EntryOf(sha, rel, files[root + rel])
    {
      if rel: Path :| Counted(rel) && root + rel in met + {p} && root + rel in files && e == EntryOf(sha, rel, files[root + rel]) {
        if root + rel == p { assert p[|root|..] == rel; } else { assert e in before; }
      }
      if e in after {
        if e in before {
          var rel: Path :| Counted(rel) && root + rel in met && root + rel in files && e == EntryOf(sha, rel, files[root + rel]);
          assert root + rel in met + {p};
        } else {
          assert root + p[|root|..] == p;
        }
      }
    }
  }

  function Line(e: Entry): string
  {
    e.mode + " " + e.sum + " " + e.path + "\n"
  }

  function Lines(out: seq<Entry>): string
  {
    if out == [] then "" else Line(out[0]) + Lines(out[1..])
  }

  lemma {:induction false} LinesSnoc(out: seq<Entry>, e: Entry)
    ensures Lines(out + [e]) == Lines(out) + Line(e)
  {
    if out == [] { assert [e][1..] == []; } else {
      assert (out + [e])[1..] == out[1..] + [e];
      LinesSnoc(out[1..], e);
    }
  }

  datatype HashResult = Hashed(digest: Digest) | ErrNoFiles | ErrNoSkill

  method HashEntries(out: seq<Entry>) returns (r: HashResult)
    ensures r == if out == [] then ErrNoFiles else Hashed(Digest(Lines(out)))
  {
    if |out| == 0 { return ErrNoFiles; }
    var sb := "";
    for i := 0 to |out|
      invariant sb == Lines(out[..i])
    {
      assert out[..i + 1] == out[..i] + [out[i]];
      LinesSnoc(out[..i], out[i]);
      sb := sb + out[i].mode + " " + out[i].sum + " " + out[i].path + "\n";
    }
    assert out[..|out|] == out;
    return Hashed(Digest(sb));
  }

  /** What hashing a directory should give: the digest of the lines of its walk. */
  ghost predicate IsHashDir(sha: Sha, files: Files, root: Path, r: HashResult)
  {
    exists out :: IsWalk(sha, files, root, out) && r == if out == [] then ErrNoFiles else Hashed(Digest(Lines(out)))
  }

  method HashDir(sha: Sha, files: Files, root: Path) returns (r: HashResult)
    requires ProperFiles(files)
    ensures IsHashDir(sha, files, root, r)
  {
    var out := WalkFiles(sha, files, root);
    r := HashEntries(out);
  }

  /** bundle.Load wants a SKILL.md that parses before it lists the files; the YAML is the caller's. */
  predicate LoadsAsSkill(files: Files, root: Path, parses: string -> bool)
  {
    root + ["SKILL.md"] in files && parses(files[root + ["SKILL.md"]].body)
  }

  predicate IsSkill(kind: string)
  {
    kind == "" || kind == "skill"
  }

  ghost predicate IsCanonicalHash(sha: Sha, parses: string -> bool, kind: string, files: Files, root: Path, r: HashResult)
  {
    if IsSkill(kind) && !LoadsAsSkill(files, root, parses) then r == ErrNoSkill else IsHashDir(sha, files, root, r)
  }

  method CanonicalBundleHash(sha: Sha, parses: string -> bool, kind: string, files: Files, root: Path) returns (r: HashResult)
    requires ProperFiles(files)
    ensures IsCanonicalHash(sha, parses, kind, files, root, r)
  {
    if IsSkill(kind) {
      if root + ["SKILL.md"] !in files { return ErrNoSkill; }
      if !parses(files[root + ["SKILL.md"]].body) { return ErrNoSkill; }
    }
    r := HashDir(sha, files, root);
  }

  // ---------------------------------------------------------------- the hash determines the counted files

  /** Two directories with the same entries have the same walk, and so the same hash. */
  lemma SameEntriesSameHash(sha: Sha, f1: Files, r1: Path, f2: Files, r2: Path, a: HashResult, b: HashResult)
    requires IsHashDir(sha, f1, r1, a) && IsHashDir(sha, f2, r2, b)
    requires forall e :: IsEntry(sha, f1, r1, e) <==> IsEntry(sha, f2, r2, e)
    ensures a == b
  {
    var x :| IsWalk(sha, f1, r1, x) && a == if x == [] then ErrNoFiles else Hashed(Digest(Lines(x)));
    var y :| IsWalk(sha, f2, r2, y) && b == if y == [] then ErrNoFiles else Hashed(Digest(Lines(y)));
    EntryOrder();
    Sorting.AscendingUnique(x, y, EntryLess());
  }

  /** An entry whose line can be read back. */
  predicate Readable(e: Entry)
  {
    (e.mode == "100755" || e.mode == "100644") && ' ' !in e.sum && '\n' !in e.sum && '\n' !in e.path
  }

  lemma LineParts(e: Entry, rest: string)
    ensures Line(e) + rest == e.mode + (" " + (e.sum + [' '] + (e.path + ['\n'] + rest)))
  {
  }

  lemma LineDecodes(a: Entry, b: Entry, x: string, y: string)
    requires Readable(a) && Readable(b) && Line(a) + x == Line(b) + y
    ensures a == b && x == y
  {
    LineParts(a, x);
    LineParts(b, y);
    var s, t := Tailed(a, x), Tailed(b, y);
    assert a.mode + s == b.mode + t;
    assert (a.mode + s)[..6] == a.mode && (b.mode + t)[..6] == b.mode;
    assert (a.mode + s)[6..] == s && (b.mode + t)[6..] == t;
    assert s[1..] == a.sum + [' '] + (a.path + ['\n'] + x) && t[1..] == b.sum + [' '] + (b.path + ['\n'] + y);
    FirstStop(a.sum, b.sum, ' ', a.path + ['\n'] + x, b.path + ['\n'] + y);
    FirstStop(a.path, b.path, '\n', x, y);
  }

  function Tailed(e: Entry, rest: string): string
  {
    " " + (e.sum + [' '] + (e.path + ['\n'] + rest))
  }

  lemma NoLines(xs: seq<Entry>)
    ensures Lines(xs) == "" <==> xs == []
  {
  }

  lemma {:induction false} LinesInjective(xs: seq<Entry>, ys: seq<Entry>)
    requires (forall i | 0 <= i < |xs| :: Readable(xs[i])) && (forall i | 0 <= i < |ys| :: Readable(ys[i]))
    requires Lines(xs) == Lines(ys)
    ensures xs == ys
  {
    NoLines(xs);
    NoLines(ys);
    if xs != [] && ys != [] {
      LineDecodes(xs[0], ys[0], Lines(xs[1..]), Lines(ys[1..]));
      LinesInjective(xs[1..], ys[1..]);
      assert xs == [xs[0]] + xs[1..] && ys == [ys[0]] + ys[1..];
    }
  }

  /** No newline in any path. */
  ghost predicate PlainPaths(files: Files)
  {
    forall p | p in files :: forall i | 0 <= i < |p| :: '\n' !in p[i]
  }

  /** What the hash sees of a file. */
  datatype Seen = Seen(executable: bool, body: string)

  function See(files: Files, root: Path, rel: Path): Seen
    requires root + rel in files
  {
    Seen(Executable(files[root + rel].mode), files[root + rel].body)
  }

  /** The same counted files, each with the same executable bit and the same bytes. */
  ghost predicate SameCounted(f1: Files, r1: Path, f2: Files, r2: Path)
  {
    forall rel: Path | Counted(rel) ::
      (r1 + rel in f1 <==> r2 + rel in f2) && (r1 + rel in f1 && r2 + rel in f2 ==> See(f1, r1, rel) == See(f2, r2, rel))
  }

  lemma {:induction false} SlashedPlain(p: Path)
    requires p != [] && forall i | 0 <= i < |p| :: '\n' !in p[i]
    ensures '\n' !in Slashed(p)
  {
    if |p| > 1 { SlashedPlain(p[1..]); }
  }

  lemma EntryReadable(sha: Sha, files: Files, root: Path, e: Entry)
    requires IsSha(sha) && PlainPaths(files) && IsEntry(sha, files, root, e)
    ensures Readable(e)
  {
    var rel: Path :| Counted(rel) && root + rel in files && e == EntryOf(sha, rel, files[root + rel]);
    forall i | 0 <= i < |rel| ensures '\n' !in rel[i] { assert (root + rel)[|root| + i] == rel[i]; }
    SlashedPlain(rel);
  }

  /** Equal entries come from files that look the same to the hash. */
  lemma EntrySees(sha: Sha, f1: Files, r1: Path, f2: Files, r2: Path, rel: Path)
    requires IsSha(sha) && ProperFiles(f1) && ProperFiles(f2) && Counted(rel) && r1 + rel in f1
    requires IsEntry(sha, f2, r2, EntryOf(sha, rel, f1[r1 + rel]))
    ensures r2 + rel in f2 && See(f1, r1, rel) == See(f2, r2, rel)
  {
    var e := EntryOf(sha, rel, f1[r1 + rel]);
    var q: Path :| Counted(q) && r2 + q in f2 && e == EntryOf(sha, q, f2[r2 + q]);
    Tail(r1, rel, f1);
    Tail(r2, q, f2);
    SlashedInjective(rel, q);
    assert "100755"[3] != "100644"[3];
  }

  lemma SameCountedSameEntries(sha: Sha, f1: Files, r1: Path, f2: Files, r2: Path, e: Entry)
    requires SameCounted(f1, r1, f2, r2) && IsEntry(sha, f1, r1, e)
    ensures IsEntry(sha, f2, r2, e)
  {
    var rel: Path :| Counted(rel) && r1 + rel in f1 && e == EntryOf(sha, rel, f1[r1 + rel]);
    assert r2 + rel in f2 && See(f1, r1, rel) == See(f2, r2, rel);
  }

  lemma SwapCounted(f1: Files, r1: Path, f2: Files, r2: Path)
    requires SameCounted(f1, r1, f2, r2)
    ensures SameCounted(f2, r2, f1, r1)
  {
  }

  /** Two directories of newline-free paths hash alike exactly when their counted files look the same. */
  lemma HashEqualIff(sha: Sha, f1: Files, r1: Path, f2: Files, r2: Path, a: HashResult, b: HashResult)
    requires IsSha(sha) && ProperFiles(f1) && ProperFiles(f2) && PlainPaths(f1) && PlainPaths(f2)
    requires IsHashDir(sha, f1, r1, a) && IsHashDir(sha, f2, r2, b)
    ensures a == b <==> SameCounted(f1, r1, f2, r2)
  {
    if SameCounted(f1, r1, f2, r2) {
      SwapCounted(f1, r1, f2, r2);
      forall e ensures IsEntry(sha, f1, r1, e) <==> IsEntry(sha, f2, r2, e) {
        if IsEntry(sha, f1, r1, e) { SameCountedSameEntries(sha, f1, r1, f2, r2, e); }
        if IsEntry(sha, f2, r2, e) { SameCountedSameEntries(sha, f2, r2, f1, r1, e); }
      }
      SameEntriesSameHash(sha, f1, r1, f2, r2, a, b);
    }
    if a == b { SameHashSameEntries(sha, f1, r1, f2, r2, a); }
  }

  lemma SameHashSameEntries(sha: Sha, f1: Files, r1: Path, f2: Files, r2: Path, a: HashResult)
    requires IsSha(sha) && ProperFiles(f1) && ProperFiles(f2) && PlainPaths(f1) && PlainPaths(f2)
    requires IsHashDir(sha, f1, r1, a) && IsHashDir(sha, f2, r2, a)
    ensures SameCounted(f1, r1, f2, r2)
  {
    var x :| IsWalk(sha, f1, r1, x) && a == if x == [] then ErrNoFiles else Hashed(Digest(Lines(x)));
    var y :| IsWalk(sha, f2, r2, y) && a == if y == [] then ErrNoFiles else Hashed(Digest(Lines(y)));
    forall i | 0 <= i < |x| ensures Readable(x[i]) {
      assert x[i] in x;
      EntryReadable(sha, f1, r1, x[i]);
    }
    forall i | 0 <= i < |y| ensures Readable(y[i]) {
      assert y[i] in y;
      EntryReadable(sha, f2, r2, y[i]);
    }
    if x != [] { LinesInjective(x, y); }
    assert x == y;
    forall rel: Path | Counted(rel)
      ensures (r1 + rel in f1 <==> r2 + rel in f2) && (r1 + rel in f1 && r2 + rel in f2 ==> See(f1, r1, rel) == See(f2, r2, rel))
    {
      if r1 + rel in f1 {
        assert EntryOf(sha, rel, f1[r1 + rel]) in x;
        EntrySees(sha, f1, r1, f2, r2, rel);
      }
      if r2 + rel in f2 {
        assert EntryOf(sha, rel, f2[r2 + rel]) in y;
        EntrySees(sha, f2, r2, f1, r1, rel);
      }
    }
  }
}
