// Publishing a bundle as an archive and fetching it back (scripts/build-registry/main.go, pkg/registry/git.go).

module Archive {
  import opened Bundles
  import opened Paths
  import opened Wrappers

  /** What filepath.Walk reports of a tree without links: directories and regular files, by path below the root. */
  datatype Node = DirNode(path: Path, mode: nat) | FileNode(path: Path, file: File)

  datatype Type = Dir | Reg | Other
  datatype Header = Header(name: Path, typ: Type, mode: nat, body: string)

  const DIR_MODE: nat := 0x1ED
  const FILE_MODE: nat := 0x1A4

  function HeaderOf(prefix: string, n: Node): Header
  {
    match n
    case DirNode(path, mode) => Header([prefix] + path, Dir, if path == [] then DIR_MODE else mode, "")
    case FileNode(path, file) => Header([prefix] + path, Reg, file.mode, file.body)
  }

  method WriteTarGz(walk: seq<Node>, prefix: string) returns (entries: seq<Header>)
    ensures |entries| == |walk| && forall i | 0 <= i < |walk| :: entries[i] == HeaderOf(prefix, walk[i])
  {
    entries := [];
    for i := 0 to |walk|
      invariant |entries| == i && forall j | 0 <= j < i :: entries[j] == HeaderOf(prefix, walk[j])
    {
      match walk[i] {
        case DirNode(path, mode) =>
          if path == [] { entries := entries + [Header([prefix], Dir, DIR_MODE, "")]; }
          else { entries := entries + [Header([prefix] + path, Dir, mode, "")]; }
        case FileNode(path, file) =>
          entries := entries + [Header([prefix] + path, Reg, file.mode, file.body)];
      }
      assert [prefix] + [] == [prefix];
    }
  }

  /** os.MkdirAll: the path and everything above it. */
  function Ancestors(p: Path): set<Path>
  {
    if p == [] then {} else {p} + Ancestors(p[..|p| - 1])
  }

  lemma {:induction false} AncestorsMean(p: Path, d: Path)
    ensures d in Ancestors(p) <==> d != [] && d <= p
  {
    if p != [] {
      AncestorsMean(p[..|p| - 1], d);
      assert d <= p && d != p ==> d <= p[..|p| - 1];
    }
  }

  /** A fresh file is not executable; the archive's bit makes it so. */
  function ExtractedMode(mode: nat): nat
  {
    if Executable(mode) then DIR_MODE else FILE_MODE
  }

  lemma ExtractedModeKeepsBit(mode: nat)
    ensures Executable(ExtractedMode(mode)) <==> Executable(mode)
  {
  }

  datatype State = State(dirs: set<Path>, files: Files, ok: bool)

  /** os.OpenFile keeps the mode of an existing file; the archive's executable bit overrides both. */
  function PutFile(files: Files, target: Path, hdr: Header): Files
  {
    var mode := if Executable(hdr.mode) then DIR_MODE else if target in files then files[target].mode else FILE_MODE;
    files[target := File(mode, hdr.body)]
  }

  function Parents(target: Path): set<Path>
  {
    if target == [] then {} else Ancestors(target[..|target| - 1])
  }

  function Unpack(s: State, hdr: Header, dest: Path): State
  {
    var target := Clean(dest + hdr.name);
    if !s.ok then s
    else if !(Clean(dest) <= target) then s.(ok := false)
    else match hdr.typ
      case Dir => s.(dirs := s.dirs + Ancestors(target))
      case Reg => s.(dirs := s.dirs + Parents(target), files := PutFile(s.files, target, hdr))
      case Other => s
  }

  /** The disk after the first n entries. */
  function Extracted(s: State, entries: seq<Header>, n: nat, dest: Path): State
    requires n <= |entries|
  {
    if n == 0 then s else Unpack(Extracted(s, entries, n - 1, dest), entries[n - 1], dest)
  }

  lemma {:induction false} StaysStopped(s: State, entries: seq<Header>, n: nat, m: nat, dest: Path)
    requires n <= m <= |entries| && !Extracted(s, entries, n, dest).ok
    ensures Extracted(s, entries, m, dest) == Extracted(s, entries, n, dest)
    decreases m
  {
    if n < m { StaysStopped(s, entries, n, m - 1, dest); }
  }

  /**
   * Whatever the archive, every path that is not under the destination keeps its file, and no directory appears
   * there but the destination's ancestors.
   */
  lemma {:induction false} NothingOutside(s: State, entries: seq<Header>, n: nat, dest: Path, p: Path)
    requires n <= |entries| && !(Clean(dest) <= p)
    ensures var after := Extracted(s, entries, n, dest);
      && (p in after.files <==> p in s.files) && (p in s.files ==> after.files[p] == s.files[p])
      && (p in after.dirs ==> p in s.dirs || p <= Clean(dest))
      && (p in s.dirs ==> p in after.dirs)
  {
    if n > 0 {
      NothingOutside(s, entries, n - 1, dest, p);
      var target := Clean(dest + entries[n - 1].name);
      AncestorsMean(target, p);
      if target != [] { AncestorsMean(target[..|target| - 1], p); }
      if Clean(dest) <= target && p <= target { PrefixesNest(Clean(dest), p, target); }
    }
  }

  /** Two prefixes of one path are prefixes of each other. */
  lemma PrefixesNest(a: Path, b: Path, c: Path)
    requires a <= c && b <= c
    ensures a <= b || b <= a
  {
    assert a == c[..|a|] && b == c[..|b|];
    if |a| <= |b| { assert c[..|b|][..|a|] == c[..|a|]; } else { assert c[..|a|][..|b|] == c[..|b|]; }
  }

  class Disk {
    var dirs: set<Path>
    var files: Files

    constructor (dirs: set<Path>, files: Files)
      ensures this.dirs == dirs && this.files == files
    {
      this.dirs := dirs;
      this.files := files;
    }

    /** Entry by entry; an entry that would land outside dest stops it. */
    method ExtractTarGz(entries: seq<Header>, dest: Path) returns (ok: bool)
      modifies this
      ensures State(dirs, files, ok) == Extracted(State(old(dirs), old(files), true), entries, |entries|, dest)
    {
      ghost var start := State(dirs, files, true);
      for i := 0 to |entries|
        invariant State(dirs, files, true) == Extracted(start, entries, i, dest)
      {
        var hdr := entries[i];
        var target := Clean(dest + hdr.name);
        if !(Clean(dest) <= target) {
          StaysStopped(start, entries, i + 1, |entries|, dest);
          return false;
        }
        match hdr.typ {
          case Dir => dirs := dirs + Ancestors(target);
          case Reg =>
            ghost var before := files;
            dirs := dirs + Parents(target);
            var mode := if target in files then files[target].mode else FILE_MODE;
            files := files[target := File(mode, hdr.body)];
            if Executable(hdr.mode) { files := files[target := File(DIR_MODE, hdr.body)]; }
            assert files == PutFile(before, target, hdr);
          case Other =>
        }
      }
      ok := true;
    }

    /** The only directory directly under root. */
    method LocateBundleDir(root: Path) returns (r: Option<Path>)
      ensures r == Located(dirs, root)
    {
      var names := TopLevel(dirs, root);
      if |names| != 1 { return None; }
      var name :| name in names;
      Single(names, name);
      return Some(root + [name]);
    }
  }

  lemma Single(s: set<string>, x: string)
    requires |s| == 1 && x in s
    ensures s == {x}
  {
    assert |s - {x}| == 0;
  }

  function TopLevel(dirs: set<Path>, root: Path): set<string>
  {
    set d | d in dirs && |d| == |root| + 1 && root <= d :: d[|root|]
  }

  ghost function Located(dirs: set<Path>, root: Path): Option<Path>
  {
    if n: string :| TopLevel(dirs, root) == {n} then Some(root + [n]) else None
  }

  // ---------------------------------------------------------------- the round trip

  /** The walk of the directory root: its top, and each of its files once or more. */
  ghost predicate Enumerates(walk: seq<Node>, src: Files, root: Path)
  {
    && (forall i | 0 <= i < |walk| :: Proper(walk[i].path))
    && TopIn(walk, |walk|)
    && (forall i | 0 <= i < |walk| && walk[i].FileNode? :: Holds(src, root, walk[i].path, walk[i].file))
    && (forall rel: Path | root + rel in src :: Listed(walk, |walk|, rel))
  }

  predicate Holds(src: Files, root: Path, rel: Path, f: File)
  {
    root + rel in src && src[root + rel] == f
  }

  ghost predicate Listed(walk: seq<Node>, n: nat, rel: Path)
    requires n <= |walk|
  {
    exists i :: 0 <= i < n && walk[i].FileNode? && walk[i].path == rel
  }

  /** Nothing lies at or under the bundle's place yet. */
  ghost predicate Vacant(files: Files, place: Path)
  {
    forall p | p in files :: !(place <= p)
  }

  ghost predicate Archives(entries: seq<Header>, walk: seq<Node>, prefix: string)
  {
    |entries| == |walk| && forall i | 0 <= i < |walk| :: entries[i] == HeaderOf(prefix, walk[i])
  }

  lemma Target(dest: Path, prefix: string, path: Path)
    requires Proper(dest) && Segment(prefix) && Proper(path)
    ensures Clean(dest + ([prefix] + path)) == dest + [prefix] + path && Clean(dest) == dest <= dest + [prefix] + path
  {
    var t := dest + ([prefix] + path);
    assert t == dest + [prefix] + path;
    forall i | 0 <= i < |t| ensures Segment(t[i]) {
      assert t[i] == if i < |dest| then dest[i] else if i == |dest| then prefix else path[i - |dest| - 1];
    }
    CleanProper(t);
    CleanProper(dest);
  }

  /** What extraction has put at the place of a file after n entries. */
  ghost predicate Placed(start: State, s: State, walk: seq<Node>, n: nat, src: Files, root: Path, place: Path, rel: Path)
    requires n <= |walk|
  {
    && (place + rel in s.files <==> Listed(walk, n, rel))
    && (place + rel in s.files ==>
      root + rel in src && s.files[place + rel] == File(ExtractedMode(src[root + rel].mode), src[root + rel].body))
  }

  lemma {:induction false} ExtractedPlaces(start: State, entries: seq<Header>, walk: seq<Node>, n: nat, src: Files, root: Path,
                                           dest: Path, prefix: string, rel: Path)
    requires n <= |walk| && start.ok && Archives(entries, walk, prefix) && Enumerates(walk, src, root)
    requires Proper(dest) && Segment(prefix) && Vacant(start.files, dest + [prefix])
    ensures Extracted(start, entries, n, dest).ok
    ensures Placed(start, Extracted(start, entries, n, dest), walk, n, src, root, dest + [prefix], rel)
  {
    var place := dest + [prefix];
    if n == 0 {
      assert place <= place + rel;
    } else {
      ExtractedPlaces(start, entries, walk, n - 1, src, root, dest, prefix, rel);
      var node := walk[n - 1];
      Target(dest, prefix, node.path);
      UnpackPlaces(start, Extracted(start, entries, n - 1, dest), walk, n, src, root, dest, prefix, rel);
    }
  }

  lemma UnpackPlaces(start: State, s: State, walk: seq<Node>, n: nat, src: Files, root: Path, dest: Path, prefix: string, rel: Path)
    requires 0 < n <= |walk| && s.ok && Enumerates(walk, src, root)
    requires Clean(dest + ([prefix] + walk[n - 1].path)) == dest + [prefix] + walk[n - 1].path
    requires Clean(dest) <= dest + [prefix] + walk[n - 1].path
    requires Placed(start, s, walk, n - 1, src, root, dest + [prefix], rel)
    ensures Unpack(s, HeaderOf(prefix, walk[n - 1]), dest).ok
    ensures Placed(start, Unpack(s, HeaderOf(prefix, walk[n - 1]), dest), walk, n, src, root, dest + [prefix], rel)
  {
    var place, node := dest + [prefix], walk[n - 1];
    var after := Unpack(s, HeaderOf(prefix, node), dest);
    assert (place + rel)[|place|..] == rel && (place + node.path)[|place|..] == node.path;
    assert Listed(walk, n, rel) <==> Listed(walk, n - 1, rel) || (node.FileNode? && node.path == rel);
    if node.FileNode? {
      assert Holds(src, root, node.path, node.file);
      assert after.files == PutFile(s.files, place + node.path, HeaderOf(prefix, node));
    } else {
      assert after.files == s.files;
    }
  }

  /** After extraction the place holds the source's files, each with the same bytes and the same executable bit. */
  lemma {:induction false} ExtractedSame(start: State, entries: seq<Header>, walk: seq<Node>, src: Files, root: Path, dest: Path, prefix: string)
    requires start.ok && Archives(entries, walk, prefix) && Enumerates(walk, src, root)
    requires Proper(dest) && Segment(prefix) && Vacant(start.files, dest + [prefix])
    ensures var s := Extracted(start, entries, |entries|, dest);
      && s.ok && SameCounted(src, root, s.files, dest + [prefix])
      && forall rel: Path :: (root + rel in src <==> dest + [prefix] + rel in s.files)
          && (root + rel in src ==> s.files[dest + [prefix] + rel].body == src[root + rel].body)
  {
    var s, place := Extracted(start, entries, |entries|, dest), dest + [prefix];
    ExtractedPlaces(start, entries, walk, |walk|, src, root, dest, prefix, []);
    forall rel: Path ensures (root + rel in src <==> place + rel in s.files)
      && (root + rel in src ==> s.files[place + rel].body == src[root + rel].body && See(src, root, rel) == See(s.files, place, rel))
    {
      ExtractedPlaces(start, entries, walk, |walk|, src, root, dest, prefix, rel);
      assert Placed(start, s, walk, |walk|, src, root, place, rel);
      if root + rel in src {
        assert Listed(walk, |walk|, rel);
        ExtractedModeKeepsBit(src[root + rel].mode);
      }
    }
  }

  /** What one entry of the archive adds directly under dest: the bundle's place, and surely so for the top of the walk. */
  lemma {:induction false} UnpackDirs(s: State, node: Node, dest: Path, prefix: string, d: Path)
    requires s.ok && Proper(dest) && Segment(prefix) && Proper(node.path) && |d| == |dest| + 1
    ensures var after := Unpack(s, HeaderOf(prefix, node), dest);
      && after.ok && (d in after.dirs ==> d in s.dirs || d == dest + [prefix])
      && (d in s.dirs || (node.DirNode? && node.path == [] && d == dest + [prefix]) ==> d in after.dirs)
  {
    Target(dest, prefix, node.path);
    var target, place := dest + [prefix] + node.path, dest + [prefix];
    assert place <= target && |place| == |d|;
    AncestorsUnder(place, target, d);
    assert node.path == [] ==> target == place;
  }

  lemma AncestorsUnder(place: Path, target: Path, d: Path)
    requires place <= target && |place| == |d| && place != []
    ensures d in Ancestors(target) <==> d == place
    ensures d in Parents(target) ==> d == place
  {
    AncestorsMean(target, d);
    AncestorsMean(target[..|target| - 1], d);
    assert target[..|place|] == place;
    assert d <= target ==> target[..|d|] == d;
    assert d <= target[..|target| - 1] ==> d <= target;
  }

  /** The directories directly under dest after extraction. */
  lemma {:induction false} ExtractedDirs(start: State, entries: seq<Header>, walk: seq<Node>, n: nat, dest: Path, prefix: string, d: Path)
    requires n <= |walk| && start.ok && Archives(entries, walk, prefix) && forall i | 0 <= i < |walk| :: Proper(walk[i].path)
    requires Proper(dest) && Segment(prefix) && d !in start.dirs && |d| == |dest| + 1
    ensures Extracted(start, entries, n, dest).ok
    ensures d in Extracted(start, entries, n, dest).dirs ==> d == dest + [prefix]
    ensures TopIn(walk, n) && d == dest + [prefix] ==> d in Extracted(start, entries, n, dest).dirs
  {
    if n > 0 {
      ExtractedDirs(start, entries, walk, n - 1, dest, prefix, d);
      UnpackDirs(Extracted(start, entries, n - 1, dest), walk[n - 1], dest, prefix, d);
    }
  }

  ghost predicate TopIn(walk: seq<Node>, n: nat)
    requires n <= |walk|
  {
    exists i :: 0 <= i < n && walk[i].DirNode? && walk[i].path == []
  }

  lemma {:induction false} LocatedPlace(start: State, entries: seq<Header>, walk: seq<Node>, src: Files, root: Path, dest: Path, prefix: string)
    requires start.ok && Archives(entries, walk, prefix) && Enumerates(walk, src, root)
    requires Proper(dest) && Segment(prefix) && forall d | d in start.dirs :: !(dest <= d) || d == dest
    ensures Located(Extracted(start, entries, |entries|, dest).dirs, dest) == Some(dest + [prefix])
  {
    var dirs := Extracted(start, entries, |entries|, dest).dirs;
    forall d | |d| == |dest| + 1 && dest <= d ensures d in dirs <==> d == dest + [prefix] {
      ExtractedDirs(start, entries, walk, |walk|, dest, prefix, d);
    }
    OneName(dirs, dest, prefix);
  }

  lemma OneName(dirs: set<Path>, dest: Path, prefix: string)
    requires forall d | |d| == |dest| + 1 && dest <= d :: d in dirs <==> d == dest + [prefix]
    ensures Located(dirs, dest) == Some(dest + [prefix])
  {
    var place := dest + [prefix];
    assert place in dirs && place[|dest|] == prefix;
    assert TopLevel(dirs, dest) == {prefix};
    assert forall n: string | TopLevel(dirs, dest) == {n} :: n == prefix by { assert prefix in TopLevel(dirs, dest); }
  }

  /**
   * Publish and fetch: any tree of plain files, archived in any walk order under a prefix and extracted where no
   * directory is yet, is located there and has the hash of the source, for skills and for every other kind.
   */
  lemma {:induction false} RoundTrip(start: State, entries: seq<Header>, walk: seq<Node>, src: Files, root: Path, dest: Path, prefix: string,
                  sha: Sha, parses: string -> bool, kind: string, before: HashResult, after: HashResult)
    requires start.ok && Archives(entries, walk, prefix) && Enumerates(walk, src, root)
    requires Proper(dest) && Segment(prefix) && Vacant(start.files, dest + [prefix])
    requires forall d | d in start.dirs :: !(dest <= d) || d == dest
    requires IsCanonicalHash(sha, parses, kind, src, root, before)
    requires IsCanonicalHash(sha, parses, kind, Extracted(start, entries, |entries|, dest).files, dest + [prefix], after)
    ensures Extracted(start, entries, |entries|, dest).ok
    ensures Located(Extracted(start, entries, |entries|, dest).dirs, dest) == Some(dest + [prefix])
    ensures after == before
  {
    var s, place := Extracted(start, entries, |entries|, dest), dest + [prefix];
    ExtractedSame(start, entries, walk, src, root, dest, prefix);
    LocatedPlace(start, entries, walk, src, root, dest, prefix);
    SwapCounted(src, root, s.files, place);
    assert LoadsAsSkill(src, root, parses) <==> LoadsAsSkill(s.files, place, parses);
    if !IsSkill(kind) || LoadsAsSkill(src, root, parses) {
      forall e ensures IsEntry(sha, src, root, e) <==> IsEntry(sha, s.files, place, e) {
        if IsEntry(sha, src, root, e) { SameCountedSameEntries(sha, src, root, s.files, place, e); }
        if IsEntry(sha, s.files, place, e) { SameCountedSameEntries(sha, s.files, place, src, root, e); }
      }
      SameEntriesSameHash(sha, src, root, s.files, place, before, after);
    }
  }
}
