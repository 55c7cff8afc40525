// Directory installs: directoryInstall and copyTree (pkg/adapters), and legacy-marker migration (pkg/managed).

module Installs {
  import opened Digests
  import opened ContentHash
  import Text

  datatype Scope = User | Project

  /** One install directory: <scope root>/.<agent>/skills/<name>. */
  datatype Loc = Loc(scope: Scope, agent: string, name: string)

  datatype Marker = Marker(name: string, version: string, hubCommit: string, contentHash: Digest, agent: string)

  datatype MarkerFile = Absent | Garbled | Whole(m: Marker)

  /** files leaves out the two top-level marker files, which have fields of their own. */
  datatype Dir = Dir(files: Tree, marker: MarkerFile, legacy: MarkerFile)

  const NO_DIR := Dir(map[], Absent, Absent)

  datatype Skill = Skill(version: string, files: Tree)

  datatype Options = Options(hubCommit: string, overwrite: bool, dryRun: bool)

  datatype Outcome = Skipped | Installed(written: set<string>) | Refused

  predicate IsGit(path: string)
  {
    path == ".git" || Text.HasPrefix(path, ".git/")
  }

  /** What copyTree takes from a source: everything but git metadata (and the marker, rewritten afterwards). */
  function Payload(src: Tree): Tree
  {
    map p | p in src && !IsGit(p) && p != MARKER && p != LEGACY :: src[p]
  }

  /** The files of the source that an install puts over the target's. */
  function Taken(target: Tree, src: Tree, overwrite: bool): Tree
  {
    if overwrite then Payload(src) else Payload(src) - target.Keys
  }

  function Overlay(target: Tree, src: Tree, overwrite: bool): Tree
  {
    target + Taken(target, src, overwrite)
  }

  /** managed.Migrate on a directory; false when a marker cannot be decoded. */
  function Migrated(d: Dir): (Dir, bool)
  {
    if d.legacy.Absent? then (d, true)
    else if !d.marker.Absent? then (d.(legacy := Absent), d.marker.Whole?)
    else if d.legacy.Garbled? then (d, false)
    else (Dir(d.files, d.legacy, Absent), true)
  }

  function NewMarker(loc: Loc, skill: Skill, hash: Digest, opts: Options): Marker
  {
    Marker(loc.name, skill.version, opts.hubCommit, hash, loc.agent)
  }

  predicate Matches(d: Dir, hash: Digest)
  {
    d.marker.Whole? && d.marker.m.contentHash == hash
  }

  /** The directory after an install of skill, and what the call reports. */
  ghost function AfterInstall(d: Dir, loc: Loc, skill: Skill, opts: Options): (Dir, Outcome)
  {
    var hash := ContentHashOf(skill.files);
    var (d1, ok) := Migrated(d);
    if !ok then (d1, Refused)
    else if Matches(d1, hash) && !opts.overwrite then (d1, Skipped)
    else
      var files := Overlay(d1.files, skill.files, opts.overwrite);
      var written := Taken(d1.files, skill.files, opts.overwrite).Keys;
      (if opts.dryRun then d1 else Dir(files, Whole(NewMarker(loc, skill, hash, opts)), d1.legacy), Installed(written))
  }

  method CopyTree(src: Tree, target: Tree, overwrite: bool, dryRun: bool) returns (tree: Tree, written: set<string>)
    ensures tree == if dryRun then target else Overlay(target, src, overwrite)
    ensures written == Taken(target, src, overwrite).Keys
  {
    tree, written := target, {};
    var todo := src.Keys;
    ghost var from := Taken(target, src, overwrite);
    while todo != {}
      invariant todo <= src.Keys && written == from.Keys - todo
      invariant tree == if dryRun then target else target + (from - todo)
      decreases todo
    {
      var p :| p in todo;
      if !IsGit(p) && p != MARKER && p != LEGACY && (overwrite || p !in target) {
        assert p in from;
        if !dryRun { tree := tree[p := src[p]]; }
        written := written + {p};
      }
      todo := todo - {p};
    }
  }

  class Workspace {
    var dirs: map<Loc, Dir>

    function At(loc: Loc): Dir
      reads this
    {
      if loc in dirs then dirs[loc] else NO_DIR
    }

    constructor ()
      ensures dirs == map[]
    {
      dirs := map[];
    }

    method DirectoryInstall(loc: Loc, skill: Skill, opts: Options) returns (r: Outcome)
      modifies this
      ensures (At(loc), r) == AfterInstall(old(At(loc)), loc, skill, opts)
      ensures forall l | l != loc :: (l in dirs <==> l in old(dirs)) && (l in dirs ==> dirs[l] == old(dirs)[l])
      ensures old(dirs).Keys <= dirs.Keys
    {
      var hash := ComputeContentHash(skill.files);
      var (d, ok) := Migrated(At(loc));
      if d != At(loc) { dirs := dirs[loc := d]; }
      if !ok { return Refused; }
      if Matches(d, hash) && !opts.overwrite { return Skipped; }
      var files, written := CopyTree(skill.files, d.files, opts.overwrite, opts.dryRun);
      if !opts.dryRun {
        dirs := dirs[loc := Dir(files, Whole(NewMarker(loc, skill, hash, opts)), d.legacy)];
      }
      r := Installed(written);
    }
  }

  // ---------------------------------------------------------------- what an install leaves behind

  /** The tree on disk has the content its marker records. */
  ghost predicate InSync(d: Dir)
  {
    d.marker.Whole? && ContentHashOf(d.files) == d.marker.m.contentHash
  }

  /** The two trees agree, up to line endings, on every counted path that satisfies `where`. */
  ghost predicate AgreeWhere(t: Tree, u: Tree, where: string -> bool)
  {
    forall p | Counted(p) && where(p) ::
      (p in t <==> p in u) && (p in t && p in u ==> NormaliseLF(t[p]) == NormaliseLF(u[p]))
  }

  lemma NormalEqualMeans(t: Tree, u: Tree)
    ensures Normal(t) == Normal(u) <==> AgreeWhere(t, u, p => true)
  {
    if Normal(t) == Normal(u) {
      forall p | Counted(p)
        ensures (p in t <==> p in u) && (p in t && p in u ==> NormaliseLF(t[p]) == NormaliseLF(u[p]))
      {
        assert (p in t <==> p in Normal(t)) && (p in u <==> p in Normal(u));
      }
    }
  }

  /**
   * An install leaves tree and marker in sync exactly when the old tree and the source already agree outside what is
   * taken over: a file that was there and is not overwritten, one the new source dropped, or one kept under .git in
   * the source leaves drift behind.
   */
  lemma InstallInSyncIff(d: Dir, loc: Loc, skill: Skill, opts: Options)
    requires ValidPaths(d.files) && ValidPaths(skill.files) && !opts.dryRun
    requires AfterInstall(d, loc, skill, opts).1.Installed?
    ensures InSync(AfterInstall(d, loc, skill, opts).0)
      <==> AgreeWhere(d.files, skill.files, p => p !in Taken(d.files, skill.files, opts.overwrite))
  {
    var files := Overlay(d.files, skill.files, opts.overwrite);
    assert AfterInstall(d, loc, skill, opts).0.files == files;
    HashEqualIffTreesEqual(files, skill.files);
    NormalEqualMeans(files, skill.files);
    OverlayAgrees(d.files, skill.files, opts.overwrite);
  }

  lemma OverlayAgrees(target: Tree, src: Tree, overwrite: bool)
    ensures AgreeWhere(Overlay(target, src, overwrite), src, p => true)
      <==> AgreeWhere(target, src, p => p !in Taken(target, src, overwrite))
  {
    var files, taken := Overlay(target, src, overwrite), Taken(target, src, overwrite);
    assert forall p | p in taken :: p in files && files[p] == src[p];
    assert forall p | p !in taken :: (p in files <==> p in target) && (p in files ==> files[p] == target[p]);
  }

  /** For an overwriting install (an update) that is: outside what is copied. */
  lemma RefreshInSyncIff(d: Dir, loc: Loc, skill: Skill, opts: Options)
    requires ValidPaths(d.files) && ValidPaths(skill.files) && opts.overwrite && !opts.dryRun
    requires AfterInstall(d, loc, skill, opts).1.Installed?
    ensures InSync(AfterInstall(d, loc, skill, opts).0) <==> AgreeWhere(d.files, skill.files, p => p !in Payload(skill.files))
  {
    InstallInSyncIff(d, loc, skill, opts);
  }

  /** For a first install: exactly when the source keeps no counted file under .git. */
  lemma FreshInstallInSyncIff(loc: Loc, skill: Skill, opts: Options)
    requires ValidPaths(skill.files) && !opts.dryRun
    ensures InSync(AfterInstall(NO_DIR, loc, skill, opts).0) <==> forall p | p in skill.files && Counted(p) :: !IsGit(p)
  {
    InstallInSyncIff(NO_DIR, loc, skill, opts);
    NothingTakenFrom(skill.files, opts.overwrite);
  }

  lemma NothingTakenFrom(src: Tree, overwrite: bool)
    ensures AgreeWhere(map[], src, p => p !in Taken(map[], src, overwrite)) <==> forall p | p in src && Counted(p) :: !IsGit(p)
  {
    MarkersAreNotCounted();
    assert Taken(map[], src, overwrite) == Payload(src);
    assert forall p | p in src && Counted(p) :: p in Payload(src) <==> !IsGit(p);
  }

  lemma MarkersAreNotCounted()
    ensures !Counted(MARKER) && !Counted(LEGACY)
  {
    BaseNameWithoutSlash(MARKER);
    BaseNameWithoutSlash(LEGACY);
  }

  lemma {:induction false} BaseNameWithoutSlash(path: string)
    requires '/' !in path
    ensures BaseName(path) == path
  {
    if path != [] { BaseNameWithoutSlash(path[..|path| - 1]); }
  }

  /** Installing the same source again without overwrite is skipped and leaves the directory as it is. */
  lemma ReinstallIsSkipped(d: Dir, loc: Loc, skill: Skill, opts: Options, again: Options)
    requires !opts.dryRun && !again.overwrite && !AfterInstall(d, loc, skill, opts).1.Refused?
    ensures var d' := AfterInstall(d, loc, skill, opts).0;
      AfterInstall(d', loc, skill, again) == (d', Skipped)
  {
  }

  /** Without overwrite no existing file changes, whatever the source holds. */
  lemma InstallKeepsExistingFiles(d: Dir, loc: Loc, skill: Skill, opts: Options)
    requires !opts.overwrite
    ensures d.files.Keys <= AfterInstall(d, loc, skill, opts).0.files.Keys
    ensures forall p | p in d.files :: AfterInstall(d, loc, skill, opts).0.files[p] == d.files[p]
  {
  }

  /** A dry run keeps every file, but is promised to write nothing: that holds exactly when there is nothing to migrate. */
  lemma DryRunWritesNothingIff(d: Dir, loc: Loc, skill: Skill, opts: Options)
    requires opts.dryRun
    ensures AfterInstall(d, loc, skill, opts).0.files == d.files
    ensures AfterInstall(d, loc, skill, opts).0 == d <==> d.legacy.Absent? || (d.marker.Absent? && d.legacy.Garbled?)
  {
  }
}
