// fdh update: the scan (update_scan.go), the plan (update_plan.go) and the apply loop (update_run.go),
// for directory adapters.

module Updates {
  import opened Digests
  import opened Order
  import opened ContentHash
  import opened Installs
  import opened Wrappers
  import Sorting

  datatype Hub = Hub(commit: string, skills: map<string, Skill>)

  /** InstalledSkill: where a marker was found and what it says. */
  datatype Found = Found(loc: Loc, marker: Marker)

  datatype Action = Refresh | UpToDate | Drift | Vanished

  /** A plan entry names the skill and the agent, not the directory it was found in. */
  datatype Planned = Planned(skill: string, agent: string, action: Action)

  /** The --skill and --agent filters; empty means all. */
  datatype Filter = Filter(skills: set<string>, agents: set<string>)

  function ScanMarker(loc: Loc, d: Dir): Option<Marker>
  {
    var file := if d.marker.Absent? then d.legacy else d.marker;
    if file.Whole? && (file.m.agent == "" || file.m.agent == loc.agent) then Some(file.m) else None
  }

  predicate Selected(f: Found, filter: Filter)
  {
    (filter.skills == {} || f.marker.name in filter.skills) && (filter.agents == {} || f.loc.agent in filter.agents)
  }

  ghost function Verdict(f: Found, d: Dir, hub: Hub, force: bool): Action
  {
    if f.marker.name !in hub.skills then Vanished
    else if ContentHashOf(d.files) != f.marker.contentHash && !force then Drift
    else if f.marker.hubCommit != "" && f.marker.hubCommit == hub.commit then UpToDate
    else Refresh
  }

  // ---------------------------------------------------------------- scan

  ghost predicate IsScan(dirs: map<Loc, Dir>, found: seq<Found>)
  {
    && (forall i | 0 <= i < |found| :: found[i].loc in dirs && ScanMarker(found[i].loc, dirs[found[i].loc]) == Some(found[i].marker))
    && (forall loc | loc in dirs && ScanMarker(loc, dirs[loc]).Some? :: Found(loc, ScanMarker(loc, dirs[loc]).value) in found)
  }

  lemma ScanOneMore(dirs: map<Loc, Dir>, todo: set<Loc>, loc: Loc, found: seq<Found>, found': seq<Found>)
    requires loc in todo && loc in dirs && IsScan(dirs - todo, found)
    requires var m := ScanMarker(loc, dirs[loc]); found' == if m.Some? then found + [Found(loc, m.value)] else found
    ensures IsScan(dirs - (todo - {loc}), found')
  {
    var more := dirs - (todo - {loc});
    forall l | l in more && ScanMarker(l, more[l]).Some? ensures Found(l, ScanMarker(l, more[l]).value) in found' {
      if l == loc { assert found'[|found|] == Found(l, ScanMarker(l, more[l]).value); } else { assert l in dirs - todo; }
    }
  }

  method FindInstalled(ws: Workspace) returns (found: seq<Found>)
    ensures IsScan(ws.dirs, found)
  {
    found := [];
    var todo := ws.dirs.Keys;
    while todo != {}
      invariant todo <= ws.dirs.Keys
      invariant IsScan(ws.dirs - todo, found)
      decreases todo
    {
      var loc :| loc in todo;
      var m := ScanMarker(loc, ws.dirs[loc]);
      ghost var before := found;
      if m.Some? { found := found + [Found(loc, m.value)]; }
      ScanOneMore(ws.dirs, todo, loc, before, found);
      todo := todo - {loc};
    }
    assert ws.dirs - todo == ws.dirs;
  }

  // ---------------------------------------------------------------- plan

  ghost function Plans(dirs: map<Loc, Dir>, found: seq<Found>, hub: Hub, filter: Filter, force: bool): seq<Planned>
    requires forall i | 0 <= i < |found| :: found[i].loc in dirs
  {
    if found == [] then [] else
      var f := found[|found| - 1];
      Plans(dirs, found[..|found| - 1], hub, filter, force)
      + if Selected(f, filter) then [Planned(f.marker.name, f.loc.agent, Verdict(f, dirs[f.loc], hub, force))] else []
  }

  predicate PlanLeq(a: Planned, b: Planned)
  {
    if a.skill != b.skill then Leq(a.skill, b.skill) else Leq(a.agent, b.agent)
  }

  lemma PlanLeqIsPreorder()
    ensures Sorting.TotalPreorder(PlanLeq)
  {
    forall a, b ensures PlanLeq(a, b) || PlanLeq(b, a) { LeqTotal(a.skill, b.skill); LeqTotal(a.agent, b.agent); }
    forall a, b, c | PlanLeq(a, b) && PlanLeq(b, c) ensures PlanLeq(a, c) {
      if a.skill != b.skill && b.skill != c.skill {
        LeqTransitive(a.skill, b.skill, c.skill);
        if a.skill == c.skill { LeqAntisymmetric(a.skill, b.skill); }
      } else if a.skill == b.skill == c.skill {
        LeqTransitive(a.agent, b.agent, c.agent);
      }
    }
  }

  /** plan holds one entry per selected installed skill, ordered by (skill, agent). */
  ghost predicate IsPlan(dirs: map<Loc, Dir>, found: seq<Found>, hub: Hub, filter: Filter, force: bool, plan: seq<Planned>)
    requires forall i | 0 <= i < |found| :: found[i].loc in dirs
  {
    multiset(plan) == multiset(Plans(dirs, found, hub, filter, force)) && Sorting.Sorted(plan, PlanLeq)
  }

  method Classify(ws: Workspace, f: Found, hub: Hub, force: bool) returns (a: Action)
    requires f.loc in ws.dirs
    ensures a == Verdict(f, ws.dirs[f.loc], hub, force)
  {
    if f.marker.name !in hub.skills { return Vanished; }
    var hash := ComputeContentHash(ws.dirs[f.loc].files);
    if hash != f.marker.contentHash && !force { return Drift; }
    if f.marker.hubCommit != "" && f.marker.hubCommit == hub.commit { return UpToDate; }
    a := Refresh;
  }

  method PlanUpdates(ws: Workspace, found: seq<Found>, hub: Hub, filter: Filter, force: bool) returns (plan: seq<Planned>)
    requires forall i | 0 <= i < |found| :: found[i].loc in ws.dirs
    ensures IsPlan(ws.dirs, found, hub, filter, force, plan)
  {
    plan := [];
    for i := 0 to |found|
      invariant plan == Plans(ws.dirs, found[..i], hub, filter, force)
    {
      assert found[..i + 1][..i] == found[..i];
      if Selected(found[i], filter) {
        var a := Classify(ws, found[i], hub, force);
        plan := plan + [Planned(found[i].marker.name, found[i].loc.agent, a)];
      }
    }
    assert found[..|found|] == found;
    PlanLeqIsPreorder();
    plan := Sorting.Sort(plan, PlanLeq);
  }

  // ---------------------------------------------------------------- file diff

  datatype Diff = Diff(added: seq<string>, modified: seq<string>, deleted: seq<string>)

  /** The counted paths only the hub has, those whose normalised contents differ, and those only the install has. */
  ghost predicate IsDiff(installed: Tree, hub: Tree, d: Diff)
  {
    var i, h := Normal(installed), Normal(hub);
    && StrictlySorted(d.added) && StrictlySorted(d.modified) && StrictlySorted(d.deleted)
    && (forall p :: p in d.added <==> p in h && p !in i)
    && (forall p :: p in d.modified <==> p in h && p in i && h[p] != i[p])
    && (forall p :: p in d.deleted <==> p in i && p !in h)
  }

  method ListFiles(t: Tree) returns (files: map<string, Digest>)
    ensures files == map p | p in Normal(t) :: Digest(Normal(t)[p])
  {
    files := map[];
    var todo := t.Keys;
    while todo != {}
      invariant todo <= t.Keys
      invariant files == map p | p in t && p !in todo && Counted(p) :: Digest(NormaliseLF(t[p]))
      decreases todo
    {
      var p :| p in todo;
      if !IsMarkerName(BaseName(p)) {
        var hash := HashFileLF(t[p]);
        files := files[p := hash];
      }
      todo := todo - {p};
    }
  }

  method NewOrChanged(hubFiles: map<string, Digest>, insFiles: map<string, Digest>)
    returns (added: set<string>, modified: set<string>)
    ensures added == hubFiles.Keys - insFiles.Keys
    ensures modified == set p | p in hubFiles && p in insFiles && insFiles[p] != hubFiles[p]
  {
    added, modified := {}, {};
    var todo := hubFiles.Keys;
    while todo != {}
      invariant todo <= hubFiles.Keys
      invariant added == hubFiles.Keys - todo - insFiles.Keys
      invariant modified == set p | p in hubFiles && p !in todo && p in insFiles && insFiles[p] != hubFiles[p]
      decreases todo
    {
      var p :| p in todo;
      if p !in insFiles { added := added + {p}; } else if insFiles[p] != hubFiles[p] { modified := modified + {p}; }
      todo := todo - {p};
    }
  }

  method Gone(insFiles: map<string, Digest>, hubFiles: map<string, Digest>) returns (deleted: set<string>)
    ensures deleted == insFiles.Keys - hubFiles.Keys
  {
    deleted := {};
    var todo := insFiles.Keys;
    while todo != {}
      invariant todo <= insFiles.Keys
      invariant deleted == insFiles.Keys - todo - hubFiles.Keys
      decreases todo
    {
      var p :| p in todo;
      if p !in hubFiles { deleted := deleted + {p}; }
      todo := todo - {p};
    }
  }

  method ComputeFileDiff(installed: Tree, hub: Tree) returns (d: Diff)
    ensures IsDiff(installed, hub, d)
  {
    var hubFiles := ListFiles(hub);
    var insFiles := ListFiles(installed);
    var added, modified := NewOrChanged(hubFiles, insFiles);
    var deleted := Gone(insFiles, hubFiles);
    var a := SortedKeys(added);
    var m := SortedKeys(modified);
    var x := SortedKeys(deleted);
    d := Diff(a, m, x);
  }

  /** The file diff shows nothing exactly when the content hashes agree. */
  lemma DiffEmptyIffHashesEqual(installed: Tree, hub: Tree, d: Diff)
    requires ValidPaths(installed) && ValidPaths(hub) && IsDiff(installed, hub, d)
    ensures d == Diff([], [], []) <==> ContentHashOf(installed) == ContentHashOf(hub)
  {
    HashEqualIffTreesEqual(installed, hub);
    var i, h := Normal(installed), Normal(hub);
    if d == Diff([], [], []) {
      forall p | p in h ensures p in i && h[p] == i[p] { assert p !in d.added && p !in d.modified; }
      forall p | p in i ensures p in h { assert p !in d.deleted; }
    } else if d.added != [] {
      assert d.added[0] in d.added && d.added[0] in h && d.added[0] !in i;
    } else if d.modified != [] {
      assert d.modified[0] in d.modified && h[d.modified[0]] != i[d.modified[0]];
    } else {
      assert d.deleted[0] in d.deleted && d.deleted[0] in i && d.deleted[0] !in h;
    }
  }

  // ---------------------------------------------------------------- apply

  /** Where a refresh of (skill, agent) writes, whatever directory it was planned for. */
  function TargetOf(p: Planned, scope: Scope): Loc
  {
    Loc(scope, p.agent, p.skill)
  }

  /** The directory at loc after the plan's refreshes, in order. */
  ghost function Applied(d: Dir, loc: Loc, plan: seq<Planned>, hub: Hub, scope: Scope, dryRun: bool): Dir
  {
    if plan == [] then d else
      var p := plan[|plan| - 1];
      var d1 := Applied(d, loc, plan[..|plan| - 1], hub, scope, dryRun);
      if p.action == Refresh && p.skill in hub.skills && TargetOf(p, scope) == loc
      then AfterInstall(d1, loc, hub.skills[p.skill], Options(hub.commit, true, dryRun)).0
      else d1
  }

  function DirAt(dirs: map<Loc, Dir>, loc: Loc): Dir
  {
    if loc in dirs then dirs[loc] else NO_DIR
  }

  /** applyUpdate for the last entry of what has been planned so far, when the others have been applied to start. */
  method ApplyOne(ws: Workspace, p: Planned, hub: Hub, scope: Scope, dryRun: bool, ghost plan: seq<Planned>, ghost start: map<Loc, Dir>)
    returns (r: Outcome)
    requires plan != [] && plan[|plan| - 1] == p && p.action == Refresh && p.skill in hub.skills
    requires forall loc :: ws.At(loc) == Applied(DirAt(start, loc), loc, plan[..|plan| - 1], hub, scope, dryRun)
    modifies ws
    ensures forall loc :: ws.At(loc) == Applied(DirAt(start, loc), loc, plan, hub, scope, dryRun)
    ensures old(ws.dirs).Keys <= ws.dirs.Keys
  {
    r := ws.DirectoryInstall(TargetOf(p, scope), hub.skills[p.skill], Options(hub.commit, true, dryRun));
    forall loc ensures ws.At(loc) == Applied(DirAt(start, loc), loc, plan, hub, scope, dryRun) {
      assert old(ws.At(loc)) == Applied(DirAt(start, loc), loc, plan[..|plan| - 1], hub, scope, dryRun);
      if loc != TargetOf(p, scope) { assert ws.At(loc) == old(ws.At(loc)); }
    }
  }

  /** Every planned item is in one of the three lists, the refreshes among the applied and the failed. */
  ghost predicate Reported(plan: seq<Planned>, applied: seq<Planned>, skipped: seq<Planned>, failed: seq<Planned>)
  {
    && multiset(applied) + multiset(skipped) + multiset(failed) == multiset(plan)
    && (forall p | p in applied || p in failed :: p.action == Refresh) && (forall p | p in skipped :: p.action != Refresh)
  }

  method ApplyPlan(ws: Workspace, plan: seq<Planned>, hub: Hub, scope: Scope, dryRun: bool)
    returns (applied: seq<Planned>, skipped: seq<Planned>, failed: seq<Planned>)
    modifies ws
    ensures forall loc :: ws.At(loc) == Applied(DirAt(old(ws.dirs), loc), loc, plan, hub, scope, dryRun)
    ensures old(ws.dirs).Keys <= ws.dirs.Keys
    ensures Reported(plan, applied, skipped, failed)
  {
    applied, skipped, failed := [], [], [];
    for i := 0 to |plan|
      invariant forall loc :: ws.At(loc) == Applied(DirAt(old(ws.dirs), loc), loc, plan[..i], hub, scope, dryRun)
      invariant old(ws.dirs).Keys <= ws.dirs.Keys
      invariant Reported(plan[..i], applied, skipped, failed)
    {
      var p := plan[i];
      assert plan[..i + 1] == plan[..i] + [p] && plan[..i + 1][..i] == plan[..i];
      ReportedOneMore(plan[..i], p, applied, skipped, failed);
      if p.action != Refresh {
        skipped := skipped + [p];
      } else if p.skill !in hub.skills {
        failed := failed + [p];
      } else {
        var r := ApplyOne(ws, p, hub, scope, dryRun, plan[..i + 1], old(ws.dirs));
        if r.Refused? { failed := failed + [p]; } else { applied := applied + [p]; }
      }
    }
    assert plan[..|plan|] == plan;
  }

  lemma ReportedOneMore(plan: seq<Planned>, p: Planned, applied: seq<Planned>, skipped: seq<Planned>, failed: seq<Planned>)
    requires Reported(plan, applied, skipped, failed)
    ensures p.action != Refresh ==> Reported(plan + [p], applied, skipped + [p], failed)
    ensures p.action == Refresh ==> Reported(plan + [p], applied + [p], skipped, failed) && Reported(plan + [p], applied, skipped, failed + [p])
  {
  }

  /** One `fdh update` takes dirs to dirs'. */
  ghost predicate Updated(dirs: map<Loc, Dir>, dirs': map<Loc, Dir>, hub: Hub, filter: Filter, force: bool, scope: Scope, dryRun: bool)
  {
    exists found: seq<Found>, plan: seq<Planned> ::
      UpdatedBy(dirs, dirs', hub, filter, force, scope, dryRun, found, plan)
  }

  ghost predicate UpdatedBy(dirs: map<Loc, Dir>, dirs': map<Loc, Dir>, hub: Hub, filter: Filter, force: bool, scope: Scope, dryRun: bool,
                            found: seq<Found>, plan: seq<Planned>)
  {
    && IsScan(dirs, found) && IsPlan(dirs, found, hub, filter, force, plan)
    && forall loc :: DirAt(dirs', loc) == Applied(DirAt(dirs, loc), loc, plan, hub, scope, dryRun)
  }

  predicate AnyRefresh(plan: seq<Planned>)
  {
    exists i :: 0 <= i < |plan| && plan[i].action == Refresh
  }

  lemma {:induction false} NothingToApply(d: Dir, loc: Loc, plan: seq<Planned>, hub: Hub, scope: Scope, dryRun: bool)
    requires !AnyRefresh(plan)
    ensures Applied(d, loc, plan, hub, scope, dryRun) == d
  {
    if plan != [] {
      var front := plan[..|plan| - 1];
      assert forall i | 0 <= i < |front| :: front[i] == plan[i];
      NothingToApply(d, loc, front, hub, scope, dryRun);
      assert plan[|plan| - 1].action != Refresh;
    }
  }

  /** What an update reports: nothing when it has nothing to refresh, or is not confirmed. */
  ghost predicate Summary(plan: seq<Planned>, goes: bool, applied: seq<Planned>, skipped: seq<Planned>, failed: seq<Planned>)
  {
    if goes && AnyRefresh(plan) then Reported(plan, applied, skipped, failed) else applied == skipped == failed == []
  }

  /** `confirmed` stands for --yes, JSON output, and a yes to the question that is asked otherwise. */
  method RunUpdate(ws: Workspace, hub: Hub, filter: Filter, force: bool, scope: Scope, dryRun: bool, confirmed: bool)
    returns (applied: seq<Planned>, skipped: seq<Planned>, failed: seq<Planned>)
    modifies ws
    ensures exists found, plan | IsScan(old(ws.dirs), found) && IsPlan(old(ws.dirs), found, hub, filter, force, plan) ::
      Summary(plan, confirmed || dryRun, applied, skipped, failed)
    ensures if confirmed || dryRun then Updated(old(ws.dirs), ws.dirs, hub, filter, force, scope, dryRun) else ws.dirs == old(ws.dirs)
    ensures old(ws.dirs).Keys <= ws.dirs.Keys
  {
    applied, skipped, failed := [], [], [];
    var found := FindInstalled(ws);
    var plan := PlanUpdates(ws, found, hub, filter, force);
    assert IsScan(old(ws.dirs), found) && IsPlan(old(ws.dirs), found, hub, filter, force, plan);
    var anyRefresh := HasRefresh(plan);
    if !anyRefresh {
      forall loc ensures DirAt(ws.dirs, loc) == Applied(DirAt(ws.dirs, loc), loc, plan, hub, scope, dryRun) {
        NothingToApply(DirAt(ws.dirs, loc), loc, plan, hub, scope, dryRun);
      }
      assert UpdatedBy(old(ws.dirs), ws.dirs, hub, filter, force, scope, dryRun, found, plan);
      return;
    }
    if !confirmed && !dryRun { return; }
    applied, skipped, failed := ApplyPlan(ws, plan, hub, scope, dryRun);
    assert forall loc :: DirAt(ws.dirs, loc) == ws.At(loc);
    assert UpdatedBy(old(ws.dirs), ws.dirs, hub, filter, force, scope, dryRun, found, plan);
  }

  method HasRefresh(plan: seq<Planned>) returns (anyRefresh: bool)
    ensures anyRefresh <==> AnyRefresh(plan)
  {
    anyRefresh := false;
    for i := 0 to |plan|
      invariant !anyRefresh && forall j | 0 <= j < i :: plan[j].action != Refresh
    {
      if plan[i].action == Refresh {
        anyRefresh := true;
        break;
      }
    }
  }
}
