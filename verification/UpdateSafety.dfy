// Local edits and `fdh update`: when an unforced update leaves an edited directory alone, and when it does not.

module UpdateSafety {
  import opened Digests
  import opened ContentHash
  import opened Installs
  import opened Updates

  /** The directory is one update knows, and its content is not what its marker records. */
  ghost predicate Drifted(loc: Loc, d: Dir)
  {
    ScanMarker(loc, d).Some? && ContentHashOf(d.files) != ScanMarker(loc, d).value.contentHash
  }

  /** Some selected installed directory is refreshed, and its marker's name sends the refresh to `target`. */
  ghost predicate Refreshes(dirs: map<Loc, Dir>, hub: Hub, filter: Filter, force: bool, scope: Scope, source: Loc, target: Loc)
  {
    && source in dirs && ScanMarker(source, dirs[source]).Some?
    && var f := Found(source, ScanMarker(source, dirs[source]).value);
    && Selected(f, filter) && Verdict(f, dirs[source], hub, force) == Refresh
    && target == Loc(scope, source.agent, f.marker.name)
  }

  ghost predicate Targeted(dirs: map<Loc, Dir>, hub: Hub, filter: Filter, force: bool, scope: Scope, target: Loc)
  {
    exists source :: Refreshes(dirs, hub, filter, force, scope, source, target)
  }

  lemma {:induction false} PlanEntries(dirs: map<Loc, Dir>, found: seq<Found>, hub: Hub, filter: Filter, force: bool, p: Planned)
    requires forall i | 0 <= i < |found| :: found[i].loc in dirs
    ensures p in Plans(dirs, found, hub, filter, force) <==>
      exists i :: 0 <= i < |found| && Selected(found[i], filter)
        && p == Planned(found[i].marker.name, found[i].loc.agent, Verdict(found[i], dirs[found[i].loc], hub, force))
  {
    if found != [] {
      var n := |found| - 1;
      PlanEntries(dirs, found[..n], hub, filter, force, p);
      if Selected(found[n], filter) && p == Planned(found[n].marker.name, found[n].loc.agent, Verdict(found[n], dirs[found[n].loc], hub, force)) {
        assert p in Plans(dirs, found, hub, filter, force);
      }
    }
  }

  /** The plan contains a refresh written to target exactly when some installed directory is refreshed into it. */
  lemma PlanTargets(dirs: map<Loc, Dir>, found: seq<Found>, plan: seq<Planned>, hub: Hub, filter: Filter, force: bool, scope: Scope, target: Loc)
    requires IsScan(dirs, found) && IsPlan(dirs, found, hub, filter, force, plan)
    ensures target.scope == scope && Planned(target.name, target.agent, Refresh) in plan <==> Targeted(dirs, hub, filter, force, scope, target)
  {
    var p := Planned(target.name, target.agent, Refresh);
    assert p in plan <==> p in multiset(plan);
    assert p in Plans(dirs, found, hub, filter, force) <==> p in multiset(Plans(dirs, found, hub, filter, force));
    PlanEntries(dirs, found, hub, filter, force, p);
    if target.scope == scope && p in plan {
      var i :| 0 <= i < |found| && Selected(found[i], filter)
        && p == Planned(found[i].marker.name, found[i].loc.agent, Verdict(found[i], dirs[found[i].loc], hub, force));
      assert Refreshes(dirs, hub, filter, force, scope, found[i].loc, target);
    }
    if Targeted(dirs, hub, filter, force, scope, target) {
      var source :| Refreshes(dirs, hub, filter, force, scope, source, target);
      var f := Found(source, ScanMarker(source, dirs[source]).value);
      assert f in found;
    }
  }

  lemma {:induction false} UntargetedIsUntouched(d: Dir, loc: Loc, plan: seq<Planned>, hub: Hub, scope: Scope, dryRun: bool)
    requires loc.scope != scope || Planned(loc.name, loc.agent, Refresh) !in plan
    ensures Applied(d, loc, plan, hub, scope, dryRun) == d
  {
    if plan != [] {
      UntargetedIsUntouched(d, loc, plan[..|plan| - 1], hub, scope, dryRun);
      assert plan[|plan| - 1] in plan;
    }
  }

  /** Markers an install can build on: migration cannot fail. */
  predicate Sound(d: Dir)
  {
    !d.marker.Garbled? && (d.marker.Absent? ==> !d.legacy.Garbled?)
  }

  ghost predicate Overwritten(d: Dir, loc: Loc, hub: Hub)
    requires loc.name in hub.skills
  {
    var skill := hub.skills[loc.name];
    && d.marker == Whole(Marker(loc.name, skill.version, hub.commit, ContentHashOf(skill.files), loc.agent))
    && forall p | p in Payload(skill.files) :: p in d.files && d.files[p] == skill.files[p]
  }

  lemma {:induction false} TargetedIsOverwritten(d: Dir, loc: Loc, plan: seq<Planned>, hub: Hub)
    requires Sound(d) && loc.name in hub.skills
    ensures Sound(Applied(d, loc, plan, hub, loc.scope, false))
    ensures Planned(loc.name, loc.agent, Refresh) in plan ==> Overwritten(Applied(d, loc, plan, hub, loc.scope, false), loc, hub)
  {
    if plan != [] { TargetedIsOverwritten(d, loc, plan[..|plan| - 1], hub); }
  }

  /**
   * The exact reach of an update: it leaves a directory as it is when no refreshed directory's marker resolves
   * to it, and otherwise puts the hub's content over it - edited or not.
   */
  lemma UpdateTouchesOnlyTargets(dirs: map<Loc, Dir>, dirs': map<Loc, Dir>, hub: Hub, filter: Filter, force: bool, scope: Scope, loc: Loc)
    requires Updated(dirs, dirs', hub, filter, force, scope, false) && loc in dirs && Sound(dirs[loc])
    ensures !Targeted(dirs, hub, filter, force, scope, loc) ==> DirAt(dirs', loc) == dirs[loc]
    ensures Targeted(dirs, hub, filter, force, scope, loc) ==> loc.name in hub.skills && Overwritten(DirAt(dirs', loc), loc, hub)
  {
    var found, plan :| UpdatedBy(dirs, dirs', hub, filter, force, scope, false, found, plan);
    PlanTargets(dirs, found, plan, hub, filter, force, scope, loc);
    if Targeted(dirs, hub, filter, force, scope, loc) {
      var source :| Refreshes(dirs, hub, filter, force, scope, source, loc);
      TargetedIsOverwritten(dirs[loc], loc, plan, hub);
    } else {
      UntargetedIsUntouched(dirs[loc], loc, plan, hub, scope, false);
    }
  }

  /** Every marker names the directory it sits in, at the scope updates write to. */
  predicate Homed(dirs: map<Loc, Dir>, scope: Scope)
  {
    forall loc | loc in dirs && ScanMarker(loc, dirs[loc]).Some? ::
      loc.scope == scope && ScanMarker(loc, dirs[loc]).value.name == loc.name
  }

  lemma HomedDriftIsNotTargeted(dirs: map<Loc, Dir>, hub: Hub, filter: Filter, scope: Scope, loc: Loc)
    requires Homed(dirs, scope) && loc in dirs && Drifted(loc, dirs[loc])
    ensures !Targeted(dirs, hub, filter, false, scope, loc)
  {
    forall source ensures !Refreshes(dirs, hub, filter, false, scope, source, loc) { }
  }

  /** When markers are where they belong, an unforced update never touches a directory with local edits. */
  lemma UnforcedUpdateSparesEdits(dirs: map<Loc, Dir>, dirs': map<Loc, Dir>, hub: Hub, filter: Filter, scope: Scope, dryRun: bool, loc: Loc)
    requires Updated(dirs, dirs', hub, filter, false, scope, dryRun) && Homed(dirs, scope)
    requires loc in dirs && Drifted(loc, dirs[loc])
    ensures DirAt(dirs', loc) == dirs[loc]
  {
    var found, plan :| UpdatedBy(dirs, dirs', hub, filter, false, scope, dryRun, found, plan);
    PlanTargets(dirs, found, plan, hub, filter, false, scope, loc);
    HomedDriftIsNotTargeted(dirs, hub, filter, scope, loc);
    UntargetedIsUntouched(dirs[loc], loc, plan, hub, scope, dryRun);
  }

  /**
   * Otherwise it may: a clean, stale copy of a skill directory (same agent, marker still naming the original)
   * makes an unforced update overwrite the edited original.
   */
  lemma CopiedDirectoryLosesEdits(dirs: map<Loc, Dir>, dirs': map<Loc, Dir>, hub: Hub, original: Loc, copy: Loc, p: string)
    requires Updated(dirs, dirs', hub, Filter({}, {}), false, Project, false)
    requires original in dirs && Sound(dirs[original]) && Drifted(original, dirs[original]) && original.scope == Project
    requires copy in dirs && copy.agent == original.agent && !Drifted(copy, dirs[copy])
    requires ScanMarker(copy, dirs[copy]).Some?
    requires var m := ScanMarker(copy, dirs[copy]).value; m.name == original.name && m.hubCommit != hub.commit
    requires original.name in hub.skills && p in Payload(hub.skills[original.name].files)
    ensures p in DirAt(dirs', original).files && DirAt(dirs', original).files[p] == hub.skills[original.name].files[p]
  {
    assert Refreshes(dirs, hub, Filter({}, {}), false, Project, copy, original);
    UpdateTouchesOnlyTargets(dirs, dirs', hub, Filter({}, {}), false, Project, original);
  }
}
