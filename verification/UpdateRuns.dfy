// Whole runs of installs, local edits, hub moves and updates: which of them lose an edit. A run may install at
// any scope, as the command line allows, while updates always write to the project.

module UpdateRuns {
  import opened Digests
  import opened ContentHash
  import opened Installs
  import opened Updates
  import opened UpdateSafety
  import Order
  import Sorting

  datatype State = State(dirs: map<Loc, Dir>, hub: Hub)

  datatype Event =
    | Install(loc: Loc, skill: Skill)
    | Edit(loc: Loc, files: Tree)
    | LineEndings(loc: Loc, files: Tree)
    | MoveHub(hub: Hub)
    | Update(filter: Filter)

  ghost predicate ElsewhereSame(dirs: map<Loc, Dir>, dirs': map<Loc, Dir>, loc: Loc)
  {
    forall l | l != loc :: (l in dirs <==> l in dirs') && (l in dirs ==> dirs'[l] == dirs[l])
  }

  /** One step of a workspace. Installs go to any of these scopes (--scope, --global), updates always to the project. */
  ghost predicate Step(scopes: set<Scope>, s: State, e: Event, s': State)
  {
    match e
    case Install(loc, skill) =>
      && loc.scope in scopes && s'.hub == s.hub && ElsewhereSame(s.dirs, s'.dirs, loc)
      && DirAt(s'.dirs, loc) == AfterInstall(DirAt(s.dirs, loc), loc, skill, Options(s.hub.commit, false, false)).0
    case Edit(loc, files) =>
      loc in s.dirs && s' == s.(dirs := s.dirs[loc := s.dirs[loc].(files := files)])
    case LineEndings(loc, files) =>
      && loc in s.dirs && s' == s.(dirs := s.dirs[loc := s.dirs[loc].(files := files)])
      && Normal(files) == Normal(s.dirs[loc].files)
    case MoveHub(hub) => s' == s.(hub := hub)
    case Update(filter) =>
      && s'.hub == s.hub && Updated(s.dirs, s'.dirs, s.hub, filter, false, Project, false)
      && s.dirs.Keys <= s'.dirs.Keys
  }

  ghost predicate IsRun(scopes: set<Scope>, states: seq<State>, events: seq<Event>)
  {
    && |states| == |events| + 1 && states[0].dirs == map[]
    && forall i | 0 <= i < |events| :: Step(scopes, states[i], events[i], states[i + 1])
  }

  /** A marker written by this program names its own directory and agent. */
  predicate MarkersOwn(dirs: map<Loc, Dir>)
  {
    forall loc | loc in dirs ::
      && dirs[loc].legacy.Absent?
      && (dirs[loc].marker.Absent? || (dirs[loc].marker.Whole? && loc.scope == Project
            && dirs[loc].marker.m.name == loc.name && dirs[loc].marker.m.agent == loc.agent))
  }

  lemma {:induction false} AppliedOwn(d: Dir, loc: Loc, plan: seq<Planned>, hub: Hub)
    requires d.legacy.Absent? && (d.marker.Absent? || (d.marker.Whole? && loc.scope == Project
            && d.marker.m.name == loc.name && d.marker.m.agent == loc.agent))
    ensures var d' := Applied(d, loc, plan, hub, Project, false);
      d'.legacy.Absent? && (d'.marker.Absent? || (d'.marker.Whole? && loc.scope == Project
            && d'.marker.m.name == loc.name && d'.marker.m.agent == loc.agent))
  {
    if plan != [] { AppliedOwn(d, loc, plan[..|plan| - 1], hub); }
  }

  lemma StepKeepsOwn(scopes: set<Scope>, s: State, e: Event, s': State)
    requires MarkersOwn(s.dirs) && Step(scopes, s, e, s') && User !in scopes
    ensures MarkersOwn(s'.dirs)
  {
    match e
    case Install(loc, skill) =>
      forall l | l in s'.dirs
        ensures s'.dirs[l].legacy.Absent? && (s'.dirs[l].marker.Absent? || (s'.dirs[l].marker.Whole? && l.scope == Project
            && s'.dirs[l].marker.m.name == l.name && s'.dirs[l].marker.m.agent == l.agent))
      {
        if l == loc { assert s'.dirs[l] == DirAt(s'.dirs, loc); }
      }
    case Update(filter) =>
      var found, plan :| UpdatedBy(s.dirs, s'.dirs, s.hub, filter, false, Project, false, found, plan);
      forall l | l in s'.dirs
        ensures s'.dirs[l].legacy.Absent? && (s'.dirs[l].marker.Absent? || (s'.dirs[l].marker.Whole? && l.scope == Project
            && s'.dirs[l].marker.m.name == l.name && s'.dirs[l].marker.m.agent == l.agent))
      {
        AppliedOwn(DirAt(s.dirs, l), l, plan, s.hub);
        assert s'.dirs[l] == DirAt(s'.dirs, l);
      }
    case _ =>
  }

  lemma {:induction false} RunKeepsOwn(scopes: set<Scope>, states: seq<State>, events: seq<Event>, i: nat)
    requires IsRun(scopes, states, events) && i < |states| && User !in scopes
    ensures MarkersOwn(states[i].dirs)
  {
    if i > 0 {
      RunKeepsOwn(scopes, states, events, i - 1);
      StepKeepsOwn(scopes, states[i - 1], events[i - 1], states[i]);
    }
  }

  lemma OwnMarkersAreHome(dirs: map<Loc, Dir>)
    requires MarkersOwn(dirs)
    ensures Homed(dirs, Project)
  {
  }

  /** Event i, if it is an update, leaves loc as it was if it had local edits. */
  ghost predicate SparedAt(states: seq<State>, events: seq<Event>, i: nat, loc: Loc)
    requires i < |events| && |states| == |events| + 1
  {
    events[i].Update? && loc in states[i].dirs && Drifted(loc, states[i].dirs[loc]) ==>
      DirAt(states[i + 1].dirs, loc) == states[i].dirs[loc]
  }

  ghost predicate SparesEdits(states: seq<State>, events: seq<Event>)
    requires |states| == |events| + 1
  {
    forall i: nat, loc | i < |events| :: SparedAt(states, events, i, loc)
  }

  lemma StepSparesEdits(scopes: set<Scope>, s: State, e: Event, s': State, loc: Loc)
    requires MarkersOwn(s.dirs) && Step(scopes, s, e, s') && e.Update? && loc in s.dirs && Drifted(loc, s.dirs[loc])
    ensures DirAt(s'.dirs, loc) == s.dirs[loc]
  {
    OwnMarkersAreHome(s.dirs);
    UnforcedUpdateSparesEdits(s.dirs, s'.dirs, s.hub, e.filter, Project, false, loc);
  }

  /** No update of any run touches a directory with local edits exactly when no install goes to user scope. */
  lemma RunsSpareEditsIff(scopes: set<Scope>)
    ensures (forall states, events | IsRun(scopes, states, events) :: SparesEdits(states, events)) <==> User !in scopes
  {
    if User in scopes {
      var states, events := SomeLosingRun(scopes);
      assert !SparedAt(states, events, 5, HERE);
      assert !SparesEdits(states, events);
    } else {
      forall states: seq<State>, events: seq<Event> | IsRun(scopes, states, events) ensures SparesEdits(states, events) {
        forall i: nat, loc | i < |events| ensures SparedAt(states, events, i, loc) {
          RunKeepsOwn(scopes, states, events, i);
          assert Step(scopes, states[i], events[i], states[i + 1]);
          if events[i].Update? && loc in states[i].dirs && Drifted(loc, states[i].dirs[loc]) {
            StepSparesEdits(scopes, states[i], events[i], states[i + 1], loc);
          }
        }
      }
    }
  }

  /** Nobody edits or re-installs loc in events i..j. */
  predicate LeftAlone(events: seq<Event>, loc: Loc, i: nat, j: nat)
  {
    forall k | i <= k < j && k < |events| :: !(events[k].Install? && events[k].loc == loc) && !(events[k].Edit? && events[k].loc == loc)
  }

  /** loc has local edits in s, and in s' it has the same ones, up to line endings. */
  ghost predicate KeepsEdits(s: State, s': State, loc: Loc)
  {
    loc in s.dirs && Drifted(loc, s.dirs[loc]) ==>
      loc in s'.dirs && Drifted(loc, s'.dirs[loc]) && Normal(s'.dirs[loc].files) == Normal(s.dirs[loc].files)
  }

  ghost predicate EditsSurvive(states: seq<State>, events: seq<Event>)
  {
    forall i: nat, j: nat, loc | i <= j < |states| && LeftAlone(events, loc, i, j) :: KeepsEdits(states[i], states[j], loc)
  }

  lemma StepKeepsEdits(scopes: set<Scope>, s: State, e: Event, s': State, loc: Loc)
    requires MarkersOwn(s.dirs) && Step(scopes, s, e, s')
    requires !(e.Install? && e.loc == loc) && !(e.Edit? && e.loc == loc)
    ensures KeepsEdits(s, s', loc)
  {
    if e.Update? && loc in s.dirs && Drifted(loc, s.dirs[loc]) { StepSparesEdits(scopes, s, e, s', loc); }
  }

  lemma {:induction false} RunKeepsEdits(scopes: set<Scope>, states: seq<State>, events: seq<Event>, i: nat, j: nat, loc: Loc)
    requires IsRun(scopes, states, events) && i <= j < |states| && LeftAlone(events, loc, i, j) && User !in scopes
    ensures KeepsEdits(states[i], states[j], loc)
    decreases j - i
  {
    if i < j {
      RunKeepsEdits(scopes, states, events, i, j - 1, loc);
      RunKeepsOwn(scopes, states, events, j - 1);
      assert Step(scopes, states[j - 1], events[j - 1], states[j]);
      StepKeepsEdits(scopes, states[j - 1], events[j - 1], states[j], loc);
    }
  }

  /**
   * An edited directory keeps its content, up to line endings, through any number of hub moves, updates and installs
   * elsewhere, in every run, exactly when no install goes to user scope.
   */
  lemma EditsSurviveIff(scopes: set<Scope>)
    ensures (forall states, events | IsRun(scopes, states, events) :: EditsSurvive(states, events)) <==> User !in scopes
  {
    if User in scopes {
      var states, events := SomeLosingRun(scopes);
      assert LeftAlone(events, HERE, 4, 6) && !KeepsEdits(states[4], states[6], HERE);
      assert !EditsSurvive(states, events);
    } else {
      forall states: seq<State>, events: seq<Event> | IsRun(scopes, states, events) ensures EditsSurvive(states, events) {
        forall i: nat, j: nat, loc | i <= j < |states| && LeftAlone(events, loc, i, j) ensures KeepsEdits(states[i], states[j], loc) {
          RunKeepsEdits(scopes, states, events, i, j, loc);
        }
      }
    }
  }

  // ---------------------------------------------------------------- the run that loses an edit

  const HOME := Loc(User, "agent", "s")
  const HERE := Loc(Project, "agent", "s")
  const ALL := Filter({}, {})

  function HubAt(skill: Skill, commit: string): Hub
  {
    Hub(commit, map["s" := skill])
  }

  ghost function MarkerAt(skill: Skill, commit: string): Marker
  {
    Marker("s", skill.version, commit, ContentHashOf(skill.files), "agent")
  }

  ghost function Fresh(skill: Skill, commit: string): Dir
  {
    Dir(skill.files, Whole(MarkerAt(skill, commit)), Absent)
  }

  ghost function Edited(skill: Skill, files: Tree): Dir
  {
    Dir(files, Whole(MarkerAt(skill, "1")), Absent)
  }

  /** A skill without git metadata, and local edits to its files. */
  ghost predicate EditOf(skill: Skill, files: Tree)
  {
    && Payload(skill.files) == skill.files && files.Keys == skill.files.Keys
    && ContentHashOf(files) != ContentHashOf(skill.files) && Normal(files) != Normal(skill.files)
  }

  lemma InstallGives(d: Dir, loc: Loc, skill: Skill, commit: string, overwrite: bool)
    requires loc.name == "s" && loc.agent == "agent" && d.legacy.Absent? && !d.marker.Garbled?
    requires Payload(skill.files) == skill.files && (d == NO_DIR || (overwrite && d.files.Keys == skill.files.Keys))
    ensures AfterInstall(d, loc, skill, Options(commit, overwrite, false)).0 == Fresh(skill, commit)
  {
    assert Overlay(d.files, skill.files, overwrite) == skill.files;
  }

  /** When the one refresh of the plan goes to the project's directory, only that directory changes. */
  lemma OneRefreshUpdates(dirs: map<Loc, Dir>, dirs': map<Loc, Dir>, found: seq<Found>, plan: seq<Planned>, skill: Skill, commit: string)
    requires IsScan(dirs, found) && IsPlan(dirs, found, HubAt(skill, commit), ALL, false, plan)
    requires plan != [] && plan[0] == Planned("s", "agent", Refresh) && forall i | 1 <= i < |plan| :: plan[i].action != Refresh
    requires Payload(skill.files) == skill.files
    requires var d := DirAt(dirs, HERE); d == NO_DIR || (d.legacy.Absent? && !d.marker.Garbled? && d.files.Keys == skill.files.Keys)
    requires dirs' == dirs[HERE := Fresh(skill, commit)]
    ensures Updated(dirs, dirs', HubAt(skill, commit), ALL, false, Project, false)
  {
    var hub := HubAt(skill, commit);
    forall loc ensures DirAt(dirs', loc) == Applied(DirAt(dirs, loc), loc, plan, hub, Project, false) {
      OneRefresh(DirAt(dirs, loc), loc, plan, |plan|, hub);
      if loc == HERE { InstallGives(DirAt(dirs, HERE), HERE, skill, commit, true); }
    }
    assert UpdatedBy(dirs, dirs', hub, ALL, false, Project, false, found, plan);
  }

  lemma {:induction false} OneRefresh(d: Dir, loc: Loc, plan: seq<Planned>, n: nat, hub: Hub)
    requires 1 <= n <= |plan| && plan[0] == Planned("s", "agent", Refresh) && forall i | 1 <= i < n :: plan[i].action != Refresh
    requires "s" in hub.skills
    ensures Applied(d, loc, plan[..n], hub, Project, false)
      == if loc == HERE then AfterInstall(d, loc, hub.skills["s"], Options(hub.commit, true, false)).0 else d
    ensures plan[..|plan|] == plan
  {
    assert plan[..n][..n - 1] == plan[..n - 1];
    if n > 1 { OneRefresh(d, loc, plan, n - 1, hub); } else { assert plan[..0] == []; }
  }

  /** The user's copy alone is stale and clean: it is refreshed - into the project. */
  lemma FirstUpdate(skill: Skill, dirs: map<Loc, Dir>)
    requires dirs == map[HOME := Fresh(skill, "0")] && Payload(skill.files) == skill.files
    ensures Updated(dirs, dirs[HERE := Fresh(skill, "1")], HubAt(skill, "1"), ALL, false, Project, false)
  {
    var f, p := Found(HOME, MarkerAt(skill, "0")), Planned("s", "agent", Refresh);
    PlansOne(dirs, f, HubAt(skill, "1"));
    assert [f][0] == f;
    OneRefreshUpdates(dirs, dirs[HERE := Fresh(skill, "1")], [f], [p], skill, "1");
  }

  ghost predicate Both(skill: Skill, files: Tree, dirs: map<Loc, Dir>)
  {
    dirs.Keys == {HOME, HERE} && dirs[HOME] == Fresh(skill, "0") && dirs[HERE] == Edited(skill, files)
  }

  /** Next to it the edited directory is drifted and planned to be left alone, but is refreshed from the user's copy. */
  lemma SecondUpdate(skill: Skill, files: Tree, dirs: map<Loc, Dir>)
    requires EditOf(skill, files) && Both(skill, files, dirs)
    ensures Updated(dirs, dirs[HERE := Fresh(skill, "2")], HubAt(skill, "2"), ALL, false, Project, false)
  {
    var f, g := Found(HOME, MarkerAt(skill, "0")), Found(HERE, MarkerAt(skill, "1"));
    BothFound(skill, files, dirs, f, g);
    SecondPlan(skill, files, dirs, f, g);
    OneRefreshUpdates(dirs, dirs[HERE := Fresh(skill, "2")], [f, g], PlanOf(Refresh, Drift), skill, "2");
  }

  function PlanOf(a: Action, b: Action): seq<Planned>
  {
    [Planned("s", "agent", a), Planned("s", "agent", b)]
  }

  lemma BothFound(skill: Skill, files: Tree, dirs: map<Loc, Dir>, f: Found, g: Found)
    requires Both(skill, files, dirs)
    requires f == Found(HOME, MarkerAt(skill, "0")) && g == Found(HERE, MarkerAt(skill, "1"))
    ensures IsScan(dirs, [f, g])
  {
    assert [f, g][0] == f && [f, g][1] == g;
  }

  lemma SecondPlan(skill: Skill, files: Tree, dirs: map<Loc, Dir>, f: Found, g: Found)
    requires EditOf(skill, files) && Both(skill, files, dirs)
    requires f == Found(HOME, MarkerAt(skill, "0")) && g == Found(HERE, MarkerAt(skill, "1"))
    ensures IsPlan(dirs, [f, g], HubAt(skill, "2"), ALL, false, PlanOf(Refresh, Drift))
  {
    PlansOne(dirs, f, HubAt(skill, "2"));
    PlansTwo(dirs, f, g, HubAt(skill, "2"));
    SecondVerdicts(skill, files, f, g);
    SortedPair(Planned("s", "agent", Refresh), Planned("s", "agent", Drift));
  }

  lemma SecondVerdicts(skill: Skill, files: Tree, f: Found, g: Found)
    requires EditOf(skill, files)
    requires f == Found(HOME, MarkerAt(skill, "0")) && g == Found(HERE, MarkerAt(skill, "1"))
    ensures Verdict(f, Fresh(skill, "0"), HubAt(skill, "2"), false) == Refresh
    ensures Verdict(g, Edited(skill, files), HubAt(skill, "2"), false) == Drift
  {
  }

  lemma SortedPair(p: Planned, q: Planned)
    requires p.skill == q.skill && p.agent == q.agent
    ensures Sorting.Sorted([p, q], PlanLeq)
  {
    Order.LeqReflexive(p.agent);
  }

  lemma PlansOne(dirs: map<Loc, Dir>, f: Found, hub: Hub)
    requires f.loc in dirs
    ensures Plans(dirs, [f], hub, ALL, false) == [Planned(f.marker.name, f.loc.agent, Verdict(f, dirs[f.loc], hub, false))]
  {
    assert [f][..0] == [] && Plans(dirs, [], hub, ALL, false) == [];
  }

  lemma PlansTwo(dirs: map<Loc, Dir>, f: Found, g: Found, hub: Hub)
    requires f.loc in dirs && g.loc in dirs
    ensures Plans(dirs, [f, g], hub, ALL, false) == Plans(dirs, [f], hub, ALL, false)
      + [Planned(g.marker.name, g.loc.agent, Verdict(g, dirs[g.loc], hub, false))]
  {
    assert [f, g][..1] == [f];
  }

  /** Installed at user scope and updated into the project. */
  lemma CopiedRun(scopes: set<Scope>, skill: Skill) returns (s: seq<State>, e: seq<Event>)
    requires User in scopes && Payload(skill.files) == skill.files
    ensures IsRun(scopes, s, e) && e == [Install(HOME, skill), MoveHub(HubAt(skill, "1")), Update(ALL)]
    ensures var dirs := map[HOME := Fresh(skill, "0")];
      s[3] == State(dirs[HERE := Fresh(skill, "1")], HubAt(skill, "1"))
  {
    var h0, h1, user := HubAt(skill, "0"), HubAt(skill, "1"), map[HOME := Fresh(skill, "0")];
    FirstStep(scopes, skill, State(map[], h0), State(user, h0));
    OneMore(scopes, [State(map[], h0)], [], Install(HOME, skill), State(user, h0));
    s, e := [State(map[], h0), State(user, h0)], [Install(HOME, skill)];
    MoveStep(scopes, State(user, h0), State(user, h1), h1);
    OneMore(scopes, s, e, MoveHub(h1), State(user, h1));
    s, e := s + [State(user, h1)], e + [MoveHub(h1)];
    FirstUpdate(skill, user);
    UpdateStep(scopes, State(user, h1), State(user[HERE := Fresh(skill, "1")], h1), skill, "1");
    OneMore(scopes, s, e, Update(ALL), State(user[HERE := Fresh(skill, "1")], h1));
    s, e := s + [State(user[HERE := Fresh(skill, "1")], h1)], e + [Update(ALL)];
  }

  /** Then edited there, and updated again. */
  lemma LosingRun(scopes: set<Scope>, skill: Skill, files: Tree) returns (s: seq<State>, e: seq<Event>)
    requires User in scopes && EditOf(skill, files)
    ensures IsRun(scopes, s, e)
    ensures e == [Install(HOME, skill), MoveHub(HubAt(skill, "1")), Update(ALL)]
               + [Edit(HERE, files)] + [MoveHub(HubAt(skill, "2"))] + [Update(ALL)]
    ensures HERE in s[4].dirs && s[4].dirs[HERE] == Edited(skill, files) && s[5].dirs == s[4].dirs
    ensures HERE in s[6].dirs && s[6].dirs[HERE] == Fresh(skill, "2")
  {
    s, e := CopiedRun(scopes, skill);
    var h2, s3 := HubAt(skill, "2"), s[3];
    var edited := s3.dirs[HERE := Edited(skill, files)];
    var s4, s5, s6 := State(edited, s3.hub), State(edited, h2), State(edited[HERE := Fresh(skill, "2")], h2);
    EditStep(scopes, s3, s4, skill, files);
    OneMore(scopes, s, e, Edit(HERE, files), s4);
    s, e := s + [s4], e + [Edit(HERE, files)];
    MoveStep(scopes, s4, s5, h2);
    OneMore(scopes, s, e, MoveHub(h2), s5);
    s, e := s + [s5], e + [MoveHub(h2)];
    SecondUpdate(skill, files, edited);
    UpdateStep(scopes, s5, s6, skill, "2");
    OneMore(scopes, s, e, Update(ALL), s6);
    s, e := s + [s6], e + [Update(ALL)];
  }

  lemma OneMore(scopes: set<Scope>, states: seq<State>, events: seq<Event>, e: Event, s: State)
    requires |states| == |events| + 1 && states[0].dirs == map[]
    requires events == [] || IsRun(scopes, states, events)
    requires Step(scopes, states[|events|], e, s)
    ensures IsRun(scopes, states + [s], events + [e])
  {
  }

  lemma MoveStep(scopes: set<Scope>, s: State, s': State, hub: Hub)
    requires s' == s.(hub := hub)
    ensures Step(scopes, s, MoveHub(hub), s')
  {
  }

  lemma UpdateStep(scopes: set<Scope>, s: State, s': State, skill: Skill, commit: string)
    requires s.hub == HubAt(skill, commit) && s' == State(s.dirs[HERE := Fresh(skill, commit)], s.hub)
    requires Updated(s.dirs, s'.dirs, s.hub, ALL, false, Project, false)
    ensures Step(scopes, s, Update(ALL), s')
  {
  }

  lemma EditStep(scopes: set<Scope>, s: State, s': State, skill: Skill, files: Tree)
    requires HERE in s.dirs && s.dirs[HERE] == Fresh(skill, "1") && s' == s.(dirs := s.dirs[HERE := Edited(skill, files)])
    ensures Step(scopes, s, Edit(HERE, files), s')
  {
  }

  lemma FirstStep(scopes: set<Scope>, skill: Skill, s: State, s': State)
    requires User in scopes && Payload(skill.files) == skill.files
    requires s == State(map[], HubAt(skill, "0")) && s' == State(map[HOME := Fresh(skill, "0")], HubAt(skill, "0"))
    ensures Step(scopes, s, Install(HOME, skill), s')
  {
    InstallGives(NO_DIR, HOME, skill, "0", false);
  }

  lemma SomeEdit() returns (skill: Skill, files: Tree)
    ensures EditOf(skill, files)
  {
    skill, files := Skill("1", map["f" := "h"]), map["f" := "m"];
    BaseNameWithoutSlash("f");
    assert Counted("f") && !IsGit("f") && "f" != MARKER && "f" != LEGACY;
    NormaliseKeepsLF("h");
    NormaliseKeepsLF("m");
    OneFileDiffers("f", "h", "m");
    assert Payload(skill.files) == skill.files;
  }

  lemma OneFileDiffers(p: string, a: string, b: string)
    requires Counted(p) && '\0' !in p && NormaliseLF(a) != NormaliseLF(b)
    ensures var t: Tree, u: Tree := map[p := a], map[p := b];
      ContentHashOf(u) != ContentHashOf(t) && Normal(u) != Normal(t)
  {
    var t: Tree, u: Tree := map[p := a], map[p := b];
    assert Normal(u)[p] != Normal(t)[p];
    HashEqualIffTreesEqual(u, t);
  }

  lemma EditedIsDrifted(skill: Skill, files: Tree)
    requires EditOf(skill, files)
    ensures Drifted(HERE, Edited(skill, files)) && Normal(Fresh(skill, "2").files) != Normal(Edited(skill, files).files)
  {
  }

  lemma OneEdit(e: seq<Event>, skill: Skill, files: Tree)
    requires e == [Install(HOME, skill), MoveHub(HubAt(skill, "1")), Update(ALL)]
                    + [Edit(HERE, files)] + [MoveHub(HubAt(skill, "2"))] + [Update(ALL)]
    ensures |e| == 6 && e[5].Update? && LeftAlone(e, HERE, 4, 6)
    ensures forall k | 0 <= k < 6 :: e[k].Edit? ==> k == 3 && e[k].loc == HERE
  {
  }

  /** So with installs at user scope some run overwrites an edit, and by the tool's own steps alone. */
  lemma SomeLosingRun(scopes: set<Scope>) returns (states: seq<State>, events: seq<Event>)
    requires User in scopes
    ensures IsRun(scopes, states, events) && |events| == 6 && events[5].Update? && LeftAlone(events, HERE, 4, 6)
    ensures forall k | 0 <= k < 6 :: events[k].Edit? ==> k == 3 && events[k].loc == HERE
    ensures HERE in states[4].dirs && Drifted(HERE, states[4].dirs[HERE]) && states[5].dirs == states[4].dirs
    ensures HERE in states[6].dirs && Normal(states[6].dirs[HERE].files) != Normal(states[4].dirs[HERE].files)
  {
    var skill, files := SomeEdit();
    states, events := LosingRun(scopes, skill, files);
    OneEdit(events, skill, files);
    EditedIsDrifted(skill, files);
  }
}
