// Resolving a consumer manifest against a hub catalog (Expand in pkg/consumermanifest/consumermanifest.go).

module Manifest {
  import opened Wrappers
  import Order
  import Semver
  import Sorting

  datatype Key = Key(name: string, kind: string)
  datatype Entry = Entry(name: string, version: string)

  /** One list of entries for each kind. */
  datatype Blocks = Blocks(skills: seq<Entry>, rules: seq<Entry>, agents: seq<Entry>, hooks: seq<Entry>)
  {
    function Of(kind: string): seq<Entry> {
      if kind == "skill" then skills else if kind == "rule" then rules
      else if kind == "agent" then agents else if kind == "hook" then hooks else []
    }
  }

  /** A manifest without `extends` has empty lists there. */
  datatype Manifest = Manifest(harness: string, listed: Blocks, removed: Blocks, added: Blocks)

  /** What the caller's harness lookup is and gives. */
  datatype Lookup = NoLookup | Fails | Members(keys: seq<Key>)

  datatype HubEntry = HubEntry(path: string, version: string)
  datatype CatalogEntry = CatalogEntry(key: Key, entry: HubEntry)

  datatype Want = Want(fromHarness: bool, constraint: string)
  datatype Component = Component(key: Key, entry: HubEntry, fromHarness: bool, constraint: string, version: string)

  // ---------------------------------------------------------------- which components are wanted, and how

  /** The version that the last of the first n entries with this name asks for. */
  function Latest(entries: seq<Entry>, n: nat, name: string): Option<string>
    requires n <= |entries|
  {
    if n == 0 then None
    else if entries[n - 1].name == name then Some(entries[n - 1].version)
    else Latest(entries, n - 1, name)
  }

  function Asked(b: Blocks, k: Key): Option<string>
  {
    Latest(b.Of(k.kind), |b.Of(k.kind)|, k.name)
  }

  /** Explicit entries come first, then added ones, then what the harness has and the manifest does not remove. */
  function Wanted(m: Manifest, members: seq<Key>, k: Key): Option<Want>
  {
    if Asked(m.listed, k).Some? then Some(Want(false, Asked(m.listed, k).value))
    else if Asked(m.added, k).Some? then Some(Want(false, ""))
    else if k in members && Asked(m.removed, k).None? then Some(Want(true, ""))
    else None
  }

  function Look(s: map<Key, Want>, k: Key): Option<Want>
  {
    if k in s then Some(s[k]) else None
  }

  datatype Mode = Remove | Add | List

  /** What one entry of a block does to its key. */
  function Effect(mode: Mode, version: string): Option<Want>
  {
    match mode
    case Remove => None
    case Add => Some(Want(false, ""))
    case List => Some(Want(false, version))
  }

  /** The set after a block of entries for one kind. */
  function AfterEntries(s: map<Key, Want>, mode: Mode, entries: seq<Entry>, n: nat, kind: string, k: Key): Option<Want>
    requires n <= |entries|
  {
    if k.kind == kind && Latest(entries, n, k.name).Some? then Effect(mode, Latest(entries, n, k.name).value) else Look(s, k)
  }

  method ApplyEntries(s: map<Key, Want>, mode: Mode, entries: seq<Entry>, kind: string) returns (r: map<Key, Want>)
    ensures forall k :: Look(r, k) == AfterEntries(s, mode, entries, |entries|, kind, k)
  {
    r := s;
    for i := 0 to |entries|
      invariant forall k :: Look(r, k) == AfterEntries(s, mode, entries, i, kind, k)
    {
      var e := entries[i];
      ghost var before := r;
      match mode {
        case Remove => r := r - {Key(e.name, kind)};
        case Add => r := r[Key(e.name, kind) := Want(false, "")];
        case List => r := r[Key(e.name, kind) := Want(false, e.version)];
      }
      forall k ensures Look(r, k) == AfterEntries(s, mode, entries, i + 1, kind, k) {
        assert Look(r, k) == if k == Key(e.name, kind) then Effect(mode, e.version) else Look(before, k);
        assert Look(before, k) == AfterEntries(s, mode, entries, i, kind, k);
      }
    }
  }

  /** The four loops of one step of the resolution. */
  method ApplyBlocks(s: map<Key, Want>, mode: Mode, b: Blocks) returns (r: map<Key, Want>)
    ensures forall k :: Look(r, k) == if Asked(b, k).Some? then Effect(mode, Asked(b, k).value) else Look(s, k)
  {
    var s1 := ApplyEntries(s, mode, b.skills, "skill");
    var s2 := ApplyEntries(s1, mode, b.rules, "rule");
    var s3 := ApplyEntries(s2, mode, b.agents, "agent");
    r := ApplyEntries(s3, mode, b.hooks, "hook");
    forall k ensures Look(r, k) == if Asked(b, k).Some? then Effect(mode, Asked(b, k).value) else Look(s, k) {
      assert Look(r, k) == AfterEntries(s3, mode, b.hooks, |b.hooks|, "hook", k);
      assert Look(s3, k) == AfterEntries(s2, mode, b.agents, |b.agents|, "agent", k);
      assert Look(s2, k) == AfterEntries(s1, mode, b.rules, |b.rules|, "rule", k);
      assert Look(s1, k) == AfterEntries(s, mode, b.skills, |b.skills|, "skill", k);
    }
  }

  method Collect(m: Manifest, members: seq<Key>) returns (s: map<Key, Want>)
    ensures forall k :: Look(s, k) == Wanted(m, members, k)
  {
    s := map[];
    for i := 0 to |members|
      invariant forall k :: Look(s, k) == if k in members[..i] then Some(Want(true, "")) else None
    {
      assert members[..i + 1] == members[..i] + [members[i]];
      s := s[members[i] := Want(true, "")];
    }
    assert members[..|members|] == members;
    var s1 := ApplyBlocks(s, Remove, m.removed);
    var s2 := ApplyBlocks(s1, Add, m.added);
    var s3 := ApplyBlocks(s2, List, m.listed);
    forall k ensures Look(s3, k) == Wanted(m, members, k) {
      assert Look(s3, k) == if Asked(m.listed, k).Some? then Effect(List, Asked(m.listed, k).value) else Look(s2, k);
      assert Look(s2, k) == if Asked(m.added, k).Some? then Effect(Add, Asked(m.added, k).value) else Look(s1, k);
      assert Look(s1, k) == if Asked(m.removed, k).Some? then Effect(Remove, Asked(m.removed, k).value) else Look(s, k);
    }
    s := s3;
  }

  // ---------------------------------------------------------------- resolution against the catalog

  /** The catalog's first entry for a key. */
  function ByName(catalog: seq<CatalogEntry>, k: Key): Option<HubEntry>
  {
    if catalog == [] then None else if catalog[0].key == k then Some(catalog[0].entry) else ByName(catalog[1..], k)
  }

  datatype Fit = Fits | BadConstraint | Unsatisfiable

  /** A constraint against a published version; an entry without version is taken as it is. */
  function FitOf(constraint: string, version: string): Fit
  {
    match Semver.ParseConstraint(constraint)
    case None => BadConstraint
    case Some(c) => if version != "" && !Semver.Matches(c, version) then Unsatisfiable else Fits
  }

  /** The hub: its catalog, and the rule that decides whether a version will do. */
  datatype Hub = Hub(catalog: seq<CatalogEntry>, fit: (string, string) -> Fit)

  predicate Resolvable(hub: Hub, k: Key, w: Want)
  {
    ByName(hub.catalog, k).Some? && hub.fit(w.constraint, ByName(hub.catalog, k).value.version) == Fits
  }

  function Resolve(hub: Hub, k: Key, w: Want): Component
    requires ByName(hub.catalog, k).Some?
  {
    var e := ByName(hub.catalog, k).value;
    Component(k, e, w.fromHarness, w.constraint, e.version)
  }

  predicate KeyLess(a: Key, b: Key)
  {
    Order.Less(a.kind, b.kind) || (a.kind == b.kind && Order.Less(a.name, b.name))
  }

  predicate KeyLeq(a: Key, b: Key)
  {
    a == b || KeyLess(a, b)
  }

  function ComponentLess(): (Component, Component) -> bool
  {
    (a: Component, b: Component) => KeyLess(a.key, b.key)
  }

  function ComponentLeq(): (Component, Component) -> bool
  {
    (a: Component, b: Component) => KeyLeq(a.key, b.key)
  }

  lemma KeyOrder()
    ensures forall a, b :: !(KeyLess(a, b) && KeyLess(b, a))
    ensures forall a, b, c :: KeyLess(a, b) && KeyLess(b, c) ==> KeyLess(a, c)
    ensures forall a, b :: KeyLess(a, b) || KeyLess(b, a) || a == b
  {
    Order.LeqIsTotalOrder();
  }

  lemma ComponentOrder()
    ensures Sorting.StrictOrder(ComponentLess()) && Sorting.TotalPreorder(ComponentLeq())
  {
    KeyOrder();
  }

  datatype Expansion =
    | Resolved(components: seq<Component>)
    | NoHarnessLookup
    | HarnessFails
    | NotInCatalog(key: Key)
    | InvalidConstraint(key: Key)
    | ConstraintUnsatisfiable(key: Key)

  /** The members that a manifest starts from. */
  function HarnessMembers(m: Manifest, lookup: Lookup): seq<Key>
  {
    if m.harness != "" && lookup.Members? then lookup.keys else []
  }

  predicate HarnessKnown(m: Manifest, lookup: Lookup)
  {
    m.harness == "" || lookup.Members?
  }

  predicate IsResolved(m: Manifest, hub: Hub, members: seq<Key>, c: Component)
  {
    && Wanted(m, members, c.key).Some? && ByName(hub.catalog, c.key).Some?
    && c == Resolve(hub, c.key, Wanted(m, members, c.key).value)
  }

  /** The whole answer: in strict order, exactly the wanted keys, each resolved. */
  ghost predicate IsExpansion(m: Manifest, hub: Hub, members: seq<Key>, out: seq<Component>)
  {
    && Sorting.Ascending(out, ComponentLess())
    && (forall k | Wanted(m, members, k).Some? :: Resolvable(hub, k, Wanted(m, members, k).value))
    && (forall c :: c in out <==> IsResolved(m, hub, members, c))
  }

  /** The sort at the end. */
  function SortComponents(out: seq<Component>): (r: seq<Component>)
    ensures multiset(r) == multiset(out) && Sorting.Sorted(r, ComponentLeq())
  {
    ComponentOrder();
    Sorting.Sort(out, ComponentLeq())
  }

  ghost predicate DistinctKeys(out: seq<Component>)
  {
    forall i, j | 0 <= i < j < |out| :: out[i].key != out[j].key
  }

  lemma SortedAscends(out: seq<Component>)
    requires DistinctKeys(out)
    ensures Sorting.Ascending(SortComponents(out), ComponentLess())
    ensures forall c :: c in SortComponents(out) <==> c in out
  {
    var r := SortComponents(out);
    forall c ensures c in r <==> c in out { assert c in multiset(r) <==> c in multiset(out); }
    KeysStayDistinct(out, r);
  }

  lemma KeysStayDistinct(out: seq<Component>, r: seq<Component>)
    requires DistinctKeys(out) && multiset(r) == multiset(out)
    ensures DistinctKeys(r)
  {
    Sorting.PermutationKeepsDistinct(out, r);
    forall i, j | 0 <= i < j < |r| ensures r[i].key != r[j].key {
      assert r[i] in out && r[j] in out && r[i] != r[j];
    }
  }

  /** The loop over the map, in whatever order it comes, ends with the first failure or with every component. */
  method ResolveAll(s: map<Key, Want>, hub: Hub) returns (r: Expansion)
    ensures match r
      case Resolved(out) =>
        && DistinctKeys(out) && (forall k | k in s :: Resolvable(hub, k, s[k]))
        && (forall c :: c in out <==> c.key in s && ByName(hub.catalog, c.key).Some? && c == Resolve(hub, c.key, s[c.key]))
      case NotInCatalog(k) => k in s && ByName(hub.catalog, k).None?
      case InvalidConstraint(k) => k in s && ByName(hub.catalog, k).Some? && hub.fit(s[k].constraint, ByName(hub.catalog, k).value.version) == BadConstraint
      case ConstraintUnsatisfiable(k) => k in s && ByName(hub.catalog, k).Some? && hub.fit(s[k].constraint, ByName(hub.catalog, k).value.version) == Unsatisfiable
      case _ => false
  {
    var out: seq<Component> := [];
    var todo := s.Keys;
    while todo != {}
      invariant todo <= s.Keys && DistinctKeys(out)
      invariant forall k | k in s && k !in todo :: Resolvable(hub, k, s[k])
      invariant forall c :: c in out <==> c.key in s && c.key !in todo && ByName(hub.catalog, c.key).Some? && c == Resolve(hub, c.key, s[c.key])
      decreases todo
    {
      var k :| k in todo;
      var entry := ByName(hub.catalog, k);
      if entry.None? { return NotInCatalog(k); }
      var fit := hub.fit(s[k].constraint, entry.value.version);
      if fit == BadConstraint { return InvalidConstraint(k); }
      if fit == Unsatisfiable { return ConstraintUnsatisfiable(k); }
      out := out + [Component(k, entry.value, s[k].fromHarness, s[k].constraint, entry.value.version)];
      todo := todo - {k};
    }
    return Resolved(out);
  }

  /** Expand: the expansion when every wanted component resolves, else what stands in the way. */
  method Expand(m: Manifest, hub: Hub, lookup: Lookup) returns (r: Expansion)
    ensures var members := HarnessMembers(m, lookup);
      && (r.Resolved? <==> HarnessKnown(m, lookup) && AllResolve(m, hub, members))
      && (r.Resolved? ==> IsExpansion(m, hub, members, r.components))
      && (r.NoHarnessLookup? <==> m.harness != "" && lookup.NoLookup?)
      && (r.HarnessFails? <==> m.harness != "" && lookup.Fails?)
      && (!r.Resolved? && HarnessKnown(m, lookup) ==> InTheWay(m, hub, members, r))
  {
    var keys: seq<Key> := [];
    if m.harness != "" {
      match lookup {
        case NoLookup => return NoHarnessLookup;
        case Fails => return HarnessFails;
        case Members(ms) => keys := ms;
      }
    }
    var s := Collect(m, keys);
    r := ResolveAll(s, hub);
    CollectedIs(m, hub, keys, s);
    if r.Resolved? {
      ExpandedIs(m, hub, keys, s, r.components);
      r := Resolved(SortComponents(r.components));
    }
  }

  ghost predicate AllResolve(m: Manifest, hub: Hub, members: seq<Key>)
  {
    forall k | Wanted(m, members, k).Some? :: Resolvable(hub, k, Wanted(m, members, k).value)
  }

  /** A wanted component that does not resolve, named with the reason. */
  ghost predicate InTheWay(m: Manifest, hub: Hub, members: seq<Key>, r: Expansion)
  {
    match r
    case NotInCatalog(k) => Wanted(m, members, k).Some? && ByName(hub.catalog, k).None?
    case InvalidConstraint(k) => FailsAs(m, hub, members, k, BadConstraint)
    case ConstraintUnsatisfiable(k) => FailsAs(m, hub, members, k, Unsatisfiable)
    case _ => false
  }

  predicate FailsAs(m: Manifest, hub: Hub, members: seq<Key>, k: Key, fit: Fit)
  {
    && Wanted(m, members, k).Some? && ByName(hub.catalog, k).Some?
    && hub.fit(Wanted(m, members, k).value.constraint, ByName(hub.catalog, k).value.version) == fit
  }

  lemma CollectedIs(m: Manifest, hub: Hub, members: seq<Key>, s: map<Key, Want>)
    requires forall k :: Look(s, k) == Wanted(m, members, k)
    ensures (forall k | k in s :: Resolvable(hub, k, s[k])) <==> AllResolve(m, hub, members)
    ensures forall k :: (k in s <==> Wanted(m, members, k).Some?) && (k in s ==> Wanted(m, members, k) == Some(s[k]))
  {
    forall k ensures (k in s <==> Wanted(m, members, k).Some?) && (k in s ==> Wanted(m, members, k) == Some(s[k])) {
      assert Look(s, k) == Wanted(m, members, k);
    }
  }

  lemma ExpandedIs(m: Manifest, hub: Hub, members: seq<Key>, s: map<Key, Want>, out: seq<Component>)
    requires forall k :: (k in s <==> Wanted(m, members, k).Some?) && (k in s ==> Wanted(m, members, k) == Some(s[k]))
    requires AllResolve(m, hub, members) && DistinctKeys(out)
    requires forall c :: c in out <==> c.key in s && ByName(hub.catalog, c.key).Some? && c == Resolve(hub, c.key, s[c.key])
    ensures IsExpansion(m, hub, members, SortComponents(out))
  {
    SortedAscends(out);
    forall c ensures c in out <==> IsResolved(m, hub, members, c) {
      assert c.key in s <==> Wanted(m, members, c.key).Some?;
    }
  }

  // ---------------------------------------------------------------- laws

  /** There is one expansion: the order in which the map is walked does not show. */
  lemma ExpansionIsUnique(m: Manifest, hub: Hub, members: seq<Key>, a: seq<Component>, b: seq<Component>)
    requires IsExpansion(m, hub, members, a) && IsExpansion(m, hub, members, b)
    ensures a == b
  {
    ComponentOrder();
    Sorting.AscendingUnique(a, b, ComponentLess());
  }

  /** The keys named by one group of blocks. */
  ghost predicate Names(b: Blocks, k: Key)
  {
    exists i :: 0 <= i < |b.Of(k.kind)| && b.Of(k.kind)[i].name == k.name
  }

  lemma {:induction false} LatestMeans(entries: seq<Entry>, n: nat, name: string)
    requires n <= |entries|
    ensures Latest(entries, n, name).Some? <==> exists i :: 0 <= i < n && entries[i].name == name
  {
    if n > 0 && entries[n - 1].name != name { LatestMeans(entries, n - 1, name); }
  }

  lemma AskedMeans(b: Blocks, k: Key)
    ensures Asked(b, k).Some? <==> Names(b, k)
  {
    LatestMeans(b.Of(k.kind), |b.Of(k.kind)|, k.name);
  }

  /** The keys of an expansion: harness without removals, with additions, with explicit entries; and where each comes from. */
  lemma KeysOfExpansion(m: Manifest, hub: Hub, members: seq<Key>, out: seq<Component>, k: Key)
    requires IsExpansion(m, hub, members, out)
    ensures (exists c :: c in out && c.key == k) <==> (k in members && !Names(m.removed, k)) || Names(m.added, k) || Names(m.listed, k)
    ensures forall c | c in out && c.key == k ::
      c.fromHarness <==> k in members && !Names(m.removed, k) && !Names(m.added, k) && !Names(m.listed, k)
  {
    AskedMeans(m.listed, k);
    AskedMeans(m.added, k);
    AskedMeans(m.removed, k);
    var w := Wanted(m, members, k);
    if w.Some? {
      assert Resolvable(hub, k, w.value);
      var c := Resolve(hub, k, w.value);
      assert IsResolved(m, hub, members, c);
      assert c in out && c.key == k;
    }
    forall c | c in out && c.key == k
      ensures w.Some?
        && (c.fromHarness <==> k in members && !Names(m.removed, k) && !Names(m.added, k) && !Names(m.listed, k))
    {
      assert IsResolved(m, hub, members, c);
    }
  }

  /** A resolved version is the catalog's, and satisfies the constraint unless the catalog names none. */
  lemma VersionsFit(m: Manifest, members: seq<Key>, catalog: seq<CatalogEntry>, out: seq<Component>, c: Component)
    requires IsExpansion(m, Hub(catalog, FitOf), members, out) && c in out
    ensures ByName(catalog, c.key) == Some(c.entry) && c.version == c.entry.version
    ensures Semver.ParseConstraint(c.constraint).Some?
    ensures c.version == "" || Semver.Matches(Semver.ParseConstraint(c.constraint).value, c.version)
    ensures c.constraint != "" ==> Names(m.listed, c.key)
  {
    assert IsResolved(m, Hub(catalog, FitOf), members, c);
    AskedMeans(m.listed, c.key);
  }
}
