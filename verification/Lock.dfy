// The lock file built from an expansion, and the frozen check against it (pkg/consumerlock/consumerlock.go).

module Lock {
  import opened Manifest
  import opened Wrappers
  import Order
  import Sorting

  datatype LockEntry = LockEntry(name: string, version: string, path: string, integrity: string)

  datatype Lock = Lock(skills: seq<LockEntry>, rules: seq<LockEntry>, agents: seq<LockEntry>, hooks: seq<LockEntry>)
  {
    function Of(kind: string): seq<LockEntry> {
      if kind == "skill" then skills else if kind == "rule" then rules
      else if kind == "agent" then agents else if kind == "hook" then hooks else []
    }
  }

  predicate KnownKind(kind: string)
  {
    kind == "skill" || kind == "rule" || kind == "agent" || kind == "hook"
  }

  function EntryOf(c: Component): LockEntry
  {
    LockEntry(c.key.name, if c.version != "" then c.version else c.entry.version, c.entry.path, "")
  }

  /** The entries of one kind among the first n components. */
  function OfKind(resolved: seq<Component>, n: nat, kind: string): seq<LockEntry>
    requires n <= |resolved|
  {
    if n == 0 then []
    else OfKind(resolved, n - 1, kind) + if resolved[n - 1].key.kind == kind then [EntryOf(resolved[n - 1])] else []
  }

  function NameLeq(): (LockEntry, LockEntry) -> bool
  {
    (a: LockEntry, b: LockEntry) => Order.Leq(a.name, b.name)
  }

  function NameLess(): (LockEntry, LockEntry) -> bool
  {
    (a: LockEntry, b: LockEntry) => Order.Less(a.name, b.name)
  }

  /** sort.Slice promises an arrangement in order, and nothing about entries of equal name. */
  ghost predicate IsSorting(entries: seq<LockEntry>, r: seq<LockEntry>)
  {
    multiset(r) == multiset(entries) && Sorting.Sorted(r, NameLeq())
  }

  method SortEntries(entries: seq<LockEntry>) returns (r: seq<LockEntry>)
    ensures IsSorting(entries, r)
  {
    Order.LeqIsTotalOrder();
    r := Sorting.Sort(entries, NameLeq());
  }

  ghost predicate IsBuild(resolved: seq<Component>, l: Lock)
  {
    && IsSorting(OfKind(resolved, |resolved|, "skill"), l.skills) && IsSorting(OfKind(resolved, |resolved|, "rule"), l.rules)
    && IsSorting(OfKind(resolved, |resolved|, "agent"), l.agents) && IsSorting(OfKind(resolved, |resolved|, "hook"), l.hooks)
  }

  method Build(resolved: seq<Component>) returns (l: Lock)
    ensures IsBuild(resolved, l)
  {
    var skills, rules, agents, hooks: seq<LockEntry> := [], [], [], [];
    for i := 0 to |resolved|
      invariant skills == OfKind(resolved, i, "skill") && rules == OfKind(resolved, i, "rule")
      invariant agents == OfKind(resolved, i, "agent") && hooks == OfKind(resolved, i, "hook")
    {
      var entry, kind := EntryOf(resolved[i]), resolved[i].key.kind;
      if kind == "skill" { skills := skills + [entry]; }
      else if kind == "rule" { rules := rules + [entry]; }
      else if kind == "agent" { agents := agents + [entry]; }
      else if kind == "hook" { hooks := hooks + [entry]; }
    }
    skills := SortEntries(skills);
    rules := SortEntries(rules);
    agents := SortEntries(agents);
    hooks := SortEntries(hooks);
    l := Lock(skills, rules, agents, hooks);
  }

  // ---------------------------------------------------------------- what a lock holds

  lemma {:induction false} OfKindMeans(resolved: seq<Component>, n: nat, kind: string, e: LockEntry)
    requires n <= |resolved|
    ensures e in OfKind(resolved, n, kind) <==> exists i :: 0 <= i < n && resolved[i].key.kind == kind && EntryOf(resolved[i]) == e
  {
    if n > 0 { OfKindMeans(resolved, n - 1, kind, e); }
  }

  lemma BuildHolds(resolved: seq<Component>, l: Lock, kind: string, e: LockEntry)
    requires IsBuild(resolved, l) && KnownKind(kind)
    ensures e in l.Of(kind) <==> exists i :: 0 <= i < |resolved| && resolved[i].key.kind == kind && EntryOf(resolved[i]) == e
  {
    var entries := OfKind(resolved, |resolved|, kind);
    assert IsSorting(entries, l.Of(kind));
    assert e in l.Of(kind) <==> e in multiset(l.Of(kind));
    assert e in entries <==> e in multiset(entries);
    OfKindMeans(resolved, |resolved|, kind, e);
  }

  ghost predicate DistinctNames(entries: seq<LockEntry>)
  {
    forall i, j | 0 <= i < j < |entries| :: entries[i].name != entries[j].name
  }

  lemma {:induction false} OfKindDistinct(resolved: seq<Component>, n: nat, kind: string)
    requires n <= |resolved| && DistinctKeys(resolved)
    ensures DistinctNames(OfKind(resolved, n, kind))
  {
    if n > 0 {
      OfKindDistinct(resolved, n - 1, kind);
      var c := resolved[n - 1];
      if c.key.kind == kind {
        var before := OfKind(resolved, n - 1, kind);
        forall i | 0 <= i < |before| ensures before[i].name != c.key.name {
          OfKindMeans(resolved, n - 1, kind, before[i]);
          var j :| 0 <= j < n - 1 && resolved[j].key.kind == kind && EntryOf(resolved[j]) == before[i];
          assert resolved[j].key != c.key;
        }
      }
    }
  }

  lemma SortedNamesAscend(entries: seq<LockEntry>, r: seq<LockEntry>)
    requires DistinctNames(entries) && IsSorting(entries, r)
    ensures Sorting.Ascending(r, NameLess()) && forall e :: e in r <==> e in entries
  {
    Sorting.PermutationKeepsDistinct(entries, r);
    forall i, j | 0 <= i < j < |r| ensures NameLess()(r[i], r[j]) {
      assert r[i] in entries && r[j] in entries && r[i] != r[j];
    }
  }

  lemma NameOrder()
    ensures Sorting.StrictOrder(NameLess())
  {
    Order.LeqIsTotalOrder();
  }

  lemma SameList(a: seq<Component>, b: seq<Component>, kind: string, x: seq<LockEntry>, y: seq<LockEntry>)
    requires DistinctKeys(a) && DistinctKeys(b) && forall c :: c in a <==> c in b
    requires IsSorting(OfKind(a, |a|, kind), x) && IsSorting(OfKind(b, |b|, kind), y)
    ensures x == y
  {
    OfKindDistinct(a, |a|, kind);
    OfKindDistinct(b, |b|, kind);
    SortedNamesAscend(OfKind(a, |a|, kind), x);
    SortedNamesAscend(OfKind(b, |b|, kind), y);
    forall e ensures e in x <==> e in y {
      OfKindMeans(a, |a|, kind, e);
      OfKindMeans(b, |b|, kind, e);
      OfKindTransfer(a, b, kind, e);
      OfKindTransfer(b, a, kind, e);
    }
    NameOrder();
    Sorting.AscendingUnique(x, y, NameLess());
  }

  lemma OfKindTransfer(a: seq<Component>, b: seq<Component>, kind: string, e: LockEntry)
    requires forall c :: c in a ==> c in b
    ensures (exists i :: 0 <= i < |a| && a[i].key.kind == kind && EntryOf(a[i]) == e)
        ==> (exists i :: 0 <= i < |b| && b[i].key.kind == kind && EntryOf(b[i]) == e)
  {
    if i :| 0 <= i < |a| && a[i].key.kind == kind && EntryOf(a[i]) == e {
      assert a[i] in b;
      var j :| 0 <= j < |b| && b[j] == a[i];
    }
  }

  /** The order of the components does not show in the lock. */
  lemma BuildIgnoresOrder(a: seq<Component>, b: seq<Component>, la: Lock, lb: Lock)
    requires DistinctKeys(a) && DistinctKeys(b) && forall c :: c in a <==> c in b
    requires IsBuild(a, la) && IsBuild(b, lb)
    ensures la == lb
  {
    SameList(a, b, "skill", la.skills, lb.skills);
    SameList(a, b, "rule", la.rules, lb.rules);
    SameList(a, b, "agent", la.agents, lb.agents);
    SameList(a, b, "hook", la.hooks, lb.hooks);
  }

  // ---------------------------------------------------------------- the frozen check

  datatype Status = Missing | Extra | Integrity(expected: string, actual: string)
  datatype Divergence = Divergence(key: Key, status: Status)

  /** The expected integrity of a component, where the caller knows one. */
  type Provider = Key -> Option<string>

  /** The last of the first n entries with this name. */
  function LastNamed(entries: seq<LockEntry>, n: nat, name: string): Option<LockEntry>
    requires n <= |entries|
  {
    if n == 0 then None
    else if entries[n - 1].name == name then Some(entries[n - 1])
    else LastNamed(entries, n - 1, name)
  }

  function Have(l: Lock, k: Key): Option<LockEntry>
  {
    LastNamed(l.Of(k.kind), |l.Of(k.kind)|, k.name)
  }

  ghost predicate Wants(resolved: seq<Component>, k: Key)
  {
    exists i :: 0 <= i < |resolved| && resolved[i].key == k
  }

  /** Both sides know an integrity, and they differ. */
  predicate Differs(expected: Option<string>, actual: string)
  {
    expected.Some? && expected.value != "" && actual != "" && expected.value != actual
  }

  /** What the check says of one key. */
  ghost function Verdict(resolved: seq<Component>, l: Lock, provider: Option<Provider>, k: Key): Option<Status>
  {
    if Wants(resolved, k) then
      if Have(l, k).None? then Some(Missing)
      else if provider.Some? && Differs(provider.value(k), Have(l, k).value.integrity)
      then Some(Integrity(provider.value(k).value, Have(l, k).value.integrity))
      else None
    else if Have(l, k).Some? then Some(Extra)
    else None
  }

  function DivergenceLess(): (Divergence, Divergence) -> bool
  {
    (a: Divergence, b: Divergence) => KeyLess(a.key, b.key)
  }

  function DivergenceLeq(): (Divergence, Divergence) -> bool
  {
    (a: Divergence, b: Divergence) => KeyLeq(a.key, b.key)
  }

  ghost predicate IsDiff(resolved: seq<Component>, l: Lock, provider: Option<Provider>, out: seq<Divergence>)
  {
    && Sorting.Ascending(out, DivergenceLess())
    && forall d :: d in out <==> Verdict(resolved, l, provider, d.key) == Some(d.status)
  }

  /** At one key: the last of the first n entries of the kind, or what the map had. */
  predicate PutAt(m: map<Key, LockEntry>, r: map<Key, LockEntry>, entries: seq<LockEntry>, n: nat, kind: string, k: Key)
    requires n <= |entries|
  {
    if k.kind == kind && LastNamed(entries, n, k.name).Some? then k in r && r[k] == LastNamed(entries, n, k.name).value
    else (k in r <==> k in m) && (k in r ==> r[k] == m[k])
  }

  /** The lock's entries of one kind, put into the map. */
  method PutEntries(m: map<Key, LockEntry>, entries: seq<LockEntry>, kind: string) returns (r: map<Key, LockEntry>)
    ensures forall k :: PutAt(m, r, entries, |entries|, kind, k)
  {
    r := m;
    for i := 0 to |entries|
      invariant forall k :: PutAt(m, r, entries, i, kind, k)
    {
      ghost var before := r;
      r := r[Key(entries[i].name, kind) := entries[i]];
      ghost var next := i + 1;
      forall k ensures PutAt(m, r, entries, next, kind, k) { assert PutAt(m, before, entries, i, kind, k); }
    }
  }

  method Index(l: Lock) returns (r: map<Key, LockEntry>)
    ensures forall k :: (k in r <==> Have(l, k).Some?) && (k in r ==> r[k] == Have(l, k).value)
  {
    var r1 := PutEntries(map[], l.skills, "skill");
    var r2 := PutEntries(r1, l.rules, "rule");
    var r3 := PutEntries(r2, l.agents, "agent");
    r := PutEntries(r3, l.hooks, "hook");
    forall k ensures (k in r <==> Have(l, k).Some?) && (k in r ==> r[k] == Have(l, k).value) {
      assert PutAt(map[], r1, l.skills, |l.skills|, "skill", k) && PutAt(r1, r2, l.rules, |l.rules|, "rule", k);
      assert PutAt(r2, r3, l.agents, |l.agents|, "agent", k) && PutAt(r3, r, l.hooks, |l.hooks|, "hook", k);
    }
  }

  method Wanting(resolved: seq<Component>) returns (want: set<Key>)
    ensures forall k :: k in want <==> Wants(resolved, k)
  {
    want := {};
    for i := 0 to |resolved|
      invariant forall k :: k in want <==> exists j :: 0 <= j < i && resolved[j].key == k
    {
      want := want + {resolved[i].key};
    }
  }

  ghost predicate DistinctDivergences(out: seq<Divergence>)
  {
    forall i, j | 0 <= i < j < |out| :: out[i].key != out[j].key
  }

  /** The divergences, in the order of their keys. */
  method SortDivergences(out: seq<Divergence>) returns (r: seq<Divergence>)
    requires DistinctDivergences(out)
    ensures Sorting.Ascending(r, DivergenceLess()) && forall d :: d in r <==> d in out
  {
    KeyOrder();
    r := Sorting.Sort(out, DivergenceLeq());
    Sorting.PermutationKeepsDistinct(out, r);
    forall i, j | 0 <= i < j < |r| ensures DivergenceLess()(r[i], r[j]) {
      assert r[i] in out && r[j] in out && r[i] != r[j];
    }
  }

  method Diff(resolved: seq<Component>, l: Lock, provider: Option<Provider>) returns (r: seq<Divergence>)
    ensures IsDiff(resolved, l, provider, r)
  {
    var want := Wanting(resolved);
    var have := Index(l);
    var out: seq<Divergence> := [];
    var todo := want;
    while todo != {}
      invariant todo <= want && DistinctDivergences(out)
      invariant forall d :: d in out <==> d.key in want - todo && Verdict(resolved, l, provider, d.key) == Some(d.status)
      decreases todo
    {
      var k :| k in todo;
      todo := todo - {k};
      if k !in have {
        out := out + [Divergence(k, Missing)];
        continue;
      }
      if provider.Some? {
        var expected := provider.value(k);
        if Differs(expected, have[k].integrity) {
          out := out + [Divergence(k, Integrity(expected.value, have[k].integrity))];
        }
      }
    }
    todo := have.Keys;
    while todo != {}
      invariant todo <= have.Keys && DistinctDivergences(out)
      invariant forall d :: d in out <==>
        (d.key in want || d.key in have.Keys - todo) && Verdict(resolved, l, provider, d.key) == Some(d.status)
      decreases todo
    {
      var k :| k in todo;
      todo := todo - {k};
      if k !in want { out := out + [Divergence(k, Extra)]; }
    }
    r := SortDivergences(out);
  }

  /** Lock and expansion agree on a key: both have it or neither, and no two known integrities differ. */
  ghost predicate Agree(resolved: seq<Component>, l: Lock, provider: Option<Provider>, k: Key)
  {
    && (Wants(resolved, k) <==> Have(l, k).Some?)
    && (Wants(resolved, k) && provider.Some? ==> !Differs(provider.value(k), Have(l, k).value.integrity))
  }

  /** The check passes exactly when they agree on every key. */
  lemma DiffEmptyIff(resolved: seq<Component>, l: Lock, provider: Option<Provider>, out: seq<Divergence>)
    requires IsDiff(resolved, l, provider, out)
    ensures out == [] <==> forall k :: Agree(resolved, l, provider, k)
  {
    forall k ensures Agree(resolved, l, provider, k) <==> Verdict(resolved, l, provider, k).None? {}
    forall k | !Agree(resolved, l, provider, k) ensures out != [] {
      assert Divergence(k, Verdict(resolved, l, provider, k).value) in out;
    }
    if out != [] {
      var d := out[0];
      assert d in out && !Agree(resolved, l, provider, d.key);
    }
  }

  lemma {:induction false} LastNamedMeans(entries: seq<LockEntry>, n: nat, name: string)
    requires n <= |entries|
    ensures LastNamed(entries, n, name).Some? <==> exists i :: 0 <= i < n && entries[i].name == name
    ensures LastNamed(entries, n, name).Some? ==> LastNamed(entries, n, name).value in entries
  {
    if n > 0 && entries[n - 1].name != name { LastNamedMeans(entries, n - 1, name); }
  }

  /** A built lock has exactly the keys of known kinds, and no integrity of its own. */
  lemma BuildHas(resolved: seq<Component>, l: Lock, k: Key)
    requires IsBuild(resolved, l)
    ensures Have(l, k).Some? <==> KnownKind(k.kind) && Wants(resolved, k)
    ensures Have(l, k).Some? ==> Have(l, k).value.integrity == ""
  {
    var entries := l.Of(k.kind);
    LastNamedMeans(entries, |entries|, k.name);
    if KnownKind(k.kind) {
      if Have(l, k).Some? {
        var i :| 0 <= i < |entries| && entries[i].name == k.name;
        BuildHolds(resolved, l, k.kind, entries[i]);
        BuildHolds(resolved, l, k.kind, Have(l, k).value);
        assert entries[i] in entries;
        var j :| 0 <= j < |resolved| && resolved[j].key.kind == k.kind && EntryOf(resolved[j]) == entries[i];
        assert resolved[j].key == k;
      }
      if Wants(resolved, k) {
        var j :| 0 <= j < |resolved| && resolved[j].key == k;
        BuildHolds(resolved, l, k.kind, EntryOf(resolved[j]));
        var i :| 0 <= i < |entries| && entries[i] == EntryOf(resolved[j]);
      }
    }
  }

  /** A lock passes the check against the components it was built from exactly when all their kinds are known, whatever the provider. */
  lemma FrozenPassesIff(resolved: seq<Component>, l: Lock, provider: Option<Provider>, out: seq<Divergence>)
    requires IsBuild(resolved, l) && IsDiff(resolved, l, provider, out)
    ensures out == [] <==> forall i | 0 <= i < |resolved| :: KnownKind(resolved[i].key.kind)
  {
    DiffEmptyIff(resolved, l, provider, out);
    forall k ensures Agree(resolved, l, provider, k) <==> (Wants(resolved, k) ==> KnownKind(k.kind)) { BuildHas(resolved, l, k); }
    if i :| 0 <= i < |resolved| && !KnownKind(resolved[i].key.kind) {
      assert Wants(resolved, resolved[i].key) && !Agree(resolved, l, provider, resolved[i].key);
    } else {
      forall k ensures Agree(resolved, l, provider, k) {
        if Wants(resolved, k) { var i :| 0 <= i < |resolved| && resolved[i].key == k; }
      }
    }
  }

  /** Every component of an expansion has a known kind when the harness members have. */
  lemma ExpansionKinds(m: Manifest, hub: Hub, members: seq<Key>, out: seq<Component>, c: Component)
    requires IsExpansion(m, hub, members, out) && c in out && forall k | k in members :: KnownKind(k.kind)
    ensures KnownKind(c.key.kind)
  {
    KeysOfExpansion(m, hub, members, out, c.key);
  }

  /** Removals name components of known kinds only, so a harness member of any other kind is always in the expansion. */
  lemma UnknownKindStays(m: Manifest, hub: Hub, members: seq<Key>, out: seq<Component>, k: Key)
    requires IsExpansion(m, hub, members, out) && k in members && !KnownKind(k.kind)
    ensures exists c :: c in out && c.key == k
  {
    KeysOfExpansion(m, hub, members, out, k);
  }

  /**
   * The lock built from an expansion passes the frozen check against it, with any integrity provider, exactly when
   * the harness members' kinds are known.
   */
  lemma ExpandedLockPassesIff(m: Manifest, hub: Hub, members: seq<Key>, resolved: seq<Component>, l: Lock,
                              provider: Option<Provider>, out: seq<Divergence>)
    requires IsExpansion(m, hub, members, resolved) && IsBuild(resolved, l) && IsDiff(resolved, l, provider, out)
    ensures out == [] <==> forall k | k in members :: KnownKind(k.kind)
  {
    FrozenPassesIff(resolved, l, provider, out);
    if k :| k in members && !KnownKind(k.kind) {
      UnknownKindStays(m, hub, members, resolved, k);
      var c :| c in resolved && c.key == k;
      var i :| 0 <= i < |resolved| && resolved[i] == c;
    } else {
      forall i | 0 <= i < |resolved| ensures KnownKind(resolved[i].key.kind) {
        ExpansionKinds(m, hub, members, resolved, resolved[i]);
      }
    }
  }
}
