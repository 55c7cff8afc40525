// The set differences of a switch from one manifest to another (internal/cli/switch.go).

module Switch {
  import opened Manifest

  /** The members of xs, in order, that are (or are not) in the other list. */
  function Picked(xs: seq<Key>, n: nat, other: set<Key>, inside: bool): seq<Key>
    requires n <= |xs|
  {
    if n == 0 then []
    else Picked(xs, n - 1, other, inside) + if (xs[n - 1] in other) == inside then [xs[n - 1]] else []
  }

  function SetOf(xs: seq<Key>): set<Key>
  {
    set x | x in xs
  }

  method ToSet(xs: seq<Key>) returns (s: set<Key>)
    ensures s == SetOf(xs)
  {
    s := {};
    for i := 0 to |xs|
      invariant s == SetOf(xs[..i])
    {
      assert xs[..i + 1] == xs[..i] + [xs[i]];
      s := s + {xs[i]};
    }
    assert xs[..|xs|] == xs;
  }

  method DiffComponentSets(oldRefs: seq<Key>, newRefs: seq<Key>) returns (install: seq<Key>, uninstall: seq<Key>, kept: seq<Key>)
    ensures install == Picked(newRefs, |newRefs|, SetOf(oldRefs), false)
    ensures kept == Picked(newRefs, |newRefs|, SetOf(oldRefs), true)
    ensures uninstall == Picked(oldRefs, |oldRefs|, SetOf(newRefs), false)
  {
    var oldSet := ToSet(oldRefs);
    var newSet := ToSet(newRefs);
    install, uninstall, kept := [], [], [];
    for i := 0 to |newRefs|
      invariant install == Picked(newRefs, i, oldSet, false) && kept == Picked(newRefs, i, oldSet, true)
    {
      if newRefs[i] in oldSet { kept := kept + [newRefs[i]]; } else { install := install + [newRefs[i]]; }
    }
    for i := 0 to |oldRefs|
      invariant uninstall == Picked(oldRefs, i, newSet, false)
    {
      if oldRefs[i] !in newSet { uninstall := uninstall + [oldRefs[i]]; }
    }
  }

  lemma {:induction false} PickedMeans(xs: seq<Key>, n: nat, other: set<Key>, inside: bool, x: Key)
    requires n <= |xs|
    ensures x in Picked(xs, n, other, inside) <==> x in xs[..n] && (x in other) == inside
  {
    if n > 0 {
      PickedMeans(xs, n - 1, other, inside, x);
      assert xs[..n] == xs[..n - 1] + [xs[n - 1]];
    }
  }

  lemma PickedSet(xs: seq<Key>, other: set<Key>)
    ensures SetOf(Picked(xs, |xs|, other, true)) == SetOf(xs) * other
    ensures SetOf(Picked(xs, |xs|, other, false)) == SetOf(xs) - other
  {
    assert xs[..|xs|] == xs;
    forall x ensures x in SetOf(Picked(xs, |xs|, other, true)) <==> x in SetOf(xs) * other { PickedMeans(xs, |xs|, other, true, x); }
    forall x ensures x in SetOf(Picked(xs, |xs|, other, false)) <==> x in SetOf(xs) - other { PickedMeans(xs, |xs|, other, false, x); }
  }

  /** What a switch makes of the installed set: the uninstalls first, then the installs. */
  function Switched(installed: set<Key>, oldRefs: seq<Key>, newRefs: seq<Key>): set<Key>
  {
    installed - SetOf(Picked(oldRefs, |oldRefs|, SetOf(newRefs), false)) + SetOf(Picked(newRefs, |newRefs|, SetOf(oldRefs), false))
  }

  /** The three lists split both sides without overlap, and a switch from the old set leaves the new one. */
  lemma SwitchReaches(oldRefs: seq<Key>, newRefs: seq<Key>)
    ensures Switched(SetOf(oldRefs), oldRefs, newRefs) == SetOf(newRefs)
    ensures SetOf(Picked(newRefs, |newRefs|, SetOf(oldRefs), true)) == SetOf(oldRefs) * SetOf(newRefs)
    ensures SetOf(Picked(oldRefs, |oldRefs|, SetOf(newRefs), false)) !! SetOf(newRefs)
    ensures SetOf(Picked(newRefs, |newRefs|, SetOf(oldRefs), false)) !! SetOf(oldRefs)
  {
    PickedSet(oldRefs, SetOf(newRefs));
    PickedSet(newRefs, SetOf(oldRefs));
  }

  /**
   * Components outside both manifests are left alone, and switching there and back restores the installed set exactly
   * when it holds everything that only the first manifest names and nothing that only the second does.
   */
  lemma ThereAndBackIff(installed: set<Key>, a: seq<Key>, b: seq<Key>)
    ensures Switched(Switched(installed, a, b), b, a) == installed
      <==> SetOf(a) - SetOf(b) <= installed && (SetOf(b) - SetOf(a)) !! installed
    ensures Switched(installed, a, b) - SetOf(a) - SetOf(b) == installed - SetOf(a) - SetOf(b)
  {
    PickedSet(a, SetOf(b));
    PickedSet(b, SetOf(a));
  }

  function KeysOf(out: seq<Component>): seq<Key>
  {
    seq(|out|, i requires 0 <= i < |out| => out[i].key)
  }

  /** A switch between two manifests on one hub installs, removes and keeps exactly what their expansions say. */
  lemma SwitchFollowsManifests(m1: Manifest, ms1: seq<Key>, m2: Manifest, ms2: seq<Key>, hub: Hub,
                               a: seq<Component>, b: seq<Component>, k: Key)
    requires IsExpansion(m1, hub, ms1, a) && IsExpansion(m2, hub, ms2, b)
    ensures k in Picked(KeysOf(b), |b|, SetOf(KeysOf(a)), false) <==> Wanted(m2, ms2, k).Some? && Wanted(m1, ms1, k).None?
    ensures k in Picked(KeysOf(a), |a|, SetOf(KeysOf(b)), false) <==> Wanted(m1, ms1, k).Some? && Wanted(m2, ms2, k).None?
    ensures k in Picked(KeysOf(b), |b|, SetOf(KeysOf(a)), true) <==> Wanted(m1, ms1, k).Some? && Wanted(m2, ms2, k).Some?
  {
    KeyInExpansion(m1, hub, ms1, a, k);
    KeyInExpansion(m2, hub, ms2, b, k);
    PickedKeys(KeysOf(b), KeysOf(a), false, k);
    PickedKeys(KeysOf(b), KeysOf(a), true, k);
    PickedKeys(KeysOf(a), KeysOf(b), false, k);
  }

  lemma PickedKeys(xs: seq<Key>, ys: seq<Key>, inside: bool, k: Key)
    ensures k in Picked(xs, |xs|, SetOf(ys), inside) <==> k in xs && (k in ys) == inside
  {
    PickedMeans(xs, |xs|, SetOf(ys), inside, k);
    assert xs[..|xs|] == xs;
  }

  lemma KeyInExpansion(m: Manifest, hub: Hub, members: seq<Key>, out: seq<Component>, k: Key)
    requires IsExpansion(m, hub, members, out)
    ensures k in KeysOf(out) <==> Wanted(m, members, k).Some?
  {
    if k in KeysOf(out) {
      var i :| 0 <= i < |out| && KeysOf(out)[i] == k;
      assert out[i] in out && IsResolved(m, hub, members, out[i]);
    }
    if Wanted(m, members, k).Some? {
      var c := Resolve(hub, k, Wanted(m, members, k).value);
      assert IsResolved(m, hub, members, c) && c in out;
      var i :| 0 <= i < |out| && out[i] == c;
      assert KeysOf(out)[i] == k;
    }
  }
}
