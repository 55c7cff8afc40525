// What callers of ClusterAll rely on, stated about any result that lists the components.

module ClusterLaws {
  import opened Order
  import opened Clustering
  import Sorting

  /** Some cluster holds both. */
  ghost predicate Together(all: seq<Cluster>, x: nat, y: nat)
  {
    exists k :: 0 <= k < |all| && x in all[k].members && y in all[k].members
  }

  /** Two instincts share a cluster exactly when a chain of similar instincts of their one domain links them. */
  lemma TogetherIffLinked(lx: Lexicon, items: seq<Instinct>, o: Options, all: seq<Cluster>, x: nat, y: nat)
    requires ListsComponents(lx, items, o, all) && x < |items| && y < |items|
    ensures Together(all, x, y) <==>
      var d := Domains(items)[x];
      d != "" && Domains(items)[y] == d && DomainGraph(lx, items, o.similarityThreshold, d).Connected(x, y)
  {
    var d := Domains(items)[x];
    if Together(all, x, y) {
      var k :| 0 <= k < |all| && x in all[k].members && y in all[k].members;
      SlotsBelowMeans(Domains(items), |items|, all[k].domain, x);
      SlotsBelowMeans(Domains(items), |items|, all[k].domain, y);
    }
    if d != "" && Domains(items)[y] == d && DomainGraph(lx, items, o.similarityThreshold, d).Connected(x, y) {
      assert Clustered(all, x);
      var k :| 0 <= k < |all| && x in all[k].members;
      SlotsBelowMeans(Domains(items), |items|, all[k].domain, x);
      SlotsBelowMeans(Domains(items), |items|, d, y);
    }
  }

  /** Candidates and skipped split the clusters, and the candidates are those meeting both thresholds. */
  lemma {:induction false} SplitByThresholds(lx: Lexicon, items: seq<Instinct>, o: Options, all: seq<Cluster>, c: Cluster)
    requires forall k | 0 <= k < |all| :: Describes(lx, items, o, all[k])
    ensures c in all <==> c in Candidates(all) || c in Skipped(all)
    ensures c in Candidates(all) <==> c in all && |c.members| >= o.minClusterSize && c.avgConfidence >= o.minAvgConfidence
    ensures c in Skipped(all) <==> c in all && (|c.members| < o.minClusterSize || c.avgConfidence < o.minAvgConfidence)
    ensures |Candidates(all)| + |Skipped(all)| == |all|
  {
    if all != [] {
      SplitByThresholds(lx, items, o, all[..|all| - 1], c);
      assert all == all[..|all| - 1] + [all[|all| - 1]];
    }
  }

  // ---------------------------------------------------------------- raising the threshold

  lemma ConnectedMonotone(lx: Lexicon, items: seq<Instinct>, low: real, high: real, d: string, x: nat, y: nat)
    requires low <= high && DomainGraph(lx, items, high, d).Connected(x, y)
    ensures DomainGraph(lx, items, low, d).Connected(x, y)
  {
    var g, h := DomainGraph(lx, items, low, d), DomainGraph(lx, items, high, d);
    var p :| h.Chain(p, x, y);
    forall k | 0 <= k < |p| - 1 ensures g.Edge(p[k], p[k + 1]) { assert h.Edge(p[k], p[k + 1]); }
    assert g.Chain(p, x, y);
  }

  /** Raising the similarity threshold in force only splits clusters: each new one lies inside an old one. */
  lemma RaisingThresholdSplits(lx: Lexicon, items: seq<Instinct>, o: Options, o': Options,
                               all: seq<Cluster>, all': seq<Cluster>, k: nat) returns (m: nat)
    requires WithDefaults(o).similarityThreshold <= WithDefaults(o').similarityThreshold
    requires ListsComponents(lx, items, WithDefaults(o), all) && ListsComponents(lx, items, WithDefaults(o'), all') && k < |all'|
    ensures m < |all| && all[m].domain == all'[k].domain
    ensures forall x | x in all'[k].members :: x in all[m].members
  {
    var c := all'[k];
    var x := c.members[0];
    assert x in c.members;
    SlotsBelowMeans(Domains(items), |items|, c.domain, x);
    assert Clustered(all, x);
    m :| 0 <= m < |all| && x in all[m].members;
    SlotsBelowMeans(Domains(items), |items|, all[m].domain, x);
    forall y | y in c.members ensures y in all[m].members {
      ConnectedMonotone(lx, items, WithDefaults(o).similarityThreshold, WithDefaults(o').similarityThreshold, c.domain, x, y);
    }
  }

  // ---------------------------------------------------------------- permuting the input

  /** items' is items rearranged: slot i of items' holds what slot perm[i] of items held. */
  ghost predicate Rearranged(items: seq<Instinct>, items': seq<Instinct>, perm: seq<nat>, inverse: seq<nat>)
  {
    && |items'| == |perm| == |inverse| == |items|
    && (forall i | 0 <= i < |perm| :: perm[i] < |items| && inverse[i] < |items|)
    && (forall i | 0 <= i < |perm| :: inverse[perm[i]] == i && perm[inverse[i]] == i)
    && (forall i | 0 <= i < |perm| :: items'[i] == items[perm[i]])
  }

  lemma RearrangedBack(items: seq<Instinct>, items': seq<Instinct>, perm: seq<nat>, inverse: seq<nat>)
    requires Rearranged(items, items', perm, inverse)
    ensures Rearranged(items', items, inverse, perm)
  {
  }

  lemma ConnectedRearranged(lx: Lexicon, items: seq<Instinct>, items': seq<Instinct>, perm: seq<nat>, inverse: seq<nat>,
                            t: real, d: string, x: nat, y: nat)
    requires Rearranged(items, items', perm, inverse) && x < |items| && y < |items|
    requires DomainGraph(lx, items', t, d).Connected(x, y)
    ensures DomainGraph(lx, items, t, d).Connected(perm[x], perm[y])
  {
    var g', g := DomainGraph(lx, items', t, d), DomainGraph(lx, items, t, d);
    var p :| g'.Chain(p, x, y);
    forall k | 0 <= k < |p| ensures p[k] < |perm| && perm[p[k]] in g.slots {
      SlotsBelowMeans(Domains(items'), |items'|, d, p[k]);
      SlotsBelowMeans(Domains(items), |items|, d, perm[p[k]]);
    }
    var q := seq(|p|, k requires 0 <= k < |p| => perm[p[k]]);
    forall k | 0 <= k < |q| - 1 ensures g.Edge(q[k], q[k + 1]) { assert g'.Edge(p[k], p[k + 1]); }
    assert g.Chain(q, perm[x], perm[y]);
  }

  lemma {:induction false} TotalOfParts(items: seq<Instinct>, a: seq<nat>, i: nat)
    requires Within(items, a) && i < |a|
    ensures Within(items, a[..i] + a[i + 1..])
    ensures Total(items, a) == Total(items, a[..i] + a[i + 1..]) + items[a[i]].confidence
  {
    var n := |a| - 1;
    if i < n {
      TotalOfParts(items, a[..n], i);
      var rest := a[..i] + a[i + 1..];
      assert rest[..|rest| - 1] == a[..n][..i] + a[..n][i + 1..];
    } else {
      assert a[..i] + a[i + 1..] == a[..n];
    }
  }

  lemma {:induction false} TotalIgnoresOrder(items: seq<Instinct>, a: seq<nat>, b: seq<nat>)
    requires Within(items, a) && Within(items, b) && multiset(a) == multiset(b)
    ensures Total(items, a) == Total(items, b)
  {
    if a == [] {
      assert |multiset(b)| == 0;
    } else {
      var n := |a| - 1;
      assert a == a[..n] + [a[n]] && a[..n] + a[n + 1..] == a[..n];
      var i := Sorting.IndexOf(b, a[n]);
      var rest := b[..i] + b[i + 1..];
      Sorting.RemoveAt(b, i);
      Sorting.RemoveAt(a, n);
      TotalOfParts(items, b, i);
      TotalIgnoresOrder(items, a[..n], rest);
    }
  }

  lemma {:induction false} TotalRearranged(items: seq<Instinct>, items': seq<Instinct>, perm: seq<nat>, inverse: seq<nat>,
                                           a: seq<nat>, b: seq<nat>)
    requires Rearranged(items, items', perm, inverse) && Within(items', a)
    requires |b| == |a| && forall i | 0 <= i < |a| :: b[i] == perm[a[i]]
    ensures Within(items, b) && Total(items', a) == Total(items, b)
  {
    if a != [] { TotalRearranged(items, items', perm, inverse, a[..|a| - 1], b[..|b| - 1]); }
  }

  /** The two clusters are the same instincts with the same aggregates and verdict. */
  ghost predicate SameCluster(perm: seq<nat>, c': Cluster, c: Cluster)
  {
    && c'.domain == c.domain && c'.avgConfidence == c.avgConfidence && c'.keywords == c.keywords && c'.tags == c.tags
    && c'.verdict == c.verdict && |c'.members| == |c.members|
    && forall x | 0 <= x < |perm| :: x in c'.members <==> perm[x] in c.members
  }

  lemma MembersRearranged(lx: Lexicon, items: seq<Instinct>, items': seq<Instinct>, perm: seq<nat>, inverse: seq<nat>,
                          t: real, c': Cluster, c: Cluster, x: nat)
    requires Rearranged(items, items', perm, inverse)
    requires IsComponent(lx, items', t, c') && IsComponent(lx, items, t, c)
    requires x in c'.members && x < |perm| && perm[x] in c.members
    ensures c'.domain == c.domain
    ensures forall y: nat | y < |perm| :: y in c'.members <==> perm[y] in c.members
  {
    SlotsBelowMeans(Domains(items'), |items'|, c'.domain, x);
    SlotsBelowMeans(Domains(items), |items|, c.domain, perm[x]);
    RearrangedBack(items, items', perm, inverse);
    forall y: nat | y < |perm| ensures y in c'.members <==> perm[y] in c.members {
      SlotsBelowMeans(Domains(items'), |items'|, c.domain, y);
      SlotsBelowMeans(Domains(items), |items|, c.domain, perm[y]);
      if y in c'.members { ConnectedRearranged(lx, items, items', perm, inverse, t, c.domain, x, y); }
      if perm[y] in c.members { ConnectedRearranged(lx, items', items, inverse, perm, t, c.domain, perm[x], perm[y]); }
    }
  }

  /** perm sends the members of c' to a rearrangement of the members of c. */
  lemma MembersAsMultiset(items: seq<Instinct>, items': seq<Instinct>, perm: seq<nat>, inverse: seq<nat>,
                          a: seq<nat>, b: seq<nat>) returns (image: seq<nat>)
    requires Rearranged(items, items', perm, inverse) && Within(items', a) && Within(items, b)
    requires Increasing(a) && Increasing(b)
    requires forall y: nat | y < |perm| :: y in a <==> perm[y] in b
    ensures |image| == |a| && (forall i | 0 <= i < |a| :: image[i] == perm[a[i]])
    ensures multiset(image) == multiset(b) && |a| == |b|
  {
    image := seq(|a|, i requires 0 <= i < |a| => perm[a[i]]);
    assert Sorting.Distinct(image) by {
      forall i, j | 0 <= i < j < |image| ensures image[i] != image[j] {
        assert inverse[perm[a[i]]] == a[i] && inverse[perm[a[j]]] == a[j];
      }
    }
    forall z: nat ensures z in image <==> z in b {
      if z in image { var i :| 0 <= i < |image| && image[i] == z; assert a[i] in a; }
      if z in b {
        var k :| 0 <= k < |b| && b[k] == z;
        var y := inverse[z];
        assert perm[y] == z && y in a;
        var i :| 0 <= i < |a| && a[i] == y;
        assert image[i] == z;
      }
    }
    Sorting.SameElements(image, b);
    assert |multiset(image)| == |image| && |multiset(b)| == |b|;
  }

  lemma WordsCarriedOver(lx: Lexicon, items: seq<Instinct>, items': seq<Instinct>, perm: seq<nat>, inverse: seq<nat>,
                         a: seq<nat>, b: seq<nat>)
    requires Rearranged(items, items', perm, inverse) && Within(items', a)
    requires forall y: nat | y < |perm| && y in a :: perm[y] in b
    ensures KeywordsOf(lx, items', a) <= KeywordsOf(lx, items, b)
    ensures TagsOf(lx, items', a) <= TagsOf(lx, items, b)
  {
    forall w | w in KeywordsOf(lx, items', a) ensures w in KeywordsOf(lx, items, b) {
      var y :| y in a && y < |items'| && w in lx.keywords(items'[y].title);
      assert perm[y] in b;
    }
    forall t | t in TagsOf(lx, items', a) ensures t in TagsOf(lx, items, b) {
      var y, u :| y in a && y < |items'| && u in items'[y].tags && lx.lower(u) == t;
      assert perm[y] in b && u in items[perm[y]].tags;
    }
  }

  lemma WordsRearranged(lx: Lexicon, items: seq<Instinct>, items': seq<Instinct>, perm: seq<nat>, inverse: seq<nat>,
                        a: seq<nat>, b: seq<nat>)
    requires Rearranged(items, items', perm, inverse) && Within(items', a) && Within(items, b)
    requires forall y: nat | y < |perm| :: y in a <==> perm[y] in b
    ensures KeywordsOf(lx, items', a) == KeywordsOf(lx, items, b)
    ensures TagsOf(lx, items', a) == TagsOf(lx, items, b)
  {
    RearrangedBack(items, items', perm, inverse);
    WordsCarriedOver(lx, items, items', perm, inverse, a, b);
    forall z: nat | z < |inverse| && z in b ensures inverse[z] in a { assert perm[inverse[z]] == z; }
    WordsCarriedOver(lx, items', items, inverse, perm, b, a);
  }

  /** Permuting the input changes no cluster: each comes back with the same instincts, aggregates and verdict. */
  lemma PermutingKeepsClusters(lx: Lexicon, items: seq<Instinct>, items': seq<Instinct>, perm: seq<nat>, inverse: seq<nat>,
                               o: Options, all: seq<Cluster>, all': seq<Cluster>, k: nat) returns (m: nat)
    requires Rearranged(items, items', perm, inverse)
    requires ListsComponents(lx, items, o, all) && ListsComponents(lx, items', o, all') && k < |all'|
    ensures m < |all| && SameCluster(perm, all'[k], all[m])
  {
    var c' := all'[k];
    var x := c'.members[0];
    assert x in c'.members;
    SlotsBelowMeans(Domains(items'), |items'|, c'.domain, x);
    assert Clustered(all, perm[x]);
    m :| 0 <= m < |all| && perm[x] in all[m].members;
    var c := all[m];
    MembersRearranged(lx, items, items', perm, inverse, o.similarityThreshold, c', c, x);
    var image := MembersAsMultiset(items, items', perm, inverse, c'.members, c.members);
    TotalRearranged(items, items', perm, inverse, c'.members, image);
    TotalIgnoresOrder(items, image, c.members);
    WordsRearranged(lx, items, items', perm, inverse, c'.members, c.members);
    StrictlySortedUnique(c'.keywords, c.keywords);
    StrictlySortedUnique(c'.tags, c.tags);
  }
}
