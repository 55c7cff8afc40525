// pkg/instincts/cluster.go: similarity, union-find clustering, and ClusterAll. A pointer
// *Instinct is a position in its slice, so equal instincts stay two.

module Clustering {
  import opened Order
  import Sorting
  import Text

  datatype Instinct = Instinct(id: string, title: string, domain: string, confidence: real, tags: seq<string>)

  /** strings.ToLower and the regular-expression splitting inside titleKeywords are parameters. */
  datatype Lexicon = Lexicon(lower: string -> string, keywords: string -> seq<string>)

  // ---------------------------------------------------------------- similarity

  function Lowered(lx: Lexicon, ss: seq<string>): set<string>
  {
    set s | s in ss :: lx.lower(s)
  }

  function Jaccard(lx: Lexicon, a: seq<string>, b: seq<string>): real
  {
    var A, B := Lowered(lx, a), Lowered(lx, b);
    if |A + B| == 0 then 0.0 else |A * B| as real / |A + B| as real
  }

  /** 0.4 on tags and 0.6 on title keywords, with real arithmetic for float64. */
  function Similarity(lx: Lexicon, a: Instinct, b: Instinct): real
  {
    0.4 * Jaccard(lx, a.tags, b.tags) + 0.6 * Jaccard(lx, lx.keywords(a.title), lx.keywords(b.title))
  }

  lemma JaccardLaws(lx: Lexicon, a: seq<string>, b: seq<string>)
    ensures Jaccard(lx, a, b) == Jaccard(lx, b, a)
    ensures 0.0 <= Jaccard(lx, a, b) <= 1.0
    ensures Jaccard(lx, a, b) == 1.0 <==> Lowered(lx, a) == Lowered(lx, b) && a != []
  {
    var A, B := Lowered(lx, a), Lowered(lx, b);
    assert A * B == B * A && A + B == B + A;
    assert A != {} <==> a != [] by { if a != [] { assert lx.lower(a[0]) in A; } }
    Shared(A, B);
    if A + B != {} { QuotientAtMostOne(|A * B|, |A + B|); }
  }

  /** Two sets share as many elements as they have together exactly when they are one. */
  lemma Shared(A: set<string>, B: set<string>)
    ensures |A * B| <= |A + B| && (|A + B| == 0 <==> A + B == {}) && (|A * B| == |A + B| <==> A == B)
  {
    var u, i := A + B, A * B;
    assert u == i + (u - i) && |u| == |i| + |u - i|;
    if |i| == |u| {
      assert u - i == {};
      forall x ensures x in A <==> x in B { if x in u { assert x in i; } }
    }
  }

  lemma QuotientAtMostOne(i: nat, u: nat)
    requires i <= u && 0 < u
    ensures 0.0 <= i as real / u as real <= 1.0
    ensures i as real / u as real == 1.0 <==> i == u
  {
    var q := i as real / u as real;
    assert q * u as real == i as real;
  }

  lemma SimilarityLaws(lx: Lexicon, a: Instinct, b: Instinct)
    ensures Similarity(lx, a, b) == Similarity(lx, b, a)
    ensures 0.0 <= Similarity(lx, a, b) <= 1.0
  {
    JaccardLaws(lx, a.tags, b.tags);
    JaccardLaws(lx, lx.keywords(a.title), lx.keywords(b.title));
  }

  method LowerSet(lx: Lexicon, ss: seq<string>) returns (r: set<string>)
    ensures r == Lowered(lx, ss)
  {
    r := {};
    for i := 0 to |ss|
      invariant r == Lowered(lx, ss[..i])
    {
      assert ss[..i + 1] == ss[..i] + [ss[i]];
      r := r + {lx.lower(ss[i])};
    }
    assert ss[..|ss|] == ss;
  }

  lemma SplitIntersection(todo: set<string>, other: set<string>, k: string)
    requires k in todo
    ensures |todo * other| == |(todo - {k}) * other| + if k in other then 1 else 0
  {
    if k in other {
      assert todo * other == (todo - {k}) * other + {k};
    } else {
      assert todo * other == (todo - {k}) * other;
    }
  }

  method JaccardStrings(lx: Lexicon, a: seq<string>, b: seq<string>) returns (r: real)
    ensures r == Jaccard(lx, a, b)
  {
    if |a| == 0 && |b| == 0 {
      assert Lowered(lx, a) + Lowered(lx, b) == {};
      return 0.0;
    }
    var setA := LowerSet(lx, a);
    var setB := LowerSet(lx, b);
    var intersection, todo := 0, setA;
    while todo != {}
      invariant intersection + |todo * setB| == |setA * setB|
      decreases todo
    {
      var k :| k in todo;
      SplitIntersection(todo, setB, k);
      if k in setB { intersection := intersection + 1; }
      todo := todo - {k};
    }
    var union := |setA| + |setB| - intersection;
    r := if union == 0 then 0.0 else intersection as real / union as real;
  }

  // ---------------------------------------------------------------- connectivity

  ghost predicate Increasing(g: seq<nat>)
  {
    forall a, b | 0 <= a < b < |g| :: g[a] < g[b]
  }

  /** The graph on the given slots whose edges are the pairs at or above the threshold. */
  datatype Graph = Graph(lx: Lexicon, items: seq<Instinct>, slots: seq<nat>, threshold: real) {

    ghost predicate Valid()
    {
      Increasing(slots) && forall i | 0 <= i < |slots| :: slots[i] < |items|
    }

    predicate Similar(x: nat, y: nat)
      requires x < |items| && y < |items|
    {
      Similarity(lx, items[x], items[y]) >= threshold
    }

    ghost predicate Edge(x: nat, y: nat)
    {
      x in slots && y in slots && x < |items| && y < |items| && Similar(x, y)
    }

    ghost predicate Chain(path: seq<nat>, x: nat, y: nat)
    {
      && |path| > 0 && path[0] == x && path[|path| - 1] == y
      && (forall k | 0 <= k < |path| :: path[k] in slots)
      && (forall k | 0 <= k < |path| - 1 :: Edge(path[k], path[k + 1]))
    }

    /** A chain of pairs at or above the threshold leads from x to y. */
    ghost predicate Connected(x: nat, y: nat)
    {
      exists path :: Chain(path, x, y)
    }

    lemma ConnectedReflexive(x: nat)
      requires x in slots
      ensures Connected(x, x)
    {
      assert Chain([x], x, x);
    }

    lemma ConnectedEdge(x: nat, y: nat)
      requires Edge(x, y)
      ensures Connected(x, y)
    {
      assert Chain([x, y], x, y);
    }

    lemma ConnectedTransitive(x: nat, y: nat, z: nat)
      requires Connected(x, y) && Connected(y, z)
      ensures Connected(x, z)
    {
      var p :| Chain(p, x, y);
      var q :| Chain(q, y, z);
      var pq := p + q[1..];
      forall k | 0 <= k < |pq| - 1 ensures Edge(pq[k], pq[k + 1]) {
        if k < |p| - 1 { assert Edge(p[k], p[k + 1]); } else {
          var m := k - (|p| - 1);
          assert pq[k] == q[m] && pq[k + 1] == q[m + 1];
          assert Edge(q[m], q[m + 1]);
        }
      }
      assert Chain(pq, x, z);
    }

    lemma ConnectedSymmetric(x: nat, y: nat)
      requires Connected(x, y)
      ensures Connected(y, x)
    {
      var p :| Chain(p, x, y);
      var n := |p|;
      var r := seq(n, i requires 0 <= i < n => p[n - 1 - i]);
      forall k | 0 <= k < n - 1 ensures Edge(r[k], r[k + 1]) {
        assert Edge(p[n - 2 - k], p[n - 2 - k + 1]);
        SimilarityLaws(lx, items[r[k]], items[r[k + 1]]);
      }
      assert Chain(r, y, x);
    }

    /** A labelling of the slots that agrees across every edge agrees across every chain. */
    lemma {:induction false} ConnectedKeepsLabel(mark: seq<nat>, path: seq<nat>, i: nat, j: nat)
      requires Valid() && |mark| == |slots| && i < |slots| && j < |slots|
      requires Chain(path, slots[i], slots[j])
      requires forall a: nat, b: nat | a < |slots| && b < |slots| && Edge(slots[a], slots[b]) :: mark[a] == mark[b]
      ensures mark[i] == mark[j]
    {
      if |path| > 1 {
        assert Edge(path[0], path[1]);
        var m: nat :| m < |slots| && slots[m] == path[1];
        forall k | 0 <= k < |path| - 2 ensures Edge(path[1..][k], path[1..][k + 1]) {
          assert Edge(path[k + 1], path[k + 1 + 1]);
        }
        ConnectedKeepsLabel(mark, path[1..], m, j);
      }
    }
  }

  // ---------------------------------------------------------------- union-find

  /** Element i hangs in the tree whose root is rep[i]; rank strictly falls along its parent link. */
  ghost predicate Rooted(parent: seq<nat>, rep: seq<nat>, rank: seq<nat>, i: nat)
    requires |rep| == |parent| && |rank| == |parent| && i < |parent|
  {
    && parent[i] < |parent| && rep[i] < |parent|
    && rep[parent[i]] == rep[i]
    && parent[rep[i]] == rep[i] && rep[rep[i]] == rep[i]
    && (if parent[i] == i then rep[i] == i else rank[parent[i]] < rank[i])
  }

  /** parent is a forest: rep names the root of every tree, and rank is why find terminates. */
  ghost predicate Forest(parent: seq<nat>, rep: seq<nat>, rank: seq<nat>)
  {
    && |rep| == |parent| && |rank| == |parent|
    && forall i: nat | i < |parent| :: Rooted(parent, rep, rank, i)
  }

  /** The representatives are a function of the parent links alone. */
  lemma {:induction false} RepresentativeUnique(parent: seq<nat>, rep: seq<nat>, rank: seq<nat>, rep': seq<nat>, rank': seq<nat>, i: nat)
    requires Forest(parent, rep, rank) && Forest(parent, rep', rank') && i < |parent|
    ensures rep[i] == rep'[i]
    decreases rank[i]
  {
    assert Rooted(parent, rep, rank, i) && Rooted(parent, rep', rank', i);
    if parent[i] != i {
      RepresentativeUnique(parent, rep, rank, rep', rank', parent[i]);
    }
  }

  lemma CompressKeepsForest(parent: seq<nat>, rep: seq<nat>, rank: seq<nat>, i: nat)
    requires Forest(parent, rep, rank) && i < |parent|
    ensures Forest(parent[i := rep[i]], rep, rank)
  {
    var parent' := parent[i := rep[i]];
    RankOfRoot(parent, rep, rank, i);
    assert Rooted(parent, rep, rank, i);
    forall j: nat | j < |parent'| ensures Rooted(parent', rep, rank, j) {
      assert Rooted(parent, rep, rank, j);
    }
  }

  method Find(parent: array<nat>, i: nat, ghost rep: seq<nat>, ghost rank: seq<nat>) returns (r: nat)
    requires i < parent.Length && Forest(parent[..], rep, rank)
    modifies parent
    ensures Forest(parent[..], rep, rank)
    ensures r == rep[i] && r < parent.Length && parent[i] == r && rep[r] == r
    decreases rank[i]
  {
    assert Rooted(parent[..], rep, rank, i);
    if parent[i] != i {
      assert parent[..][i] == parent[i];
      var root := Find(parent, parent[i], rep, rank);
      ghost var before := parent[..];
      CompressKeepsForest(before, rep, rank, i);
      parent[i] := root;
      assert parent[..] == before[i := root];
    }
    r := parent[i];
  }

  lemma {:induction false} RankOfRoot(parent: seq<nat>, rep: seq<nat>, rank: seq<nat>, i: nat)
    requires Forest(parent, rep, rank) && i < |parent|
    ensures rep[i] < |parent| && (rep[i] == i || rank[rep[i]] < rank[i])
    decreases rank[i]
  {
    assert Rooted(parent, rep, rank, i);
    if parent[i] != i { RankOfRoot(parent, rep, rank, parent[i]); }
  }

  function Merged(rep: seq<nat>, ra: nat, rb: nat): seq<nat>
  {
    seq(|rep|, i requires 0 <= i < |rep| => if rep[i] == ra then rb else rep[i])
  }

  lemma LinkKeepsForest(parent: seq<nat>, rep: seq<nat>, rank: seq<nat>, ra: nat, rb: nat) returns (rank': seq<nat>)
    requires Forest(parent, rep, rank) && ra < |parent| && rb < |parent|
    requires rep[ra] == ra && rep[rb] == rb && ra != rb
    ensures Forest(parent[ra := rb], Merged(rep, ra, rb), rank')
  {
    rank' := seq(|rank|, i requires 0 <= i < |rank| => if rep[i] == ra then rank[i] + rank[rb] + 1 else rank[i]);
    var parent', rep' := parent[ra := rb], Merged(rep, ra, rb);
    assert Rooted(parent, rep, rank, ra) && Rooted(parent, rep, rank, rb);
    forall i: nat | i < |parent'| ensures Rooted(parent', rep', rank', i) {
      assert Rooted(parent, rep, rank, i);
    }
  }

  method Union(parent: array<nat>, a: nat, b: nat, ghost rep: seq<nat>, ghost rank: seq<nat>)
    returns (ghost rep': seq<nat>, ghost rank': seq<nat>)
    requires a < parent.Length && b < parent.Length && Forest(parent[..], rep, rank)
    modifies parent
    ensures Forest(parent[..], rep', rank')
    ensures rep' == Merged(rep, rep[a], rep[b])
  {
    var ra := Find(parent, a, rep, rank);
    var rb := Find(parent, b, rep, rank);
    rep', rank' := rep, rank;
    if ra != rb {
      ghost var before := parent[..];
      rank' := LinkKeepsForest(before, rep, rank, ra, rb);
      rep' := Merged(rep, ra, rb);
      parent[ra] := rb;
      assert parent[..] == before[ra := rb];
    } else {
      assert Merged(rep, ra, rb) == rep;
    }
  }

  // ---------------------------------------------------------------- transitiveClusters

  /** The ID a group is ordered by: that of its first member. */
  function FirstId(items: seq<Instinct>, g: seq<nat>): string
  {
    if g != [] && g[0] < |items| then items[g[0]].id else ""
  }

  /** Some group of out holds x. */
  ghost predicate Placed(out: seq<seq<nat>>, x: nat)
  {
    exists k :: 0 <= k < |out| && x in out[k]
  }

  ghost predicate Partitions(slots: seq<nat>, out: seq<seq<nat>>)
  {
    && (forall k | 0 <= k < |out| :: out[k] != [] && Increasing(out[k]))
    && (forall k, x | 0 <= k < |out| && x in out[k] :: x in slots)
    && (forall x | x in slots :: Placed(out, x))
    && (forall k, l, x | 0 <= k < |out| && 0 <= l < |out| && x in out[k] && x in out[l] :: k == l)
  }

  ghost predicate GroupsByLink(g: Graph, out: seq<seq<nat>>)
  {
    forall k, x, y | 0 <= k < |out| && x in out[k] && y in g.slots :: y in out[k] <==> g.Connected(x, y)
  }

  ghost predicate OrderedByFirstId(items: seq<Instinct>, out: seq<seq<nat>>)
  {
    forall k, l | 0 <= k < l < |out| :: Leq(FirstId(items, out[k]), FirstId(items, out[l]))
  }

  /** out lists the connected components of the graph, each in input order, ordered by first ID. */
  ghost predicate IsClustering(g: Graph, out: seq<seq<nat>>)
  {
    Partitions(g.slots, out) && GroupsByLink(g, out) && OrderedByFirstId(g.items, out)
  }

  ghost predicate Sound(g: Graph, rep: seq<nat>)
  {
    && |rep| == |g.slots|
    && forall i: nat, j: nat | i < |rep| && j < |rep| && rep[i] == rep[j] :: g.Connected(g.slots[i], g.slots[j])
  }

  /** Labels that are equal exactly on connected slots. */
  ghost predicate LabelsComponents(g: Graph, rep: seq<nat>)
  {
    && |rep| == |g.slots|
    && forall i: nat, j: nat | i < |rep| && j < |rep| :: rep[i] == rep[j] <==> g.Connected(g.slots[i], g.slots[j])
  }

  lemma MergeKeepsSound(g: Graph, rep: seq<nat>, a: nat, b: nat)
    requires Sound(g, rep) && a < |rep| && b < |rep| && g.Connected(g.slots[a], g.slots[b])
    ensures Sound(g, Merged(rep, rep[a], rep[b]))
  {
    var rep' := Merged(rep, rep[a], rep[b]);
    var at := g.slots;
    forall x: nat, y: nat | x < |rep| && y < |rep| && rep'[x] == rep'[y] ensures g.Connected(at[x], at[y]) {
      if rep[x] != rep[y] {
        g.ConnectedSymmetric(at[a], at[b]);
        var (p, q) := if rep[x] == rep[a] then (a, b) else (b, a);
        assert g.Connected(at[x], at[p]) && g.Connected(at[q], at[y]);
        g.ConnectedTransitive(at[x], at[p], at[q]);
        g.ConnectedTransitive(at[x], at[q], at[y]);
      }
    }
  }

  lemma SoundAndEdgeClosed(g: Graph, rep: seq<nat>)
    requires g.Valid() && Sound(g, rep)
    requires EdgesMerged(g, rep, |rep|, |rep| + 1)
    ensures LabelsComponents(g, rep)
  {
    forall i: nat, j: nat | i < |rep| && j < |rep| && g.Edge(g.slots[i], g.slots[j]) ensures rep[i] == rep[j] {
      assert i < j ==> Visited(i, j, |rep|, |rep| + 1);
      assert j < i ==> Visited(j, i, |rep|, |rep| + 1);
      SimilarityLaws(g.lx, g.items[g.slots[i]], g.items[g.slots[j]]);
    }
    forall i: nat, j: nat | i < |rep| && j < |rep| && g.Connected(g.slots[i], g.slots[j]) ensures rep[i] == rep[j] {
      var p :| g.Chain(p, g.slots[i], g.slots[j]);
      g.ConnectedKeepsLabel(rep, p, i, j);
    }
  }

  /** The pairs the nested loops have visited: all of rows below i, and row i up to column j. */
  predicate Visited(x: nat, y: nat, i: nat, j: nat)
  {
    x < y && (x < i || (x == i && y < j))
  }

  ghost predicate EdgesMerged(g: Graph, rep: seq<nat>, i: nat, j: nat)
  {
    && |rep| == |g.slots|
    && forall x: nat, y: nat | x < |rep| && y < |rep| && Visited(x, y, i, j) :: g.Edge(g.slots[x], g.slots[y]) ==> rep[x] == rep[y]
  }

  lemma MergeKeepsEdges(g: Graph, rep: seq<nat>, i: nat, j: nat)
    requires g.Valid() && EdgesMerged(g, rep, i, j) && i < j < |rep|
    ensures g.Similar(g.slots[i], g.slots[j]) ==> EdgesMerged(g, Merged(rep, rep[i], rep[j]), i, j + 1)
    ensures !g.Similar(g.slots[i], g.slots[j]) ==> EdgesMerged(g, rep, i, j + 1)
  {
    var rep' := Merged(rep, rep[i], rep[j]);
    forall x: nat, y: nat | x < |rep| && y < |rep| && Visited(x, y, i, j + 1) && g.Edge(g.slots[x], g.slots[y])
      ensures g.Similar(g.slots[i], g.slots[j]) ==> rep'[x] == rep'[y]
      ensures !g.Similar(g.slots[i], g.slots[j]) ==> rep[x] == rep[y]
    {
      if !(x == i && y == j) { assert Visited(x, y, i, j); }
    }
  }

  lemma SingletonForest(g: Graph, parent: seq<nat>)
    requires |parent| == |g.slots| && forall k: nat | k < |parent| :: parent[k] == k
    ensures Forest(parent, parent, seq(|parent|, i => 0)) && Sound(g, parent)
  {
    var rank := seq(|parent|, i => 0);
    forall i: nat | i < |parent| ensures Rooted(parent, parent, rank, i) { }
    forall i: nat, j: nat | i < |parent| && j < |parent| && parent[i] == parent[j] ensures g.Connected(g.slots[i], g.slots[j]) {
      g.ConnectedReflexive(g.slots[i]);
    }
  }

  lemma NextRow(g: Graph, rep: seq<nat>, i: nat)
    requires EdgesMerged(g, rep, i, |rep|)
    ensures EdgesMerged(g, rep, i + 1, i + 2)
  {
    forall x: nat, y: nat | x < |rep| && y < |rep| && Visited(x, y, i + 1, i + 2) && g.Edge(g.slots[x], g.slots[y])
      ensures rep[x] == rep[y]
    {
      assert Visited(x, y, i, |rep|);
    }
  }

  /** One row of the pair loop. */
  method MergeRow(g: Graph, parent: array<nat>, i: nat, ghost rep: seq<nat>, ghost rank: seq<nat>)
    returns (ghost rep': seq<nat>, ghost rank': seq<nat>)
    requires g.Valid() && i < parent.Length == |g.slots|
    requires Forest(parent[..], rep, rank) && Sound(g, rep) && EdgesMerged(g, rep, i, i + 1)
    modifies parent
    ensures Forest(parent[..], rep', rank') && Sound(g, rep') && EdgesMerged(g, rep', i + 1, i + 2)
  {
    rep', rank' := rep, rank;
    for j := i + 1 to parent.Length
      invariant Forest(parent[..], rep', rank') && Sound(g, rep')
      invariant EdgesMerged(g, rep', i, j)
    {
      MergeKeepsEdges(g, rep', i, j);
      if g.Similar(g.slots[i], g.slots[j]) {
        g.ConnectedEdge(g.slots[i], g.slots[j]);
        MergeKeepsSound(g, rep', i, j);
        rep', rank' := Union(parent, i, j, rep', rank');
      }
    }
    NextRow(g, rep', i);
  }

  method Singletons(parent: array<nat>)
    modifies parent
    ensures forall k: nat | k < parent.Length :: parent[..][k] == k
  {
    for i := 0 to parent.Length
      invariant forall k: nat | k < i :: parent[k] == k
    {
      parent[i] := i;
    }
  }

  method UnionSimilar(g: Graph, parent: array<nat>) returns (ghost rep: seq<nat>, ghost rank: seq<nat>)
    requires g.Valid() && parent.Length == |g.slots|
    modifies parent
    ensures Forest(parent[..], rep, rank) && LabelsComponents(g, rep)
  {
    Singletons(parent);
    rep, rank := parent[..], seq(parent.Length, i => 0);
    SingletonForest(g, rep);
    for i := 0 to parent.Length
      invariant Forest(parent[..], rep, rank) && Sound(g, rep)
      invariant EdgesMerged(g, rep, i, i + 1)
    {
      rep, rank := MergeRow(g, parent, i, rep, rank);
    }
    SoundAndEdgeClosed(g, rep);
  }

  /** x is one of the first n slots and is labelled r. */
  ghost predicate LabelledAmong(slots: seq<nat>, rep: seq<nat>, n: nat, r: nat, x: nat)
    requires n <= |rep| == |slots|
  {
    exists i: nat :: i < n && slots[i] == x && rep[i] == r
  }

  /** A non-empty run of slots among the first n, in input order, all labelled r. */
  ghost predicate GroupOf(slots: seq<nat>, rep: seq<nat>, n: nat, r: nat, members: seq<nat>)
    requires n <= |rep| == |slots|
  {
    && members != [] && Increasing(members)
    && (forall k | 0 <= k < |members| :: LabelledAmong(slots, rep, n, r, members[k]))
  }

  ghost predicate GroupsUpTo(slots: seq<nat>, rep: seq<nat>, n: nat, groups: map<nat, seq<nat>>)
    requires n <= |rep| == |slots|
  {
    && (forall r | r in groups :: GroupOf(slots, rep, n, r, groups[r]))
    && (forall i: nat | i < n :: rep[i] in groups && slots[i] in groups[rep[i]])
  }

  lemma AppendToGroup(slots: seq<nat>, rep: seq<nat>, n: nat, groups: map<nat, seq<nat>>, groups': map<nat, seq<nat>>)
    requires n < |rep| == |slots| && Increasing(slots) && GroupsUpTo(slots, rep, n, groups)
    requires groups' == groups[rep[n] := (if rep[n] in groups then groups[rep[n]] else []) + [slots[n]]]
    ensures GroupsUpTo(slots, rep, n + 1, groups')
  {
    var prior := if rep[n] in groups then groups[rep[n]] else [];
    var grown := prior + [slots[n]];
    assert prior == [] || GroupOf(slots, rep, n, rep[n], prior);
    forall k | 0 <= k < |grown| ensures LabelledAmong(slots, rep, n + 1, rep[n], grown[k]) {
      if k == |prior| { assert grown[k] == slots[n]; } else {
        assert LabelledAmong(slots, rep, n, rep[n], prior[k]);
      }
    }
    forall r | r in groups' ensures GroupOf(slots, rep, n + 1, r, groups'[r]) {
      if r == rep[n] { assert groups'[r] == grown; } else {
        assert GroupOf(slots, rep, n, r, groups[r]);
        forall k | 0 <= k < |groups[r]| ensures LabelledAmong(slots, rep, n + 1, r, groups[r][k]) {
          assert LabelledAmong(slots, rep, n, r, groups[r][k]);
        }
      }
    }
    forall i: nat | i < n + 1 ensures rep[i] in groups' && slots[i] in groups'[rep[i]] {
      if i == n { assert grown[|prior|] == slots[i]; }
    }
  }

  function SortByFirstId(items: seq<Instinct>, groups: seq<seq<nat>>): (r: seq<seq<nat>>)
    ensures multiset(r) == multiset(groups)
    ensures OrderedByFirstId(items, r)
  {
    var leq := (a: seq<nat>, b: seq<nat>) => Leq(FirstId(items, a), FirstId(items, b));
    LeqIsTotalOrder();
    assert Sorting.TotalPreorder(leq) by {
      forall a, b ensures leq(a, b) || leq(b, a) { LeqTotal(FirstId(items, a), FirstId(items, b)); }
      forall a, b, c | leq(a, b) && leq(b, c) ensures leq(a, c) {
        LeqTransitive(FirstId(items, a), FirstId(items, b), FirstId(items, c));
      }
    }
    var r := Sorting.Sort(groups, leq);
    assert forall k, l | 0 <= k < l < |r| :: leq(r[k], r[l]);
    r
  }

  lemma GroupMeans(g: Graph, rep: seq<nat>, groups: map<nat, seq<nat>>, r: nat, i: nat)
    requires g.Valid() && |rep| == |g.slots| && GroupsUpTo(g.slots, rep, |rep|, groups)
    requires r in groups && i < |rep|
    ensures g.slots[i] in groups[r] <==> rep[i] == r
  {
    assert GroupOf(g.slots, rep, |rep|, r, groups[r]);
    if g.slots[i] in groups[r] {
      var k :| 0 <= k < |groups[r]| && groups[r][k] == g.slots[i];
      assert LabelledAmong(g.slots, rep, |rep|, r, groups[r][k]);
      var j: nat :| j < |rep| && groups[r][k] == g.slots[j] && rep[j] == r;
      assert i == j;
    }
  }

  /** What a member of one map entry knows: where it sits, and which other groups hold it. */
  lemma MemberOfGroup(g: Graph, rep: seq<nat>, groups: map<nat, seq<nat>>, r: nat, x: nat)
    requires g.Valid() && LabelsComponents(g, rep) && GroupsUpTo(g.slots, rep, |rep|, groups)
    requires r in groups && x in groups[r]
    ensures x in g.slots
    ensures forall s | s in groups && x in groups[s] :: s == r
    ensures forall y | y in g.slots :: y in groups[r] <==> g.Connected(x, y)
  {
    assert GroupOf(g.slots, rep, |rep|, r, groups[r]);
    var m :| 0 <= m < |groups[r]| && groups[r][m] == x;
    assert LabelledAmong(g.slots, rep, |rep|, r, groups[r][m]);
    var i: nat :| i < |rep| && g.slots[i] == x && rep[i] == r;
    forall s | s in groups && x in groups[s] ensures s == r { GroupMeans(g, rep, groups, s, i); }
    forall y | y in g.slots ensures y in groups[r] <==> g.Connected(x, y) {
      var j: nat :| j < |rep| && g.slots[j] == y;
      GroupMeans(g, rep, groups, r, j);
    }
  }

  /** out arranges exactly the groups of the map. */
  ghost predicate Arranges(groups: map<nat, seq<nat>>, out: seq<seq<nat>>)
  {
    && (forall k | 0 <= k < |out| :: out[k] in groups.Values)
    && (forall r | r in groups :: groups[r] in out)
    && Sorting.Distinct(out)
  }

  lemma KeyOf(groups: map<nat, seq<nat>>, members: seq<nat>) returns (r: nat)
    requires members in groups.Values
    ensures r in groups && groups[r] == members
  {
    r :| r in groups && groups[r] == members;
  }

  lemma GroupsAreComponents(g: Graph, rep: seq<nat>, groups: map<nat, seq<nat>>, out: seq<seq<nat>>)
    requires g.Valid() && LabelsComponents(g, rep) && GroupsUpTo(g.slots, rep, |rep|, groups)
    requires Arranges(groups, out)
    ensures Partitions(g.slots, out) && GroupsByLink(g, out)
  {
    forall k | 0 <= k < |out| ensures out[k] != [] && Increasing(out[k]) {
      var r := KeyOf(groups, out[k]);
      assert GroupOf(g.slots, rep, |rep|, r, groups[r]);
    }
    forall k, x | 0 <= k < |out| && x in out[k]
      ensures x in g.slots
      ensures forall l | 0 <= l < |out| && x in out[l] :: k == l
      ensures forall y | y in g.slots :: y in out[k] <==> g.Connected(x, y)
    {
      var r := KeyOf(groups, out[k]);
      MemberOfGroup(g, rep, groups, r, x);
      forall l | 0 <= l < |out| && x in out[l] ensures k == l {
        var s := KeyOf(groups, out[l]);
      }
    }
    forall x | x in g.slots ensures Placed(out, x) {
      var i: nat :| i < |rep| && g.slots[i] == x;
      assert groups[rep[i]] in out;
    }
  }

  lemma ArrangeOneMore(g: Graph, rep: seq<nat>, groups: map<nat, seq<nat>>, todo: set<nat>, out: seq<seq<nat>>, r: nat)
    requires g.Valid() && LabelsComponents(g, rep) && GroupsUpTo(g.slots, rep, |rep|, groups)
    requires Arranges(groups - todo, out) && r in todo && r in groups
    ensures Arranges(groups - (todo - {r}), out + [groups[r]])
  {
    assert GroupOf(g.slots, rep, |rep|, r, groups[r]);
    MemberOfGroup(g, rep, groups, r, groups[r][0]);
    var less, more := groups - todo, groups - (todo - {r});
    forall k | 0 <= k < |out| ensures out[k] != groups[r] && out[k] in more.Values {
      assert out[k] in less.Values;
      var s :| s in less && out[k] == less[s];
      assert more[s] == out[k];
    }
    assert more[r] == groups[r];
    forall s | s in more ensures more[s] in out + [groups[r]] {
      if s == r { assert (out + [groups[r]])[|out|] == more[s]; } else { assert s in less; }
    }
  }

  lemma SortArranges(items: seq<Instinct>, groups: map<nat, seq<nat>>, out: seq<seq<nat>>)
    requires Arranges(groups, out)
    ensures Arranges(groups, SortByFirstId(items, out))
  {
    var sorted := SortByFirstId(items, out);
    Sorting.PermutationKeepsDistinct(out, sorted);
    forall k | 0 <= k < |sorted| ensures sorted[k] in groups.Values { assert sorted[k] in out; }
  }

  method GroupByRoot(g: Graph, parent: array<nat>, ghost rep: seq<nat>, ghost rank: seq<nat>)
    returns (groups: map<nat, seq<nat>>)
    requires g.Valid() && parent.Length == |g.slots| && Forest(parent[..], rep, rank)
    modifies parent
    ensures GroupsUpTo(g.slots, rep, |rep|, groups)
  {
    groups := map[];
    for i := 0 to parent.Length
      invariant Forest(parent[..], rep, rank)
      invariant GroupsUpTo(g.slots, rep, i, groups)
    {
      var r := Find(parent, i, rep, rank);
      var r' := Find(parent, i, rep, rank);
      ghost var before := groups;
      groups := groups[r := (if r' in groups then groups[r'] else []) + [g.slots[i]]];
      AppendToGroup(g.slots, rep, i, before, groups);
    }
  }

  /** Go's sort.Slice on the groups; the ID order leaves ties unspecified. */
  method TransitiveClusters(g: Graph) returns (out: seq<seq<nat>>)
    requires g.Valid()
    ensures IsClustering(g, out)
  {
    var parent := new nat[|g.slots|];
    ghost var rep, rank := UnionSimilar(g, parent);
    var groups := GroupByRoot(g, parent, rep, rank);
    var todo := groups.Keys;
    out := [];
    while todo != {}
      invariant todo <= groups.Keys
      invariant Arranges(groups - todo, out)
      decreases todo
    {
      var r :| r in todo;
      ArrangeOneMore(g, rep, groups, todo, out, r);
      out := out + [groups[r]];
      todo := todo - {r};
    }
    assert groups - todo == groups;
    SortArranges(g.items, groups, out);
    out := SortByFirstId(g.items, out);
    GroupsAreComponents(g, rep, groups, out);
  }

  // ---------------------------------------------------------------- ClusterAll

  datatype Options = Options(minClusterSize: int, minAvgConfidence: real, similarityThreshold: real)

  datatype Verdict =
    | Candidate
    | TooSmall(size: nat, minSize: int)
    | LowConfidence(avg: real, minAvg: real)

  datatype Cluster = Cluster(
    domain: string, members: seq<nat>, avgConfidence: real,
    keywords: seq<string>, tags: seq<string>, verdict: Verdict)

  function WithDefaults(o: Options): Options
  {
    Options(
      if o.minClusterSize <= 0 then 3 else o.minClusterSize,
      if o.minAvgConfidence < 0.0 then 0.6 else o.minAvgConfidence,
      if o.similarityThreshold <= 0.0 then 0.5 else o.similarityThreshold)
  }

  function DomainOf(it: Instinct): string
  {
    Text.TrimSpace(it.domain)
  }

  /** The slots below n whose entry is d, in order. */
  function SlotsBelow(domains: seq<string>, n: nat, d: string): seq<nat>
    requires n <= |domains|
  {
    if n == 0 then []
    else SlotsBelow(domains, n - 1, d) + if domains[n - 1] == d then [n - 1] else []
  }

  lemma {:induction false} SlotsBelowInOrder(domains: seq<string>, n: nat, d: string)
    requires n <= |domains|
    ensures Increasing(SlotsBelow(domains, n, d))
    ensures forall k | 0 <= k < |SlotsBelow(domains, n, d)| :: SlotsBelow(domains, n, d)[k] < n
  {
    if n > 0 { SlotsBelowInOrder(domains, n - 1, d); }
  }

  lemma {:induction false} SlotsBelowMeans(domains: seq<string>, n: nat, d: string, x: nat)
    requires n <= |domains|
    ensures x in SlotsBelow(domains, n, d) <==> x < n && domains[x] == d
  {
    if n > 0 { SlotsBelowMeans(domains, n - 1, d, x); }
  }

  function Domains(items: seq<Instinct>): (r: seq<string>)
    ensures |r| == |items|
  {
    seq(|items|, i requires 0 <= i < |items| => DomainOf(items[i]))
  }

  function DomainGraph(lx: Lexicon, items: seq<Instinct>, threshold: real, d: string): (g: Graph)
    ensures g.Valid()
  {
    var domains := Domains(items);
    SlotsBelowInOrder(domains, |items|, d);
    Graph(lx, items, SlotsBelow(domains, |items|, d), threshold)
  }

  ghost predicate Within(items: seq<Instinct>, members: seq<nat>)
  {
    forall k | 0 <= k < |members| :: members[k] < |items|
  }

  function Total(items: seq<Instinct>, members: seq<nat>): real
    requires Within(items, members)
  {
    if members == [] then 0.0
    else Total(items, members[..|members| - 1]) + items[members[|members| - 1]].confidence
  }

  ghost function KeywordsOf(lx: Lexicon, items: seq<Instinct>, members: seq<nat>): iset<string>
  {
    iset x, w | x in members && x < |items| && w in lx.keywords(items[x].title) :: w
  }

  ghost function TagsOf(lx: Lexicon, items: seq<Instinct>, members: seq<nat>): iset<string>
  {
    iset x, t | x in members && x < |items| && t in items[x].tags :: lx.lower(t)
  }

  /** The aggregate fields of c describe c.members, and the verdict is the one its thresholds give. */
  ghost predicate Describes(lx: Lexicon, items: seq<Instinct>, o: Options, c: Cluster)
  {
    && c.members != [] && Within(items, c.members)
    && c.avgConfidence == Total(items, c.members) / |c.members| as real
    && StrictlySorted(c.keywords) && (forall w :: w in c.keywords <==> w in KeywordsOf(lx, items, c.members))
    && StrictlySorted(c.tags) && (forall t :: t in c.tags <==> t in TagsOf(lx, items, c.members))
    && (c.verdict.Candidate? <==> |c.members| >= o.minClusterSize && c.avgConfidence >= o.minAvgConfidence)
    && (c.verdict.TooSmall? ==> c.verdict == TooSmall(|c.members|, o.minClusterSize) && |c.members| < o.minClusterSize)
    && (c.verdict.LowConfidence? ==> c.verdict == LowConfidence(c.avgConfidence, o.minAvgConfidence) && |c.members| >= o.minClusterSize)
  }

  method BuildCluster(lx: Lexicon, items: seq<Instinct>, domain: string, members: seq<nat>, o: Options) returns (c: Cluster)
    requires members != [] && Within(items, members)
    ensures c.domain == domain && c.members == members
    ensures Describes(lx, items, o, c)
  {
    var sum, kws, tags := 0.0, {}, {};
    for i := 0 to |members|
      invariant sum == Total(items, members[..i])
      invariant forall w :: w in kws <==> w in KeywordsOf(lx, items, members[..i])
      invariant forall t :: t in tags <==> t in TagsOf(lx, items, members[..i])
    {
      var it := items[members[i]];
      assert members[..i + 1] == members[..i] + [members[i]];
      sum := sum + it.confidence;
      kws := kws + set w | w in lx.keywords(it.title);
      tags := tags + set t | t in it.tags :: lx.lower(t);
    }
    assert members[..|members|] == members;
    var avg := sum / |members| as real;
    var keywords := SortedKeys(kws);
    var tagList := SortedKeys(tags);
    var verdict :=
      if |members| < o.minClusterSize then TooSmall(|members|, o.minClusterSize)
      else if avg < o.minAvgConfidence then LowConfidence(avg, o.minAvgConfidence)
      else Candidate;
    c := Cluster(domain, members, avg, keywords, tagList, verdict);
  }

  function Candidates(all: seq<Cluster>): seq<Cluster>
  {
    if all == [] then [] else
      var last := all[|all| - 1];
      Candidates(all[..|all| - 1]) + if last.verdict.Candidate? then [last] else []
  }

  function Skipped(all: seq<Cluster>): seq<Cluster>
  {
    if all == [] then [] else
      var last := all[|all| - 1];
      Skipped(all[..|all| - 1]) + if last.verdict.Candidate? then [] else [last]
  }

  /** c.members is one connected component of its (non-blank) domain. */
  ghost predicate IsComponent(lx: Lexicon, items: seq<Instinct>, threshold: real, c: Cluster)
  {
    var g := DomainGraph(lx, items, threshold, c.domain);
    && c.domain != "" && c.members != [] && Increasing(c.members)
    && (forall x | x in c.members :: x in g.slots)
    && (forall x, y | x in c.members && y in g.slots :: y in c.members <==> g.Connected(x, y))
  }

  ghost predicate Clustered(all: seq<Cluster>, x: nat)
  {
    exists k :: 0 <= k < |all| && x in all[k].members
  }

  /** all lists every component of every non-blank domain once, by domain and then by first ID. */
  ghost predicate ListsComponents(lx: Lexicon, items: seq<Instinct>, o: Options, all: seq<Cluster>)
  {
    && (forall k | 0 <= k < |all| :: IsComponent(lx, items, o.similarityThreshold, all[k]) && Describes(lx, items, o, all[k]))
    && (forall x: nat | x < |items| && Domains(items)[x] != "" :: Clustered(all, x))
    && EachOnce(all)
    && InOrder(items, all)
  }

  /** byDomain holds, for each non-blank domain seen among the first n slots, its slots in order. */
  ghost predicate GroupedBelow(domains: seq<string>, n: nat, byDomain: map<string, seq<nat>>)
    requires n <= |domains|
  {
    && (forall d | d in byDomain :: d != "" && byDomain[d] == SlotsBelow(domains, n, d))
    && (forall x: nat | x < n && domains[x] != "" :: domains[x] in byDomain)
  }

  lemma NewDomainHasNoSlots(domains: seq<string>, n: nat, byDomain: map<string, seq<nat>>, d: string)
    requires n <= |domains| && GroupedBelow(domains, n, byDomain) && d != "" && d !in byDomain
    ensures SlotsBelow(domains, n, d) == []
  {
    var slots := SlotsBelow(domains, n, d);
    if slots != [] {
      SlotsBelowMeans(domains, n, d, slots[0]);
      assert false;
    }
  }

  /** Slot i goes to the group of its domain, unless that is blank. */
  function Grouped(byDomain: map<string, seq<nat>>, d: string, i: nat): map<string, seq<nat>>
  {
    if d == "" then byDomain else byDomain[d := (if d in byDomain then byDomain[d] else []) + [i]]
  }

  lemma GroupOneMore(domains: seq<string>, n: nat, byDomain: map<string, seq<nat>>, d: string)
    requires n < |domains| && GroupedBelow(domains, n, byDomain) && d == domains[n]
    ensures GroupedBelow(domains, n + 1, Grouped(byDomain, d, n))
  {
    if d != "" && d !in byDomain { NewDomainHasNoSlots(domains, n, byDomain, d); }
  }

  method GroupByDomain(items: seq<Instinct>) returns (byDomain: map<string, seq<nat>>)
    ensures GroupedBelow(Domains(items), |items|, byDomain)
  {
    ghost var domains := Domains(items);
    byDomain := map[];
    for i := 0 to |items|
      invariant GroupedBelow(domains, i, byDomain)
    {
      var d := DomainOf(items[i]);
      assert d == domains[i];
      GroupOneMore(domains, i, byDomain, d);
      ghost var next := Grouped(byDomain, d, i);
      if d != "" {
        byDomain := byDomain[d := (if d in byDomain then byDomain[d] else []) + [i]];
      }
      assert byDomain == next;
    }
  }

  /** The clusters of the first n domains, in order. */
  ghost predicate ListsDomains(lx: Lexicon, items: seq<Instinct>, o: Options, domains: seq<string>, n: nat, all: seq<Cluster>)
    requires n <= |domains|
  {
    && (forall k | 0 <= k < |all| :: IsComponent(lx, items, o.similarityThreshold, all[k]) && Describes(lx, items, o, all[k]))
    && (forall k | 0 <= k < |all| :: all[k].domain in domains[..n])
    && (forall x: nat | x < |items| && Domains(items)[x] in domains[..n] :: Clustered(all, x))
    && EachOnce(all)
    && InOrder(items, all)
  }

  ghost predicate EachOnce(all: seq<Cluster>)
  {
    forall k, l, x | 0 <= k < |all| && 0 <= l < |all| && x in all[k].members && x in all[l].members :: k == l
  }

  ghost predicate InOrder(items: seq<Instinct>, all: seq<Cluster>)
  {
    forall k, l | 0 <= k < l < |all| :: Less(all[k].domain, all[l].domain)
      || (all[k].domain == all[l].domain && Leq(FirstId(items, all[k].members), FirstId(items, all[l].members)))
  }

  /** built are the described clusters of the first n groups of one domain. */
  ghost predicate BuiltFrom(lx: Lexicon, items: seq<Instinct>, o: Options, d: string, groups: seq<seq<nat>>, built: seq<Cluster>)
  {
    && |built| == |groups|
    && forall k | 0 <= k < |built| :: built[k].domain == d && built[k].members == groups[k] && Describes(lx, items, o, built[k])
  }

  lemma AddDomain(lx: Lexicon, items: seq<Instinct>, o: Options, domains: seq<string>, n: nat, all: seq<Cluster>,
                  groups: seq<seq<nat>>, built: seq<Cluster>)
    requires n < |domains| && StrictlySorted(domains) && domains[n] != ""
    requires ListsDomains(lx, items, o, domains, n, all)
    requires IsClustering(DomainGraph(lx, items, o.similarityThreshold, domains[n]), groups)
    requires BuiltFrom(lx, items, o, domains[n], groups, built)
    ensures ListsDomains(lx, items, o, domains, n + 1, all + built)
  {
    var d, g := domains[n], DomainGraph(lx, items, o.similarityThreshold, domains[n]);
    var more := all + built;
    assert domains[..n + 1] == domains[..n] + [d];
    forall k | 0 <= k < |more|
      ensures IsComponent(lx, items, o.similarityThreshold, more[k]) && Describes(lx, items, o, more[k])
      ensures more[k].domain in domains[..n + 1]
    {
      if k < |all| { assert more[k] == all[k]; } else {
        var m := k - |all|;
        assert more[k] == built[m] && built[m].members == groups[m];
      }
    }
    forall x: nat | x < |items| && Domains(items)[x] in domains[..n + 1] ensures Clustered(more, x) {
      if Domains(items)[x] in domains[..n] {
        var k :| 0 <= k < |all| && x in all[k].members;
        assert x in more[k].members;
      } else {
        SlotsBelowMeans(Domains(items), |items|, d, x);
        assert Placed(groups, x);
        var m :| 0 <= m < |groups| && x in groups[m];
        assert x in more[|all| + m].members;
      }
    }
    AddDomainOnce(lx, items, o, domains, n, all, groups, built);
    forall k, l | 0 <= k < l < |more|
      ensures Less(more[k].domain, more[l].domain)
        || (more[k].domain == more[l].domain && Leq(FirstId(items, more[k].members), FirstId(items, more[l].members)))
    {
      if l >= |all| {
        assert more[l] == built[l - |all|];
        if k < |all| { assert more[k].domain in domains[..n]; } else { assert more[k] == built[k - |all|]; }
      }
    }
  }

  lemma AddDomainOnce(lx: Lexicon, items: seq<Instinct>, o: Options, domains: seq<string>, n: nat, all: seq<Cluster>,
                      groups: seq<seq<nat>>, built: seq<Cluster>)
    requires n < |domains| && StrictlySorted(domains)
    requires ListsDomains(lx, items, o, domains, n, all)
    requires IsClustering(DomainGraph(lx, items, o.similarityThreshold, domains[n]), groups)
    requires BuiltFrom(lx, items, o, domains[n], groups, built)
    ensures EachOnce(all + built)
  {
    var more := all + built;
    forall k, l, x | 0 <= k < |more| && 0 <= l < |more| && x in more[k].members && x in more[l].members ensures k == l {
      var (i, j) := if k <= l then (k, l) else (l, k);
      if i < |all| {
        assert more[i] == all[i];
        if j >= |all| {
          assert more[j] == built[j - |all|];
          SlotsBelowMeans(Domains(items), |items|, domains[n], x);
          SlotsBelowMeans(Domains(items), |items|, all[i].domain, x);
          assert false;
        }
      } else {
        assert more[i] == built[i - |all|] && more[j] == built[j - |all|];
        assert x in groups[i - |all|] && x in groups[j - |all|];
      }
    }
  }

  lemma {:induction false} SelectAppend(all: seq<Cluster>, built: seq<Cluster>)
    ensures Candidates(all + built) == Candidates(all) + Candidates(built)
    ensures Skipped(all + built) == Skipped(all) + Skipped(built)
  {
    if built == [] { assert all + built == all; } else {
      assert (all + built)[..|all + built| - 1] == all + built[..|built| - 1];
      SelectAppend(all, built[..|built| - 1]);
    }
  }

  /** One domain's groups described in turn, with the verdicts splitting them. */
  method DescribeGroups(g: Graph, domain: string, groups: seq<seq<nat>>, o: Options)
    returns (candidates: seq<Cluster>, skipped: seq<Cluster>)
    requires g.Valid() && IsClustering(g, groups)
    ensures exists built ::
      BuiltFrom(g.lx, g.items, o, domain, groups, built) && candidates == Candidates(built) && skipped == Skipped(built)
  {
    candidates, skipped := [], [];
    ghost var built: seq<Cluster> := [];
    for m := 0 to |groups|
      invariant BuiltFrom(g.lx, g.items, o, domain, groups[..m], built)
      invariant candidates == Candidates(built) && skipped == Skipped(built)
    {
      assert Within(g.items, groups[m]) by {
        forall k | 0 <= k < |groups[m]| ensures groups[m][k] < |g.items| {
          assert groups[m][k] in g.slots;
        }
      }
      var c := BuildCluster(g.lx, g.items, domain, groups[m], o);
      assert (built + [c])[..|built|] == built;
      built := built + [c];
      if c.verdict.Candidate? { candidates := candidates + [c]; } else { skipped := skipped + [c]; }
    }
    assert groups[..|groups|] == groups;
  }

  /** The clusters in the order in which they were built, split by verdict. */
  method ClusterAll(lx: Lexicon, items: seq<Instinct>, opts: Options)
    returns (candidates: seq<Cluster>, skipped: seq<Cluster>)
    ensures exists all ::
      ListsComponents(lx, items, WithDefaults(opts), all) && candidates == Candidates(all) && skipped == Skipped(all)
  {
    var o := WithDefaults(opts);
    var byDomain := GroupByDomain(items);
    var domains := SortedKeys(byDomain.Keys);
    candidates, skipped := [], [];
    ghost var all: seq<Cluster> := [];
    for n := 0 to |domains|
      invariant ListsDomains(lx, items, o, domains, n, all)
      invariant candidates == Candidates(all) && skipped == Skipped(all)
    {
      var d := domains[n];
      assert d in byDomain;
      ghost var g := DomainGraph(lx, items, o.similarityThreshold, d);
      var groups := TransitiveClusters(Graph(lx, items, byDomain[d], o.similarityThreshold));
      var good, bad := DescribeGroups(Graph(lx, items, byDomain[d], o.similarityThreshold), d, groups, o);
      ghost var built :| BuiltFrom(lx, items, o, d, groups, built) && good == Candidates(built) && bad == Skipped(built);
      AddDomain(lx, items, o, domains, n, all, groups, built);
      SelectAppend(all, built);
      candidates, skipped, all := candidates + good, skipped + bad, all + built;
    }
    EveryDomainListed(lx, items, o, domains, byDomain, all);
  }

  lemma EveryDomainListed(lx: Lexicon, items: seq<Instinct>, o: Options, domains: seq<string>,
                          byDomain: map<string, seq<nat>>, all: seq<Cluster>)
    requires GroupedBelow(Domains(items), |items|, byDomain)
    requires forall d :: d in domains <==> d in byDomain
    requires ListsDomains(lx, items, o, domains, |domains|, all)
    ensures ListsComponents(lx, items, o, all)
  {
    assert domains[..|domains|] == domains;
  }
}
