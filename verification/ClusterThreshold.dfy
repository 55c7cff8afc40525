// Raising the similarity option that callers pass to ClusterAll: an option of zero or below stands for 0.5, so
// going from there to a small positive one lowers the threshold and can merge clusters.

module ClusterThreshold {
  import opened Clustering
  import opened TitleKeywords
  import ClusterLaws
  import Text

  /** With these options x and y are linked, which is what puts them into one cluster (ClusterLaws.TogetherIffLinked). */
  ghost predicate Linked(lx: Lexicon, items: seq<Instinct>, o: Options, x: nat, y: nat)
  {
    && x < |items| && y < |items|
    && var d := Domains(items)[x];
    && d != "" && Domains(items)[y] == d
    && DomainGraph(lx, items, WithDefaults(o).similarityThreshold, d).Connected(x, y)
  }

  /** Whatever there is to cluster, going from o to o' links no two instincts that were apart. */
  ghost predicate OnlySplits(lx: Lexicon, o: Options, o': Options)
  {
    forall items, x: nat, y: nat | Linked(lx, items, o', x, y) :: Linked(lx, items, o, x, y)
  }

  /** Raising the option only splits clusters unless it goes from the default, asked for by zero or less, to less than that. */
  lemma RaisingOptionSplitsIff(lx: Lexicon, o: Options, o': Options)
    requires Rich(lx) && o.similarityThreshold <= o'.similarityThreshold
    ensures OnlySplits(lx, o, o') <==> !(o.similarityThreshold <= 0.0 < o'.similarityThreshold < 0.5)
  {
    var low, high := WithDefaults(o).similarityThreshold, WithDefaults(o').similarityThreshold;
    if o.similarityThreshold <= 0.0 < o'.similarityThreshold < 0.5 {
      var m := Closer(high);
      var items := SomePair(lx, m);
      PairLinkedIff(lx, items, m, o');
      PairLinkedIff(lx, items, m, o);
      assert Linked(lx, items, o', 0, 1) && !Linked(lx, items, o, 0, 1);
    } else {
      forall items, x: nat, y: nat | Linked(lx, items, o', x, y) ensures Linked(lx, items, o, x, y) {
        ClusterLaws.ConnectedMonotone(lx, items, low, high, Domains(items)[x], x, y);
      }
    }
  }

  /** The program's own splitting of titles is rich, so for it the law fails exactly there. */
  lemma ProgramRaisingOptionSplitsIff(p: Splitting, o: Options, o': Options)
    requires Usual(p) && o.similarityThreshold <= o'.similarityThreshold
    ensures OnlySplits(LexiconOf(p), o, o') <==> !(o.similarityThreshold <= 0.0 < o'.similarityThreshold < 0.5)
  {
    ProgramIsRich(p);
    RaisingOptionSplitsIff(LexiconOf(p), o, o');
  }

  // ---------------------------------------------------------------- two instincts just below one half

  /** Two instincts of one domain: the first has 2m + 1 tags and keywords, of which the other has the first m. */
  ghost predicate IsPair(lx: Lexicon, items: seq<Instinct>, m: nat)
  {
    && |items| == 2 && items[0].domain == items[1].domain == "d"
    && Vocabulary(lx, items[0].tags) && |items[0].tags| == 2 * m + 1 && items[1].tags == items[0].tags[..m]
    && lx.keywords(items[0].title) == items[0].tags && lx.keywords(items[1].title) == items[1].tags
  }

  lemma SomePair(lx: Lexicon, m: nat) returns (items: seq<Instinct>)
    requires Rich(lx)
    ensures IsPair(lx, items, m)
  {
    var n := 2 * m + 1;
    assert HasTitles(lx, n);
    var ws :| |ws| == n && Vocabulary(lx, ws) && Titled(lx, ws);
    assert TitledTo(lx, ws, n) && TitledTo(lx, ws, m);
    var long :| lx.keywords(long) == ws[..n];
    var short :| lx.keywords(short) == ws[..m];
    assert ws[..n] == ws;
    items := [Instinct("1", long, "d", 1.0, ws), Instinct("2", short, "d", 1.0, ws[..m])];
  }

  /** Lower-casing leaves a vocabulary as it is. */
  lemma LoweredSame(lx: Lexicon, ws: seq<string>)
    requires forall i | 0 <= i < |ws| :: lx.lower(ws[i]) == ws[i]
    ensures Lowered(lx, ws) == set w | w in ws
  {
    forall s ensures s in Lowered(lx, ws) <==> s in ws {
      if s in ws {
        var i :| 0 <= i < |ws| && ws[i] == s;
        assert lx.lower(ws[i]) in Lowered(lx, ws);
      }
    }
  }

  lemma {:induction false} DistinctCount(ws: seq<string>)
    requires forall i, j | 0 <= i < j < |ws| :: ws[i] != ws[j]
    ensures |set w | w in ws| == |ws|
  {
    if ws != [] {
      var front, last := ws[..|ws| - 1], ws[|ws| - 1];
      DistinctCount(front);
      assert (set w | w in ws) == (set w | w in front) + {last};
      assert last !in front;
    }
  }

  lemma LoweredVocabulary(lx: Lexicon, ws: seq<string>, n: nat)
    requires Vocabulary(lx, ws) && n <= |ws|
    ensures |Lowered(lx, ws[..n])| == n && Lowered(lx, ws[..n]) == set w | w in ws[..n]
  {
    LoweredSame(lx, ws[..n]);
    DistinctCount(ws[..n]);
  }

  lemma Overlap(lx: Lexicon, ws: seq<string>, m: nat)
    requires Vocabulary(lx, ws) && |ws| == 2 * m + 1
    ensures Jaccard(lx, ws, ws[..m]) == m as real / (2 * m + 1) as real
  {
    var A, B := Lowered(lx, ws), Lowered(lx, ws[..m]);
    LoweredVocabulary(lx, ws, 2 * m + 1);
    LoweredVocabulary(lx, ws, m);
    assert ws[..2 * m + 1] == ws;
    assert forall s | s in ws[..m] :: s in ws;
    assert A * B == B && A + B == A;
  }

  /** Their similarity comes as close to one half as needed. */
  lemma Closer(t: real) returns (m: nat)
    requires 0.0 < t < 0.5
    ensures t <= m as real / (2 * m + 1) as real < 0.5
  {
    var k := 1.0 - 2.0 * t;
    var q := t / k;
    assert q * k == t;
    Positive(q, k);
    m := q.Floor + 1;
    Enough(m as real, q, k, t);
    Between(m, t);
  }

  lemma Enough(m: real, q: real, k: real, t: real)
    requires m >= q && q * k == t && k == 1.0 - 2.0 * t && k > 0.0
    ensures m >= t * (2.0 * m + 1.0)
  {
    Above(m, q, k);
    Expand(m, t);
  }

  lemma Expand(m: real, t: real)
    ensures m * (1.0 - 2.0 * t) == m - 2.0 * (t * m) && t * (2.0 * m + 1.0) == 2.0 * (t * m) + t
  {
  }

  lemma Positive(q: real, k: real)
    requires k > 0.0 && q * k > 0.0
    ensures q > 0.0
  {
  }

  lemma Above(m: real, q: real, k: real)
    requires m >= q && k > 0.0
    ensures m * k >= q * k
  {
  }

  lemma Between(m: nat, t: real)
    requires m as real >= t * (2 * m + 1) as real
    ensures t <= m as real / (2 * m + 1) as real < 0.5
  {
    var n := (2 * m + 1) as real;
    var j := m as real / n;
    assert j * n == m as real;
    Quotient(j, n, t, m);
  }

  lemma Quotient(j: real, n: real, t: real, m: nat)
    requires n == 2.0 * m as real + 1.0 && j * n == m as real && m as real >= t * n
    ensures t <= j < 0.5
  {
    if j >= 0.5 { Above(j, 0.5, n); }
    if j < t {
      Strictly(t - j, n);
    }
  }

  lemma Strictly(d: real, n: real)
    requires d > 0.0 && n > 0.0
    ensures d * n > 0.0
  {
  }

  /** The two are linked exactly when their similarity reaches the threshold in force. */
  lemma PairLinkedIff(lx: Lexicon, items: seq<Instinct>, m: nat, o: Options)
    requires IsPair(lx, items, m)
    ensures Linked(lx, items, o, 0, 1) <==> m as real / (2 * m + 1) as real >= WithDefaults(o).similarityThreshold
  {
    var g := DomainGraph(lx, items, WithDefaults(o).similarityThreshold, "d");
    Text.NothingToTrim("d");
    assert Domains(items) == ["d", "d"];
    SlotsBelowMeans(Domains(items), 2, "d", 0);
    SlotsBelowMeans(Domains(items), 2, "d", 1);
    Overlap(lx, items[0].tags, m);
    assert Similarity(lx, items[0], items[1]) == m as real / (2 * m + 1) as real;
    if g.Similar(0, 1) {
      assert g.Edge(0, 1);
      g.ConnectedEdge(0, 1);
    } else if g.Connected(0, 1) {
      var p :| g.Chain(p, 0, 1);
      Apart(g, p);
    }
  }

  lemma {:induction false} Apart(g: Graph, p: seq<nat>)
    requires |g.items| == 2 && !g.Similar(0, 1)
    ensures !g.Chain(p, 0, 1)
  {
    if g.Chain(p, 0, 1) {
      assert g.Edge(p[0], p[1]);
      assert p[1] == 0;
      forall k | 0 <= k < |p| - 2 ensures g.Edge(p[1..][k], p[1..][k + 1]) { assert g.Edge(p[k + 1], p[k + 1 + 1]); }
      assert g.Chain(p[1..], 0, 1);
      Apart(g, p[1..]);
    }
  }
}
