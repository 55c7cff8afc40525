// Where the HTTP cache keeps the metadata of a URL (metaPath, splitURLPath, sanitizeURLPath in pkg/registry/http.go).

module MetaPath {
  import opened Paths
  import opened Substring
  import HttpCache
  import HttpCacheSafety
  import Text

  /** What net/url makes of a URL; the fragment and the user are of no account here. */
  datatype Url = Url(scheme: string, host: string, path: string, query: string)

  predicate Hostile(c: char)
  {
    c == ':' || c == '?' || c == '*' || c == '<' || c == '>' || c == '|' || c == '\"'
  }

  function Sanitized(s: string): string
  {
    if s == "" then "" else [if Hostile(s[0]) then '_' else s[0]] + Sanitized(s[1..])
  }

  /** The path without its leading slash, with the query folded in. */
  function Folded(u: Url): string
  {
    (if Text.HasPrefix(u.path, "/") then u.path[1..] else u.path)
    + if u.query != "" then "__q__" + Sanitized(u.query) else ""
  }

  /** The segments that end the file's path. */
  function Segments(u: Url): Path
  {
    Split(Folded(u) + ".meta", '/')
  }

  /** filepath.Join(dir, "index", host, path + ".meta"), which cleans what it joins; dir is absolute. */
  function PathOf(dir: Path, u: Url): Path
  {
    Clean(dir + ["index"] + Split(Sanitized(u.host), '/') + Segments(u))
  }

  lemma {:induction false} SanitizedAt(s: string)
    ensures |Sanitized(s)| == |s| && forall i | 0 <= i < |s| :: Sanitized(s)[i] == if Hostile(s[i]) then '_' else s[i]
  {
    if s != "" { SanitizedAt(s[1..]); }
  }

  // ---------------------------------------------------------------- when two URLs share a file

  /** A host that is a name: not empty, not "." or "..", and without a slash, as no host of a URL has one. */
  predicate NamedHost(u: Url)
  {
    Segment(Sanitized(u.host))
  }

  lemma HostIsOneSegment(u: Url)
    requires NamedHost(u)
    ensures Split(Sanitized(u.host), '/') == [Sanitized(u.host)]
  {
    SplitNone(Sanitized(u.host), '/');
  }

  lemma UnderHost(dir: Path, u: Url)
    requires Proper(dir) && NamedHost(u) && Inside(Segments(u))
    ensures PathOf(dir, u) == dir + ["index", Sanitized(u.host)] + Clean(Segments(u))
  {
    var top := dir + ["index", Sanitized(u.host)];
    HostIsOneSegment(u);
    assert dir + ["index"] + [Sanitized(u.host)] == top;
    CleanAppend(top, Segments(u));
    CleanProper(top);
  }

  /**
   * Two URLs that do not climb above their host share a metadata file exactly when sanitising makes their hosts equal
   * and cleaning their folded paths; the scheme is not looked at.
   */
  lemma SharedIff(dir: Path, u: Url, v: Url)
    requires Proper(dir) && NamedHost(u) && NamedHost(v) && Inside(Segments(u)) && Inside(Segments(v))
    ensures PathOf(dir, u) == PathOf(dir, v)
      <==> Sanitized(u.host) == Sanitized(v.host) && Clean(Segments(u)) == Clean(Segments(v))
  {
    UnderHost(dir, u);
    UnderHost(dir, v);
    SamePrefix(dir, Sanitized(u.host), Clean(Segments(u)), Sanitized(v.host), Clean(Segments(v)));
  }

  lemma SamePrefix(dir: Path, g: string, p: Path, h: string, q: Path)
    ensures dir + ["index", g] + p == dir + ["index", h] + q <==> g == h && p == q
  {
    var x, y, n := dir + ["index", g] + p, dir + ["index", h] + q, |dir| + 2;
    assert x[n - 1] == g && y[n - 1] == h && x[n..] == p && y[n..] == q;
  }

  /** Every segment of the path but the last, which ".meta" makes a name in any case, is a name. */
  ghost predicate Plain(u: Url)
  {
    var p := Split(Folded(u), '/');
    Proper(p[..|p| - 1])
  }

  lemma MetaIsName(s: string)
    requires '/' !in s
    ensures Segment(s + ".meta")
  {
    assert |s + ".meta"| >= 5;
  }

  lemma PlainMeans(u: Url)
    ensures SlashFree(Segments(u)) && Segments(u) == Suffixed(Split(Folded(u), '/'), ".meta")
    ensures Plain(u) <==> Proper(Segments(u))
  {
    SlashedSplit(Folded(u) + ".meta");
    SlashedSplit(Folded(u));
    SplitSuffixed(Folded(u), ".meta");
    var p := Split(Folded(u), '/');
    MetaIsName(p[|p| - 1]);
    assert Segments(u)[..|p| - 1] == p[..|p| - 1];
  }

  /** A path is kept as it is spelled exactly when it is plain. */
  lemma KeptAsSpelledIff(dir: Path, u: Url)
    requires Proper(dir) && NamedHost(u)
    ensures PathOf(dir, u) == dir + ["index", Sanitized(u.host)] + Segments(u) <==> Plain(u)
  {
    var top := dir + ["index", Sanitized(u.host)];
    HostIsOneSegment(u);
    PlainMeans(u);
    assert dir + ["index"] + [Sanitized(u.host)] == top;
    if Proper(Segments(u)) { CleanProper(top + Segments(u)); }
    if Clean(top + Segments(u)) == top + Segments(u) { ProperOfClean(dir, top, Segments(u)); }
  }

  lemma ProperOfClean(dir: Path, top: Path, p: Path)
    requires Proper(top) && SlashFree(p) && Clean(top + p) == top + p
    ensures Proper(p)
  {
    assert forall i | 0 <= i < |top| :: Segment(top[i]);
    CleanKeepsIff(top + p);
    forall i | 0 <= i < |p| ensures Segment(p[i]) { assert (top + p)[|top| + i] == p[i]; }
  }

  /** Plain URLs share a file exactly when sanitising makes their hosts equal and folding their paths. */
  lemma PlainSharedIff(dir: Path, u: Url, v: Url)
    requires Proper(dir) && NamedHost(u) && NamedHost(v) && Plain(u) && Plain(v)
    ensures PathOf(dir, u) == PathOf(dir, v) <==> Sanitized(u.host) == Sanitized(v.host) && Folded(u) == Folded(v)
  {
    PlainMeans(u);
    PlainMeans(v);
    ProperIsInside(Segments(u));
    ProperIsInside(Segments(v));
    CleanProper(Segments(u));
    CleanProper(Segments(v));
    SharedIff(dir, u, v);
    if Segments(u) == Segments(v) {
      SlashedSplit(Folded(u) + ".meta");
      SlashedSplit(Folded(v) + ".meta");
      SameFront(Folded(u), Folded(v), ".meta");
    }
  }

  lemma SameFront(x: string, y: string, z: string)
    requires x + z == y + z
    ensures x == y
  {
    assert |x| == |y| && (x + z)[..|x|] == x && (y + z)[..|y|] == y;
  }

  // ---------------------------------------------------------------- collisions

  lemma {:induction false} SanitizedConcat(a: string, b: string)
    ensures Sanitized(a + b) == Sanitized(a) + Sanitized(b)
  {
    if a == "" { assert a + b == b; } else {
      assert (a + b)[1..] == a[1..] + b;
      SanitizedConcat(a[1..], b);
    }
  }

  lemma ColonIsUnderscore(a: string, b: string)
    ensures Sanitized(a + ":" + b) == Sanitized(a + "_" + b)
  {
    SanitizedConcat(a + ":", b);
    SanitizedConcat(a + "_", b);
    SanitizedConcat(a, ":");
    SanitizedConcat(a, "_");
    assert ":"[1..] == "" && "_"[1..] == "";
  }

  /** The path that is folded like u with its query. */
  function PathWithQuery(u: Url): string
  {
    u.path + "__q__" + Sanitized(u.query)
  }

  lemma QueryLooksLikePath(u: Url)
    requires u.query != ""
    ensures Folded(u.(path := PathWithQuery(u), query := "")) == Folded(u)
  {
    var p, q := u.path, "__q__" + Sanitized(u.query);
    assert PathWithQuery(u) == p + q;
    assert p != "" ==> (p + q)[..1] == p[..1];
    assert p != "" ==> (p + q)[1..] == p[1..] + q;
    assert p == "" ==> (p + q)[0] == '_';
  }

  /** What a query adds to the folded path. */
  function QueryPart(u: Url): string
  {
    if u.query != "" then "__q__" + Sanitized(u.query) else ""
  }

  lemma SegmentsOf(u: Url, x: string, y: string)
    requires u.path == "/" + x + "/" + y
    ensures Segments(u) == Split(x, '/') + Split(y + QueryPart(u) + ".meta", '/')
  {
    assert u.path[..1] == "/" && u.path[1..] == x + "/" + y;
    var z := y + QueryPart(u) + ".meta";
    assert Folded(u) + ".meta" == x + "/" + z;
    SplitConcat(x, z);
  }

  /** Segments that cleaning takes out leave no trace. */
  lemma NoTrace(front: Path, out: Path, back: Path)
    requires Clean(front + out) == Clean(front)
    ensures Clean(front + (out + back)) == Clean(front + back)
  {
    assert front + (out + back) == front + out + back;
    CleanAlike(front + out, front, back);
  }

  lemma Cancels(p: Path, x: string)
    requires Segment(x)
    ensures Clean(p + [""]) == Clean(p) && Clean(p + ["."]) == Clean(p) && Clean(p + [x, ".."]) == Clean(p)
  {
    CleanSnoc(p, "");
    CleanSnoc(p, ".");
    CleanSnoc(p, x);
    CleanSnoc(p + [x], "..");
    assert p + [x] + [".."] == p + [x, ".."];
  }

  /** These collide: http with https, a colon with an underscore anywhere in the host, every query with a path spelled like it. */
  lemma Collisions(dir: Path, u: Url, a: string, b: string)
    ensures PathOf(dir, u.(scheme := "http")) == PathOf(dir, u.(scheme := "https"))
    ensures PathOf(dir, u.(host := a + ":" + b)) == PathOf(dir, u.(host := a + "_" + b))
    ensures u.query != "" ==> PathOf(dir, u) == PathOf(dir, u.(path := PathWithQuery(u), query := ""))
  {
    ColonIsUnderscore(a, b);
    if u.query != "" { QueryLooksLikePath(u); }
  }

  /** And these: an empty segment, a dot, or a name with two dots behind it may stand anywhere in a path. */
  lemma SegmentCollisions(dir: Path, u: Url, a: string, x: string, b: string)
    requires Segment(x)
    ensures PathOf(dir, u.(path := "/" + a + "//" + b)) == PathOf(dir, u.(path := "/" + a + "/" + b))
    ensures PathOf(dir, u.(path := "/" + a + "/./" + b)) == PathOf(dir, u.(path := "/" + a + "/" + b))
    ensures PathOf(dir, u.(path := "/" + a + "/" + x + "/../" + b)) == PathOf(dir, u.(path := "/" + a + "/" + b))
  {
    Inserted(dir, u, a, "", [""], x, b);
    Inserted(dir, u, a, ".", ["."], x, b);
    Inserted(dir, u, a, x + "/..", [x, ".."], x, b);
    assert "/" + a + "/" + "" + "/" + b == "/" + a + "//" + b;
    assert "/" + a + "/" + "." + "/" + b == "/" + a + "/./" + b;
    assert "/" + a + "/" + (x + "/..") + "/" + b == "/" + a + "/" + x + "/../" + b;
  }

  lemma Inserted(dir: Path, u: Url, a: string, mid: string, out: Path, x: string, b: string)
    requires Segment(x) && ((mid == "" && out == [""]) || (mid == "." && out == ["."]) || (mid == x + "/.." && out == [x, ".."]))
    ensures PathOf(dir, u.(path := "/" + a + "/" + mid + "/" + b)) == PathOf(dir, u.(path := "/" + a + "/" + b))
  {
    var top, z := dir + ["index"] + Split(Sanitized(u.host), '/'), Split(b + QueryPart(u) + ".meta", '/');
    MiddleSplits(mid, out, x);
    InsertedSegments(u, a, mid, b);
    SegmentsOf(u.(path := "/" + a + "/" + b), a, b);
    Cancels(top + Split(a, '/'), x);
    NoTrace(top + Split(a, '/'), out, z);
    Regroup(top, Split(a, '/'), out, z);
  }

  lemma InsertedSegments(u: Url, a: string, mid: string, b: string)
    ensures Segments(u.(path := "/" + a + "/" + mid + "/" + b))
      == Split(a, '/') + Split(mid, '/') + Split(b + QueryPart(u) + ".meta", '/')
  {
    InsertedText(a, mid, b);
    SegmentsOf(u.(path := "/" + a + "/" + mid + "/" + b), a + "/" + mid, b);
    SplitConcat(a, mid);
  }

  lemma InsertedText(a: string, mid: string, b: string)
    ensures "/" + a + "/" + mid + "/" + b == "/" + (a + "/" + mid) + "/" + b
  {
  }

  lemma Regroup(top: Path, a: Path, out: Path, z: Path)
    ensures top + (a + out + z) == top + a + (out + z) && top + (a + z) == top + a + z
  {
  }

  lemma MiddleSplits(mid: string, out: Path, x: string)
    requires Segment(x) && ((mid == "" && out == [""]) || (mid == "." && out == ["."]) || (mid == x + "/.." && out == [x, ".."]))
    ensures Split(mid, '/') == out
  {
    if mid == x + "/.." {
      SplitNone("..", '/');
      SplitLine(x, "..", '/');
      assert mid == x + ['/'] + "..";
    } else {
      SplitNone(mid, '/');
    }
  }

  /** A path that climbs above its host lands among the files of another. */
  lemma ClimbingCollides(dir: Path, u: Url, g: string, b: string)
    requires NamedHost(u) && Segment(g) && Sanitized(g) == g
    ensures PathOf(dir, u.(path := "/../" + g + "/" + b)) == PathOf(dir, u.(host := g, path := "/" + b))
  {
    var h, z := Sanitized(u.host), Split(b + QueryPart(u) + ".meta", '/');
    HostIsOneSegment(u);
    SplitNone(g, '/');
    ClimberSegments(u, g, b);
    var front := dir + ["index"];
    Cancels(front, h);
    NoTrace(front, [h, ".."], [g] + z);
    ClimberPaths(front, h, g, z);
  }

  lemma ClimberSegments(u: Url, g: string, b: string)
    requires Segment(g)
    ensures Segments(u.(path := "/../" + g + "/" + b)) == ["..", g] + Split(b + QueryPart(u) + ".meta", '/')
    ensures Segments(u.(host := g, path := "/" + b)) == Split(b + QueryPart(u) + ".meta", '/')
  {
    ClimberText(g, b);
    SegmentsOf(u.(path := "/../" + g + "/" + b), ".." + "/" + g, b);
    SplitNone("..", '/');
    SplitNone(g, '/');
    SplitConcat("..", g);
    SegmentsOfLast(u.(host := g, path := "/" + b), b);
  }

  lemma ClimberText(g: string, b: string)
    ensures "/../" + g + "/" + b == "/" + (".." + "/" + g) + "/" + b
  {
  }

  lemma SegmentsOfLast(u: Url, y: string)
    requires u.path == "/" + y
    ensures Segments(u) == Split(y + QueryPart(u) + ".meta", '/')
  {
    assert u.path[..1] == "/" && u.path[1..] == y;
  }

  lemma ClimberPaths(front: Path, h: string, g: string, z: Path)
    ensures front + [h] + (["..", g] + z) == front + ([h, ".."] + ([g] + z)) && front + [g] + z == front + ([g] + z)
  {
  }

  // ---------------------------------------------------------------- the URLs of one registry

  /** The URLs of one registry without queries that stay under its host. */
  predicate OfRegistry(u: Url, scheme: string, host: string)
  {
    && u.scheme == scheme && u.host == host && u.query == "" && Text.HasPrefix(u.path, "/")
    && Inside(Segments(u))
  }

  lemma FoldedPath(u: Url)
    requires u.query == "" && Text.HasPrefix(u.path, "/")
    ensures u.path == "/" + Folded(u)
  {
    assert u.path[..1] == "/" && Folded(u) == u.path[1..] + "";
  }

  /** An absolute path as it is written. */
  function Absolute(p: Path): string
  {
    if p == [] then "/" else "/" + Slashed(p)
  }

  lemma AbsoluteInjective(p: Path, q: Path)
    requires Proper(p) && Proper(q) && Absolute(p) == Absolute(q)
    ensures p == q
  {
    assert p != [] ==> Absolute(p)[1..] == Slashed(p);
    assert q != [] ==> Absolute(q)[1..] == Slashed(q);
    if p != [] { SlashedNotEmpty(p); }
    if q != [] { SlashedNotEmpty(q); }
    if p != [] && q != [] { SlashedInjective(p, q); }
  }

  lemma SlashedNotEmpty(p: Path)
    requires p != [] && Proper(p)
    ensures Slashed(p) != ""
  {
    assert p[0] != "";
  }

  lemma PathIsProper(dir: Path, u: Url)
    requires Proper(dir)
    ensures Proper(PathOf(dir, u))
  {
    SlashedSplit(Sanitized(u.host));
    SlashedSplit(Folded(u) + ".meta");
    CleanIsProper(dir + ["index"] + Split(Sanitized(u.host), '/') + Segments(u));
  }

  /** The cache keeps its metadata under dir, and all its URLs are of one registry. */
  ghost predicate ServesOne(c: HttpCache.Config, dir: Path, parse: string -> Url, scheme: string, host: string)
  {
    && Proper(dir) && Segment(Sanitized(host))
    && forall url | c.uses(url) :: OfRegistry(parse(url), scheme, host) && c.metaPath(url) == Absolute(PathOf(dir, parse(url)))
  }

  /** For a cache that serves one registry metadata is kept apart exactly when no two of its URLs have one cleaned path. */
  lemma OneRegistryIsDistinctIff(c: HttpCache.Config, dir: Path, parse: string -> Url, scheme: string, host: string)
    requires ServesOne(c, dir, parse, scheme, host)
    ensures HttpCacheSafety.Injective(c)
      <==> forall x, y | c.uses(x) && c.uses(y) && Clean(Segments(parse(x))) == Clean(Segments(parse(y))) :: x == y
  {
    forall x, y | c.uses(x) && c.uses(y)
      ensures c.metaPath(x) == c.metaPath(y) <==> Clean(Segments(parse(x))) == Clean(Segments(parse(y)))
    {
      SharedIff(dir, parse(x), parse(y));
      PathIsProper(dir, parse(x));
      PathIsProper(dir, parse(y));
      if c.metaPath(x) == c.metaPath(y) { AbsoluteInjective(PathOf(dir, parse(x)), PathOf(dir, parse(y))); }
    }
  }

  /** So plain URLs of one registry keep their metadata apart, and the guarantees that need this hold for them. */
  lemma OneRegistryIsDistinct(c: HttpCache.Config, dir: Path, parse: string -> Url, scheme: string, host: string)
    requires ServesOne(c, dir, parse, scheme, host)
    requires forall url | c.uses(url) :: Plain(parse(url))
    requires forall x, y | c.uses(x) && c.uses(y) && parse(x) == parse(y) :: x == y
    ensures HttpCacheSafety.Injective(c)
  {
    OneRegistryIsDistinctIff(c, dir, parse, scheme, host);
    forall x, y | c.uses(x) && c.uses(y) && Clean(Segments(parse(x))) == Clean(Segments(parse(y))) ensures x == y {
      var u, v := parse(x), parse(y);
      SharedIff(dir, u, v);
      PlainSharedIff(dir, u, v);
      FoldedPath(u);
      FoldedPath(v);
      assert u == v;
    }
  }

  /** Every URL of the registry that is not plain shares its file with a plain one. */
  lemma UnplainCollides(dir: Path, u: Url) returns (v: Url)
    requires Proper(dir) && NamedHost(u) && OfRegistry(u, u.scheme, u.host) && !Plain(u)
    ensures OfRegistry(v, u.scheme, u.host) && Plain(v) && v != u && PathOf(dir, v) == PathOf(dir, u)
  {
    PlainMeans(u);
    var p := Split(Folded(u), '/');
    var n := |p| - 1;
    var kept := Clean(p[..n]);
    var names := kept + [p[n]];
    v := u.(path := "/" + Slashed(names));
    SlashedSplit(Folded(u));
    CleanIsProper(p[..n]);
    CleanedSegments(p, ".meta");
    assert SlashFree(names);
    SplitSlashed(names);
    assert v.path[..1] == "/" && v.path[1..] == Slashed(names) && Folded(v) == Slashed(names);
    assert names[..|names| - 1] == kept;
    PlainMeans(v);
    ProperIsInside(Segments(v));
    CleanProper(Segments(v));
    SharedIff(dir, u, v);
  }

  /** Cleaning never touches the last segment, whose suffix makes it a name. */
  lemma CleanedSegments(p: Path, x: string)
    requires p != [] && SlashFree(p) && x == ".meta"
    ensures Clean(Suffixed(p, x)) == Clean(p[..|p| - 1]) + [p[|p| - 1] + x]
  {
    MetaIsName(p[|p| - 1]);
    CleanSnoc(p[..|p| - 1], p[|p| - 1] + x);
  }
}
