// Where the cache's guarantees end: exactly when bodies are served for the wrong URL, and which
// failures let a read go back in time.

module HttpCacheLimits {
  import opened Digests
  import opened HttpCache
  import opened HttpCacheSafety
  import opened HttpCacheOrder

  /** Every body returned for a URL is one the origin published for that URL. */
  ghost predicate Authentic(w: World)
  {
    forall i | 0 <= i < |w.log| :: Published(w, w.log[i].url, w.log[i].body)
  }

  ghost predicate Published(w: World, url: string, body: string)
  {
    exists j :: 0 <= j < |w.origin.History(url)| && w.origin.History(url)[j].v.body == body
  }

  lemma RunOneMore(c: Config, w: World, events: seq<Event>, e: Event)
    ensures Run(c, w, events + [e]) == Apply(c, Run(c, w, events), e)
  {
    assert (events + [e])[..|events|] == events;
  }

  lemma {:induction false} RunConcat(c: Config, w: World, a: seq<Event>, b: seq<Event>)
    ensures Run(c, w, a + b) == Run(c, Run(c, w, a), b)
  {
    if b == [] { assert a + b == a; } else {
      assert (a + b)[..|a + b| - 1] == a + b[..|b| - 1];
      RunConcat(c, w, a, b[..|b| - 1]);
    }
  }

  lemma RunOne(c: Config, w: World, e: Event)
    ensures Run(c, w, [e]) == Apply(c, w, e)
  {
    assert [e][..0] == [];
  }

  lemma RunTwo(c: Config, w: World, e: Event, e': Event)
    ensures Run(c, w, [e, e']) == Apply(c, Apply(c, w, e), e')
  {
    assert [e, e'] == [e] + [e'];
    RunOne(c, w, e);
    RunOneMore(c, w, [e], e');
  }

  function Download(pid: nat, url: string, outcome: Write): seq<Event>
  {
    [Start(pid, url, true), Ask(pid, Up), WriteObject(pid, true), WriteMeta(pid, outcome)]
  }

  function Offline(pid: nat, url: string): seq<Event>
  {
    [Start(pid, url, true), Ask(pid, Down), ReadFallback(pid, true)]
  }

  /** A download starting from an idle world: no usable metadata, or metadata that is stale and has no tag. */
  ghost predicate MustDownload(c: Config, w: World, pid: nat, url: string)
  {
    && c.uses(url) && pid !in w.fetches && url !in w.origin.gone && w.origin.History(url) != []
    && var p := c.metaPath(url);
    (p in w.disk.metas && w.disk.metas[p].Readable? ==> IsStale(w.disk.metas[p].meta, w.now) && w.disk.metas[p].meta.etag == "")
  }

  function Newest(w: World, url: string): Version
    requires w.origin.History(url) != []
  {
    w.origin.History(url)[|w.origin.History(url)| - 1].v
  }

  lemma StartsPlainly(c: Config, w: World, pid: nat, url: string) returns (f: Fetch)
    requires MustDownload(c, w, pid, url)
    ensures Apply(c, w, Start(pid, url, true)) == Go(w, pid, f)
    ensures f.Asking? && f.url == url && f.started == w.now && (f.hint.Some? ==> f.hint.value.meta.etag == "")
  {
    f := Begin(c, w, pid, url, true).fetches[pid];
  }

  lemma DownloadAsks(c: Config, w: World, pid: nat, url: string)
    requires MustDownload(c, w, pid, url)
    ensures var w' := Run(c, w, [Start(pid, url, true), Ask(pid, Up)]);
      && w' == Go(w.(served := w.served + [Served(url, |w.origin.History(url)| - 1, w.now)]), pid, Storing(url, w.now, |w.served|))
      && Carried(w', |w.served|) == Newest(w, url)
  {
    RunTwo(c, w, Start(pid, url, true), Ask(pid, Up));
    var f := StartsPlainly(c, w, pid, url);
    var w1 := Go(w, pid, f);
    AsksPlainly(w1, pid);
    assert w1.fetches[pid := Storing(url, w.now, |w.served|)] == w.fetches[pid := Storing(url, w.now, |w.served|)];
  }

  lemma AsksPlainly(w: World, pid: nat)
    requires pid in w.fetches && w.fetches[pid].Asking?
    requires var f := w.fetches[pid];
      && w.origin.History(f.url) != [] && f.url !in w.origin.gone
      && (f.hint.Some? ==> f.hint.value.meta.etag == "")
    ensures var f := w.fetches[pid];
      var w' := Receive(w, pid, Up);
      && w' == Go(w.(served := w.served + [Served(f.url, |w.origin.History(f.url)| - 1, w.now)]),
                  pid, Storing(f.url, f.started, |w.served|))
      && Carried(w', |w.served|) == Newest(w, f.url)
  {
  }

  /** What w' is after the fetch pid of w stored and recorded the version v that answer `from` carried. */
  ghost predicate Finished(c: Config, w: World, w': World, pid: nat, f: Fetch, v: Version, outcome: Write)
    requires f.Storing?
  {
    && w'.origin == w.origin && w'.now == w.now && w'.served == w.served && w'.fetches == w.fetches - {pid}
    && w'.log == w.log + [Read(f.url, v.body, Downloaded, f.from, f.started, w.now)]
    && w'.disk.objects.Keys == w.disk.objects.Keys + {Digest(v.body)}
    && (outcome == Untouched ==> w'.disk.metas == w.disk.metas && w'.source == w.source)
    && (outcome == Written ==>
          w'.disk.metas == w.disk.metas[c.metaPath(f.url) := Readable(Meta(Digest(v.body), v.etag, f.started, v.maxAge, v.immutable, f.url))]
          && w'.source == w.source[c.metaPath(f.url) := f.from])
  }

  lemma FinishRuns(c: Config, w: World, pid: nat, outcome: Write)
    requires pid in w.fetches && w.fetches[pid].Storing?
    ensures var f := w.fetches[pid];
      Finished(c, w, Run(c, w, [WriteObject(pid, true), WriteMeta(pid, outcome)]), pid, f, Carried(w, f.from), outcome)
  {
    RunTwo(c, w, WriteObject(pid, true), WriteMeta(pid, outcome));
    var f := w.fetches[pid];
    var w1 := Apply(c, w, WriteObject(pid, true));
    assert w1 == Go(Store(w, Carried(w, f.from).body), pid, Recording(f.url, f.started, f.from));
    assert Carried(w1, f.from) == Carried(w, f.from);
    assert Apply(c, w1, WriteMeta(pid, outcome)).fetches == w.fetches - {pid};
  }

  /** A download leaves one more read, of the newest version, and the outcome's metadata. */
  lemma DownloadRuns(c: Config, w: World, pid: nat, url: string, outcome: Write)
    requires MustDownload(c, w, pid, url)
    ensures var w1 := w.(served := w.served + [Served(url, |w.origin.History(url)| - 1, w.now)]);
      Finished(c, w1, Run(c, w, Download(pid, url, outcome)), pid, Storing(url, w.now, |w.served|), Newest(w, url), outcome)
  {
    var a, b := [Start(pid, url, true), Ask(pid, Up)], [WriteObject(pid, true), WriteMeta(pid, outcome)];
    assert Download(pid, url, outcome) == a + b;
    RunConcat(c, w, a, b);
    DownloadAsks(c, w, pid, url);
    FinishRuns(c, Run(c, w, a), pid, outcome);
    assert w.fetches[pid := Storing(url, w.now, |w.served|)] - {pid} == w.fetches - {pid};
  }

  /** One URL is fetched and cached as immutable, then the other, sharing its path, is asked for. */
  function CollisionRun(u: string, v: string): seq<Event>
  {
    [Publish(u, Version("x", "", 0, true))] + Download(0, u, Written) + [Start(1, v, true), ReadHit(1, true)]
  }

  lemma CollisionIsRead(c: Config, u: string, v: string)
    requires c.uses(u) && c.uses(v) && u != v && c.metaPath(u) == c.metaPath(v)
    ensures !Authentic(Run(c, EMPTY, CollisionRun(u, v)))
  {
    var publish := Publish(u, Version("x", "", 0, true));
    var w1 := Apply(c, EMPTY, publish);
    var w2 := Run(c, w1, Download(0, u, Written));
    DownloadRuns(c, w1, 0, u, Written);
    var w3 := Apply(c, w2, Start(1, v, true));
    assert w3.fetches[1].Hitting? && w3.fetches[1].url == v;
    var w4 := Apply(c, w3, ReadHit(1, true));
    assert |w4.log| == 2 && w4.log[1].url == v && w4.origin.History(v) == [];
    assert !Published(w4, w4.log[1].url, w4.log[1].body);
    RunOne(c, EMPTY, publish);
    RunConcat(c, EMPTY, [publish], Download(0, u, Written));
    RunConcat(c, EMPTY, [publish] + Download(0, u, Written), [Start(1, v, true), ReadHit(1, true)]);
    RunTwo(c, w2, Start(1, v, true), ReadHit(1, true));
  }

  /** Bodies always belong to the URL asked for exactly when no two URLs share a metadata path. */
  lemma AuthenticIffPathsDistinct(c: Config)
    ensures (forall events :: Authentic(Run(c, EMPTY, events))) <==> Injective(c)
  {
    if Injective(c) {
      forall events ensures Authentic(Run(c, EMPTY, events)) {
        RunKeeps(c, events);
        var w := Run(c, EMPTY, events);
        forall i | 0 <= i < |w.log| ensures Published(w, w.log[i].url, w.log[i].body) {
          assert ReadOk(w, w.log[i]);
        }
      }
    } else {
      var u, v :| c.uses(u) && c.uses(v) && c.metaPath(u) == c.metaPath(v) && u != v;
      CollisionIsRead(c, u, v);
    }
  }

  /** At time t, ver was the newest version of url. */
  ghost predicate CurrentAt(w: World, url: string, ver: nat, t: int)
  {
    var h := w.origin.History(url);
    ver < |h| && h[ver].since <= t && (ver + 1 < |h| ==> t <= h[ver + 1].since)
  }

  /** Some version with this body was the newest one at some time in [lo, hi]. */
  ghost predicate WasCurrent(w: World, url: string, body: string, lo: int, hi: int)
  {
    exists ver: nat, t :: lo <= t <= hi && CurrentAt(w, url, ver, t) && w.origin.History(url)[ver].v.body == body
  }

  ghost predicate WasCurrentBefore(w: World, url: string, body: string, hi: int)
  {
    exists ver: nat, t :: t <= hi && CurrentAt(w, url, ver, t) && w.origin.History(url)[ver].v.body == body
  }

  /** Some version with this body, announced as cacheable for that long, was the newest at that age or less. */
  ghost predicate WasCurrentWithinMaxAge(w: World, url: string, body: string, at: int)
  {
    exists ver: nat, t :: t <= at && CurrentAt(w, url, ver, t) && w.origin.History(url)[ver].v.body == body
      && (w.origin.History(url)[ver].v.immutable || at - t <= w.origin.History(url)[ver].v.maxAge * SECOND)
  }

  /** The promise of each kind of read, in any run: current during the fetch, or at most max-age old. */
  lemma ReadsAreFresh(c: Config, events: seq<Event>, i: nat)
    requires Injective(c) && i < |Run(c, EMPTY, events).log|
    ensures var w := Run(c, EMPTY, events);
      var r := w.log[i];
      && (r.how.Validated? || r.how.Downloaded? ==> WasCurrent(w, r.url, r.body, r.started, r.finished))
      && (r.how.FreshHit? ==> WasCurrentWithinMaxAge(w, r.url, r.body, r.started))
      && (r.how.Fallback? ==> WasCurrentBefore(w, r.url, r.body, r.started))
  {
    RunKeeps(c, events);
    var w := Run(c, EMPTY, events);
    var r := w.log[i];
    assert ReadOk(w, r);
    var s := w.served[r.from];
    assert CurrentAt(w, r.url, s.ver, s.at);
  }

  // ---------------------------------------------------------------- going back

  const V0 := Version("old", "", 0, false)
  const V1 := Version("new", "", 0, false)

  /** Two versions, each downloaded; the second metadata write fails without touching the file. */
  function TwoDownloads(url: string): seq<Event>
  {
    [Publish(url, V0)] + Download(0, url, Written) + ([Publish(url, V1)] + Download(0, url, Untouched))
  }

  /** The new version is downloaded, but its metadata write fails without touching the file. */
  function LostWriteRun(url: string): seq<Event>
  {
    [Publish(url, V0)] + Download(0, url, Written) + [Publish(url, V1)] + Download(0, url, Untouched) + Offline(0, url)
  }

  /** A slow fetch of the old version finishes its writes after a quick fetch of the new one. */
  function OvertakenRun(url: string): seq<Event>
  {
    [Publish(url, V0), Start(0, url, true), Ask(0, Up), Publish(url, V1)] + Download(1, url, Written)
    + [WriteObject(0, true), WriteMeta(0, Written)] + Offline(2, url)
  }

  lemma OfflineRuns(c: Config, w: World, pid: nat, url: string)
    requires c.uses(url) && pid !in w.fetches
    requires var p := c.metaPath(url);
      && p in w.disk.metas && p in w.source && w.disk.metas[p].Readable? && IsStale(w.disk.metas[p].meta, w.now)
      && w.disk.metas[p].meta.sha in w.disk.objects
    ensures var w' := Run(c, w, Offline(pid, url));
      && w'.served == w.served
      && |w'.log| == |w.log| + 1 && w'.log[..|w.log|] == w.log
      && w'.log[|w.log|].url == url && w'.log[|w.log|].from == w.source[c.metaPath(url)]
  {
    assert Offline(pid, url) == [Start(pid, url, true), Ask(pid, Down)] + [ReadFallback(pid, true)];
    RunTwo(c, w, Start(pid, url, true), Ask(pid, Down));
    RunOneMore(c, w, [Start(pid, url, true), Ask(pid, Down)], ReadFallback(pid, true));
    assert Run(c, w, [Start(pid, url, true), Ask(pid, Down)]).fetches[pid].Falling?;
  }

  /** One silently lost metadata write is enough for a later read to return the older version. */
  lemma LostWriteGoesBack(c: Config, url: string)
    requires c.uses(url)
    ensures !ReadsInOrder(Run(c, EMPTY, LostWriteRun(url)))
  {
    var w4 := LostWriteState(May(false, true), c, url);
    OfflineRuns(c, w4, 0, url);
    var w5 := Run(c, w4, Offline(0, url));
    assert w5.log[..2] == w4.log && w5.log[1] == w4.log[1];
    assert Ver(w5, w5.log[1].from) == 1 && Ver(w5, w5.log[2].from) == 0;
    RunConcat(c, EMPTY, TwoDownloads(url), Offline(0, url));
    assert LostWriteRun(url) == TwoDownloads(url) + Offline(0, url);
  }

  lemma OvertakenStart(c: Config, url: string) returns (w: World)
    requires c.uses(url)
    ensures w == Run(c, EMPTY, [Publish(url, V0), Start(0, url, true), Ask(0, Up), Publish(url, V1)])
    ensures w.fetches == map[0 := Storing(url, 0, 0)] && w.origin.History(url) == [Entry(V0, 0), Entry(V1, 0)]
    ensures w.log == [] && w.served == [Served(url, 0, 0)] && w.disk == EMPTY.disk && w.origin.gone == {} && w.now == 0
  {
    var w1 := Apply(c, EMPTY, Publish(url, V0));
    var w3 := Run(c, w1, [Start(0, url, true), Ask(0, Up)]);
    DownloadAsks(c, w1, 0, url);
    w := Apply(c, w3, Publish(url, V1));
    var mid := [Start(0, url, true), Ask(0, Up)];
    assert [Publish(url, V0), Start(0, url, true), Ask(0, Up), Publish(url, V1)] == [Publish(url, V0)] + mid + [Publish(url, V1)];
    RunOne(c, EMPTY, Publish(url, V0));
    RunConcat(c, EMPTY, [Publish(url, V0)], mid);
    RunOneMore(c, EMPTY, [Publish(url, V0)] + mid, Publish(url, V1));
    assert w.fetches == map[0 := Storing(url, 0, 0)];
  }

  lemma OvertakenWrites(c: Config, url: string, w: World) returns (w': World)
    requires c.uses(url)
    requires w.fetches == map[0 := Storing(url, 0, 0)] && w.origin.History(url) == [Entry(V0, 0), Entry(V1, 0)]
    requires w.log == [] && w.served == [Served(url, 0, 0)] && w.disk == EMPTY.disk && w.origin.gone == {} && w.now == 0
    ensures w' == Run(c, w, Download(1, url, Written) + [WriteObject(0, true), WriteMeta(0, Written)])
    ensures w'.fetches == map[] && w'.served == w.served + [Served(url, 1, 0)] && w'.now == 0
    ensures |w'.log| == 2 && w'.log[0].url == url && w'.log[0].from == 1
    ensures var p := c.metaPath(url);
      && p in w'.source && w'.source[p] == 0 && p in w'.disk.metas
      && w'.disk.metas[p] == Readable(Meta(Digest("old"), "", 0, 0, false, url)) && Digest("old") in w'.disk.objects
  {
    DownloadRuns(c, w, 1, url, Written);
    var w1 := Run(c, w, Download(1, url, Written));
    assert w1.fetches == map[0 := Storing(url, 0, 0)] && Carried(w1, 0) == V0;
    FinishRuns(c, w1, 0, Written);
    RunConcat(c, w, Download(1, url, Written), [WriteObject(0, true), WriteMeta(0, Written)]);
    w' := Run(c, w1, [WriteObject(0, true), WriteMeta(0, Written)]);
    assert w'.fetches == map[];
  }

  /** So is one fetch overtaken by another, even when every write succeeds. */
  lemma OvertakenGoesBack(c: Config, url: string)
    requires c.uses(url)
    ensures !ReadsInOrder(Run(c, EMPTY, OvertakenRun(url)))
  {
    var a := [Publish(url, V0), Start(0, url, true), Ask(0, Up), Publish(url, V1)];
    var b := Download(1, url, Written) + [WriteObject(0, true), WriteMeta(0, Written)];
    var w1 := OvertakenStart(c, url);
    var w2 := OvertakenWrites(c, url, w1);
    OfflineRuns(c, w2, 2, url);
    var w3 := Run(c, w2, Offline(2, url));
    RunConcat(c, EMPTY, a, b);
    RunConcat(c, EMPTY, a + b, Offline(2, url));
    assert OvertakenRun(url) == a + b + Offline(2, url);
    assert w3.log[..2] == w2.log;
    assert w3.log[0] == w2.log[0] && Ver(w3, w3.log[0].from) == 1 && Ver(w3, w3.log[2].from) == 0;
  }

  // ---------------------------------------------------------------- what a run may do

  /** Permitted in whatever world it happens. */
  predicate AlwaysPermitted(may: May, e: Event)
  {
    && (e.Start? ==> may.overlap) && (e.WriteRefresh? ==> may.lose || e.w != Untouched)
    && (e.WriteMeta? ==> may.lose || e.w != Untouched)
  }

  lemma PermittedAnywhere(may: May, w: World, e: Event)
    requires AlwaysPermitted(may, e)
    ensures Permits(may, w, e)
  {
  }

  lemma PermittedOneMore(may: May, c: Config, w: World, events: seq<Event>, e: Event)
    requires PermittedRun(may, c, w, events) && Permits(may, Run(c, w, events), e)
    ensures PermittedRun(may, c, w, events + [e])
  {
    assert (events + [e])[..|events|] == events;
  }

  lemma {:induction false} PermittedByFirst(may: May, c: Config, w: World, events: seq<Event>, n: nat)
    requires 1 <= n <= |events| && Permits(may, w, events[0])
    requires forall k | 1 <= k < |events| :: AlwaysPermitted(may, events[k])
    ensures PermittedRun(may, c, w, events[..n])
  {
    assert events[..n] == events[..n - 1] + [events[n - 1]];
    if n > 1 {
      PermittedByFirst(may, c, w, events, n - 1);
      PermittedAnywhere(may, Run(c, w, events[..n - 1]), events[n - 1]);
    } else {
      assert events[..0] == [] && Run(c, w, []) == w;
    }
    PermittedOneMore(may, c, w, events[..n - 1], events[n - 1]);
  }

  lemma {:induction false} PermittedConcat(may: May, c: Config, w: World, a: seq<Event>, b: seq<Event>)
    requires PermittedRun(may, c, w, a) && PermittedRun(may, c, Run(c, w, a), b)
    ensures PermittedRun(may, c, w, a + b)
  {
    if b == [] { assert a + b == a; } else {
      var rest := b[..|b| - 1];
      assert (a + b)[..|a + b| - 1] == a + rest;
      PermittedConcat(may, c, w, a, rest);
      RunConcat(c, w, a, rest);
    }
  }

  lemma OvertakenPermitted(may: May, c: Config, url: string)
    requires may.overlap
    ensures PermittedRun(may, c, EMPTY, OvertakenRun(url))
  {
    var events := OvertakenRun(url);
    PermittedAnywhere(may, EMPTY, events[0]);
    PermittedByFirst(may, c, EMPTY, events, |events|);
    assert events[..|events|] == events;
  }

  /** A block of events that starts a fetch of url where none is running. */
  lemma BlockPermitted(may: May, c: Config, w: World, url: string, events: seq<Event>)
    requires events != [] && events[0].Start? && events[0].url == url && w.fetches == map[]
    requires forall k | 1 <= k < |events| :: AlwaysPermitted(may, events[k])
    ensures PermittedRun(may, c, w, events)
  {
    PermittedByFirst(may, c, w, events, |events|);
    assert events[..|events|] == events;
  }

  lemma PublishPermitted(may: May, c: Config, w: World, url: string, v: Version)
    ensures PermittedRun(may, c, w, [Publish(url, v)])
  {
    assert [Publish(url, v)][..0] == [];
  }

  /** Publishing and then downloading, one fetch at a time. */
  lemma PublishDownload(may: May, c: Config, w: World, url: string, v: Version, outcome: Write) returns (w': World)
    requires c.uses(url) && w.fetches == map[] && (outcome == Untouched ==> may.lose)
    requires w.origin.Truthful(url, v) && MustDownload(c, Apply(c, w, Publish(url, v)), 0, url)
    ensures w' == Run(c, w, [Publish(url, v)] + Download(0, url, outcome)) && w'.fetches == map[]
    ensures PermittedRun(may, c, w, [Publish(url, v)] + Download(0, url, outcome))
    ensures var w1 := Apply(c, w, Publish(url, v));
      Finished(c, w1.(served := w1.served + [Served(url, |w1.origin.History(url)| - 1, w1.now)]), w', 0,
               Storing(url, w1.now, |w1.served|), Newest(w1, url), outcome)
  {
    var w1 := Apply(c, w, Publish(url, v));
    DownloadRuns(c, w1, 0, url, outcome);
    RunOne(c, w, Publish(url, v));
    RunConcat(c, w, [Publish(url, v)], Download(0, url, outcome));
    PublishPermitted(may, c, w, url, v);
    BlockPermitted(may, c, w1, url, Download(0, url, outcome));
    PermittedConcat(may, c, w, [Publish(url, v)], Download(0, url, outcome));
    w' := Run(c, w1, Download(0, url, outcome));
    assert w'.fetches == map[];
  }

  lemma LostWriteFirst(may: May, c: Config, url: string) returns (w: World)
    requires c.uses(url)
    ensures w == Run(c, EMPTY, [Publish(url, V0)] + Download(0, url, Written)) && w.fetches == map[]
    ensures PermittedRun(may, c, EMPTY, [Publish(url, V0)] + Download(0, url, Written))
    ensures w.origin.Truthful(url, V1) && MustDownload(c, Apply(c, w, Publish(url, V1)), 0, url)
    ensures |w.log| == 1 && w.log[0].url == url && |w.served| == 1 && w.served[0].ver == 0 && w.now == 0
    ensures w.origin.History(url) == [Entry(V0, 0)]
    ensures var p := c.metaPath(url);
      && p in w.disk.metas && p in w.source && w.source[p] == 0
      && w.disk.metas[p] == Readable(Meta(Digest("old"), "", 0, 0, false, url)) && Digest("old") in w.disk.objects
  {
    w := PublishDownload(may, c, EMPTY, url, V0, Written);
  }

  /** Where they leave the cache: at the metadata of the first version, with the second one read last. */
  lemma LostWriteState(may: May, c: Config, url: string) returns (w: World)
    requires may.lose && c.uses(url)
    ensures w == Run(c, EMPTY, TwoDownloads(url)) && PermittedRun(may, c, EMPTY, TwoDownloads(url)) && w.fetches == map[]
    ensures |w.log| == 2 && w.log[1].url == url && |w.served| == 2 && w.served[0].ver == 0 && Ver(w, w.log[1].from) == 1
    ensures var p := c.metaPath(url);
      && p in w.disk.metas && p in w.source && w.source[p] == 0
      && w.disk.metas[p].Readable? && IsStale(w.disk.metas[p].meta, w.now) && w.disk.metas[p].meta.sha in w.disk.objects
  {
    var a, b := [Publish(url, V0)] + Download(0, url, Written), [Publish(url, V1)] + Download(0, url, Untouched);
    var w2 := LostWriteFirst(may, c, url);
    w := PublishDownload(may, c, w2, url, V1, Untouched);
    RunConcat(c, EMPTY, a, b);
    PermittedConcat(may, c, EMPTY, a, b);
  }

  lemma LostWritePermitted(may: May, c: Config, url: string)
    requires may.lose && c.uses(url)
    ensures PermittedRun(may, c, EMPTY, LostWriteRun(url))
  {
    var w := LostWriteState(may, c, url);
    BlockPermitted(may, c, w, url, Offline(0, url));
    PermittedConcat(may, c, EMPTY, TwoDownloads(url), Offline(0, url));
    assert LostWriteRun(url) == TwoDownloads(url) + Offline(0, url);
  }

  /**
   * Reads never go back in any run of a kind exactly when runs of that kind neither overlap two fetches of a URL nor
   * lose a metadata write without a trace.
   */
  lemma InOrderIffOrderly(c: Config, url: string, may: May)
    requires Injective(c) && c.uses(url)
    ensures (forall events | PermittedRun(may, c, EMPTY, events) :: ReadsInOrder(Run(c, EMPTY, events))) <==> may == ORDERLY
  {
    if may.overlap {
      OvertakenPermitted(may, c, url);
      OvertakenGoesBack(c, url);
    } else if may.lose {
      LostWritePermitted(may, c, url);
      LostWriteGoesBack(c, url);
    } else {
      forall events | PermittedRun(may, c, EMPTY, events) ensures ReadsInOrder(Run(c, EMPTY, events)) {
        ReadsNeverGoBack(c, events);
      }
    }
  }
}
