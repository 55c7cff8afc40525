// What every run of the cache keeps, whatever the interleaving, the failures and the crashes: every body that
// is returned, remembered or on its way was given by the origin for that very URL, and when. It holds as long
// as no two URLs in use share a metadata path.

module HttpCacheSafety {
  import opened Digests
  import opened HttpCache
  import opened Wrappers

  /** The answer was given while the version it names was the current one. */
  ghost predicate AnswerOk(w: World, s: Served)
  {
    var h := w.origin.History(s.url);
    && s.ver < |h| && h[s.ver].since <= s.at <= w.now
    && (s.ver + 1 < |h| ==> s.at <= h[s.ver + 1].since)
  }

  ghost predicate From(w: World, url: string, from: nat)
  {
    from < |w.served| && w.served[from].url == url && AnswerOk(w, w.served[from])
  }

  /** The metadata repeats what the origin said in answer `from`, and its object is on disk. */
  ghost predicate MetaOk(w: World, url: string, m: Meta, from: nat)
  {
    && From(w, url, from)
    && var v := Carried(w, from);
    && m.url == url && m.sha == Digest(v.body) && m.sha in w.disk.objects
    && m.etag == v.etag && m.maxAge == v.maxAge && m.immutable == v.immutable
    && m.fetchedAt <= w.served[from].at
  }

  ghost predicate KnownOk(w: World, url: string, started: int, k: Known)
  {
    MetaOk(w, url, k.meta, k.from) && w.served[k.from].at <= started
  }

  ghost predicate FetchOk(c: Config, w: World, f: Fetch)
  {
    && c.uses(f.url) && f.started <= w.now
    && match f
       case Hitting(url, started, k) => KnownOk(w, url, started, k) && !IsStale(k.meta, started)
       case Asking(url, started, hint) => hint.Some? ==> KnownOk(w, url, started, hint.value)
       case Falling(url, started, hint) => hint.Some? ==> KnownOk(w, url, started, hint.value)
       case Refreshing(url, started, k, from) =>
         && KnownOk(w, url, started, k) && From(w, url, from) && started <= w.served[from].at
         && Carried(w, from).etag == k.meta.etag && Carried(w, from).body == Carried(w, k.from).body
       case Reusing(url, started, m, from) => MetaOk(w, url, m, from) && started <= w.served[from].at
       case Storing(url, started, from) => From(w, url, from) && started <= w.served[from].at
       case Recording(url, started, from) =>
         && From(w, url, from) && started <= w.served[from].at && Digest(Carried(w, from).body) in w.disk.objects
  }

  /** What a returned body is worth: it was served for this very URL, at the time its kind promises. */
  ghost predicate ReadOk(w: World, r: Read)
  {
    && From(w, r.url, r.from) && r.body == Carried(w, r.from).body && r.started <= r.finished <= w.now
    && var v, at := Carried(w, r.from), w.served[r.from].at;
    match r.how
    case FreshHit => at <= r.started && (v.immutable || r.started - at <= v.maxAge * SECOND)
    case Validated => r.started <= at <= r.finished
    case Downloaded => r.started <= at <= r.finished
    case Fallback => at <= r.started
  }

  ghost predicate OriginOk(w: World)
  {
    && (forall u, i | 0 <= i < |w.origin.History(u)| :: w.origin.History(u)[i].since <= w.now)
    && TagsOk(w.origin)
  }

  ghost predicate TagsOk(origin: Origin)
  {
    forall u, i, j | 0 <= i < |origin.History(u)| && 0 <= j < |origin.History(u)| ::
      var a, b := origin.History(u)[i].v, origin.History(u)[j].v; a.etag == b.etag && a.etag != "" ==> a.body == b.body
  }

  /** Every readable metadata file belongs to the URL its path stands for. */
  ghost predicate FileOk(c: Config, w: World, p: string)
    requires p in w.disk.metas
  {
    w.disk.metas[p].Readable? ==>
      && p in w.source && w.source[p] < |w.served|
      && var url := w.served[w.source[p]].url;
      c.uses(url) && c.metaPath(url) == p && MetaOk(w, url, w.disk.metas[p].meta, w.source[p])
  }

  ghost predicate Inv(c: Config, w: World)
  {
    && OriginOk(w)
    && (forall d | d in w.disk.objects :: w.disk.objects[d] == d.of)
    && (forall i | 0 <= i < |w.served| :: AnswerOk(w, w.served[i]))
    && (forall p | p in w.disk.metas :: FileOk(c, w, p))
    && (forall pid | pid in w.fetches :: FetchOk(c, w, w.fetches[pid]))
    && (forall i | 0 <= i < |w.log| :: ReadOk(w, w.log[i]))
  }

  /** No two URLs of the run share a metadata path. */
  ghost predicate Injective(c: Config)
  {
    forall u, v | c.uses(u) && c.uses(v) && c.metaPath(u) == c.metaPath(v) :: u == v
  }

  // ---------------------------------------------------------------- what only grows

  ghost predicate Grows(w: World, w': World)
  {
    && w.now <= w'.now && w.served <= w'.served
    && (forall u :: w.origin.History(u) <= w'.origin.History(u))
    && (forall u, i | |w.origin.History(u)| <= i < |w'.origin.History(u)| :: w.now <= w'.origin.History(u)[i].since)
    && w.disk.objects.Keys <= w'.disk.objects.Keys
  }

  lemma ReceiveGrows(w: World, pid: nat, net: Net)
    requires pid in w.fetches && w.fetches[pid].Asking?
    ensures Grows(w, Receive(w, pid, net))
  {
  }

  lemma AdvanceGrows(c: Config, w: World, pid: nat, e: Event)
    requires pid in w.fetches && !e.Ask?
    ensures Grows(w, Advance(c, w, pid, e))
  {
  }

  lemma ApplyGrows(c: Config, w: World, e: Event)
    ensures Grows(w, Apply(c, w, e))
  {
    match e
    case Tick(_) =>
    case Publish(_, _) =>
    case Withdraw(_) =>
    case Start(_, _, _) =>
    case Ask(pid, net) => if pid in w.fetches && w.fetches[pid].Asking? { ReceiveGrows(w, pid, net); }
    case _ => if e.pid in w.fetches { AdvanceGrows(c, w, e.pid, e); }
  }

  lemma GrowKeepsFrom(w: World, w': World, url: string, from: nat)
    requires Grows(w, w') && From(w, url, from)
    ensures From(w', url, from) && w'.served[from] == w.served[from] && Carried(w', from) == Carried(w, from)
  {
    var s := w.served[from];
    assert w.origin.History(s.url) <= w'.origin.History(s.url);
  }

  lemma GrowKeepsMeta(w: World, w': World, url: string, m: Meta, from: nat)
    requires Grows(w, w') && MetaOk(w, url, m, from)
    ensures MetaOk(w', url, m, from) && w'.served[from] == w.served[from] && Carried(w', from) == Carried(w, from)
  {
    GrowKeepsFrom(w, w', url, from);
  }

  lemma GrowKeepsFetch(c: Config, w: World, w': World, f: Fetch)
    requires Grows(w, w') && FetchOk(c, w, f)
    ensures FetchOk(c, w', f)
  {
    match f
    case Hitting(url, _, k) => GrowKeepsMeta(w, w', url, k.meta, k.from);
    case Asking(url, _, hint) => if hint.Some? { GrowKeepsMeta(w, w', url, hint.value.meta, hint.value.from); }
    case Falling(url, _, hint) => if hint.Some? { GrowKeepsMeta(w, w', url, hint.value.meta, hint.value.from); }
    case Refreshing(url, _, k, from) => GrowKeepsMeta(w, w', url, k.meta, k.from); GrowKeepsFrom(w, w', url, from);
    case Reusing(url, _, m, from) => GrowKeepsMeta(w, w', url, m, from);
    case Storing(url, _, from) => GrowKeepsFrom(w, w', url, from);
    case Recording(url, _, from) => GrowKeepsFrom(w, w', url, from);
  }

  /** Whatever the step did not itself write keeps its part of the invariant. */
  lemma GrowKeepsRest(c: Config, w: World, w': World)
    requires Inv(c, w) && Grows(w, w')
    ensures forall i | 0 <= i < |w.served| :: AnswerOk(w', w'.served[i])
    ensures forall p | p in w.disk.metas && p in w'.disk.metas && w'.disk.metas[p] == w.disk.metas[p]
              && (p in w.source ==> p in w'.source && w'.source[p] == w.source[p]) :: FileOk(c, w', p)
    ensures forall pid | pid in w.fetches :: FetchOk(c, w', w.fetches[pid])
    ensures forall i | 0 <= i < |w.log| :: ReadOk(w', w.log[i])
  {
    forall i | 0 <= i < |w.served| ensures AnswerOk(w', w'.served[i]) {
      assert From(w, w.served[i].url, i);
      GrowKeepsFrom(w, w', w.served[i].url, i);
    }
    forall p | p in w.disk.metas && p in w'.disk.metas && w'.disk.metas[p] == w.disk.metas[p]
              && (p in w.source ==> p in w'.source && w'.source[p] == w.source[p])
      ensures FileOk(c, w', p)
    {
      assert FileOk(c, w, p);
      if w.disk.metas[p].Readable? {
        GrowKeepsMeta(w, w', w.served[w.source[p]].url, w.disk.metas[p].meta, w.source[p]);
      }
    }
    forall pid | pid in w.fetches ensures FetchOk(c, w', w.fetches[pid]) { GrowKeepsFetch(c, w, w', w.fetches[pid]); }
    forall i | 0 <= i < |w.log| ensures ReadOk(w', w.log[i]) { GrowKeepsFrom(w, w', w.log[i].url, w.log[i].from); }
  }

  // ---------------------------------------------------------------- one step

  /** A step that only moves fetch pid to f (or starts it) keeps the invariant when f is sound. */
  lemma GoKeeps(c: Config, w: World, w': World, pid: nat, f: Fetch)
    requires Inv(c, w) && Grows(w, w') && w' == Go(w.(served := w'.served), pid, f)
    requires forall i | |w.served| <= i < |w'.served| :: AnswerOk(w', w'.served[i])
    requires FetchOk(c, w', f)
    ensures Inv(c, w')
  {
    GrowKeepsRest(c, w, w');
    forall p | p in w'.disk.metas ensures FileOk(c, w', p) { assert w'.disk.metas[p] == w.disk.metas[p]; }
  }

  lemma EndKeeps(c: Config, w: World, pid: nat)
    requires Inv(c, w)
    ensures Inv(c, End(w, pid))
  {
    var w' := End(w, pid);
    GrowKeepsRest(c, w, w');
    forall p | p in w'.disk.metas ensures FileOk(c, w', p) { assert w'.disk.metas[p] == w.disk.metas[p]; }
  }

  lemma ReturnKeeps(c: Config, w: World, pid: nat, body: string, how: How, from: nat)
    requires Inv(c, w) && pid in w.fetches
    requires var f := w.fetches[pid]; ReadOk(w, Read(f.url, body, how, from, f.started, w.now))
    ensures Inv(c, Return(w, pid, body, how, from))
  {
    var w' := Return(w, pid, body, how, from);
    GrowKeepsRest(c, w, w');
    forall p | p in w'.disk.metas ensures FileOk(c, w', p) { assert w'.disk.metas[p] == w.disk.metas[p]; }
    GrowKeepsFrom(w, w', w.fetches[pid].url, from);
  }

  lemma PutMetaKeeps(c: Config, w: World, url: string, m: Meta, from: nat, outcome: Write)
    requires Inv(c, w) && c.uses(url) && MetaOk(w, url, m, from)
    ensures Inv(c, PutMeta(c, w, url, m, from, outcome))
  {
    var w' := PutMeta(c, w, url, m, from, outcome);
    GrowKeepsRest(c, w, w');
    GrowKeepsMeta(w, w', url, m, from);
    forall p | p in w'.disk.metas ensures FileOk(c, w', p) {
      if p != c.metaPath(url) { assert w'.disk.metas[p] == w.disk.metas[p]; }
    }
  }

  lemma BeginKeeps(c: Config, w: World, pid: nat, url: string, ok: bool)
    requires Injective(c) && Inv(c, w) && c.uses(url)
    ensures Inv(c, Begin(c, w, pid, url, ok))
  {
    var w' := Begin(c, w, pid, url, ok);
    var p := c.metaPath(url);
    if p in w.disk.metas { assert FileOk(c, w, p); }
    GoKeeps(c, w, w', pid, w'.fetches[pid]);
  }

  /** The answer just logged is sound, and so is where the fetch goes with it. */
  lemma AnswerMoves(w: World, pid: nat, w': World)
    requires pid in w.fetches && w.fetches[pid].Asking? && w' == Receive(w, pid, Up) && pid in w'.fetches
    ensures Grows(w, w') && w' == Go(w.(served := w'.served), pid, w'.fetches[pid])
    ensures |w'.served| == |w.served| + 1
  {
  }

  lemma AnswerIsOk(c: Config, w: World, pid: nat, w': World)
    requires OriginOk(w) && pid in w.fetches && w.fetches[pid].Asking? && FetchOk(c, w, w.fetches[pid])
    requires w' == Receive(w, pid, Up) && pid in w'.fetches
    ensures Grows(w, w') && w' == Go(w.(served := w'.served), pid, w'.fetches[pid])
    ensures |w'.served| == |w.served| + 1 && AnswerOk(w', w'.served[|w.served|])
    ensures FetchOk(c, w', w'.fetches[pid])
  {
    var f := w.fetches[pid];
    var h := w.origin.History(f.url);
    AnswerMoves(w, pid, w');
    assert h[|h| - 1].since <= w.now;
    if w'.fetches[pid].Refreshing? {
      var k := f.hint.value;
      GrowKeepsMeta(w, w', f.url, k.meta, k.from);
      assert k.meta.etag == h[|h| - 1].v.etag == h[w.served[k.from].ver].v.etag;
    }
  }

  lemma ReceiveKeeps(c: Config, w: World, pid: nat, net: Net)
    requires Inv(c, w) && pid in w.fetches && w.fetches[pid].Asking?
    ensures Inv(c, Receive(w, pid, net))
  {
    var f := w.fetches[pid];
    var w' := Receive(w, pid, net);
    if pid !in w'.fetches {
      EndKeeps(c, w, pid);
    } else if net == Down {
      assert FetchOk(c, w, f);
      GoKeeps(c, w, w', pid, w'.fetches[pid]);
    } else {
      AnswerIsOk(c, w, pid, w');
      GoKeeps(c, w, w', pid, w'.fetches[pid]);
    }
  }

  lemma InterruptKeeps(c: Config, w: World, pid: nat, midWrite: bool)
    requires Inv(c, w) && pid in w.fetches
    ensures Inv(c, Interrupt(c, w, pid, midWrite))
  {
    var w' := Interrupt(c, w, pid, midWrite);
    GrowKeepsRest(c, w, w');
    forall p | p in w'.disk.metas ensures FileOk(c, w', p) {
      if w'.disk.metas[p].Readable? { assert w'.disk.metas[p] == w.disk.metas[p]; }
    }
  }

  lemma ReadHitKeeps(c: Config, w: World, pid: nat, ok: bool)
    requires Inv(c, w) && pid in w.fetches && w.fetches[pid].Hitting?
    ensures Inv(c, Advance(c, w, pid, ReadHit(pid, ok)))
  {
    var f := w.fetches[pid];
    assert FetchOk(c, w, f);
    if ok {
      if !f.known.meta.immutable { FreshMeansYoung(f.known.meta, f.started); }
      ReturnKeeps(c, w, pid, w.disk.objects[f.known.meta.sha], FreshHit, f.known.from);
    } else {
      var f' := Asking(f.url, f.started, Some(f.known));
      GoKeeps(c, w, Go(w, pid, f'), pid, f');
    }
  }

  ghost predicate ObjectsOwn(w: World)
  {
    forall d | d in w.disk.objects :: w.disk.objects[d] == d.of
  }

  lemma FallbackIsOk(c: Config, w: World, f: Fetch)
    requires FetchOk(c, w, f) && f.Falling? && f.hint.Some? && ObjectsOwn(w)
    ensures f.hint.value.meta.sha in w.disk.objects
    ensures ReadOk(w, Read(f.url, w.disk.objects[f.hint.value.meta.sha], Fallback, f.hint.value.from, f.started, w.now))
  {
  }

  lemma ReusedIsOk(c: Config, w: World, f: Fetch)
    requires FetchOk(c, w, f) && f.Reusing? && ObjectsOwn(w)
    ensures f.meta.sha in w.disk.objects && ReadOk(w, Read(f.url, w.disk.objects[f.meta.sha], Validated, f.from, f.started, w.now))
  {
  }

  lemma ReadFallbackKeeps(c: Config, w: World, pid: nat, ok: bool)
    requires Inv(c, w) && pid in w.fetches && w.fetches[pid].Falling?
    ensures Inv(c, Advance(c, w, pid, ReadFallback(pid, ok)))
  {
    var f := w.fetches[pid];
    assert FetchOk(c, w, f);
    if ok && f.hint.Some? {
      FallbackIsOk(c, w, f);
      ReturnKeeps(c, w, pid, w.disk.objects[f.hint.value.meta.sha], Fallback, f.hint.value.from);
    } else { EndKeeps(c, w, pid); }
  }

  lemma ReadAfter304Keeps(c: Config, w: World, pid: nat, ok: bool)
    requires Inv(c, w) && pid in w.fetches && w.fetches[pid].Reusing?
    ensures Inv(c, Advance(c, w, pid, ReadAfter304(pid, ok)))
  {
    var f := w.fetches[pid];
    assert FetchOk(c, w, f);
    if ok {
      ReusedIsOk(c, w, f);
      ReturnKeeps(c, w, pid, w.disk.objects[f.meta.sha], Validated, f.from);
    } else {
      EndKeeps(c, w, pid);
    }
  }

  lemma StoreKeeps(c: Config, w: World, body: string)
    requires Inv(c, w)
    ensures Inv(c, Store(w, body)) && Grows(w, Store(w, body))
  {
    var w' := Store(w, body);
    GrowKeepsRest(c, w, w');
    forall p | p in w'.disk.metas ensures FileOk(c, w', p) { assert w'.disk.metas[p] == w.disk.metas[p]; }
  }

  lemma StoredIsOk(c: Config, w: World, f: Fetch, f': Fetch)
    requires f.Storing? && FetchOk(c, w, f) && f' == Recording(f.url, f.started, f.from)
    requires Grows(w, Store(w, Carried(w, f.from).body))
    ensures FetchOk(c, Store(w, Carried(w, f.from).body), f')
  {
    GrowKeepsFrom(w, Store(w, Carried(w, f.from).body), f.url, f.from);
  }

  lemma StoredKeeps(c: Config, w: World, pid: nat)
    requires Inv(c, w) && pid in w.fetches && w.fetches[pid].Storing?
    ensures Inv(c, Stored(w, pid))
  {
    var f := w.fetches[pid];
    var body := Carried(w, f.from).body;
    assert FetchOk(c, w, f);
    StoreKeeps(c, w, body);
    StoredIsOk(c, w, f, Recording(f.url, f.started, f.from));
    MoveKeeps(c, Store(w, body), pid, Recording(f.url, f.started, f.from));
  }

  lemma MoveKeeps(c: Config, w: World, pid: nat, f: Fetch)
    requires Inv(c, w) && FetchOk(c, w, f)
    ensures Inv(c, Go(w, pid, f))
  {
    var w' := Go(w, pid, f);
    assert Grows(w, w');
    GrowKeepsFetch(c, w, w', f);
    GoKeeps(c, w, w', pid, f);
  }

  lemma RefreshedIsOk(c: Config, w: World, f: Fetch, w1: World, m: Meta, outcome: Write)
    requires f.Refreshing? && FetchOk(c, w, f) && m == Refreshed(f.known.meta, f.started, Carried(w, f.from))
    requires w1 == PutMeta(c, w, f.url, m, f.from, outcome)
    ensures MetaOk(w, f.url, m, f.from)
    ensures FetchOk(c, w1, Reusing(f.url, f.started, m, f.from))
  {
    GrowKeepsMeta(w, w1, f.url, m, f.from);
  }

  lemma WriteRefreshKeeps(c: Config, w: World, pid: nat, outcome: Write)
    requires Inv(c, w) && pid in w.fetches && w.fetches[pid].Refreshing?
    ensures Inv(c, Advance(c, w, pid, WriteRefresh(pid, outcome)))
  {
    var f := w.fetches[pid];
    assert FetchOk(c, w, f);
    var m := Refreshed(f.known.meta, f.started, Carried(w, f.from));
    var w1 := PutMeta(c, w, f.url, m, f.from, outcome);
    RefreshedIsOk(c, w, f, w1, m, outcome);
    PutMetaKeeps(c, w, f.url, m, f.from, outcome);
    MoveKeeps(c, w1, pid, Reusing(f.url, f.started, m, f.from));
  }

  lemma RecordedIsOk(c: Config, w: World, f: Fetch, w1: World, m: Meta, outcome: Write)
    requires f.Recording? && FetchOk(c, w, f)
    requires var v := Carried(w, f.from); m == Meta(Digest(v.body), v.etag, f.started, v.maxAge, v.immutable, f.url)
    requires w1 == PutMeta(c, w, f.url, m, f.from, outcome)
    ensures MetaOk(w, f.url, m, f.from)
    ensures ReadOk(w1, Read(f.url, Carried(w, f.from).body, Downloaded, f.from, f.started, w1.now))
  {
    GrowKeepsFrom(w, w1, f.url, f.from);
  }

  lemma WriteMetaKeeps(c: Config, w: World, pid: nat, outcome: Write)
    requires Inv(c, w) && pid in w.fetches && w.fetches[pid].Recording?
    ensures Inv(c, Advance(c, w, pid, WriteMeta(pid, outcome)))
  {
    var f := w.fetches[pid];
    assert FetchOk(c, w, f);
    var v := Carried(w, f.from);
    var m := Meta(Digest(v.body), v.etag, f.started, v.maxAge, v.immutable, f.url);
    var w1 := PutMeta(c, w, f.url, m, f.from, outcome);
    RecordedIsOk(c, w, f, w1, m, outcome);
    PutMetaKeeps(c, w, f.url, m, f.from, outcome);
    ReturnKeeps(c, w1, pid, v.body, Downloaded, f.from);
  }

  /** A step that leaves disk, fetches and logs alone keeps the invariant when the origin stays in order. */
  lemma OutsideKeeps(c: Config, w: World, w': World)
    requires Inv(c, w) && Grows(w, w') && OriginOk(w')
    requires w'.disk == w.disk && w'.source == w.source && w'.fetches == w.fetches && w'.served == w.served && w'.log == w.log
    ensures Inv(c, w')
  {
    GrowKeepsRest(c, w, w');
  }

  /** origin' is origin with one more version of url. */
  ghost predicate OneMoreVersion(origin: Origin, origin': Origin, url: string, e: Entry)
  {
    forall u :: origin'.History(u) == if u == url then origin.History(url) + [e] else origin.History(u)
  }

  lemma PublishedTags(origin: Origin, origin': Origin, url: string, e: Entry)
    requires OneMoreVersion(origin, origin', url, e) && origin.Truthful(url, e.v) && TagsOk(origin)
    ensures TagsOk(origin')
  {
    var h := origin.History(url);
    assert forall x | 0 <= x < |h| :: h[x] in h;
  }

  lemma PublishKeepsOrigin(w: World, url: string, v: Version, origin: Origin)
    requires OriginOk(w) && w.origin.Truthful(url, v)
    requires origin == Origin(w.origin.history[url := w.origin.History(url) + [Entry(v, w.now)]], w.origin.gone - {url})
    ensures OriginOk(w.(origin := origin)) && Grows(w, w.(origin := origin))
  {
    var e := Entry(v, w.now);
    assert OneMoreVersion(w.origin, origin, url, e);
    PublishedTags(w.origin, origin, url, e);
  }

  lemma TickKeepsOrigin(w: World, d: nat)
    requires OriginOk(w)
    ensures OriginOk(w.(now := w.now + d)) && Grows(w, w.(now := w.now + d))
  {
  }

  lemma WithdrawKeepsOrigin(w: World, url: string)
    requires OriginOk(w)
    ensures var w' := w.(origin := w.origin.(gone := w.origin.gone + {url})); OriginOk(w') && Grows(w, w')
  {
    var w' := w.(origin := w.origin.(gone := w.origin.gone + {url}));
    assert forall u :: w'.origin.History(u) == w.origin.History(u);
  }

  lemma PublishKeeps(c: Config, w: World, url: string, v: Version)
    requires Inv(c, w)
    ensures Inv(c, Apply(c, w, Publish(url, v)))
  {
    if c.uses(url) && w.origin.Truthful(url, v) {
      var origin := Origin(w.origin.history[url := w.origin.History(url) + [Entry(v, w.now)]], w.origin.gone - {url});
      PublishKeepsOrigin(w, url, v, origin);
      OutsideKeeps(c, w, w.(origin := origin));
    }
  }

  lemma OriginKeeps(c: Config, w: World, e: Event)
    requires Inv(c, w) && (e.Tick? || e.Withdraw?)
    ensures Inv(c, Apply(c, w, e))
  {
    if e.Tick? { TickKeepsOrigin(w, e.d); } else { WithdrawKeepsOrigin(w, e.url); }
    OutsideKeeps(c, w, Apply(c, w, e));
  }

  lemma StepKeeps(c: Config, w: World, e: Event)
    requires Injective(c) && Inv(c, w)
    ensures Inv(c, Apply(c, w, e))
  {
    match e
    case Tick(_) => OriginKeeps(c, w, e);
    case Publish(url, v) => PublishKeeps(c, w, url, v);
    case Withdraw(_) => OriginKeeps(c, w, e);
    case Start(pid, url, ok) => if c.uses(url) && pid !in w.fetches { BeginKeeps(c, w, pid, url, ok); }
    case Ask(pid, net) => if pid in w.fetches && w.fetches[pid].Asking? { ReceiveKeeps(c, w, pid, net); }
    case Crash(pid, midWrite) => if pid in w.fetches { InterruptKeeps(c, w, pid, midWrite); }
    case ReadHit(pid, ok) => if pid in w.fetches && w.fetches[pid].Hitting? { ReadHitKeeps(c, w, pid, ok); }
    case ReadFallback(pid, ok) => if pid in w.fetches && w.fetches[pid].Falling? { ReadFallbackKeeps(c, w, pid, ok); }
    case ReadAfter304(pid, ok) => if pid in w.fetches && w.fetches[pid].Reusing? { ReadAfter304Keeps(c, w, pid, ok); }
    case WriteObject(pid, ok) => if pid in w.fetches && w.fetches[pid].Storing? { StoredKeeps(c, w, pid); EndKeeps(c, w, pid); }
    case WriteRefresh(pid, outcome) => if pid in w.fetches && w.fetches[pid].Refreshing? { WriteRefreshKeeps(c, w, pid, outcome); }
    case WriteMeta(pid, outcome) => if pid in w.fetches && w.fetches[pid].Recording? { WriteMetaKeeps(c, w, pid, outcome); }
  }

  lemma {:induction false} RunKeeps(c: Config, events: seq<Event>)
    requires Injective(c)
    ensures Inv(c, Run(c, EMPTY, events))
  {
    if events != [] {
      RunKeeps(c, events[..|events| - 1]);
      StepKeeps(c, Run(c, EMPTY, events[..|events| - 1]), events[|events| - 1]);
    }
  }
}
