// The files of the cache after any run, whatever the metadata paths: an invariant that, unlike the one
// for bodies, asks nothing of the URLs in use.

module HttpCacheFiles {
  import opened Digests
  import opened HttpCache
  import opened HttpCacheSafety

  /** The metadata may be written to url's file: its object is on disk, and its own URL shares that file. */
  predicate Fits(c: Config, w: World, url: string, m: Meta)
  {
    m.sha in w.disk.objects && c.metaPath(m.url) == c.metaPath(url)
  }

  predicate Answered(w: World, from: nat)
  {
    from < |w.served| && w.served[from].ver < |w.origin.History(w.served[from].url)|
  }

  predicate FetchFits(c: Config, w: World, f: Fetch)
  {
    match f
    case Hitting(url, _, k) => Fits(c, w, url, k.meta)
    case Asking(url, _, hint) => hint.Some? ==> Fits(c, w, url, hint.value.meta)
    case Falling(url, _, hint) => hint.Some? ==> Fits(c, w, url, hint.value.meta)
    case Refreshing(url, _, k, from) => Fits(c, w, url, k.meta)
    case Reusing(_, _, _, _) => true
    case Storing(_, _, from) => Answered(w, from)
    case Recording(_, _, from) => Answered(w, from) && Digest(Carried(w, from).body) in w.disk.objects
  }

  predicate MetaFits(c: Config, w: World, p: string)
    requires p in w.disk.metas
  {
    w.disk.metas[p].Readable? ==>
      w.disk.metas[p].meta.sha in w.disk.objects && p == c.metaPath(w.disk.metas[p].meta.url)
  }

  predicate FilesFit(c: Config, w: World)
  {
    && (forall d | d in w.disk.objects :: w.disk.objects[d] == d.of)
    && (forall p | p in w.disk.metas :: MetaFits(c, w, p))
    && (forall pid | pid in w.fetches :: FetchFits(c, w, w.fetches[pid]))
  }

  lemma GrowKeepsFits(c: Config, w: World, w': World, f: Fetch)
    requires Grows(w, w') && FetchFits(c, w, f)
    ensures FetchFits(c, w', f)
  {
    if f.Storing? || f.Recording? {
      var s := w.served[f.from];
      assert w'.served[f.from] == s && w.origin.History(s.url) <= w'.origin.History(s.url);
    }
  }

  /** Only what a step wrote has to be looked at. */
  lemma RestFits(c: Config, w: World, w': World)
    requires FilesFit(c, w) && Grows(w, w')
    requires forall d | d in w'.disk.objects :: w'.disk.objects[d] == d.of
    requires forall p | p in w'.disk.metas && !(p in w.disk.metas && w'.disk.metas[p] == w.disk.metas[p]) :: MetaFits(c, w', p)
    requires forall pid | pid in w'.fetches && !(pid in w.fetches && w'.fetches[pid] == w.fetches[pid]) :: FetchFits(c, w', w'.fetches[pid])
    ensures FilesFit(c, w')
  {
    forall p | p in w'.disk.metas ensures MetaFits(c, w', p) {
      if p in w.disk.metas && w'.disk.metas[p] == w.disk.metas[p] { assert MetaFits(c, w, p); }
    }
    forall pid | pid in w'.fetches ensures FetchFits(c, w', w'.fetches[pid]) {
      if pid in w.fetches && w'.fetches[pid] == w.fetches[pid] { GrowKeepsFits(c, w, w', w.fetches[pid]); }
    }
  }

  lemma StartFits(c: Config, w: World, pid: nat, url: string, ok: bool)
    requires FilesFit(c, w)
    ensures FilesFit(c, Begin(c, w, pid, url, ok))
  {
    var p := c.metaPath(url);
    if p in w.disk.metas { assert MetaFits(c, w, p); }
    RestFits(c, w, Begin(c, w, pid, url, ok));
  }

  lemma AskFits(c: Config, w: World, pid: nat, net: Net)
    requires FilesFit(c, w) && pid in w.fetches && w.fetches[pid].Asking?
    ensures FilesFit(c, Receive(w, pid, net))
  {
    assert FetchFits(c, w, w.fetches[pid]);
    RestFits(c, w, Receive(w, pid, net));
  }

  lemma WriteRefreshFits(c: Config, w: World, pid: nat, outcome: Write)
    requires FilesFit(c, w) && pid in w.fetches && w.fetches[pid].Refreshing?
    ensures FilesFit(c, Advance(c, w, pid, WriteRefresh(pid, outcome)))
  {
    assert FetchFits(c, w, w.fetches[pid]);
    RestFits(c, w, Advance(c, w, pid, WriteRefresh(pid, outcome)));
  }

  lemma StoredFits(c: Config, w: World, pid: nat)
    requires FilesFit(c, w) && pid in w.fetches && w.fetches[pid].Storing?
    ensures FilesFit(c, Stored(w, pid))
  {
    assert FetchFits(c, w, w.fetches[pid]);
    RestFits(c, w, Stored(w, pid));
  }

  lemma WriteMetaFits(c: Config, w: World, pid: nat, outcome: Write)
    requires FilesFit(c, w) && pid in w.fetches && w.fetches[pid].Recording?
    ensures FilesFit(c, Advance(c, w, pid, WriteMeta(pid, outcome)))
  {
    assert FetchFits(c, w, w.fetches[pid]);
    RestFits(c, w, Advance(c, w, pid, WriteMeta(pid, outcome)));
  }

  lemma ReadFits(c: Config, w: World, e: Event)
    requires FilesFit(c, w) && (e.ReadHit? || e.ReadFallback? || e.ReadAfter304?) && e.pid in w.fetches
    ensures FilesFit(c, Advance(c, w, e.pid, e))
  {
    assert FetchFits(c, w, w.fetches[e.pid]);
    RestFits(c, w, Advance(c, w, e.pid, e));
  }

  /** A crash writes no file but, at worst, tears one. */
  lemma CrashFits(c: Config, w: World, pid: nat, midWrite: bool)
    requires FilesFit(c, w) && pid in w.fetches
    ensures FilesFit(c, Interrupt(c, w, pid, midWrite))
  {
    RestFits(c, w, Interrupt(c, w, pid, midWrite));
  }

  lemma OriginFits(c: Config, w: World, e: Event)
    requires FilesFit(c, w) && (e.Tick? || e.Publish? || e.Withdraw?)
    ensures FilesFit(c, Apply(c, w, e))
  {
    ApplyGrows(c, w, e);
    RestFits(c, w, Apply(c, w, e));
  }

  /** Every step keeps it. */
  lemma StepFits(c: Config, w: World, e: Event)
    requires FilesFit(c, w)
    ensures FilesFit(c, Apply(c, w, e))
  {
    match e
    case Start(pid, url, ok) => if c.uses(url) && pid !in w.fetches { StartFits(c, w, pid, url, ok); }
    case Ask(pid, net) => if pid in w.fetches && w.fetches[pid].Asking? { AskFits(c, w, pid, net); }
    case WriteRefresh(pid, outcome) => if pid in w.fetches && w.fetches[pid].Refreshing? { WriteRefreshFits(c, w, pid, outcome); }
    case WriteObject(pid, ok) =>
      if pid in w.fetches && w.fetches[pid].Storing? {
        if ok { StoredFits(c, w, pid); } else { RestFits(c, w, End(w, pid)); }
      }
    case WriteMeta(pid, outcome) => if pid in w.fetches && w.fetches[pid].Recording? { WriteMetaFits(c, w, pid, outcome); }
    case ReadHit(pid, _) => if pid in w.fetches { ReadFits(c, w, e); }
    case ReadFallback(pid, _) => if pid in w.fetches { ReadFits(c, w, e); }
    case ReadAfter304(pid, _) => if pid in w.fetches { ReadFits(c, w, e); }
    case Crash(pid, midWrite) => if pid in w.fetches { CrashFits(c, w, pid, midWrite); }
    case Tick(_) => OriginFits(c, w, e);
    case Publish(_, _) => OriginFits(c, w, e);
    case Withdraw(_) => OriginFits(c, w, e);
  }

  lemma {:induction false} RunFits(c: Config, events: seq<Event>)
    ensures FilesFit(c, Run(c, EMPTY, events))
  {
    if events != [] {
      RunFits(c, events[..|events| - 1]);
      StepFits(c, Run(c, EMPTY, events[..|events| - 1]), events[|events| - 1]);
    }
  }

  /** After any run, crashes and shared paths included, readable metadata points at a whole object with that digest. */
  lemma MetadataNeverDangles(c: Config, events: seq<Event>, p: string)
    ensures var d := Run(c, EMPTY, events).disk;
      p in d.metas && d.metas[p].Readable? ==>
        d.metas[p].meta.sha in d.objects && Digest(d.objects[d.metas[p].meta.sha]) == d.metas[p].meta.sha
        && p == c.metaPath(d.metas[p].meta.url)
  {
    RunFits(c, events);
    var w := Run(c, EMPTY, events);
    if p in w.disk.metas { assert MetaFits(c, w, p); }
  }
}
