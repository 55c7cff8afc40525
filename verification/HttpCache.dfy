// pkg/registry/http.go, the cache as a state machine: fetches, the origin, failures and crashes interleave.

module HttpCache {
  import opened Digests
  import opened Wrappers

  // ---------------------------------------------------------------- freshness

  const SECOND: int := 1_000_000_000
  const TWO63: int := 0x8000_0000_0000_0000
  const TWO64: int := 0x1_0000_0000_0000_0000

  /** cacheMeta; times are nanoseconds, maxAge is in seconds. */
  datatype Meta = Meta(sha: Digest, etag: string, fetchedAt: int, maxAge: int, immutable: bool, url: string)

  /** int64 multiplication wraps around. */
  function Wrap64(x: int): int
  {
    (x + TWO63) % TWO64 - TWO63
  }

  /** time.Time.Sub saturates. */
  function Saturate64(x: int): int
  {
    if x < -TWO63 then -TWO63 else if x >= TWO63 then TWO63 - 1 else x
  }

  predicate IsStale(m: Meta, now: int)
  {
    !m.immutable && (m.maxAge <= 0 || Saturate64(now - m.fetchedAt) > Wrap64(m.maxAge * SECOND))
  }

  /** However large max-age is, a mutable resource counted as fresh is no older than max-age. */
  lemma FreshMeansYoung(m: Meta, now: int)
    requires !IsStale(m, now) && !m.immutable
    ensures m.maxAge > 0 && now - m.fetchedAt <= m.maxAge * SECOND
  {
    var p := m.maxAge * SECOND;
    var q := (p + TWO63) / TWO64;
    assert q >= 0 && Wrap64(p) == p - q * TWO64;
    WrappedIsNotLargest(m.maxAge);
  }

  /**
   * Freshness is the max-age comparison of RFC 9111, section 4.2, exactly below the int64 limit (292 years): from
   * there on the wrapped product counts some entry as stale that is young enough.
   */
  lemma FreshIsYoungIff(m: Meta)
    requires !m.immutable && m.maxAge > 0
    ensures (forall now :: !IsStale(m, now) <==> now - m.fetchedAt <= m.maxAge * SECOND) <==> m.maxAge * SECOND < TWO63
  {
    var p := m.maxAge * SECOND;
    if p >= TWO63 {
      // the oldest age that a Duration can tell from its largest value
      var now := m.fetchedAt + TWO63 - 1;
      if !IsStale(m, now) { WrappedIsNotLargest(m.maxAge); }
      assert IsStale(m, now) && now - m.fetchedAt <= p;
    }
  }

  /** The product is even, so wrapping never gives the (odd) largest Duration, which every long age saturates to. */
  lemma WrappedIsNotLargest(maxAge: int)
    ensures -TWO63 <= Wrap64(maxAge * SECOND) < TWO63 - 1
  {
    var p := maxAge * SECOND;
    var q := (p + TWO63) / TWO64;
    assert Wrap64(p) == 2 * (maxAge * 500_000_000 - q * TWO63);
  }

  /** Past the limit an entry is stale the moment it is written exactly when the product wraps to a negative number. */
  lemma StaleWhenWrittenIff(m: Meta)
    requires !m.immutable && m.maxAge > 0
    ensures IsStale(m, m.fetchedAt) <==> m.maxAge * SECOND % TWO64 >= TWO63
  {
    WrapMeans(m.maxAge * SECOND);
  }

  lemma WrapMeans(p: int)
    ensures Wrap64(p) == if p % TWO64 >= TWO63 then p % TWO64 - TWO64 else p % TWO64
  {
    var q, r := p / TWO64, p % TWO64;
    if r >= TWO63 { Remainder(p + TWO63, q + 1, r - TWO63); } else { Remainder(p + TWO63, q, r + TWO63); }
  }

  lemma Remainder(x: int, q: int, r: int)
    requires x == q * TWO64 + r && 0 <= r < TWO64
    ensures x % TWO64 == r
  {
  }

  // ---------------------------------------------------------------- the world

  /** What the origin serves for a URL, with the headers that matter here. */
  datatype Version = Version(body: string, etag: string, maxAge: int, immutable: bool)

  /** A version and the time it was published. */
  datatype Entry = Entry(v: Version, since: int)

  datatype Origin = Origin(history: map<string, seq<Entry>>, gone: set<string>) {

    function History(url: string): seq<Entry>
    {
      if url in history then history[url] else []
    }

    /** Equal non-empty entity tags of one URL name equal bodies. */
    predicate Truthful(url: string, v: Version)
    {
      v.etag != "" ==> forall e | e in History(url) :: e.v.etag == v.etag ==> e.v.body == v.body
    }

    function Answer(url: string, ifNoneMatch: string): Reply
    {
      var h := History(url);
      if h == [] || url in gone then NotFound
      else
        var v := h[|h| - 1].v;
        if ifNoneMatch != "" && ifNoneMatch == v.etag then NotModified(v) else Ok(v)
    }
  }

  /** 304, 200 or 404. */
  datatype Reply = NotModified(v: Version) | Ok(v: Version) | NotFound

  /** A metadata file is whole, or was cut short by a crash or a failed write. */
  datatype MetaFile = Torn | Readable(meta: Meta)

  datatype Disk = Disk(objects: map<Digest, string>, metas: map<string, MetaFile>)

  /** An answer (200 or 304) the origin gave: version ver of url, at time at. */
  datatype Served = Served(url: string, ver: nat, at: int)

  datatype How = FreshHit | Validated | Downloaded | Fallback

  /** A fetch that returned a body; from is the answer in the served log that vouches for it. */
  datatype Read = Read(url: string, body: string, how: How, from: nat, started: int, finished: int)

  /** Metadata as read at the start of a fetch, and the answer it was written from. */
  datatype Known = Known(meta: Meta, from: nat)

  /** Where a running fetch stands. */
  datatype Fetch =
    | Hitting(url: string, started: int, known: Known)
    | Asking(url: string, started: int, hint: Option<Known>)
    | Falling(url: string, started: int, hint: Option<Known>)
    | Refreshing(url: string, started: int, known: Known, from: nat)
    | Reusing(url: string, started: int, meta: Meta, from: nat)
    | Storing(url: string, started: int, from: nat)
    | Recording(url: string, started: int, from: nat)

  /** source, served and log only record what happened; no step looks at them. */
  datatype World = World(
    now: int, origin: Origin, disk: Disk, fetches: map<nat, Fetch>,
    source: map<string, nat>, served: seq<Served>, log: seq<Read>)

  /** metaPath, and the URLs a run may use. */
  datatype Config = Config(metaPath: string -> string, uses: string -> bool)

  datatype Write = Written | Untouched | CutShort

  datatype Event =
    | Tick(d: nat)
    | Publish(url: string, v: Version)
    | Withdraw(url: string)
    | Start(pid: nat, url: string, ok: bool)
    | ReadHit(pid: nat, ok: bool)
    | Ask(pid: nat, net: Net)
    | ReadFallback(pid: nat, ok: bool)
    | WriteRefresh(pid: nat, w: Write)
    | ReadAfter304(pid: nat, ok: bool)
    | WriteObject(pid: nat, ok: bool)
    | WriteMeta(pid: nat, w: Write)
    | Crash(pid: nat, midWrite: bool)

  /** The request is answered, fails after every retry, or gets a status the client does not expect. */
  datatype Net = Up | Down | Odd

  // ---------------------------------------------------------------- steps

  function VersionOf(w: World, from: nat): Version
    requires from < |w.served| && w.served[from].ver < |w.origin.History(w.served[from].url)|
  {
    w.origin.History(w.served[from].url)[w.served[from].ver].v
  }

  /** The version an answer carried (an arbitrary one when the log has no such answer). */
  function Carried(w: World, from: nat): Version
  {
    if from < |w.served| && w.served[from].ver < |w.origin.History(w.served[from].url)| then VersionOf(w, from)
    else Version("", "", 0, false)
  }

  function Refreshed(m: Meta, started: int, v: Version): Meta
  {
    m.(fetchedAt := started, maxAge := v.maxAge, immutable := v.immutable, etag := if v.etag != "" then v.etag else m.etag)
  }

  function PutMeta(c: Config, w: World, url: string, m: Meta, from: nat, outcome: Write): World
  {
    var p := c.metaPath(url);
    match outcome
    case Written => w.(disk := w.disk.(metas := w.disk.metas[p := Readable(m)]), source := w.source[p := from])
    case CutShort => w.(disk := w.disk.(metas := w.disk.metas[p := Torn]))
    case Untouched => w
  }

  /** writeObject: the object file appears whole (by rename), and an existing one is left alone. */
  function Store(w: World, body: string): World
  {
    if Digest(body) in w.disk.objects then w
    else w.(disk := w.disk.(objects := w.disk.objects[Digest(body) := body]))
  }

  function Go(w: World, pid: nat, f: Fetch): World
  {
    w.(fetches := w.fetches[pid := f])
  }

  function End(w: World, pid: nat): World
  {
    w.(fetches := w.fetches - {pid})
  }

  function Return(w: World, pid: nat, body: string, how: How, from: nat): World
    requires pid in w.fetches
  {
    var f := w.fetches[pid];
    End(w.(log := w.log + [Read(f.url, body, how, from, f.started, w.now)]), pid)
  }

  function Begin(c: Config, w: World, pid: nat, url: string, ok: bool): World
  {
    var p := c.metaPath(url);
    if ok && p in w.disk.metas && w.disk.metas[p].Readable? then
      var k := Known(w.disk.metas[p].meta, if p in w.source then w.source[p] else 0);
      Go(w, pid, if IsStale(k.meta, w.now) then Asking(url, w.now, Some(k)) else Hitting(url, w.now, k))
    else Go(w, pid, Asking(url, w.now, None))
  }

  function Receive(w: World, pid: nat, net: Net): World
    requires pid in w.fetches && w.fetches[pid].Asking?
  {
    var f := w.fetches[pid];
    var tag := if f.hint.Some? then f.hint.value.meta.etag else "";
    match net
    case Down => Go(w, pid, Falling(f.url, f.started, f.hint))
    case Odd => End(w, pid)
    case Up =>
      var answer := w.origin.Answer(f.url, tag);
      var n := |w.origin.History(f.url)|;
      if answer.NotFound? || n == 0 then End(w, pid)
      else
        var w' := w.(served := w.served + [Served(f.url, n - 1, w.now)]);
        if answer.NotModified? && f.hint.Some? then Go(w', pid, Refreshing(f.url, f.started, f.hint.value, |w.served|))
        else Go(w', pid, Storing(f.url, f.started, |w.served|))
  }

  function Interrupt(c: Config, w: World, pid: nat, midWrite: bool): World
    requires pid in w.fetches
  {
    var f := w.fetches[pid];
    if midWrite && (f.Refreshing? || f.Recording?) then
      End(w.(disk := w.disk.(metas := w.disk.metas[c.metaPath(f.url) := Torn])), pid)
    else End(w, pid)
  }

  /** After its object is on disk the fetch turns to the metadata. */
  function Stored(w: World, pid: nat): World
    requires pid in w.fetches && w.fetches[pid].Storing?
  {
    var f := w.fetches[pid];
    Go(Store(w, Carried(w, f.from).body), pid, Recording(f.url, f.started, f.from))
  }

  /** One step of one running fetch. */
  function Advance(c: Config, w: World, pid: nat, e: Event): World
    requires pid in w.fetches
  {
    var f := w.fetches[pid];
    match e
    case ReadHit(_, ok) =>
      if !f.Hitting? then w
      else if ok && f.known.meta.sha in w.disk.objects then
        Return(w, pid, w.disk.objects[f.known.meta.sha], FreshHit, f.known.from)
      else Go(w, pid, Asking(f.url, f.started, Some(f.known)))
    case Ask(_, net) => if f.Asking? then Receive(w, pid, net) else w
    case ReadFallback(_, ok) =>
      if !f.Falling? then w
      else if ok && f.hint.Some? && f.hint.value.meta.sha in w.disk.objects then
        Return(w, pid, w.disk.objects[f.hint.value.meta.sha], Fallback, f.hint.value.from)
      else End(w, pid)
    case WriteRefresh(_, outcome) =>
      if !f.Refreshing? then w
      else
        var m := Refreshed(f.known.meta, f.started, Carried(w, f.from));
        Go(PutMeta(c, w, f.url, m, f.from, outcome), pid, Reusing(f.url, f.started, m, f.from))
    case ReadAfter304(_, ok) =>
      if !f.Reusing? then w
      else if ok && f.meta.sha in w.disk.objects then Return(w, pid, w.disk.objects[f.meta.sha], Validated, f.from)
      else End(w, pid)
    case WriteObject(_, ok) =>
      if !f.Storing? then w
      else if ok then Stored(w, pid)
      else End(w, pid)
    case WriteMeta(_, outcome) =>
      if !f.Recording? then w
      else
        var v := Carried(w, f.from);
        Return(PutMeta(c, w, f.url, Meta(Digest(v.body), v.etag, f.started, v.maxAge, v.immutable, f.url), f.from, outcome),
               pid, v.body, Downloaded, f.from)
    case Crash(_, midWrite) => Interrupt(c, w, pid, midWrite)
    case _ => w
  }

  /** One event; an event that does not apply in this world changes nothing. */
  function Apply(c: Config, w: World, e: Event): World
  {
    match e
    case Tick(d) => w.(now := w.now + d)
    case Publish(url, v) =>
      if c.uses(url) && w.origin.Truthful(url, v) then
        w.(origin := Origin(w.origin.history[url := w.origin.History(url) + [Entry(v, w.now)]], w.origin.gone - {url}))
      else w
    case Withdraw(url) => w.(origin := w.origin.(gone := w.origin.gone + {url}))
    case Start(pid, url, ok) => if c.uses(url) && pid !in w.fetches then Begin(c, w, pid, url, ok) else w
    case _ => if e.pid in w.fetches then Advance(c, w, e.pid, e) else w
  }

  function Run(c: Config, w: World, events: seq<Event>): World
  {
    if events == [] then w else Apply(c, Run(c, w, events[..|events| - 1]), events[|events| - 1])
  }

  const EMPTY: World := World(0, Origin(map[], {}), Disk(map[], map[]), map[], map[], [], [])
}
