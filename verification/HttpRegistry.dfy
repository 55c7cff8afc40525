// fetchCached as the program writes it, one fetch alone at the cache, tied to the protocol's steps.

module HttpRegistry {
  import opened Digests
  import opened HttpCache
  import opened Wrappers
  import HttpCacheLimits

  /** How each outside action of one fetch turns out. */
  datatype Io = Io(
    readMeta: bool, readHit: bool, net: Net, readFallback: bool,
    refresh: Write, readReused: bool, store: bool, record: Write)

  datatype Result = Body(body: string) | Failed

  /** The steps of one fetch in program order; those off its path change nothing. */
  function Steps(url: string, io: Io): seq<Event>
  {
    [Start(0, url, io.readMeta), ReadHit(0, io.readHit), Ask(0, io.net), ReadFallback(0, io.readFallback),
     WriteRefresh(0, io.refresh), ReadAfter304(0, io.readReused), WriteObject(0, io.store), WriteMeta(0, io.record)]
  }

  lemma StepFirst(c: Config, w: World, es: seq<Event>)
    requires es != []
    ensures Run(c, w, es) == Run(c, Apply(c, w, es[0]), es[1..])
  {
    assert es == [es[0]] + es[1..];
    HttpCacheLimits.RunOne(c, w, es[0]);
    HttpCacheLimits.RunConcat(c, w, [es[0]], es[1..]);
  }

  predicate OffPath(w: World, e: Event)
  {
    match e
    case Tick(_) => false
    case Publish(_, _) => false
    case Withdraw(_) => false
    case Start(_, _, _) => false
    case _ => e.pid == 0 && (0 in w.fetches ==>
      var f := w.fetches[0];
      match e
      case ReadHit(_, _) => !f.Hitting?
      case Ask(_, _) => !f.Asking?
      case ReadFallback(_, _) => !f.Falling?
      case WriteRefresh(_, _) => !f.Refreshing?
      case ReadAfter304(_, _) => !f.Reusing?
      case WriteObject(_, _) => !f.Storing?
      case WriteMeta(_, _) => !f.Recording?
      case _ => false)
  }

  /** Steps that are off the path of the fetch are skipped. */
  lemma {:induction false} SkipOffPath(c: Config, w: World, es: seq<Event>, n: nat)
    requires n <= |es| && forall k | 0 <= k < n :: OffPath(w, es[k])
    ensures Run(c, w, es) == Run(c, w, es[n..])
  {
    if n > 0 {
      StepFirst(c, w, es);
      assert Apply(c, w, es[0]) == w;
      SkipOffPath(c, w, es[1..], n - 1);
      assert es[1..][n - 1..] == es[n..];
    }
  }

  /** The result r and the disk d are what the protocol reaches from w by events es. */
  ghost predicate Reaches(c: Config, w: World, es: seq<Event>, url: string, r: Result, d: Disk)
  {
    var w' := Run(c, w, es);
    && w'.disk == d && 0 !in w'.fetches
    && match r
       case Body(body) => |w'.log| == |w.log| + 1 && w'.log[|w.log|].url == url && w'.log[|w.log|].body == body
       case Failed => w'.log == w.log
  }

  /** Where an answered request leaves the fetch, by the kind of answer. */
  lemma AnswerReceived(g: World, etag: string)
    requires 0 in g.fetches && g.fetches[0].Asking?
    requires etag == if g.fetches[0].hint.Some? then g.fetches[0].hint.value.meta.etag else ""
    ensures var f, w := g.fetches[0], Receive(g, 0, Up);
      && w.disk == g.disk && w.log == g.log
      && match g.origin.Answer(f.url, etag)
         case NotFound => 0 !in w.fetches
         case NotModified(v) =>
           f.hint.Some? && 0 in w.fetches && w.fetches[0] == Refreshing(f.url, f.started, f.hint.value, |g.served|)
           && Carried(w, |g.served|) == v
         case Ok(v) => 0 in w.fetches && w.fetches[0] == Storing(f.url, f.started, |g.served|) && Carried(w, |g.served|) == v
  {
  }

  class HttpRegistry {
    var objects: map<Digest, string>
    var metas: map<string, MetaFile>

    function OnDisk(): Disk
      reads this
    {
      Disk(objects, metas)
    }

    constructor ()
      ensures OnDisk() == EMPTY.disk
    {
      objects, metas := map[], map[];
    }

    method ReadMeta(c: Config, url: string, ok: bool) returns (m: Option<Meta>)
      ensures m == if ok && c.metaPath(url) in metas && metas[c.metaPath(url)].Readable?
                   then Some(metas[c.metaPath(url)].meta) else None
    {
      var p := c.metaPath(url);
      if !ok || p !in metas || metas[p].Torn? { return None; }
      m := Some(metas[p].meta);
    }

    method WriteObject(sha: Digest, body: string, ok: bool) returns (written: bool)
      requires sha == Digest(body)
      modifies this`objects
      ensures written == ok
      ensures objects == if ok && sha !in old(objects) then old(objects)[sha := body] else old(objects)
    {
      if !ok { return false; }
      if sha !in objects { objects := objects[sha := body]; }
      written := true;
    }

    method WriteMeta(c: Config, url: string, m: Meta, outcome: Write)
      modifies this`metas
      ensures var p := c.metaPath(url);
        metas == match outcome
                 case Written => old(metas)[p := Readable(m)]
                 case CutShort => old(metas)[p := Torn]
                 case Untouched => old(metas)
    {
      if outcome == Written { metas := metas[c.metaPath(url) := Readable(m)]; }
      if outcome == CutShort { metas := metas[c.metaPath(url) := Torn]; }
    }

    method FetchCached(c: Config, origin: Origin, now: int, url: string, io: Io, ghost w: World) returns (r: Result)
      requires c.uses(url) && 0 !in w.fetches
      requires w.origin == origin && w.now == now && w.disk == OnDisk()
      modifies this
      ensures Reaches(c, w, Steps(url, io), url, r, OnDisk())
    {
      ghost var es := Steps(url, io);
      ghost var g := Apply(c, w, es[0]);
      StepFirst(c, w, es);
      var meta := ReadMeta(c, url, io.readMeta);
      if meta.Some? && !IsStale(meta.value, now) {
        assert g.fetches[0].Hitting?;
        StepFirst(c, g, es[1..]);
        g := Apply(c, g, es[1]);
        if io.readHit && meta.value.sha in objects {
          SkipOffPath(c, g, es[1..][1..], 6);
          return Body(objects[meta.value.sha]);
        }
      } else {
        SkipOffPath(c, g, es[1..], 1);
      }
      assert g.fetches[0].Asking? && g.disk == w.disk && g.log == w.log;
      var etag := if meta.Some? then meta.value.etag else "";
      r := Respond(c, origin, now, url, io, meta, etag, g, es[1..][1..]);
    }

    /** The rest of fetchCached, from the request on. */
    method Respond(c: Config, origin: Origin, now: int, url: string, io: Io, meta: Option<Meta>, etag: string,
                   ghost g: World, ghost es: seq<Event>) returns (r: Result)
      requires 0 in g.fetches && g.fetches[0].Asking? && g.fetches[0].url == url && g.fetches[0].started == now
      requires g.origin == origin && g.now == now && g.disk == OnDisk() && es == Steps(url, io)[2..]
      requires etag == if meta.Some? then meta.value.etag else ""
      requires g.fetches[0].hint.Some? <==> meta.Some?
      requires meta.Some? ==> g.fetches[0].hint.value.meta == meta.value
      modifies this
      ensures Reaches(c, g, es, url, r, OnDisk())
    {
      StepFirst(c, g, es);
      ghost var g1 := Receive(g, 0, io.net);
      if io.net == Odd {
        SkipOffPath(c, g1, es[1..], 5);
        return Failed;
      }
      if io.net == Down {
        r := FallBack(c, now, url, io, meta, g1, es[1..]);
        return;
      }
      AnswerReceived(g, etag);
      r := Answered(c, origin.Answer(url, etag), now, url, io, meta, g1, es[1..]);
    }

    /** The rest of it once the origin has answered. */
    method Answered(c: Config, answer: Reply, now: int, url: string, io: Io, meta: Option<Meta>,
                    ghost g: World, ghost es: seq<Event>) returns (r: Result)
      requires g.disk == OnDisk() && es == Steps(url, io)[3..]
      requires match answer
        case NotFound => 0 !in g.fetches
        case NotModified(v) =>
          && meta.Some? && 0 in g.fetches && g.fetches[0].Refreshing? && g.fetches[0].url == url && g.fetches[0].started == now
          && g.fetches[0].known.meta == meta.value && Carried(g, g.fetches[0].from) == v
        case Ok(v) =>
          && 0 in g.fetches && g.fetches[0].Storing? && g.fetches[0].url == url && g.fetches[0].started == now
          && Carried(g, g.fetches[0].from) == v
      modifies this
      ensures Reaches(c, g, es, url, r, OnDisk())
    {
      match answer
      case NotFound =>
        SkipOffPath(c, g, es, 5);
        return Failed;
      case NotModified(v) =>
        SkipOffPath(c, g, es, 1);
        r := Revalidate(c, now, url, io, meta.value, v, g, es[1..]);
      case Ok(v) =>
        SkipOffPath(c, g, es, 3);
        r := Download(c, now, url, io, v, g, es[3..]);
    }

    method FallBack(c: Config, now: int, url: string, io: Io, meta: Option<Meta>, ghost g: World, ghost es: seq<Event>)
      returns (r: Result)
      requires 0 in g.fetches && g.fetches[0].Falling? && g.fetches[0].url == url && g.disk == OnDisk()
      requires es == Steps(url, io)[3..]
      requires g.fetches[0].hint.Some? <==> meta.Some?
      requires meta.Some? ==> g.fetches[0].hint.value.meta == meta.value
      ensures Reaches(c, g, es, url, r, OnDisk())
    {
      StepFirst(c, g, es);
      SkipOffPath(c, Apply(c, g, es[0]), es[1..], 4);
      if meta.Some? && io.readFallback && meta.value.sha in objects { return Body(objects[meta.value.sha]); }
      return Failed;
    }

    method Revalidate(c: Config, now: int, url: string, io: Io, meta: Meta, v: Version, ghost g: World, ghost es: seq<Event>)
      returns (r: Result)
      requires 0 in g.fetches && g.fetches[0].Refreshing? && g.fetches[0].url == url && g.fetches[0].started == now
      requires g.fetches[0].known.meta == meta && Carried(g, g.fetches[0].from) == v
      requires g.disk == OnDisk() && es == Steps(url, io)[4..]
      modifies this`metas
      ensures Reaches(c, g, es, url, r, OnDisk())
    {
      var m := Refreshed(meta, now, v);
      WriteMeta(c, url, m, io.refresh);
      StepFirst(c, g, es);
      ghost var g1 := Apply(c, g, es[0]);
      assert g1.disk == OnDisk() && g1.fetches[0] == Reusing(url, now, m, g.fetches[0].from);
      StepFirst(c, g1, es[1..]);
      SkipOffPath(c, Apply(c, g1, es[1]), es[1..][1..], 2);
      if io.readReused && m.sha in objects { return Body(objects[m.sha]); }
      return Failed;
    }

    method Download(c: Config, now: int, url: string, io: Io, v: Version, ghost g: World, ghost es: seq<Event>)
      returns (r: Result)
      requires 0 in g.fetches && g.fetches[0].Storing? && g.fetches[0].url == url && g.fetches[0].started == now
      requires Carried(g, g.fetches[0].from) == v && g.disk == OnDisk() && es == Steps(url, io)[6..]
      modifies this
      ensures Reaches(c, g, es, url, r, OnDisk())
    {
      StepFirst(c, g, es);
      ghost var g1 := Apply(c, g, es[0]);
      var stored := WriteObject(Digest(v.body), v.body, io.store);
      if !stored {
        SkipOffPath(c, g1, es[1..], 1);
        return Failed;
      }
      assert g1.disk == OnDisk() && g1.fetches[0] == Recording(url, now, g.fetches[0].from) && Carried(g1, g.fetches[0].from) == v;
      StepFirst(c, g1, es[1..]);
      WriteMeta(c, url, Meta(Digest(v.body), v.etag, now, v.maxAge, v.immutable, url), io.record);
      return Body(v.body);
    }
  }
}
