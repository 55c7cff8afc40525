// Reads never go back in the origin's history, as long as fetches of one URL take turns and
// every metadata write either lands or visibly fails (the file is left unreadable). A read is
// placed in the history by the answer that vouches for its body.

module HttpCacheOrder {
  import opened Digests
  import opened HttpCache
  import opened HttpCacheSafety
  import opened Wrappers

  function Ver(w: World, from: nat): nat
  {
    if from < |w.served| then w.served[from].ver else 0
  }

  /** No read of url so far returned a version newer than the one answer `from` carried. */
  ghost predicate NotAhead(w: World, url: string, from: nat)
  {
    from < |w.served| && forall i | 0 <= i < |w.log| && w.log[i].url == url :: Ver(w, w.log[i].from) <= Ver(w, from)
  }

  ghost predicate FileIs(c: Config, w: World, url: string, k: Known)
  {
    var p := c.metaPath(url);
    p in w.disk.metas && p in w.source && w.disk.metas[p] == Readable(k.meta) && w.source[p] == k.from
  }

  /** A fetch that holds metadata holds what the file still says; one that holds an answer is not behind any read. */
  ghost predicate InTurn(c: Config, w: World, f: Fetch)
  {
    match f
    case Hitting(url, _, k) => FileIs(c, w, url, k)
    case Asking(url, _, hint) => hint.Some? ==> FileIs(c, w, url, hint.value)
    case Falling(url, _, hint) => hint.Some? ==> FileIs(c, w, url, hint.value)
    case Refreshing(url, _, k, from) => FileIs(c, w, url, k) && NotAhead(w, url, from)
    case Reusing(url, _, m, from) =>
      NotAhead(w, url, from) && var p := c.metaPath(url);
      (p in w.disk.metas && w.disk.metas[p].Readable? ==> p in w.source && w.source[p] == from)
    case Storing(url, _, from) => NotAhead(w, url, from)
    case Recording(url, _, from) => NotAhead(w, url, from)
  }

  ghost predicate FileInTurn(c: Config, w: World, url: string)
  {
    var p := c.metaPath(url);
    p in w.disk.metas && w.disk.metas[p].Readable? ==> p in w.source && NotAhead(w, url, w.source[p])
  }

  ghost predicate ReadsInOrder(w: World)
  {
    forall i, j | 0 <= i < j < |w.log| && w.log[i].url == w.log[j].url :: Ver(w, w.log[i].from) <= Ver(w, w.log[j].from)
  }

  ghost predicate OrderInv(c: Config, w: World)
  {
    && ReadsInOrder(w)
    && (forall i | 0 <= i < |w.log| :: w.log[i].from < |w.served|)
    && (forall u | c.uses(u) :: FileInTurn(c, w, u))
    && (forall p | p in w.fetches :: InTurn(c, w, w.fetches[p]))
    && (forall p, q | p in w.fetches && q in w.fetches && w.fetches[p].url == w.fetches[q].url :: p == q)
  }

  /** What a run may do: start a fetch while another of its URL is running, lose a metadata write without a trace. */
  datatype May = May(overlap: bool, lose: bool)

  const ORDERLY := May(false, false)

  predicate Permits(may: May, w: World, e: Event)
  {
    match e
    case Start(_, url, _) => may.overlap || forall p | p in w.fetches :: w.fetches[p].url != url
    case WriteRefresh(_, outcome) => may.lose || outcome != Untouched
    case WriteMeta(_, outcome) => may.lose || outcome != Untouched
    case _ => true
  }

  predicate PermittedRun(may: May, c: Config, w: World, events: seq<Event>)
  {
    events == [] ||
      (PermittedRun(may, c, w, events[..|events| - 1]) && Permits(may, Run(c, w, events[..|events| - 1]), events[|events| - 1]))
  }

  /** w' differs from w at most in what concerns url; the log gained nothing newer than `from`'s version. */
  ghost predicate Elsewhere(c: Config, w: World, w': World, url: string)
  {
    && w.served <= w'.served
    && |w.log| <= |w'.log| && w'.log[..|w.log|] == w.log && (forall i | |w.log| <= i < |w'.log| :: w'.log[i].url == url)
    && (forall p | p != c.metaPath(url) :: (p in w.disk.metas <==> p in w'.disk.metas)
          && (p in w.disk.metas ==> w'.disk.metas[p] == w.disk.metas[p]))
    && (forall p | p != c.metaPath(url) :: (p in w.source <==> p in w'.source) && (p in w.source ==> w'.source[p] == w.source[p]))
  }

  lemma ElsewhereKeeps(c: Config, w: World, w': World, url: string, u: string, from: nat)
    requires Elsewhere(c, w, w', url) && u != url && NotAhead(w, u, from)
    requires forall i | 0 <= i < |w.log| :: w.log[i].from < |w.served|
    ensures NotAhead(w', u, from)
  {
    forall i | 0 <= i < |w'.log| && w'.log[i].url == u ensures Ver(w', w'.log[i].from) <= Ver(w', from) {
      assert i < |w.log|;
      assert w'.log[..|w.log|][i] == w.log[i];
    }
  }

  lemma ElsewhereKeepsFile(c: Config, w: World, w': World, url: string, u: string)
    requires Injective(c) && c.uses(u) && c.uses(url)
    requires Elsewhere(c, w, w', url) && u != url && OrderInv(c, w)
    ensures FileInTurn(c, w', u)
  {
    assert FileInTurn(c, w, u);
    var p := c.metaPath(u);
    if p in w'.disk.metas && w'.disk.metas[p].Readable? { ElsewhereKeeps(c, w, w', url, u, w.source[p]); }
  }

  lemma ElsewhereKeepsFetch(c: Config, w: World, w': World, url: string, f: Fetch)
    requires Injective(c) && c.uses(f.url) && c.uses(url)
    requires Elsewhere(c, w, w', url) && f.url != url && InTurn(c, w, f)
    requires forall i | 0 <= i < |w.log| :: w.log[i].from < |w.served|
    ensures InTurn(c, w', f)
  {
    match f
    case Refreshing(u, _, _, from) => ElsewhereKeeps(c, w, w', url, u, from);
    case Reusing(u, _, _, from) => ElsewhereKeeps(c, w, w', url, u, from);
    case Storing(u, _, from) => ElsewhereKeeps(c, w, w', url, u, from);
    case Recording(u, _, from) => ElsewhereKeeps(c, w, w', url, u, from);
    case _ =>
  }

  /** A step of the one fetch of url keeps the order when it leaves url itself in order. */
  lemma TurnKeeps(c: Config, w: World, w': World, pid: nat, url: string)
    requires Injective(c) && Inv(c, w) && OrderInv(c, w) && c.uses(url)
    requires forall p | p in w.fetches && w.fetches[p].url == url :: p == pid
    requires Elsewhere(c, w, w', url)
    requires w'.fetches - {pid} == w.fetches - {pid}
    requires pid in w'.fetches ==> w'.fetches[pid].url == url && InTurn(c, w', w'.fetches[pid])
    requires FileInTurn(c, w', url)
    requires |w'.log| <= |w.log| + 1
    requires |w'.log| > |w.log| ==> w'.log[|w.log|].from < |w'.served| && NotAhead(w', url, w'.log[|w.log|].from)
    ensures OrderInv(c, w')
  {
    assert forall i | 0 <= i < |w.log| :: w'.log[i] == w'.log[..|w.log|][i] == w.log[i];
    forall u | c.uses(u) ensures FileInTurn(c, w', u) { if u != url { ElsewhereKeepsFile(c, w, w', url, u); } }
    forall p | p in w'.fetches ensures InTurn(c, w', w'.fetches[p]) {
      if p != pid {
        assert p in w'.fetches - {pid} && w'.fetches[p] == w.fetches[p];
        assert FetchOk(c, w, w.fetches[p]);
        ElsewhereKeepsFetch(c, w, w', url, w.fetches[p]);
      }
    }
    forall p, q | p in w'.fetches && q in w'.fetches && w'.fetches[p].url == w'.fetches[q].url ensures p == q {
      assert p != pid ==> p in w'.fetches - {pid} && w'.fetches[p] == w.fetches[p];
      assert q != pid ==> q in w'.fetches - {pid} && w'.fetches[q] == w.fetches[q];
    }
  }

  lemma SameLogNotAhead(w: World, w': World, url: string, from: nat)
    requires w.served <= w'.served && w'.log == w.log && NotAhead(w, url, from)
    requires forall i | 0 <= i < |w.log| :: w.log[i].from < |w.served|
    ensures NotAhead(w', url, from)
  {
  }

  /** Every answer is at least as new as all earlier ones of its URL. */
  lemma NewestIsNotAhead(c: Config, w: World, w': World, url: string)
    requires Inv(c, w) && OrderInv(c, w)
    requires w'.log == w.log && |w'.served| == |w.served| + 1 && w.served <= w'.served
    requires w'.served[|w.served|].url == url && w'.served[|w.served|].ver == |w.origin.History(url)| - 1
    ensures NotAhead(w', url, |w.served|)
  {
    forall i | 0 <= i < |w.log| && w.log[i].url == url ensures Ver(w', w.log[i].from) <= Ver(w', |w.served|) {
      assert ReadOk(w, w.log[i]);
    }
  }

  lemma Uses(c: Config, w: World, pid: nat)
    requires Inv(c, w) && pid in w.fetches
    ensures c.uses(w.fetches[pid].url)
  {
    assert FetchOk(c, w, w.fetches[pid]);
  }

  /** Replacing the one fetch of url along with url's metadata. */
  lemma ReplacedInTurn(c: Config, w: World, w1: World, pid: nat, f: Fetch)
    requires Injective(c) && Inv(c, w) && OrderInv(c, w) && pid in w.fetches && f.url == w.fetches[pid].url
    requires w1.log == w.log && w1.fetches == w.fetches[pid := f]
    requires Elsewhere(c, w, w1, f.url) && FileInTurn(c, w1, f.url) && InTurn(c, w1, f)
    ensures OrderInv(c, w1)
  {
    Uses(c, w, pid);
    TurnKeeps(c, w, w1, pid, f.url);
  }

  /** A useful answer is logged, and the fetch holds it next. */
  lemma AnswerShape(w: World, pid: nat, w': World)
    requires pid in w.fetches && w.fetches[pid].Asking? && w' == Receive(w, pid, Up) && pid in w'.fetches
    ensures var f, n := w.fetches[pid], |w.origin.History(w.fetches[pid].url)|;
      && n > 0 && w'.served == w.served + [Served(f.url, n - 1, w.now)]
      && w'.log == w.log && w'.disk == w.disk && w'.source == w.source && w'.fetches == w.fetches[pid := w'.fetches[pid]]
      && (|| w'.fetches[pid] == Storing(f.url, f.started, |w.served|)
          || (f.hint.Some? && w'.fetches[pid] == Refreshing(f.url, f.started, f.hint.value, |w.served|)))
  {
  }

  lemma AnswerInTurn(c: Config, w: World, pid: nat, w': World)
    requires Injective(c) && Inv(c, w) && OrderInv(c, w) && pid in w.fetches && w.fetches[pid].Asking?
    requires w' == Receive(w, pid, Up) && pid in w'.fetches
    ensures OrderInv(c, w')
  {
    var f := w.fetches[pid];
    AnswerShape(w, pid, w');
    Uses(c, w, pid);
    assert InTurn(c, w, f) && FileInTurn(c, w, f.url);
    NewestIsNotAhead(c, w, w', f.url);
    FileKept(c, w, w', f.url);
    ReplacedInTurn(c, w, w', pid, w'.fetches[pid]);
  }

  lemma ReceiveInTurn(c: Config, w: World, pid: nat, net: Net)
    requires Injective(c) && Inv(c, w) && OrderInv(c, w) && pid in w.fetches && w.fetches[pid].Asking?
    ensures OrderInv(c, Receive(w, pid, net))
  {
    var w' := Receive(w, pid, net);
    if net == Up && pid in w'.fetches { AnswerInTurn(c, w, pid, w'); } else {
      assert InTurn(c, w, w.fetches[pid]);
      MoveInTurn(c, w, w', pid);
    }
  }

  lemma FileKept(c: Config, w: World, w': World, url: string)
    requires FileInTurn(c, w, url) && w.served <= w'.served && w'.log == w.log
    requires w'.disk.metas == w.disk.metas && w'.source == w.source
    requires forall i | 0 <= i < |w.log| :: w.log[i].from < |w.served|
    ensures FileInTurn(c, w', url)
  {
    var p := c.metaPath(url);
    if p in w'.disk.metas && w'.disk.metas[p].Readable? { SameLogNotAhead(w, w', url, w.source[p]); }
  }

  /** Returning the body that answer `from` vouches for, when no read is ahead of it. */
  lemma ReturnInTurn(c: Config, w: World, pid: nat, body: string, how: How, from: nat)
    requires Injective(c) && Inv(c, w) && OrderInv(c, w) && pid in w.fetches
    requires NotAhead(w, w.fetches[pid].url, from)
    requires var p := c.metaPath(w.fetches[pid].url);
      p in w.disk.metas && w.disk.metas[p].Readable? ==> p in w.source && w.source[p] == from
    ensures OrderInv(c, Return(w, pid, body, how, from))
  {
    var f, w' := w.fetches[pid], Return(w, pid, body, how, from);
    assert FetchOk(c, w, f);
    assert NotAhead(w', f.url, from) by {
      forall i | 0 <= i < |w'.log| && w'.log[i].url == f.url ensures Ver(w', w'.log[i].from) <= Ver(w', from) {
        if i < |w.log| { assert w'.log[i] == w.log[i]; }
      }
    }
    assert w'.log[..|w.log|] == w.log;
    TurnKeeps(c, w, w', pid, f.url);
  }

  /** Moving the one fetch of its URL, with the disk's metadata, the log and the answers unchanged. */
  lemma MoveInTurn(c: Config, w: World, w': World, pid: nat)
    requires Injective(c) && Inv(c, w) && OrderInv(c, w) && pid in w.fetches
    requires w'.served == w.served && w'.log == w.log && w'.disk.metas == w.disk.metas && w'.source == w.source
    requires w'.fetches - {pid} == w.fetches - {pid}
    requires pid in w'.fetches ==> w'.fetches[pid].url == w.fetches[pid].url && InTurn(c, w', w'.fetches[pid])
    ensures OrderInv(c, w')
  {
    var f := w.fetches[pid];
    assert FetchOk(c, w, f) && FileInTurn(c, w, f.url);
    FileKept(c, w, w', f.url);
    TurnKeeps(c, w, w', pid, f.url);
  }

  lemma PutMetaElsewhere(c: Config, w: World, pid: nat, url: string, m: Meta, from: nat, outcome: Write, f: Fetch)
    ensures var w1 := Go(PutMeta(c, w, url, m, from, outcome), pid, f);
      Elsewhere(c, w, w1, url) && w1.log == w.log && w1.fetches == w.fetches[pid := f]
  {
  }

  lemma PutMetaFileInTurn(c: Config, w: World, pid: nat, url: string, m: Meta, from: nat, outcome: Write, f: Fetch)
    requires NotAhead(w, url, from) && outcome != Untouched
    requires forall i | 0 <= i < |w.log| :: w.log[i].from < |w.served|
    ensures FileInTurn(c, Go(PutMeta(c, w, url, m, from, outcome), pid, f), url)
  {
    SameLogNotAhead(w, Go(PutMeta(c, w, url, m, from, outcome), pid, f), url, from);
  }

  lemma PutMetaInTurn(c: Config, w: World, w1: World, pid: nat, m: Meta, from: nat, outcome: Write, f: Fetch)
    requires Injective(c) && Inv(c, w) && OrderInv(c, w) && pid in w.fetches && outcome != Untouched
    requires var url := w.fetches[pid].url; NotAhead(w, url, from) && f.url == url && w1 == Go(PutMeta(c, w, url, m, from, outcome), pid, f)
    requires InTurn(c, w1, f)
    ensures OrderInv(c, w1)
  {
    PutMetaElsewhere(c, w, pid, f.url, m, from, outcome, f);
    PutMetaFileInTurn(c, w, pid, f.url, m, from, outcome, f);
    ReplacedInTurn(c, w, w1, pid, f);
  }

  lemma WriteRefreshInTurn(c: Config, w: World, pid: nat, outcome: Write)
    requires Injective(c) && Inv(c, w) && OrderInv(c, w) && pid in w.fetches && w.fetches[pid].Refreshing? && outcome != Untouched
    ensures OrderInv(c, Advance(c, w, pid, WriteRefresh(pid, outcome)))
  {
    var w1, m, f' := RefreshShape(c, w, pid, outcome);
    ReusingInTurn(c, w, w1, pid, m, outcome, f');
    PutMetaInTurn(c, w, w1, pid, m, f'.from, outcome, f');
  }

  /** The 304 branch writes the refreshed metadata and goes on to the body. */
  lemma RefreshShape(c: Config, w: World, pid: nat, outcome: Write) returns (w1: World, m: Meta, f': Fetch)
    requires pid in w.fetches && w.fetches[pid].Refreshing?
    ensures var f := w.fetches[pid];
      && f' == Reusing(f.url, f.started, m, f.from) && w1 == Go(PutMeta(c, w, f.url, m, f.from, outcome), pid, f')
    ensures Advance(c, w, pid, WriteRefresh(pid, outcome)) == w1
  {
    var f := w.fetches[pid];
    m := Refreshed(f.known.meta, f.started, Carried(w, f.from));
    f' := Reusing(f.url, f.started, m, f.from);
    w1 := Go(PutMeta(c, w, f.url, m, f.from, outcome), pid, f');
  }

  lemma ReusingInTurn(c: Config, w: World, w1: World, pid: nat, m: Meta, outcome: Write, f': Fetch)
    requires OrderInv(c, w) && pid in w.fetches && w.fetches[pid].Refreshing? && outcome != Untouched
    requires var f := w.fetches[pid];
      f' == Reusing(f.url, f.started, m, f.from) && w1 == Go(PutMeta(c, w, f.url, m, f.from, outcome), pid, f')
    ensures NotAhead(w, f'.url, f'.from) && InTurn(c, w1, f')
  {
    assert InTurn(c, w, w.fetches[pid]);
    SameLogNotAhead(w, w1, f'.url, f'.from);
  }

  /** The metadata a download leaves. */
  function RecordedMeta(w: World, f: Fetch): Meta
    requires f.Recording?
  {
    var v := Carried(w, f.from);
    Meta(Digest(v.body), v.etag, f.started, v.maxAge, v.immutable, f.url)
  }

  lemma RecordKeeps(c: Config, w: World, pid: nat, outcome: Write)
    requires Inv(c, w) && pid in w.fetches && w.fetches[pid].Recording?
    ensures var f := w.fetches[pid]; Inv(c, PutMeta(c, w, f.url, RecordedMeta(w, f), f.from, outcome))
  {
    var f := w.fetches[pid];
    assert FetchOk(c, w, f);
    RecordedIsOk(c, w, f, PutMeta(c, w, f.url, RecordedMeta(w, f), f.from, outcome), RecordedMeta(w, f), outcome);
    PutMetaKeeps(c, w, f.url, RecordedMeta(w, f), f.from, outcome);
  }

  lemma RecordInTurn(c: Config, w: World, pid: nat, outcome: Write)
    requires Injective(c) && Inv(c, w) && OrderInv(c, w) && pid in w.fetches && w.fetches[pid].Recording? && outcome != Untouched
    ensures var f := w.fetches[pid]; var w1 := PutMeta(c, w, f.url, RecordedMeta(w, f), f.from, outcome);
      OrderInv(c, w1) && NotAhead(w1, f.url, f.from)
  {
    var f := w.fetches[pid];
    assert InTurn(c, w, f);
    var w1 := PutMeta(c, w, f.url, RecordedMeta(w, f), f.from, outcome);
    assert w1 == Go(w1, pid, f);
    SameLogNotAhead(w, w1, f.url, f.from);
    PutMetaInTurn(c, w, w1, pid, RecordedMeta(w, f), f.from, outcome, f);
  }

  /** Recording writes the metadata and returns. */
  lemma RecordShape(c: Config, w: World, pid: nat, outcome: Write) returns (w1: World)
    requires pid in w.fetches && w.fetches[pid].Recording? && outcome != Untouched
    ensures var f, p := w.fetches[pid], c.metaPath(w.fetches[pid].url);
      && w1 == PutMeta(c, w, f.url, RecordedMeta(w, f), f.from, outcome) && w1.fetches == w.fetches
      && (p in w1.disk.metas && w1.disk.metas[p].Readable? ==> p in w1.source && w1.source[p] == f.from)
      && Advance(c, w, pid, WriteMeta(pid, outcome)) == Return(w1, pid, Carried(w, f.from).body, Downloaded, f.from)
  {
    var f := w.fetches[pid];
    w1 := PutMeta(c, w, f.url, RecordedMeta(w, f), f.from, outcome);
  }

  lemma WriteMetaInTurn(c: Config, w: World, pid: nat, outcome: Write)
    requires Injective(c) && Inv(c, w) && OrderInv(c, w) && pid in w.fetches && w.fetches[pid].Recording? && outcome != Untouched
    ensures OrderInv(c, Advance(c, w, pid, WriteMeta(pid, outcome)))
  {
    var f := w.fetches[pid];
    RecordKeeps(c, w, pid, outcome);
    RecordInTurn(c, w, pid, outcome);
    var w1 := RecordShape(c, w, pid, outcome);
    ReturnInTurn(c, w1, pid, Carried(w, f.from).body, Downloaded, f.from);
  }

  lemma ReadHitInTurn(c: Config, w: World, pid: nat, ok: bool)
    requires Injective(c) && Inv(c, w) && OrderInv(c, w) && pid in w.fetches && w.fetches[pid].Hitting?
    ensures OrderInv(c, Advance(c, w, pid, ReadHit(pid, ok)))
  {
    var f := w.fetches[pid];
    assert InTurn(c, w, f) && FetchOk(c, w, f) && FileInTurn(c, w, f.url);
    if ok {
      ReturnInTurn(c, w, pid, w.disk.objects[f.known.meta.sha], FreshHit, f.known.from);
    } else {
      MoveInTurn(c, w, Go(w, pid, Asking(f.url, f.started, Some(f.known))), pid);
    }
  }

  lemma ReadFallbackInTurn(c: Config, w: World, pid: nat, ok: bool)
    requires Injective(c) && Inv(c, w) && OrderInv(c, w) && pid in w.fetches && w.fetches[pid].Falling?
    ensures OrderInv(c, Advance(c, w, pid, ReadFallback(pid, ok)))
  {
    var f := w.fetches[pid];
    assert InTurn(c, w, f) && FetchOk(c, w, f) && FileInTurn(c, w, f.url);
    if ok && f.hint.Some? {
      ReturnInTurn(c, w, pid, w.disk.objects[f.hint.value.meta.sha], Fallback, f.hint.value.from);
    } else { MoveInTurn(c, w, End(w, pid), pid); }
  }

  lemma ReadAfter304InTurn(c: Config, w: World, pid: nat, ok: bool)
    requires Injective(c) && Inv(c, w) && OrderInv(c, w) && pid in w.fetches && w.fetches[pid].Reusing?
    ensures OrderInv(c, Advance(c, w, pid, ReadAfter304(pid, ok)))
  {
    var f := w.fetches[pid];
    assert InTurn(c, w, f) && FetchOk(c, w, f);
    if ok { ReturnInTurn(c, w, pid, w.disk.objects[f.meta.sha], Validated, f.from); } else { MoveInTurn(c, w, End(w, pid), pid); }
  }

  lemma StoredInTurn(c: Config, w: World, pid: nat)
    requires Injective(c) && Inv(c, w) && OrderInv(c, w) && pid in w.fetches && w.fetches[pid].Storing?
    ensures OrderInv(c, Stored(w, pid))
  {
    var f := w.fetches[pid];
    var w' := Stored(w, pid);
    assert InTurn(c, w, f);
    assert w'.log == w.log && w'.served == w.served && w'.source == w.source && w'.disk.metas == w.disk.metas;
    SameLogNotAhead(w, w', f.url, f.from);
    MoveInTurn(c, w, w', pid);
  }

  lemma EndInTurn(c: Config, w: World, pid: nat)
    requires Injective(c) && Inv(c, w) && OrderInv(c, w) && pid in w.fetches
    ensures OrderInv(c, End(w, pid))
  {
    MoveInTurn(c, w, End(w, pid), pid);
  }

  lemma CrashInTurn(c: Config, w: World, pid: nat, midWrite: bool)
    requires Injective(c) && Inv(c, w) && OrderInv(c, w) && pid in w.fetches
    ensures OrderInv(c, Interrupt(c, w, pid, midWrite))
  {
    var f, w' := w.fetches[pid], Interrupt(c, w, pid, midWrite);
    assert FetchOk(c, w, f) && FileInTurn(c, w, f.url);
    if w'.disk == w.disk { MoveInTurn(c, w, w', pid); } else { TurnKeeps(c, w, w', pid, f.url); }
  }

  lemma BeginInTurn(c: Config, w: World, pid: nat, url: string, ok: bool)
    requires Injective(c) && Inv(c, w) && OrderInv(c, w) && pid !in w.fetches && c.uses(url)
    requires forall p | p in w.fetches :: w.fetches[p].url != url
    ensures OrderInv(c, Begin(c, w, pid, url, ok))
  {
    var w' := Begin(c, w, pid, url, ok);
    assert FileInTurn(c, w, url);
    FileKept(c, w, w', url);
    TurnKeeps(c, w, w', pid, url);
  }

  lemma OriginInTurn(c: Config, w: World, w': World)
    requires OrderInv(c, w)
    requires w' == w.(now := w'.now, origin := w'.origin)
    ensures OrderInv(c, w')
  {
    forall u | c.uses(u) ensures FileInTurn(c, w', u) { assert FileInTurn(c, w, u); FileKept(c, w, w', u); }
    forall p | p in w'.fetches ensures InTurn(c, w', w'.fetches[p]) { assert InTurn(c, w, w.fetches[p]); }
  }

  lemma StepInTurn(c: Config, w: World, e: Event)
    requires Injective(c) && Inv(c, w) && OrderInv(c, w) && Permits(ORDERLY, w, e)
    ensures OrderInv(c, Apply(c, w, e))
  {
    match e
    case Tick(_) => OriginInTurn(c, w, Apply(c, w, e));
    case Publish(_, _) => OriginInTurn(c, w, Apply(c, w, e));
    case Withdraw(_) => OriginInTurn(c, w, Apply(c, w, e));
    case Start(pid, url, ok) => if c.uses(url) && pid !in w.fetches { BeginInTurn(c, w, pid, url, ok); }
    case Ask(pid, net) => if pid in w.fetches && w.fetches[pid].Asking? { ReceiveInTurn(c, w, pid, net); }
    case Crash(pid, midWrite) => if pid in w.fetches { CrashInTurn(c, w, pid, midWrite); }
    case ReadHit(pid, ok) => if pid in w.fetches && w.fetches[pid].Hitting? { ReadHitInTurn(c, w, pid, ok); }
    case ReadFallback(pid, ok) => if pid in w.fetches && w.fetches[pid].Falling? { ReadFallbackInTurn(c, w, pid, ok); }
    case ReadAfter304(pid, ok) => if pid in w.fetches && w.fetches[pid].Reusing? { ReadAfter304InTurn(c, w, pid, ok); }
    case WriteObject(pid, ok) => if pid in w.fetches && w.fetches[pid].Storing? { StoredInTurn(c, w, pid); EndInTurn(c, w, pid); }
    case WriteRefresh(pid, outcome) => if pid in w.fetches && w.fetches[pid].Refreshing? { WriteRefreshInTurn(c, w, pid, outcome); }
    case WriteMeta(pid, outcome) => if pid in w.fetches && w.fetches[pid].Recording? { WriteMetaInTurn(c, w, pid, outcome); }
  }

  /** The main result: in an orderly run, later reads of a URL never return an older version. */
  lemma {:induction false} ReadsNeverGoBack(c: Config, events: seq<Event>)
    requires Injective(c) && PermittedRun(ORDERLY, c, EMPTY, events)
    ensures OrderInv(c, Run(c, EMPTY, events)) && ReadsInOrder(Run(c, EMPTY, events))
  {
    if events != [] {
      var before := events[..|events| - 1];
      ReadsNeverGoBack(c, before);
      RunKeeps(c, before);
      StepInTurn(c, Run(c, EMPTY, before), events[|events| - 1]);
    }
  }
}
