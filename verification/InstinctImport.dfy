// Importing a bundle of instincts into the local store (internal/cli/instinct.go), with dedup by id and by body hash.

module InstinctImport {
  import opened Digests
  import opened InstinctFormat
  import opened Wrappers
  import Text
  import Ulid

  /** The fields that Validate looks at; capturedAt is None for the zero time. */
  datatype Instinct = Instinct(id: string, title: string, confidence: real, domain: string, capturedBy: string,
                               capturedAt: Option<int>, body: string)

  predicate Valid(i: Instinct)
  {
    && Ulid.IsUlid(i.id) && Text.TrimSpace(i.title) != "" && |i.title| <= 120 && 0.0 <= i.confidence <= 1.0
    && Text.TrimSpace(i.domain) != "" && Text.TrimSpace(i.capturedBy) != "" && i.capturedAt.Some?
    && Text.TrimSpace(i.body) != ""
  }

  function Hash(i: Instinct): Digest
  {
    BodyHashOf(i.body)
  }

  /** What reading the file of a written instinct gives. */
  function Stored(i: Instinct): Instinct
  {
    i.(body := Reread(i.body))
  }

  /** What the import asks of an item, and what reading its file back gives. */
  datatype Rules = Rules(valid: Instinct -> bool, hash: Instinct -> Digest, stored: Instinct -> Instinct)

  const PROGRAM := Rules(Valid, Hash, Stored)

  /** An item read back from its file has the hash it was imported with. */
  ghost predicate HashesSurvive(r: Rules)
  {
    forall i: Instinct :: r.hash(r.stored(i)) == r.hash(i)
  }

  lemma ProgramHashesSurvive()
    ensures HashesSurvive(PROGRAM)
  {
    forall i: Instinct ensures PROGRAM.hash(PROGRAM.stored(i)) == PROGRAM.hash(i) { HashSurvives(i.body); }
  }

  /** The store: what each <id>.yaml reads as. */
  type Files = map<string, Instinct>

  ghost predicate Knows(r: Rules, local: Files, h: Digest)
  {
    exists id :: id in local && r.hash(local[id]) == h
  }

  datatype Verdict = Malformed | Duplicate | Conflict | New

  /** What the loop decides about one item, from the store as it was when the import began. */
  ghost function Judge(r: Rules, local: Files, i: Instinct): Verdict
  {
    if !r.valid(i) then Malformed
    else if i.id in local then if r.hash(local[i.id]) == r.hash(i) then Duplicate else Conflict
    else if Knows(r, local, r.hash(i)) then Duplicate
    else New
  }

  datatype Counts = Counts(imported: nat, duplicates: nat, malformed: nat)
  datatype Outcome = Done(files: Files, counts: Counts) | Stopped(files: Files, id: string)

  function Bump(c: Counts, v: Verdict): Counts
  {
    match v
    case Malformed => c.(malformed := c.malformed + 1)
    case New => c.(imported := c.imported + 1)
    case _ => c.(duplicates := c.duplicates + 1)
  }

  ghost function Advance(r: Rules, o: Outcome, v: Verdict, i: Instinct, dryRun: bool): Outcome
  {
    match o
    case Stopped(_, _) => o
    case Done(files, counts) =>
      if v == Conflict then Stopped(files, i.id)
      else Done(if v == New && !dryRun then files[i.id := r.stored(i)] else files, Bump(counts, v))
  }

  /** The first n items. The laws below hold whatever counts as valid. */
  ghost function Imported(r: Rules, local: Files, items: seq<Instinct>, dryRun: bool, n: nat): Outcome
    requires n <= |items|
  {
    if n == 0 then Done(local, Counts(0, 0, 0))
    else Advance(r, Imported(r, local, items, dryRun, n - 1), Judge(r, local, items[n - 1]), items[n - 1], dryRun)
  }

  class Store {
    var files: Files

    constructor ()
      ensures files == map[]
    {
      files := map[];
    }

    method ReadIndex(r: Rules) returns (localHashes: map<Digest, string>, localIDs: Files)
      ensures localIDs == files
      ensures forall h :: h in localHashes <==> Knows(r, files, h)
    {
      localHashes, localIDs := map[], map[];
      var todo := files.Keys;
      while todo != {}
        invariant todo <= files.Keys && localIDs.Keys == files.Keys - todo
        invariant forall id | id in localIDs :: localIDs[id] == files[id]
        invariant forall h :: h in localHashes <==> Knows(r, localIDs, h)
        decreases todo
      {
        var id :| id in todo;
        var l := files[id];
        IndexStep(r, localIDs, id, l);
        localHashes := localHashes[r.hash(l) := id];
        localIDs := localIDs[id := l];
        todo := todo - {id};
      }
    }

    /** The import command: counts, or the id in conflict; what was written before a conflict stays. */
    method Import(items: seq<Instinct>, dryRun: bool) returns (o: Outcome)
      modifies this
      ensures o == Imported(PROGRAM, old(files), items, dryRun, |items|)
      ensures files == o.files
    {
      o := ImportBy(PROGRAM, items, dryRun);
    }

    method ImportBy(r: Rules, items: seq<Instinct>, dryRun: bool) returns (o: Outcome)
      modifies this
      ensures o == Imported(r, old(files), items, dryRun, |items|)
      ensures files == o.files
    {
      ghost var local := files;
      var localHashes, localIDs := ReadIndex(r);
      var imported, duplicates, malformed := 0, 0, 0;
      for n := 0 to |items|
        invariant localIDs == local && forall h :: h in localHashes <==> Knows(r, local, h)
        invariant Imported(r, local, items, dryRun, n) == Done(files, Counts(imported, duplicates, malformed))
      {
        var i := items[n];
        if !r.valid(i) {
          malformed := malformed + 1;
          continue;
        }
        if i.id in localIDs {
          if r.hash(localIDs[i.id]) == r.hash(i) {
            duplicates := duplicates + 1;
            continue;
          }
          StaysStopped(r, local, items, dryRun, n + 1, |items|);
          return Stopped(files, i.id);
        }
        if r.hash(i) in localHashes {
          duplicates := duplicates + 1;
          continue;
        }
        if dryRun {
          imported := imported + 1;
          continue;
        }
        files := files[i.id := r.stored(i)];
        imported := imported + 1;
      }
      return Done(files, Counts(imported, duplicates, malformed));
    }
  }

  lemma IndexStep(r: Rules, index: Files, id: string, l: Instinct)
    requires id !in index
    ensures forall h :: Knows(r, index[id := l], h) <==> Knows(r, index, h) || h == r.hash(l)
  {
    var more := index[id := l];
    assert id in more && more[id] == l;
    forall h | Knows(r, index, h) ensures Knows(r, more, h) {
      var x :| x in index && r.hash(index[x]) == h;
      assert x in more && more[x] == index[x];
    }
  }

  // ---------------------------------------------------------------- laws

  lemma {:induction false} StaysStopped(r: Rules, local: Files, items: seq<Instinct>, dryRun: bool, n: nat, m: nat)
    requires n <= m <= |items| && Imported(r, local, items, dryRun, n).Stopped?
    ensures Imported(r, local, items, dryRun, m) == Imported(r, local, items, dryRun, n)
    decreases m
  {
    if n < m { StaysStopped(r, local, items, dryRun, n, m - 1); }
  }

  /** An import ends well exactly when no item is in conflict, and then every item has been counted once. */
  lemma {:induction false} EndsWellIff(r: Rules, local: Files, items: seq<Instinct>, dryRun: bool, n: nat)
    requires n <= |items|
    ensures var o := Imported(r, local, items, dryRun, n);
      && (o.Done? <==> forall k | 0 <= k < n :: Judge(r, local, items[k]) != Conflict)
      && (o.Done? ==> o.counts.imported + o.counts.duplicates + o.counts.malformed == n)
  {
    if n > 0 { EndsWellIff(r, local, items, dryRun, n - 1); }
  }

  /** A dry run reports what the real run would, and writes nothing. */
  lemma {:induction false} DryRunPredicts(r: Rules, local: Files, items: seq<Instinct>, n: nat)
    requires n <= |items|
    ensures var dry, wet := Imported(r, local, items, true, n), Imported(r, local, items, false, n);
      && dry.files == local
      && match dry
         case Done(_, counts) => wet.Done? && wet.counts == counts
         case Stopped(_, id) => wet.Stopped? && wet.id == id
  {
    if n > 0 { DryRunPredicts(r, local, items, n - 1); }
  }

  /** Nothing in the store is lost or changed. */
  lemma {:induction false} StoreGrows(r: Rules, local: Files, items: seq<Instinct>, n: nat, id: string)
    requires n <= |items| && id in local
    ensures var f := Imported(r, local, items, false, n).files; id in f && f[id] == local[id]
  {
    if n > 0 { StoreGrows(r, local, items, n - 1, id); }
  }

  /** Which of the first n items was the last new one under this id. */
  ghost predicate LastNew(r: Rules, local: Files, items: seq<Instinct>, n: nat, id: string, k: nat)
    requires n <= |items|
  {
    && k < n && items[k].id == id && Judge(r, local, items[k]) == New
    && forall j | k < j < n :: !(items[j].id == id && Judge(r, local, items[j]) == New)
  }

  /** What an import leaves under an id that was not in the store: the last new item of that id, or no file. */
  lemma {:induction false} FileAfter(r: Rules, local: Files, items: seq<Instinct>, n: nat, id: string)
    requires n <= |items| && id !in local && Imported(r, local, items, false, n).Done?
    ensures var f := Imported(r, local, items, false, n).files;
      && (id in f ==> exists k: nat :: LastNew(r, local, items, n, id, k) && f[id] == r.stored(items[k]))
      && (id !in f ==> forall k | 0 <= k < n :: !(items[k].id == id && Judge(r, local, items[k]) == New))
  {
    if n > 0 {
      FileAfter(r, local, items, n - 1, id);
      var before, f := Imported(r, local, items, false, n - 1).files, Imported(r, local, items, false, n).files;
      if items[n - 1].id == id && Judge(r, local, items[n - 1]) == New {
        assert LastNew(r, local, items, n, id, n - 1);
      } else if id in before {
        var k: nat :| LastNew(r, local, items, n - 1, id, k) && before[id] == r.stored(items[k]);
        assert LastNew(r, local, items, n, id, k);
      }
    }
  }

  /** Every valid item under the id of a new one has that one's body. It can be checked before anything is imported. */
  ghost predicate OneBodyPerNewId(r: Rules, local: Files, items: seq<Instinct>)
  {
    forall j, k | 0 <= j < |items| && 0 <= k < |items| && r.valid(items[j]) && Judge(r, local, items[k]) == New
        && items[j].id == items[k].id ::
      r.hash(items[j]) == r.hash(items[k])
  }

  /** A valid item that is met again after the import is a duplicate, unless another body is stored under its id. */
  lemma JudgedAgain(r: Rules, local: Files, items: seq<Instinct>, j: nat)
    requires HashesSurvive(r) && j < |items| && Imported(r, local, items, false, |items|).Done?
    ensures var i, f := items[j], Imported(r, local, items, false, |items|).files;
      Judge(r, f, i) == if !r.valid(i) then Malformed
        else if i.id in f && r.hash(f[i.id]) != r.hash(i) then Conflict
        else Duplicate
  {
    var i, f := items[j], Imported(r, local, items, false, |items|).files;
    EndsWellIff(r, local, items, false, |items|);
    if r.valid(i) {
      if i.id in local {
        StoreGrows(r, local, items, |items|, i.id);
      } else {
        FileAfter(r, local, items, |items|, i.id);
        if i.id !in f {
          var id :| id in local && r.hash(local[id]) == r.hash(i);
          StoreGrows(r, local, items, |items|, id);
          assert Knows(r, f, r.hash(i));
        }
      }
    }
  }

  /** Whatever the second import meets, it writes nothing; while it runs well it finds duplicates and malformed items only. */
  lemma {:induction false} ReimportAddsNothing(r: Rules, local: Files, items: seq<Instinct>, n: nat)
    requires HashesSurvive(r) && n <= |items| && Imported(r, local, items, false, |items|).Done?
    ensures var f := Imported(r, local, items, false, |items|).files;
      var first, again := Imported(r, local, items, false, n), Imported(r, f, items, false, n);
      && first.Done? && again.files == f
      && (again.Done? ==> again.counts == Counts(0, first.counts.imported + first.counts.duplicates, first.counts.malformed))
  {
    EndsWellIff(r, local, items, false, |items|);
    EndsWellIff(r, local, items, false, n);
    if n > 0 {
      ReimportAddsNothing(r, local, items, n - 1);
      JudgedAgain(r, local, items, n - 1);
    }
  }

  /** After a first import that ended well, a second one of the same bundle ends well exactly when no new id came with two bodies. */
  lemma ReimportEndsWellIff(r: Rules, local: Files, items: seq<Instinct>)
    requires HashesSurvive(r) && Imported(r, local, items, false, |items|).Done?
    ensures var f := Imported(r, local, items, false, |items|).files;
      Imported(r, f, items, false, |items|).Done? <==> OneBodyPerNewId(r, local, items)
  {
    var n, f := |items|, Imported(r, local, items, false, |items|).files;
    EndsWellIff(r, local, items, false, n);
    EndsWellIff(r, f, items, false, n);
    if OneBodyPerNewId(r, local, items) {
      forall j | 0 <= j < n ensures Judge(r, f, items[j]) != Conflict { OneBodyIsKept(r, local, items, j); }
    } else {
      var j, k :| 0 <= j < n && 0 <= k < n && r.valid(items[j]) && Judge(r, local, items[k]) == New
        && items[j].id == items[k].id && r.hash(items[j]) != r.hash(items[k]);
      TwoBodiesConflict(r, local, items, j, k);
    }
  }

  lemma OneBodyIsKept(r: Rules, local: Files, items: seq<Instinct>, j: nat)
    requires HashesSurvive(r) && Imported(r, local, items, false, |items|).Done? && j < |items| && OneBodyPerNewId(r, local, items)
    ensures Judge(r, Imported(r, local, items, false, |items|).files, items[j]) != Conflict
  {
    var i, f := items[j], Imported(r, local, items, false, |items|).files;
    JudgedAgain(r, local, items, j);
    if r.valid(i) && i.id in f {
      EndsWellIff(r, local, items, false, |items|);
      if i.id in local { StoreGrows(r, local, items, |items|, i.id); } else { FileAfter(r, local, items, |items|, i.id); }
    }
  }

  /** One of the two is not what is stored. */
  lemma TwoBodiesConflict(r: Rules, local: Files, items: seq<Instinct>, j: nat, k: nat)
    requires HashesSurvive(r) && Imported(r, local, items, false, |items|).Done? && j < |items| && k < |items|
    requires r.valid(items[j]) && Judge(r, local, items[k]) == New
    requires items[j].id == items[k].id && r.hash(items[j]) != r.hash(items[k])
    ensures var f := Imported(r, local, items, false, |items|).files;
      Judge(r, f, items[j]) == Conflict || Judge(r, f, items[k]) == Conflict
  {
    FileAfter(r, local, items, |items|, items[k].id);
    JudgedAgain(r, local, items, j);
    JudgedAgain(r, local, items, k);
  }

  /** So it is for the import command, with its own validity and body hashes. */
  lemma BundleReimportIff(local: Files, items: seq<Instinct>)
    requires Imported(PROGRAM, local, items, false, |items|).Done?
    ensures var f := Imported(PROGRAM, local, items, false, |items|).files;
      var again := Imported(PROGRAM, f, items, false, |items|);
      && (again.Done? <==> OneBodyPerNewId(PROGRAM, local, items))
      && again.files == f && (again.Done? ==> again.counts.imported == 0)
  {
    ProgramHashesSurvive();
    ReimportEndsWellIff(PROGRAM, local, items);
    ReimportAddsNothing(PROGRAM, local, items, |items|);
  }

  /** Two items under one id: the first import takes both and keeps the last, the second stops at the first of them. */
  lemma RepeatedIdStops(r: Rules, local: Files, a: Instinct, b: Instinct)
    requires HashesSurvive(r) && Judge(r, local, a) == New && Judge(r, local, b) == New && a.id == b.id && r.hash(a) != r.hash(b)
    ensures var first := Imported(r, local, [a, b], false, 2);
      && first == Done(local[a.id := r.stored(b)], Counts(2, 0, 0))
      && Imported(r, first.files, [a, b], false, 2) == Stopped(first.files, a.id)
  {
    var f := local[a.id := r.stored(b)];
    assert local[a.id := r.stored(a)][a.id := r.stored(b)] == f;
    TwoItems(r, local, a, b);
    TwoItems(r, f, a, b);
    assert Judge(r, f, a) == Conflict;
  }

  lemma TwoItems(r: Rules, local: Files, a: Instinct, b: Instinct)
    ensures Imported(r, local, [a, b], false, 2)
      == Advance(r, Advance(r, Done(local, Counts(0, 0, 0)), Judge(r, local, a), a, false), Judge(r, local, b), b, false)
  {
    assert Imported(r, local, [a, b], false, 0) == Done(local, Counts(0, 0, 0));
  }
}
