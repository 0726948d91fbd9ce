/**
 * The delta reconciliation in `main` of the ingester: fold the index's
 * records into a per-source "first hash seen" map, delete the sources whose
 * files are gone, classify every current document as skipped, created or
 * updated by comparing content hashes, and write the chunks of the created
 * and updated ones in a single `add`.
 */
module Ingest {
  import opened Options
  import Text
  import Ordering
  import Chunking
  import opened Fingerprint
  import opened VectorIndex

  /** A file under `docs/`: its path and its content. */
  datatype Document = Document(path: string, text: string)

  /** The two settings the reconciliation reads: `chunk_size` and `chunk_overlap`. */
  datatype Config = Config(chunkSize: int, chunkOverlap: int)

  /** `chunk_text` with its two settings fixed, as a function of the text. */
  type Chunker = string -> Chunking.ChunkResult

  /** `chunk_text(text, chunk_size=cfg.chunkSize, overlap=cfg.chunkOverlap)`. */
  function ChunkerFor(cfg: Config): Chunker
  {
    t => Chunking.ChunkSpec(t, cfg.chunkSize, cfg.chunkOverlap)
  }

  /** What `main` reports: the totals it prints and the sources it removed. */
  datatype Report = Report(
    filesTotal: nat,
    created: nat,
    updated: nat,
    skipped: nat,
    chunksWritten: nat,
    deletedSources: seq<string>)

  datatype IngestOutcome =
      /** `docs/` has no files: a message, and nothing else happens. */
    | NoDocuments
    | Completed(report: Report)
      /** `chunk_text` raised `ValueError`; it propagates out of `main`. */
    | ChunkingFailed(message: string)

  // ---------------------------------------------------------------------------
  // Aggregation of the existing records
  // ---------------------------------------------------------------------------

  /**
   * The `file_hash` the aggregation keeps for `src`: the hash of the earliest
   * record whose source is `src` and whose hash is truthy, if there is one.
   */
  function FirstHash(ms: seq<Option<Metadata>>, src: string): (r: Option<string>)
    ensures r.Some? ==> r.value != ""
  {
    if ms == [] then None
    else
      var earlier := FirstHash(ms[..|ms| - 1], src);
      if earlier.Some? then earlier
      else if SourceOf(ms[|ms| - 1]) == Some(src) then HashOf(ms[|ms| - 1])
      else None
  }

  /** A kept hash comes from a record of that source. */
  lemma {:induction false} FirstHashWitness(ms: seq<Option<Metadata>>, src: string)
    requires FirstHash(ms, src).Some?
    ensures exists k :: 0 <= k < |ms| && SourceOf(ms[k]) == Some(src) && HashOf(ms[k]) == FirstHash(ms, src)
  {
    var init := ms[..|ms| - 1];
    if FirstHash(init, src).Some? {
      FirstHashWitness(init, src);
      var k :| 0 <= k < |init| && SourceOf(init[k]) == Some(src) && HashOf(init[k]) == FirstHash(init, src);
      assert ms[k] == init[k];
    } else {
      assert SourceOf(ms[|ms| - 1]) == Some(src);
    }
  }

  /** The truthy sources among the metadata. */
  function SourcesIn(ms: seq<Option<Metadata>>): set<string> {
    set k | 0 <= k < |ms| && SourceOf(ms[k]).Some? :: SourceOf(ms[k]).value
  }

  /** `db_sources` after the aggregation loop: each source with a truthy hash, mapped to its first one. */
  function DbSources(ms: seq<Option<Metadata>>): map<string, string> {
    map src | src in SourcesIn(ms) && FirstHash(ms, src).Some? :: FirstHash(ms, src).value
  }

  /** `ids_by_source[src]` after the aggregation loop: the ids of the records of `src`, in order. */
  function IdsOfSource(ids: seq<string>, ms: seq<Option<Metadata>>, src: string): seq<string>
    requires |ids| == |ms|
  {
    if ids == [] then []
    else
      IdsOfSource(ids[..|ids| - 1], ms[..|ms| - 1], src)
      + (if SourceOf(ms[|ms| - 1]) == Some(src) then [ids[|ids| - 1]] else [])
  }

  lemma SourcesInSnoc(ms: seq<Option<Metadata>>, m: Option<Metadata>)
    ensures SourcesIn(ms + [m]) == SourcesIn(ms) + (if SourceOf(m).Some? then {SourceOf(m).value} else {})
  {
    var xs := ms + [m];
    forall s | s in SourcesIn(xs) ensures s in SourcesIn(ms) || SourceOf(m) == Some(s) {
      var k :| 0 <= k < |xs| && SourceOf(xs[k]).Some? && SourceOf(xs[k]).value == s;
      if k < |ms| { assert xs[k] == ms[k]; }
    }
    forall s | s in SourcesIn(ms) ensures s in SourcesIn(xs) {
      var k :| 0 <= k < |ms| && SourceOf(ms[k]).Some? && SourceOf(ms[k]).value == s;
      assert xs[k] == ms[k];
    }
    if SourceOf(m).Some? {
      assert xs[|ms|] == m;
    }
  }

  /** The two maps the aggregation loop fills. */
  datatype Aggregation = Aggregation(dbSources: map<string, string>, idsBySource: map<string, seq<string>>)

  /** The aggregation loop after the records `zip(ids, ms)`, one record at a time. */
  function Aggregated(ids: seq<string>, ms: seq<Option<Metadata>>): Aggregation
    requires |ids| == |ms|
  {
    if ids == [] then Aggregation(map[], map[])
    else
      var a := Aggregated(ids[..|ids| - 1], ms[..|ms| - 1]);
      var m := ms[|ms| - 1];
      if SourceOf(m).None? then a
      else
        var src := SourceOf(m).value;
        var soFar := if src in a.idsBySource then a.idsBySource[src] else [];
        Aggregation(
          if src !in a.dbSources && HashOf(m).Some? then a.dbSources[src := HashOf(m).value] else a.dbSources,
          a.idsBySource[src := soFar + [ids[|ids| - 1]]])
  }

  /** The loop keeps, for each source, exactly its first truthy hash. */
  lemma {:induction false} AggregatedHashes(ids: seq<string>, ms: seq<Option<Metadata>>)
    requires |ids| == |ms|
    ensures var db := Aggregated(ids, ms).dbSources;
      && (forall src :: src in db <==> FirstHash(ms, src).Some?)
      && (forall src :: src in db ==> Some(db[src]) == FirstHash(ms, src))
  {
    if ids != [] {
      AggregatedHashes(ids[..|ids| - 1], ms[..|ms| - 1]);
    }
  }

  /** The loop lists, for each source it saw, all of that source's ids in order. */
  lemma {:induction false} AggregatedIds(ids: seq<string>, ms: seq<Option<Metadata>>)
    requires |ids| == |ms|
    ensures var ib := Aggregated(ids, ms).idsBySource;
      && (forall src :: src in ib <==> src in SourcesIn(ms))
      && (forall src :: src in ib ==> ib[src] == IdsOfSource(ids, ms, src))
  {
    if ids != [] {
      var init, m := ms[..|ms| - 1], ms[|ms| - 1];
      AggregatedIds(ids[..|ids| - 1], init);
      SourcesInSnoc(init, m);
      assert init + [m] == ms;
      if SourceOf(m).Some? && SourceOf(m).value !in SourcesIn(init) {
        IdsOfAbsentSource(ids[..|ids| - 1], init, SourceOf(m).value);
      }
    }
  }

  /** A source that no record carries has no ids. */
  lemma {:induction false} IdsOfAbsentSource(ids: seq<string>, ms: seq<Option<Metadata>>, src: string)
    requires |ids| == |ms| && src !in SourcesIn(ms)
    ensures IdsOfSource(ids, ms, src) == []
  {
    if ids != [] {
      var init := ms[..|ms| - 1];
      SourcesInSnoc(init, ms[|ms| - 1]);
      assert init + [ms[|ms| - 1]] == ms;
      IdsOfAbsentSource(ids[..|ids| - 1], init, src);
    }
  }

  /**
   * The loop over `zip(existing_ids, existing_metas)`: skip records whose
   * metadata or source is falsy, append every other id to its source's list,
   * and keep the first truthy hash of each source.
   */
  method Aggregate(ids: seq<string>, metas: seq<Option<Metadata>>)
    returns (dbSources: map<string, string>, idsBySource: map<string, seq<string>>)
    ensures var n := Text.Min(|ids|, |metas|);
      && (forall src :: src in dbSources <==> FirstHash(metas[..n], src).Some?)
      && (forall src :: src in dbSources ==> Some(dbSources[src]) == FirstHash(metas[..n], src))
      && (forall src :: src in idsBySource <==> src in SourcesIn(metas[..n]))
      && (forall src :: src in idsBySource ==> idsBySource[src] == IdsOfSource(ids[..n], metas[..n], src))
  {
    var n := Text.Min(|ids|, |metas|);
    dbSources := map[];
    idsBySource := map[];
    for k := 0 to n
      invariant Aggregation(dbSources, idsBySource) == Aggregated(ids[..k], metas[..k])
    {
      var meta := metas[k];
      assert ids[..k + 1][..k] == ids[..k] && metas[..k + 1][..k] == metas[..k];
      if meta.Some? && meta.value.source.Some? && meta.value.source.value != "" {
        var src := meta.value.source.value;
        var soFar := if src in idsBySource then idsBySource[src] else [];
        idsBySource := idsBySource[src := soFar + [ids[k]]];
        if src !in dbSources && meta.value.fileHash.Some? && meta.value.fileHash.value != "" {
          dbSources := dbSources[src := meta.value.fileHash.value];
        }
      }
    }
    AggregatedHashes(ids[..n], metas[..n]);
    AggregatedIds(ids[..n], metas[..n]);
  }

  /** Aggregating all the index's metadata gives `DbSources` of it. */
  lemma AggregateIsDbSources(ms: seq<Option<Metadata>>, dbSources: map<string, string>)
    requires forall src :: src in dbSources <==> FirstHash(ms, src).Some?
    requires forall src :: src in dbSources ==> Some(dbSources[src]) == FirstHash(ms, src)
    ensures dbSources == DbSources(ms)
  {
    forall src | FirstHash(ms, src).Some? ensures src in SourcesIn(ms) {
      FirstHashWitness(ms, src);
      var k :| 0 <= k < |ms| && SourceOf(ms[k]) == Some(src) && HashOf(ms[k]) == FirstHash(ms, src);
    }
  }

  // ---------------------------------------------------------------------------
  // Classification of the current documents
  // ---------------------------------------------------------------------------

  /** `current_paths`. */
  function PathsOf(docs: seq<Document>): set<string> {
    set d | d in docs :: d.path
  }

  /** `db_sources.get(path, {}).get("file_hash")`. */
  function PreviousHash(db: map<string, string>, path: string): Option<string> {
    if path in db then Some(db[path]) else None
  }

  datatype Action = Skip | Create | Update

  /** Skip when the stored hash equals the current one, create when there is none, update otherwise. */
  function ActionFor(db: map<string, string>, sha: Sha256, d: Document): Action {
    var prev := PreviousHash(db, d.path);
    if prev == Some(ContentHash(sha, d.text)) then Skip
    else if prev.None? then Create
    else Update
  }

  /** The ids `f"{base}:{i}"` of a document's `n` chunks, for `i` from 0. */
  function ChunkIds(base: string, n: nat): (ids: seq<string>)
    ensures |ids| == n
    ensures forall i :: 0 <= i < n ==> ids[i] == base + ":" + Text.NatToString(i)
  {
    if n == 0 then [] else ChunkIds(base, n - 1) + [base + ":" + Text.NatToString(n - 1)]
  }

  /**
   * Chunk ids are unique as long as the bases are: two ids built from bases of
   * the same length (every `stable_source_id` has 16 characters) are equal
   * only when they name the same chunk of the same base.
   */
  lemma ChunkIdsDistinct(a: string, m: nat, i: nat, b: string, n: nat, j: nat)
    requires |a| == |b| && i < m && j < n
    requires a != b || i != j
    ensures ChunkIds(a, m)[i] != ChunkIds(b, n)[j]
  {
    var x, y := ChunkIds(a, m)[i], ChunkIds(b, n)[j];
    if a != b {
      var k :| 0 <= k < |a| && a[k] != b[k];
      assert x[k] == a[k] && y[k] == b[k];
    } else if x == y {
      assert x[|a| + 1..] == Text.NatToString(i);
      assert y[|b| + 1..] == Text.NatToString(j);
      Text.NatToStringInjective(i, j);
    }
  }

  /** The metadata `{"source": path, "chunk": i, "file_hash": hash}` of a document's `n` chunks. */
  function ChunkMetas(path: string, hash: string, n: nat): (ms: seq<Option<Metadata>>)
    ensures |ms| == n
    ensures forall i :: 0 <= i < n ==> ms[i] == Some(Metadata(Some(path), Some(i), Some(hash)))
  {
    if n == 0 then [] else ChunkMetas(path, hash, n - 1) + [Some(Metadata(Some(path), Some(n - 1), Some(hash)))]
  }

  /**
   * The state of the loop over the current documents: the three counters, the
   * paths it deleted for an update, the three `add` lists, and the message of
   * the `ValueError` that stopped it, if one did.
   */
  datatype Pass = Pass(
    created: nat,
    updated: nat,
    skipped: nat,
    rewritten: seq<string>,
    ids: seq<string>,
    texts: seq<string>,
    metas: seq<Option<Metadata>>,
    failed: Option<string>)

  const EmptyPass := Pass(0, 0, 0, [], [], [], [], None)

  /** One iteration of the loop over the current documents. */
  function Step(db: map<string, string>, chunk: Chunker, sha: Sha256, p: Pass, d: Document): (r: Pass)
    ensures r.rewritten == p.rewritten + (if p.failed.None? && ActionFor(db, sha, d) == Update then [d.path] else [])
  {
    if p.failed.Some? then p
    else
      match ActionFor(db, sha, d)
      case Skip => p.(skipped := p.skipped + 1)
      case Create => Rewrite(chunk, sha, p.(created := p.created + 1), d)
      case Update => Rewrite(chunk, sha, p.(updated := p.updated + 1, rewritten := p.rewritten + [d.path]), d)
  }

  /** Chunk a created or updated document and queue its chunks for the `add`. */
  function Rewrite(chunk: Chunker, sha: Sha256, p: Pass, d: Document): (r: Pass)
    ensures r.rewritten == p.rewritten
  {
    match chunk(d.text)
    case InvalidConfiguration(msg) => p.(failed := Some(msg))
    case Chunks(cs) =>
      var hash := ContentHash(sha, d.text);
      p.(ids := p.ids + ChunkIds(StableSourceId(sha, d.path), |cs|),
         texts := p.texts + cs,
         metas := p.metas + ChunkMetas(d.path, hash, |cs|))
  }

  /**
   * The loop over all current documents. The three `add` lists stay the same
   * length, and when no document stopped it, every document is counted exactly
   * once: `created + updated + skipped == files_total`.
   */
  function Classify(db: map<string, string>, chunk: Chunker, sha: Sha256, docs: seq<Document>): (r: Pass)
    ensures |r.ids| == |r.texts| == |r.metas|
    ensures r.failed.None? ==> r.created + r.updated + r.skipped == |docs|
    ensures r.created + r.updated + r.skipped <= |docs|
  {
    if docs == [] then EmptyPass
    else Step(db, chunk, sha, Classify(db, chunk, sha, docs[..|docs| - 1]), docs[|docs| - 1])
  }

  /** Once a document has stopped the loop, the later ones change nothing. */
  lemma {:induction false} ClassifyStopsAtFailure(db: map<string, string>, chunk: Chunker, sha: Sha256, docs: seq<Document>, k: nat)
    requires k <= |docs| && Classify(db, chunk, sha, docs[..k]).failed.Some?
    ensures Classify(db, chunk, sha, docs) == Classify(db, chunk, sha, docs[..k])
    decreases |docs|
  {
    if k < |docs| {
      var init := docs[..|docs| - 1];
      assert init[..k] == docs[..k];
      ClassifyStopsAtFailure(db, chunk, sha, init, k);
    } else {
      assert docs[..k] == docs;
    }
  }

  // ---------------------------------------------------------------------------
  // The whole reconciliation
  // ---------------------------------------------------------------------------

  /** One `delete(where={"source": s})` per source, in order. */
  function DeleteOps(sources: seq<string>): (ops: seq<IndexOp>)
    ensures |ops| == |sources|
    ensures forall i {:trigger ops[i]} :: 0 <= i < |sources| ==> ops[i] == DeleteSource(sources[i])
  {
    if sources == [] then []
    else DeleteOps(sources[..|sources| - 1]) + [DeleteSource(sources[|sources| - 1])]
  }

  lemma DeleteOpsSnoc(sources: seq<string>, s: string)
    ensures DeleteOps(sources + [s]) == DeleteOps(sources) + [DeleteSource(s)]
  {
    assert (sources + [s])[..|sources|] == sources;
  }

  /** `deleted_sources`: the indexed sources with no current file, sorted. */
  ghost function DeletedSources(db: map<string, string>, docs: seq<Document>): seq<string> {
    Ordering.SortedOf(db.Keys - PathsOf(docs))
  }

  /** The final `add`, made only when there is something to add. */
  function AddOps(p: Pass, embed: seq<string> -> seq<Vector>): (ops: seq<IndexOp>)
    requires |p.ids| == |p.texts| == |p.metas| == |embed(p.texts)|
    ensures ops != [] <==> p.failed.None? && p.texts != []
    ensures |ops| <= 1 && forall k :: 0 <= k < |ops| ==> ops[k].AddRecords?
  {
    if p.failed.None? && p.texts != [] then [AddRecords(BuildRecords(p.ids, p.texts, p.metas, embed(p.texts)))]
    else []
  }

  /** Every call the reconciliation makes on an index holding `records`, in order. */
  ghost function PlannedOps(records: seq<Record>, docs: seq<Document>, chunk: Chunker, sha: Sha256,
                            embed: seq<string> -> seq<Vector>): seq<IndexOp>
    requires forall ts :: |embed(ts)| == |ts|
  {
    if docs == [] then []
    else
      var db := DbSources(MetasOf(records));
      var pass := Classify(db, chunk, sha, docs);
      [ReadAll] + DeleteOps(DeletedSources(db, docs)) + DeleteOps(pass.rewritten) + AddOps(pass, embed)
  }

  /** What the reconciliation reports for an index holding `records`. */
  ghost function PlannedOutcome(records: seq<Record>, docs: seq<Document>, chunk: Chunker, sha: Sha256): IngestOutcome {
    if docs == [] then NoDocuments
    else
      var db := DbSources(MetasOf(records));
      var pass := Classify(db, chunk, sha, docs);
      if pass.failed.Some? then ChunkingFailed(pass.failed.value)
      else Completed(Report(|docs|, pass.created, pass.updated, pass.skipped, |pass.texts|, DeletedSources(db, docs)))
  }

  /** `col.delete(where={"source": path})`, extending a run of such deletes. */
  method DeleteNext(col: Collection, ghost done: seq<string>, path: string, ghost logBase: seq<IndexOp>)
    requires col.Valid() && col.log == logBase + DeleteOps(done)
    modifies col
    ensures col.Valid() && col.initial == old(col.initial)
    ensures col.records == WithoutSource(old(col.records), path)
    ensures col.log == logBase + DeleteOps(done + [path])
  {
    col.DeleteBySource(path);
    DeleteOpsSnoc(done, path);
  }

  /** The `for src in deleted_sources` loop: one delete per source, in order. */
  method DeleteSources(col: Collection, sources: seq<string>)
    requires col.Valid()
    modifies col
    ensures col.Valid() && col.initial == old(col.initial)
    ensures col.records == ApplyOps(old(col.records), DeleteOps(sources))
    ensures col.log == old(col.log) + DeleteOps(sources)
  {
    ghost var log0 := col.log;
    ghost var done: seq<string> := [];
    for k := 0 to |sources|
      invariant col.Valid() && col.initial == old(col.initial)
      invariant done == sources[..k]
      invariant col.log == log0 + DeleteOps(done)
    {
      DeleteNext(col, done, sources[k], log0);
      done := done + [sources[k]];
    }
    assert done == sources;
    ApplyOpsAppend(col.initial, log0, DeleteOps(sources));
  }

  /** The `for i, c in enumerate(chunks)` loop: queue each chunk with its id and metadata. */
  method QueueChunks(ids: seq<string>, texts: seq<string>, metas: seq<Option<Metadata>>,
                     base: string, path: string, hash: string, chunks: seq<string>)
    returns (ids': seq<string>, texts': seq<string>, metas': seq<Option<Metadata>>)
    ensures ids' == ids + ChunkIds(base, |chunks|)
    ensures texts' == texts + chunks
    ensures metas' == metas + ChunkMetas(path, hash, |chunks|)
  {
    ids', texts', metas' := ids, texts, metas;
    for i := 0 to |chunks|
      invariant ids' == ids + ChunkIds(base, i)
      invariant texts' == texts + chunks[..i]
      invariant metas' == metas + ChunkMetas(path, hash, i)
    {
      ids' := ids' + [base + ":" + Text.NatToString(i)];
      texts' := texts' + [chunks[i]];
      metas' := metas' + [Some(Metadata(Some(path), Some(i), Some(hash)))];
    }
    assert chunks[..|chunks|] == chunks;
  }

  /**
   * One iteration of the `for path, text in current_docs` loop: skip a
   * document whose hash is unchanged; otherwise count it as created or
   * updated, delete an updated document's old records at once, and queue its
   * chunks, unless `chunk_text` raises.
   */
  method ProcessDocument(col: Collection, db: map<string, string>, cfg: Config, sha: Sha256, before: Pass, d: Document,
                         ghost logBase: seq<IndexOp>)
    returns (after: Pass)
    requires col.Valid() && before.failed.None?
    requires col.log == logBase + DeleteOps(before.rewritten)
    modifies col
    ensures col.Valid() && col.initial == old(col.initial)
    ensures ActionFor(db, sha, d) == Update ==> col.records == WithoutSource(old(col.records), d.path)
    ensures ActionFor(db, sha, d) != Update ==> col.records == old(col.records)
    ensures after == Step(db, ChunkerFor(cfg), sha, before, d)
    ensures col.log == logBase + DeleteOps(after.rewritten)
  {
    match ActionFor(db, sha, d) {
      case Skip =>
        return before.(skipped := before.skipped + 1);
      case Create =>
        after := before.(created := before.created + 1);
      case Update =>
        after := before.(updated := before.updated + 1, rewritten := before.rewritten + [d.path]);
        DeleteNext(col, before.rewritten, d.path, logBase);
    }
    after := ChunkDocument(cfg, sha, after, d);
  }

  /** Chunk a created or updated document and queue its chunks, or record the `ValueError`. */
  method ChunkDocument(cfg: Config, sha: Sha256, before: Pass, d: Document) returns (after: Pass)
    ensures after == Rewrite(ChunkerFor(cfg), sha, before, d)
    ensures after.rewritten == before.rewritten
  {
    var chunked := Chunking.ChunkText(d.text, cfg.chunkSize, cfg.chunkOverlap);
    if chunked.InvalidConfiguration? {
      return before.(failed := Some(chunked.message));
    }
    var fileHash := ContentHash(sha, d.text);
    var base := StableSourceId(sha, d.path);
    var ids, texts, metas := QueueChunks(before.ids, before.texts, before.metas, base, d.path, fileHash, chunked.chunks);
    after := before.(ids := ids, texts := texts, metas := metas);
  }

  /**
   * The `for path, text in current_docs` loop, with its counters and `add`
   * lists kept in a `Pass`. A `ValueError` from `chunk_text` ends the loop with
   * its message in `failed`.
   */
  method ClassifyDocuments(col: Collection, db: map<string, string>, docs: seq<Document>, cfg: Config, sha: Sha256)
    returns (pass: Pass)
    requires col.Valid()
    modifies col
    ensures col.Valid() && col.initial == old(col.initial)
    ensures col.records == ApplyOps(old(col.records), DeleteOps(pass.rewritten))
    ensures pass == Classify(db, ChunkerFor(cfg), sha, docs)
    ensures col.log == old(col.log) + DeleteOps(pass.rewritten)
  {
    pass := EmptyPass;
    for k := 0 to |docs|
      invariant col.Valid() && col.initial == old(col.initial)
      invariant pass == Classify(db, ChunkerFor(cfg), sha, docs[..k]) && pass.failed.None?
      invariant col.log == old(col.log) + DeleteOps(pass.rewritten)
    {
      assert docs[..k + 1][..k] == docs[..k] && docs[..k + 1][k] == docs[k];
      pass := ProcessDocument(col, db, cfg, sha, pass, docs[k], old(col.log));
      if pass.failed.Some? {
        ClassifyStopsAtFailure(db, ChunkerFor(cfg), sha, docs, k + 1);
        ApplyOpsAppend(col.initial, old(col.log), DeleteOps(pass.rewritten));
        return;
      }
    }
    assert docs[..|docs|] == docs;
    ApplyOpsAppend(col.initial, old(col.log), DeleteOps(pass.rewritten));
  }

  lemma Regroup(log: seq<IndexOp>, a: seq<IndexOp>, b: seq<IndexOp>, c: seq<IndexOp>, d: seq<IndexOp>)
    ensures log + a + b + c + d == log + (a + b + c + d)
  {
  }

  /**
   * `main` after `read_docs()`: `docs` are the current files, `sha` is SHA-256
   * and `embed` the embedding call. It makes exactly the planned calls on the
   * collection and reports the planned outcome; with no documents it does not
   * touch the collection at all.
   */
  method Ingest(col: Collection, docs: seq<Document>, cfg: Config, sha: Sha256, embed: seq<string> -> seq<Vector>)
    returns (outcome: IngestOutcome)
    requires col.Valid()
    requires forall ts :: |embed(ts)| == |ts|
    modifies col
    ensures col.Valid() && col.initial == old(col.initial)
    ensures col.records == ApplyOps(old(col.records), PlannedOps(old(col.records), docs, ChunkerFor(cfg), sha, embed))
    ensures col.log == old(col.log) + PlannedOps(old(col.records), docs, ChunkerFor(cfg), sha, embed)
    ensures outcome == PlannedOutcome(old(col.records), docs, ChunkerFor(cfg), sha)
    ensures docs == [] ==> outcome == NoDocuments && col.log == old(col.log) && col.records == old(col.records)
  {
    if docs == [] {
      return NoDocuments;
    }
    ghost var log0 := col.log;
    ghost var records0 := col.records;

    var ids, metas := col.Get();
    var dbSources, idsBySource := Aggregate(ids, metas);
    assert metas[..Text.Min(|ids|, |metas|)] == MetasOf(records0);
    AggregateIsDbSources(MetasOf(records0), dbSources);

    var paths := set d | d in docs :: d.path;
    var deleted := Ordering.SortStrings(dbSources.Keys - paths);
    Ordering.SortedUnique(deleted, DeletedSources(dbSources, docs));
    DeleteSources(col, deleted);

    var pass := ClassifyDocuments(col, dbSources, docs, cfg, sha);
    Regroup(log0, [ReadAll], DeleteOps(deleted), DeleteOps(pass.rewritten), AddOps(pass, embed));
    if pass.failed.None? && pass.texts != [] {
      var vectors := embed(pass.texts);
      col.Add(pass.ids, pass.texts, pass.metas, vectors);
    }
    ghost var planned := PlannedOps(records0, docs, ChunkerFor(cfg), sha, embed);
    assert col.log == log0 + planned;
    ApplyOpsAppend(col.initial, log0, planned);
    if pass.failed.Some? {
      return ChunkingFailed(pass.failed.value);
    }
    return Completed(Report(|docs|, pass.created, pass.updated, pass.skipped, |pass.texts|, deleted));
  }
}
