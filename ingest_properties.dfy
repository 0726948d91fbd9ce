/**
 * What the reconciliation guarantees: which hash the aggregation keeps, what
 * deletes and appends do to it, how the documents are classified, which
 * sources can be deleted, in what order the index is changed, and that a
 * second pass over unchanged documents changes nothing.
 */
module IngestProperties {
  import opened Options
  import Text
  import Chunking
  import opened Fingerprint
  import opened VectorIndex
  import opened Ingest

  // ---------------------------------------------------------------------------
  // The first hash seen per source
  // ---------------------------------------------------------------------------

  /** Record `k` has source `src` and a truthy hash. */
  ghost predicate HashedAt(ms: seq<Option<Metadata>>, src: string, k: int)
  {
    0 <= k < |ms| && SourceOf(ms[k]) == Some(src) && HashOf(ms[k]).Some?
  }

  /** No record of `src` carries a truthy hash exactly when no hash is kept for it. */
  lemma {:induction false} FirstHashNone(ms: seq<Option<Metadata>>, src: string)
    ensures FirstHash(ms, src).None? <==> forall k :: 0 <= k < |ms| ==> !HashedAt(ms, src, k)
  {
    if ms != [] {
      var init := ms[..|ms| - 1];
      FirstHashNone(init, src);
      forall k | 0 <= k < |init| ensures HashedAt(init, src, k) == HashedAt(ms, src, k) {
        assert init[k] == ms[k];
      }
      if FirstHash(init, src).Some? {
        var k :| 0 <= k < |init| && HashedAt(init, src, k);
        assert HashedAt(ms, src, k);
      } else if !HashedAt(ms, src, |ms| - 1) {
        assert FirstHash(ms, src).None?;
        forall k | 0 <= k < |ms| ensures !HashedAt(ms, src, k) {
          if k < |init| {
            assert !HashedAt(init, src, k);
          }
        }
      }
    }
  }

  /** The kept hash is the one of the earliest record of `src` with a truthy hash. */
  lemma {:induction false} FirstHashIsEarliest(ms: seq<Option<Metadata>>, src: string, k: nat)
    requires HashedAt(ms, src, k)
    requires forall j :: 0 <= j < k ==> !HashedAt(ms, src, j)
    ensures FirstHash(ms, src) == HashOf(ms[k])
  {
    var init := ms[..|ms| - 1];
    forall j | 0 <= j < |init| ensures HashedAt(init, src, j) == HashedAt(ms, src, j) {
      assert init[j] == ms[j];
    }
    if k < |ms| - 1 {
      FirstHashIsEarliest(init, src, k);
    } else {
      FirstHashNone(init, src);
    }
  }

  /** Appending records never changes a hash already kept; otherwise the appended ones decide. */
  lemma {:induction false} FirstHashAppend(a: seq<Option<Metadata>>, b: seq<Option<Metadata>>, src: string)
    ensures FirstHash(a + b, src) == if FirstHash(a, src).Some? then FirstHash(a, src) else FirstHash(b, src)
    decreases |b|
  {
    if b == [] {
      assert a + b == a;
    } else {
      var init := b[..|b| - 1];
      assert (a + b)[..|a + b| - 1] == a + init;
      FirstHashAppend(a, init, src);
    }
  }

  /** The hash a single record contributes. */
  lemma FirstHashSingle(m: Option<Metadata>, src: string)
    ensures FirstHash([m], src) == if SourceOf(m) == Some(src) then HashOf(m) else None
  {
    assert [m][..0] == [];
  }

  /**
   * One step of a delete: dropping the last record when its source is `s`
   * and keeping it otherwise keeps "`s` has no hash, every other source
   * keeps its hash".
   */
  lemma FirstHashDropStep(wm: seq<Option<Metadata>>, im: seq<Option<Metadata>>, m: Option<Metadata>,
                          dropped: bool, s: string, src: string)
    requires FirstHash(wm, src) == if src == s then None else FirstHash(im, src)
    requires dropped <==> m.Some? && m.value.source == Some(s)
    ensures FirstHash(wm + (if dropped then [] else [m]), src)
         == if src == s then None else FirstHash(im + [m], src)
  {
    FirstHashAppend(im, [m], src);
    FirstHashSingle(m, src);
    if dropped {
      assert wm + [] == wm;
    } else {
      FirstHashAppend(wm, [m], src);
    }
  }

  /** Deleting the records of `s` forgets the hash of `s` and keeps every other source's. */
  lemma {:induction false} FirstHashWithoutSource(rs: seq<Record>, s: string, src: string)
    ensures FirstHash(MetasOf(WithoutSource(rs, s)), src)
         == if src == s then None else FirstHash(MetasOf(rs), src)
  {
    if rs != [] {
      var init, last := rs[..|rs| - 1], rs[|rs| - 1];
      var w := WithoutSource(init, s);
      var dropped := HasSource(last, s);
      var kept := if dropped then [] else [last];
      FirstHashWithoutSource(init, s, src);
      assert WithoutSource(rs, s) == w + kept;
      MetasOfAppend(w, kept);
      assert MetasOf(kept) == if dropped then [] else [last.metadata];
      assert rs == init + [last];
      MetasOfAppend(init, [last]);
      assert MetasOf([last]) == [last.metadata];
      FirstHashDropStep(MetasOf(w), MetasOf(init), last.metadata, dropped, s, src);
    }
  }

  /** After deleting each of `srcs`, their hashes are gone and every other source's is kept. */
  lemma {:induction false} FirstHashAfterDeletes(rs: seq<Record>, srcs: seq<string>, src: string)
    ensures FirstHash(MetasOf(ApplyOps(rs, DeleteOps(srcs))), src)
         == if src in srcs then None else FirstHash(MetasOf(rs), src)
  {
    if srcs != [] {
      var init, last := srcs[..|srcs| - 1], srcs[|srcs| - 1];
      var ops := DeleteOps(srcs);
      assert ops[..|ops| - 1] == DeleteOps(init);
      FirstHashAfterDeletes(rs, init, src);
      FirstHashWithoutSource(ApplyOps(rs, DeleteOps(init)), last, src);
      assert srcs == init + [last];
    }
  }

  /** The metadata written for one document carries its path and hash from the first chunk on. */
  lemma {:induction false} FirstHashOfChunks(path: string, hash: string, n: nat, src: string)
    ensures FirstHash(ChunkMetas(path, hash, n), src)
         == if src == path && path != "" && hash != "" && n > 0 then Some(hash) else None
  {
    if n > 0 {
      var ms, init := ChunkMetas(path, hash, n), ChunkMetas(path, hash, n - 1);
      var m := Some(Metadata(Some(path), Some(n - 1), Some(hash)));
      assert ms[..|ms| - 1] == init && ms[|ms| - 1] == m;
      assert FirstHash(ms, src)
          == if FirstHash(init, src).Some? then FirstHash(init, src)
             else if SourceOf(m) == Some(src) then HashOf(m) else None;
      assert SourceOf(m) == if path != "" then Some(path) else None;
      assert HashOf(m) == if hash != "" then Some(hash) else None;
      FirstHashOfChunks(path, hash, n - 1, src);
    }
  }

  /** `db_sources` holds exactly the sources with a kept hash, each mapped to it. */
  lemma DbSourcesAt(ms: seq<Option<Metadata>>, src: string)
    ensures src in DbSources(ms) <==> FirstHash(ms, src).Some?
    ensures src in DbSources(ms) ==> DbSources(ms)[src] == FirstHash(ms, src).value
  {
    if FirstHash(ms, src).Some? {
      FirstHashWitness(ms, src);
      var k :| 0 <= k < |ms| && SourceOf(ms[k]) == Some(src) && HashOf(ms[k]) == FirstHash(ms, src);
      assert src in SourcesIn(ms);
    }
  }

  // ---------------------------------------------------------------------------
  // The loop over the current documents
  // ---------------------------------------------------------------------------

  /** No two current documents share a path (`glob` lists each file once). */
  ghost predicate DistinctPaths(docs: seq<Document>)
  {
    forall i, j :: 0 <= i < j < |docs| ==> docs[i].path != docs[j].path
  }

  /**
   * Every path is non-empty and no text chunks into nothing: `chunk` either
   * raises or returns at least one chunk.
   */
  ghost predicate Substantial(chunk: Chunker, docs: seq<Document>)
  {
    forall i :: 0 <= i < |docs| ==> docs[i].path != "" && chunk(docs[i].text) != Chunking.Chunks([])
  }

  /** With the configured `chunk_text`, documents with non-empty paths and non-blank texts are substantial. */
  lemma NonBlankIsSubstantial(cfg: Config, docs: seq<Document>)
    requires forall i :: 0 <= i < |docs| ==> docs[i].path != "" && Chunking.Normalize(docs[i].text) != []
    ensures Substantial(ChunkerFor(cfg), docs)
  {
    forall i | 0 <= i < |docs| ensures ChunkerFor(cfg)(docs[i].text) != Chunking.Chunks([]) {
      var t := Chunking.Normalize(docs[i].text);
      if cfg.chunkOverlap < cfg.chunkSize {
        assert Chunking.Windows(|t|, 0, cfg.chunkSize, cfg.chunkOverlap) != [];
      }
    }
  }

  /** Some document at `src` is created or updated. */
  ghost predicate Rewrites(db: map<string, string>, sha: Sha256, docs: seq<Document>, src: string)
  {
    exists i :: 0 <= i < |docs| && docs[i].path == src && ActionFor(db, sha, docs[i]) != Skip
  }

  /** A loop that did not stop had not stopped on any shorter prefix either. */
  lemma ClassifyPrefixCompleted(db: map<string, string>, chunk: Chunker, sha: Sha256, docs: seq<Document>)
    requires docs != [] && Classify(db, chunk, sha, docs).failed.None?
    ensures Classify(db, chunk, sha, docs[..|docs| - 1]).failed.None?
  {
  }

  /** A document that is not skipped and whose text chunks into something writes its chunks' metadata. */
  lemma RewriteWritesChunks(db: map<string, string>, chunk: Chunker, sha: Sha256, p: Pass, d: Document)
    requires p.failed.None? && chunk(d.text) != Chunking.Chunks([])
    requires ActionFor(db, sha, d) != Skip && Step(db, chunk, sha, p, d).failed.None?
    ensures chunk(d.text).Chunks? && |chunk(d.text).chunks| >= 1
    ensures Step(db, chunk, sha, p, d).metas == p.metas + ChunkMetas(d.path, ContentHash(sha, d.text), |chunk(d.text).chunks|)
  {
  }

  /** Each document moves exactly the counter of its action, by one. */
  lemma StepCountsOnce(db: map<string, string>, chunk: Chunker, sha: Sha256, p: Pass, d: Document)
    requires p.failed.None?
    ensures var r, a := Step(db, chunk, sha, p, d), ActionFor(db, sha, d);
      && r.skipped == p.skipped + (if a == Skip then 1 else 0)
      && r.created == p.created + (if a == Create then 1 else 0)
      && r.updated == p.updated + (if a == Update then 1 else 0)
  {
  }

  /** A skipped document queues nothing, deletes nothing and cannot stop the loop. */
  lemma SkipAddsNothing(db: map<string, string>, chunk: Chunker, sha: Sha256, p: Pass, d: Document)
    requires p.failed.None? && ActionFor(db, sha, d) == Skip
    ensures var r := Step(db, chunk, sha, p, d);
      && r.ids == p.ids && r.texts == p.texts && r.metas == p.metas
      && r.rewritten == p.rewritten && r.failed.None?
  {
  }

  /** A step either queues nothing or queues the metadata of the document's chunks. */
  lemma StepQueues(db: map<string, string>, chunk: Chunker, sha: Sha256, p: Pass, d: Document)
    ensures var r := Step(db, chunk, sha, p, d);
      || r.metas == p.metas
      || (&& p.failed.None? && ActionFor(db, sha, d) != Skip && chunk(d.text).Chunks?
          && r.metas == p.metas + ChunkMetas(d.path, ContentHash(sha, d.text), |chunk(d.text).chunks|))
  {
  }

  /** The loop queues no hash for a source that no document creates or updates. */
  lemma {:induction false} NotQueued(db: map<string, string>, chunk: Chunker, sha: Sha256, docs: seq<Document>, src: string)
    requires !Rewrites(db, sha, docs, src)
    ensures FirstHash(Classify(db, chunk, sha, docs).metas, src) == None
  {
    if docs != [] {
      var init, d := docs[..|docs| - 1], docs[|docs| - 1];
      var p := Classify(db, chunk, sha, init);
      PrefixRewrites(db, sha, docs, src);
      NotQueued(db, chunk, sha, init, src);
      StepQueues(db, chunk, sha, p, d);
      if Classify(db, chunk, sha, docs).metas != p.metas {
        var n, h := |chunk(d.text).chunks|, ContentHash(sha, d.text);
        FirstHashAppend(p.metas, ChunkMetas(d.path, h, n), src);
        FirstHashOfChunks(d.path, h, n, src);
      }
    }
  }

  /** A prefix of documents with distinct paths has distinct paths. */
  lemma DistinctPrefix(docs: seq<Document>, k: nat)
    requires DistinctPaths(docs) && k <= |docs|
    ensures DistinctPaths(docs[..k])
  {
    var init := docs[..k];
    forall i, j | 0 <= i < j < |init| ensures init[i].path != init[j].path {
      assert init[i] == docs[i] && init[j] == docs[j];
    }
  }

  /**
   * With distinct paths, a completed loop queues, first for the path of a
   * created or updated document, that document's content hash, provided the
   * path is non-empty and the text yields at least one chunk.
   */
  lemma {:induction false} PassHashOf(db: map<string, string>, chunk: Chunker, sha: Sha256, docs: seq<Document>, i: int)
    requires 0 <= i < |docs| && DistinctPaths(docs)
    requires docs[i].path != "" && chunk(docs[i].text) != Chunking.Chunks([])
    requires ActionFor(db, sha, docs[i]) != Skip
    requires Classify(db, chunk, sha, docs).failed.None?
    ensures FirstHash(Classify(db, chunk, sha, docs).metas, docs[i].path) == Some(ContentHash(sha, docs[i].text))
  {
    var init, d := docs[..|docs| - 1], docs[|docs| - 1];
    var p := Classify(db, chunk, sha, init);
    var ms := Classify(db, chunk, sha, docs).metas;
    ClassifyPrefixCompleted(db, chunk, sha, docs);
    if i == |docs| - 1 {
      LastPathIsNew(db, sha, docs);
      NotQueued(db, chunk, sha, init, d.path);
      RewriteWritesChunks(db, chunk, sha, p, d);
      var n, h := |chunk(d.text).chunks|, ContentHash(sha, d.text);
      FirstHashAppend(p.metas, ChunkMetas(d.path, h, n), d.path);
      FirstHashOfChunks(d.path, h, n, d.path);
    } else {
      DistinctPrefix(docs, |docs| - 1);
      assert init[i] == docs[i];
      PassHashOf(db, chunk, sha, init, i);
      StepQueues(db, chunk, sha, p, d);
      if ms != p.metas {
        FirstHashAppend(p.metas, ChunkMetas(d.path, ContentHash(sha, d.text), |chunk(d.text).chunks|), docs[i].path);
      }
    }
  }

  /** A source no document rewrites is not rewritten by a prefix, nor by the last document. */
  lemma PrefixRewrites(db: map<string, string>, sha: Sha256, docs: seq<Document>, src: string)
    requires docs != [] && !Rewrites(db, sha, docs, src)
    ensures !Rewrites(db, sha, docs[..|docs| - 1], src)
    ensures docs[|docs| - 1].path != src || ActionFor(db, sha, docs[|docs| - 1]) == Skip
  {
    var init := docs[..|docs| - 1];
    forall i | 0 <= i < |init| && init[i].path == src ensures ActionFor(db, sha, init[i]) == Skip {
      assert docs[i] == init[i];
    }
  }

  /** With distinct paths, no earlier document rewrites the last one's path. */
  lemma LastPathIsNew(db: map<string, string>, sha: Sha256, docs: seq<Document>)
    requires docs != [] && DistinctPaths(docs)
    ensures !Rewrites(db, sha, docs[..|docs| - 1], docs[|docs| - 1].path)
  {
    var init := docs[..|docs| - 1];
    forall i | 0 <= i < |init| ensures init[i].path != docs[|docs| - 1].path {
      assert docs[i] == init[i];
    }
  }

  /** Some document at `src` is updated. */
  ghost predicate Updates(db: map<string, string>, sha: Sha256, docs: seq<Document>, src: string)
  {
    exists i :: 0 <= i < |docs| && docs[i].path == src && ActionFor(db, sha, docs[i]) == Update
  }

  /** The loop deletes only the paths of updated documents. */
  lemma {:induction false} RewrittenAreUpdates(db: map<string, string>, chunk: Chunker, sha: Sha256, docs: seq<Document>)
    ensures forall src :: src in Classify(db, chunk, sha, docs).rewritten ==> Updates(db, sha, docs, src)
  {
    if docs != [] {
      var init := docs[..|docs| - 1];
      RewrittenAreUpdates(db, chunk, sha, init);
      var p := Classify(db, chunk, sha, init);
      assert Classify(db, chunk, sha, docs) == Step(db, chunk, sha, p, docs[|docs| - 1]);
      forall src | src in p.rewritten ensures Updates(db, sha, docs, src) {
        var i :| 0 <= i < |init| && init[i].path == src && ActionFor(db, sha, init[i]) == Update;
        assert docs[i] == init[i];
      }
    }
  }

  /** Every updated document's path is in `paths`. */
  ghost predicate UpdatesListed(db: map<string, string>, sha: Sha256, docs: seq<Document>, paths: seq<string>)
  {
    forall i :: 0 <= i < |docs| && ActionFor(db, sha, docs[i]) == Update ==> docs[i].path in paths
  }

  /** Appending a document, and its path when it is updated, keeps every updated path listed. */
  lemma UpdatesListedAppend(db: map<string, string>, sha: Sha256, init: seq<Document>, last: Document,
                            paths: seq<string>)
    requires UpdatesListed(db, sha, init, paths)
    ensures UpdatesListed(db, sha, init + [last],
                          paths + (if ActionFor(db, sha, last) == Update then [last.path] else []))
  {
    var docs := init + [last];
    var grown := paths + (if ActionFor(db, sha, last) == Update then [last.path] else []);
    forall i | 0 <= i < |docs| && ActionFor(db, sha, docs[i]) == Update ensures docs[i].path in grown {
      if i < |init| {
        assert docs[i] == init[i];
        assert docs[i].path in paths;
      }
    }
  }

  /** A loop that completes has deleted the path of every updated document. */
  lemma {:induction false} UpdatesAreRewritten(db: map<string, string>, chunk: Chunker, sha: Sha256, docs: seq<Document>)
    requires Classify(db, chunk, sha, docs).failed.None?
    ensures UpdatesListed(db, sha, docs, Classify(db, chunk, sha, docs).rewritten)
  {
    if docs != [] {
      var init, last := docs[..|docs| - 1], docs[|docs| - 1];
      ClassifyPrefixCompleted(db, chunk, sha, docs);
      UpdatesAreRewritten(db, chunk, sha, init);
      var p := Classify(db, chunk, sha, init);
      assert Classify(db, chunk, sha, docs) == Step(db, chunk, sha, p, last);
      assert docs == init + [last];
      UpdatesListedAppend(db, sha, init, last, p.rewritten);
    }
  }

  /** When every document is unchanged, the loop only counts them as skipped. */
  lemma {:induction false} AllSkipped(db: map<string, string>, chunk: Chunker, sha: Sha256, docs: seq<Document>)
    requires forall i :: 0 <= i < |docs| ==> ActionFor(db, sha, docs[i]) == Skip
    ensures Classify(db, chunk, sha, docs) == EmptyPass.(skipped := |docs|)
  {
    if docs != [] {
      var init := docs[..|docs| - 1];
      forall i | 0 <= i < |init| ensures ActionFor(db, sha, init[i]) == Skip {
        assert init[i] == docs[i];
      }
      AllSkipped(db, chunk, sha, init);
    }
  }

  // ---------------------------------------------------------------------------
  // The index after a reconciliation
  // ---------------------------------------------------------------------------

  lemma MetasOfBuild(ids: seq<string>, docs: seq<string>, metas: seq<Option<Metadata>>, vectors: seq<Vector>)
    requires |ids| == |docs| == |metas| == |vectors|
    ensures MetasOf(BuildRecords(ids, docs, metas, vectors)) == metas
  {
  }

  /** With at least one document, the plan is a read, two runs of deletes and the `add`, if any. */
  lemma PlanParts(records: seq<Record>, docs: seq<Document>, chunk: Chunker, sha: Sha256,
                  embed: seq<string> -> seq<Vector>)
    requires forall ts :: |embed(ts)| == |ts|
    requires docs != []
    ensures var db := DbSources(MetasOf(records));
      var pass := Classify(db, chunk, sha, docs);
      PlannedOps(records, docs, chunk, sha, embed)
        == [ReadAll] + DeleteOps(DeletedSources(db, docs)) + DeleteOps(pass.rewritten) + AddOps(pass, embed)
  {
  }

  /** A read changes nothing, so the plan's calls act as the two runs of deletes and then the rest. */
  lemma {:induction false} ReadThenDeletes(records: seq<Record>, d1: seq<IndexOp>, d2: seq<IndexOp>, a: seq<IndexOp>)
    ensures ApplyOps(records, [ReadAll] + d1 + d2 + a) == ApplyOps(ApplyOps(ApplyOps(records, d1), d2), a)
  {
    ApplyOpsAppend(records, [ReadAll] + d1 + d2, a);
    ApplyOpsAppend(records, [ReadAll] + d1, d2);
    ApplyOpsAppend(records, [ReadAll], d1);
    assert [ReadAll][..0] == [];
    assert ApplyOps(records, [ReadAll]) == records;
  }

  /** The `add` a pass queues appends exactly the metadata it collected, and only when it completed. */
  lemma MetasAfterAdd(kept: seq<Record>, pass: Pass, embed: seq<string> -> seq<Vector>)
    requires |pass.ids| == |pass.texts| == |pass.metas| == |embed(pass.texts)|
    ensures MetasOf(ApplyOps(kept, AddOps(pass, embed))) == MetasOf(kept) + (if pass.failed.None? then pass.metas else [])
  {
    var a := AddOps(pass, embed);
    if a == [] {
      assert pass.failed.None? ==> pass.metas == [];
      assert MetasOf(kept) + [] == MetasOf(kept);
    } else {
      var added := BuildRecords(pass.ids, pass.texts, pass.metas, embed(pass.texts));
      assert a == [AddRecords(added)];
      assert a[..0] == [];
      assert ApplyOps(kept, a) == kept + added;
      MetasOfAppend(kept, added);
      MetasOfBuild(pass.ids, pass.texts, pass.metas, embed(pass.texts));
    }
  }

  /** The metadata after a read, two runs of deletes and the `add` a pass queues. */
  lemma MetasAfterOps(records: seq<Record>, s1: seq<string>, s2: seq<string>, pass: Pass,
                      embed: seq<string> -> seq<Vector>)
    requires |pass.ids| == |pass.texts| == |pass.metas| == |embed(pass.texts)|
    ensures var kept := ApplyOps(ApplyOps(records, DeleteOps(s1)), DeleteOps(s2));
      MetasOf(ApplyOps(records, [ReadAll] + DeleteOps(s1) + DeleteOps(s2) + AddOps(pass, embed)))
        == MetasOf(kept) + (if pass.failed.None? then pass.metas else [])
  {
    ReadThenDeletes(records, DeleteOps(s1), DeleteOps(s2), AddOps(pass, embed));
    MetasAfterAdd(ApplyOps(ApplyOps(records, DeleteOps(s1)), DeleteOps(s2)), pass, embed);
  }

  /**
   * The metadata of the index after the planned calls: what the two runs of
   * deletes leave, followed by the metadata queued for the `add`.
   */
  lemma MetasAfterPlan(records: seq<Record>, docs: seq<Document>, chunk: Chunker, sha: Sha256, embed: seq<string> -> seq<Vector>)
    requires forall ts :: |embed(ts)| == |ts|
    requires docs != []
    ensures var db := DbSources(MetasOf(records));
      var pass := Classify(db, chunk, sha, docs);
      var kept := ApplyOps(ApplyOps(records, DeleteOps(DeletedSources(db, docs))), DeleteOps(pass.rewritten));
      MetasOf(ApplyOps(records, PlannedOps(records, docs, chunk, sha, embed)))
        == MetasOf(kept) + (if pass.failed.None? then pass.metas else [])
  {
    var db := DbSources(MetasOf(records));
    PlanParts(records, docs, chunk, sha, embed);
    MetasAfterOps(records, DeletedSources(db, docs), Classify(db, chunk, sha, docs).rewritten,
                  Classify(db, chunk, sha, docs), embed);
  }

  /** A current document's path is never among the deleted sources. */
  lemma DocPathNotDeleted(db: map<string, string>, docs: seq<Document>, i: int)
    requires 0 <= i < |docs|
    ensures docs[i].path !in DeletedSources(db, docs)
  {
    assert docs[i] in docs;
  }

  /** An updated path belongs to the only document at that path. */
  lemma UpdatedPathIsThisDocument(db: map<string, string>, sha: Sha256, docs: seq<Document>, i: int)
    requires 0 <= i < |docs| && DistinctPaths(docs)
    requires Updates(db, sha, docs, docs[i].path)
    ensures ActionFor(db, sha, docs[i]) == Update
  {
    var j :| 0 <= j < |docs| && docs[j].path == docs[i].path && ActionFor(db, sha, docs[j]) == Update;
    assert i == j;
  }

  /**
   * What the two runs of deletes leave for a current document's path: the
   * stored hash when the document is skipped, no hash when it is created or
   * updated.
   */
  lemma KeptHashOf(records: seq<Record>, docs: seq<Document>, chunk: Chunker, sha: Sha256, i: int)
    requires 0 <= i < |docs| && DistinctPaths(docs)
    requires Classify(DbSources(MetasOf(records)), chunk, sha, docs).failed.None?
    ensures var db := DbSources(MetasOf(records));
      var mid := ApplyOps(records, DeleteOps(DeletedSources(db, docs)));
      var kept := ApplyOps(mid, DeleteOps(Classify(db, chunk, sha, docs).rewritten));
      FirstHash(MetasOf(kept), docs[i].path)
        == if ActionFor(db, sha, docs[i]) == Skip then Some(ContentHash(sha, docs[i].text)) else None
  {
    var db := DbSources(MetasOf(records));
    var pass := Classify(db, chunk, sha, docs);
    var mid := ApplyOps(records, DeleteOps(DeletedSources(db, docs)));
    var p := docs[i].path;
    FirstHashAfterDeletes(mid, pass.rewritten, p);
    FirstHashAfterDeletes(records, DeletedSources(db, docs), p);
    DbSourcesAt(MetasOf(records), p);
    match ActionFor(db, sha, docs[i]) {
      case Skip =>
        DocPathNotDeleted(db, docs, i);
        RewrittenAreUpdates(db, chunk, sha, docs);
        if p in pass.rewritten {
          UpdatedPathIsThisDocument(db, sha, docs, i);
        }
      case Create =>
      case Update =>
        UpdatesAreRewritten(db, chunk, sha, docs);
    }
  }

  /**
   * After a completed reconciliation over documents with distinct paths, the
   * first hash kept for the path of a current document is that document's
   * content hash, provided the path is non-empty and the text yields at least
   * one chunk.
   */
  lemma DocumentHashAfterPlan(records: seq<Record>, docs: seq<Document>, chunk: Chunker, sha: Sha256,
                              embed: seq<string> -> seq<Vector>, i: int)
    requires forall ts :: |embed(ts)| == |ts|
    requires 0 <= i < |docs| && DistinctPaths(docs)
    requires docs[i].path != "" && chunk(docs[i].text) != Chunking.Chunks([])
    requires PlannedOutcome(records, docs, chunk, sha).Completed?
    ensures FirstHash(MetasOf(ApplyOps(records, PlannedOps(records, docs, chunk, sha, embed))), docs[i].path)
         == Some(ContentHash(sha, docs[i].text))
  {
    var db := DbSources(MetasOf(records));
    var pass := Classify(db, chunk, sha, docs);
    var mid := ApplyOps(records, DeleteOps(DeletedSources(db, docs)));
    var kept := ApplyOps(mid, DeleteOps(pass.rewritten));
    MetasAfterPlan(records, docs, chunk, sha, embed);
    FirstHashAppend(MetasOf(kept), pass.metas, docs[i].path);
    KeptHashOf(records, docs, chunk, sha, i);
    if ActionFor(db, sha, docs[i]) != Skip {
      PassHashOf(db, chunk, sha, docs, i);
    }
  }

  /** After a completed reconciliation, no path without a current file keeps a hash. */
  lemma StrayHashAfterPlan(records: seq<Record>, docs: seq<Document>, chunk: Chunker, sha: Sha256,
                           embed: seq<string> -> seq<Vector>, src: string)
    requires forall ts :: |embed(ts)| == |ts|
    requires PlannedOutcome(records, docs, chunk, sha).Completed?
    requires src !in PathsOf(docs)
    ensures FirstHash(MetasOf(ApplyOps(records, PlannedOps(records, docs, chunk, sha, embed))), src) == None
  {
    var db := DbSources(MetasOf(records));
    var pass := Classify(db, chunk, sha, docs);
    var mid := ApplyOps(records, DeleteOps(DeletedSources(db, docs)));
    var kept := ApplyOps(mid, DeleteOps(pass.rewritten));
    MetasAfterPlan(records, docs, chunk, sha, embed);
    FirstHashAppend(MetasOf(kept), pass.metas, src);
    FirstHashAfterDeletes(mid, pass.rewritten, src);
    StrayDeleted(records, docs, src);
    forall j | 0 <= j < |docs| ensures docs[j].path != src {
      assert docs[j] in docs;
    }
    NotQueued(db, chunk, sha, docs, src);
  }

  /** Deleting the stale sources leaves no hash for a path without a current file. */
  lemma StrayDeleted(records: seq<Record>, docs: seq<Document>, src: string)
    requires src !in PathsOf(docs)
    ensures FirstHash(MetasOf(ApplyOps(records, DeleteOps(DeletedSources(DbSources(MetasOf(records)), docs)))), src) == None
  {
    FirstHashAfterDeletes(records, DeletedSources(DbSources(MetasOf(records)), docs), src);
    DbSourcesAt(MetasOf(records), src);
  }

  /**
   * Running the ingester a second time over the same files does nothing but
   * read the index: every document is skipped, nothing is deleted and
   * nothing is added.
   */
  lemma SecondPassIsNoOp(records: seq<Record>, docs: seq<Document>, chunk: Chunker, sha: Sha256,
                         embed: seq<string> -> seq<Vector>)
    requires forall ts :: |embed(ts)| == |ts|
    requires docs != [] && DistinctPaths(docs) && Substantial(chunk, docs)
    requires PlannedOutcome(records, docs, chunk, sha).Completed?
    ensures var after := ApplyOps(records, PlannedOps(records, docs, chunk, sha, embed));
      && PlannedOps(after, docs, chunk, sha, embed) == [ReadAll]
      && PlannedOutcome(after, docs, chunk, sha) == Completed(Report(|docs|, 0, 0, |docs|, 0, []))
  {
    var after := ApplyOps(records, PlannedOps(records, docs, chunk, sha, embed));
    forall i | 0 <= i < |docs|
      ensures FirstHash(MetasOf(after), docs[i].path) == Some(ContentHash(sha, docs[i].text))
    {
      DocumentHashAfterPlan(records, docs, chunk, sha, embed, i);
    }
    forall src | src !in PathsOf(docs) ensures FirstHash(MetasOf(after), src).None? {
      StrayHashAfterPlan(records, docs, chunk, sha, embed, src);
    }
    NothingChanged(MetasOf(after), docs, chunk, sha);
    PlanWhenNothingChanged(after, docs, chunk, sha, embed);
    OutcomeWhenNothingChanged(after, docs, chunk, sha);
  }

  /**
   * When the kept hashes are exactly the current documents' content hashes,
   * every document is skipped and no source is deleted.
   */
  lemma NothingChanged(ms: seq<Option<Metadata>>, docs: seq<Document>, chunk: Chunker, sha: Sha256)
    requires forall i :: 0 <= i < |docs| ==> FirstHash(ms, docs[i].path) == Some(ContentHash(sha, docs[i].text))
    requires forall src :: src !in PathsOf(docs) ==> FirstHash(ms, src).None?
    ensures Classify(DbSources(ms), chunk, sha, docs) == EmptyPass.(skipped := |docs|)
    ensures DeletedSources(DbSources(ms), docs) == []
  {
    var db := DbSources(ms);
    forall i | 0 <= i < |docs| ensures ActionFor(db, sha, docs[i]) == Skip {
      DbSourcesAt(ms, docs[i].path);
    }
    AllSkipped(db, chunk, sha, docs);
    forall src | src in db ensures src in PathsOf(docs) {
      DbSourcesAt(ms, src);
    }
    assert db.Keys - PathsOf(docs) == {};
  }

  /** An index where nothing changed is only read, and every document is reported as skipped. */
  lemma PlanWhenNothingChanged(records: seq<Record>, docs: seq<Document>, chunk: Chunker, sha: Sha256,
                               embed: seq<string> -> seq<Vector>)
    requires forall ts :: |embed(ts)| == |ts|
    requires docs != []
    requires Classify(DbSources(MetasOf(records)), chunk, sha, docs) == EmptyPass.(skipped := |docs|)
    requires DeletedSources(DbSources(MetasOf(records)), docs) == []
    ensures PlannedOps(records, docs, chunk, sha, embed) == [ReadAll]
  {
    var db := DbSources(MetasOf(records));
    PlanParts(records, docs, chunk, sha, embed);
    OnlyRead(DeletedSources(db, docs), Classify(db, chunk, sha, docs), embed);
  }

  /** With nothing to delete and nothing queued, the plan is the read alone. */
  lemma OnlyRead(deleted: seq<string>, pass: Pass, embed: seq<string> -> seq<Vector>)
    requires |pass.ids| == |pass.texts| == |pass.metas| == |embed(pass.texts)|
    requires deleted == [] && pass.rewritten == [] && pass.texts == []
    ensures [ReadAll] + DeleteOps(deleted) + DeleteOps(pass.rewritten) + AddOps(pass, embed) == [ReadAll]
  {
    assert DeleteOps([]) == [];
  }

  /** The report for an index where nothing changed: every document skipped, nothing written or deleted. */
  lemma OutcomeWhenNothingChanged(records: seq<Record>, docs: seq<Document>, chunk: Chunker, sha: Sha256)
    requires docs != []
    requires Classify(DbSources(MetasOf(records)), chunk, sha, docs) == EmptyPass.(skipped := |docs|)
    requires DeletedSources(DbSources(MetasOf(records)), docs) == []
    ensures PlannedOutcome(records, docs, chunk, sha) == Completed(Report(|docs|, 0, 0, |docs|, 0, []))
  {
  }


  // ---------------------------------------------------------------------------
  // The calls made on the index
  // ---------------------------------------------------------------------------

  /**
   * Every delete targets a source the aggregation found with a truthy hash:
   * a source whose records carry no `file_hash` is never deleted, and neither
   * is the path of a created document.
   */
  lemma NeverDeletesUnknownSources(records: seq<Record>, docs: seq<Document>, chunk: Chunker, sha: Sha256,
                                   embed: seq<string> -> seq<Vector>, src: string)
    requires forall ts :: |embed(ts)| == |ts|
    requires DeleteSource(src) in PlannedOps(records, docs, chunk, sha, embed)
    ensures FirstHash(MetasOf(records), src).Some?
    ensures forall i :: 0 <= i < |docs| && docs[i].path == src ==>
              ActionFor(DbSources(MetasOf(records)), sha, docs[i]) != Create
  {
    var db := DbSources(MetasOf(records));
    DeleteTargets(records, docs, chunk, sha, embed, src);
    if src !in DeletedSources(db, docs) {
      RewrittenAreUpdates(db, chunk, sha, docs);
      assert Updates(db, sha, docs, src);
    }
    DbSourcesAt(MetasOf(records), src);
  }

  /** A delete in the plan is for a deleted source or for an updated document. */
  lemma DeleteTargets(records: seq<Record>, docs: seq<Document>, chunk: Chunker, sha: Sha256,
                      embed: seq<string> -> seq<Vector>, src: string)
    requires forall ts :: |embed(ts)| == |ts|
    requires DeleteSource(src) in PlannedOps(records, docs, chunk, sha, embed)
    ensures var db := DbSources(MetasOf(records));
      src in DeletedSources(db, docs) || src in Classify(db, chunk, sha, docs).rewritten
  {
    var db := DbSources(MetasOf(records));
    var pass := Classify(db, chunk, sha, docs);
    PlanParts(records, docs, chunk, sha, embed);
    DeleteIn(DeletedSources(db, docs), pass.rewritten, AddOps(pass, embed), src);
  }

  /** A delete among a read, two runs of deletes and some adds targets a source of one of the runs. */
  lemma DeleteIn(s1: seq<string>, s2: seq<string>, a: seq<IndexOp>, src: string)
    requires forall k :: 0 <= k < |a| ==> a[k].AddRecords?
    requires DeleteSource(src) in [ReadAll] + DeleteOps(s1) + DeleteOps(s2) + a
    ensures src in s1 || src in s2
  {
    var d1, d2 := DeleteOps(s1), DeleteOps(s2);
    var ops := [ReadAll] + d1 + d2 + a;
    var k :| 0 <= k < |ops| && ops[k] == DeleteSource(src);
    if k <= |d1| {
      assert d1[k - 1] == DeleteSource(src);
    } else if k <= |d1| + |d2| {
      assert d2[k - 1 - |d1|] == DeleteSource(src);
    } else {
      assert false;
    }
  }

  /** A read, a run of deletes and at most one `add`, in that order. */
  ghost predicate ReadDeleteAdd(ops: seq<IndexOp>)
  {
    && ops != [] && ops[0] == ReadAll
    && forall i :: 0 < i < |ops| ==> ops[i].DeleteSource? || (i == |ops| - 1 && ops[i].AddRecords?)
  }

  lemma ReadDeleteAddOf(s1: seq<string>, s2: seq<string>, a: seq<IndexOp>)
    requires |a| <= 1 && forall k :: 0 <= k < |a| ==> a[k].AddRecords?
    ensures ReadDeleteAdd([ReadAll] + DeleteOps(s1) + DeleteOps(s2) + a)
  {
    var d1, d2 := DeleteOps(s1), DeleteOps(s2);
    var ds: seq<IndexOp> := d1 + d2;
    forall k | 0 <= k < |ds| ensures ds[k].DeleteSource? {
      if k < |d1| { assert ds[k] == d1[k]; } else { assert ds[k] == d2[k - |d1|]; }
    }
    assert [ReadAll] + d1 + d2 + a == [ReadAll] + ds + a;
    var ops := [ReadAll] + ds + a;
    forall i | 0 < i < |ops| ensures ops[i].DeleteSource? || (i == |ops| - 1 && ops[i].AddRecords?) {
      if i <= |ds| {
        assert ops[i] == ds[i - 1];
      }
    }
  }

  /**
   * The calls come in a fixed order: one read, then deletes only, then at
   * most one `add`, as the very last call. An updated document's old records
   * are therefore gone before its new ones are written.
   */
  lemma OpsOrder(records: seq<Record>, docs: seq<Document>, chunk: Chunker, sha: Sha256,
                 embed: seq<string> -> seq<Vector>)
    requires forall ts :: |embed(ts)| == |ts|
    ensures docs == [] <==> PlannedOps(records, docs, chunk, sha, embed) == []
    ensures docs != [] ==> ReadDeleteAdd(PlannedOps(records, docs, chunk, sha, embed))
  {
    if docs != [] {
      var db := DbSources(MetasOf(records));
      var pass := Classify(db, chunk, sha, docs);
      PlanParts(records, docs, chunk, sha, embed);
      ReadDeleteAddOf(DeletedSources(db, docs), pass.rewritten, AddOps(pass, embed));
    }
  }

  /**
   * When `chunk_text` raises, nothing is added: the index has lost the
   * deleted and the updated sources' records, and the new chunks queued so
   * far are dropped.
   */
  lemma FailureAddsNothing(records: seq<Record>, docs: seq<Document>, cfg: Config, sha: Sha256,
                           embed: seq<string> -> seq<Vector>)
    requires forall ts :: |embed(ts)| == |ts|
    requires PlannedOutcome(records, docs, ChunkerFor(cfg), sha).ChunkingFailed?
    ensures var db := DbSources(MetasOf(records));
      PlannedOps(records, docs, ChunkerFor(cfg), sha, embed)
        == [ReadAll] + DeleteOps(DeletedSources(db, docs)) + DeleteOps(Classify(db, ChunkerFor(cfg), sha, docs).rewritten)
    ensures PlannedOutcome(records, docs, ChunkerFor(cfg), sha).message == Chunking.OverlapMessage
    ensures cfg.chunkOverlap >= cfg.chunkSize
  {
    var db := DbSources(MetasOf(records));
    ClassifyFailure(db, cfg, sha, docs);
  }

  /** The only error the loop records is the one `chunk_text` raises for a bad overlap. */
  lemma {:induction false} ClassifyFailure(db: map<string, string>, cfg: Config, sha: Sha256, docs: seq<Document>)
    ensures Classify(db, ChunkerFor(cfg), sha, docs).failed.Some? ==>
      Classify(db, ChunkerFor(cfg), sha, docs).failed.value == Chunking.OverlapMessage
      && cfg.chunkOverlap >= cfg.chunkSize
  {
    if docs != [] {
      ClassifyFailure(db, cfg, sha, docs[..|docs| - 1]);
    }
  }

  /**
   * A document whose text chunks into nothing, at a path for which the index
   * keeps no hash, is counted as created, yet nothing is added for it: the
   * path still has no hash afterwards, so every later pass creates it again.
   */
  lemma UnchunkedDocumentIsCreatedAgain(records: seq<Record>, d: Document, chunk: Chunker, sha: Sha256,
                                        embed: seq<string> -> seq<Vector>)
    requires forall ts :: |embed(ts)| == |ts|
    requires chunk(d.text) == Chunking.Chunks([])
    requires FirstHash(MetasOf(records), d.path).None?
    ensures PlannedOutcome(records, [d], chunk, sha)
         == Completed(Report(1, 1, 0, 0, 0, DeletedSources(DbSources(MetasOf(records)), [d])))
    ensures FirstHash(MetasOf(ApplyOps(records, PlannedOps(records, [d], chunk, sha, embed))), d.path).None?
  {
    var db := DbSources(MetasOf(records));
    DbSourcesAt(MetasOf(records), d.path);
    var pass := Classify(db, chunk, sha, [d]);
    assert [d][..0] == [] && Classify(db, chunk, sha, []) == EmptyPass;
    assert pass == Step(db, chunk, sha, EmptyPass, d);
    assert pass == EmptyPass.(created := 1);
    var mid := ApplyOps(records, DeleteOps(DeletedSources(db, [d])));
    MetasAfterPlan(records, [d], chunk, sha, embed);
    assert DeleteOps([]) == [] && ApplyOps(mid, []) == mid;
    assert MetasOf(mid) + [] == MetasOf(mid);
    FirstHashAfterDeletes(records, DeletedSources(db, [d]), d.path);
  }

  /**
   * A whitespace-only file such as `" \r\n"` is such a document: `chunk_text`
   * returns no chunks for it, whatever the settings.
   */
  lemma BlankTextHasNoChunks(cfg: Config)
    ensures ChunkerFor(cfg)(" \r\n") == Chunking.Chunks([])
  {
    assert Text.ReplaceCrlf(" \r\n") == " \n";
    assert Chunking.Normalize(" \r\n") == [];
  }
}
