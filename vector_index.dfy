/**
 * The part of a Chroma collection the ingester uses: records with an id, a
 * document, optional metadata and an embedding, read in full, deleted by
 * `where={"source": ...}` and appended to.
 */
module VectorIndex {
  import opened Options

  /** The metadata dict the ingester writes: `{"source", "chunk", "file_hash"}`; any key may be absent. */
  datatype Metadata = Metadata(source: Option<string>, chunk: Option<int>, fileHash: Option<string>)

  type Vector = seq<real>

  datatype Record = Record(id: string, document: string, metadata: Option<Metadata>, embedding: Vector)

  /** `meta.get("source")` when both the metadata and the source are truthy (present and non-empty). */
  function SourceOf(m: Option<Metadata>): (r: Option<string>)
    ensures r.Some? <==> m.Some? && m.value.source.Some? && m.value.source.value != ""
    ensures r.Some? ==> r == m.value.source
  {
    if m.Some? && m.value.source.Some? && m.value.source.value != "" then m.value.source else None
  }

  /** `meta.get("file_hash")` when both the metadata and the hash are truthy. */
  function HashOf(m: Option<Metadata>): (r: Option<string>)
    ensures r.Some? <==> m.Some? && m.value.fileHash.Some? && m.value.fileHash.value != ""
    ensures r.Some? ==> r == m.value.fileHash
  {
    if m.Some? && m.value.fileHash.Some? && m.value.fileHash.value != "" then m.value.fileHash else None
  }

  /** Whether Chroma's `where={"source": src}` selects the record. */
  predicate HasSource(r: Record, src: string) {
    r.metadata.Some? && r.metadata.value.source == Some(src)
  }

  function IdsOf(rs: seq<Record>): (ids: seq<string>)
    ensures |ids| == |rs| && forall i :: 0 <= i < |rs| ==> ids[i] == rs[i].id
  {
    seq(|rs|, i requires 0 <= i < |rs| => rs[i].id)
  }

  function MetasOf(rs: seq<Record>): (ms: seq<Option<Metadata>>)
    ensures |ms| == |rs| && forall i :: 0 <= i < |rs| ==> ms[i] == rs[i].metadata
  {
    seq(|rs|, i requires 0 <= i < |rs| => rs[i].metadata)
  }

  lemma MetasOfAppend(a: seq<Record>, b: seq<Record>)
    ensures MetasOf(a + b) == MetasOf(a) + MetasOf(b)
  {
    assert forall i :: 0 <= i < |a + b| ==> MetasOf(a + b)[i] == (MetasOf(a) + MetasOf(b))[i];
  }

  /** The records `delete(where={"source": src})` leaves, in their order. */
  function WithoutSource(rs: seq<Record>, src: string): (r: seq<Record>)
    ensures |r| <= |rs|
  {
    if rs == [] then []
    else
      var last := rs[|rs| - 1];
      WithoutSource(rs[..|rs| - 1], src) + (if HasSource(last, src) then [] else [last])
  }

  /** A delete keeps exactly the records whose source is not `src`. */
  lemma {:induction false} WithoutSourceKeeps(rs: seq<Record>, src: string)
    ensures forall x :: x in WithoutSource(rs, src) <==> x in rs && !HasSource(x, src)
  {
    if rs != [] {
      var init, last := rs[..|rs| - 1], rs[|rs| - 1];
      WithoutSourceKeeps(init, src);
      assert rs == init + [last];
    }
  }

  /** The records `add(ids=..., documents=..., metadatas=..., embeddings=...)` appends. */
  function BuildRecords(ids: seq<string>, docs: seq<string>, metas: seq<Option<Metadata>>, vectors: seq<Vector>): (rs: seq<Record>)
    requires |ids| == |docs| == |metas| == |vectors|
    ensures |rs| == |ids|
    ensures forall i :: 0 <= i < |rs| ==> rs[i] == Record(ids[i], docs[i], metas[i], vectors[i])
  {
    seq(|ids|, i requires 0 <= i < |ids| => Record(ids[i], docs[i], metas[i], vectors[i]))
  }

  /** The calls the ingester makes on the collection, in the order it makes them. */
  datatype IndexOp =
    | ReadAll
    | DeleteSource(source: string)
    | AddRecords(records: seq<Record>)

  /** The records after one call. */
  function Apply(rs: seq<Record>, op: IndexOp): seq<Record> {
    match op
    case ReadAll => rs
    case DeleteSource(src) => WithoutSource(rs, src)
    case AddRecords(added) => rs + added
  }

  /** The records after a sequence of calls. */
  function ApplyOps(rs: seq<Record>, ops: seq<IndexOp>): seq<Record> {
    if ops == [] then rs else Apply(ApplyOps(rs, ops[..|ops| - 1]), ops[|ops| - 1])
  }

  lemma {:induction false} ApplyOpsAppend(rs: seq<Record>, a: seq<IndexOp>, b: seq<IndexOp>)
    ensures ApplyOps(rs, a + b) == ApplyOps(ApplyOps(rs, a), b)
    decreases |b|
  {
    if b == [] {
      assert a + b == a;
    } else {
      assert (a + b)[..|a + b| - 1] == a + b[..|b| - 1];
      ApplyOpsAppend(rs, a, b[..|b| - 1]);
    }
  }

  /**
   * A collection: its records, and a ghost log of every call made on it since
   * it was opened. The records are always those the logged calls produce from
   * the records it was opened with.
   */
  class Collection {
    var records: seq<Record>
    ghost var initial: seq<Record>
    ghost var log: seq<IndexOp>

    ghost predicate Valid()
      reads this
    {
      records == ApplyOps(initial, log)
    }

    constructor (existing: seq<Record>)
      ensures Valid()
      ensures records == existing && log == []
    {
      records := existing;
      initial := existing;
      log := [];
    }

    /** `get(include=["metadatas"])`: every id and metadata, in storage order; nothing changes. */
    method Get() returns (ids: seq<string>, metas: seq<Option<Metadata>>)
      requires Valid()
      modifies this
      ensures Valid() && initial == old(initial)
      ensures records == old(records) && log == old(log) + [ReadAll]
      ensures ids == IdsOf(records) && metas == MetasOf(records)
    {
      ids := IdsOf(records);
      metas := MetasOf(records);
      log := log + [ReadAll];
      assert log[..|log| - 1] == old(log);
    }

    /** `delete(where={"source": src})`: drop every record whose source is `src`. */
    method DeleteBySource(src: string)
      requires Valid()
      modifies this
      ensures Valid() && initial == old(initial)
      ensures records == WithoutSource(old(records), src)
      ensures log == old(log) + [DeleteSource(src)]
    {
      records := WithoutSource(records, src);
      log := log + [DeleteSource(src)];
      assert log[..|log| - 1] == old(log);
    }

    /** `add(...)`: append one record per id, in order. */
    method Add(ids: seq<string>, docs: seq<string>, metas: seq<Option<Metadata>>, vectors: seq<Vector>)
      requires Valid()
      requires |ids| == |docs| == |metas| == |vectors|
      modifies this
      ensures Valid() && initial == old(initial)
      ensures records == old(records) + BuildRecords(ids, docs, metas, vectors)
      ensures log == old(log) + [AddRecords(BuildRecords(ids, docs, metas, vectors))]
    {
      var added := BuildRecords(ids, docs, metas, vectors);
      records := records + added;
      log := log + [AddRecords(added)];
      assert log[..|log| - 1] == old(log);
    }
  }
}
