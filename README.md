# mini-rag in Dafny

A model of the core of mini-rag, a small retrieval-augmented question
answering app over a folder of internal manuals. The model covers three parts:

- **`chunk_text`** cuts a document into overlapping fixed-size character
  windows. It first normalises `\r\n` to `\n` and strips the text.
- **The delta ingester** (`main` in `rag/ingest.py`) reads every record of
  the Chroma collection and keeps the first `file_hash` seen per `source`.
  It deletes the sources whose files are gone. It then classifies each current
  file as skipped, created or updated by comparing SHA-256 content hashes.
  Updated sources are deleted at once. The chunks of created and updated files
  are written in a single `add`, with ids `stable_source_id(path):i`.
- **`ask_question`** has three steps:
  - it answers a fixed apology when the search returns nothing;
  - otherwise it builds one `[source=… chunk=…]` block per result and joins
    the blocks into the CONTEXT of a grounded prompt;
  - it asks the model once, strips the reply and lists one `Reference` per
    result.

Modules:

| module | models |
|---|---|
| `Text` | `str.strip`, `str.replace("\r\n", "\n")`, `str(int)`, `sep.join` |
| `Ordering` | `sorted()` on a set of strings (Python's code-point order) |
| `Chunking` | `chunk_text` as the method `ChunkText` with its `while` loop (`SlideWindows`), specified by the window function `Windows` |
| `ChunkingProperties` | the shape, overlap and rejoin properties of the chunks |
| `Fingerprint` | `sha256_text` and `stable_source_id` over an uninterpreted SHA-256 that yields 64 lowercase hex characters |
| `VectorIndex` | the collection as a class: its records, plus a ghost log of every `get`, `delete` and `add` made on it |
| `Ingest` | `main`'s reconciliation as the method `Ingest`, proved against `PlannedOps` (the calls it makes) and `PlannedOutcome` (what it reports or raises) |
| `IngestProperties` | the first-hash aggregation, classification, delete targets, call order and second-pass idempotence |
| `ChatService` | `Reference`, `ChatResult` and `ask_question` after the search, as the method `AskQuestion` over a `LanguageModel` object |
| `ChatProperties` | where the blocks, the documents and the question sit in the prompt |

The following are parameters of the model:

- the search result (documents, metadata, distances);
- the embedder (`seq<string> -> seq<Vector>`);
- SHA-256;
- the model's reply (`string -> Option<string>`);
- the `chunk_size` and `chunk_overlap` settings.

## Model

| member | source | states |
|---|---|---|
| Text.Strip | rag/chunking.py:4 | the result is empty exactly when every character is whitespace; it is the slice of the input between its leading and trailing whitespace; it neither starts nor ends with whitespace |
| Text.IsSpace | rag/chunking.py:4 | the characters `str.isspace()` accepts, which `strip()` removes: the ASCII controls 9-13 and 28-31, the space, and the Unicode spaces and separators |
| Text.StripIdempotent | rag/chunking.py:4 | stripping twice is stripping once |
| Text.ReplaceCrlf | rag/chunking.py:4 | replacing `\r\n` never makes the text longer; what it replaces is stated by the four lemmas below |
| Text.ReplaceCrlfDropsOnlyCr | rag/chunking.py:4 | the replacement removes only carriage returns: with every `\r` dropped, input and output are equal |
| Text.ReplaceCrlfWithoutCrlf | rag/chunking.py:4 | text with no `\r` directly followed by `\n` is left unchanged, lone carriage returns included |
| Text.ReplaceCrlfAppend | rag/chunking.py:4 | the replacement of `x + y` is that of `x` followed by that of `y`, unless the cut splits a `\r\n` pair |
| Text.ReplaceCrlfAtCrlf | rag/chunking.py:4 | every `\r\n` becomes one `\n`, wherever it sits |
| Text.ReplaceCrlfKeepsLoneCr | rag/chunking.py:4 | a `\r` that no `\n` follows is kept |
| Chunking.Normalize | rag/chunking.py:4 | the text `chunk_text` cuts: `\r\n` replaced by `\n`, then stripped |
| Chunking.SliceBound | rag/chunking.py:14 | Python's clamping of a slice bound stays within the length and is the identity on in-range bounds |
| Chunking.Slice | rag/chunking.py:14 | `text[start:end]` with Python semantics; equals the Dafny slice for in-range bounds |
| Chunking.SliceAll | rag/chunking.py:12-14 | one slice per window, in window order |
| Chunking.Windows | rag/chunking.py:11-17 | the `(start, end)` pairs the loop visits, from `start` on: `end = min(start + size, n)`, stop when `end == n` or `start >= n`, next `start = end - overlap`; its shape is proved in `WindowsShape` |
| Chunking.ChunkSpec | rag/chunking.py:3-18 | `chunk_text` as a function: `[]` for empty normalised text, the `ValueError` when `overlap >= chunk_size`, otherwise the slices at `Windows`; `ChunkText` is proved to compute it |
| Chunking.ChunkText | rag/chunking.py:3-18 | returns `[]` when the normalised text is empty, whatever the settings; otherwise raises "overlap must be < chunk_size" exactly when `overlap >= chunk_size`; otherwise returns the slices at `Windows` |
| Chunking.SlideWindows | rag/chunking.py:10-18 | the `while` loop appends exactly the slices of the windows from offset 0, and terminates |
| ChunkingProperties.WindowsShape | rag/chunking.py:11-17 | for `0 <= overlap < size`: the first window starts at `start`; every window but the last is exactly `size` long and ends before the text does; the last ends at the text's end; window `i` starts at `start + i*(size-overlap)` |
| ChunkingProperties.ChunkShape | rag/chunking.py:12-17 | for non-empty normalised text: at least one chunk; every chunk but the last has exactly `chunk_size` characters; the last is non-empty and ends the text; chunk `i` is the text at offset `i*(size-overlap)` |
| ChunkingProperties.ChunkOverlap | rag/chunking.py:13-17 | the last `overlap` characters of chunk `i` are the first `overlap` characters of chunk `i+1` |
| ChunkingProperties.WindowCountWithoutOverlap | rag/chunking.py:12-17 | with overlap 0 there are `k` windows where `(k-1)*size < n - start <= k*size`, i.e. `ceil((n-start)/size)` |
| ChunkingProperties.SlicesRejoinWithoutOverlap | rag/chunking.py:12-17 | with overlap 0 the slices from `start` on concatenate to the rest of the text |
| ChunkingProperties.ChunksRejoinWithoutOverlap | rag/chunking.py:12-17 | with overlap 0 the chunks concatenate to the normalised text, and there are `ceil(len/chunk_size)` of them |
| ChunkingProperties.ThousandCharacterExample | rag/chunking.py:12-17 | 1000 characters, size 400, overlap 50: windows [0,400), [350,750), [700,1000) |
| Fingerprint.ContentHash | rag/ingest.py:24-25 | the content hash is 64 lowercase hex characters, so it is never empty |
| Fingerprint.StableSourceId | rag/ingest.py:28-30 | the id is 16 lowercase hex characters, a prefix of the digest of the path alone (the content is not an input) |
| Fingerprint.SourceIdsDiffer | rag/ingest.py:28-30 | paths whose digests differ within the first 16 characters get different ids |
| VectorIndex.SourceOf | rag/ingest.py:65-69 | a source is read only when the metadata and `source` are both present and non-empty |
| VectorIndex.HashOf | rag/ingest.py:72 | a hash is read only when `file_hash` is present and non-empty |
| VectorIndex.MetasOf | rag/ingest.py:57-58 | the metadata list has one entry per record, in storage order |
| VectorIndex.WithoutSource | rag/ingest.py:79 | `delete(where={"source": src})` never adds records |
| VectorIndex.WithoutSourceKeeps | rag/ingest.py:79 | a delete keeps exactly the records whose source is not `src`, and all of them |
| VectorIndex.HasSource | rag/ingest.py:79 | `where={"source": src}` selects a record exactly when it has metadata whose `source` equals `src` |
| VectorIndex.BuildRecords | rag/ingest.py:120 | `add` builds record `i` from id `i`, document `i`, metadata `i` and embedding `i` |
| VectorIndex.Collection.Get | rag/ingest.py:57-59 | `get` returns the ids and metadata of all records, changes nothing, and is logged |
| VectorIndex.Collection.DeleteBySource | rag/ingest.py:79 | the records become `WithoutSource` of the old ones, and the delete is logged |
| VectorIndex.Collection.Add | rag/ingest.py:120 | the built records are appended after the old ones, and the `add` is logged |
| Ingest.FirstHash | rag/ingest.py:72-73 | a kept hash is never empty |
| Ingest.FirstHashWitness | rag/ingest.py:72-73 | a kept hash is the hash of some record of that source |
| IngestProperties.FirstHashNone | rag/ingest.py:64-73 | no hash is kept for `src` exactly when no record of `src` has a truthy hash |
| IngestProperties.FirstHashIsEarliest | rag/ingest.py:71-73 | the kept hash is that of the earliest record of `src` with a truthy hash |
| IngestProperties.FirstHashAppend | rag/ingest.py:64-73 | records appended later never override a hash already kept |
| Ingest.AggregatedHashes | rag/ingest.py:64-73 | the loop's `db_sources` has exactly the sources with a first hash, each mapped to it |
| Ingest.AggregatedIds | rag/ingest.py:64-70 | `ids_by_source` has exactly the truthy sources, each with all of its ids in storage order |
| Ingest.IdsOfAbsentSource | rag/ingest.py:64-70 | a source that no record carries has no ids |
| Ingest.Aggregate | rag/ingest.py:61-73 | the aggregation loop over `zip(ids, metas)` fills both maps as stated by `AggregatedHashes` and `AggregatedIds` |
| Ingest.AggregateIsDbSources | rag/ingest.py:61-73 | the map the loop builds equals `DbSources` of the index's metadata |
| IngestProperties.DbSourcesAt | rag/ingest.py:61-73 | `src` is in `db_sources` exactly when it has a first hash, and maps to that hash |
| Ingest.Aggregated | rag/ingest.py:61-73 | the two maps of the aggregation loop after each record, as a fold; `AggregatedHashes` and `AggregatedIds` state what they hold |
| Ingest.DbSources | rag/ingest.py:61-73 | `db_sources` as a map from each truthy source with a first hash to that hash; `DbSourcesAt` states it |
| Ordering.LessTotal | rag/ingest.py:76 | different strings are ordered one way or the other |
| Ordering.LessTransitive | rag/ingest.py:76 | string order is transitive |
| Ordering.Less | rag/ingest.py:76 | Python's string comparison: code-point order, a proper prefix first |
| Ordering.Insert | rag/ingest.py:76 | inserting a new string keeps the sequence strictly sorted, with exactly one more member |
| Ordering.SortedOf | rag/ingest.py:76 | `sorted(set)` is strictly sorted and has exactly the set's members |
| Ordering.SortedUnique | rag/ingest.py:76 | a set has one strictly sorted arrangement |
| Ordering.SortStrings | rag/ingest.py:76 | computes a strictly sorted sequence of exactly the set's members |
| Ingest.DeleteOps | rag/ingest.py:77-79 | one delete per source, in the order given |
| Ingest.PathsOf | rag/ingest.py:49 | `current_paths`: the set of the documents' paths |
| Ingest.DeletedSources | rag/ingest.py:76 | `deleted_sources`: the indexed sources with no current file, in `sorted` order |
| Ingest.DeleteNext | rag/ingest.py:79 | one `delete(where={"source": path})`: the records become `WithoutSource` of the old ones, and the logged deletes grow by one |
| Ingest.DeleteSources | rag/ingest.py:77-79 | the loop over `deleted_sources` makes exactly those deletes, in order, and leaves the records those deletes produce |
| Ingest.ChunkIds | rag/ingest.py:110-114 | chunk `i` of a document gets the id `base + ":" + str(i)` |
| Ingest.ChunkIdsDistinct | rag/ingest.py:110-113 | ids built from equally long bases (every `stable_source_id` has 16 characters) coincide only for the same chunk of the same base |
| Text.NatToString | rag/ingest.py:113 | `str(i)` is a non-empty string of digits that starts with `0` only for 0 |
| Text.DecimalRoundTrip | rag/ingest.py:113 | reading back `str(i)` gives `i` |
| Text.NatToStringInjective | rag/ingest.py:113 | different chunk numbers give different id suffixes |
| Ingest.ChunkMetas | rag/ingest.py:116 | chunk `i` gets the metadata `{source: path, chunk: i, file_hash: hash}` |
| Ingest.PreviousHash | rag/ingest.py:96 | `db_sources.get(path, {}).get("file_hash")`: the kept hash of the path, or `None` |
| Ingest.ActionFor | rag/ingest.py:95-106 | skip when the kept hash equals the content hash, create when there is none, update otherwise |
| Ingest.QueueChunks | rag/ingest.py:112-116 | the `enumerate(chunks)` loop appends each chunk's id, text and metadata to the three lists |
| Ingest.Step | rag/ingest.py:94-107 | a document adds its path to the deleted-for-update paths exactly when it is updated and the loop has not stopped |
| Ingest.Rewrite | rag/ingest.py:109-116 | chunking a document deletes nothing |
| IngestProperties.StepCountsOnce | rag/ingest.py:98-106 | each document moves exactly the counter of its action, by one |
| IngestProperties.SkipAddsNothing | rag/ingest.py:98-100 | a skipped document queues no id, text or metadata, deletes nothing and cannot raise |
| IngestProperties.RewriteWritesChunks | rag/ingest.py:109-116 | a created or updated document with chunks queues one metadata entry per chunk, carrying its path and content hash |
| Ingest.Classify | rag/ingest.py:94-122 | the three add lists have equal lengths; `created + updated + skipped == files_total` when the loop completes |
| Ingest.ClassifyStopsAtFailure | rag/ingest.py:94-109 | once `chunk_text` has raised, the later documents change nothing |
| IngestProperties.ClassifyFailure | rag/ingest.py:109 | the only error the loop can stop on is "overlap must be < chunk_size", with `overlap >= chunk_size` |
| Ingest.ChunkDocument | rag/ingest.py:109-116 | chunks a created or updated document and queues its chunks, or records the `ValueError` |
| Ingest.ProcessDocument | rag/ingest.py:94-116 | one loop iteration: updates the pass as `Step` does; the only call it makes on the index is the delete of an updated document's path, and the records change exactly by that delete |
| Ingest.ClassifyDocuments | rag/ingest.py:94-116 | the document loop computes `Classify`, deleting exactly the updated paths in order; the records are those deletes applied to the old ones |
| Ingest.AddOps | rag/ingest.py:118-120 | there is an `add` exactly when the loop completed and queued some text, and at most one |
| Ingest.PlannedOps | rag/ingest.py:48-120 | the calls `main` makes on an index holding the given records: none without documents, otherwise one read, the deletes of `deleted_sources`, the deletes of updated paths, and the `add` when there is text to add |
| Ingest.PlannedOutcome | rag/ingest.py:48-123 | what `main` reports: no documents, the `ValueError` of `chunk_text`, or the totals with the deleted sources |
| Ingest.Ingest | rag/ingest.py:48-123 | makes exactly the calls of `PlannedOps` and reports `PlannedOutcome`; the collection's records afterwards are the old ones with those calls applied, so the lemmas about `ApplyOps` of the plan describe the collection itself; with no documents the index is neither read nor changed |
| IngestProperties.OpsOrder | rag/ingest.py:57-120 | with documents, the calls are one read, then deletes only, then at most one `add`, in that order; with none, no call |
| IngestProperties.DeleteTargets | rag/ingest.py:76-107 | every delete is for a source with no current file or for an updated document |
| IngestProperties.NeverDeletesUnknownSources | rag/ingest.py:72-79 | a deleted source had a truthy `file_hash` in the index, and no created document is deleted |
| IngestProperties.FailureAddsNothing | rag/ingest.py:109-120 | when `chunk_text` raises, the deletes made so far stay, nothing is added, and the error is the overlap error |
| IngestProperties.FirstHashWithoutSource | rag/ingest.py:79 | a delete forgets the hash of its source and keeps every other source's |
| IngestProperties.FirstHashAfterDeletes | rag/ingest.py:76-79 | after a run of deletes, the deleted sources have no hash and the others keep theirs |
| IngestProperties.FirstHashOfChunks | rag/ingest.py:112-116 | a document's queued metadata gives its path exactly its content hash, when it has a chunk |
| IngestProperties.NonBlankIsSubstantial | rag/ingest.py:109 | with non-empty paths and non-blank texts, each document either raises or yields at least one chunk |
| IngestProperties.NotQueued | rag/ingest.py:94-116 | the loop queues no hash for a source that no document creates or updates, with no condition on the documents |
| IngestProperties.PassHashOf | rag/ingest.py:94-116 | with distinct paths, a completed loop queues as the first hash for a created or updated document's path that document's content hash, when the path is non-empty and the text yields at least one chunk |
| IngestProperties.RewrittenAreUpdates | rag/ingest.py:103-107 | only updated documents' paths are deleted in the loop |
| IngestProperties.UpdatesAreRewritten | rag/ingest.py:103-107 | a completed loop has deleted the path of every updated document |
| IngestProperties.AllSkipped | rag/ingest.py:98-100 | when every document is unchanged, the loop only counts them as skipped |
| IngestProperties.MetasAfterPlan | rag/ingest.py:75-120 | afterwards the index holds what the deletes left, followed by the queued metadata when the loop completed |
| IngestProperties.KeptHashOf | rag/ingest.py:76-107 | after the two runs of deletes, a current file's path keeps its stored hash when the file is skipped and has no hash when it is created or updated |
| IngestProperties.DocumentHashAfterPlan | rag/ingest.py:94-120 | after a completed run over files with distinct paths, the path of a current file has that file's content hash as its first hash, when the path is non-empty and the text yields at least one chunk |
| IngestProperties.StrayHashAfterPlan | rag/ingest.py:75-120 | after a completed run, no path without a current file keeps a hash, for any documents |
| IngestProperties.NothingChanged | rag/ingest.py:75-100 | when the kept hashes are exactly the files' content hashes, every file is skipped and nothing is deleted |
| IngestProperties.PlanWhenNothingChanged | rag/ingest.py:118-120 | an index where nothing changed is only read |
| IngestProperties.OutcomeWhenNothingChanged | rag/ingest.py:90-123 | the report for it: all files skipped, nothing created, updated, written or deleted |
| IngestProperties.SecondPassIsNoOp | rag/ingest.py:48-123 | a second run over the same files only reads the index and reports every file as skipped |
| IngestProperties.UnchunkedDocumentIsCreatedAgain | rag/ingest.py:103-120 | over any index with no hash for its path, a file that chunks into nothing is counted as created and nothing is added for it; its path still has no hash afterwards, so every later run creates it again |
| IngestProperties.BlankTextHasNoChunks | rag/chunking.py:4-6 | a whitespace-only file such as `" \r\n"` yields no chunks, whatever the settings |
| ChatService.ContextBlock | rag/chat_service.py:57 | a block is the header line, a newline, then the document |
| ChatService.Header | rag/chat_service.py:57 | the header line `[source=… chunk=…]` of a block, with `str()` of the source and chunk |
| ChatService.ContextBlocks | rag/chat_service.py:55-57 | one block per `zip(docs, metas)` pair, `min(len)` of them, in retrieval order |
| ChatService.Context | rag/chat_service.py:59 | the blocks joined with `"\n\n---\n\n"` |
| Text.Join | rag/chat_service.py:59 | `sep.join(parts)`: the parts with the separator between each two; `JoinPartAt` states where each part sits |
| ChatService.Prompt | rag/chat_service.py:62-71 | the f-string prompt: instructions, `CONTEXT:`, the context, `QUESTION:`, the question and a newline; `PromptLayout` states it |
| Text.IntToString | rag/chat_service.py:57 | `str(chunk)` is non-empty and starts with `-` exactly for negative numbers |
| Text.JoinPartAt | rag/chat_service.py:59 | part `i` of `sep.join(parts)` sits at its offset; the next part follows after one separator; the last part ends the string |
| ChatProperties.OffsetsIncrease | rag/chat_service.py:59 | a later part of a join starts after an earlier part and a separator |
| ChatProperties.BlockInContext | rag/chat_service.py:55-59 | block `i` appears verbatim in the context at its offset |
| ChatProperties.DocumentInContext | rag/chat_service.py:55-59 | the retrieved document appears verbatim in the context, right after its header line |
| ChatProperties.BlocksInRetrievalOrder | rag/chat_service.py:55-59 | an earlier result's block ends, with a separator, before a later one's starts |
| ChatProperties.PromptLayout | rag/chat_service.py:62-71 | the prompt is the instructions, `CONTEXT:`, the context, `QUESTION:`, the question and a newline, in that order |
| ChatProperties.ContextInPrompt | rag/chat_service.py:62-71 | the context sits in the prompt right after the instructions and `CONTEXT:` |
| ChatProperties.ShiftIntoPrompt | rag/chat_service.py:62-71 | text at offset `o` of the context is at a fixed further offset in the prompt, so every retrieved document appears verbatim in the prompt |
| ChatService.AnswerText | rag/chat_service.py:78 | a missing reply gives `""`; otherwise the answer is the stripped reply, which neither starts nor ends with whitespace |
| ChatService.References | rag/chat_service.py:81-88 | one reference per `zip(metas, distances)` pair, in retrieval order, with the source, chunk and distance of that result |
| ChatService.LanguageModel.Respond | rag/chat_service.py:73-76 | the model returns its reply for the prompt, and the prompt is recorded |
| ChatService.Ask | rag/chat_service.py:48-90 | `ask_question` after the search, as a function of the results and the model's reply: the apology for no results, `MissingMetadata` when a block's or a reference's metadata lacks `source` or `chunk`, otherwise the stripped answer and the references |
| ChatService.PromptsSent | rag/chat_service.py:48-76 | the prompts sent to the model: none for no results or an unreadable block, otherwise exactly the one prompt |
| ChatService.AskQuestion | rag/chat_service.py:48-90 | the outcome is `Ask`'s. An empty result answers the fixed apology with no references and sends no prompt. Otherwise exactly one prompt is sent, unless a block's metadata lacks a key |
| ChatProperties.AnsweredShape | rag/chat_service.py:73-90 | with readable metadata the model is asked once; a missing reply gives the empty answer; there is one reference per `zip(metas, distances)` pair |
| ChatProperties.UnreadableBlockAsksNothing | rag/chat_service.py:56-57 | a block whose metadata lacks `source` or `chunk` raises before the model is asked |
| ChatProperties.DuplicateReferencesKept | rag/chat_service.py:81-88 | references are not deduplicated: two results for the same chunk give two equal references |

## Left out

- `rag/api.py`, `rag/chat.py`, `rag/config.py` and `rag/ingest_service.py` are not part of this model. They are HTTP routing, an interactive loop, settings loading and a wrapper that always reports zero counts.
- `read_docs` is replaced by its result: a sequence of `(path, text)` documents.
  - File globbing, sorting and reading are not modelled.
  - The idempotence lemmas assume distinct, non-empty paths, as `glob` yields.
- Every `print` is left out. `main` prints and returns when `docs/` is empty; this becomes the outcome `NoDocuments`.
- The OpenAI embedding and response calls are parameters. So are SHA-256 and the vector search:
  - the embedder returns one vector per text;
  - SHA-256 returns 64 lowercase hex characters and is otherwise uninterpreted;
  - the question embedding and `col.query` are replaced by their result (documents, metadata and distances).
- Chroma's internals are reduced to what the ingester relies on:
  - `get` returns records in storage order;
  - `delete(where=…)` filters records by source;
  - `add` appends.
  - Chroma's rejection of duplicate ids on `add` is not modelled.
- Failures of the external calls are not modelled: the embedder, `col.get`, `col.delete`, `col.add` and the model's response call always return.
  - In the program, `embed_texts` runs after every delete. If it raised, the stray and updated sources would already have lost their records and nothing new would be written. `Ingest` has no outcome for that case.
  - A failing response call in `ask_question` would raise instead of answering. `Ask` has no outcome for that case.
- Distances are carried as `real` and never compared. The `float()` conversion is the identity.
- Chunk numbers are integers in the model, so `int(m["chunk"])` is the identity. A `chunk` stored as a string or float is not modelled.
- A metadata key that is present but of another type (a non-string `source`) is not modelled. A missing key or missing metadata gives `MissingMetadata`, which stands for the `KeyError`/`TypeError`.
- Reference deduplication and streaming events are absent from the code and not modelled. `DuplicateReferencesKept` shows duplicates are kept.
- In `Ingest`, `chunk_text` is applied through `ChunkerFor(cfg)`, a function value that fixes its two settings. The properties are proved for any such chunking function.
- `IngestProperties.SecondPassIsNoOp`: stated only for documents with non-empty paths whose text yields at least one chunk (`Substantial`).
  - A file whose normalised text is empty writes no records. It is therefore counted as created on every run; see `UnchunkedDocumentIsCreatedAgain`.
  - A document with an empty path is not tracked: its metadata source is falsy.
- `IngestProperties.SecondPassIsNoOp`: it holds for the program only when Chroma accepts every record of the first run's `add`, because the model's `add` always appends.
  - The queued ids must be pairwise distinct. `Ingest.ChunkIdsDistinct` shows that two chunk ids differ when their `stable_source_id`s differ or their chunk numbers do. Two paths whose digests share their first 16 hex characters would collide.
  - No queued id may already be in the index. Suppose a record without `file_hash` is left over under such an id. Chroma then does not store the file's new records. The program never sees the file's hash and treats the file as new on every run, while the model's second run skips it.
- `IngestProperties.PassHashOf` and `IngestProperties.DocumentHashAfterPlan`: stated for documents with distinct paths, and only for a document with a non-empty path whose text yields at least one chunk.
  - `sorted(glob.glob("docs/*"))` yields distinct, non-empty paths.
  - A text that yields no chunk is covered by `UnchunkedDocumentIsCreatedAgain`. `NotQueued` and `StrayHashAfterPlan` need none of these conditions.
- `ChunkingProperties.ChunkShape`, `ChunkingProperties.ChunkOverlap` and `ChunkingProperties.WindowsShape`: stated for `0 <= overlap`.
  - A negative overlap (gaps between windows) is modelled by `ChunkText` and `Windows`, but these shape lemmas do not cover it.
- `Text.ReplaceCrlf` follows `str.replace` left to right and does not rescan. `"\r\r\n"` becomes `"\r\n"`, as in Python.
