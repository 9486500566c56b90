# Incremental PDF ingestion into a Chroma vector store

This project models the ingestion core of `code/utils/populate_db.py` in Dafny:

- `calculate_chunk_ids` gives every chunk the id `"<source>:<page>:<index>"` in one
  left-to-right scan. The index counts how many chunks directly before it, in an unbroken
  run, share its `"<source>:<page>"` page key.
- `add_to_chroma` tags the chunks. It then fetches the ids already in the store, keeps
  the chunks whose id is absent (in their order), adds exactly those under their ids,
  and returns how many it added.
- `populate_database` optionally resets the store, then checks the data directory and
  loads the documents. It splits them, calls `add_to_chroma`, and turns every outcome
  into the result dictionary: a failure message, or success with three counts.
- `clear_database` removes the store directory, which leaves the store empty.

Modules:

- `Render` (`render.dfy`) models Python's `str()` of an integer inside an f-string. It
  proves that rendering can be read back, so distinct numbers render to distinct strings.
- `ChunkIds` (`chunk_ids.dfy`) holds the chunk class and the in-place scan. The scan is
  proved against a specification function: `RunIndex` gives the index at a position and
  `AssignedIds` the whole list of ids. It also proves what the ids mean. Ids are pairwise
  distinct exactly when each page key's chunks are adjacent.
- `Chroma` (`chroma.dfy`) is the store: a map from id to record. It has three operations:
  fetch all ids, add a batch under given ids (an upsert), and remove everything.
- `PopulateDb` (`populate_db.dfy`) models the diff, the insertion and the result rules.
  The diff is `Fresh`, an order-preserving filter. Inserting the new entries gives
  `Ingested`. Lemmas prove three things about them:
  - every stored record is kept;
  - afterwards every chunk's id is stored;
  - a second run finds nothing new.
- `Sequences` and `Wrappers` hold `Distinct`, `Option`, `Result` and `Outcome`.

The store is modelled as a class whose `records` map the methods update. Chunks are
objects whose `id` field the scan writes in place, as the source writes `chunk.metadata["id"]`.

A missing `source` or `page` metadata entry reads as `None`, and the f-string then shows
it as the text `None`. The model keeps that behaviour: a missing source becomes the page
key text `"None"`, just like a file actually named `None`. `PageKeyInjective` states
exactly when two page keys coincide.

`clear_database` removes the whole store directory and reports no count. The id-by-id
deletion with a count in `Flask backend/utils/clear_db.py` is not modelled.

## Model

| member | source | states |
|---|---|---|
| Render.NatToStringRoundTrip | code/utils/populate_db.py:74 | The decimal rendering of a chunk index is all digits, and reading it back gives the index. |
| Render.IntToStringRoundTrip | code/utils/populate_db.py:65 | The rendering of an integer page number starts with '-' exactly when the number is negative and is digits otherwise; reading it back gives the number. |
| Render.NatToStringInjective | code/utils/populate_db.py:74 | Different chunk indexes render to different strings. |
| Render.IntToStringInjective | code/utils/populate_db.py:65 | Different page numbers render to different strings. |
| ChunkIds.ShowPageHasNoColon | code/utils/populate_db.py:64-65 | A shown page (a number or `None`) never contains ':', so the last ':' of a page key separates the page. |
| ChunkIds.CalculateChunkIds | code/utils/populate_db.py:55-80 | The scan returns the same chunk list and writes, in place, id `ChunkId(key, RunIndex(keys, i))` into chunk i: the page key at i, then the index from the reset-or-increment rule. Text, source and page are unchanged (they are constants). |
| ChunkIds.ScannedIdsArePrefix | code/utils/populate_db.py:59-78 | After the first n steps, the ids the scan has written are exactly the first n ids of the specification `AssignedIds`. |
| ChunkIds.RunIndexIsRunLength | code/utils/populate_db.py:67-71 | The index at i is k exactly when the k positions just before i carry i's page key and the one before them, if any, does not. The reset and +1 rule therefore counts the unbroken run. |
| ChunkIds.RunIndexAcrossBlock | code/utils/populate_db.py:67-69 | Across a block of equal page keys the index grows by exactly one per chunk. |
| ChunkIds.ChunkIdInjective | code/utils/populate_db.py:74 | Two ids `f"{page_id}:{index}"` are equal only when their page keys and indexes are equal. |
| ChunkIds.PageKeyInjective | code/utils/populate_db.py:63-65 | Two page keys `f"{source}:{page}"` are equal exactly when the shown sources and the pages are equal. |
| ChunkIds.IdsDistinctIffGrouped | code/utils/populate_db.py:59-78 | The scan's ids are pairwise distinct if and only if the chunks of every page key are contiguous. |
| ChunkIds.IdsDistinctWhenOriginsGrouped | code/utils/populate_db.py:62-78 | When the chunks of every (source, page) are adjacent, as the splitter emits them, all ids differ. |
| ChunkIds.TwoDocumentIds | code/utils/populate_db.py:55-80 | doc1.pdf page 0 with three chunks and doc2.pdf page 0 with two get ids doc1.pdf:0:0, doc1.pdf:0:1, doc1.pdf:0:2, doc2.pdf:0:0, doc2.pdf:0:1. |
| Chroma.Batch | code/utils/populate_db.py:48 | The batch `add_documents(new_chunks, ids=new_chunk_ids)` holds exactly the given ids, and each id maps to the record at the same position. |
| Chroma.Store.GetIds | code/utils/populate_db.py:35-36 | `db.get(include=[])["ids"]` as a set is the set of stored ids, or the backend's error. |
| Chroma.Store.AddDocuments | code/utils/populate_db.py:48 | On a backend failure, or on a batch that repeats an id, the call fails and the store is unchanged. Otherwise the store becomes the old records overwritten by the batch (an upsert). |
| Chroma.Store.Clear | code/utils/populate_db.py:82-84 | After removing the store directory the store holds no records. |
| PopulateDb.SelectNew | code/utils/populate_db.py:40-43 | The loop's `new_chunks` has, as (id, record) entries, exactly `Fresh`: the chunks whose id is not in `existing_ids`, in their original order. |
| PopulateDb.FreshMembers | code/utils/populate_db.py:40-43 | An entry is selected if and only if it is among the chunks and its id is not stored. |
| PopulateDb.FreshKeepsDistinct | code/utils/populate_db.py:40-43 | Filtering keeps ids pairwise distinct. |
| PopulateDb.IngestedKeys | code/utils/populate_db.py:45-48 | After the insert, the stored ids are exactly the old ids together with the new chunks' ids. |
| PopulateDb.IngestedKeepsExisting | code/utils/populate_db.py:40-48 | Records already stored keep their id and their content: only absent ids are written. |
| PopulateDb.IngestedCoversAll | code/utils/populate_db.py:34-48 | After the insert, every chunk's id is stored. |
| PopulateDb.FreshOfStoredIsEmpty | code/utils/populate_db.py:40-43 | When every chunk's id is already stored, `new_chunks` is empty. |
| PopulateDb.SecondRunFindsNothing | code/utils/populate_db.py:34-50 | Diffing the same chunks against the store the first run produced selects nothing. |
| PopulateDb.GroupedBatchHasNoRepeats | code/utils/populate_db.py:31-48 | With contiguous page keys, the batch passed to `add_documents` never repeats an id. |
| PopulateDb.AddToChroma | code/utils/populate_db.py:25-53 | The chunks end up tagged by the scan. The call returns Ok(n) exactly when the backend works and the new chunks' ids differ. Then n is the number of chunks whose id was absent, and the store is the old one plus exactly those chunks. Otherwise it returns the backend's or the duplicate-id error and leaves the store unchanged. With contiguous page keys and a working backend it always succeeds. |
| PopulateDb.AddNewChunks | code/utils/populate_db.py:34-53 | On tagged chunks: fetch ids, select, add. The result follows the same Ok-iff rule, count, new store and error text as AddToChroma, stated over the chunks' own ids. |
| PopulateDb.AddBatch | code/utils/populate_db.py:45-53 | With no new chunks it returns 0 and does not touch the store. Otherwise it adds them under their ids and returns their number, or returns the store's error with the store unchanged. |
| PopulateDb.PopulateDatabase | code/utils/populate_db.py:86-132 | After the optional reset there are four outcomes: <br>• a missing data directory gives its message; <br>• a loading error gives "Error populating database: …"; <br>• no documents gives its message. <br>In these three cases the store stays at the post-reset state and no chunk changes. <br>• Otherwise it gives the `add_to_chroma` outcome. That is a success with the populated or nothing-new message chosen by the added count, the document and chunk counts, and the store extended by exactly the new chunks; or the error message with the store unchanged. |
| PopulateDb.RepopulateAddsNothing | code/utils/populate_db.py:86-132 | Running `populate_database` on the same data first with or without a reset, then without one: if the first run succeeds, the second reports success with the nothing-new message and 0 new documents. |

## Left out

- Loading PDF files (`load_documents`, `PyPDFDirectoryLoader`) is an input: `loaded` is either the loaded documents or the loader's error text.
- Splitting into chunks of 800 characters with 80 of overlap (`split_documents`) is an input: `chunks` is the splitter's output. The model does not relate it to the documents, and a splitter error is not modelled.
- Whether the data directory exists (`os.path.exists`) is an input, `dataDirExists`.
- Embedding vectors, `get_embedding_function`, persistence on disk and similarity search are outside the model. A store record holds the chunk's text, source and page; the `"id"` metadata entry and the loader's other metadata keys are not kept.
- Opening the store (`Chroma(...)`) cannot fail in the model. Every backend or embedding exception is one `failure` value that each store call reports, so a failure to open shows up as the failure of fetching the ids.
- Exception texts are arbitrary strings. `DuplicateIdsError` stands in for the text of the store's duplicate-id exception.
- The store writes a batch completely or not at all. A real backend may write part of a batch before raising.
- `Chroma.Store.Clear` always succeeds. An exception from `shutil.rmtree`, which `populate_database` would report as an error message, is not modelled.
- `ChunkIds.CalculateChunkIds` requires the chunk objects to be pairwise different objects. The splitter creates a new object per chunk; with a repeated object the source would let the later id overwrite the earlier one.
- `PopulateDb.SelectNew` states the selected chunks through their ids and records, not through object identity.
- Page numbers are integers or missing. Other metadata value types that an f-string would also format are not modelled.
- Console output (the `print` calls) is not modelled.
- The reset script `Flask backend/utils/clear_db.py`, which deletes ids and reports a count, is not part of this model.
