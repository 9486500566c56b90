/**
 * Incremental ingestion: tag every chunk with its id, keep the chunks whose id the store
 * does not hold yet, add exactly those, and report the outcome. Loading the PDF files and
 * splitting them into chunks are inputs to this model.
 */
module PopulateDb {
  import opened Wrappers
  import opened Sequences
  import opened ChunkIds
  import opened Chroma

  const DataPath := "data"
  const MissingDataMessage := "Data directory '" + DataPath + "' not found. Please create it and add PDF files."
  const NoDocumentsMessage := "No PDF documents found in '" + DataPath + "' directory."
  const PopulatedMessage := "Database populated successfully"
  const NothingNewMessage := "No new documents were added. All documents already exist in the database."

  /** The message of the catch-all handler for an exception with the given text. */
  function ErrorMessage(error: string): string {
    "Error populating database: " + error
  }

  /** A page loaded from a PDF file: its text and its metadata. */
  datatype Document = Document(text: string, source: Option<string>, page: Option<int>)

  /** The dictionary `populate_database` returns. */
  datatype PopulateResult =
    | Failure(message: string)
    | Success(message: string, documentsProcessed: nat, chunksCreated: nat, newDocumentsAdded: nat)

  /** Every chunk has an "id" entry. */
  predicate AllTagged(chunks: seq<Chunk>)
    reads chunks
  {
    forall i :: 0 <= i < |chunks| ==> chunks[i].id.Some?
  }

  /** The record the store keeps for a chunk. */
  function RecordOf(chunk: Chunk): Record {
    Record(chunk.text, chunk.source, chunk.page)
  }

  /** A tagged chunk as the store sees it: its id and its record. */
  type Entry = (string, Record)

  /** The entries of tagged chunks, in order. */
  function Entries(chunks: seq<Chunk>): (entries: seq<Entry>)
    requires AllTagged(chunks)
    reads chunks
    ensures |entries| == |chunks|
    ensures forall i :: 0 <= i < |chunks| ==> entries[i] == (chunks[i].id.value, RecordOf(chunks[i]))
  {
    if chunks == [] then []
    else
      var last := chunks[|chunks| - 1];
      Entries(chunks[..|chunks| - 1]) + [(last.id.value, RecordOf(last))]
  }

  /** The entries that tagging gives a sequence of chunks: assigned ids with the chunks' records. */
  function TaggedEntries(chunks: seq<Chunk>): (entries: seq<Entry>)
    ensures |entries| == |chunks|
    ensures forall i :: 0 <= i < |chunks| ==> entries[i] == (AssignedIds(Keys(chunks))[i], RecordOf(chunks[i]))
  {
    var ids := AssignedIds(Keys(chunks));
    seq(|chunks|, i requires 0 <= i < |chunks| => (ids[i], RecordOf(chunks[i])))
  }

  /** `[chunk.metadata["id"] for chunk in new_chunks]` */
  function IdsOf(entries: seq<Entry>): (ids: seq<string>)
    ensures |ids| == |entries|
    ensures forall i :: 0 <= i < |entries| ==> ids[i] == entries[i].0
  {
    seq(|entries|, i requires 0 <= i < |entries| => entries[i].0)
  }

  /** The records of the entries, in order: the documents handed to the store. */
  function RecordsOf(entries: seq<Entry>): (records: seq<Record>)
    ensures |records| == |entries|
    ensures forall i :: 0 <= i < |entries| ==> records[i] == entries[i].1
  {
    seq(|entries|, i requires 0 <= i < |entries| => entries[i].1)
  }

  /**
   * The entries, in their order, whose id is not among the existing ids: the list
   * `new_chunks` that `add_to_chroma` builds.
   */
  function Fresh(entries: seq<Entry>, existing: set<string>): (novel: seq<Entry>)
    ensures |novel| <= |entries|
  {
    if entries == [] then []
    else
      var last := entries[|entries| - 1];
      Fresh(entries[..|entries| - 1], existing) + (if last.0 in existing then [] else [last])
  }

  /** The new entries are exactly the entries whose id is not stored. */
  lemma {:induction false} FreshMembers(entries: seq<Entry>, existing: set<string>)
    ensures forall e :: e in Fresh(entries, existing) <==> e in entries && e.0 !in existing
  {
    if entries != [] {
      var init := entries[..|entries| - 1];
      FreshMembers(init, existing);
      assert entries == init + [entries[|entries| - 1]];
    }
  }

  /** The store's records once the new entries are added under their ids. */
  function Ingested(records: map<string, Record>, novel: seq<Entry>): map<string, Record>
    requires Distinct(IdsOf(novel))
  {
    records + Batch(RecordsOf(novel), IdsOf(novel))
  }

  /** The loop of `add_to_chroma` that collects the chunks whose id is not stored yet. */
  method SelectNew(chunks: seq<Chunk>, existing: set<string>) returns (newChunks: seq<Chunk>)
    requires AllTagged(chunks)
    ensures AllTagged(newChunks)
    ensures Entries(newChunks) == Fresh(Entries(chunks), existing)
  {
    newChunks := [];
    for i := 0 to |chunks|
      invariant AllTagged(newChunks)
      invariant Entries(newChunks) == Fresh(Entries(chunks[..i]), existing)
    {
      assert chunks[..i + 1][..i] == chunks[..i];
      if chunks[i].id.value !in existing {
        assert (newChunks + [chunks[i]])[..|newChunks|] == newChunks;
        newChunks := newChunks + [chunks[i]];
      }
    }
    assert chunks[..|chunks|] == chunks;
  }

  /** Keeping only the absent entries keeps the ids pairwise distinct. */
  lemma {:induction false} FreshKeepsDistinct(entries: seq<Entry>, existing: set<string>)
    requires Distinct(IdsOf(entries))
    ensures Distinct(IdsOf(Fresh(entries, existing)))
  {
    if entries != [] {
      var init := entries[..|entries| - 1];
      assert IdsOf(init) == IdsOf(entries)[..|entries| - 1];
      DistinctIffPairwise(IdsOf(entries));
      DistinctIffPairwise(IdsOf(init));
      FreshKeepsDistinct(init, existing);
      FreshMembers(init, existing);
      DistinctIffPairwise(IdsOf(Fresh(init, existing)));
      DistinctIffPairwise(IdsOf(Fresh(entries, existing)));
      var last := entries[|entries| - 1];
      forall e | e in Fresh(init, existing) ensures e.0 != last.0 {
        var k :| 0 <= k < |init| && init[k] == e;
        assert IdsOf(entries)[k] != IdsOf(entries)[|entries| - 1];
      }
    }
  }

  /** After adding the absent entries the store holds the old ids and the new ones. */
  lemma IngestedKeys(records: map<string, Record>, entries: seq<Entry>)
    requires Distinct(IdsOf(Fresh(entries, records.Keys)))
    ensures var novel := Fresh(entries, records.Keys);
      forall k :: k in Ingested(records, novel) <==> k in records || k in IdsOf(novel)
  {
  }

  /** Adding the absent entries leaves every record already stored as it was. */
  lemma IngestedKeepsExisting(records: map<string, Record>, entries: seq<Entry>)
    requires Distinct(IdsOf(Fresh(entries, records.Keys)))
    ensures var after := Ingested(records, Fresh(entries, records.Keys));
      forall k :: k in records ==> k in after && after[k] == records[k]
  {
    var novel := Fresh(entries, records.Keys);
    var ids := IdsOf(novel);
    FreshMembers(entries, records.Keys);
    forall k | k in records ensures k !in ids {
    }
  }

  /** After adding the absent entries the store holds an id for every entry. */
  lemma IngestedCoversAll(records: map<string, Record>, entries: seq<Entry>)
    requires Distinct(IdsOf(Fresh(entries, records.Keys)))
    ensures forall e :: e in entries ==> e.0 in Ingested(records, Fresh(entries, records.Keys))
  {
    var novel := Fresh(entries, records.Keys);
    var ids := IdsOf(novel);
    FreshMembers(entries, records.Keys);
    forall e | e in entries && e.0 !in records ensures e.0 in ids {
      var j :| 0 <= j < |novel| && novel[j] == e;
    }
  }

  /** Entries whose ids are all stored leave nothing to add. */
  lemma {:induction false} FreshOfStoredIsEmpty(entries: seq<Entry>, existing: set<string>)
    requires forall e :: e in entries ==> e.0 in existing
    ensures Fresh(entries, existing) == []
  {
    if entries != [] {
      var init := entries[..|entries| - 1];
      assert forall e :: e in init ==> e in entries;
      assert entries[|entries| - 1] in entries;
      FreshOfStoredIsEmpty(init, existing);
    }
  }

  /** Running the diff again against the store it produced finds nothing new. */
  lemma SecondRunFindsNothing(records: map<string, Record>, entries: seq<Entry>)
    requires Distinct(IdsOf(Fresh(entries, records.Keys)))
    ensures Fresh(entries, Ingested(records, Fresh(entries, records.Keys)).Keys) == []
  {
    IngestedCoversAll(records, entries);
    FreshOfStoredIsEmpty(entries, Ingested(records, Fresh(entries, records.Keys)).Keys);
  }

  /**
   * `add_to_chroma`: tag the chunks, fetch the stored ids, keep the chunks whose id is
   * absent, add exactly those under their ids, and return how many were added.
   */
  method AddToChroma(store: Store, chunks: seq<Chunk>) returns (r: Result<nat>)
    requires Distinct(chunks)
    modifies chunks, store`records
    ensures Tagged(chunks)
    ensures r.Ok? <==> store.failure.None? && Distinct(IdsOf(Fresh(TaggedEntries(chunks), old(store.records).Keys)))
    ensures r.Ok? ==> var novel := Fresh(TaggedEntries(chunks), old(store.records).Keys);
      r.value == |novel| && store.records == Ingested(old(store.records), novel)
    ensures r.Err? ==> store.records == old(store.records)
    ensures r.Err? ==> r.error == if store.failure.Some? then store.failure.value else DuplicateIdsError
    ensures store.failure.None? && Grouped(Keys(chunks)) ==> r.Ok?
  {
    ghost var before := store.records;
    DistinctIffPairwise(chunks);
    var chunksWithIds := CalculateChunkIds(chunks);
    assert store.records == before;
    TaggedHasEntries(chunks);
    r := AddNewChunks(store, chunksWithIds);
    if Grouped(Keys(chunks)) {
      GroupedBatchHasNoRepeats(chunks, before.Keys);
    }
  }

  /**
   * The store half of `add_to_chroma`, on chunks that already carry their ids: fetch the
   * stored ids, keep the chunks whose id is absent and add those.
   */
  method AddNewChunks(store: Store, chunks: seq<Chunk>) returns (r: Result<nat>)
    requires AllTagged(chunks)
    modifies store`records
    ensures r.Ok? <==> store.failure.None? && Distinct(IdsOf(Fresh(old(Entries(chunks)), old(store.records).Keys)))
    ensures r.Ok? ==> var novel := Fresh(old(Entries(chunks)), old(store.records).Keys);
      r.value == |novel| && store.records == Ingested(old(store.records), novel)
    ensures r.Err? ==> store.records == old(store.records)
    ensures r.Err? ==> r.error == if store.failure.Some? then store.failure.value else DuplicateIdsError
  {
    var existing := store.GetIds();
    if existing.Err? {
      return Err(existing.error);
    }
    var newChunks := SelectNew(chunks, existing.value);
    r := AddBatch(store, newChunks);
  }

  /**
   * The last step of `add_to_chroma`: when there are new chunks, add them under their ids
   * and return their number; otherwise leave the store alone and return 0.
   */
  method AddBatch(store: Store, newChunks: seq<Chunk>) returns (r: Result<nat>)
    requires AllTagged(newChunks)
    modifies store`records
    ensures |newChunks| == 0 ==> r == Ok(0) && store.records == old(store.records)
    ensures |newChunks| > 0 ==> (r.Ok? <==> store.failure.None? && Distinct(IdsOf(old(Entries(newChunks)))))
    ensures r.Ok? ==> var batch := old(Entries(newChunks));
      r.value == |batch| && Distinct(IdsOf(batch)) && store.records == Ingested(old(store.records), batch)
    ensures r.Err? ==> store.records == old(store.records)
    ensures r.Err? ==> r.error == if store.failure.Some? then store.failure.value else DuplicateIdsError
  {
    var newEntries := Entries(newChunks);
    if |newChunks| > 0 {
      var outcome := store.AddDocuments(RecordsOf(newEntries), IdsOf(newEntries));
      if outcome.Fail? {
        r := Err(outcome.error);
      } else {
        r := Ok(|newChunks|);
      }
    } else {
      r := Ok(0);
      assert Batch(RecordsOf(newEntries), IdsOf(newEntries)) == map[];
      assert store.records == Ingested(old(store.records), newEntries);
    }
  }

  /** When each page key's chunks are contiguous, the batch to add never repeats an id. */
  lemma GroupedBatchHasNoRepeats(chunks: seq<Chunk>, existing: set<string>)
    requires Grouped(Keys(chunks))
    ensures Distinct(IdsOf(Fresh(TaggedEntries(chunks), existing)))
  {
    IdsDistinctIffGrouped(Keys(chunks));
    assert IdsOf(TaggedEntries(chunks)) == AssignedIds(Keys(chunks));
    FreshKeepsDistinct(TaggedEntries(chunks), existing);
  }

  /** Once tagged, the chunks' entries are the assigned ids with their records. */
  lemma TaggedHasEntries(chunks: seq<Chunk>)
    requires Tagged(chunks)
    ensures AllTagged(chunks) && Entries(chunks) == TaggedEntries(chunks)
  {
  }

  /**
   * `populate_database`: optionally clear the store, check the data directory, load the
   * documents, split them into `chunks` and add the new ones. Whether the data directory
   * exists and what loading it gives are inputs; so are the chunks the splitter produces.
   */
  method PopulateDatabase(store: Store, reset: bool, dataDirExists: bool,
                          loaded: Result<seq<Document>>, chunks: seq<Chunk>)
    returns (r: PopulateResult)
    requires Distinct(chunks)
    modifies chunks, store`records
    ensures var before := if reset then map[] else old(store.records);
      !(dataDirExists && loaded.Ok? && |loaded.value| > 0) ==> store.records == before && unchanged(chunks)
    ensures !dataDirExists ==> r == Failure(MissingDataMessage)
    ensures dataDirExists && loaded.Err? ==> r == Failure(ErrorMessage(loaded.error))
    ensures dataDirExists && loaded == Ok([]) ==> r == Failure(NoDocumentsMessage)
    ensures dataDirExists && loaded.Ok? && |loaded.value| > 0 ==>
      var before := if reset then map[] else old(store.records);
      var novel := Fresh(TaggedEntries(chunks), before.Keys);
      && Tagged(chunks)
      && (store.failure.Some? ==> r == Failure(ErrorMessage(store.failure.value)) && store.records == before)
      && (store.failure.None? && !Distinct(IdsOf(novel)) ==>
            r == Failure(ErrorMessage(DuplicateIdsError)) && store.records == before)
      && (store.failure.None? && Distinct(IdsOf(novel)) ==>
            && r == Success(if |novel| > 0 then PopulatedMessage else NothingNewMessage,
                            |loaded.value|, |chunks|, |novel|)
            && store.records == Ingested(before, novel))
  {
    if reset {
      store.Clear();
    }
    if !dataDirExists {
      return Failure(MissingDataMessage);
    }
    if loaded.Err? {
      return Failure(ErrorMessage(loaded.error));
    }
    var documents := loaded.value;
    if |documents| == 0 {
      return Failure(NoDocumentsMessage);
    }
    var added := AddToChroma(store, chunks);
    if added.Err? {
      return Failure(ErrorMessage(added.error));
    }
    var message := if added.value > 0 then PopulatedMessage else NothingNewMessage;
    r := Success(message, |documents|, |chunks|, added.value);
  }

  /**
   * Running `populate_database` twice on the same data, the first time with or without a
   * reset and the second time without one: when the first run succeeds, the second one
   * finds every id stored and reports that nothing new was added.
   */
  method RepopulateAddsNothing(store: Store, firstReset: bool, dataDirExists: bool,
                               loaded: Result<seq<Document>>, chunks: seq<Chunk>)
    returns (first: PopulateResult, second: PopulateResult)
    requires Distinct(chunks)
    modifies chunks, store`records
    ensures first.Success? ==>
      second == Success(NothingNewMessage, first.documentsProcessed, first.chunksCreated, 0)
  {
    ghost var before := if firstReset then map[] else store.records;
    first := PopulateDatabase(store, firstReset, dataDirExists, loaded, chunks);
    if first.Success? {
      SecondRunFindsNothing(before, TaggedEntries(chunks));
    }
    second := PopulateDatabase(store, false, dataDirExists, loaded, chunks);
  }
}
