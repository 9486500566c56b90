/**
 * The persistent vector store, reduced to what the ingestion pipeline uses: a table of
 * records keyed by id, fetching every id, adding a batch under given ids, and removing
 * the whole store. Embedding vectors and similarity search are not part of this model.
 */
module Chroma {
  import opened Wrappers
  import opened Sequences

  /** What the store keeps under an id: the chunk's text and its metadata. */
  datatype Record = Record(text: string, source: Option<string>, page: Option<int>)

  /** Text of the store's refusal of a batch in which an id occurs twice. */
  const DuplicateIdsError := "duplicate ids in one batch"

  /** A batch of records keyed by their ids, which must all differ. */
  function Batch(docs: seq<Record>, ids: seq<string>): (m: map<string, Record>)
    requires |docs| == |ids| && Distinct(ids)
    ensures forall k :: k in m <==> k in ids
    ensures forall i :: 0 <= i < |ids| ==> m[ids[i]] == docs[i]
  {
    DistinctIffPairwise(ids);
    map i | 0 <= i < |ids| :: ids[i] := docs[i]
  }

  class Store {
    /** The stored records by id. */
    var records: map<string, Record>
    /** A backend failure (storage or embedding) that every store call raises, if any. */
    const failure: Option<string>

    constructor (records: map<string, Record>, failure: Option<string>)
      ensures this.records == records && this.failure == failure
    {
      this.records := records;
      this.failure := failure;
    }

    /** `db.get(include=[])["ids"]` turned into a set: the ids of all stored records. */
    method GetIds() returns (r: Result<set<string>>)
      ensures r == if failure.Some? then Err(failure.value) else Ok(records.Keys)
    {
      if failure.Some? {
        r := Err(failure.value);
      } else {
        r := Ok(records.Keys);
      }
    }

    /**
     * `db.add_documents(docs, ids=ids)`: embeds the batch and upserts it, record i under
     * ids[i]. A batch that repeats an id is refused and nothing is written.
     */
    method AddDocuments(docs: seq<Record>, ids: seq<string>) returns (r: Outcome)
      requires |docs| == |ids|
      modifies this`records
      ensures failure.Some? ==> r == Fail(failure.value) && records == old(records)
      ensures failure.None? && !Distinct(ids) ==> r == Fail(DuplicateIdsError) && records == old(records)
      ensures failure.None? && Distinct(ids) ==> r == Pass && records == old(records) + Batch(docs, ids)
    {
      if failure.Some? {
        r := Fail(failure.value);
      } else if !Distinct(ids) {
        r := Fail(DuplicateIdsError);
      } else {
        records := records + Batch(docs, ids);
        r := Pass;
      }
    }

    /** `clear_database`: the store's directory is removed, so the store is empty. */
    method Clear()
      modifies this`records
      ensures records == map[]
    {
      records := map[];
    }
  }
}
