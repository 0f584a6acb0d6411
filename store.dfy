/** The vector store as the ingestion service sees it: a record of every batch
    written with `add_documents` (app/core/vector_store.py). Indexing, search and
    persistence belong to the database and are not part of this model. */
module Store {
  import opened Values

  /** The arguments of one `add_documents` call. */
  datatype Batch = Batch(texts: seq<string>, embeddings: seq<Vector>, metadatas: seq<Metadata>, ids: seq<string>)

  class VectorStore {
    /** Every batch written so far, oldest first. */
    ghost var batches: seq<Batch>

    constructor ()
      ensures batches == []
    {
      batches := [];
    }

    /** `VectorStore.add_documents` with explicit ids: records the batch and hands the ids back. */
    method AddDocuments(texts: seq<string>, embeddings: seq<Vector>, metadatas: seq<Metadata>, ids: seq<string>)
      returns (stored: seq<string>)
      modifies this
      ensures batches == old(batches) + [Batch(texts, embeddings, metadatas, ids)]
      ensures stored == ids
    {
      batches := batches + [Batch(texts, embeddings, metadatas, ids)];
      stored := ids;
    }
  }
}
