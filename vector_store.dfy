/**
 * The Spring AI values the services exchange with the vector store: a
 * document (text plus string metadata), a similarity-search request, and the
 * store itself, of which the model keeps only the batches handed to `add`.
 */
module VectorStore {

  /** `org.springframework.ai.document.Document`: its text and its metadata map. */
  datatype Document = Document(content: string, metadata: map<string, string>)

  /** `SearchRequest.query(q).withTopK(k).withSimilarityThreshold(t)`. */
  datatype SearchRequest = SearchRequest(query: string, topK: nat, similarityThreshold: real)

  /**
   * The store as the indexing service sees it: every `add(documents)` call,
   * in order.  Embedding and similarity search happen outside the model.
   */
  class Store {
    var batches: seq<seq<Document>>

    constructor()
      ensures batches == []
    {
      batches := [];
    }

    /** `vectorStore.add(documents)`. */
    method Add(documents: seq<Document>)
      modifies this
      ensures batches == old(batches) + [documents]
    {
      batches := batches + [documents];
    }
  }
}
