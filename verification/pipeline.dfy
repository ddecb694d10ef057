/**
  Indexing as the retriever's demo wires it: documents are embedded and
  the embedded documents are added to the vector store.
 */
module Pipeline {
  import opened Base
  import opened Embeddings
  import opened VectorStore

  /**
    With an endpoint that gives every text a vector of one width, which the
    index (if any) was created with, the embedded documents are accepted
    and every one of them is appended to the metadata.
   */
  lemma EmbeddedDocumentsAreAdded(p: Provider, f: string -> Vector, cache: Cache, s: Store, disk: Disk, docs: seq<Doc>, w: nat)
    requires Pointwise(p, f) && CacheAgrees(cache, f)
    requires docs != [] && forall t :: |f(t)| == w
    requires s.index.Some? ==> s.index.value.dim == w
    ensures var e := EmbedDocuments(p, cache, docs);
      && e.result.Success?
      && var r := AddDocuments(s, disk, e.result.value);
      && r.error.None?
      && |r.store.metadata| == |s.metadata| + |docs|
      && Load(r.disk) == r.store
  {
    EmbedDocumentsVectors(p, f, cache, docs);
    var embedded := EmbedDocuments(p, cache, docs).result.value;
    assert AllOfWidth(embedded, w);
    AddSuccessEffect(s, disk, embedded, w);
    AddThenLoad(s, disk, embedded);
  }

  /**
    With an endpoint that answers nothing, a batch holding a text that was
    not cached is rejected for a missing embedding, and the files are not
    written.
   */
  lemma SilentEndpointBatchRejected(p: Provider, cache: Cache, s: Store, disk: Disk, docs: seq<Doc>, i: nat)
    requires forall b :: p(b) == []
    requires i < |docs| && docs[i].content !in cache
    ensures var e := EmbedDocuments(p, cache, docs);
      && e.result.Success?
      && var r := AddDocuments(s, disk, e.result.value);
      && r.error == Some(MissingEmbedding)
      && r.disk == disk
  {
    SilentEndpointEmbedsNone(p, cache, docs);
    var embedded := EmbedDocuments(p, cache, docs).result.value;
    assert !HasEmbedding(embedded[i]);
    AddMissingIff(s, disk, embedded);
  }
}
