# papa_rag retrieval core in Dafny

This project models the retrieval core of papa_rag, a local
retrieval-augmented question-answering tool. It covers:

- the FAISS-backed vector store: a flat L2 index and a parallel metadata
  list, persisted to two files;
- the hybrid retriever: a vector search topped up with keyword hits when it
  returns fewer than `top_k` documents;
- the distance-to-score conversion used for display;
- the document text normaliser;
- the batched, cached text-embedding client, together with
  `embed_documents`.

Every operation is a pure function. The state it reads and writes is passed
in and returned explicitly:

- the store in memory and its two files;
- the module-level embedding cache;
- the record of calls made to the embeddings endpoint, the store, and the
  keyword parser and searcher.

The model depends on these outside parts, each given as a parameter:

- **The kNN search of the FAISS index** is the list of labels the index
  returns. That list must satisfy `FlatL2.IsKnn`: the `min(k, n)` nearest
  rows, nearest first and distinct, followed by `-1` padding up to `k`.
- **The embeddings endpoint** is a function from a batch of texts to the
  vectors it returns.
- **The query embedder, the store search and the keyword index** used by the
  retriever are functions too.

Files, all directly in this directory:

| file | module | models |
|---|---|---|
| base.dfy | Base | Option, Result, metadata values, documents |
| scoring.dfy | Scoring | `distance_to_score` |
| preprocess.dfy | Preprocess | `normalize_documents` |
| flat_l2.dfy | FlatL2 | squared L2 distance and the kNN answer relation |
| vector_store.dfy | VectorStore | `FaissVectorStore`: `_load`, `add_documents`, `search`, `_save`, `delete` |
| embeddings.dfy | Embeddings | `get_text_embeddings`, `embed_documents` (both copies of the module) |
| retriever.dfy | Retriever | `Retriever.__init__`, `Retriever.retrieve` |
| pipeline.dfy | Pipeline | embedding documents and then adding them to the store |

Four behaviours of the code worth knowing:

- **`add_documents` is not all-or-nothing.** Metadata of the documents before
  a missing embedding stays appended; see finding 2.
- **Search results keep the stored `embedding` entry in their metadata.**
- **`search` returns only a list of documents**, with no distances.
- **A non-text query raises `ValueError`.**

## Model

| member | source | states |
|---|---|---|
| Scoring.DistanceToScore | src/utils/scoring.py:22-26 | the conversion fails (ZeroDivisionError) exactly when `max_distance` is 0 |
| Scoring.ScoreAtOrBelowZero | src/utils/scoring.py:23-26 | a distance at or below 0 scores `max_score`, and so does every distance when `max_distance` is negative |
| Scoring.ScoreAtOrBeyondMax | src/utils/scoring.py:23-26 | a distance at or beyond a positive `max_distance` scores `min_score` |
| Scoring.ScoreInterpolates | src/utils/scoring.py:25-26 | inside `[0, max_distance]` the score is `min + (1 - d/max_distance)·(max - min)` |
| Scoring.ScoreInRange | src/utils/scoring.py:20-26 | with `min_score <= max_score` the score lies in `[min_score, max_score]` |
| Scoring.ScoreNonIncreasing | src/utils/scoring.py:10-26 | a larger distance never gives a larger score |
| Scoring.ScoreMidpoint | src/utils/scoring.py:25-26 | half of `max_distance` scores the middle of the range |
| Scoring.DefaultMidpointIsFifty | tests/utils/test_scoring.py:16-18 | with the defaults, distance 1 scores 50 |
| Scoring.CustomRangeExample | tests/utils/test_scoring.py:20-24 | distance 2.5 with `max_distance` 10 on the range 0..1 scores 0.75 |
| Scoring.CustomBoundsExample | tests/utils/test_scoring.py:26-32 | the range 10..20 is hit exactly at distances 2 and 0 |
| Preprocess.ReplaceCrLfIdentity | src/processing/preprocess.py:22 | text without `\r` is unchanged by the CRLF replacement |
| Preprocess.LineEndingsIdentity | src/processing/preprocess.py:22 | text without `\r` is unchanged by both line-ending replacements |
| Preprocess.CollapseShape | src/processing/preprocess.py:23 | after the blank pass there are no tabs and no doubled spaces, and printable input stays printable |
| Preprocess.CollapseIdentity | src/processing/preprocess.py:23 | text without tabs or doubled spaces passes the blank pass unchanged |
| Preprocess.CollapseAppend | src/processing/preprocess.py:23 | the blank pass works piecewise, carrying the blank run across the split |
| Preprocess.CollapseBlankRun | src/processing/preprocess.py:23 | a run of blanks becomes one space, or nothing when it continues a run |
| Preprocess.DropShape | src/processing/preprocess.py:25 | only printable ASCII and `\n` survive the filter, and text made only of them is unchanged |
| Preprocess.DropAppend | src/processing/preprocess.py:25 | the filter distributes over concatenation |
| Preprocess.LeadingWhitespace | src/processing/preprocess.py:27 | counts exactly the leading Python whitespace |
| Preprocess.TrailingWhitespace | src/processing/preprocess.py:27 | counts exactly the trailing Python whitespace |
| Preprocess.StripKept | src/processing/preprocess.py:27 | stripping printable text keeps it printable and leaves no space or newline at either end |
| Preprocess.StripNormal | src/processing/preprocess.py:27 | stripping printable text without doubled spaces gives text in normal form |
| Preprocess.StripSlice | src/processing/preprocess.py:27 | `strip()` gives a contiguous piece of its input that neither starts nor ends with whitespace |
| Preprocess.StripIdentity | src/processing/preprocess.py:27 | text not padded by whitespace is not stripped |
| Preprocess.StripOneSpaceEachSide | src/processing/preprocess.py:27 | one space on each side of unpadded text is removed |
| Preprocess.NormalizeTextShape | src/processing/preprocess.py:21-27 | the output is printable ASCII or `\n`, has no `\r` or tab, and is not padded by spaces or newlines |
| Preprocess.NormalHasNoEdgeWhitespace | src/processing/preprocess.py:27 | text in normal form has no Python whitespace at either end |
| Preprocess.NormalizeFixesNormalText | src/processing/preprocess.py:21-27 | text already in normal form is returned unchanged |
| Preprocess.PassesFixNormalText | src/processing/preprocess.py:22-25 | the first three passes leave normal text unchanged |
| Preprocess.NormalizeDocuments | src/processing/preprocess.py:18-32 | one document per input, in order; the text is normalised and the metadata copied |
| Preprocess.TabCollapses | tests/processing/test_preprocess.py:29-37 | the blank pass turns `A\tB` into `A B` |
| Preprocess.TabExample | tests/processing/test_preprocess.py:29-37 | `A\tB` normalises to `A B` |
| Preprocess.PaddingCollapses | src/processing/preprocess.py:23 | three spaces on each side of normal text collapse to one space on each side |
| Preprocess.PaddingPrintable | src/processing/preprocess.py:25 | normal text with one space on each side passes the unprintable filter unchanged |
| Preprocess.PaddedNormalText | src/processing/preprocess.py:21-27 | normal text padded by three spaces on each side normalises back to itself |
| Preprocess.PaddingExample | tests/processing/test_preprocess.py:29-38 | `"   Leading and trailing   "` normalises to `"Leading and trailing"` |
| Preprocess.UnprintableBetweenSpaces | src/processing/preprocess.py:23-25 | `"a \x00 b"` normalises to `"a  b"`, which has a doubled space |
| Preprocess.NormalizeNotIdempotent | src/processing/preprocess.py:22-27 | normalising `"a  b"` again gives `"a b"`, so the normaliser is not idempotent |
| Preprocess.DropKeepTabsShape | src/processing/preprocess.py:25 | the corrected filter keeps only printable ASCII, `\n` and tabs, and leaves such text unchanged |
| Preprocess.IntendedIsNormal | src/processing/preprocess.py:21-27 | the corrected normaliser always returns normal text: printable, no doubled spaces, not padded |
| Preprocess.IntendedFixesNormalText | src/processing/preprocess.py:21-27 | the corrected normaliser leaves normal text unchanged |
| Preprocess.IntendedIdempotent | src/processing/preprocess.py:21-27 | normalising twice with the corrected normaliser is normalising once |
| FlatL2.SqDistNonNegative | src/retrieval/vector_store.py:68 | the squared L2 distance is never negative |
| FlatL2.SqDistZeroIff | src/retrieval/vector_store.py:68 | two vectors of one length are at distance 0 exactly when they are equal |
| FlatL2.NearestIsEqualRow | src/retrieval/vector_store.py:92 | searching with a stored vector returns, first, a row equal to it |
| FlatL2.NearestIsOwnRow | src/retrieval/vector_store.py:92 | when the stored rows are distinct, that first label is the row's own position |
| VectorStore.FirstMissing | src/retrieval/vector_store.py:57-61 | the position of the first document whose `embedding` is absent or None |
| VectorStore.MetasAppend | src/retrieval/vector_store.py:63 | the metadata appended for two batches, one after the other, is the metadata appended for the joined batch |
| VectorStore.VectorsOfAppend | src/retrieval/vector_store.py:64 | the rows converted from two batches, one after the other, are the rows converted from the joined batch |
| VectorStore.EmbeddingsAppend | src/retrieval/vector_store.py:59-62 | the embedding values collected from two batches, one after the other, are those collected from the joined batch |
| VectorStore.AddDocuments | src/retrieval/vector_store.py:46-71 | a failed add leaves the index and both files untouched; a successful non-empty add has an index and has written both files with the new state |
| VectorStore.AddNothing | src/retrieval/vector_store.py:53-54 | adding no documents changes neither the store nor the files |
| VectorStore.PyIndex | src/retrieval/vector_store.py:96 | the position Python reads for index `i` in a list of length `len`, which is `i mod len`: a negative index counts from the end |
| VectorStore.Resolve | src/retrieval/vector_store.py:93-98 | the label lookup fails exactly when some label is below `-len(metadata)`; results have empty text and stored metadata; with labels in range it returns `metadata[label]` for each label, in order |
| VectorStore.Search | src/retrieval/vector_store.py:73-98 | no index gives `[]`; otherwise at most `top_k` documents, each with empty text and stored metadata |
| VectorStore.Delete | src/retrieval/vector_store.py:114-123 | the store is emptied, and loading the files afterwards gives that empty store |
| VectorStore.AddMissingIff | src/retrieval/vector_store.py:57-61 | the add raises for a missing embedding exactly when some document lacks one |
| VectorStore.AddMissingEffect | src/retrieval/vector_store.py:57-63 | on a missing embedding, only the metadata of the documents before it is appended; the index and files are unchanged |
| VectorStore.AddSucceedsIff | src/retrieval/vector_store.py:57-70 | the add succeeds exactly when the batch is empty or all its vectors share one width that matches the index |
| VectorStore.AddSuccessEffect | src/retrieval/vector_store.py:57-71 | a successful add appends all metadata and all vectors in order, and creates the index with the first vector's width only when there was none |
| VectorStore.AddSuccessForm | src/retrieval/vector_store.py:57-71 | a successful add returns, as its whole outcome, the old metadata and rows with the batch's metadata and rows appended, with both files written, and creates the index with the batch's width only when there was none |
| VectorStore.AddJoinedForm | src/retrieval/vector_store.py:46-71 | adding the join of two batches of one width appends the first batch's metadata and rows, then the second's |
| VectorStore.AddConcat | src/retrieval/vector_store.py:46-71 | two successful adds in a row leave the same store and files as one add of the joined batch |
| VectorStore.AddRejectedBatchEffect | src/retrieval/vector_store.py:62-70 | a batch with every embedding present that the array conversion or `index.add` rejects still appends all of its metadata |
| VectorStore.AddThenLoad | src/retrieval/vector_store.py:32-71 | after a successful add, loading the files gives back the same index and metadata |
| VectorStore.FailedAddThenLoad | src/retrieval/vector_store.py:32-71 | after a failed add, loading the files gives what they held before |
| VectorStore.AddPreservesCovered | src/retrieval/vector_store.py:57-71 | every add keeps at least as many metadata entries as rows, in memory and on disk |
| VectorStore.SearchFull | src/retrieval/vector_store.py:91-98 | with `0 < top_k <= rows`, exactly `top_k` documents, the i-th carrying the metadata of the i-th nearest row |
| VectorStore.SearchPadsWithLastEntry | src/retrieval/vector_store.py:94-97 | with `top_k` above the row count, the padded slots return the last metadata entry, giving `top_k` results |
| VectorStore.SearchAlwaysFull | src/retrieval/vector_store.py:88-98 | on an index with rows, every search returns exactly `top_k` documents |
| VectorStore.SearchStoredVector | src/retrieval/vector_store.py:91-97 | searching with a stored vector returns first the metadata of a row equal to it |
| VectorStore.SearchRejects | src/retrieval/vector_store.py:91-92 | a query of the wrong width or a non-positive `top_k` fails |
| VectorStore.ResolveIntended | src/retrieval/vector_store.py:94-97 | the corrected filter keeps in-range labels only: all in range gives one document per label, all negative gives none |
| VectorStore.ResolveIntendedAppend | src/retrieval/vector_store.py:94-97 | the corrected filter distributes over concatenated label lists |
| VectorStore.SearchIntended | src/retrieval/vector_store.py:88-98 | the corrected search gives `[]` without an index, and results with empty text and stored metadata |
| VectorStore.SearchIntendedHits | src/retrieval/vector_store.py:91-98 | the corrected search returns `min(top_k, rows)` documents, the i-th carrying the metadata of the i-th nearest row |
| VectorStore.KnnLabels | src/retrieval/vector_store.py:92 | a kNN answer holds real row labels followed by `-1` padding |
| VectorStore.ResolveHitsThenPadding | src/retrieval/vector_store.py:94-97 | the corrected filter keeps the real labels and drops the padding |
| VectorStore.SearchIntendedShortWhenFewRows | src/retrieval/vector_store.py:94-97 | with fewer rows than `top_k`, the corrected search returns fewer than `top_k`, while the written one returns `top_k` |
| VectorStore.DeleteIdempotent | src/retrieval/vector_store.py:114-123 | deleting twice is deleting once |
| VectorStore.SearchAfterDelete | src/retrieval/vector_store.py:114-123 | after a delete every search returns `[]`, and the files load as an empty store |
| VectorStore.AddDocumentsAtomic | src/retrieval/vector_store.py:57-71 | the corrected add raises the same errors, leaves everything unchanged when it raises, and otherwise matches the written add |
| VectorStore.AtomicPreservesAligned | src/retrieval/vector_store.py:57-71 | the corrected add keeps one metadata entry per row |
| VectorStore.SuccessfulAddPreservesAligned | src/retrieval/vector_store.py:57-71 | a successful add keeps one metadata entry per row |
| VectorStore.PartialAddBreaksAlignment | src/retrieval/vector_store.py:57-63 | a two-document batch whose second document has no embedding leaves one metadata entry and no rows |
| VectorStore.SingleRowKnn | src/retrieval/vector_store.py:92 | for a single stored row, label 0 is the kNN answer to a search for that row |
| VectorStore.AddThird | src/retrieval/vector_store.py:64-71 | adding one document with embedding `[5.0]` to a store without an index creates the one-row index and appends its metadata |
| VectorStore.SearchOneRow | src/retrieval/vector_store.py:91-97 | on that one-row index, searching for its row returns the first metadata entry |
| VectorStore.MisalignedSearch | src/retrieval/vector_store.py:57-97 | after that failed add, adding one document and searching for its own vector returns the earlier, unindexed document's metadata |
| VectorStore.AtomicSearch | src/retrieval/vector_store.py:57-97 | with the corrected add, the same sequence returns the searched document's own metadata |
| Embeddings.PendingFrom | src/processing/embeddings.py:38-43 | `idx_map`: exactly the positions of uncached texts, strictly increasing |
| Embeddings.Requested | src/processing/embeddings.py:43 | `to_request` has one text per entry of `idx_map` |
| Embeddings.RequestedFromIsUncached | src/processing/embeddings.py:38-43 | from any position on, the texts requested are the uncached texts, in order |
| Embeddings.RequestedCons | src/processing/embeddings.py:43 | a position added at the front of `idx_map` puts its text at the front of `to_request` |
| Embeddings.RequestedIsUncached | src/processing/embeddings.py:38-43 | the texts requested are exactly the uncached ones, in input order, duplicates kept |
| Embeddings.Prefill | src/processing/embeddings.py:34-40 | the result list after the cache pass has one slot per input: the cached vector for a cached text, None otherwise, so the slots left None are exactly the positions recorded in `idx_map` |
| Embeddings.BatchesFlatten | src/processing/embeddings.py:46-47 | the batches, put back together, are the requested texts |
| Embeddings.BatchesShape | src/processing/embeddings.py:18-47 | there are `ceil(n/16)` batches, none empty, each of at most 16 texts, and all but the last of exactly 16 |
| Embeddings.ResponsesLength | src/processing/embeddings.py:48-49 | an endpoint that answers each batch with one vector per text answers the whole request likewise |
| Embeddings.ResponsesPointwise | src/processing/embeddings.py:48-49 | an endpoint that embeds each text by `f` answers requested text `k` with `f` of it |
| Embeddings.SlotWrites | src/processing/embeddings.py:51-52 | writing response items into slots keeps the list length |
| Embeddings.PointwiseIsWellFormed | src/processing/embeddings.py:48-49 | an endpoint that embeds each text by `f` answers every batch with one vector per text |
| Embeddings.SlotWritesEffect | src/processing/embeddings.py:49-52 | slot `idx_map[k]` gets response item `k`, and no other slot changes |
| Embeddings.CacheWritesEffect | src/processing/embeddings.py:49-53 | the batch's texts become cache keys, and entries for other texts are kept |
| Embeddings.CacheWritesAgree | src/processing/embeddings.py:53 | writing `f`'s vectors keeps a cache consistent with `f` |
| Embeddings.RunKeepsLength | src/processing/embeddings.py:46-53 | a successful batch loop returns one slot per input, whatever the endpoint answers |
| Embeddings.RunSucceeds | src/processing/embeddings.py:46-53 | with a well-formed endpoint the loop never raises, and it sends the batches of the requested texts in order |
| Embeddings.RunFillsSlots | src/processing/embeddings.py:46-52 | with a well-formed endpoint slot `idx_map[k]` gets item `k` of the concatenated responses, and other slots keep their value |
| Embeddings.RunCache | src/processing/embeddings.py:46-53 | with a well-formed endpoint every requested text becomes a cache key, and other entries are kept |
| Embeddings.RunCacheAgrees | src/processing/embeddings.py:46-53 | with an endpoint that embeds by `f`, a cache consistent with `f` stays so |
| Embeddings.UncachedMembers | src/processing/embeddings.py:38-43 | a text is requested exactly when it is an input missing from the cache |
| Embeddings.GetTextEmbeddingsResult | src/processing/embeddings.py:23-55 | with a well-formed endpoint: one vector per input; a cached text gets its cached vector; the k-th uncached position gets the k-th response item |
| Embeddings.GetTextEmbeddingsFillsEverySlot | src/processing/embeddings.py:34-52 | with a well-formed endpoint no output slot is left None |
| Embeddings.GetTextEmbeddingsCalls | src/processing/embeddings.py:38-48 | the endpoint is sent the uncached texts in input order, in consecutive batches of at most 16, and never a cached text |
| Embeddings.GetTextEmbeddingsCache | src/processing/embeddings.py:53 | afterwards every input text is a cache key, and every earlier entry is unchanged |
| Embeddings.GetTextEmbeddingsPointwise | src/processing/embeddings.py:49-53 | with an endpoint that embeds by `f` and a consistent cache, slot `i` is `f(texts[i])` and the cache stays consistent |
| Embeddings.PointwiseSlots | src/processing/embeddings.py:49-52 | with an endpoint that embeds by `f` and a consistent cache, every slot holds `f` of its text |
| Embeddings.SecondCallMakesNoCalls | src/preprocessing/embeddings.py:34-36 | a second call on the same texts calls no endpoint and returns the cached vectors |
| Embeddings.AllCached | src/preprocessing/embeddings.py:34-39 | when every text is cached there are no calls, the cache is unchanged, and the result is the cached vectors |
| Embeddings.RepeatReturnsSameResult | tests/preprocessing/test_embeddings.py:49-64 | with an endpoint that embeds by `f`, repeating a call returns the same list, with no calls and no cache change |
| Embeddings.RepeatNeedsPointwiseEndpoint | src/processing/embeddings.py:46-53 | with an endpoint that answers `[x, x]` with two different vectors, the first call returns both, the cache keeps the second, and a repeat returns the second in both slots, so it differs from the first call |
| Embeddings.PendingFromEmptyCache | src/preprocessing/embeddings.py:34-39 | on an empty cache `idx_map` is every position, in order |
| Embeddings.UncachedEmptyCache | src/preprocessing/embeddings.py:34-39 | on an empty cache every text is requested |
| Embeddings.SingleBatch | src/processing/embeddings.py:46-49 | up to 16 texts form one batch, answered by one response |
| Embeddings.OneBatchOnEmptyCache | src/preprocessing/embeddings.py:42-48 | up to 16 texts on an empty cache go out in one request, and slot `i` gets response item `i` |
| Embeddings.OneBatchCache | src/processing/embeddings.py:46-53 | up to 16 texts on an empty cache leave the cache holding the one response's items, written in batch order |
| Embeddings.ThreeTextsOneCall | tests/preprocessing/test_embeddings.py:36-47 | three texts on an empty cache make exactly one call, with those texts in order |
| Embeddings.DuplicateTextSentTwice | tests/processing/test_embeddings.py:45-48 | `[x, x, y]` on an empty cache is one call that sends `x` twice, and both `x` slots get `f(x)` |
| Embeddings.TooLongResponseFails | src/processing/embeddings.py:49-53 | a response with more items than its batch raises IndexError after one call, with the batch's texts cached |
| Embeddings.SilentEndpointLeavesNone | src/processing/embeddings.py:34-52 | an endpoint that answers nothing leaves each uncached slot None, and cached slots keep their vectors |
| Embeddings.SilentRun | src/processing/embeddings.py:46-53 | with such an endpoint the loop makes every call but writes no slot and no cache entry |
| Embeddings.ContentsAppend | src/processing/embeddings.py:68 | the texts of two lists of documents, one after the other, are the texts of the joined list |
| Embeddings.EmbedDocumentsShape | src/processing/embeddings.py:70-75 | one document per input, in order, with the same text; its metadata gains `embedding` and keeps every other key and value |
| Embeddings.EmbedDocumentsCalls | src/processing/embeddings.py:68-69 | with a well-formed endpoint the call succeeds, sends the batches of the uncached texts, and caches every text |
| Embeddings.EmbedDocumentsVectors | src/processing/embeddings.py:71-74 | with an endpoint that embeds by `f`, document `i` carries `embedding = f(text_i)` |
| Embeddings.SilentEndpointEmbedsNone | src/processing/embeddings.py:71-74 | with an endpoint that answers nothing, an uncached document's `embedding` is None |
| Pipeline.EmbeddedDocumentsAreAdded | src/retrieval/retriever.py:104-106 | documents embedded to one width that matches the index are all added, and they reload from the files |
| Pipeline.SilentEndpointBatchRejected | src/retrieval/retriever.py:104-106 | with an endpoint that answers nothing, the add raises for a missing embedding and writes no file |
| Retriever.KeywordDocs | src/retrieval/retriever.py:72-75 | one document per keyword hit |
| Retriever.InitDecidesFallback | src/retrieval/retriever.py:36-39 | with the fallback on and fewer than `top_k` store hits, the parser runs exactly when the directory name is non-empty, the library is present and the directory exists; the opened index then parses the query and is searched for the shortfall, and otherwise the store's results come back alone |
| Retriever.NonTextQueryRaises | src/retrieval/retriever.py:59-62 | a non-text query raises before any call |
| Retriever.StoreSearchedOnce | src/retrieval/retriever.py:59-65 | the query is embedded as a one-element list, and the store is searched exactly once, with that vector and `top_k` |
| Retriever.StoreFailurePropagates | src/retrieval/retriever.py:65 | a store exception passes through unchanged |
| Retriever.NoFallbackReturnsStoreResults | src/retrieval/retriever.py:65-76 | with the fallback off or no keyword index, the result is exactly the store's and the keyword index is not touched |
| Retriever.FallbackIff | src/retrieval/retriever.py:68-71 | the parser runs exactly when the fallback is on, an index is open and there are fewer than `top_k` hits; it gets the raw query, and the searcher gets the parsed query with limit `top_k - len(results)` |
| Retriever.FallbackAppendsKeywordHits | src/retrieval/retriever.py:68-76 | the store's results form an unchanged prefix; keyword hits follow in order, each with empty text and metadata exactly `{source: path, score: score}` |
| Retriever.FallbackFillsToTopK | src/retrieval/retriever.py:69-76 | when the searcher fills its limit, the output has exactly `top_k` documents |
| Retriever.OutputWithinTopK | src/retrieval/retriever.py:65-76 | with a store returning at most `top_k` and a searcher honouring its limit, the output has at most `top_k` documents |
| Retriever.EmptyStoreFallbackExample | tests/retrieval/test_retriever.py:65-83 | with no store hits and two keyword hits, the result is those two, with their paths and scores, in order |
| Retriever.FallbackNeverRunsOnIndexedStore | src/retrieval/retriever.py:65-68 | with the store as written and rows in its index, the fallback never runs: the output is the store's `top_k` results |
| Retriever.FallbackRunsOnSmallStoreIntended | src/retrieval/retriever.py:65-76 | with the corrected store and fewer rows than `top_k`, the output is one document per row followed by the keyword hits |

## Left out

- Scoring.DistanceToScore: returns the score before `round(score, 2)`. Decimal rounding of a binary float is left out, so the model's score is the exact value.
- Float arithmetic: vectors, distances and scores are exact reals. The float32 conversion of vectors and queries is not modelled.
- FAISS itself: how the flat index searches is not modelled. Its answer is an input constrained by `FlatL2.IsKnn`, which allows any tie-breaking. The binary index format is not modelled either.
- Files: pickle, `os.path.exists`, `os.makedirs` and removal are reduced to two file slots that are either absent or hold what was last written. I/O errors are not modelled.
- `FaissVectorStore.__init__` stores the two paths and calls `_load`; `VectorStore.Load` models that call.
- The array conversion at src/retrieval/vector_store.py:64: a batch whose embeddings are not all vectors of one width is one error, `MalformedBatch`. The exact numpy exception is not distinguished.
- The OpenAI client, the model name and environment variables: the endpoint is a function from a batch to the vectors returned. The response object's structure (`response.data`, `item.embedding`) is reduced to that list.
- Retriever: the query embedder is a function from text to vector. `retrieve` calls `get_text_embeddings`, and neither the cache update nor a failure of that call is threaded through the retriever. The Embeddings module models the cache update and the IndexError failure; endpoint exceptions are not modelled anywhere.
- The Whoosh library: the parser and searcher are functions, and `Retriever.close` is not modelled. The second `isinstance(query, str)` test at src/retrieval/retriever.py:68 always holds at that point, so it is left out.
- Apart from the embed-then-add step at src/retrieval/retriever.py:104-106, modelled in Pipeline, the `main` demo functions and their printing are left out.
- Embeddings.GetTextEmbeddingsCache: for a well-formed endpoint it states the new keys and the unchanged old entries. The value stored for a newly cached text is stated only for an endpoint that embeds each text by a function (`GetTextEmbeddingsPointwise`). A text sent twice in one call is cached with its last response.
- Embeddings.GetTextEmbeddings: the endpoint is a total function. An exception raised by the endpoint call (network, quota, rate limit) is not modelled, nor the cache entries of earlier batches that such an exception leaves written.
- Embeddings.RepeatReturnsSameResult: stated only for an endpoint that embeds each text by a function. `RepeatNeedsPointwiseEndpoint` shows that with another endpoint a text repeated within one call makes the repeat differ.
- Python's mutable objects: documents, dictionaries and the cache are immutable values, so "does not mutate the input metadata" holds by construction.
- Concurrency around the module-level cache is not modelled.

## Findings

| source | as written | input that shows it | evidently intended | confidence | as-written member | corrected member |
|---|---|---|---|---|---|---|
| src/retrieval/vector_store.py:94-97 | the filter `idx < len(self.metadata)` lets the index's `-1` padding through, and `metadata[-1]` is the last entry | a store with 1 row searched with `top_k = 3` returns 3 documents, two of them copies of the last entry; as a result the retriever's keyword fallback never runs once the index has rows | keep only labels `0 <= idx < len(metadata)`, so the search returns `min(top_k, rows)` documents | not executed | VectorStore.SearchPadsWithLastEntry, VectorStore.SearchAlwaysFull, Retriever.FallbackNeverRunsOnIndexedStore | VectorStore.SearchIntended, VectorStore.SearchIntendedHits, Retriever.FallbackRunsOnSmallStoreIntended |
| src/retrieval/vector_store.py:57-63 | metadata is appended document by document before the batch is known to be valid | adding `[first with embedding [0.0], second without embedding]` to an empty store raises but leaves 1 metadata entry and no rows; a later add of `third` with `[5.0]`, searched for `[5.0]`, returns the metadata of `first` | an add that raises leaves the store unchanged, keeping one metadata entry per row | not executed | VectorStore.PartialAddBreaksAlignment, VectorStore.MisalignedSearch | VectorStore.AddDocumentsAtomic, VectorStore.AtomicPreservesAligned, VectorStore.AtomicSearch |
| src/processing/preprocess.py:23-25 | blanks are collapsed before unprintable characters are removed | `"a \x00 b"` normalises to `"a  b"`, with a doubled space, and normalising that again gives `"a b"` | output without doubled spaces, with normalisation idempotent | not executed | Preprocess.UnprintableBetweenSpaces, Preprocess.NormalizeNotIdempotent | Preprocess.NormalizeTextIntended, Preprocess.IntendedIsNormal, Preprocess.IntendedIdempotent |
