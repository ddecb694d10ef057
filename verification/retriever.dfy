/**
  The hybrid retrieval policy: embed a text query, search the vector
  store, and, when the store returns fewer than `top_k` documents and a
  keyword index is available, top the list up with keyword hits. The
  embedder, the store search, and the keyword parser and searcher are
  oracles; every call made to them is recorded, in order, in a trace.
 */
module Retriever {
  import opened Base
  import opened FlatL2
  import opened VectorStore

  /** A query: a string, or anything else (an image, a number). */
  datatype Query = Text(s: string) | NonText

  /** A keyword hit: its stored `path` field (`None` when absent) and its score. */
  datatype KeywordHit = KeywordHit(path: Value, score: real)

  /** An opened keyword index: its query parser and its searcher, which takes a parsed query and a limit. */
  datatype Keyword<!Q> = Keyword(parse: string -> Q, search: (Q, nat) -> seq<KeywordHit>)

  /** A retriever: the keyword index it opened, if any. The vector store is passed to each search. */
  datatype Retriever<!Q> = Retriever(keyword: Option<Keyword<Q>>)

  /** One call to an oracle, with its arguments. */
  datatype Event<Q> = EmbedCall(texts: seq<string>) | StoreCall(vec: Vector, topK: int) | ParseCall(text: string) | KeywordCall(query: Q, limit: nat)

  /** `ValueError` on a non-text query, or an exception of the store search passed through. */
  datatype RetrieveError = NonTextQuery | StoreFailed(e: SearchError)

  /** What `retrieve` returns or raises, and the calls it made. */
  datatype Retrieval<Q> = Retrieval(result: Result<seq<Doc>, RetrieveError>, trace: seq<Event<Q>>)

  const SourceKey: string := "source"
  const ScoreKey: string := "score"

  /**
    `__init__`: the keyword index is opened only for a non-empty directory
    name, with the keyword library importable and the directory present.
   */
  function Init<Q>(indexDir: Option<string>, libraryPresent: bool, isDir: string -> bool, open: string -> Keyword<Q>): Retriever<Q>
  {
    if indexDir.Some? && indexDir.value != "" && libraryPresent && isDir(indexDir.value)
    then Retriever(Some(open(indexDir.value)))
    else Retriever(None)
  }

  /** The documents the keyword hits become: empty text, metadata `{source: path, score: score}`, in hit order. */
  function KeywordDocs(hits: seq<KeywordHit>): (r: seq<Doc>)
    ensures |r| == |hits|
  {
    seq(|hits|, j requires 0 <= j < |hits| => Doc("", map[SourceKey := hits[j].path, ScoreKey := Num(hits[j].score)]))
  }

  /** The keyword searcher returns at most `limit` hits. */
  ghost predicate HonoursLimit<Q(!new)>(kw: Keyword<Q>)
  {
    forall qs: Q, n: nat :: |kw.search(qs, n)| <= n
  }

  /** Whether `retrieve` consults the keyword index after the store returned `primary`. */
  predicate FallsBack<Q>(r: Retriever<Q>, fallback: bool, primary: seq<Doc>, topK: int)
  {
    fallback && r.keyword.Some? && |primary| < topK
  }

  /** `retrieve`. */
  function Retrieve<Q>(r: Retriever<Q>, embed: string -> Vector, store: (Vector, int) -> Result<seq<Doc>, SearchError>,
                       query: Query, topK: int, fallback: bool): Retrieval<Q>
  {
    match query
    case NonText => Retrieval(Failure(NonTextQuery), [])
    case Text(s) =>
      var vec := embed(s);
      var before := [EmbedCall([s]), StoreCall(vec, topK)];
      match store(vec, topK)
      case Failure(e) => Retrieval(Failure(StoreFailed(e)), before)
      case Success(primary) =>
        if FallsBack(r, fallback, primary, topK) then
          var needed: nat := topK - |primary|;
          var qs := r.keyword.value.parse(s);
          var hits := r.keyword.value.search(qs, needed);
          Retrieval(Success(primary + KeywordDocs(hits)), before + [ParseCall(s), KeywordCall(qs, needed)])
        else Retrieval(Success(primary), before)
  }

  // ---------------------------------------------------------------------
  // Properties

  /**
    With the fallback on and a short store result, whether the keyword index
    is consulted is decided by `__init__`'s conditions alone: when they all
    hold the opened index parses the query and is searched for the shortfall;
    otherwise the store's documents come back alone, after the two calls.
   */
  lemma InitDecidesFallback<Q>(indexDir: Option<string>, libraryPresent: bool, isDir: string -> bool, open: string -> Keyword<Q>,
                               embed: string -> Vector, store: (Vector, int) -> Result<seq<Doc>, SearchError>, s: string, topK: int)
    requires store(embed(s), topK).Success? && |store(embed(s), topK).value| < topK
    ensures var opens := indexDir.Some? && indexDir.value != "" && libraryPresent && isDir(indexDir.value);
      var primary := store(embed(s), topK).value;
      var out := Retrieve(Init(indexDir, libraryPresent, isDir, open), embed, store, Text(s), topK, true);
      && (ParseCall(s) in out.trace <==> opens)
      && (opens ==> out.trace == [EmbedCall([s]), StoreCall(embed(s), topK), ParseCall(s),
                                  KeywordCall(open(indexDir.value).parse(s), topK - |primary|)])
      && (!opens ==> out == Retrieval(Success(primary), [EmbedCall([s]), StoreCall(embed(s), topK)]))
  {
    FallbackIff(Init(indexDir, libraryPresent, isDir, open), embed, store, s, topK, true);
  }

  /** A non-text query raises before any oracle is called. */
  lemma NonTextQueryRaises<Q>(r: Retriever<Q>, embed: string -> Vector, store: (Vector, int) -> Result<seq<Doc>, SearchError>, topK: int, fallback: bool)
    ensures Retrieve(r, embed, store, NonText, topK, fallback) == Retrieval(Failure(NonTextQuery), [])
  {
  }

  /** A text query is embedded as a one-element list, and the store is searched once, with that vector and `top_k`. */
  lemma StoreSearchedOnce<Q>(r: Retriever<Q>, embed: string -> Vector, store: (Vector, int) -> Result<seq<Doc>, SearchError>, s: string, topK: int, fallback: bool)
    ensures var t := Retrieve(r, embed, store, Text(s), topK, fallback).trace;
      && |t| >= 2
      && t[0] == EmbedCall([s]) && t[1] == StoreCall(embed(s), topK)
      && forall i :: 0 <= i < |t| && i != 1 ==> !t[i].StoreCall?
  {
  }

  /** A store exception passes through, after the two calls that led to it. */
  lemma StoreFailurePropagates<Q>(r: Retriever<Q>, embed: string -> Vector, store: (Vector, int) -> Result<seq<Doc>, SearchError>, s: string, topK: int, fallback: bool)
    requires store(embed(s), topK).Failure?
    ensures Retrieve(r, embed, store, Text(s), topK, fallback)
         == Retrieval(Failure(StoreFailed(store(embed(s), topK).error)), [EmbedCall([s]), StoreCall(embed(s), topK)])
  {
  }

  /** With the fallback switched off or no keyword index, the result is exactly the store's and the keyword index is not touched. */
  lemma NoFallbackReturnsStoreResults<Q>(r: Retriever<Q>, embed: string -> Vector, store: (Vector, int) -> Result<seq<Doc>, SearchError>, s: string, topK: int, fallback: bool)
    requires !fallback || r.keyword.None?
    requires store(embed(s), topK).Success?
    ensures var out := Retrieve(r, embed, store, Text(s), topK, fallback);
      && out.result == Success(store(embed(s), topK).value)
      && out.trace == [EmbedCall([s]), StoreCall(embed(s), topK)]
  {
  }

  /**
    The keyword index is consulted exactly when the fallback is on, a
    keyword index is open and the store returned fewer than `top_k`
    documents; the parser then gets the raw query string and the searcher
    the parsed query with the limit `top_k - len(results)`.
   */
  lemma FallbackIff<Q>(r: Retriever<Q>, embed: string -> Vector, store: (Vector, int) -> Result<seq<Doc>, SearchError>, s: string, topK: int, fallback: bool)
    requires store(embed(s), topK).Success?
    ensures var primary := store(embed(s), topK).value;
      var t := Retrieve(r, embed, store, Text(s), topK, fallback).trace;
      && (ParseCall(s) in t <==> fallback && r.keyword.Some? && |primary| < topK)
      && (fallback && r.keyword.Some? && |primary| < topK ==>
            t == [EmbedCall([s]), StoreCall(embed(s), topK), ParseCall(s),
                  KeywordCall(r.keyword.value.parse(s), topK - |primary|)])
  {
    var t := Retrieve(r, embed, store, Text(s), topK, fallback).trace;
    var primary := store(embed(s), topK).value;
    if !FallsBack(r, fallback, primary, topK) {
      assert t == [EmbedCall([s]), StoreCall(embed(s), topK)];
      assert t[0] != ParseCall(s) && t[1] != ParseCall(s);
    }
  }

  /**
    After a fallback the store's documents come first, unchanged, and the
    keyword hits follow in the searcher's order, each with empty text and
    metadata exactly `{source: path, score: score}`.
   */
  lemma FallbackAppendsKeywordHits<Q>(r: Retriever<Q>, embed: string -> Vector, store: (Vector, int) -> Result<seq<Doc>, SearchError>, s: string, topK: int, fallback: bool)
    requires store(embed(s), topK).Success?
    requires FallsBack(r, fallback, store(embed(s), topK).value, topK)
    ensures var primary := store(embed(s), topK).value;
      var hits := r.keyword.value.search(r.keyword.value.parse(s), topK - |primary|);
      var out := Retrieve(r, embed, store, Text(s), topK, fallback).result;
      && out.Success? && |out.value| == |primary| + |hits|
      && out.value[..|primary|] == primary
      && forall j :: 0 <= j < |hits| ==>
           out.value[|primary| + j] == Doc("", map[SourceKey := hits[j].path, ScoreKey := Num(hits[j].score)])
  {
    var primary := store(embed(s), topK).value;
    var hits := r.keyword.value.search(r.keyword.value.parse(s), topK - |primary|);
    var out := Retrieve(r, embed, store, Text(s), topK, fallback).result;
    assert out.value == primary + KeywordDocs(hits);
    assert out.value[..|primary|] == primary;
  }

  /** When the searcher has enough hits to fill the limit, the output has exactly `top_k` documents. */
  lemma FallbackFillsToTopK<Q>(r: Retriever<Q>, embed: string -> Vector, store: (Vector, int) -> Result<seq<Doc>, SearchError>, s: string, topK: int, fallback: bool)
    requires store(embed(s), topK).Success?
    requires FallsBack(r, fallback, store(embed(s), topK).value, topK)
    requires var needed := topK - |store(embed(s), topK).value|;
      |r.keyword.value.search(r.keyword.value.parse(s), needed)| == needed
    ensures var out := Retrieve(r, embed, store, Text(s), topK, fallback).result;
      out.Success? && |out.value| == topK
  {
    FallbackAppendsKeywordHits(r, embed, store, s, topK, fallback);
  }

  /** A keyword searcher that honours its limit and a store that returns at most `top_k` keep the output within `top_k`. */
  lemma OutputWithinTopK<Q(!new)>(r: Retriever<Q>, embed: string -> Vector, store: (Vector, int) -> Result<seq<Doc>, SearchError>, s: string, topK: int, fallback: bool)
    requires r.keyword.Some? ==> HonoursLimit(r.keyword.value)
    requires store(embed(s), topK).Success? && |store(embed(s), topK).value| <= topK
    ensures var out := Retrieve(r, embed, store, Text(s), topK, fallback).result;
      out.Success? && |out.value| <= topK
  {
    var primary := store(embed(s), topK).value;
    if FallsBack(r, fallback, primary, topK) {
      FallbackAppendsKeywordHits(r, embed, store, s, topK, fallback);
      var needed: nat := topK - |primary|;
      assert |r.keyword.value.search(r.keyword.value.parse(s), needed)| <= needed;
    }
  }

  /** The fallback scenario with an empty store: two keyword hits become the two results, in order. */
  lemma EmptyStoreFallbackExample<Q>(kw: Keyword<Q>, embed: string -> Vector, store: (Vector, int) -> Result<seq<Doc>, SearchError>,
                                     s: string, a: string, b: string)
    requires store(embed(s), 2) == Success([])
    requires kw.search(kw.parse(s), 2) == [KeywordHit(Str(a), 0.9), KeywordHit(Str(b), 0.8)]
    ensures var out := Retrieve(Retriever(Some(kw)), embed, store, Text(s), 2, true).result;
      && out.Success? && |out.value| == 2
      && out.value[0].metadata[SourceKey] == Str(a) && out.value[0].metadata[ScoreKey] == Num(0.9)
      && out.value[1].metadata[SourceKey] == Str(b) && out.value[1].metadata[ScoreKey] == Num(0.8)
  {
    FallbackAppendsKeywordHits(Retriever(Some(kw)), embed, store, s, 2, true);
  }

  // ---------------------------------------------------------------------
  // With the vector store as written and as intended

  /**
    As written, the store answers every search on a non-empty index with
    `top_k` documents, so the keyword fallback never runs once anything
    has been indexed.
   */
  lemma FallbackNeverRunsOnIndexedStore<Q>(r: Retriever<Q>, embed: string -> Vector, store: (Vector, int) -> Result<seq<Doc>, SearchError>,
                                           vs: Store, s: string, topK: int, fallback: bool, labels: seq<int>)
    requires Covered(vs) && vs.index.Some? && |embed(s)| == vs.index.value.dim
    requires topK > 0 && IsKnn(vs.index.value.rows, embed(s), topK, labels)
    requires store(embed(s), topK) == Search(vs, embed(s), topK, labels)
    ensures var out := Retrieve(r, embed, store, Text(s), topK, fallback);
      && out.result == Success(Search(vs, embed(s), topK, labels).value)
      && |out.result.value| == topK
      && out.trace == [EmbedCall([s]), StoreCall(embed(s), topK)]
  {
    SearchAlwaysFull(vs, embed(s), topK, labels);
  }

  /**
    With the store's filter as intended, a store holding fewer than `top_k`
    rows returns one document per row and the keyword hits fill the rest of
    the list.
   */
  lemma FallbackRunsOnSmallStoreIntended<Q>(r: Retriever<Q>, embed: string -> Vector, store: (Vector, int) -> Result<seq<Doc>, SearchError>,
                                            vs: Store, s: string, topK: int, labels: seq<int>)
    requires r.keyword.Some?
    requires Covered(vs) && vs.index.Some? && |embed(s)| == vs.index.value.dim
    requires topK > RowCount(vs) && IsKnn(vs.index.value.rows, embed(s), topK, labels)
    requires store(embed(s), topK) == SearchIntended(vs, embed(s), topK, labels)
    ensures var hits := r.keyword.value.search(r.keyword.value.parse(s), topK - RowCount(vs));
      var out := Retrieve(r, embed, store, Text(s), topK, true).result;
      && out.Success? && |out.value| == RowCount(vs) + |hits|
      && out.value[..RowCount(vs)] == SearchIntended(vs, embed(s), topK, labels).value
  {
    SearchIntendedHits(vs, embed(s), topK, labels);
    var primary := SearchIntended(vs, embed(s), topK, labels).value;
    assert store(embed(s), topK) == Success(primary);
    assert HitCount(topK, RowCount(vs)) == RowCount(vs);
    assert |primary| == RowCount(vs);
    assert FallsBack(r, true, primary, topK);
    FallbackAppendsKeywordHits(r, embed, store, s, topK, true);
    var hits := r.keyword.value.search(r.keyword.value.parse(s), topK - |primary|);
    var out := Retrieve(r, embed, store, Text(s), topK, true).result;
    assert out.Success? && |out.value| == |primary| + |hits| && out.value[..|primary|] == primary;
  }
}
