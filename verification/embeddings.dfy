/**
  Text embedding with an in-memory cache and batched requests. The
  embeddings endpoint is a function from a batch of texts to the list of
  vectors it answers with; every call made is recorded, in order, so the
  batching can be stated.
 */
module Embeddings {
  import opened Base

  /** The most texts sent in one request. */
  const TextBatchSize: nat := 16

  /** The module-level cache from text to vector. */
  type Cache = map<string, Vector>

  /** The embeddings endpoint: the vectors returned for one batch of texts. */
  type Provider = seq<string> -> seq<Vector>

  /** `IndexError` from a response with more items than its batch has texts. */
  datatype EmbedError = ResponseIndexError

  /**
    The outcome of one `get_text_embeddings` call: the result list (a slot
    the responses never filled stays `None`) or the exception, the cache
    afterwards, and the batches sent.
   */
  datatype Outcome = Outcome(result: Result<seq<Option<Vector>>, EmbedError>, cache: Cache, calls: seq<seq<string>>)

  /** The endpoint answers every batch with one vector per text. */
  ghost predicate WellFormed(p: Provider)
  {
    forall b :: |p(b)| == |b|
  }

  /** The endpoint embeds each text on its own, by `f`. */
  ghost predicate Pointwise(p: Provider, f: string -> Vector)
  {
    forall b :: |p(b)| == |b| && forall j :: 0 <= j < |b| ==> p(b)[j] == f(b[j])
  }

  /** Every cached vector is the one `f` gives its text. */
  ghost predicate CacheAgrees(cache: Cache, f: string -> Vector)
  {
    forall t :: t in cache ==> cache[t] == f(t)
  }

  // ---------------------------------------------------------------------
  // The first pass: cache lookups

  /** `idx_map` from position `i` on: the positions of the texts not in the cache, in increasing order. */
  function PendingFrom(texts: seq<string>, cache: Cache, i: nat): (r: seq<nat>)
    requires i <= |texts|
    ensures forall k :: 0 <= k < |r| ==> i <= r[k] < |texts| && texts[r[k]] !in cache
    ensures forall k, l :: 0 <= k < l < |r| ==> r[k] < r[l]
    ensures forall q :: i <= q < |texts| && texts[q] !in cache ==> q in r
    decreases |texts| - i
  {
    if i == |texts| then []
    else if texts[i] in cache then PendingFrom(texts, cache, i + 1)
    else [i] + PendingFrom(texts, cache, i + 1)
  }

  /** `idx_map`. */
  function Pending(texts: seq<string>, cache: Cache): seq<nat>
  {
    PendingFrom(texts, cache, 0)
  }

  /** `to_request`: the texts at the given positions. */
  function Requested(texts: seq<string>, pending: seq<nat>): (r: seq<string>)
    requires forall k :: 0 <= k < |pending| ==> pending[k] < |texts|
    ensures |r| == |pending|
  {
    seq(|pending|, k requires 0 <= k < |pending| => texts[pending[k]])
  }

  /** The texts missing from the cache, in order, duplicates kept. */
  function Uncached(texts: seq<string>, cache: Cache): seq<string>
  {
    if texts == [] then []
    else (if texts[0] in cache then [] else [texts[0]]) + Uncached(texts[1..], cache)
  }

  lemma {:induction false} RequestedFromIsUncached(texts: seq<string>, cache: Cache, i: nat)
    requires i <= |texts|
    ensures Requested(texts, PendingFrom(texts, cache, i)) == Uncached(texts[i..], cache)
    decreases |texts| - i
  {
    if i < |texts| {
      RequestedFromIsUncached(texts, cache, i + 1);
      var rest := PendingFrom(texts, cache, i + 1);
      var tail := Requested(texts, rest);
      assert texts[i..][0] == texts[i] && texts[i..][1..] == texts[i + 1..];
      assert Uncached(texts[i..], cache) == (if texts[i] in cache then [] else [texts[i]]) + tail;
      if texts[i] !in cache {
        RequestedCons(texts, i, rest);
      }
    }
  }

  lemma RequestedCons(texts: seq<string>, i: nat, rest: seq<nat>)
    requires i < |texts|
    requires forall k :: 0 <= k < |rest| ==> rest[k] < |texts|
    ensures Requested(texts, [i] + rest) == [texts[i]] + Requested(texts, rest)
  {
    var l := Requested(texts, [i] + rest);
    var r := [texts[i]] + Requested(texts, rest);
    assert |l| == |r|;
    forall k | 0 <= k < |l|
      ensures l[k] == r[k]
    {
      if k > 0 {
        assert ([i] + rest)[k] == rest[k - 1];
      }
    }
  }

  /** The texts sent to the endpoint are exactly the uncached ones, in order. */
  lemma RequestedIsUncached(texts: seq<string>, cache: Cache)
    ensures Requested(texts, Pending(texts, cache)) == Uncached(texts, cache)
  {
    RequestedFromIsUncached(texts, cache, 0);
    assert texts[0..] == texts;
  }

  /** The result list after the first pass: cached vectors filled in, `None` elsewhere. */
  function Prefill(texts: seq<string>, cache: Cache): (r: seq<Option<Vector>>)
    ensures |r| == |texts|
    ensures forall i :: 0 <= i < |texts| ==> r[i] == if texts[i] in cache then Some(cache[texts[i]]) else None
    ensures forall q :: 0 <= q < |texts| ==> (r[q].None? <==> q in Pending(texts, cache))
  {
    seq(|texts|, i requires 0 <= i < |texts| => if texts[i] in cache then Some(cache[texts[i]]) else None)
  }

  // ---------------------------------------------------------------------
  // Batching

  /** The first batch of `r`: `r[0:16]`. */
  function Chunk(r: seq<string>): seq<string>
  {
    r[..Min(TextBatchSize, |r|)]
  }

  /** What is left after the first batch: `r[16:]`. */
  function Rest<T>(r: seq<T>): seq<T>
  {
    r[Min(TextBatchSize, |r|)..]
  }

  /** The batches `range(0, len(r), 16)` cuts `r` into. */
  function Batches(r: seq<string>): seq<seq<string>>
    decreases |r|
  {
    if r == [] then [] else [Chunk(r)] + Batches(Rest(r))
  }

  /** The concatenated responses to those batches. */
  function Responses(p: Provider, r: seq<string>): seq<Vector>
    decreases |r|
  {
    if r == [] then [] else p(Chunk(r)) + Responses(p, Rest(r))
  }

  function Flatten(bs: seq<seq<string>>): seq<string>
  {
    if bs == [] then [] else bs[0] + Flatten(bs[1..])
  }

  /** The batches put back together give the requested texts. */
  lemma {:induction false} BatchesFlatten(r: seq<string>)
    ensures Flatten(Batches(r)) == r
    decreases |r|
  {
    if r != [] {
      BatchesFlatten(Rest(r));
      assert Batches(r)[1..] == Batches(Rest(r));
      assert r == Chunk(r) + Rest(r);
    }
  }

  /** There are `ceil(|r| / 16)` batches, none empty, every one but the last of exactly 16 texts. */
  lemma {:induction false} BatchesShape(r: seq<string>)
    ensures |Batches(r)| == (|r| + TextBatchSize - 1) / TextBatchSize
    ensures forall b :: 0 <= b < |Batches(r)| ==> 0 < |Batches(r)[b]| <= TextBatchSize
    ensures forall b :: 0 <= b < |Batches(r)| - 1 ==> |Batches(r)[b]| == TextBatchSize
    decreases |r|
  {
    if r != [] {
      BatchesShape(Rest(r));
      var tail := Batches(Rest(r));
      assert Batches(r) == [Chunk(r)] + tail;
      assert forall b :: 1 <= b < |Batches(r)| ==> Batches(r)[b] == tail[b - 1];
      if |r| <= TextBatchSize {
        assert Rest(r) == [];
      }
    }
  }

  /** A well-formed endpoint answers the whole request with one vector per text. */
  lemma {:induction false} ResponsesLength(p: Provider, r: seq<string>)
    requires WellFormed(p)
    ensures |Responses(p, r)| == |r|
    decreases |r|
  {
    if r != [] {
      ResponsesLength(p, Rest(r));
      assert |p(Chunk(r))| == |Chunk(r)|;
    }
  }

  /** A pointwise endpoint answers text `k` of the request with `f` of it. */
  lemma {:induction false} ResponsesPointwise(p: Provider, f: string -> Vector, r: seq<string>)
    requires Pointwise(p, f)
    ensures |Responses(p, r)| == |r|
    ensures forall k :: 0 <= k < |r| ==> Responses(p, r)[k] == f(r[k])
    decreases |r|
  {
    if r != [] {
      var c, rest := Chunk(r), Rest(r);
      ResponsesPointwise(p, f, rest);
      var resp := Responses(p, r);
      assert resp == p(c) + Responses(p, rest);
      forall k | 0 <= k < |r|
        ensures resp[k] == f(r[k])
      {
        if k < |c| {
          assert resp[k] == p(c)[k] && c[k] == r[k];
        } else {
          assert resp[k] == Responses(p, rest)[k - |c|] && rest[k - |c|] == r[k];
        }
      }
    }
  }

  // ---------------------------------------------------------------------
  // The second pass: requests

  /** `txt_cache[batch[j]] = response[j]` for `j < n`, in order. */
  function CacheWrites(cache: Cache, batch: seq<string>, response: seq<Vector>, n: nat): Cache
    requires n <= |batch| && n <= |response|
  {
    if n == 0 then cache
    else CacheWrites(cache, batch, response, n - 1)[batch[n - 1] := response[n - 1]]
  }

  /** `embeddings[idx_map[j]] = response[j]` for `j < n`. */
  function SlotWrites(slots: seq<Option<Vector>>, pending: seq<nat>, response: seq<Vector>, n: nat): (r: seq<Option<Vector>>)
    requires n <= |pending| && n <= |response|
    requires forall k :: 0 <= k < |pending| ==> pending[k] < |slots|
    ensures |r| == |slots|
  {
    if n == 0 then slots
    else SlotWrites(slots, pending, response, n - 1)[pending[n - 1] := Some(response[n - 1])]
  }

  /**
    The batch loop, over what is left of `to_request` and of `idx_map`. A
    response with more items than its batch fails on the item past the
    batch's end, after the items before it have been cached.
   */
  function RunBatches(p: Provider, requested: seq<string>, pending: seq<nat>, slots: seq<Option<Vector>>, cache: Cache, calls: seq<seq<string>>): Outcome
    requires |pending| == |requested|
    requires forall k :: 0 <= k < |pending| ==> pending[k] < |slots|
    decreases |requested|
  {
    if requested == [] then Outcome(Success(slots), cache, calls)
    else
      var batch := Chunk(requested);
      var response := p(batch);
      var sent := calls + [batch];
      if |response| > |batch| then
        Outcome(Failure(ResponseIndexError), CacheWrites(cache, batch, response, |batch|), sent)
      else
        RunBatches(p, Rest(requested), Rest(pending),
                   SlotWrites(slots, pending, response, |response|),
                   CacheWrites(cache, batch, response, |response|), sent)
  }

  /** `get_text_embeddings`. */
  function GetTextEmbeddings(p: Provider, cache: Cache, texts: seq<string>): Outcome
  {
    var pending := Pending(texts, cache);
    RunBatches(p, Requested(texts, pending), pending, Prefill(texts, cache), cache, [])
  }

  // ---------------------------------------------------------------------
  // The batch loop, step by step

  /** Strictly increasing positions, as `idx_map` holds. */
  predicate Increasing(pending: seq<nat>)
  {
    forall k, l :: 0 <= k < l < |pending| ==> pending[k] < pending[l]
  }

  /** The set of texts in a list. */
  function Elements(r: seq<string>): set<string>
  {
    set t | t in r
  }

  lemma PointwiseIsWellFormed(p: Provider, f: string -> Vector)
    requires Pointwise(p, f)
    ensures WellFormed(p)
  {
  }

  /** Slot `pending[k]` gets response item `k`; no other slot changes. */
  lemma {:induction false} SlotWritesEffect(slots: seq<Option<Vector>>, pending: seq<nat>, response: seq<Vector>, n: nat)
    requires n <= |pending| && n <= |response|
    requires forall k :: 0 <= k < |pending| ==> pending[k] < |slots|
    requires Increasing(pending)
    ensures forall k :: 0 <= k < n ==> SlotWrites(slots, pending, response, n)[pending[k]] == Some(response[k])
    ensures forall q :: 0 <= q < |slots| && (forall k :: 0 <= k < n ==> pending[k] != q) ==>
              SlotWrites(slots, pending, response, n)[q] == slots[q]
  {
    if n > 0 {
      SlotWritesEffect(slots, pending, response, n - 1);
    }
  }

  /** The cache gains the first `n` texts of the batch as keys; entries for other texts are kept. */
  lemma {:induction false} CacheWritesEffect(cache: Cache, batch: seq<string>, response: seq<Vector>, n: nat)
    requires n <= |batch| && n <= |response|
    ensures CacheWrites(cache, batch, response, n).Keys == cache.Keys + Elements(batch[..n])
    ensures forall t :: t in cache && t !in batch[..n] ==> CacheWrites(cache, batch, response, n)[t] == cache[t]
  {
    if n > 0 {
      CacheWritesEffect(cache, batch, response, n - 1);
      assert batch[..n] == batch[..n - 1] + [batch[n - 1]];
    }
  }

  /** Writing `f`'s vectors keeps a cache consistent with `f`. */
  lemma {:induction false} CacheWritesAgree(cache: Cache, batch: seq<string>, response: seq<Vector>, n: nat, f: string -> Vector)
    requires n <= |batch| && n <= |response|
    requires CacheAgrees(cache, f)
    requires forall k :: 0 <= k < n ==> response[k] == f(batch[k])
    ensures CacheAgrees(CacheWrites(cache, batch, response, n), f)
  {
    if n > 0 {
      CacheWritesAgree(cache, batch, response, n - 1, f);
    }
  }

  /** A successful run returns one slot per input slot, whatever the endpoint answers. */
  lemma {:induction false} RunKeepsLength(p: Provider, requested: seq<string>, pending: seq<nat>, slots: seq<Option<Vector>>, cache: Cache, calls: seq<seq<string>>)
    requires |pending| == |requested|
    requires forall k :: 0 <= k < |pending| ==> pending[k] < |slots|
    ensures var o := RunBatches(p, requested, pending, slots, cache, calls);
      o.result.Success? ==> |o.result.value| == |slots|
    decreases |requested|
  {
    if requested != [] {
      var batch := Chunk(requested);
      var response := p(batch);
      if |response| <= |batch| {
        RunKeepsLength(p, Rest(requested), Rest(pending), SlotWrites(slots, pending, response, |response|),
                       CacheWrites(cache, batch, response, |response|), calls + [batch]);
      }
    }
  }

  /** With a well-formed endpoint the loop never fails, and it sends the batches of the requested texts in order. */
  lemma {:induction false} RunSucceeds(p: Provider, requested: seq<string>, pending: seq<nat>, slots: seq<Option<Vector>>, cache: Cache, calls: seq<seq<string>>)
    requires WellFormed(p)
    requires |pending| == |requested|
    requires forall k :: 0 <= k < |pending| ==> pending[k] < |slots|
    ensures var o := RunBatches(p, requested, pending, slots, cache, calls);
      && o.result.Success? && |o.result.value| == |slots|
      && o.calls == calls + Batches(requested)
    decreases |requested|
  {
    RunKeepsLength(p, requested, pending, slots, cache, calls);
    if requested != [] {
      var batch := Chunk(requested);
      var response := p(batch);
      assert |response| == |batch|;
      RunSucceeds(p, Rest(requested), Rest(pending), SlotWrites(slots, pending, response, |batch|),
                  CacheWrites(cache, batch, response, |batch|), calls + [batch]);
      assert calls + [batch] + Batches(Rest(requested)) == calls + Batches(requested);
    }
  }

  /**
    With a well-formed endpoint slot `pending[k]` receives item `k` of the
    concatenated responses, and every other slot keeps its value.
   */
  lemma {:induction false} RunFillsSlots(p: Provider, requested: seq<string>, pending: seq<nat>, slots: seq<Option<Vector>>, cache: Cache, calls: seq<seq<string>>)
    requires WellFormed(p)
    requires |pending| == |requested|
    requires forall k :: 0 <= k < |pending| ==> pending[k] < |slots|
    requires Increasing(pending)
    ensures |Responses(p, requested)| == |requested|
    ensures var o := RunBatches(p, requested, pending, slots, cache, calls);
      && o.result.Success? && |o.result.value| == |slots|
      && (forall k :: 0 <= k < |pending| ==> o.result.value[pending[k]] == Some(Responses(p, requested)[k]))
      && (forall q :: 0 <= q < |slots| && (forall k :: 0 <= k < |pending| ==> pending[k] != q) ==> o.result.value[q] == slots[q])
    decreases |requested|
  {
    ResponsesLength(p, requested);
    RunSucceeds(p, requested, pending, slots, cache, calls);
    if requested != [] {
      var c := Min(TextBatchSize, |requested|);
      var batch := Chunk(requested);
      var response := p(batch);
      assert |response| == c;
      var slots1 := SlotWrites(slots, pending, response, c);
      SlotWritesEffect(slots, pending, response, c);
      var restP := Rest(pending);
      assert forall k :: 0 <= k < |restP| ==> restP[k] == pending[c + k];
      var sub := Responses(p, Rest(requested));
      RunFillsSlots(p, Rest(requested), restP, slots1, CacheWrites(cache, batch, response, c), calls + [batch]);
      var out := RunBatches(p, Rest(requested), restP, slots1, CacheWrites(cache, batch, response, c), calls + [batch]).result.value;
      assert RunBatches(p, requested, pending, slots, cache, calls).result.value == out;
      var all := Responses(p, requested);
      assert all == response + sub;
      forall k | 0 <= k < |pending|
        ensures out[pending[k]] == Some(all[k])
      {
        if k < c {
          assert forall j :: 0 <= j < |restP| ==> restP[j] != pending[k];
          assert out[pending[k]] == slots1[pending[k]];
        } else {
          assert restP[k - c] == pending[k];
          assert all[k] == sub[k - c];
        }
      }
      forall q | 0 <= q < |slots| && (forall k :: 0 <= k < |pending| ==> pending[k] != q)
        ensures out[q] == slots[q]
      {
        assert forall j :: 0 <= j < |restP| ==> restP[j] != q;
      }
    }
  }

  /** With a well-formed endpoint the cache gains every requested text as a key and keeps its other entries. */
  lemma {:induction false} RunCache(p: Provider, requested: seq<string>, pending: seq<nat>, slots: seq<Option<Vector>>, cache: Cache, calls: seq<seq<string>>)
    requires WellFormed(p)
    requires |pending| == |requested|
    requires forall k :: 0 <= k < |pending| ==> pending[k] < |slots|
    ensures var o := RunBatches(p, requested, pending, slots, cache, calls);
      && o.cache.Keys == cache.Keys + Elements(requested)
      && forall t :: t in cache && t !in requested ==> o.cache[t] == cache[t]
    decreases |requested|
  {
    if requested != [] {
      var c := Min(TextBatchSize, |requested|);
      var batch := Chunk(requested);
      var response := p(batch);
      assert |response| == c;
      var cache1 := CacheWrites(cache, batch, response, c);
      CacheWritesEffect(cache, batch, response, c);
      assert batch[..c] == batch;
      RunCache(p, Rest(requested), Rest(pending), SlotWrites(slots, pending, response, c), cache1, calls + [batch]);
      assert requested == batch + Rest(requested);
      assert Elements(requested) == Elements(batch) + Elements(Rest(requested));
    }
  }

  /** With an endpoint that embeds by `f`, a cache consistent with `f` stays consistent. */
  lemma {:induction false} RunCacheAgrees(p: Provider, f: string -> Vector, requested: seq<string>, pending: seq<nat>, slots: seq<Option<Vector>>, cache: Cache, calls: seq<seq<string>>)
    requires Pointwise(p, f) && CacheAgrees(cache, f)
    requires |pending| == |requested|
    requires forall k :: 0 <= k < |pending| ==> pending[k] < |slots|
    ensures CacheAgrees(RunBatches(p, requested, pending, slots, cache, calls).cache, f)
    decreases |requested|
  {
    if requested != [] {
      var batch := Chunk(requested);
      var response := p(batch);
      assert response == seq(|batch|, j requires 0 <= j < |batch| => f(batch[j]));
      CacheWritesAgree(cache, batch, response, |response|, f);
      RunCacheAgrees(p, f, Rest(requested), Rest(pending), SlotWrites(slots, pending, response, |response|),
                     CacheWrites(cache, batch, response, |response|), calls + [batch]);
    }
  }

  // ---------------------------------------------------------------------
  // Properties of `get_text_embeddings`

  /** A text is requested exactly when it is an input missing from the cache. */
  lemma {:induction false} UncachedMembers(texts: seq<string>, cache: Cache)
    ensures forall t :: t in Uncached(texts, cache) <==> t in texts && t !in cache
  {
    if texts != [] {
      UncachedMembers(texts[1..], cache);
      assert texts == [texts[0]] + texts[1..];
    }
  }

  /**
    With a well-formed endpoint the call succeeds with one vector per input:
    a cached text gets its cached vector, and the `k`-th uncached position
    gets item `k` of the responses to the uncached texts.
   */
  lemma GetTextEmbeddingsResult(p: Provider, cache: Cache, texts: seq<string>)
    requires WellFormed(p)
    ensures var o := GetTextEmbeddings(p, cache, texts);
      var pending := Pending(texts, cache);
      var requested := Uncached(texts, cache);
      && o.result.Success? && |o.result.value| == |texts|
      && |pending| == |requested| && |Responses(p, requested)| == |requested|
      && (forall i :: 0 <= i < |texts| && texts[i] in cache ==> o.result.value[i] == Some(cache[texts[i]]))
      && (forall k :: 0 <= k < |pending| ==>
            texts[pending[k]] == requested[k] && o.result.value[pending[k]] == Some(Responses(p, requested)[k]))
  {
    var pending := Pending(texts, cache);
    RequestedIsUncached(texts, cache);
    var requested := Requested(texts, pending);
    var slots := Prefill(texts, cache);
    RunFillsSlots(p, requested, pending, slots, cache, []);
    var o := GetTextEmbeddings(p, cache, texts);
    forall i | 0 <= i < |texts| && texts[i] in cache
      ensures o.result.value[i] == Some(cache[texts[i]])
    {
      assert forall k :: 0 <= k < |pending| ==> pending[k] != i;
    }
  }

  /** With a well-formed endpoint no output slot is left `None`. */
  lemma GetTextEmbeddingsFillsEverySlot(p: Provider, cache: Cache, texts: seq<string>)
    requires WellFormed(p)
    ensures var o := GetTextEmbeddings(p, cache, texts);
      && o.result.Success? && |o.result.value| == |texts|
      && forall i :: 0 <= i < |texts| ==> o.result.value[i].Some?
  {
    GetTextEmbeddingsResult(p, cache, texts);
    var o := GetTextEmbeddings(p, cache, texts);
    var pending := Pending(texts, cache);
    forall i | 0 <= i < |texts|
      ensures o.result.value[i].Some?
    {
      if texts[i] !in cache {
        assert i in pending;
      }
    }
  }

  /** The endpoint is sent the uncached texts in input order, cut into batches of at most 16, and no cached text. */
  lemma GetTextEmbeddingsCalls(p: Provider, cache: Cache, texts: seq<string>)
    requires WellFormed(p)
    ensures var o := GetTextEmbeddings(p, cache, texts);
      && o.calls == Batches(Uncached(texts, cache))
      && Flatten(o.calls) == Uncached(texts, cache)
      && (forall b :: 0 <= b < |o.calls| ==> 0 < |o.calls[b]| <= TextBatchSize)
      && (forall b :: 0 <= b < |o.calls| - 1 ==> |o.calls[b]| == TextBatchSize)
      && forall t :: t in Flatten(o.calls) ==> t in texts && t !in cache
  {
    var pending := Pending(texts, cache);
    RequestedIsUncached(texts, cache);
    RunSucceeds(p, Requested(texts, pending), pending, Prefill(texts, cache), cache, []);
    assert [] + Batches(Uncached(texts, cache)) == Batches(Uncached(texts, cache));
    BatchesFlatten(Uncached(texts, cache));
    BatchesShape(Uncached(texts, cache));
    UncachedMembers(texts, cache);
  }

  /** Afterwards every input text is a cache key, and every entry that was cached before is unchanged. */
  lemma GetTextEmbeddingsCache(p: Provider, cache: Cache, texts: seq<string>)
    requires WellFormed(p)
    ensures var o := GetTextEmbeddings(p, cache, texts);
      && o.cache.Keys == cache.Keys + Elements(texts)
      && forall t :: t in cache ==> t in o.cache && o.cache[t] == cache[t]
  {
    var pending := Pending(texts, cache);
    RequestedIsUncached(texts, cache);
    RunCache(p, Requested(texts, pending), pending, Prefill(texts, cache), cache, []);
    UncachedMembers(texts, cache);
  }

  /** With an endpoint that embeds by `f` and a cache consistent with it, slot `i` holds `f(texts[i])`. */
  lemma GetTextEmbeddingsPointwise(p: Provider, f: string -> Vector, cache: Cache, texts: seq<string>)
    requires Pointwise(p, f) && CacheAgrees(cache, f)
    ensures var o := GetTextEmbeddings(p, cache, texts);
      && o.result == Success(seq(|texts|, i requires 0 <= i < |texts| => Some(f(texts[i]))))
      && CacheAgrees(o.cache, f)
  {
    PointwiseIsWellFormed(p, f);
    var o := GetTextEmbeddings(p, cache, texts);
    var want := seq(|texts|, i requires 0 <= i < |texts| => Some(f(texts[i])));
    PointwiseSlots(p, f, cache, texts);
    var got := o.result.value;
    assert |got| == |want| && forall i :: 0 <= i < |texts| ==> got[i] == want[i];
    assert got == want;
    var pending := Pending(texts, cache);
    RequestedIsUncached(texts, cache);
    RunCacheAgrees(p, f, Requested(texts, pending), pending, Prefill(texts, cache), cache, []);
  }

  lemma PointwiseSlots(p: Provider, f: string -> Vector, cache: Cache, texts: seq<string>)
    requires WellFormed(p) && Pointwise(p, f) && CacheAgrees(cache, f)
    ensures var o := GetTextEmbeddings(p, cache, texts);
      && o.result.Success? && |o.result.value| == |texts|
      && forall i :: 0 <= i < |texts| ==> o.result.value[i] == Some(f(texts[i]))
  {
    GetTextEmbeddingsResult(p, cache, texts);
    var o := GetTextEmbeddings(p, cache, texts);
    var pending := Pending(texts, cache);
    var requested := Uncached(texts, cache);
    ResponsesPointwise(p, f, requested);
    forall i | 0 <= i < |texts|
      ensures o.result.value[i] == Some(f(texts[i]))
    {
      if texts[i] !in cache {
        assert i in pending;
        var k :| 0 <= k < |pending| && pending[k] == i;
        assert o.result.value[pending[k]] == Some(Responses(p, requested)[k]);
        assert texts[pending[k]] == requested[k];
      }
    }
  }

  /** A second call on the same texts finds them all cached: it calls no endpoint and returns the cached vectors. */
  lemma SecondCallMakesNoCalls(p: Provider, p2: Provider, cache: Cache, texts: seq<string>)
    requires WellFormed(p)
    ensures var o := GetTextEmbeddings(p, cache, texts);
      var o2 := GetTextEmbeddings(p2, o.cache, texts);
      && o2.calls == [] && o2.cache == o.cache
      && o2.result.Success? && |o2.result.value| == |texts|
      && (forall i :: 0 <= i < |texts| ==> texts[i] in o.cache)
      && forall i :: 0 <= i < |texts| ==> o2.result.value[i] == Some(o.cache[texts[i]])
  {
    var o := GetTextEmbeddings(p, cache, texts);
    GetTextEmbeddingsCache(p, cache, texts);
    assert forall i :: 0 <= i < |texts| ==> texts[i] in Elements(texts);
    var full := o.cache;
    assert forall i :: 0 <= i < |texts| ==> texts[i] in full;
    AllCached(p2, full, texts);
    var slots := Prefill(texts, full);
    assert forall i :: 0 <= i < |texts| ==> slots[i] == Some(full[texts[i]]);
  }

  lemma AllCached(p: Provider, cache: Cache, texts: seq<string>)
    requires forall i :: 0 <= i < |texts| ==> texts[i] in cache
    ensures GetTextEmbeddings(p, cache, texts) == Outcome(Success(Prefill(texts, cache)), cache, [])
  {
  }

  /** With an endpoint that embeds by `f`, repeating a call returns the same list and leaves the cache as it was. */
  lemma RepeatReturnsSameResult(p: Provider, f: string -> Vector, cache: Cache, texts: seq<string>)
    requires Pointwise(p, f) && CacheAgrees(cache, f)
    ensures var o := GetTextEmbeddings(p, cache, texts);
      var o2 := GetTextEmbeddings(p, o.cache, texts);
      o2.calls == [] && o2.result == o.result && o2.cache == o.cache
  {
    PointwiseIsWellFormed(p, f);
    SecondCallMakesNoCalls(p, p, cache, texts);
    GetTextEmbeddingsPointwise(p, f, cache, texts);
    var o := GetTextEmbeddings(p, cache, texts);
    GetTextEmbeddingsPointwise(p, f, o.cache, texts);
  }

  /**
    Without a pointwise endpoint a repeat can differ: a text that occurs
    twice goes out twice in one batch, the cache keeps the second answer, and
    the repeat returns that answer in both slots.
   */
  lemma RepeatNeedsPointwiseEndpoint(p: Provider, x: string)
    requires WellFormed(p) && p([x, x])[0] != p([x, x])[1]
    ensures var o := GetTextEmbeddings(p, map[], [x, x]);
      var o2 := GetTextEmbeddings(p, o.cache, [x, x]);
      && o.result == Success([Some(p([x, x])[0]), Some(p([x, x])[1])])
      && o2.result == Success([Some(p([x, x])[1]), Some(p([x, x])[1])])
      && o2.result != o.result
  {
    var texts := [x, x];
    OneBatchOnEmptyCache(p, texts);
    var o := GetTextEmbeddings(p, map[], texts);
    assert o.result.value == [o.result.value[0], o.result.value[1]];
    OneBatchCache(p, texts);
    var response := p(texts);
    assert o.cache == CacheWrites(map[], texts, response, 1)[x := response[1]];
    AllCached(p, o.cache, texts);
    var again := Prefill(texts, o.cache);
    assert again == [again[0], again[1]];
  }

  /** Up to 16 texts on an empty cache: the cache afterwards is the one batch's writes, in order. */
  lemma OneBatchCache(p: Provider, texts: seq<string>)
    requires WellFormed(p) && 0 < |texts| <= TextBatchSize
    ensures GetTextEmbeddings(p, map[], texts).cache == CacheWrites(map[], texts, p(texts), |texts|)
  {
    var none: Cache := map[];
    UncachedEmptyCache(texts);
    RequestedIsUncached(texts, none);
    var pending := Pending(texts, none);
    RunOneBatchCache(p, texts, pending, Prefill(texts, none), none, []);
  }

  lemma RunOneBatchCache(p: Provider, requested: seq<string>, pending: seq<nat>, slots: seq<Option<Vector>>, cache: Cache, calls: seq<seq<string>>)
    requires WellFormed(p) && 0 < |requested| <= TextBatchSize
    requires |pending| == |requested|
    requires forall k :: 0 <= k < |pending| ==> pending[k] < |slots|
    ensures RunBatches(p, requested, pending, slots, cache, calls).cache == CacheWrites(cache, requested, p(requested), |requested|)
  {
    assert Chunk(requested) == requested && Rest(requested) == [];
  }

  lemma {:induction false} PendingFromEmptyCache(texts: seq<string>, i: nat)
    requires i <= |texts|
    ensures |PendingFrom(texts, map[], i)| == |texts| - i
    ensures forall k :: 0 <= k < |texts| - i ==> PendingFrom(texts, map[], i)[k] == i + k
    decreases |texts| - i
  {
    if i < |texts| {
      PendingFromEmptyCache(texts, i + 1);
      var rest := PendingFrom(texts, map[], i + 1);
      assert PendingFrom(texts, map[], i) == [i] + rest;
    }
  }

  lemma {:induction false} UncachedEmptyCache(texts: seq<string>)
    ensures Uncached(texts, map[]) == texts
  {
    if texts != [] {
      UncachedEmptyCache(texts[1..]);
      assert texts == [texts[0]] + texts[1..];
    }
  }

  /** Up to 16 texts form a single batch, answered by a single response. */
  lemma SingleBatch(p: Provider, texts: seq<string>)
    requires 0 < |texts| <= TextBatchSize
    ensures Batches(texts) == [texts]
    ensures Responses(p, texts) == p(texts)
  {
    assert Chunk(texts) == texts && Rest(texts) == [];
    assert Responses(p, texts) == p(texts) + [];
  }

  /** Up to 16 texts on an empty cache go out in one request, and slot `i` gets item `i` of its response. */
  lemma OneBatchOnEmptyCache(p: Provider, texts: seq<string>)
    requires WellFormed(p) && 0 < |texts| <= TextBatchSize
    ensures var o := GetTextEmbeddings(p, map[], texts);
      && o.calls == [texts]
      && o.result.Success? && |o.result.value| == |texts| && |p(texts)| == |texts|
      && forall i :: 0 <= i < |texts| ==> o.result.value[i] == Some(p(texts)[i])
  {
    var none: Cache := map[];
    SingleBatch(p, texts);
    UncachedEmptyCache(texts);
    PendingFromEmptyCache(texts, 0);
    GetTextEmbeddingsCalls(p, none, texts);
    GetTextEmbeddingsResult(p, none, texts);
    var value := GetTextEmbeddings(p, none, texts).result.value;
    var pending := Pending(texts, none);
    var requested := Uncached(texts, none);
    assert |pending| == |texts| && requested == texts;
    assert Responses(p, requested) == p(texts);
    forall i | 0 <= i < |texts|
      ensures value[i] == Some(p(texts)[i])
    {
      assert pending[i] == i;
      assert value[pending[i]] == Some(Responses(p, requested)[i]);
    }
  }

  /** Three texts on an empty cache go out in one request, in order, and come back in order. */
  lemma ThreeTextsOneCall(p: Provider, a: string, b: string, c: string)
    requires WellFormed(p)
    ensures var o := GetTextEmbeddings(p, map[], [a, b, c]);
      && o.calls == [[a, b, c]]
      && o.result == Success([Some(p([a, b, c])[0]), Some(p([a, b, c])[1]), Some(p([a, b, c])[2])])
  {
    OneBatchOnEmptyCache(p, [a, b, c]);
    var v := GetTextEmbeddings(p, map[], [a, b, c]).result.value;
    assert v == [v[0], v[1], v[2]];
  }

  /** A text that occurs twice and is not cached is sent twice, and both slots get its vector. */
  lemma DuplicateTextSentTwice(p: Provider, f: string -> Vector, x: string, y: string)
    requires Pointwise(p, f)
    ensures var o := GetTextEmbeddings(p, map[], [x, x, y]);
      && o.calls == [[x, x, y]]
      && o.result == Success([Some(f(x)), Some(f(x)), Some(f(y))])
  {
    PointwiseIsWellFormed(p, f);
    ThreeTextsOneCall(p, x, x, y);
    GetTextEmbeddingsPointwise(p, f, map[], [x, x, y]);
    var o := GetTextEmbeddings(p, map[], [x, x, y]);
    var want := seq(3, i requires 0 <= i < 3 => Some(f([x, x, y][i])));
    assert want == [Some(f(x)), Some(f(x)), Some(f(y))];
  }

  /** A response with more items than its batch raises, after the batch's own items have been cached. */
  lemma TooLongResponseFails(p: Provider, cache: Cache, texts: seq<string>)
    requires Uncached(texts, cache) != []
    requires |p(Chunk(Uncached(texts, cache)))| > |Chunk(Uncached(texts, cache))|
    ensures var o := GetTextEmbeddings(p, cache, texts);
      && o.result == Failure(ResponseIndexError)
      && o.calls == [Chunk(Uncached(texts, cache))]
      && o.cache.Keys == cache.Keys + Elements(Chunk(Uncached(texts, cache)))
  {
    RequestedIsUncached(texts, cache);
    var batch := Chunk(Uncached(texts, cache));
    CacheWritesEffect(cache, batch, p(batch), |batch|);
    assert batch[..|batch|] == batch;
  }

  /** A response with fewer items than its batch leaves the unanswered slots `None`; an empty one leaves every uncached slot so. */
  lemma SilentEndpointLeavesNone(p: Provider, cache: Cache, texts: seq<string>)
    requires forall b :: p(b) == []
    ensures var o := GetTextEmbeddings(p, cache, texts);
      && o.result.Success? && |o.result.value| == |texts|
      && o.calls == Batches(Uncached(texts, cache))
      && forall i :: 0 <= i < |texts| ==>
           o.result.value[i] == if texts[i] in cache then Some(cache[texts[i]]) else None
  {
    RequestedIsUncached(texts, cache);
    var pending := Pending(texts, cache);
    SilentRun(p, Requested(texts, pending), pending, Prefill(texts, cache), cache, []);
    assert [] + Batches(Uncached(texts, cache)) == Batches(Uncached(texts, cache));
  }

  lemma {:induction false} SilentRun(p: Provider, requested: seq<string>, pending: seq<nat>, slots: seq<Option<Vector>>, cache: Cache, calls: seq<seq<string>>)
    requires forall b :: p(b) == []
    requires |pending| == |requested|
    requires forall k :: 0 <= k < |pending| ==> pending[k] < |slots|
    ensures var o := RunBatches(p, requested, pending, slots, cache, calls);
      o.result == Success(slots) && o.calls == calls + Batches(requested) && o.cache == cache
    decreases |requested|
  {
    if requested != [] {
      var batch := Chunk(requested);
      assert p(batch) == [];
      SilentRun(p, Rest(requested), Rest(pending), slots, cache, calls + [batch]);
      assert calls + [batch] + Batches(Rest(requested)) == calls + Batches(requested);
    }
  }

  // ---------------------------------------------------------------------
  // `embed_documents`

  /** The outcome of `embed_documents`: the new documents or the exception, the cache afterwards, and the batches sent. */
  datatype DocsOutcome = DocsOutcome(result: Result<seq<Doc>, EmbedError>, cache: Cache, calls: seq<seq<string>>)

  /** `[d.page_content for d in docs]`. */
  function Contents(docs: seq<Doc>): (r: seq<string>)
    ensures |r| == |docs|
    ensures forall i :: 0 <= i < |docs| ==> r[i] == docs[i].content
  {
    seq(|docs|, i requires 0 <= i < |docs| => docs[i].content)
  }

  /** The texts of two lists of documents, one after the other, are the texts of the joined list. */
  lemma ContentsAppend(a: seq<Doc>, b: seq<Doc>)
    ensures Contents(a + b) == Contents(a) + Contents(b)
  {
    assert forall i :: 0 <= i < |b| ==> (a + b)[|a| + i] == b[i];
  }

  /** The metadata value stored for a result slot: the vector, or `None` for a slot never filled. */
  function EmbeddingValue(v: Option<Vector>): Value
  {
    if v.Some? then Vec(v.value) else Nil
  }

  /** `zip(docs, embs)`: copies of the documents with the `embedding` key set, as many as the shorter list. */
  function Attach(docs: seq<Doc>, embs: seq<Option<Vector>>): seq<Doc>
  {
    seq(Min(|docs|, |embs|), i requires 0 <= i < Min(|docs|, |embs|) =>
      Doc(docs[i].content, docs[i].metadata[EmbeddingKey := EmbeddingValue(embs[i])]))
  }

  /** `embed_documents`. */
  function EmbedDocuments(p: Provider, cache: Cache, docs: seq<Doc>): DocsOutcome
  {
    var o := GetTextEmbeddings(p, cache, Contents(docs));
    match o.result
    case Failure(e) => DocsOutcome(Failure(e), o.cache, o.calls)
    case Success(embs) => DocsOutcome(Success(Attach(docs, embs)), o.cache, o.calls)
  }

  /**
    A successful call returns one document per input, in order, with the
    same text; its metadata is the input's with `embedding` added or
    replaced and every other key kept.
   */
  lemma EmbedDocumentsShape(p: Provider, cache: Cache, docs: seq<Doc>)
    ensures var r := EmbedDocuments(p, cache, docs);
      r.result.Success? ==>
        && |r.result.value| == |docs|
        && forall i :: 0 <= i < |docs| ==>
             && r.result.value[i].content == docs[i].content
             && r.result.value[i].metadata.Keys == docs[i].metadata.Keys + {EmbeddingKey}
             && forall key :: key in docs[i].metadata && key != EmbeddingKey ==>
                  r.result.value[i].metadata[key] == docs[i].metadata[key]
  {
    var texts := Contents(docs);
    var pending := Pending(texts, cache);
    RequestedIsUncached(texts, cache);
    RunKeepsLength(p, Requested(texts, pending), pending, Prefill(texts, cache), cache, []);
  }

  /** The endpoint sees exactly what `get_text_embeddings` sends for the documents' texts, and the cache ends the same. */
  lemma EmbedDocumentsCalls(p: Provider, cache: Cache, docs: seq<Doc>)
    requires WellFormed(p)
    ensures var r := EmbedDocuments(p, cache, docs);
      && r.result.Success?
      && r.calls == Batches(Uncached(Contents(docs), cache))
      && r.cache.Keys == cache.Keys + Elements(Contents(docs))
  {
    GetTextEmbeddingsResult(p, cache, Contents(docs));
    GetTextEmbeddingsCalls(p, cache, Contents(docs));
    GetTextEmbeddingsCache(p, cache, Contents(docs));
  }

  /** With an endpoint that embeds by `f` and a consistent cache, document `i` carries `f` of its own text. */
  lemma EmbedDocumentsVectors(p: Provider, f: string -> Vector, cache: Cache, docs: seq<Doc>)
    requires Pointwise(p, f) && CacheAgrees(cache, f)
    ensures var r := EmbedDocuments(p, cache, docs);
      && r.result.Success? && |r.result.value| == |docs|
      && forall i :: 0 <= i < |docs| ==> Get(r.result.value[i].metadata, EmbeddingKey) == Vec(f(docs[i].content))
  {
    PointwiseIsWellFormed(p, f);
    PointwiseSlots(p, f, cache, Contents(docs));
  }

  /** With an endpoint that answers nothing, an uncached document's `embedding` is `None`. */
  lemma SilentEndpointEmbedsNone(p: Provider, cache: Cache, docs: seq<Doc>)
    requires forall b :: p(b) == []
    ensures var r := EmbedDocuments(p, cache, docs);
      && r.result.Success? && |r.result.value| == |docs|
      && forall i :: 0 <= i < |docs| && docs[i].content !in cache ==> Get(r.result.value[i].metadata, EmbeddingKey) == Nil
  {
    SilentEndpointLeavesNone(p, cache, Contents(docs));
  }
}
