/**
  The FAISS-backed vector store: an optional flat L2 index, the list of
  metadata dictionaries kept beside it, and the two files they persist to.
  Every operation is a function from the old state (in memory and on disk)
  to the new one; the labels the index returns for a search are an input
  constrained by `FlatL2.IsKnn`.
 */
module VectorStore {
  import opened Base
  import opened FlatL2

  /** A flat L2 index: the dimension it was created with and its rows in insertion order. */
  datatype FlatIndex = FlatIndex(dim: nat, rows: seq<Vector>)

  /** The in-memory state: the index (absent until the first successful add) and the metadata list. */
  datatype Store = Store(index: Option<FlatIndex>, metadata: seq<Meta>)

  /** The two files, each absent or holding what was last written to it. */
  datatype Disk = Disk(indexFile: Option<FlatIndex>, metaFile: Option<seq<Meta>>)

  /** `ValueError` on a document without an embedding, the array conversion failing, or `index.add` rejecting the width. */
  datatype AddError = MissingEmbedding | MalformedBatch | DimensionMismatch

  /** The failed assertions of the index's search wrapper, and the `IndexError` of `metadata[idx]`. */
  datatype SearchError = QueryDimensionMismatch | NonPositiveTopK | MetadataIndexError

  /** What `add_documents` leaves behind: the new state, and the exception it raised, if any. */
  datatype AddOutcome = AddOutcome(store: Store, disk: Disk, error: Option<AddError>)

  const EmptyStore: Store := Store(None, [])
  const NoFiles: Disk := Disk(None, None)

  /** The number of rows in the store's index. */
  function RowCount(s: Store): nat
  {
    if s.index.None? then 0 else |s.index.value.rows|
  }

  /** `_load`: both files present gives their contents, anything else an empty store. */
  function Load(disk: Disk): Store
  {
    if disk.indexFile.Some? && disk.metaFile.Some? then Store(disk.indexFile, disk.metaFile.value)
    else EmptyStore
  }

  /** `_save`: both files are overwritten with the current index and metadata. */
  function Save(ix: FlatIndex, metadata: seq<Meta>): Disk
  {
    Disk(Some(ix), Some(metadata))
  }

  /** `doc.metadata.get('embedding') is not None`. */
  predicate HasEmbedding(d: Doc)
  {
    Get(d.metadata, EmbeddingKey) != Nil
  }

  /** The position of the first document without an embedding, or `|docs|` when there is none. */
  function FirstMissing(docs: seq<Doc>): (n: nat)
    ensures n <= |docs|
    ensures forall i :: 0 <= i < n ==> HasEmbedding(docs[i])
    ensures n < |docs| ==> !HasEmbedding(docs[n])
  {
    if docs == [] then 0
    else if !HasEmbedding(docs[0]) then 0
    else 1 + FirstMissing(docs[1..])
  }

  /** The metadata dictionaries of `docs`, copied in order. */
  function Metas(docs: seq<Doc>): (r: seq<Meta>)
    ensures |r| == |docs|
    ensures forall i :: 0 <= i < |docs| ==> r[i] == docs[i].metadata
  {
    seq(|docs|, i requires 0 <= i < |docs| => docs[i].metadata)
  }

  /** Copying metadata batch by batch is copying the whole batch. */
  lemma MetasAppend(a: seq<Doc>, b: seq<Doc>)
    ensures Metas(a + b) == Metas(a) + Metas(b)
  {
    assert forall i :: 0 <= i < |b| ==> (a + b)[|a| + i] == b[i];
  }

  /** The embedding values of `docs`, in order. */
  function Embeddings(docs: seq<Doc>): seq<Value>
  {
    seq(|docs|, i requires 0 <= i < |docs| => Get(docs[i].metadata, EmbeddingKey))
  }

  /** The width `np.array` would give a batch whose first entry is `v`. */
  function Width(v: Value): nat
  {
    if v.Vec? then |v.v| else 0
  }

  /** Every value is a vector of the given width, so the batch converts to a 2-D float array. */
  predicate IsMatrix(vals: seq<Value>, width: nat)
  {
    forall i :: 0 <= i < |vals| ==> vals[i].Vec? && |vals[i].v| == width
  }

  /** The rows of a batch that converts to a matrix. */
  function VectorsOf(vals: seq<Value>): (r: seq<Vector>)
    ensures |r| == |vals|
    ensures forall i :: 0 <= i < |vals| && vals[i].Vec? ==> r[i] == vals[i].v
  {
    seq(|vals|, i requires 0 <= i < |vals| => if vals[i].Vec? then vals[i].v else [])
  }

  /** The rows of two batches, one after the other, are the rows of the joined batch. */
  lemma VectorsOfAppend(a: seq<Value>, b: seq<Value>)
    ensures VectorsOf(a + b) == VectorsOf(a) + VectorsOf(b)
  {
    assert forall i :: 0 <= i < |b| ==> (a + b)[|a| + i] == b[i];
  }

  /**
    `add_documents` as written: each document's metadata is appended before
    the next one is checked, so a missing embedding, a batch that is not a
    matrix, or a width the index rejects leaves the metadata of the checked
    documents appended to the in-memory list while the index and the files
    stay as they were.
   */
  function AddDocuments(s: Store, disk: Disk, docs: seq<Doc>): (r: AddOutcome)
    ensures r.error.Some? ==> r.store.index == s.index && r.disk == disk
    ensures r.error.None? && docs != [] ==> r.store.index.Some? && r.disk == Save(r.store.index.value, r.store.metadata)
  {
    if docs == [] then AddOutcome(s, disk, None)
    else
      var n := FirstMissing(docs);
      var appended := s.metadata + Metas(docs[..n]);
      if n < |docs| then AddOutcome(s.(metadata := appended), disk, Some(MissingEmbedding))
      else
        var vals := Embeddings(docs);
        var width := Width(vals[0]);
        if !IsMatrix(vals, width) then AddOutcome(s.(metadata := appended), disk, Some(MalformedBatch))
        else
          var ix := if s.index.None? then FlatIndex(width, []) else s.index.value;
          if ix.dim != width then AddOutcome(s.(metadata := appended), disk, Some(DimensionMismatch))
          else
            var grown := ix.(rows := ix.rows + VectorsOf(vals));
            AddOutcome(Store(Some(grown), appended), Save(grown, appended), None)
  }

  /** Adding nothing changes nothing. */
  lemma AddNothing(s: Store, disk: Disk)
    ensures AddDocuments(s, disk, []) == AddOutcome(s, disk, None)
  {
  }

  /** Python's `seq[i]` for `-|seq| <= i < |seq|`: negative positions count from the end. */
  function PyIndex(len: nat, i: int): (p: nat)
    requires i < len && len + i >= 0
    ensures p < len
    ensures i >= 0 ==> p == i
    ensures i < 0 ==> p == len + i
    ensures p == i % len
  {
    if i >= 0 then
      assert i == len * 0 + i;
      i
    else
      assert i == len * -1 + (len + i);
      len + i
  }

  /**
    The result loop of `search` as written: a label passes when it is below
    `len(metadata)` (so -1 passes), and `metadata[label]` raises
    `IndexError` for a label below `-len(metadata)`.
   */
  function Resolve(metadata: seq<Meta>, labels: seq<int>): (r: Result<seq<Doc>, SearchError>)
    ensures r.Failure? <==> exists i :: 0 <= i < |labels| && labels[i] < -|metadata|
    ensures r.Success? ==> |r.value| <= |labels|
    ensures r.Success? ==> forall d :: d in r.value ==> d.content == "" && d.metadata in metadata
    ensures (forall i :: 0 <= i < |labels| ==> -|metadata| <= labels[i] < |metadata|) ==>
              r.Success? && |r.value| == |labels| &&
              forall i :: 0 <= i < |labels| ==> r.value[i] == Doc("", metadata[PyIndex(|metadata|, labels[i])])
  {
    if labels == [] then Success([])
    else
      var rest := Resolve(metadata, labels[1..]);
      assert forall i :: 1 <= i < |labels| ==> labels[i] == labels[1..][i - 1];
      if labels[0] >= |metadata| then rest
      else if labels[0] < -|metadata| then Failure(MetadataIndexError)
      else if rest.Failure? then rest
      else Success([Doc("", metadata[PyIndex(|metadata|, labels[0])])] + rest.value)
  }

  /**
    `search` as written, given the labels the index answers with. No index
    gives no results; otherwise the index's search wrapper checks the query
    width and `k > 0`, and the labels are resolved against the metadata.
   */
  function Search(s: Store, q: Vector, k: int, labels: seq<int>): (r: Result<seq<Doc>, SearchError>)
    requires s.index.Some? && |q| == s.index.value.dim && k > 0 ==> IsKnn(s.index.value.rows, q, k, labels)
    ensures s.index.None? ==> r == Success([])
    ensures s.index.Some? && r.Success? ==> |r.value| <= k
    ensures r.Success? ==> forall d :: d in r.value ==> d.content == "" && d.metadata in s.metadata
  {
    if s.index.None? then Success([])
    else if |q| != s.index.value.dim then Failure(QueryDimensionMismatch)
    else if k <= 0 then Failure(NonPositiveTopK)
    else Resolve(s.metadata, labels)
  }

  /** `delete`: both files are removed and the in-memory state is reset. */
  function Delete(s: Store, disk: Disk): (r: (Store, Disk))
    ensures Load(r.1) == r.0
    ensures r.0.index.None? && r.0.metadata == []
  {
    (EmptyStore, NoFiles)
  }

  // ---------------------------------------------------------------------
  // add_documents

  /** Every document carries an embedding that is a vector of width `w`. */
  predicate AllOfWidth(docs: seq<Doc>, w: nat)
  {
    forall i :: 0 <= i < |docs| ==> Get(docs[i].metadata, EmbeddingKey).Vec? && |Get(docs[i].metadata, EmbeddingKey).v| == w
  }

  /** The batch the source accepts: empty, or one width throughout that the index (if any) was created with. */
  ghost predicate Accepts(s: Store, docs: seq<Doc>)
  {
    docs == [] || exists w: nat :: AllOfWidth(docs, w) && (s.index.Some? ==> s.index.value.dim == w)
  }

  lemma FirstMissingIs(docs: seq<Doc>, n: nat)
    requires n <= |docs|
    requires forall i :: 0 <= i < n ==> HasEmbedding(docs[i])
    requires n < |docs| ==> !HasEmbedding(docs[n])
    ensures FirstMissing(docs) == n
  {
  }

  /** `add_documents` raises for a missing embedding exactly when some document lacks one. */
  lemma AddMissingIff(s: Store, disk: Disk, docs: seq<Doc>)
    ensures AddDocuments(s, disk, docs).error == Some(MissingEmbedding)
        <==> exists i :: 0 <= i < |docs| && !HasEmbedding(docs[i])
  {
    if docs != [] {
      var n := FirstMissing(docs);
      if n == |docs| {
        assert forall i :: 0 <= i < |docs| ==> HasEmbedding(docs[i]);
      }
    }
  }

  /**
    When document `n` is the first without an embedding, the metadata of the
    `n` documents before it has been appended, and nothing else has changed.
   */
  lemma AddMissingEffect(s: Store, disk: Disk, docs: seq<Doc>, n: nat)
    requires n < |docs| && !HasEmbedding(docs[n])
    requires forall i :: 0 <= i < n ==> HasEmbedding(docs[i])
    ensures AddDocuments(s, disk, docs) == AddOutcome(s.(metadata := s.metadata + Metas(docs[..n])), disk, Some(MissingEmbedding))
  {
    FirstMissingIs(docs, n);
  }

  /** `add_documents` returns normally exactly when the source accepts the batch. */
  lemma AddSucceedsIff(s: Store, disk: Disk, docs: seq<Doc>)
    ensures AddDocuments(s, disk, docs).error.None? <==> Accepts(s, docs)
  {
    if docs != [] {
      var vals := Embeddings(docs);
      if AddDocuments(s, disk, docs).error.None? {
        var n := FirstMissing(docs);
        assert n == |docs|;
        var w := Width(vals[0]);
        assert forall i :: 0 <= i < |docs| ==> vals[i] == Get(docs[i].metadata, EmbeddingKey);
        assert AllOfWidth(docs, w);
      }
      if Accepts(s, docs) {
        var w: nat :| AllOfWidth(docs, w) && (s.index.Some? ==> s.index.value.dim == w);
        assert forall i :: 0 <= i < |docs| ==> vals[i] == Get(docs[i].metadata, EmbeddingKey);
        FirstMissingIs(docs, |docs|);
        assert Width(vals[0]) == w;
        assert IsMatrix(vals, w);
      }
    }
  }

  /**
    A successful add of a non-empty batch appends every metadata dictionary
    and every embedding, in order, to the old ones; the index is created with
    the batch's width when there was none, and keeps its width otherwise; both
    files are written.
   */
  lemma AddSuccessEffect(s: Store, disk: Disk, docs: seq<Doc>, w: nat)
    requires docs != [] && AllOfWidth(docs, w) && (s.index.Some? ==> s.index.value.dim == w)
    ensures var r := AddDocuments(s, disk, docs);
      && r.error.None?
      && r.store.metadata == s.metadata + Metas(docs)
      && r.store.index.Some?
      && r.store.index.value.dim == (if s.index.Some? then s.index.value.dim else w)
      && |r.store.index.value.rows| == RowCount(s) + |docs|
      && r.store.index.value.rows[..RowCount(s)] == (if s.index.Some? then s.index.value.rows else [])
      && (forall i :: 0 <= i < |docs| ==> r.store.index.value.rows[RowCount(s) + i] == Get(docs[i].metadata, EmbeddingKey).v)
      && r.disk == Save(r.store.index.value, r.store.metadata)
  {
    var vals := Embeddings(docs);
    assert forall i :: 0 <= i < |docs| ==> vals[i] == Get(docs[i].metadata, EmbeddingKey);
    FirstMissingIs(docs, |docs|);
    assert docs[..|docs|] == docs;
    assert Width(vals[0]) == w;
    assert IsMatrix(vals, w);
  }

  /**
    A batch whose embeddings do not form a matrix of the index's width, once
    every document has an embedding, still has all its metadata appended.
   */
  lemma AddRejectedBatchEffect(s: Store, disk: Disk, docs: seq<Doc>)
    requires docs != [] && forall i :: 0 <= i < |docs| ==> HasEmbedding(docs[i])
    requires !Accepts(s, docs)
    ensures var r := AddDocuments(s, disk, docs);
      && (r.error == Some(MalformedBatch) || r.error == Some(DimensionMismatch))
      && r.store == s.(metadata := s.metadata + Metas(docs))
      && r.disk == disk
  {
    FirstMissingIs(docs, |docs|);
    assert docs[..|docs|] == docs;
    AddSucceedsIff(s, disk, docs);
  }

  /** After a successful add, reloading from the files gives back the in-memory state. */
  lemma AddThenLoad(s: Store, disk: Disk, docs: seq<Doc>)
    requires docs != [] && AddDocuments(s, disk, docs).error.None?
    ensures Load(AddDocuments(s, disk, docs).disk) == AddDocuments(s, disk, docs).store
  {
  }

  /** After a failed add the files are untouched, so a reload forgets the metadata that was appended. */
  lemma FailedAddThenLoad(s: Store, disk: Disk, docs: seq<Doc>)
    requires AddDocuments(s, disk, docs).error.Some?
    ensures Load(AddDocuments(s, disk, docs).disk) == Load(disk)
  {
  }

  /** The embedding values of two batches, one after the other, are those of the joined batch. */
  lemma EmbeddingsAppend(a: seq<Doc>, b: seq<Doc>)
    ensures Embeddings(a + b) == Embeddings(a) + Embeddings(b)
  {
    assert forall i :: 0 <= i < |b| ==> (a + b)[|a| + i] == b[i];
  }

  /** A successful add of a non-empty batch, in closed form: the batch's metadata and rows appended. */
  lemma AddSuccessForm(s: Store, disk: Disk, docs: seq<Doc>, w: nat)
    requires docs != [] && AllOfWidth(docs, w) && (s.index.Some? ==> s.index.value.dim == w)
    ensures var old_ := if s.index.Some? then s.index.value else FlatIndex(w, []);
      var grown := FlatIndex(old_.dim, old_.rows + VectorsOf(Embeddings(docs)));
      AddDocuments(s, disk, docs) == AddOutcome(Store(Some(grown), s.metadata + Metas(docs)), Save(grown, s.metadata + Metas(docs)), None)
  {
    var vals := Embeddings(docs);
    assert forall i :: 0 <= i < |docs| ==> vals[i] == Get(docs[i].metadata, EmbeddingKey);
    FirstMissingIs(docs, |docs|);
    assert docs[..|docs|] == docs;
    assert Width(vals[0]) == w;
    assert IsMatrix(vals, w);
  }

  /**
    Two successful adds in a row leave the same store and files as one add
    of the two batches joined: the metadata list and the index grow batch by
    batch.
   */
  lemma AddConcat(s: Store, disk: Disk, a: seq<Doc>, b: seq<Doc>)
    requires a != [] && b != []
    requires AddDocuments(s, disk, a).error.None?
    requires AddDocuments(AddDocuments(s, disk, a).store, AddDocuments(s, disk, a).disk, b).error.None?
    ensures AddDocuments(s, disk, a + b) == AddDocuments(AddDocuments(s, disk, a).store, AddDocuments(s, disk, a).disk, b)
  {
    var r1 := AddDocuments(s, disk, a);
    var w := AcceptedWidth(s, disk, a);
    var w2 := AcceptedWidth(r1.store, r1.disk, b);
    AddSuccessForm(s, disk, a, w);
    AddSuccessForm(r1.store, r1.disk, b, w2);
    assert w2 == w;
    AddJoinedForm(s, disk, a, b, w);
  }

  /** The joined batch of two batches of one width, added in one call, in closed form. */
  lemma AddJoinedForm(s: Store, disk: Disk, a: seq<Doc>, b: seq<Doc>, w: nat)
    requires a != [] && b != [] && AllOfWidth(a, w) && AllOfWidth(b, w)
    requires s.index.Some? ==> s.index.value.dim == w
    ensures var old_ := if s.index.Some? then s.index.value else FlatIndex(w, []);
      var grown := FlatIndex(old_.dim, (old_.rows + VectorsOf(Embeddings(a))) + VectorsOf(Embeddings(b)));
      var m := (s.metadata + Metas(a)) + Metas(b);
      AddDocuments(s, disk, a + b) == AddOutcome(Store(Some(grown), m), Save(grown, m), None)
  {
    AllOfWidthAppend(a, b, w);
    AddSuccessForm(s, disk, a + b, w);
    EmbeddingsAppend(a, b);
    VectorsOfAppend(Embeddings(a), Embeddings(b));
    MetasAppend(a, b);
    var old_ := if s.index.Some? then s.index.value else FlatIndex(w, []);
    var x, y := VectorsOf(Embeddings(a)), VectorsOf(Embeddings(b));
    assert old_.rows + (x + y) == (old_.rows + x) + y;
    assert s.metadata + (Metas(a) + Metas(b)) == (s.metadata + Metas(a)) + Metas(b);
  }

  /** The width a successful add of a non-empty batch was checked against. */
  lemma AcceptedWidth(s: Store, disk: Disk, docs: seq<Doc>) returns (w: nat)
    requires docs != [] && AddDocuments(s, disk, docs).error.None?
    ensures AllOfWidth(docs, w) && (s.index.Some? ==> s.index.value.dim == w)
  {
    AddSucceedsIff(s, disk, docs);
    w :| AllOfWidth(docs, w) && (s.index.Some? ==> s.index.value.dim == w);
  }

  /** Two batches of one width join into a batch of that width. */
  lemma AllOfWidthAppend(a: seq<Doc>, b: seq<Doc>, w: nat)
    requires AllOfWidth(a, w) && AllOfWidth(b, w)
    ensures AllOfWidth(a + b, w)
  {
    assert forall i :: 0 <= i < |a + b| ==> (a + b)[i] == if i < |a| then a[i] else b[i - |a|];
  }

  // ---------------------------------------------------------------------
  // Store invariants

  /** The index, when present, holds at least one row, all of its width. */
  predicate IndexShaped(s: Store)
  {
    s.index.Some? ==> |s.index.value.rows| > 0 && AllOfLength(s.index.value.rows, s.index.value.dim)
  }

  /** The invariant `add_documents` keeps: at least as many metadata entries as rows. */
  predicate Covered(s: Store)
  {
    IndexShaped(s) && |s.metadata| >= RowCount(s)
  }

  /** Row `i` of the index and metadata entry `i` describe the same document. */
  predicate Aligned(s: Store)
  {
    IndexShaped(s) && |s.metadata| == RowCount(s)
  }

  /** A store loaded from files that satisfy an invariant satisfies it. */
  predicate DiskCovered(disk: Disk)
  {
    Covered(Load(disk))
  }

  lemma AddPreservesCovered(s: Store, disk: Disk, docs: seq<Doc>)
    requires Covered(s) && DiskCovered(disk)
    ensures Covered(AddDocuments(s, disk, docs).store)
    ensures DiskCovered(AddDocuments(s, disk, docs).disk)
  {
    var r := AddDocuments(s, disk, docs);
    if docs != [] && r.error.None? {
      AddSucceedsIff(s, disk, docs);
      var w: nat :| AllOfWidth(docs, w) && (s.index.Some? ==> s.index.value.dim == w);
      AddSuccessEffect(s, disk, docs, w);
      var rows := r.store.index.value.rows;
      forall j | 0 <= j < |rows|
        ensures |rows[j]| == r.store.index.value.dim
      {
        if j >= RowCount(s) {
          assert rows[RowCount(s) + (j - RowCount(s))] == Get(docs[j - RowCount(s)].metadata, EmbeddingKey).v;
        } else {
          assert rows[j] == rows[..RowCount(s)][j];
        }
      }
    }
  }

  // ---------------------------------------------------------------------
  // search as written

  /**
    With at least `k` rows every label names a row, so the search returns
    exactly `k` documents, nearest first, each carrying the metadata stored at
    its row's position.
   */
  lemma SearchFull(s: Store, q: Vector, k: int, labels: seq<int>)
    requires Covered(s) && s.index.Some? && |q| == s.index.value.dim
    requires 0 < k <= RowCount(s) && IsKnn(s.index.value.rows, q, k, labels)
    ensures var r := Search(s, q, k, labels);
      && r.Success? && |r.value| == k
      && forall i :: 0 <= i < k ==> 0 <= labels[i] < RowCount(s) && r.value[i] == Doc("", s.metadata[labels[i]])
  {
  }

  /**
    With fewer than `k` rows the index pads its answer with -1, which passes
    the `idx < len(metadata)` filter and reads the last metadata entry: the
    search still returns `k` documents, the extra ones all copies of the last
    entry, whatever its distance.
   */
  lemma SearchPadsWithLastEntry(s: Store, q: Vector, k: int, labels: seq<int>)
    requires Covered(s) && s.index.Some? && |q| == s.index.value.dim
    requires k > RowCount(s) && IsKnn(s.index.value.rows, q, k, labels)
    ensures var r := Search(s, q, k, labels);
      && r.Success? && |r.value| == k
      && forall i :: RowCount(s) <= i < k ==> r.value[i] == Doc("", s.metadata[|s.metadata| - 1])
  {
    KnnLabels(s.index.value.rows, q, k, labels);
    var md := s.metadata;
    assert forall i :: 0 <= i < |labels| ==> -|md| <= labels[i] < |md|;
    var r := Resolve(md, labels);
    assert Search(s, q, k, labels) == r;
    forall i | RowCount(s) <= i < k
      ensures r.value[i] == Doc("", md[|md| - 1])
    {
      assert labels[i] == Padding;
      assert PyIndex(|md|, labels[i]) == |md| - 1;
    }
  }

  /** Hence on any store with an index the search returns exactly `k` documents. */
  lemma SearchAlwaysFull(s: Store, q: Vector, k: int, labels: seq<int>)
    requires Covered(s) && s.index.Some? && |q| == s.index.value.dim
    requires k > 0 && IsKnn(s.index.value.rows, q, k, labels)
    ensures Search(s, q, k, labels).Success? && |Search(s, q, k, labels).value| == k
  {
    if k <= RowCount(s) {
      SearchFull(s, q, k, labels);
    } else {
      SearchPadsWithLastEntry(s, q, k, labels);
    }
  }

  /** Searching with a stored vector returns first the metadata of a row equal to it. */
  lemma SearchStoredVector(s: Store, k: int, labels: seq<int>, t: nat)
    requires Covered(s) && s.index.Some? && t < RowCount(s)
    requires k > 0 && IsKnn(s.index.value.rows, s.index.value.rows[t], k, labels)
    ensures var r := Search(s, s.index.value.rows[t], k, labels);
      && r.Success? && |r.value| == k
      && 0 <= labels[0] < RowCount(s)
      && s.index.value.rows[labels[0]] == s.index.value.rows[t]
      && r.value[0] == Doc("", s.metadata[labels[0]])
  {
    var rows := s.index.value.rows;
    NearestIsEqualRow(rows, rows[t], k, labels, t);
    SearchAlwaysFull(s, rows[t], k, labels);
  }

  /** A query of the wrong width, or `k <= 0`, fails on a store with an index. */
  lemma SearchRejects(s: Store, q: Vector, k: int, labels: seq<int>)
    requires s.index.Some? && (|q| != s.index.value.dim || k <= 0)
    ensures Search(s, q, k, labels).Failure?
  {
  }

  // ---------------------------------------------------------------------
  // search as intended

  /** The result loop with the intended filter `0 <= idx < len(metadata)`: padding labels are dropped. */
  function ResolveIntended(metadata: seq<Meta>, labels: seq<int>): (r: seq<Doc>)
    ensures |r| <= |labels|
    ensures forall d :: d in r ==> d.content == "" && d.metadata in metadata
    ensures (forall i :: 0 <= i < |labels| ==> 0 <= labels[i] < |metadata|) ==>
              |r| == |labels| && forall i :: 0 <= i < |labels| ==> r[i] == Doc("", metadata[labels[i]])
    ensures (forall i :: 0 <= i < |labels| ==> labels[i] < 0) ==> r == []
  {
    if labels == [] then []
    else
      var rest := ResolveIntended(metadata, labels[1..]);
      assert forall i :: 1 <= i < |labels| ==> labels[i] == labels[1..][i - 1];
      if 0 <= labels[0] < |metadata| then [Doc("", metadata[labels[0]])] + rest
      else rest
  }

  lemma {:induction false} ResolveIntendedAppend(metadata: seq<Meta>, a: seq<int>, b: seq<int>)
    ensures ResolveIntended(metadata, a + b) == ResolveIntended(metadata, a) + ResolveIntended(metadata, b)
    decreases |a|
  {
    if a == [] {
      assert a + b == b;
    } else {
      assert (a + b)[0] == a[0];
      assert (a + b)[1..] == a[1..] + b;
      ResolveIntendedAppend(metadata, a[1..], b);
    }
  }

  /** `search` with the intended filter; everything before the result loop is as written. */
  function SearchIntended(s: Store, q: Vector, k: int, labels: seq<int>): (r: Result<seq<Doc>, SearchError>)
    requires s.index.Some? && |q| == s.index.value.dim && k > 0 ==> IsKnn(s.index.value.rows, q, k, labels)
    ensures s.index.None? ==> r == Success([])
    ensures r.Success? ==> forall d :: d in r.value ==> d.content == "" && d.metadata in s.metadata
  {
    if s.index.None? then Success([])
    else if |q| != s.index.value.dim then Failure(QueryDimensionMismatch)
    else if k <= 0 then Failure(NonPositiveTopK)
    else Success(ResolveIntended(s.metadata, labels))
  }

  /**
    With the intended filter the search returns one document per real hit,
    `min(k, rows)` of them, nearest first, and never a padding copy.
   */
  lemma SearchIntendedHits(s: Store, q: Vector, k: int, labels: seq<int>)
    requires Covered(s) && s.index.Some? && |q| == s.index.value.dim
    requires k > 0 && IsKnn(s.index.value.rows, q, k, labels)
    ensures var r := SearchIntended(s, q, k, labels);
      && r.Success? && |r.value| == HitCount(k, RowCount(s))
      && forall i :: 0 <= i < |r.value| ==> 0 <= labels[i] < RowCount(s) && r.value[i] == Doc("", s.metadata[labels[i]])
  {
    KnnLabels(s.index.value.rows, q, k, labels);
    ResolveHitsThenPadding(s.metadata, labels, HitCount(k, RowCount(s)), RowCount(s));
  }

  /** The label facts of a kNN answer, without the distance facts. */
  lemma KnnLabels(rows: seq<Vector>, q: Vector, k: nat, labels: seq<int>)
    requires IsKnn(rows, q, k, labels)
    ensures |labels| == k
    ensures forall i :: 0 <= i < HitCount(k, |rows|) ==> 0 <= labels[i] < |rows|
    ensures forall i :: HitCount(k, |rows|) <= i < k ==> labels[i] == Padding
  {
  }

  lemma {:induction false} ResolveHitsThenPadding(metadata: seq<Meta>, labels: seq<int>, m: nat, n: nat)
    requires m <= |labels| && n <= |metadata|
    requires forall i :: 0 <= i < m ==> 0 <= labels[i] < n
    requires forall i :: m <= i < |labels| ==> labels[i] == Padding
    ensures var r := ResolveIntended(metadata, labels);
      |r| == m && forall i :: 0 <= i < m ==> r[i] == Doc("", metadata[labels[i]])
    decreases |labels|
  {
    if m == 0 {
      assert forall i :: 0 <= i < |labels| ==> labels[i] < 0;
    } else {
      var tail := labels[1..];
      assert forall i :: 0 <= i < |tail| ==> tail[i] == labels[i + 1];
      ResolveHitsThenPadding(metadata, tail, m - 1, n);
      var rest := ResolveIntended(metadata, tail);
      var r := ResolveIntended(metadata, labels);
      assert r == [Doc("", metadata[labels[0]])] + rest;
      forall i | 0 <= i < m
        ensures r[i] == Doc("", metadata[labels[i]])
      {
        if i > 0 {
          assert r[i] == rest[i - 1];
        }
      }
    }
  }

  /** On a store with fewer rows than `k`, the intended search is shorter than `k`; as written it never is. */
  lemma SearchIntendedShortWhenFewRows(s: Store, q: Vector, k: int, labels: seq<int>)
    requires Covered(s) && s.index.Some? && |q| == s.index.value.dim
    requires k > RowCount(s) && IsKnn(s.index.value.rows, q, k, labels)
    ensures |SearchIntended(s, q, k, labels).value| < k
    ensures |Search(s, q, k, labels).value| == k
  {
    SearchIntendedHits(s, q, k, labels);
    SearchAlwaysFull(s, q, k, labels);
  }

  // ---------------------------------------------------------------------
  // delete

  /** Deleting twice is deleting once. */
  lemma DeleteIdempotent(s: Store, disk: Disk)
    ensures Delete(Delete(s, disk).0, Delete(s, disk).1) == Delete(s, disk)
  {
  }

  /** After `delete` a search finds nothing, and a fresh store opened on the same files is empty too. */
  lemma SearchAfterDelete(s: Store, disk: Disk, q: Vector, k: int, labels: seq<int>)
    ensures Search(Delete(s, disk).0, q, k, labels) == Success([])
    ensures Load(Delete(s, disk).1) == EmptyStore
  {
  }

  // ---------------------------------------------------------------------
  // add_documents as intended

  /** `add_documents` as intended: a failed add raises the same error but leaves the store as it was. */
  function AddDocumentsAtomic(s: Store, disk: Disk, docs: seq<Doc>): (r: AddOutcome)
    ensures r.error == AddDocuments(s, disk, docs).error
    ensures r.error.Some? ==> r.store == s && r.disk == disk
    ensures r.error.None? ==> r == AddDocuments(s, disk, docs)
  {
    var written := AddDocuments(s, disk, docs);
    if written.error.Some? then AddOutcome(s, disk, written.error) else written
  }

  /** The intended add keeps every row paired with the metadata of its own document. */
  lemma AtomicPreservesAligned(s: Store, disk: Disk, docs: seq<Doc>)
    requires Aligned(s)
    ensures Aligned(AddDocumentsAtomic(s, disk, docs).store)
  {
    var r := AddDocuments(s, disk, docs);
    if docs != [] && r.error.None? {
      AddSucceedsIff(s, disk, docs);
      var w: nat :| AllOfWidth(docs, w) && (s.index.Some? ==> s.index.value.dim == w);
      AddSuccessEffect(s, disk, docs, w);
      assert Covered(s);
      AddPreservesCovered(s, NoFiles, docs);
    }
  }

  /** And so does the add as written, as long as it does not fail. */
  lemma SuccessfulAddPreservesAligned(s: Store, disk: Disk, docs: seq<Doc>)
    requires Aligned(s) && AddDocuments(s, disk, docs).error.None?
    ensures Aligned(AddDocuments(s, disk, docs).store)
  {
    AtomicPreservesAligned(s, disk, docs);
  }

  /** A first document with an embedding, a second without. */
  predicate PartialBatch(d0: Doc, d1: Doc)
  {
    d0 == Doc("first", map[EmbeddingKey := Vec([0.0])]) && d1 == Doc("second", map[])
  }

  /** As written, a failed add on an empty store leaves metadata without any row. */
  lemma PartialAddBreaksAlignment(d0: Doc, d1: Doc)
    requires PartialBatch(d0, d1)
    ensures Aligned(EmptyStore)
    ensures var r := AddDocuments(EmptyStore, NoFiles, [d0, d1]);
      r.error == Some(MissingEmbedding) && r.store == Store(None, [d0.metadata]) && !Aligned(r.store)
  {
    assert HasEmbedding(d0) && !HasEmbedding(d1);
    AddMissingEffect(EmptyStore, NoFiles, [d0, d1], 1);
    assert [d0, d1][..1] == [d0];
  }

  lemma SingleRowKnn(v: Vector)
    ensures IsKnn([v], v, 1, [0])
  {
  }

  /** The document the examples add second: one row `[5.0]`. */
  predicate ThirdDoc(d2: Doc)
  {
    d2 == Doc("third", map[EmbeddingKey := Vec([5.0])])
  }

  /** Adding that document to a store without an index creates the one-row index and appends its metadata. */
  lemma AddThird(s: Store, d2: Doc)
    requires ThirdDoc(d2) && s.index.None?
    ensures var r := AddDocuments(s, NoFiles, [d2]);
      r.error.None? && r.store == Store(Some(FlatIndex(1, [[5.0]])), s.metadata + [d2.metadata])
  {
    assert AllOfWidth([d2], 1);
    AddSuccessEffect(s, NoFiles, [d2], 1);
    var r := AddDocuments(s, NoFiles, [d2]);
    var rows := r.store.index.value.rows;
    assert |rows| == 1 && rows[0] == [5.0];
    assert rows == [[5.0]];
    assert Metas([d2]) == [d2.metadata];
  }

  /** On the one-row index, a search for that row returns the first metadata entry. */
  lemma SearchOneRow(metadata: seq<Meta>)
    requires |metadata| > 0
    ensures IsKnn([[5.0]], [5.0], 1, [0])
    ensures Search(Store(Some(FlatIndex(1, [[5.0]])), metadata), [5.0], 1, [0]) == Success([Doc("", metadata[0])])
  {
    SingleRowKnn([5.0]);
    var found := Resolve(metadata, [0]);
    assert found.Success? && |found.value| == 1 && found.value[0] == Doc("", metadata[0]);
    assert found.value == [Doc("", metadata[0])];
  }

  /**
    As written, a later successful add then pairs its row with the stale
    metadata: a search for the new document's own vector returns the first,
    never indexed, document's metadata.
   */
  lemma MisalignedSearch(d0: Doc, d1: Doc, d2: Doc)
    requires PartialBatch(d0, d1) && ThirdDoc(d2)
    ensures var s1 := AddDocuments(EmptyStore, NoFiles, [d0, d1]).store;
      var r2 := AddDocuments(s1, NoFiles, [d2]);
      && r2.error.None?
      && r2.store == Store(Some(FlatIndex(1, [[5.0]])), [d0.metadata, d2.metadata])
      && IsKnn([[5.0]], [5.0], 1, [0])
      && Search(r2.store, [5.0], 1, [0]) == Success([Doc("", d0.metadata)])
      && Get(d0.metadata, EmbeddingKey) != Vec([5.0])
  {
    PartialAddBreaksAlignment(d0, d1);
    AddThird(Store(None, [d0.metadata]), d2);
    assert [d0.metadata] + [d2.metadata] == [d0.metadata, d2.metadata];
    SearchOneRow([d0.metadata, d2.metadata]);
  }

  /** With the intended add the same three documents stay paired: the search returns the new document. */
  lemma AtomicSearch(d0: Doc, d1: Doc, d2: Doc)
    requires PartialBatch(d0, d1) && ThirdDoc(d2)
    ensures var s1 := AddDocumentsAtomic(EmptyStore, NoFiles, [d0, d1]).store;
      var r2 := AddDocumentsAtomic(s1, NoFiles, [d2]);
      && s1 == EmptyStore
      && r2.store == Store(Some(FlatIndex(1, [[5.0]])), [d2.metadata])
      && Search(r2.store, [5.0], 1, [0]) == Success([Doc("", d2.metadata)])
  {
    PartialAddBreaksAlignment(d0, d1);
    AddThird(EmptyStore, d2);
    assert [] + [d2.metadata] == [d2.metadata];
    SearchOneRow([d2.metadata]);
  }
}
