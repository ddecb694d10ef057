/**
  Shared vocabulary of the retrieval model: optional values, results,
  the values a document's metadata dictionary can hold, and documents.
 */
module Base {

  datatype Option<+T> = None | Some(value: T)

  /** An operation that either produces a value or fails with an error (a Python exception). */
  datatype Result<+R, +E> = Success(value: R) | Failure(error: E)

  /** A dense vector; the float32 arrays of the index are modelled as exact reals. */
  type Vector = seq<real>

  /** The kinds of value a metadata dictionary holds; `Nil` is Python's `None`. */
  datatype Value = Str(s: string) | Num(r: real) | Vec(v: Vector) | Nil

  /** A metadata dictionary with string keys. */
  type Meta = map<string, Value>

  /** The metadata key under which a document's embedding is stored. */
  const EmbeddingKey: string := "embedding"

  /** A LangChain document: its text and its metadata dictionary. */
  datatype Doc = Doc(content: string, metadata: Meta)

  /** Python's `dict.get(key)`: the stored value, or `None` when the key is absent. */
  function Get(m: Meta, key: string): Value
  {
    if key in m then m[key] else Nil
  }

  function Min(a: int, b: int): int
  {
    if a <= b then a else b
  }
}
