/**
  Exact nearest-neighbour search under squared Euclidean distance, as a flat
  index performs it. The search is given as a relation between the stored
  rows, the query, `k` and the label list the index returns, not as an
  algorithm: labels of the `min(k, |rows|)` nearest rows, nearest first,
  padded with -1 up to `k`.
 */
module FlatL2 {
  import opened Base

  /** The label a flat index reports for a slot it has no row for. */
  const Padding: int := -1

  /** `|u - v|`. */
  function Gap(u: real, v: real): (g: real)
    ensures g >= 0.0
    ensures g == 0.0 <==> u == v
  {
    if u >= v then u - v else v - u
  }

  /** Real multiplication, kept as a function so that squares are handled as products of two factors. */
  function Product(x: real, y: real): real
  {
    x * y
  }

  lemma ProductSign(x: real, y: real)
    requires x >= 0.0 && y >= 0.0
    ensures Product(x, y) >= 0.0
    ensures x > 0.0 && y > 0.0 ==> Product(x, y) > 0.0
    ensures x == 0.0 ==> Product(x, y) == 0.0
  {
  }

  /** The squared Euclidean distance a flat L2 index ranks by, over the common prefix of `a` and `b`. */
  function SqDist(a: Vector, b: Vector): real
    decreases |a|
  {
    if a == [] || b == [] then 0.0
    else Product(Gap(a[0], b[0]), Gap(a[0], b[0])) + SqDist(a[1..], b[1..])
  }

  lemma {:induction false} SqDistNonNegative(a: Vector, b: Vector)
    ensures SqDist(a, b) >= 0.0
    decreases |a|
  {
    if a != [] && b != [] {
      SqDistNonNegative(a[1..], b[1..]);
      ProductSign(Gap(a[0], b[0]), Gap(a[0], b[0]));
    }
  }

  /** Two vectors of one length are at distance zero exactly when they are equal. */
  lemma {:induction false} SqDistZeroIff(a: Vector, b: Vector)
    requires |a| == |b|
    ensures SqDist(a, b) == 0.0 <==> a == b
    decreases |a|
  {
    if a != [] {
      SqDistZeroIff(a[1..], b[1..]);
      SqDistNonNegative(a[1..], b[1..]);
      ProductSign(Gap(a[0], b[0]), Gap(a[0], b[0]));
      assert a == [a[0]] + a[1..] && b == [b[0]] + b[1..];
    }
  }

  /** The number of real hits a search for `k` neighbours among `n` rows yields. */
  function HitCount(k: nat, n: nat): nat
  {
    if k <= n then k else n
  }

  /**
    `labels` is a correct answer of a flat index holding `rows` to a search for
    the `k` nearest neighbours of `q`: exactly `k` labels, the first
    `HitCount(k, |rows|)` of them distinct row positions in non-decreasing
    order of distance, no row left out nearer than one taken, and -1 after
    them. Ties may be broken either way.
   */
  predicate IsKnn(rows: seq<Vector>, q: Vector, k: nat, labels: seq<int>)
  {
    var m := HitCount(k, |rows|);
    && |labels| == k
    && (forall i :: 0 <= i < m ==> 0 <= labels[i] < |rows|)
    && (forall i :: m <= i < k ==> labels[i] == Padding)
    && (forall i, j :: 0 <= i < j < m ==> labels[i] != labels[j])
    && (forall i, j :: 0 <= i < j < m ==> SqDist(rows[labels[i]], q) <= SqDist(rows[labels[j]], q))
    && (forall i, r :: 0 <= i < m && 0 <= r < |rows| && r !in labels[..m] ==>
          SqDist(rows[labels[i]], q) <= SqDist(rows[r], q))
  }

  /** Every row has the given length. */
  predicate AllOfLength(rows: seq<Vector>, dim: nat)
  {
    forall r :: 0 <= r < |rows| ==> |rows[r]| == dim
  }

  /** Searching with a stored vector finds, first, a row equal to it. */
  lemma NearestIsEqualRow(rows: seq<Vector>, q: Vector, k: nat, labels: seq<int>, t: nat)
    requires IsKnn(rows, q, k, labels) && AllOfLength(rows, |q|)
    requires k > 0 && t < |rows| && rows[t] == q
    ensures 0 <= labels[0] < |rows| && rows[labels[0]] == q
  {
    var m := HitCount(k, |rows|);
    SqDistZeroIff(rows[t], q);
    SqDistNonNegative(rows[labels[0]], q);
    if t in labels[..m] {
      var p :| 0 <= p < m && labels[p] == t;
      if p > 0 {
        assert SqDist(rows[labels[0]], q) <= SqDist(rows[labels[p]], q);
      }
    } else {
      assert SqDist(rows[labels[0]], q) <= SqDist(rows[t], q);
    }
    SqDistZeroIff(rows[labels[0]], q);
  }

  /** When the stored rows are pairwise distinct, that first row is the stored vector's own. */
  lemma NearestIsOwnRow(rows: seq<Vector>, q: Vector, k: nat, labels: seq<int>, t: nat)
    requires IsKnn(rows, q, k, labels) && AllOfLength(rows, |q|)
    requires forall i, j :: 0 <= i < j < |rows| ==> rows[i] != rows[j]
    requires k > 0 && t < |rows| && rows[t] == q
    ensures labels[0] == t
  {
    NearestIsEqualRow(rows, q, k, labels, t);
  }
}
