/** Mixed-radix enumeration of multi-indices: the order in which the tensor
    grid lists its nodes. A digit tuple (d_0, ..., d_{D-1}) with d_u < sizes[u]
    sits at flat index ((d_0 * sizes[1] + d_1) * sizes[2] + ...) + d_{D-1}, so
    the last digit varies fastest. */
module MixedRadix {

  // ---------------------------------------------------------------------
  // Flat-index arithmetic
  // ---------------------------------------------------------------------

  /** Multiplying by a non-negative factor preserves order. */
  lemma MulMono(a: int, b: int, n: int)
    requires a <= b && 0 <= n
    ensures a * n <= b * n
  {
    assert (b - a) * n >= 0;
  }

  /** A flat index below m * n splits into a row below m and a column below n. */
  lemma DivBound(k: int, m: int, n: int)
    requires 0 <= m && 0 <= n
    requires 0 <= k < m * n
    ensures 0 < n && 0 <= k / n < m && 0 <= k % n < n
  {
    if k / n >= m {
      MulMono(m, k / n, n);
      assert false;
    }
  }

  /** The flat index i * n + j decodes back to (i, j). */
  lemma DivModSplit(i: int, j: int, n: int)
    requires 0 <= i && 0 <= j < n
    ensures (i * n + j) / n == i && (i * n + j) % n == j
  {
    var k := i * n + j;
    var q, r := k / n, k % n;
    assert k == q * n + r;
    if q < i {
      MulMono(q + 1, i, n);
      assert false;
    }
    if q > i {
      MulMono(i + 1, q, n);
      assert false;
    }
  }

  /** Row i, column j of an m-by-n block lies inside the flattened block. */
  lemma FlatIndexBound(i: int, j: int, m: int, n: int)
    requires 0 <= i < m && 0 <= j < n
    ensures 0 <= i * n + j < m * n
  {
    assert (m - i - 1) * n >= 0;
    assert m * n == i * n + n + (m - i - 1) * n;
  }

  // ---------------------------------------------------------------------
  // Radices, encoding and decoding
  // ---------------------------------------------------------------------

  /** The number of digit tuples over the radices `sizes`. */
  function Prod(sizes: seq<nat>): nat
  {
    if |sizes| == 0 then 1 else Prod(sizes[..|sizes| - 1]) * sizes[|sizes| - 1]
  }

  /** Every radix is at least 1. */
  predicate Positive(sizes: seq<nat>)
  {
    forall u :: 0 <= u < |sizes| ==> 0 < sizes[u]
  }

  /** `d` is a digit tuple over `sizes`: one digit per radix, each below its radix. */
  predicate InRange(sizes: seq<nat>, d: seq<nat>)
  {
    |d| == |sizes| && forall u :: 0 <= u < |d| ==> d[u] < sizes[u]
  }

  /** The flat index of the digit tuple `d`, last digit fastest. */
  function Encode(sizes: seq<nat>, d: seq<nat>): nat
    requires |d| == |sizes|
  {
    if |d| == 0 then 0
    else Encode(sizes[..|sizes| - 1], d[..|d| - 1]) * sizes[|sizes| - 1] + d[|d| - 1]
  }

  /** The digit tuple of the flat index `k`, last digit fastest. */
  function Decode(sizes: seq<nat>, k: nat): (d: seq<nat>)
    requires Positive(sizes)
    ensures |d| == |sizes|
  {
    if |sizes| == 0 then []
    else
      var n := sizes[|sizes| - 1];
      Decode(sizes[..|sizes| - 1], k / n) + [k % n]
  }

  /** A product of radices is non-zero exactly when every radix is. */
  lemma {:induction false} ProdPositive(sizes: seq<nat>)
    ensures 0 < Prod(sizes) <==> Positive(sizes)
  {
    if |sizes| > 0 {
      var front := sizes[..|sizes| - 1];
      ProdPositive(front);
      assert Positive(sizes) <==> Positive(front) && 0 < sizes[|sizes| - 1];
    }
  }

  /** Every digit tuple encodes to an index below the number of tuples. */
  lemma {:induction false} EncodeBound(sizes: seq<nat>, d: seq<nat>)
    requires InRange(sizes, d)
    ensures Encode(sizes, d) < Prod(sizes)
  {
    if |d| > 0 {
      var n := |d| - 1;
      EncodeBound(sizes[..n], d[..n]);
      FlatIndexBound(Encode(sizes[..n], d[..n]), d[n], Prod(sizes[..n]), sizes[n]);
    }
  }

  /** Decoding inverts encoding: distinct digit tuples get distinct indices. */
  lemma {:induction false} DecodeEncode(sizes: seq<nat>, d: seq<nat>)
    requires InRange(sizes, d)
    ensures Positive(sizes) && Decode(sizes, Encode(sizes, d)) == d
  {
    if |d| > 0 {
      var n := |d| - 1;
      DecodeEncode(sizes[..n], d[..n]);
      DivModSplit(Encode(sizes[..n], d[..n]), d[n], sizes[n]);
      assert d == d[..n] + [d[n]];
    }
  }

  /** Every index below the number of tuples decodes to a digit tuple that encodes back to it. */
  lemma {:induction false} EncodeDecode(sizes: seq<nat>, k: nat)
    requires k < Prod(sizes)
    ensures Positive(sizes)
    ensures InRange(sizes, Decode(sizes, k)) && Encode(sizes, Decode(sizes, k)) == k
  {
    ProdPositive(sizes);
    if |sizes| > 0 {
      var n := |sizes| - 1;
      var front := sizes[..n];
      DivBound(k, Prod(front), sizes[n]);
      EncodeDecode(front, k / sizes[n]);
      var d := Decode(sizes, k);
      assert d[..n] == Decode(front, k / sizes[n]);
    }
  }
}
