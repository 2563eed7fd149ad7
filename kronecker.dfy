/** The Kronecker product of two weight vectors (`np.kron(ww, local_weights)`)
    and the sums it preserves. Pairs (i, j) are enumerated at flat index
    i * |b| + j: the right-hand factor varies fastest. */
module Kronecker {
  import opened MixedRadix

  // ---------------------------------------------------------------------
  // The combinators
  // ---------------------------------------------------------------------

  /** Every entry of `b` multiplied by `x`. */
  function Scale(x: real, b: seq<real>): seq<real>
  {
    seq(|b|, j requires 0 <= j < |b| => x * b[j])
  }

  /** `np.kron(a, b)` for vectors: one block `a[i] * b` per entry of `a`, in order. */
  function Kron(a: seq<real>, b: seq<real>): seq<real>
  {
    if |a| == 0 then []
    else Kron(a[..|a| - 1], b) + Scale(a[|a| - 1], b)
  }

  /** Sum of a vector, last entry added last. */
  function Sum(s: seq<real>): real
  {
    if |s| == 0 then 0.0 else Sum(s[..|s| - 1]) + s[|s| - 1]
  }

  // ---------------------------------------------------------------------
  // Index properties
  // ---------------------------------------------------------------------

  /** The Kronecker product of an m-vector and an n-vector has m * n entries. */
  lemma {:induction false} KronLength(a: seq<real>, b: seq<real>)
    ensures |Kron(a, b)| == |a| * |b|
  {
    if |a| > 0 {
      KronLength(a[..|a| - 1], b);
      assert |a| * |b| == (|a| - 1) * |b| + |b|;
    }
  }

  /** The Kronecker product pairs a[i] with b[j] at flat index i * |b| + j. */
  lemma {:induction false} KronAt(a: seq<real>, b: seq<real>, i: nat, j: nat)
    requires i < |a| && j < |b|
    ensures i * |b| + j < |Kron(a, b)|
    ensures Kron(a, b)[i * |b| + j] == a[i] * b[j]
  {
    var a' := a[..|a| - 1];
    FlatIndexBound(i, j, |a|, |b|);
    KronLength(a, b);
    KronLength(a', b);
    if i < |a'| {
      KronAt(a', b, i, j);
    } else {
      assert i * |b| + j == |Kron(a', b)| + j;
    }
  }

  // ---------------------------------------------------------------------
  // Sums
  // ---------------------------------------------------------------------

  /** The sum of a concatenation is the sum of the parts. */
  lemma {:induction false} SumAppend(x: seq<real>, y: seq<real>)
    ensures Sum(x + y) == Sum(x) + Sum(y)
  {
    if |y| == 0 {
      assert x + y == x;
    } else {
      var y' := y[..|y| - 1];
      assert (x + y)[..|x + y| - 1] == x + y';
      SumAppend(x, y');
    }
  }

  /** Scaling commutes with dropping the last entry. */
  lemma ScaleDropLast(x: real, b: seq<real>)
    requires |b| > 0
    ensures Scale(x, b)[..|b| - 1] == Scale(x, b[..|b| - 1])
  {
    var s, b' := Scale(x, b), b[..|b| - 1];
    forall j | 0 <= j < |b'|
      ensures s[..|b| - 1][j] == Scale(x, b')[j]
    {
    }
  }

  /** Scaling a vector scales its sum. */
  lemma {:induction false} SumScale(x: real, b: seq<real>)
    ensures Sum(Scale(x, b)) == x * Sum(b)
  {
    if |b| > 0 {
      ScaleDropLast(x, b);
      SumScale(x, b[..|b| - 1]);
    }
  }

  /** Block i of the product sums to a[i] * Sum(b), so the product sums like `a` scaled by Sum(b). */
  lemma {:induction false} SumKronScale(a: seq<real>, b: seq<real>)
    ensures Sum(Kron(a, b)) == Sum(Scale(Sum(b), a))
  {
    if |a| > 0 {
      var a', x := a[..|a| - 1], a[|a| - 1];
      SumAppend(Kron(a', b), Scale(x, b));
      SumScale(x, b);
      SumKronScale(a', b);
      ScaleDropLast(Sum(b), a);
    }
  }

  /** Weight sums multiply under the Kronecker product. */
  lemma SumKron(a: seq<real>, b: seq<real>)
    ensures Sum(Kron(a, b)) == Sum(a) * Sum(b)
  {
    SumKronScale(a, b);
    SumScale(Sum(b), a);
  }
}
