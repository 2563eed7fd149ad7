/** The point-matrix combinators of one fold step, stated on sequences of
    rows: the row repetition `kron(pp, ones((L,1)))`, the column tiling
    `kron(ones((M,1)), points)` and the column concatenation
    `concatenate((left, right), axis = 1)`. Pairs (i, j) of an old row and a
    new coordinate are enumerated at flat index i * L + j. */
module PointRows {
  import opened MixedRadix

  /** `np.kron(pp, ones((n, 1)))`: every row of `pp` repeated n times in a row. */
  function RepeatRows(pp: seq<seq<real>>, n: nat): (r: seq<seq<real>>)
    ensures |r| == |pp| * n
  {
    if |pp| == 0 then []
    else RepeatRows(pp[..|pp| - 1], n) + seq(n, _ => pp[|pp| - 1])
  }

  /** `np.kron(ones((m, 1)), col)`: the column `col` stacked m times. */
  function Tile(col: seq<real>, m: nat): (r: seq<real>)
    ensures |r| == m * |col|
  {
    if m == 0 then [] else Tile(col, m - 1) + col
  }

  /** `np.concatenate((left, right), axis = 1)` with a one-column right side. */
  function AppendColumn(left: seq<seq<real>>, right: seq<real>): seq<seq<real>>
    requires |left| == |right|
  {
    seq(|left|, k requires 0 <= k < |left| => left[k] + [right[k]])
  }

  /** Repeating rows n times puts row i at flat indices i * n .. i * n + n - 1. */
  lemma {:induction false} RepeatRowsAt(pp: seq<seq<real>>, n: nat, i: nat, j: nat)
    requires i < |pp| && j < n
    ensures i * n + j < |RepeatRows(pp, n)|
    ensures RepeatRows(pp, n)[i * n + j] == pp[i]
  {
    var pp' := pp[..|pp| - 1];
    FlatIndexBound(i, j, |pp|, n);
    if i < |pp'| {
      RepeatRowsAt(pp', n, i, j);
    } else {
      assert i * n + j == |RepeatRows(pp', n)| + j;
    }
  }

  /** Tiling a column m times puts col[j] at flat index i * |col| + j of copy i. */
  lemma {:induction false} TileAt(col: seq<real>, m: nat, i: nat, j: nat)
    requires i < m && j < |col|
    ensures i * |col| + j < |Tile(col, m)|
    ensures Tile(col, m)[i * |col| + j] == col[j]
  {
    FlatIndexBound(i, j, m, |col|);
    if i < m - 1 {
      TileAt(col, m - 1, i, j);
    } else {
      assert i * |col| + j == |Tile(col, m - 1)| + j;
    }
  }
}
