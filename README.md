# Tensor-grid quadrature rule (Effective-Quadratures), in Dafny

This project models the tensor-grid sampling object of Effective-Quadratures,
`equadratures/sampling/tensorgrid.py`. It covers the constructor and the
private builder `__get_tensorial_quadrature_rule`, and proves properties of
the model.

The builder takes one univariate quadrature rule per dimension. Each rule is
a list of points and a list of weights, obtained from
`parameters[u]._get_local_quadrature(orders[u])`. The builder folds the rules
into one multivariate rule, in ascending dimension order:

- the weight accumulator, seeded with `[1.0]`, is replaced by its Kronecker
  product with the local weights;
- the point accumulator, seeded with one row `[1.0]`, has every row repeated
  once per local point;
- a new last column is appended that holds the local points, tiled once per
  old row;
- after the last dimension the seed column is dropped.

## Layout

- `mixed_radix.dfy` (module `MixedRadix`): flat-index arithmetic, and
  mixed-radix `Encode`/`Decode` of digit tuples, last digit fastest.
  This is the order in which `np.kron` enumerates pairs.
- `kronecker.dfy` (module `Kronecker`): `Kron` (`np.kron` on vectors), `Scale`
  and `Sum`, with the index property and the sum property of the product.
- `point_rows.dfy` (module `PointRows`): `RepeatRows`
  (`kron(pp, ones((L,1)))`), `Tile` (`kron(ones((M,1)), points)`) and
  `AppendColumn` (`concatenate(..., axis = 1)`).
- `tensorgrid.dfy` (module `Tensorgrid`): the rule, parameter and basis
  datatypes, and the fold as specification functions. `SeededPoints` and
  `FoldedWeights` are the accumulators after folding a prefix of the rules.
  `TensorPoints` drops the seed column. The lemmas are proved about these
  functions. The class `Tensorgrid` holds the constructor and the method
  `GetTensorialQuadratureRule`. That method runs the loop over dimensions and
  is proved equal to the specification functions.

Reals stand for the source's floating-point numbers. Each parameter's rule
provider is an input: a function from the requested order to a `Rule`.

The source enforces none of the following, and the model follows the source:

- It never checks that a rule has as many weights as points. Points and
  weights are folded independently. `TensorShape` gives the number of rows as
  the product of the point counts and the number of weights as the product of
  the weight counts, and these differ when a rule's lengths disagree. The
  point-to-weight correspondence is stated for well-formed rules only.
- It raises no error for an empty rule. With local points shaped as a column,
  an empty rule gives an empty grid, and the model does the same.
- It fails when there are no dimensions: line 51 indexes the Python list
  `[1.0]` with a two-dimensional slice. The method therefore requires at least
  one dimension.

The constructor calls the builder without arguments. Its own `orders`
argument is never passed on, so the basis orders are always used. The
constructor's postcondition states this: the grid depends on `basis.orders`
and not on `orders`.

## Model

| member | source | states |
|---|---|---|
| `Tensorgrid.Tensorgrid.GetTensorialQuadratureRule` | equadratures/sampling/tensorgrid.py:15-55 | The loop over dimensions, from the `[1.0]` seeds through the seed-column drop, returns exactly `TensorPoints` and `FoldedWeights` of the rules at the chosen orders. Those orders are the explicit ones, or `basis.orders` when none are given. The result has the product of the point counts as rows, each row has `dimensions` entries, and there is one weight per combination of weights. The loop invariant ties the accumulators to the fold of the first `u` rules, with the product of the first `u` point counts as rows, width `u + 1`, and 1.0 in column 0 |
| `Tensorgrid.Tensorgrid.constructor` | equadratures/sampling/tensorgrid.py:11-14 | The stored points and weights are the tensor grid of the rules at `basis.orders`, whatever `orders` argument is passed, because that argument is never forwarded |
| `Kronecker.KronAt` | equadratures/sampling/tensorgrid.py:41 | In `kron(ww, local_weights)`, the entry at flat index `i * L + j` is `ww[i] * local_weights[j]`, so the new factor varies fastest |
| `Kronecker.KronLength` | equadratures/sampling/tensorgrid.py:41 | The Kronecker product of an M-vector and an L-vector has M * L entries |
| `Kronecker.SumKron` | equadratures/sampling/tensorgrid.py:41 | The sum of `kron(a, b)` is `sum(a) * sum(b)` |
| `PointRows.RepeatRows` | equadratures/sampling/tensorgrid.py:44-46 | `kron(pp, ones((L,1)))` has M * L rows |
| `PointRows.Tile` | equadratures/sampling/tensorgrid.py:45-47 | `kron(ones((M,1)), local_points)` has M * L entries |
| `PointRows.RepeatRowsAt` | equadratures/sampling/tensorgrid.py:44-46 | Row `i * L + j` of the repeated matrix is old row `i` |
| `PointRows.TileAt` | equadratures/sampling/tensorgrid.py:45-47 | Entry `i * L + j` of the tiled column is `local_points[j]` |
| `Tensorgrid.PointStepAt` | equadratures/sampling/tensorgrid.py:44-48 | One fold step has M * L rows, and new row `i * L + j` is old row `i` followed by `local_points[j]`. This matches the weight enumeration of `KronAt` |
| `Tensorgrid.PointStepShape` | equadratures/sampling/tensorgrid.py:44-48 | A fold step makes every row one entry wider and keeps 1.0 in column 0 |
| `Tensorgrid.SeededCount` | equadratures/sampling/tensorgrid.py:29-48 | After folding D rules the point accumulator has the product of the D point counts as rows |
| `Tensorgrid.SeededShape` | equadratures/sampling/tensorgrid.py:29-48 | After folding D rules every row has D + 1 entries and entry 0 is the seed 1.0 |
| `Tensorgrid.WeightsLength` | equadratures/sampling/tensorgrid.py:30-41 | After folding D rules there are as many weights as the product of the D weight counts |
| `Tensorgrid.TensorShape` | equadratures/sampling/tensorgrid.py:37-52 | The returned points have the product of the point counts as rows, each with exactly D entries once the seed column is gone. The returned weights number the product of the weight counts |
| `Tensorgrid.CountsAgree` | equadratures/sampling/tensorgrid.py:37-52 | For well-formed rules, there are as many returned point rows as returned weights |
| `Tensorgrid.SeededPointsAt` | equadratures/sampling/tensorgrid.py:29-48 | Digit tuple `d` sits at flat index `Encode(d)` of the point accumulator, as the seed followed by point `d[u]` of rule `u` for every `u` |
| `Tensorgrid.FoldedWeightsAt` | equadratures/sampling/tensorgrid.py:30-41 | Digit tuple `d` sits at flat index `Encode(d)` of the weight accumulator, as the product over `u` of weight `d[u]` of rule `u` |
| `Tensorgrid.NodeAppears` | equadratures/sampling/tensorgrid.py:37-52 | Every combination of one point per dimension appears in the output at index `Encode(d)`, with the product of the matching weights at the same index |
| `Tensorgrid.Correspondence` | equadratures/sampling/tensorgrid.py:37-52 | Decode output index `i` in mixed radix, last dimension fastest, into digits `d`. Then row `i` is point `d[u]` of rule `u` in every column `u`, and weight `i` is the product of weight `d[u]` of rule `u` |
| `Tensorgrid.WeightSum` | equadratures/sampling/tensorgrid.py:30-41 | The returned weights sum to the product of the per-dimension weight sums |
| `Tensorgrid.SingleDimension` | equadratures/sampling/tensorgrid.py:29-52 | With one dimension, the points are the local points as a single column and the weights are the local weights |
| `Tensorgrid.TwoDimensionExample` | equadratures/sampling/tensorgrid.py:37-52 | Rules ([-1, 1], [0.5, 0.5]) and ([0, 2], [0.3, 0.7]) give rows (-1,0), (-1,2), (1,0), (1,2) with weights 0.15, 0.35, 0.15, 0.35 |
| `MixedRadix.EncodeBound` | equadratures/sampling/tensorgrid.py:41-48 | Every digit tuple encodes to an index below the number of grid nodes |
| `MixedRadix.DecodeEncode` | equadratures/sampling/tensorgrid.py:41-48 | Decoding inverts encoding, so distinct combinations occupy distinct rows |
| `MixedRadix.EncodeDecode` | equadratures/sampling/tensorgrid.py:41-48 | Every row index decodes to a valid digit tuple that encodes back to it, so every row is some combination |
| `MixedRadix.ProdPositive` | equadratures/sampling/tensorgrid.py:37-48 | The grid is non-empty exactly when every rule has at least one point |

## Left out

- Computing the univariate rules (`Parameter._get_local_quadrature`, called at
  tensorgrid.py:40). Its Gauss-type numerics live in a file that is not part
  of this model, so each parameter's rule provider is an input function.
- The `Sampling` template (`sampling_template.py` is not part of this model).
  The constructor's `super` calls are modelled as storing the parameters and
  the basis, with `dimensions` set to the number of parameters. The call to
  `____set_points_and_weights__` is modelled as assigning the `points` and
  `weights` fields.
- numpy array shapes. The model uses `seq<seq<real>>` for points and
  `seq<real>` for weights. Local points are taken as a column, the only shape
  for which the concatenation at line 48 works for rules with more than one
  point. The `(number_of_samples, 1)` weight shape in the doc comment is not
  modelled.
- Floating-point rounding: the model computes with exact reals.
- The console script `tests/1D_tests.py`: it asserts nothing about the grid.
