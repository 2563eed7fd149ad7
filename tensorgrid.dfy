/** The tensor-grid quadrature builder of `equadratures/sampling/tensorgrid.py`.
    One univariate rule per dimension is folded, dimension by dimension, into
    a multivariate rule: the running weights are Kronecker-multiplied by the
    new local weights, every running point row is repeated once per new local
    point and extended by that point, and a seed column of 1.0 that starts the
    fold is dropped at the end. */
module Tensorgrid {
  import opened MixedRadix
  import opened Kronecker
  import opened PointRows

  datatype Option<T> = None | Some(value: T)

  /** A univariate quadrature rule: nodes and their weights, index by index. */
  datatype Rule = Rule(points: seq<real>, weights: seq<real>)

  /** A usable rule: as many weights as points, and at least one point. */
  predicate WellFormed(r: Rule)
  {
    0 < |r.points| && |r.points| == |r.weights|
  }

  /** A random parameter, seen through its rule provider `_get_local_quadrature`:
      the univariate rule it returns for a requested polynomial order. */
  datatype Parameter = Parameter(localQuadrature: nat -> Rule)

  /** The multi-index basis, seen through its per-dimension polynomial orders. */
  datatype Basis = Basis(orders: seq<nat>)

  // ---------------------------------------------------------------------
  // The fold, as functions of the per-dimension rules
  // ---------------------------------------------------------------------

  /** The rules of dimensions 0 .. d-1, each at its requested order. */
  function LocalRules(parameters: seq<Parameter>, orders: seq<nat>, d: nat): seq<Rule>
    requires d <= |parameters| && d <= |orders|
  {
    seq(d, u requires 0 <= u < d => parameters[u].localQuadrature(orders[u]))
  }

  /** Number of points of each rule: the radices of the point enumeration. */
  function PointCounts(rules: seq<Rule>): seq<nat>
  {
    seq(|rules|, u requires 0 <= u < |rules| => |rules[u].points|)
  }

  /** Number of weights of each rule: the radices of the weight enumeration. */
  function WeightCounts(rules: seq<Rule>): seq<nat>
  {
    seq(|rules|, u requires 0 <= u < |rules| => |rules[u].weights|)
  }

  /** One point fold step: every old row repeated once per local point, then
      the local points tiled once per old row appended as a new last column. */
  function PointStep(pp: seq<seq<real>>, localPoints: seq<real>): seq<seq<real>>
  {
    AppendColumn(RepeatRows(pp, |localPoints|), Tile(localPoints, |pp|))
  }

  /** The point accumulator after folding in `rules`, seed column included. */
  function SeededPoints(rules: seq<Rule>): seq<seq<real>>
  {
    if |rules| == 0 then [[1.0]]
    else PointStep(SeededPoints(rules[..|rules| - 1]), rules[|rules| - 1].points)
  }

  /** The weight accumulator after folding in `rules`, starting from the seed 1.0. */
  function FoldedWeights(rules: seq<Rule>): seq<real>
  {
    if |rules| == 0 then [1.0]
    else Kron(FoldedWeights(rules[..|rules| - 1]), rules[|rules| - 1].weights)
  }

  /** `pp[:, 1::]`: every row without its first entry. */
  function DropSeed(pp: seq<seq<real>>): seq<seq<real>>
    requires forall k :: 0 <= k < |pp| ==> 0 < |pp[k]|
  {
    seq(|pp|, k requires 0 <= k < |pp| => pp[k][1..])
  }

  /** The returned point matrix. */
  function TensorPoints(rules: seq<Rule>): seq<seq<real>>
  {
    SeededShape(rules);
    DropSeed(SeededPoints(rules))
  }

  /** The node chosen by the digit tuple `d`: coordinate u is point d[u] of rule u. */
  function Node(rules: seq<Rule>, d: seq<nat>): seq<real>
    requires InRange(PointCounts(rules), d)
  {
    seq(|rules|, u requires 0 <= u < |rules| => rules[u].points[d[u]])
  }

  /** The weight of the digit tuple `d`: the product over u of weight d[u] of rule u. */
  function NodeWeight(rules: seq<Rule>, d: seq<nat>): real
    requires InRange(WeightCounts(rules), d)
  {
    if |rules| == 0 then 1.0
    else
      var n := |rules| - 1;
      assert WeightCounts(rules[..n]) == WeightCounts(rules)[..n];
      NodeWeight(rules[..n], d[..n]) * rules[n].weights[d[n]]
  }

  /** The product over the rules of the sums of their weights. */
  function WeightSumProduct(rules: seq<Rule>): real
  {
    if |rules| == 0 then 1.0
    else WeightSumProduct(rules[..|rules| - 1]) * Sum(rules[|rules| - 1].weights)
  }

  // ---------------------------------------------------------------------
  // One fold step
  // ---------------------------------------------------------------------

  /** Old row i and local point j give new row i * L + j: old row i followed by point j. */
  lemma PointStepAt(pp: seq<seq<real>>, localPoints: seq<real>, i: nat, j: nat)
    requires i < |pp| && j < |localPoints|
    ensures |PointStep(pp, localPoints)| == |pp| * |localPoints|
    ensures i * |localPoints| + j < |PointStep(pp, localPoints)|
    ensures PointStep(pp, localPoints)[i * |localPoints| + j] == pp[i] + [localPoints[j]]
  {
    RepeatRowsAt(pp, |localPoints|, i, j);
    TileAt(localPoints, |pp|, i, j);
  }

  /** A fold step widens every row by one and keeps the seed in column 0. */
  lemma PointStepShape(pp: seq<seq<real>>, localPoints: seq<real>, width: nat)
    requires forall i :: 0 <= i < |pp| ==> |pp[i]| == width && 0 < width && pp[i][0] == 1.0
    ensures forall k :: 0 <= k < |PointStep(pp, localPoints)| ==>
      |PointStep(pp, localPoints)[k]| == width + 1 && PointStep(pp, localPoints)[k][0] == 1.0
  {
    var next, n := PointStep(pp, localPoints), |localPoints|;
    forall k | 0 <= k < |next|
      ensures |next[k]| == width + 1 && next[k][0] == 1.0
    {
      DivBound(k, |pp|, n);
      var i, j := k / n, k % n;
      assert k == i * n + j;
      PointStepAt(pp, localPoints, i, j);
    }
  }

  /** The prefix of the per-rule counts is the counts of the prefix. */
  lemma CountsPrefix(rules: seq<Rule>, n: nat)
    requires n <= |rules|
    ensures PointCounts(rules[..n]) == PointCounts(rules)[..n]
    ensures WeightCounts(rules[..n]) == WeightCounts(rules)[..n]
  {
  }

  // ---------------------------------------------------------------------
  // Shape
  // ---------------------------------------------------------------------

  /** After folding D rules the accumulator has one row per combination of points. */
  lemma {:induction false} SeededCount(rules: seq<Rule>)
    ensures |SeededPoints(rules)| == Prod(PointCounts(rules))
  {
    if |rules| > 0 {
      var n := |rules| - 1;
      SeededCount(rules[..n]);
      CountsPrefix(rules, n);
    }
  }

  /** After folding D rules every row has D + 1 entries, and entry 0 is the seed 1.0. */
  lemma {:induction false} SeededShape(rules: seq<Rule>)
    ensures |SeededPoints(rules)| == Prod(PointCounts(rules))
    ensures forall k :: 0 <= k < |SeededPoints(rules)| ==>
      |SeededPoints(rules)[k]| == |rules| + 1 && SeededPoints(rules)[k][0] == 1.0
  {
    SeededCount(rules);
    if |rules| > 0 {
      var n := |rules| - 1;
      SeededShape(rules[..n]);
      PointStepShape(SeededPoints(rules[..n]), rules[n].points, n + 1);
    }
  }

  /** After folding D rules there is one weight per combination of weights. */
  lemma {:induction false} WeightsLength(rules: seq<Rule>)
    ensures |FoldedWeights(rules)| == Prod(WeightCounts(rules))
  {
    if |rules| > 0 {
      var n := |rules| - 1;
      WeightsLength(rules[..n]);
      CountsPrefix(rules, n);
      KronLength(FoldedWeights(rules[..n]), rules[n].weights);
    }
  }

  /** The output has one row and one weight per node, each row with one entry per dimension. */
  lemma TensorShape(rules: seq<Rule>)
    ensures |TensorPoints(rules)| == Prod(PointCounts(rules))
    ensures |FoldedWeights(rules)| == Prod(WeightCounts(rules))
    ensures forall k :: 0 <= k < |TensorPoints(rules)| ==> |TensorPoints(rules)[k]| == |rules|
  {
    SeededShape(rules);
    WeightsLength(rules);
  }

  /** With well-formed rules the point rows and the weights are equally many. */
  lemma CountsAgree(rules: seq<Rule>)
    requires forall u :: 0 <= u < |rules| ==> WellFormed(rules[u])
    ensures PointCounts(rules) == WeightCounts(rules)
    ensures Positive(PointCounts(rules))
    ensures |TensorPoints(rules)| == |FoldedWeights(rules)| == Prod(PointCounts(rules))
  {
    TensorShape(rules);
  }

  // ---------------------------------------------------------------------
  // Which node sits where
  // ---------------------------------------------------------------------

  /** The digit tuple d of point indices sits at flat index Encode(d) of the
      seeded accumulator: the seed, then point d[u] of rule u for every u. */
  lemma {:induction false} SeededPointsAt(rules: seq<Rule>, d: seq<nat>)
    requires InRange(PointCounts(rules), d)
    ensures Encode(PointCounts(rules), d) < |SeededPoints(rules)|
    ensures SeededPoints(rules)[Encode(PointCounts(rules), d)] == [1.0] + Node(rules, d)
  {
    SeededShape(rules);
    EncodeBound(PointCounts(rules), d);
    if |rules| > 0 {
      var n := |rules| - 1;
      var front, lp := rules[..n], rules[n].points;
      CountsPrefix(rules, n);
      SeededPointsAt(front, d[..n]);
      var e := Encode(PointCounts(front), d[..n]);
      PointStepAt(SeededPoints(front), lp, e, d[n]);
      assert Node(rules, d) == Node(front, d[..n]) + [lp[d[n]]];
    }
  }

  /** The digit tuple d of weight indices sits at flat index Encode(d) of the
      folded weights: the product over u of weight d[u] of rule u. */
  lemma {:induction false} FoldedWeightsAt(rules: seq<Rule>, d: seq<nat>)
    requires InRange(WeightCounts(rules), d)
    ensures Encode(WeightCounts(rules), d) < |FoldedWeights(rules)|
    ensures FoldedWeights(rules)[Encode(WeightCounts(rules), d)] == NodeWeight(rules, d)
  {
    WeightsLength(rules);
    EncodeBound(WeightCounts(rules), d);
    if |rules| > 0 {
      var n := |rules| - 1;
      var front, lw := rules[..n], rules[n].weights;
      CountsPrefix(rules, n);
      FoldedWeightsAt(front, d[..n]);
      WeightsLength(front);
      KronAt(FoldedWeights(front), lw, Encode(WeightCounts(front), d[..n]), d[n]);
    }
  }

  /** Every combination of one point per dimension appears in the output, at
      the index Encode(d), with the product of the matching weights. */
  lemma NodeAppears(rules: seq<Rule>, d: seq<nat>)
    requires forall u :: 0 <= u < |rules| ==> WellFormed(rules[u])
    requires InRange(PointCounts(rules), d)
    ensures PointCounts(rules) == WeightCounts(rules)
    ensures Encode(PointCounts(rules), d) < |TensorPoints(rules)| == |FoldedWeights(rules)|
    ensures TensorPoints(rules)[Encode(PointCounts(rules), d)] == Node(rules, d)
    ensures FoldedWeights(rules)[Encode(PointCounts(rules), d)] == NodeWeight(rules, d)
  {
    CountsAgree(rules);
    SeededPointsAt(rules, d);
    FoldedWeightsAt(rules, d);
  }

  /** Output index i decodes, last dimension fastest, into the digit tuple d;
      row i is the node of d and weight i is the product of d's weights. */
  lemma Correspondence(rules: seq<Rule>, i: nat)
    requires forall u :: 0 <= u < |rules| ==> WellFormed(rules[u])
    requires i < Prod(PointCounts(rules))
    ensures PointCounts(rules) == WeightCounts(rules) && Positive(PointCounts(rules))
    ensures InRange(PointCounts(rules), Decode(PointCounts(rules), i))
    ensures i < |TensorPoints(rules)| == |FoldedWeights(rules)|
    ensures TensorPoints(rules)[i] == Node(rules, Decode(PointCounts(rules), i))
    ensures FoldedWeights(rules)[i] == NodeWeight(rules, Decode(PointCounts(rules), i))
  {
    EncodeDecode(PointCounts(rules), i);
    NodeAppears(rules, Decode(PointCounts(rules), i));
  }

  // ---------------------------------------------------------------------
  // Weight sums and the one-dimensional case
  // ---------------------------------------------------------------------

  /** The output weights sum to the product of the per-dimension weight sums. */
  lemma {:induction false} WeightSum(rules: seq<Rule>)
    ensures Sum(FoldedWeights(rules)) == WeightSumProduct(rules)
  {
    if |rules| == 0 {
      assert Sum([1.0]) == Sum([]) + 1.0;
    } else {
      var n := |rules| - 1;
      WeightSum(rules[..n]);
      SumKron(FoldedWeights(rules[..n]), rules[n].weights);
    }
  }

  /** With one dimension, the points are the local points as one column and
      the weights are the local weights. */
  lemma SingleDimension(r: Rule)
    ensures TensorPoints([r]) == seq(|r.points|, k requires 0 <= k < |r.points| => [r.points[k]])
    ensures FoldedWeights([r]) == r.weights
  {
    var rules := [r];
    SeededShape(rules);
    WeightsLength(rules);
    assert rules[..0] == [];
    var pts := TensorPoints(rules);
    forall k | 0 <= k < |r.points|
      ensures pts[k] == [r.points[k]]
    {
      PointStepAt([[1.0]], r.points, 0, k);
    }
    forall k | 0 <= k < |r.weights|
      ensures FoldedWeights(rules)[k] == r.weights[k]
    {
      KronAt([1.0], r.weights, 0, k);
    }
  }

  /** Two dimensions with points [-1, 1], weights [0.5, 0.5] and points [0, 2],
      weights [0.3, 0.7]: four nodes, the second dimension varying fastest. */
  lemma TwoDimensionExample()
    ensures var rules := [Rule([-1.0, 1.0], [0.5, 0.5]), Rule([0.0, 2.0], [0.3, 0.7])];
      TensorPoints(rules) == [[-1.0, 0.0], [-1.0, 2.0], [1.0, 0.0], [1.0, 2.0]] &&
      FoldedWeights(rules) == [0.15, 0.35, 0.15, 0.35]
  {
    var rules := [Rule([-1.0, 1.0], [0.5, 0.5]), Rule([0.0, 2.0], [0.3, 0.7])];
    var counts := PointCounts(rules);
    assert counts == [2, 2] && counts[..1] == [2] && counts[..1][..0] == [];
    assert Prod(counts[..1]) == 2;
    assert Prod(counts) == 4;
    TensorShape(rules);
    var tuples := [[0, 0], [0, 1], [1, 0], [1, 1]];
    forall k | 0 <= k < 4
      ensures TensorPoints(rules)[k] == [[-1.0, 0.0], [-1.0, 2.0], [1.0, 0.0], [1.0, 2.0]][k]
      ensures FoldedWeights(rules)[k] == [0.15, 0.35, 0.15, 0.35][k]
    {
      var d := tuples[k];
      assert d[..1] == [d[0]] && d[..1][..0] == [];
      assert Encode(counts[..1], d[..1]) == d[0];
      assert Encode(counts, d) == d[0] * 2 + d[1] == k;
      assert Node(rules, d) == [rules[0].points[d[0]], rules[1].points[d[1]]];
      assert NodeWeight(rules, d) == 1.0 * rules[0].weights[d[0]] * rules[1].weights[d[1]];
      NodeAppears(rules, d);
    }
  }

  // ---------------------------------------------------------------------
  // The sampling object
  // ---------------------------------------------------------------------

  /** A tensor-grid sampling object: built from its parameters and basis,
      it holds the multivariate quadrature points and weights. */
  class Tensorgrid {
    const parameters: seq<Parameter>
    const basis: Basis
    const dimensions: nat
    var points: seq<seq<real>>
    var weights: seq<real>

    /** The orders a call uses: the explicit ones, else the basis orders. */
    function OrdersFor(orders: Option<seq<nat>>): seq<nat>
      reads this
    {
      if orders.None? then basis.orders else orders.value
    }

    /** Builds the grid from the basis orders; the `orders` argument is never
        passed on, so it has no effect on the result. */
    constructor (parameters: seq<Parameter>, basis: Basis, orders: Option<seq<nat>>)
      requires 1 <= |parameters| <= |basis.orders|
      ensures this.parameters == parameters && this.basis == basis
      ensures dimensions == |parameters|
      ensures points == TensorPoints(LocalRules(parameters, basis.orders, |parameters|))
      ensures weights == FoldedWeights(LocalRules(parameters, basis.orders, |parameters|))
    {
      this.parameters := parameters;
      this.basis := basis;
      dimensions := |parameters|;
      new;
      var p, w := GetTensorialQuadratureRule(None);
      points, weights := p, w;
    }

    /** Folds the rules of dimensions 0 .. dimensions-1 into one multivariate rule. */
    method GetTensorialQuadratureRule(orders: Option<seq<nat>>)
      returns (points: seq<seq<real>>, weights: seq<real>)
      requires 1 <= dimensions <= |parameters|
      requires dimensions <= |OrdersFor(orders)|
      ensures points == TensorPoints(LocalRules(parameters, OrdersFor(orders), dimensions))
      ensures weights == FoldedWeights(LocalRules(parameters, OrdersFor(orders), dimensions))
      ensures |points| == Prod(PointCounts(LocalRules(parameters, OrdersFor(orders), dimensions)))
      ensures |weights| == Prod(WeightCounts(LocalRules(parameters, OrdersFor(orders), dimensions)))
      ensures forall k :: 0 <= k < |points| ==> |points[k]| == dimensions
    {
      var pp: seq<seq<real>> := [[1.0]];
      var ww: seq<real> := [1.0];
      var chosen := if orders.None? then basis.orders else orders.value;
      ghost var rules := LocalRules(parameters, chosen, dimensions);
      for u := 0 to dimensions
        invariant pp == SeededPoints(rules[..u])
        invariant ww == FoldedWeights(rules[..u])
        invariant |pp| == Prod(PointCounts(rules[..u]))
        invariant forall k :: 0 <= k < |pp| ==> |pp[k]| == u + 1 && pp[k][0] == 1.0
      {
        var local := parameters[u].localQuadrature(chosen[u]);
        ww := Kron(ww, local.weights);
        var leftSide := RepeatRows(pp, |local.points|);
        var rightSide := Tile(local.points, |pp|);
        pp := AppendColumn(leftSide, rightSide);
        assert rules[..u + 1][..u] == rules[..u];
        SeededShape(rules[..u + 1]);
      }
      assert rules[..dimensions] == rules;
      TensorShape(rules);
      points := DropSeed(pp);
      weights := ww;
    }
  }
}
