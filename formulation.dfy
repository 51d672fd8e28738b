/** TSP_DFJ_Formulation up to the solver call: the DFJ model as plain data. */
module Formulation {
  import opened Wrappers
  import opened Subsets
  import opened Network
  import opened Costs
  import opened Constraints
  import opened ConstraintFacts

  /**
   * What the script hands to the solver: the index sets, one binary variable x[i, j] per arc of
   * `arcs`, the cost dictionary, the objective's (arc, cost) terms and the ConstraintList.
   */
  datatype Model = Model(
    nodes: seq<int>,
    customers: seq<int>,
    arcs: seq<Arc>,
    cost: map<Arc, real>,
    objective: seq<(Arc, real)>,
    constraints: seq<Constraint>)

  /** The model built from n and the cost matrix, or the IndexError its cost lookup raises. */
  function Formulation(n: int, cm: Matrix): Result<Model, Error> {
    match CostTable(Arcs(n), cm)
    case Err(e) => Err(e)
    case Ok(c) =>
      Ok(Model(Nodes(n), Customers(n), Arcs(n), c, ObjectiveTerms(Arcs(n), c), ConstraintList(Nodes(n), Customers(n))))
  }

  /** Sections 1 to 5 of TSP_DFJ_Formulation, step by step. */
  method Formulate(n: int, cm: Matrix) returns (r: Result<Model, Error>)
    ensures r == Formulation(n, cm)
  {
    // 1 | sets and notations
    var nodes := Range(0, n + 1);
    var customers := Range(1, n);
    var arcs := DistinctPairs(nodes);
    var costs := CostTable(arcs, cm);
    if costs.Err? {
      return Err(costs.error);
    }
    var c := costs.value;
    // 3, 4 | one variable per arc; the objective sum(x[i, j] * c[i, j])
    var objective := ObjectiveTerms(arcs, c);
    // 5 | constraints
    var constraints := AddConstraints(nodes, customers);
    r := Ok(Model(nodes, customers, arcs, c, objective, constraints));
  }

  /**
   * On an n by n matrix (n >= 1) the model is always built: (n + 1) * n variables and objective
   * terms, 2 * (n - 1) degree constraints followed by 2^(n+1) - 2 - (n+1) subtour cuts, and no
   * constraint mentions a variable that was not declared.
   */
  lemma FormulationShape(n: int, cm: Matrix)
    requires n >= 1 && IsSquare(cm, n)
    ensures Formulation(n, cm).Ok?
    ensures |Formulation(n, cm).value.arcs| == (n + 1) * n
    ensures |Formulation(n, cm).value.objective| == (n + 1) * n
    ensures |Formulation(n, cm).value.constraints| == 2 * (n - 1) + (Pow2(n + 1) - 2 - (n + 1))
    ensures forall c, a :: c in Formulation(n, cm).value.constraints && a in c.arcs ==>
      a in Formulation(n, cm).value.arcs
  {
    SquareCosts(n, cm);
    ArcSet(n);
    DegreeConstraintsShape(n);
    SubtourCutsExact(n);
    EveryArcDeclared(n);
  }

  /**
   * On an n by n matrix the objective has one term per arc of arc_IJ, in that order, and the
   * coefficient of x[i, j] is the matrix entry at row i - 1 and column j - 1 (n - 1 for the depot).
   */
  lemma ObjectiveCoefficients(n: int, cm: Matrix)
    requires n >= 1 && IsSquare(cm, n)
    ensures Formulation(n, cm).Ok?
    ensures |Formulation(n, cm).value.objective| == |Arcs(n)|
    ensures forall k :: 0 <= k < |Formulation(n, cm).value.objective| ==>
      Formulation(n, cm).value.objective[k].0 == Arcs(n)[k] &&
      0 <= MatrixIndex(n, Arcs(n)[k].0) < n && 0 <= MatrixIndex(n, Arcs(n)[k].1) < n &&
      Formulation(n, cm).value.objective[k].1 == cm[MatrixIndex(n, Arcs(n)[k].0)][MatrixIndex(n, Arcs(n)[k].1)]
  {
    var arcs := Arcs(n);
    SquareCosts(n, cm);
    var c := CostTable(arcs, cm).value;
    var objective := ObjectiveTerms(arcs, c);
    assert Formulation(n, cm).value.objective == objective;
    forall k | 0 <= k < |objective|
      ensures objective[k].0 == arcs[k]
      ensures 0 <= MatrixIndex(n, arcs[k].0) < n && 0 <= MatrixIndex(n, arcs[k].1) < n
      ensures objective[k].1 == cm[MatrixIndex(n, arcs[k].0)][MatrixIndex(n, arcs[k].1)]
    {
      assert arcs[k] in arcs;
    }
  }

  /** For four nodes (n = 3) the subsets of sizes 2 and 3 give C(4, 2) + C(4, 3) = 10 cuts. */
  lemma FourNodeCutCount()
    ensures |SubtourCuts(SubtourCandidates(Nodes(3)))| == 10
  {
    SubtourCutsExact(3);
    assert Pow2(4) == 16;
  }
}
