/** The cost dictionary `c` and the objective's terms. */
module Costs {
  import opened Wrappers
  import opened Network

  /** The distance matrix as given, row by row, indexed by position. */
  type Matrix = seq<seq<real>>

  /** What Python raises when a cost lookup falls outside the matrix. */
  datatype Error = IndexError

  /** Python's `s[k]`: a negative `k` counts from the end; outside -|s|..|s|-1 it raises. */
  function PyIndex<T>(s: seq<T>, k: int): (r: Option<T>)
    ensures r.Some? <==> -|s| <= k < |s|
    ensures r.Some? ==> r.value == if k >= 0 then s[k] else s[|s| + k]
  {
    if 0 <= k < |s| then Some(s[k])
    else if -|s| <= k < 0 then Some(s[|s| + k])
    else None
  }

  /** `costMatrix[i-1][j-1]` for the arc (i, j). */
  function ArcCost(cm: Matrix, a: Arc): Option<real> {
    match PyIndex(cm, a.0 - 1)
    case None => None
    case Some(row) => PyIndex(row, a.1 - 1)
  }

  /**
   * `{(i, j): costMatrix[i-1][j-1] for (i, j) in arcs}`, built arc by arc; the first lookup
   * that falls outside the matrix raises IndexError and no dictionary is produced.
   */
  function CostTable(arcs: seq<Arc>, cm: Matrix): (r: Result<map<Arc, real>, Error>)
    ensures r.Ok? <==> forall k :: 0 <= k < |arcs| ==> ArcCost(cm, arcs[k]).Some?
    ensures r.Ok? ==> forall a :: a in r.value <==> a in arcs
    ensures r.Ok? ==> forall k :: 0 <= k < |arcs| ==> r.value[arcs[k]] == ArcCost(cm, arcs[k]).value
  {
    if arcs == [] then Ok(map[])
    else
      var front, last := arcs[..|arcs| - 1], arcs[|arcs| - 1];
      assert arcs == front + [last];
      match CostTable(front, cm)
      case Err(e) => Err(e)
      case Ok(c) =>
        match ArcCost(cm, last)
        case None => Err(IndexError)
        case Some(v) => Ok(c[last := v])
  }

  /** The matrix is n by n. */
  predicate IsSquare(cm: Matrix, n: int) {
    |cm| == n && forall r :: 0 <= r < |cm| ==> |cm[r]| == n
  }

  /** The row or column of an n by n matrix that node v reads: v - 1, and n - 1 for the depot 0. */
  function MatrixIndex(n: int, v: int): int {
    if v == 0 then n - 1 else v - 1
  }

  /** On an n by n matrix, the lookup for an arc between nodes 0..n reads the entry MatrixIndex names. */
  lemma SquareLookup(n: int, cm: Matrix, a: Arc)
    requires n >= 1 && IsSquare(cm, n)
    requires 0 <= a.0 <= n && 0 <= a.1 <= n
    ensures 0 <= MatrixIndex(n, a.0) < n && 0 <= MatrixIndex(n, a.1) < n
    ensures ArcCost(cm, a) == Some(cm[MatrixIndex(n, a.0)][MatrixIndex(n, a.1)])
  {
    assert PyIndex(cm, a.0 - 1) == Some(cm[MatrixIndex(n, a.0)]);
  }

  /** Every lookup of an arc between nodes 0..n succeeds on an n by n matrix, with the entries given by MatrixIndex. */
  lemma SquareLookups(arcs: seq<Arc>, n: int, cm: Matrix)
    requires n >= 1 && IsSquare(cm, n)
    requires forall k :: 0 <= k < |arcs| ==> 0 <= arcs[k].0 <= n && 0 <= arcs[k].1 <= n
    ensures CostTable(arcs, cm).Ok?
    ensures forall k :: 0 <= k < |arcs| ==>
      0 <= MatrixIndex(n, arcs[k].0) < n && 0 <= MatrixIndex(n, arcs[k].1) < n &&
      CostTable(arcs, cm).value[arcs[k]] == cm[MatrixIndex(n, arcs[k].0)][MatrixIndex(n, arcs[k].1)]
  {
    forall k | 0 <= k < |arcs|
      ensures 0 <= MatrixIndex(n, arcs[k].0) < n && 0 <= MatrixIndex(n, arcs[k].1) < n
      ensures ArcCost(cm, arcs[k]) == Some(cm[MatrixIndex(n, arcs[k].0)][MatrixIndex(n, arcs[k].1)])
    {
      SquareLookup(n, cm, arcs[k]);
    }
  }

  /**
   * On an n by n matrix every lookup succeeds, and arc (i, j) costs the entry at row i - 1 and
   * column j - 1, where node 0 reads row (or column) n - 1.
   */
  lemma SquareCosts(n: int, cm: Matrix)
    requires n >= 1 && IsSquare(cm, n)
    ensures CostTable(Arcs(n), cm).Ok?
    ensures forall a :: a in Arcs(n) ==>
      0 <= MatrixIndex(n, a.0) < n && 0 <= MatrixIndex(n, a.1) < n &&
      CostTable(Arcs(n), cm).value[a] == cm[MatrixIndex(n, a.0)][MatrixIndex(n, a.1)]
  {
    var arcs := Arcs(n);
    ArcSet(n);
    assert forall k :: 0 <= k < |arcs| ==> arcs[k] in arcs;
    SquareLookups(arcs, n, cm);
    forall a | a in arcs
      ensures CostTable(arcs, cm).value[a] == cm[MatrixIndex(n, a.0)][MatrixIndex(n, a.1)]
    {
      var k :| 0 <= k < |arcs| && arcs[k] == a;
    }
  }

  /** The depot 0 and node n read the same row and the same column, so their arcs cost the same. */
  lemma DepotAliasesLastNode(n: int, cm: Matrix)
    requires n >= 1 && IsSquare(cm, n)
    ensures CostTable(Arcs(n), cm).Ok?
    ensures forall j :: (0, j) in Arcs(n) && (n, j) in Arcs(n) ==>
      CostTable(Arcs(n), cm).value[(0, j)] == CostTable(Arcs(n), cm).value[(n, j)]
    ensures forall i :: (i, 0) in Arcs(n) && (i, n) in Arcs(n) ==>
      CostTable(Arcs(n), cm).value[(i, 0)] == CostTable(Arcs(n), cm).value[(i, n)]
  {
    SquareCosts(n, cm);
    var c := CostTable(Arcs(n), cm).value;
    forall j | (0, j) in Arcs(n) && (n, j) in Arcs(n) ensures c[(0, j)] == c[(n, j)] {
      assert MatrixIndex(n, 0) == MatrixIndex(n, n);
    }
    forall i | (i, 0) in Arcs(n) && (i, n) in Arcs(n) ensures c[(i, 0)] == c[(i, n)] {
      assert MatrixIndex(n, 0) == MatrixIndex(n, n);
    }
  }

  /** With fewer than n rows, the lookup for arc (n, 0) reads row n - 1 and raises IndexError. */
  lemma MissingRowRaises(n: int, cm: Matrix)
    requires n >= 1 && |cm| < n
    ensures CostTable(Arcs(n), cm) == Err(IndexError)
  {
    ArcSet(n);
    var arcs := Arcs(n);
    assert (n, 0) in arcs;
    RowOutOfRange(arcs, cm, n);
  }

  lemma RowOutOfRange(arcs: seq<Arc>, cm: Matrix, i: int)
    requires exists j :: (i, j) in arcs
    requires i - 1 >= |cm|
    ensures CostTable(arcs, cm) == Err(IndexError)
  {
    var j :| (i, j) in arcs;
    var k :| 0 <= k < |arcs| && arcs[k] == (i, j);
    assert PyIndex(cm, i - 1).None?;
    assert ArcCost(cm, arcs[k]).None?;
    assert CostTable(arcs, cm).Err? && CostTable(arcs, cm).error.IndexError?;
  }

  /** The objective `sum(x[i, j] * c[i, j] for (i, j) in arcs)`, as its list of (arc, cost) terms. */
  function ObjectiveTerms(arcs: seq<Arc>, c: map<Arc, real>): (terms: seq<(Arc, real)>)
    requires forall a :: a in arcs ==> a in c
    ensures |terms| == |arcs|
    ensures forall k :: 0 <= k < |arcs| ==> terms[k].0 == arcs[k] && terms[k].1 == c[arcs[k]]
  {
    seq(|arcs|, k requires 0 <= k < |arcs| => (arcs[k], c[arcs[k]]))
  }
}
