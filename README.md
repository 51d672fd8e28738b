# DFJ formulation of the travelling salesman problem, modelled in Dafny

This project models `TSP_DFJ_Formulation` from `TSP_DFJ_Pyomo.py`. That script builds the
Dantzig-Fulkerson-Johnson (DFJ) integer program for a TSP instance and hands it to a solver.
The model covers everything the script computes before the solver call, plus the `tourRepo` loop
that reads the answer back:

- the `powerset` helper, i.e. `itertools.combinations` chained by size;
- the index sets `N0 = 0..n` (the depot 0 and the nodes 1..n) and `N = 1..n-1` (the customers);
- the arc list `arc_IJ` of all ordered pairs of distinct nodes;
- the cost dictionary `c`, with Python's negative indexing: the depot 0 reads row and column
  `-1`, which is the last one; on an n by n matrix, as the driver supplies, that is the row and
  column of node n, so the depot shares its costs with node n;
- one objective term `x[i, j] * c[i, j]` per arc;
- the `ConstraintList`, in the order the three loops fill it: in-degree constraints, then
  out-degree constraints, then one subtour-elimination cut per candidate subset with at least
  two nodes;
- the `tourRepo` loop that reads the solver's values back.

The Pyomo model is represented as plain data (`Formulation.Model`). Each constraint is the list
of arcs whose variables it sums, a sense (`==` or `<=`) and a right-hand side. The solver's
answer is a parameter: a map from arcs to values.

Modules:

- `Wrappers`: `Option` and `Result`.
- `Sequences`: sublists, meaning subsets that keep the original order.
- `Subsets`: `combinations` and `powerset`.
- `Network`: the node and arc lists.
- `Costs`: the cost dictionary and the objective terms.
- `Constraints`: the constraint list as functions, plus the three loops as methods proved
  against those functions.
- `ConstraintFacts`: what the list contains and how long it is.
- `Formulation`: the whole construction, as a function and as a step-by-step method.
- `Extraction`: the `tourRepo` loop.

For four nodes (`n = 3`), the subtour loop adds C(4,2) + C(4,3) = 10 cuts, which is
2^4 - 2 - 4 as the general count says; `Formulation.FourNodeCutCount` proves it.

The code does not check the shape of the cost matrix, and the model follows the code. A matrix
that is too small leads to an `IndexError` from the cost lookup. A larger one is read without
complaint, and then the depot reads the matrix's last row and column, not those of node n.

## Model

| member | source | states |
|---|---|---|
| Subsets.Combinations | TSP_DFJ_Pyomo.py:18 | `combinations(s, r)` yields C(len(s), r) tuples, each of exactly r elements |
| Subsets.CombinationsSound | TSP_DFJ_Pyomo.py:18 | every tuple from `combinations(s, r)` keeps its elements in their order in `s` (it is a sublist) |
| Subsets.CombinationsComplete | TSP_DFJ_Pyomo.py:18 | every r-element sublist of `s` is produced by `combinations(s, r)` |
| Subsets.CombinationsSorted | TSP_DFJ_Pyomo.py:18 | on a strictly increasing input, the tuples come out in strictly increasing lexicographic order (itertools' emission order) |
| Subsets.CombinationsOfAll | TSP_DFJ_Pyomo.py:18 | `combinations(s, len(s))` is the single tuple `s` |
| Subsets.UpToSize | TSP_DFJ_Pyomo.py:18 | the chain of `combinations(s, r)` for r = 0..m holds only subsets of at most m elements |
| Subsets.UpToSizeLength | TSP_DFJ_Pyomo.py:18 | that chain has C(len(s), 0) + ... + C(len(s), m) entries |
| Subsets.SumChooseAll | TSP_DFJ_Pyomo.py:18 | the sizes 0..len(s) together give 2^len(s) subsets |
| Subsets.Powerset | TSP_DFJ_Pyomo.py:16-18 | definition: the chain `UpToSize(s, len(s))`; characterised by PowersetLength, PowersetEnds, PowersetSound, PowersetComplete, PowersetGrouped and PowersetDistinct |
| Subsets.PowersetLength | TSP_DFJ_Pyomo.py:16-18 | `powerset(s)` has exactly 2^len(s) entries |
| Subsets.PowersetEnds | TSP_DFJ_Pyomo.py:15-18 | the first entry of `powerset(s)` is the empty tuple and the last is `s` itself |
| Subsets.PowersetSound | TSP_DFJ_Pyomo.py:16-18 | every entry of `powerset(s)` is a sublist of `s` |
| Subsets.PowersetComplete | TSP_DFJ_Pyomo.py:16-18 | every sublist of `s` appears in `powerset(s)` |
| Subsets.PowersetGrouped | TSP_DFJ_Pyomo.py:15-18 | the entries come in order of non-decreasing size |
| Subsets.PowersetDistinct | TSP_DFJ_Pyomo.py:16-18 | on a strictly increasing input, no subset appears twice |
| Network.Range | TSP_DFJ_Pyomo.py:24-25 | `range(lo, hi)` has max(hi - lo, 0) entries and its k-th entry is lo + k |
| Network.Nodes | TSP_DFJ_Pyomo.py:24 | definition: `range(0, n + 1)`; characterised by NodeSets (via Range) |
| Network.Customers | TSP_DFJ_Pyomo.py:25 | definition: `range(1, n)`; characterised by NodeSets (via Range) |
| Network.NodeSets | TSP_DFJ_Pyomo.py:24-25 | N0 has n + 1 nodes 0..n and N has the n - 1 customers 1..n-1, both increasing; 0 and n are not customers |
| Network.OutArcs | TSP_DFJ_Pyomo.py:49 | the arcs summed for node i are exactly the pairs (i, j) with j in N0 and j != i |
| Network.InArcs | TSP_DFJ_Pyomo.py:45 | the arcs summed for node j are exactly the pairs (i, j) with i in N0 and i != j |
| Network.PairsFrom | TSP_DFJ_Pyomo.py:26 | the nested comprehension holds exactly the pairs (i, j) with i from the outer list, j from the inner one and i != j |
| Network.OutArcsLength | TSP_DFJ_Pyomo.py:49 | the out-arcs of a node of N0 number len(N0) - 1 |
| Network.InArcsLength | TSP_DFJ_Pyomo.py:45 | the in-arcs of a node of N0 number len(N0) - 1 |
| Network.DistinctPairs | TSP_DFJ_Pyomo.py:26 | definition: PairsFrom(s, s), so its membership is PairsFrom's; length in DistinctPairsLength |
| Network.Arcs | TSP_DFJ_Pyomo.py:26 | definition: `arc_IJ` = DistinctPairs(N0); characterised by ArcSet |
| Network.DistinctPairsLength | TSP_DFJ_Pyomo.py:26 | a list of distinct nodes gives len * (len - 1) ordered pairs |
| Network.PairsFromSorted | TSP_DFJ_Pyomo.py:26 | the comprehension emits its pairs in lexicographic order |
| Network.ArcSet | TSP_DFJ_Pyomo.py:26 | `arc_IJ` holds exactly the pairs of distinct nodes in 0..n, (n + 1) * n of them, sorted and without repeats |
| Costs.PyIndex | TSP_DFJ_Pyomo.py:27 | Python indexing succeeds exactly for -len <= k < len, and then yields `s[k]` for k >= 0 and `s[len + k]` for k < 0 |
| Costs.ArcCost | TSP_DFJ_Pyomo.py:27 | definition: the two Python lookups `costMatrix[i-1][j-1]`, through PyIndex; on a square matrix characterised by SquareLookup |
| Costs.SquareLookup | TSP_DFJ_Pyomo.py:27 | on an n by n matrix, the lookup for one arc between nodes 0..n succeeds and reads row MatrixIndex(i) and column MatrixIndex(j) |
| Costs.CostTable | TSP_DFJ_Pyomo.py:27 | the dict comprehension succeeds exactly when every lookup `costMatrix[i-1][j-1]` is in range; its keys are exactly the arcs and each value is that lookup; otherwise it raises IndexError |
| Costs.SquareLookups | TSP_DFJ_Pyomo.py:27 | on an n by n matrix, every lookup for nodes in 0..n succeeds, with node v reading index v - 1 and the depot reading n - 1 |
| Costs.SquareCosts | TSP_DFJ_Pyomo.py:27 | on an n by n matrix, `c` is built and c[i, j] is the entry at row i - 1 and column j - 1, with the depot on index n - 1 |
| Costs.DepotAliasesLastNode | TSP_DFJ_Pyomo.py:27 | on an n by n matrix, the depot 0 and node n read the same row and column: c[0, j] == c[n, j] and c[i, 0] == c[i, n] |
| Costs.MissingRowRaises | TSP_DFJ_Pyomo.py:27 | with fewer than n rows, building `c` raises IndexError |
| Costs.ObjectiveTerms | TSP_DFJ_Pyomo.py:36-38 | definition of the objective's terms, one per arc in arc order; their coefficients in terms of the cost matrix are stated by ObjectiveCoefficients |
| Constraints.InDegree | TSP_DFJ_Pyomo.py:45 | definition: the variables of the arcs into node j from the other nodes of N0 sum to 1; characterised by DegreeConstraintArcs |
| Constraints.OutDegree | TSP_DFJ_Pyomo.py:49 | definition: the variables of the arcs out of node i to the other nodes of N0 sum to 1; characterised by DegreeConstraintArcs |
| Constraints.SubtourCut | TSP_DFJ_Pyomo.py:55 | definition: the cut for S; characterised by SubtourCutShape |
| Constraints.InDegreeConstraints | TSP_DFJ_Pyomo.py:44-45 | loop a) adds one constraint per customer, the k-th for the k-th customer |
| Constraints.OutDegreeConstraints | TSP_DFJ_Pyomo.py:48-49 | loop b) adds one constraint per customer, the k-th for the k-th customer |
| Constraints.SubtourCandidates | TSP_DFJ_Pyomo.py:52 | definition: `list(powerset(N0))[1:-1]`; characterised by CandidatesExact |
| Constraints.DropEnds | TSP_DFJ_Pyomo.py:52 | `[1:-1]` keeps everything between the first and the last entry, and nothing for fewer than two entries |
| Constraints.SubtourCuts | TSP_DFJ_Pyomo.py:53-55 | loop c) adds at most one cut per candidate |
| Constraints.AddInDegree | TSP_DFJ_Pyomo.py:44-45 | the loop appends exactly the in-degree constraints, in customer order |
| Constraints.AddOutDegree | TSP_DFJ_Pyomo.py:48-49 | the loop appends exactly the out-degree constraints, in customer order |
| Constraints.AddSubtourCuts | TSP_DFJ_Pyomo.py:53-55 | the loop appends exactly the cuts of the candidates with two or more nodes, in candidate order |
| Constraints.ConstraintList | TSP_DFJ_Pyomo.py:41-55 | definition: in-degree, then out-degree constraints, then cuts; its content is stated by DegreeConstraintsShape, SubtourCutsExact and EveryArcDeclared, and AddConstraints is proved to build it |
| Constraints.AddConstraints | TSP_DFJ_Pyomo.py:41-55 | the three loops together produce the whole ConstraintList, in order |
| ConstraintFacts.SubtourCutsAppend | TSP_DFJ_Pyomo.py:53-55 | the cuts of two candidate lists one after the other are the cuts of the first followed by those of the second |
| ConstraintFacts.SubtourCutsMembers | TSP_DFJ_Pyomo.py:53-55 | a candidate gets a cut if and only if it has at least two nodes |
| ConstraintFacts.UpToSizeCuts | TSP_DFJ_Pyomo.py:52-55 | the subsets of size 0 and 1 give no cut and every larger subset gives one |
| ConstraintFacts.SubtourCutCount | TSP_DFJ_Pyomo.py:52-55 | a node list of length m gives 2^m - 2 - m cuts |
| ConstraintFacts.CandidatesExact | TSP_DFJ_Pyomo.py:52 | `SubtourSet` is exactly the subsets of N0 other than the empty set and N0 itself |
| ConstraintFacts.SubtourCutShape | TSP_DFJ_Pyomo.py:55 | the cut for S sums the len(S) * (len(S) - 1) arcs with both ends in S, all declared, and is `<= len(S) - 1` |
| ConstraintFacts.SubtourCutsExact | TSP_DFJ_Pyomo.py:52-55 | the cuts are exactly those of the subsets S of N0 with 2 <= len(S) <= n, 2^(n+1) - 2 - (n+1) of them |
| ConstraintFacts.CutInjective | TSP_DFJ_Pyomo.py:52-55 | two sorted node sets of at least two nodes with the same cut are the same set |
| ConstraintFacts.CutsDistinct | TSP_DFJ_Pyomo.py:52-55 | distinct sorted candidates give a cut list without repeats |
| ConstraintFacts.SubtourCutsDistinct | TSP_DFJ_Pyomo.py:52-55 | no subtour cut appears twice in the ConstraintList |
| ConstraintFacts.DegreeConstraintsShape | TSP_DFJ_Pyomo.py:43-49 | there are n - 1 in-degree and n - 1 out-degree constraints, the k-th for customer k + 1; none for nodes 0 and n |
| ConstraintFacts.DegreeConstraintArcs | TSP_DFJ_Pyomo.py:44-49 | each degree constraint, in-degree and out-degree, is `== 1` over n declared arcs, all into (or all out of) its customer |
| ConstraintFacts.EveryArcDeclared | TSP_DFJ_Pyomo.py:33-55 | every variable a constraint mentions is one of the declared `x[i, j]` |
| Formulation.Formulation | TSP_DFJ_Pyomo.py:21-55 | definition: the model, or the IndexError of the cost lookup; characterised by FormulationShape and ObjectiveCoefficients, and Formulate is proved to build it |
| Formulation.Formulate | TSP_DFJ_Pyomo.py:21-55 | the step-by-step construction gives the model of `Formulation`, or the IndexError from the cost lookup |
| Formulation.FormulationShape | TSP_DFJ_Pyomo.py:21-55 | on an n by n matrix the model is always built, with (n + 1) * n variables and objective terms and 2(n - 1) + 2^(n+1) - 2 - (n+1) constraints, all over declared variables |
| Formulation.ObjectiveCoefficients | TSP_DFJ_Pyomo.py:27-38 | on an n by n matrix, the objective has one term per arc of `arc_IJ`, in order, and the coefficient of x[i, j] is `costMatrix[i-1][j-1]` (index n - 1 for the depot) |
| Formulation.FourNodeCutCount | TSP_DFJ_Pyomo.py:52-55 | four nodes give 10 subtour cuts |
| Extraction.ActiveArcs | TSP_DFJ_Pyomo.py:64-67 | an (arc, value) pair is reported if and only if the arc is a variable and its value is > 0 |
| Extraction.ActiveArcsInOrder | TSP_DFJ_Pyomo.py:65-67 | the reported arcs come in variable order, each at most as often as it occurs there |
| Extraction.TourRepo | TSP_DFJ_Pyomo.py:64-67 | the loop succeeds if and only if every variable has a value, and then returns exactly the active arcs; otherwise it stops at the first variable without a value |

## Left out

- Pyomo's objects (`ConcreteModel`, `Var`, `Objective`, `ConstraintList`) are represented as plain data.
- The `Binary` domain of the variables and the `minimize` sense are not represented, because
  nothing in the model depends on them.
- `model.pprint()`, `print` and the solver call (lines 58-60 and 68) are left out because they
  are I/O and external code.
- The objective value, the gap and the runtime read back from the solver (lines 63 and 69-70)
  are left out because they only exist once a solver has run.
- The returned results object (line 72) is left out for the same reason.
- The driver (the numpy cost matrix literal and `n = len(costMatrix)`) is not part of this
  model. The lemmas instead take any n >= 1 with an n by n matrix, as the driver supplies.
- Costs are `real`, not floating point, so rounding is not modelled.
- The solver's values are a map from arcs to reals given as a parameter. An arc without a value
  stands for Pyomo's `None`. Comparing `None > 0` raises in Python; `Extraction.TourRepo`
  reports it as `Unassigned` for the first such arc.
- `Extraction.TourRepo` iterates `model.x` in the order of `arc_IJ`, the order in which Pyomo
  stores the index set.
- `Subsets.CombinationsSorted`, `Subsets.PowersetDistinct` and `ConstraintFacts.CandidatesExact`
  are stated for strictly increasing inputs, which N0 is.
- `powerset` takes any iterable. It is modelled on a list, which is what the script passes (N0).
- Constraints.SubtourCuts: its own contract is only an upper bound on the count. The exact
  membership and count are in `ConstraintFacts.SubtourCutsMembers` and
  `ConstraintFacts.SubtourCutCount`.
- The code does not validate the dimensions of the cost matrix, so neither does the model.
  Only the `IndexError` that an out-of-range lookup raises is modelled (`Costs.MissingRowRaises`).
