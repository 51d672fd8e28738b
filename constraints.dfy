/** The ConstraintList of the DFJ model: degree constraints, then subtour-elimination cuts. */
module Constraints {
  import opened Sequences
  import opened Subsets
  import opened Network

  /** The comparison of a linear constraint: `==` or `<=`. */
  datatype Sense = Eq | Le

  /** `sum(x[a] for a in arcs) <sense> rhs`, one entry of the ConstraintList. */
  datatype Constraint = Constraint(arcs: seq<Arc>, sense: Sense, rhs: int)

  /** `sum([x[i, j] for i in nodes if i != j]) == 1`: node j is entered exactly once. */
  function InDegree(j: int, nodes: seq<int>): Constraint {
    Constraint(InArcs(j, nodes), Eq, 1)
  }

  /** `sum([x[i, j] for j in nodes if i != j]) == 1`: node i is left exactly once. */
  function OutDegree(i: int, nodes: seq<int>): Constraint {
    Constraint(OutArcs(i, nodes), Eq, 1)
  }

  /** `sum([x[i, j] for i in S for j in S if i != j]) <= len(S) - 1`. */
  function SubtourCut(S: seq<int>): Constraint {
    Constraint(DistinctPairs(S), Le, |S| - 1)
  }

  /** What the loop `for j in N` adds: one in-degree constraint per customer, in order. */
  function InDegreeConstraints(customers: seq<int>, nodes: seq<int>): (cs: seq<Constraint>)
    ensures |cs| == |customers|
    ensures forall k :: 0 <= k < |customers| ==> cs[k] == InDegree(customers[k], nodes)
  {
    if customers == [] then []
    else InDegreeConstraints(customers[..|customers| - 1], nodes) + [InDegree(customers[|customers| - 1], nodes)]
  }

  /** What the loop `for i in N` adds: one out-degree constraint per customer, in order. */
  function OutDegreeConstraints(customers: seq<int>, nodes: seq<int>): (cs: seq<Constraint>)
    ensures |cs| == |customers|
    ensures forall k :: 0 <= k < |customers| ==> cs[k] == OutDegree(customers[k], nodes)
  {
    if customers == [] then []
    else OutDegreeConstraints(customers[..|customers| - 1], nodes) + [OutDegree(customers[|customers| - 1], nodes)]
  }

  /** Python's `s[1:-1]`: everything but the first and the last entry. */
  function DropEnds<T>(s: seq<T>): (r: seq<T>)
    ensures |s| >= 2 ==> s == [s[0]] + r + [s[|s| - 1]]
    ensures |s| < 2 ==> r == []
  {
    if |s| < 2 then [] else s[1..|s| - 1]
  }

  /** `SubtourSet = list(powerset(N0))[1:-1]`. */
  function SubtourCandidates(nodes: seq<int>): seq<seq<int>> {
    DropEnds(Powerset(nodes))
  }

  /** What the loop `for S in SubtourSet: if len(S) >= 2: ...` adds, in candidate order. */
  function SubtourCuts(candidates: seq<seq<int>>): (cs: seq<Constraint>)
    ensures |cs| <= |candidates|
  {
    if candidates == [] then []
    else
      var last := candidates[|candidates| - 1];
      SubtourCuts(candidates[..|candidates| - 1]) + (if |last| >= 2 then [SubtourCut(last)] else [])
  }

  /** The whole ConstraintList, in the order the script adds its entries. */
  function ConstraintList(nodes: seq<int>, customers: seq<int>): seq<Constraint> {
    InDegreeConstraints(customers, nodes) + OutDegreeConstraints(customers, nodes)
      + SubtourCuts(SubtourCandidates(nodes))
  }

  /** Loop a): `for j in N: model.constraints.add(...)` appends one in-degree constraint per customer. */
  method AddInDegree(cs0: seq<Constraint>, customers: seq<int>, nodes: seq<int>) returns (cs: seq<Constraint>)
    ensures cs == cs0 + InDegreeConstraints(customers, nodes)
  {
    cs := cs0;
    for k := 0 to |customers|
      invariant cs == cs0 + InDegreeConstraints(customers[..k], nodes)
    {
      assert customers[..k + 1][..k] == customers[..k];
      cs := cs + [InDegree(customers[k], nodes)];
    }
    assert customers[..|customers|] == customers;
  }

  /** Loop b): `for i in N: model.constraints.add(...)` appends one out-degree constraint per customer. */
  method AddOutDegree(cs0: seq<Constraint>, customers: seq<int>, nodes: seq<int>) returns (cs: seq<Constraint>)
    ensures cs == cs0 + OutDegreeConstraints(customers, nodes)
  {
    cs := cs0;
    for k := 0 to |customers|
      invariant cs == cs0 + OutDegreeConstraints(customers[..k], nodes)
    {
      assert customers[..k + 1][..k] == customers[..k];
      cs := cs + [OutDegree(customers[k], nodes)];
    }
    assert customers[..|customers|] == customers;
  }

  /** Loop c): `for S in SubtourSet: if len(S) >= 2: model.constraints.add(...)`. */
  method AddSubtourCuts(cs0: seq<Constraint>, subtourSet: seq<seq<int>>) returns (cs: seq<Constraint>)
    ensures cs == cs0 + SubtourCuts(subtourSet)
  {
    cs := cs0;
    for k := 0 to |subtourSet|
      invariant cs == cs0 + SubtourCuts(subtourSet[..k])
    {
      var S := subtourSet[k];
      assert subtourSet[..k + 1][..k] == subtourSet[..k];
      if |S| >= 2 {
        cs := cs + [SubtourCut(S)];
      }
    }
    assert subtourSet[..|subtourSet|] == subtourSet;
  }

  /** Section 5 of the formulation: `model.constraints`, filled by the three loops in turn. */
  method AddConstraints(nodes: seq<int>, customers: seq<int>) returns (cs: seq<Constraint>)
    ensures cs == ConstraintList(nodes, customers)
  {
    cs := AddInDegree([], customers, nodes);
    cs := AddOutDegree(cs, customers, nodes);
    var subtourSet := SubtourCandidates(nodes);
    cs := AddSubtourCuts(cs, subtourSet);
  }
}
