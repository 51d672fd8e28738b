/** What the ConstraintList holds for the node sets N0 = 0..n and N = 1..n-1. */
module ConstraintFacts {
  import opened Sequences
  import opened Subsets
  import opened Network
  import opened Constraints

  lemma {:induction false} SubtourCutsAppend(a: seq<seq<int>>, b: seq<seq<int>>)
    ensures SubtourCuts(a + b) == SubtourCuts(a) + SubtourCuts(b)
    decreases |b|
  {
    if b == [] {
      assert a + b == a;
    } else {
      var front := b[..|b| - 1];
      assert (a + b)[..|a + b| - 1] == a + front;
      assert (a + b)[|a + b| - 1] == b[|b| - 1];
      SubtourCutsAppend(a, front);
    }
  }

  /** Candidates that all have r members give one cut each when r >= 2, and none otherwise. */
  lemma {:induction false} SubtourCutsUniform(candidates: seq<seq<int>>, r: nat)
    requires forall k :: 0 <= k < |candidates| ==> |candidates[k]| == r
    ensures |SubtourCuts(candidates)| == if r >= 2 then |candidates| else 0
  {
    if candidates != [] {
      SubtourCutsUniform(candidates[..|candidates| - 1], r);
    }
  }

  /** The subsets of size 2..m give as many cuts as the subsets of size 2..m-1, plus C(|s|, m). */
  lemma UpToSizeCutsStep(s: seq<int>, m: nat)
    requires m >= 2
    ensures |SubtourCuts(UpToSize(s, m))| == |SubtourCuts(UpToSize(s, m - 1))| + Choose(|s|, m)
    ensures SumChoose(|s|, m) == SumChoose(|s|, m - 1) + Choose(|s|, m)
  {
    var front, back := UpToSize(s, m - 1), Combinations(s, m);
    assert UpToSize(s, m) == front + back;
    SubtourCutsAppend(front, back);
    SubtourCutsUniform(back, m);
  }

  /** The subsets of size 0 and 1 give no cut. */
  lemma UpToSizeCutsOne(s: seq<int>)
    ensures |SubtourCuts(UpToSize(s, 1))| == 0
    ensures SumChoose(|s|, 1) == 1 + |s|
  {
    var front, back := UpToSize(s, 0), Combinations(s, 1);
    assert UpToSize(s, 1) == front + back;
    SubtourCutsAppend(front, back);
    SubtourCutsUniform(front, 0);
    SubtourCutsUniform(back, 1);
    ChooseOne(|s|);
  }

  /**
   * The subsets of size 0 and 1 (1 + |s| of them) give no cut; every other one gives one.
   * By induction on m; Dafny supplies the hypothesis for m - 1.
   */
  lemma UpToSizeCuts(s: seq<int>, m: nat)
    requires m >= 1
    ensures |SubtourCuts(UpToSize(s, m))| + 1 + |s| == SumChoose(|s|, m)
  {
    if m == 1 {
      UpToSizeCutsOne(s);
    } else {
      UpToSizeCutsStep(s, m);
    }
  }

  /** Dropping the first and last subset and the singletons leaves 2^|s| - 2 - |s| cuts. */
  lemma SubtourCutCount(s: seq<int>)
    requires |s| >= 2
    ensures |SubtourCuts(SubtourCandidates(s))| == Pow2(|s|) - 2 - |s|
  {
    var ps := Powerset(s);
    PowersetLength(s);
    PowersetEnds(s);
    UpToSizeCuts(s, |s|);
    SumChooseAll(|s|);
    assert |ps| >= 2;
    var middle := DropEnds(ps);
    assert ps == [ps[0]] + middle + [ps[|ps| - 1]];
    SubtourCutsAppend([ps[0]] + middle, [ps[|ps| - 1]]);
    SubtourCutsAppend([ps[0]], middle);
    assert [ps[0]][..0] == [];
    assert [ps[|ps| - 1]][..0] == [];
  }

  /** Every candidate with at least two members gives its cut, and every cut comes from one. */
  lemma {:induction false} SubtourCutsMembers(candidates: seq<seq<int>>)
    ensures forall S :: S in candidates && |S| >= 2 ==> SubtourCut(S) in SubtourCuts(candidates)
    ensures forall c :: c in SubtourCuts(candidates) ==>
      exists S :: S in candidates && |S| >= 2 && c == SubtourCut(S)
  {
    if candidates != [] {
      var front, last := candidates[..|candidates| - 1], candidates[|candidates| - 1];
      SubtourCutsMembers(front);
      assert candidates == front + [last];
      assert forall S :: S in front ==> S in candidates;
    }
  }

  /** Every candidate is a subset other than [] and the whole list (needs: no subset twice). */
  lemma CandidatesProper(s: seq<int>, S: seq<int>)
    requires StrictlyIncreasing(s) && S in SubtourCandidates(s)
    ensures Sublist(S, s) && 0 < |S| < |s|
  {
    var ps := Powerset(s);
    PowersetEnds(s);
    PowersetDistinct(s);
    PowersetSound(s);
    var last := |ps| - 1;
    var middle := SubtourCandidates(s);
    assert |ps| >= 2;
    assert middle == ps[1..last];
    var i :| 0 <= i < |middle| && middle[i] == S;
    assert S == ps[i + 1];
    assert ps[0] != ps[i + 1] && ps[i + 1] != ps[last];
    SublistElements(S, s);
    if |S| == |s| {
      SublistFull(S, s);
    }
  }

  /** Every subset other than [] and the whole list is a candidate. */
  lemma CandidatesComplete(s: seq<int>, S: seq<int>)
    requires Sublist(S, s) && 0 < |S| < |s|
    ensures S in SubtourCandidates(s)
  {
    var ps := Powerset(s);
    PowersetEnds(s);
    PowersetComplete(s, S);
    var last := |ps| - 1;
    var i :| 0 <= i < |ps| && ps[i] == S;
    assert 0 < i < last;
    assert SubtourCandidates(s)[i - 1] == S;
  }

  /** On a strictly increasing list, the candidates are exactly its subsets other than [] and itself. */
  lemma CandidatesExact(s: seq<int>)
    requires StrictlyIncreasing(s)
    ensures forall S :: S in SubtourCandidates(s) <==> Sublist(S, s) && 0 < |S| < |s|
  {
    forall S | S in SubtourCandidates(s) ensures Sublist(S, s) && 0 < |S| < |s| {
      CandidatesProper(s, S);
    }
    forall S | Sublist(S, s) && 0 < |S| < |s| ensures S in SubtourCandidates(s) {
      CandidatesComplete(s, S);
    }
  }

  /** The cut for a subset S of N0 sums the |S| * (|S| - 1) ordered pairs inside S, all of them arcs. */
  lemma SubtourCutShape(n: int, S: seq<int>)
    requires n >= 0 && Sublist(S, Nodes(n))
    ensures |SubtourCut(S).arcs| == |S| * (|S| - 1)
    ensures SubtourCut(S).sense == Le && SubtourCut(S).rhs == |S| - 1
    ensures forall a :: a in SubtourCut(S).arcs <==> a.0 in S && a.1 in S && a.0 != a.1
    ensures forall a :: a in SubtourCut(S).arcs ==> a in Arcs(n)
  {
    RangeMembers(0, n + 1);
    SublistIncreasing(S, Nodes(n));
    SublistElements(S, Nodes(n));
    DistinctPairsLength(S);
    ArcSet(n);
  }

  /**
   * Exactly the subsets S of N0 with 2 <= |S| <= n get a cut: 2^(n+1) - 2 - (n+1) cuts, none for
   * the empty set, the singletons or the whole node set.
   */
  lemma SubtourCutsExact(n: int)
    requires n >= 1
    ensures forall S :: Sublist(S, Nodes(n)) && 2 <= |S| <= n ==>
      SubtourCut(S) in SubtourCuts(SubtourCandidates(Nodes(n)))
    ensures forall c :: c in SubtourCuts(SubtourCandidates(Nodes(n))) ==>
      exists S :: Sublist(S, Nodes(n)) && 2 <= |S| <= n && c == SubtourCut(S)
    ensures |SubtourCuts(SubtourCandidates(Nodes(n)))| == Pow2(n + 1) - 2 - (n + 1)
  {
    NodeSets(n);
    CandidatesExact(Nodes(n));
    SubtourCutsMembers(SubtourCandidates(Nodes(n)));
    SubtourCutCount(Nodes(n));
  }

  /** Two sorted node sets of at least two nodes with the same cut are the same set. */
  lemma CutInjective(S: seq<int>, T: seq<int>)
    requires StrictlyIncreasing(S) && StrictlyIncreasing(T) && |S| >= 2 && |T| >= 2
    ensures SubtourCut(S) == SubtourCut(T) ==> S == T
  {
    if SubtourCut(S) == SubtourCut(T) {
      forall v | v in S ensures v in T {
        var w := if v == S[0] then S[1] else S[0];
        assert S[0] < S[1];
        assert (v, w) in DistinctPairs(S);
      }
      forall v | v in T ensures v in S {
        var w := if v == T[0] then T[1] else T[0];
        assert T[0] < T[1];
        assert (v, w) in DistinctPairs(T);
      }
      SameElementsIncreasing(S, T);
    }
  }

  /** Distinct sorted candidates give distinct cuts: the loop never adds the same cut twice. */
  lemma {:induction false} CutsDistinct(candidates: seq<seq<int>>)
    requires forall k :: 0 <= k < |candidates| ==> StrictlyIncreasing(candidates[k])
    requires forall p, q :: 0 <= p < q < |candidates| ==> candidates[p] != candidates[q]
    ensures forall p, q :: 0 <= p < q < |SubtourCuts(candidates)| ==>
      SubtourCuts(candidates)[p] != SubtourCuts(candidates)[q]
  {
    if candidates != [] {
      var front, last := candidates[..|candidates| - 1], candidates[|candidates| - 1];
      CutsDistinct(front);
      var cs := SubtourCuts(front);
      if |last| >= 2 {
        SubtourCutsMembers(front);
        forall p | 0 <= p < |cs| ensures cs[p] != SubtourCut(last) {
          assert cs[p] in cs;
          var S :| S in front && |S| >= 2 && cs[p] == SubtourCut(S);
          var i :| 0 <= i < |front| && front[i] == S;
          assert candidates[i] == S;
          CutInjective(S, last);
        }
      }
    }
  }

  /** No subtour cut appears twice in the ConstraintList. */
  lemma SubtourCutsDistinct(n: int)
    requires n >= 1
    ensures forall p, q :: 0 <= p < q < |SubtourCuts(SubtourCandidates(Nodes(n)))| ==>
      SubtourCuts(SubtourCandidates(Nodes(n)))[p] != SubtourCuts(SubtourCandidates(Nodes(n)))[q]
  {
    var ps := Powerset(Nodes(n));
    var candidates := SubtourCandidates(Nodes(n));
    NodeSets(n);
    PowersetEnds(Nodes(n));
    PowersetDistinct(Nodes(n));
    CandidatesExact(Nodes(n));
    assert |ps| >= 2 ==> candidates == ps[1..|ps| - 1];
    forall k | 0 <= k < |candidates| ensures StrictlyIncreasing(candidates[k]) {
      assert candidates[k] in candidates;
      SublistIncreasing(candidates[k], Nodes(n));
    }
    forall p, q | 0 <= p < q < |candidates| ensures candidates[p] != candidates[q] {
      assert candidates[p] == ps[p + 1] && candidates[q] == ps[q + 1];
    }
    CutsDistinct(candidates);
  }

  /**
   * 2 * (n - 1) degree constraints: for each customer j = 1..n-1 in turn, `== 1` over the n arcs
   * into j, then likewise over the n arcs out of each customer; none for node 0 or node n.
   */
  lemma DegreeConstraintsShape(n: int)
    requires n >= 1
    ensures |InDegreeConstraints(Customers(n), Nodes(n))| == n - 1
    ensures |OutDegreeConstraints(Customers(n), Nodes(n))| == n - 1
    ensures forall k :: 0 <= k < n - 1 ==>
      InDegreeConstraints(Customers(n), Nodes(n))[k] == InDegree(k + 1, Nodes(n)) &&
      OutDegreeConstraints(Customers(n), Nodes(n))[k] == OutDegree(k + 1, Nodes(n))
  {
    NodeSets(n);
  }

  /** Each degree constraint is `== 1` over n declared arcs, all into (or all out of) its customer. */
  lemma DegreeConstraintArcs(n: int)
    requires n >= 1
    ensures forall j :: 1 <= j < n ==>
      InDegree(j, Nodes(n)).sense == Eq && InDegree(j, Nodes(n)).rhs == 1 &&
      OutDegree(j, Nodes(n)).sense == Eq && OutDegree(j, Nodes(n)).rhs == 1 &&
      |InDegree(j, Nodes(n)).arcs| == n && |OutDegree(j, Nodes(n)).arcs| == n
    ensures forall j, a :: 1 <= j < n && a in InDegree(j, Nodes(n)).arcs ==> a in Arcs(n) && a.1 == j
    ensures forall i, a :: 1 <= i < n && a in OutDegree(i, Nodes(n)).arcs ==> a in Arcs(n) && a.0 == i
  {
    NodeSets(n);
    ArcSet(n);
    forall j | 1 <= j < n ensures |InArcs(j, Nodes(n))| == n && |OutArcs(j, Nodes(n))| == n {
      InArcsLength(j, Nodes(n));
      OutArcsLength(j, Nodes(n));
    }
  }

  /** Every variable a constraint mentions is one of the declared arcs x[i, j] of arc_IJ. */
  lemma EveryArcDeclared(n: int)
    requires n >= 1
    ensures forall c, a :: c in ConstraintList(Nodes(n), Customers(n)) && a in c.arcs ==> a in Arcs(n)
  {
    var nodes, customers := Nodes(n), Customers(n);
    var ins, outs := InDegreeConstraints(customers, nodes), OutDegreeConstraints(customers, nodes);
    var cuts := SubtourCuts(SubtourCandidates(nodes));
    assert ConstraintList(nodes, customers) == ins + outs + cuts;
    DegreeConstraintsShape(n);
    DegreeConstraintArcs(n);
    forall c: Constraint, a | c in ins + outs && a in c.arcs ensures a in Arcs(n) {
      if c in ins {
        var k :| 0 <= k < |ins| && ins[k] == c;
      } else {
        var k :| 0 <= k < |outs| && outs[k] == c;
      }
    }
    forall c: Constraint, a | c in cuts && a in c.arcs ensures a in Arcs(n) {
      CutArcDeclared(n, c, a);
    }
  }

  lemma CutArcDeclared(n: int, c: Constraint, a: Arc)
    requires n >= 1 && c in SubtourCuts(SubtourCandidates(Nodes(n))) && a in c.arcs
    ensures a in Arcs(n)
  {
    SubtourCutsMembers(SubtourCandidates(Nodes(n)));
    var S :| S in SubtourCandidates(Nodes(n)) && |S| >= 2 && c == SubtourCut(S);
    NodeSets(n);
    CandidatesProper(Nodes(n), S);
    SubtourCutShape(n, S);
  }
}
