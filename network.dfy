/** The index sets of the formulation: nodes, customers and arcs. */
module Network {
  import opened Sequences

  /** A directed arc (i, j): the index of one decision variable x[i, j]. */
  type Arc = (int, int)

  /** `list(range(lo, hi))`; empty when hi <= lo. */
  function Range(lo: int, hi: int): (r: seq<int>)
    ensures |r| == if lo < hi then hi - lo else 0
    ensures forall k :: 0 <= k < |r| ==> r[k] == lo + k
    decreases hi - lo
  {
    if lo >= hi then [] else [lo] + Range(lo + 1, hi)
  }

  /** `N0 = [i for i in range(0, n + 1)]`: the depot 0 and the nodes 1..n. */
  function Nodes(n: int): seq<int> {
    Range(0, n + 1)
  }

  /** `N = [i for i in range(1, n)]`: the customers. */
  function Customers(n: int): seq<int> {
    Range(1, n)
  }

  /** `[(i, j) for j in s if i != j]`: the arcs out of `i` into `s`. */
  function OutArcs(i: int, s: seq<int>): (r: seq<Arc>)
    ensures forall a :: a in r <==> a.0 == i && a.1 in s && a.1 != i
  {
    if s == [] then []
    else (if s[0] != i then [(i, s[0])] else []) + OutArcs(i, s[1..])
  }

  /** `[(i, j) for i in s if i != j]`: the arcs from `s` into `j`. */
  function InArcs(j: int, s: seq<int>): (r: seq<Arc>)
    ensures forall a :: a in r <==> a.1 == j && a.0 in s && a.0 != j
  {
    if s == [] then []
    else (if s[0] != j then [(s[0], j)] else []) + InArcs(j, s[1..])
  }

  /** `[(i, j) for i in heads for j in s if i != j]`. */
  function PairsFrom(heads: seq<int>, s: seq<int>): (r: seq<Arc>)
    ensures forall a :: a in r <==> a.0 in heads && a.1 in s && a.0 != a.1
  {
    if heads == [] then [] else OutArcs(heads[0], s) + PairsFrom(heads[1..], s)
  }

  /** `[(i, j) for i in s for j in s if i != j]`: every ordered pair of distinct members of `s`. */
  function DistinctPairs(s: seq<int>): seq<Arc> {
    PairsFrom(s, s)
  }

  /** `arc_IJ`: every ordered pair of distinct nodes of N0. */
  function Arcs(n: int): seq<Arc> {
    DistinctPairs(Nodes(n))
  }

  /** N0 is 0..n and N is 1..n-1: the customers are the nodes other than 0 and n. */
  lemma NodeSets(n: int)
    requires n >= 1
    ensures |Nodes(n)| == n + 1 && |Customers(n)| == n - 1
    ensures StrictlyIncreasing(Nodes(n)) && StrictlyIncreasing(Customers(n))
    ensures forall v :: v in Nodes(n) <==> 0 <= v <= n
    ensures forall v :: v in Customers(n) <==> 1 <= v < n
    ensures forall v :: v in Customers(n) ==> v in Nodes(n)
    ensures 0 !in Customers(n) && n !in Customers(n)
  {
    RangeMembers(0, n + 1);
    RangeMembers(1, n);
  }

  lemma RangeMembers(lo: int, hi: int)
    ensures StrictlyIncreasing(Range(lo, hi))
    ensures forall v :: v in Range(lo, hi) <==> lo <= v < hi
  {
    var r := Range(lo, hi);
    forall v | lo <= v < hi ensures v in r {
      assert r[v - lo] == v;
    }
  }

  /** Leaving out one member of a strictly increasing list leaves |s| - 1 arcs. */
  lemma {:induction false} OutArcsLength(i: int, s: seq<int>)
    requires StrictlyIncreasing(s)
    ensures |OutArcs(i, s)| == if i in s then |s| - 1 else |s|
  {
    if s != [] {
      OutArcsLength(i, s[1..]);
      assert s == [s[0]] + s[1..];
      if s[0] == i {
        assert i !in s[1..];
      }
    }
  }

  lemma {:induction false} InArcsLength(j: int, s: seq<int>)
    requires StrictlyIncreasing(s)
    ensures |InArcs(j, s)| == if j in s then |s| - 1 else |s|
  {
    if s != [] {
      InArcsLength(j, s[1..]);
      assert s == [s[0]] + s[1..];
      if s[0] == j {
        assert j !in s[1..];
      }
    }
  }

  lemma {:induction false} PairsFromLength(heads: seq<int>, s: seq<int>)
    requires StrictlyIncreasing(s) && |s| >= 1
    requires forall k :: 0 <= k < |heads| ==> heads[k] in s
    ensures |PairsFrom(heads, s)| == |heads| * (|s| - 1)
  {
    if heads != [] {
      var w := |s| - 1;
      assert PairsFrom(heads, s) == OutArcs(heads[0], s) + PairsFrom(heads[1..], s);
      assert heads[0] in s;
      OutArcsLength(heads[0], s);
      PairsFromLength(heads[1..], s);
      MulStep(|heads|, w);
    }
  }

  lemma MulStep(h: int, w: int)
    ensures w + (h - 1) * w == h * w
  {
  }

  /** On distinct members (a strictly increasing list), there are |s| * (|s| - 1) ordered pairs. */
  lemma DistinctPairsLength(s: seq<int>)
    requires StrictlyIncreasing(s)
    ensures |DistinctPairs(s)| == |s| * (|s| - 1)
  {
    if s != [] {
      assert forall k :: 0 <= k < |s| ==> s[k] in s;
      PairsFromLength(s, s);
    }
  }

  /** Strict lexicographic order on arcs. */
  predicate ArcLess(a: Arc, b: Arc) {
    a.0 < b.0 || (a.0 == b.0 && a.1 < b.1)
  }

  predicate ArcsSorted(r: seq<Arc>) {
    forall p, q :: 0 <= p < q < |r| ==> ArcLess(r[p], r[q])
  }

  lemma {:induction false} OutArcsSorted(i: int, s: seq<int>)
    requires StrictlyIncreasing(s)
    ensures ArcsSorted(OutArcs(i, s))
  {
    if s != [] {
      OutArcsSorted(i, s[1..]);
      var rest := OutArcs(i, s[1..]);
      forall q | 0 <= q < |rest| ensures s[0] < rest[q].1 {
        assert rest[q] in rest;
        var k :| 0 <= k < |s[1..]| && s[1..][k] == rest[q].1;
        assert s[k + 1] == rest[q].1;
      }
    }
  }

  lemma {:induction false} PairsFromSorted(heads: seq<int>, s: seq<int>)
    requires StrictlyIncreasing(heads) && StrictlyIncreasing(s)
    ensures ArcsSorted(PairsFrom(heads, s))
  {
    if heads != [] {
      OutArcsSorted(heads[0], s);
      PairsFromSorted(heads[1..], s);
      var first, rest := OutArcs(heads[0], s), PairsFrom(heads[1..], s);
      var r := first + rest;
      forall p, q | 0 <= p < q < |r| ensures ArcLess(r[p], r[q]) {
        if q >= |first| && p < |first| {
          assert r[p] in first;
          assert r[q] == rest[q - |first|] && r[q] in rest;
          var k :| 0 <= k < |heads[1..]| && heads[1..][k] == r[q].0;
          assert heads[k + 1] == r[q].0;
        } else if q >= |first| {
          assert r[p] == rest[p - |first|] && r[q] == rest[q - |first|];
        }
      }
    }
  }

  /**
   * `arc_IJ` holds every ordered pair of distinct nodes and nothing else, n0 * (n0 - 1) of them
   * for n0 = n + 1 nodes, in strictly increasing lexicographic order (so without duplicates).
   */
  lemma ArcSet(n: int)
    requires n >= 0
    ensures forall a :: a in Arcs(n) <==> 0 <= a.0 <= n && 0 <= a.1 <= n && a.0 != a.1
    ensures |Arcs(n)| == (n + 1) * n
    ensures ArcsSorted(Arcs(n))
    ensures forall p, q :: 0 <= p < q < |Arcs(n)| ==> Arcs(n)[p] != Arcs(n)[q]
  {
    RangeMembers(0, n + 1);
    DistinctPairsLength(Nodes(n));
    PairsFromSorted(Nodes(n), Nodes(n));
  }
}
