/** Section 7 of TSP_DFJ_Formulation: `tourRepo`, the arcs the solver switched on. */
module Extraction {
  import opened Wrappers
  import opened Sequences
  import opened Network

  /** The solver left x[arc] without a value; Python then raises on `None > 0`. */
  datatype Error = Unassigned(arc: Arc)

  /** `[(a, value[a]) for a in arcs if value[a] > 0]`, in arc order. */
  function ActiveArcs(arcs: seq<Arc>, value: map<Arc, real>): (r: seq<(Arc, real)>)
    requires forall a :: a in arcs ==> a in value
    ensures forall e :: e in r <==> e.0 in arcs && e.1 == value[e.0] && e.1 > 0.0
  {
    if arcs == [] then []
    else
      var a := arcs[0];
      (if value[a] > 0.0 then [(a, value[a])] else []) + ActiveArcs(arcs[1..], value)
  }

  /** The arcs of an (arc, value) list. */
  function ArcsOf(r: seq<(Arc, real)>): seq<Arc> {
    seq(|r|, k requires 0 <= k < |r| => r[k].0)
  }

  lemma {:induction false} ActiveArcsAppend(front: seq<Arc>, a: Arc, value: map<Arc, real>)
    requires forall b :: b in front ==> b in value
    requires a in value
    ensures forall b :: b in front + [a] ==> b in value
    ensures ActiveArcs(front + [a], value) ==
      ActiveArcs(front, value) + (if value[a] > 0.0 then [(a, value[a])] else [])
  {
    if front == [] {
      assert [a][1..] == [];
    } else {
      var x, rest := front[0], front[1..];
      assert front == [x] + rest;
      assert front + [a] == [x] + (rest + [a]);
      ActiveArcsAppend(rest, a, value);
      assert ActiveArcs(front + [a], value) ==
        (if value[x] > 0.0 then [(x, value[x])] else []) + ActiveArcs(rest + [a], value);
    }
  }

  /** The selected arcs come in the order the variables are iterated, each at most as often as there. */
  lemma {:induction false} ActiveArcsInOrder(arcs: seq<Arc>, value: map<Arc, real>)
    requires forall a :: a in arcs ==> a in value
    ensures Sublist(ArcsOf(ActiveArcs(arcs, value)), arcs)
  {
    if arcs != [] {
      ActiveArcsInOrder(arcs[1..], value);
      var rest := ArcsOf(ActiveArcs(arcs[1..], value));
      if value[arcs[0]] > 0.0 {
        assert ArcsOf(ActiveArcs(arcs, value)) == [arcs[0]] + rest;
      } else {
        assert ArcsOf(ActiveArcs(arcs, value)) == rest;
      }
    }
  }

  /**
   * The `tourRepo` loop: every variable, in arc order, whose value is > 0, paired with that value.
   * The first variable found without a value stops it with an error.
   */
  method TourRepo(arcs: seq<Arc>, value: map<Arc, real>) returns (r: Result<seq<(Arc, real)>, Error>)
    ensures r.Ok? <==> forall a :: a in arcs ==> a in value
    ensures r.Ok? ==> r.value == ActiveArcs(arcs, value)
    ensures r.Err? ==>
      exists k :: 0 <= k < |arcs| && r.error == Unassigned(arcs[k]) && arcs[k] !in value &&
        (forall t :: 0 <= t < k ==> arcs[t] in value)
  {
    var tourRepo := [];
    for k := 0 to |arcs|
      invariant forall t :: 0 <= t < k ==> arcs[t] in value
      invariant tourRepo == ActiveArcs(arcs[..k], value)
    {
      var a := arcs[k];
      if a !in value {
        return Err(Unassigned(a));
      }
      assert arcs[..k + 1] == arcs[..k] + [a];
      ActiveArcsAppend(arcs[..k], a, value);
      if value[a] > 0.0 {
        tourRepo := tourRepo + [(a, value[a])];
      }
    }
    assert arcs[..|arcs|] == arcs;
    return Ok(tourRepo);
  }
}
