/** Facts about sequences shared by the powerset, the node sets and the tour extraction. */
module Sequences {

  /** `c` is obtained from `s` by deleting elements; what is kept stays in its original order. */
  predicate Sublist<T(==)>(c: seq<T>, s: seq<T>)
    decreases |s|
  {
    if c == [] then true
    else if s == [] then false
    else (c[0] == s[0] && Sublist(c[1..], s[1..])) || Sublist(c, s[1..])
  }

  predicate StrictlyIncreasing(s: seq<int>) {
    forall a, b :: 0 <= a < b < |s| ==> s[a] < s[b]
  }

  /** Everything a sublist holds comes from the list it was taken from. */
  lemma {:induction false} SublistElements<T>(c: seq<T>, s: seq<T>)
    requires Sublist(c, s)
    ensures |c| <= |s|
    ensures forall e :: e in c ==> e in s
    decreases |s|
  {
    if c != [] {
      if c[0] == s[0] && Sublist(c[1..], s[1..]) {
        SublistElements(c[1..], s[1..]);
        assert forall e :: e in c ==> e == c[0] || e in c[1..];
        assert forall e :: e in s[1..] ==> e in s;
      } else {
        SublistElements(c, s[1..]);
        assert forall e :: e in s[1..] ==> e in s;
      }
    }
  }

  /** A sublist of a strictly increasing list is strictly increasing. */
  lemma {:induction false} SublistIncreasing(c: seq<int>, s: seq<int>)
    requires Sublist(c, s) && StrictlyIncreasing(s)
    ensures StrictlyIncreasing(c)
    decreases |s|
  {
    if c != [] {
      if c[0] == s[0] && Sublist(c[1..], s[1..]) {
        SublistIncreasing(c[1..], s[1..]);
        SublistElements(c[1..], s[1..]);
        forall b | 0 < b < |c| ensures c[0] < c[b] {
          assert c[b] in c[1..];
          var k :| 0 <= k < |s[1..]| && s[1..][k] == c[b];
          assert s[k + 1] == c[b];
        }
      } else {
        SublistIncreasing(c, s[1..]);
      }
    }
  }

  /** A sublist as long as the list is the list itself. */
  lemma {:induction false} SublistFull<T>(c: seq<T>, s: seq<T>)
    requires Sublist(c, s) && |c| == |s|
    ensures c == s
    decreases |s|
  {
    if c != [] {
      if c[0] == s[0] && Sublist(c[1..], s[1..]) {
        SublistFull(c[1..], s[1..]);
        assert c == [c[0]] + c[1..];
      } else {
        SublistElements(c, s[1..]);
      }
    }
  }

  /** The tail of a strictly increasing list holds everything in it except its head. */
  lemma TailMembers(a: seq<int>)
    requires StrictlyIncreasing(a) && a != []
    ensures forall x :: x in a[1..] <==> x in a && x != a[0]
  {
    forall x | x in a[1..] ensures x in a && x != a[0] {
      var p :| 0 <= p < |a[1..]| && a[1..][p] == x;
      assert a[0] < a[p + 1];
    }
    assert a == [a[0]] + a[1..];
  }

  /** Two strictly increasing lists with the same members are the same list. */
  lemma {:induction false} SameElementsIncreasing(a: seq<int>, b: seq<int>)
    requires StrictlyIncreasing(a) && StrictlyIncreasing(b)
    requires forall x :: x in a <==> x in b
    ensures a == b
    decreases |a|
  {
    assert |a| > 0 ==> a[0] in a;
    assert |b| > 0 ==> b[0] in b;
    if a != [] && b != [] {
      var i :| 0 <= i < |b| && b[i] == a[0];
      var j :| 0 <= j < |a| && a[j] == b[0];
      assert a[0] <= a[j] && b[0] <= b[i];
      TailMembers(a);
      TailMembers(b);
      SameElementsIncreasing(a[1..], b[1..]);
      assert a == [a[0]] + a[1..] && b == [b[0]] + b[1..];
    }
  }
}
