/** The subset generator: `itertools.combinations` and the `powerset` recipe built on it. */
module Subsets {
  import opened Sequences

  /** Binomial coefficient, by Pascal's rule. */
  function Choose(n: nat, r: nat): nat {
    if r == 0 then 1
    else if n == 0 then 0
    else Choose(n - 1, r - 1) + Choose(n - 1, r)
  }

  function Pow2(k: nat): nat {
    if k == 0 then 1 else 2 * Pow2(k - 1)
  }

  /** Choose(k, 0) + ... + Choose(k, m). */
  function SumChoose(k: nat, m: nat): nat {
    if m == 0 then Choose(k, 0) else SumChoose(k, m - 1) + Choose(k, m)
  }

  /** Every list in `cs`, with `x` put in front. */
  function Prepend<T>(x: T, cs: seq<seq<T>>): seq<seq<T>> {
    seq(|cs|, k requires 0 <= k < |cs| => [x] + cs[k])
  }

  /**
   * `combinations(s, r)`: the r-element sublists of `s`, in lexicographic order of the positions
   * they are taken from (all those that keep s[0] first, then those taken from s[1..]).
   */
  function Combinations<T(==)>(s: seq<T>, r: nat): (cs: seq<seq<T>>)
    ensures |cs| == Choose(|s|, r)
    ensures forall k :: 0 <= k < |cs| ==> |cs[k]| == r
    decreases |s|
  {
    if r == 0 then [[]]
    else if s == [] then []
    else
      var withFirst := Prepend(s[0], Combinations(s[1..], r - 1));
      var without := Combinations(s[1..], r);
      withFirst + without
  }

  /** The subsets of sizes 0..m, size by size: the first m + 1 groups of the chain. */
  function UpToSize<T(==)>(s: seq<T>, m: nat): (ps: seq<seq<T>>)
    ensures forall k :: 0 <= k < |ps| ==> |ps[k]| <= m
  {
    if m == 0 then Combinations(s, 0) else UpToSize(s, m - 1) + Combinations(s, m)
  }

  /** `powerset(s)`: `chain.from_iterable(combinations(s, r) for r in range(len(s) + 1))`. */
  function Powerset<T(==)>(s: seq<T>): (ps: seq<seq<T>>)
  {
    UpToSize(s, |s|)
  }

  lemma {:induction false} ChooseBeyond(n: nat, r: nat)
    requires r > n
    ensures Choose(n, r) == 0
  {
    if n > 0 {
      ChooseBeyond(n - 1, r - 1);
      ChooseBeyond(n - 1, r);
    }
  }

  lemma {:induction false} ChooseOne(n: nat)
    ensures Choose(n, 1) == n
  {
    if n > 0 {
      ChooseOne(n - 1);
    }
  }

  /** Pascal's rule summed over the sizes 0..m. */
  lemma {:induction false} SumChoosePascal(k: nat, m: nat)
    requires m >= 1
    ensures SumChoose(k + 1, m) == SumChoose(k, m) + SumChoose(k, m - 1)
  {
    if m > 1 {
      SumChoosePascal(k, m - 1);
    }
  }

  /** The binomial theorem at x = y = 1. */
  lemma {:induction false} SumChooseAll(k: nat)
    ensures SumChoose(k, k) == Pow2(k)
  {
    if k > 0 {
      SumChooseAll(k - 1);
      SumChoosePascal(k - 1, k);
      ChooseBeyond(k - 1, k);
    }
  }

  lemma {:induction false} UpToSizeLength<T>(s: seq<T>, m: nat)
    ensures |UpToSize(s, m)| == SumChoose(|s|, m)
  {
    if m > 0 {
      UpToSizeLength(s, m - 1);
    }
  }

  /** The only |s|-element sublist of `s` is `s` itself. */
  lemma {:induction false} CombinationsOfAll<T>(s: seq<T>)
    ensures Combinations(s, |s|) == [s]
  {
    if s != [] {
      CombinationsOfAll(s[1..]);
      ChooseBeyond(|s| - 1, |s|);
      assert [s[0]] + s[1..] == s;
    }
  }

  /** Each combination keeps its elements in their original relative order. */
  lemma {:induction false} CombinationsSound<T>(s: seq<T>, r: nat)
    ensures forall k :: 0 <= k < |Combinations(s, r)| ==> Sublist(Combinations(s, r)[k], s)
    decreases |s|
  {
    if r > 0 && s != [] {
      CombinationsSound(s[1..], r - 1);
      CombinationsSound(s[1..], r);
      var tails, without := Combinations(s[1..], r - 1), Combinations(s[1..], r);
      var cs := Prepend(s[0], tails) + without;
      assert Combinations(s, r) == cs;
      forall k | 0 <= k < |cs| ensures Sublist(cs[k], s) {
        if k < |tails| {
          var c := cs[k];
          assert c == [s[0]] + tails[k];
          assert c[1..] == tails[k];
          assert Sublist(tails[k], s[1..]);
          assert c[0] == s[0];
        } else {
          assert cs[k] == without[k - |tails|];
        }
      }
    }
  }

  /** Exhaustive: every r-element sublist of `s` is produced by `combinations(s, r)`. */
  lemma {:induction false} CombinationsComplete<T>(s: seq<T>, c: seq<T>)
    requires Sublist(c, s)
    ensures c in Combinations(s, |c|)
    decreases |s|
  {
    if c != [] {
      if c[0] == s[0] && Sublist(c[1..], s[1..]) {
        CombinationsComplete(s[1..], c[1..]);
        var tails := Combinations(s[1..], |c| - 1);
        var k :| 0 <= k < |tails| && tails[k] == c[1..];
        assert Prepend(s[0], tails)[k] == c;
      } else {
        CombinationsComplete(s[1..], c);
      }
    }
  }

  /** `powerset(s)` has exactly 2^|s| entries. */
  lemma PowersetLength<T>(s: seq<T>)
    ensures |Powerset(s)| == Pow2(|s|)
  {
    UpToSizeLength(s, |s|);
    SumChooseAll(|s|);
  }

  lemma {:induction false} UpToSizeFirst<T>(s: seq<T>, m: nat)
    ensures |UpToSize(s, m)| >= 1 && UpToSize(s, m)[0] == []
  {
    if m > 0 {
      UpToSizeFirst(s, m - 1);
    }
  }

  /** The first subset is the empty tuple and the last is the whole list. */
  lemma PowersetEnds<T>(s: seq<T>)
    ensures |Powerset(s)| >= 1
    ensures Powerset(s)[0] == []
    ensures Powerset(s)[|Powerset(s)| - 1] == s
  {
    UpToSizeFirst(s, |s|);
    CombinationsOfAll(s);
  }

  /** Exhaustive: every sublist of `s` (every subset, in its original order) is produced. */
  lemma PowersetComplete<T>(s: seq<T>, c: seq<T>)
    requires Sublist(c, s)
    ensures c in Powerset(s)
  {
    CombinationsComplete(s, c);
    SublistElements(c, s);
    UpToSizeContains(s, |s|, |c|);
  }

  lemma {:induction false} UpToSizeContains<T>(s: seq<T>, m: nat, r: nat)
    requires r <= m
    ensures forall c :: c in Combinations(s, r) ==> c in UpToSize(s, m)
  {
    if r < m {
      UpToSizeContains(s, m - 1, r);
    }
  }

  /** Grouped by size: the subsets come in order of non-decreasing size. */
  lemma {:induction false} UpToSizeGrouped<T>(s: seq<T>, m: nat)
    ensures forall i, j :: 0 <= i <= j < |UpToSize(s, m)| ==> |UpToSize(s, m)[i]| <= |UpToSize(s, m)[j]|
  {
    if m > 0 {
      UpToSizeGrouped(s, m - 1);
      var front, back := UpToSize(s, m - 1), Combinations(s, m);
      var ps := front + back;
      forall i, j | 0 <= i <= j < |ps| ensures |ps[i]| <= |ps[j]| {
        if j >= |front| {
          assert ps[j] == back[j - |front|];
          if i < |front| {
            assert ps[i] in front;
          } else {
            assert ps[i] == back[i - |front|];
          }
        }
      }
    }
  }

  /** Each subset keeps its elements in their original relative order. */
  lemma {:induction false} UpToSizeSound<T>(s: seq<T>, m: nat)
    ensures forall k :: 0 <= k < |UpToSize(s, m)| ==> Sublist(UpToSize(s, m)[k], s)
  {
    CombinationsSound(s, m);
    if m > 0 {
      UpToSizeSound(s, m - 1);
      var front, back := UpToSize(s, m - 1), Combinations(s, m);
      assert forall k :: |front| <= k < |front| + |back| ==> (front + back)[k] == back[k - |front|];
    }
  }

  lemma PowersetSound<T>(s: seq<T>)
    ensures forall k :: 0 <= k < |Powerset(s)| ==> Sublist(Powerset(s)[k], s)
  {
    UpToSizeSound(s, |s|);
  }

  lemma PowersetGrouped<T>(s: seq<T>)
    ensures forall i, j :: 0 <= i <= j < |Powerset(s)| ==> |Powerset(s)[i]| <= |Powerset(s)[j]|
  {
    UpToSizeGrouped(s, |s|);
  }

  /** Strict lexicographic order on lists of the same length. */
  predicate LexLess(a: seq<int>, b: seq<int>) {
    a != [] && b != [] && (a[0] < b[0] || (a[0] == b[0] && LexLess(a[1..], b[1..])))
  }

  lemma {:induction false} LexLessDistinct(a: seq<int>, b: seq<int>)
    requires LexLess(a, b)
    ensures a != b
  {
    if a[0] == b[0] {
      LexLessDistinct(a[1..], b[1..]);
    }
  }

  /** On a strictly increasing list, `combinations` comes out in strictly increasing lexicographic order. */
  lemma {:induction false} CombinationsSorted(s: seq<int>, r: nat)
    requires StrictlyIncreasing(s)
    ensures forall i, j :: 0 <= i < j < |Combinations(s, r)| ==> LexLess(Combinations(s, r)[i], Combinations(s, r)[j])
    decreases |s|
  {
    if r > 0 && s != [] {
      var tails, without := Combinations(s[1..], r - 1), Combinations(s[1..], r);
      CombinationsSorted(s[1..], r - 1);
      CombinationsSorted(s[1..], r);
      var withFirst := Prepend(s[0], tails);
      var cs := withFirst + without;
      forall i, j | 0 <= i < j < |cs| ensures LexLess(cs[i], cs[j]) {
        if j < |withFirst| {
          assert cs[i] == [s[0]] + tails[i] && cs[j] == [s[0]] + tails[j];
          assert LexLess(tails[i], tails[j]);
          assert cs[i][1..] == tails[i] && cs[j][1..] == tails[j];
        } else if i >= |withFirst| {
          assert cs[i] == without[i - |withFirst|] && cs[j] == without[j - |withFirst|];
        } else {
          var c := without[j - |withFirst|];
          assert cs[j] == c;
          CombinationsSound(s[1..], r);
          SublistElements(c, s[1..]);
          assert c[0] in s[1..];
          assert cs[i][0] == s[0];
        }
      }
    }
  }

  /** On a strictly increasing list, no subset is produced twice. */
  lemma {:induction false} UpToSizeDistinct(s: seq<int>, m: nat)
    requires StrictlyIncreasing(s)
    ensures forall i, j :: 0 <= i < j < |UpToSize(s, m)| ==> UpToSize(s, m)[i] != UpToSize(s, m)[j]
  {
    var ps := UpToSize(s, m);
    if m == 0 {
      assert |ps| == 1;
    } else {
      UpToSizeDistinct(s, m - 1);
      CombinationsSorted(s, m);
      var front, back := UpToSize(s, m - 1), Combinations(s, m);
      forall i, j | 0 <= i < j < |ps| ensures ps[i] != ps[j] {
        if j < |front| {
          assert ps[i] == front[i] && ps[j] == front[j];
        } else if i >= |front| {
          assert ps[i] == back[i - |front|] && ps[j] == back[j - |front|];
          LexLessDistinct(ps[i], ps[j]);
        } else {
          assert ps[i] in front && ps[j] in back;
        }
      }
    }
  }

  lemma PowersetDistinct(s: seq<int>)
    requires StrictlyIncreasing(s)
    ensures forall i, j :: 0 <= i < j < |Powerset(s)| ==> Powerset(s)[i] != Powerset(s)[j]
  {
    UpToSizeDistinct(s, |s|);
  }
}
