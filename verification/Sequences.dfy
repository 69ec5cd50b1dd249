/** Sequences without repetition, and the sets of their elements. */
module Sequences {
  predicate Distinct<T(==)>(xs: seq<T>)
  {
    forall i, j :: 0 <= i < j < |xs| ==> xs[i] != xs[j]
  }

  /** `new Set(xs)` */
  function Elements<T(==)>(xs: seq<T>): set<T>
  {
    set x | x in xs
  }

  lemma DistinctCons<T>(x: T, xs: seq<T>)
    ensures Distinct([x] + xs) <==> Distinct(xs) && x !in xs
  {
    var all := [x] + xs;
    if Distinct(all) {
      forall i, j | 0 <= i < j < |xs| ensures xs[i] != xs[j] {
        assert all[i + 1] != all[j + 1];
      }
      forall j | 0 <= j < |xs| ensures xs[j] != x {
        assert all[0] != all[j + 1];
      }
    }
  }

  lemma DistinctSnoc<T>(xs: seq<T>, x: T)
    requires Distinct(xs) && x !in Elements(xs)
    ensures Distinct(xs + [x]) && Elements(xs + [x]) == Elements(xs) + {x}
  {
    forall i | 0 <= i < |xs| ensures xs[i] in Elements(xs) {
    }
  }

  /** A set has as many members as its sequence has entries exactly when none repeats. */
  lemma {:induction false} ElementsDistinct<T>(xs: seq<T>)
    ensures |Elements(xs)| <= |xs|
    ensures |Elements(xs)| == |xs| <==> Distinct(xs)
  {
    if xs != [] {
      var head, rest := xs[0], xs[1..];
      ElementsDistinct(rest);
      assert xs == [head] + rest;
      DistinctCons(head, rest);
      if head in rest {
        assert Elements(xs) == Elements(rest);
      } else {
        assert Elements(xs) == {head} + Elements(rest);
      }
    }
  }
}
