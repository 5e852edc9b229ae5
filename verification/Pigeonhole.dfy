/** Counting arguments: a list without repetitions is no longer than what its elements are drawn from. */
module Pigeonhole {

  predicate NoRepeats<T(==)>(s: seq<T>) {
    forall i, j :: 0 <= i < j < |s| ==> s[i] != s[j]
  }

  function Elements<T>(s: seq<T>): set<T> {
    set x | x in s
  }

  /** The numbers below `n`. */
  function Below(n: nat): (r: set<nat>)
    ensures forall v: nat :: v in r <==> v < n
    ensures |r| == n
  {
    if n == 0 then {} else Below(n - 1) + {n - 1}
  }

  lemma {:induction false} SubsetSize<T>(a: set<T>, b: set<T>)
    requires a <= b
    ensures |a| <= |b|
    ensures |a| == |b| ==> a == b
  {
    if a != {} {
      var x :| x in a;
      SubsetSize(a - {x}, b - {x});
    }
  }

  lemma {:induction false} ElementsCount<T>(s: seq<T>)
    requires NoRepeats(s)
    ensures |Elements(s)| == |s|
  {
    if s == [] {
    } else {
      var n := |s| - 1;
      ElementsCount(s[..n]);
      assert Elements(s) == Elements(s[..n]) + {s[n]};
    }
  }

  /** A list without repetitions drawn from as many elements as it is long contains all of them. */
  lemma Covers<T>(s: seq<T>, all: set<T>)
    requires NoRepeats(s) && (forall x :: x in s ==> x in all) && |s| >= |all|
    ensures forall x :: x in all ==> x in s
  {
    ElementsCount(s);
    SubsetSize(Elements(s), all);
  }
}
