/** Unordered containers are walked in some order: any list of their elements, each once. */
module Listing {
  predicate Distinct<T(==)>(q: seq<T>) { forall i, j :: 0 <= i < j < |q| ==> q[i] != q[j] }

  ghost predicate Lists<T(!new)>(q: seq<T>, s: set<T>) { Distinct(q) && forall x :: x in q <==> x in s }

  ghost function SomeList<T(!new)>(s: set<T>): (q: seq<T>)
    ensures Lists(q, s)
  {
    if s == {} then [] else
      var x :| x in s;
      var q := SomeList(s - {x});
      [x] + q
  }

  lemma {:induction false} ListSize<T(!new)>(q: seq<T>, s: set<T>)
    requires Lists(q, s)
    ensures |q| == |s|
    decreases |q|
  {
    if q == [] {
      forall x ensures x !in s { assert x !in q; }
    } else {
      var n := |q| - 1;
      assert q[n] in q && q == q[..n] + [q[n]];
      forall x ensures x in q[..n] <==> x in s - {q[n]} {
        assert x in q <==> x in q[..n] || x == q[n];
      }
      ListSize(q[..n], s - {q[n]});
    }
  }
}
