/** Small shared vocabulary: an option type, and counting facts about finite sets
    that several models need (Dafny has no built-in cardinality reasoning for images). */
module Prelude {

  datatype Option<+T> = None | Some(value: T)

  lemma SubsetSize<T>(a: set<T>, b: set<T>)
    requires a <= b
    ensures |a| <= |b|
    ensures |a| == |b| ==> a == b
  {
    assert b == a + (b - a);
    assert |b| == |a| + |b - a|;
  }

  predicate Distinct<T(==)>(s: seq<T>) {
    forall i, j :: 0 <= i < j < |s| ==> s[i] != s[j]
  }

  lemma DistinctCons<T>(a: T, rest: seq<T>)
    requires Distinct(rest) && a !in rest
    ensures Distinct([a] + rest)
  {
  }

  lemma DistinctSnoc<T>(front: seq<T>, a: T)
    ensures Distinct(front + [a]) <==> Distinct(front) && a !in front
  {
    var s := front + [a];
    if Distinct(s) {
      assert forall i :: 0 <= i < |front| ==> s[i] == front[i];
      assert s[|front|] == a;
    }
  }

  /** A finite set can be listed. */
  lemma {:induction false} Enumerate<T>(ids: set<T>) returns (order: seq<T>)
    ensures forall a :: a in order <==> a in ids
    ensures Distinct(order) && |order| == |ids|
    decreases |ids|
  {
    if ids == {} {
      order := [];
    } else {
      var a :| a in ids;
      var rest := Enumerate(ids - {a});
      DistinctCons(a, rest);
      order := [a] + rest;
    }
  }
}
