module Identities {
  type Id = nat

  /** All identities below `n`. */
  function AllIds(n: nat): (r: set<Id>)
    ensures |r| == n
    ensures forall x: nat :: x in r <==> x < n
  {
    if n == 0 then {}
    else
      var r := AllIds(n - 1);
      assert n - 1 !in r;
      r + {n - 1}
  }

  predicate Differ(s: seq<Id>, i: int, j: int)
    requires 0 <= i < j < |s|
  {
    s[i] != s[j]
  }

  predicate Distinct(s: seq<Id>) {
    forall i, j :: 0 <= i < j < |s| ==> Differ(s, i, j)
  }

  lemma {:induction false} DistinctSnoc(s: seq<Id>, x: Id)
    requires Distinct(s) && x !in s
    ensures Distinct(s + [x])
  {
    forall i, j | 0 <= i < j < |s + [x]| ensures Differ(s + [x], i, j) {
      if j < |s| { assert Differ(s, i, j); }
    }
  }

  lemma {:induction false} DistinctInit(s: seq<Id>)
    requires Distinct(s) && |s| > 0
    ensures Distinct(s[..|s| - 1]) && s[|s| - 1] !in s[..|s| - 1]
  {
    var r, last := s[..|s| - 1], s[|s| - 1];
    forall i, j | 0 <= i < j < |r| ensures Differ(r, i, j) {
      assert Differ(s, i, j);
    }
    forall i | 0 <= i < |r| ensures r[i] != last {
      assert Differ(s, i, |s| - 1);
    }
  }

  lemma {:induction false} DistinctBound(s: seq<Id>, among: set<Id>)
    requires Distinct(s) && forall i :: 0 <= i < |s| ==> s[i] in among
    ensures |s| <= |among|
  {
    if |s| > 0 {
      var r, last := s[..|s| - 1], s[|s| - 1];
      DistinctInit(s);
      DistinctBound(r, among - {last});
    }
  }
}
