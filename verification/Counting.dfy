/** Cardinalities of sets and of sequences without repetition. */
module Counting {
  function Elems(s: seq<nat>): set<nat> {
    set b | b in s
  }

  ghost predicate NoDup(s: seq<nat>) {
    forall i, j :: 0 <= i < j < |s| ==> s[i] != s[j]
  }

  lemma {:induction false} SubsetCard<T>(a: set<T>, b: set<T>)
    requires a <= b
    ensures |a| <= |b|
  {
    if a != {} {
      var x :| x in a;
      SubsetCard(a - {x}, b - {x});
    }
  }

  lemma {:induction false} ElemsCard(s: seq<nat>)
    ensures |Elems(s)| <= |s|
  {
    if s == [] {
      assert Elems(s) == {};
    } else {
      var n := |s| - 1;
      ElemsCard(s[..n]);
      assert s == s[..n] + [s[n]];
      assert Elems(s) == Elems(s[..n]) + {s[n]};
    }
  }

  lemma {:induction false} DistinctCard(s: seq<nat>, a: set<nat>)
    requires (forall k :: 0 <= k < |s| ==> s[k] in a) && NoDup(s)
    ensures |s| <= |a|
  {
    if |s| > 0 {
      var n := |s| - 1;
      DistinctCard(s[..n], a - {s[n]});
    }
  }
}
