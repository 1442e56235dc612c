/** Notions that several components share. */
module Basics {

  predicate Distinct(s: seq<int>) {
    forall i, j :: 0 <= i < j < |s| ==> s[i] != s[j]
  }

  lemma CardSubset<T>(a: set<T>, b: set<T>)
    requires a <= b
    ensures |a| <= |b|
  {
    assert b == a + (b - a);
  }

  function Elems(s: seq<int>): set<int> {
    set i | 0 <= i < |s| :: s[i]
  }

  /** The most distinct elements that come before an element of s. */
  function Peak(s: seq<int>): int
    decreases |s|
  {
    if s == [] then 0
    else
      var p, n := Peak(s[..|s| - 1]), |Elems(s[..|s| - 1])|;
      if p < n then n else p
  }

  lemma ElemsAdd(s: seq<int>, x: int)
    ensures Elems(s + [x]) == Elems(s) + {x}
    ensures Peak(s + [x]) == if Peak(s) < |Elems(s)| then |Elems(s)| else Peak(s)
  {
    assert (s + [x])[..|s|] == s;
    forall y | y in Elems(s) ensures y in Elems(s + [x]) {
      var i :| 0 <= i < |s| && s[i] == y;
      assert (s + [x])[i] == y;
    }
    assert (s + [x])[|s|] == x;
  }

  lemma {:induction false} PeakAt(s: seq<int>, n: nat)
    requires n < |s|
    ensures |Elems(s[..n])| <= Peak(s)
    decreases |s|
  {
    var last := |s| - 1;
    if n == last {
    } else {
      PeakAt(s[..last], n);
      assert s[..last][..n] == s[..n];
    }
  }
}
