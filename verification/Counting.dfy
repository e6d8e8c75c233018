/** Counting the elements of a sequence that satisfy a predicate. */
module Counting {

  function Count<X>(s: seq<X>, p: X -> bool): (n: nat)
    ensures n <= |s|
  {
    if s == [] then 0 else Count(s[..|s| - 1], p) + (if p(s[|s| - 1]) then 1 else 0)
  }

  lemma CountAppend<X>(s: seq<X>, x: X, p: X -> bool)
    ensures Count(s + [x], p) == Count(s, p) + (if p(x) then 1 else 0)
  {
    assert (s + [x])[..|s|] == s;
  }

  lemma {:induction false} CountUpdate<X>(s: seq<X>, i: nat, x: X, p: X -> bool)
    requires i < |s|
    ensures Count(s[i := x], p) == Count(s, p) - (if p(s[i]) then 1 else 0) + (if p(x) then 1 else 0)
  {
    var n := |s| - 1;
    if i == n {
      assert s[i := x][..n] == s[..n];
    } else {
      CountUpdate(s[..n], i, x, p);
      assert s[i := x][..n] == s[..n][i := x];
    }
  }

  lemma {:induction false} CountZero<X>(s: seq<X>, p: X -> bool)
    ensures Count(s, p) == 0 <==> forall i :: 0 <= i < |s| ==> !p(s[i])
  {
    if s != [] {
      var t := s[..|s| - 1];
      CountZero(t, p);
      assert forall i :: 0 <= i < |t| ==> t[i] == s[i];
      assert forall i :: 0 <= i < |s| ==> i == |s| - 1 || s[i] == t[i];
    }
  }
}
