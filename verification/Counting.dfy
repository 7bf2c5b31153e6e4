/** Sums over a sequence, and what one update does to them. */
module Counting {

  function Sum<T>(s: seq<T>, f: T -> nat): nat {
    if s == [] then 0 else Sum(s[..|s| - 1], f) + f(s[|s| - 1])
  }

  lemma {:induction false} SumUpdate<T>(s: seq<T>, f: T -> nat, i: nat, x: T)
    requires i < |s|
    ensures Sum(s[i := x], f) == Sum(s, f) - f(s[i]) + f(x)
    ensures Sum(s, f) >= f(s[i])
  {
    var k := |s| - 1;
    if i == k {
      assert s[i := x][..k] == s[..k];
    } else {
      assert s[i := x][..k] == s[..k][i := x];
      SumUpdate(s[..k], f, i, x);
    }
  }

  lemma {:induction false} SumZero<T>(s: seq<T>, f: T -> nat)
    ensures Sum(s, f) == 0 <==> forall i | 0 <= i < |s| :: f(s[i]) == 0
  {
    if s != [] {
      SumZero(s[..|s| - 1], f);
      if Sum(s, f) == 0 {
        forall i | 0 <= i < |s| ensures f(s[i]) == 0 {
          if i < |s| - 1 { assert s[i] == s[..|s| - 1][i]; }
        }
      }
    }
  }

  lemma {:induction false} SumFull<T>(s: seq<T>, f: T -> nat)
    requires forall i | 0 <= i < |s| :: f(s[i]) <= 1
    ensures Sum(s, f) <= |s|
    ensures Sum(s, f) == |s| <==> forall i | 0 <= i < |s| :: f(s[i]) == 1
  {
    if s != [] {
      var front := s[..|s| - 1];
      SumFull(front, f);
      assert forall i | 0 <= i < |front| :: front[i] == s[i];
    }
  }

  lemma SumSnoc<T>(s: seq<T>, f: T -> nat, x: T)
    ensures Sum(s + [x], f) == Sum(s, f) + f(x)
  {
    assert (s + [x])[..|s|] == s;
  }

  lemma {:induction false} SumCons<T>(s: seq<T>, f: T -> nat)
    requires s != []
    ensures Sum(s, f) == f(s[0]) + Sum(s[1..], f)
  {
    if |s| > 1 {
      var k := |s| - 1;
      SumCons(s[..k], f);
      assert s[1..][..k - 1] == s[..k][1..];
    }
  }
}
