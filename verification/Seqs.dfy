/** Sequences: no repetition, and sums over the elements. */
module Seqs {
  ghost predicate Distinct<T>(s: seq<T>) {
    forall i, j :: 0 <= i < j < |s| ==> s[i] != s[j]
  }

  ghost function Sum<T>(s: seq<T>, f: T -> nat): nat {
    if s == [] then 0 else Sum(s[..|s| - 1], f) + f(s[|s| - 1])
  }

  lemma {:induction false} SumUpdate<T>(s: seq<T>, f: T -> nat, i: nat, x: T)
    requires i < |s|
    ensures Sum(s[i := x], f) == Sum(s, f) - f(s[i]) + f(x)
  {
    var last := |s| - 1;
    if i == last {
      assert s[i := x][..last] == s[..last];
    } else {
      assert s[i := x][..last] == s[..last][i := x];
      SumUpdate(s[..last], f, i, x);
    }
  }

  lemma {:induction false} SumZeroIff<T>(s: seq<T>, f: T -> nat)
    ensures Sum(s, f) == 0 <==> forall i :: 0 <= i < |s| ==> f(s[i]) == 0
  {
    if s != [] {
      SumZeroIff(s[..|s| - 1], f);
      assert forall i :: 0 <= i < |s| - 1 ==> s[..|s| - 1][i] == s[i];
    }
  }

  lemma {:induction false} SumSame<T>(s: seq<T>, f: T -> nat, g: T -> nat)
    requires forall i :: 0 <= i < |s| ==> f(s[i]) == g(s[i])
    ensures Sum(s, f) == Sum(s, g)
  {
    if s != [] {
      SumSame(s[..|s| - 1], f, g);
    }
  }

  /** One sum is below another, and strictly so if it is at some element. */
  lemma {:induction false} SumBelow<T(!new)>(s: seq<T>, f: T -> nat, g: T -> nat)
    requires forall x :: f(x) <= g(x)
    ensures Sum(s, f) <= Sum(s, g)
    ensures (exists i :: 0 <= i < |s| && f(s[i]) < g(s[i])) ==> Sum(s, f) < Sum(s, g)
  {
    if s != [] {
      var last := |s| - 1;
      SumBelow(s[..last], f, g);
      if i :| 0 <= i < |s| && f(s[i]) < g(s[i]) {
        assert i < last ==> f(s[..last][i]) < g(s[..last][i]);
      }
    }
  }

  lemma {:induction false} SumBounds<T(!new)>(s: seq<T>, f: T -> nat)
    requires forall x :: f(x) <= 1
    ensures Sum(s, f) <= |s|
    ensures Sum(s, f) == |s| ==> forall i :: 0 <= i < |s| ==> f(s[i]) == 1
  {
    if s != [] {
      SumBounds(s[..|s| - 1], f);
      assert forall i :: 0 <= i < |s| - 1 ==> s[..|s| - 1][i] == s[i];
    }
  }
}
