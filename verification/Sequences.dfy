/** What several parts of the model say of sequences. */
module Sequences {
  predicate Distinct<T(==)>(s: seq<T>) {
    forall i, j :: 0 <= i < j < |s| ==> s[i] != s[j]
  }

  function Sum<T>(s: seq<T>, of: T -> nat): nat {
    if s == [] then 0 else Sum(s[..|s| - 1], of) + of(s[|s| - 1])
  }

  lemma {:induction false} SumUpdate<T>(s: seq<T>, k: nat, x: T, of: T -> nat)
    requires k < |s|
    ensures Sum(s[k := x], of) + of(s[k]) == Sum(s, of) + of(x)
    decreases |s|
  {
    var n := |s| - 1;
    if k == n {
      assert s[k := x][..n] == s[..n];
    } else {
      assert s[k := x][..n] == s[..n][k := x];
      SumUpdate(s[..n], k, x, of);
    }
  }

  lemma {:induction false} SumMore<T>(s: seq<T>, x: T, of: T -> nat)
    ensures Sum(s + [x], of) == Sum(s, of) + of(x)
  {
    assert (s + [x])[..|s|] == s;
  }
}
