/** What several of the models share. */
module Basics {

  datatype Option<+T> = None | Some(value: T)

  ghost predicate Distinct(s: seq<nat>) {
    forall i, j :: 0 <= i < j < |s| ==> s[i] != s[j]
  }

  predicate Below(s: seq<nat>, n: nat) {
    forall k :: 0 <= k < |s| ==> s[k] < n
  }

  lemma MulMonotone(p: int, q: int, s: nat)
    requires p < q
    ensures p * s + s <= q * s
  {
    assert q * s - p * s == (q - p) * s;
    assert (q - p) * s == (q - p - 1) * s + s;
    assert (q - p - 1) * s >= 0;
  }
}
