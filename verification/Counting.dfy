/** Counting distinct positions. */
module Counting {
  /** Distinct numbers below `n` are at most `n` many. */
  lemma {:induction false} DistinctFit(s: seq<nat>, n: nat)
    requires (forall i, j | 0 <= i < j < |s| :: s[i] != s[j]) && forall i | 0 <= i < |s| :: s[i] < n
    ensures |s| <= n
    decreases n
  {
    if s == [] { return; }
    assert s[0] < n;
    if n - 1 in s {
      var k :| 0 <= k < |s| && s[k] == n - 1;
      DistinctFit(s[..k] + s[k + 1..], n - 1);
    } else {
      forall i | 0 <= i < |s| ensures s[i] < n - 1 { assert s[i] in s; }
      DistinctFit(s, n - 1);
    }
  }
}
