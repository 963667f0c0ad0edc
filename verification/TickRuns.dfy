/** Runs of backticks, and the last of each. */
module TickRuns {
  /** The first position from `i` on, but before `end`, that is not a backtick. */
  function RunEnd(source: string, i: nat, end: nat): (j: nat)
    requires i <= end <= |source|
    ensures i <= j <= end
    ensures forall k | i <= k < j :: source[k] == '`'
    ensures j < end ==> source[j] != '`'
    decreases end - i
  {
    if i < end && source[i] == '`' then RunEnd(source, i + 1, end) else i
  }

  /** No run of backticks crosses from before `p` to `p`. */
  predicate Boundary(source: string, p: nat) {
    p == 0 || p >= |source| || source[p - 1] != '`' || source[p] != '`'
  }

  /** A whole run of exactly `width` backticks starts at `i`. */
  predicate Run(source: string, i: nat, width: nat) {
    width > 0 && i + width <= |source| && Boundary(source, i) && RunEnd(source, i, |source|) == i + width
  }

  /** What a search forward from `p` would find. */
  ghost predicate LaterRun(source: string, p: nat, width: nat) {
    exists j: nat :: p < j && Run(source, j, width)
  }

  /** For each width, the start of its last run. */
  ghost predicate IsLastRuns(source: string, runs: map<nat, nat>) {
    && (forall w | w in runs :: Run(source, runs[w], w))
    && (forall i: nat, w: nat | Run(source, i, w) :: w in runs && i <= runs[w])
  }

  lemma RunsDoNotOverlap(source: string, i: nat, j: nat, v: nat, w: nat)
    requires Run(source, i, v) && Run(source, j, w) && i < j
    ensures i + v < j
  {
    assert source[j] == '`' && source[j - 1] != '`';
  }

  method LastTickRuns(source: string) returns (runs: map<nat, nat>)
    ensures IsLastRuns(source, runs)
  {
    runs := map[];
    var offset := 0;
    while offset < |source|
      invariant offset <= |source| && Boundary(source, offset)
      invariant forall w | w in runs :: Run(source, runs[w], w) && runs[w] < offset
      invariant forall i: nat, w: nat | Run(source, i, w) && i < offset :: w in runs && i <= runs[w]
    {
      if source[offset] != '`' {
        offset := offset + 1;
        continue;
      }
      var start := offset;
      while offset < |source| && source[offset] == '`'
        invariant start <= offset <= |source| && RunEnd(source, offset, |source|) == RunEnd(source, start, |source|)
      {
        offset := offset + 1;
      }
      assert Run(source, start, offset - start);
      forall i: nat, w: nat | Run(source, i, w) && i < offset ensures i <= start && (i == start ==> w == offset - start) {
        if i > start { RunsDoNotOverlap(source, start, i, offset - start, w); }
      }
      runs := runs[offset - start := start];
    }
  }

  /** The index answers exactly what the forward search would. */
  lemma IndexAgrees(source: string, runs: map<nat, nat>, p: nat, width: nat)
    requires IsLastRuns(source, runs)
    ensures width in runs && runs[width] > p <==> LaterRun(source, p, width)
  {
    if LaterRun(source, p, width) {
      var j :| p < j && Run(source, j, width);
    }
  }
}
