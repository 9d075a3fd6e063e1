/**
  The player rotation drawn for every lyric line: a list of 20 player indices
  in which no index appears three times in a row. Parts of the line take
  their player from consecutive entries of the rotation.
 */
module Rotation {

  /** Length of every rotation, `maxLength`. */
  const RotationLength: nat := 20

  /** Longest run of one index a rotation may contain, `maxRepeats`. */
  const MaxRepeats: nat := 2

  /** Every entry is a valid index into a list of `n` players. */
  predicate InRange(n: nat, r: seq<nat>) {
    forall k :: 0 <= k < |r| ==> r[k] < n
  }

  /** No index occurs more than MaxRepeats times in a row. */
  predicate NoTripleRun(r: seq<nat>) {
    forall k :: MaxRepeats <= k < |r| ==> !(r[k - 2] == r[k] && r[k - 1] == r[k])
  }

  /** A finished rotation for `n` players. */
  predicate ValidRotation(n: nat, r: seq<nat>) {
    |r| == RotationLength && InRange(n, r) && NoTripleRun(r)
  }

  /** The redraw condition: the list already ends in two copies of `v`. */
  predicate Rejected(r: seq<nat>, v: nat) {
    |r| >= MaxRepeats && r[|r| - 1] == v && r[|r| - 2] == v
  }

  /** The redraw condition rejects exactly the draws that would create a run of three. */
  lemma RejectionExact(r: seq<nat>, v: nat)
    requires NoTripleRun(r)
    ensures NoTripleRun(r + [v]) <==> !Rejected(r, v)
  {
    var s := r + [v];
    assert forall k :: 0 <= k < |r| ==> s[k] == r[k];
    if |r| >= MaxRepeats {
      assert s[|r| - 2] == r[|r| - 2] && s[|r| - 1] == r[|r| - 1] && s[|r|] == v;
    }
  }

  /** `GenerateCandidateList`: the indices 0 .. n-1 in order. */
  method GenerateCandidateList(n: nat) returns (c: seq<nat>)
    ensures |c| == n
    ensures forall i :: 0 <= i < n ==> c[i] == i
  {
    c := [];
    var i := 0;
    while i < n
      invariant i <= n
      invariant |c| == i
      invariant forall k :: 0 <= k < i ==> c[k] == k
    {
      c := c + [i];
      i := i + 1;
    }
  }

  /**
    `CreateRandomNumList`: draws candidates until the list holds RotationLength
    entries, redrawing whenever a draw would make a run of three. A redraw leaves
    the list as it was, so each step here takes one acceptable candidate; which
    one is left open, as the source leaves it to `Random.Range`.
   */
  method CreateRandomNumList(n: nat) returns (r: seq<nat>)
    requires n >= 2
    ensures ValidRotation(n, r)
  {
    var candidates := GenerateCandidateList(n);
    r := [];
    while |r| < RotationLength
      invariant |r| <= RotationLength
      invariant InRange(n, r)
      invariant NoTripleRun(r)
      decreases RotationLength - |r|
    {
      // Of two distinct candidates at most one can repeat the last entry.
      var other := if |r| > 0 && r[|r| - 1] == 0 then 1 else 0;
      assert !Rejected(r, candidates[other]);
      var idx :| 0 <= idx < |candidates| && !Rejected(r, candidates[idx]);
      var v := candidates[idx];
      RejectionExact(r, v);
      r := r + [v];
    }
  }
}
