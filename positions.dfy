/**
 * Increasing position lists, used to say that one sequence is read off another
 * in order (a subsequence together with the positions it was taken from).
 */
module Positions {

  ghost predicate StrictlyIncreasing(idx: seq<nat>)
  {
    forall a, b :: 0 <= a < b < |idx| ==> idx[a] < idx[b]
  }

  /** Every position shifted one to the right. */
  function Shift(idx: seq<nat>): (s: seq<nat>)
    ensures |s| == |idx|
    ensures forall k :: 0 <= k < |idx| ==> s[k] == idx[k] + 1
  {
    seq(|idx|, k requires 0 <= k < |idx| => idx[k] + 1)
  }

  /** Prepending position 0 (or nothing) to shifted positions keeps them increasing. */
  lemma ConsIncreasing(head: seq<nat>, rest: seq<nat>)
    requires head == [] || head == [0]
    requires StrictlyIncreasing(rest)
    ensures StrictlyIncreasing(head + Shift(rest))
  {
    var idx := head + Shift(rest);
    forall a, b | 0 <= a < b < |idx| ensures idx[a] < idx[b] {
      assert idx[b] == rest[b - |head|] + 1;
      if a >= |head| {
        assert idx[a] == rest[a - |head|] + 1;
      }
    }
  }

  /** A shifted list holds j exactly when the original holds j - 1, and never 0. */
  lemma ShiftMembers(rest: seq<nat>, j: nat)
    ensures j in Shift(rest) <==> j > 0 && j - 1 in rest
  {
    var shifted := Shift(rest);
    if j > 0 && j - 1 in rest {
      var k :| 0 <= k < |rest| && rest[k] == j - 1;
      assert shifted[k] == j;
    }
  }
}
