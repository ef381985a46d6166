// The Fisher–Yates shuffle of src/lib/utils.ts (shuffleArray): copy the input, then for
// i from the last index down to 1 exchange the element at i with the one at a random
// index j in [0, i]. The random draws are an oracle `choices`, with choices[i] the j
// drawn at step i; only their range is required, not their distribution.

module Shuffle {

  /** `s` with the elements at `i` and `j` exchanged. */
  function Swap<T>(s: seq<T>, i: nat, j: nat): (r: seq<T>)
    requires i < |s| && j < |s|
    ensures |r| == |s| && r[i] == s[j] && r[j] == s[i]
    ensures forall k :: 0 <= k < |s| && k != i && k != j ==> r[k] == s[k]
  {
    s[i := s[j]][j := s[i]]
  }

  /** Every draw for the steps 1..i lies in [0, step]. */
  predicate DrawsInRange(choices: seq<nat>, i: int)
  {
    i < |choices| && forall k :: 0 < k <= i ==> choices[k] <= k
  }

  /** The steps i, i-1, ..., 1 of the shuffle applied to `s`. */
  function ShuffleSteps<T>(s: seq<T>, choices: seq<nat>, i: int): (r: seq<T>)
    requires i < |s| && DrawsInRange(choices, i)
    ensures |r| == |s|
    decreases i
  {
    if i <= 0 then s else ShuffleSteps(Swap(s, i, choices[i]), choices, i - 1)
  }

  /** The whole shuffle of `s` under the draws `choices`. */
  function Shuffled<T>(s: seq<T>, choices: seq<nat>): seq<T>
    requires |choices| == |s| && DrawsInRange(choices, |s| - 1)
  {
    ShuffleSteps(s, choices, |s| - 1)
  }

  /** `shuffleArray`: a new array holding the shuffled copy; the input is only read. */
  method ShuffleArray<T>(a: array<T>, choices: seq<nat>) returns (b: array<T>)
    requires |choices| == a.Length && DrawsInRange(choices, a.Length - 1)
    ensures fresh(b)
    ensures b[..] == Shuffled(a[..], choices)
    ensures multiset(b[..]) == multiset(a[..])
    ensures a.Length <= 1 ==> b[..] == a[..]
  {
    b := new T[a.Length](k requires 0 <= k < a.Length reads a => a[k]);
    assert b[..] == a[..];
    ghost var result := Shuffled(a[..], choices);
    var i := b.Length - 1;
    while i > 0
      invariant -1 <= i < b.Length
      invariant ShuffleSteps(b[..], choices, i) == result
      invariant forall k :: i < k < b.Length ==> b[k] == result[k]
    {
      var j := choices[i];
      ghost var before := b[..];
      b[i], b[j] := b[j], b[i];
      assert b[..] == Swap(before, i, j);
      ShuffleStepsKeepsAbove(b[..], choices, i - 1);
      i := i - 1;
    }
    ShuffledPermutes(a[..], choices);
  }

  // ---------------------------------------------------------------------------
  // Properties
  // ---------------------------------------------------------------------------

  /** One exchange keeps the multiset of elements. */
  lemma SwapPermutes<T>(s: seq<T>, i: nat, j: nat)
    requires i < |s| && j < |s|
    ensures multiset(Swap(s, i, j)) == multiset(s)
  {
    var t := s[i := s[j]];
    assert multiset(t) == multiset(s) - multiset{s[i]} + multiset{s[j]};
    assert multiset(t[j := s[i]]) == multiset(t) - multiset{t[j]} + multiset{s[i]};
  }

  /** Any run of steps is a permutation: it keeps the multiset of elements. */
  lemma {:induction false} ShuffleStepsPermutes<T>(s: seq<T>, choices: seq<nat>, i: int)
    requires i < |s| && DrawsInRange(choices, i)
    ensures multiset(ShuffleSteps(s, choices, i)) == multiset(s)
    decreases i
  {
    if i > 0 {
      SwapPermutes(s, i, choices[i]);
      ShuffleStepsPermutes(Swap(s, i, choices[i]), choices, i - 1);
    }
  }

  /** The steps down from i never touch a position above i. */
  lemma {:induction false} ShuffleStepsKeepsAbove<T>(s: seq<T>, choices: seq<nat>, i: int)
    requires i < |s| && DrawsInRange(choices, i)
    ensures forall k :: 0 <= k < |s| && i < k ==> ShuffleSteps(s, choices, i)[k] == s[k]
    decreases i
  {
    if i > 0 {
      ShuffleStepsKeepsAbove(Swap(s, i, choices[i]), choices, i - 1);
    }
  }

  /** The shuffle of any input under any in-range draws is a permutation of it. */
  lemma ShuffledPermutes<T>(s: seq<T>, choices: seq<nat>)
    requires |choices| == |s| && DrawsInRange(choices, |s| - 1)
    ensures multiset(Shuffled(s, choices)) == multiset(s)
  {
    ShuffleStepsPermutes(s, choices, |s| - 1);
  }
}
