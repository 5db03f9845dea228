/** Transitions, and the checks that both buffers make before storing one. */
module Experience {
  import opened Wrappers

  datatype Error = ValueError

  type Vec = seq<real>

  datatype Step = Step(obs: Vec, action: Vec, reward: real, nextObs: Vec, terminated: bool, logProb: Option<real>,
                       value: Option<real>, preSquash: Option<Vec>, intervened: bool) {
    predicate Valid() { |obs| == |nextObs| }
  }

  /** The constructor of the source rejects non-finite values and different observation shapes. */
  type Transition = s: Step | s.Valid() witness Step([], [], 0.0, [], false, None, None, None, false)

  predicate InUnitBox(action: Vec) {
    forall i :: 0 <= i < |action| ==> -1.0 <= action[i] <= 1.0
  }

  /** The shapes match and the action is normalised; anything else raises ValueError. */
  predicate ShapesOk(t: Transition, obsDim: nat, actionDim: nat) {
    |t.obs| == obsDim && |t.action| == actionDim && InUnitBox(t.action)
  }

  // ---------------------------------------------------------------- the last elements of a sequence

  function LastN<T>(s: seq<T>, n: nat): seq<T> {
    if |s| <= n then s else s[|s| - n..]
  }

  /** At most n of them, from the end, in their order. */
  lemma LastNIs<T>(s: seq<T>, n: nat, k: nat)
    ensures |LastN(s, n)| == if |s| < n then |s| else n
    ensures k < |LastN(s, n)| ==> LastN(s, n)[|LastN(s, n)| - 1 - k] == s[|s| - 1 - k]
  {
  }

  /** Forgetting early or late makes no difference. */
  lemma LastNAppend<T>(s: seq<T>, x: T, n: nat)
    requires n >= 1
    ensures LastN(LastN(s, n) + [x], n) == LastN(s + [x], n)
  {
  }
}
