/** Machines that answer each input with a verdict or none: their runs, and what two runs after each other do. */
module Traces {
  import opened Words

  /** The state after all the inputs, and the answer to the last of them. */
  function After<S, I>(step: (S, I) -> (S, Option<bool>), s: S, inputs: seq<I>): (S, Option<bool>)
    decreases |inputs|
  {
    if inputs == [] then (s, None)
    else step(After(step, s, inputs[..|inputs| - 1]).0, inputs[|inputs| - 1])
  }

  /** Some input of the run is answered with an approval. */
  predicate EverApproved<S, I>(step: (S, I) -> (S, Option<bool>), s: S, inputs: seq<I>)
    decreases |inputs|
  {
    inputs != [] &&
    (After(step, s, inputs).1 == Some(true) || EverApproved(step, s, inputs[..|inputs| - 1]))
  }

  lemma {:induction false} AfterAppend<S, I>(step: (S, I) -> (S, Option<bool>), s: S, a: seq<I>, b: seq<I>)
    requires b != []
    ensures After(step, s, a + b) == After(step, After(step, s, a).0, b)
    decreases |b|
  {
    var n := |b| - 1;
    assert (a + b)[..|a + b| - 1] == a + b[..n];
    if n > 0 {
      AfterAppend(step, s, a, b[..n]);
    } else {
      assert a + b[..0] == a;
    }
  }

  lemma {:induction false} ApprovedIn<S, I>(step: (S, I) -> (S, Option<bool>), s: S, a: seq<I>, b: seq<I>)
    requires EverApproved(step, After(step, s, a).0, b)
    ensures EverApproved(step, s, a + b)
    decreases |b|
  {
    var n := |b| - 1;
    AfterAppend(step, s, a, b);
    assert (a + b)[..|a + b| - 1] == a + b[..n];
    if After(step, After(step, s, a).0, b).1 != Some(true) {
      ApprovedIn(step, s, a, b[..n]);
    }
  }

  /** Every verdict leads to a state that only refuses. */
  ghost predicate VerdictsAreFinal<S(!new), I(!new)>(step: (S, I) -> (S, Option<bool>), finished: S -> bool) {
    && (forall s, i :: step(s, i).1.Some? ==> finished(step(s, i).0))
    && (forall s, i :: finished(s) ==> step(s, i).1 == Some(false))
  }

  /** After any verdict, every later input is refused. */
  lemma {:induction false} NothingAfterVerdict<S(!new), I(!new)>(
    step: (S, I) -> (S, Option<bool>), finished: S -> bool, s: S, inputs: seq<I>, i: nat)
    requires VerdictsAreFinal(step, finished) && 0 < i < |inputs| && After(step, s, inputs[..i]).1.Some?
    ensures After(step, s, inputs).1 == Some(false) && finished(After(step, s, inputs).0)
    decreases |inputs|
  {
    var before := inputs[..|inputs| - 1];
    if i < |before| {
      assert before[..i] == inputs[..i];
      NothingAfterVerdict(step, finished, s, before, i);
    } else {
      assert inputs[..i] == before;
      var earlier := After(step, s, before[..|before| - 1]).0;
      assert step(earlier, before[|before| - 1]).1.Some?;
    }
  }
}
