/** The input of the entry widgets' polling loops. Every pass of a `while (!doExit)`
    loop reads the raw encoder count and the button; a widget is proved against the
    fold of its one-pass step over the passes it sees. */
module Polling {
  import opened Wrappers

  /** One pass of a widget's polling loop: the raw count `enc.read()` returned and,
      when the button was found pressed, how long it was then held (milliseconds). */
  datatype Sample = Sample(pos: int, press: Option<nat>)

  /** What one invocation of a widget sees: the count read on entry, then its passes. */
  datatype Session = Session(start: int, passes: seq<Sample>)

  /** The state a widget reaches after the given passes, one `step` per pass, in order. */
  function Fold<S>(step: (S, Sample) -> S, s: S, passes: seq<Sample>): S
    decreases |passes|
  {
    if passes == [] then s else step(Fold(step, s, passes[..|passes| - 1]), passes[|passes| - 1])
  }

  /** A widget loop runs only `while (!doExit)`: once a state is finished, later passes
      leave it as it is, so the widget returns the state of the pass that finished it. */
  lemma {:induction false} FoldFrozen<S>(step: (S, Sample) -> S, finished: S -> bool, s: S,
                                         passes: seq<Sample>, k: nat)
    requires forall x: S, p: Sample :: finished(x) ==> step(x, p) == x
    requires k <= |passes| && finished(Fold(step, s, passes[..k]))
    ensures Fold(step, s, passes) == Fold(step, s, passes[..k])
    decreases |passes| - k
  {
    if k < |passes| {
      assert passes[..k + 1][..k] == passes[..k];
      FoldFrozen(step, finished, s, passes, k + 1);
    } else {
      assert passes[..k] == passes;
    }
  }
}
