/** A pipeline stage: a state machine that turns each input into at most one output. */
module Stage {
  import opened Wrappers

  type Machine<!S, !A, !B> = (S, A) -> (S, Option<B>)

  function Emit<B>(out: seq<B>, b: Option<B>): seq<B> {
    match b
    case None => out
    case Some(x) => out + [x]
  }

  /** The state after all inputs, and all outputs in order. */
  function Run<S, A, B>(f: Machine<S, A, B>, s: S, inputs: seq<A>): (S, seq<B>) {
    if inputs == [] then (s, [])
    else
      var n := |inputs| - 1;
      var (t, out) := Run(f, s, inputs[..n]);
      var (u, b) := f(t, inputs[n]);
      (u, Emit(out, b))
  }

  lemma RunOneMore<S, A, B>(f: Machine<S, A, B>, s: S, inputs: seq<A>, x: A)
    ensures var (t, out) := Run(f, s, inputs); var (u, b) := f(t, x);
      Run(f, s, inputs + [x]) == (u, Emit(out, b))
  {
    assert (inputs + [x])[..|inputs|] == inputs;
  }

  /** More input only ever adds output. */
  lemma {:induction false} RunIsMonotone<S, A, B>(f: Machine<S, A, B>, s: S, some: seq<A>, all: seq<A>)
    requires some <= all
    ensures Run(f, s, some).1 <= Run(f, s, all).1
  {
    if |some| < |all| {
      var n := |all| - 1;
      RunIsMonotone(f, s, some, all[..n]);
    } else {
      assert some == all;
    }
  }
}
