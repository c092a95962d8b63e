/** Runs: a state machine that takes one step after the other. */
module Runs {

  ghost function Run<S, O>(next: (S, O) -> S, s: S, steps: seq<O>): S {
    if steps == [] then s else next(Run(next, s, steps[..|steps| - 1]), steps[|steps| - 1])
  }

  lemma RunLast<S, O>(next: (S, O) -> S, s: S, steps: seq<O>, step: O)
    ensures Run(next, s, steps + [step]) == next(Run(next, s, steps), step)
  {
    assert (steps + [step])[..|steps|] == steps;
  }

  lemma {:induction false} RunConcat<S, O>(next: (S, O) -> S, s: S, a: seq<O>, b: seq<O>)
    ensures Run(next, s, a + b) == Run(next, Run(next, s, a), b)
  {
    if b == [] {
      assert a + b == a;
    } else {
      RunConcat(next, s, a, b[..|b| - 1]);
      assert (a + b)[..|a + b| - 1] == a + b[..|b| - 1];
    }
  }

  lemma RunThree<S, O>(next: (S, O) -> S, s: S, a: O, b: O, c: O)
    ensures Run(next, s, [a, b, c]) == next(next(next(s, a), b), c)
  {
    RunLast(next, s, [], a);
    RunLast(next, s, [a], b);
    RunLast(next, s, [a, b], c);
    assert [] + [a] == [a] && [a] + [b] == [a, b] && [a, b] + [c] == [a, b, c];
  }

  lemma RunFour<S, O>(next: (S, O) -> S, s: S, a: O, b: O, c: O, d: O)
    ensures Run(next, s, [a, b, c, d]) == next(next(next(next(s, a), b), c), d)
  {
    RunThree(next, s, a, b, c);
    RunLast(next, s, [a, b, c], d);
    assert [a, b, c] + [d] == [a, b, c, d];
  }
}
