/** Running a step over a sequence of inputs, from the first to the last. */
module Folds {
  ghost function Fold<S, E>(step: (S, E) -> S, start: S, inputs: seq<E>): S {
    if inputs == [] then start
    else step(Fold(step, start, inputs[..|inputs| - 1]), inputs[|inputs| - 1])
  }

  lemma {:induction false} FoldConcat<S, E>(step: (S, E) -> S, start: S, a: seq<E>, b: seq<E>)
    ensures Fold(step, start, a + b) == Fold(step, Fold(step, start, a), b)
  {
    if b == [] {
      assert a + b == a;
    } else {
      FoldConcat(step, start, a, b[..|b| - 1]);
      assert (a + b)[..|a + b| - 1] == a + b[..|b| - 1];
    }
  }

  lemma FoldSnoc<S, E>(step: (S, E) -> S, start: S, inputs: seq<E>, last: E)
    ensures Fold(step, start, inputs + [last]) == step(Fold(step, start, inputs), last)
  {
    assert (inputs + [last])[..|inputs|] == inputs;
  }

  lemma TwoSteps<S, E>(step: (S, E) -> S, start: S, first: E, second: E)
    ensures Fold(step, start, [first, second]) == step(step(start, first), second)
  {
    assert [first, second][..1] == [first];
    FoldSnoc(step, start, [], first);
    assert [] + [first] == [first];
  }

  lemma FoldNext<S, E>(step: (S, E) -> S, start: S, inputs: seq<E>, i: nat)
    requires i < |inputs|
    ensures Fold(step, start, inputs[..i + 1]) == step(Fold(step, start, inputs[..i]), inputs[i])
  {
    assert inputs[..i + 1][..i] == inputs[..i];
  }

  /** The results of `f` on every input, end to end. */
  ghost function FlatMap<E, R>(f: E -> seq<R>, inputs: seq<E>): seq<R> {
    if inputs == [] then []
    else FlatMap(f, inputs[..|inputs| - 1]) + f(inputs[|inputs| - 1])
  }

  lemma {:induction false} FlatMapConcat<E, R>(f: E -> seq<R>, a: seq<E>, b: seq<E>)
    ensures FlatMap(f, a + b) == FlatMap(f, a) + FlatMap(f, b)
  {
    if b == [] {
      assert a + b == a;
    } else {
      FlatMapConcat(f, a, b[..|b| - 1]);
      assert (a + b)[..|a + b| - 1] == a + b[..|b| - 1];
    }
  }

  lemma FlatMapOne<E, R>(f: E -> seq<R>, input: E)
    ensures FlatMap(f, [input]) == f(input)
  {
    assert [input][..0] == [];
    assert [] + f(input) == f(input);
  }

  lemma TakeNext<E>(s: seq<E>, i: nat)
    requires i < |s|
    ensures s[..i + 1] == s[..i] + [s[i]]
  {
  }

  lemma TakeAll<E>(s: seq<E>)
    ensures s[..|s|] == s && [] + s == s && s + [] == s && s[..0] == []
  {
  }

  lemma ConcatAssociates<E>(a: seq<E>, b: seq<E>, c: seq<E>)
    ensures (a + b) + c == a + (b + c)
  {
  }
}
