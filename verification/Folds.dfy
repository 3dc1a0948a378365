/** Stateful folds: a sequence of inputs is processed left to right, each at its own instant,
    and every input produces one output. */
module Folds {
  /** The instant at which the n-th input is processed. */
  type Clock = nat -> nat

  datatype Trace<S, R> = Trace(state: S, outputs: seq<R>)

  function Fold<S, V, R>(f: (S, nat, V) -> (S, R), s: S, clock: Clock, tick: nat, inputs: seq<V>): (t: Trace<S, R>)
    ensures |t.outputs| == |inputs|
  {
    if inputs == [] then Trace(s, [])
    else
      var n := |inputs| - 1;
      var before := Fold(f, s, clock, tick, inputs[..n]);
      var (after, output) := f(before.state, clock(tick + n), inputs[n]);
      Trace(after, before.outputs + [output])
  }

  /** Processing `a` and then `b` is processing both. */
  lemma {:induction false} FoldAppend<S, V, R>(f: (S, nat, V) -> (S, R), s: S, clock: Clock, tick: nat, a: seq<V>, b: seq<V>)
    ensures var first := Fold(f, s, clock, tick, a);
            var second := Fold(f, first.state, clock, tick + |a|, b);
            Fold(f, s, clock, tick, a + b) == Trace(second.state, first.outputs + second.outputs)
    decreases |b|
  {
    if b == [] {
      assert a + b == a;
    } else {
      var n := |b| - 1;
      FoldAppend(f, s, clock, tick, a, b[..n]);
      assert (a + b)[..|a + b| - 1] == a + b[..n];
    }
  }

  /** Two steps agree where the fold takes its i-th turn. */
  ghost predicate AgreeAt<S, V, R>(f: (S, nat, V) -> (S, R), g: (S, nat, V) -> (S, R), s: S, clock: Clock, tick: nat,
                                   inputs: seq<V>, i: nat)
    requires i < |inputs|
  {
    var before := Fold(g, s, clock, tick, inputs[..i]).state;
    f(before, clock(tick + i), inputs[i]) == g(before, clock(tick + i), inputs[i])
  }

  lemma AgreeEarlier<S, V, R>(f: (S, nat, V) -> (S, R), g: (S, nat, V) -> (S, R), s: S, clock: Clock, tick: nat,
                              inputs: seq<V>, n: nat, i: nat)
    requires i < n <= |inputs| && AgreeAt(f, g, s, clock, tick, inputs, i)
    ensures AgreeAt(f, g, s, clock, tick, inputs[..n], i)
  {
    assert inputs[..n][..i] == inputs[..i] && inputs[..n][i] == inputs[i];
  }

  /** Two steps that agree wherever the fold uses them fold alike. */
  lemma {:induction false} FoldCongruence<S, V, R>(f: (S, nat, V) -> (S, R), g: (S, nat, V) -> (S, R), s: S, clock: Clock,
                                                  tick: nat, inputs: seq<V>)
    requires forall i | 0 <= i < |inputs| :: AgreeAt(f, g, s, clock, tick, inputs, i)
    ensures Fold(f, s, clock, tick, inputs) == Fold(g, s, clock, tick, inputs)
    decreases |inputs|
  {
    if inputs != [] {
      var n := |inputs| - 1;
      forall i | 0 <= i < n ensures AgreeAt(f, g, s, clock, tick, inputs[..n], i) {
        AgreeEarlier(f, g, s, clock, tick, inputs, n, i);
      }
      FoldCongruence(f, g, s, clock, tick, inputs[..n]);
      assert AgreeAt(f, g, s, clock, tick, inputs, n);
    }
  }

  lemma FoldStep<S, V, R>(f: (S, nat, V) -> (S, R), s: S, clock: Clock, tick: nat, inputs: seq<V>, i: nat)
    requires i < |inputs|
    ensures Fold(f, s, clock, tick, inputs[..i + 1]).state ==
            f(Fold(f, s, clock, tick, inputs[..i]).state, clock(tick + i), inputs[i]).0
  {
    assert inputs[..i + 1][..i] == inputs[..i];
  }

  lemma FoldOneMore<S, V, R>(f: (S, nat, V) -> (S, R), s: S, clock: Clock, tick: nat, inputs: seq<V>, v: V)
    ensures var before := Fold(f, s, clock, tick, inputs);
            var (state, output) := f(before.state, clock(tick + |inputs|), v);
            Fold(f, s, clock, tick, inputs + [v]) == Trace(state, before.outputs + [output])
  {
    var all := inputs + [v];
    assert all[..|all| - 1] == inputs && all[|all| - 1] == v;
  }

  lemma Assoc<T>(a: seq<T>, b: seq<T>, c: seq<T>)
    ensures a + b + c == a + (b + c)
  {
  }

  lemma AppendNone<T>(a: seq<T>)
    ensures a + [] == a && [] + a == a
  {
  }

  /** Each output is the output of its own step. */
  lemma {:induction false} FoldOutput<S, V, R>(f: (S, nat, V) -> (S, R), s: S, clock: Clock, tick: nat, inputs: seq<V>, i: nat)
    requires i < |inputs|
    ensures Fold(f, s, clock, tick, inputs).outputs[i] ==
            f(Fold(f, s, clock, tick, inputs[..i]).state, clock(tick + i), inputs[i]).1
    decreases |inputs|
  {
    var n := |inputs| - 1;
    if i < n {
      FoldOutput(f, s, clock, tick, inputs[..n], i);
      assert inputs[..n][..i] == inputs[..i];
    }
  }

  /** What holds of every single output holds of the trace. */
  lemma FoldOutputs<S, V, R>(f: (S, nat, V) -> (S, R), s: S, clock: Clock, tick: nat, inputs: seq<V>, good: R -> bool)
    requires forall i | 0 <= i < |inputs| ::
               good(f(Fold(f, s, clock, tick, inputs[..i]).state, clock(tick + i), inputs[i]).1)
    ensures forall i | 0 <= i < |inputs| :: good(Fold(f, s, clock, tick, inputs).outputs[i])
  {
    forall i | 0 <= i < |inputs| ensures good(Fold(f, s, clock, tick, inputs).outputs[i]) {
      FoldOutput(f, s, clock, tick, inputs, i);
    }
  }

  /** The texts of some items, one after the other. */
  function Join<R>(text: R -> string, items: seq<R>): string {
    if items == [] then [] else Join(text, items[..|items| - 1]) + text(items[|items| - 1])
  }

  lemma {:induction false} JoinAppend<R>(text: R -> string, a: seq<R>, b: seq<R>)
    ensures Join(text, a + b) == Join(text, a) + Join(text, b)
    decreases |b|
  {
    if b == [] {
      assert a + b == a;
    } else {
      var n := |b| - 1;
      JoinAppend(text, a, b[..n]);
      assert (a + b)[..|a + b| - 1] == a + b[..n];
    }
  }
}
