/**
 * The hop loop of ReAct, independent of what a hop does: run hops in order,
 * stop at the first one whose `act` returned a non-empty string, and merge
 * each other hop's output into the arguments of the next.
 */
module ReactLoop {
  import opened Wrappers

  /** One pass of the hop loop: the arguments the predictor saw, the output
      after `act`, and what `act` returned. */
  datatype HopRecord<A> = HopRecord(args: A, output: A, actionVal: Option<string>)

  /** The hops run, the arguments at the end, and the answer. */
  datatype RunTrace<A> = RunTrace(hops: seq<HopRecord<A>>, finalArgs: A, answer: string)

  /** `act` returns a value that stops the loop only when it is a non-empty string. */
  predicate Truthy(v: Option<string>) {
    v.Some? && v.value != ""
  }

  /** One hop of the loop: given the hop index and the arguments so far, what
      `act` returned and the hop's output. */
  type HopStep<!A> = (nat, A) -> (Option<string>, A)

  /** `for hop in range(hop, n)`: run a hop, stop when `act` returned a
      non-empty string, otherwise merge the hop's output into the arguments. */
  function Loop<A>(hop: nat, n: nat, args: A, step: HopStep<A>, merge: (A, A) -> A): (t: RunTrace<A>)
    requires hop <= n
    decreases n - hop
  {
    if hop == n then RunTrace([], args, "")
    else
      var s := step(hop, args);
      var rec := HopRecord(args, s.1, s.0);
      if Truthy(s.0) then RunTrace([rec], args, s.0.value)
      else
        var rest := Loop(hop + 1, n, merge(args, s.1), step, merge);
        RunTrace([rec] + rest.hops, rest.finalArgs, rest.answer)
  }

  /** A hop whose `act` returns a non-empty string is the last one, and its
      value is the answer; its output is not merged. */
  lemma LoopFinishesAt<A>(hop: nat, n: nat, args: A, step: HopStep<A>, merge: (A, A) -> A)
    requires hop < n && Truthy(step(hop, args).0)
    ensures var s := step(hop, args);
      Loop(hop, n, args, step, merge) == RunTrace([HopRecord(args, s.1, s.0)], args, s.0.value)
  {
  }

  /** The predictor is called at most once per remaining hop, and at least once. */
  lemma {:induction false} LoopCallBound<A>(hop: nat, n: nat, args: A, step: HopStep<A>, merge: (A, A) -> A)
    requires hop < n
    ensures 1 <= |Loop(hop, n, args, step, merge).hops| <= n - hop
    decreases n - hop
  {
    var s := step(hop, args);
    if !Truthy(s.0) && hop + 1 < n {
      LoopCallBound(hop + 1, n, merge(args, s.1), step, merge);
    }
  }

  /** The loop stops at the first hop whose `act` returns a non-empty
      string and answers with it; with no such hop it runs every hop and
      answers "". */
  lemma {:induction false} LoopStopsAtFirstFinish<A>(hop: nat, n: nat, args: A, step: HopStep<A>, merge: (A, A) -> A)
    requires hop <= n
    ensures var t := Loop(hop, n, args, step, merge);
      && (forall i :: 0 <= i < |t.hops| - 1 ==> !Truthy(t.hops[i].actionVal))
      && (t.answer != "" ==> t.hops != [] && t.hops[|t.hops| - 1].actionVal == Some(t.answer))
      && (t.answer == "" ==> |t.hops| == n - hop && forall i :: 0 <= i < |t.hops| ==> !Truthy(t.hops[i].actionVal))
    decreases n - hop
  {
    if hop < n {
      var s := step(hop, args);
      if !Truthy(s.0) {
        var rest := Loop(hop + 1, n, merge(args, s.1), step, merge);
        LoopStopsAtFirstFinish(hop + 1, n, merge(args, s.1), step, merge);
        assert Loop(hop, n, args, step, merge).hops == [HopRecord(args, s.1, s.0)] + rest.hops;
      }
    }
  }

  /** Each hop sees the arguments of the previous hop merged with that hop's
      output, and its record is what the step returned for them; the
      finishing hop's output is not merged. */
  lemma {:induction false} LoopThreadsArguments<A>(hop: nat, n: nat, args: A, step: HopStep<A>, merge: (A, A) -> A)
    requires hop <= n
    ensures var t := Loop(hop, n, args, step, merge);
      && (t.hops != [] ==> t.hops[0].args == args)
      && (forall i :: 0 <= i < |t.hops| ==> (t.hops[i].actionVal, t.hops[i].output) == step(hop + i, t.hops[i].args))
      && (forall i :: 0 <= i < |t.hops| - 1 ==> t.hops[i + 1].args == merge(t.hops[i].args, t.hops[i].output))
      && (t.answer != "" ==> t.finalArgs == t.hops[|t.hops| - 1].args)
    decreases n - hop
  {
    if hop < n {
      var s := step(hop, args);
      if !Truthy(s.0) {
        var next := merge(args, s.1);
        LoopThreadsArguments(hop + 1, n, next, step, merge);
        var rest := Loop(hop + 1, n, next, step, merge);
        var t := Loop(hop, n, args, step, merge);
        assert t.hops == [HopRecord(args, s.1, s.0)] + rest.hops;
        forall i | 1 <= i < |t.hops| ensures t.hops[i] == rest.hops[i - 1] {
        }
        if rest.answer != "" {
          LoopStopsAtFirstFinish(hop + 1, n, next, step, merge);
        }
      }
    }
  }
}
