/**
 * The ReAct predictor: a tool registry with a synthetic `Finish` entry, one
 * signature per hop, the parsing and dispatch of the `name[arg]` action, and
 * the hop loop that stops at the first non-empty `Finish` value.
 *
 * The language model, the tools and the default retriever are outside the
 * model: a hop's predictor is a function from the hop's signature and the
 * arguments gathered so far to the two fields it fills in, and a tool is a
 * function from its argument to a result or a raised exception.
 */
module React {
  import opened Wrappers
  import opened Text
  import opened Dicts
  import opened Signatures
  import opened ReactTools
  import opened ReactHops
  import opened ReactLoop

  /** The two output fields a hop's predictor fills in. */
  datatype Reply = Reply(thought: string, action: string)

  type Predictor = (Signature, Dict<Value>) -> Reply

  /** How `act` classifies an action. */
  datatype Outcome = Terminal(answer: string) | Observed(value: Value) | Failed

  /** What `forward` returns: the observations and the single output field. */
  datatype Prediction = Prediction(observations: seq<Value>, outputName: string, answer: string)

  const DIAGNOSTIC: string := "Mislukt om de actie te parseren. Slechte opmaak of onjuiste actienaam."
  const ONE_OUTPUT_ERROR: string := "ReAct ondersteunt slechts één uitvoerveld."
  /** `action_val` is read after a loop that never ran. */
  const NO_HOP_ERROR: string := "UnboundLocalError: action_val"
  /** The output field's name collides with the `observations` keyword. */
  const OBSERVATIONS: string := "observations"
  const DUPLICATE_KEYWORD_ERROR: string := "TypeError: got multiple values for keyword argument 'observations'"

  class ReAct {
    const signature: Signature
    const maxIters: nat
    const tools: Registry
    const instructions: string
    const hops: seq<Signature>
    const outputName: string

    /** What the hop loop relies on: well-formed dicts and one predictor per hop. */
    ghost predicate Shaped() {
      Dicts.Valid(signature.fields) && Dicts.Valid(tools) && |hops| == maxIters
    }

    /** What `__init__` establishes: a single output field, a `Finish`
        entry, and hop `i + 1`'s signature at index `i` of `hops`. */
    ghost predicate Valid() {
      && Shaped()
      && OutputNames(signature) == [outputName]
      && FINISH in tools.vals
      && hops == HopSignatureList(InputItems(signature), ActionDesc(Catalog(tools)), instructions, maxIters)
    }

    /** `__init__` once its single-output assertion has passed. */
    constructor (signature: Signature, maxIters: nat, tools: seq<Tool>, retrieve: Tool)
      requires Dicts.Valid(signature.fields) && |OutputNames(signature)| == 1
      ensures Valid()
      ensures this.signature == signature && this.maxIters == maxIters
      ensures this.tools == BuildRegistry(tools, retrieve, QuotedList(OutputNames(signature)))
      ensures this.instructions == Join(InstructionLines(signature, this.tools), "\n")
      ensures this.outputName == OutputNames(signature)[0]
    {
      var reg := BuildRegistry(tools, retrieve, QuotedList(OutputNames(signature)));
      var instr := Join(InstructionLines(signature, reg), "\n");
      var inputs := InputItems(signature);
      var hs := HopSignatures(inputs, reg, instr, maxIters);
      var out := OutputNames(signature)[0];
      OnlyElement(OutputNames(signature));
      this.signature := signature;
      this.maxIters := maxIters;
      this.tools := reg;
      this.instructions := instr;
      this.hops := hs;
      this.outputName := out;
    }

    /** How `act` classifies an action value: a parse failure, an unknown
        name or a raising tool is `Failed`; `Finish` is `Terminal`. */
    function Interpret(action: Value): (r: Outcome)
      ensures action.Strs? ==> r == Failed
      ensures action.Str? && ParseAction(action.s).None? ==> r == Failed
      ensures action.Str? && ParseAction(action.s).Some? ==>
        var (name, val) := ParseAction(action.s).value;
        && (r.Terminal? <==> name == FINISH)
        && (r.Terminal? ==> r.answer == val)
        && (name != FINISH && name !in tools.vals ==> r == Failed)
        && (name != FINISH && name in tools.vals && tools.vals[name].Registered? ==>
              match tools.vals[name].tool.call(val)
              case Raises => r == Failed
              case Returns(res) => r == Observed(res.passages.GetOr(res.value)))
    {
      match action
      case Strs(_) => Failed
      case Str(a) =>
        match ParseAction(a)
        case None => Failed
        case Some((name, val)) =>
          if name == FINISH then Terminal(val)
          else if name !in tools.vals then Failed
          else match tools.vals[name]
            case FinishEntry(_, _) => Failed
            case Registered(t) =>
              match t.call(val)
              case Raises => Failed
              case Returns(res) => Observed(res.passages.GetOr(res.value))
    }

    /** `act(output, hop)`: returns the value of a `Finish` action and leaves
        `output` alone; otherwise returns `None` and writes
        `Observation_{hop+1}`, the diagnostic for every failure. */
    function Act(output: Dict<Value>, hop: nat): (r: (Option<string>, Dict<Value>))
      ensures Dicts.Valid(output) ==> Dicts.Valid(r.1)
      ensures var o := if ActionKey(hop + 1) in output.vals then Interpret(output.vals[ActionKey(hop + 1)]) else Failed;
        && (o.Terminal? ==> r == (Some(o.answer), output))
        && (o.Observed? ==> r == (None, Put(output, ObservationKey(hop + 1), o.value)))
        && (o.Failed? ==> r == (None, Put(output, ObservationKey(hop + 1), Str(DIAGNOSTIC))))
    {
      var o := if ActionKey(hop + 1) in output.vals then Interpret(output.vals[ActionKey(hop + 1)]) else Failed;
      match o
      case Terminal(v) => (Some(v), output)
      case Observed(v) => (None, Put(output, ObservationKey(hop + 1), v))
      case Failed => (None, Put(output, ObservationKey(hop + 1), Str(DIAGNOSTIC)))
    }

    /** A tool that raises turns into the diagnostic observation, and the
        loop carries on. */
    lemma RaisingToolIsContained(output: Dict<Value>, hop: nat, name: string, arg: string)
      requires ActionKey(hop + 1) in output.vals && output.vals[ActionKey(hop + 1)] == Str(name + "[" + arg + "]")
      requires '[' !in name && '\n' !in name && '\n' !in arg && (name != [] ==> !IsSpace(name[0]))
      requires name != FINISH && name in tools.vals && tools.vals[name].Registered?
      requires tools.vals[name].tool.call(arg) == Raises
      ensures Act(output, hop) == (None, Put(output, ObservationKey(hop + 1), Str(DIAGNOSTIC)))
    {
      ParseActionRoundTrip(name, arg);
    }

    /** The predictor's reply for hop `hop`, with the action cut to its first line. */
    function HopOutput(hop: nat, args: Dict<Value>, predict: Predictor): (out: Dict<Value>)
      requires hop < |hops|
      ensures Dicts.Valid(out)
      ensures ActionKey(hop + 1) in out.vals && out.vals[ActionKey(hop + 1)] == Str(FirstLine(predict(hops[hop], args).action))
    {
      var reply := predict(hops[hop], args);
      Put(Put(Empty(), ThoughtKey(hop + 1), Str(reply.thought)), ActionKey(hop + 1), Str(FirstLine(reply.action)))
    }

    /** One hop: the predictor's reply, then `act` on it. */
    function StepFn(predict: Predictor): HopStep<Dict<Value>>
    {
      (h: nat, a: Dict<Value>) => if h < |hops| then Act(HopOutput(h, a, predict), h) else (None, a)
    }

    /** The hop loop of `forward`, from hop `hop` on; `args.update(output)`
        merges a hop's output. */
    function Run(hop: nat, args: Dict<Value>, predict: Predictor): (t: RunTrace<Dict<Value>>)
      requires hop <= maxIters
    {
      Loop(hop, maxIters, args, StepFn(predict), (a, o) => Update(a, o))
    }

    /** A first reply `Finish[v]` with a non-empty `v` ends the run after one
        hop with answer `v`, and no observation is recorded. */
    lemma FinishShortCircuit(args: Dict<Value>, predict: Predictor, v: string)
      requires Shaped() && maxIters >= 1
      requires v != [] && '\n' !in v
      requires predict(hops[0], args).action == FINISH + "[" + v + "]"
      ensures Run(0, args, predict).answer == v && |Run(0, args, predict).hops| == 1
      ensures Run(0, args, predict).finalArgs == args
    {
      var a := FINISH + "[" + v + "]";
      assert FirstLine(a) == a by {
        assert '\n' !in a;
        FirstLineUnchanged(a);
      }
      var out := HopOutput(0, args, predict);
      assert out.vals[ActionKey(1)] == Str(a) by {
        assert predict(hops[0], args).action == a;
      }
      assert StepFn(predict)(0, args) == (Some(v), out) by {
        FinishIsTerminal(out, 0, v);
      }
      LoopFinishesAt(0, maxIters, args, StepFn(predict), (a, o) => Update(a, o));
    }

    /** An action `Finish[v]` makes `act` return `v` and leave the output alone. */
    lemma FinishIsTerminal(output: Dict<Value>, hop: nat, v: string)
      requires '\n' !in v
      requires ActionKey(hop + 1) in output.vals && output.vals[ActionKey(hop + 1)] == Str(FINISH + "[" + v + "]")
      ensures Act(output, hop) == (Some(v), output)
    {
      assert FINISH[0] == 'F';
      ParseActionRoundTrip(FINISH, v);
    }

    /** `{key: kwargs[key] for key in input_fields if key in kwargs}`: the
        input fields the caller passed, in the signature's order, with the
        caller's values; other keywords are dropped. */
    function InitialArgs(kwargs: Dict<Value>): (args: Dict<Value>)
      requires Dicts.Valid(signature.fields)
      ensures Dicts.Valid(args)
      ensures forall k :: k in args.vals <==> k in InputNames(signature) && k in kwargs.vals
      ensures forall k :: k in args.vals ==> args.vals[k] == kwargs.vals[k]
      ensures KeysInFirstOrder(args.keys, InputNames(signature))
    {
      var names := InputNames(signature);
      OfRoleDistinct(Items(signature.fields), Input);
      var items := PresentArgs(names, kwargs);
      PresentArgsDistinct(names, kwargs);
      FromItemsItems(items);
      assert FromItems(items).keys == Names(items);
      FromItems(items)
    }

    /** One pass of the loop body: ask hop `hop`'s predictor, cut its action
        to the first line, then `act` on the output. */
    method Hop(hop: nat, args: Dict<Value>, predict: Predictor) returns (acted: (Option<string>, Dict<Value>))
      requires hop < |hops|
      ensures acted == StepFn(predict)(hop, args)
    {
      var reply := predict(hops[hop], args);
      var output := Put(Put(Empty(), ThoughtKey(hop + 1), Str(reply.thought)), ActionKey(hop + 1), Str(reply.action));
      PutTwice(Put(Empty(), ThoughtKey(hop + 1), Str(reply.thought)), ActionKey(hop + 1), Str(reply.action), Str(FirstLine(reply.action)));
      output := Put(output, ActionKey(hop + 1), Str(FirstLine(reply.action)));
      acted := Act(output, hop);
    }

    /** The loop of `forward` from arguments `args0`: the arguments at the
        end, the answer, whether `action_val` was ever bound, and the number
        of predictor calls. */
    method RunHops(args0: Dict<Value>, predict: Predictor) returns (args: Dict<Value>, answer: string, bound: bool, calls: nat)
      requires Shaped()
      ensures var t := Run(0, args0, predict);
        && args == t.finalArgs && answer == t.answer && calls == |t.hops|
        && (bound <==> maxIters > 0)
    {
      args := args0;
      ghost var t0 := Run(0, args, predict);
      var actionVal: Option<string> := None;
      bound := false;
      var hop := 0;
      calls := 0;
      while hop < maxIters
        invariant hop <= maxIters && calls == hop && !Truthy(actionVal)
        invariant bound <==> calls > 0
        invariant Run(hop, args, predict).finalArgs == t0.finalArgs
        invariant Run(hop, args, predict).answer == t0.answer
        invariant hop + |Run(hop, args, predict).hops| == |t0.hops|
      {
        var acted := Hop(hop, args, predict);
        actionVal := acted.0;
        bound := true;
        calls := calls + 1;
        if Truthy(actionVal) {
          break;
        }
        args := Update(args, acted.1);
        hop := hop + 1;
      }
      answer := if Truthy(actionVal) then actionVal.value else "";
    }

    /** `forward(**kwargs)`: runs at most `max_iters` hops, stops at the first
        non-empty `Finish` value, and returns that value (or "") with the
        values of the `Observation*` arguments in insertion order. With no
        hop at all `action_val` is never bound, and an output field named
        `observations` clashes with the keyword of the same name; both raise
        once the loop is over. */
    method Forward(kwargs: Dict<Value>, predict: Predictor) returns (r: Result<Prediction>, calls: nat)
      requires Shaped()
      ensures var t := Run(0, InitialArgs(kwargs), predict);
        && calls == |t.hops|
        && (maxIters == 0 ==> r == Err(NO_HOP_ERROR))
        && (maxIters > 0 && outputName == OBSERVATIONS ==> r == Err(DUPLICATE_KEYWORD_ERROR))
        && (maxIters > 0 && outputName != OBSERVATIONS ==>
              r == Ok(Prediction(Observations(t.finalArgs), outputName, t.answer)))
    {
      var args, answer, bound;
      args, answer, bound, calls := RunHops(InitialArgs(kwargs), predict);
      if !bound {
        r := Err(NO_HOP_ERROR);
      } else if outputName == OBSERVATIONS {
        r := Err(DUPLICATE_KEYWORD_ERROR);
      } else {
        r := Ok(Prediction(Observations(args), outputName, answer));
      }
    }
  }

  /** A one-element list is that element in brackets. */
  lemma OnlyElement(names: seq<string>)
    requires |names| == 1
    ensures names == [names[0]]
  {
  }

  /** The pairs `(k, kwargs[k])` for the names present in `kwargs`, in order. */
  function PresentArgs(names: seq<string>, kwargs: Dict<Value>): (r: seq<(string, Value)>)
    ensures forall k :: k in Names(r) <==> k in names && k in kwargs.vals
    ensures forall i :: 0 <= i < |r| ==> r[i].0 in kwargs.vals && r[i].1 == kwargs.vals[r[i].0]
  {
    if names == [] then []
    else
      var k := names[|names| - 1];
      var init := PresentArgs(names[..|names| - 1], kwargs);
      var last := if k in kwargs.vals then [(k, kwargs.vals[k])] else [];
      assert Names(init + last) == Names(init) + (if k in kwargs.vals then [k] else []);
      assert names == names[..|names| - 1] + [k];
      init + last
  }

  /** With pairwise different names, the pairs come in the order of the
      names, and so no name twice. */
  lemma {:induction false} PresentArgsDistinct(names: seq<string>, kwargs: Dict<Value>)
    requires Distinct(names)
    ensures KeysInFirstOrder(Names(PresentArgs(names, kwargs)), names)
    ensures Distinct(Names(PresentArgs(names, kwargs)))
    decreases |names|
  {
    if names != [] {
      var init := names[..|names| - 1];
      var k := names[|names| - 1];
      assert names == init + [k];
      var r0 := Names(PresentArgs(init, kwargs));
      var r := Names(PresentArgs(names, kwargs));
      PresentArgsDistinct(init, kwargs);
      forall i | 0 <= i < |r0|
        ensures FirstIndex(names, r0[i]) == FirstIndex(init, r0[i]) < |init|
      {
        FirstIndexSnoc(init, k, r0[i]);
      }
      assert k !in init;
      FirstIndexSnoc(init, k, k);
      if k in kwargs.vals {
        assert r == r0 + [k];
      } else {
        assert r == r0;
      }
    }
  }

  /** `[args[key] for key in args if key.startswith("Observation")]`. */
  function ObservationsOf(keys: seq<string>, vals: map<string, Value>): (r: seq<Value>)
    ensures |r| <= |keys|
  {
    if keys == [] then []
    else
      var k := keys[|keys| - 1];
      ObservationsOf(keys[..|keys| - 1], vals) + (if k in vals && StartsWith(k, "Observation") then [vals[k]] else [])
  }

  /** The observations are the values of exactly the `Observation*` keys. */
  lemma {:induction false} ObservationsSelected(keys: seq<string>, vals: map<string, Value>)
    ensures forall v :: v in ObservationsOf(keys, vals) <==>
      exists i :: 0 <= i < |keys| && keys[i] in vals && StartsWith(keys[i], "Observation") && vals[keys[i]] == v
    decreases |keys|
  {
    if keys != [] {
      var init := keys[..|keys| - 1];
      ObservationsSelected(init, vals);
      assert forall i :: 0 <= i < |init| ==> init[i] == keys[i];
    }
  }

  function Observations(args: Dict<Value>): seq<Value> {
    ObservationsOf(args.keys, args.vals)
  }

  /** Values under keys not in the list play no part. */
  lemma {:induction false} ObservationsOfOther(keys: seq<string>, vals: map<string, Value>, k: string, v: Value)
    requires k !in keys
    ensures ObservationsOf(keys, vals[k := v]) == ObservationsOf(keys, vals)
    decreases |keys|
  {
    if keys != [] {
      ObservationsOfOther(keys[..|keys| - 1], vals, k, v);
    }
  }

  /** A new `Observation*` argument is observed last; any other new argument
      is not observed. */
  lemma ObservationsPutFresh(args: Dict<Value>, k: string, v: Value)
    requires Dicts.Valid(args) && k !in args.vals
    ensures Observations(Put(args, k, v)) == Observations(args) + (if StartsWith(k, "Observation") then [v] else [])
  {
    var keys := args.keys + [k];
    assert keys[..|keys| - 1] == args.keys;
    ObservationsOfOther(args.keys, args.vals, k, v);
  }

  /** `ReAct(signature, max_iters, tools=...)`: fails unless the signature has
      exactly one output field. */
  method NewReAct(signature: Signature, maxIters: nat, tools: seq<Tool>, retrieve: Tool) returns (r: Result<ReAct>)
    requires Valid(signature.fields)
    ensures r.Err? <==> |OutputNames(signature)| != 1
    ensures r.Err? ==> r.message == ONE_OUTPUT_ERROR
    ensures r.Ok? ==> r.value.Valid() && r.value.signature == signature && r.value.maxIters == maxIters
    ensures r.Ok? ==> r.value.tools == BuildRegistry(tools, retrieve, QuotedList(OutputNames(signature)))
    ensures r.Ok? ==> r.value.instructions == Join(InstructionLines(signature, r.value.tools), "\n")
    ensures r.Ok? ==> r.value.outputName == OutputNames(signature)[0]
  {
    var outputs := OutputNames(signature);
    if |outputs| == 1 {
      var re := new ReAct(signature, maxIters, tools, retrieve);
      r := Ok(re);
    } else {
      r := Err(ONE_OUTPUT_ERROR);
    }
  }
}
