/**
 * The ProgramOfThought predictor: three signatures derived from the original
 * signature (generate, regenerate, answer), and `forward`, which generates
 * code, parses and runs it, regenerates it while running it fails, and asks
 * for the answer given the final code and its output.
 *
 * The three chain-of-thought predictors are one function from a signature
 * and the keyword arguments to the fields of the completion; the interpreter
 * and the reflow of one-line blocks are parameters, as in PotParse.
 */
module ProgramOfThought {
  import opened Wrappers
  import opened Text
  import opened Dicts
  import opened Signatures
  import opened PotParse

  datatype Mode = Generate | Regenerate | Answer

  /** Keyword arguments: text, or Python's `None` (a `code_output` that failed). */
  type Args = Dict<Option<string>>

  /** The fields a predictor fills in. */
  type Completion = Dict<string>

  type Predictor = (Signature, Args) -> Completion

  const ONE_OUTPUT_ERROR: string := "PoT ondersteunt slechts één uitvoerveld."

  const CODE_DESC: string := "python code die de vraag beantwoordt"
  const PREVIOUS_DESC: string := "eerder gegenereerde python code die een fout gaf"
  const ERROR_DESC: string := "foutmelding van eerder gegenereerde python code"
  const OUTPUT_DESC: string := "uitvoer van eerder gegenereerde python code"

  const GIVEN: string := "Je krijgt "
  const RESPOND: string := " en je reageert met "
  const GENERATE_HEAD: string := "Genereer uitvoerbare Python-code die het correcte "
  const GENERATE_TAIL: string := " programmatiche berekent."
  const LAST_LINE_HEAD: string := "Zorg ervoor dat de laatste regel in je code de juiste waarde voor "
  const LAST_LINE_TAIL: string := " evalueert nadat je klaar bent met de berekening."
  const BECAUSE_OF_ERROR: string := " vanwege een fout in de vorige code."
  const FIX_IT: string := "Je taak is om de fout te corrigeren en de nieuwe `generated_code` te geven."
  const FINAL_HEAD: string := "Gegeven de definitieve code "
  const FINAL_MID: string := ", geef het definitieve "

  // ---------------------------------------------------------------------
  // The three signatures

  /** `fields_for_mode[mode]`; the answer mode ends with the original output field. */
  function ModeItems(mode: Mode, outName: string, outInfo: FieldInfo): seq<(string, FieldInfo)> {
    match mode
    case Generate => [("generated_code", FieldInfo(Output, "Code:", CODE_DESC, AsStr))]
    case Regenerate =>
      [("previous_code", FieldInfo(Input, "Previous Code:", PREVIOUS_DESC, AsStr)),
       ("error", FieldInfo(Input, "Error:", ERROR_DESC, Default)),
       ("generated_code", FieldInfo(Output, "Code:", CODE_DESC, AsStr))]
    case Answer =>
      [("final_generated_code", FieldInfo(Input, "Code:", CODE_DESC, AsStr)),
       ("code_output", FieldInfo(Input, "Code Output:", OUTPUT_DESC, Default)),
       (outName, outInfo)]
  }

  /** `_generate_signature(mode)`: a copy of the original inputs, updated with the mode's fields. */
  function ModeFields(sig: Signature, outName: string, mode: Mode): (f: Fields)
    requires Valid(sig.fields) && outName in sig.fields.vals
    ensures Valid(f)
    ensures forall k :: k in f.vals <==> k in InputNames(sig) || k in Names(ModeItems(mode, outName, sig.fields.vals[outName]))
  {
    PutAll(FromItems(InputItems(sig)), ModeItems(mode, outName, sig.fields.vals[outName]))
  }

  /** `_generate_instruction(mode)`: the mode signature's inputs in backticks,
      and the original output in backticks. */
  function ModeInstruction(sig: Signature, outName: string, mode: Mode): string
    requires Valid(sig.fields) && outName in sig.fields.vals
  {
    var inputs := QuotedList(InputNames(Signature(ModeFields(sig, outName, mode), None)));
    var output := "`" + outName + "`";
    match mode
    case Generate =>
      Join([GIVEN + inputs + RESPOND + output + ".",
            GENERATE_HEAD + output + GENERATE_TAIL,
            LAST_LINE_HEAD + output + LAST_LINE_TAIL], "\n")
    case Regenerate => Join([GIVEN + inputs + BECAUSE_OF_ERROR, FIX_IT], "\n")
    case Answer => Join([FINAL_HEAD + inputs + FINAL_MID + output + "."], "\n")
  }

  /** `dspy.Signature(self._generate_signature(mode).fields, self._generate_instruction(mode))`. */
  function ModeSignature(sig: Signature, outName: string, mode: Mode): Signature
    requires Valid(sig.fields) && outName in sig.fields.vals
  {
    Signature(ModeFields(sig, outName, mode), Some(ModeInstruction(sig, outName, mode)))
  }

  /** The names the modes add besides the original output. */
  predicate Reserved(k: string) {
    k == "generated_code" || k == "previous_code" || k == "error" || k == "final_generated_code" || k == "code_output"
  }

  /** The inputs a mode adds after the original inputs. */
  function ModeInputs(mode: Mode): seq<string> {
    match mode
    case Generate => []
    case Regenerate => ["previous_code", "error"]
    case Answer => ["final_generated_code", "code_output"]
  }

  /** The single output of a mode. */
  function ModeOutput(mode: Mode, outName: string, outInfo: FieldInfo): (string, FieldInfo) {
    match mode
    case Answer => (outName, outInfo)
    case _ => ("generated_code", FieldInfo(Output, "Code:", CODE_DESC, AsStr))
  }

  /** The original output, an output field, is not among the inputs. */
  lemma OutputIsNoInput(sig: Signature, outName: string)
    requires Valid(sig.fields) && outName in sig.fields.vals && sig.fields.vals[outName].role == Output
    ensures outName !in InputNames(sig)
  {
  }

  /** The original inputs have pairwise different names. */
  lemma InputNamesDistinct(sig: Signature)
    requires Valid(sig.fields)
    ensures Distinct(InputNames(sig))
  {
    OfRoleDistinct(Items(sig.fields), Input);
  }

  /** When no original input uses a name the mode adds, the mode signature lists
      the original inputs first, then the mode's fields in their own order. */
  lemma ModeLayout(sig: Signature, outName: string, mode: Mode)
    requires Valid(sig.fields) && outName in sig.fields.vals && sig.fields.vals[outName].role == Output
    requires !Reserved(outName) && forall k :: k in InputNames(sig) ==> !Reserved(k)
    ensures Items(ModeFields(sig, outName, mode)) == InputItems(sig) + ModeItems(mode, outName, sig.fields.vals[outName])
  {
    var ins := InputItems(sig);
    var items := ModeItems(mode, outName, sig.fields.vals[outName]);
    InputNamesDistinct(sig);
    FromItemsItems(ins);
    OutputIsNoInput(sig, outName);
    ModeNamesDistinct(mode, outName, sig.fields.vals[outName]);
    FreshModeItems(sig, outName, mode);
    LayoutOf(FromItems(ins), ins, items);
  }

  /** None of the mode's names is already a key of the copied inputs. */
  lemma FreshModeItems(sig: Signature, outName: string, mode: Mode)
    requires Valid(sig.fields) && outName in sig.fields.vals && outName !in InputNames(sig)
    requires forall k :: k in InputNames(sig) ==> !Reserved(k)
    ensures var items := ModeItems(mode, outName, sig.fields.vals[outName]);
      forall i :: 0 <= i < |items| ==> items[i].0 !in FromItems(InputItems(sig)).vals
  {
    var items := ModeItems(mode, outName, sig.fields.vals[outName]);
    var copied := FromItems(InputItems(sig));
    assert forall k :: k in copied.vals <==> k in InputNames(sig);
    ModeNames(mode, outName, sig.fields.vals[outName]);
  }

  /** A mode writes pairwise different names when the original output is not a reserved name. */
  lemma ModeNamesDistinct(mode: Mode, outName: string, outInfo: FieldInfo)
    requires !Reserved(outName)
    ensures Distinct(Names(ModeItems(mode, outName, outInfo)))
  {
  }

  /** Each name a mode writes is the original output or a reserved name. */
  lemma ModeNames(mode: Mode, outName: string, outInfo: FieldInfo)
    ensures var items := ModeItems(mode, outName, outInfo);
      forall i :: 0 <= i < |items| ==> items[i].0 == outName || Reserved(items[i].0)
  {
  }

  /** The inputs of a mode signature are the original inputs followed by the
      mode's own inputs, and its one output is `generated_code` (the original
      output for the answer mode). */
  lemma ModeInputsAndOutput(sig: Signature, outName: string, mode: Mode)
    requires Valid(sig.fields) && outName in sig.fields.vals && sig.fields.vals[outName].role == Output
    requires !Reserved(outName) && forall k :: k in InputNames(sig) ==> !Reserved(k)
    ensures InputNames(ModeSignature(sig, outName, mode)) == InputNames(sig) + ModeInputs(mode)
    ensures OutputItems(ModeSignature(sig, outName, mode)) == [ModeOutput(mode, outName, sig.fields.vals[outName])]
  {
    var ins := InputItems(sig);
    var items := ModeItems(mode, outName, sig.fields.vals[outName]);
    ModeLayout(sig, outName, mode);
    OfRoleAppend(ins, items, Input);
    OfRoleAppend(ins, items, Output);
    OfRoleAll(ins, Input);
    OfRoleNone(ins, Output);
    ModeItemRoles(mode, outName, sig.fields.vals[outName]);
    NamesConcat(ins, OfRole(items, Input));
  }

  /** The roles within a mode's own fields. */
  lemma ModeItemRoles(mode: Mode, outName: string, outInfo: FieldInfo)
    requires outInfo.role == Output
    ensures Names(OfRole(ModeItems(mode, outName, outInfo), Input)) == ModeInputs(mode)
    ensures OfRole(ModeItems(mode, outName, outInfo), Output) == [ModeOutput(mode, outName, outInfo)]
  {
    var items := ModeItems(mode, outName, outInfo);
    if mode == Generate {
      OfRoleSingle(items[0], Input);
      OfRoleSingle(items[0], Output);
    } else {
      ThreeItemRoles(items[0], items[1], items[2]);
    }
  }

  /** The inputs `_generate_instruction` lists: the original inputs, then the
      mode's own. */
  lemma ModeInstructionInputs(sig: Signature, outName: string, mode: Mode)
    requires Valid(sig.fields) && outName in sig.fields.vals && sig.fields.vals[outName].role == Output
    requires !Reserved(outName) && forall k :: k in InputNames(sig) ==> !Reserved(k)
    ensures InputNames(Signature(ModeFields(sig, outName, mode), None)) == InputNames(sig) + ModeInputs(mode)
  {
    ModeInputsAndOutput(sig, outName, mode);
  }

  /** The generate instruction, written out: the original inputs in backticks,
      and the original output in backticks on each of its three lines. */
  lemma GenerateInstruction(sig: Signature, outName: string)
    requires Valid(sig.fields) && outName in sig.fields.vals && sig.fields.vals[outName].role == Output
    requires !Reserved(outName) && forall k :: k in InputNames(sig) ==> !Reserved(k)
    ensures var inputs := QuotedList(InputNames(sig));
      var output := "`" + outName + "`";
      ModeInstruction(sig, outName, Generate)
        == (GIVEN + inputs + RESPOND + output + ".") + "\n"
           + (GENERATE_HEAD + output + GENERATE_TAIL) + "\n"
           + (LAST_LINE_HEAD + output + LAST_LINE_TAIL)
  {
    ModeInstructionInputs(sig, outName, Generate);
    assert InputNames(sig) + ModeInputs(Generate) == InputNames(sig);
    var inputs := QuotedList(InputNames(sig));
    var output := "`" + outName + "`";
    assert inputs == QuotedList(InputNames(Signature(ModeFields(sig, outName, Generate), None)));
    var a, b, c := GIVEN + inputs + RESPOND + output + ".", GENERATE_HEAD + output + GENERATE_TAIL,
                   LAST_LINE_HEAD + output + LAST_LINE_TAIL;
    assert ModeInstruction(sig, outName, Generate) == Join([a, b, c], "\n");
    JoinThree(a, b, c, "\n");
  }

  /** The regenerate instruction, written out: the original inputs, then
      `previous_code` and `error`, in backticks, and the request to fix it. */
  lemma RegenerateInstruction(sig: Signature, outName: string)
    requires Valid(sig.fields) && outName in sig.fields.vals && sig.fields.vals[outName].role == Output
    requires !Reserved(outName) && forall k :: k in InputNames(sig) ==> !Reserved(k)
    ensures ModeInstruction(sig, outName, Regenerate)
      == (GIVEN + QuotedList(InputNames(sig) + ["previous_code", "error"]) + BECAUSE_OF_ERROR) + "\n" + FIX_IT
  {
    ModeInstructionInputs(sig, outName, Regenerate);
    JoinTwo(GIVEN + QuotedList(InputNames(sig) + ["previous_code", "error"]) + BECAUSE_OF_ERROR, FIX_IT, "\n");
  }

  /** The answer instruction, written out: the original inputs, then
      `final_generated_code` and `code_output`, in backticks, and the original
      output in backticks. */
  lemma AnswerInstruction(sig: Signature, outName: string)
    requires Valid(sig.fields) && outName in sig.fields.vals && sig.fields.vals[outName].role == Output
    requires !Reserved(outName) && forall k :: k in InputNames(sig) ==> !Reserved(k)
    ensures var output := "`" + outName + "`";
      ModeInstruction(sig, outName, Answer)
        == FINAL_HEAD + QuotedList(InputNames(sig) + ["final_generated_code", "code_output"]) + FINAL_MID + output + "."
  {
    ModeInstructionInputs(sig, outName, Answer);
    var inputs := QuotedList(InputNames(Signature(ModeFields(sig, outName, Answer), None)));
    var output := "`" + outName + "`";
    assert inputs == QuotedList(InputNames(sig) + ["final_generated_code", "code_output"]);
    assert ModeInstruction(sig, outName, Answer) == Join([FINAL_HEAD + inputs + FINAL_MID + output + "."], "\n");
  }

  /** Two inputs followed by an output. */
  lemma ThreeItemRoles(a: (string, FieldInfo), b: (string, FieldInfo), c: (string, FieldInfo))
    requires a.1.role == Input && b.1.role == Input && c.1.role == Output
    ensures Names(OfRole([a, b, c], Input)) == [a.0, b.0]
    ensures OfRole([a, b, c], Output) == [c]
  {
    ThreeInputs(a, b, c);
    ThreeOutputs(a, b, c);
  }

  lemma ThreeInputs(a: (string, FieldInfo), b: (string, FieldInfo), c: (string, FieldInfo))
    requires a.1.role == Input && b.1.role == Input && c.1.role == Output
    ensures OfRole([a, b, c], Input) == [a, b]
  {
    OfRoleSingle(a, Input);
    OfRoleSingle(b, Input);
    OfRoleSingle(c, Input);
    OfRoleThree(a, b, c, Input);
  }

  lemma ThreeOutputs(a: (string, FieldInfo), b: (string, FieldInfo), c: (string, FieldInfo))
    requires a.1.role == Input && b.1.role == Input && c.1.role == Output
    ensures OfRole([a, b, c], Output) == [c]
  {
    OfRoleSingle(a, Output);
    OfRoleSingle(b, Output);
    OfRoleSingle(c, Output);
    OfRoleThree(a, b, c, Output);
  }

  // ---------------------------------------------------------------------
  // forward

  /** `{name: kwargs[name] for name in input_fields}`; a missing name
      raises `KeyError` (which one is `TaskArgsRaises`). */
  function TaskArgs(names: seq<string>, kwargs: Dict<string>): (r: Result<Args>)
    ensures r.Ok? ==> Valid(r.value) && forall k :: k in r.value.vals <==> k in names
    ensures r.Ok? ==> forall k :: k in names ==> k in kwargs.vals && r.value.vals[k] == Some(kwargs.vals[k])
  {
    if names == [] then Ok(Empty())
    else
      var init := names[..|names| - 1];
      var k := names[|names| - 1];
      match TaskArgs(init, kwargs)
      case Err(m) => Err(m)
      case Ok(a) =>
        assert forall x :: x in names <==> x in init || x == k;
        if k in kwargs.vals then Ok(Put(a, k, Some(kwargs.vals[k]))) else Err(k)
  }

  /** The copy fails exactly when a name is missing, and it names the first
      missing one. */
  lemma {:induction false} TaskArgsRaises(names: seq<string>, kwargs: Dict<string>)
    ensures TaskArgs(names, kwargs).Err? <==> exists k :: k in names && k !in kwargs.vals
    ensures var r := TaskArgs(names, kwargs);
      r.Err? ==> exists i :: 0 <= i < |names| && names[i] == r.message && names[i] !in kwargs.vals
                   && forall j :: 0 <= j < i ==> names[j] in kwargs.vals
  {
    if names != [] {
      var init := names[..|names| - 1];
      var k := names[|names| - 1];
      TaskArgsRaises(init, kwargs);
      assert forall i :: 0 <= i < |init| ==> init[i] == names[i];
      assert forall x :: x in names <==> x in init || x == k;
    }
  }

  /** `error` as the loop tests it: present and not the empty string. */
  predicate Failing(error: Option<string>) {
    error.Some? && error.value != ""
  }

  /** `input_kwargs.update({"previous_code": code, "error": error})`. */
  function RetryArgs(args: Args, ex: Executed): (r: Args)
    ensures Valid(args) ==> Valid(r)
    ensures Get(r, "previous_code") == Some(Some(ex.code)) && Get(r, "error") == Some(ex.error)
    ensures forall k :: k != "previous_code" && k != "error" ==> Get(r, k) == Get(args, k)
  {
    Put(Put(args, "previous_code", Some(ex.code)), "error", ex.error)
  }

  /** `input_kwargs.update({"final_generated_code": code, "code_output": output})`. */
  function AnswerArgs(args: Args, ex: Executed): (r: Args)
    ensures Valid(args) ==> Valid(r)
    ensures Get(r, "final_generated_code") == Some(Some(ex.code)) && Get(r, "code_output") == Some(ex.output)
    ensures forall k :: k != "final_generated_code" && k != "code_output" ==> Get(r, k) == Get(args, k)
  {
    Put(Put(args, "final_generated_code", Some(ex.code)), "code_output", ex.output)
  }

  /** Where the retry loop ends: the arguments, the last attempt, the failed
      attempt the last regeneration was shown (the first attempt when no
      regeneration ran), how many regenerations ran, and whether it gave up. */
  datatype Retried = Retried(args: Args, last: Executed, prev: Executed, rounds: nat, gaveUp: bool)

  /** `while hop < max_iters and error`, from hop `hop` with attempt `ex`:
      regenerate with the previous code and error, parse, execute; give up
      as soon as the counter reaches `n`, whatever the last attempt gave.
      Each regeneration is asked with the arguments updated by the failed
      attempt before it, and the other arguments are never touched. */
  function Retry(regenerate: Signature, hop: nat, n: nat, args: Args, ex: Executed,
                 lm: Predictor, reflow: string -> string, run: Interpreter): (r: Retried)
    requires hop <= n
    ensures r.rounds <= n - hop
    ensures r.rounds == 0 <==> hop == n || !Failing(ex.error)
    ensures r.gaveUp <==> hop < n && r.rounds == n - hop && Failing(ex.error)
    ensures !r.gaveUp && hop < n ==> !Failing(r.last.error)
    ensures r.rounds == 0 ==> r.args == args && r.last == ex
    ensures r.rounds == 1 ==> r.prev == ex
    ensures r.rounds > 0 ==>
      && Failing(r.prev.error)
      && Get(r.args, "previous_code") == Some(Some(r.prev.code))
      && Get(r.args, "error") == Some(r.prev.error)
      && r.last == Attempt(lm(regenerate, r.args), reflow, run)
    ensures forall k :: k != "previous_code" && k != "error" ==> Get(r.args, k) == Get(args, k)
    decreases n - hop
  {
    if hop == n || !Failing(ex.error) then Retried(args, ex, ex, 0, false)
    else
      var next := RetryArgs(args, ex);
      var attempt := Attempt(lm(regenerate, next), reflow, run);
      if hop + 1 == n then Retried(next, attempt, ex, 1, true)
      else
        var r := Retry(regenerate, hop + 1, n, next, attempt, lm, reflow, run);
        Retried(r.args, r.last, if r.rounds == 0 then ex else r.prev, r.rounds + 1, r.gaveUp)
  }

  /** One regeneration followed by the rest of the loop: when the counter is
      not yet at its last step, the loop from `hop` asks the regenerate
      predictor with the arguments updated by the failed attempt `ex`, and
      then goes on exactly as the loop from `hop + 1` with those arguments and
      that new attempt. So every regeneration, not only the last, is shown
      the code and error of the attempt just before it. */
  lemma RetryUnfolds(regenerate: Signature, hop: nat, n: nat, args: Args, ex: Executed,
                     lm: Predictor, reflow: string -> string, run: Interpreter)
    requires hop + 1 < n && Failing(ex.error)
    ensures var next := RetryArgs(args, ex);
      var r := Retry(regenerate, hop, n, args, ex, lm, reflow, run);
      var rest := Retry(regenerate, hop + 1, n, next, Attempt(lm(regenerate, next), reflow, run), lm, reflow, run);
      && Get(next, "previous_code") == Some(Some(ex.code))
      && Get(next, "error") == Some(ex.error)
      && r.args == rest.args && r.last == rest.last && r.gaveUp == rest.gaveUp
      && r.rounds == rest.rounds + 1
      && r.prev == (if rest.rounds == 0 then ex else rest.prev)
  {
  }

  /** What `forward` does: raise on a missing input, give up (`None`), or answer. */
  datatype Outcome = Raised(key: string) | GaveUp | Answered(prediction: Completion)

  /** `forward(**kwargs)` with the three signatures and `max_iters == n`,
      with the number of regenerations it ran. */
  function Run(generate: Signature, regenerate: Signature, answer: Signature, names: seq<string>, n: nat,
               kwargs: Dict<string>, lm: Predictor, reflow: string -> string, run: Interpreter): (Outcome, nat)
  {
    match TaskArgs(names, kwargs)
    case Err(k) => (Raised(k), 0)
    case Ok(args) =>
      var first := Attempt(lm(generate, args), reflow, run);
      Conclude(answer, Retry(regenerate, 0, n, args, first, lm, reflow, run), lm)
  }

  /** After the loop: `None` when it gave up, otherwise the answer predictor
      on the arguments updated with the last code and its output. */
  function Conclude(answer: Signature, r: Retried, lm: Predictor): (Outcome, nat) {
    if r.gaveUp then (GaveUp, r.rounds)
    else (Answered(lm(answer, AnswerArgs(r.args, r.last))), r.rounds)
  }

  /** `forward` regenerates at most `n` times; it gives up exactly when all
      `n` regenerations ran, and otherwise answers from an attempt that did
      not fail (or from the first attempt when `n == 0`). */
  lemma RunBounds(generate: Signature, regenerate: Signature, answer: Signature, names: seq<string>, n: nat,
                  kwargs: Dict<string>, lm: Predictor, reflow: string -> string, run: Interpreter)
    ensures var (o, rounds) := Run(generate, regenerate, answer, names, n, kwargs, lm, reflow, run);
      && rounds <= n
      && (o.GaveUp? ==> n > 0 && rounds == n)
      && (o.Answered? ==> rounds < n || n == 0)
  {
  }

  /** When the first attempt does not fail, nothing is regenerated and the
      answer predictor sees that attempt's code and output. */
  lemma FirstSuccessAnswers(generate: Signature, regenerate: Signature, answer: Signature, names: seq<string>, n: nat,
                            kwargs: Dict<string>, lm: Predictor, reflow: string -> string, run: Interpreter, args: Args)
    requires TaskArgs(names, kwargs) == Ok(args)
    requires !Failing(Attempt(lm(generate, args), reflow, run).error)
    ensures Run(generate, regenerate, answer, names, n, kwargs, lm, reflow, run)
      == (Answered(lm(answer, AnswerArgs(args, Attempt(lm(generate, args), reflow, run)))), 0)
  {
  }

  /** With `max_iters == 0` the loop never runs: the answer is asked for even
      when the first attempt failed, with `code_output` set to `None`. */
  lemma NoRetriesAnswersAnyway(generate: Signature, regenerate: Signature, answer: Signature, names: seq<string>,
                               kwargs: Dict<string>, lm: Predictor, reflow: string -> string, run: Interpreter, args: Args)
    requires TaskArgs(names, kwargs) == Ok(args)
    requires Failing(Attempt(lm(generate, args), reflow, run).error)
    ensures var first := Attempt(lm(generate, args), reflow, run);
      && Run(generate, regenerate, answer, names, 0, kwargs, lm, reflow, run) == (Answered(lm(answer, AnswerArgs(args, first))), 0)
      && Get(AnswerArgs(args, first), "code_output") == Some(None)
  {
  }

  /** The last permitted regeneration is discarded: the loop gives up after
      it even when its code ran without error. */
  lemma GivesUpDespiteLastSuccess(regenerate: Signature, n: nat, args: Args, ex: Executed,
                                  lm: Predictor, reflow: string -> string, run: Interpreter)
    requires n >= 1 && Failing(ex.error)
    requires Attempt(lm(regenerate, RetryArgs(args, ex)), reflow, run).error.None?
    ensures Retry(regenerate, n - 1, n, args, ex, lm, reflow, run).gaveUp
  {
  }

  /** An exception whose message is empty does not count as a failure: no
      regeneration follows, and the answer sees no output. */
  lemma EmptyMessageIsNoFailure(code: string, run: Interpreter)
    requires code != [] && run(code) == Err("")
    ensures !Failing(ExecuteCode(code, run).error) && ExecuteCode(code, run).output.None?
  {
  }

  class ProgramOfThought {
    const signature: Signature
    const maxIters: nat
    const outputName: string
    const generate: Signature
    const regenerate: Signature
    const answer: Signature

    /** What `__init__` establishes: one output field and the three mode signatures. */
    ghost predicate Valid() {
      && Dicts.Valid(signature.fields)
      && OutputNames(signature) == [outputName]
      && outputName in signature.fields.vals
      && generate == ModeSignature(signature, outputName, Generate)
      && regenerate == ModeSignature(signature, outputName, Regenerate)
      && answer == ModeSignature(signature, outputName, Answer)
    }

    /** `__init__` once its single-output assertion has passed. */
    constructor (signature: Signature, maxIters: nat)
      requires Dicts.Valid(signature.fields) && |OutputNames(signature)| == 1
      ensures Valid() && this.signature == signature && this.maxIters == maxIters
      ensures this.outputName == OutputNames(signature)[0]
    {
      var out := OutputNames(signature)[0];
      SoleOutput(signature);
      assert OutputNames(signature) == [out];
      this.signature := signature;
      this.maxIters := maxIters;
      this.outputName := out;
      this.generate := ModeSignature(signature, out, Generate);
      this.regenerate := ModeSignature(signature, out, Regenerate);
      this.answer := ModeSignature(signature, out, Answer);
    }

    /** `forward(**kwargs)`. */
    method Forward(kwargs: Dict<string>, lm: Predictor, reflow: string -> string, run: Interpreter)
      returns (o: Outcome, regenerations: nat)
      requires Dicts.Valid(signature.fields)
      ensures (o, regenerations) == Run(generate, regenerate, answer, InputNames(signature), maxIters, kwargs, lm, reflow, run)
    {
      var copied := TaskArgs(InputNames(signature), kwargs);
      if copied.Err? {
        assert Run(generate, regenerate, answer, InputNames(signature), maxIters, kwargs, lm, reflow, run) == (Raised(copied.message), 0);
        return Raised(copied.message), 0;
      }
      var args := copied.value;
      var codeData := lm(generate, args);
      var ex := Attempt(codeData, reflow, run);
      ghost var r0 := Retry(regenerate, 0, maxIters, args, ex, lm, reflow, run);
      assert Run(generate, regenerate, answer, InputNames(signature), maxIters, kwargs, lm, reflow, run) == Conclude(answer, r0, lm);
      var hop := 0;
      while hop < maxIters && Failing(ex.error)
        invariant hop <= maxIters
        invariant var r := Retry(regenerate, hop, maxIters, args, ex, lm, reflow, run);
          r.args == r0.args && r.last == r0.last && r.gaveUp == r0.gaveUp && hop + r.rounds == r0.rounds
        decreases maxIters - hop
      {
        ghost var prevArgs, prevEx := args, ex;
        args := RetryArgs(args, ex);
        codeData := lm(regenerate, args);
        ex := Attempt(codeData, reflow, run);
        hop := hop + 1;
        if hop == maxIters {
          assert Retry(regenerate, hop - 1, maxIters, prevArgs, prevEx, lm, reflow, run) == Retried(args, ex, prevEx, 1, true);
          assert Conclude(answer, r0, lm) == (GaveUp, hop);
          return GaveUp, hop;
        }
      }
      assert Retry(regenerate, hop, maxIters, args, ex, lm, reflow, run) == Retried(args, ex, ex, 0, false);
      assert r0.args == args && r0.last == ex && !r0.gaveUp && r0.rounds == hop;
      assert Conclude(answer, r0, lm) == (Answered(lm(answer, AnswerArgs(args, ex))), hop);
      args := AnswerArgs(args, ex);
      o := Answered(lm(answer, args));
      regenerations := hop;
    }
  }

  /** The single output of a one-output signature is a field with the output role. */
  lemma SoleOutput(sig: Signature)
    requires Valid(sig.fields) && |OutputNames(sig)| == 1
    ensures var k := OutputNames(sig)[0]; k in sig.fields.vals && sig.fields.vals[k].role == Output
  {
    var outs := OutputItems(sig);
    var j :| 0 <= j < |Items(sig.fields)| && Items(sig.fields)[j] == outs[0];
  }

  /** `ProgramOfThought(signature, max_iters)`: fails unless the signature
      has exactly one output field. */
  method NewProgramOfThought(signature: Signature, maxIters: nat) returns (r: Result<ProgramOfThought>)
    requires Valid(signature.fields)
    ensures r.Err? <==> |OutputNames(signature)| != 1
    ensures r.Err? ==> r.message == ONE_OUTPUT_ERROR
    ensures r.Ok? ==> r.value.Valid() && r.value.signature == signature && r.value.maxIters == maxIters
  {
    if |OutputNames(signature)| == 1 {
      var pot := new ProgramOfThought(signature, maxIters);
      r := Ok(pot);
    } else {
      r := Err(ONE_OUTPUT_ERROR);
    }
  }
}
