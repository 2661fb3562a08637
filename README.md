# dspy predictors in Dafny

This project models four predictor modules of dspy, a framework for programming language-model pipelines. It proves what they do with their signatures, their arguments and the text the model writes back.

- **ReAct** (`dspy/predict/react.py`) is the reasoning-and-acting agent. Construction does four things:
  - it builds a tool registry keyed by tool name and adds a synthetic `Finish` entry;
  - it writes numbered instructions that list every entry;
  - it builds one signature per hop. Hop `i` has the original inputs, `Thought_j` and `Action_j` for `j <= i`, and `Observation_j` for `j < i`. The fields of hop `i` itself are the outputs.

  `act` parses the `name[arg]` action and does one of three things:
  - for `Finish`, it returns the value;
  - for a tool that answers, it calls the tool and writes `Observation_{hop+1}`;
  - for any failure, it writes a fixed diagnostic.

  `forward` runs at most `max_iters` hops. It stops at the first non-empty `Finish` value and returns that value with the observations gathered so far. With `max_iters == 0` it raises, because `action_val` is never bound. It also raises when the output field is named `observations`, since that name clashes with the `observations` keyword.
- **ProgramOfThought** (`dspy/predict/program_of_thought.py`) asks the model for Python code. It has three signatures: generate, regenerate and answer.
  - `parse_code` cuts the reply at `---` or three newlines, takes the body of a ```` ```python ```` fence and unescapes `\n`. It rejects an empty block, and a one-line block with more than one `=`. When the last line of a multi-line block assigns a name, it appends that name. Otherwise it reflows the block.
  - `execute_code` runs the code and turns an exception into an error message.
  - `forward` regenerates while the error is a non-empty string. Each regeneration is shown the previous code and error. When the counter reaches `max_iters`, it returns `None` without asking the answer predictor, even if that last regeneration succeeded. Otherwise it asks the answer predictor with the last code and its output.
- **MultiChainComparison** (`dspy/predict/multi_chain_comparison.py`) extends a signature:
  - it appends `M` input fields `reasoning attempt_1 .. M`;
  - it prepends an output field `redenering`.

  `forward` turns each completion into a one-line attempt `«Ik probeer te… »`. It then checks there are exactly `M` attempts and passes them as keywords `reasoning_attempt_i`, which the caller's own keywords override.
- **Avatar `Tool`** (`dspy/predict/avatar/models.py`): `str(tool)` is `name`, then `(geldige invoer: type)` when the input type is a non-empty string, then `": "` and the description. `repr` is `str`.

Python's own operations are written out over `seq<char>` in `text.dfy`. These are `strip`, `split(sep, 1)`, `rsplit`, `join`, `count`, `replace("\\n", "\n")` and the decimal rendering of a number. An insertion-ordered `dict` is a key sequence plus a map (`dicts.dfy`). A signature is an ordered field dict whose fields have a role, a prefix, a description and a format (`signatures.dfy`). Its `append` and `prepend` follow dspy's behaviour: a field goes last, or first, among the fields of its role.

The three predictor objects never change their attributes after `__init__`. Each one is therefore a class with `const` fields. A `New…` method returns `Err` where the source's `__init__` fails. Each `forward` is a method with its loop, proved equal to a recursive specification function. Separate lemmas state the properties of that function.

Two things in MultiChainComparison deserve a note:
- The signature declares `reasoning attempt_i`, with a space (`multi_chain_comparison.py:19`). `forward` passes `reasoning_attempt_i`, with an underscore (`multi_chain_comparison.py:49`). The model keeps both spellings. `AttemptKeysMissInputs` proves the consequence: an attempt keyword never names an input field of the wrapped predictor, unless the original signature itself declares it.
- `forward` checks the count only after reading every completion. A completion without a reasoning or an answer therefore fails before the count is checked.

## Model

| member | source | states |
|---|---|---|
| ReactTools.BuildRegistry | dspy/predict/react.py:20-46 | the keys are exactly `Finish` and the names of the given tools (or of the retriever when none is given); every key but `Finish` holds one of those tools, under its own name; `Finish` holds the entry built from the quoted outputs; the keys come in the order each name first occurs, `Finish` at its own place or after them all |
| ReactTools.FinishListedLast | dspy/predict/react.py:42-52 | unless a tool is itself named `Finish`, the `Finish` entry is the last key, so it is listed last |
| ReactTools.RegistryLastToolWins | dspy/predict/react.py:21 | when names repeat, the last tool with a name is the one registered under it |
| ReactTools.ToolLines | dspy/predict/react.py:48-52 | one line per registry entry, `Finish` included, line `i` describing entry `i` numbered `i + 1` |
| ReactTools.FinishIsListed | dspy/predict/react.py:42-52 | the `Finish` entry appears among the numbered instruction lines |
| ReactTools.CatalogEntriesConcat | dspy/predict/react.py:73-79 | the tool list of two runs of entries is the list of the first followed by that of the second, so items follow registry order |
| ReactTools.CatalogEntryListed | dspy/predict/react.py:73-79 | every entry other than `Finish` is listed as `name[input_variable]` right after the items of the entries before it; `Finish` adds no item |
| ReactTools.CatalogEntriesParse | dspy/predict/react.py:73-79 | every `name[input_variable]` item of the action description parses back to the name and input variable of an entry other than `Finish` |
| ReactTools.ParseAction | dspy/predict/react.py:97-98 | parsing fails exactly when the first line of the stripped action has no `[`; a parsed name holds no `[` |
| ReactTools.ParseActionValue | dspy/predict/react.py:97-98 | the name is the first line up to its first `[`; the value is the rest of the line when it holds no `]`, and otherwise everything before the last `]`, with the text after it dropped |
| ReactTools.ParseActionRoundTrip | dspy/predict/react.py:97-98 | `name[arg]` parses to `(name, arg)`, the argument keeping inner brackets up to the final `]` |
| ReactTools.BracketFormIsOneLine | dspy/predict/react.py:97 | `name[arg]` without newlines survives `strip()` and taking the first line |
| ReactTools.ParseSearchExample | dspy/predict/react.py:97-98 | `Search[capital of France]` parses to `("Search", "capital of France")` |
| ReactTools.ParseWithoutBracket | dspy/predict/react.py:97 | an action without `[` does not parse |
| ReactHops.SlotKeyInjective | dspy/predict/react.py:68-86 | two per-hop field names are equal only for the same hop and kind |
| ReactHops.PutAllHop | dspy/predict/react.py:65-90 | writing a hop's field list is two `Put`s, three before the last hop |
| ReactHops.WriteHop | dspy/predict/react.py:65-90 | writing one hop keeps a dict valid |
| ReactHops.SlotsSpelledOut | dspy/predict/react.py:66-90 | the fields of hop `j` are `Thought_j`, `Action_j`, `Observation_j` with their prefixes, descriptions and format, outputs exactly when `j` is the last hop |
| ReactHops.WriteHops | dspy/predict/react.py:65-90 | the hop writes keep a dict valid |
| ReactHops.HopFields | dspy/predict/react.py:60-92 | a hop signature's fields form a valid dict |
| ReactHops.WriteHopsIsPutAll | dspy/predict/react.py:65-90 | writing hop after hop equals writing the whole per-hop field list |
| ReactHops.CopyInputs | dspy/predict/react.py:61-63 | the input-copying loop yields `dict(input_fields)` |
| ReactHops.GenerateSignature | dspy/predict/react.py:60-92 | the `_generate_signature` loops yield the hop-`iters` fields |
| ReactHops.HopSignatureList | dspy/predict/react.py:55-58 | one signature per hop, `max_iters` of them |
| ReactHops.HopSignatureListAt | dspy/predict/react.py:55-58 | index `k` holds hop `k + 1`'s fields with the shared instructions |
| ReactHops.HopSignatures | dspy/predict/react.py:55-58 | the list comprehension builds exactly that list |
| ReactHops.SlotsLayout | dspy/predict/react.py:65-90 | up to hop `iters` there are `3 * iters - 1` per-hop fields and entry `k` is field kind `k % 3` of hop `k / 3 + 1` |
| ReactHops.SlotNamesDistinct | dspy/predict/react.py:68-90 | no per-hop field name occurs twice |
| ReactHops.HopFieldsLayout | dspy/predict/react.py:60-92 | a hop signature lists the original inputs first, then the per-hop fields in order |
| ReactHops.SlotsAvoidInputs | dspy/predict/react.py:62-90 | per-hop fields are new keys when no input is so named |
| ReactHops.HopSlotsRole | dspy/predict/react.py:66 | hop `j`'s fields are outputs exactly when `j == iters` |
| ReactHops.EarlyHopNoOutput | dspy/predict/react.py:66 | a hop before the last adds no output |
| ReactHops.EarlySlotsAreInputs | dspy/predict/react.py:65-90 | all fields of earlier hops are inputs |
| ReactHops.HopOutputsAreLastHop | dspy/predict/react.py:60-92 | the outputs of the hop-`iters` signature are exactly the fields of hop `iters` |
| ReactHops.HopSignatureOutputs | dspy/predict/react.py:66-90 | every hop signature has exactly the outputs `Thought_iters`, `Action_iters` |
| ReactHops.LastHopOutputs | dspy/predict/react.py:66 | both fields of the last hop are outputs |
| ReactHops.LastHopNames | dspy/predict/react.py:68-85 | the last hop adds its thought then its action, no observation |
| ReactHops.LastObservationAbsent | dspy/predict/react.py:85-90 | `Observation_iters` is never a field of the hop-`iters` signature unless an input is so named |
| ReactHops.LastObservationNotWritten | dspy/predict/react.py:85-90 | no hop up to `iters` writes `Observation_iters` |
| ReactHops.HopAvoidsLastObservation | dspy/predict/react.py:85-90 | no single hop up to `iters` writes `Observation_iters` |
| ReactLoop.LoopFinishesAt | dspy/predict/react.py:121-122 | a hop whose `act` value is non-empty is the last; its value is the answer and its output is not merged |
| ReactLoop.LoopCallBound | dspy/predict/react.py:116-118 | the predictor is called at least once and at most once per remaining hop |
| ReactLoop.LoopStopsAtFirstFinish | dspy/predict/react.py:116-128 | no earlier hop has a non-empty value; a non-empty answer is the last hop's value; an empty answer means every hop ran without one |
| ReactLoop.LoopThreadsArguments | dspy/predict/react.py:116-123 | each hop sees the arguments merged with all earlier outputs; the finishing hop's output is not merged |
| React.ReAct.constructor | dspy/predict/react.py:15-58 | the registry, the joined instructions, the single output name and one signature per hop, as `__init__` builds them |
| React.ReAct.Interpret | dspy/predict/react.py:97-110 | an unparsable action, an unknown tool or a raising tool fail; `Finish` is terminal with its value; a tool result becomes the observation, its `passages` when present |
| React.ReAct.Act | dspy/predict/react.py:94-110 | `Finish` returns the value and leaves the output alone; otherwise `Observation_{hop+1}` is written, with the diagnostic on failure, and nothing is returned |
| React.ReAct.RaisingToolIsContained | dspy/predict/react.py:103-110 | a tool that raises yields the diagnostic observation and no value |
| React.ReAct.FinishIsTerminal | dspy/predict/react.py:100-101 | `Finish[v]` makes `act` return `v` and change nothing |
| React.ReAct.HopOutput | dspy/predict/react.py:118-119 | the action of a hop's reply is cut to its first line |
| React.ReAct.FinishShortCircuit | dspy/predict/react.py:116-122 | a first reply `Finish[v]` with non-empty `v` ends the run after one call with answer `v`, and no observation is recorded |
| React.ReAct.InitialArgs | dspy/predict/react.py:114 | the initial arguments are exactly the input fields the caller passed, with the caller's values, in the signature's input order |
| React.PresentArgs | dspy/predict/react.py:114 | the pairs name exactly the listed names the caller passed, each with the caller's value |
| React.PresentArgsDistinct | dspy/predict/react.py:114 | with distinct field names, the pairs follow the order of the names and repeat none |
| React.ObservationsSelected | dspy/predict/react.py:125 | the observations are the values of exactly the arguments whose key starts with `Observation` |
| React.ObservationsPutFresh | dspy/predict/react.py:105-125 | a new `Observation*` argument is observed after all earlier ones; any other new argument is not observed |
| React.ReAct.Hop | dspy/predict/react.py:118-121 | one loop round is the hop step of the specification loop |
| React.ReAct.RunHops | dspy/predict/react.py:116-123 | the loop's final arguments, answer and number of calls are those of the specification loop; `action_val` is bound exactly when `max_iters > 0` |
| React.ReAct.Forward | dspy/predict/react.py:113-128 | with `max_iters == 0` the unbound `action_val` error; with an output named `observations` the duplicate-keyword error; otherwise the prediction holds the observations of the final arguments and the loop's answer (or `""`); the number of predictor calls is the number of hops run |
| React.NewReAct | dspy/predict/react.py:15-26 | construction fails, with the source's message, exactly when the signature has not exactly one output; otherwise the predictor holds the registry, the joined instructions, the sole output name and the hop list that `__init__` builds |
| PotParse.Cut | dspy/predict/program_of_thought.py:131 | the cut text is a prefix of the reply |
| PotParse.CutHasNoSeparators | dspy/predict/program_of_thought.py:131 | the cut text contains neither `---` nor three newlines |
| PotParse.CutKeepsPlainText | dspy/predict/program_of_thought.py:131 | text with neither separator is kept whole |
| PotParse.FirstClose | dspy/predict/program_of_thought.py:133 | the lazy group ends at the first closing gap-and-backticks at or after its start |
| PotParse.SearchFence | dspy/predict/program_of_thought.py:133 | without an opening fence nothing matches |
| PotParse.SearchSkips | dspy/predict/program_of_thought.py:133 | starts that open no fence are skipped |
| PotParse.FenceFound | dspy/predict/program_of_thought.py:133-134 | a reply with a fenced body and no earlier backtick yields exactly the body |
| PotParse.FenceAt | dspy/predict/program_of_thought.py:133 | a fence opening at `i` with no backtick before it is the match |
| PotParse.FenceOpensAt | dspy/predict/program_of_thought.py:133 | a fence opening at `i` and closing after `body` yields `body` |
| PotParse.FenceBody | dspy/predict/program_of_thought.py:133 | the first closing after the group start is the one right after the body |
| PotParse.NoFenceKeepsCode | dspy/predict/program_of_thought.py:133-134 | without a fence or backslash the block is the cut text |
| PotParse.WordPrefix | dspy/predict/program_of_thought.py:140 | the longest prefix of `\w` characters |
| PotParse.WordPrefixOf | dspy/predict/program_of_thought.py:140 | a word followed by a non-word character is that word prefix |
| PotParse.AssignedName | dspy/predict/program_of_thought.py:140 | a matched name is a non-empty word prefix of the line |
| PotParse.AssignmentNamed | dspy/predict/program_of_thought.py:140 | `name = rhs` assigns `name` |
| PotParse.AssignedNameBefore | dspy/predict/program_of_thought.py:140 | a word followed by ` =` is the name assigned |
| PotParse.LastLine | dspy/predict/program_of_thought.py:139-140 | the last line holds no newline |
| PotParse.LastLineAfter | dspy/predict/program_of_thought.py:139-140 | the last line of `pre⏎line` is `line` |
| PotParse.TrailingNameAppended | dspy/predict/program_of_thought.py:139-142 | a multi-line block ending in `name = rhs` gets `⏎name` appended |
| PotParse.AssignmentIsLastLine | dspy/predict/program_of_thought.py:139-140 | `name = rhs` after a newline is the stripped last line |
| PotParse.AssignmentLine | dspy/predict/program_of_thought.py:140 | `name = rhs` is one line left alone by `strip()` |
| PotParse.CompleteAppendsName | dspy/predict/program_of_thought.py:141-142 | a multi-line block whose last line assigns `name` gets `⏎name` |
| PotParse.OneLineIsReflowed | dspy/predict/program_of_thought.py:141-149 | a one-line block never gets a trailing name; it is always reflowed |
| PotParse.ParseCode | dspy/predict/program_of_thought.py:129-150 | an error keeps the cut text; "empty" exactly when the block is empty; "format" exactly for a non-empty one-line block with more than one `=`; no other error is possible, so every other block parses without error to the completed block |
| PotParse.ExecuteCode | dspy/predict/program_of_thought.py:152-162 | the code is returned unchanged, with an output exactly when there is no error; empty code gives the fixed error; otherwise the output is the interpreter's result, or the error its exception message |
| PotParse.EmptyCodeIsNotRun | dspy/predict/program_of_thought.py:153-154 | empty code never reaches the interpreter and gives the fixed error |
| PotParse.ExceptionBecomesError | dspy/predict/program_of_thought.py:161-162 | an exception comes back as the error with its message |
| PotParse.AttemptRunsCompletedBlock | dspy/predict/program_of_thought.py:129-170 | an attempt on a block that is neither empty nor a crammed one-liner executes the completed block |
| PotParse.ParseErrorIsOverwritten | dspy/predict/program_of_thought.py:168-170 | a format error from parsing is discarded when the cut text then runs |
| ProgramOfThought.ModeFields | dspy/predict/program_of_thought.py:60-100 | the mode signature's keys are the original inputs and the mode's fields |
| ProgramOfThought.ModeLayout | dspy/predict/program_of_thought.py:60-100 | the mode signature lists the original inputs, then the mode's fields in order |
| ProgramOfThought.ModeNamesDistinct | dspy/predict/program_of_thought.py:62-98 | each mode writes pairwise different names |
| ProgramOfThought.ModeInputsAndOutput | dspy/predict/program_of_thought.py:60-108 | the inputs of a mode signature are the original inputs then the mode's own; its only output is `generated_code` or the original output |
| ProgramOfThought.ModeItemRoles | dspy/predict/program_of_thought.py:62-98 | the roles within each mode's fields |
| ProgramOfThought.ModeInstructionInputs | dspy/predict/program_of_thought.py:103-108 | the inputs `_generate_instruction` lists are the original inputs followed by the mode's own inputs |
| ProgramOfThought.GenerateInstruction | dspy/predict/program_of_thought.py:102-115 | the generate instruction's three lines, with the original inputs and the original output in backticks |
| ProgramOfThought.RegenerateInstruction | dspy/predict/program_of_thought.py:116-120 | the regenerate instruction's two lines, listing the original inputs then `previous_code` and `error` |
| ProgramOfThought.AnswerInstruction | dspy/predict/program_of_thought.py:121-125 | the answer instruction's one line, listing the original inputs then `final_generated_code` and `code_output`, and the original output |
| ProgramOfThought.TaskArgs | dspy/predict/program_of_thought.py:164-166 | on success the arguments are exactly the original inputs with the caller's values |
| ProgramOfThought.TaskArgsRaises | dspy/predict/program_of_thought.py:164-166 | the copy fails exactly when an input is missing, naming the first missing one |
| ProgramOfThought.RetryArgs | dspy/predict/program_of_thought.py:174 | `previous_code` and `error` are set, everything else kept |
| ProgramOfThought.AnswerArgs | dspy/predict/program_of_thought.py:183 | `final_generated_code` and `code_output` are set, everything else kept |
| ProgramOfThought.Retry | dspy/predict/program_of_thought.py:171-182 | at most `n - hop` regenerations; none when the error is falsy; gives up exactly when the counter reaches `n`; otherwise the last attempt has no error. After a regeneration, the arguments carry the code and error of the failed attempt before it, and the last attempt is the regenerate predictor's reply to them. When only one regeneration runs, it is shown the first attempt. No other argument changes |
| ProgramOfThought.RetryUnfolds | dspy/predict/program_of_thought.py:171-182 | each regeneration before the last is asked with `previous_code` and `error` of the attempt just before it, and the loop then continues from that regeneration's attempt; so every regeneration is shown its predecessor |
| ProgramOfThought.RunBounds | dspy/predict/program_of_thought.py:171-185 | at most `max_iters` regenerations; `None` only after all of them |
| ProgramOfThought.FirstSuccessAnswers | dspy/predict/program_of_thought.py:167-185 | a first attempt without error goes straight to the answer predictor |
| ProgramOfThought.NoRetriesAnswersAnyway | dspy/predict/program_of_thought.py:171-185 | with `max_iters == 0` a failed first attempt is still answered, with no output |
| ProgramOfThought.GivesUpDespiteLastSuccess | dspy/predict/program_of_thought.py:179-182 | the last regeneration is discarded even when it runs without error |
| ProgramOfThought.EmptyMessageIsNoFailure | dspy/predict/program_of_thought.py:161-172 | an exception with an empty message is not retried and leaves no output |
| ProgramOfThought.SoleOutput | dspy/predict/program_of_thought.py:20-22 | the single output name is an output field of the signature |
| ProgramOfThought.ProgramOfThought.constructor | dspy/predict/program_of_thought.py:11-59 | the three mode signatures and the output field name, as `__init__` builds them |
| ProgramOfThought.ProgramOfThought.Forward | dspy/predict/program_of_thought.py:163-185 | the outcome and the number of regenerations are those of the specification `Run` |
| ProgramOfThought.NewProgramOfThought | dspy/predict/program_of_thought.py:11-20 | construction fails, with the source's message, exactly when the signature has not exactly one output |
| MultiChainComparison.AttemptInputs | dspy/predict/multi_chain_comparison.py:17-23 | attempt `i + 1`'s field is at index `i`, `M` of them |
| MultiChainComparison.WithAttempts | dspy/predict/multi_chain_comparison.py:17-23 | every round of the `append` loop keeps the signature valid |
| MultiChainComparison.LastOutput | dspy/predict/multi_chain_comparison.py:15 | `last_key` is the last of the output names, an output field of the signature |
| MultiChainComparison.Extended | dspy/predict/multi_chain_comparison.py:17-31 | the extended signature is valid |
| MultiChainComparison.AttemptNameInjective | dspy/predict/multi_chain_comparison.py:19 | different attempts get different field names |
| MultiChainComparison.AttemptKeyInjective | dspy/predict/multi_chain_comparison.py:49 | different attempts get different keywords |
| MultiChainComparison.AttemptsLayout | dspy/predict/multi_chain_comparison.py:17-23 | after `n` rounds the inputs are the original inputs then attempts 1..n, and the outputs are unchanged |
| MultiChainComparison.AttemptsKeys | dspy/predict/multi_chain_comparison.py:17-23 | after `n` rounds the keys are the original keys and the first `n` attempt names |
| MultiChainComparison.AttemptNameFresh | dspy/predict/multi_chain_comparison.py:19 | attempt `n` is not among the earlier attempts |
| MultiChainComparison.RationaleIsNoAttempt | dspy/predict/multi_chain_comparison.py:19-26 | `redenering` is no attempt name |
| MultiChainComparison.ExtendedLayout | dspy/predict/multi_chain_comparison.py:17-31 | the wrapped predictor reads the original inputs then the `M` attempts, and writes `redenering` then the original outputs |
| MultiChainComparison.AttemptKeyIsNoAttemptName | dspy/predict/multi_chain_comparison.py:19-49 | `reasoning_attempt_i` is never `reasoning attempt_j` |
| MultiChainComparison.AttemptKeysMissInputs | dspy/predict/multi_chain_comparison.py:47-53 | no attempt keyword is an input of the extended signature unless the original signature declares it |
| MultiChainComparison.AttemptOf | dspy/predict/multi_chain_comparison.py:39-43 | a completion yields an attempt exactly when it has a reasoning and the `last_key` answer; a missing reasoning is reported first, then a missing answer; the attempt is the `«Ik probeer te…»` template around the cleaned reasoning and answer |
| MultiChainComparison.Collect | dspy/predict/multi_chain_comparison.py:38-43 | the loop succeeds exactly when every element does, with one value per element in order |
| MultiChainComparison.FirstFailureStays | dspy/predict/multi_chain_comparison.py:38-43 | once a prefix fails, the loop fails the same way |
| MultiChainComparison.AttemptsInOrder | dspy/predict/multi_chain_comparison.py:38-43 | one attempt per completion, in order, exactly when all completions can be read |
| MultiChainComparison.AttemptArgs | dspy/predict/multi_chain_comparison.py:48-51 | attempt `i` is paired with `reasoning_attempt_{i+1}` |
| MultiChainComparison.RunChecksCount | dspy/predict/multi_chain_comparison.py:38-45 | the predictor is called exactly when all completions are readable and there are `M`; otherwise the count message |
| MultiChainComparison.AttemptIsForwarded | dspy/predict/multi_chain_comparison.py:47-53 | attempt `i` reaches the predictor unless the caller passed that keyword |
| MultiChainComparison.CallerWins | dspy/predict/multi_chain_comparison.py:47-53 | a caller keyword reaches the predictor with the caller's value |
| MultiChainComparison.OnlyFirstLineCounts | dspy/predict/multi_chain_comparison.py:39-40 | only the first line of a reasoning or answer is kept |
| MultiChainComparison.CleanIsOneLine | dspy/predict/multi_chain_comparison.py:39-40 | the kept reasoning and answer are single lines |
| MultiChainComparison.ReadAttempt | dspy/predict/multi_chain_comparison.py:39-43 | one loop round computes the completion's attempt or its missing attribute |
| MultiChainComparison.MultiChainComparison.constructor | dspy/predict/multi_chain_comparison.py:9-33 | `M`, `last_key` and the extended signature, as `__init__` builds them |
| MultiChainComparison.MultiChainComparison.Forward | dspy/predict/multi_chain_comparison.py:35-54 | the result is that of the specification `Run` |
| MultiChainComparison.NewMultiChainComparison | dspy/predict/multi_chain_comparison.py:13-15 | construction fails exactly when the signature has no output field; otherwise the predictor holds `M`, the extended signature and `last_key`, the last output name |
| AvatarModels.NewTool | dspy/predict/avatar/models.py:5-9 | a new tool has no input type by default |
| AvatarModels.Str | dspy/predict/avatar/models.py:11-12 | the rendering starts with the name and ends with `": "` and the description |
| AvatarModels.Repr | dspy/predict/avatar/models.py:14-15 | `repr` is `str` |
| AvatarModels.PlainWithoutInputType | dspy/predict/avatar/models.py:9-12 | with no or an empty input type the rendering is `name: desc` |
| AvatarModels.DefaultRendering | dspy/predict/avatar/models.py:9-12 | a default tool renders as `name: desc` |
| AvatarModels.MissingDescription | dspy/predict/avatar/models.py:8-12 | a missing description renders as `None` |
| AvatarModels.HintShownExactly | dspy/predict/avatar/models.py:12 | the character after the name is `(` exactly when the input type is shown, `:` otherwise |
| AvatarModels.HintShowsInputType | dspy/predict/avatar/models.py:12 | with a truthy input type the line is exactly the name, `(geldige invoer: type)`, `": "` and the description |
| Signatures.AppendInputLayout | dspy/predict/multi_chain_comparison.py:18-23 | `append` of an input puts it after the inputs and leaves the outputs alone |
| Signatures.PrependOutputLayout | dspy/predict/multi_chain_comparison.py:25-31 | `prepend` of an output puts it before the outputs and leaves the inputs alone |
| Dicts.PutAllLastWins | dspy/predict/react.py:21 | a key ends with the value of its last pair |
| Dicts.PutAllFirstOrder | dspy/predict/react.py:21 | `dict(items)` lists each name once, in the order of its first pair |
| Dicts.FirstOrderSnoc | dspy/predict/react.py:42 | writing one more key keeps the keys in the order of first occurrence |
| Dicts.UpdateWins | dspy/predict/multi_chain_comparison.py:47-53 | after `update`, every key of the update holds its value |
| Dicts.UpdateKeeps | dspy/predict/multi_chain_comparison.py:47-53 | `update` leaves other keys as they were |
| Text.Partition | dspy/predict/react.py:97 | `split("[", 1)` fails exactly when `[` is absent, else the parts rejoin to the string |
| Text.BeforeLast | dspy/predict/react.py:98 | `rsplit("]", 1)[0]` stops before the last `]`, or is the whole string |
| Text.BeforeLastSplit | dspy/predict/react.py:98 | without the character the whole string is kept; with it, the string is the kept part, the character and a rest without it |
| Text.FirstLine | dspy/predict/react.py:97 | the first line is a newline-free prefix followed by a newline or the end |
| Text.StripKeepsMiddle | dspy/predict/react.py:97 | `strip()` keeps a slice of the string and removes only whitespace |
| Text.UnescapeEscape | dspy/predict/program_of_thought.py:134 | unescaping undoes escaping for text without backslashes |
| Text.NatToStringInjective | dspy/predict/react.py:68-86 | different hop numbers render differently |

## Left out

- The language model, the tools, the default `dspy.Retrieve` and the Python interpreter are arrow-typed parameters. The model covers neither their behaviour nor their nondeterminism.
- `dspy.ChainOfThought` adds a rationale field to each ProgramOfThought signature. dspy/predict/chain_of_thought.py is not part of this model; the predictors see the signatures as built here.
- Temperature and `**config` passed to `Predict`, and `import_white_list` passed to the interpreter, are not modelled; they only configure external calls.
- The unused `instr` list in `ProgramOfThought.__init__` (program_of_thought.py:30-40) and the `print` calls are side-effect-only and are left out.
- The two reflow regular expressions of `parse_code` (program_of_thought.py:144-149) are a parameter `reflow: string -> string`. Only the fact that reflowing happens, and when, is modelled.
- `PotParse.WordPrefix`: `\w` is modelled as ASCII letters, digits and `_`. Python's `\w` also matches Unicode letters and digits.
- `ensure_signature` (parsing a signature string) and `dspy.Signature` internals are not part of this model. dspy/signatures/signature.py is not part of this model: `Signatures.Append` and `Signatures.Prepend` follow its documented insertion behaviour.
- `dsp.passages2text` is represented only by a format tag on the observation fields.
- Argument values are text (`Value` in ReAct, `string` elsewhere); ProgramOfThought's `None` is `Option`. Python's dynamic typing of other values is not modelled.
- `React.ReAct.Forward` requires only the shape established by construction (one predictor per hop, valid dicts); it does not require the full `Valid()` invariant.
- `MultiChainComparison.AttemptOf`: the Python exception raised when `rationale` or `last_key` is missing is reported by the missing name, not by an exception type.
- `MultiChainComparison.CleanIsOneLine`: it states that the reasoning and answer are one line each; it does not state the attempt text as a whole is one line.
- `React.ReAct.Forward`: the two errors it raises are returned as `Err` with a message naming the Python exception (`UnboundLocalError`, `TypeError`), not as exceptions.
- Default arguments are not modelled: ReAct's `max_iters=5` and `num_results=3`, ProgramOfThought's `max_iters=3` and MultiChainComparison's `M=3` are ordinary parameters of the constructors. `num_results` only configures the default retriever, which is itself a parameter.
- Action and ActionOutput (avatar/models.py:18-26) only store fields; pydantic validation is a library and is left out. dspy/predict/avatar/signatures.py holds only field declarations and is left out.
