/**
 * MultiChainComparison: a predictor that is shown M earlier reasoning
 * attempts and writes a corrected reasoning and the answer. Construction
 * extends the signature with one input per attempt and a leading reasoning
 * output; `forward` turns each completion into a one-line attempt, checks
 * that there are exactly M of them, and passes them on as keyword arguments
 * below the caller's own.
 *
 * The attempts are passed under `reasoning_attempt_i` while the signature
 * declares `reasoning attempt_i` (with a space); the model keeps both names
 * as the source writes them, and `AttemptKeysMissInputs` states the
 * consequence.
 */
module MultiChainComparison {
  import opened Wrappers
  import opened Text
  import opened Dicts
  import opened Signatures

  type Completion = Dict<string>

  /** The wrapped `Predict`: a signature and keyword arguments to the fields it fills in. */
  type Predictor = (Signature, Dict<string>) -> Completion

  const ATTEMPT_NAME: string := "reasoning attempt_"
  const ATTEMPT_KEY: string := "reasoning_attempt_"
  const ATTEMPT_PREFIX: string := "Studentpoging #"
  const ATTEMPT_DESC: string := "${reasoning attempt}"
  const RATIONALE: string := "redenering"
  const RATIONALE_PREFIX: string := "Nauwkeurige Redenering: Bedankt iedereen. Laten we nu holistisch"
  const RATIONALE_DESC: string := "${corrected reasoning}"
  /** The attribute `forward` reads the reasoning from. */
  const RATIONALE_ATTR: string := "rationale"
  const TRY: string := "«Ik probeer te"
  const UNSURE: string := " Ik weet het niet zeker, maar mijn voorspelling is "
  const CLOSE: string := "»"
  const COUNT_HEAD: string := "Het aantal pogingen ("
  const COUNT_MID: string := ") komt niet overeen met het verwachte aantal M ("
  const COUNT_TAIL: string := "). Stel de juiste waarde voor M in bij het initialiseren van MultiChainVergelijking."
  /** Python's message when `*_, last_key = ...` meets no output field. */
  const NO_OUTPUT: string := "not enough values to unpack (expected at least 1, got 0)"

  // ---------------------------------------------------------------------
  // The extended signature

  /** The input field name of attempt `i` (counted from 1). */
  function AttemptName(i: nat): string {
    ATTEMPT_NAME + NatToString(i)
  }

  /** The keyword `forward` passes attempt `i` under. */
  function AttemptKey(i: nat): string {
    ATTEMPT_KEY + NatToString(i)
  }

  function AttemptField(i: nat): FieldInfo {
    FieldInfo(Input, ATTEMPT_PREFIX + NatToString(i) + ":", ATTEMPT_DESC, Default)
  }

  function RationaleField(): FieldInfo {
    FieldInfo(Output, RATIONALE_PREFIX, RATIONALE_DESC, Default)
  }

  /** The fields of attempts 1 to `n`, in order. */
  function AttemptInputs(n: nat): (r: seq<(string, FieldInfo)>)
    ensures |r| == n && forall i :: 0 <= i < n ==> r[i] == (AttemptName(i + 1), AttemptField(i + 1))
  {
    seq(n, i requires 0 <= i < n => (AttemptName(i + 1), AttemptField(i + 1)))
  }

  /** The signature after the first `n` rounds of the `append` loop. */
  function WithAttempts(sig: Signature, n: nat): (r: Signature)
    requires Valid(sig.fields)
    ensures Valid(r.fields)
  {
    if n == 0 then sig else Append(WithAttempts(sig, n - 1), AttemptName(n), AttemptField(n))
  }

  /** `last_key`: the name of the signature's last output field. */
  function LastOutput(sig: Signature): (k: string)
    requires Valid(sig.fields) && OutputNames(sig) != []
    ensures k == OutputNames(sig)[|OutputNames(sig)| - 1]
    ensures k in sig.fields.vals && sig.fields.vals[k].role == Output
  {
    var outs := OutputItems(sig);
    RoleItemsAreFields(sig, Output);
    outs[|outs| - 1].0
  }

  /** The signature of the wrapped predictor. */
  function Extended(sig: Signature, m: nat): (r: Signature)
    requires Valid(sig.fields)
    ensures Valid(r.fields)
  {
    Prepend(WithAttempts(sig, m), RATIONALE, RationaleField())
  }

  /** Different attempts have different field names. */
  lemma AttemptNameInjective(i: nat, j: nat)
    requires AttemptName(i) == AttemptName(j)
    ensures i == j
  {
    CancelPrefix(ATTEMPT_NAME, NatToString(i), NatToString(j));
    NatToStringInjective(i, j);
  }

  /** Different attempts are passed under different keywords. */
  lemma AttemptKeyInjective(i: nat, j: nat)
    requires AttemptKey(i) == AttemptKey(j)
    ensures i == j
  {
    CancelPrefix(ATTEMPT_KEY, NatToString(i), NatToString(j));
    NatToStringInjective(i, j);
  }

  /** Attempt names are fresh in a signature that has none of them. */
  predicate FreshAttempts(sig: Signature, m: nat) {
    forall i :: 1 <= i <= m ==> AttemptName(i) !in sig.fields.vals
  }

  /** Appending `n` attempts adds their fields, in order, after the original
      inputs, and leaves the outputs alone. */
  lemma {:induction false} AttemptsLayout(sig: Signature, n: nat)
    requires Valid(sig.fields) && FreshAttempts(sig, n)
    ensures InputItems(WithAttempts(sig, n)) == InputItems(sig) + AttemptInputs(n)
    ensures OutputItems(WithAttempts(sig, n)) == OutputItems(sig)
  {
    if n == 0 {
      assert InputItems(sig) + AttemptInputs(0) == InputItems(sig);
    } else {
      var prev := WithAttempts(sig, n - 1);
      var x := (AttemptName(n), AttemptField(n));
      AttemptsLayout(sig, n - 1);
      AttemptNameFresh(n);
      AttemptsKeys(sig, n - 1, x.0);
      AppendInputLayout(prev, x.0, x.1);
      AttemptInputsSnoc(n);
      ConcatAssoc(InputItems(sig), AttemptInputs(n - 1), [x]);
    }
  }

  /** After `n` rounds, a name is a key exactly when it is a key of the original
      signature or one of the first `n` attempt names. */
  lemma {:induction false} AttemptsKeys(sig: Signature, n: nat, k: string)
    requires Valid(sig.fields)
    ensures k in WithAttempts(sig, n).fields.vals <==> k in sig.fields.vals || k in Names(AttemptInputs(n))
  {
    if n > 0 {
      AttemptsKeys(sig, n - 1, k);
      AppendKeyIn(WithAttempts(sig, n - 1), AttemptName(n), AttemptField(n), k);
      AttemptNamesStep(n, k);
    }
  }

  /** The first `n` attempt names are the first `n - 1` and attempt `n`'s. */
  lemma AttemptNamesStep(n: nat, k: string)
    requires n > 0
    ensures k in Names(AttemptInputs(n)) <==> k in Names(AttemptInputs(n - 1)) || k == AttemptName(n)
  {
    var x := (AttemptName(n), AttemptField(n));
    AttemptInputsSnoc(n);
    NamesConcat(AttemptInputs(n - 1), [x]);
    assert Names([x]) == [x.0];
  }

  lemma AttemptInputsSnoc(n: nat)
    requires n > 0
    ensures AttemptInputs(n) == AttemptInputs(n - 1) + [(AttemptName(n), AttemptField(n))]
  {
  }

  /** Attempt `n` is not among the earlier attempts. */
  lemma AttemptNameFresh(n: nat)
    requires n > 0
    ensures AttemptName(n) !in Names(AttemptInputs(n - 1))
  {
    var names := Names(AttemptInputs(n - 1));
    forall i | 0 <= i < |names| ensures names[i] != AttemptName(n) {
      assert names[i] == AttemptName(i + 1);
      if names[i] == AttemptName(n) {
        AttemptNameInjective(i + 1, n);
      }
    }
  }

  /** The reasoning output is named unlike every attempt. */
  lemma RationaleIsNoAttempt(m: nat)
    ensures RATIONALE !in Names(AttemptInputs(m))
  {
    var names := Names(AttemptInputs(m));
    forall i | 0 <= i < |names| ensures names[i] != RATIONALE {
      assert names[i] == AttemptName(i + 1);
      assert AttemptName(i + 1)[2] == 'a' && RATIONALE[2] == 'd';
    }
  }

  /** The wrapped predictor reads the original inputs followed by the M attempts,
      and writes the corrected reasoning followed by the original outputs. */
  lemma ExtendedLayout(sig: Signature, m: nat)
    requires Valid(sig.fields) && FreshAttempts(sig, m) && RATIONALE !in sig.fields.vals
    ensures InputItems(Extended(sig, m)) == InputItems(sig) + AttemptInputs(m)
    ensures OutputItems(Extended(sig, m)) == [(RATIONALE, RationaleField())] + OutputItems(sig)
  {
    AttemptsLayout(sig, m);
    RationaleIsNoAttempt(m);
    AttemptsKeys(sig, m, RATIONALE);
    PrependOutputLayout(WithAttempts(sig, m), RATIONALE, RationaleField());
  }

  /** No keyword `forward` passes an attempt under is a field name the
      signature gives an attempt: they differ in the tenth character. */
  lemma AttemptKeyIsNoAttemptName(i: nat, j: nat)
    ensures AttemptKey(i) != AttemptName(j)
  {
    assert AttemptKey(i)[9] == '_' && AttemptName(j)[9] == ' ';
  }

  /** So when the original signature itself has no such input, none of the attempts reaches
      an input field of the wrapped predictor. */
  lemma AttemptKeysMissInputs(sig: Signature, m: nat, i: nat)
    requires Valid(sig.fields) && FreshAttempts(sig, m) && RATIONALE !in sig.fields.vals
    requires AttemptKey(i) !in InputNames(sig)
    ensures AttemptKey(i) !in InputNames(Extended(sig, m))
  {
    ExtendedLayout(sig, m);
    NamesConcat(InputItems(sig), AttemptInputs(m));
    forall j | 0 <= j < m ensures Names(AttemptInputs(m))[j] != AttemptKey(i) {
      AttemptKeyIsNoAttemptName(i, j + 1);
    }
  }

  // ---------------------------------------------------------------------
  // forward

  /** `x.strip().split("\n")[0].strip()`. */
  function Clean(x: string): string {
    Strip(FirstLine(Strip(x)))
  }

  /** The attempt text for one completion. */
  function AttemptText(rationale: string, answer: string): string {
    TRY + rationale + UNSURE + answer + CLOSE
  }

  /** One completion's attempt; reading a missing `rationale` or `last_key`
      raises, reported here by the missing name, the rationale being read
      first. */
  function AttemptOf(c: Completion, lastKey: string): (r: Result<string>)
    ensures r.Ok? <==> Readable(c, lastKey)
    ensures RATIONALE_ATTR !in c.vals ==> r == Err(RATIONALE_ATTR)
    ensures RATIONALE_ATTR in c.vals && lastKey !in c.vals ==> r == Err(lastKey)
    ensures r.Ok? ==> r.value == AttemptText(Clean(c.vals[RATIONALE_ATTR]), Clean(c.vals[lastKey]))
  {
    if RATIONALE_ATTR !in c.vals then Err(RATIONALE_ATTR)
    else if lastKey !in c.vals then Err(lastKey)
    else Ok(AttemptText(Clean(c.vals[RATIONALE_ATTR]), Clean(c.vals[lastKey])))
  }

  /** A completion `forward` can read: it has a reasoning and an answer. */
  predicate Readable(c: Completion, lastKey: string) {
    RATIONALE_ATTR in c.vals && lastKey in c.vals
  }

  /** `f` applied to each element in turn, or its first failure. */
  function Collect(cs: seq<Completion>, f: Completion -> Result<string>): (r: Result<seq<string>>)
    ensures r.Ok? <==> forall i :: 0 <= i < |cs| ==> f(cs[i]).Ok?
    ensures r.Ok? ==> |r.value| == |cs| && forall i :: 0 <= i < |cs| ==> f(cs[i]) == Ok(r.value[i])
  {
    if cs == [] then Ok([])
    else
      var init := cs[..|cs| - 1];
      assert forall i :: 0 <= i < |init| ==> init[i] == cs[i];
      match Collect(init, f)
      case Err(e) => Err(e)
      case Ok(a) =>
        match f(cs[|cs| - 1])
        case Err(e) => Err(e)
        case Ok(t) =>
          assert forall i :: 0 <= i < |init| ==> (a + [t])[i] == a[i];
          Ok(a + [t])
  }

  /** Once a prefix has failed, the whole loop fails the same way. */
  lemma {:induction false} FirstFailureStays(cs: seq<Completion>, f: Completion -> Result<string>, i: nat)
    requires i <= |cs| && Collect(cs[..i], f).Err?
    ensures Collect(cs, f) == Collect(cs[..i], f)
    decreases |cs|
  {
    if i < |cs| {
      var init := cs[..|cs| - 1];
      assert init[..i] == cs[..i];
      FirstFailureStays(init, f, i);
    } else {
      assert cs[..i] == cs;
    }
  }

  /** One more round of the loop that succeeds appends its value. */
  lemma CollectStep(cs: seq<Completion>, f: Completion -> Result<string>, i: nat, a: seq<string>, t: string)
    requires i < |cs| && Collect(cs[..i], f) == Ok(a) && f(cs[i]) == Ok(t)
    ensures Collect(cs[..i + 1], f) == Ok(a + [t])
  {
    assert cs[..i + 1][..i] == cs[..i];
  }

  /** One more round of the loop that fails fails the whole loop. */
  lemma CollectFails(cs: seq<Completion>, f: Completion -> Result<string>, i: nat, a: seq<string>)
    requires i < |cs| && Collect(cs[..i], f) == Ok(a) && f(cs[i]).Err?
    ensures Collect(cs, f) == Err(f(cs[i]).message)
  {
    assert cs[..i + 1][..i] == cs[..i];
    FirstFailureStays(cs, f, i + 1);
  }

  /** The attempts of the loop over `completions`, or the first failure. */
  function Attempts(cs: seq<Completion>, lastKey: string): Result<seq<string>> {
    Collect(cs, AttemptFn(lastKey))
  }

  function AttemptFn(lastKey: string): Completion -> Result<string> {
    c => AttemptOf(c, lastKey)
  }

  /** One attempt per completion, in order, when all of them can be read. */
  lemma AttemptsInOrder(cs: seq<Completion>, lastKey: string)
    ensures Attempts(cs, lastKey).Ok? <==> forall i :: 0 <= i < |cs| ==> Readable(cs[i], lastKey)
    ensures var r := Attempts(cs, lastKey);
      r.Ok? ==> |r.value| == |cs| && forall i :: 0 <= i < |cs| ==> AttemptOf(cs[i], lastKey) == Ok(r.value[i])
  {
    assert forall i :: 0 <= i < |cs| ==> AttemptFn(lastKey)(cs[i]) == AttemptOf(cs[i], lastKey);
  }

  /** The count check's message. */
  function CountMessage(n: nat, m: nat): string {
    COUNT_HEAD + NatToString(n) + COUNT_MID + NatToString(m) + COUNT_TAIL
  }

  /** `{f"reasoning_attempt_{idx+1}": attempt ...}`. */
  function AttemptArgs(attempts: seq<string>): (r: seq<(string, string)>)
    ensures |r| == |attempts| && forall i :: 0 <= i < |attempts| ==> r[i] == (AttemptKey(i + 1), attempts[i])
  {
    seq(|attempts|, i requires 0 <= i < |attempts| => (AttemptKey(i + 1), attempts[i]))
  }

  /** `{**attempt_args, **kwargs}`. */
  function ForwardArgs(attempts: seq<string>, kwargs: Dict<string>): Dict<string> {
    Update(FromItems(AttemptArgs(attempts)), kwargs)
  }

  /** `forward(completions, **kwargs)` of a predictor with signature `sig`. */
  function Run(sig: Signature, m: nat, lastKey: string, cs: seq<Completion>, kwargs: Dict<string>, lm: Predictor): Result<Completion> {
    match Attempts(cs, lastKey)
    case Err(e) => Err(e)
    case Ok(attempts) =>
      if |attempts| != m then Err(CountMessage(|attempts|, m))
      else Ok(lm(sig, ForwardArgs(attempts, kwargs)))
  }

  /** `forward` calls the predictor exactly when every completion is
      readable and there are M of them; with readable completions of the
      wrong number it fails with the count message. */
  lemma RunChecksCount(sig: Signature, m: nat, lastKey: string, cs: seq<Completion>, kwargs: Dict<string>, lm: Predictor)
    ensures Run(sig, m, lastKey, cs, kwargs, lm).Ok? <==> (forall i :: 0 <= i < |cs| ==> Readable(cs[i], lastKey)) && |cs| == m
    ensures (forall i :: 0 <= i < |cs| ==> Readable(cs[i], lastKey)) && |cs| != m ==>
      Run(sig, m, lastKey, cs, kwargs, lm) == Err(CountMessage(|cs|, m))
  {
    AttemptsInOrder(cs, lastKey);
  }

  /** Attempt `i` reaches the predictor under `reasoning_attempt_i` unless
      the caller passed that keyword. */
  lemma AttemptIsForwarded(attempts: seq<string>, kwargs: Dict<string>, i: nat)
    requires Valid(kwargs) && i < |attempts| && AttemptKey(i + 1) !in kwargs.vals
    ensures AttemptKey(i + 1) in ForwardArgs(attempts, kwargs).vals
    ensures ForwardArgs(attempts, kwargs).vals[AttemptKey(i + 1)] == attempts[i]
  {
    var items := AttemptArgs(attempts);
    forall j | i < j < |items| ensures items[j].0 != items[i].0 {
      if AttemptKey(j + 1) == AttemptKey(i + 1) {
        AttemptKeyInjective(j + 1, i + 1);
      }
    }
    PutAllLastWins(Empty(), items, i);
    UpdateKeeps(FromItems(items), kwargs, AttemptKey(i + 1));
  }

  /** A keyword the caller passed reaches the predictor with the caller's value. */
  lemma CallerWins(attempts: seq<string>, kwargs: Dict<string>, k: string)
    requires Valid(kwargs) && k in kwargs.vals
    ensures k in ForwardArgs(attempts, kwargs).vals && ForwardArgs(attempts, kwargs).vals[k] == kwargs.vals[k]
  {
    UpdateWins(FromItems(AttemptArgs(attempts)), kwargs, k);
  }

  /** A completion's attempt depends only on the first line of its
      reasoning and of its answer: whatever follows the line is dropped. */
  lemma OnlyFirstLineCounts(line: string, rest: string)
    requires line != [] && '\n' !in line && !IsSpace(line[0]) && !IsSpace(line[|line| - 1])
    ensures Clean(line + "\n" + rest) == line
  {
    StripFromLine(line, rest);
    FirstLineOf(Strip(line + "\n" + rest), line);
    StripUnchanged(line);
  }

  /** The reasoning and the answer an attempt quotes are single lines. */
  lemma CleanIsOneLine(x: string)
    ensures '\n' !in Clean(x)
  {
    StripKeepsOut(FirstLine(Strip(x)), '\n');
  }

  /** One round of the loop over `completions`: the rationale and the answer
      of completion `c`, each cut to its first line, or the attribute that is
      missing. */
  method ReadAttempt(c: Completion, lastKey: string) returns (r: Result<string>)
    ensures r == AttemptOf(c, lastKey)
  {
    if RATIONALE_ATTR !in c.vals {
      return Err(RATIONALE_ATTR);
    }
    var rationale := Clean(c.vals[RATIONALE_ATTR]);
    if lastKey !in c.vals {
      return Err(lastKey);
    }
    var answer := Clean(c.vals[lastKey]);
    r := Ok(AttemptText(rationale, answer));
  }

  class MultiChainComparison {
    const m: nat
    const lastKey: string
    /** The signature of the wrapped predictor. */
    const signature: Signature

    /** `__init__(signature, M)` for a signature with at least one output. */
    constructor (signature: Signature, m: nat)
      requires Valid(signature.fields) && OutputNames(signature) != []
      ensures this.m == m && this.signature == Extended(signature, m)
      ensures this.lastKey == LastOutput(signature)
    {
      this.m := m;
      this.lastKey := LastOutput(signature);
      var s := signature;
      for idx := 0 to m
        invariant s == WithAttempts(signature, idx)
      {
        s := Append(s, AttemptName(idx + 1), AttemptField(idx + 1));
      }
      this.signature := Prepend(s, RATIONALE, RationaleField());
    }

    /** `forward(completions, **kwargs)`. */
    method Forward(completions: seq<Completion>, kwargs: Dict<string>, lm: Predictor) returns (r: Result<Completion>)
      ensures r == Run(signature, m, lastKey, completions, kwargs, lm)
    {
      var attempts: seq<string> := [];
      for i := 0 to |completions|
        invariant Collect(completions[..i], AttemptFn(lastKey)) == Ok(attempts)
      {
        var attempt := ReadAttempt(completions[i], lastKey);
        assert AttemptFn(lastKey)(completions[i]) == attempt;
        if attempt.Err? {
          CollectFails(completions, AttemptFn(lastKey), i, attempts);
          return Err(attempt.message);
        }
        CollectStep(completions, AttemptFn(lastKey), i, attempts, attempt.value);
        attempts := attempts + [attempt.value];
      }
      assert completions[..|completions|] == completions;
      assert Attempts(completions, lastKey) == Ok(attempts);
      if |attempts| != m {
        return Err(CountMessage(|attempts|, m));
      }
      var args := ForwardArgs(attempts, kwargs);
      r := Ok(lm(signature, args));
    }
  }

  /** `MultiChainComparison(signature, M)`: fails when the signature has no
      output field to take `last_key` from. */
  method NewMultiChainComparison(signature: Signature, m: nat) returns (r: Result<MultiChainComparison>)
    requires Valid(signature.fields)
    ensures r.Err? <==> OutputNames(signature) == []
    ensures r.Err? ==> r.message == NO_OUTPUT
    ensures r.Ok? ==> r.value.m == m && r.value.signature == Extended(signature, m)
    ensures r.Ok? ==> r.value.lastKey == LastOutput(signature)
  {
    if OutputNames(signature) == [] {
      r := Err(NO_OUTPUT);
    } else {
      var mcc := new MultiChainComparison(signature, m);
      r := Ok(mcc);
    }
  }
}
