/**
 * How ProgramOfThought turns a completion into code and runs it:
 * `parse_code` cuts the generated text, takes the body of a ```` ```python ````
 * fence when there is one, unescapes `\n`, rejects an empty block and a
 * crammed one-liner, and makes the last assigned name the value of the
 * block; `execute_code` hands the result to the interpreter and turns any
 * exception into an error message.
 *
 * The interpreter is a function from code to its printed result or the
 * message of the exception it raised. The two regular-expression
 * substitutions that break a one-line block into statements have no stated
 * contract; they are a parameter `reflow`.
 */
module PotParse {
  import opened Wrappers
  import opened Text
  import opened Dicts

  const EMPTY_AFTER_PARSING: string := "Error: Empty code after parsing."
  const BAD_FORMAT: string := "Error: Code format is not correct."
  const EMPTY_BEFORE_EXECUTION: string := "Error: Empty code before execution."

  /** The code `parse_code` returns, and its error message if any. */
  datatype Parsed = Parsed(code: string, error: Option<string>)

  /** What `execute_code` returns: the code, its output, its error. */
  datatype Executed = Executed(code: string, output: Option<string>, error: Option<string>)

  type Interpreter = string -> Result<string>

  // ---------------------------------------------------------------------
  // Cutting the generated text

  /** `text.split("---", 1)[0].split("\n\n\n", 1)[0]`. */
  function Cut(text: string): (r: string)
    ensures |r| <= |text| && r == text[..|r|]
  {
    Before(Before(text, "---"), "\n\n\n")
  }

  /** An occurrence inside a prefix is an occurrence in the whole. */
  lemma OccursInPrefix(s: string, p: string, t: string, j: int)
    requires |p| <= |s| && p == s[..|p|] && OccursAt(p, t, j)
    ensures OccursAt(s, t, j)
  {
    assert s[j..j + |t|] == p[j..j + |t|];
  }

  /** The cut text holds neither separator and is a prefix of the generated text. */
  lemma CutHasNoSeparators(text: string)
    ensures forall j :: 0 <= j < |Cut(text)| ==> !OccursAt(Cut(text), "---", j) && !OccursAt(Cut(text), "\n\n\n", j)
  {
    var a := Before(text, "---");
    var r := Cut(text);
    forall j | 0 <= j < |r| ensures !OccursAt(r, "---", j) && !OccursAt(r, "\n\n\n", j) {
      if OccursAt(r, "---", j) {
        OccursInPrefix(a, r, "---", j);
        OccursInPrefix(text, a, "---", j);
      }
      if OccursAt(r, "\n\n\n", j) {
        OccursInPrefix(a, r, "\n\n\n", j);
      }
    }
  }

  /** Text holding neither separator is kept whole. */
  lemma CutKeepsPlainText(text: string)
    requires forall j :: 0 <= j <= |text| ==> !OccursAt(text, "---", j) && !OccursAt(text, "\n\n\n", j)
    ensures Cut(text) == text
  {
    assert Find(text, "---").None?;
    assert Find(text, "\n\n\n").None?;
  }

  // ---------------------------------------------------------------------
  // The fence: re.search(r"```python[ \n](.*?)[ \n]```?", code, re.DOTALL)

  const OPEN: string := "```python"

  /** The class `[ \n]`. */
  predicate IsGap(c: char) {
    c == ' ' || c == '\n'
  }

  /** "```python" and a gap start at `i`; the group starts at `i + 10`. */
  predicate OpensAt(s: string, i: int) {
    OccursAt(s, OPEN, i) && i + 10 <= |s| && IsGap(s[i + 9])
  }

  /** A gap and two backticks start at `q` (the third backtick is optional). */
  predicate ClosesAt(s: string, q: int) {
    0 <= q && q + 3 <= |s| && IsGap(s[q]) && s[q + 1] == '`' && s[q + 2] == '`'
  }

  /** The lazy group: the first closing at or after `q`. */
  function FirstClose(s: string, q: nat): (r: Option<nat>)
    requires q <= |s|
    ensures r.Some? ==> q <= r.value && ClosesAt(s, r.value) && forall k :: q <= k < r.value ==> !ClosesAt(s, k)
    ensures r.None? ==> forall k :: q <= k <= |s| ==> !ClosesAt(s, k)
    decreases |s| - q
  {
    if ClosesAt(s, q) then Some(q)
    else if q == |s| then None
    else FirstClose(s, q + 1)
  }

  /** The search tries each start from `i` on and takes the first that
      opens and is closed later; the result is the group. */
  function SearchFence(s: string, i: nat): (r: Option<string>)
    requires i <= |s|
    ensures (forall j :: i <= j <= |s| ==> !OpensAt(s, j)) ==> r.None?
    decreases |s| - i
  {
    if OpensAt(s, i) && FirstClose(s, i + 10).Some? then Some(s[i + 10..FirstClose(s, i + 10).value])
    else if i == |s| then None
    else SearchFence(s, i + 1)
  }

  /** Starts that do not open are skipped. */
  lemma {:induction false} SearchSkips(s: string, i: nat, j: nat)
    requires i <= j <= |s|
    requires forall k :: i <= k < j ==> !OpensAt(s, k)
    ensures SearchFence(s, i) == SearchFence(s, j)
    decreases j - i
  {
    if i < j {
      SearchSkips(s, i + 1, j);
    }
  }

  /** A reply of the form `pre ```python⏎body⏎``` tail`, with no backtick
      before the fence or inside the body, yields exactly `body`. */
  lemma FenceFound(pre: string, g1: char, body: string, g2: char, tail: string)
    requires '`' !in pre && '`' !in body && IsGap(g1) && IsGap(g2)
    ensures SearchFence(pre + OPEN + [g1] + body + [g2] + "``" + tail, 0) == Some(body)
  {
    var s := pre + OPEN + [g1] + body + [g2] + "``" + tail;
    var i := |pre|;
    assert s[..i] == pre;
    assert s[i..i + 9] == OPEN;
    assert s[i + 9] == g1;
    assert s[i + 10..] == body + [g2] + "``" + tail;
    FenceAt(s, i, body, g2, tail);
  }

  /** A fence opening at `i`, with no backtick before it, is the one found. */
  lemma FenceAt(s: string, i: nat, body: string, g2: char, tail: string)
    requires i + 10 <= |s| && '`' !in s[..i]
    requires s[i..i + 9] == OPEN && IsGap(s[i + 9])
    requires s[i + 10..] == body + [g2] + "``" + tail
    requires '`' !in body && IsGap(g2)
    ensures SearchFence(s, 0) == Some(body)
  {
    NoBacktickSkipped(s, i);
    FenceOpensAt(s, i, body, g2, tail);
  }

  /** The search passes over a stretch without a backtick. */
  lemma NoBacktickSkipped(s: string, i: nat)
    requires i <= |s| && '`' !in s[..i]
    ensures SearchFence(s, 0) == SearchFence(s, i)
  {
    forall k | 0 <= k < i ensures !OpensAt(s, k) {
      assert s[k] == s[..i][k];
      NoOpenAt(s, k);
    }
    SearchSkips(s, 0, i);
  }

  /** A fence that opens at `i` and closes right after `body` gives `body`. */
  lemma FenceOpensAt(s: string, i: nat, body: string, g2: char, tail: string)
    requires OpensAt(s, i) && s[i + 10..] == body + [g2] + "``" + tail
    requires '`' !in body && IsGap(g2)
    ensures SearchFence(s, i) == Some(body)
  {
    FenceBody(s, i + 10, body, g2, tail);
  }

  /** No fence opens where there is no backtick. */
  lemma NoOpenAt(s: string, k: nat)
    requires k < |s| && s[k] != '`'
    ensures !OpensAt(s, k)
  {
  }

  /** From the start of the group, the first closing is the one right after `body`. */
  lemma FenceBody(s: string, q: nat, body: string, g2: char, tail: string)
    requires q <= |s| && s[q..] == body + [g2] + "``" + tail
    requires '`' !in body && IsGap(g2)
    ensures FirstClose(s, q) == Some(q + |body|) && s[q..q + |body|] == body
  {
    var c := q + |body|;
    var t := s[q..];
    assert t[|body|] == g2 && t[|body| + 1] == '`' && t[|body| + 2] == '`';
    assert ClosesAt(s, c);
    forall k | q <= k < c ensures !ClosesAt(s, k) {
      assert s[k + 1] == t[k + 1 - q];
      if k + 1 < c {
        assert t[k + 1 - q] == body[k + 1 - q];
      }
    }
    assert s[q..c] == t[..|body|];
  }

  /** The block: the fence's group if any, otherwise the cut text, with
      `\n` escapes turned into newlines. */
  function Block(code: string): string {
    UnescapeNewlines(SearchFence(code, 0).GetOr(code))
  }

  /** Without "```python" the whole cut text is the block. */
  lemma NoFenceKeepsCode(code: string)
    requires forall j :: 0 <= j <= |code| ==> !OccursAt(code, OPEN, j)
    requires '\\' !in code
    ensures Block(code) == code
  {
  }

  // ---------------------------------------------------------------------
  // The last line: re.match(r"^(\w+)\s*=", lines[-1].strip())

  /** The longest prefix of word characters. */
  function WordPrefix(s: string): (w: string)
    ensures |w| <= |s| && w == s[..|w|]
    ensures forall i :: 0 <= i < |w| ==> IsWordChar(w[i])
    ensures |w| < |s| ==> !IsWordChar(s[|w|])
  {
    if s != [] && IsWordChar(s[0]) then [s[0]] + WordPrefix(s[1..]) else []
  }

  /** A name made of word characters, followed by something else, is the word prefix. */
  lemma {:induction false} WordPrefixOf(name: string, rest: string)
    requires forall i :: 0 <= i < |name| ==> IsWordChar(name[i])
    requires rest != [] ==> !IsWordChar(rest[0])
    ensures WordPrefix(name + rest) == name
  {
    if name != [] {
      assert (name + rest)[1..] == name[1..] + rest;
      WordPrefixOf(name[1..], rest);
    } else {
      assert name + rest == rest;
    }
  }

  /** The group of the match: a word, then optional whitespace, then "=".
      The greedy `\w+` can only end where the words ends, so the word
      prefix is the only candidate. */
  function AssignedName(line: string): (r: Option<string>)
    ensures r.Some? ==> r.value != [] && StartsWith(line, r.value)
    ensures r.Some? ==> forall i :: 0 <= i < |r.value| ==> IsWordChar(r.value[i])
  {
    var w := WordPrefix(line);
    var rest := TrimStart(line[|w|..]);
    if w != [] && rest != [] && rest[0] == '=' then Some(w) else None
  }

  /** `name = rhs` names `name`. */
  lemma AssignmentNamed(name: string, rhs: string)
    requires name != [] && forall i :: 0 <= i < |name| ==> IsWordChar(name[i])
    ensures AssignedName(name + " = " + rhs) == Some(name)
  {
    var rest := " = " + rhs;
    assert name + " = " + rhs == name + rest;
    assert rest[0] == ' ' && rest[1] == '=';
    AssignedNameBefore(name, rest);
  }

  /** A name followed by a space and "=" is the name assigned. */
  lemma AssignedNameBefore(name: string, rest: string)
    requires name != [] && forall i :: 0 <= i < |name| ==> IsWordChar(name[i])
    requires |rest| >= 2 && rest[0] == ' ' && rest[1] == '='
    ensures AssignedName(name + rest) == Some(name)
  {
    WordPrefixOf(name, rest);
    assert (name + rest)[|name|..] == rest;
    assert TrimStart(rest) == TrimStart(rest[1..]) == rest[1..];
  }

  /** `code_block.split("\n")[-1]`: the text after the last newline. */
  function LastLine(s: string): (r: string)
    ensures '\n' !in r
  {
    match LastIndexOf(s, '\n')
    case Some(i) => s[i + 1..]
    case None => s
  }

  /** The last line of `pre⏎line` is `line`. */
  lemma LastLineAfter(pre: string, line: string)
    requires '\n' !in line
    ensures LastLine(pre + "\n" + line) == line
  {
    var s := pre + "\n" + line;
    assert s[|pre|] == '\n';
    forall k | |pre| < k < |s| ensures s[k] != '\n' {
      assert s[k] == line[k - |pre| - 1];
    }
    assert s[|pre| + 1..] == line;
  }

  /** The end of `parse_code` for a non-empty, well-formed block: a
      multi-line block whose last line assigns a name gets that name as a
      line of its own; every other block is reflowed. */
  function Complete(block: string, reflow: string -> string): string {
    match AssignedName(Strip(LastLine(block)))
    case Some(name) => if '\n' in block then block + "\n" + name else reflow(block)
    case None => reflow(block)
  }

  /** A block whose last line is `name = rhs` ends with `⏎name`. */
  lemma TrailingNameAppended(pre: string, name: string, rhs: string, reflow: string -> string)
    requires name != [] && forall i :: 0 <= i < |name| ==> IsWordChar(name[i])
    requires '\n' !in rhs && rhs != [] && !IsSpace(rhs[|rhs| - 1])
    ensures Complete(pre + "\n" + name + " = " + rhs, reflow) == pre + "\n" + name + " = " + rhs + "\n" + name
  {
    var line := name + " = " + rhs;
    var block := pre + "\n" + name + " = " + rhs;
    AssignmentIsLastLine(pre, name, rhs);
    AssignmentNamed(name, rhs);
    CompleteAppendsName(block, line, name, reflow);
  }

  /** `name = rhs` after a newline is the last line, and `strip()` keeps it. */
  lemma AssignmentIsLastLine(pre: string, name: string, rhs: string)
    requires name != [] && forall i :: 0 <= i < |name| ==> IsWordChar(name[i])
    requires '\n' !in rhs && rhs != [] && !IsSpace(rhs[|rhs| - 1])
    ensures var line := name + " = " + rhs; var block := pre + "\n" + name + " = " + rhs;
      '\n' in block && LastLine(block) == line && Strip(line) == line
  {
    var line := name + " = " + rhs;
    var block := pre + "\n" + name + " = " + rhs;
    assert block[|pre|] == '\n';
    assert block == pre + "\n" + line;
    AssignmentLine(name, rhs);
    LastLineAfter(pre, line);
  }

  /** `name = rhs` is one line that `strip()` leaves alone. */
  lemma AssignmentLine(name: string, rhs: string)
    requires name != [] && forall i :: 0 <= i < |name| ==> IsWordChar(name[i])
    requires '\n' !in rhs && rhs != [] && !IsSpace(rhs[|rhs| - 1])
    ensures '\n' !in name + " = " + rhs && Strip(name + " = " + rhs) == name + " = " + rhs
  {
    var line := name + " = " + rhs;
    forall i | 0 <= i < |line| ensures line[i] != '\n' {
      if i < |name| { assert line[i] == name[i]; }
      else if i >= |name| + 3 { assert line[i] == rhs[i - |name| - 3]; }
    }
    assert line[0] == name[0];
    assert line[|line| - 1] == rhs[|rhs| - 1];
    StripUnchanged(line);
  }

  /** A multi-line block whose stripped last line assigns `name` ends with `⏎name`. */
  lemma CompleteAppendsName(block: string, line: string, name: string, reflow: string -> string)
    requires '\n' in block && LastLine(block) == line && Strip(line) == line
    requires AssignedName(line) == Some(name)
    ensures Complete(block, reflow) == block + "\n" + name
  {
  }

  /** A block of one line never gets a trailing name: it is always reflowed,
      even when it is a single assignment. */
  lemma OneLineIsReflowed(block: string, reflow: string -> string)
    requires '\n' !in block
    ensures Complete(block, reflow) == reflow(block)
  {
  }

  // ---------------------------------------------------------------------
  // parse_code and execute_code

  /** `parse_code(code_data)`. */
  function ParseCode(codeData: Dict<string>, reflow: string -> string): (r: Parsed)
    ensures var code := Cut(Get(codeData, "generated_code").GetOr(""));
      && (r.error.Some? ==> r.code == code)
      && (r.error == Some(EMPTY_AFTER_PARSING) <==> Block(code) == [])
      && (r.error == Some(BAD_FORMAT) <==> Block(code) != [] && '\n' !in Block(code) && Count(Block(code), '=') > 1)
      && (r.error.Some? ==> r.error == Some(EMPTY_AFTER_PARSING) || r.error == Some(BAD_FORMAT))
      && (r.error.None? ==> r.code == Complete(Block(code), reflow))
  {
    var code := Cut(Get(codeData, "generated_code").GetOr(""));
    var block := Block(code);
    if block == [] then Parsed(code, Some(EMPTY_AFTER_PARSING))
    else if '\n' !in block && Count(block, '=') > 1 then Parsed(code, Some(BAD_FORMAT))
    else Parsed(Complete(block, reflow), None)
  }

  /** `execute_code(code)`: empty code is refused without running the
      interpreter; otherwise the interpreter's output, or the message of
      the exception it raised. */
  function ExecuteCode(code: string, run: Interpreter): (r: Executed)
    ensures r.code == code
    ensures r.output.Some? <==> r.error.None?
    ensures code == [] ==> r.error == Some(EMPTY_BEFORE_EXECUTION)
    ensures code != [] && run(code).Ok? ==> r.output == Some(run(code).value)
    ensures code != [] && run(code).Err? ==> r.error == Some(run(code).message)
  {
    if code == [] then Executed(code, None, Some(EMPTY_BEFORE_EXECUTION))
    else match run(code)
      case Ok(out) => Executed(code, Some(out), None)
      case Err(msg) => Executed(code, None, Some(msg))
  }

  /** Empty code never reaches the interpreter: any two interpreters give
      the same result. */
  lemma EmptyCodeIsNotRun(run1: Interpreter, run2: Interpreter)
    ensures ExecuteCode([], run1) == ExecuteCode([], run2)
    ensures ExecuteCode([], run1).error == Some(EMPTY_BEFORE_EXECUTION)
  {
  }

  /** An exception never escapes: it comes back as the error, with its message. */
  lemma ExceptionBecomesError(code: string, run: Interpreter)
    requires code != [] && run(code).Err?
    ensures ExecuteCode(code, run) == Executed(code, None, Some(run(code).message))
  {
  }

  /** One attempt of `forward`: parse, then execute what parsing returned,
      whatever its error was. */
  function Attempt(codeData: Dict<string>, reflow: string -> string, run: Interpreter): Executed {
    var parsed := ParseCode(codeData, reflow);
    ExecuteCode(parsed.code, run)
  }

  /** A block that is neither empty nor a one-line block with several `=` is
      run completed: `forward` executes `Complete(Block(code))`. */
  lemma AttemptRunsCompletedBlock(codeData: Dict<string>, reflow: string -> string, run: Interpreter)
    requires var block := Block(Cut(Get(codeData, "generated_code").GetOr("")));
      block != [] && ('\n' in block || Count(block, '=') <= 1)
    ensures var block := Block(Cut(Get(codeData, "generated_code").GetOr("")));
      Attempt(codeData, reflow, run) == ExecuteCode(Complete(block, reflow), run)
  {
  }

  /** The parse error is dropped: a crammed one-liner is rejected by
      `parse_code`, yet the attempt succeeds when the interpreter accepts
      the cut text it came with. */
  lemma ParseErrorIsOverwritten(codeData: Dict<string>, reflow: string -> string, run: Interpreter)
    requires ParseCode(codeData, reflow).error == Some(BAD_FORMAT)
    requires run(Cut(Get(codeData, "generated_code").GetOr(""))).Ok?
    ensures Attempt(codeData, reflow, run).error.None?
  {
    var code := Cut(Get(codeData, "generated_code").GetOr(""));
    assert Block(code) != [];
  }
}
