/**
 * The Avatar agent's `Tool` record and the line that describes a tool to the
 * language model: its name, the accepted input in parentheses when one is
 * given, and its description.
 */
module AvatarModels {
  import opened Wrappers

  const VALID_INPUT: string := "(geldige invoer: "
  const SEPARATOR: string := ": "

  /** A tool: its name, its optional description and its optional input type.
      The callable itself (`tool: Any`) plays no part in the rendering. */
  datatype Tool = Tool(name: string, desc: Option<string>, inputType: Option<string>)

  /** A tool made with the default `input_type=None`. */
  function NewTool(name: string, desc: Option<string>): (t: Tool)
    ensures t.name == name && t.desc == desc && t.inputType.None?
  {
    Tool(name, desc, None)
  }

  /** An optional string inside an f-string: `None` renders as `None`. */
  function Show(o: Option<string>): string {
    match o
    case None => "None"
    case Some(s) => s
  }

  /** `if self.input_type`: a type is given and is not the empty string. */
  predicate HasInputType(t: Tool) {
    t.inputType.Some? && t.inputType.value != []
  }

  /** The parenthetical after the name, empty when the input type is falsy. */
  function InputHint(t: Tool): string {
    if HasInputType(t) then VALID_INPUT + t.inputType.value + ")" else ""
  }

  /** `str(tool)`: it starts with the name and ends with `": "` followed by
      the description. */
  function Str(t: Tool): (r: string)
    ensures |t.name| <= |r| && r[..|t.name|] == t.name
    ensures var d := SEPARATOR + Show(t.desc); |d| <= |r| && r[|r| - |d|..] == d
  {
    var r := t.name + InputHint(t) + SEPARATOR + Show(t.desc);
    assert r == t.name + (InputHint(t) + SEPARATOR + Show(t.desc));
    assert r == (t.name + InputHint(t)) + (SEPARATOR + Show(t.desc));
    r
  }

  /** `repr(tool)` delegates to `str(tool)`. */
  function Repr(t: Tool): (r: string)
    ensures r == Str(t)
  {
    Str(t)
  }

  /** Without an input type, or with the empty one, the line is just the
      name, `": "` and the description. */
  lemma PlainWithoutInputType(t: Tool)
    requires !HasInputType(t)
    ensures Str(t) == t.name + SEPARATOR + Show(t.desc)
  {
  }

  /** A tool made with the defaults renders as `name: desc`. */
  lemma DefaultRendering(name: string, desc: string)
    ensures Str(NewTool(name, Some(desc))) == name + ": " + desc
  {
  }

  /** A tool without a description still renders, with `None` in its place. */
  lemma MissingDescription(name: string)
    ensures Str(NewTool(name, None)) == name + ": None"
  {
  }

  /** The character right after the name tells whether an input type is
      shown: `(` opens the parenthetical, `:` starts the separator. */
  lemma HintShownExactly(t: Tool)
    ensures |t.name| < |Str(t)|
    ensures HasInputType(t) <==> Str(t)[|t.name|] == '('
    ensures !HasInputType(t) <==> Str(t)[|t.name|] == ':'
  {
  }

  /** With an input type, the line is the name, the input type in
      parentheses, the separator and the description, with nothing between. */
  lemma HintShowsInputType(t: Tool)
    requires HasInputType(t)
    ensures Str(t) == t.name + VALID_INPUT + t.inputType.value + ")" + SEPARATOR + Show(t.desc)
    ensures var h := VALID_INPUT + t.inputType.value + ")";
      |t.name| + |h| <= |Str(t)| && Str(t)[|t.name|..|t.name| + |h|] == h
  {
  }
}
