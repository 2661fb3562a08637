/**
 * The tools side of ReAct: the values tools return, the registry built at
 * construction with its synthetic `Finish` entry, the catalog and the
 * instructions that describe it to the language model, and the parsing of
 * the `name[arg]` action the model writes back.
 */
module ReactTools {
  import opened Wrappers
  import opened Text
  import opened Dicts
  import opened Signatures

  /** A value in the argument dict: text, or the list a tool may return. */
  datatype Value = Str(s: string) | Strs(items: seq<string>)

  /** What a tool returns, with its `passages` attribute when it has one. */
  datatype ToolResult = ToolResult(value: Value, passages: Option<Value>)

  /** Calling a tool either raises or returns. */
  datatype Call = Raises | Returns(result: ToolResult)

  datatype Tool = Tool(name: string, inputVariable: string, desc: string, call: string -> Call)

  /** A registry entry: a user tool, or the `Finish` record added at construction. */
  datatype Entry = Registered(tool: Tool) | FinishEntry(inputVariable: string, desc: string) {
    function Name(): string {
      if Registered? then tool.name else FINISH
    }
    function InputVar(): string {
      if Registered? then tool.inputVariable else inputVariable
    }
    function Desc(): string {
      if Registered? then tool.desc else desc
    }
  }

  type Registry = Dict<Entry>

  const FINISH: string := "Finish"
  const ACTION_HEAD: string := "altijd ofwel "
  const ACTION_TAIL: string := " of, wanneer klaar, Finish[<awnser>], waarbij <awnser> het antwoord op de vraag zelf is."
  const ALTERNATE_LINE: string := "Om dit te doen, wissel je Gedachte-, Actie- en Observatiestappen af.\n"
  const TYPES_LINE: string := "Gedachte kan redeneren over de huidige situatie, en Actie kan van de volgende types zijn:\n"

  // ---------------------------------------------------------------------
  // The registry

  function ToolItems(tools: seq<Tool>): (r: seq<(string, Entry)>)
    ensures |r| == |tools| && forall i :: 0 <= i < |tools| ==> r[i] == (tools[i].name, Registered(tools[i]))
  {
    seq(|tools|, i requires 0 <= i < |tools| => (tools[i].name, Registered(tools[i])))
  }

  /** The `Finish` record, built from the quoted output list. */
  function FinishFor(outputs: string): Entry {
    FinishEntry(StripChar(outputs, '`'), "geeft het uiteindelijke " + outputs + " terug en beëindigt de taak")
  }

  /** `tools or [dspy.Retrieve(k=num_results)]`: the default retriever stands
      in for an empty tool list. */
  function ToolsOrDefault(tools: seq<Tool>, retrieve: Tool): (ts: seq<Tool>)
    ensures ts != [] && (tools != [] ==> ts == tools)
  {
    if tools == [] then [retrieve] else tools
  }

  /** `{tool.name: tool for tool in tools or [retrieve]}` followed by
      `tools["Finish"] = ...`: one key per tool name, in the order the names
      first occur, each holding a given tool of that name, then `Finish`
      unless a tool already has that name. */
  function BuildRegistry(tools: seq<Tool>, retrieve: Tool, outputs: string): (reg: Registry)
    ensures Valid(reg)
    ensures FINISH in reg.vals && reg.vals[FINISH] == FinishFor(outputs)
    ensures var ts := ToolsOrDefault(tools, retrieve);
      && (forall k :: k in reg.vals <==> k == FINISH || k in Names(ToolItems(ts)))
      && (forall k :: k in reg.vals && k != FINISH ==> reg.vals[k].Registered? && reg.vals[k].tool.name == k && reg.vals[k].tool in ts)
      && KeysInFirstOrder(reg.keys, Names(ToolItems(ts)) + [FINISH])
  {
    var ts := ToolsOrDefault(tools, retrieve);
    ToolsByName(ts);
    PutAllFirstOrder(ToolItems(ts));
    FirstOrderSnoc(FromItems(ToolItems(ts)), Names(ToolItems(ts)), FINISH, FinishFor(outputs));
    Put(FromItems(ToolItems(ts)), FINISH, FinishFor(outputs))
  }

  /** Unless a tool is itself named `Finish`, the `Finish` entry comes last,
      so it gets the highest number in the instructions. */
  lemma FinishListedLast(tools: seq<Tool>, retrieve: Tool, outputs: string)
    requires FINISH !in Names(ToolItems(ToolsOrDefault(tools, retrieve)))
    ensures var reg := BuildRegistry(tools, retrieve, outputs);
      reg.keys != [] && reg.keys[|reg.keys| - 1] == FINISH
  {
    var reg := BuildRegistry(tools, retrieve, outputs);
    var names := Names(ToolItems(ToolsOrDefault(tools, retrieve)));
    var p :| 0 <= p < |reg.keys| && reg.keys[p] == FINISH;
    if p < |reg.keys| - 1 {
      assert false;
    }
  }

  /** `{tool.name: tool for tool in ts}` holds every tool under its own name. */
  lemma ToolsByName(ts: seq<Tool>)
    ensures var m := FromItems(ToolItems(ts));
      && (forall k :: k in m.vals ==> m.vals[k].Registered? && m.vals[k].tool.name == k && m.vals[k].tool in ts)
      && (forall t :: t in ts ==> t.name in m.vals)
  {
    var items := ToolItems(ts);
    var m := FromItems(items);
    forall k | k in m.vals ensures m.vals[k].Registered? && m.vals[k].tool.name == k && m.vals[k].tool in ts {
      var i := LastIndexNamed(items, k);
      PutAllLastWins(Empty(), items, i);
    }
    forall t | t in ts ensures t.name in Names(items) {
      var i :| 0 <= i < |ts| && ts[i] == t;
      assert Names(items)[i] == t.name;
    }
  }

  /** The index of the last pair with key `k`. */
  function LastIndexNamed(items: seq<(string, Entry)>, k: string): (i: nat)
    requires k in Names(items)
    ensures i < |items| && items[i].0 == k
    ensures forall j :: i < j < |items| ==> items[j].0 != k
  {
    if items[|items| - 1].0 == k then |items| - 1
    else
      assert Names(items) == Names(items[..|items| - 1]) + [items[|items| - 1].0];
      LastIndexNamed(items[..|items| - 1], k)
  }

  /** A later tool with the same name replaces an earlier one; every tool not
      named `Finish` is reachable under its own name. */
  lemma RegistryLastToolWins(tools: seq<Tool>, retrieve: Tool, outputs: string, i: nat)
    requires i < |tools| && tools[i].name != FINISH
    requires forall j :: i < j < |tools| ==> tools[j].name != tools[i].name
    ensures BuildRegistry(tools, retrieve, outputs).vals[tools[i].name] == Registered(tools[i])
  {
    PutAllLastWins(Empty(), ToolItems(tools), i);
  }

  /** `name[input_variable]` for every entry but `Finish`, in registry order. */
  function CatalogEntries(entries: seq<Entry>): (r: seq<string>)
    ensures |r| <= |entries|
  {
    if entries == [] then []
    else
      var e := entries[|entries| - 1];
      CatalogEntries(entries[..|entries| - 1])
        + (if e.Name() != FINISH then [e.Name() + "[" + e.InputVar() + "]"] else [])
  }

  /** The catalog of two runs of entries is the catalog of the first, then
      that of the second: items keep the registry order. */
  lemma {:induction false} CatalogEntriesConcat(a: seq<Entry>, b: seq<Entry>)
    ensures CatalogEntries(a + b) == CatalogEntries(a) + CatalogEntries(b)
    decreases |b|
  {
    if b == [] {
      assert a + b == a;
    } else {
      var init := b[..|b| - 1];
      assert (a + b)[..|a + b| - 1] == a + init;
      assert (a + b)[|a + b| - 1] == b[|b| - 1];
      CatalogEntriesConcat(a, init);
    }
  }

  /** Every entry other than `Finish` is listed, as `name[input_variable]`,
      right after the items of the entries before it; `Finish` adds nothing. */
  lemma CatalogEntryListed(entries: seq<Entry>, j: nat)
    requires j < |entries|
    ensures var e := entries[j];
      var before := |CatalogEntries(entries[..j])|;
      && (e.Name() != FINISH ==>
            before < |CatalogEntries(entries)| && CatalogEntries(entries)[before] == e.Name() + "[" + e.InputVar() + "]")
      && (e.Name() == FINISH ==> CatalogEntries(entries[..j + 1]) == CatalogEntries(entries[..j]))
  {
    var e := entries[j];
    var upTo := entries[..j + 1];
    assert upTo[..j] == entries[..j] && upTo[j] == e;
    assert CatalogEntries(upTo) == CatalogEntries(entries[..j])
      + (if e.Name() != FINISH then [e.Name() + "[" + e.InputVar() + "]"] else []);
    assert entries == upTo + entries[j + 1..];
    CatalogEntriesConcat(upTo, entries[j + 1..]);
  }

  function RegistryEntries(reg: Registry): seq<Entry>
    requires Valid(reg)
  {
    seq(|reg.keys|, i requires 0 <= i < |reg.keys| => reg.vals[reg.keys[i]])
  }

  /** The `tool_list` of the action field's description. */
  function Catalog(reg: Registry): string
    requires Valid(reg)
  {
    Join(CatalogEntries(RegistryEntries(reg)), " or ")
  }

  function ActionDesc(catalog: string): string {
    ACTION_HEAD + catalog + ACTION_TAIL
  }

  /** `(n) name[input_variable], which desc`. */
  function ToolLine(n: nat, e: Entry): string {
    "(" + NatToString(n) + ") " + e.Name() + "[" + e.InputVar() + "], which " + e.Desc()
  }

  /** One line per entry, `Finish` included, numbered from 1 in registry order. */
  function ToolLines(reg: Registry): (lines: seq<string>)
    requires Valid(reg)
    ensures |lines| == |reg.keys|
    ensures forall i :: 0 <= i < |lines| ==> lines[i] == ToolLine(i + 1, reg.vals[reg.keys[i]])
  {
    seq(|reg.keys|, i requires 0 <= i < |reg.keys| => ToolLine(i + 1, reg.vals[reg.keys[i]]))
  }

  /** The lines before the tool list: the signature's own instructions, if
      any, then the three fixed lines. */
  function InstructionHeader(sig: Signature): seq<string>
    requires Valid(sig.fields)
  {
    (if sig.instructions.Some? then [sig.instructions.value + "\n"] else [])
    + ["Je krijgt " + QuotedList(InputNames(sig)) + " en je reageert met " + QuotedList(OutputNames(sig)) + ".\n",
       ALTERNATE_LINE,
       TYPES_LINE]
  }

  /** The instruction lines, joined with newlines into the hop signatures' instructions. */
  function InstructionLines(sig: Signature, reg: Registry): seq<string>
    requires Valid(sig.fields) && Valid(reg)
  {
    InstructionHeader(sig) + ToolLines(reg)
  }

  /** The `Finish` entry added at construction is described to the model
      like any tool, on a numbered line of its own. */
  lemma FinishIsListed(reg: Registry)
    requires Valid(reg) && FINISH in reg.vals
    ensures exists i :: 0 <= i < |reg.keys| && ToolLines(reg)[i] == ToolLine(i + 1, reg.vals[FINISH])
  {
    var i :| 0 <= i < |reg.keys| && reg.keys[i] == FINISH;
    assert ToolLines(reg)[i] == ToolLine(i + 1, reg.vals[FINISH]);
  }

  // ---------------------------------------------------------------------
  // Parsing an action

  /** `name, val = action.strip().split("\n")[0].split("[", 1)` followed by
      `val = val.rsplit("]", 1)[0]`; `None` where the unpacking raises. */
  function ParseAction(action: string): (r: Option<(string, string)>)
    ensures r.None? <==> '[' !in FirstLine(Strip(action))
    ensures r.Some? ==> '[' !in r.value.0
  {
    var line := FirstLine(Strip(action));
    CharNotBefore(line, '[');
    match Partition(line, "[")
    case None => None
    case Some((name, rest)) => Some((name, BeforeLast(rest, ']')))
  }

  /** The name is the first line up to its first `[`; after that `[`, the
      argument is the rest of the line when it has no `]`, and otherwise
      everything before the last `]`, whatever follows that `]` being
      dropped. */
  lemma ParseActionValue(action: string)
    requires ParseAction(action).Some?
    ensures var line := FirstLine(Strip(action));
      var (name, val) := ParseAction(action).value;
      && |name| < |line| && line[..|name|] == name && line[|name|] == '['
      && var rest := line[|name| + 1..];
      && val == BeforeLast(rest, ']')
      && (']' !in rest ==> val == rest)
      && (']' in rest ==> exists tail :: rest == val + "]" + tail && ']' !in tail)
  {
    var line := FirstLine(Strip(action));
    var (name, rest) := Partition(line, "[").value;
    assert line == name + "[" + rest;
    assert line[|name| + 1..] == rest;
    BeforeLastSplit(rest, ']');
  }

  /** The parser reads back the `name[arg]` form the action field asks for:
      the name is everything before the first `[`, and the argument keeps any
      brackets of its own up to the final `]`. */
  lemma ParseActionRoundTrip(name: string, arg: string)
    requires '[' !in name && '\n' !in name && '\n' !in arg
    requires name != [] ==> !IsSpace(name[0])
    ensures ParseAction(name + "[" + arg + "]") == Some((name, arg))
  {
    var s := name + "[" + arg + "]";
    assert FirstLine(Strip(s)) == s by {
      BracketFormIsOneLine(name, arg);
    }
    assert Partition(s, "[") == Some((name, arg + "]")) by {
      assert s == name + ['['] + (arg + "]");
      PartitionAfterPrefix(name, '[', arg + "]");
    }
    assert BeforeLast(arg + "]", ']') == arg by {
      BeforeLastAppend(arg, ']');
    }
  }

  /** `name[arg]` is left alone by `strip()` and by taking the first line. */
  lemma BracketFormIsOneLine(name: string, arg: string)
    requires '\n' !in name && '\n' !in arg
    requires name != [] ==> !IsSpace(name[0])
    ensures FirstLine(Strip(name + "[" + arg + "]")) == name + "[" + arg + "]"
  {
    var s := name + "[" + arg + "]";
    assert s[|s| - 1] == ']';
    assert s[0] == if name == [] then '[' else name[0];
    StripUnchanged(s);
    assert '\n' !in s by {
      forall i | 0 <= i < |s| ensures s[i] != '\n' {
        if i < |name| { assert s[i] == name[i]; }
        else if i > |name| && i < |s| - 1 { assert s[i] == arg[i - |name| - 1]; }
      }
    }
    FirstLineUnchanged(s);
  }

  /** The example of the action field: `Search[capital of France]`. */
  lemma ParseSearchExample()
    ensures ParseAction("Search[capital of France]") == Some(("Search", "capital of France"))
  {
    var name, arg := "Search", "capital of France";
    assert name + "[" + arg + "]" == "Search[capital of France]";
    ParseActionRoundTrip(name, arg);
  }

  /** An action without `[` (such as `BadToken`) does not parse: `act`
      treats it as a failure instead of raising. */
  lemma ParseWithoutBracket(action: string)
    requires '[' !in action
    ensures ParseAction(action) == None
  {
    var m := Strip(action);
    StripKeepsOut(action, '[');
    var line := FirstLine(m);
    assert '[' !in line by {
      forall i | 0 <= i < |line| ensures line[i] != '[' {
        assert line[i] == m[i];
      }
    }
  }

  /** Every catalog entry parses back to the entry's name and input variable. */
  lemma CatalogEntriesParse(entries: seq<Entry>, i: nat)
    requires i < |CatalogEntries(entries)|
    requires forall e :: e in entries ==> '[' !in e.Name() && '\n' !in e.Name() && '\n' !in e.InputVar()
    requires forall e :: e in entries && e.Name() != [] ==> !IsSpace(e.Name()[0])
    ensures exists e :: e in entries && e.Name() != FINISH && ParseAction(CatalogEntries(entries)[i]) == Some((e.Name(), e.InputVar()))
    decreases |entries|
  {
    var init := entries[..|entries| - 1];
    var e := entries[|entries| - 1];
    assert forall x :: x in init ==> x in entries;
    if i < |CatalogEntries(init)| {
      CatalogEntriesParse(init, i);
    } else {
      ParseActionRoundTrip(e.Name(), e.InputVar());
    }
  }
}
