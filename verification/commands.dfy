/**
  Command registration and dispatch (`src/commands/`).

  Submitting a line triggers `on_call_console_command`, modelled here as a
  function from the registered commands, the console's prompt, the line and
  the console id to the list of effects it queues, in order. The line is
  echoed first; then the name (the text before the first space) is looked up
  among the registered commands, then among the builtins, and otherwise
  reported as unknown. A registered command's dispatch system, `dispatch_cmd`,
  tokenizes the line and parses the tokens; the tokenizer (`shlex::split`) and
  the parser (clap) are parameters of the model, not models themselves.
 */
module Commands {
  import opened Outcomes
  import opened Strings
  import opened Consoles

  /** A registered system's id (`SystemId`). New systems take the next id from a counter. */
  type SystemId = nat

  /** `ConsoleBuiltin`: the commands every console knows without registration. */
  datatype Builtin = Clear

  /** The builtins in declaration order, as `ConsoleBuiltin::iter()` yields them. */
  const AllBuiltins: seq<Builtin> := [Clear]

  /** A builtin's display name (its `strum` serialization). */
  function BuiltinName(b: Builtin): string {
    match b
    case Clear => "clear"
  }

  /** The first builtin of `bs` whose display name is `name`. */
  function FindIn(bs: seq<Builtin>, name: string): (r: Option<Builtin>)
    ensures r.Some? ==> r.value in bs && BuiltinName(r.value) == name
    ensures r.None? ==> forall i :: 0 <= i < |bs| ==> BuiltinName(bs[i]) != name
    decreases |bs|
  {
    if bs == [] then None
    else if BuiltinName(bs[0]) == name then Some(bs[0])
    else FindIn(bs[1..], name)
  }

  /** `ConsoleBuiltin::iter().find(|b| b.to_string() == name)`. */
  function FindBuiltin(name: string): Option<Builtin> {
    FindIn(AllBuiltins, name)
  }

  /** The only builtin name is "clear", compared exactly: "Clear" or "clear " is not it. */
  lemma FindBuiltinIsExactClear(name: string)
    ensures FindBuiltin(name) == Some(Clear) <==> name == "clear"
    ensures FindBuiltin(name).None? <==> name != "clear"
  {
  }

  /** A registered command (`ConcreteConsoleCommand`): its clap command, opaque here, and its dispatch system. */
  datatype Entry<P> = Entry(cmd: P, dispatch: SystemId)

  /** The `ConsoleCommands` resource, keyed by command name, and the next free system id. */
  datatype Registry<P> = Registry(commands: map<string, Entry<P>>, nextSystem: SystemId)

  /**
    `add_console_command`: registers a new dispatch system and files the
    command under `name`, the name clap reports for it. An existing command of
    the same name is replaced without any error.
   */
  function AddConsoleCommand<P>(reg: Registry<P>, cmd: P, name: string): (r: Registry<P>)
    ensures name in r.commands && r.commands[name] == Entry(cmd, reg.nextSystem)
    ensures r.commands.Keys == reg.commands.Keys + {name}
    ensures forall n :: n in reg.commands && n != name ==> r.commands[n] == reg.commands[n]
    ensures r.nextSystem > reg.nextSystem
  {
    Registry(reg.commands[name := Entry(cmd, reg.nextSystem)], reg.nextSystem + 1)
  }

  /** Registering two commands of the same name keeps the second and nothing of the first. */
  lemma SameNameRegistrationReplaces<P>(reg: Registry<P>, first: P, second: P, name: string)
    ensures var r := AddConsoleCommand(AddConsoleCommand(reg, first, name), second, name);
            && r.commands.Keys == reg.commands.Keys + {name}
            && r.commands[name].cmd == second
            && r.commands[name].dispatch == reg.nextSystem + 1
  {
  }

  /** The command name: the text before the first space, all of it when there is none. */
  function CommandName(line: string): (name: string)
    ensures name <= line && ' ' !in name
    ensures name == line || line[|name|] == ' '
  {
    Split(line, ' ')[0]
  }

  /** Those three facts pin the name down: no other string has them. */
  lemma CommandNameIsUnique(line: string, name: string)
    requires name <= line && ' ' !in name
    requires name == line || line[|name|] == ' '
    ensures name == CommandName(line)
  {
  }

  /** An effect queued by a submission, in the order it is queued. */
  datatype Intent =
    | Println(message: string, consoleId: ConsoleId)
    | RunCommand(dispatch: SystemId, line: string, consoleId: ConsoleId)
    | RunBuiltin(builtin: Builtin, consoleId: ConsoleId)

  /** The message for a name that is neither registered nor a builtin. */
  function UnknownCommand(name: string): string {
    "Unknown command '" + name + "'"
  }

  /**
    `on_call_console_command` for the submitted `line` on the console `id`
    whose prompt is `prompt`. The submission's effects: the echo, then exactly
    one of running the registered command, running the builtin, or reporting an
    unknown command. Registered commands shadow builtins.
   */
  function OnCallConsoleCommand<P>(commands: map<string, Entry<P>>, prompt: string, line: string, id: ConsoleId): (r: seq<Intent>)
    ensures |r| == 2
    ensures r[0] == Println(prompt + line, id)
    ensures forall i :: 0 <= i < |r| ==> r[i].consoleId == id
    ensures var name := CommandName(line);
            && (name in commands ==> r[1] == RunCommand(commands[name].dispatch, line, id))
            && (name !in commands && name == "clear" ==> r[1] == RunBuiltin(Clear, id))
            && (name !in commands && name != "clear" ==> r[1] == Println(UnknownCommand(name), id))
  {
    var name := CommandName(line);
    var echo := Println(prompt + line, id);
    if name in commands then
      [echo, RunCommand(commands[name].dispatch, line, id)]
    else
      match FindBuiltin(name)
      case Some(b) => [echo, RunBuiltin(b, id)]
      case None => [echo, Println(UnknownCommand(name), id)]
  }

  /** The submitted text with an unknown name: two lines printed, nothing run. */
  lemma UnknownCommandPrintsTwoLines<P>(commands: map<string, Entry<P>>, prompt: string, line: string, id: ConsoleId)
    requires CommandName(line) !in commands && CommandName(line) != "clear"
    ensures var r := OnCallConsoleCommand(commands, prompt, line, id);
            && (forall i :: 0 <= i < |r| ==> r[i].Println?)
            && r == [Println(prompt + line, id), Println(UnknownCommand(CommandName(line)), id)]
  {
  }

  /**
    A command registered as "clear" (as the `clear` command is) runs instead
    of the builtin; "Clear" is unknown unless it is registered.
   */
  lemma RegisteredClearShadowsBuiltin<P>(commands: map<string, Entry<P>>, prompt: string, id: ConsoleId)
    ensures "clear" in commands ==>
              OnCallConsoleCommand(commands, prompt, "clear", id)[1] == RunCommand(commands["clear"].dispatch, "clear", id)
    ensures "Clear" !in commands ==>
              OnCallConsoleCommand(commands, prompt, "Clear", id)[1] == Println("Unknown command 'Clear'", id)
  {
    assert CommandName("clear") == "clear" by {
      CommandNameIsUnique("clear", "clear");
    }
    assert CommandName("Clear") == "Clear" by {
      CommandNameIsUnique("Clear", "Clear");
    }
  }

  /** The name of "say hello world" is "say"; of the empty line, the empty string. */
  lemma CommandNameExamples()
    ensures CommandName("say hello world") == "say"
    ensures CommandName("") == ""
  {
    CommandNameIsUnique("say hello world", "say");
    CommandNameIsUnique("", "");
  }

  /** What one call of `dispatch_cmd` does: write the parsed message, or print an error. */
  datatype DispatchOutcome<T> = Written(message: T) | Printed(error: string)

  /**
    `dispatch_cmd`: tokenize the raw line with `split`; when that fails print
    "Invalid quoting". Otherwise hand every token, the name included, to
    `parse`; print its formatted error, or write the parsed message.
   */
  function DispatchCmd<T>(split: string -> Option<seq<string>>, parse: seq<string> -> Result<T, string>, raw: string): (r: DispatchOutcome<T>)
    ensures split(raw).None? ==> r == Printed("Invalid quoting")
    ensures split(raw).Some? && parse(split(raw).value).Err? ==> r == Printed(parse(split(raw).value).error)
    ensures r.Written? <==> split(raw).Some? && parse(split(raw).value).Ok?
    ensures r.Written? ==> parse(split(raw).value) == Ok(r.message)
  {
    match split(raw)
    case None => Printed("Invalid quoting")
    case Some(tokens) =>
      match parse(tokens)
      case Err(e) => Printed(e)
      case Ok(m) => Written(m)
  }

  /** When tokenizing fails, the parser makes no difference: it is never consulted. */
  lemma QuotingFailureIgnoresParser<T>(split: string -> Option<seq<string>>, parse1: seq<string> -> Result<T, string>, parse2: seq<string> -> Result<T, string>, raw: string)
    requires split(raw).None?
    ensures DispatchCmd(split, parse1, raw) == DispatchCmd(split, parse2, raw)
  {
  }

  /**
    The builtin `clear` on a console and its view: the buffer empties and the
    view jumps to the bottom of the now empty buffer, which only a view showing
    no lines can do without the `usize` subtraction underflowing.
   */
  function ApplyBuiltin(b: Builtin, c: Console, v: BufferView): (r: (Console, BufferView))
    requires v.range == 0
    ensures r.0 == c.(buffer := [])
    ensures Lines(r.0.buffer) == []
    ensures r.1.start == 0 && r.1.range == v.range && r.1.consoleId == v.consoleId
    ensures Text(r.1, r.0) == "\n" + c.prompt + c.input
  {
    match b
    case Clear => (c.(buffer := []), JumpToBottom(v, 0))
  }
}
