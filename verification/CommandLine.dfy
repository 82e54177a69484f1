/** The command line interface around the parser: the rewriting of the first
    argument, and the lookup behind the `help` command. */
module CommandLine {
  import opened Optionals
  import opened Commands
  import opened OptionValues
  import opened TokenStream
  import opened Semantics
  import opened Grammar
  import opened Refinement
  import opened Conservation
  import Parser

  const HELP := "help"
  const HELP_SHORT := "-h"
  const HELP_LONG := "--help"
  const VERSION := "version"
  const VERSION_SHORT := "-v"
  const VERSION_LONG := "--version"

  /** What the program shows on its own account after a successful parse. */
  datatype Display =
    | Nothing
    | VersionText
    | HelpOf(command: Command)
    | UnknownPath(path: seq<string>)
    | Overview
    | BadCast

  datatype Outcome =
    | Shown(display: Display)
    | ArgumentsError(error: ErrorKind)
    | Broken(fault: Fault)

  function Simplified(args: seq<string>, hasVersion: bool, hasHelp: bool): seq<string> {
    if args == [] then args
    else if hasVersion && (args[0] == VERSION_SHORT || args[0] == VERSION_LONG) then args[0 := VERSION]
    else if hasHelp && (args[0] == HELP_SHORT || args[0] == HELP_LONG) then args[0 := HELP]
    else args
  }

  function PathAsString(path: seq<string>): string {
    if path == [] then "" else if |path| == 1 then path[0] else path[0] + " " + PathAsString(path[1..])
  }

  /** The texts of the values, all of which must be strings. */
  function Texts(values: seq<OptionValue>): Optional<seq<string>> {
    if values == [] then Present([])
    else
      match (values[0].value, Texts(values[1..]))
      case (StringValue(text), Present(texts)) => Present([text] + texts)
      case _ => Absent
  }

  /** The first command with this path. */
  function FindByPath(commands: seq<Command>, path: seq<string>): (found: Optional<Command>)
    ensures found.Present? ==> found.value in commands && found.value.path == path
    ensures found.Absent? ==> forall c :: c in commands ==> c.path != path
  {
    if commands == [] then Absent
    else if commands[0].path == path then Present(commands[0])
    else FindByPath(commands[1..], path)
  }

  function HelpDisplay(commands: seq<Command>, active: Command, values: ValuesMap): Display {
    if HELP in values then HelpOf(active)
    else if PathAsString(active.path) != HELP then Nothing
    else if KEY_REST !in values then Overview
    else
      match Texts(values[KEY_REST])
      case Absent => BadCast
      case Present(path) =>
        match FindByPath(commands, path)
        case Present(command) => HelpOf(command)
        case Absent => UnknownPath(path)
  }

  function DisplayOf(commands: seq<Command>, active: Command, values: ValuesMap): Display {
    if PathAsString(active.path) == HELP || HELP in values then HelpDisplay(commands, active, values)
    else if PathAsString(active.path) == VERSION then VersionText
    else Nothing
  }

  /** The outcome for a run's ending; a successful run always has an active command. */
  function OutcomeOf(commands: seq<Command>, ending: Ending): Outcome {
    match ending
    case Faulted(fault) => Broken(fault)
    case Finished(Error(error), _, _, _) => ArgumentsError(error)
    case Finished(Success, Present(active), _, values) => Shown(DisplayOf(commands, active, values))
    case Finished(Success, Absent, _, _) => Broken(NoActiveCommand)
  }

  // ---- Rewriting, outcome and display in their own terms ---------------------------------

  /** Only the first argument is ever rewritten, and only to the word of a command there is. */
  lemma {:induction false} SimplifiedExactly(args: seq<string>, hasVersion: bool, hasHelp: bool)
    ensures args != [] && hasVersion && (args[0] == "-v" || args[0] == "--version") ==>
              Simplified(args, hasVersion, hasHelp) == ["version"] + args[1..]
    ensures args != [] && hasHelp && (args[0] == "-h" || args[0] == "--help") ==>
              Simplified(args, hasVersion, hasHelp) == ["help"] + args[1..]
    ensures (args == []
             || !((hasVersion && (args[0] == "-v" || args[0] == "--version"))
                  || (hasHelp && (args[0] == "-h" || args[0] == "--help")))) ==>
              Simplified(args, hasVersion, hasHelp) == args
  {
  }

  lemma {:induction false} PathOfOneWord(path: seq<string>, word: string)
    requires word != "" && ' ' !in word
    ensures PathAsString(path) == word <==> path == [word]
  {
    if |path| > 1 {
      assert PathAsString(path)[|path[0]|] == ' ';
    }
  }

  /** The display tells of a values map and an active command what it should. */
  ghost predicate Shows(commands: seq<Command>, active: Command, values: ValuesMap, display: Display) {
    if "help" in values then display == HelpOf(active)
    else if active.path == ["help"] then
      if "_REST_" !in values then display == Overview
      else ShowsPath(commands, values["_REST_"], display)
    else display == if active.path == ["version"] then VersionText else Nothing
  }

  /** The entries spell a path: the first command with it is shown, if there is one. */
  ghost predicate ShowsPath(commands: seq<Command>, entries: seq<OptionValue>, display: Display) {
    if exists i :: 0 <= i < |entries| && !entries[i].value.StringValue? then display == BadCast
    else
      exists path :: && Spell(entries, path)
                     && if exists c :: c in commands && c.path == path then
                          display.HelpOf? && display.command.path == path && IsFirstWith(commands, display.command)
                        else display == UnknownPath(path)
  }

  ghost predicate Spell(entries: seq<OptionValue>, path: seq<string>) {
    |entries| == |path| && forall i :: 0 <= i < |path| ==> entries[i].value == StringValue(path[i])
  }

  lemma {:induction false} TextsSpell(entries: seq<OptionValue>)
    ensures Texts(entries).Absent? <==> exists i :: 0 <= i < |entries| && !entries[i].value.StringValue?
    ensures Texts(entries).Present? ==> Spell(entries, Texts(entries).value)
  {
    if entries != [] {
      var rest := entries[1..];
      TextsSpell(rest);
      assert forall i :: 0 < i < |entries| ==> entries[i] == rest[i - 1];
      if exists i :: 0 <= i < |rest| && !rest[i].value.StringValue? {
        var i :| 0 <= i < |rest| && !rest[i].value.StringValue?;
        assert entries[i + 1] == rest[i];
      }
    }
  }

  lemma {:induction false} FoundIsFirst(commands: seq<Command>, path: seq<string>)
    requires FindByPath(commands, path).Present?
    ensures IsFirstWith(commands, FindByPath(commands, path).value)
  {
    if commands[0].path != path {
      FoundIsFirst(commands[1..], path);
      var rest, found := commands[1..], FindByPath(commands, path).value;
      var i :| 0 <= i < |rest| && rest[i] == found && forall j :: 0 <= j < i ==> rest[j].path != found.path;
      assert commands[i + 1] == found;
      forall j | 0 <= j < i + 1
        ensures commands[j].path != found.path
      {
        assert j > 0 ==> commands[j] == rest[j - 1];
      }
    }
  }

  lemma {:induction false} DisplayShows(commands: seq<Command>, active: Command, values: ValuesMap)
    ensures Shows(commands, active, values, DisplayOf(commands, active, values))
  {
    PathOfOneWord(active.path, "help");
    PathOfOneWord(active.path, "version");
    if "_REST_" in values {
      var entries := values["_REST_"];
      TextsSpell(entries);
      if Texts(entries).Present? {
        var path := Texts(entries).value;
        if FindByPath(commands, path).Present? {
          FoundIsFirst(commands, path);
        }
      }
    }
    hide PathAsString, Texts, FindByPath, IsFirstWith;
  }

  /** What the program does with the ending of a run. */
  ghost predicate Settles(commands: seq<Command>, ending: Ending, outcome: Outcome) {
    match ending
    case Faulted(fault) => outcome == Broken(fault)
    case Finished(Error(error), _, _, _) => outcome == ArgumentsError(error)
    case Finished(Success, active, _, values) =>
      active.Present? && outcome.Shown? && Shows(commands, active.value, values, outcome.display)
  }

  lemma {:induction false} OutcomeSettles(commands: seq<Command>, args: seq<string>)
    ensures var ending := Run(Start(commands, true), StreamOf(args));
            Settles(commands, ending, OutcomeOf(commands, ending))
  {
    var tokens := StreamOf(args);
    StreamTokenized(args);
    MachineRefinesGrammar(commands, true, tokens);
    LineEndings(commands, true, tokens);
    var ending := Run(Start(commands, true), tokens);
    hide Run, Start, StreamOf, ReadLine, ChosenCommand, Shows, DisplayOf;
    if ending.Finished? && ending.activeCommand.Present? {
      DisplayShows(commands, ending.activeCommand.value, ending.values);
    }
  }

  function Behind(texts: seq<string>, more: Optional<seq<string>>): Optional<seq<string>> {
    match more
    case Present(others) => Present(texts + others)
    case Absent => Absent
  }

  lemma {:induction false} BehindNothing(more: Optional<seq<string>>)
    ensures Behind([], more) == more
  {
    assert more.Present? ==> [] + more.value == more.value;
  }

  lemma {:induction false} BehindStep(texts: seq<string>, text: string, more: Optional<seq<string>>)
    ensures Behind(texts, Behind([text], more)) == Behind(texts + [text], more)
  {
    assert more.Present? ==> texts + ([text] + more.value) == texts + [text] + more.value;
  }

  class Cli {
    const commands: seq<Command>
    const hasVersionCommand: bool
    const hasHelpCommand: bool

    constructor (commands: seq<Command>, hasVersionCommand: bool, hasHelpCommand: bool)
      ensures this.commands == commands
      ensures this.hasVersionCommand == hasVersionCommand && this.hasHelpCommand == hasHelpCommand
    {
      this.commands := commands;
      this.hasVersionCommand := hasVersionCommand;
      this.hasHelpCommand := hasHelpCommand;
    }

    /** Exactly the errors of the run over the rewritten arguments are thrown, exactly its
        faults break the program, and exactly a success shows something. */
    method Parse(arguments: seq<string>) returns (outcome: Outcome)
      ensures var args := Simplified(arguments, hasVersionCommand, hasHelpCommand);
              var ending := Run(Start(commands, true), StreamOf(args));
              outcome == OutcomeOf(commands, ending) && Settles(commands, ending, outcome)
    {
      hide Run, StreamOf, Start, Settles;
      OutcomeSettles(commands, Simplified(arguments, hasVersionCommand, hasHelpCommand));
      var args := arguments;
      if args != [] {
        if hasVersionCommand && (args[0] == VERSION_SHORT || args[0] == VERSION_LONG) {
          args := args[0 := VERSION];
        } else if hasHelpCommand && (args[0] == HELP_SHORT || args[0] == HELP_LONG) {
          args := args[0 := HELP];
        }
      }
      var parser := new Parser.CmdLineParser(commands, true, args);
      StreamTokenized(args);
      var noErrors, error, fault, _ := parser.Parse();
      if fault.Present? {
        return Broken(fault.value);
      }
      if !noErrors {
        return ArgumentsError(error.value);
      }
      if parser.context.activeCommand.Absent? {
        return Broken(NoActiveCommand);
      }
      var active := parser.context.activeCommand.value;
      if PathAsString(active.path) == HELP || parser.context.ovm.HasOption(HELP) {
        var display := HandleHelpCommand(active, parser.context.ovm);
        return Shown(display);
      }
      outcome := Shown(if PathAsString(active.path) == VERSION then VersionText else Nothing);
    }

    method HandleHelpCommand(active: Command, ovm: OptionValuesMap) returns (display: Display)
      ensures display == HelpDisplay(commands, active, ovm.values)
    {
      if ovm.HasOption(HELP) {
        return HelpOf(active);
      }
      if PathAsString(active.path) != HELP {
        return Nothing;
      }
      if !ovm.HasOption(KEY_REST) {
        return Overview;
      }
      var values := ovm.ValuesOf(KEY_REST);
      var commandPath: seq<string> := [];
      var i := 0;
      assert values[0..] == values;
      BehindNothing(Texts(values));
      while i < |values|
        invariant 0 <= i <= |values|
        invariant Texts(values) == Behind(commandPath, Texts(values[i..]))
      {
        assert values[i..][0] == values[i] && values[i..][1..] == values[i + 1..];
        if !values[i].value.StringValue? {
          return BadCast;
        }
        BehindStep(commandPath, values[i].value.text, Texts(values[i + 1..]));
        commandPath := commandPath + [values[i].value.text];
        i := i + 1;
      }
      assert commandPath + [] == commandPath;
      match FindByPath(commands, commandPath) {
        case Present(command) => display := HelpOf(command);
        case Absent => display := UnknownPath(commandPath);
      }
    }
  }
}
