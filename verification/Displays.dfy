/** From the arguments to what the program shows: the `help` and `version` commands. */
module Displays {
  import opened Optionals
  import opened Tokens
  import opened Commands
  import opened OptionValues
  import opened TokenStream
  import opened Semantics
  import opened Grammar
  import opened Finalization
  import opened Identification
  import opened Refinement
  import opened Readings
  import opened Conservation
  import opened Arguments
  import opened RunResults
  import opened CommandLine

  // ---- Lines that start with the word of a command -------------------------------------

  /** The command is called by this one word, and no other command path starts with it. */
  ghost predicate IsCalled(commands: seq<Command>, command: Command, word: string) {
    && command in commands && command.path == [word]
    && forall c :: c in commands && c.path != [] && c.path[0] == word ==> c == command
  }

  lemma {:induction false} NotWordAndMore(c: Command, command: Command, words: seq<string>)
    requires |command.path| == 1 && |words| == 2 && words[0] == command.path[0]
    requires c.path != [] && c.path[0] == command.path[0] ==> c == command
    ensures !(words <= c.path)
  {
  }

  lemma {:induction false} WordIsChosen(commands: seq<Command>, command: Command, word: string, more: seq<string>)
    requires IsCalled(commands, command, word)
    ensures var words := [word] + more;
            && Collected(commands, words) == 1 && Depth(commands, words) == 1
            && LastWithPath(commands, words[..1]) == Present(command)
  {
    var words := [word] + more;
    var i :| 0 <= i < |commands| && commands[i] == command;
    assert [word] <= commands[i].path && commands[i].path == [word];
    assert words[..1] == [word];
    if |words| > 1 {
      forall k | 0 <= k < |commands|
        ensures !(words[..2] <= commands[k].path)
      {
        NotWordAndMore(commands[k], command, words[..2]);
      }
    }
    CollectedStops(commands, [word], words);
    assert [word][..0] == [];
    assert IsPath(commands, [word]);
    assert Depth(commands, [word]) == 1;
  }

  /** Behind the word of a command all words are its positional tokens. */
  lemma {:induction false} WordLine(commands: seq<Command>, command: Command, word: string, more: seq<string>)
    requires IsCalled(commands, command, word) && PlainWord(word) && PlainWords(more)
    ensures Run(Start(commands, true), StreamOf([word] + more)) == Complete(command, more, map[])
  {
    var words := [word] + more;
    assert PlainWords(words);
    LineOfWords(words);
    MachineRefinesGrammar(commands, true, ValueTokens(words));
    WordIsChosen(commands, command, word, more);
    assert ValueTokens(words)[1..] == ValueTokens(more) + [];
    WordsAreRead(true, command, more, [], [], map[]);
    assert [] + more == more;
    EndRead(true, command, more);
    hide Run, Start, StreamOf, Complete, ReadOptions, Depth, Collected, LastWithPath, LeadingValues, ValueTokens,
      IsCalled;
  }

  lemma {:induction false} LineOfWords(words: seq<string>)
    requires PlainWords(words)
    ensures StreamOf(words) == ValueTokens(words) && LeadingValues(ValueTokens(words)) == words
  {
    WordsStream(words, []);
    WordsLead(words, []);
    assert words + [] == words && ValueTokens(words) + [] == ValueTokens(words);
  }

  lemma {:induction false} NothingToCheck(options: seq<Option>, values: ValuesMap)
    requires forall o :: o in options ==> o.key in values || (!o.required && o.semantics.defaultValue.Absent?)
    ensures CheckRequired(options, values) == Check(values, true)
    decreases |options|
  {
    if options != [] {
      assert options[0] in options;
      NothingToCheck(options[1..], values);
    }
  }

  // ---- The help command --------------------------------------------------------------------

  /** The `help` command as the interface sets it up: one rest argument of strings, and
      no option that would be stored without being given. */
  ghost predicate IsHelpCommand(command: Command) {
    && command.path == ["help"]
    && |command.positionals| == 1
    && IsStringRest(command.positionals[0])
    && forall o :: o in command.options ==> !o.required && o.semantics.defaultValue.Absent?
  }

  ghost predicate IsStringRest(option: Option) {
    && option.shortName == "" && option.longName == "" && option.key == "_REST_"
    && option.semantics.parse == StringParser()
  }

  function Entries(texts: seq<string>): (entries: seq<OptionValue>)
    ensures |entries| == |texts|
    ensures Texts(entries) == Present(texts)
  {
    if texts == [] then []
    else
      var entries := [OptionValue(StringValue(texts[0]), texts[0], true)] + Entries(texts[1..]);
      assert entries[1..] == Entries(texts[1..]);
      assert [texts[0]] + texts[1..] == texts;
      entries
  }

  lemma {:induction false} RestStored(rest: Option, texts: seq<string>, values: ValuesMap)
    requires rest.semantics.parse == StringParser()
    ensures StoreEach(rest, texts, values).Keys == values.Keys + if texts == [] then {} else {rest.key}
    ensures ValuesAt(StoreEach(rest, texts, values), rest.key) == ValuesAt(values, rest.key) + Entries(texts)
    decreases |texts|
  {
    hide Entries;
    if texts == [] {
      assert Entries(texts) == [];
      assert ValuesAt(values, rest.key) + [] == ValuesAt(values, rest.key);
    } else {
      var first := OptionValue(StringValue(texts[0]), texts[0], true);
      var next := StorePositional(rest, texts[0], values);
      assert ValuesAt(next, rest.key) == ValuesAt(values, rest.key) + [first];
      RestStored(rest, texts[1..], next);
      EntriesInFront(texts);
      assert ValuesAt(values, rest.key) + [first] + Entries(texts[1..]) == ValuesAt(values, rest.key) + Entries(texts);
    }
  }

  lemma {:induction false} EntriesInFront(texts: seq<string>)
    requires texts != []
    ensures Entries(texts) == [OptionValue(StringValue(texts[0]), texts[0], true)] + Entries(texts[1..])
  {
  }

  lemma {:induction false} RestAlone(rest: Option)
    requires IsStringRest(rest)
    ensures BeforeRest([rest]) == [] && AfterRest([rest]) == [] && LastRest([rest], Absent) == Present(rest)
    ensures |Unnamed([rest])| == 1
  {
    assert [] + [rest] + [] == [rest];
    PartsOfPlain([], rest, []);
  }

  lemma {:induction false} HelpCompletes(command: Command, path: seq<string>)
    requires IsHelpCommand(command) && path != []
    ensures Complete(command, path, map[]) == Finished(Success, Present(command), [], map["_REST_" := Entries(path)])
  {
    var rest := command.positionals[0];
    assert command.positionals == [rest];
    RestAlone(rest);
    AllUnnamed([rest]);
    assert path[|path|..] == [] && path[..0] == [] && path[0..|path|] == path;
    RestStored(rest, path, map[]);
    var stored: ValuesMap := map["_REST_" := Entries(path)];
    assert StoreEach(rest, path, map[]) == stored by {
      assert ValuesAt(map[], "_REST_") + Entries(path) == Entries(path);
    }
    NothingToCheck(command.options + command.positionals, stored);
    hide Unnamed, BeforeRest, AfterRest, LastRest, Entries;
  }

  /** The first argument is one of the three ways to ask for help. */
  predicate AsksForHelp(first: string) {
    first == "help" || first == "-h" || first == "--help"
  }

  predicate AsksForVersion(first: string) {
    first == "version" || first == "-v" || first == "--version"
  }

  lemma {:induction false} Rewritten(first: string, more: seq<string>, other: bool)
    ensures AsksForHelp(first) ==> Simplified([first] + more, other, true) == ["help"] + more
    ensures AsksForVersion(first) ==> Simplified([first] + more, true, other) == ["version"] + more
  {
    SimplifiedExactly([first] + more, other, true);
    SimplifiedExactly([first] + more, true, other);
    assert ([first] + more)[1..] == more;
  }

  lemma {:induction false} HelpLine(
    commands: seq<Command>, help: Command, first: string, path: seq<string>, hasVersion: bool)
    requires IsCalled(commands, help, "help") && IsHelpCommand(help) && AsksForHelp(first)
    requires path != [] && PlainWords(path)
    ensures Run(Start(commands, true), StreamOf(Simplified([first] + path, hasVersion, true)))
         == Finished(Success, Present(help), [], map["_REST_" := Entries(path)])
  {
    Rewritten(first, path, hasVersion);
    WordLine(commands, help, "help", path);
    HelpCompletes(help, path);
    hide Run, Start, StreamOf, Complete, Simplified, Entries, IsCalled, IsHelpCommand;
  }

  lemma {:induction false} DisplayOfEntries(commands: seq<Command>, help: Command, path: seq<string>)
    requires help.path == ["help"]
    ensures var display := DisplayOf(commands, help, map["_REST_" := Entries(path)]);
            if exists c :: c in commands && c.path == path then
              display.HelpOf? && display.command.path == path && IsFirstWith(commands, display.command)
            else display == UnknownPath(path)
  {
    var values: ValuesMap := map["_REST_" := Entries(path)];
    DisplayShows(commands, help, values);
    TextsSpell(Entries(path));
    assert "help" !in values by {
      assert "_REST_"[0] != "help"[0];
    }
    SpellsOnce(Entries(path), path);
    hide DisplayOf, Entries, Texts, IsFirstWith;
  }

  lemma {:induction false} SpellsOnce(entries: seq<OptionValue>, path: seq<string>)
    requires Spell(entries, path)
    ensures forall other :: Spell(entries, other) ==> other == path
    ensures forall i :: 0 <= i < |entries| ==> entries[i].value.StringValue?
  {
  }

  /** `help` followed by the path of a command parses, stores exactly that path, and
      shows the help of the first command with that path; so do the short and long forms. */
  lemma {:induction false} HelpRouting(
    commands: seq<Command>, help: Command, target: Command, first: string, hasVersion: bool)
    requires IsCalled(commands, help, "help") && IsHelpCommand(help) && AsksForHelp(first)
    requires target in commands && target.path != [] && PlainWords(target.path)
    ensures var args := Simplified([first] + target.path, hasVersion, true);
            var ending := Run(Start(commands, true), StreamOf(args));
            && ending == Finished(Success, Present(help), [], map["_REST_" := Entries(target.path)])
            && match OutcomeOf(commands, ending)
               case Shown(HelpOf(command)) => command.path == target.path && IsFirstWith(commands, command)
               case _ => false
  {
    HelpLine(commands, help, first, target.path, hasVersion);
    DisplayOfEntries(commands, help, target.path);
    hide Run, Start, StreamOf, DisplayOf, Simplified, Entries, IsCalled, IsFirstWith;
  }

  /** `help` with words that are no command path says so, with exactly these words. */
  lemma {:induction false} HelpUnknown(
    commands: seq<Command>, help: Command, words: seq<string>, first: string, hasVersion: bool)
    requires IsCalled(commands, help, "help") && IsHelpCommand(help) && AsksForHelp(first)
    requires words != [] && PlainWords(words) && forall c :: c in commands ==> c.path != words
    ensures var args := Simplified([first] + words, hasVersion, true);
            OutcomeOf(commands, Run(Start(commands, true), StreamOf(args))) == Shown(UnknownPath(words))
  {
    HelpLine(commands, help, first, words, hasVersion);
    DisplayOfEntries(commands, help, words);
    hide Run, Start, StreamOf, DisplayOf, Simplified, Entries, IsCalled, IsFirstWith;
  }

  lemma {:induction false} NothingGiven(command: Command)
    requires forall o :: o in command.options + command.positionals ==> !o.required && o.semantics.defaultValue.Absent?
    requires command.positionals == [] || (|command.positionals| == 1 && IsStringRest(command.positionals[0]))
    ensures Complete(command, [], map[]) == Finished(Success, Present(command), [], map[])
  {
    if command.positionals != [] {
      var rest := command.positionals[0];
      assert command.positionals == [rest];
      RestAlone(rest);
    }
    NothingToCheck(command.options + command.positionals, map[]);
  }

  /** `help` alone shows the overview of all commands. */
  lemma {:induction false} HelpAlone(commands: seq<Command>, help: Command, first: string, hasVersion: bool)
    requires IsCalled(commands, help, "help") && IsHelpCommand(help) && AsksForHelp(first)
    requires !help.positionals[0].required && help.positionals[0].semantics.defaultValue.Absent?
    ensures var args := Simplified([first], hasVersion, true);
            OutcomeOf(commands, Run(Start(commands, true), StreamOf(args))) == Shown(Overview)
  {
    Rewritten(first, [], hasVersion);
    assert [first] + [] == [first];
    WordLine(commands, help, "help", []);
    assert help.positionals == [help.positionals[0]];
    NothingGiven(help);
    DisplayShows(commands, help, map[]);
    hide Run, Start, StreamOf, Complete, DisplayOf, Simplified, IsCalled;
  }

  /** `version` and its short and long forms show the version. */
  lemma {:induction false} VersionShown(commands: seq<Command>, version: Command, first: string, hasHelp: bool)
    requires IsCalled(commands, version, "version") && AsksForVersion(first) && version.positionals == []
    requires forall o :: o in version.options ==> !o.required && o.semantics.defaultValue.Absent?
    ensures var args := Simplified([first], true, hasHelp);
            OutcomeOf(commands, Run(Start(commands, true), StreamOf(args))) == Shown(VersionText)
  {
    Rewritten(first, [], hasHelp);
    assert [first] + [] == [first];
    WordLine(commands, version, "version", []);
    assert version.options + version.positionals == version.options;
    NothingGiven(version);
    DisplayShows(commands, version, map[]);
    assert version.path != ["help"] by {
      assert version.path[0][0] != "help"[0];
    }
    hide Run, Start, StreamOf, Complete, DisplayOf, Simplified, IsCalled;
  }

  /** Whatever the arguments: if the line parses and an option with key `help` is on it,
      the help of the command it is for is shown. */
  lemma {:induction false} HelpOptionShows(
    commands: seq<Command>, args: seq<string>, a: Account, positionals: seq<string>, values: ValuesMap, i: nat)
    requires var ending := Run(Start(commands, true), StreamOf(args));
             ending.Finished? && ending.verdict == Success
    requires AccountsFor(commands, StreamOf(args), a, positionals, values)
    requires i < |a.items| && a.items[i].Occurrence? && a.items[i].option.key == "help"
    ensures OutcomeOf(commands, Run(Start(commands, true), StreamOf(args))) == Shown(HelpOf(a.command))
  {
    var tokens := StreamOf(args);
    var ending := Run(Start(commands, true), tokens);
    StreamTokenized(args);
    MachineRefinesGrammar(commands, true, tokens);
    LineEndings(commands, true, tokens);
    ValuesOfSuccess(commands, true, tokens, a, positionals, values);
    HelpKept(a.items, ending.values, i);
    DisplayShows(commands, a.command, ending.values);
    assert ChosenCommand(commands, tokens) == Present(a.command);
    hide Run, Start, StreamOf, ReadLine, ChosenCommand, AccountsFor, DisplayOf, OccurrencesStored;
  }

  lemma {:induction false} HelpKept(items: seq<Item>, values: ValuesMap, i: nat)
    requires OccurrencesStored(items, values) && i < |items| && items[i].Occurrence?
    ensures items[i].option.key in values
  {
  }
}
