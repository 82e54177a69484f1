/**
 Conservation of tokens and of option occurrences, and the deepest match, for
 whole runs of the machine.
 */
module Conservation {
  import opened Optionals
  import opened Tokens
  import opened Commands
  import opened OptionValues
  import opened Semantics
  import opened Grammar
  import opened Identification
  import opened Refinement
  import opened Readings

  // ---- Endings ------------------------------------------------------------------

  /** The endings only the final state produces. */
  predicate EntersFinal(ending: Ending) {
    match ending
    case Finished(Success, _, _, _) => true
    case Finished(Error(error), _, _, _) => error == UnexpectedPositionalArguments || error == MissingRequiredOption
    case Faulted(fault) => fault == TooFewPositionals || fault == NotPositional
  }

  lemma {:induction false} ArgumentErrors(
    allow: bool, isLong: bool, equalSeen: bool, option: Option, tokens: seq<Token>, values: ValuesMap)
    ensures var r := ReadArgument(allow, isLong, equalSeen, option, tokens, values);
            r.Refused? ==> r.error == MissingValueForOption || (r.error == OptionSyntaxError && !allow)
    decreases |tokens|
  {
    if isLong && tokens != [] && tokens[0].kind == EqualSign {
      ArgumentErrors(allow, isLong, true, option, tokens[1..], values);
    }
  }

  /** A reading that stops early names the command, and is no ending of the final state. */
  lemma {:induction false} HaltedReadings(
    allow: bool, command: Command, tokens: seq<Token>, positionals: seq<string>, values: ValuesMap)
    ensures var r := ReadOptions(allow, command, tokens, positionals, values);
            r.Halted? ==>
              && !EntersFinal(r.ending)
              && (r.ending.Faulted? ==> r.ending.fault == EndOfInputNotFinal)
              && (r.ending.Finished? ==> r.ending.activeCommand == Present(command)
                                         && r.ending.verdict.Error?
                                         && r.ending.verdict.error != UnrecognizedCommand
                                         && r.ending.verdict.error != MissingCommand)
    decreases |tokens|
  {
    if tokens != [] {
      var flag, rest := tokens[0], tokens[1..];
      if flag.kind == Value {
        HaltedReadings(allow, command, rest, positionals + [flag.text], values);
      } else if Resolve(command, flag).Present? {
        var option := Resolve(command, flag).value;
        ArgumentErrors(allow, flag.kind == LongOption, false, option, rest, values);
        var read := ReadArgument(allow, flag.kind == LongOption, false, option, rest, values);
        if read.Taken? && flag.kind != EqualSign && flag.kind != DashDash && CheckMultipleOccurrence(option, values) {
          HaltedReadings(allow, command, read.rest, positionals, read.values);
        }
      }
    }
  }

  lemma {:induction false} CompleteEndings(command: Command, positionals: seq<string>, values: ValuesMap)
    ensures var ending := Complete(command, positionals, values);
            && EntersFinal(ending)
            && (ending.Finished? ==> ending.activeCommand == Present(command))
  {
  }

  /** The command a line is read for, if any. */
  function ChosenCommand(commands: seq<Command>, tokens: seq<Token>): Optional<Command> {
    var words := LeadingValues(tokens);
    var depth := Depth(commands, words);
    if depth > 0 then LastWithPath(commands, words[..depth])
    else if Collected(commands, words) > 0 then LastDefault(commands, Absent)
    else FirstDefault(commands)
  }

  lemma {:induction false} DepthWithinCollected(commands: seq<Command>, words: seq<string>)
    ensures Depth(commands, words) <= Collected(commands, words)
    decreases |words|
  {
    if words != [] {
      assert words[..|words|] == words;
      PathExtends(commands, words, |words|);
      DepthWithinCollected(commands, words[..|words| - 1]);
    }
  }

  lemma {:induction false} SomeDefault(commands: seq<Command>)
    ensures FirstDefault(commands).Present? <==> LastDefault(commands, Absent).Present?
    ensures FirstDefault(commands).Present? <==> exists c :: c in commands && c.path == [""]
    decreases |commands|
  {
    DefaultsAreCommands(commands);
    NoDefault(commands);
  }

  lemma {:induction false} NoDefault(commands: seq<Command>)
    ensures FirstDefault(commands).Absent? ==> forall c :: c in commands ==> c.path != [""]
    ensures LastDefault(commands, Absent).Absent? ==> forall c :: c in commands ==> c.path != [""]
    decreases |commands|
  {
    if commands != [] {
      NoDefault(commands[1..]);
      NoDefault(commands[..|commands| - 1]);
    }
  }

  /** How the endings of a line relate to its command. */
  lemma {:induction false} LineEndings(commands: seq<Command>, allow: bool, tokens: seq<Token>)
    ensures var line := ReadLine(commands, allow, tokens);
            var ending := EndingOf(line);
            var chosen := ChosenCommand(commands, tokens);
            && (line.Reached? <==> EntersFinal(ending))
            && (line.Reached? ==> chosen == Present(line.command))
            && (ending.Finished? ==> ending.activeCommand == chosen)
            && (ending.Finished? ==>
                  (chosen.Absent? <==>
                   ending.verdict == Error(UnrecognizedCommand) || ending.verdict == Error(MissingCommand)))
            && (ending.Finished? && chosen.Absent? ==>
                  (ending.verdict == Error(MissingCommand) <==> LeadingValues(tokens) == []))
  {
    hide ReadOptions, Complete, Collected, Depth, LastWithPath, FirstDefault, LastDefault;
    var words := LeadingValues(tokens);
    var collected := Collected(commands, words);
    DepthWithinCollected(commands, words);
    SomeDefault(commands);
    assert words == [] ==> collected == 0;
    var line := ReadLine(commands, allow, tokens);
    if line.Reached? {
      CompleteEndings(line.command, line.positionals, line.values);
    }
    if ChosenCommand(commands, tokens).Present? {
      var command := ChosenCommand(commands, tokens).value;
      if collected == 0 {
        HaltedReadings(allow, command, tokens, [], map[]);
      } else {
        HaltedReadings(allow, command, tokens[collected..], [], map[]);
        HaltedReadings(allow, command, tokens[collected..], words[..collected], map[]);
      }
    }
  }

  /** The command is in the list, and none behind it has the same path. */
  ghost predicate IsLastWith(commands: seq<Command>, command: Command) {
    exists i :: 0 <= i < |commands| && commands[i] == command
                && forall j :: i < j < |commands| ==> commands[j].path != command.path
  }

  /** The command is in the list, and none in front of it has the same path. */
  ghost predicate IsFirstWith(commands: seq<Command>, command: Command) {
    exists i :: 0 <= i < |commands| && commands[i] == command
                && forall j :: 0 <= j < i ==> commands[j].path != command.path
  }

  lemma {:induction false} FirstDefaultIsFirst(commands: seq<Command>)
    requires FirstDefault(commands).Present?
    ensures FirstDefault(commands).value.path == [""] && IsFirstWith(commands, FirstDefault(commands).value)
  {
    if commands[0].path != [""] {
      FirstDefaultIsFirst(commands[1..]);
      var rest, found := commands[1..], FirstDefault(commands).value;
      var i :| 0 <= i < |rest| && rest[i] == found && forall j :: 0 <= j < i ==> rest[j].path != found.path;
      assert commands[i + 1] == found;
      forall j | 0 <= j < i + 1
        ensures commands[j].path != found.path
      {
        assert j > 0 ==> commands[j] == rest[j - 1];
      }
    }
  }

  lemma {:induction false} LastDefaultIsLast(commands: seq<Command>)
    requires LastDefault(commands, Absent).Present?
    ensures LastDefault(commands, Absent).value.path == [""]
    ensures IsLastWith(commands, LastDefault(commands, Absent).value)
  {
    var front, last := commands[..|commands| - 1], commands[|commands| - 1];
    if last.path != [""] {
      LastDefaultIsLast(front);
      var found := LastDefault(commands, Absent).value;
      var i :| 0 <= i < |front| && front[i] == found && forall j :: i < j < |front| ==> front[j].path != found.path;
      assert commands[i] == found;
      forall j | i < j < |commands|
        ensures commands[j].path != found.path
      {
        assert j < |front| ==> commands[j] == front[j];
      }
    }
  }

  lemma {:induction false} DefaultsAreFirstAndLast(commands: seq<Command>)
    ensures FirstDefault(commands).Present? ==>
              FirstDefault(commands).value.path == [""] && IsFirstWith(commands, FirstDefault(commands).value)
    ensures LastDefault(commands, Absent).Present? ==>
              LastDefault(commands, Absent).value.path == [""]
              && IsLastWith(commands, LastDefault(commands, Absent).value)
  {
    if FirstDefault(commands).Present? {
      FirstDefaultIsFirst(commands);
    }
    if LastDefault(commands, Absent).Present? {
      LastDefaultIsLast(commands);
    }
  }

  // ---- The deepest match ----------------------------------------------------------

  /** A run that ends without a fault is for the deepest command: the last one whose
      path is the longest command path the leading value tokens start with. If there
      is none it is for a default command, one whose path is a single empty segment: the
      last such command if the first word starts a command path, else the first. Without
      a default command the run reports an error. */
  lemma {:induction false} DeepestMatch(commands: seq<Command>, allow: bool, tokens: seq<Token>)
    requires NoEnd(tokens)
    requires Run(Start(commands, allow), tokens).Finished?
    ensures var ending := Run(Start(commands, allow), tokens);
            var words := LeadingValues(tokens);
            var active := ending.activeCommand;
            if exists n :: 0 < n <= |words| && IsPath(commands, words[..n]) then
              && active.Present? && active.value.path <= words
              && (forall n :: |active.value.path| < n <= |words| ==> !IsPath(commands, words[..n]))
              && IsLastWith(commands, active.value)
            else if exists c :: c in commands && c.path == [""] then
              active.Present? && active.value.path == [""]
              && if words != [] && Extends(commands, words[..1]) then IsLastWith(commands, active.value)
                 else IsFirstWith(commands, active.value)
            else
              active.Absent?
              && ending.verdict == Error(if words == [] then MissingCommand else UnrecognizedCommand)
  {
    MachineRefinesGrammar(commands, allow, tokens);
    LineEndings(commands, allow, tokens);
    SomeDefault(commands);
    DefaultsAreCommands(commands);
    var ending := Run(Start(commands, allow), tokens);
    hide Run, Start, ParseLine, ReadLine;
    var words := LeadingValues(tokens);
    var depth := Depth(commands, words);
    DepthIsDeepest(commands, words);
    if words != [] {
      CollectedNothing(commands, words);
    }
    if depth > 0 {
      LastWithPathIsLast(commands, words[..depth]);
      assert 0 < depth <= |words| && IsPath(commands, words[..depth]);
    } else if ending.activeCommand.Present? {
      DefaultsAreFirstAndLast(commands);
      assert words == [] ==> Collected(commands, words) == 0;
    }
    hide Collected, Depth, LastWithPath, FirstDefault, LastDefault, LeadingValues, Extends, IsPath;
  }

  // ---- Conservation ------------------------------------------------------------------

  /** Who gets which token: path segments of the command, segments dropped behind
      them, segments kept as positionals, and the items of the rest of the line. */
  datatype Account = Account(
    command: Command, path: seq<string>, dropped: seq<string>, leading: seq<string>, items: seq<Item>)

  ghost predicate AccountsFor(
    commands: seq<Command>, tokens: seq<Token>, a: Account, positionals: seq<string>, values: ValuesMap)
  {
    var words := LeadingValues(tokens);
    var depth, collected := Depth(commands, words), Collected(commands, words);
    && ChosenCommand(commands, tokens) == Present(a.command)
    // each token is used exactly once, and in order
    && WithoutEquals(tokens) == ValueTokens(a.path + a.dropped + a.leading) + Unparse(a.items)
    && (if depth > 0 then
          && a.path == a.command.path && |a.path| == depth <= collected
          && a.dropped == words[depth..collected] && a.leading == []
        else
          && a.command.path == [""]
          && a.path == [] && a.dropped == [] && a.leading == words[..collected])
    && positionals == a.leading + PositionalTexts(a.items)
    // one value per option occurrence
    && ValidItems(a.command, a.items) && Greedy(a.items) && Allowed(a.items, map[])
    && NoEmptyEntries(values)
    && forall key :: ValuesAt(values, key) == ValuesUnder(a.command, a.items, key)
  }

  lemma {:induction false} WordsInFront(tokens: seq<Token>, n: nat)
    requires n <= |LeadingValues(tokens)|
    ensures WithoutEquals(tokens) == ValueTokens(LeadingValues(tokens)[..n]) + WithoutEquals(tokens[n..])
  {
    SplitWords(tokens, n);
    WordsKept(LeadingValues(tokens)[..n], tokens[n..]);
    hide LeadingValues, ValueTokens, WithoutEquals;
  }

  lemma {:induction false} ReachedCommand(commands: seq<Command>, allow: bool, tokens: seq<Token>)
    ensures var line := ReadLine(commands, allow, tokens);
            line.Reached? ==> ChosenCommand(commands, tokens) == Present(line.command)
  {
    LineEndings(commands, allow, tokens);
  }

  /** What a line that is read to its end has behind its segments, and for which command. */
  lemma {:induction false} ReachedReading(commands: seq<Command>, allow: bool, tokens: seq<Token>)
    requires ReadLine(commands, allow, tokens).Reached?
    ensures var line := ReadLine(commands, allow, tokens);
            var words := LeadingValues(tokens);
            var depth, collected := Depth(commands, words), Collected(commands, words);
            var leading := if depth > 0 then [] else words[..collected];
            && depth <= collected
            && ReadOptions(allow, line.command, tokens[collected..], leading, map[])
               == AtEnd(line.positionals, line.values)
            && if depth > 0 then line.command.path == words[..depth] else line.command.path == [""]
  {
    var collected := Collected(commands, LeadingValues(tokens));
    DepthWithinCollected(commands, LeadingValues(tokens));
    DefaultsAreCommands(commands);
    assert collected == 0 ==> tokens[collected..] == tokens;
    hide ReadOptions, Depth, Collected, LeadingValues, FirstDefault, LastDefault, LastWithPath;
  }

  lemma {:induction false} ValuesFromNothing(command: Command, items: seq<Item>, values: ValuesMap)
    requires ValidItems(command, items)
    requires forall key :: ValuesAt(values, key) == ValuesAt(map[], key) + ValuesUnder(command, items, key)
    ensures forall key :: ValuesAt(values, key) == ValuesUnder(command, items, key)
  {
    hide ValidItems, ValuesUnder;
    forall key
      ensures ValuesAt(values, key) == ValuesUnder(command, items, key)
    {
      assert ValuesAt(map[], key) == [];
      assert [] + ValuesUnder(command, items, key) == ValuesUnder(command, items, key);
    }
  }

  lemma {:induction false} LineAccount(commands: seq<Command>, allow: bool, tokens: seq<Token>) returns (a: Account)
    requires NoEnd(tokens) && ReadLine(commands, allow, tokens).Reached?
    ensures var line := ReadLine(commands, allow, tokens);
            a.command == line.command && AccountsFor(commands, tokens, a, line.positionals, line.values)
  {
    var line := ReadLine(commands, allow, tokens);
    var words := LeadingValues(tokens);
    var depth, collected := Depth(commands, words), Collected(commands, words);
    ReachedReading(commands, allow, tokens);
    ReachedCommand(commands, allow, tokens);
    WordsInFront(tokens, collected);
    assert NoEmptyEntries(map[]);
    hide ReadLine, ReadOptions, Depth, Collected, WithoutEquals, Unparse, PositionalTexts, ValuesUnder, LeadingValues,
      ChosenCommand, ValueTokens, Allowed, Greedy, ValidItems, NoEmptyEntries, ValuesAt;
    var path, dropped, leading :=
      words[..if depth > 0 then depth else 0],
      if depth > 0 then words[depth..collected] else [],
      if depth > 0 then [] else words[..collected];
    assert path + dropped + leading == words[..collected];
    var items := OptionsAccount(allow, line.command, tokens[collected..], leading, map[]);
    ValuesFromNothing(line.command, items, line.values);
    a := Account(line.command, path, dropped, leading, items);
  }

  lemma {:induction false} SameStore(values: ValuesMap, others: ValuesMap)
    requires NoEmptyEntries(values) && NoEmptyEntries(others)
    requires forall key :: ValuesAt(values, key) == ValuesAt(others, key)
    ensures values == others
  {
    forall key: string
      ensures key in values <==> key in others
      ensures key in values && key in others ==> values[key] == others[key]
    {
      assert ValuesAt(values, key) == ValuesAt(others, key);
    }
  }

  lemma {:induction false} SameTail(prefix: seq<Token>, tail: seq<Token>, other: seq<Token>)
    requires prefix + tail == prefix + other
    ensures tail == other
  {
    assert (prefix + tail)[|prefix|..] == tail && (prefix + other)[|prefix|..] == other;
  }

  /** A line has one account only: the tokens alone tell who gets which of them, and
      with it the positional tokens and the values. */
  lemma {:induction false} AccountIsUnique(
    commands: seq<Command>, tokens: seq<Token>, a: Account, positionals: seq<string>, values: ValuesMap,
    b: Account, others: seq<string>, otherValues: ValuesMap)
    requires AccountsFor(commands, tokens, a, positionals, values)
    requires AccountsFor(commands, tokens, b, others, otherValues)
    ensures a == b && positionals == others && values == otherValues
  {
    hide Unparse, WithoutEquals, Depth, Collected, ChosenCommand, PositionalTexts, LeadingValues,
      Allowed, Greedy, ValidItems, NoEmptyEntries, ValuesAt, ValuesUnder;
    SameTail(ValueTokens(a.path + a.dropped + a.leading), Unparse(a.items), Unparse(b.items));
    ItemsAreUnique(a.command, a.items, b.items);
    SameStore(values, otherValues);
  }

  /** Every run that enters the final state accounts for all its tokens: path segments
      of the active command, option flags, option values and positionals are rebuilt
      into the token list, each used once and in order, and only the segments collected
      behind the matched path are dropped. Each key holds one value per occurrence of
      its options, in command-line order, when the final state takes over. */
  lemma {:induction false} Conserved(commands: seq<Command>, allow: bool, tokens: seq<Token>)
    requires NoEnd(tokens)
    requires EntersFinal(Run(Start(commands, allow), tokens))
    ensures exists a, positionals, values ::
              AccountsFor(commands, tokens, a, positionals, values)
              && Run(Start(commands, allow), tokens) == Complete(a.command, positionals, values)
  {
    MachineRefinesGrammar(commands, allow, tokens);
    LineEndings(commands, allow, tokens);
    hide Run, ReadLine, Complete, AccountsFor;
    var line := ReadLine(commands, allow, tokens);
    var a := LineAccount(commands, allow, tokens);
    assert AccountsFor(commands, tokens, a, line.positionals, line.values);
  }
}
