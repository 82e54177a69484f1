/** What never happens in a run, and exactly when a run ends with a fault. */
module Safety {
  import opened Optionals
  import opened Tokens
  import opened Commands
  import opened OptionValues
  import opened TokenStream
  import opened Semantics
  import opened Grammar
  import opened Finalization
  import opened Refinement
  import opened Conservation

  // ---- `=` tokens: tokenizer and parser together --------------------------------------

  predicate TakesEqualSign(at: StateId) {
    at == AtLong || at == AtDashDash
  }

  /** In the run from `s`, every `=` event arrives in a state that takes it. */
  ghost predicate EqualSignsInPlace(s: Config, tokens: seq<Token>)
    decreases |tokens|, ReissueRank(s.at)
  {
    var (next, status) := Handle(s, Head(tokens));
    && (Head(tokens).kind == EqualSign ==> TakesEqualSign(s.at))
    && (status.ReissueEvent? ==> EqualSignsInPlace(next, tokens))
    && (status.Continue? && Head(tokens).kind != EndOfInput ==> EqualSignsInPlace(next, tokens[1..]))
  }

  predicate SameAllowance(s: Config, t: Config) {
    s.context.allowValueWithNoEqual == t.context.allowValueWithNoEqual
  }

  lemma {:induction false} ReactShape(s: Config, event: Token)
    requires s.at != AtFinal
    ensures var (next, action) := React(s, event);
            && SameAllowance(s, next) && next.at == s.at
            && (event.kind == LongOption && action.DoNothing? ==> s.at == AtDashDash)
            && (event.kind == LongOption && action.TransitionTo? ==>
                  action.target == AtOptions || action.target == AtLong)
            && (event.kind == EqualSign && action.TransitionTo? ==> !TakesEqualSign(s.at))
            && (action == ReportError(OptionSyntaxError) ==>
                  (s.at == AtOptions && event.kind == EqualSign)
                  || (s.at == AtLong && !s.context.allowValueWithNoEqual))
  {
    hide MaybeCommand, Narrow, LastComplete, Store, StoreImplicit;
    match s.at
    case AtInitial =>
    case AtIdentify =>
    case AtOptions =>
    case AtShort =>
    case AtLong =>
    case AtDashDash =>
    case AtFinal =>
  }

  lemma {:induction false} LeaveShape(s: Config)
    ensures var (next, status) := Leave(s);
            SameAllowance(s, next) && status != TerminateWithError(OptionSyntaxError)
  {
    hide StoreImplicit;
  }

  lemma {:induction false} EnterShape(s: Config, target: StateId, withData: bool, event: Token)
    ensures var (next, status) := Enter(s, target, withData, event);
            && SameAllowance(s, next) && next.at == target
            && status != TerminateWithError(OptionSyntaxError)
            && (status.Continue? || status.ReissueEvent? ==> target != AtFinal)
            && (status.Continue? ==> target != AtOptions)
  {
    hide Narrow, LastComplete, LastDefault, Allocate, StoreEach, CheckRequired, CheckMultipleOccurrence;
    match target
    case AtInitial =>
    case AtIdentify =>
    case AtOptions =>
    case AtShort =>
    case AtLong =>
    case AtDashDash =>
    case AtFinal =>
  }

  /** What a single event does to the state the machine is in. */
  lemma {:induction false} StepShape(s: Config, event: Token)
    requires s.at != AtFinal
    ensures var (next, status) := Handle(s, event);
            && SameAllowance(s, next)
            && (status.Continue? || status.ReissueEvent? ==> next.at != AtFinal)
            && (status.Continue? && event.kind == LongOption ==> TakesEqualSign(next.at))
            && (status.ReissueEvent? && event.kind == EqualSign ==> !TakesEqualSign(s.at))
            && (status == TerminateWithError(OptionSyntaxError) ==>
                  (s.at == AtOptions && event.kind == EqualSign)
                  || (s.at == AtLong && !s.context.allowValueWithNoEqual))
  {
    hide React, Leave, Enter;
    ReactShape(s, event);
    var (reacted, action) := React(s, event);
    if action.TransitionTo? {
      LeaveShape(reacted);
      EnterShape(Leave(reacted).0, action.target, action.withData, event);
    }
  }

  lemma {:induction false} EqualSignsStayInPlace(s: Config, tokens: seq<Token>)
    requires s.at != AtFinal && NoEnd(tokens) && EqualsFollowLong(tokens)
    requires tokens != [] && tokens[0].kind == EqualSign ==> TakesEqualSign(s.at)
    ensures EqualSignsInPlace(s, tokens)
    ensures s.context.allowValueWithNoEqual ==>
              match Run(s, tokens)
              case Finished(verdict, _, _, _) => verdict != Error(OptionSyntaxError)
              case Faulted(_) => true
    decreases |tokens|, ReissueRank(s.at)
  {
    var event := Head(tokens);
    StepShape(s, event);
    var (next, status) := Handle(s, event);
    hide Handle;
    if status.ReissueEvent? {
      EqualSignsStayInPlace(next, tokens);
    } else if status.Continue? && tokens != [] {
      assert |tokens| > 1 && tokens[1].kind == EqualSign ==> tokens[0].kind == LongOption;
      EqualSignsStayInPlace(next, tokens[1..]);
    }
  }

  /** Whatever the arguments, `=` arrives only in the long option state or behind `--`,
      so no syntax error is reported while values may come without `=`. */
  lemma {:induction false} NoSyntaxError(commands: seq<Command>, args: seq<string>)
    ensures EqualSignsInPlace(Start(commands, true), StreamOf(args))
    ensures match Run(Start(commands, true), StreamOf(args))
            case Finished(verdict, _, _, _) => verdict != Error(OptionSyntaxError)
            case Faulted(_) => true
  {
    StreamTokenized(args);
    EqualSignsStayInPlace(Start(commands, true), StreamOf(args));
  }

  // ---- Faults -------------------------------------------------------------------------

  /** Whatever the commands and the tokens, no reachable step violates a contract but in
      the four known ways; when each of them occurs is said exactly below. */
  lemma {:induction false} OnlyKnownFaults(commands: seq<Command>, allow: bool, tokens: seq<Token>)
    requires NoEnd(tokens)
    ensures match Run(Start(commands, allow), tokens)
            case Faulted(fault) =>
              || fault == OptionsEnteredAtEnd || fault == EndOfInputNotFinal
              || fault == TooFewPositionals || fault == NotPositional
            case Finished(_, _, _, _) => true
  {
    MachineRefinesGrammar(commands, allow, tokens);
    LineFaults(commands, allow, tokens);
    var line := ReadLine(commands, allow, tokens);
    if line.Reached? {
      CompleteEndings(line.command, line.positionals, line.values);
    }
    hide Run, Start, ReadLine, Complete, PartialPath, LastDefault;
  }

  /** The line is nothing but words that start some command path without being, or
      starting with, one. */
  predicate PartialPath(commands: seq<Command>, tokens: seq<Token>) {
    var words := LeadingValues(tokens);
    words != [] && |words| == |tokens| && Extends(commands, words) && Depth(commands, words) == 0
  }

  lemma {:induction false} LineFaults(commands: seq<Command>, allow: bool, tokens: seq<Token>)
    ensures var line := ReadLine(commands, allow, tokens);
            && (line.Stopped? && line.ending.Faulted? ==>
                  line.ending.fault == OptionsEnteredAtEnd || line.ending.fault == EndOfInputNotFinal)
            && (line == Stopped(Faulted(OptionsEnteredAtEnd)) <==>
                PartialPath(commands, tokens) && LastDefault(commands, Absent).Present?)
  {
    hide ReadOptions, Depth, LastWithPath, FirstDefault, LastDefault, Extends;
    var words := LeadingValues(tokens);
    var collected := Collected(commands, words);
    var depth := Depth(commands, words);
    var chosen := ChosenCommand(commands, tokens);
    DepthWithinCollected(commands, words);
    if words != [] {
      CollectedAll(commands, words);
    }
    if chosen.Present? {
      HaltedReadings(allow, chosen.value, tokens, [], map[]);
      HaltedReadings(allow, chosen.value, tokens[collected..], [], map[]);
      HaltedReadings(allow, chosen.value, tokens[collected..], words[..collected], map[]);
    }
  }

  lemma {:induction false} CollectedAll(commands: seq<Command>, words: seq<string>)
    requires words != []
    ensures Collected(commands, words) == |words| <==> Extends(commands, words)
  {
  }

  /** The options state is entered against its contract exactly when the arguments stop
      inside a command path and a default command takes over. */
  lemma {:induction false} OptionsEnteredAtEndExactly(commands: seq<Command>, allow: bool, tokens: seq<Token>)
    requires NoEnd(tokens)
    ensures Run(Start(commands, allow), tokens) == Faulted(OptionsEnteredAtEnd)
            <==> PartialPath(commands, tokens) && exists c :: c in commands && c.path == [""]
  {
    MachineRefinesGrammar(commands, allow, tokens);
    LineFaults(commands, allow, tokens);
    SomeDefault(commands);
    hide Run, ReadLine, PartialPath;
    var line := ReadLine(commands, allow, tokens);
    if line.Reached? {
      CompleteEndings(line.command, line.positionals, line.values);
    }
  }

  /** How many positional tokens the final state takes one by one: one for each argument
      but the rest, up to the first argument that has a name. */
  function TakenOneByOne(command: Command): nat {
    |WithoutRest(Unnamed(command.positionals))|
  }

  lemma {:induction false} CompleteFaults(command: Command, positionals: seq<string>, values: ValuesMap)
    ensures Complete(command, positionals, values) == Faulted(TooFewPositionals)
            <==> |positionals| < TakenOneByOne(command)
    ensures Complete(command, positionals, values) == Faulted(NotPositional)
            <==> TakenOneByOne(command) <= |positionals| && !OnlyUnnamed(command)
  {
    RestSplits(Unnamed(command.positionals));
    hide StoreAll, StoreEach, CheckRequired, Unnamed, BeforeRest, AfterRest, LastRest, Reverse, WithoutRest;
  }

  /** The final state takes a token from an empty list exactly when a line that is read
      to its end has too few positional tokens. */
  lemma {:induction false} TooFewPositionalsExactly(commands: seq<Command>, allow: bool, tokens: seq<Token>)
    requires NoEnd(tokens)
    ensures Run(Start(commands, allow), tokens) == Faulted(TooFewPositionals)
            <==> match ReadLine(commands, allow, tokens)
                 case Reached(command, positionals, _) => |positionals| < TakenOneByOne(command)
                 case Stopped(_) => false
  {
    MachineRefinesGrammar(commands, allow, tokens);
    LineFaults(commands, allow, tokens);
    var line := ReadLine(commands, allow, tokens);
    if line.Reached? {
      CompleteFaults(line.command, line.positionals, line.values);
    }
    hide Run, Start, ReadLine, Complete, PartialPath, LastDefault, TakenOneByOne, OnlyUnnamed;
  }

  /** The contract of the final state fails exactly when a line that is read to its end
      has tokens enough to get to a positional argument with a name. */
  lemma {:induction false} NotPositionalExactly(commands: seq<Command>, allow: bool, tokens: seq<Token>)
    requires NoEnd(tokens)
    ensures Run(Start(commands, allow), tokens) == Faulted(NotPositional)
            <==> match ReadLine(commands, allow, tokens)
                 case Reached(command, positionals, _) =>
                   TakenOneByOne(command) <= |positionals|
                   && exists o :: o in command.positionals && (o.shortName != "" || o.longName != "")
                 case Stopped(_) => false
  {
    MachineRefinesGrammar(commands, allow, tokens);
    LineFaults(commands, allow, tokens);
    var line := ReadLine(commands, allow, tokens);
    if line.Reached? {
      CompleteFaults(line.command, line.positionals, line.values);
      AllUnnamed(line.command.positionals);
    }
    hide Run, Start, ReadLine, Complete, PartialPath, LastDefault, TakenOneByOne, Unnamed;
  }

  /** For a line that is read to its end the account of its tokens, the only one there
      is, tells which of the two faults of the final state occurs. */
  lemma {:induction false} FinalFaultsOnAccount(
    commands: seq<Command>, allow: bool, tokens: seq<Token>, a: Account, positionals: seq<string>, values: ValuesMap)
    requires NoEnd(tokens) && ReadLine(commands, allow, tokens).Reached?
    requires AccountsFor(commands, tokens, a, positionals, values)
    ensures Run(Start(commands, allow), tokens) == Faulted(TooFewPositionals)
            <==> |positionals| < TakenOneByOne(a.command)
    ensures Run(Start(commands, allow), tokens) == Faulted(NotPositional)
            <==> TakenOneByOne(a.command) <= |positionals| && !OnlyUnnamed(a.command)
  {
    MachineRefinesGrammar(commands, allow, tokens);
    var line := ReadLine(commands, allow, tokens);
    var b := LineAccount(commands, allow, tokens);
    AccountIsUnique(commands, tokens, a, positionals, values, b, line.positionals, line.values);
    CompleteFaults(line.command, line.positionals, line.values);
    hide Run, Start, ReadLine, Complete, AccountsFor, TakenOneByOne, OnlyUnnamed;
  }

  lemma {:induction false} RestSplits(options: seq<Option>)
    ensures WithoutRest(options) == BeforeRest(options) + AfterRest(options)
  {
    if options == [] {
    } else if options[0].IsPositionalRest() {
      assert options[0..] == options;
    } else {
      RestSplits(options[1..]);
      assert BeforeRest(options) == [options[0]] + BeforeRest(options[1..]);
      assert options[RestPosition(options)..] == options[1..][RestPosition(options[1..])..];
    }
  }

  // ---- Behind `--` ----------------------------------------------------------------------

  lemma {:induction false} SkipEqualsBefore(tokens: seq<Token>, tail: seq<Token>)
    requires tail != [] && tail[0].kind == DashDash
    ensures SkipEquals(tokens + tail) == SkipEquals(tokens) + tail
  {
    if tokens == [] {
      assert tokens + tail == tail;
    } else {
      assert (tokens + tail)[1..] == tokens[1..] + tail;
      SkipEqualsBefore(tokens[1..], tail);
    }
  }

  lemma {:induction false} ArgumentBefore(
    allow: bool, isLong: bool, equalSeen: bool, option: Option, tokens: seq<Token>, tail: seq<Token>, values: ValuesMap)
    requires tail != [] && tail[0].kind == DashDash
    ensures ReadArgument(allow, isLong, equalSeen, option, tokens + tail, values) ==
            match ReadArgument(allow, isLong, equalSeen, option, tokens, values)
            case Taken(taken, rest) => Taken(taken, rest + tail)
            case Refused(error) => Refused(error)
    decreases |tokens|
  {
    if tokens == [] {
      assert tokens + tail == tail;
    } else {
      assert (tokens + tail)[1..] == tokens[1..] + tail;
      SkipEqualsBefore(tokens[1..], tail);
      if isLong && tokens[0].kind == EqualSign {
        ArgumentBefore(allow, isLong, true, option, tokens[1..], tail, values);
      }
    }
  }

  lemma {:induction false} OptionsBefore(
    allow: bool, command: Command, tokens: seq<Token>, tail: seq<Token>, positionals: seq<string>, values: ValuesMap)
    requires tail != [] && tail[0].kind == DashDash
    ensures ReadOptions(allow, command, tokens + tail, positionals, values) ==
            match ReadOptions(allow, command, tokens, positionals, values)
            case AtEnd(_, _) => Halted(Faulted(EndOfInputNotFinal))
            case Halted(ending) => Halted(ending)
    decreases |tokens|
  {
    hide ReadArgument, Resolve, CheckMultipleOccurrence;
    if tokens == [] {
      assert tokens + tail == tail;
    } else {
      var flag, rest := tokens[0], tokens[1..];
      assert (tokens + tail)[1..] == rest + tail;
      if flag.kind == Value {
        OptionsBefore(allow, command, rest, tail, positionals + [flag.text], values);
      } else if flag.kind != DashDash && flag.kind != EqualSign && Resolve(command, flag).Present? {
        var option := Resolve(command, flag).value;
        ArgumentBefore(allow, flag.kind == LongOption, false, option, rest, tail, values);
        var read := ReadArgument(allow, flag.kind == LongOption, false, option, rest, values);
        if read.Taken? {
          OptionsBefore(allow, command, read.rest, tail, positionals, read.values);
        }
      }
    }
  }

  lemma {:induction false} WordsBefore(tokens: seq<Token>, tail: seq<Token>)
    requires tail != [] && tail[0].kind == DashDash
    ensures LeadingValues(tokens + tail) == LeadingValues(tokens)
  {
    if tokens == [] {
      assert tokens + tail == tail;
    } else {
      assert (tokens + tail)[1..] == tokens[1..] + tail;
      WordsBefore(tokens[1..], tail);
    }
  }

  /** What the line before a `--` comes to, once the `--` is there. */
  function CutShort(line: Line): Line {
    match line
    case Reached(_, _, _) => Stopped(Faulted(EndOfInputNotFinal))
    case Stopped(ending) =>
      if ending == Faulted(OptionsEnteredAtEnd) then Stopped(Faulted(EndOfInputNotFinal)) else line
  }

  lemma {:induction false} LineBefore(commands: seq<Command>, allow: bool, tokens: seq<Token>, tail: seq<Token>)
    requires tail != [] && tail[0].kind == DashDash
    ensures ReadLine(commands, allow, tokens + tail) == CutShort(ReadLine(commands, allow, tokens))
  {
    hide ReadOptions, Depth, Collected, LastWithPath, FirstDefault, LastDefault, LeadingValues;
    WordsBefore(tokens, tail);
    var words := LeadingValues(tokens);
    var collected := Collected(commands, words);
    var left := tokens[collected..];
    assert (tokens + tail)[collected..] == left + tail;
    assert words == [] ==> collected == 0;
    var chosen := ChosenCommand(commands, tokens);
    DepthWithinCollected(commands, words);
    if chosen.Present? {
      var command := chosen.value;
      if collected == 0 {
        OptionsBefore(allow, command, tokens, tail, [], map[]);
        HaltedReadings(allow, command, tokens, [], map[]);
      } else {
        OptionsBefore(allow, command, left, tail, [], map[]);
        HaltedReadings(allow, command, left, [], map[]);
        OptionsBefore(allow, command, left, tail, words[..collected], map[]);
        HaltedReadings(allow, command, left, words[..collected], map[]);
        NothingLeft(allow, command, tail, words[..collected]);
        assert left == [] ==> left + tail == tail;
      }
    }
  }

  lemma {:induction false} NothingLeft(allow: bool, command: Command, tail: seq<Token>, positionals: seq<string>)
    requires tail != [] && tail[0].kind == DashDash
    ensures ReadOptions(allow, command, tail, positionals, map[]) == Halted(Faulted(EndOfInputNotFinal))
  {
  }

  /** A line with a `--` never succeeds: either the tokens before it report an error, the
      one they report without it, or the end of input finds the machine not final. */
  lemma {:induction false} DashDashExactly(commands: seq<Command>, allow: bool, tokens: seq<Token>, behind: seq<Token>)
    requires NoEnd(tokens) && NoEnd(behind)
    ensures var tail := [Token(DashDash, "--")] + behind;
            var before := Run(Start(commands, allow), tokens);
            Run(Start(commands, allow), tokens + tail) ==
            if EntersFinal(before) || before == Faulted(OptionsEnteredAtEnd) then Faulted(EndOfInputNotFinal)
            else before
  {
    var tail := [Token(DashDash, "--")] + behind;
    MachineRefinesGrammar(commands, allow, tokens);
    MachineRefinesGrammar(commands, allow, tokens + tail);
    LineBefore(commands, allow, tokens, tail);
    LineEndings(commands, allow, tokens);
  }

  /** Only a `--` makes the end of input find the machine not final. */
  lemma {:induction false} StuckNeedsDashDash(commands: seq<Command>, allow: bool, tokens: seq<Token>)
    requires NoEnd(tokens) && NoDashDash(tokens)
    ensures Run(Start(commands, allow), tokens) != Faulted(EndOfInputNotFinal)
  {
    MachineRefinesGrammar(commands, allow, tokens);
    LineNeverStuck(commands, allow, tokens);
    hide Run, ReadLine;
    var line := ReadLine(commands, allow, tokens);
    if line.Reached? {
      CompleteEndings(line.command, line.positionals, line.values);
    }
  }

  ghost predicate NoDashDash(tokens: seq<Token>) {
    forall i :: 0 <= i < |tokens| ==> tokens[i].kind != DashDash
  }

  lemma {:induction false} ArgumentWithoutDashDash(
    allow: bool, isLong: bool, equalSeen: bool, option: Option, tokens: seq<Token>, values: ValuesMap)
    requires NoDashDash(tokens)
    ensures var r := ReadArgument(allow, isLong, equalSeen, option, tokens, values); r.Taken? ==> NoDashDash(r.rest)
    decreases |tokens|
  {
    if tokens != [] {
      SkipKeeps(tokens[1..]);
      if isLong && tokens[0].kind == EqualSign {
        ArgumentWithoutDashDash(allow, isLong, true, option, tokens[1..], values);
      }
    }
  }

  lemma {:induction false} SkipKeeps(tokens: seq<Token>)
    requires NoDashDash(tokens)
    ensures NoDashDash(SkipEquals(tokens))
  {
    if tokens != [] {
      SkipKeeps(tokens[1..]);
    }
  }

  lemma {:induction false} OptionsNeverStuck(
    allow: bool, command: Command, tokens: seq<Token>, positionals: seq<string>, values: ValuesMap)
    requires NoDashDash(tokens)
    ensures ReadOptions(allow, command, tokens, positionals, values) != Halted(Faulted(EndOfInputNotFinal))
    decreases |tokens|
  {
    hide ReadArgument, Resolve, CheckMultipleOccurrence;
    if tokens != [] {
      var flag, rest := tokens[0], tokens[1..];
      assert flag.kind != DashDash;
      if flag.kind == Value {
        OptionsNeverStuck(allow, command, rest, positionals + [flag.text], values);
      } else if Resolve(command, flag).Present? {
        var option := Resolve(command, flag).value;
        ArgumentWithoutDashDash(allow, flag.kind == LongOption, false, option, rest, values);
        var read := ReadArgument(allow, flag.kind == LongOption, false, option, rest, values);
        if read.Taken? {
          OptionsNeverStuck(allow, command, read.rest, positionals, read.values);
        }
      }
    }
  }

  lemma {:induction false} LineNeverStuck(commands: seq<Command>, allow: bool, tokens: seq<Token>)
    requires NoDashDash(tokens)
    ensures ReadLine(commands, allow, tokens) != Stopped(Faulted(EndOfInputNotFinal))
  {
    hide ReadOptions, Depth, Collected, LastWithPath, FirstDefault, LastDefault, LeadingValues;
    var words := LeadingValues(tokens);
    var collected := Collected(commands, words);
    var chosen := ChosenCommand(commands, tokens);
    DepthWithinCollected(commands, words);
    if chosen.Present? {
      OptionsNeverStuck(allow, chosen.value, tokens, [], map[]);
      OptionsNeverStuck(allow, chosen.value, tokens[collected..], [], map[]);
      OptionsNeverStuck(allow, chosen.value, tokens[collected..], words[..collected], map[]);
    }
  }
}
