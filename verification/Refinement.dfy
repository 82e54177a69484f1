/** The event-driven machine with re-issued events refines the reference grammar. */
module Refinement {
  import opened Optionals
  import opened Tokens
  import opened Commands
  import opened OptionValues
  import opened Semantics
  import opened Grammar
  import opened Finalization
  import opened Identification

  // ---- The configurations a run goes through ------------------------------------

  function OptionsAt(c: Context): Config {
    Config(AtOptions, c, NOTHING_IDENTIFIED, true, Absent, Absent, false)
  }

  function ShortAt(c: Context, value: Optional<string>): Config {
    Config(AtShort, c, NOTHING_IDENTIFIED, true, value, Absent, false)
  }

  function LongAt(c: Context, value: Optional<string>, afterEqualSign: bool): Config {
    Config(AtLong, c, NOTHING_IDENTIFIED, true, Absent, value, afterEqualSign)
  }

  function DashDashAt(c: Context): Config {
    Config(AtDashDash, c, NOTHING_IDENTIFIED, false, Absent, Absent, false)
  }

  function FinalAt(c: Context): Config {
    Config(AtFinal, c, NOTHING_IDENTIFIED, false, Absent, Absent, false)
  }

  /** Where an event leads once the command is known. */
  function WithCommand(c: Context, event: Token): (Config, Status) {
    if event.kind == EndOfInput then (FinalAt(FinalEnter(c).0), FinalEnter(c).1)
    else if event.kind == DashDash then (DashDashAt(c), Continue)
    else (OptionsAt(c), ReissueEvent)
  }

  function StartContext(commands: seq<Command>, allow: bool): Context {
    Start(commands, allow).context
  }

  function IdentifyAt(c: Context, segments: seq<string>): Config {
    Config(AtIdentify, c, Identified(c.commands, segments), false, Absent, Absent, false)
  }

  ghost predicate Ready(c: Context, command: Command) {
    c.activeCommand == Present(command)
  }

  function OptionsEnding(c: Context, command: Command, tokens: seq<Token>): Ending {
    EndingOf(LineOf(command, ReadOptions(c.allowValueWithNoEqual, command, tokens, c.positionalTokens, c.values)))
  }

  function ArgumentEnding(c: Context, command: Command, argument: Argument): Ending {
    match argument
    case Taken(values, rest) => OptionsEnding(c.(values := values), command, rest)
    case Refused(error) => Finished(Error(error), Present(command), c.positionalTokens, c.values)
  }

  // ---- Runs from the states behind the command --------------------------------------

  /** Nothing leads out of the state behind `--`. */
  lemma {:induction false} DashDashRun(s: Config, tokens: seq<Token>)
    requires s.at == AtDashDash && NoEnd(tokens)
    ensures Run(s, tokens) == Faulted(EndOfInputNotFinal)
    decreases |tokens|
  {
    assert Handle(s, Head(tokens)) == (s, Continue);
    if tokens != [] {
      DashDashRun(s, tokens[1..]);
    }
  }

  lemma {:induction false} FinalRun(s: Config, c: Context, command: Command)
    requires Ready(c, command)
    requires Handle(s, END_OF_INPUT).0.context == FinalEnter(c).0
    requires Handle(s, END_OF_INPUT).1 == FinalEnter(c).1
    ensures Run(s, []) == Complete(command, c.positionalTokens, c.values)
  {
    hide Handle, FinalEnter, Complete;
    FinalEnterCompletes(c, command);
  }

  lemma {:induction false} OptionsRun(c: Context, command: Command, tokens: seq<Token>)
    requires Ready(c, command) && NoEnd(tokens)
    ensures Run(OptionsAt(c), tokens) == OptionsEnding(c, command, tokens)
    decreases |tokens|, 0
  {
    if tokens == [] {
      FinalRun(OptionsAt(c), c, command);
    } else {
      var flag, rest := tokens[0], tokens[1..];
      assert flag.kind != EndOfInput && tokens == [flag] + rest;
      match flag.kind {
        case Value =>
          var d := c.(positionalTokens := c.positionalTokens + [flag.text]);
          assert Handle(OptionsAt(c), flag) == (OptionsAt(d), Continue);
          OptionsRun(d, command, rest);
        case DashDash =>
          assert Handle(OptionsAt(c), flag) == (OptionsAt(c).(at := AtDashDash), Continue);
          DashDashRun(OptionsAt(c).(at := AtDashDash), rest);
        case EqualSign =>
        case EndOfInput =>
        case LongOption =>
          LongOptionRun(c, command, flag, rest);
        case _ =>
          ShortOptionRun(c, command, flag, rest);
      }
    }
  }

  lemma {:induction false} LongOptionRun(c: Context, command: Command, flag: Token, rest: seq<Token>)
    requires Ready(c, command) && NoEnd(rest) && flag.kind == LongOption
    ensures Run(OptionsAt(c), [flag] + rest) == OptionsEnding(c, command, [flag] + rest)
    decreases |rest|, 3
  {
    var tokens := [flag] + rest;
    assert tokens[1..] == rest;
    match command.FindLongOption(flag.text) {
      case Absent =>
      case Present(option) =>
        if CheckMultipleOccurrence(option, c.values) {
          var d := c.(activeOption := Present(option));
          assert Handle(OptionsAt(c), flag) == (LongAt(d, Absent, false), Continue);
          LongRun(d, command, option, false, rest);
        }
    }
  }

  lemma {:induction false} ShortOptionRun(c: Context, command: Command, flag: Token, rest: seq<Token>)
    requires Ready(c, command) && NoEnd(rest) && (flag.kind == ShortOption || flag.kind == LoneDash)
    ensures Run(OptionsAt(c), [flag] + rest) == OptionsEnding(c, command, [flag] + rest)
    decreases |rest|, 3
  {
    var tokens := [flag] + rest;
    assert tokens[1..] == rest;
    match command.FindShortOption(flag.text) {
      case Absent =>
      case Present(option) =>
        if CheckMultipleOccurrence(option, c.values) {
          var d := c.(activeOption := Present(option));
          assert Handle(OptionsAt(c), flag) == (ShortAt(d, Absent), Continue);
          ShortRun(d, command, option, rest);
        }
    }
  }

  /** In the short option state, before any value. */
  lemma {:induction false} ShortRun(c: Context, command: Command, option: Option, tokens: seq<Token>)
    requires Ready(c, command) && NoEnd(tokens) && c.activeOption == Present(option)
    ensures Run(ShortAt(c, Absent), tokens)
         == ArgumentEnding(c, command, ReadArgument(c.allowValueWithNoEqual, false, false, option, tokens, c.values))
    decreases |tokens|, 1
  {
    var event := Head(tokens);
    var d := c.(values := StoreImplicit(option, c.values));
    if event.kind == Value && option.semantics.parse(event.text).Present? {
      var e := c.(values := Store(c.values, option.key,
                                  OptionValue(option.semantics.parse(event.text).value, event.text, false)));
      assert Handle(ShortAt(c, Absent), event) == (ShortAt(e, Present(event.text)), Continue);
      assert Handle(ShortAt(e, Present(event.text)), Head(tokens[1..])) == (OptionsAt(e), ReissueEvent);
      OptionsRun(e, command, tokens[1..]);
    } else if option.semantics.implicitValue.Present? {
      assert Handle(ShortAt(c, Absent), event) == (OptionsAt(d), ReissueEvent);
      OptionsRun(d, command, tokens);
    }
  }

  /** In the long option state, before any value. */
  lemma {:induction false} LongRun(
    c: Context, command: Command, option: Option, afterEqualSign: bool, tokens: seq<Token>)
    requires Ready(c, command) && NoEnd(tokens) && c.activeOption == Present(option)
    ensures Run(LongAt(c, Absent, afterEqualSign), tokens)
         == ArgumentEnding(
              c, command, ReadArgument(c.allowValueWithNoEqual, true, afterEqualSign, option, tokens, c.values))
    decreases |tokens|, 2
  {
    var event := Head(tokens);
    var s := LongAt(c, Absent, afterEqualSign);
    if event.kind == EqualSign {
      assert Handle(s, event) == (LongAt(c, Absent, true), Continue);
      LongRun(c, command, option, true, tokens[1..]);
    } else if event.kind == Value {
      LongValueRun(c, command, option, afterEqualSign, tokens);
    } else if option.semantics.implicitValue.Present? {
      var d := c.(values := StoreImplicit(option, c.values));
      assert Handle(s, event) == (OptionsAt(d), ReissueEvent);
      OptionsRun(d, command, tokens);
    }
  }

  lemma {:induction false} LongValueRun(
    c: Context, command: Command, option: Option, afterEqualSign: bool, tokens: seq<Token>)
    requires Ready(c, command) && NoEnd(tokens) && c.activeOption == Present(option)
    requires tokens != [] && tokens[0].kind == Value
    ensures Run(LongAt(c, Absent, afterEqualSign), tokens)
         == ArgumentEnding(
              c, command, ReadArgument(c.allowValueWithNoEqual, true, afterEqualSign, option, tokens, c.values))
    decreases |tokens|, 1
  {
    var event := tokens[0];
    var s := LongAt(c, Absent, afterEqualSign);
    if !afterEqualSign && !c.allowValueWithNoEqual {
    } else if option.semantics.parse(event.text).Present? {
      var value := OptionValue(option.semantics.parse(event.text).value, event.text, false);
      var e := c.(values := Store(c.values, option.key, value));
      assert Handle(s, event) == (LongAt(e, Present(event.text), afterEqualSign), Continue);
      LongDone(e, command, option, event.text, afterEqualSign, tokens[1..]);
    } else if !afterEqualSign && option.semantics.implicitValue.Present? {
      var d := c.(values := StoreImplicit(option, c.values));
      assert Handle(s, event) == (OptionsAt(d), ReissueEvent);
      OptionsRun(d, command, tokens);
    }
  }

  /** In the long option state with a value: only `=` signs are still swallowed. */
  lemma {:induction false} LongDone(
    c: Context, command: Command, option: Option, value: string, afterEqualSign: bool, tokens: seq<Token>)
    requires Ready(c, command) && NoEnd(tokens) && c.activeOption == Present(option)
    ensures Run(LongAt(c, Present(value), afterEqualSign), tokens) == OptionsEnding(c, command, SkipEquals(tokens))
    decreases |tokens|, 1
  {
    var s := LongAt(c, Present(value), afterEqualSign);
    if Head(tokens).kind == EqualSign {
      assert Handle(s, Head(tokens)) == (LongAt(c, Present(value), true), Continue);
      LongDone(c, command, option, value, true, tokens[1..]);
    } else {
      assert Handle(s, Head(tokens)) == (OptionsAt(c), ReissueEvent);
      OptionsRun(c, command, tokens);
    }
  }

  // ---- Runs from the identifying and the initial state --------------------------------

  lemma {:induction false} DefaultsAreCommands(commands: seq<Command>)
    ensures FirstDefault(commands).Present? ==>
              FirstDefault(commands).value in commands && FirstDefault(commands).value.IsDefault()
    ensures LastDefault(commands, Absent).Present? ==>
              LastDefault(commands, Absent).value in commands && LastDefault(commands, Absent).value.IsDefault()
    decreases |commands|
  {
    if commands != [] {
      DefaultsAreCommands(commands[1..]);
      DefaultsAreCommands(commands[..|commands| - 1]);
    }
  }

  /** Once a command is chosen, every event but the end of input and `--` is
      re-issued to the options state. */
  lemma {:induction false} CommandRun(s: Config, c: Context, command: Command, tokens: seq<Token>)
    requires Ready(c, command) && NoEnd(tokens)
    requires Handle(s, Head(tokens)) == WithCommand(c, Head(tokens))
    ensures Run(s, tokens) == OptionsEnding(c, command, tokens)
  {
    hide Handle, FinalEnter, Complete;
    if tokens == [] {
      FinalRun(s, c, command);
    } else if tokens[0].kind == DashDash {
      DashDashRun(DashDashAt(c), tokens[1..]);
    } else {
      OptionsRun(c, command, tokens);
    }
  }

  lemma {:induction false} RunStep(s: Config, tokens: seq<Token>)
    ensures var (next, status) := Handle(s, Head(tokens));
            match status
            case TerminateWithError(error) => Run(s, tokens) == Finish(Error(error), next.context)
            case Violation(fault) => Run(s, tokens) == Faulted(fault)
            case ReissueEvent => Run(s, tokens) == Run(next, tokens)
            case _ => true
  {
    hide Handle;
  }

  /** The identifying state, at a token that collects no further segment. */
  lemma {:induction false} IdentifyStops(c: Context, segments: seq<string>, tokens: seq<Token>, words: seq<string>)
    requires c == StartContext(c.commands, c.allowValueWithNoEqual)
    requires segments != [] && Extends(c.commands, segments) && NoEnd(tokens)
    requires words == segments + LeadingValues(tokens)
    requires |words| > |segments| ==> !Extends(c.commands, words[..|segments| + 1])
    ensures Run(IdentifyAt(c, segments), tokens)
         == EndingOf(ReadCommand(c.commands, c.allowValueWithNoEqual, words, |segments|, tokens))
  {
    var commands := c.commands;
    CollectedStops(commands, segments, words);
    var depth := Depth(commands, words);
    assert words[..depth] == segments[..depth];
    assert words[..|segments|] == segments;
    DefaultsAreCommands(commands);
    NextWord(segments, tokens);
    IdentifyStopsAction(c, segments, Head(tokens));
    RunStep(IdentifyAt(c, segments), tokens);
    hide Run, Handle, IdentifyAt, Start, ReadOptions, Complete, LeadingValues, FirstDefault, Extends;
    var chosen := if depth > 0 then LastWithPath(commands, words[..depth]) else LastDefault(commands, Absent);
    if depth > 0 {
      var d := c.(activeCommand := chosen);
      CommandRun(IdentifyAt(c, segments), d, chosen.value, tokens);
    } else if chosen.Present? && tokens != [] {
      var d := c.(activeCommand := chosen, positionalTokens := segments);
      OptionsRun(d, chosen.value, tokens);
    }
  }

  /** The event that ends the identification collects nothing. */
  ghost predicate EndsSegments(commands: seq<Command>, segments: seq<string>, event: Token) {
    event.kind == Value ==> !Extends(commands, segments + [event.text])
  }

  function Matched(c: Context, segments: seq<string>): Context {
    c.(activeCommand := MatchOf(c.commands, segments))
  }

  function FallenBack(c: Context, segments: seq<string>): Context {
    c.(activeCommand := LastDefault(c.commands, Absent), positionalTokens := segments)
  }

  lemma {:induction false} StopSearch(commands: seq<Command>, segments: seq<string>, event: Token)
    requires event.kind == Value && Extends(commands, segments) && EndsSegments(commands, segments, event)
    ensures var f := Identified(commands, segments);
            && Narrow(f.filtered, |segments| + 1, event.text) == []
            && LastComplete(f.filtered, |segments| + 1, event.text, f.lastMatched) == f.lastMatched
  {
    var more := segments + [event.text];
    IdentifiedStep(commands, segments, event.text);
    ExtendingMeansExtends(commands, more);
    CollectedStops(commands, segments, more);
    assert more[..Depth(commands, segments)] == segments[..Depth(commands, segments)];
  }

  lemma {:induction false} IdentifyStopsHandling(c: Context, segments: seq<string>, event: Token)
    requires c.positionalTokens == [] && segments != []
    requires Extends(c.commands, segments) && EndsSegments(c.commands, segments, event)
    ensures var (d, _, action) := IdentifyHandle(c, Identified(c.commands, segments), event);
            if MatchOf(c.commands, segments).Present? then
              d == Matched(c, segments)
              && action == TransitionTo(if event.kind == EndOfInput then AtFinal
                                        else if event.kind == DashDash then AtDashDash else AtOptions, true)
            else if LastDefault(c.commands, Absent).Present? then
              d == FallenBack(c, segments) && action == TransitionTo(AtOptions, true)
            else d == c && action == ReportError(UnrecognizedCommand)
  {
    if event.kind == Value {
      StopSearch(c.commands, segments, event);
    }
    hide Extends, MatchOf, Narrow, LastComplete, Extending, LastDefault;
  }

  /** The single event that ends the identification. */
  lemma {:induction false} IdentifyStopsAction(c: Context, segments: seq<string>, event: Token)
    requires c.positionalTokens == [] && segments != []
    requires Extends(c.commands, segments) && EndsSegments(c.commands, segments, event)
    ensures var s := IdentifyAt(c, segments);
            if MatchOf(c.commands, segments).Present? then
              Handle(s, event) == WithCommand(Matched(c, segments), event)
            else if LastDefault(c.commands, Absent).Present? then
              if event.kind == EndOfInput then Handle(s, event).1 == Violation(OptionsEnteredAtEnd)
              else Handle(s, event) == (OptionsAt(FallenBack(c, segments)), ReissueEvent)
            else Handle(s, event).1 == TerminateWithError(UnrecognizedCommand) && Handle(s, event).0.context == c
  {
    IdentifyStopsHandling(c, segments, event);
    hide FinalEnter, IdentifyHandle, Extends, MatchOf, Identified, LastDefault;
  }

  lemma {:induction false} RunContinues(s: Config, tokens: seq<Token>, next: Config)
    requires tokens != [] && tokens[0].kind != EndOfInput && Handle(s, tokens[0]) == (next, Continue)
    ensures Run(s, tokens) == Run(next, tokens[1..])
  {
    hide Handle;
  }

  /** The single event that collects one more segment. */
  lemma {:induction false} IdentifyContinues(c: Context, segments: seq<string>, event: Token)
    requires segments != [] && event.kind == Value && Extends(c.commands, segments + [event.text])
    ensures Handle(IdentifyAt(c, segments), event) == (IdentifyAt(c, segments + [event.text]), Continue)
  {
    IdentifiedStep(c.commands, segments, event.text);
    ExtendingMeansExtends(c.commands, segments + [event.text]);
  }

  /** The identifying state, after collecting `segments`. */
  lemma {:induction false} IdentifyRun(c: Context, segments: seq<string>, tokens: seq<Token>, words: seq<string>)
    requires c == StartContext(c.commands, c.allowValueWithNoEqual)
    requires segments != [] && Extends(c.commands, segments) && NoEnd(tokens)
    requires words == segments + LeadingValues(tokens)
    ensures |segments| <= Collected(c.commands, words) <= |segments| + |tokens|
    ensures Run(IdentifyAt(c, segments), tokens)
         == EndingOf(ReadCommand(c.commands, c.allowValueWithNoEqual, words, Collected(c.commands, words),
                                 tokens[Collected(c.commands, words) - |segments|..]))
    decreases |tokens|
  {
    hide Handle, Run, ReadCommand, EndingOf, IdentifyAt, Collected, Extends, Start, LeadingValues;
    if tokens != [] && tokens[0].kind == Value && Extends(c.commands, segments + [tokens[0].text]) {
      var more := segments + [tokens[0].text];
      IdentifyContinues(c, segments, tokens[0]);
      RunContinues(IdentifyAt(c, segments), tokens, IdentifyAt(c, more));
      OneMoreWord(segments, tokens);
      IdentifyRun(c, more, tokens[1..], words);
      var left := Collected(c.commands, words) - |segments|;
      assert tokens[1..][left - 1..] == tokens[left..];
    } else {
      NextWord(segments, tokens);
      CollectedStops(c.commands, segments, words);
      IdentifyStops(c, segments, tokens, words);
      assert tokens[0..] == tokens;
    }
  }

  lemma {:induction false} OneMoreWord(segments: seq<string>, tokens: seq<Token>)
    requires tokens != [] && tokens[0].kind == Value
    ensures segments + LeadingValues(tokens) == segments + [tokens[0].text] + LeadingValues(tokens[1..])
  {
  }

  lemma {:induction false} NextWord(segments: seq<string>, tokens: seq<Token>)
    ensures var words := segments + LeadingValues(tokens);
            && segments <= words
            && (|words| > |segments| ==>
                  && tokens != [] && tokens[0].kind == Value
                  && words[..|segments| + 1] == segments + [tokens[0].text])
  {
  }

  /** The first token decides between the identifying state and the default command. */
  lemma {:induction false} InitialRun(commands: seq<Command>, allow: bool, tokens: seq<Token>)
    requires NoEnd(tokens)
    requires tokens != [] && tokens[0].kind == Value ==> !Extends(commands, [tokens[0].text])
    ensures Run(Start(commands, allow), tokens) ==
            match FirstDefault(commands)
            case Present(command) => OptionsEnding(StartContext(commands, allow), command, tokens)
            case Absent =>
              var missing := tokens == [] || tokens[0].kind != Value;
              Finished(Error(if missing then MissingCommand else UnrecognizedCommand), Absent, [], map[])
  {
    DefaultsAreCommands(commands);
    if tokens != [] && tokens[0].kind == Value {
      MaybeCommandMeansExtends(commands, tokens[0].text);
    }
    if FirstDefault(commands).Present? {
      CommandRun(Start(commands, allow), StartContext(commands, allow), FirstDefault(commands).value, tokens);
    }
    RunStep(Start(commands, allow), tokens);
    hide Run, OptionsEnding, MaybeCommand, Extends, FirstDefault, FinalEnter;
  }

  lemma {:induction false} CollectedNothing(commands: seq<Command>, words: seq<string>)
    requires words != []
    ensures Collected(commands, words) == 0 <==> !Extends(commands, words[..1])
    decreases |words|
  {
    if |words| == 1 {
      assert words[..1] == words;
    } else {
      var shorter := words[..|words| - 1];
      assert shorter[..1] == words[..1];
      CollectedNothing(commands, shorter);
      PathExtends(commands, words, 1);
    }
  }

  lemma {:induction false} FirstSegmentRun(commands: seq<Command>, allow: bool, tokens: seq<Token>)
    requires tokens != [] && tokens[0].kind == Value && Extends(commands, [tokens[0].text])
    ensures Run(Start(commands, allow), tokens)
         == Run(IdentifyAt(StartContext(commands, allow), [tokens[0].text]), tokens[1..])
  {
    InitialCollects(commands, allow, tokens[0]);
    RunContinues(Start(commands, allow), tokens, IdentifyAt(StartContext(commands, allow), [tokens[0].text]));
  }

  lemma {:induction false} InitialCollects(commands: seq<Command>, allow: bool, event: Token)
    requires event.kind == Value && Extends(commands, [event.text])
    ensures Handle(Start(commands, allow), event)
         == (IdentifyAt(StartContext(commands, allow), [event.text]), Continue)
  {
    hide Extends, Identified, FirstDefault, IdentifyEnter;
    MaybeCommandMeansExtends(commands, event.text);
    IdentifiedFirst(StartContext(commands, allow), event);
  }

  /** For every command set and every token list, the machine ends as the reference
      grammar says: the same verdict or fault, active command, positional tokens left
      and values. */
  lemma {:induction false} MachineRefinesGrammar(commands: seq<Command>, allow: bool, tokens: seq<Token>)
    requires NoEnd(tokens)
    ensures Run(Start(commands, allow), tokens) == ParseLine(commands, allow, tokens)
  {
    hide Handle, ReadCommand, ReadOptions, Complete, Collected, Extends, IdentifyAt, Start, FirstDefault;
    StartFacts(commands, allow);
    var words := LeadingValues(tokens);
    if words == [] {
      InitialRun(commands, allow, tokens);
      assert Collected(commands, words) == 0;
    } else {
      var first, rest := tokens[0], tokens[1..];
      assert words == [first.text] + LeadingValues(rest);
      assert words[..1] == [first.text];
      CollectedNothing(commands, words);
      if Extends(commands, [first.text]) {
        FirstSegmentRun(commands, allow, tokens);
        IdentifyRun(StartContext(commands, allow), [first.text], rest, words);
        var collected := Collected(commands, words);
        assert rest[collected - 1..] == tokens[collected..];
      } else {
        InitialRun(commands, allow, tokens);
      }
    }
  }

  lemma {:induction false} StartFacts(commands: seq<Command>, allow: bool)
    ensures StartContext(commands, allow) == Context(commands, allow, FirstDefault(commands), Absent, [], map[])
  {
  }
}
