/**
 The state objects of the parser's machine and the context they share.
 */
module States {
  import opened Optionals
  import opened Tokens
  import opened Commands
  import opened OptionValues
  import S = Semantics
  import opened Semantics

  class ParserContext {
    const commands: seq<Command>
    const allowValueWithNoEqual: bool
    const ovm: OptionValuesMap
    var activeCommand: Optional<Command>
    var activeOption: Optional<Option>
    var positionalTokens: seq<string>

    ghost function View(): Context
      reads this, ovm
    {
      Context(commands, allowValueWithNoEqual, activeCommand, activeOption, positionalTokens, ovm.values)
    }

    constructor (commands: seq<Command>, allowValueWithNoEqual: bool)
      ensures fresh(ovm)
      ensures View() == Context(commands, allowValueWithNoEqual, Absent, Absent, [], map[])
    {
      this.commands := commands;
      this.allowValueWithNoEqual := allowValueWithNoEqual;
      ovm := new OptionValuesMap();
      activeCommand, activeOption, positionalTokens := Absent, Absent, [];
    }

    method TryImplicitValue() returns (applied: bool)
      requires activeOption.Present?
      modifies ovm
      ensures applied <==> activeOption.value.semantics.implicitValue.Present?
      ensures ovm.values == StoreImplicit(activeOption.value, old(ovm.values))
    {
      match activeOption.value.semantics.implicitValue {
        case Present(v) =>
          ovm.StoreValue(activeOption.value.key, Provided(v));
          applied := true;
        case Absent =>
          applied := false;
      }
    }

    predicate MultipleOccurrenceAllowed()
      requires activeOption.Present?
      reads this, ovm
      ensures MultipleOccurrenceAllowed() <==> CheckMultipleOccurrence(activeOption.value, ovm.values)
    {
      ovm.OccurrencesOf(activeOption.value.key) < 1 || activeOption.value.semantics.repeatable
    }

    /** What both option states do on entry with the option they looked up. */
    method Activate(found: Optional<Option>) returns (status: Status)
      modifies this
      ensures (View(), status) == OptionEnter(old(View()), found)
    {
      if found.Absent? {
        return TerminateWithError(UnrecognizedOption);
      }
      activeOption := found;
      if !MultipleOccurrenceAllowed() {
        return TerminateWithError(IllegalMultipleOccurrence);
      }
      status := Continue;
    }

    /** What both option states do when they are left. */
    method Settle(value: Optional<string>) returns (status: Status)
      modifies ovm
      ensures (View(), status) == OptionLeave(old(View()), value)
    {
      if value.Absent? {
        if activeOption.Absent? {
          return Violation(NoActiveOption);
        }
        var applied := TryImplicitValue();
        if !applied && activeOption.value.semantics.IsRequired() {
          return TerminateWithError(MissingValueForOption);
        }
      }
      status := Continue;
    }
  }

  class InitialState {
    const context: ParserContext

    constructor (context: ParserContext)
      modifies context
      ensures this.context == context
      ensures context.View() == old(context.View()).(
                activeCommand := if FirstDefault(context.commands).Present? then FirstDefault(context.commands)
                                 else old(context.activeCommand))
    {
      this.context := context;
      new;
      var i := 0;
      while i < |context.commands|
        invariant 0 <= i <= |context.commands|
        invariant context.View() == old(context.View())
        invariant FirstDefault(context.commands[i..]) == FirstDefault(context.commands)
      {
        assert context.commands[i..][1..] == context.commands[i + 1..];
        if context.commands[i].IsDefault() {
          context.activeCommand := Present(context.commands[i]);
          return;
        }
        i := i + 1;
      }
    }

    method Handle(event: Token) returns (action: Action)
      ensures action == InitialHandle(context.View(), event)
    {
      if event.kind == Value {
        if MaybeCommand(context.commands, event.text) {
          return TransitionTo(AtIdentify, true);
        }
        if context.activeCommand.Present? {
          return TransitionTo(AtOptions, true);
        }
        return ReportError(UnrecognizedCommand);
      }
      if context.activeCommand.Absent? {
        return ReportError(MissingCommand);
      }
      match event.kind {
        case EndOfInput => action := TransitionTo(AtFinal, true);
        case DashDash => action := TransitionTo(AtDashDash, true);
        case _ => action := TransitionTo(AtOptions, true);
      }
    }
  }

  lemma {:induction false} FilteredNone(token: string, previous: Optional<Command>, default: Optional<Command>)
    ensures Narrow([], 1, token) == [] && LastComplete([], 1, token, previous) == previous
    ensures LastDefault([], default) == default
  {
  }

  class IdentifyCommandState {
    var context: ParserContext?
    var filteredCommands: seq<Command>
    var lastMatchedCommand: Optional<Command>
    var defaultCommand: Optional<Command>
    var pathSegments: seq<string>

    ghost function Fields(): Identification
      reads this
    {
      Identification(filteredCommands, lastMatchedCommand, defaultCommand, pathSegments)
    }

    constructor ()
      ensures context == null && Fields() == NOTHING_IDENTIFIED
    {
      context, filteredCommands, pathSegments := null, [], [];
      lastMatchedCommand, defaultCommand := Absent, Absent;
    }

    method OnEnter(event: Token, data: ParserContext) returns (status: Status)
      modifies this
      ensures context == data
      ensures (Fields(), status) == IdentifyEnter(data.View(), old(Fields()), event)
    {
      context := data;
      if data.commands == [] {
        return Violation(NoCommands);
      }
      pathSegments := pathSegments + [event.text];
      FilterCommands(event, data.commands);
      status := if filteredCommands == [] then Violation(NothingFiltered) else Continue;
    }

    /** Keeps the commands whose first segment is the event's. */
    method FilterCommands(event: Token, commands: seq<Command>)
      modifies this`filteredCommands, this`lastMatchedCommand, this`defaultCommand
      ensures filteredCommands == old(filteredCommands) + Narrow(commands, 1, event.text)
      ensures lastMatchedCommand == LastComplete(commands, 1, event.text, old(lastMatchedCommand))
      ensures defaultCommand == LastDefault(commands, old(defaultCommand))
    {
      var i := 0;
      FilteredNone(event.text, old(lastMatchedCommand), old(defaultCommand));
      hide Narrow, LastComplete, LastDefault;
      while i < |commands|
        invariant 0 <= i <= |commands|
        invariant filteredCommands == old(filteredCommands) + Narrow(commands[..i], 1, event.text)
        invariant lastMatchedCommand == LastComplete(commands[..i], 1, event.text, old(lastMatchedCommand))
        invariant defaultCommand == LastDefault(commands[..i], old(defaultCommand))
      {
        var command := commands[i];
        assert commands[..i + 1] == commands[..i] + [command];
        FilterStep(commands[..i], command, 1, event.text, old(lastMatchedCommand), old(defaultCommand));
        if command.IsDefault() {
          defaultCommand := Present(command);
        }
        if command.path != [] && command.path[0] == event.text {
          if |command.path| == 1 {
            lastMatchedCommand := Present(command);
          }
          filteredCommands := filteredCommands + [command];
        }
        i := i + 1;
      }
      assert commands[..i] == commands;
    }

    method OnLeave() returns (status: Status)
      modifies this
      ensures context == old(context)
      ensures Fields() == NOTHING_IDENTIFIED && status == Continue
    {
      filteredCommands, pathSegments := [], [];
      lastMatchedCommand, defaultCommand := Absent, Absent;
      status := Continue;
    }

    method Handle(event: Token) returns (action: Action)
      requires context != null
      modifies this, context
      ensures context == old(context)
      ensures (context.View(), Fields(), action) == IdentifyHandle(old(context.View()), old(Fields()), event)
    {
      if pathSegments == [] {
        return Abort(NoSegments);
      }
      if event.kind == Value {
        action := HandleValue(event);
        return;
      }
      if lastMatchedCommand.Present? {
        context.activeCommand := lastMatchedCommand;
        match event.kind {
          case DashDash => return TransitionTo(AtDashDash, true);
          case EndOfInput => return TransitionTo(AtFinal, true);
          case _ => return TransitionTo(AtOptions, true);
        }
      }
      if defaultCommand.Present? {
        context.activeCommand := defaultCommand;
        if context.positionalTokens != [] {
          return Abort(PositionalsNotEmpty);
        }
        context.positionalTokens := pathSegments;
        return TransitionTo(AtOptions, true);
      }
      action := ReportError(UnrecognizedCommand);
    }

    method HandleValue(event: Token) returns (action: Action)
      requires context != null && pathSegments != []
      modifies this, context
      ensures context == old(context)
      ensures (context.View(), Fields(), action) == IdentifyValue(old(context.View()), old(Fields()), event)
    {
      ghost var before := pathSegments;
      pathSegments := pathSegments + [event.text];
      NarrowCommands(event);
      if filteredCommands != [] {
        return DoNothing;
      }
      if lastMatchedCommand.Present? {
        context.activeCommand := lastMatchedCommand;
        return TransitionTo(AtOptions, true);
      }
      if defaultCommand.Absent? {
        return ReportError(UnrecognizedCommand);
      }
      context.activeCommand := defaultCommand;
      if context.positionalTokens != [] {
        return Abort(PositionalsNotEmpty);
      }
      pathSegments := pathSegments[..|pathSegments| - 1];
      assert pathSegments == before;
      context.positionalTokens := pathSegments;
      action := TransitionTo(AtOptions, true);
    }

    /** Drops the commands that do not have the latest segment where it stands. */
    method NarrowCommands(event: Token)
      requires pathSegments != []
      modifies this`filteredCommands, this`lastMatchedCommand
      ensures filteredCommands == Narrow(old(filteredCommands), |pathSegments|, event.text)
      ensures lastMatchedCommand
           == LastComplete(old(filteredCommands), |pathSegments|, event.text, old(lastMatchedCommand))
    {
      var commands := filteredCommands;
      var kept := [];
      var i := 0;
      while i < |commands|
        invariant 0 <= i <= |commands| && commands == old(filteredCommands)
        invariant kept == Narrow(commands[..i], |pathSegments|, event.text)
        invariant lastMatchedCommand == LastComplete(commands[..i], |pathSegments|, event.text, old(lastMatchedCommand))
      {
        var path := commands[i].path;
        assert commands[..i + 1][..i] == commands[..i];
        if !(|path| < |pathSegments| || path[|pathSegments| - 1] != event.text) {
          if |path| == |pathSegments| {
            lastMatchedCommand := Present(commands[i]);
          }
          kept := kept + [commands[i]];
        }
        i := i + 1;
      }
      assert commands[..i] == commands;
      filteredCommands := kept;
    }
  }

  class ParseOptionsState {
    var context: ParserContext?

    constructor ()
      ensures context == null
    {
      context := null;
    }

    method OnEnter(event: Token, data: ParserContext) returns (status: Status)
      modifies this
      ensures context == data
      ensures status == OptionsEnter(data.View(), event)
    {
      context := data;
      if event.kind == EndOfInput {
        return Violation(OptionsEnteredAtEnd);
      }
      if data.activeCommand.Absent? {
        return Violation(NoActiveCommand);
      }
      status := ReissueEvent;
    }

    /** Coming back from an option state: the context must be there already. */
    method OnReenter() returns (status: Status)
      ensures status.ReissueEvent? <==> context != null
      ensures context == null ==> status == Violation(OptionsWithoutContext)
    {
      if context == null {
        return Violation(OptionsWithoutContext);
      }
      status := ReissueEvent;
    }

    method Handle(event: Token) returns (action: Action)
      requires context != null
      modifies context
      ensures (context.View(), action) == OptionsHandle(old(context.View()), event)
    {
      match event.kind {
        case Value =>
          context.positionalTokens := context.positionalTokens + [event.text];
          action := DoNothing;
        case EndOfInput => action := TransitionTo(AtFinal, true);
        case DashDash => action := TransitionTo(AtDashDash, true);
        case LongOption => action := TransitionTo(AtLong, true);
        case EqualSign => action := ReportError(OptionSyntaxError);
        case _ => action := TransitionTo(AtShort, true);
      }
    }
  }

  class ParseShortOptionState {
    var context: ParserContext?
    var value: Optional<string>

    constructor ()
      ensures context == null && value.Absent?
    {
      context, value := null, Absent;
    }

    method OnEnter(event: Token, data: ParserContext) returns (status: Status)
      modifies this, data
      ensures context == data && value == old(value)
      ensures (data.View(), status) == ShortEnter(old(data.View()), event)
    {
      context := data;
      if data.activeCommand.Absent? {
        return Violation(NoActiveCommand);
      }
      status := data.Activate(data.activeCommand.value.FindShortOption(event.text));
    }

    method OnLeave() returns (status: Status)
      requires context != null
      modifies this, context.ovm
      ensures context == old(context)
      ensures (context.View(), status) == OptionLeave(old(context.View()), old(value))
      ensures value == if status.Continue? then Absent else old(value)
    {
      status := context.Settle(value);
      if status.Continue? {
        value := Absent;
      }
    }

    method Handle(event: Token) returns (action: Action)
      requires context != null
      modifies this, context.ovm
      ensures context == old(context)
      ensures (context.View(), value, action) == ShortHandle(old(context.View()), old(value), event)
    {
      if event.kind != Value {
        return TransitionTo(AtOptions, false);
      }
      if context.activeOption.Absent? {
        return Abort(NoActiveOption);
      }
      if value.Present? {
        return TransitionTo(AtOptions, false);
      }
      var option := context.activeOption.value;
      match option.semantics.parse(event.text) {
        case Present(v) =>
          context.ovm.StoreValue(option.key, OptionValue(v, event.text, false));
          value := Present(event.text);
          return DoNothing;
        case Absent =>
      }
      var applied := context.TryImplicitValue();
      if applied {
        value := Present(IMPLICIT_MARK);
        return TransitionTo(AtOptions, false);
      }
      action := ReportError(MissingValueForOption);
    }
  }

  class ParseLongOptionState {
    var context: ParserContext?
    var value: Optional<string>
    var afterEqualSign: bool

    constructor ()
      ensures context == null && value.Absent? && !afterEqualSign
    {
      context, value, afterEqualSign := null, Absent, false;
    }

    method OnEnter(event: Token, data: ParserContext) returns (status: Status)
      modifies this, data
      ensures context == data && value == old(value) && afterEqualSign == old(afterEqualSign)
      ensures (data.View(), status) == LongEnter(old(data.View()), event)
    {
      context := data;
      if data.activeCommand.Absent? {
        return Violation(NoActiveCommand);
      }
      status := data.Activate(data.activeCommand.value.FindLongOption(event.text));
    }

    method OnLeave() returns (status: Status)
      requires context != null
      modifies this, context.ovm
      ensures context == old(context)
      ensures (context.View(), status) == OptionLeave(old(context.View()), old(value))
      ensures status.Continue? ==> value == Absent && !afterEqualSign
      ensures !status.Continue? ==> value == old(value) && afterEqualSign == old(afterEqualSign)
    {
      status := context.Settle(value);
      if status.Continue? {
        afterEqualSign := false;
        value := Absent;
      }
    }

    method Handle(event: Token) returns (action: Action)
      requires context != null
      modifies this, context.ovm
      ensures context == old(context)
      ensures (context.View(), value, afterEqualSign, action)
           == LongHandle(old(context.View()), old(value), old(afterEqualSign), event)
    {
      if event.kind != Value && event.kind != EqualSign {
        return TransitionTo(AtOptions, false);
      }
      if context.activeOption.Absent? {
        return Abort(NoActiveOption);
      }
      if event.kind == EqualSign {
        afterEqualSign := true;
        return DoNothing;
      }
      if value.Present? {
        return TransitionTo(AtOptions, false);
      }
      if !afterEqualSign && !context.allowValueWithNoEqual {
        return ReportError(OptionSyntaxError);
      }
      var option := context.activeOption.value;
      match option.semantics.parse(event.text) {
        case Present(v) =>
          context.ovm.StoreValue(option.key, OptionValue(v, event.text, false));
          value := Present(event.text);
          return DoNothing;
        case Absent =>
      }
      if !afterEqualSign {
        var applied := context.TryImplicitValue();
        if applied {
          value := Present(IMPLICIT_MARK);
          return TransitionTo(AtOptions, false);
        }
      }
      action := ReportError(MissingValueForOption);
    }
  }

  class DashDashState {
    var context: ParserContext?

    constructor ()
    {
      context := null;
    }

    method OnEnter(data: ParserContext) returns (status: Status)
      modifies this
      ensures status == Continue
    {
      context := data;
      status := Continue;
    }
  }

  class FinalState {
    var context: ParserContext?

    constructor ()
    {
      context := null;
    }

    method OnEnter(data: ParserContext) returns (status: Status)
      modifies this, data, data.ovm
      ensures (data.View(), status) == FinalEnter(old(data.View()))
    {
      context := data;
      if data.activeCommand.Absent? {
        return Violation(NoActiveCommand);
      }
      var command := data.activeCommand.value;
      var fault, rest := TakePositionals(command.positionals);
      if fault.Present? {
        return Violation(fault.value);
      }
      if data.positionalTokens != [] {
        if rest.Absent? {
          return TerminateWithError(UnexpectedPositionalArguments);
        }
        StoreRest(rest.value);
      }
      var passed := CheckRequiredOptions(command.options);
      if passed {
        passed := CheckRequiredOptions(command.positionals);
      }
      status := if passed then Terminate else TerminateWithError(MissingRequiredOption);
    }

    /** Hands one token to each positional argument but the rest. */
    method TakePositionals(options: seq<Option>) returns (fault: Optional<Fault>, rest: Optional<Option>)
      requires context != null
      modifies context, context.ovm
      ensures match Allocate(options, true, Absent, old(context.positionalTokens), old(context.ovm.values))
              case Failed(f, left, values) =>
                && fault == Present(f)
                && context.View() == old(context.View()).(positionalTokens := left, values := values)
              case Allocated(left, r, values) =>
                && fault == Absent && rest == r
                && context.View() == old(context.View()).(positionalTokens := left, values := values)
    {
      var beforeRest := true;
      fault, rest := Absent, Absent;
      var i := 0;
      ghost var goal := Allocate(options, true, Absent, context.positionalTokens, context.ovm.values);
      while i < |options|
        invariant 0 <= i <= |options| && fault == Absent
        invariant context.View() == old(context.View()).(
                    positionalTokens := context.positionalTokens, values := context.ovm.values)
        invariant Allocate(options[i..], beforeRest, rest, context.positionalTokens, context.ovm.values) == goal
      {
        var option := options[i];
        assert options[i..][1..] == options[i + 1..];
        if !option.IsPositional() {
          fault := Present(NotPositional);
          return;
        }
        if option.IsPositionalRest() {
          rest := Present(option);
          beforeRest := false;
        } else if context.positionalTokens == [] {
          fault := Present(TooFewPositionals);
          return;
        } else if beforeRest {
          StorePositional(option, context.positionalTokens[0]);
          context.positionalTokens := context.positionalTokens[1..];
        } else {
          var last := |context.positionalTokens| - 1;
          StorePositional(option, context.positionalTokens[last]);
          context.positionalTokens := context.positionalTokens[..last];
        }
        i := i + 1;
      }
    }

    method StoreRest(option: Option)
      requires context != null
      modifies context, context.ovm
      ensures context.View() == old(context.View()).(
                positionalTokens := [],
                values := StoreEach(option, old(context.positionalTokens), old(context.ovm.values)))
    {
      var tokens := context.positionalTokens;
      var i := 0;
      while i < |tokens|
        invariant 0 <= i <= |tokens| && tokens == old(context.positionalTokens)
        invariant context.View() == old(context.View()).(values := context.ovm.values)
        invariant StoreEach(option, tokens[i..], context.ovm.values)
               == StoreEach(option, tokens, old(context.ovm.values))
      {
        assert tokens[i..][1..] == tokens[i + 1..];
        StorePositional(option, tokens[i]);
        i := i + 1;
      }
      context.positionalTokens := [];
    }

    method CheckRequiredOptions(options: seq<Option>) returns (passed: bool)
      requires context != null
      modifies context.ovm
      ensures Check(context.ovm.values, passed) == CheckRequired(options, old(context.ovm.values))
    {
      var i := 0;
      while i < |options|
        invariant 0 <= i <= |options|
        invariant CheckRequired(options[i..], context.ovm.values) == CheckRequired(options, old(context.ovm.values))
      {
        var option := options[i];
        assert options[i..][1..] == options[i + 1..];
        if !context.ovm.HasOption(option.key) {
          match option.semantics.defaultValue {
            case Present(v) =>
              context.ovm.StoreValue(option.key, Provided(v));
            case Absent =>
              if option.required {
                return false;
              }
          }
        }
        i := i + 1;
      }
      passed := true;
    }

    method StorePositional(option: Option, token: string)
      requires context != null
      modifies context.ovm
      ensures context.ovm.values == S.StorePositional(option, token, old(context.ovm.values))
    {
      match option.semantics.parse(token) {
        case Present(v) =>
          context.ovm.StoreValue(option.key, OptionValue(v, token, true));
        case Absent =>
      }
    }
  }
}
