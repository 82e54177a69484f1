/**
 The step semantics of the parser's state machine, on values: what each state's
 handlers do, how a transition leaves and enters states, and what a whole run is.
 The classes of modules `States` and `Parser` are proved against it.
 */
module Semantics {
  import opened Optionals
  import opened Tokens
  import opened Commands
  import opened OptionValues

  datatype ErrorKind =
    | UnrecognizedCommand
    | MissingCommand
    | UnrecognizedOption
    | IllegalMultipleOccurrence
    | MissingValueForOption
    | OptionSyntaxError
    | UnexpectedPositionalArguments
    | MissingRequiredOption

  /** A failed contract check, or an access the language leaves undefined. */
  datatype Fault =
    | NoCommands
    | NothingFiltered
    | NoSegments
    | PositionalsNotEmpty
    | OptionsEnteredAtEnd
    | OptionsWithoutContext
    | NoActiveCommand
    | NoActiveOption
    | NotPositional
    | TooFewPositionals
    | EndOfInputNotFinal

  datatype StateId = AtInitial | AtIdentify | AtOptions | AtShort | AtLong | AtDashDash | AtFinal

  datatype Status =
    | Continue
    | Terminate
    | TerminateWithError(error: ErrorKind)
    | ReissueEvent
    | Violation(fault: Fault)

  datatype Action =
    | DoNothing
    | ReportError(error: ErrorKind)
    | TransitionTo(target: StateId, withData: bool)
    | Abort(fault: Fault)

  /** The shared parser context. */
  datatype Context = Context(
    commands: seq<Command>,
    allowValueWithNoEqual: bool,
    activeCommand: Optional<Command>,
    activeOption: Optional<Option>,
    positionalTokens: seq<string>,
    values: ValuesMap)

  // ---- InitialState ---------------------------------------------------------

  predicate MaybeCommand(commands: seq<Command>, token: string) {
    exists i :: 0 <= i < |commands| && commands[i].path != [] && commands[i].path[0] == token
  }

  function FirstDefault(commands: seq<Command>): Optional<Command> {
    if commands == [] then Absent
    else if commands[0].IsDefault() then Present(commands[0])
    else FirstDefault(commands[1..])
  }

  function InitialHandle(c: Context, event: Token): Action {
    match event.kind
    case Value =>
      if MaybeCommand(c.commands, event.text) then TransitionTo(AtIdentify, true)
      else if c.activeCommand.Present? then TransitionTo(AtOptions, true)
      else ReportError(UnrecognizedCommand)
    case EndOfInput =>
      if c.activeCommand.Present? then TransitionTo(AtFinal, true) else ReportError(MissingCommand)
    case DashDash =>
      if c.activeCommand.Present? then TransitionTo(AtDashDash, true) else ReportError(MissingCommand)
    case _ =>
      if c.activeCommand.Present? then TransitionTo(AtOptions, true) else ReportError(MissingCommand)
  }

  // ---- IdentifyCommandState ---------------------------------------------------

  datatype Identification = Identification(
    filtered: seq<Command>,
    lastMatched: Optional<Command>,
    defaultCommand: Optional<Command>,
    segments: seq<string>)

  const NOTHING_IDENTIFIED := Identification([], Absent, Absent, [])

  predicate Keeps(command: Command, depth: nat, token: string)
    requires depth > 0
  {
    |command.path| >= depth && command.path[depth - 1] == token
  }

  /** The commands that survive filtering on the segment at position `depth - 1`. */
  function Narrow(commands: seq<Command>, depth: nat, token: string): seq<Command>
    requires depth > 0
  {
    if commands == [] then []
    else
      var last := commands[|commands| - 1];
      Narrow(commands[..|commands| - 1], depth, token) + if Keeps(last, depth, token) then [last] else []
  }

  /** The last survivor that has no further segment; `previous` if there is none. */
  function LastComplete(
    commands: seq<Command>, depth: nat, token: string, previous: Optional<Command>): Optional<Command>
    requires depth > 0
  {
    if commands == [] then previous
    else
      var last := commands[|commands| - 1];
      if Keeps(last, depth, token) && |last.path| == depth then Present(last)
      else LastComplete(commands[..|commands| - 1], depth, token, previous)
  }

  function LastDefault(commands: seq<Command>, previous: Optional<Command>): Optional<Command> {
    if commands == [] then previous
    else
      var last := commands[|commands| - 1];
      if last.IsDefault() then Present(last) else LastDefault(commands[..|commands| - 1], previous)
  }

  /** One more command behind those that have been filtered. */
  lemma {:induction false} FilterStep(
    commands: seq<Command>, last: Command, depth: nat, token: string,
    previous: Optional<Command>, previousDefault: Optional<Command>)
    requires depth > 0
    ensures Narrow(commands + [last], depth, token)
         == Narrow(commands, depth, token) + if Keeps(last, depth, token) then [last] else []
    ensures LastComplete(commands + [last], depth, token, previous)
         == if Keeps(last, depth, token) && |last.path| == depth then Present(last)
            else LastComplete(commands, depth, token, previous)
    ensures LastDefault(commands + [last], previousDefault)
         == if last.IsDefault() then Present(last) else LastDefault(commands, previousDefault)
  {
    hide Keeps;
    assert (commands + [last])[..|commands|] == commands;
  }

  function IdentifyEnter(c: Context, f: Identification, event: Token): (Identification, Status) {
    if c.commands == [] then (f, Violation(NoCommands))
    else
      var g := Identification(
                 f.filtered + Narrow(c.commands, 1, event.text),
                 LastComplete(c.commands, 1, event.text, f.lastMatched),
                 LastDefault(c.commands, f.defaultCommand),
                 f.segments + [event.text]);
      (g, if g.filtered == [] then Violation(NothingFiltered) else Continue)
  }

  function IdentifyHandle(c: Context, f: Identification, event: Token): (Context, Identification, Action) {
    if f.segments == [] then (c, f, Abort(NoSegments))
    else if event.kind == Value then IdentifyValue(c, f, event)
    else if f.lastMatched.Present? then
      var target := match event.kind
        case DashDash => AtDashDash
        case EndOfInput => AtFinal
        case _ => AtOptions;
      (c.(activeCommand := f.lastMatched), f, TransitionTo(target, true))
    else if f.defaultCommand.Present? then
      var d := c.(activeCommand := f.defaultCommand);
      if c.positionalTokens != [] then (d, f, Abort(PositionalsNotEmpty))
      else (d.(positionalTokens := f.segments), f, TransitionTo(AtOptions, true))
    else (c, f, ReportError(UnrecognizedCommand))
  }

  function IdentifyValue(c: Context, f: Identification, event: Token): (Context, Identification, Action) {
    var segments := f.segments + [event.text];
    var g := f.(segments := segments,
             filtered := Narrow(f.filtered, |segments|, event.text),
             lastMatched := LastComplete(f.filtered, |segments|, event.text, f.lastMatched));
    if g.filtered != [] then (c, g, DoNothing)
    else if g.lastMatched.Present? then
      (c.(activeCommand := g.lastMatched), g, TransitionTo(AtOptions, true))
    else if g.defaultCommand.Absent? then (c, g, ReportError(UnrecognizedCommand))
    else
      var d := c.(activeCommand := g.defaultCommand);
      if c.positionalTokens != [] then (d, g, Abort(PositionalsNotEmpty))
      else
        // the last token is transmitted to the options state as the next event
        (d.(positionalTokens := f.segments), g.(segments := f.segments), TransitionTo(AtOptions, true))
  }

  // ---- ParseOptionsState ------------------------------------------------------

  function OptionsEnter(c: Context, event: Token): Status {
    if event.kind == EndOfInput then Violation(OptionsEnteredAtEnd)
    else if c.activeCommand.Absent? then Violation(NoActiveCommand)
    else ReissueEvent
  }

  function OptionsHandle(c: Context, event: Token): (Context, Action) {
    match event.kind
    case Value => (c.(positionalTokens := c.positionalTokens + [event.text]), DoNothing)
    case EndOfInput => (c, TransitionTo(AtFinal, true))
    case DashDash => (c, TransitionTo(AtDashDash, true))
    case LongOption => (c, TransitionTo(AtLong, true))
    case EqualSign => (c, ReportError(OptionSyntaxError))
    case _ => (c, TransitionTo(AtShort, true))
  }

  // ---- ParseShortOptionState and ParseLongOptionState ---------------------------

  predicate CheckMultipleOccurrence(option: Option, values: ValuesMap) {
    |ValuesAt(values, option.key)| < 1 || option.semantics.repeatable
  }

  function Provided(v: ProvidedValue): OptionValue {
    OptionValue(v.value, v.text, false)
  }

  function StoreImplicit(option: Option, values: ValuesMap): ValuesMap {
    match option.semantics.implicitValue
    case Present(v) => Store(values, option.key, Provided(v))
    case Absent => values
  }

  function OptionEnter(c: Context, found: Optional<Option>): (Context, Status) {
    match found
    case Absent => (c, TerminateWithError(UnrecognizedOption))
    case Present(option) =>
      (c.(activeOption := found),
       if CheckMultipleOccurrence(option, c.values) then Continue
       else TerminateWithError(IllegalMultipleOccurrence))
  }

  function ShortEnter(c: Context, event: Token): (Context, Status) {
    match c.activeCommand
    case Absent => (c, Violation(NoActiveCommand))
    case Present(command) => OptionEnter(c, command.FindShortOption(event.text))
  }

  function LongEnter(c: Context, event: Token): (Context, Status) {
    match c.activeCommand
    case Absent => (c, Violation(NoActiveCommand))
    case Present(command) => OptionEnter(c, command.FindLongOption(event.text))
  }

  /** Leaving an option state: without a value so far, fall back on the implicit one. */
  function OptionLeave(c: Context, value: Optional<string>): (r: (Context, Status))
    ensures !r.1.ReissueEvent?
  {
    if value.Present? then (c, Continue)
    else
      match c.activeOption
      case Absent => (c, Violation(NoActiveOption))
      case Present(option) =>
        if option.semantics.implicitValue.Present? then
          (c.(values := StoreImplicit(option, c.values)), Continue)
        else if option.semantics.IsRequired() then (c, TerminateWithError(MissingValueForOption))
        else (c, Continue)
  }

  const IMPLICIT_MARK := "_implicit_"

  /** A value token for an option that may fall back on its implicit value. */
  function TakeValue(c: Context, option: Option, mayFallBack: bool, event: Token): (Context, Optional<string>, Action) {
    match option.semantics.parse(event.text)
    case Present(v) =>
      (c.(values := Store(c.values, option.key, OptionValue(v, event.text, false))), Present(event.text), DoNothing)
    case Absent =>
      if mayFallBack && option.semantics.implicitValue.Present? then
        (c.(values := StoreImplicit(option, c.values)), Present(IMPLICIT_MARK), TransitionTo(AtOptions, false))
      else
        (c, Absent, ReportError(MissingValueForOption))
  }

  function ShortHandle(c: Context, value: Optional<string>, event: Token): (Context, Optional<string>, Action) {
    if event.kind != Value then (c, value, TransitionTo(AtOptions, false))
    else
      match c.activeOption
      case Absent => (c, value, Abort(NoActiveOption))
      case Present(option) =>
        if value.Present? then (c, value, TransitionTo(AtOptions, false))
        else TakeValue(c, option, true, event)
  }

  function LongHandle(c: Context, value: Optional<string>, afterEqualSign: bool, event: Token)
    : (Context, Optional<string>, bool, Action)
  {
    if event.kind != Value && event.kind != EqualSign then
      (c, value, afterEqualSign, TransitionTo(AtOptions, false))
    else
      match c.activeOption
      case Absent => (c, value, afterEqualSign, Abort(NoActiveOption))
      case Present(option) =>
        if event.kind == EqualSign then (c, value, true, DoNothing)
        else if value.Present? then (c, value, afterEqualSign, TransitionTo(AtOptions, false))
        else if !afterEqualSign && !c.allowValueWithNoEqual then
          (c, value, afterEqualSign, ReportError(OptionSyntaxError))
        else
          var (d, taken, action) := TakeValue(c, option, !afterEqualSign, event);
          (d, taken, afterEqualSign, action)
  }

  // ---- FinalState -------------------------------------------------------------

  function StorePositional(option: Option, token: string, values: ValuesMap): ValuesMap {
    match option.semantics.parse(token)
    case Present(v) => Store(values, option.key, OptionValue(v, token, true))
    case Absent => values
  }

  function StoreEach(option: Option, tokens: seq<string>, values: ValuesMap): ValuesMap {
    if tokens == [] then values
    else StoreEach(option, tokens[1..], StorePositional(option, tokens[0], values))
  }

  datatype Allocation =
    | Allocated(positionals: seq<string>, rest: Optional<Option>, values: ValuesMap)
    | Failed(fault: Fault, positionals: seq<string>, values: ValuesMap)

  /** The loop over the positional arguments of the command. */
  function Allocate(
    options: seq<Option>, beforeRest: bool, rest: Optional<Option>, positionals: seq<string>, values: ValuesMap)
    : Allocation
  {
    if options == [] then Allocated(positionals, rest, values)
    else
      var option := options[0];
      if !option.IsPositional() then Failed(NotPositional, positionals, values)
      else if option.IsPositionalRest() then Allocate(options[1..], false, Present(option), positionals, values)
      else if positionals == [] then Failed(TooFewPositionals, positionals, values)
      else if beforeRest then
        Allocate(options[1..], beforeRest, rest, positionals[1..], StorePositional(option, positionals[0], values))
      else
        var last := |positionals| - 1;
        Allocate(
          options[1..], beforeRest, rest, positionals[..last], StorePositional(option, positionals[last], values))
  }

  datatype Check = Check(values: ValuesMap, passed: bool)

  /** Applies the default of every option without a value; fails on the first
      required one that has none. */
  function CheckRequired(options: seq<Option>, values: ValuesMap): Check {
    if options == [] then Check(values, true)
    else
      var option := options[0];
      if option.key in values then CheckRequired(options[1..], values)
      else
        match option.semantics.defaultValue
        case Present(v) => CheckRequired(options[1..], Store(values, option.key, Provided(v)))
        case Absent => if option.required then Check(values, false) else CheckRequired(options[1..], values)
  }

  function FinalEnter(c: Context): (r: (Context, Status))
    ensures !r.1.ReissueEvent? && !r.1.Continue?
  {
    match c.activeCommand
    case Absent => (c, Violation(NoActiveCommand))
    case Present(command) =>
      match Allocate(command.positionals, true, Absent, c.positionalTokens, c.values)
      case Failed(fault, left, values) => (c.(positionalTokens := left, values := values), Violation(fault))
      case Allocated(left, rest, values) =>
        if left != [] && rest.Absent? then
          (c.(positionalTokens := left, values := values), TerminateWithError(UnexpectedPositionalArguments))
        else
          var stored := if left != [] then StoreEach(rest.value, left, values) else values;
          var options := CheckRequired(command.options, stored);
          var all := if options.passed then CheckRequired(command.positionals, options.values) else options;
          (c.(positionalTokens := [], values := all.values),
           if all.passed then Terminate else TerminateWithError(MissingRequiredOption))
  }

  // ---- The machine ------------------------------------------------------------

  /** The machine's current state, the shared context, and the fields of the state
      objects, which live as long as the machine. */
  datatype Config = Config(
    at: StateId,
    context: Context,
    identification: Identification,
    optionsHasContext: bool,
    shortValue: Optional<string>,
    longValue: Optional<string>,
    afterEqualSign: bool)

  function React(s: Config, event: Token): (r: (Config, Action))
    ensures s.at == AtOptions && r.1.TransitionTo? ==> r.1.target != AtOptions
  {
    match s.at
    case AtInitial => (s, InitialHandle(s.context, event))
    case AtIdentify =>
      var (c, f, action) := IdentifyHandle(s.context, s.identification, event);
      (s.(context := c, identification := f), action)
    case AtOptions =>
      var (c, action) := OptionsHandle(s.context, event);
      (s.(context := c), action)
    case AtShort =>
      var (c, value, action) := ShortHandle(s.context, s.shortValue, event);
      (s.(context := c, shortValue := value), action)
    case AtLong =>
      var (c, value, afterEqualSign, action) := LongHandle(s.context, s.longValue, s.afterEqualSign, event);
      (s.(context := c, longValue := value, afterEqualSign := afterEqualSign), action)
    case AtDashDash => (s, DoNothing)
    case AtFinal => (s, DoNothing)
  }

  function Leave(s: Config): (r: (Config, Status))
    ensures !r.1.ReissueEvent?
  {
    match s.at
    case AtIdentify => (s.(identification := NOTHING_IDENTIFIED), Continue)
    case AtShort =>
      var (c, status) := OptionLeave(s.context, s.shortValue);
      (s.(context := c, shortValue := if status.Continue? then Absent else s.shortValue), status)
    case AtLong =>
      var (c, status) := OptionLeave(s.context, s.longValue);
      if status.Continue? then (s.(context := c, longValue := Absent, afterEqualSign := false), status)
      else (s.(context := c), status)
    case _ => (s, Continue)
  }

  function Enter(s: Config, target: StateId, withData: bool, event: Token): (r: (Config, Status))
    ensures r.1.ReissueEvent? ==> target == AtOptions
    ensures r.0.at == target
  {
    var t := s.(at := target);
    match target
    case AtIdentify =>
      var (f, status) := IdentifyEnter(s.context, s.identification, event);
      (t.(identification := f), status)
    case AtOptions =>
      if withData then (t.(optionsHasContext := true), OptionsEnter(s.context, event))
      else (t, if s.optionsHasContext then ReissueEvent else Violation(OptionsWithoutContext))
    case AtShort =>
      var (c, status) := ShortEnter(s.context, event);
      (t.(context := c), status)
    case AtLong =>
      var (c, status) := LongEnter(s.context, event);
      (t.(context := c), status)
    case AtFinal =>
      var (c, status) := FinalEnter(s.context);
      (t.(context := c), status)
    case _ => (t, Continue)
  }

  /** One event: handle it, and on a transition leave the old state and, unless
      that fails, enter the new one. */
  function Handle(s: Config, event: Token): (r: (Config, Status))
    ensures r.1.ReissueEvent? ==> s.at != AtOptions && r.0.at == AtOptions
  {
    var (reacted, action) := React(s, event);
    match action
    case DoNothing => (reacted, Continue)
    case ReportError(error) => (reacted, TerminateWithError(error))
    case Abort(fault) => (reacted, Violation(fault))
    case TransitionTo(target, withData) =>
      var (left, status) := Leave(reacted);
      if status.Continue? then Enter(left, target, withData, event) else (left, status)
  }

  function Start(commands: seq<Command>, allowValueWithNoEqual: bool): Config {
    Config(
      AtInitial,
      Context(commands, allowValueWithNoEqual, FirstDefault(commands), Absent, [], map[]),
      NOTHING_IDENTIFIED, false, Absent, Absent, false)
  }

  // ---- A whole run --------------------------------------------------------------

  datatype Verdict = Success | Error(error: ErrorKind)

  /** How a run ends. */
  datatype Ending =
    | Finished(verdict: Verdict, activeCommand: Optional<Command>, positionals: seq<string>, values: ValuesMap)
    | Faulted(fault: Fault)

  function Finish(verdict: Verdict, c: Context): Ending {
    Finished(verdict, c.activeCommand, c.positionalTokens, c.values)
  }

  /** The token the stream yields next. */
  function Head(tokens: seq<Token>): Token {
    if tokens == [] then END_OF_INPUT else tokens[0]
  }

  /** The state in which an event has already been re-issued ranks lowest. */
  function ReissueRank(at: StateId): nat {
    if at == AtOptions then 0 else 1
  }

  /** The drive loop: a re-issue keeps the token, anything else pulls the next one. */
  function Run(s: Config, tokens: seq<Token>): Ending
    decreases |tokens|, ReissueRank(s.at)
  {
    var (next, status) := Handle(s, Head(tokens));
    match status
    case Terminate => Finish(Success, next.context)
    case TerminateWithError(error) => Finish(Error(error), next.context)
    case Violation(fault) => Faulted(fault)
    case ReissueEvent => Run(next, tokens)
    case Continue =>
      if Head(tokens).kind == EndOfInput then Faulted(EndOfInputNotFinal)
      else Run(next, tokens[1..])
  }

  /** The number of events the drive loop hands to the machine. */
  function Calls(s: Config, tokens: seq<Token>): nat
    decreases |tokens|, ReissueRank(s.at)
  {
    var (next, status) := Handle(s, Head(tokens));
    match status
    case ReissueEvent => 1 + Calls(next, tokens)
    case Continue => if Head(tokens).kind == EndOfInput then 1 else 1 + Calls(next, tokens[1..])
    case _ => 1
  }

  lemma {:induction false} CallsBound(s: Config, tokens: seq<Token>)
    ensures Calls(s, tokens) <= 2 * |tokens| + 1 + ReissueRank(s.at)
    decreases |tokens|, ReissueRank(s.at)
  {
    var (next, status) := Handle(s, Head(tokens));
    if status.ReissueEvent? {
      CallsBound(next, tokens);
    } else if status.Continue? && Head(tokens).kind != EndOfInput {
      CallsBound(next, tokens[1..]);
    }
  }

  lemma {:induction false} ParseCallsBound(commands: seq<Command>, allow: bool, tokens: seq<Token>)
    ensures Calls(Start(commands, allow), tokens) <= 2 * (|tokens| + 1)
  {
    CallsBound(Start(commands, allow), tokens);
  }

  /** How often the token with `behind` tokens after it is handed to the machine; the
      end of input has -1 tokens after it. */
  function CallsOf(s: Config, tokens: seq<Token>, behind: int): nat
    decreases |tokens|, ReissueRank(s.at)
  {
    var (next, status) := Handle(s, Head(tokens));
    var now := if behind == |tokens| - 1 then 1 else 0;
    match status
    case ReissueEvent => now + CallsOf(next, tokens, behind)
    case Continue => if Head(tokens).kind == EndOfInput then now else now + CallsOf(next, tokens[1..], behind)
    case _ => now
  }

  lemma {:induction false} CallsOfOneToken(s: Config, tokens: seq<Token>, behind: int)
    ensures CallsOf(s, tokens, behind) <= if behind == |tokens| - 1 then 1 + ReissueRank(s.at) else 2
    ensures behind >= |tokens| ==> CallsOf(s, tokens, behind) == 0
    decreases |tokens|, ReissueRank(s.at)
  {
    var (next, status) := Handle(s, Head(tokens));
    if status.ReissueEvent? {
      CallsOfOneToken(next, tokens, behind);
    } else if status.Continue? && Head(tokens).kind != EndOfInput {
      CallsOfOneToken(next, tokens[1..], behind);
    }
  }

  /** Every token is handed to the machine at most twice, the end of input included. */
  lemma {:induction false} EachTokenHandledAtMostTwice(
    commands: seq<Command>, allow: bool, tokens: seq<Token>, behind: int)
    ensures CallsOf(Start(commands, allow), tokens, behind) <= 2
  {
    CallsOfOneToken(Start(commands, allow), tokens, behind);
  }
}
