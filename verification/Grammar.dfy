/**
 The reference reading of a command line: a recursive grammar over its tokens,
 with no states, no events and no re-issue.
 */
module Grammar {
  import opened Optionals
  import opened Tokens
  import opened Commands
  import opened OptionValues
  import opened Semantics

  // ---- The command --------------------------------------------------------------

  function LeadingValues(tokens: seq<Token>): (words: seq<string>)
    ensures |words| <= |tokens|
  {
    if tokens == [] || tokens[0].kind != Value then [] else [tokens[0].text] + LeadingValues(tokens[1..])
  }

  predicate IsPath(commands: seq<Command>, path: seq<string>) {
    exists i :: 0 <= i < |commands| && commands[i].path == path
  }

  /** `segments` can be continued to a command path. */
  predicate Extends(commands: seq<Command>, segments: seq<string>) {
    exists i :: 0 <= i < |commands| && segments <= commands[i].path
  }

  /** The length of the longest prefix of `words` that can be continued to a path. */
  function Collected(commands: seq<Command>, words: seq<string>): (n: nat)
    ensures n <= |words|
  {
    if words == [] then 0
    else if Extends(commands, words) then |words|
    else Collected(commands, words[..|words| - 1])
  }

  /** The length of the longest non-empty prefix of `words` that is a command path. */
  function Depth(commands: seq<Command>, words: seq<string>): (n: nat)
    ensures n <= |words|
    ensures n > 0 ==> IsPath(commands, words[..n])
  {
    if words == [] then 0
    else if IsPath(commands, words) then
      assert words[..|words|] == words;
      |words|
    else
      var shorter := words[..|words| - 1];
      var n := Depth(commands, shorter);
      assert n > 0 ==> shorter[..n] == words[..n];
      n
  }

  /** The last command with this path. */
  function LastWithPath(commands: seq<Command>, path: seq<string>): (found: Optional<Command>)
    ensures found.Present? <==> IsPath(commands, path)
    ensures found.Present? ==> found.value in commands && found.value.path == path
  {
    if commands == [] then Absent
    else
      var last := commands[|commands| - 1];
      if last.path == path then Present(last) else LastWithPath(commands[..|commands| - 1], path)
  }

  // ---- Options and positionals ----------------------------------------------------

  datatype Reading =
    | AtEnd(positionals: seq<string>, values: ValuesMap)
    | Halted(ending: Ending)

  datatype Argument =
    | Taken(values: ValuesMap, rest: seq<Token>)
    | Refused(error: ErrorKind)

  function SkipEquals(tokens: seq<Token>): (rest: seq<Token>)
    ensures |rest| <= |tokens|
  {
    if tokens != [] && tokens[0].kind == EqualSign then SkipEquals(tokens[1..]) else tokens
  }

  /** What follows an option: for a long one optional `=` signs, then its value if
      there is one that parses, else its implicit value. */
  function ReadArgument(
    allow: bool, isLong: bool, equalSeen: bool, option: Option, tokens: seq<Token>, values: ValuesMap)
    : (r: Argument)
    ensures r.Taken? ==> |r.rest| <= |tokens|
    decreases |tokens|
  {
    if isLong && tokens != [] && tokens[0].kind == EqualSign then
      ReadArgument(allow, isLong, true, option, tokens[1..], values)
    else if tokens != [] && tokens[0].kind == Value then
      if isLong && !equalSeen && !allow then Refused(OptionSyntaxError)
      else
        match option.semantics.parse(tokens[0].text)
        case Present(v) =>
          Taken(Store(values, option.key, OptionValue(v, tokens[0].text, false)),
                if isLong then SkipEquals(tokens[1..]) else tokens[1..])
        case Absent =>
          if !equalSeen && option.semantics.implicitValue.Present? then
            Taken(StoreImplicit(option, values), tokens)
          else Refused(MissingValueForOption)
    else if option.semantics.implicitValue.Present? then Taken(StoreImplicit(option, values), tokens)
    else Refused(MissingValueForOption)
  }

  function Resolve(command: Command, flag: Token): Optional<Option> {
    if flag.kind == LongOption then command.FindLongOption(flag.text) else command.FindShortOption(flag.text)
  }

  function Fail(error: ErrorKind, command: Command, positionals: seq<string>, values: ValuesMap): Reading {
    Halted(Finished(Error(error), Present(command), positionals, values))
  }

  function ReadOptions(
    allow: bool, command: Command, tokens: seq<Token>, positionals: seq<string>, values: ValuesMap): Reading
    decreases |tokens|
  {
    if tokens == [] then AtEnd(positionals, values)
    else
      match tokens[0].kind
      case Value => ReadOptions(allow, command, tokens[1..], positionals + [tokens[0].text], values)
      case DashDash => Halted(Faulted(EndOfInputNotFinal))
      case EqualSign => Fail(OptionSyntaxError, command, positionals, values)
      case _ =>
        match Resolve(command, tokens[0])
        case Absent => Fail(UnrecognizedOption, command, positionals, values)
        case Present(option) =>
          if !CheckMultipleOccurrence(option, values) then
            Fail(IllegalMultipleOccurrence, command, positionals, values)
          else
            match ReadArgument(allow, tokens[0].kind == LongOption, false, option, tokens[1..], values)
            case Taken(taken, rest) => ReadOptions(allow, command, rest, positionals, taken)
            case Refused(error) => Fail(error, command, positionals, values)
  }

  // ---- The end of the line ----------------------------------------------------------

  /** The position of the first `Rest` option. */
  function RestPosition(options: seq<Option>): (n: nat)
    ensures n <= |options|
    ensures forall i :: 0 <= i < n ==> !options[i].IsPositionalRest()
    ensures n < |options| ==> options[n].IsPositionalRest()
  {
    if options == [] || options[0].IsPositionalRest() then 0 else 1 + RestPosition(options[1..])
  }

  function WithoutRest(options: seq<Option>): seq<Option> {
    if options == [] then []
    else (if options[0].IsPositionalRest() then [] else [options[0]]) + WithoutRest(options[1..])
  }

  function LastRest(options: seq<Option>, previous: Optional<Option>): Optional<Option> {
    if options == [] then previous
    else LastRest(options[1..], if options[0].IsPositionalRest() then Present(options[0]) else previous)
  }

  function BeforeRest(options: seq<Option>): seq<Option> {
    options[..RestPosition(options)]
  }

  function AfterRest(options: seq<Option>): seq<Option> {
    WithoutRest(options[RestPosition(options)..])
  }

  function Reverse(s: seq<string>): (r: seq<string>)
    ensures |r| == |s|
    ensures forall i :: 0 <= i < |s| ==> r[i] == s[|s| - 1 - i]
  {
    if s == [] then [] else [s[|s| - 1]] + Reverse(s[..|s| - 1])
  }

  /** Stores token `i` for option `i`. */
  function StoreAll(options: seq<Option>, tokens: seq<string>, values: ValuesMap): ValuesMap
    requires |options| == |tokens|
  {
    if options == [] then values
    else StoreAll(options[1..], tokens[1..], StorePositional(options[0], tokens[0], values))
  }

  /** The positional arguments in front of the first that has a short or long name. */
  function Unnamed(options: seq<Option>): (unnamed: seq<Option>)
    ensures unnamed <= options
    ensures forall o :: o in unnamed ==> o.IsPositional()
    ensures |unnamed| < |options| ==> !options[|unnamed|].IsPositional()
  {
    if options == [] || !options[0].IsPositional() then [] else [options[0]] + Unnamed(options[1..])
  }

  /** No positional argument has a short or long name, as the final state demands. */
  predicate OnlyUnnamed(command: Command) {
    |Unnamed(command.positionals)| == |command.positionals|
  }

  /** The first tokens go in order to the options before `Rest`, the last ones in
      reverse order to those after it, and `Rest` gets what is in between. A positional
      argument with a name stops this, if the tokens suffice to get there. */
  function Complete(command: Command, positionals: seq<string>, values: ValuesMap): Ending {
    var unnamed := Unnamed(command.positionals);
    var before, after := BeforeRest(unnamed), AfterRest(unnamed);
    var rest := LastRest(unnamed, Absent);
    if |positionals| < |before| + |after| then Faulted(TooFewPositionals)
    else if !OnlyUnnamed(command) then Faulted(NotPositional)
    else
      var tail := |positionals| - |after|;
      var middle := positionals[|before|..tail];
      var placed := StoreAll(after, Reverse(positionals[tail..]), StoreAll(before, positionals[..|before|], values));
      if middle != [] && rest.Absent? then
        Finished(Error(UnexpectedPositionalArguments), Present(command), middle, placed)
      else
        var stored := if rest.Present? then StoreEach(rest.value, middle, placed) else placed;
        var check := CheckRequired(command.options + command.positionals, stored);
        Finished(if check.passed then Success else Error(MissingRequiredOption), Present(command), [], check.values)
  }

  // ---- The whole line -----------------------------------------------------------------

  /** A line is read up to its end, for a command, or stops before. */
  datatype Line =
    | Reached(command: Command, positionals: seq<string>, values: ValuesMap)
    | Stopped(ending: Ending)

  function LineOf(command: Command, reading: Reading): Line {
    match reading
    case AtEnd(positionals, values) => Reached(command, positionals, values)
    case Halted(ending) => Stopped(ending)
  }

  /** After a search for the command over `words`, which collected `collected` of
      them as segments; `left` are the tokens behind those. */
  function ReadCommand(commands: seq<Command>, allow: bool, words: seq<string>, collected: nat, left: seq<Token>): Line
    requires collected <= |words|
  {
    var depth := Depth(commands, words);
    if depth > 0 then
      var command := LastWithPath(commands, words[..depth]).value;
      LineOf(command, ReadOptions(allow, command, left, [], map[]))
    else
      match LastDefault(commands, Absent)
      case Present(command) =>
        if left == [] then Stopped(Faulted(OptionsEnteredAtEnd))
        else LineOf(command, ReadOptions(allow, command, left, words[..collected], map[]))
      case Absent => Stopped(Finished(Error(UnrecognizedCommand), FirstDefault(commands), [], map[]))
  }

  function ReadLine(commands: seq<Command>, allow: bool, tokens: seq<Token>): Line {
    var words := LeadingValues(tokens);
    var collected := Collected(commands, words);
    if collected > 0 then ReadCommand(commands, allow, words, collected, tokens[collected..])
    else
      match FirstDefault(commands)
      case Present(command) => LineOf(command, ReadOptions(allow, command, tokens, [], map[]))
      case Absent =>
        Stopped(Finished(Error(if words == [] then MissingCommand else UnrecognizedCommand), Absent, [], map[]))
  }

  function EndingOf(line: Line): Ending {
    match line
    case Reached(command, positionals, values) => Complete(command, positionals, values)
    case Stopped(ending) => ending
  }

  function ParseLine(commands: seq<Command>, allow: bool, tokens: seq<Token>): Ending {
    EndingOf(ReadLine(commands, allow, tokens))
  }
}
