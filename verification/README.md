# Command line parser: a verified model

This project models the path a command line takes through the asap-clap library:
arguments are split into typed tokens by a character machine, pulled lazily from a
stream, handled as events by a seven-state machine that may ask for the same event
to be re-issued, and finally turned into a map of option values. It also models the
conversion of option texts to integers and flags, and the routing of the `help`
command.

How the files fit together:

- `Tokens`, `Scanner`, `TokenStream`: the character machine (class `CharMachine`), the
  closed form of what it emits, a renderer that inverts it, and the lazy stream
  (class `Tokenizer`).
- `Numbers`: `strtoll`/`strtoull` in base 10 after section 7.22.1.4 of C11, the integer
  conversions for each width, and the flag parser. `FlagTexts`: which texts are flags, for
  every string.
- `Commands`, `OptionValues`: value semantics, options, commands, and the values map.
- `Semantics`: the handlers, transitions and the drive loop as functions on values;
  `Run` is a whole run, `Calls` counts its events.
- `States`, `Parser`: the state objects, the machine and the parser as classes, each
  method proved against `Semantics`. `CmdLineParser.Parse` ends as `Run` says.
- `Grammar`: an independent reference, a recursive grammar over the token list that
  knows no states, events or re-issue. `Identification`, `Finalization` and
  `Refinement` prove that the machine computes exactly this reference.
- `Readings`, `Conservation`: what becomes of every token, and that there is only one way
  to tell it.
- `Safety`, `FinalValues`, `RunResults`: what never happens, exactly when a run faults or
  misses a required option, and the final values map.
- `Printing`, `Arguments`: the converse of `Conservation`. A reading written down, first as
  tokens and then as arguments, is read back; numbers and flags given on the line end up
  as themselves.
- `CommandLine`, `Displays`: the interface around the parser, and what it shows for which
  arguments.
- `Counterexamples`: concrete lines on which the code does not do what its own
  documentation suggests.

## Assumptions

- The state machine library and the contract library are not part of this model. A
  transition leaves the old state, stops if that fails, then enters the new state;
  "do nothing" continues and a reported error terminates. State objects live as long
  as the machine, so their fields survive between entries.
- Contract macros are on: a failed check ends the run with a `Faulted` ending that names
  the check, and so does taking the front or back of an empty list. Fields keep the values
  they have at that moment.
- Every option has value semantics. The text parser of a semantics is an arbitrary
  function, so the results about runs hold for every value type.
- Command sets are arbitrary. The code takes the first default command on entry and the
  last one while identifying, and the last rest option, and so does the model. Positional
  arguments with a short or long name, which the command builder does not refuse, fail the
  check at clap/src/parser/states.h:757, and the reference grammar says when.
- A run starts with an empty values map and no active command.

## Where the code and its documentation differ

- The identifying state documents (clap/src/parser/states.h:195-198) that with a default
  command the end of input leads to the final state and `--` to the dash-dash state. The
  code transitions to the options state in both cases; at the end of input this violates
  that state's contract (`OptionsEnteredAtEndExactly`, `PathPrefixFaults`).
- `InvalidValueForOption` is documented for both option states but never reported;
  `MissingValueForOption` is.
- Segments collected in search of a deeper command are dropped when a shorter command is
  taken (`SegmentLost`; `Conserved` says exactly which ones).
- The unsigned conversion says it accepts no `-` sign, but looks only at the first
  character, so white space lets the sign through (`UnsignedTakesMinusAfterSpace`).
- For numbers beyond 64 bits the flag parser takes the sign from the first character, so
  white space in front of a minus sign turns the flag true (`FlagSignFails`).
- A command can be built with positional arguments that have names; only a check in the
  final state notices (`NamedPositionalFaults`). Nothing notices a line with fewer tokens
  than positional arguments: a token is taken from an empty list (`EmptyLineFaults`).
- Behind `--` nothing is read at all, and the end of input fails the check of the drive
  loop (`DashDashExactly`).

## Model

| member | source | states |
|---|---|---|
| `Scanner.CharMachine.HandleChar` | clap/src/parser/tokenizer.cpp:73-266 | one character event updates the current state, the texts collected, the equal-sign flag and the emitted tokens as the seven states' handlers do |
| `Scanner.CharMachine.HandleEnd` | clap/src/parser/tokenizer.cpp:93-266 | the end event emits the pending token of the state it finds |
| `Scanner.ScanIsClosedForm` | clap/src/parser/tokenizer.cpp:73-292 | for every string the machine emits the tokens its shape calls for: nothing, lone dash, double dash, one short option per letter, a long name with one name and `=` pair per equal sign and then the value or the name again, a plain value |
| `Scanner.Tokenize` | clap/src/parser/tokenizer.cpp:270-292 | the cursor loop over the argument yields exactly the closed form |
| `Scanner.TokenFacts` | clap/src/parser/tokenizer.cpp:73-292 | token texts are never empty, `=` comes only directly behind a long option, there are at most two tokens per character, and none only for the empty argument |
| `Scanner.RoundTrip` | clap/src/parser/tokenizer.cpp:73-292 | rendering the tokens of any string gives the string back, including `--name=`, `--name==v` and names that start with `=` |
| `Scanner.Injective` | clap/src/parser/tokenizer.cpp:73-292 | two arguments with the same tokens are the same argument |
| `TokenStream.Tokenizer.NextToken` | clap/src/parser/tokenizer.h:80-96 | cursor, pending tokens and result change as one pull of the stream does, and the token in hand followed by what remains is what remained before |
| `TokenStream.PullTakesFirst` | clap/src/parser/tokenizer.h:80-96 | a pull takes the first token of what remains; on a dry stream it yields the end of input and skips at most one empty argument |
| `TokenStream.PulledIsRemaining` | clap/src/parser/tokenizer.h:80-96 | the tokens pulled up to the first end of input are exactly those of the stream, in order |
| `TokenStream.DryForever` | clap/src/parser/tokenizer.h:80-100 | without an empty argument ahead the pulls yield what remains, and then the end of input for any number of further pulls |
| `TokenStream.StreamIsConcatenation` | clap/src/parser/tokenizer.h:80-96 | the tokens before the first end of input are those of the arguments before the first empty one, one argument after the other |
| `TokenStream.StreamTokenized` | clap/src/parser/tokenizer.cpp:245-260 | whatever the arguments, the stream holds no end-of-input token, does not start with `=`, and has `=` only directly behind a long option |
| `Numbers.SignedExact` | clap/include/clap/detail/parse_value.h:26-39 | signed conversion accepts a text exactly when it is optional white space, optional sign and digits with a value in the range of the type, and yields that value |
| `Numbers.UnsignedOfNumeral` | clap/include/clap/detail/parse_value.h:41-60 | a numeral with a minus sign is accepted exactly when white space precedes the sign and the value negated modulo 2^64 fits; any other exactly when its value fits |
| `Numbers.UnsignedExact` | clap/include/clap/detail/parse_value.h:41-60 | unsigned conversion accepts a text exactly when it is such a numeral, and with which value |
| `Numbers.UnsignedExactWithoutMinus` | clap/include/clap/detail/parse_value.h:41-60 | on texts without `-` it accepts exactly the numerals in range and yields their value |
| `Numbers.UnsignedTakesMinusAfterSpace` | clap/include/clap/detail/parse_value.h:46-50 | with a blank in front, the negative of any number n below 2^64 is accepted, as 2^64 - n or as zero; without the blank it is refused |
| `Numbers.PrintParses` | clap/include/clap/detail/parse_value.h:26-39 | printing a number in the range of a signed type and converting the text gives the number back |
| `Numbers.PrintParsesUnsigned` | clap/include/clap/detail/parse_value.h:41-60 | the same for the unsigned types |
| `Numbers.FlagSign` | clap/include/clap/detail/parse_value.h:83-127 | every numeral of any length is accepted as a flag, and reads true exactly when it is positive, unless white space is followed by a minus sign and a number below the 64-bit range |
| `Numbers.FlagSignFails` | clap/include/clap/detail/parse_value.h:121-126 | a leading blank turns the flag of every number below the 64-bit range from false to true |
| `Numbers.CharacterInFront` | clap/include/clap/detail/parse_value.h:26-39 | of all characters only white space, a sign or another digit may stand in front of a digit, and with which value |
| `Numbers.SignedRanges` | clap/include/clap/detail/parse_value.h:26-39 | a printed number is accepted exactly in the range of the signed type, written out in decimal for each width |
| `Numbers.UnsignedRanges` | clap/include/clap/detail/parse_value.h:41-60 | the same for the unsigned types |
| `FlagTexts.FlagExactly` | clap/include/clap/detail/parse_value.h:83-127 | a text is a given flag exactly when it is one of the words, letters or signs for it, in any case, or starts with a numeral that is this flag: a positive one for true, with the one exceptional family |
| `FlagTexts.FlagRefusedExactly` | clap/include/clap/detail/parse_value.h:83-127 | every other text is refused |
| `FlagTexts.FlagNumbers` | clap/include/clap/detail/parse_value.h:83-109 | the number behind a flag text: one or minus one for a word, letter or sign, the digit for a single one but zero |
| `Commands.FindShortIsFirst` | clap/include/clap/command.h:96-104 | of several options with a short name the one declared first is found |
| `Commands.FindLongIsFirst` | clap/include/clap/command.h:106-114 | of several options with a long name the one declared first is found |
| `OptionValues.OptionValuesMap.StoreValue` | clap/include/clap/option_values_map.h:36-44 | appends the value to the list under its key, and changes no other key |
| `OptionValues.OptionValuesMap.OccurrencesOf` | clap/include/clap/option_values_map.h:55-61 | the number of values under a key, zero for an unknown key |
| `Semantics.Handle` | clap/src/parser/states.h:373-387 | only the entry into the options state asks for a re-issue, and never from the options state itself |
| `Semantics.CallsBound` | clap/src/parser/parser.cpp:59-141 | from any configuration, at most two events per token left, by induction on tokens left and re-issue rank |
| `Semantics.EachTokenHandledAtMostTwice` | clap/src/parser/parser.cpp:59-141 | every single token of a line, and the end of input, is handed to the machine at most twice |
| `Semantics.ParseCallsBound` | clap/src/parser/parser.cpp:52-143 | a parse of n tokens hands at most 2(n + 1) events to the machine |
| `States.ParserContext.TryImplicitValue` | clap/src/parser/states.h:438-448 | stores the implicit value of the active option if there is one, and says so |
| `States.ParserContext.MultipleOccurrenceAllowed` | clap/src/parser/states.h:450-456 | allowed exactly when the key has no value yet or the option is repeatable |
| `States.ParserContext.Activate` | clap/src/parser/states.h:520-527 | the common end of entering both option states: unknown option, active option, illegal repetition |
| `States.ParserContext.Settle` | clap/src/parser/states.h:531-543 | the common part of leaving both option states: without a value the implicit one is stored, or its absence reported |
| `States.InitialState.constructor` | clap/src/parser/states.h:96-104 | the loop makes the first default command active |
| `States.InitialState.Handle` | clap/src/parser/states.h:106-144 | the transition or error for each kind of first token |
| `States.IdentifyCommandState.OnEnter` | clap/src/parser/states.h:207-237 | starts the segments and filters on the first one; fails if there is no command or none is left |
| `States.IdentifyCommandState.FilterCommands` | clap/src/parser/states.h:219-235 | appends in order the commands with this first segment, noting the last one-segment match and the last default command |
| `States.IdentifyCommandState.OnLeave` | clap/src/parser/states.h:239-244 | resets all fields |
| `States.IdentifyCommandState.Handle` | clap/src/parser/states.h:246-278 | where a token that is no value leads, and what becomes of the context |
| `States.IdentifyCommandState.HandleValue` | clap/src/parser/states.h:280-319 | one more segment: stay, settle for the match so far, fall back on the default command, or fail |
| `States.IdentifyCommandState.NarrowCommands` | clap/src/parser/states.h:285-300 | keeps in order exactly the commands with the latest segment in place, and remembers the last complete one |
| `States.ParseOptionsState.OnEnter` | clap/src/parser/states.h:373-387 | re-issues the event, unless at the end of input or without an active command |
| `States.ParseOptionsState.Handle` | clap/src/parser/states.h:399-432 | collects values as positional tokens, else the transition for each token kind |
| `States.ParseShortOptionState.OnEnter` | clap/src/parser/states.h:495-528 | looks the option up by its short name and activates it |
| `States.ParseShortOptionState.OnLeave` | clap/src/parser/states.h:530-543 | settles the value and clears it |
| `States.ParseShortOptionState.Handle` | clap/src/parser/states.h:545-571 | takes a value that parses, else the implicit value, else reports a missing value |
| `States.ParseLongOptionState.OnEnter` | clap/src/parser/states.h:623-654 | looks the option up by its long name and activates it |
| `States.ParseLongOptionState.OnLeave` | clap/src/parser/states.h:656-669 | settles the value and clears it together with the equal-sign flag |
| `States.ParseLongOptionState.Handle` | clap/src/parser/states.h:671-713 | notes equal signs; takes a value that parses; falls back on the implicit value only without an equal sign |
| `States.FinalState.OnEnter` | clap/src/parser/states.h:746-796 | positionals, rest, defaults and required options, in this order, with the status of each failure |
| `States.FinalState.TakePositionals` | clap/src/parser/states.h:752-772 | the loop that takes from the front before the rest option and from the back after it |
| `States.FinalState.StoreRest` | clap/src/parser/states.h:773-779 | stores every token left for the rest option in order |
| `States.FinalState.CheckRequiredOptions` | clap/src/parser/states.h:799-818 | applies defaults to keys without a value, up to the first required option without one |
| `Parser.Machine.Handle` | clap/src/parser/parser.cpp:55-101 | dispatches one event to the current state object and performs the transition, the re-entry into the options state included, exactly as the step semantics says, whatever the status |
| `Parser.CmdLineParser.Parse` | clap/src/parser/parser.cpp:52-143 | the drive loop terminates on every stream, hands over exactly the counted number of events, and leaves verdict, active command, positional tokens and values of the run |
| `Identification.NarrowExtending` | clap/src/parser/states.h:285-300 | the filtered list is exactly the commands that extend the segments so far, and stays so with each segment |
| `Identification.LastCompleteIsLastWithPath` | clap/src/parser/states.h:295-297 | the match noted while filtering is the last command in the list with exactly these segments as its path |
| `Identification.CollectedStops` | clap/src/parser/states.h:301-317 | words behind segments that no command extends change neither what is collected nor what is matched |
| `Finalization.AllocateIsSlices` | clap/src/parser/states.h:752-772 | the loop gives the first tokens in order to the options before the rest, the last ones in reverse to those after it, and leaves the middle slice; it takes from an empty list exactly when there are too few tokens for the arguments in front of the first named one, and else fails at that one if there is one |
| `Finalization.FinalEnterCompletes` | clap/src/parser/states.h:746-818 | entering the final state ends the run as the closed form of the reference grammar says |
| `Refinement.OptionsRun` | clap/src/parser/states.h:373-432 | runs from the options state equal the recursive reading of options and positionals |
| `Refinement.ShortRun` | clap/src/parser/states.h:495-571 | runs from the short option state equal the reading of its argument, for every rest of the line |
| `Refinement.LongRun` | clap/src/parser/states.h:623-713 | the same for the long option state, with and without equal signs |
| `Refinement.IdentifyRun` | clap/src/parser/states.h:207-319 | runs from the identifying state equal the longest-prefix search over the leading words |
| `Refinement.DashDashRun` | clap/src/parser/states.h:728-741 | nothing leads out of the state behind `--`; the check at the end of input fails |
| `Refinement.MachineRefinesGrammar` | clap/src/parser/states.h:94-829 | for every command set and token list, machine and reference grammar give the same verdict or fault, active command, positional tokens left and values map |
| `Conservation.DeepestMatch` | clap/src/parser/states.h:207-319 | the active command is the last one whose path is the longest command path the leading value tokens start with; failing that a command with the path of one empty segment, the last one if the first word starts a command path and else the first; failing that an error, missing or unrecognized |
| `Readings.ItemsAreUnique` | clap/src/parser/states.h:399-713 | two greedy readings of the same tokens as options and positionals of one command are the same |
| `Conservation.AccountIsUnique` | clap/src/parser/states.h:246-319 | the tokens alone determine who gets which of them, and so the positional tokens and the values |
| `Conservation.Conserved` | clap/src/parser/states.h:246-319 | every run that enters the final state accounts for all its tokens once and in order: path segments, dropped segments, kept segments, option flags with their values, positionals; and each key holds one value per occurrence of its options, in order |
| `Printing.LineRoundTrip` | clap/src/parser/states.h:399-713 | a command path followed by correctly named, allowed and greedy option occurrences and positionals, long values with `=` or without, is read back exactly |
| `Printing.DefaultLineRoundTrip` | clap/src/parser/states.h:399-713 | the same without a path, for the default command, also where its first words were collected in search of a command |
| `Printing.RefusedLine` | clap/src/parser/states.h:438-580 | behind items that can be read, the first option that cannot decides: unknown, repeated though it may not be, or without a value; the ending names it and keeps what was read |
| `Printing.DefaultRefusedLine` | clap/src/parser/states.h:438-580 | the same for lines of the default command |
| `Arguments.ArgumentsRoundTrip` | clap/src/parser/tokenizer.cpp:73-292 | the same from the arguments on: written as `-c`, `-`, `--name`, `--name=value` and words, path and items go through tokenizer and parser unchanged |
| `Arguments.DefaultArgumentsRoundTrip` | clap/src/parser/tokenizer.cpp:73-292 | the same for lines of the default command |
| `Arguments.IntegerGiven` | clap/include/clap/detail/parse_value.h:26-39 | for an option of a signed type, `--name=` and the decimal digits of any number in range, negative ones included, stores that number alone under its key |
| `Arguments.UnsignedGiven` | clap/include/clap/detail/parse_value.h:41-60 | the same for the unsigned types |
| `Arguments.FlagGiven` | clap/include/clap/detail/parse_value.h:83-127 | a flag given as a number of any size is stored true exactly when the number is positive |
| `Arguments.FlagWordGiven` | clap/include/clap/detail/parse_value.h:103-108 | a flag given as one of its words or letters, in any case, is stored as what it says |
| `Arguments.TrueAndOff` | clap/include/clap/detail/parse_value.h:103-108 | `--name=true` stores true and `--name=off` stores false |
| `Arguments.ImplicitGiven` | clap/src/parser/states.h:438-448 | `--name` or `-c` without a value stores value and text of the option's implicit value |
| `Arguments.ValueRefused` | clap/src/parser/states.h:697-713 | a text the option does not parse, given behind `=`, ends the run with a missing value and stores nothing |
| `Arguments.IntegerRefused` | clap/include/clap/detail/parse_value.h:26-39 | so does every text that is no numeral in range, for an option of a signed type |
| `Arguments.UnsignedRefused` | clap/include/clap/detail/parse_value.h:41-60 | the same for the unsigned types and texts without a minus sign |
| `Arguments.FlagRefused` | clap/include/clap/detail/parse_value.h:83-127 | the same for flags and texts that are none |
| `Safety.EqualSignsStayInPlace` | clap/src/parser/states.h:419-422 | along every run over tokens where `=` only follows a long option, `=` arrives only in the long option state or behind `--` |
| `Safety.NoSyntaxError` | clap/src/parser/states.h:671-695 | for every argument list, no syntax error is reported while long option values may come without `=` |
| `Safety.OnlyKnownFaults` | clap/src/parser/states.h:207-829 | for every command set no reachable step violates a contract except in four ways, each characterised below |
| `Safety.OptionsEnteredAtEndExactly` | clap/src/parser/states.h:270-275 | the options state is entered at the end of input exactly when the line is nothing but words that start a command path, none of their prefixes is one, and there is a default command |
| `Safety.TooFewPositionalsExactly` | clap/src/parser/states.h:756-767 | a token is taken from an empty list exactly when a line read to its end has fewer positional tokens than its command takes one by one |
| `Safety.NotPositionalExactly` | clap/src/parser/states.h:757 | the check of the positional arguments fails exactly when a line read to its end has tokens enough to get to an argument with a name |
| `Safety.FinalFaultsOnAccount` | clap/src/parser/states.h:756-767 | for a line read to its end, the only account of its tokens decides between these two faults |
| `Safety.DashDashExactly` | clap/src/parser/parser.cpp:137 | a line with `--` never succeeds: it ends with the error the tokens before it report on their own, else in the failing check |
| `Safety.StuckNeedsDashDash` | clap/src/parser/parser.cpp:137 | without `--` that check never fails |
| `FinalValues.UnexpectedExactly` | clap/src/parser/states.h:773-783 | unexpected positionals are reported exactly when no positional argument has a name, there is no rest option and there are more tokens than options |
| `FinalValues.StoreAllAt` | clap/src/parser/states.h:819-826 | of tokens given to options one by one, under each key exactly those given to an option with that key that parse are stored, in order, behind what was there |
| `FinalValues.PositionalsAllocated` | clap/src/parser/states.h:752-780 | when tokens and options fit, the run ends with every positional token stored for exactly one option: the first ones in order before the rest, the last ones in reverse after it, the middle for the rest; then come the defaults and the required options |
| `FinalValues.CheckKeepsGiven` | clap/src/parser/states.h:799-818 | applying defaults changes no key already present |
| `FinalValues.CheckAddsDefaults` | clap/src/parser/states.h:799-818 | every key it adds holds value and text of the default of the first option with this key that has one, and nothing else |
| `FinalValues.CheckCovers` | clap/src/parser/states.h:799-818 | after it, every option that is required or has a default has a value |
| `FinalValues.CheckFailsExactly` | clap/src/parser/states.h:799-818 | it fails exactly when a required option has neither a value nor a default, its own or an earlier one under its key |
| `FinalValues.SuccessIsComplete` | clap/src/parser/states.h:746-829 | the whole values map of a successful run: under each key one value per option occurrence in the line, then the received positional tokens that parse, and defaults only for keys left without a value; every option that is required or has a default is present |
| `FinalValues.AtMostOneValue` | clap/src/parser/states.h:450-456 | however a run ends short of a fault, a key without repeatable options and not used by positionals holds at most one value |
| `RunResults.ValuesOfSuccess` | clap/src/parser/states.h:438-448 | on a line that parses every option occurrence has left the value it came with or else the implicit value, each with its text, and a key that nothing on the line uses holds value and text of an option's default alone |
| `RunResults.MissingRequiredExactly` | clap/src/parser/states.h:799-818 | a missing required option is reported exactly when a line read to its end fits the positional arguments and leaves a required option without any value |
| `RunResults.WordsAllocated` | clap/src/parser/states.h:752-780 | a line of words for the default command: the first ones go to the arguments before the one with key `_REST_`, the last ones in reverse to those after it, the middle to that one |
| `RunResults.WordsUnexpected` | clap/src/parser/states.h:773-783 | without such an argument unexpected positionals are reported exactly when there are more words than positional arguments |
| `CommandLine.Cli.Parse` | clap/src/cli.cpp:46-91 | throws exactly the errors of the run over the rewritten arguments, breaks exactly on its faults, and shows something exactly when it succeeds |
| `CommandLine.SimplifiedExactly` | clap/src/cli.cpp:57-68 | only a first argument `-v`, `--version`, `-h` or `--help` is rewritten, to `version` or `help`, and only if there is such a command |
| `CommandLine.OutcomeSettles` | clap/src/cli.cpp:72-90 | for all arguments error, fault and success of the run each have their own outcome; a success has an active command |
| `CommandLine.DisplayShows` | clap/src/cli.cpp:72-80 | an option with key `help` shows the active command; the command `help` shows the overview, the first command with the path under `_REST_`, or that there is none; the command `version` shows the version; nothing else shows anything |
| `CommandLine.Cli.HandleHelpCommand` | clap/src/cli.cpp:163-195 | the loop rebuilds the path from the rest values, and the first command with that path is shown |
| `Displays.HelpRouting` | clap/src/cli.cpp:163-181 | `help`, `-h` or `--help` followed by the path of any command parses, stores exactly that path under the rest key, and shows the first command with that path |
| `Displays.HelpUnknown` | clap/src/cli.cpp:182-189 | followed by words that are no command path it says so, with exactly these words |
| `Displays.HelpAlone` | clap/src/cli.cpp:190-193 | alone it shows the overview |
| `Displays.HelpOptionShows` | clap/src/cli.cpp:163-165 | whatever the arguments, if the line parses and an option with key `help` is on it, the help of the command of the line is shown |
| `Displays.VersionShown` | clap/src/cli.cpp:78-80 | `version`, `-v` and `--version` show the version |
| `Counterexamples.PathPrefixFaults` | clap/src/parser/states.h:270-275 | the first word of a two-word command, with a default command, enters the options state against its contract |
| `Counterexamples.DashDashFaults` | clap/src/parser/parser.cpp:137 | a lone `--` fails the check of the drive loop |
| `Counterexamples.EmptyLineFaults` | clap/src/parser/states.h:756-767 | an empty line for a default command with one positional argument takes a token from an empty list |
| `Counterexamples.NamedPositionalFaults` | clap/src/parser/states.h:757 | a positional argument with a name, whichever it is, fails the check on the empty line |
| `Counterexamples.SegmentLost` | clap/src/parser/states.h:315-316 | with commands `a` and `a b c`, the line `a b x` keeps `x` and loses `b` |

## Left out

- Printing, synopsis, text wrapping and the wording of messages: errors are kinds. The
  flag text of the active option serves messages only.
- Logging and the standard streams: they have no effect on the result.
- The fluent builders, option groups and the creation of a missing default command, which
  passes an empty segment in a longer path and is rejected by the command constructor.
- Notifiers and store-to addresses: the parser does not implement them.
- Character, floating-point and enumeration values: characters are taken as they are, the
  other two rest on a library conversion and on a reflection library. A run may use any of
  them as its arbitrary text parser.
- Locale effects of lower-casing: ASCII letters only.
- Several parses on one interface object: the first one is modelled.
- Running on after a failed contract with the macros off, where a line with `--` would loop
  forever; `DashDashRun` is the reason, since no event changes that state.
- Arguments.ArgumentsRoundTrip: gives every short option an argument of its own; clusters
  such as `-abc` have the same tokens, for which Printing.LineRoundTrip holds.
- Aliasing of commands and options: they are values, since the parser never compares their addresses.
