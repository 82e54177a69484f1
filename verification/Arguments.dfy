/** Lines written as arguments: tokenizer, parser and value conversion together. */
module Arguments {
  import opened Optionals
  import opened Tokens
  import opened Commands
  import opened OptionValues
  import opened Scanner
  import opened TokenStream
  import opened Semantics
  import opened Grammar
  import opened Readings
  import opened FinalValues
  import opened Printing
  import opened FlagTexts
  import opened Refinement
  import Numbers

  /** A text that is read as a value when it is an argument of its own. */
  predicate PlainWord(word: string) {
    word != "" && word[0] != '-'
  }

  predicate PlainWords(words: seq<string>) {
    forall i :: 0 <= i < |words| ==> PlainWord(words[i])
  }

  /** A name a long option can be written with: only its first character may be an `=`. */
  predicate LongNameText(name: string) {
    name != "" && forall i :: 0 < i < |name| ==> name[i] != '='
  }

  // ---- One argument --------------------------------------------------------------

  lemma {:induction false} NoEqualInside(name: string, rest: string)
    requires LongNameText(name) && (rest != "" ==> rest[0] == '=')
    ensures LongName("--" + name + rest) == name && BehindName("--" + name + rest) == rest
  {
    var arg := "--" + name + rest;
    assert arg[3..] == name[1..] + rest;
    UntilEqualOf(name[1..], rest);
  }

  lemma {:induction false} UntilEqualOf(text: string, rest: string)
    requires forall i :: 0 <= i < |text| ==> text[i] != '='
    requires rest != "" ==> rest[0] == '='
    ensures UntilEqual(text + rest) == |text|
  {
    if text == "" {
      assert text + rest == rest;
    } else {
      assert (text + rest)[1..] == text[1..] + rest;
      UntilEqualOf(text[1..], rest);
    }
  }

  lemma {:induction false} LongArgument(name: string)
    requires LongNameText(name)
    ensures TokensOf("--" + name) == [Token(LongOption, name)]
  {
    NoEqualInside(name, "");
    assert "--" + name + "" == "--" + name;
    hide LongName, BehindName;
  }

  lemma {:induction false} GluedArgument(name: string, text: string)
    requires LongNameText(name) && text != "" && text[0] != '='
    ensures TokensOf("--" + name + "=" + text) == [Token(LongOption, name), Token(EqualSign, "="), Token(Value, text)]
  {
    hide TokensOf, LongTail, LongName, BehindName, ShortTokens;
    var rest := "=" + text;
    NoEqualInside(name, rest);
    LongTokens(name, rest);
    assert "--" + name + "=" + text == "--" + name + rest;
    LongTailStep(name, rest);
    assert rest[1..] == text;
    ValueTail(name, text);
  }

  lemma {:induction false} LongTokens(name: string, rest: string)
    requires name != ""
    ensures var arg := "--" + name + rest; TokensOf(arg) == LongTail(LongName(arg), BehindName(arg))
  {
    hide LongName, BehindName, LongTail, ShortTokens;
  }

  lemma {:induction false} ValueTail(name: string, text: string)
    requires text != "" && text[0] != '='
    ensures LongTail(name, text) == [Token(Value, text)]
  {
    assert text[0..] == text;
  }

  lemma {:induction false} ShortArgument(letter: char)
    requires letter != '-'
    ensures TokensOf("-" + [letter]) == [Token(ShortOption, [letter])]
  {
    assert ("-" + [letter])[1..] == [letter];
  }

  // ---- Lines ---------------------------------------------------------------------

  function FlagArgument(flag: Token): string {
    match flag.kind
    case LongOption => "--" + flag.text
    case ShortOption => "-" + flag.text
    case _ => "-"
  }

  function ArgumentsOfItem(w: Written): seq<string> {
    match w.item
    case Positional(text) => [text]
    case Occurrence(_, flag, Present(text)) =>
      if w.glued then [FlagArgument(flag) + "=" + text] else [FlagArgument(flag), text]
    case Occurrence(_, flag, Absent) => [FlagArgument(flag)]
  }

  function ArgumentsOf(written: seq<Written>): seq<string> {
    if written == [] then [] else ArgumentsOfItem(written[0]) + ArgumentsOf(written[1..])
  }

  predicate FlagText(flag: Token) {
    match flag.kind
    case LongOption => LongNameText(flag.text)
    case ShortOption => |flag.text| == 1 && flag.text[0] != '-'
    case LoneDash => flag.text == "-"
    case _ => false
  }

  /** The item's texts can be written: behind an `=` a value may even start with a dash. */
  predicate Spellable(w: Written) {
    match w.item
    case Positional(text) => PlainWord(text)
    case Occurrence(_, flag, argument) =>
      && FlagText(flag)
      && (w.glued ==> flag.kind == LongOption && argument.Present?)
      && match argument
         case Present(text) => if w.glued then text != "" && text[0] != '=' else PlainWord(text)
         case Absent => true
  }

  ghost predicate AllSpellable(written: seq<Written>) {
    forall i :: 0 <= i < |written| ==> Spellable(written[i])
  }

  lemma {:induction false} StreamStep(arg: string, more: seq<string>)
    requires arg != ""
    ensures StreamOf([arg] + more) == TokensOf(arg) + StreamOf(more)
  {
    assert ([arg] + more)[1..] == more;
  }

  lemma {:induction false} FlagStream(flag: Token)
    requires FlagText(flag)
    ensures FlagArgument(flag) != "" && TokensOf(FlagArgument(flag)) == [flag]
  {
    match flag.kind {
      case LongOption => LongArgument(flag.text);
      case ShortOption =>
        ShortArgument(flag.text[0]);
        assert flag.text == [flag.text[0]];
      case _ =>
    }
  }

  lemma {:induction false} ItemStream(w: Written, more: seq<string>)
    requires Spellable(w)
    ensures StreamOf(ArgumentsOfItem(w) + more) == TokensOfWritten(w) + StreamOf(more)
  {
    hide StreamOf, TokensOf, FlagArgument, FlagText, LongNameText;
    match w.item {
      case Positional(text) =>
        StreamStep(text, more);
        ValueArgument(text);
      case Occurrence(_, flag, argument) =>
        FlagStream(flag);
        match argument {
          case Absent => StreamStep(FlagArgument(flag), more);
          case Present(text) =>
            if w.glued {
              GluedFlag(flag, text);
              StreamStep(FlagArgument(flag) + "=" + text, more);
            } else {
              assert [FlagArgument(flag), text] + more == [FlagArgument(flag)] + ([text] + more);
              StreamStep(FlagArgument(flag), [text] + more);
              StreamStep(text, more);
              ValueArgument(text);
              assert [flag] + ([Token(Value, text)] + StreamOf(more)) == [flag, Token(Value, text)] + StreamOf(more);
            }
        }
    }
  }

  lemma {:induction false} ValueArgument(text: string)
    requires PlainWord(text)
    ensures TokensOf(text) == [Token(Value, text)]
  {
  }

  lemma {:induction false} GluedFlag(flag: Token, text: string)
    requires FlagText(flag) && flag.kind == LongOption && text != "" && text[0] != '='
    ensures FlagArgument(flag) + "=" + text != ""
    ensures TokensOf(FlagArgument(flag) + "=" + text) == [flag, Token(EqualSign, "="), Token(Value, text)]
  {
    GluedArgument(flag.text, text);
  }

  lemma {:induction false} WrittenStream(written: seq<Written>)
    requires AllSpellable(written)
    ensures StreamOf(ArgumentsOf(written)) == Spelled(written, [])
  {
    if written != [] {
      ItemStream(written[0], ArgumentsOf(written[1..]));
      WrittenStream(written[1..]);
    }
  }

  lemma {:induction false} WordsStream(words: seq<string>, more: seq<string>)
    requires PlainWords(words)
    ensures StreamOf(words + more) == ValueTokens(words) + StreamOf(more)
    decreases |words|
  {
    if words == [] {
      assert words + more == more && ValueTokens(words) + StreamOf(more) == StreamOf(more);
    } else {
      assert words + more == [words[0]] + (words[1..] + more);
      StreamStep(words[0], words[1..] + more);
      ValueArgument(words[0]);
      WordsStream(words[1..], more);
      ValueTokensStep(words, StreamOf(more));
      hide StreamOf, ValueTokens;
    }
  }

  // ---- Round trips on arguments -----------------------------------------------------

  /** A command path and items, written as arguments, are read back exactly. */
  lemma {:induction false} ArgumentsRoundTrip(
    commands: seq<Command>, allow: bool, command: Command, written: seq<Written>)
    requires command.path != [] && LastWithPath(commands, command.path) == Present(command)
    requires PlainWords(command.path) && AllSpellable(written)
    requires GoodItems(allow, command, written)
    requires written != [] && written[0].item.Positional? ==>
               !Extends(commands, command.path + [written[0].item.text])
    ensures Run(Start(commands, allow), StreamOf(command.path + ArgumentsOf(written)))
         == Complete(command, PositionalTexts(ItemsOf(written)), StoreItems(command, ItemsOf(written), map[]))
  {
    WordsStream(command.path, ArgumentsOf(written));
    WrittenStream(written);
    LineRoundTrip(commands, allow, command, written);
    hide Run, Start, StreamOf, Complete, StoreItems, ItemsOf, Spelled, ArgumentsOf;
  }

  /** So are items for a default command. */
  lemma {:induction false} DefaultArgumentsRoundTrip(
    commands: seq<Command>, allow: bool, command: Command, written: seq<Written>)
    requires AllSpellable(written)
    requires FallsTo(commands, command, Spelled(written, []))
    requires GoodItems(allow, command, written)
    ensures Run(Start(commands, allow), StreamOf(ArgumentsOf(written)))
         == Complete(command, PositionalTexts(ItemsOf(written)), StoreItems(command, ItemsOf(written), map[]))
  {
    WrittenStream(written);
    DefaultLineRoundTrip(commands, allow, command, written);
    hide Run, Start, StreamOf, Complete, StoreItems, ItemsOf, Spelled, ArgumentsOf;
  }

  // ---- Values of their own types -------------------------------------------------------

  /** A line of one option occurrence for the default command: unless a contract fails,
      its one value ends up under the key of the option, alone. */
  lemma {:induction false} OneItemLine(commands: seq<Command>, allow: bool, command: Command, w: Written)
    requires FirstDefault(commands) == Present(command)
    requires w.item.Occurrence? && ValidItem(command, w.item) && Spellable(w)
    requires Acceptable(allow, [w])
    ensures match Run(Start(commands, allow), StreamOf(ArgumentsOfItem(w)))
            case Finished(_, active, _, values) =>
              active == Present(command) && ValuesAt(values, w.item.option.key) == [ValueOf(w.item)]
            case Faulted(fault) => fault == TooFewPositionals || fault == NotPositional
  {
    var item, written := w.item, [w];
    OneWritten(w);
    OneOccurrence(command, item);
    assert GoodItems(allow, command, written);
    assert FallsTo(commands, command, Spelled(written, [])) by {
      assert LeadingValues(Spelled(written, [])) == [];
    }
    DefaultArgumentsRoundTrip(commands, allow, command, written);
    KeptToTheEnd(command, StoreItems(command, [item], map[]), item.option.key);
    hide Run, Start, StreamOf, Complete, StoreItems, ItemsOf, Spelled, ArgumentsOf, ArgumentsOfItem, Spellable,
      FallsTo, GoodItems, TokensOfWritten;
  }

  lemma {:induction false} OneWritten(w: Written)
    ensures ItemsOf([w]) == [w.item] && Spelled([w], []) == TokensOfWritten(w) && ArgumentsOf([w]) == ArgumentsOfItem(w)
  {
    assert [w][1..] == [];
    assert ItemsOf([]) == [] && Spelled([], []) == [] && ArgumentsOf([]) == [];
    assert [w.item] + [] == [w.item];
    hide TokensOfWritten, ArgumentsOfItem;
  }

  /** The line `--name=text` stores the value of `text`. */
  lemma {:induction false} ValueGiven(
    commands: seq<Command>, allow: bool, command: Command, option: Option, name: string, text: string)
    requires FirstDefault(commands) == Present(command) && command.FindLongOption(name) == Present(option)
    requires LongNameText(name) && text != "" && text[0] != '='
    requires option.semantics.parse(text).Present?
    ensures match Run(Start(commands, allow), StreamOf(["--" + name + "=" + text]))
            case Finished(_, active, _, values) =>
              && active == Present(command)
              && ValuesAt(values, option.key) == [OptionValue(option.semantics.parse(text).value, text, false)]
            case Faulted(fault) => fault == TooFewPositionals || fault == NotPositional
  {
    var w := Written(Occurrence(option, Token(LongOption, name), Present(text)), true);
    assert [w][1..] == [];
    OneItemLine(commands, allow, command, w);
  }

  /** An option that comes without a value stores its implicit value, value and text. */
  lemma {:induction false} ImplicitGiven(
    commands: seq<Command>, allow: bool, command: Command, option: Option, flag: Token, arg: string)
    requires FirstDefault(commands) == Present(command)
    requires || (flag.kind == LongOption && LongNameText(flag.text) && arg == "--" + flag.text
                 && command.FindLongOption(flag.text) == Present(option))
             || (flag.kind == ShortOption && |flag.text| == 1 && flag.text[0] != '-' && arg == "-" + flag.text
                 && command.FindShortOption(flag.text) == Present(option))
    requires option.semantics.implicitValue.Present?
    ensures match Run(Start(commands, allow), StreamOf([arg]))
            case Finished(_, _, _, values) =>
              && |ValuesAt(values, option.key)| == 1
              && var stored, meant := values[option.key][0], option.semantics.implicitValue.value;
              && stored.value == meant.value && stored.originalToken == meant.text && !stored.defaulted
            case Faulted(fault) => fault == TooFewPositionals || fault == NotPositional
  {
    var w := Written(Occurrence(option, flag, Absent), false);
    assert [w][1..] == [];
    OneItemLine(commands, allow, command, w);
  }

  /** A text the option does not parse is refused, whatever implicit value it has. */
  lemma {:induction false} ValueRefused(
    commands: seq<Command>, allow: bool, command: Command, option: Option, name: string, text: string)
    requires FirstDefault(commands) == Present(command) && command.FindLongOption(name) == Present(option)
    requires LongNameText(name) && text != "" && text[0] != '='
    requires option.semantics.parse(text).Absent?
    ensures Run(Start(commands, allow), StreamOf(["--" + name + "=" + text]))
         == Finished(Error(MissingValueForOption), Present(command), [], map[])
  {
    var tokens := [Token(LongOption, name), Token(EqualSign, "="), Token(Value, text)];
    GluedArgument(name, text);
    OneArgument("--" + name + "=" + text);
    MachineRefinesGrammar(commands, allow, tokens);
    GluedRefused(allow, command, option, tokens);
    assert LeadingValues(tokens) == [];
    hide Run, Start, StreamOf, ReadOptions, TokensOf, LongNameText, Depth, LastWithPath, Extends;
  }

  lemma {:induction false} OneArgument(arg: string)
    requires arg != ""
    ensures StreamOf([arg]) == TokensOf(arg)
  {
    hide TokensOf;
    StreamStep(arg, []);
    assert [arg] + [] == [arg];
    assert TokensOf(arg) + [] == TokensOf(arg) && StreamOf([]) == [];
  }

  lemma {:induction false} GluedRefused(allow: bool, command: Command, option: Option, tokens: seq<Token>)
    requires |tokens| == 3 && tokens[0].kind == LongOption && tokens[1].kind == EqualSign && tokens[2].kind == Value
    requires command.FindLongOption(tokens[0].text) == Present(option)
    requires option.semantics.parse(tokens[2].text).Absent?
    ensures ReadOptions(allow, command, tokens, [], map[])
         == Halted(Finished(Error(MissingValueForOption), Present(command), [], map[]))
  {
    assert tokens[1..][1..][0] == tokens[2];
    assert ReadArgument(allow, true, false, option, tokens[1..], map[])
        == ReadArgument(allow, true, true, option, tokens[1..][1..], map[]);
  }

  lemma {:induction false} OneOccurrence(command: Command, item: Item)
    requires item.Occurrence? && ValidItem(command, item)
    ensures ValidItems(command, [item]) && Greedy([item]) && Allowed([item], map[])
    ensures PositionalTexts([item]) == []
    ensures ValuesAt(StoreItems(command, [item], map[]), item.option.key) == [ValueOf(item)]
  {
    assert [item][1..] == [];
    assert PositionalTexts([]) == [];
    var values := StoreItems(command, [item], map[]);
    assert values == StoreItems(command, [], Store(map[], item.option.key, ValueOf(item)));
    assert [] + [ValueOf(item)] == [ValueOf(item)];
  }

  /** Without positional tokens the final state only adds defaults. */
  lemma {:induction false} KeptToTheEnd(command: Command, values: ValuesMap, key: string)
    requires key in values
    ensures match Complete(command, [], values)
            case Finished(_, active, _, final) =>
              active == Present(command) && key in final && final[key] == values[key]
            case Faulted(fault) => fault == TooFewPositionals || fault == NotPositional
  {
    CheckKeepsGiven(command.options + command.positionals, values);
    hide CheckRequired, Unnamed, BeforeRest, AfterRest, LastRest;
  }

  /** Every number a signed type can hold, given as `--name=` and its decimal digits,
      ends up as itself; negative ones too. */
  lemma {:induction false} IntegerGiven(
    commands: seq<Command>, allow: bool, command: Command, option: Option, name: string, width: Numbers.Width, n: int)
    requires FirstDefault(commands) == Present(command) && command.FindLongOption(name) == Present(option)
    requires LongNameText(name) && width.InSigned(n)
    requires option.semantics.parse == SignedParser(width)
    ensures match Run(Start(commands, allow), StreamOf(["--" + name + "=" + Numbers.Print(n)]))
            case Finished(_, _, _, values) =>
              ValuesAt(values, option.key) == [OptionValue(IntegerValue(n), Numbers.Print(n), false)]
            case Faulted(fault) => fault == TooFewPositionals || fault == NotPositional
  {
    Numbers.PrintParses(width, n);
    PrintedStart(n);
    ValueGiven(commands, allow, command, option, name, Numbers.Print(n));
    hide Run, Start, StreamOf, Numbers.Print, Numbers.NumberConversion;
  }

  lemma {:induction false} UnsignedGiven(
    commands: seq<Command>, allow: bool, command: Command, option: Option, name: string, width: Numbers.Width, n: int)
    requires FirstDefault(commands) == Present(command) && command.FindLongOption(name) == Present(option)
    requires LongNameText(name) && width.InUnsigned(n)
    requires option.semantics.parse == UnsignedParser(width)
    ensures match Run(Start(commands, allow), StreamOf(["--" + name + "=" + Numbers.Print(n)]))
            case Finished(_, _, _, values) =>
              ValuesAt(values, option.key) == [OptionValue(IntegerValue(n), Numbers.Print(n), false)]
            case Faulted(fault) => fault == TooFewPositionals || fault == NotPositional
  {
    Numbers.PrintParsesUnsigned(width, n);
    PrintedStart(n);
    ValueGiven(commands, allow, command, option, name, Numbers.Print(n));
    hide Run, Start, StreamOf, Numbers.Print, Numbers.UnsignedNumberConversion;
  }

  /** A flag given as a number of any size, without a sign or with one, is true exactly
      when the number is positive. */
  lemma {:induction false} FlagGiven(
    commands: seq<Command>, allow: bool, command: Command, option: Option, name: string, n: int)
    requires FirstDefault(commands) == Present(command) && command.FindLongOption(name) == Present(option)
    requires LongNameText(name) && option.semantics.parse == FlagParser()
    ensures match Run(Start(commands, allow), StreamOf(["--" + name + "=" + Numbers.Print(n)]))
            case Finished(_, _, _, values) =>
              ValuesAt(values, option.key) == [OptionValue(BoolValue(n > 0), Numbers.Print(n), false)]
            case Faulted(fault) => fault == TooFewPositionals || fault == NotPositional
  {
    var sign, digits := Numbers.PrintedIsNumeral(n);
    Numbers.FlagSign(Numbers.Print(n), "", sign, digits);
    PrintedStart(n);
    ValueGiven(commands, allow, command, option, name, Numbers.Print(n));
    hide Run, Start, StreamOf, Numbers.Print, Numbers.ParseFlag;
  }

  /** A flag given as one of its words or letters, in any case, is what the word says. */
  lemma {:induction false} FlagWordGiven(
    commands: seq<Command>, allow: bool, command: Command, option: Option, name: string, text: string)
    requires FirstDefault(commands) == Present(command) && command.FindLongOption(name) == Present(option)
    requires LongNameText(name) && option.semantics.parse == FlagParser()
    requires MeansTrue(text) || MeansFalse(text)
    ensures match Run(Start(commands, allow), StreamOf(["--" + name + "=" + text]))
            case Finished(_, _, _, values) =>
              ValuesAt(values, option.key) == [OptionValue(BoolValue(MeansTrue(text)), text, false)]
            case Faulted(fault) => fault == TooFewPositionals || fault == NotPositional
  {
    WordsAreApart(text);
    FlagExactly(text, MeansTrue(text));
    WordStart(text);
    hide MeansTrue, MeansFalse, Numbers.ParseFlag;
    ValueGiven(commands, allow, command, option, name, text);
    hide Run, Start, StreamOf;
  }

  lemma {:induction false} WordStart(text: string)
    requires MeansTrue(text) || MeansFalse(text)
    ensures text != "" && text[0] != '='
  {
  }

  /** For instance `--name=true` and `--name=off`. */
  lemma {:induction false} TrueAndOff(
    commands: seq<Command>, allow: bool, command: Command, option: Option, name: string)
    requires FirstDefault(commands) == Present(command) && command.FindLongOption(name) == Present(option)
    requires LongNameText(name) && option.semantics.parse == FlagParser()
    ensures match Run(Start(commands, allow), StreamOf(["--" + name + "=" + "true"]))
            case Finished(_, _, _, values) =>
              ValuesAt(values, option.key) == [OptionValue(BoolValue(true), "true", false)]
            case Faulted(fault) => fault == TooFewPositionals || fault == NotPositional
    ensures match Run(Start(commands, allow), StreamOf(["--" + name + "=" + "off"]))
            case Finished(_, _, _, values) =>
              ValuesAt(values, option.key) == [OptionValue(BoolValue(false), "off", false)]
            case Faulted(fault) => fault == TooFewPositionals || fault == NotPositional
  {
    assert Reads("true", "true") && Reads("off", "off");
    assert MeansTrue("true") && MeansFalse("off");
    WordsAreApart("off");
    FlagWordGiven(commands, allow, command, option, name, "true");
    FlagWordGiven(commands, allow, command, option, name, "off");
    hide Run, Start, StreamOf;
  }

  /** A text that is no numeral of the type's range is refused for an option of this type. */
  lemma {:induction false} IntegerRefused(
    commands: seq<Command>, allow: bool, command: Command, option: Option, name: string,
    width: Numbers.Width, text: string)
    requires FirstDefault(commands) == Present(command) && command.FindLongOption(name) == Present(option)
    requires LongNameText(name) && text != "" && text[0] != '=' && option.semantics.parse == SignedParser(width)
    requires forall space, sign, digits :: Numbers.IsNumeral(text, space, sign, digits) ==>
               !width.InSigned(Numbers.NumeralValue(sign, digits))
    ensures Run(Start(commands, allow), StreamOf(["--" + name + "=" + text]))
         == Finished(Error(MissingValueForOption), Present(command), [], map[])
  {
    if Numbers.NumberConversion(width, text).Present? {
      Numbers.SignedExact(width, text, Numbers.NumberConversion(width, text).value);
    }
    hide Numbers.NumberConversion;
    ValueRefused(commands, allow, command, option, name, text);
    hide Run, Start, StreamOf;
  }

  lemma {:induction false} UnsignedRefused(
    commands: seq<Command>, allow: bool, command: Command, option: Option, name: string,
    width: Numbers.Width, text: string)
    requires FirstDefault(commands) == Present(command) && command.FindLongOption(name) == Present(option)
    requires LongNameText(name) && text != "" && text[0] != '=' && option.semantics.parse == UnsignedParser(width)
    requires '-' !in text
    requires forall space, sign, digits :: Numbers.IsNumeral(text, space, sign, digits) ==>
               !width.InUnsigned(Numbers.NumeralValue(sign, digits))
    ensures Run(Start(commands, allow), StreamOf(["--" + name + "=" + text]))
         == Finished(Error(MissingValueForOption), Present(command), [], map[])
  {
    if Numbers.UnsignedNumberConversion(width, text).Present? {
      Numbers.UnsignedExactWithoutMinus(width, text, Numbers.UnsignedNumberConversion(width, text).value);
    }
    hide Numbers.UnsignedNumberConversion;
    ValueRefused(commands, allow, command, option, name, text);
    hide Run, Start, StreamOf;
  }

  lemma {:induction false} FlagRefused(
    commands: seq<Command>, allow: bool, command: Command, option: Option, name: string, text: string)
    requires FirstDefault(commands) == Present(command) && command.FindLongOption(name) == Present(option)
    requires LongNameText(name) && text != "" && text[0] != '=' && option.semantics.parse == FlagParser()
    requires !MeansTrue(text) && !MeansFalse(text)
    requires forall space, sign, digits :: !NumeralPrefix(text, space, sign, digits)
    ensures Run(Start(commands, allow), StreamOf(["--" + name + "=" + text]))
         == Finished(Error(MissingValueForOption), Present(command), [], map[])
  {
    FlagRefusedExactly(text);
    hide Numbers.ParseFlag;
    ValueRefused(commands, allow, command, option, name, text);
    hide Run, Start, StreamOf;
  }

  lemma {:induction false} PrintedStart(n: int)
    ensures Numbers.Print(n) != "" && Numbers.Print(n)[0] != '='
  {
    var digits := Numbers.PrintNat(if n < 0 then -n else n);
    assert Numbers.IsDigit(digits[0]);
  }
}
