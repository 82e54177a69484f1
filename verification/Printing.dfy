/**
 Writing a reading down and running the parser on it gives the reading back: the
 converse of module `Conservation`.
 */
module Printing {
  import opened Optionals
  import opened Tokens
  import opened Commands
  import opened OptionValues
  import opened Semantics
  import opened Grammar
  import opened Identification
  import opened Refinement
  import opened Readings
  import opened Conservation
  import opened Safety

  /** How an item is written: a long option may have its value behind an `=`. */
  datatype Written = Written(item: Item, glued: bool)

  function ItemsOf(written: seq<Written>): (items: seq<Item>)
    ensures |items| == |written|
  {
    if written == [] then [] else [written[0].item] + ItemsOf(written[1..])
  }

  function TokensOfWritten(w: Written): seq<Token> {
    match w.item
    case Occurrence(_, flag, Present(text)) =>
      if w.glued then [flag, Token(EqualSign, "="), Token(Value, text)] else TokensOfItem(w.item)
    case _ => TokensOfItem(w.item)
  }

  /** The tokens of the items, and behind them the tail of the line. */
  function Spelled(written: seq<Written>, tail: seq<Token>): seq<Token> {
    if written == [] then tail else TokensOfWritten(written[0]) + Spelled(written[1..], tail)
  }

  /** The tail of a line: nothing, or something that starts a new item. */
  ghost predicate IsTail(tail: seq<Token>) {
    NoEnd(tail) && (tail != [] ==> tail[0].kind != Value && tail[0].kind != EqualSign)
  }

  predicate IsLong(item: Item) {
    item.Occurrence? && item.flag.kind == LongOption
  }

  /** An `=` comes only with the value of a long option. Where long option values need
      one they have one, and a long option without a value has no positional behind it. */
  predicate Acceptable(allow: bool, written: seq<Written>) {
    written == [] ||
    (var item, rest := written[0].item, written[1..];
     && (written[0].glued ==> IsLong(item) && item.argument.Present?)
     && (!allow && IsLong(item) ==>
           if item.argument.Present? then written[0].glued else rest == [] || rest[0].item.Occurrence?)
     && Acceptable(allow, rest))
  }

  // ---- The options part ------------------------------------------------------------

  /** Printed items never start with an `=`, and with a value only for a positional. */
  lemma {:induction false} SpelledStart(command: Command, written: seq<Written>, tail: seq<Token>)
    requires ValidItems(command, ItemsOf(written))
    ensures written == [] ==> Spelled(written, tail) == tail
    ensures written != [] ==>
              && Spelled(written, tail) != []
              && Spelled(written, tail)[0] ==
                 (match written[0].item case Positional(text) => Token(Value, text) case Occurrence(_, flag, _) => flag)
              && Spelled(written, tail)[0].kind != EqualSign && Spelled(written, tail)[0].kind != EndOfInput
              && (Spelled(written, tail)[0].kind == Value <==> written[0].item.Positional?)
  {
    if written != [] {
      assert ItemsOf(written)[0] == written[0].item;
      assert ValidItem(command, written[0].item);
    }
  }

  lemma {:induction false} SpelledNoEnd(command: Command, written: seq<Written>, tail: seq<Token>)
    requires ValidItems(command, ItemsOf(written)) && NoEnd(tail)
    ensures NoEnd(Spelled(written, tail))
    decreases |written|
  {
    if written != [] {
      var items := ItemsOf(written);
      assert items[0] == written[0].item && items[1..] == ItemsOf(written[1..]);
      assert ValidItem(command, items[0]);
      SpelledNoEnd(command, written[1..], tail);
    }
  }

  /** The argument of a printed occurrence is read back. */
  lemma {:induction false} PrintedArgument(
    allow: bool, command: Command, w: Written, rest: seq<Written>, tail: seq<Token>, values: ValuesMap)
    requires IsTail(tail)
    requires w.item.Occurrence? && ValidItem(command, w.item) && ValidItems(command, ItemsOf(rest))
    requires Greedy([w.item] + ItemsOf(rest)) && Acceptable(allow, [w] + rest)
    ensures var tokens := TokensOfWritten(w)[1..] + Spelled(rest, tail);
            ReadArgument(allow, IsLong(w.item), false, w.item.option, tokens, values)
            == Taken(Store(values, w.item.option.key, ValueOf(w.item)), Spelled(rest, tail))
  {
    assert ([w] + rest)[1..] == rest;
    SpelledStart(command, rest, tail);
    var item, left := w.item, Spelled(rest, tail);
    match item.argument {
      case Present(text) =>
        TakesValue(allow, item.option, IsLong(item), text, left, values);
        if w.glued {
          assert TokensOfWritten(w)[1..] + left == [Token(EqualSign, "="), Token(Value, text)] + left;
        } else {
          assert TokensOfWritten(w)[1..] + left == [Token(Value, text)] + left;
        }
      case Absent =>
        assert TokensOfWritten(w)[1..] + left == left;
        assert ([w] + rest)[0] == w;
        if rest != [] && rest[0].item.Positional? {
          var all := [item] + ItemsOf(rest);
          assert all[0] == item && all[1] == rest[0].item;
        }
        TakesImplicit(allow, item.option, IsLong(item), left, values);
    }
  }

  /** Without a value the implicit one is taken, if what follows is no value of the option. */
  lemma {:induction false} TakesImplicit(
    allow: bool, option: Option, isLong: bool, left: seq<Token>, values: ValuesMap)
    requires option.semantics.implicitValue.Present? && (left != [] ==> left[0].kind != EqualSign)
    requires left != [] && left[0].kind == Value ==>
               option.semantics.parse(left[0].text).Absent? && (allow || !isLong)
    ensures ReadArgument(allow, isLong, false, option, left, values)
         == var v := option.semantics.implicitValue.value;
            Taken(Store(values, option.key, OptionValue(v.value, v.text, false)), left)
  {
  }

  /** A value that parses is taken, with an `=` in front of it or, if that is allowed, without. */
  lemma {:induction false} TakesValue(
    allow: bool, option: Option, isLong: bool, text: string, left: seq<Token>, values: ValuesMap)
    requires option.semantics.parse(text).Present? && (left != [] ==> left[0].kind != EqualSign)
    ensures var value := OptionValue(option.semantics.parse(text).value, text, false);
            var taken := Taken(Store(values, option.key, value), left);
            && (allow || !isLong ==>
                  ReadArgument(allow, isLong, false, option, [Token(Value, text)] + left, values) == taken)
            && (isLong ==>
                  ReadArgument(allow, isLong, false, option, [Token(EqualSign, "="), Token(Value, text)] + left, values)
                  == taken)
  {
    hide Store;
    var bare := [Token(Value, text)] + left;
    var glued := [Token(EqualSign, "="), Token(Value, text)] + left;
    assert bare[1..] == left && glued[1..] == bare;
    assert SkipEquals(left) == left;
  }

  /** The values an option's occurrences are stored with, one after the other. */
  ghost function StoreItems(command: Command, items: seq<Item>, values: ValuesMap): ValuesMap
    requires ValidItems(command, items)
    decreases |items|
  {
    if items == [] then values
    else
      assert ValidItem(command, items[0]);
      StoreItems(
        command, items[1..],
        if items[0].Positional? then values else Store(values, items[0].option.key, ValueOf(items[0])))
  }

  lemma {:induction false} StoreItemsFront(command: Command, item: Item, items: seq<Item>, values: ValuesMap)
    requires ValidItem(command, item) && ValidItems(command, items)
    ensures ValidItems(command, [item] + items)
    ensures StoreItems(command, [item] + items, values)
         == StoreItems(
              command, items, if item.Positional? then values else Store(values, item.option.key, ValueOf(item)))
  {
    hide ValidItem, Store;
    assert ([item] + items)[0] == item && ([item] + items)[1..] == items;
  }

  /** Under each key there is one value per occurrence of its options, in order. */
  lemma {:induction false} StoredItemsAt(command: Command, items: seq<Item>, values: ValuesMap, key: string)
    requires ValidItems(command, items)
    ensures ValuesAt(StoreItems(command, items, values), key)
         == ValuesAt(values, key) + ValuesUnder(command, items, key)
    decreases |items|
  {
    if items != [] {
      var item, rest := items[0], items[1..];
      assert items == [item] + rest;
      assert ValidItem(command, item) && ValidItems(command, rest);
      hide ValidItem, ValidItems, Store, ValuesAt, StoreItems, ValuesUnder, ValueOf;
      ValuesUnderFront(command, item, rest, key);
      StoreItemsFront(command, item, rest, values);
      if item.Positional? {
        StoredItemsAt(command, rest, values, key);
      } else {
        var next := Store(values, item.option.key, ValueOf(item));
        StoredItemsAt(command, rest, next, key);
        StoredAt(values, item.option.key, ValueOf(item), key);
        var own := if item.option.key == key then [ValueOf(item)] else [];
        ThreeParts(ValuesAt(values, key), own, ValuesUnder(command, rest, key));
      }
    } else {
      assert ValuesAt(values, key) + [] == ValuesAt(values, key);
    }
  }

  lemma {:induction false} ThreeParts(a: seq<OptionValue>, b: seq<OptionValue>, c: seq<OptionValue>)
    ensures a + b + c == a + (b + c)
  {
  }

  lemma {:induction false} ValuesUnderFront(command: Command, item: Item, items: seq<Item>, key: string)
    requires ValidItem(command, item) && ValidItems(command, items)
    ensures ValidItems(command, [item] + items)
    ensures item.Positional? ==> ValuesUnder(command, [item] + items, key) == ValuesUnder(command, items, key)
    ensures item.Occurrence? ==>
              ValuesUnder(command, [item] + items, key)
              == (if item.option.key == key then [ValueOf(item)] else []) + ValuesUnder(command, items, key)
  {
    hide ValidItem, ValueOf;
    assert ([item] + items)[0] == item && ([item] + items)[1..] == items;
    assert [] + ValuesUnder(command, items, key) == ValuesUnder(command, items, key);
  }

  /** The facts about the items behind the first one. */
  lemma {:induction false} ItemsBehind(command: Command, item: Item, items: seq<Item>, values: ValuesMap)
    requires ValidItems(command, [item] + items) && Greedy([item] + items) && Allowed([item] + items, values)
    ensures ValidItem(command, item) && ValidItems(command, items) && Greedy(items)
    ensures PositionalTexts([item] + items) == (if item.Positional? then [item.text] else []) + PositionalTexts(items)
    ensures item.Positional? ==>
              && Allowed(items, values)
              && StoreItems(command, [item] + items, values) == StoreItems(command, items, values)
    ensures item.Occurrence? ==>
              var next := Store(values, item.option.key, ValueOf(item));
              && CheckMultipleOccurrence(item.option, values) && Allowed(items, next)
              && StoreItems(command, [item] + items, values) == StoreItems(command, items, next)
  {
    hide Greedy, Allowed, Store, CheckMultipleOccurrence;
    var all := [item] + items;
    assert all[0] == item && all[1..] == items;
    assert ValidItem(command, all[0]);
    assert forall i :: 0 <= i < |items| ==> all[i + 1] == items[i];
    GreedyBehind(item, items);
    if item.Positional? {
      AllowedPositional(item.text, items, values);
    } else {
      AllowedOccurrence(item, ValueOf(item), items, values);
    }
  }

  lemma {:induction false} ReadsOccurrence(
    allow: bool, command: Command, w: Written, rest: seq<Written>, tail: seq<Token>,
    positionals: seq<string>, values: ValuesMap)
    requires IsTail(tail)
    requires w.item.Occurrence? && ValidItem(command, w.item) && ValidItems(command, ItemsOf(rest))
    requires Greedy([w.item] + ItemsOf(rest)) && Acceptable(allow, [w] + rest)
    requires CheckMultipleOccurrence(w.item.option, values)
    ensures ReadOptions(allow, command, TokensOfWritten(w) + Spelled(rest, tail), positionals, values)
         == ReadOptions(allow, command, Spelled(rest, tail), positionals,
                        Store(values, w.item.option.key, ValueOf(w.item)))
  {
    hide Greedy, ReadArgument, Resolve, CheckMultipleOccurrence, Spelled, Acceptable, Store;
    PrintedArgument(allow, command, w, rest, tail, values);
    var tokens := TokensOfWritten(w) + Spelled(rest, tail);
    assert tokens[0] == w.item.flag && tokens[1..] == TokensOfWritten(w)[1..] + Spelled(rest, tail);
  }

  /** What the options part makes of written items. */
  lemma {:induction false} ReadsBack(
    allow: bool, command: Command, written: seq<Written>, tail: seq<Token>,
    positionals: seq<string>, values: ValuesMap)
    requires IsTail(tail)
    requires var items := ItemsOf(written); ValidItems(command, items) && Greedy(items) && Allowed(items, values)
    requires Acceptable(allow, written)
    ensures var items := ItemsOf(written);
            ReadOptions(allow, command, Spelled(written, tail), positionals, values)
            == ReadOptions(
                 allow, command, tail, positionals + PositionalTexts(items), StoreItems(command, items, values))
    decreases |written|
  {
    if written == [] {
      assert positionals + [] == positionals;
      return;
    }
    var w, rest := written[0], written[1..];
    var items := ItemsOf(rest);
    assert written == [w] + rest && ItemsOf(written) == [w.item] + items;
    assert Spelled(written, tail) == TokensOfWritten(w) + Spelled(rest, tail);
    hide Greedy, Allowed, Store, CheckMultipleOccurrence, ReadOptions, StoreItems, PositionalTexts, ItemsOf, Spelled;
    ItemsBehind(command, w.item, items, values);
    match w.item {
      case Positional(text) =>
        ReadsPositional(allow, command, text, Spelled(rest, tail), positionals, values);
        ReadsBack(allow, command, rest, tail, positionals + [text], values);
        assert positionals + [text] + PositionalTexts(items) == positionals + ([text] + PositionalTexts(items));
      case Occurrence(option, _, _) =>
        ReadsOccurrence(allow, command, w, rest, tail, positionals, values);
        ReadsBack(allow, command, rest, tail, positionals, Store(values, option.key, ValueOf(w.item)));
        assert [] + PositionalTexts(items) == PositionalTexts(items);
    }
  }

  // ---- Lines that name their command --------------------------------------------------

  /** What is written for a command path and the items behind it. */
  function PrintLine(path: seq<string>, written: seq<Written>, tail: seq<Token>): seq<Token> {
    ValueTokens(path) + Spelled(written, tail)
  }

  lemma {:induction false} PrintedWords(command: Command, path: seq<string>, written: seq<Written>, tail: seq<Token>)
    requires ValidItems(command, ItemsOf(written)) && IsTail(tail)
    ensures var words := LeadingValues(PrintLine(path, written, tail));
            && path <= words
            && (|words| > |path| ==>
                  written != [] && written[0].item.Positional?
                  && words[..|path| + 1] == path + [written[0].item.text])
  {
    var rest := Spelled(written, tail);
    WordsLead(path, rest);
    SpelledStart(command, written, tail);
    hide Spelled;
  }

  /** The search finds the path, and collects nothing behind it. */
  lemma {:induction false} PathFound(commands: seq<Command>, path: seq<string>, words: seq<string>)
    requires path != [] && path <= words && IsPath(commands, path)
    requires |words| > |path| ==> !Extends(commands, words[..|path| + 1])
    ensures Collected(commands, words) == |path| && Depth(commands, words) == |path| && words[..|path|] == path
  {
    assert path[..|path|] == path;
    PathExtends(commands, path, |path|);
    CollectedStops(commands, path, words);
  }

  lemma {:induction false} PrintedNoEnd(command: Command, path: seq<string>, written: seq<Written>, tail: seq<Token>)
    requires ValidItems(command, ItemsOf(written)) && NoEnd(tail)
    ensures NoEnd(PrintLine(path, written, tail))
  {
    SpelledNoEnd(command, written, tail);
  }

  /** Items that name the options of the command correctly, repeat only repeatable ones
      and take their values when they can. */
  ghost predicate GoodItems(allow: bool, command: Command, written: seq<Written>) {
    var items := ItemsOf(written);
    ValidItems(command, items) && Greedy(items) && Allowed(items, map[]) && Acceptable(allow, written)
  }

  /** What the line comes to when the items have been read, and the tail is still ahead. */
  ghost function EndingBehind(allow: bool, command: Command, written: seq<Written>, tail: seq<Token>): Ending
    requires ValidItems(command, ItemsOf(written))
  {
    var items := ItemsOf(written);
    EndingOf(LineOf(
      command, ReadOptions(allow, command, tail, PositionalTexts(items), StoreItems(command, items, map[]))))
  }

  lemma {:induction false} LineReads(
    commands: seq<Command>, allow: bool, command: Command, written: seq<Written>, tail: seq<Token>)
    requires command.path != [] && LastWithPath(commands, command.path) == Present(command)
    requires GoodItems(allow, command, written) && IsTail(tail)
    requires written != [] && written[0].item.Positional? ==>
               !Extends(commands, command.path + [written[0].item.text])
    ensures Run(Start(commands, allow), PrintLine(command.path, written, tail))
         == EndingBehind(allow, command, written, tail)
  {
    var path, items := command.path, ItemsOf(written);
    var tokens := PrintLine(path, written, tail);
    assert tokens[|path|..] == Spelled(written, tail);
    PrintedNoEnd(command, path, written, tail);
    MachineRefinesGrammar(commands, allow, tokens);
    PrintedWords(command, path, written, tail);
    PathFound(commands, path, LeadingValues(tokens));
    ReadsBack(allow, command, written, tail, [], map[]);
    assert [] + PositionalTexts(items) == PositionalTexts(items);
    hide Run, Start, ReadOptions, Complete, LastWithPath, Depth, Collected, LeadingValues, PrintLine, StoreItems,
      PositionalTexts, ItemsOf, Spelled, Greedy, Allowed, Acceptable, ValidItems, FirstDefault, LastDefault;
  }

  /** A command path followed by good items is read back exactly: the machine ends as the
      final state ends for these positionals and these values. */
  lemma {:induction false} LineRoundTrip(
    commands: seq<Command>, allow: bool, command: Command, written: seq<Written>)
    requires command.path != [] && LastWithPath(commands, command.path) == Present(command)
    requires GoodItems(allow, command, written)
    requires written != [] && written[0].item.Positional? ==>
               !Extends(commands, command.path + [written[0].item.text])
    ensures Run(Start(commands, allow), PrintLine(command.path, written, []))
         == Complete(command, PositionalTexts(ItemsOf(written)), StoreItems(command, ItemsOf(written), map[]))
  {
    LineReads(commands, allow, command, written, []);
    hide Run, Start, Complete, PrintLine, StoreItems, PositionalTexts, ItemsOf, ValidItems;
  }

  // ---- Lines for the default command ---------------------------------------------------

  /** A line that falls to a default command is read for it from its first token on,
      though the first words may have been collected as segments. */
  lemma {:induction false} DefaultIsRead(commands: seq<Command>, allow: bool, command: Command, tokens: seq<Token>)
    requires ChosenCommand(commands, tokens) == Present(command)
    requires Depth(commands, LeadingValues(tokens)) == 0 && !PartialPath(commands, tokens)
    ensures ReadLine(commands, allow, tokens) == LineOf(command, ReadOptions(allow, command, tokens, [], map[]))
  {
    var words := LeadingValues(tokens);
    var collected := Collected(commands, words);
    SplitWords(tokens, collected);
    WordsAreRead(allow, command, words[..collected], tokens[collected..], [], map[]);
    assert [] + words[..collected] == words[..collected];
    if words != [] {
      CollectedAll(commands, words);
    }
    hide ReadOptions, Depth, Collected, LeadingValues, Extends, ValueTokens, FirstDefault, LastDefault, LastWithPath;
  }

  /** The line falls to this default command: it does not start with a command path, and
      does not stop inside one. */
  ghost predicate FallsTo(commands: seq<Command>, command: Command, tokens: seq<Token>) {
    && ChosenCommand(commands, tokens) == Present(command)
    && Depth(commands, LeadingValues(tokens)) == 0
    && !PartialPath(commands, tokens)
  }

  lemma {:induction false} DefaultLineReads(
    commands: seq<Command>, allow: bool, command: Command, written: seq<Written>, tail: seq<Token>)
    requires FallsTo(commands, command, Spelled(written, tail))
    requires GoodItems(allow, command, written) && IsTail(tail)
    ensures Run(Start(commands, allow), Spelled(written, tail)) == EndingBehind(allow, command, written, tail)
  {
    SpelledNoEnd(command, written, tail);
    MachineRefinesGrammar(commands, allow, Spelled(written, tail));
    DefaultIsRead(commands, allow, command, Spelled(written, tail));
    ReadsBack(allow, command, written, tail, [], map[]);
    assert [] + PositionalTexts(ItemsOf(written)) == PositionalTexts(ItemsOf(written));
    hide Run, Start, ReadLine, ReadOptions, Complete, Depth, LeadingValues, StoreItems, PositionalTexts, ItemsOf,
      Spelled, Greedy, Allowed, Acceptable, ValidItems, ChosenCommand, PartialPath;
  }

  /** The same for a line that falls to a default command. */
  lemma {:induction false} DefaultLineRoundTrip(
    commands: seq<Command>, allow: bool, command: Command, written: seq<Written>)
    requires FallsTo(commands, command, Spelled(written, [])) && GoodItems(allow, command, written)
    ensures Run(Start(commands, allow), Spelled(written, []))
         == Complete(command, PositionalTexts(ItemsOf(written)), StoreItems(command, ItemsOf(written), map[]))
  {
    DefaultLineReads(commands, allow, command, written, []);
    hide Run, Start, Complete, StoreItems, PositionalTexts, ItemsOf, ValidItems, Spelled, FallsTo;
  }

  // ---- Lines that are refused -----------------------------------------------------------

  predicate IsFlag(token: Token) {
    token.kind == LongOption || token.kind == ShortOption || token.kind == LoneDash
  }

  /** No option of the command is called by this flag. */
  ghost predicate IsUnknown(command: Command, flag: Token) {
    forall o :: o in command.options ==> (if flag.kind == LongOption then o.longName else o.shortName) != flag.text
  }

  /** The option has occurred among the items, and may not be repeated. */
  ghost predicate IsRepeated(option: Option, items: seq<Item>) {
    && !option.semantics.repeatable
    && exists i :: 0 <= i < |items| && items[i].Occurrence? && items[i].option.key == option.key
  }

  /** Neither the tokens behind its flag nor the option itself have a value for it. */
  ghost predicate LacksValue(option: Option, behind: seq<Token>) {
    && option.semantics.implicitValue.Absent?
    && (behind != [] ==> behind[0].kind != EqualSign)
    && (behind != [] && behind[0].kind == Value ==> option.semantics.parse(behind[0].text).Absent?)
  }

  lemma {:induction false} StoredKeys(command: Command, items: seq<Item>, values: ValuesMap, key: string)
    requires ValidItems(command, items)
    ensures ValuesAt(StoreItems(command, items, values), key) != [] <==>
            || ValuesAt(values, key) != []
            || exists i :: 0 <= i < |items| && items[i].Occurrence? && items[i].option.key == key
    decreases |items|
  {
    if items != [] {
      var item, rest := items[0], items[1..];
      assert ValidItem(command, item);
      var next := if item.Positional? then values else Store(values, item.option.key, ValueOf(item));
      StoredKeys(command, rest, next, key);
      assert forall i :: 0 <= i < |rest| ==> items[i + 1] == rest[i];
      assert (exists i :: 0 <= i < |rest| && rest[i].Occurrence? && rest[i].option.key == key) ==>
          exists i :: 0 < i < |items| && items[i].Occurrence? && items[i].option.key == key;
      assert forall i :: 0 < i < |items| ==> items[i] == rest[i - 1];
    }
  }

  lemma {:induction false} FlagIsRefused(
    command: Command, flag: Token, behind: seq<Token>, positionals: seq<string>, items: seq<Item>)
    requires IsFlag(flag) && ValidItems(command, items)
    ensures var read := ReadOptions(true, command, [flag] + behind, positionals, StoreItems(command, items, map[]));
            var values := StoreItems(command, items, map[]);
            match Resolve(command, flag)
            case Absent => read == Fail(UnrecognizedOption, command, positionals, values)
            case Present(option) =>
              if IsRepeated(option, items) then read == Fail(IllegalMultipleOccurrence, command, positionals, values)
              else LacksValue(option, behind) ==> read == Fail(MissingValueForOption, command, positionals, values)
  {
    assert ([flag] + behind)[1..] == behind;
    if Resolve(command, flag).Present? {
      StoredKeys(command, items, map[], Resolve(command, flag).value.key);
    }
    hide StoreItems, Store, ValidItems, Resolve;
  }

  lemma {:induction false} UnknownIsUnresolved(command: Command, flag: Token)
    ensures Resolve(command, flag).Absent? <==> IsUnknown(command, flag)
  {
  }

  /** How a line ends whose good items are followed by a flag that is refused. */
  ghost predicate RefusedAs(
    ending: Ending, command: Command, written: seq<Written>, flag: Token, behind: seq<Token>)
    requires ValidItems(command, ItemsOf(written))
  {
    var items := ItemsOf(written);
    var positionals, values := PositionalTexts(items), StoreItems(command, items, map[]);
    && (IsUnknown(command, flag) ==>
          ending == Finished(Error(UnrecognizedOption), Present(command), positionals, values))
    && (!IsUnknown(command, flag) && IsRepeated(Resolve(command, flag).value, items) ==>
          ending == Finished(Error(IllegalMultipleOccurrence), Present(command), positionals, values))
    && (!IsUnknown(command, flag) && !IsRepeated(Resolve(command, flag).value, items)
        && LacksValue(Resolve(command, flag).value, behind) ==>
          ending == Finished(Error(MissingValueForOption), Present(command), positionals, values))
  }

  /** The first option that cannot be read decides: unknown, repeated though it may not
      be, or without a value. What has been read up to it is kept. */
  lemma {:induction false} RefusedLine(
    commands: seq<Command>, command: Command, written: seq<Written>, flag: Token, behind: seq<Token>)
    requires command.path != [] && LastWithPath(commands, command.path) == Present(command)
    requires GoodItems(true, command, written) && IsFlag(flag) && NoEnd(behind)
    requires written != [] && written[0].item.Positional? ==>
               !Extends(commands, command.path + [written[0].item.text])
    ensures RefusedAs(Run(Start(commands, true), PrintLine(command.path, written, [flag] + behind)),
                      command, written, flag, behind)
  {
    var items := ItemsOf(written);
    LineReads(commands, true, command, written, [flag] + behind);
    FlagIsRefused(command, flag, behind, PositionalTexts(items), items);
    UnknownIsUnresolved(command, flag);
    hide Run, Start, ReadOptions, Complete, PrintLine, StoreItems, PositionalTexts, ItemsOf, ValidItems, Resolve,
      IsUnknown, IsRepeated, LacksValue;
  }

  lemma {:induction false} DefaultRefusedLine(
    commands: seq<Command>, command: Command, written: seq<Written>, flag: Token, behind: seq<Token>)
    requires FallsTo(commands, command, Spelled(written, [flag] + behind))
    requires GoodItems(true, command, written) && IsFlag(flag) && NoEnd(behind)
    ensures RefusedAs(Run(Start(commands, true), Spelled(written, [flag] + behind)), command, written, flag, behind)
  {
    var items := ItemsOf(written);
    DefaultLineReads(commands, true, command, written, [flag] + behind);
    FlagIsRefused(command, flag, behind, PositionalTexts(items), items);
    UnknownIsUnresolved(command, flag);
    hide Run, Start, ReadOptions, Complete, Spelled, StoreItems, PositionalTexts, ItemsOf, ValidItems, Resolve,
      IsUnknown, IsRepeated, LacksValue, FallsTo;
  }
}
