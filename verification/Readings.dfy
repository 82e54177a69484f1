/**
 What becomes of every token of a run that reaches the final state: the token
 list is rebuilt from a reading of it, and the collected values are told by the
 reading alone.
 */
module Readings {
  import opened Optionals
  import opened Tokens
  import opened Commands
  import opened OptionValues
  import opened Semantics
  import opened Grammar

  /** A positional token, or one occurrence of an option with the value token it
      takes, if any. */
  datatype Item =
    | Positional(text: string)
    | Occurrence(option: Option, flag: Token, argument: Optional<string>)

  function TokensOfItem(item: Item): seq<Token> {
    match item
    case Positional(text) => [Token(Value, text)]
    case Occurrence(_, flag, argument) =>
      [flag] + match argument
               case Present(text) => [Token(Value, text)]
               case Absent => []
  }

  function Unparse(items: seq<Item>): seq<Token> {
    if items == [] then [] else TokensOfItem(items[0]) + Unparse(items[1..])
  }

  function WithoutEquals(tokens: seq<Token>): seq<Token> {
    if tokens == [] then []
    else (if tokens[0].kind == EqualSign then [] else [tokens[0]]) + WithoutEquals(tokens[1..])
  }

  function PositionalTexts(items: seq<Item>): seq<string> {
    if items == [] then []
    else (if items[0].Positional? then [items[0].text] else []) + PositionalTexts(items[1..])
  }

  /** The occurrence's flag names its option, and it has a value: the token it takes
      parses, or the option has an implicit value. */
  ghost predicate ValidItem(command: Command, item: Item) {
    match item
    case Positional(_) => true
    case Occurrence(option, flag, argument) =>
      && (flag.kind == LongOption || flag.kind == ShortOption || flag.kind == LoneDash)
      && Resolve(command, flag) == Present(option)
      && match argument
         case Present(text) => option.semantics.parse(text).Present?
         case Absent => option.semantics.implicitValue.Present?
  }

  ghost predicate ValidItems(command: Command, items: seq<Item>) {
    forall i :: 0 <= i < |items| ==> ValidItem(command, items[i])
  }

  /** An occurrence goes without a value token only if the next token is no value that
      parses: a value that could be taken is taken. */
  ghost predicate Greedy(items: seq<Item>) {
    forall i :: 0 <= i < |items| - 1
                && items[i].Occurrence? && items[i].argument.Absent? && items[i + 1].Positional? ==>
                  items[i].option.semantics.parse(items[i + 1].text).Absent?
  }

  /** The first item is a positional exactly when the first token is a value. */
  ghost predicate StartsLike(items: seq<Item>, tokens: seq<Token>) {
    if tokens != [] && tokens[0].kind == Value then items != [] && items[0] == Positional(tokens[0].text)
    else items == [] || items[0].Occurrence?
  }

  /** An option that may not be repeated occurs once, and only if it has no value yet. */
  ghost predicate Allowed(items: seq<Item>, values: ValuesMap) {
    forall i :: 0 <= i < |items| && items[i].Occurrence? && !items[i].option.semantics.repeatable ==>
                  && ValuesAt(values, items[i].option.key) == []
                  && forall j :: 0 <= j < i && items[j].Occurrence? ==> items[j].option.key != items[i].option.key
  }

  /** The one value an occurrence contributes. */
  function ValueOf(item: Item): OptionValue
    requires item.Occurrence?
    requires match item.argument
             case Present(text) => item.option.semantics.parse(text).Present?
             case Absent => item.option.semantics.implicitValue.Present?
  {
    match item.argument
    case Present(text) => OptionValue(item.option.semantics.parse(text).value, text, false)
    case Absent =>
      var implicitValue := item.option.semantics.implicitValue.value;
      OptionValue(implicitValue.value, implicitValue.text, false)
  }

  /** The values of the occurrences under `key`, in command-line order, one each. */
  ghost function ValuesUnder(command: Command, items: seq<Item>, key: string): seq<OptionValue>
    requires ValidItems(command, items)
  {
    if items == [] then []
    else
      assert ValidItem(command, items[0]);
      (if items[0].Occurrence? && items[0].option.key == key then [ValueOf(items[0])] else [])
      + ValuesUnder(command, items[1..], key)
  }

  /** Maps built by storing never hold a key without values. */
  ghost predicate NoEmptyEntries(values: ValuesMap) {
    forall key :: key in values ==> values[key] != []
  }

  // ---- One option ---------------------------------------------------------------

  lemma {:induction false} SkippedEquals(tokens: seq<Token>)
    ensures WithoutEquals(SkipEquals(tokens)) == WithoutEquals(tokens)
    ensures NoEnd(tokens) ==> NoEnd(SkipEquals(tokens))
  {
    if tokens != [] && tokens[0].kind == EqualSign {
      SkippedEquals(tokens[1..]);
      assert WithoutEquals(tokens) == WithoutEquals(tokens[1..]);
    }
  }

  /** An option takes no token, or exactly the value token behind its `=` signs. */
  lemma {:induction false} ArgumentAccount(
    allow: bool, isLong: bool, equalSeen: bool, option: Option, tokens: seq<Token>, values: ValuesMap)
    returns (argument: Optional<string>)
    requires ReadArgument(allow, isLong, equalSeen, option, tokens, values).Taken?
    ensures NoEnd(tokens) ==> NoEnd(ReadArgument(allow, isLong, equalSeen, option, tokens, values).rest)
    ensures var r := ReadArgument(allow, isLong, equalSeen, option, tokens, values);
            match argument
            case Present(text) =>
              && WithoutEquals(tokens) == [Token(Value, text)] + WithoutEquals(r.rest)
              && option.semantics.parse(text).Present?
              && r.values == Store(values, option.key, OptionValue(option.semantics.parse(text).value, text, false))
            case Absent =>
              && WithoutEquals(tokens) == WithoutEquals(r.rest)
              && option.semantics.implicitValue.Present?
              && var v := option.semantics.implicitValue.value;
              && r.values == Store(values, option.key, OptionValue(v.value, v.text, false))
              && (r.rest != [] && r.rest[0].kind == Value ==> option.semantics.parse(r.rest[0].text).Absent?)
    decreases |tokens|
  {
    argument := Absent;
    if isLong && tokens != [] && tokens[0].kind == EqualSign {
      argument := ArgumentAccount(allow, isLong, true, option, tokens[1..], values);
      assert WithoutEquals(tokens) == WithoutEquals(tokens[1..]);
    } else if tokens != [] && tokens[0].kind == Value && option.semantics.parse(tokens[0].text).Present? {
      argument := Present(tokens[0].text);
      SkippedEquals(tokens[1..]);
    }
  }

  lemma {:induction false} OccurrenceInFront(command: Command, item: Item, items: seq<Item>, key: string)
    requires ValidItem(command, item) && ValidItems(command, items)
    ensures ValidItems(command, [item] + items)
    ensures Unparse([item] + items) == TokensOfItem(item) + Unparse(items)
    ensures PositionalTexts([item] + items) == (if item.Positional? then [item.text] else []) + PositionalTexts(items)
    ensures ValuesUnder(command, [item] + items, key)
         == (if item.Occurrence? && item.option.key == key then [ValueOf(item)] else [])
            + ValuesUnder(command, items, key)
  {
    assert ([item] + items)[1..] == items;
  }

  // ---- All options ------------------------------------------------------------------

  /** `items` accounts for reading `tokens` from one store to another. */
  ghost predicate Accounts(
    command: Command, tokens: seq<Token>, items: seq<Item>,
    before: seq<string>, values: ValuesMap, after: seq<string>, taken: ValuesMap)
  {
    && ValidItems(command, items)
    && WithoutEquals(tokens) == Unparse(items)
    && after == before + PositionalTexts(items)
    && (NoEmptyEntries(values) ==> NoEmptyEntries(taken))
    && forall key :: ValuesAt(taken, key) == ValuesAt(values, key) + ValuesUnder(command, items, key)
  }

  lemma {:induction false} KeptToken(tokens: seq<Token>)
    requires tokens != [] && tokens[0].kind != EqualSign
    ensures WithoutEquals(tokens) == [tokens[0]] + WithoutEquals(tokens[1..])
  {
  }

  lemma {:induction false} StoredAt(values: ValuesMap, stored: string, value: OptionValue, key: string)
    ensures ValuesAt(Store(values, stored, value), key) == ValuesAt(values, key) + if key == stored then [value] else []
    ensures NoEmptyEntries(values) ==> NoEmptyEntries(Store(values, stored, value))
  {
  }

  lemma {:induction false} AccountPositional(
    command: Command, tokens: seq<Token>, items: seq<Item>,
    before: seq<string>, values: ValuesMap, after: seq<string>, taken: ValuesMap)
    requires tokens != [] && tokens[0].kind == Value
    requires Accounts(command, tokens[1..], items, before + [tokens[0].text], values, after, taken)
    ensures Accounts(command, tokens, [Positional(tokens[0].text)] + items, before, values, after, taken)
  {
    hide Unparse, WithoutEquals, PositionalTexts, ValuesUnder, ValidItems, NoEmptyEntries, ValuesAt;
    var item := Positional(tokens[0].text);
    KeptToken(tokens);
    OccurrenceInFront(command, item, items, "");
    forall key
      ensures ValuesAt(taken, key) == ValuesAt(values, key) + ValuesUnder(command, [item] + items, key)
    {
      OccurrenceInFront(command, item, items, key);
      assert [] + ValuesUnder(command, items, key) == ValuesUnder(command, items, key);
    }
    assert tokens[0] == Token(Value, tokens[0].text);
    assert before + [item.text] + PositionalTexts(items) == before + ([item.text] + PositionalTexts(items));
  }

  lemma {:induction false} AccountOccurrence(
    command: Command, tokens: seq<Token>, item: Item, rest: seq<Token>, items: seq<Item>,
    before: seq<string>, values: ValuesMap, stored: ValuesMap, after: seq<string>, taken: ValuesMap)
    requires item.Occurrence? && ValidItem(command, item)
    requires WithoutEquals(tokens) == TokensOfItem(item) + WithoutEquals(rest)
    requires stored == Store(values, item.option.key, ValueOf(item))
    requires Accounts(command, rest, items, before, stored, after, taken)
    ensures Accounts(command, tokens, [item] + items, before, values, after, taken)
  {
    hide Unparse, WithoutEquals, PositionalTexts, ValuesUnder, ValidItems, NoEmptyEntries, ValuesAt, Store,
      TokensOfItem;
    OccurrenceInFront(command, item, items, "");
    StoredAt(values, item.option.key, ValueOf(item), "");
    forall key
      ensures ValuesAt(taken, key) == ValuesAt(values, key) + ValuesUnder(command, [item] + items, key)
    {
      OccurrenceInFront(command, item, items, key);
      StoredAt(values, item.option.key, ValueOf(item), key);
      var own := if item.option.key == key then [ValueOf(item)] else [];
      assert ValuesAt(values, key) + own + ValuesUnder(command, items, key)
          == ValuesAt(values, key) + (own + ValuesUnder(command, items, key));
    }
    assert [] + PositionalTexts(items) == PositionalTexts(items);
  }

  lemma {:induction false} NothingToAccount(command: Command, positionals: seq<string>, values: ValuesMap)
    ensures Accounts(command, [], [], positionals, values, positionals, values)
  {
    assert positionals + [] == positionals;
  }

  lemma {:induction false} AllowedPositional(text: string, items: seq<Item>, values: ValuesMap)
    ensures Allowed([Positional(text)] + items, values) <==> Allowed(items, values)
  {
    var all := [Positional(text)] + items;
    if Allowed(all, values) {
      forall i | 0 <= i < |items| && items[i].Occurrence? && !items[i].option.semantics.repeatable
        ensures ValuesAt(values, items[i].option.key) == []
        ensures forall j :: 0 <= j < i && items[j].Occurrence? ==> items[j].option.key != items[i].option.key
      {
        assert all[i + 1] == items[i];
        assert forall j :: 0 <= j < i ==> all[j + 1] == items[j];
      }
    }
  }

  lemma {:induction false} AllowedOccurrence(item: Item, value: OptionValue, items: seq<Item>, values: ValuesMap)
    requires item.Occurrence?
    ensures Allowed([item] + items, values)
            <==> CheckMultipleOccurrence(item.option, values) && Allowed(items, Store(values, item.option.key, value))
  {
    var all := [item] + items;
    var next := Store(values, item.option.key, value);
    if Allowed(all, values) {
      assert all[0] == item;
      forall i | 0 <= i < |items| && items[i].Occurrence? && !items[i].option.semantics.repeatable
        ensures ValuesAt(next, items[i].option.key) == []
        ensures forall j :: 0 <= j < i && items[j].Occurrence? ==> items[j].option.key != items[i].option.key
      {
        assert all[i + 1] == items[i];
        assert forall j :: 0 <= j < i ==> all[j + 1] == items[j];
      }
    }
    if CheckMultipleOccurrence(item.option, values) && Allowed(items, next) {
      forall i | 0 <= i < |all| && all[i].Occurrence? && !all[i].option.semantics.repeatable
        ensures ValuesAt(values, all[i].option.key) == []
        ensures forall j :: 0 <= j < i && all[j].Occurrence? ==> all[j].option.key != all[i].option.key
      {
        if i > 0 {
          assert all[i] == items[i - 1];
          assert ValuesAt(next, all[i].option.key) == [];
          assert forall j :: 0 < j < i ==> all[j] == items[j - 1];
        }
      }
    }
  }

  lemma {:induction false} AllowNothing(values: ValuesMap)
    ensures Allowed([], values)
  {
  }

  /** Reading options to the end of the line accounts for every token. */
  lemma {:induction false} OptionsAccount(
    allow: bool, command: Command, tokens: seq<Token>, positionals: seq<string>, values: ValuesMap)
    returns (items: seq<Item>)
    requires NoEnd(tokens)
    requires ReadOptions(allow, command, tokens, positionals, values).AtEnd?
    ensures var r := ReadOptions(allow, command, tokens, positionals, values);
            Accounts(command, tokens, items, positionals, values, r.positionals, r.values)
    ensures Greedy(items) && StartsLike(items, tokens) && Allowed(items, values)
    decreases |tokens|
  {
    hide Allowed, Accounts, ReadArgument, Resolve, CheckMultipleOccurrence, WithoutEquals, Store, Unparse,
      PositionalTexts, ValuesUnder;
    var r := ReadOptions(allow, command, tokens, positionals, values);
    if tokens == [] {
      NothingToAccount(command, positionals, values);
      assert Allowed([], values) by {
        AllowNothing(values);
      }
      return [];
    }
    var flag, rest := tokens[0], tokens[1..];
    assert flag.kind != EndOfInput;
    if flag.kind == Value {
      items := OptionsAccount(allow, command, rest, positionals + [flag.text], values);
      AccountPositional(command, tokens, items, positionals, values, r.positionals, r.values);
      AllowedPositional(flag.text, items, values);
      items := [Positional(flag.text)] + items;
    } else {
      var option := Resolve(command, flag).value;
      var read := ReadArgument(allow, flag.kind == LongOption, false, option, rest, values);
      var argument := ArgumentAccount(allow, flag.kind == LongOption, false, option, rest, values);
      items := OptionsAccount(allow, command, read.rest, positionals, read.values);
      var item := Occurrence(option, flag, argument);
      KeptToken(tokens);
      assert [flag] + WithoutEquals(read.rest)
          == TokensOfItem(Occurrence(option, flag, Absent)) + WithoutEquals(read.rest);
      AccountOccurrence(
        command, tokens, item, read.rest, items, positionals, values, read.values, r.positionals, r.values);
      AllowedOccurrence(item, ValueOf(item), items, values);
      items := [item] + items;
    }
  }

  // ---- Words --------------------------------------------------------------------

  lemma {:induction false} LeadingValueAt(tokens: seq<Token>, i: nat)
    requires i < |LeadingValues(tokens)|
    ensures tokens[i] == Token(Value, LeadingValues(tokens)[i])
  {
    if i > 0 {
      LeadingValueAt(tokens[1..], i - 1);
    }
  }

  lemma {:induction false} SplitWords(tokens: seq<Token>, n: nat)
    requires n <= |LeadingValues(tokens)|
    ensures tokens == ValueTokens(LeadingValues(tokens)[..n]) + tokens[n..]
  {
    hide LeadingValues;
    forall i | 0 <= i < n
      ensures tokens[i] == Token(Value, LeadingValues(tokens)[i])
    {
      LeadingValueAt(tokens, i);
    }
  }

  lemma {:induction false} ValueTokensStep(words: seq<string>, rest: seq<Token>)
    requires words != []
    ensures ValueTokens(words) + rest == [Token(Value, words[0])] + (ValueTokens(words[1..]) + rest)
  {
  }

  lemma {:induction false} WordsLead(path: seq<string>, rest: seq<Token>)
    ensures LeadingValues(ValueTokens(path) + rest) == path + LeadingValues(rest)
    decreases |path|
  {
    if path == [] {
      assert ValueTokens(path) + rest == rest && path + LeadingValues(rest) == LeadingValues(rest);
    } else {
      ValueTokensStep(path, rest);
      hide ValueTokens;
      var behind := ValueTokens(path[1..]) + rest;
      WordsLead(path[1..], rest);
      assert ([Token(Value, path[0])] + behind)[1..] == behind;
      assert path + LeadingValues(rest) == [path[0]] + (path[1..] + LeadingValues(rest));
    }
  }

  lemma {:induction false} WordsKept(words: seq<string>, rest: seq<Token>)
    ensures WithoutEquals(ValueTokens(words) + rest) == ValueTokens(words) + WithoutEquals(rest)
    decreases |words|
  {
    if words == [] {
      assert ValueTokens(words) + rest == rest && ValueTokens(words) + WithoutEquals(rest) == WithoutEquals(rest);
    } else {
      ValueTokensStep(words, rest);
      ValueTokensStep(words, WithoutEquals(rest));
      hide ValueTokens, WithoutEquals;
      WordsKept(words[1..], rest);
      var behind := ValueTokens(words[1..]) + rest;
      KeptToken([Token(Value, words[0])] + behind);
      assert ([Token(Value, words[0])] + behind)[1..] == behind;
    }
  }

  lemma {:induction false} ReadsPositional(
    allow: bool, command: Command, text: string, rest: seq<Token>, positionals: seq<string>, values: ValuesMap)
    ensures ReadOptions(allow, command, [Token(Value, text)] + rest, positionals, values)
         == ReadOptions(allow, command, rest, positionals + [text], values)
  {
    var tokens := [Token(Value, text)] + rest;
    assert tokens[1..] == rest;
  }

  /** Words in front of the rest of the line all become positional tokens. */
  lemma {:induction false} WordsAreRead(
    allow: bool, command: Command, words: seq<string>, rest: seq<Token>, positionals: seq<string>, values: ValuesMap)
    ensures ReadOptions(allow, command, ValueTokens(words) + rest, positionals, values)
         == ReadOptions(allow, command, rest, positionals + words, values)
    decreases |words|
  {
    if words == [] {
      assert ValueTokens(words) + rest == rest && positionals + words == positionals;
    } else {
      ValueTokensStep(words, rest);
      hide ValueTokens, ReadOptions;
      ReadsPositional(allow, command, words[0], ValueTokens(words[1..]) + rest, positionals, values);
      WordsAreRead(allow, command, words[1..], rest, positionals + [words[0]], values);
      assert positionals + [words[0]] + words[1..] == positionals + words;
    }
  }

  // ---- The reading is the only one -----------------------------------------------------

  lemma {:induction false} UnparseFront(item: Item, items: seq<Item>)
    ensures Unparse([item] + items) == TokensOfItem(item) + Unparse(items)
  {
    assert ([item] + items)[1..] == items;
  }

  /** Printed items never start with an `=`, and with a value only for a positional. */
  lemma {:induction false} UnparseStart(command: Command, items: seq<Item>)
    requires ValidItems(command, items)
    ensures items == [] ==> Unparse(items) == []
    ensures items != [] ==>
              && Unparse(items) != []
              && Unparse(items)[0] == (if items[0].Positional? then Token(Value, items[0].text) else items[0].flag)
              && Unparse(items)[0].kind != EqualSign && Unparse(items)[0].kind != EndOfInput
  {
    if items != [] {
      assert ValidItem(command, items[0]);
    }
  }

  lemma {:induction false} GreedyBehind(item: Item, items: seq<Item>)
    requires Greedy([item] + items)
    ensures Greedy(items)
  {
    var all := [item] + items;
    forall i | 0 <= i < |items| - 1 && items[i].Occurrence? && items[i].argument.Absent? && items[i + 1].Positional?
      ensures items[i].option.semantics.parse(items[i + 1].text).Absent?
    {
      assert all[i + 1] == items[i] && all[i + 1 + 1] == items[i + 1];
    }
  }

  lemma {:induction false} UnparseBehind(items: seq<Item>)
    requires items != []
    ensures items[0].Positional? || items[0].argument.Absent? ==> Unparse(items[1..]) == Unparse(items)[1..]
    ensures items[0].Occurrence? && items[0].argument.Present? ==>
              |Unparse(items)| > 1 && Unparse(items)[1] == Token(Value, items[0].argument.value)
              && Unparse(items[1..]) == Unparse(items)[2..]
  {
    hide Unparse;
    UnparseFront(items[0], items[1..]);
    assert [items[0]] + items[1..] == items;
  }

  lemma {:induction false} NextIsPositional(command: Command, items: seq<Item>, text: string)
    requires ValidItems(command, items)
    requires items != [] && items[0].Occurrence? && items[0].argument.Absent?
    requires |Unparse(items)| > 1 && Unparse(items)[1] == Token(Value, text)
    ensures |items| > 1 && items[1] == Positional(text)
  {
    UnparseBehind(items);
    UnparseStart(command, items[1..]);
    hide Unparse;
    var rest := items[1..];
    if rest != [] {
      assert rest[0] == items[1] && ValidItem(command, rest[0]);
    }
  }

  /** A value that one greedy reading takes for an option, no other leaves to a positional. */
  lemma {:induction false} ArgumentIsTaken(command: Command, items: seq<Item>, others: seq<Item>)
    requires ValidItems(command, items) && ValidItems(command, others) && Greedy(others)
    requires items != [] && others != [] && Unparse(items) == Unparse(others)
    requires items[0].Occurrence? && others[0].Occurrence? && items[0].option == others[0].option
    requires items[0].argument.Present?
    ensures others[0].argument.Present?
  {
    hide Unparse;
    assert ValidItem(command, items[0]);
    UnparseBehind(items);
    if others[0].argument.Absent? {
      NextIsPositional(command, others, items[0].argument.value);
    }
  }

  lemma {:induction false} FirstItemIsUnique(command: Command, items: seq<Item>, others: seq<Item>)
    requires ValidItems(command, items) && ValidItems(command, others) && Greedy(items) && Greedy(others)
    requires items != [] && others != [] && Unparse(items) == Unparse(others)
    ensures items[0] == others[0] && Unparse(items[1..]) == Unparse(others[1..])
  {
    hide Unparse, Greedy;
    assert ValidItem(command, items[0]) && ValidItem(command, others[0]);
    UnparseStart(command, items);
    UnparseStart(command, others);
    UnparseBehind(items);
    UnparseBehind(others);
    if items[0].Occurrence? {
      if items[0].argument.Present? {
        ArgumentIsTaken(command, items, others);
      } else if others[0].argument.Present? {
        ArgumentIsTaken(command, others, items);
      }
    }
  }

  /** Two greedy readings of the same tokens for one command are the same reading. */
  lemma {:induction false} ItemsAreUnique(command: Command, items: seq<Item>, others: seq<Item>)
    requires ValidItems(command, items) && ValidItems(command, others) && Greedy(items) && Greedy(others)
    requires Unparse(items) == Unparse(others)
    ensures items == others
    decreases |items|
  {
    hide Unparse, Greedy;
    UnparseStart(command, items);
    UnparseStart(command, others);
    if items != [] && others != [] {
      FirstItemIsUnique(command, items, others);
      assert items == [items[0]] + items[1..] && others == [others[0]] + others[1..];
      GreedyBehind(items[0], items[1..]);
      GreedyBehind(others[0], others[1..]);
      ItemsAreUnique(command, items[1..], others[1..]);
    }
  }
}
