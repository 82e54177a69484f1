/** What whole runs come to, told in the terms of the options themselves. */
module RunResults {
  import opened Optionals
  import opened Tokens
  import opened Commands
  import opened OptionValues
  import opened Semantics
  import opened Grammar
  import opened Finalization
  import opened Refinement
  import opened Readings
  import opened Conservation
  import opened FinalValues

  // ---- The values of a successful run ----------------------------------------------

  /** Under the key there is an entry with this value, given by this text. */
  ghost predicate HasEntry(values: ValuesMap, key: string, value: AnyValue, text: string) {
    exists i :: 0 <= i < |ValuesAt(values, key)|
                && ValuesAt(values, key)[i].value == value && ValuesAt(values, key)[i].originalToken == text
  }

  lemma {:induction false} EntryUnder(command: Command, items: seq<Item>, i: nat)
    requires ValidItems(command, items) && i < |items| && items[i].Occurrence?
    ensures ValidItem(command, items[i]) && ValueOf(items[i]) in ValuesUnder(command, items, items[i].option.key)
    decreases i
  {
    assert ValidItem(command, items[i]);
    if i > 0 {
      EntryUnder(command, items[1..], i - 1);
    }
  }

  /** Every occurrence has left its entry: the value it came with, or the implicit one. */
  ghost predicate OccurrencesStored(items: seq<Item>, values: ValuesMap) {
    forall i :: 0 <= i < |items| && items[i].Occurrence? ==>
                  var option := items[i].option;
                  match items[i].argument
                  case Present(text) =>
                    && option.semantics.parse(text).Present?
                    && HasEntry(values, option.key, option.semantics.parse(text).value, text)
                  case Absent =>
                    && option.semantics.implicitValue.Present?
                    && HasEntry(values, option.key, option.semantics.implicitValue.value.value,
                                option.semantics.implicitValue.value.text)
  }

  /** A key that nothing on the line uses holds the default of an option, alone. */
  ghost predicate OthersAreDefaults(command: Command, items: seq<Item>, values: ValuesMap) {
    forall key ::
      && key in values
      && (forall i :: 0 <= i < |items| && items[i].Occurrence? ==> items[i].option.key != key)
      && (forall o :: o in command.positionals ==> o.key != key) ==>
        exists o :: && o in command.options && o.key == key && o.semantics.defaultValue.Present?
                    && |values[key]| == 1
                    && values[key][0].value == o.semantics.defaultValue.value.value
                    && values[key][0].originalToken == o.semantics.defaultValue.value.text
  }

  lemma {:induction false} EntryIn(values: ValuesMap, key: string, entry: OptionValue)
    requires entry in ValuesAt(values, key)
    ensures HasEntry(values, key, entry.value, entry.originalToken)
  {
  }

  lemma {:induction false} GivenIsKept(
    command: Command, items: seq<Item>, positionals: seq<string>, given: ValuesMap, final: ValuesMap)
    requires GivenBy(command, items, positionals, given)
    requires forall key :: key in given ==> key in final && final[key] == given[key]
    ensures OccurrencesStored(items, final)
  {
    hide ValuesUnder, Parsed, Receivers, Received, ValidItems, HasEntry;
    forall i | 0 <= i < |items| && items[i].Occurrence?
      ensures ValidItem(command, items[i])
      ensures HasEntry(final, items[i].option.key, ValueOf(items[i]).value, ValueOf(items[i]).originalToken)
    {
      var key := items[i].option.key;
      EntryUnder(command, items, i);
      assert ValueOf(items[i]) in ValuesAt(given, key);
      assert ValuesAt(final, key) == ValuesAt(given, key);
      EntryIn(final, key, ValueOf(items[i]));
    }
  }

  lemma {:induction false} NothingUnder(command: Command, items: seq<Item>, key: string)
    requires ValidItems(command, items)
    requires forall i :: 0 <= i < |items| && items[i].Occurrence? ==> items[i].option.key != key
    ensures ValuesUnder(command, items, key) == []
    decreases |items|
  {
    if items != [] {
      NothingUnder(command, items[1..], key);
    }
  }

  lemma {:induction false} NothingParsed(options: seq<Option>, tokens: seq<string>, key: string)
    requires |options| == |tokens| && forall o :: o in options ==> o.key != key
    ensures Parsed(options, tokens, key) == []
    decreases |options|
  {
    if options != [] {
      assert options[0] in options;
      NothingParsed(options[1..], tokens[1..], key);
    }
  }

  lemma {:induction false} RepeatedWithin(option: Option, count: nat)
    ensures forall o :: o in Repeated(option, count) ==> o == option
  {
    if count > 0 {
      RepeatedWithin(option, count - 1);
    }
  }

  lemma {:induction false} ReceiversWithin(command: Command, count: nat)
    requires |BeforeRest(command.positionals)| + |AfterRest(command.positionals)| <= count
    ensures forall o :: o in Receivers(command, count) ==> o in command.positionals
  {
    PartsOfPositionals(command.positionals);
    var rest := LastRest(command.positionals, Absent);
    if rest.Present? {
      RepeatedWithin(
        rest.value, count - |BeforeRest(command.positionals)| - |AfterRest(command.positionals)|);
    }
    hide BeforeRest, AfterRest, LastRest, Repeated;
  }

  lemma {:induction false} KeyNotGiven(
    command: Command, items: seq<Item>, positionals: seq<string>, given: ValuesMap, key: string)
    requires GivenBy(command, items, positionals, given) && NoEmptyEntries(given)
    requires forall i :: 0 <= i < |items| && items[i].Occurrence? ==> items[i].option.key != key
    requires forall o :: o in command.positionals ==> o.key != key
    ensures key !in given
  {
    var receivers, received := Receivers(command, |positionals|), Received(command, positionals);
    NothingUnder(command, items, key);
    ReceiversWithin(command, |positionals|);
    NothingParsed(receivers, received, key);
    hide ValuesUnder, Parsed, Receivers, Received, ValidItems;
    assert ValuesAt(given, key) == [];
  }

  lemma {:induction false} DefaultEntry(command: Command, key: string, entry: seq<OptionValue>)
    requires IsDefaultEntry(command.options + command.positionals, key, entry)
    requires forall o :: o in command.positionals ==> o.key != key
    ensures exists o :: && o in command.options && o.key == key && o.semantics.defaultValue.Present?
                        && |entry| == 1
                        && entry[0].value == o.semantics.defaultValue.value.value
                        && entry[0].originalToken == o.semantics.defaultValue.value.text
  {
    var all := command.options + command.positionals;
    var i :| 0 <= i < |all| && IsFirstDefault(all, key, i)
             && var v := all[i].semantics.defaultValue.value; entry == [OptionValue(v.value, v.text, false)];
    assert all[i] in all && all[i] in command.options;
  }

  lemma {:induction false} StoreAllNoEmpty(options: seq<Option>, tokens: seq<string>, values: ValuesMap)
    requires |options| == |tokens| && NoEmptyEntries(values)
    ensures NoEmptyEntries(StoreAll(options, tokens, values))
    decreases |options|
  {
    if options != [] {
      StoreAllNoEmpty(options[1..], tokens[1..], StorePositional(options[0], tokens[0], values));
    }
  }

  /** Whatever is on a line that parses: every occurrence has left the value it came with
      or its implicit value, and a key that nothing on the line uses holds a default. */
  lemma {:induction false} ValuesOfSuccess(
    commands: seq<Command>, allow: bool, tokens: seq<Token>, a: Account, positionals: seq<string>, values: ValuesMap)
    requires NoEnd(tokens) && Succeeds(Run(Start(commands, allow), tokens))
    requires AccountsFor(commands, tokens, a, positionals, values)
    ensures OccurrencesStored(a.items, Run(Start(commands, allow), tokens).values)
    ensures OthersAreDefaults(a.command, a.items, Run(Start(commands, allow), tokens).values)
  {
    MachineRefinesGrammar(commands, allow, tokens);
    LineEndings(commands, allow, tokens);
    var line := ReadLine(commands, allow, tokens);
    var b := LineAccount(commands, allow, tokens);
    AccountIsUnique(commands, tokens, a, positionals, values, b, line.positionals, line.values);
    CompletedValues(commands, tokens, a, positionals, values);
    hide Run, Start, ReadLine, Complete, AccountsFor, OccurrencesStored, OthersAreDefaults;
  }

  lemma {:induction false} CompletedValues(
    commands: seq<Command>, tokens: seq<Token>, a: Account, positionals: seq<string>, values: ValuesMap)
    requires AccountsFor(commands, tokens, a, positionals, values)
    requires Succeeds(Complete(a.command, positionals, values))
    ensures var final := Complete(a.command, positionals, values).values;
            OccurrencesStored(a.items, final) && OthersAreDefaults(a.command, a.items, final)
  {
    var final := Complete(a.command, positionals, values).values;
    FitsOnSuccess(a.command, positionals, values);
    PositionalsAllocated(a.command, positionals, values);
    var given := GivenFromAccount(commands, tokens, a, positionals, values);
    CheckDefaults(a.command.options + a.command.positionals, given);
    assert NoEmptyEntries(values);
    StoreAllNoEmpty(Receivers(a.command, |positionals|), Received(a.command, positionals), values);
    hide Complete, AccountsFor, GivenBy, CheckRequired, StoreAll, IsDefaultEntry, NoEmptyEntries, HasEntry,
      OccurrencesStored;
    GivenIsKept(a.command, a.items, positionals, given, final);
    forall key | && key in final
                 && (forall i :: 0 <= i < |a.items| && a.items[i].Occurrence? ==> a.items[i].option.key != key)
                 && (forall o :: o in a.command.positionals ==> o.key != key)
      ensures exists o :: && o in a.command.options && o.key == key && o.semantics.defaultValue.Present?
                          && |final[key]| == 1
                          && final[key][0].value == o.semantics.defaultValue.value.value
                          && final[key][0].originalToken == o.semantics.defaultValue.value.text
    {
      KeyNotGiven(a.command, a.items, positionals, given, key);
      DefaultEntry(a.command, key, final[key]);
    }
  }

  // ---- Required options ------------------------------------------------------------------

  /** A missing required option is reported exactly when a line that is read to its end
      has the right number of positional tokens, and they, the options on the line and the
      defaults leave a required option without a value. */
  lemma {:induction false} MissingRequiredExactly(commands: seq<Command>, allow: bool, tokens: seq<Token>)
    requires NoEnd(tokens)
    ensures var ending := Run(Start(commands, allow), tokens);
            (ending.Finished? && ending.verdict == Error(MissingRequiredOption))
            <==> match ReadLine(commands, allow, tokens)
                 case Reached(command, positionals, values) => LeavesMissing(command, positionals, values)
                 case Stopped(_) => false
  {
    MachineRefinesGrammar(commands, allow, tokens);
    LineEndings(commands, allow, tokens);
    var line := ReadLine(commands, allow, tokens);
    if line.Reached? {
      CompleteMissing(line.command, line.positionals, line.values);
    } else {
      assert !EntersFinal(line.ending);
    }
    hide Run, Start, ReadLine, Complete, LeavesMissing;
  }

  ghost predicate LeavesMissing(command: Command, positionals: seq<string>, values: ValuesMap) {
    && Fits(command, positionals)
    && |Receivers(command, |positionals|)| == |Received(command, positionals)|
    && var given := StoreAll(Receivers(command, |positionals|), Received(command, positionals), values);
       var all := command.options + command.positionals;
       exists i :: 0 <= i < |all| && Missing(all, given, i)
  }

  lemma {:induction false} CompleteMissing(command: Command, positionals: seq<string>, values: ValuesMap)
    ensures var ending := Complete(command, positionals, values);
            (ending.Finished? && ending.verdict == Error(MissingRequiredOption))
            <==> LeavesMissing(command, positionals, values)
  {
    if Fits(command, positionals) {
      PositionalsAllocated(command, positionals, values);
      var given := StoreAll(Receivers(command, |positionals|), Received(command, positionals), values);
      CheckFailsExactly(command.options + command.positionals, given);
      hide Complete, Fits;
    } else {
      NotFitting(command, positionals, values);
      hide Complete, Fits;
    }
    hide CheckRequired, StoreAll, Receivers, Received, Missing;
  }

  lemma {:induction false} NotFitting(command: Command, positionals: seq<string>, values: ValuesMap)
    requires !Fits(command, positionals)
    ensures Complete(command, positionals, values).Faulted?
            || Complete(command, positionals, values).verdict == Error(UnexpectedPositionalArguments)
  {
    AllUnnamed(command.positionals);
    UnexpectedExactly(command, positionals, values);
    hide StoreAll, StoreEach, CheckRequired, Unnamed, BeforeRest, AfterRest, LastRest, Reverse;
  }

  // ---- Positional arguments, in terms of their names and keys ------------------------------

  ghost predicate IsPlain(option: Option) {
    option.shortName == "" && option.longName == "" && option.key != "_REST_"
  }

  ghost predicate ArePlain(options: seq<Option>) {
    forall o :: o in options ==> IsPlain(o)
  }

  lemma {:induction false} PlainOptions(options: seq<Option>)
    requires ArePlain(options)
    ensures WithoutRest(options) == options && RestPosition(options) == |options|
    ensures LastRest(options, Absent) == Absent
  {
    if options != [] {
      assert options[0] in options && IsPlain(options[0]);
      PlainOptions(options[1..]);
    }
  }

  lemma {:induction false} PlainThenRest(before: seq<Option>, rest: Option, after: seq<Option>)
    requires ArePlain(before) && ArePlain(after)
    requires rest.shortName == "" && rest.longName == "" && rest.key == "_REST_"
    ensures var all := before + [rest] + after;
            && RestPosition(all) == |before| && LastRest(all, Absent) == Present(rest)
  {
    var all := before + [rest] + after;
    if before == [] {
      assert all[0] == rest && all[1..] == after;
      LastRestOfPlain(after, Present(rest));
    } else {
      assert before[0] in before && IsPlain(before[0]);
      assert all[0] == before[0] && all[1..] == before[1..] + [rest] + after;
      PlainThenRest(before[1..], rest, after);
    }
  }

  lemma {:induction false} LastRestOfPlain(options: seq<Option>, previous: Optional<Option>)
    requires ArePlain(options)
    ensures LastRest(options, previous) == previous
    decreases |options|
  {
    if options != [] {
      assert options[0] in options && IsPlain(options[0]);
      LastRestOfPlain(options[1..], previous);
    }
  }

  lemma {:induction false} PartsOfPlain(before: seq<Option>, rest: Option, after: seq<Option>)
    requires ArePlain(before) && ArePlain(after)
    requires rest.shortName == "" && rest.longName == "" && rest.key == "_REST_"
    ensures var all := before + [rest] + after;
            && BeforeRest(all) == before && AfterRest(all) == after && LastRest(all, Absent) == Present(rest)
            && |Unnamed(all)| == |all|
  {
    var all := before + [rest] + after;
    PlainThenRest(before, rest, after);
    PlainOptions(after);
    assert all[|before|..] == [rest] + after;
    assert ([rest] + after)[1..] == after;
    assert AllPositional(all);
    AllUnnamed(all);
    hide Unnamed, RestPosition, LastRest;
  }

  /** A line of words for a default command: the first ones go in order to the positional
      arguments in front of the one with key `_REST_`, the last ones in reverse order to
      those behind it, and that one gets the middle. */
  lemma {:induction false} WordsAllocated(
    commands: seq<Command>, allow: bool, command: Command, words: seq<string>,
    before: seq<Option>, rest: Option, after: seq<Option>)
    requires FirstDefault(commands) == Present(command) && (words != [] ==> !Extends(commands, words[..1]))
    requires command.positionals == before + [rest] + after && ArePlain(before) && ArePlain(after)
    requires rest.shortName == "" && rest.longName == "" && rest.key == "_REST_"
    requires |before| + |after| <= |words|
    ensures var tail := |words| - |after|;
            var given := StoreAll(
              before + after + Repeated(rest, tail - |before|),
              words[..|before|] + Reverse(words[tail..]) + words[|before|..tail], map[]);
            var check := CheckRequired(command.options + command.positionals, given);
            Run(Start(commands, allow), ValueTokens(words)) ==
            Finished(if check.passed then Success else Error(MissingRequiredOption), Present(command), [], check.values)
  {
    WordsReceived(command, words, before, rest, after);
    WordsLine(commands, allow, command, words);
    hide Run, Start, ValueTokens, Complete, CheckRequired, StoreAll, Reverse, Repeated, Fits, Receivers, Received,
      ArePlain, Extends, FirstDefault;
    PositionalsAllocated(command, words, map[]);
  }

  lemma {:induction false} WordsReceived(
    command: Command, words: seq<string>, before: seq<Option>, rest: Option, after: seq<Option>)
    requires command.positionals == before + [rest] + after && ArePlain(before) && ArePlain(after)
    requires rest.shortName == "" && rest.longName == "" && rest.key == "_REST_"
    requires |before| + |after| <= |words|
    ensures Fits(command, words)
    ensures var tail := |words| - |after|;
            && Receivers(command, |words|) == before + after + Repeated(rest, tail - |before|)
            && Received(command, words) == words[..|before|] + Reverse(words[tail..]) + words[|before|..tail]
  {
    PartsOfPlain(before, rest, after);
    hide Reverse, Repeated, Unnamed, BeforeRest, AfterRest, LastRest, ArePlain;
  }

  /** Without such an argument a line of words parses only if there are no more words than
      positional arguments. */
  lemma {:induction false} WordsUnexpected(
    commands: seq<Command>, allow: bool, command: Command, words: seq<string>)
    requires FirstDefault(commands) == Present(command) && (words != [] ==> !Extends(commands, words[..1]))
    requires ArePlain(command.positionals)
    ensures var ending := Run(Start(commands, allow), ValueTokens(words));
            (ending.Finished? && ending.verdict == Error(UnexpectedPositionalArguments))
            <==> |words| > |command.positionals|
  {
    PlainOptions(command.positionals);
    assert AllPositional(command.positionals);
    AllUnnamed(command.positionals);
    WordsLine(commands, allow, command, words);
    UnexpectedExactly(command, words, map[]);
    hide Run, Start, Complete, Unnamed, LastRest;
  }

  lemma {:induction false} WordsLine(commands: seq<Command>, allow: bool, command: Command, words: seq<string>)
    requires FirstDefault(commands) == Present(command) && (words != [] ==> !Extends(commands, words[..1]))
    ensures Run(Start(commands, allow), ValueTokens(words)) == Complete(command, words, map[])
  {
    var tokens := ValueTokens(words);
    WordsLead(words, []);
    assert tokens + [] == tokens && words + [] == words;
    MachineRefinesGrammar(commands, allow, tokens);
    if words != [] {
      CollectedNothing(commands, words);
    }
    assert words == [] ==> Collected(commands, words) == 0;
    WordsAreRead(allow, command, words, [], [], map[]);
    assert [] + words == words;
    EndRead(allow, command, words);
    hide Run, Start, Complete, ReadOptions, Collected, Extends, LeadingValues, FirstDefault, ValueTokens;
  }

  lemma {:induction false} EndRead(allow: bool, command: Command, positionals: seq<string>)
    ensures ReadOptions(allow, command, [], positionals, map[]) == AtEnd(positionals, map[])
  {
  }
}
