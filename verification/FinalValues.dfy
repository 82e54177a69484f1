/** The values map at the end of a run: positionals, defaults, required options and
    options that may occur only once. */
module FinalValues {
  import opened Optionals
  import opened Tokens
  import opened Commands
  import opened OptionValues
  import opened Semantics
  import opened Grammar
  import opened Finalization
  import opened Refinement
  import opened Readings
  import opened Conservation

  // ---- Positional tokens -----------------------------------------------------------

  /** The values stored under `key` when token `i` goes to option `i`: one for each
      token of an option with that key that parses. */
  function Parsed(options: seq<Option>, tokens: seq<string>, key: string): seq<OptionValue>
    requires |options| == |tokens|
  {
    if options == [] then []
    else
      (match options[0].semantics.parse(tokens[0])
       case Present(v) => if options[0].key == key then [OptionValue(v, tokens[0], true)] else []
       case Absent => [])
      + Parsed(options[1..], tokens[1..], key)
  }

  function Repeated(option: Option, count: nat): (options: seq<Option>)
    ensures |options| == count
  {
    if count == 0 then [] else [option] + Repeated(option, count - 1)
  }

  lemma {:induction false} StoredPositionalAt(option: Option, token: string, values: ValuesMap, key: string)
    ensures ValuesAt(StorePositional(option, token, values), key)
         == ValuesAt(values, key) + Parsed([option], [token], key)
  {
    assert Parsed([], [], key) == [];
  }

  lemma {:induction false} StoreAllAt(options: seq<Option>, tokens: seq<string>, values: ValuesMap, key: string)
    requires |options| == |tokens|
    ensures ValuesAt(StoreAll(options, tokens, values), key) == ValuesAt(values, key) + Parsed(options, tokens, key)
    decreases |options|
  {
    if options != [] {
      var next := StorePositional(options[0], tokens[0], values);
      StoredPositionalAt(options[0], tokens[0], values, key);
      StoreAllAt(options[1..], tokens[1..], next, key);
      assert Parsed([options[0]], [tokens[0]], key) + Parsed(options[1..], tokens[1..], key)
          == Parsed(options, tokens, key) by {
        assert Parsed([], [], key) == [];
      }
    }
  }

  lemma {:induction false} StoreEachIsStoreAll(option: Option, tokens: seq<string>, values: ValuesMap)
    ensures StoreEach(option, tokens, values) == StoreAll(Repeated(option, |tokens|), tokens, values)
    decreases |tokens|
  {
    if tokens != [] {
      StoreEachIsStoreAll(option, tokens[1..], StorePositional(option, tokens[0], values));
      assert Repeated(option, |tokens|)[1..] == Repeated(option, |tokens| - 1);
    }
  }

  lemma {:induction false} ReversedBag(s: seq<string>)
    ensures multiset(Reverse(s)) == multiset(s)
  {
    if s != [] {
      ReversedBag(s[..|s| - 1]);
      assert s == s[..|s| - 1] + [s[|s| - 1]];
    }
  }

  /** Who receives the positional tokens, and in which order they are stored. */
  function Receivers(command: Command, count: nat): seq<Option>
    requires |BeforeRest(command.positionals)| + |AfterRest(command.positionals)| <= count
  {
    var before, after := BeforeRest(command.positionals), AfterRest(command.positionals);
    before + after +
    match LastRest(command.positionals, Absent)
    case Present(rest) => Repeated(rest, count - |before| - |after|)
    case Absent => []
  }

  function Received(command: Command, positionals: seq<string>): seq<string>
    requires |BeforeRest(command.positionals)| + |AfterRest(command.positionals)| <= |positionals|
  {
    var before, after := |BeforeRest(command.positionals)|, |AfterRest(command.positionals)|;
    var tail := |positionals| - after;
    positionals[..before] + Reverse(positionals[tail..]) + positionals[before..tail]
  }

  /** A run that reaches the end with more tokens than options, and no rest, fails. */
  lemma {:induction false} UnexpectedExactly(command: Command, positionals: seq<string>, values: ValuesMap)
    ensures var ending := Complete(command, positionals, values);
            (ending.Finished? && ending.verdict == Error(UnexpectedPositionalArguments))
            <==> && OnlyUnnamed(command)
                 && LastRest(command.positionals, Absent).Absent?
                 && |positionals| > |BeforeRest(command.positionals)|
    ensures LastRest(command.positionals, Absent).Absent? ==> AfterRest(command.positionals) == []
  {
    AllUnnamed(command.positionals);
    NoRestNoAfter(command.positionals, Absent);
    hide StoreAll, StoreEach, CheckRequired, Unnamed, Reverse;
  }

  lemma {:induction false} NoRestNoAfter(options: seq<Option>, previous: Optional<Option>)
    ensures LastRest(options, previous).Absent? ==> RestPosition(options) == |options| && previous.Absent?
    decreases |options|
  {
    if options != [] {
      NoRestNoAfter(options[1..], if options[0].IsPositionalRest() then Present(options[0]) else previous);
    }
  }

  lemma {:induction false} StoreAllConcat(
    options: seq<Option>, tokens: seq<string>, more: seq<Option>, others: seq<string>, values: ValuesMap)
    requires |options| == |tokens| && |more| == |others|
    ensures StoreAll(options + more, tokens + others, values)
         == StoreAll(more, others, StoreAll(options, tokens, values))
    decreases |options|
  {
    if options == [] {
      assert options + more == more && tokens + others == others;
    } else {
      assert (options + more)[1..] == options[1..] + more;
      assert (tokens + others)[1..] == tokens[1..] + others;
      StoreAllConcat(options[1..], tokens[1..], more, others, StorePositional(options[0], tokens[0], values));
    }
  }

  /** Tokens and options fit: enough tokens, and a rest option or no token too many. */
  predicate Fits(command: Command, positionals: seq<string>) {
    && OnlyUnnamed(command)
    && |BeforeRest(command.positionals)| + |AfterRest(command.positionals)| <= |positionals|
    && (LastRest(command.positionals, Absent).Present? || |positionals| == |BeforeRest(command.positionals)|)
  }

  lemma {:induction false} ReceiversFit(command: Command, positionals: seq<string>)
    requires Fits(command, positionals)
    ensures |Receivers(command, |positionals|)| == |Received(command, positionals)|
  {
    NoRestNoAfter(command.positionals, Absent);
  }

  /** Each positional token is given to exactly one option: in order to those before the
      rest, in reverse order from the end to those after it, the rest gets the middle. */
  lemma {:induction false} PositionalsAllocated(command: Command, positionals: seq<string>, values: ValuesMap)
    requires Fits(command, positionals)
    ensures var receivers, received := Receivers(command, |positionals|), Received(command, positionals);
            && |receivers| == |received|
            && multiset(received) == multiset(positionals)
            && var check := CheckRequired(command.options + command.positionals, StoreAll(receivers, received, values));
               Complete(command, positionals, values) ==
               Finished(
                 if check.passed then Success else Error(MissingRequiredOption), Present(command), [], check.values)
  {
    hide CheckRequired, StoreAll, StoreEach, Repeated, Reverse, Unnamed, BeforeRest, AfterRest, LastRest;
    var before, after := BeforeRest(command.positionals), AfterRest(command.positionals);
    var rest := LastRest(command.positionals, Absent);
    AllUnnamed(command.positionals);
    NoRestNoAfterOf(command);
    ReceivedBag(command, positionals);
    var tail := |positionals| - |after|;
    var front, back, middle := positionals[..|before|], Reverse(positionals[tail..]), positionals[|before|..tail];
    var last := if rest.Present? then Repeated(rest.value, |middle|) else [];
    StoreAllConcat(before, front, after, back, values);
    StoreAllConcat(before + after, front + back, last, middle, values);
    var placed := StoreAll(after, back, StoreAll(before, front, values));
    if rest.Present? {
      StoreEachIsStoreAll(rest.value, middle, placed);
    } else {
      StoreNothing(placed);
    }
  }

  lemma {:induction false} ThreePartsBag(s: seq<string>, i: nat, j: nat)
    requires i <= j <= |s|
    ensures multiset(s) == multiset(s[..i]) + multiset(s[i..j]) + multiset(s[j..])
  {
    assert s == s[..i] + s[i..j] + s[j..];
  }

  lemma {:induction false} SumOfBags(a: seq<string>, b: seq<string>, c: seq<string>)
    ensures multiset(a + b + c) == multiset(a) + multiset(b) + multiset(c)
  {
  }

  lemma {:induction false} ReceivedBag(command: Command, positionals: seq<string>)
    requires |BeforeRest(command.positionals)| + |AfterRest(command.positionals)| <= |positionals|
    ensures multiset(Received(command, positionals)) == multiset(positionals)
  {
    hide Reverse, BeforeRest, AfterRest;
    var before, after := |BeforeRest(command.positionals)|, |AfterRest(command.positionals)|;
    var tail := |positionals| - after;
    ReversedBag(positionals[tail..]);
    ThreePartsBag(positionals, before, tail);
    SumOfBags(positionals[..before], Reverse(positionals[tail..]), positionals[before..tail]);
  }

  lemma {:induction false} StoreNothing(values: ValuesMap)
    ensures StoreAll([], [], values) == values
  {
  }

  lemma {:induction false} NoRestNoAfterOf(command: Command)
    ensures LastRest(command.positionals, Absent).Absent? ==> AfterRest(command.positionals) == []
  {
    NoRestNoAfter(command.positionals, Absent);
  }

  // ---- Defaults and required options ---------------------------------------------------

  /** Some earlier option with the same key brings a default. */
  predicate DefaultBefore(options: seq<Option>, i: nat)
    requires i < |options|
  {
    exists j :: 0 <= j < i && options[j].key == options[i].key && options[j].semantics.defaultValue.Present?
  }

  /** Option `i` is required and nothing, not even a default, gives it a value. */
  predicate Missing(options: seq<Option>, values: ValuesMap, i: nat)
    requires i < |options|
  {
    && options[i].required && options[i].key !in values
    && options[i].semantics.defaultValue.Absent? && !DefaultBefore(options, i)
  }

  lemma {:induction false} CheckKeepsGiven(options: seq<Option>, values: ValuesMap)
    ensures forall key :: key in values ==>
                            key in CheckRequired(options, values).values
                            && CheckRequired(options, values).values[key] == values[key]
    decreases |options|
  {
    if options != [] {
      var option := options[0];
      if option.key in values || option.semantics.defaultValue.Absent? {
        CheckKeepsGiven(options[1..], values);
      } else {
        CheckKeepsGiven(options[1..], Store(values, option.key, Provided(option.semantics.defaultValue.value)));
      }
    }
  }

  /** `entry` is nothing but the default of the first option with this key that has one. */
  ghost predicate IsDefaultEntry(options: seq<Option>, key: string, entry: seq<OptionValue>) {
    exists i :: 0 <= i < |options| && IsFirstDefault(options, key, i)
                && var v := options[i].semantics.defaultValue.value;
                   entry == [OptionValue(v.value, v.text, false)]
  }

  ghost predicate IsFirstDefault(options: seq<Option>, key: string, i: nat)
    requires i < |options|
  {
    && options[i].key == key && options[i].semantics.defaultValue.Present?
    && forall j :: 0 <= j < i && options[j].key == key ==> options[j].semantics.defaultValue.Absent?
  }

  /** The check adds nothing but defaults, one value each. */
  lemma {:induction false} CheckAddsDefaults(options: seq<Option>, values: ValuesMap, key: string)
    requires key !in values && key in CheckRequired(options, values).values
    ensures IsDefaultEntry(options, key, CheckRequired(options, values).values[key])
    decreases |options|
  {
    var option, rest := options[0], options[1..];
    if option.key !in values && option.semantics.defaultValue.Present? && option.key == key {
      var v := option.semantics.defaultValue.value;
      CheckKeepsGiven(rest, Store(values, option.key, Provided(v)));
      assert IsFirstDefault(options, key, 0);
      assert [] + [OptionValue(v.value, v.text, false)] == [OptionValue(v.value, v.text, false)];
    } else {
      var next := if option.key !in values && option.semantics.defaultValue.Present? then
                    Store(values, option.key, Provided(option.semantics.defaultValue.value)) else values;
      CheckAddsDefaults(rest, next, key);
      DefaultEntryBehind(option, rest, key, CheckRequired(rest, next).values[key]);
      assert [option] + rest == options;
    }
  }

  lemma {:induction false} DefaultEntryBehind(option: Option, rest: seq<Option>, key: string, entry: seq<OptionValue>)
    requires IsDefaultEntry(rest, key, entry)
    requires option.key == key ==> option.semantics.defaultValue.Absent?
    ensures IsDefaultEntry([option] + rest, key, entry)
  {
    var all := [option] + rest;
    var i :| 0 <= i < |rest| && IsFirstDefault(rest, key, i)
             && var v := rest[i].semantics.defaultValue.value; entry == [OptionValue(v.value, v.text, false)];
    assert all[i + 1] == rest[i];
    assert forall j :: 0 <= j < i ==> all[j + 1] == rest[j];
    assert IsFirstDefault(all, key, i + 1);
  }

  /** After a passed check, every option that is required or has a default has a value. */
  lemma {:induction false} CheckCovers(options: seq<Option>, values: ValuesMap)
    requires CheckRequired(options, values).passed
    ensures forall o :: o in options && (o.required || o.semantics.defaultValue.Present?) ==>
                          o.key in CheckRequired(options, values).values
    decreases |options|
  {
    if options != [] {
      var option := options[0];
      CheckKeepsGiven(options, values);
      if option.key in values || option.semantics.defaultValue.Absent? {
        CheckCovers(options[1..], values);
      } else {
        var next := Store(values, option.key, Provided(option.semantics.defaultValue.value));
        CheckKeepsGiven(options[1..], next);
        CheckCovers(options[1..], next);
      }
    }
  }

  lemma {:induction false} MissingBehind(option: Option, rest: seq<Option>, values: ValuesMap, next: ValuesMap)
    requires !(option.required && option.key !in values && option.semantics.defaultValue.Absent?)
    requires if option.key !in values && option.semantics.defaultValue.Present? then
               next.Keys == values.Keys + {option.key}
             else next == values
    ensures (exists i :: 0 <= i < |rest| && Missing(rest, next, i))
            <==> exists i :: 0 <= i < |[option] + rest| && Missing([option] + rest, values, i)
  {
    var all := [option] + rest;
    forall i | 0 <= i < |rest|
      ensures Missing(rest, next, i) <==> Missing(all, values, i + 1)
    {
      DefaultBeforeShift(option, rest, i);
    }
    if exists i :: 0 <= i < |rest| && Missing(rest, next, i) {
      var i :| 0 <= i < |rest| && Missing(rest, next, i);
      assert Missing(all, values, i + 1);
    }
    if exists i :: 0 <= i < |all| && Missing(all, values, i) {
      var i :| 0 <= i < |all| && Missing(all, values, i);
      assert i > 0;
      assert Missing(rest, next, i - 1);
    }
  }

  lemma {:induction false} DefaultBeforeShift(option: Option, rest: seq<Option>, i: nat)
    requires i < |rest|
    ensures DefaultBefore([option] + rest, i + 1)
            <==> DefaultBefore(rest, i) || (option.key == rest[i].key && option.semantics.defaultValue.Present?)
  {
    var all := [option] + rest;
    if DefaultBefore(rest, i) {
      var j :| 0 <= j < i && rest[j].key == rest[i].key && rest[j].semantics.defaultValue.Present?;
      assert all[j + 1] == rest[j];
    }
    if DefaultBefore(all, i + 1) {
      var j :| 0 <= j < i + 1 && all[j].key == all[i + 1].key && all[j].semantics.defaultValue.Present?;
      assert j > 0 ==> rest[j - 1] == all[j];
    }
    if option.key == rest[i].key && option.semantics.defaultValue.Present? {
      assert all[0].key == all[i + 1].key;
    }
  }

  /** The check fails exactly when some required option has neither a value nor a
      default, its own or an earlier one under the same key. */
  lemma {:induction false} CheckFailsExactly(options: seq<Option>, values: ValuesMap)
    ensures !CheckRequired(options, values).passed
            <==> exists i :: 0 <= i < |options| && Missing(options, values, i)
    decreases |options|
  {
    if options != [] {
      var option, rest := options[0], options[1..];
      assert options == [option] + rest;
      if option.key !in values && option.semantics.defaultValue.Absent? && option.required {
        assert Missing(options, values, 0);
      } else {
        var next := if option.key !in values && option.semantics.defaultValue.Present? then
                      Store(values, option.key, Provided(option.semantics.defaultValue.value)) else values;
        CheckFailsExactly(rest, next);
        MissingBehind(option, rest, values, next);
      }
    }
  }

  // ---- Whole runs ------------------------------------------------------------------------

  /** `final` is `given` with the defaults of `options` for the keys that were missing. */
  ghost predicate Defaulted(options: seq<Option>, given: ValuesMap, final: ValuesMap) {
    && (forall o :: o in options && (o.required || o.semantics.defaultValue.Present?) ==> o.key in final)
    && (forall key :: key in given ==> key in final && final[key] == given[key])
    && (forall key :: key in final && key !in given ==> IsDefaultEntry(options, key, final[key]))
  }

  /** Under each key: the values of the option occurrences, then the positional tokens
      its options received that parse; no positional token is lost or used twice. */
  ghost predicate GivenBy(command: Command, items: seq<Item>, positionals: seq<string>, given: ValuesMap) {
    && ValidItems(command, items)
    && |BeforeRest(command.positionals)| + |AfterRest(command.positionals)| <= |positionals|
    && var receivers, received := Receivers(command, |positionals|), Received(command, positionals);
    && |receivers| == |received|
    && multiset(received) == multiset(positionals)
    && forall key :: ValuesAt(given, key) == ValuesUnder(command, items, key) + Parsed(receivers, received, key)
  }

  predicate Succeeds(ending: Ending) {
    ending.Finished? && ending.verdict == Success
  }

  /** The reading `a` of the line, with these positional tokens, explains the values. */
  ghost predicate Explains(
    commands: seq<Command>, tokens: seq<Token>, a: Account, positionals: seq<string>, final: ValuesMap)
  {
    exists values: ValuesMap, given: ValuesMap ::
      && AccountsFor(commands, tokens, a, positionals, values)
      && GivenBy(a.command, a.items, positionals, given)
      && Defaulted(a.command.options + a.command.positionals, given, final)
  }

  lemma {:induction false} GivenFromAccount(
    commands: seq<Command>, tokens: seq<Token>, a: Account, positionals: seq<string>, values: ValuesMap)
    returns (given: ValuesMap)
    requires AccountsFor(commands, tokens, a, positionals, values)
    requires Fits(a.command, positionals)
    ensures |Receivers(a.command, |positionals|)| == |Received(a.command, positionals)|
    ensures given == StoreAll(Receivers(a.command, |positionals|), Received(a.command, positionals), values)
    ensures GivenBy(a.command, a.items, positionals, given)
  {
    hide ValuesAt, Parsed, ValuesUnder, WithoutEquals, Depth, Collected, StoreAll;
    var receivers, received := Receivers(a.command, |positionals|), Received(a.command, positionals);
    ReceiversFit(a.command, positionals);
    ReceivedBag(a.command, positionals);
    hide Receivers, Received;
    given := StoreAll(receivers, received, values);
    forall key
      ensures ValuesAt(given, key) == ValuesUnder(a.command, a.items, key) + Parsed(receivers, received, key)
    {
      StoreAllAt(receivers, received, values, key);
    }
  }

  lemma {:induction false} CheckDefaults(options: seq<Option>, given: ValuesMap)
    requires CheckRequired(options, given).passed
    ensures Defaulted(options, given, CheckRequired(options, given).values)
  {
    hide CheckRequired, IsDefaultEntry;
    var final := CheckRequired(options, given).values;
    CheckCovers(options, given);
    CheckKeepsGiven(options, given);
    forall key | key in final && key !in given
      ensures IsDefaultEntry(options, key, final[key])
    {
      CheckAddsDefaults(options, given, key);
    }
  }

  /** The whole values map of a successful run: what the option occurrences and the
      positional tokens gave, each exactly once, and then the defaults; so each option
      or positional argument that is required or has a default has a value. */
  lemma {:induction false} SuccessIsComplete(commands: seq<Command>, allow: bool, tokens: seq<Token>)
    requires NoEnd(tokens)
    requires Succeeds(Run(Start(commands, allow), tokens))
    ensures exists a: Account, positionals: seq<string> ::
              && Run(Start(commands, allow), tokens).activeCommand == Present(a.command)
              && Explains(commands, tokens, a, positionals, Run(Start(commands, allow), tokens).values)
  {
    MachineRefinesGrammar(commands, allow, tokens);
    LineEndings(commands, allow, tokens);
    var line := ReadLine(commands, allow, tokens);
    var a := LineAccount(commands, allow, tokens);
    SuccessExplained(commands, tokens, a, line.positionals, line.values);
    hide Run, ReadLine, Complete, Explains;
  }

  lemma {:induction false} SuccessExplained(
    commands: seq<Command>, tokens: seq<Token>, a: Account, positionals: seq<string>, values: ValuesMap)
    requires AccountsFor(commands, tokens, a, positionals, values)
    requires Succeeds(Complete(a.command, positionals, values))
    ensures Explains(commands, tokens, a, positionals, Complete(a.command, positionals, values).values)
  {
    hide AccountsFor, GivenBy, CheckRequired, Defaulted, StoreAll;
    FitsOnSuccess(a.command, positionals, values);
    PositionalsAllocated(a.command, positionals, values);
    hide Complete;
    var given := GivenFromAccount(commands, tokens, a, positionals, values);
    CheckDefaults(a.command.options + a.command.positionals, given);
  }

  lemma {:induction false} FitsOnSuccess(command: Command, positionals: seq<string>, values: ValuesMap)
    requires Succeeds(Complete(command, positionals, values))
    ensures Fits(command, positionals)
  {
    AllUnnamed(command.positionals);
    UnexpectedExactly(command, positionals, values);
    hide StoreAll, StoreEach, CheckRequired, Unnamed, BeforeRest, AfterRest, LastRest, Reverse;
  }

  // ---- At most one value -------------------------------------------------------------------

  /** No option of the command with this key may be repeated, and no positional has it. */
  ghost predicate OnceOnly(command: Command, key: string) {
    && (forall o :: o in command.options && o.key == key ==> !o.semantics.repeatable)
    && (forall o :: o in command.positionals ==> o.key != key)
  }

  lemma {:induction false} ArgumentOnce(
    allow: bool, isLong: bool, equalSeen: bool, option: Option, tokens: seq<Token>, values: ValuesMap, key: string)
    ensures var r := ReadArgument(allow, isLong, equalSeen, option, tokens, values);
            r.Taken? ==>
              |ValuesAt(r.values, key)| == |ValuesAt(values, key)| + if option.key == key then 1 else 0
    decreases |tokens|
  {
    if isLong && tokens != [] && tokens[0].kind == EqualSign {
      ArgumentOnce(allow, isLong, true, option, tokens[1..], values, key);
    }
  }

  lemma {:induction false} OptionsOnce(
    allow: bool, command: Command, tokens: seq<Token>, positionals: seq<string>, values: ValuesMap, key: string)
    requires OnceOnly(command, key) && |ValuesAt(values, key)| <= 1
    ensures match ReadOptions(allow, command, tokens, positionals, values)
            case AtEnd(_, taken) => |ValuesAt(taken, key)| <= 1
            case Halted(Finished(_, _, _, taken)) => |ValuesAt(taken, key)| <= 1
            case Halted(Faulted(_)) => true
    decreases |tokens|
  {
    hide ReadArgument;
    if tokens != [] {
      var flag, rest := tokens[0], tokens[1..];
      if flag.kind == Value {
        OptionsOnce(allow, command, rest, positionals + [flag.text], values, key);
      } else if Resolve(command, flag).Present? {
        var option := Resolve(command, flag).value;
        var read := ReadArgument(allow, flag.kind == LongOption, false, option, rest, values);
        ArgumentOnce(allow, flag.kind == LongOption, false, option, rest, values, key);
        if read.Taken? && CheckMultipleOccurrence(option, values) {
          OptionsOnce(allow, command, read.rest, positionals, read.values, key);
        }
      }
    }
  }

  lemma {:induction false} StoreAllElsewhere(options: seq<Option>, tokens: seq<string>, values: ValuesMap, key: string)
    requires |options| == |tokens| && forall o :: o in options ==> o.key != key
    ensures ValuesAt(StoreAll(options, tokens, values), key) == ValuesAt(values, key)
    decreases |options|
  {
    if options != [] {
      assert options[0] in options;
      StoreAllElsewhere(options[1..], tokens[1..], StorePositional(options[0], tokens[0], values), key);
    }
  }

  lemma {:induction false} StoreEachElsewhere(option: Option, tokens: seq<string>, values: ValuesMap, key: string)
    requires option.key != key
    ensures ValuesAt(StoreEach(option, tokens, values), key) == ValuesAt(values, key)
    decreases |tokens|
  {
    if tokens != [] {
      StoreEachElsewhere(option, tokens[1..], StorePositional(option, tokens[0], values), key);
    }
  }

  lemma {:induction false} PartsOfPositionals(options: seq<Option>)
    ensures forall o :: o in BeforeRest(options) || o in AfterRest(options) ==> o in options
    ensures LastRest(options, Absent).Present? ==> LastRest(options, Absent).value in options
  {
    WithoutRestWithin(options[RestPosition(options)..]);
    LastRestWithin(options, Absent);
  }

  lemma {:induction false} WithoutRestWithin(options: seq<Option>)
    ensures forall o :: o in WithoutRest(options) ==> o in options
  {
    if options != [] {
      WithoutRestWithin(options[1..]);
    }
  }

  lemma {:induction false} LastRestWithin(options: seq<Option>, previous: Optional<Option>)
    ensures LastRest(options, previous) == previous
            || (LastRest(options, previous).Present? && LastRest(options, previous).value in options)
    decreases |options|
  {
    if options != [] {
      LastRestWithin(options[1..], if options[0].IsPositionalRest() then Present(options[0]) else previous);
    }
  }

  lemma {:induction false} CheckOnce(options: seq<Option>, values: ValuesMap, key: string)
    requires |ValuesAt(values, key)| <= 1
    ensures |ValuesAt(CheckRequired(options, values).values, key)| <= 1
  {
    CheckKeepsGiven(options, values);
    if key !in values && key in CheckRequired(options, values).values {
      CheckAddsDefaults(options, values, key);
    }
  }

  lemma {:induction false} CompleteOnce(command: Command, positionals: seq<string>, values: ValuesMap, key: string)
    requires OnceOnly(command, key) && |ValuesAt(values, key)| <= 1
    ensures match Complete(command, positionals, values)
            case Finished(_, _, _, final) => |ValuesAt(final, key)| <= 1
            case Faulted(_) => true
  {
    hide CheckRequired, StoreAll, StoreEach, ValuesAt, Unnamed, BeforeRest, AfterRest, LastRest, Reverse;
    var before, after := BeforeRest(command.positionals), AfterRest(command.positionals);
    var rest := LastRest(command.positionals, Absent);
    AllUnnamed(command.positionals);
    PartsOfPositionals(command.positionals);
    if |before| + |after| <= |positionals| {
      var tail := |positionals| - |after|;
      var front, back, middle := positionals[..|before|], Reverse(positionals[tail..]), positionals[|before|..tail];
      StoreAllElsewhere(before, front, values, key);
      var once := StoreAll(before, front, values);
      StoreAllElsewhere(after, back, once, key);
      var placed := StoreAll(after, back, once);
      if rest.Present? {
        StoreEachElsewhere(rest.value, middle, placed, key);
      }
      var stored := if rest.Present? then StoreEach(rest.value, middle, placed) else placed;
      CheckOnce(command.options + command.positionals, stored, key);
    }
  }

  /** However a run ends, short of a fault, a key none of whose options may be repeated,
      and that no positional uses, holds at most one value, through options, implicit
      values and defaults. */
  lemma {:induction false} AtMostOneValue(commands: seq<Command>, allow: bool, tokens: seq<Token>, key: string)
    requires NoEnd(tokens)
    requires match Run(Start(commands, allow), tokens)
             case Finished(_, Present(command), _, _) => OnceOnly(command, key)
             case _ => false
    ensures |ValuesAt(Run(Start(commands, allow), tokens).values, key)| <= 1
  {
    MachineRefinesGrammar(commands, allow, tokens);
    LineEndings(commands, allow, tokens);
    hide Run, Complete, ReadOptions, Depth, Collected, LastWithPath, FirstDefault, LastDefault, LeadingValues, OnceOnly;
    var words := LeadingValues(tokens);
    var collected := Collected(commands, words);
    var command := ChosenCommand(commands, tokens).value;
    DepthWithinCollected(commands, words);
    assert ValuesAt(map[], key) == [];
    OptionsOnce(allow, command, tokens, [], map[], key);
    OptionsOnce(allow, command, tokens[collected..], [], map[], key);
    OptionsOnce(allow, command, tokens[collected..], words[..collected], map[], key);
    var line := ReadLine(commands, allow, tokens);
    if line.Reached? {
      CompleteOnce(command, line.positionals, line.values, key);
    }
  }
}
