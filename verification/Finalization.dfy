/** The final state's loops compute the closed form of module `Grammar`. */
module Finalization {
  import opened Optionals
  import opened Commands
  import opened OptionValues
  import opened Semantics
  import opened Grammar

  ghost predicate AllPositional(options: seq<Option>) {
    forall o :: o in options ==> o.IsPositional()
  }

  /** What becomes of the positional tokens, fault states aside. */
  datatype Placement =
    | Placement(left: seq<string>, rest: Optional<Option>, values: ValuesMap)
    | Stuck(fault: Fault)

  function PlacementOf(allocation: Allocation): Placement {
    match allocation
    case Allocated(left, rest, values) => Placement(left, rest, values)
    case Failed(fault, _, _) => Stuck(fault)
  }

  /** The closed form of `Allocate` behind the rest option. */
  function PlacedBehind(after: seq<Option>, rest: Optional<Option>, tokens: seq<string>, values: ValuesMap): Placement {
    var tail := |tokens| - |after|;
    if tail < 0 then Stuck(TooFewPositionals)
    else Placement(tokens[..tail], rest, StoreAll(after, Reverse(tokens[tail..]), values))
  }

  lemma {:induction false} PlaceLast(
    option: Option, after: seq<Option>, rest: Optional<Option>, tokens: seq<string>, values: ValuesMap)
    requires tokens != []
    ensures PlacedBehind(after, rest, tokens[..|tokens| - 1], StorePositional(option, tokens[|tokens| - 1], values))
         == PlacedBehind([option] + after, rest, tokens, values)
  {
    var last := |tokens| - 1;
    var tail := last - |after|;
    if tail >= 0 {
      var front := tokens[..last];
      assert front[..tail] == tokens[..tail];
      assert tokens[tail..][..|after|] == front[tail..];
      var reversed := Reverse(tokens[tail..]);
      assert reversed == [tokens[last]] + Reverse(front[tail..]);
      assert ([option] + after)[1..] == after && reversed[1..] == Reverse(front[tail..]);
    }
  }

  lemma {:induction false} AllocateAfterRest(
    options: seq<Option>, rest: Optional<Option>, tokens: seq<string>, values: ValuesMap)
    requires AllPositional(options)
    ensures PlacementOf(Allocate(options, false, rest, tokens, values))
         == PlacedBehind(WithoutRest(options), LastRest(options, rest), tokens, values)
    decreases options
  {
    if options == [] {
      assert tokens[..|tokens|] == tokens;
    } else {
      var option := options[0];
      assert option in options;
      var after := WithoutRest(options[1..]);
      if option.IsPositionalRest() {
        AllocateAfterRest(options[1..], Present(option), tokens, values);
        assert [] + after == after;
      } else if tokens != [] {
        var last := |tokens| - 1;
        AllocateAfterRest(options[1..], rest, tokens[..last], StorePositional(option, tokens[last], values));
        PlaceLast(option, after, LastRest(options, rest), tokens, values);
      }
    }
  }

  /** The closed form of `Allocate` as a whole. */
  function Placed(
    before: seq<Option>, after: seq<Option>, rest: Optional<Option>, tokens: seq<string>, values: ValuesMap): Placement
  {
    if |tokens| < |before| + |after| then Stuck(TooFewPositionals)
    else
      PlacedBehind(after, rest, tokens[|before|..], StoreAll(before, tokens[..|before|], values))
  }

  lemma {:induction false} PlaceFirst(
    option: Option, before: seq<Option>, after: seq<Option>, rest: Optional<Option>,
    tokens: seq<string>, values: ValuesMap)
    requires tokens != []
    ensures Placed(before, after, rest, tokens[1..], StorePositional(option, tokens[0], values))
         == Placed([option] + before, after, rest, tokens, values)
  {
    var all := [option] + before;
    if |tokens| >= |all| + |after| {
      assert all[1..] == before;
      assert tokens[..|all|][1..] == tokens[1..][..|before|];
      assert tokens[1..][|before|..] == tokens[|all|..];
    }
  }

  lemma {:induction false} AllocateUnnamed(options: seq<Option>, tokens: seq<string>, values: ValuesMap)
    requires AllPositional(options)
    ensures PlacementOf(Allocate(options, true, Absent, tokens, values))
         == Placed(BeforeRest(options), AfterRest(options), LastRest(options, Absent), tokens, values)
    decreases options
  {
    var before, after := BeforeRest(options), AfterRest(options);
    if options == [] {
      assert tokens[0..] == tokens && tokens[..|tokens|] == tokens;
    } else {
      var option := options[0];
      assert option in options;
      if option.IsPositionalRest() {
        AllocateAfterRest(options[1..], Present(option), tokens, values);
        assert options[0..] == options && tokens[0..] == tokens && before == [];
        assert after == WithoutRest(options[1..]);
      } else {
        assert before == [option] + BeforeRest(options[1..]);
        assert options[RestPosition(options)..] == options[1..][RestPosition(options[1..])..];
        if tokens != [] {
          AllocateUnnamed(options[1..], tokens[1..], StorePositional(option, tokens[0], values));
          PlaceFirst(option, BeforeRest(options[1..]), after, LastRest(options, Absent), tokens, values);
        }
      }
    }
  }

  /** A positional argument with a name stops the loop where it stands. */
  lemma {:induction false} AllocateStops(
    options: seq<Option>, beforeRest: bool, rest: Optional<Option>, tokens: seq<string>, values: ValuesMap)
    ensures var unnamed := Allocate(Unnamed(options), beforeRest, rest, tokens, values);
            Allocate(options, beforeRest, rest, tokens, values) ==
            if unnamed.Allocated? && |Unnamed(options)| < |options| then
              Failed(NotPositional, unnamed.positionals, unnamed.values)
            else unnamed
    decreases options
  {
    if options != [] && options[0].IsPositional() {
      var option, more := options[0], options[1..];
      assert Unnamed(options)[1..] == Unnamed(more);
      var last := |tokens| - 1;
      if option.IsPositionalRest() {
        AllocateStops(more, false, Present(option), tokens, values);
      } else if tokens != [] && beforeRest {
        AllocateStops(more, beforeRest, rest, tokens[1..], StorePositional(option, tokens[0], values));
      } else if tokens != [] {
        AllocateStops(more, beforeRest, rest, tokens[..last], StorePositional(option, tokens[last], values));
      }
    }
  }

  /** The loop over the positional arguments places every token as the closed form does.
      It takes a token from an empty list exactly when there are too few tokens for the
      arguments in front of the first that has a name, and fails at that one otherwise. */
  lemma {:induction false} AllocateIsSlices(options: seq<Option>, tokens: seq<string>, values: ValuesMap)
    ensures var unnamed := Unnamed(options);
            var placed := Placed(BeforeRest(unnamed), AfterRest(unnamed), LastRest(unnamed, Absent), tokens, values);
            PlacementOf(Allocate(options, true, Absent, tokens, values)) ==
            if placed.Placement? && |unnamed| < |options| then Stuck(NotPositional) else placed
  {
    hide Allocate, Placed, BeforeRest, AfterRest, LastRest, Unnamed;
    AllocateStops(options, true, Absent, tokens, values);
    AllocateUnnamed(Unnamed(options), tokens, values);
  }

  lemma {:induction false} AllUnnamed(options: seq<Option>)
    ensures |Unnamed(options)| == |options| ==> Unnamed(options) == options
    ensures AllPositional(options) <==> Unnamed(options) == options
  {
    if |Unnamed(options)| == |options| {
      assert Unnamed(options) == options[..|options|] == options;
    } else {
      assert options[|Unnamed(options)|] in options;
    }
  }

  lemma {:induction false} CheckRequiredConcat(options: seq<Option>, more: seq<Option>, values: ValuesMap)
    ensures CheckRequired(options + more, values) ==
            var first := CheckRequired(options, values);
            if first.passed then CheckRequired(more, first.values) else first
  {
    if options == [] {
      assert options + more == more;
    } else {
      var option := options[0];
      assert (options + more)[1..] == options[1..] + more;
      if option.key in values {
        CheckRequiredConcat(options[1..], more, values);
      } else if option.semantics.defaultValue.Present? {
        var next := Store(values, option.key, Provided(option.semantics.defaultValue.value));
        CheckRequiredConcat(options[1..], more, next);
      } else if !option.required {
        CheckRequiredConcat(options[1..], more, values);
      }
    }
  }

  lemma {:induction false} CompleteOfPlaced(command: Command, tokens: seq<string>, values: ValuesMap)
    ensures Complete(command, tokens, values) ==
            var unnamed := Unnamed(command.positionals);
            match Placed(BeforeRest(unnamed), AfterRest(unnamed), LastRest(unnamed, Absent), tokens, values)
            case Stuck(fault) => Faulted(fault)
            case Placement(middle, rest, placed) =>
              if |unnamed| < |command.positionals| then Faulted(NotPositional)
              else if middle != [] && rest.Absent? then
                Finished(Error(UnexpectedPositionalArguments), Present(command), middle, placed)
              else
                var stored := if rest.Present? then StoreEach(rest.value, middle, placed) else placed;
                var check := CheckRequired(command.options + command.positionals, stored);
                Finished(
                  if check.passed then Success else Error(MissingRequiredOption), Present(command), [], check.values)
  {
    hide StoreAll, StoreEach, CheckRequired, Unnamed, BeforeRest, AfterRest, LastRest, Reverse;
    var unnamed := Unnamed(command.positionals);
    var before, after := BeforeRest(unnamed), AfterRest(unnamed);
    var tail := |tokens| - |after|;
    if |before| <= tail {
      var behind := tokens[|before|..];
      assert behind[..|behind| - |after|] == tokens[|before|..tail];
      assert behind[|behind| - |after|..] == tokens[tail..];
    }
  }

  /** Entering the final state ends the run with the closed form. */
  lemma {:induction false} FinalEnterCompletes(c: Context, command: Command)
    requires c.activeCommand == Present(command)
    ensures var (next, status) := FinalEnter(c);
            Complete(command, c.positionalTokens, c.values) ==
            match status
            case Terminate => Finish(Success, next)
            case TerminateWithError(error) => Finish(Error(error), next)
            case Violation(fault) => Faulted(fault)
            case _ => Faulted(EndOfInputNotFinal)
  {
    hide CheckRequired, Allocate, Placed, Complete, Unnamed, BeforeRest, AfterRest, LastRest;
    AllocateIsSlices(command.positionals, c.positionalTokens, c.values);
    CompleteOfPlaced(command, c.positionalTokens, c.values);
    var allocation := Allocate(command.positionals, true, Absent, c.positionalTokens, c.values);
    if allocation.Allocated? && (allocation.positionals == [] || allocation.rest.Present?) {
      var stored := if allocation.positionals == [] then allocation.values
                    else StoreEach(allocation.rest.value, allocation.positionals, allocation.values);
      CheckRequiredConcat(command.options, command.positionals, stored);
    }
  }
}
