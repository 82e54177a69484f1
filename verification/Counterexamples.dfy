/** Concrete command lines on which the parser does not do what one would expect of it. */
module Counterexamples {
  import opened Optionals
  import opened Tokens
  import opened Commands
  import opened Semantics
  import opened Grammar
  import opened Identification
  import opened Refinement
  import opened Readings
  import opened Conservation
  import opened Safety

  const DEFAULT := Command([""], [], [])

  /** A default command and a command `a b`. */
  const WITH_DEFAULT := [DEFAULT, Command(["a", "b"], [], [])]

  lemma {:induction false} DefaultPresent()
    ensures DEFAULT in WITH_DEFAULT
    ensures FirstDefault(WITH_DEFAULT) == Present(DEFAULT)
  {
    assert WITH_DEFAULT[0] == DEFAULT;
    forall c | c in WITH_DEFAULT
      ensures c.positionals == []
    {
    }
  }

  /** `a` alone neither selects `a b` nor falls back on the default command: the options
      state is entered at the end of input, against its contract. */
  lemma {:induction false} PathPrefixFaults()
    ensures Run(Start(WITH_DEFAULT, true), ValueTokens(["a"])) == Faulted(OptionsEnteredAtEnd)
  {
    DefaultPresent();
    var tokens := ValueTokens(["a"]);
    assert tokens[1..] == [];
    assert LeadingValues(tokens) == ["a"] by {
      assert LeadingValues(tokens[1..]) == [];
    }
    assert ["a"] <= WITH_DEFAULT[1].path;
    assert ["a"][..0] == [];
    assert !IsPath(WITH_DEFAULT, ["a"]);
    assert PartialPath(WITH_DEFAULT, tokens);
    OptionsEnteredAtEndExactly(WITH_DEFAULT, true, tokens);
  }

  /** A lone `--` ends in the failing check of the drive loop. */
  lemma {:induction false} DashDashFaults()
    ensures Run(Start(WITH_DEFAULT, true), [Token(DashDash, "--")]) == Faulted(EndOfInputNotFinal)
  {
    DefaultPresent();
    DashDashExactly(WITH_DEFAULT, true, [], []);
    MachineRefinesGrammar(WITH_DEFAULT, true, []);
    LineEndings(WITH_DEFAULT, true, []);
    assert [] + ([Token(DashDash, "--")] + []) == [Token(DashDash, "--")];
  }

  const SHORT := Command(["a"], [], [])
  const LONG := Command(["a", "b", "c"], [], [])
  const NESTED := [SHORT, LONG]

  lemma {:induction false} ShortMatched()
    ensures Collected(NESTED, ["a", "b", "x"]) == 2 && Depth(NESTED, ["a", "b", "x"]) == 1
  {
    var words := ["a", "b", "x"];
    assert words[..3] == words && words[..2] == ["a", "b"];
    assert Extends(NESTED, ["a", "b"]) by {
      assert ["a", "b"] <= NESTED[1].path;
    }
    assert !(words <= LONG.path) by {
      assert words[2][0] != LONG.path[2][0];
    }
    assert !Extends(NESTED, words);
    CollectedStops(NESTED, ["a", "b"], words);
    assert !IsPath(NESTED, ["a", "b"]);
    assert ["a", "b"][..1] == ["a"] && ["a"][..0] == [];
    assert IsPath(NESTED, ["a"]) by {
      assert NESTED[0].path == ["a"];
    }
  }

  lemma {:induction false} ShortFound()
    ensures LastWithPath(NESTED, ["a"]) == Present(SHORT)
  {
    assert NESTED[..1] == [SHORT];
    forall c | c in NESTED
      ensures c.positionals == []
    {
    }
  }

  lemma {:induction false} ShortReads()
    ensures ReadLine(NESTED, true, ValueTokens(["a", "b", "x"])) == Reached(SHORT, ["x"], map[])
  {
    var words := ["a", "b", "x"];
    ShortMatched();
    ShortFound();
    WordsLead(words, []);
    assert ValueTokens(words) + [] == ValueTokens(words) && words + [] == words;
    assert ValueTokens(words)[2..] == ValueTokens(["x"]) + [];
    WordsAreRead(true, SHORT, ["x"], [], [], map[]);
    assert words[..1] == ["a"] && [] + ["x"] == ["x"];
    hide ReadOptions, Depth, Collected, LastWithPath, LeadingValues, ValueTokens;
  }

  /** With commands `a` and `a b c`, the line `a b x` is read for `a`, and of its two
      further words only `x` is left as a positional: `b` is lost. */
  lemma {:induction false} SegmentLost()
    ensures Run(Start(NESTED, true), ValueTokens(["a", "b", "x"]))
         == Finished(Error(UnexpectedPositionalArguments), Present(SHORT), ["x"], map[])
  {
    MachineRefinesGrammar(NESTED, true, ValueTokens(["a", "b", "x"]));
    ShortReads();
    NothingExpected();
    hide Run, Start, ReadLine, Complete;
  }

  lemma {:induction false} NothingExpected()
    ensures Complete(SHORT, ["x"], map[])
         == Finished(Error(UnexpectedPositionalArguments), Present(SHORT), ["x"], map[])
  {
    assert BeforeRest([]) == [] && AfterRest([]) == [];
    assert ["x"][..0] == [] && ["x"][1..] == [] && ["x"][0..1] == ["x"];
  }

  lemma {:induction false} EmptyLine(commands: seq<Command>)
    requires commands != [] && commands[0].path == [""]
    ensures ReadLine(commands, true, []) == Reached(commands[0], [], map[])
  {
  }

  /** An empty line for a default command with one positional argument, required or not,
      takes a token from an empty list. */
  lemma {:induction false} EmptyLineFaults(positional: Option)
    requires positional.shortName == "" && positional.longName == "" && positional.key != "_REST_"
    ensures Run(Start([Command([""], [], [positional])], true), []) == Faulted(TooFewPositionals)
  {
    var commands := [Command([""], [], [positional])];
    EmptyLine(commands);
    TooFewPositionalsExactly(commands, true, []);
    assert Unnamed([positional]) == [positional];
    hide Run, Start, ReadLine;
  }

  /** A positional argument with a name breaks the contract of the final state on every
      line that gets there; nothing checks it when the command is built. */
  lemma {:induction false} NamedPositionalFaults(named: Option)
    requires named.shortName != "" || named.longName != ""
    ensures Run(Start([Command([""], [], [named])], true), []) == Faulted(NotPositional)
  {
    var commands := [Command([""], [], [named])];
    EmptyLine(commands);
    NotPositionalExactly(commands, true, []);
    assert named in commands[0].positionals;
    assert Unnamed([named]) == [];
    hide Run, Start, ReadLine;
  }
}
