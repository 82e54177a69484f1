/** The state machine over the state objects, and the parser's drive loop. */
module Parser {
  import opened Optionals
  import opened Tokens
  import opened Commands
  import opened TokenStream
  import opened States
  import S = Semantics
  import opened Semantics

  /** Dispatches events to the current state and performs transitions: leave the
      old state and, unless that fails, enter the new one. */
  class Machine {
    const context: ParserContext
    const initial: InitialState
    const identify: IdentifyCommandState
    const options: ParseOptionsState
    const short: ParseShortOptionState
    const long: ParseLongOptionState
    const dashDash: DashDashState
    const final: FinalState
    var at: StateId

    /** A state that has been entered knows the shared context. */
    ghost predicate Valid()
      reads this, identify, options, short, long
    {
      && initial.context == context
      && (at == AtIdentify ==> identify.context == context)
      && (at == AtOptions ==> options.context == context)
      && (at == AtShort ==> short.context == context)
      && (at == AtLong ==> long.context == context)
      && (options.context != null ==> options.context == context)
    }

    ghost function Parts(): set<object> {
      {this, identify, options, short, long, dashDash, final}
    }

    ghost function View(): Config
      reads this, context, context.ovm, identify, options, short, long
    {
      Config(
        at, context.View(), identify.Fields(), options.context != null, short.value, long.value, long.afterEqualSign)
    }

    constructor (context: ParserContext)
      requires context.View() == Context(context.commands, context.allowValueWithNoEqual, Absent, Absent, [], map[])
      modifies context
      ensures Valid() && this.context == context
      ensures fresh(Parts())
      ensures View() == Start(context.commands, context.allowValueWithNoEqual)
    {
      this.context := context;
      initial := new InitialState(context);
      identify := new IdentifyCommandState();
      options := new ParseOptionsState();
      short := new ParseShortOptionState();
      long := new ParseLongOptionState();
      dashDash := new DashDashState();
      final := new FinalState();
      at := AtInitial;
    }

    method Handle(event: Token) returns (status: Status)
      requires Valid()
      modifies this, context, context.ovm, identify, options, short, long, dashDash, final
      ensures (View(), status) == S.Handle(old(View()), event)
      ensures status.Continue? || status.ReissueEvent? ==> Valid()
    {
      var action := React(event);
      match action {
        case DoNothing =>
          status := Continue;
        case ReportError(error) =>
          status := TerminateWithError(error);
        case Abort(fault) =>
          status := Violation(fault);
        case TransitionTo(target, withData) =>
          status := Leave();
          if status.Continue? {
            status := Enter(target, withData, event);
          }
      }
    }

    /** The same event, told as a step of a run that leads to `ending` after `total` events. */
    method HandleNext(event: Token, ghost tokens: seq<Token>, ghost calls: nat, ghost ending: Ending, ghost total: nat)
      returns (status: Status)
      requires Valid() && Head(tokens) == event
      requires LeadsTo(View(), tokens, calls, ending, total)
      modifies Parts(), context, context.ovm
      ensures Stepped(status, View(), tokens, calls + 1, ending, total)
      ensures View().context == context.View()
      ensures status.ReissueEvent? ==> ReissueRank(at) < ReissueRank(old(at))
      ensures status.Continue? || status.ReissueEvent? ==> Valid()
    {
      hide S.Handle, Stepped, LeadsTo;
      status := Handle(event);
      StepOfRun(old(View()), tokens, calls, ending, total);
    }

    method React(event: Token) returns (action: Action)
      requires Valid()
      modifies context, context.ovm, identify, short, long
      ensures Valid()
      ensures (View(), action) == S.React(old(View()), event)
    {
      match at {
        case AtInitial => action := initial.Handle(event);
        case AtIdentify => action := identify.Handle(event);
        case AtOptions => action := options.Handle(event);
        case AtShort => action := short.Handle(event);
        case AtLong => action := long.Handle(event);
        case AtDashDash => action := DoNothing;
        case AtFinal => action := DoNothing;
      }
    }

    method Leave() returns (status: Status)
      requires Valid()
      modifies context.ovm, identify, short, long
      ensures Valid()
      ensures (View(), status) == S.Leave(old(View()))
    {
      match at {
        case AtIdentify => status := identify.OnLeave();
        case AtShort => status := short.OnLeave();
        case AtLong => status := long.OnLeave();
        case _ => status := Continue;
      }
    }

    method Enter(target: StateId, withData: bool, event: Token) returns (status: Status)
      requires Valid()
      modifies this, context, context.ovm, identify, options, short, long, dashDash, final
      ensures (View(), status) == S.Enter(old(View()), target, withData, event)
      ensures status.Continue? || status.ReissueEvent? ==> Valid()
    {
      at := target;
      match target {
        case AtInitial => status := Continue;
        case AtIdentify => status := identify.OnEnter(event, context);
        case AtOptions =>
          if withData {
            status := options.OnEnter(event, context);
          } else {
            status := options.OnReenter();
          }
        case AtShort => status := short.OnEnter(event, context);
        case AtLong => status := long.OnEnter(event, context);
        case AtDashDash => status := dashDash.OnEnter(context);
        case AtFinal => status := final.OnEnter(context);
      }
    }
  }

  /** What `Parse` returns, and leaves in the context, for a run's ending. */
  ghost predicate Reports(
    ending: Ending, noErrors: bool, error: Optional<ErrorKind>, fault: Optional<Fault>, c: Context)
  {
    match ending
    case Faulted(f) => fault == Present(f) && !noErrors
    case Finished(verdict, _, _, _) =>
      && fault.Absent?
      && (if noErrors then verdict.Success? else error.Present? && verdict == Error(error.value))
      && ending == Finish(verdict, c)
  }

  /** The run from `s` over `tokens` ends so, with `calls` events so far and `total` in all. */
  ghost predicate LeadsTo(s: Config, tokens: seq<Token>, calls: nat, ending: Ending, total: nat) {
    Run(s, tokens) == ending && calls + Calls(s, tokens) == total
  }

  /** After an event of such a run: it goes on, or this is its ending. */
  ghost predicate Stepped(
    status: Status, after: Config, tokens: seq<Token>, calls: nat, ending: Ending, total: nat)
  {
    match status
    case ReissueEvent => LeadsTo(after, tokens, calls, ending, total)
    case Continue =>
      if Head(tokens).kind == EndOfInput then ending == Faulted(EndOfInputNotFinal) && calls == total
      else LeadsTo(after, tokens[1..], calls, ending, total)
    case Terminate => ending == Finish(Success, after.context) && calls == total
    case TerminateWithError(error) => ending == Finish(Error(error), after.context) && calls == total
    case Violation(fault) => ending == Faulted(fault) && calls == total
  }

  /** What an event that ends the run lets `Parse` return. */
  lemma {:induction false} SteppedReports(
    status: Status, after: Config, tokens: seq<Token>, calls: nat, ending: Ending, total: nat)
    requires Stepped(status, after, tokens, calls, ending, total)
    ensures status.Terminate? ==> calls == total && Reports(ending, true, Absent, Absent, after.context)
    ensures status.TerminateWithError? ==>
              calls == total && Reports(ending, false, Present(status.error), Absent, after.context)
    ensures status.Violation? ==>
              calls == total && Reports(ending, false, Absent, Present(status.fault), after.context)
    ensures status.Continue? && Head(tokens).kind == EndOfInput ==>
              calls == total && Reports(ending, false, Absent, Present(EndOfInputNotFinal), after.context)
    ensures status.Continue? && Head(tokens).kind != EndOfInput ==> LeadsTo(after, tokens[1..], calls, ending, total)
    ensures status.ReissueEvent? ==> LeadsTo(after, tokens, calls, ending, total)
  {
    hide LeadsTo;
  }

  lemma {:induction false} StepOfRun(s: Config, tokens: seq<Token>, calls: nat, ending: Ending, total: nat)
    requires LeadsTo(s, tokens, calls, ending, total)
    ensures var (next, status) := S.Handle(s, Head(tokens));
            && Stepped(status, next, tokens, calls + 1, ending, total)
            && (status.ReissueEvent? ==> ReissueRank(next.at) < ReissueRank(s.at))
  {
    hide S.Handle;
  }

  class CmdLineParser {
    const tokenizer: Tokenizer
    const context: ParserContext

    constructor (commands: seq<Command>, allowValueWithNoEqual: bool, args: seq<string>)
      ensures fresh(tokenizer) && fresh(context) && fresh(context.ovm)
      ensures tokenizer.Valid() && tokenizer.View().Remaining() == StreamOf(args)
      ensures context.View() == Context(commands, allowValueWithNoEqual, Absent, Absent, [], map[])
    {
      tokenizer := new Tokenizer(args);
      context := new ParserContext(commands, allowValueWithNoEqual);
    }

    /** The drive loop. It always ends, with the ending of the run over the stream,
        after the number of events that run counts. A contract that fails ends it
        with `fault`. */
    method Parse()
      returns (noErrors: bool, error: Optional<ErrorKind>, fault: Optional<Fault>, ghost calls: nat)
      requires tokenizer.Valid() && NoEnd(tokenizer.View().Remaining())
      requires context.View() == Context(context.commands, context.allowValueWithNoEqual, Absent, Absent, [], map[])
      modifies tokenizer, context, context.ovm
      ensures var s := Start(context.commands, context.allowValueWithNoEqual);
              var tokens := old(tokenizer.View().Remaining());
              && calls == Calls(s, tokens) <= 2 * (|tokens| + 1)
              && Reports(Run(s, tokens), noErrors, error, fault, context.View())
    {
      hide S.Handle, S.Run, S.Calls, S.Start, TokenStream.StreamOf, TokenStream.Pull, LeadsTo, Stepped, Reports,
        ReissueRank, Machine.View, ParserContext.View;
      ghost var start := Start(context.commands, context.allowValueWithNoEqual);
      ghost var tokens := tokenizer.View().Remaining();
      ghost var ending, total := Run(start, tokens), Calls(start, tokens);
      var machine := new Machine(context);
      var continueRunning := true;
      noErrors := true;
      error, fault := Absent, Absent;
      calls := 0;
      ParseCallsBound(context.commands, context.allowValueWithNoEqual, tokens);
      assert LeadsTo(machine.View(), tokens, 0, ending, total) by {
        StartLeads(start, tokens);
      }
      var token := tokenizer.NextToken();
      while continueRunning
        invariant tokenizer.Valid() && machine.context == context && fresh(machine.Parts())
        invariant NoEnd(tokens) && tokens == InHand(token, tokenizer.View().Remaining()) && token == Head(tokens)
        invariant continueRunning ==>
                    && machine.Valid() && noErrors && error.Absent? && fault.Absent?
                    && LeadsTo(machine.View(), tokens, calls, ending, total)
        invariant !continueRunning ==> calls == total && Reports(ending, noErrors, error, fault, context.View())
        decreases continueRunning, |tokens|, ReissueRank(machine.at)
      {
        var status := machine.HandleNext(token, tokens, calls, ending, total);
        calls := calls + 1;
        SteppedReports(status, machine.View(), tokens, calls, ending, total);
        var reissue := false;
        match status {
          case Continue =>
          case Terminate =>
            continueRunning := false;
          case TerminateWithError(kind) =>
            error := Present(kind);
            continueRunning := false;
            noErrors := false;
          case ReissueEvent =>
            reissue := true;
          case Violation(f) =>
            fault := Present(f);
            continueRunning := false;
            noErrors := false;
        }
        if continueRunning && !reissue {
          if token.kind == EndOfInput {
            fault := Present(EndOfInputNotFinal);
            continueRunning := false;
            noErrors := false;
          } else {
            tokens := tokens[1..];
            token := tokenizer.NextToken();
          }
        }
      }
    }
  }

  lemma {:induction false} StartLeads(s: Config, tokens: seq<Token>)
    ensures LeadsTo(s, tokens, 0, Run(s, tokens), Calls(s, tokens))
  {
  }
}
