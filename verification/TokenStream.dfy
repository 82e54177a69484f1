/** The lazy token stream over a list of arguments. */
module TokenStream {
  import opened Tokens
  import opened Scanner

  /** The tokens pulled before the first `EndOfInput`: an empty argument has no
      token, so pulling it already yields `EndOfInput`. */
  function StreamOf(args: seq<string>): seq<Token> {
    if args == [] || args[0] == "" then [] else TokensOf(args[0]) + StreamOf(args[1..])
  }

  lemma {:induction false} PopFront(pending: seq<Token>, later: seq<Token>)
    requires pending != []
    ensures pending + later != []
    ensures (pending + later)[0] == pending[0] && (pending + later)[1..] == pending[1..] + later
  {
  }

  lemma {:induction false} StreamNext(args: seq<string>, cursor: nat)
    requires cursor < |args|
    ensures TokensOf(args[cursor]) == [] ==> StreamOf(args[cursor..]) == []
    ensures TokensOf(args[cursor]) != [] ==>
              StreamOf(args[cursor..]) == TokensOf(args[cursor]) + StreamOf(args[cursor + 1..])
    ensures [] + StreamOf(args[cursor..]) == StreamOf(args[cursor..])
  {
    TokenFacts(args[cursor]);
    assert args[cursor..][0] == args[cursor] && args[cursor..][1..] == args[cursor + 1..];
  }

  /** The tokens still to be handled: the one in hand, then the rest of the stream. */
  ghost function InHand(token: Token, stream: seq<Token>): seq<Token> {
    if token.kind == EndOfInput then [] else [token] + stream
  }

  /** What a tokenizer holds: its arguments, how many of them it has split, and the
      tokens of the last of these that have not been pulled yet. */
  datatype Stream = Stream(args: seq<string>, cursor: nat, tokens: seq<Token>)
  {
    predicate Valid() {
      cursor <= |args|
    }

    function Remaining(): seq<Token>
      requires Valid()
    {
      tokens + StreamOf(args[cursor..])
    }
  }

  /** One pull: a pending token, else the first one of the next argument, if it has any. */
  function Pull(s: Stream): (r: (Token, Stream))
    requires s.Valid()
    ensures r.1.Valid()
  {
    if s.tokens != [] then (s.tokens[0], s.(tokens := s.tokens[1..]))
    else if s.cursor == |s.args| then (END_OF_INPUT, s)
    else
      var next := TokensOf(s.args[s.cursor]);
      if next == [] then (END_OF_INPUT, s.(cursor := s.cursor + 1))
      else (next[0], s.(cursor := s.cursor + 1, tokens := next[1..]))
  }

  /** A pull takes the first token of what remains; on a dry stream it yields the end of
      input and skips at most the one empty argument the stream stopped at. */
  lemma {:induction false} PullTakesFirst(s: Stream)
    requires s.Valid()
    ensures s.Remaining() != [] ==>
              Pull(s).0 == s.Remaining()[0] && Pull(s).1.Remaining() == s.Remaining()[1..]
    ensures s.Remaining() == [] ==>
              Pull(s) == (END_OF_INPUT, if s.cursor < |s.args| then s.(cursor := s.cursor + 1) else s)
  {
    if s.tokens != [] {
      PopFront(s.tokens, StreamOf(s.args[s.cursor..]));
    } else if s.cursor < |s.args| {
      StreamNext(s.args, s.cursor);
      var next := TokensOf(s.args[s.cursor]);
      if next != [] {
        PopFront(next, StreamOf(s.args[s.cursor + 1..]));
      }
    }
  }

  lemma {:induction false} NoEndPulled(tokens: seq<Token>)
    ensures tokens != [] && NoEnd(tokens) ==> tokens[0].kind != EndOfInput && InHand(tokens[0], tokens[1..]) == tokens
  {
  }

  class Tokenizer {
    const args: seq<string>
    var cursor: nat
    var tokens: seq<Token>

    ghost predicate Valid()
      reads this
    {
      View().Valid()
    }

    ghost function View(): Stream
      reads this
    {
      Stream(args, cursor, tokens)
    }

    constructor (args: seq<string>)
      ensures Valid() && View() == Stream(args, 0, []) && View().Remaining() == StreamOf(args)
    {
      this.args := args;
      cursor := 0;
      tokens := [];
      new;
      assert this.args[cursor..] == args;
    }

    method NextToken() returns (token: Token)
      requires Valid()
      modifies this
      ensures Valid()
      ensures (token, View()) == Pull(old(View()))
      ensures NoEnd(old(View()).Remaining()) ==>
                && InHand(token, View().Remaining()) == old(View()).Remaining()
                && (token.kind == EndOfInput <==> old(View()).Remaining() == [])
                && (token.kind == EndOfInput ==> token == END_OF_INPUT)
    {
      hide StreamOf, TokensOf, NoEnd;
      PullTakesFirst(View());
      NoEndPulled(View().Remaining());
      if tokens != [] {
        token := tokens[0];
        tokens := tokens[1..];
        return;
      }
      if cursor != |args| {
        var arg := args[cursor];
        cursor := cursor + 1;
        tokens := Tokenize(arg);
        if tokens != [] {
          token := tokens[0];
          tokens := tokens[1..];
          return;
        }
      }
      token := END_OF_INPUT;
    }

    predicate HasMoreTokens()
      reads this
    {
      tokens != [] || cursor != |args|
    }
  }

  // ---- Many pulls --------------------------------------------------------------

  /** The tokens that `count` pulls yield. */
  function Pulled(s: Stream, count: nat): (tokens: seq<Token>)
    requires s.Valid()
    ensures |tokens| == count
    decreases count
  {
    if count == 0 then [] else [Pull(s).0] + Pulled(Pull(s).1, count - 1)
  }

  function EndsOfInput(count: nat): (tokens: seq<Token>)
    ensures |tokens| == count
  {
    seq(count, _ => END_OF_INPUT)
  }

  /** The pulls yield what remains, in order, and then the end of input. */
  lemma {:induction false} PulledIsRemaining(s: Stream)
    requires s.Valid()
    ensures Pulled(s, |s.Remaining()| + 1) == s.Remaining() + [END_OF_INPUT]
    decreases |s.Remaining()|
  {
    hide Pull, Pulled, Stream.Remaining;
    PullTakesFirst(s);
    PulledStep(s, |s.Remaining()| + 1);
    if s.Remaining() != [] {
      PulledIsRemaining(Pull(s).1);
      assert s.Remaining() == [Pull(s).0] + Pull(s).1.Remaining();
    }
  }

  ghost predicate NoEmptyAhead(s: Stream) {
    forall i :: s.cursor <= i < |s.args| ==> s.args[i] != ""
  }

  lemma {:induction false} PullKeepsNoEmpty(s: Stream)
    requires s.Valid() && NoEmptyAhead(s)
    ensures NoEmptyAhead(Pull(s).1)
  {
    hide TokensOf;
  }

  lemma {:induction false} ArgumentAhead(s: Stream)
    requires s.Valid() && (s.cursor < |s.args| ==> s.args[s.cursor] != "")
    ensures s.cursor < |s.args| ==> s.Remaining() != []
  {
    if s.cursor < |s.args| {
      TokenFacts(s.args[s.cursor]);
      StreamNext(s.args, s.cursor);
    }
  }

  /** Without an empty argument ahead a dry stream holds nothing, and a pull leaves it so. */
  lemma {:induction false} DryStays(s: Stream)
    requires s.Valid() && NoEmptyAhead(s) && s.Remaining() == []
    ensures s.tokens == [] && s.cursor == |s.args| && Pull(s) == (END_OF_INPUT, s)
  {
    ArgumentAhead(s);
  }

  lemma {:induction false} PulledStep(s: Stream, count: nat)
    requires s.Valid() && count > 0
    ensures Pulled(s, count) == [Pull(s).0] + Pulled(Pull(s).1, count - 1)
  {
  }

  /** Without an empty argument ahead the pulls yield what remains, and from then on the
      end of input, however often one pulls. */
  lemma {:induction false} DryForever(s: Stream, more: nat)
    requires s.Valid() && NoEmptyAhead(s)
    ensures Pulled(s, |s.Remaining()| + more) == s.Remaining() + EndsOfInput(more)
    decreases |s.Remaining()|, more
  {
    hide Pull, Pulled, NoEmptyAhead, Stream.Remaining, EndsOfInput;
    var next := Pull(s).1;
    if s.Remaining() != [] {
      PullTakesFirst(s);
      PullKeepsNoEmpty(s);
      PulledStep(s, |s.Remaining()| + more);
      DryForever(next, more);
      assert s.Remaining() == [Pull(s).0] + next.Remaining();
    } else if more > 0 {
      DryStays(s);
      PulledStep(s, more);
      DryForever(s, more - 1);
      MoreEnds(more);
    }
  }

  lemma {:induction false} MoreEnds(count: nat)
    requires count > 0
    ensures EndsOfInput(count) == [END_OF_INPUT] + EndsOfInput(count - 1)
  {
  }

  // ---- The stream as a concatenation ----------------------------------------

  /** The position of the first empty argument. */
  function FirstEmpty(args: seq<string>): (n: nat)
    ensures n <= |args|
    ensures forall i :: 0 <= i < n ==> args[i] != ""
    ensures n < |args| ==> args[n] == ""
  {
    if args == [] || args[0] == "" then 0 else 1 + FirstEmpty(args[1..])
  }

  /** The tokens of one argument after the other. */
  function Concatenated(args: seq<string>): seq<Token> {
    if args == [] then [] else TokensOf(args[0]) + Concatenated(args[1..])
  }

  lemma {:induction false} StreamIsConcatenation(args: seq<string>)
    ensures StreamOf(args) == Concatenated(args[..FirstEmpty(args)])
  {
    if args != [] && args[0] != "" {
      var before := args[..FirstEmpty(args)];
      StreamIsConcatenation(args[1..]);
      assert before[0] == args[0];
      assert before[1..] == args[1..][..FirstEmpty(args[1..])];
    }
  }

  /** Whatever the arguments, the parser is only ever fed such a list. */
  lemma {:induction false} StreamTokenized(args: seq<string>)
    ensures Tokenized(StreamOf(args))
  {
    if args != [] && args[0] != "" {
      TokenFacts(args[0]);
      StreamTokenized(args[1..]);
    }
  }
}
