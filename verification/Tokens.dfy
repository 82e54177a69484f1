/** Typed tokens: what the tokenizer hands to the parser. */
module Tokens {

  datatype TokenType =
    | ShortOption
    | LongOption
    | LoneDash
    | DashDash
    | Value
    | EqualSign
    | EndOfInput

  datatype Token = Token(kind: TokenType, text: string)

  const END_OF_INPUT := Token(EndOfInput, "")

  /** A list of tokens taken from the stream before its first `EndOfInput`. */
  predicate NoEnd(tokens: seq<Token>) {
    forall i :: 0 <= i < |tokens| ==> tokens[i].kind != EndOfInput
  }

  /** `=` tokens only ever come directly behind a long option token. */
  predicate EqualsFollowLong(tokens: seq<Token>) {
    forall i :: 0 < i < |tokens| && tokens[i].kind == EqualSign ==> tokens[i - 1].kind == LongOption
  }

  predicate Tokenized(tokens: seq<Token>) {
    && NoEnd(tokens)
    && EqualsFollowLong(tokens)
    && (tokens != [] ==> tokens[0].kind != EqualSign)
  }

  function ValueTokens(texts: seq<string>): (tokens: seq<Token>)
    ensures |tokens| == |texts|
  {
    seq(|texts|, i requires 0 <= i < |texts| => Token(Value, texts[i]))
  }
}
