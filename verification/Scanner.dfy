/**
 The per-argument character machine of the tokenizer, and the closed form of
 what it emits.
 */
module Scanner {
  import opened Tokens

  datatype ScanState =
    | AtInitial
    | AtValue
    | AtOption
    | AtShortOption
    | AtDashDash
    | AtLongOption
    | AtFinal

  /** The whole state of the machine: the current state, the fields of the state
      objects that have any, and the tokens emitted so far. */
  datatype Scan = Scan(
    at: ScanState,
    valueText: string,
    longText: string,
    afterEqualSign: bool,
    emitted: seq<Token>)
  {
    function Emit(kind: TokenType, text: string): Scan {
      this.(emitted := emitted + [Token(kind, text)])
    }
  }

  const START := Scan(AtInitial, "", "", false, [])

  /** One `InputChar` event: handling, then leaving and entering on a transition. */
  function Step(s: Scan, ch: char): Scan {
    match s.at
    case AtInitial =>
      if ch == '-' then s.(at := AtOption)
      else s.(at := AtValue, valueText := s.valueText + [ch])
    case AtValue => s.(valueText := s.valueText + [ch])
    case AtOption =>
      if ch == '-' then s.(at := AtDashDash)
      else s.(at := AtShortOption).Emit(ShortOption, [ch])
    case AtShortOption => s.Emit(ShortOption, [ch])
    case AtDashDash => s.(at := AtLongOption, longText := s.longText + [ch])
    case AtLongOption =>
      if ch == '=' then
        s.Emit(LongOption, s.longText).Emit(EqualSign, "=").(afterEqualSign := true)
      else if s.afterEqualSign then
        s.(at := AtValue, afterEqualSign := false, valueText := s.valueText + [ch])
      else
        s.(longText := s.longText + [ch])
    case AtFinal => s
  }

  /** The `InputEnd` event. */
  function End(s: Scan): Scan {
    match s.at
    case AtValue => s.Emit(Value, s.valueText).(at := AtFinal)
    case AtOption => s.Emit(LoneDash, "-").(at := AtFinal)
    case AtDashDash => s.Emit(DashDash, "--").(at := AtFinal)
    case AtLongOption => s.Emit(LongOption, s.longText).(at := AtFinal)
    case _ => s.(at := AtFinal)
  }

  function Feed(s: Scan, text: string): Scan
    decreases text
  {
    if text == "" then s else Feed(Step(s, text[0]), text[1..])
  }

  /** The machine as an object whose fields the events update. */
  class CharMachine {
    var at: ScanState
    var valueText: string
    var longText: string
    var afterEqualSign: bool
    var emitted: seq<Token>

    ghost function View(): Scan
      reads this
    {
      Scan(at, valueText, longText, afterEqualSign, emitted)
    }

    constructor ()
      ensures View() == START
    {
      at, valueText, longText, afterEqualSign, emitted := AtInitial, "", "", false, [];
    }

    method HandleChar(ch: char)
      modifies this
      ensures View() == Step(old(View()), ch)
    {
      match at {
        case AtInitial =>
          if ch == '-' {
            at := AtOption;
          } else {
            at := AtValue;
            valueText := valueText + [ch];
          }
        case AtValue =>
          valueText := valueText + [ch];
        case AtOption =>
          if ch == '-' {
            at := AtDashDash;
          } else {
            at := AtShortOption;
            emitted := emitted + [Token(ShortOption, [ch])];
          }
        case AtShortOption =>
          emitted := emitted + [Token(ShortOption, [ch])];
        case AtDashDash =>
          at := AtLongOption;
          longText := longText + [ch];
        case AtLongOption =>
          if ch == '=' {
            emitted := emitted + [Token(LongOption, longText)];
            emitted := emitted + [Token(EqualSign, "=")];
            afterEqualSign := true;
          } else if afterEqualSign {
            afterEqualSign := false;
            at := AtValue;
            valueText := valueText + [ch];
          } else {
            longText := longText + [ch];
          }
        case AtFinal =>
      }
    }

    method HandleEnd()
      modifies this
      ensures View() == End(old(View()))
    {
      match at {
        case AtValue => emitted := emitted + [Token(Value, valueText)];
        case AtOption => emitted := emitted + [Token(LoneDash, "-")];
        case AtDashDash => emitted := emitted + [Token(DashDash, "--")];
        case AtLongOption => emitted := emitted + [Token(LongOption, longText)];
        case _ =>
      }
      at := AtFinal;
    }
  }

  // ---- The closed form ------------------------------------------------------

  /** How many leading characters of `s` come before its first `=`. */
  function UntilEqual(s: string): (n: nat)
    ensures n <= |s|
    ensures forall i :: 0 <= i < n ==> s[i] != '='
    ensures n < |s| ==> s[n] == '='
  {
    if s == "" || s[0] == '=' then 0 else 1 + UntilEqual(s[1..])
  }

  /** How many `=` characters `s` starts with. */
  function EqualsRun(s: string): (n: nat)
    ensures n <= |s|
    ensures forall i :: 0 <= i < n ==> s[i] == '='
    ensures n < |s| ==> s[n] != '='
  {
    if s == "" || s[0] != '=' then 0 else 1 + EqualsRun(s[1..])
  }

  function Pairs(name: string, count: nat): (tokens: seq<Token>)
    ensures |tokens| == 2 * count
  {
    if count == 0 then [] else [Token(LongOption, name), Token(EqualSign, "=")] + Pairs(name, count - 1)
  }

  /** What follows the name: one pair per `=`, then the value, or the name once more. */
  function LongTail(name: string, s: string): seq<Token> {
    var equals := EqualsRun(s);
    var rest := s[equals..];
    Pairs(name, equals) + [if rest == "" then Token(LongOption, name) else Token(Value, rest)]
  }

  function ShortTokens(letters: string): seq<Token> {
    seq(|letters|, i requires 0 <= i < |letters| => Token(ShortOption, [letters[i]]))
  }

  /** The tokens of one argument, read off its shape. */
  function TokensOf(arg: string): seq<Token> {
    if arg == "" then []
    else if arg[0] != '-' then [Token(Value, arg)]
    else if |arg| == 1 then [Token(LoneDash, "-")]
    else if arg[1] != '-' then ShortTokens(arg[1..])
    else if |arg| == 2 then [Token(DashDash, "--")]
    else LongTail(LongName(arg), BehindName(arg))
  }

  /** The name of a long option; its first character may be anything, even '='. */
  function LongName(arg: string): string
    requires |arg| > 2
  {
    arg[2..3 + UntilEqual(arg[3..])]
  }

  function BehindName(arg: string): string
    requires |arg| > 2
  {
    arg[3 + UntilEqual(arg[3..])..]
  }

  lemma {:induction false} LongSplit(arg: string)
    requires |arg| > 2 && arg[0] == '-' && arg[1] == '-'
    ensures arg == "--" + LongName(arg) + BehindName(arg)
    ensures LongName(arg) == [arg[2]] + arg[3..][..UntilEqual(arg[3..])]
    ensures BehindName(arg) == arg[3..][UntilEqual(arg[3..])..]
    ensures BehindName(arg) != "" ==> BehindName(arg)[0] == '='
  {
  }

  lemma {:induction false} FeedValue(s: Scan, text: string)
    requires s.at == AtValue
    ensures Feed(s, text) == s.(valueText := s.valueText + text)
    decreases text
  {
    if text != "" {
      FeedValue(Step(s, text[0]), text[1..]);
      assert s.valueText + [text[0]] + text[1..] == s.valueText + text;
    } else {
      assert s.valueText + text == s.valueText;
    }
  }

  lemma {:induction false} FeedShort(s: Scan, letters: string)
    requires s.at == AtShortOption
    ensures Feed(s, letters) == s.(emitted := s.emitted + ShortTokens(letters))
    decreases letters
  {
    if letters != "" {
      FeedShort(Step(s, letters[0]), letters[1..]);
      assert ShortTokens(letters) == [Token(ShortOption, [letters[0]])] + ShortTokens(letters[1..]);
      assert s.emitted + [Token(ShortOption, [letters[0]])] + ShortTokens(letters[1..])
          == s.emitted + ShortTokens(letters);
    } else {
      assert s.emitted + ShortTokens(letters) == s.emitted;
    }
  }

  lemma {:induction false} FeedAfterEqual(s: Scan, text: string)
    requires s.at == AtLongOption && s.afterEqualSign && s.valueText == ""
    ensures End(Feed(s, text)).emitted == s.emitted + LongTail(s.longText, text)
    decreases text
  {
    if text == "" {
    } else if text[0] == '=' {
      var next := Step(s, '=');
      FeedAfterEqual(next, text[1..]);
      LongTailStep(s.longText, text);
      assert next.emitted + LongTail(s.longText, text[1..]) == s.emitted + LongTail(s.longText, text);
    } else {
      FeedValue(Step(s, text[0]), text[1..]);
      assert s.valueText + [text[0]] + text[1..] == text;
    }
  }

  lemma {:induction false} EmptyTail(name: string)
    ensures LongTail(name, "") == [Token(LongOption, name)]
  {
  }

  lemma {:induction false} FeedName(s: Scan, text: string)
    requires s.at == AtLongOption && !s.afterEqualSign && s.valueText == ""
    ensures var n := UntilEqual(text);
            End(Feed(s, text)).emitted == s.emitted + LongTail(s.longText + text[..n], text[n..])
    decreases text
  {
    hide LongTail;
    var n := UntilEqual(text);
    if text == "" {
      assert s.longText + text[..n] == s.longText;
      EmptyTail(s.longText);
    } else if text[0] == '=' {
      FeedAfterEqual(s.(afterEqualSign := true), text);
      assert s.longText + text[..n] == s.longText;
      assert text[n..] == text;
      assert Feed(s, text) == Feed(s.(afterEqualSign := true), text);
    } else {
      FeedName(Step(s, text[0]), text[1..]);
      assert s.longText + [text[0]] + text[1..][..n - 1] == s.longText + text[..n];
      assert text[1..][n - 1..] == text[n..];
    }
  }

  lemma {:induction false} FeedTwo(s: Scan, text: string)
    requires |text| >= 2
    ensures Feed(s, text) == Feed(Step(Step(s, text[0]), text[1]), text[2..])
  {
    assert text[1..][0] == text[1] && text[1..][1..] == text[2..];
  }

  lemma {:induction false} ScanValueArgument(arg: string)
    requires arg != "" && arg[0] != '-'
    ensures End(Feed(START, arg)).emitted == TokensOf(arg)
  {
    FeedValue(Step(START, arg[0]), arg[1..]);
    assert START.valueText + [arg[0]] + arg[1..] == arg;
  }

  lemma {:induction false} ScanShortArgument(arg: string)
    requires |arg| >= 2 && arg[0] == '-' && arg[1] != '-'
    ensures End(Feed(START, arg)).emitted == TokensOf(arg)
  {
    FeedTwo(START, arg);
    var short := Scan(AtShortOption, "", "", false, [Token(ShortOption, [arg[1]])]);
    assert Step(Step(START, arg[0]), arg[1]) == short;
    FeedShort(short, arg[2..]);
    assert ShortTokens(arg[1..]) == [Token(ShortOption, [arg[1]])] + ShortTokens(arg[2..]);
  }

  lemma {:induction false} FeedThree(s: Scan, text: string)
    requires |text| >= 3
    ensures Feed(s, text) == Feed(Step(Step(Step(s, text[0]), text[1]), text[2]), text[3..])
  {
    FeedTwo(s, text);
    assert text[2..][0] == text[2] && text[2..][1..] == text[3..];
  }

  lemma {:induction false} ScanLongArgument(arg: string)
    requires |arg| >= 3 && arg[0] == '-' && arg[1] == '-'
    ensures End(Feed(START, arg)).emitted == TokensOf(arg)
  {
    var named := Scan(AtLongOption, "", [arg[2]], false, []);
    assert Feed(START, arg) == Feed(named, arg[3..]) by {
      FeedThree(START, arg);
      assert START.longText + [arg[2]] == [arg[2]];
    }
    FeedName(named, arg[3..]);
    LongSplit(arg);
    assert [] + TokensOf(arg) == TokensOf(arg);
  }

  /** The character machine computes the closed form, for every string. */
  lemma {:induction false} ScanIsClosedForm(arg: string)
    ensures End(Feed(START, arg)).emitted == TokensOf(arg)
  {
    if arg == "" || arg == "-" || arg == "--" {
      if arg == "--" {
        FeedTwo(START, arg);
      }
    } else if arg[0] != '-' {
      ScanValueArgument(arg);
    } else if arg[1] != '-' {
      ScanShortArgument(arg);
    } else {
      ScanLongArgument(arg);
    }
  }

  method Tokenize(arg: string) returns (tokens: seq<Token>)
    ensures tokens == TokensOf(arg)
  {
    var machine := new CharMachine();
    var cursor := 0;
    while cursor != |arg|
      invariant 0 <= cursor <= |arg|
      invariant Feed(machine.View(), arg[cursor..]) == Feed(START, arg)
      decreases |arg| - cursor
    {
      assert arg[cursor..][0] == arg[cursor] && arg[cursor..][1..] == arg[cursor + 1..];
      machine.HandleChar(arg[cursor]);
      cursor := cursor + 1;
    }
    machine.HandleEnd();
    ScanIsClosedForm(arg);
    tokens := machine.emitted;
  }

  // ---- What every token list satisfies --------------------------------------

  lemma {:induction false} PairsShape(name: string, count: nat)
    ensures forall i :: 0 <= i < 2 * count ==>
              Pairs(name, count)[i] == if i % 2 == 0 then Token(LongOption, name) else Token(EqualSign, "=")
  {
    if count > 0 {
      PairsShape(name, count - 1);
    }
  }

  lemma {:induction false} LongTailFacts(name: string, s: string)
    requires name != "" && (s != "" ==> s[0] == '=')
    ensures var tail := LongTail(name, s);
            && |tail| <= 2 * |s| + 1
            && (s != "" ==> tail[0] == Token(LongOption, name))
            && (s == "" ==> tail == [Token(LongOption, name)])
            && (forall i :: 0 <= i < |tail| ==> tail[i].text != "" && tail[i].kind != EndOfInput)
            && EqualsFollowLong(tail)
  {
    PairsShape(name, EqualsRun(s));
  }

  /** Texts are never empty, `=` only follows a long option, and an argument
      yields at most two tokens per character. */
  lemma {:induction false} TokenFacts(arg: string)
    ensures Tokenized(TokensOf(arg))
    ensures forall t :: t in TokensOf(arg) ==> t.text != ""
    ensures |TokensOf(arg)| <= 2 * |arg|
    ensures TokensOf(arg) == [] <==> arg == ""
  {
    if |arg| > 2 && arg[0] == '-' && arg[1] == '-' {
      LongSplit(arg);
      LongTailFacts(LongName(arg), BehindName(arg));
    }
  }

  // ---- Rendering tokens back to the argument --------------------------------

  function Join(tokens: seq<Token>): string {
    if tokens == [] then "" else tokens[0].text + Join(tokens[1..])
  }

  /** Behind the first long option token the name is not written again. */
  function RenderTail(tokens: seq<Token>): string {
    if tokens == [] then ""
    else (if tokens[0].kind == LongOption then "" else tokens[0].text) + RenderTail(tokens[1..])
  }

  function Render(tokens: seq<Token>): string {
    if tokens == [] then ""
    else
      match tokens[0].kind
      case ShortOption => "-" + Join(tokens)
      case LongOption => "--" + tokens[0].text + RenderTail(tokens[1..])
      case _ => tokens[0].text
  }

  lemma {:induction false} JoinShort(letters: string)
    ensures Join(ShortTokens(letters)) == letters
  {
    if letters != "" {
      JoinShort(letters[1..]);
      assert ShortTokens(letters)[1..] == ShortTokens(letters[1..]);
    }
  }

  lemma {:induction false} LongTailStep(name: string, s: string)
    requires s != "" && s[0] == '='
    ensures LongTail(name, s) == [Token(LongOption, name), Token(EqualSign, "=")] + LongTail(name, s[1..])
  {
    assert s[EqualsRun(s)..] == s[1..][EqualsRun(s[1..])..];
  }

  lemma {:induction false} RenderPair(name: string, rest: seq<Token>)
    ensures RenderTail([Token(LongOption, name), Token(EqualSign, "=")] + rest) == "=" + RenderTail(rest)
  {
    var tail := [Token(EqualSign, "=")] + rest;
    assert ([Token(LongOption, name), Token(EqualSign, "=")] + rest)[1..] == tail;
    assert tail[1..] == rest;
  }

  lemma {:induction false} RenderLongTail(name: string, s: string)
    ensures RenderTail(LongTail(name, s)) == s
  {
    if s == "" || s[0] != '=' {
      var last := LongTail(name, s);
      assert last == [if s == "" then Token(LongOption, name) else Token(Value, s)];
      assert last[1..] == [];
      assert s + "" == s;
    } else {
      LongTailStep(name, s);
      RenderPair(name, LongTail(name, s[1..]));
      RenderLongTail(name, s[1..]);
    }
  }

  lemma {:induction false} RoundTripShort(arg: string)
    requires |arg| > 1 && arg[0] == '-' && arg[1] != '-'
    ensures Render(TokensOf(arg)) == arg
  {
    JoinShort(arg[1..]);
    assert "-" + arg[1..] == arg;
  }

  lemma {:induction false} RoundTripLong(arg: string)
    requires |arg| > 2 && arg[0] == '-' && arg[1] == '-'
    ensures Render(TokensOf(arg)) == arg
  {
    LongSplit(arg);
    RenderLong(LongName(arg), BehindName(arg));
  }

  lemma {:induction false} RenderLong(name: string, s: string)
    requires name != "" && (s != "" ==> s[0] == '=')
    ensures Render(LongTail(name, s)) == "--" + name + s
  {
    var tail := LongTail(name, s);
    LongTailFacts(name, s);
    RenderLongTail(name, s);
    assert tail[0] == Token(LongOption, name);
    assert RenderTail(tail) == RenderTail(tail[1..]);
  }

  /** Rendering inverts tokenization, for every string. */
  lemma {:induction false} RoundTrip(arg: string)
    ensures Render(TokensOf(arg)) == arg
  {
    if |arg| > 1 && arg[0] == '-' {
      if arg[1] != '-' {
        RoundTripShort(arg);
      } else if |arg| > 2 {
        RoundTripLong(arg);
      }
    }
  }

  /** Different arguments never yield the same tokens. */
  lemma {:induction false} Injective(arg: string, other: string)
    requires TokensOf(arg) == TokensOf(other)
    ensures arg == other
  {
    RoundTrip(arg);
    RoundTrip(other);
  }
}
