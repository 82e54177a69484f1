/** Conversion of option texts to integers and flags. */
module Numbers {
  import opened Optionals

  // ---- Decimal numerals -----------------------------------------------------

  predicate IsSpace(ch: char) {
    ch == ' ' || ch == '\t' || ch == '\n' || ch == '\U{0B}' || ch == '\U{0C}' || ch == '\r'
  }

  predicate IsDigit(ch: char) {
    '0' <= ch <= '9'
  }

  predicate AllSpace(s: string) {
    forall i :: 0 <= i < |s| ==> IsSpace(s[i])
  }

  predicate AllDigits(s: string) {
    forall i :: 0 <= i < |s| ==> IsDigit(s[i])
  }

  function Magnitude(digits: string): nat
    requires AllDigits(digits)
  {
    if digits == "" then 0
    else 10 * Magnitude(digits[..|digits| - 1]) + (digits[|digits| - 1] as int - '0' as int)
  }

  /** `text` is optional white space, an optional sign, and one or more digits. */
  predicate IsNumeral(text: string, space: string, sign: string, digits: string) {
    && text == space + sign + digits
    && AllSpace(space)
    && (sign == "" || sign == "+" || sign == "-")
    && digits != ""
    && AllDigits(digits)
  }

  function NumeralValue(sign: string, digits: string): int
    requires AllDigits(digits)
  {
    var magnitude: int := Magnitude(digits);
    if sign == "-" then -magnitude else magnitude
  }

  // ---- strtoll and strtoull in base 10, section 7.22.1.4 of C11 ---------------

  const INT64_MIN: int := -0x8000_0000_0000_0000
  const INT64_MAX: int := 0x7FFF_FFFF_FFFF_FFFF
  const UINT64_MAX: int := 0xFFFF_FFFF_FFFF_FFFF

  /** The return value of a function that may throw. */
  datatype Outcome<+T> = Returned(value: T) | InvalidArgument | OutOfRange

  datatype Number = Number(value: int, consumed: nat)

  function SpaceRun(s: string): (n: nat)
    ensures n <= |s| && AllSpace(s[..n])
    ensures n < |s| ==> !IsSpace(s[n])
  {
    if s == "" || !IsSpace(s[0]) then 0 else 1 + SpaceRun(s[1..])
  }

  function DigitRun(s: string): (n: nat)
    ensures n <= |s| && AllDigits(s[..n])
    ensures n < |s| ==> !IsDigit(s[n])
  {
    if s == "" || !IsDigit(s[0]) then 0 else 1 + DigitRun(s[1..])
  }

  function SignLength(s: string): (n: nat)
    ensures n <= |s|
  {
    if s != "" && (s[0] == '+' || s[0] == '-') then 1 else 0
  }

  /** The subject sequence a conversion looks at: white space, sign and digits. */
  datatype Subject = Subject(space: string, sign: string, digits: string)

  function SubjectOf(s: string): (r: Subject)
    ensures AllSpace(r.space) && AllDigits(r.digits)
    ensures r.space + r.sign + r.digits <= s
    ensures r.sign == "" || r.sign == "+" || r.sign == "-"
  {
    var space := SpaceRun(s);
    var sign := SignLength(s[space..]);
    var digits := DigitRun(s[space + sign..]);
    Subject(s[..space], s[space..space + sign], s[space + sign..][..digits])
  }

  function StringToLongLong(s: string): Outcome<Number> {
    var subject := SubjectOf(s);
    if subject.digits == "" then InvalidArgument
    else
      var value := NumeralValue(subject.sign, subject.digits);
      if INT64_MIN <= value <= INT64_MAX then
        Returned(Number(value, |subject.space| + |subject.sign| + |subject.digits|))
      else
        OutOfRange
  }

  /** Negation in the unsigned 64-bit type. */
  function Negated(magnitude: nat): int {
    (UINT64_MAX + 1 - magnitude) % (UINT64_MAX + 1)
  }

  /** A minus sign negates in the unsigned type: `strtoull` wraps around. */
  function StringToUnsignedLongLong(s: string): Outcome<Number> {
    var subject := SubjectOf(s);
    if subject.digits == "" then InvalidArgument
    else
      var magnitude := Magnitude(subject.digits);
      if magnitude > UINT64_MAX then OutOfRange
      else
        var value := if subject.sign == "-" then Negated(magnitude) else magnitude;
        Returned(Number(value, |subject.space| + |subject.sign| + |subject.digits|))
  }

  lemma {:induction false} SpaceRunOf(space: string, rest: string)
    requires AllSpace(space) && (rest != "" ==> !IsSpace(rest[0]))
    ensures SpaceRun(space + rest) == |space|
  {
    if space == "" {
      assert space + rest == rest;
    } else {
      assert (space + rest)[1..] == space[1..] + rest;
      SpaceRunOf(space[1..], rest);
    }
  }

  lemma {:induction false} DigitRunOf(digits: string)
    requires AllDigits(digits)
    ensures DigitRun(digits) == |digits|
  {
    if digits != "" {
      DigitRunOf(digits[1..]);
    }
  }

  lemma {:induction false} SplitInThree(text: string, a: string, b: string, c: string)
    requires text == a + b + c
    ensures text == a + (b + c)
    ensures text[..|a|] == a && text[|a|..] == b + c
    ensures text[|a|..|a| + |b|] == b && text[|a| + |b|..] == c
  {
  }

  lemma {:induction false} SubjectOfNumeral(text: string, space: string, sign: string, digits: string)
    requires IsNumeral(text, space, sign, digits)
    ensures SubjectOf(text) == Subject(space, sign, digits)
  {
    SplitInThree(text, space, sign, digits);
    SpaceRunOf(space, sign + digits);
    assert SpaceRun(text) == |space|;
    assert SignLength(sign + digits) == |sign| by {
      if sign == "" {
        assert sign + digits == digits;
      }
    }
    DigitRunOf(digits);
    assert digits[..|digits|] == digits;
  }

  // ---- Integers -------------------------------------------------------------

  datatype Width = W8 | W16 | W32 | W64
  {
    function Modulus(): int {
      match this
      case W8 => 0x100
      case W16 => 0x1_0000
      case W32 => 0x1_0000_0000
      case W64 => 0x1_0000_0000_0000_0000
    }

    function Half(): int {
      match this
      case W8 => 0x80
      case W16 => 0x8000
      case W32 => 0x8000_0000
      case W64 => 0x8000_0000_0000_0000
    }

    predicate InSigned(value: int) {
      -Half() <= value < Half()
    }

    predicate InUnsigned(value: int) {
      0 <= value < Modulus()
    }

    /** A cast to the signed type of this width keeps the low bits. */
    function ToSigned(value: int): int {
      (value + Half()) % Modulus() - Half()
    }

    function ToUnsigned(value: int): int {
      value % Modulus()
    }
  }

  /** Present exactly when the source returns true; the value is its output. */
  function NumberConversion(width: Width, input: string): Optional<int> {
    match StringToLongLong(input)
    case Returned(number) =>
      var output := width.ToSigned(number.value);
      if number.consumed == |input| && output == number.value then Present(output) else Absent
    case _ => Absent
  }

  function UnsignedNumberConversion(width: Width, input: string): Optional<int> {
    if input != "" && input[0] == '-' then Absent
    else
      match StringToUnsignedLongLong(input)
      case Returned(number) =>
        var output := width.ToUnsigned(number.value);
        if number.consumed == |input| && output == number.value then Present(output) else Absent
      case _ => Absent
  }

  lemma {:induction false} SignedCastKeeps(width: Width, value: int)
    ensures width.ToSigned(value) == value <==> width.InSigned(value)
  {
    SmallRemainder(value + width.Half(), width.Modulus());
  }

  lemma {:induction false} UnsignedCastKeeps(width: Width, value: int)
    ensures width.ToUnsigned(value) == value <==> width.InUnsigned(value)
  {
    SmallRemainder(value, width.Modulus());
  }

  lemma {:induction false} SmallRemainder(value: int, modulus: int)
    requires modulus > 0
    ensures value % modulus == value <==> 0 <= value < modulus
  {
  }

  /** Signed conversion accepts exactly the numerals whose value fits the type,
      and yields that value. */
  lemma {:induction false} SignedExact(width: Width, input: string, value: int)
    ensures NumberConversion(width, input) == Present(value)
            <==> exists space, sign, digits ::
                   IsNumeral(input, space, sign, digits) && value == NumeralValue(sign, digits) && width.InSigned(value)
  {
    var r := SubjectOf(input);
    var exact := NumeralValue(r.sign, r.digits);
    SignedCastKeeps(width, exact);
    if NumberConversion(width, input) == Present(value) {
      assert r.space + r.sign + r.digits == input;
      assert IsNumeral(input, r.space, r.sign, r.digits);
    }
    forall space, sign, digits | IsNumeral(input, space, sign, digits) && width.InSigned(NumeralValue(sign, digits))
      ensures NumberConversion(width, input) == Present(NumeralValue(sign, digits))
    {
      SubjectOfNumeral(input, space, sign, digits);
    }
  }

  /** What the unsigned conversion makes of a numeral, before the range check:
      a minus sign is refused only in the very first character. */
  predicate UnsignedReading(space: string, sign: string, digits: string, value: int)
    requires AllDigits(digits)
  {
    && Magnitude(digits) <= UINT64_MAX
    && if sign == "-" && Magnitude(digits) > 0 then
         space != "" && value == 0x1_0000_0000_0000_0000 - Magnitude(digits)
       else (sign == "-" ==> space != "") && value == Magnitude(digits)
  }

  lemma {:induction false} NegatedIsDifference(magnitude: nat)
    requires magnitude <= UINT64_MAX
    ensures Negated(magnitude) == if magnitude == 0 then 0 else 0x1_0000_0000_0000_0000 - magnitude
  {
  }

  lemma {:induction false} UnsignedOfNumeral(
    width: Width, input: string, space: string, sign: string, digits: string, value: int)
    requires IsNumeral(input, space, sign, digits)
    ensures UnsignedNumberConversion(width, input) == Present(value)
            <==> UnsignedReading(space, sign, digits, value) && width.InUnsigned(value)
  {
    SubjectOfNumeral(input, space, sign, digits);
    FirstOfNumeral(input, space, sign, digits);
    UnsignedCastKeeps(width, value);
    if Magnitude(digits) <= UINT64_MAX {
      NegatedIsDifference(Magnitude(digits));
    }
  }

  lemma {:induction false} FirstOfNumeral(text: string, space: string, sign: string, digits: string)
    requires IsNumeral(text, space, sign, digits)
    ensures |text| == |space| + |sign| + |digits| && |text| > 0
    ensures text[0] == '-' <==> space == "" && sign == "-"
  {
    assert text[0] == if space != "" then space[0] else if sign != "" then sign[0] else digits[0];
  }

  lemma {:induction false} UnsignedNeedsNumeral(width: Width, input: string)
    requires UnsignedNumberConversion(width, input).Present?
    ensures exists space, sign, digits :: IsNumeral(input, space, sign, digits)
  {
    var r := SubjectOf(input);
    assert r.space + r.sign + r.digits == input;
    assert IsNumeral(input, r.space, r.sign, r.digits);
  }

  lemma {:induction false} UnsignedExact(width: Width, input: string, value: int)
    ensures UnsignedNumberConversion(width, input) == Present(value)
            <==> exists space, sign, digits ::
                   && IsNumeral(input, space, sign, digits)
                   && UnsignedReading(space, sign, digits, value) && width.InUnsigned(value)
  {
    if UnsignedNumberConversion(width, input) == Present(value) {
      UnsignedNeedsNumeral(width, input);
    }
    forall space, sign, digits | IsNumeral(input, space, sign, digits)
      ensures UnsignedNumberConversion(width, input) == Present(value)
              <==> UnsignedReading(space, sign, digits, value) && width.InUnsigned(value)
    {
      UnsignedOfNumeral(width, input, space, sign, digits, value);
    }
  }

  /** The unsigned conversion means to refuse a minus sign, but white space in
      front of it gets it through. */
  lemma {:induction false} UnsignedTakesMinusAfterSpace(digits: string)
    requires digits != "" && AllDigits(digits) && Magnitude(digits) < 0x1_0000_0000_0000_0000
    ensures UnsignedNumberConversion(W64, " -" + digits)
         == Present(if Magnitude(digits) == 0 then 0 else 0x1_0000_0000_0000_0000 - Magnitude(digits))
    ensures UnsignedNumberConversion(W64, "-" + digits) == Absent
  {
    hide UnsignedNumberConversion, Magnitude, AllDigits;
    var negated := if Magnitude(digits) == 0 then 0 else 0x1_0000_0000_0000_0000 - Magnitude(digits);
    MinusNumerals(digits);
    UnsignedOfNumeral(W64, " -" + digits, " ", "-", digits, negated);
    MinusRefused(W64, digits);
  }

  lemma {:induction false} MinusNumerals(digits: string)
    requires digits != "" && AllDigits(digits)
    ensures IsNumeral("-" + digits, "", "-", digits)
    ensures IsNumeral(" -" + digits, " ", "-", digits)
  {
    hide AllDigits;
    assert "-" + digits == "" + "-" + digits;
    assert " -" + digits == " " + "-" + digits;
  }

  lemma {:induction false} MinusRefused(width: Width, digits: string)
    ensures UnsignedNumberConversion(width, "-" + digits) == Absent
  {
    hide StringToUnsignedLongLong;
    assert ("-" + digits)[0] == '-';
  }

  lemma {:induction false} SignOccurs(text: string, space: string, sign: string, digits: string)
    requires IsNumeral(text, space, sign, digits) && sign == "-"
    ensures '-' in text
  {
    assert text[|space|] == '-';
  }

  /** Without a minus sign, accepted means: a numeral whose value fits the type. */
  lemma {:induction false} UnsignedExactWithoutMinus(width: Width, input: string, value: int)
    requires '-' !in input
    ensures UnsignedNumberConversion(width, input) == Present(value)
            <==> exists space, sign, digits ::
                   && IsNumeral(input, space, sign, digits)
                   && value == NumeralValue(sign, digits) && width.InUnsigned(value)
  {
    UnsignedExact(width, input, value);
    forall space, sign, digits | IsNumeral(input, space, sign, digits)
      ensures sign != "-"
      ensures width.InUnsigned(value) ==>
                (UnsignedReading(space, sign, digits, value) <==> value == NumeralValue(sign, digits))
    {
      if sign == "-" {
        SignOccurs(input, space, sign, digits);
      }
    }
  }

  // ---- Printing a number and reading it back ----------------------------------

  function PrintNat(n: nat): (s: string)
    ensures s != "" && AllDigits(s) && Magnitude(s) == n
  {
    var last := ('0' as int + n % 10) as char;
    if n < 10 then
      assert [last][..0] == "";
      [last]
    else
      var front := PrintNat(n / 10);
      assert (front + [last])[..|front|] == front;
      front + [last]
  }

  /** The text a stream prints for a number, as kept for default values. */
  function Print(n: int): string {
    if n < 0 then "-" + PrintNat(-n) else PrintNat(n)
  }

  lemma {:induction false} PrintedIsNumeral(n: int) returns (sign: string, digits: string)
    ensures IsNumeral(Print(n), "", sign, digits) && NumeralValue(sign, digits) == n && (sign == "-" <==> n < 0)
  {
    hide PrintNat, Magnitude;
    sign := if n < 0 then "-" else "";
    digits := PrintNat(if n < 0 then -n else n);
    assert Print(n) == "" + sign + digits;
  }

  lemma {:induction false} PrintParses(width: Width, n: int)
    requires width.InSigned(n)
    ensures NumberConversion(width, Print(n)) == Present(n)
  {
    var sign, digits := PrintedIsNumeral(n);
    SignedExact(width, Print(n), n);
  }

  lemma {:induction false} PrintParsesUnsigned(width: Width, n: int)
    requires width.InUnsigned(n)
    ensures UnsignedNumberConversion(width, Print(n)) == Present(n)
  {
    var sign, digits := PrintedIsNumeral(n);
    UnsignedOfNumeral(width, Print(n), "", sign, digits, n);
  }

  // ---- Characters and ranges in their own terms -----------------------------------

  /** What may stand in front of a digit: white space, a sign, or another digit. */
  lemma {:induction false} CharacterInFront(width: Width, ch: char)
    ensures NumberConversion(width, [ch, '7']) ==
            if ch == '+' || ch == ' ' || ch == '\t' || ch == '\n' || ch == '\r' || ch == '\U{0B}' || ch == '\U{0C}' then
              Present(7)
            else if ch == '-' then Present(-7)
            else if '0' <= ch <= '9' then Present(10 * (ch as int - '0' as int) + 7)
            else Absent
  {
    var text := [ch, '7'];
    TwoDigits(ch);
    if ch == '+' || ch == '-' || IsSpace(ch) {
      var space, sign := if IsSpace(ch) then [ch] else "", if IsSpace(ch) then "" else [ch];
      assert text == space + sign + "7";
      SignedOfNumeral(width, text, space, sign, "7");
    } else if IsDigit(ch) {
      assert text == "" + "" + text;
      SignedOfNumeral(width, text, "", "", text);
    } else {
      assert text[0..] == text;
    }
    hide NumberConversion, Magnitude;
  }

  lemma {:induction false} TwoDigits(ch: char)
    ensures Magnitude("7") == 7
    ensures IsDigit(ch) ==> AllDigits([ch, '7']) && Magnitude([ch, '7']) == 10 * (ch as int - '0' as int) + 7
  {
    assert "7"[..0] == "" && Magnitude("") == 0;
    assert [ch, '7'][..1] == [ch] && [ch][..0] == "";
  }

  lemma {:induction false} SignedOfNumeral(width: Width, input: string, space: string, sign: string, digits: string)
    requires IsNumeral(input, space, sign, digits)
    ensures var value := NumeralValue(sign, digits);
            NumberConversion(width, input) == if width.InSigned(value) then Present(value) else Absent
  {
    SubjectOfNumeral(input, space, sign, digits);
    SignedCastKeeps(width, NumeralValue(sign, digits));
    hide SubjectOf, Magnitude, Width.ToSigned;
  }

  /** A printed number is accepted exactly in the range of the type, in decimal. */
  lemma {:induction false} SignedRanges(n: int)
    ensures NumberConversion(W8, Print(n)).Present? <==> -128 <= n <= 127
    ensures NumberConversion(W16, Print(n)).Present? <==> -32768 <= n <= 32767
    ensures NumberConversion(W32, Print(n)).Present? <==> -2147483648 <= n <= 2147483647
    ensures NumberConversion(W64, Print(n)).Present? <==> -9223372036854775808 <= n <= 9223372036854775807
  {
    hide NumberConversion, Print;
    var sign, digits := PrintedIsNumeral(n);
    SignedOfNumeral(W8, Print(n), "", sign, digits);
    SignedOfNumeral(W16, Print(n), "", sign, digits);
    SignedOfNumeral(W32, Print(n), "", sign, digits);
    SignedOfNumeral(W64, Print(n), "", sign, digits);
  }

  lemma {:induction false} UnsignedRanges(n: int)
    ensures UnsignedNumberConversion(W8, Print(n)).Present? <==> 0 <= n <= 255
    ensures UnsignedNumberConversion(W16, Print(n)).Present? <==> 0 <= n <= 65535
    ensures UnsignedNumberConversion(W32, Print(n)).Present? <==> 0 <= n <= 4294967295
    ensures UnsignedNumberConversion(W64, Print(n)).Present? <==> 0 <= n <= 18446744073709551615
  {
    UnsignedRange(W8, n);
    UnsignedRange(W16, n);
    UnsignedRange(W32, n);
    UnsignedRange(W64, n);
    hide UnsignedNumberConversion, Print;
  }

  lemma {:induction false} UnsignedRange(width: Width, n: int)
    ensures UnsignedNumberConversion(width, Print(n)).Present? <==> width.InUnsigned(n)
  {
    hide UnsignedNumberConversion, Print;
    var sign, digits := PrintedIsNumeral(n);
    UnsignedOfNumeral(width, Print(n), "", sign, digits, n);
    if UnsignedNumberConversion(width, Print(n)).Present? {
      UnsignedOfNumeral(
        width, Print(n), "", sign, digits, UnsignedNumberConversion(width, Print(n)).value);
    }
  }

  // ---- Flags ------------------------------------------------------------------

  function Lower(ch: char): char {
    if 'A' <= ch <= 'Z' then (ch as int + 32) as char else ch
  }

  function ToLower(s: string): (r: string)
    ensures |r| == |s| && forall i :: 0 <= i < |s| ==> r[i] == Lower(s[i])
  {
    seq(|s|, i requires 0 <= i < |s| => Lower(s[i]))
  }

  predicate IsTrueWord(s: string) {
    s == "true" || s == "on" || s == "yes" || s == "enable"
  }

  predicate IsFalseWord(s: string) {
    s == "false" || s == "off" || s == "no" || s == "disable"
  }

  lemma {:induction false} WordsStartWithLetter(s: string)
    requires IsTrueWord(s) || IsFalseWord(s)
    ensures s != "" && s[0] > 'A'
  {
  }

  function StringToFlagValue(text: string): Outcome<int> {
    var val := ToLower(text);
    if |val| == 1 then
      var ch := val[0];
      if '1' <= ch <= '9' then Returned(ch as int - '0' as int)
      else if ch == '0' || ch == 'f' || ch == 'n' || ch == '-' then Returned(-1)
      else if ch == 't' || ch == 'y' || ch == '+' then Returned(1)
      else InvalidArgument
    else if IsTrueWord(val) then Returned(1)
    else if IsFalseWord(val) then Returned(-1)
    else
      match StringToLongLong(val)
      case Returned(number) => Returned(number.value)
      case InvalidArgument => InvalidArgument
      case OutOfRange => OutOfRange
  }

  /** Only the sign matters for a number too large for 64 bits. */
  function ParseFlag(input: string): Optional<bool> {
    match StringToFlagValue(input)
    case Returned(flag) => Present(flag > 0)
    case InvalidArgument => Absent
    case OutOfRange => Present(input == "" || input[0] != '-')
  }

  lemma {:induction false} NumeralHasNoLetters(text: string, space: string, sign: string, digits: string)
    requires IsNumeral(text, space, sign, digits)
    ensures forall i :: 0 <= i < |text| ==> text[i] < 'A'
    ensures ToLower(text) == text
  {
    forall i | 0 <= i < |text|
      ensures text[i] < 'A'
    {
      if i < |space| {
        assert text[i] == space[i];
      } else if i < |space| + |sign| {
        assert text[i] == sign[i - |space|];
      } else {
        assert text[i] == digits[i - |space| - |sign|];
      }
    }
  }

  lemma {:induction false} NumeralOfOneCharacter(text: string, space: string, sign: string, digits: string)
    requires IsNumeral(text, space, sign, digits) && |text| == 1
    ensures space == "" && sign == "" && digits == text
    ensures Magnitude(digits) == text[0] as int - '0' as int
  {
    assert digits == text;
    assert digits[..0] == "";
  }

  lemma {:induction false} FlagIsNumber(text: string)
    requires |text| > 1 && ToLower(text) == text && text[0] < 'A'
    ensures ParseFlag(text) ==
            match StringToLongLong(text)
            case Returned(number) => Present(number.value > 0)
            case InvalidArgument => Absent
            case OutOfRange => Present(text[0] != '-')
  {
    if IsTrueWord(text) || IsFalseWord(text) {
      WordsStartWithLetter(text);
    }
  }

  /** Every numeral of any length is accepted as a flag, and reads true exactly
      when it is positive, except one family: white space, then a minus sign, then
      a number below the 64-bit range. */
  lemma {:induction false} FlagSign(text: string, space: string, sign: string, digits: string)
    requires IsNumeral(text, space, sign, digits)
    ensures ParseFlag(text).Present?
    ensures ParseFlag(text).value == (NumeralValue(sign, digits) > 0)
            <==> !(space != "" && sign == "-" && NumeralValue(sign, digits) < INT64_MIN)
  {
    if |text| == 1 {
      NumeralOfOneCharacter(text, space, sign, digits);
      NumeralHasNoLetters(text, space, sign, digits);
    } else {
      FlagOfLongNumeral(text, space, sign, digits);
    }
  }

  lemma {:induction false} FlagOfLongNumeral(text: string, space: string, sign: string, digits: string)
    requires IsNumeral(text, space, sign, digits) && |text| > 1
    ensures var value := NumeralValue(sign, digits);
            ParseFlag(text) ==
            if INT64_MIN <= value <= INT64_MAX then Present(value > 0) else Present(!(space == "" && sign == "-"))
  {
    NumeralHasNoLetters(text, space, sign, digits);
    FirstOfNumeral(text, space, sign, digits);
    FlagIsNumber(text);
    SubjectOfNumeral(text, space, sign, digits);
  }

  /** Every number below the 64-bit range is in the failing family: a leading blank
      turns its flag from false to true. */
  lemma {:induction false} FlagSignFails(digits: string)
    requires digits != "" && AllDigits(digits) && Magnitude(digits) > 0x8000_0000_0000_0000
    ensures ParseFlag(" -" + digits) == Present(true)
    ensures ParseFlag("-" + digits) == Present(false)
  {
    hide ParseFlag, Magnitude, AllDigits, IsNumeral;
    MinusNumerals(digits);
    FlagSign(" -" + digits, " ", "-", digits);
    FlagSign("-" + digits, "", "-", digits);
  }
}
