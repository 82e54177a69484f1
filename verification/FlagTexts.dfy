/** Which texts are flags, and which flag each of them is: the conversion of module
    `Numbers` in closed form, for every string. */
module FlagTexts {
  import opened Optionals
  import opened Numbers

  /** The character is the letter, or the capital of it. */
  predicate SameLetter(ch: char, letter: char) {
    ch == letter || ('A' <= ch <= 'Z' && letter as int - 'a' as int == ch as int - 'A' as int)
  }

  ghost predicate Reads(text: string, word: string) {
    |text| == |word| && forall i :: 0 <= i < |text| ==> SameLetter(text[i], word[i])
  }

  ghost predicate MeansTrue(text: string) {
    || Reads(text, "true") || Reads(text, "on") || Reads(text, "yes") || Reads(text, "enable")
    || Reads(text, "t") || Reads(text, "y") || text == "+"
  }

  ghost predicate MeansFalse(text: string) {
    || Reads(text, "false") || Reads(text, "off") || Reads(text, "no") || Reads(text, "disable")
    || Reads(text, "f") || Reads(text, "n") || text == "-"
  }

  /** The text starts with this numeral, and the digits go no further. */
  predicate NumeralPrefix(text: string, space: string, sign: string, digits: string) {
    var n := |space| + |sign| + |digits|;
    && n <= |text| && IsNumeral(text[..n], space, sign, digits)
    && (n < |text| ==> !IsDigit(text[n]))
  }

  /** A numeral is true when it is positive, or when white space hides the minus sign of
      a number below the 64-bit range. */
  predicate NumeralFlag(space: string, sign: string, digits: string)
    requires AllDigits(digits)
  {
    NumeralValue(sign, digits) > 0 || (space != "" && NumeralValue(sign, digits) < -0x8000_0000_0000_0000)
  }

  // ---- Case folding ------------------------------------------------------------------

  ghost predicate NoCapitals(word: string) {
    forall i :: 0 <= i < |word| ==> !('A' <= word[i] <= 'Z')
  }

  lemma {:induction false} LowerIsSameLetter(ch: char, letter: char)
    requires !('A' <= letter <= 'Z')
    ensures Lower(ch) == letter <==> SameLetter(ch, letter)
  {
  }

  lemma {:induction false} ReadsIsLower(text: string, word: string)
    requires NoCapitals(word)
    ensures Reads(text, word) <==> ToLower(text) == word
  {
    hide Lower, SameLetter;
    forall i | 0 <= i < |text| && |text| == |word|
      ensures SameLetter(text[i], word[i]) <==> ToLower(text)[i] == word[i]
    {
      LowerIsSameLetter(text[i], word[i]);
    }
  }

  lemma {:induction false} TrueWords(text: string)
    requires |text| != 1
    ensures MeansTrue(text) <==> IsTrueWord(ToLower(text))
  {
    ReadsIsLower(text, "true");
    ReadsIsLower(text, "on");
    ReadsIsLower(text, "yes");
    ReadsIsLower(text, "enable");
  }

  lemma {:induction false} FalseWords(text: string)
    requires |text| != 1
    ensures MeansFalse(text) <==> IsFalseWord(ToLower(text))
  {
    ReadsIsLower(text, "false");
    ReadsIsLower(text, "off");
    ReadsIsLower(text, "no");
    ReadsIsLower(text, "disable");
  }

  lemma {:induction false} LowerKeepsNumerals(ch: char)
    ensures IsSpace(Lower(ch)) <==> IsSpace(ch)
    ensures IsDigit(Lower(ch)) <==> IsDigit(ch)
    ensures IsSpace(ch) || IsDigit(ch) || ch == '+' || ch == '-' ==> Lower(ch) == ch
    ensures Lower(ch) == '+' || Lower(ch) == '-' ==> Lower(ch) == ch
  {
  }

  lemma {:induction false} SpaceRunLower(text: string)
    ensures SpaceRun(ToLower(text)) == SpaceRun(text)
  {
    if text != "" {
      LowerKeepsNumerals(text[0]);
      SpaceRunLower(text[1..]);
      assert ToLower(text)[1..] == ToLower(text[1..]);
    }
  }

  lemma {:induction false} DigitRunLower(text: string)
    ensures DigitRun(ToLower(text)) == DigitRun(text)
  {
    if text != "" {
      LowerKeepsNumerals(text[0]);
      DigitRunLower(text[1..]);
      assert ToLower(text)[1..] == ToLower(text[1..]);
    }
  }

  lemma {:induction false} LowerFrom(text: string, i: nat)
    requires i <= |text|
    ensures ToLower(text)[i..] == ToLower(text[i..])
  {
  }

  lemma {:induction false} LowerSame(text: string)
    requires forall i :: 0 <= i < |text| ==> IsSpace(text[i]) || IsDigit(text[i]) || text[i] == '+' || text[i] == '-'
    ensures ToLower(text) == text
  {
    forall i | 0 <= i < |text|
      ensures Lower(text[i]) == text[i]
    {
      LowerKeepsNumerals(text[i]);
    }
  }

  lemma {:induction false} SignLower(text: string)
    ensures SignLength(ToLower(text)) == SignLength(text)
  {
    if text != "" {
      LowerKeepsNumerals(text[0]);
    }
  }

  lemma {:induction false} SpacesStay(text: string)
    ensures ToLower(text)[..SpaceRun(text)] == text[..SpaceRun(text)]
  {
    hide Lower, IsSpace, IsDigit, SpaceRun;
    var spaces := text[..SpaceRun(text)];
    LowerSame(spaces);
    assert ToLower(text)[..|spaces|] == ToLower(spaces);
  }

  lemma {:induction false} DigitsStay(text: string)
    ensures ToLower(text)[..DigitRun(text)] == text[..DigitRun(text)]
  {
    hide Lower, IsSpace, IsDigit, DigitRun;
    var digits := text[..DigitRun(text)];
    LowerSame(digits);
    assert ToLower(text)[..|digits|] == ToLower(digits);
  }

  lemma {:induction false} SignStays(text: string)
    ensures ToLower(text)[..SignLength(text)] == text[..SignLength(text)]
  {
    if text != "" {
      LowerKeepsNumerals(text[0]);
    }
    hide Lower;
  }

  lemma {:induction false} SubjectByTails(text: string)
    ensures var space := SpaceRun(text);
            var signed := text[space..];
            var sign := SignLength(signed);
            var tail := text[space + sign..];
            SubjectOf(text) == Subject(text[..space], signed[..sign], tail[..DigitRun(tail)])
  {
    hide SpaceRun, DigitRun, SignLength;
    var space := SpaceRun(text);
    var sign := SignLength(text[space..]);
    assert text[space..space + sign] == text[space..][..sign];
  }

  /** Case folding does not touch the numeral a text starts with. */
  lemma {:induction false} SubjectLower(text: string)
    ensures SubjectOf(ToLower(text)) == SubjectOf(text)
  {
    hide SpaceRun, DigitRun, SignLength, ToLower, IsSpace, IsDigit, SubjectOf, AllSpace, AllDigits;
    SubjectByTails(text);
    SubjectByTails(ToLower(text));
    var space := SpaceRun(text);
    SpaceRunLower(text);
    SpacesStay(text);
    LowerFrom(text, space);
    SignLower(text[space..]);
    SignStays(text[space..]);
    var tail := space + SignLength(text[space..]);
    LowerFrom(text, tail);
    DigitRunLower(text[tail..]);
    DigitsStay(text[tail..]);
  }

  // ---- The numeral a text starts with ---------------------------------------------------

  lemma {:induction false} DigitRunBefore(digits: string, rest: string)
    requires AllDigits(digits) && (rest != "" ==> !IsDigit(rest[0]))
    ensures DigitRun(digits + rest) == |digits|
  {
    if digits == "" {
      assert digits + rest == rest;
    } else {
      assert (digits + rest)[1..] == digits[1..] + rest;
      DigitRunBefore(digits[1..], rest);
    }
  }

  lemma {:induction false} SubjectOfPrefix(text: string, space: string, sign: string, digits: string)
    requires NumeralPrefix(text, space, sign, digits)
    ensures SubjectOf(text) == Subject(space, sign, digits)
  {
    var n := |space| + |sign| + |digits|;
    var rest := text[n..];
    assert text == text[..n] + rest;
    assert text == space + sign + (digits + rest);
    SplitInThree(text, space, sign, digits + rest);
    SpaceRunOf(space, sign + (digits + rest));
    assert SignLength(sign + (digits + rest)) == |sign| by {
      if sign == "" {
        assert sign + (digits + rest) == digits + rest;
      }
    }
    DigitRunBefore(digits, rest);
    assert (digits + rest)[..|digits|] == digits;
  }

  lemma {:induction false} PrefixOfSubject(text: string)
    requires SubjectOf(text).digits != ""
    ensures var s := SubjectOf(text); NumeralPrefix(text, s.space, s.sign, s.digits)
  {
    hide SpaceRun, DigitRun, SignLength, SubjectOf, IsSpace, IsDigit, AllSpace, AllDigits;
    SubjectByTails(text);
    var s := SubjectOf(text);
    var n := |s.space| + |s.sign| + |s.digits|;
    assert text[..n] == s.space + s.sign + s.digits;
    var tail := text[|s.space| + |s.sign|..];
    assert n < |text| ==> text[n] == tail[DigitRun(tail)];
  }

  // ---- The closed form -------------------------------------------------------------------

  lemma {:induction false} NothingToRead(text: string)
    requires text != "" && text[0] > '9'
    ensures SubjectOf(text).digits == ""
  {
    hide IsDigit;
    assert text[0..] == text;
    assert !IsDigit(text[0]) by {
      LetterIsNoDigit(text[0]);
    }
  }

  lemma {:induction false} LetterIsNoDigit(ch: char)
    requires ch > '9'
    ensures !IsDigit(ch) && !IsSpace(ch)
  {
  }

  lemma {:induction false} WordsDiffer(word: string)
    ensures !(IsTrueWord(word) && IsFalseWord(word))
  {
  }

  lemma {:induction false} LowerLetter(ch: char)
    requires Lower(ch) > 'A'
    ensures ch > '9'
  {
  }

  lemma {:induction false} LongWordsAreApart(text: string)
    requires |text| != 1 && (MeansTrue(text) || MeansFalse(text))
    ensures SubjectOf(text).digits == "" && !(MeansTrue(text) && MeansFalse(text))
  {
    TrueWords(text);
    FalseWords(text);
    hide MeansTrue, MeansFalse, SubjectOf, IsTrueWord, IsFalseWord, Lower;
    WordsStartWithLetter(ToLower(text));
    WordsDiffer(ToLower(text));
    LowerLetter(text[0]);
    NothingToRead(text);
  }

  lemma {:induction false} OneCharacter(text: string)
    requires |text| == 1
    ensures MeansTrue(text) <==> SameLetter(text[0], 't') || SameLetter(text[0], 'y') || text[0] == '+'
    ensures MeansFalse(text) <==> SameLetter(text[0], 'f') || SameLetter(text[0], 'n') || text[0] == '-'
  {
    hide SameLetter;
    assert text == [text[0]];
  }

  lemma {:induction false} SubjectOfOne(text: string)
    requires |text| == 1
    ensures SubjectOf(text).digits == if IsDigit(text[0]) then text else ""
  {
    assert text[1..] == "" && text[0..] == text && SpaceRun("") == 0 && DigitRun("") == 0;
    hide IsDigit, IsSpace;
    if IsDigit(text[0]) {
      FlagOfDigit(text);
    }
  }

  lemma {:induction false} FoldOne(text: string)
    requires |text| == 1
    ensures ToLower(text) == [Lower(text[0])]
  {
  }

  lemma {:induction false} OneCharacterMeaning(ch: char)
    ensures SameLetter(ch, 't') || SameLetter(ch, 'y') || ch == '+'
            <==> Lower(ch) == 't' || Lower(ch) == 'y' || Lower(ch) == '+'
    ensures SameLetter(ch, 'f') || SameLetter(ch, 'n') || ch == '-'
            <==> Lower(ch) == 'f' || Lower(ch) == 'n' || Lower(ch) == '-'
    ensures IsDigit(ch) <==> '0' <= Lower(ch) <= '9'
    ensures IsDigit(ch) ==> Lower(ch) == ch
  {
  }

  /** Texts of one character: a digit, one of four letters, or a sign. */
  lemma {:induction false} FlagOfOneCharacter(text: string)
    requires |text| == 1
    ensures ParseFlag(text) ==
            if MeansTrue(text) then Present(true)
            else if MeansFalse(text) then Present(false)
            else if IsDigit(text[0]) then Present(text[0] != '0')
            else Absent
  {
    hide MeansTrue, MeansFalse, Lower, SameLetter, IsDigit, ToLower, StringToLongLong, IsTrueWord, IsFalseWord;
    OneCharacter(text);
    FoldOne(text);
    OneCharacterMeaning(text[0]);
  }

  lemma {:induction false} WordsAreApart(text: string)
    requires MeansTrue(text) || MeansFalse(text)
    ensures SubjectOf(text).digits == "" && !(MeansTrue(text) && MeansFalse(text))
  {
    if |text| == 1 {
      SubjectOfOne(text);
      OneCharacter(text);
    } else {
      LongWordsAreApart(text);
    }
    hide MeansTrue, MeansFalse, SubjectOf;
  }

  lemma {:induction false} FlagOfManyCharacters(text: string)
    requires |text| != 1 && !MeansTrue(text) && !MeansFalse(text)
    ensures var s := SubjectOf(text);
            ParseFlag(text) ==
            if s.digits == "" then Absent else Present(NumeralFlag(s.space, s.sign, s.digits))
  {
    hide MeansTrue, MeansFalse, ToLower, SubjectOf, IsTrueWord, IsFalseWord;
    TrueWords(text);
    FalseWords(text);
    SubjectLower(text);
    var s := SubjectOf(text);
    if s.digits != "" {
      PrefixOfSubject(text);
      var n := |s.space| + |s.sign| + |s.digits|;
      FirstOfNumeral(text[..n], s.space, s.sign, s.digits);
    }
  }

  lemma {:induction false} FlagOfDigit(text: string)
    requires |text| == 1 && IsDigit(text[0])
    ensures SubjectOf(text) == Subject("", "", text)
    ensures NumeralFlag("", "", text) == (text[0] != '0')
  {
    assert text == "" + "" + text;
    SubjectOfNumeral(text, "", "", text);
    NumeralOfOneCharacter(text, "", "", text);
  }

  lemma {:induction false} FlagBySubject(text: string)
    ensures var s := SubjectOf(text);
            ParseFlag(text) ==
            if MeansTrue(text) then Present(true)
            else if MeansFalse(text) then Present(false)
            else if s.digits == "" then Absent
            else Present(NumeralFlag(s.space, s.sign, s.digits))
  {
    if |text| == 1 {
      FlagOfOneCharacter(text);
      SubjectOfOne(text);
      if IsDigit(text[0]) {
        FlagOfDigit(text);
      }
    } else if MeansTrue(text) || MeansFalse(text) {
      TrueWords(text);
      FalseWords(text);
      WordsAreApart(text);
    } else {
      FlagOfManyCharacters(text);
    }
    hide MeansTrue, MeansFalse, SubjectOf, NumeralFlag, IsTrueWord, IsFalseWord, StringToLongLong;
  }

  /** A text is the flag `flag` exactly when it is one of the words and letters for it,
      in any case, or starts with a numeral that is this flag. */
  lemma {:induction false} FlagExactly(text: string, flag: bool)
    ensures ParseFlag(text) == Present(flag)
            <==> || (MeansTrue(text) && flag)
                 || (MeansFalse(text) && !flag)
                 || exists space, sign, digits ::
                      NumeralPrefix(text, space, sign, digits) && flag == NumeralFlag(space, sign, digits)
  {
    FlagBySubject(text);
    if MeansTrue(text) || MeansFalse(text) {
      WordsAreApart(text);
    }
    if SubjectOf(text).digits != "" {
      PrefixOfSubject(text);
    }
    forall space, sign, digits | NumeralPrefix(text, space, sign, digits)
      ensures SubjectOf(text) == Subject(space, sign, digits) && digits != ""
    {
      SubjectOfPrefix(text, space, sign, digits);
    }
    hide MeansTrue, MeansFalse, SubjectOf, NumeralFlag, ParseFlag;
  }

  /** Every other text is refused. */
  lemma {:induction false} FlagRefusedExactly(text: string)
    ensures ParseFlag(text) == Absent
            <==> && !MeansTrue(text) && !MeansFalse(text)
                 && forall space, sign, digits :: !NumeralPrefix(text, space, sign, digits)
  {
    hide MeansTrue, MeansFalse, ParseFlag, NumeralPrefix, AllDigits;
    FlagExactly(text, true);
    FlagExactly(text, false);
    forall space, sign, digits | NumeralPrefix(text, space, sign, digits)
      ensures ParseFlag(text).Present?
    {
      PrefixHasDigits(text, space, sign, digits);
      var flag := NumeralFlag(space, sign, digits);
      FlagExactly(text, flag);
    }
    if ParseFlag(text).Present? {
      var flag := ParseFlag(text).value;
      assert ParseFlag(text) == Present(flag);
      FlagExactly(text, flag);
    }
  }

  lemma {:induction false} PrefixHasDigits(text: string, space: string, sign: string, digits: string)
    requires NumeralPrefix(text, space, sign, digits)
    ensures AllDigits(digits)
  {
  }

  /** The number behind the flag: one or minus one for a word, letter or sign, the digit
      itself for a single digit but zero. */
  lemma {:induction false} FlagNumbers(text: string)
    ensures MeansTrue(text) ==> StringToFlagValue(text) == Returned(1)
    ensures MeansFalse(text) || text == "0" ==> StringToFlagValue(text) == Returned(-1)
    ensures |text| == 1 && '1' <= text[0] <= '9' ==>
              StringToFlagValue(text) == Returned(text[0] as int - '0' as int)
  {
    if |text| == 1 {
      OneCharacter(text);
      FoldOne(text);
      OneCharacterMeaning(text[0]);
      LowerKeepsNumerals(text[0]);
    } else {
      TrueWords(text);
      FalseWords(text);
      WordsDiffer(ToLower(text));
    }
    hide MeansTrue, MeansFalse, Lower, SameLetter, ToLower, StringToLongLong, IsTrueWord, IsFalseWord;
  }
}
