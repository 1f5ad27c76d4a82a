/** Concrete local parts from the repository's table tests, checked against
    the flags `CheckFlags` carries into the verdict, and the input on which
    splitting names at byte offsets changes the verdict. The Unicode tables
    are assumed sound on ASCII. */
module EmailPatternExamples {
  import opened Wrappers
  import opened Text
  import opened EmailPattern

  /** Addresses without exactly one `@` between non-empty sides are errors. */
  lemma {:induction false} MalformedAddresses(o: Oracles)
    ensures Check(DefaultConfig, o, "").Err?
    ensures Check(DefaultConfig, o, "@").Err?
    ensures Check(DefaultConfig, o, "test").Err?
    ensures Check(DefaultConfig, o, "@domain.com").Err?
    ensures Check(DefaultConfig, o, "test@").Err?
    ensures Check(DefaultConfig, o, "test@@domain.com").Err?
  {
    assert IndexOf("@domain.com", '@') == 0;
    assert IndexOf("test@", '@') == 4;
    assert Count("test@@domain.com", '@') >= 2;
  }

  /** Six digits in a row are too many by default, five are not, and two
      runs of three separated by letters do not add up; with a maximum of
      three, four digits are too many. */
  lemma {:induction false} DigitRuns(o: Oracles)
    requires Sound(o)
    ensures !HasConsecutiveNumbers(DefaultConfig, o, "john12345")
    ensures HasConsecutiveNumbers(DefaultConfig, o, "john123456")
    ensures !HasConsecutiveNumbers(DefaultConfig, o, "john123abc456")
    ensures HasConsecutiveNumbers(Config(5, 3, Ratio(1, 5)), o, "user1234")
  {
    var s1, s3 := "john12345", "john123abc456";
    LongestDigitRunSpec(o, s1, 5);
    forall i, j | DigitsIn(o, s1, i, j) ensures j - i <= 5 {
      NonDigitBlocks(o, s1, i, j, 3);
    }
    LongestDigitRunSpec(o, s3, 5);
    forall i, j | DigitsIn(o, s3, i, j) ensures j - i <= 5 {
      NonDigitBlocks(o, s3, i, j, 3);
      NonDigitBlocks(o, s3, i, j, 7);
    }
    LongestDigitRunSpec(o, "john123456", 5);
    assert DigitsIn(o, "john123456", 4, 10);
    LongestDigitRunSpec(o, "user1234", 3);
    assert DigitsIn(o, "user1234", 4, 8);
  }

  /** Two special runes in five exceed both 30% and 20%. */
  lemma {:induction false} SpecialCharsInitials(o: Oracles)
    requires Sound(o)
    ensures TooManySpecialChars(DefaultConfig, o, "a.b_c")
    ensures TooManySpecialChars(Config(5, 3, Ratio(1, 5)), o, "a.b_c")
  {
    assert SpecialCount(o, "a.b_c") == 2 by {
      assert "a.b_c"[1..] == ".b_c" && ".b_c"[1..] == "b_c" && "b_c"[1..] == "_c" && "_c"[1..] == "c";
    }
  }

  /** One special rune in eight stays under 30%. */
  lemma {:induction false} SpecialCharsDottedName(o: Oracles)
    requires Sound(o)
    ensures !TooManySpecialChars(DefaultConfig, o, "john.doe")
  {
    assert SpecialCount(o, "john.doe") == 1 by {
      assert SpecialCount(o, "doe") == 0 by {
        assert "doe"[1..] == "oe" && "oe"[1..] == "e";
      }
      assert "john.doe"[1..] == "ohn.doe" && "ohn.doe"[1..] == "hn.doe" && "hn.doe"[1..] == "n.doe";
      assert "n.doe"[1..] == ".doe" && ".doe"[1..] == "doe";
    }
  }

  /** Walks along a keyboard row, forwards or backwards, are found; two runes are too few. */
  lemma {:induction false} KeyboardWalks(o: Oracles)
    requires Sound(o)
    ensures HasKeyboardSeq(o, "qwer")
    ensures HasKeyboardSeq(o, "asdf")
    ensures HasKeyboardSeq(o, "trewq")
    ensures !HasKeyboardSeq(o, "qw")
  {
    assert Lower(o, "qwer") == "qwer";
    assert OccursAt(KeyboardRows[0], "qwer", 0);
    assert "qwer"[0..0 + 4] == "qwer";
    assert WindowIn(KeyboardRows[0], "qwer", 0, 4);
    assert RowMatches(0, Lower(o, "qwer"));
    assert Lower(o, "asdf") == "asdf";
    assert OccursAt(KeyboardRows[1], "asdf", 0);
    assert "asdf"[0..0 + 4] == "asdf";
    assert WindowIn(KeyboardRows[1], "asdf", 0, 4);
    assert RowMatches(1, Lower(o, "asdf"));
    assert Lower(o, "trewq") == "trewq";
    assert Reverse(KeyboardRows[0]) == "poiuytrewq";
    assert OccursAt("poiuytrewq", "trew", 5);
    assert "trewq"[0..0 + 4] == "trew";
    assert WindowIn(Reverse(KeyboardRows[0]), "trewq", 0, 4);
    assert RowMatches(0, Lower(o, "trewq"));
  }

  // ---------------------------------------------------------------------
  // Byte offsets used as rune indices
  // ---------------------------------------------------------------------

  /** "дмитрий": seven Cyrillic letters, two bytes each in UTF-8. */
  const Dmitriy: string := "\U{0434}\U{043C}\U{0438}\U{0442}\U{0440}\U{0438}\U{0439}"

  /** The name followed by five digits, a plausible local part. */
  const DmitriyDigits: string := Dmitriy + "19842"

  /** What the Unicode tables say about the runes of `s`: lower-case letters. */
  predicate LowerLetters(o: Oracles, s: string) {
    forall i :: 0 <= i < |s| ==> o.isLetter(s[i]) && o.isLower(s[i]) && o.toLower(s[i]) == s[i]
  }

  /** The runes of the name lie outside ASCII, and the tail is ASCII digits. */
  lemma {:induction false} DmitriyRunes()
    ensures |DmitriyDigits| == 12
    ensures forall i :: 0 <= i < 7 ==> '\U{0080}' <= DmitriyDigits[i] < '\U{0800}'
    ensures forall i :: 7 <= i < 12 ==> IsAsciiDigit(DmitriyDigits[i])
    ensures DmitriyDigits[..7] == Dmitriy && DmitriyDigits[7..] == "19842"
    ensures DmitriyDigits[..6] == Dmitriy[..6]
  {
    assert forall i :: 0 <= i < 7 ==> DmitriyDigits[i] == Dmitriy[i];
    assert forall i :: 7 <= i < 12 ==> DmitriyDigits[i] == "19842"[i - 7];
  }

  /** As written, the last letter sits at byte offset 12, past the end of the
      twelve runes, so the digits stay attached; by rune index the name and
      the digits come apart. */
  lemma {:induction false} DmitriySplit(o: Oracles)
    requires Sound(o) && LowerLetters(o, Dmitriy)
    ensures SplitAsWritten(o, DmitriyDigits) == [DmitriyDigits]
    ensures SplitLettersAndTrailingNumbers(o, DmitriyDigits) == [Dmitriy, "19842"]
  {
    var s := DmitriyDigits;
    DmitriyRunes();
    assert forall i :: 7 <= i < 12 ==> o.isDigit(s[i]) && !LetterLike(o, s[i]);
    assert LetterLike(o, s[6]);
    assert LetterDigitsBoundary(o, s, 7);
    SplitSpec(o, s);
    assert LastLetterIndex(o, s) == 6;
    LastLetterByteOffsetSpec(o, s);
    ByteLenTwoByte(s[..6]);
    assert LastLetterByteOffset(o, s) == 12;
  }

  /** Every rune of the local part is a letter or a digit, so lower-casing
      changes nothing and no separator splits it. */
  lemma {:induction false} DmitriyFields(o: Oracles)
    requires Sound(o) && LowerLetters(o, Dmitriy)
    ensures Lower(o, DmitriyDigits) == DmitriyDigits
    ensures FieldsBy(Lower(o, DmitriyDigits), IsNameSeparator) == [DmitriyDigits]
    ensures forall mode :: NameParts(o, [DmitriyDigits], mode) == Split(o, DmitriyDigits, mode)
  {
    var s := DmitriyDigits;
    DmitriyRunes();
    assert forall i :: 0 <= i < 7 ==> s[i] == Dmitriy[i];
    assert forall i :: 0 <= i < |s| ==> o.toLower(s[i]) == s[i];
    assert Lower(o, s) == s;
    assert forall i :: 0 <= i < |s| ==> o.isLetter(s[i]) || o.isDigit(s[i]);
    FieldsBySingle(s, IsNameSeparator);
    forall mode ensures NameParts(o, [s], mode) == Split(o, s, mode) {
      assert [s][1..] == [];
      assert Split(o, s, mode) + [] == Split(o, s, mode);
    }
  }

  /** Undivided, the local part is not a valid name part: twelve runes of
      which five are digits exceed the 0.4 digit share. */
  lemma {:induction false} DmitriyWholeInvalid(o: Oracles)
    requires Sound(o) && LowerLetters(o, Dmitriy)
    ensures !IsValidNamePart(o, DmitriyDigits)
  {
    var s := DmitriyDigits;
    DmitriyRunes();
    assert forall i :: 7 <= i < 12 ==> o.isDigit(s[i]) && !LetterLike(o, s[i]);
    assert forall i :: 0 <= i < 5 ==> o.isDigit("19842"[i]);
    assert forall i :: 0 <= i < 7 ==> LetterLike(o, Dmitriy[i]) && !o.isDigit(Dmitriy[i]);
    assert ByteLen(s) == 19 by {
      ByteLenTwoByte(Dmitriy);
      ByteLenAscii("19842");
      ByteLenAppend(Dmitriy, "19842");
    }
    assert !IsLikelyYear(o, s);
    assert !IsAllLetters(o, s) by {
      assert !LetterLike(o, s[7]);
    }
    assert !HasNameWithTrailingNumbers(o, s) by {
      HasNameWithTrailingNumbersSpec(o, s);
      forall k ensures !NameThenDigits(o, s, k) {
        assert !NameRune(o, s[7]);
      }
    }
    SwitchesLettersThenDigits(o, Dmitriy, "19842");
    assert Tally(s, o.isDigit) == 5 by {
      TallyAppend(Dmitriy, "19842", o.isDigit);
      TallyUniform(Dmitriy, o.isDigit);
      TallyUniform("19842", o.isDigit);
    }
  }

  /** Divided, the letters form a valid name part. */
  lemma {:induction false} DmitriyNameValid(o: Oracles)
    requires Sound(o) && LowerLetters(o, Dmitriy)
    ensures IsValidNamePart(o, Dmitriy)
  {
    ByteLenTwoByte(Dmitriy);
    assert ByteLen(Dmitriy) == 14;
    assert IsAllLetters(o, Dmitriy);
  }

  /** So does the short run of digits after it. */
  lemma {:induction false} DigitsPartValid(o: Oracles)
    requires Sound(o)
    ensures IsValidNamePart(o, "19842")
  {
    var d := "19842";
    assert forall i :: 0 <= i < 5 ==> o.isDigit(d[i]) && !LetterLike(o, d[i]);
    ByteLenAscii(d);
    assert !IsAllLetters(o, d) by {
      assert !LetterLike(o, d[0]);
    }
    assert !HasNameWithTrailingNumbers(o, d) by {
      assert o.isDigit(d[0]);
    }
    SwitchesWithoutLetters(o, d);
  }

  /** `a` is never directly followed by `b` in `row`. */
  predicate NoPair(row: string, a: char, b: char) {
    forall j :: 0 <= j < |row| - 1 ==> row[j] != a || row[j + 1] != b
  }

  /** A row fit to rule out the windows of the local part: ASCII, with
      neither "19" nor "84" in it. */
  predicate RowAvoidsDmitriy(row: string) {
    IsAscii(row) && NoPair(row, '1', '9') && NoPair(row, '8', '4')
  }

  /** A row of lower-case ASCII letters, read either way, is such a row. */
  lemma {:induction false} LetterRowAvoidsDmitriy(row: string)
    requires forall j :: 0 <= j < |row| ==> 'a' <= row[j] <= 'z'
    ensures RowAvoidsDmitriy(row) && RowAvoidsDmitriy(Reverse(row))
  {
    assert forall j :: 0 <= j < |row| ==> 'a' <= Reverse(row)[j] <= 'z' by {
      forall j | 0 <= j < |row| ensures 'a' <= Reverse(row)[j] <= 'z' {
        assert Reverse(row)[j] == row[|row| - 1 - j];
      }
    }
  }

  /** The digit row, read either way, is such a row. */
  lemma {:induction false} DigitRowAvoidsDmitriy(row: string)
    requires row == "1234567890"
    ensures RowAvoidsDmitriy(row) && RowAvoidsDmitriy(Reverse(row))
  {
    var back := Reverse(row);
    assert forall j :: 0 <= j < 9 ==> row[j] as int == '1' as int + j;
    assert row[9] == '0';
    assert forall j :: 0 <= j < 10 ==> back[j] == row[9 - j];
    assert IsAscii(row) && IsAscii(back);
    assert NoPair(row, '1', '9') && NoPair(row, '8', '4');
    assert NoPair(back, '1', '9') && NoPair(back, '8', '4');
  }

  /** Every keyboard row, read either way, is such a row. */
  lemma {:induction false} KeyboardRowsAvoidDmitriy()
    ensures forall k :: 0 <= k < |KeyboardRows| ==>
      RowAvoidsDmitriy(KeyboardRows[k]) && RowAvoidsDmitriy(Reverse(KeyboardRows[k]))
  {
    forall k | 0 <= k < |KeyboardRows|
      ensures RowAvoidsDmitriy(KeyboardRows[k]) && RowAvoidsDmitriy(Reverse(KeyboardRows[k]))
    {
      if k == 6 {
        DigitRowAvoidsDmitriy(KeyboardRows[k]);
      } else {
        LetterRowAvoidsDmitriy(KeyboardRows[k]);
      }
    }
  }

  /** No four-rune window of the local part lies in such a row: a window
      reaching into the name holds a rune outside ASCII, and the two
      windows of digits hold "19" or "84". */
  lemma {:induction false} DmitriyWindowsOffRow(row: string)
    requires RowAvoidsDmitriy(row)
    ensures !ContainsSequence(row, DmitriyDigits, 4)
  {
    var s := DmitriyDigits;
    DmitriyRunes();
    forall i | 0 <= i <= 8 ensures !WindowIn(row, s, i, 4) {
      if i < 7 {
        assert s[i] !in row;
        WindowNeedsRowRunes(row, s, i, 4, i);
      } else if i == 7 {
        assert s[7..11] == "1984";
        WindowNeedsRowPair(row, "1984", 0);
      } else {
        assert s[8..12] == "9842";
        WindowNeedsRowPair(row, "9842", 1);
      }
    }
  }

  /** No four-rune window is a keyboard walk. */
  lemma {:induction false} DmitriyNoKeyboardWalk(o: Oracles)
    requires Sound(o) && LowerLetters(o, Dmitriy)
    ensures !HasKeyboardSeq(o, DmitriyDigits)
  {
    DmitriyFields(o);
    KeyboardRowsAvoidDmitriy();
    forall k | 0 <= k < |KeyboardRows| ensures !RowMatches(k, DmitriyDigits) {
      DmitriyWindowsOffRow(KeyboardRows[k]);
      DmitriyWindowsOffRow(Reverse(KeyboardRows[k]));
    }
  }

  /** The name cuts every digit run at position 6, so none exceeds five. */
  lemma {:induction false} DmitriyDigitRuns(o: Oracles)
    requires Sound(o) && LowerLetters(o, Dmitriy)
    ensures !HasConsecutiveNumbers(DefaultConfig, o, DmitriyDigits)
  {
    var s := DmitriyDigits;
    DmitriyRunes();
    assert forall i :: 0 <= i < 7 ==> s[i] == Dmitriy[i] && !o.isDigit(s[i]);
    LongestDigitRunSpec(o, s, DefaultConfig.maxConsecutiveNumbers);
    forall i, j | DigitsIn(o, s, i, j) ensures j - i <= 5 {
      if i < 7 {
        assert !o.isDigit(s[i]);
      }
    }
  }

  /** Letters and digits only: no special runes, one case throughout, and
      the human pattern matches. */
  lemma {:induction false} DmitriyPlainRunes(o: Oracles)
    requires Sound(o) && LowerLetters(o, Dmitriy)
    ensures !TooManySpecialChars(DefaultConfig, o, DmitriyDigits)
    ensures !ManyCaseSwitch(o, DmitriyDigits)
    ensures HumanPattern(o, DmitriyDigits)
  {
    var s := DmitriyDigits;
    DmitriyRunes();
    assert forall i :: 0 <= i < 7 ==> s[i] == Dmitriy[i];
    assert forall i :: 7 <= i < 12 ==> o.isDigit(s[i]) && o.isNumber(s[i]);
    SpecialCountZero(o, s);
    forall i | 0 <= i < |s| ensures CaseOf(o, s[i]) == -1 || CaseOf(o, s[i]) == 0 {
    }
    CaseSwitchesUniform(o, s, 0);
  }

  /** The name verdict flips with the split. */
  lemma {:induction false} DmitriyNameVerdicts(o: Oracles)
    requires Sound(o) && LowerLetters(o, Dmitriy)
    ensures !LooksLikeHumanName(o, DmitriyDigits, ByteOffsets)
    ensures LooksLikeHumanName(o, DmitriyDigits, RuneIndices)
  {
    DmitriyFields(o);
    DmitriySplit(o);
    DmitriyWholeInvalid(o);
    DmitriyNameValid(o);
    DigitsPartValid(o);
    var whole := NameParts(o, FieldsBy(Lower(o, DmitriyDigits), IsNameSeparator), ByteOffsets);
    var split := NameParts(o, FieldsBy(Lower(o, DmitriyDigits), IsNameSeparator), RuneIndices);
    assert whole == [DmitriyDigits];
    assert split == [Dmitriy, "19842"];
    assert !IsValidNamePart(o, whole[0]);
  }

  /** With it flips the second random-pattern rule: as written the
      twelve-rune non-name is random, split by rune index it is not. */
  lemma {:induction false} DmitriyVerdicts(o: Oracles)
    requires Sound(o) && LowerLetters(o, Dmitriy)
    ensures SecondRandomRule(DefaultConfig, o, DmitriyDigits, ByteOffsets)
    ensures !SecondRandomRule(DefaultConfig, o, DmitriyDigits, RuneIndices)
  {
    DmitriyRunes();
    DmitriyNameVerdicts(o);
    DmitriyNoKeyboardWalk(o);
    DmitriyDigitRuns(o);
    DmitriyPlainRunes(o);
  }

  /** At any domain, `Check` as written reports "дмитрий19842" as a random
      pattern, while the corrected split does not. */
  lemma {:induction false} DmitriyCheck(o: Oracles, domain: string)
    requires Sound(o) && LowerLetters(o, Dmitriy)
    requires domain != [] && '@' !in domain
    ensures CheckAsWritten(DefaultConfig, o, DmitriyDigits + "@" + domain).Ok?
    ensures CheckAsWritten(DefaultConfig, o, DmitriyDigits + "@" + domain).value.hasRandomPattern
    ensures Check(DefaultConfig, o, DmitriyDigits + "@" + domain).Ok?
    ensures !Check(DefaultConfig, o, DmitriyDigits + "@" + domain).value.hasRandomPattern
  {
    var email := DmitriyDigits + "@" + domain;
    DmitriyRunes();
    assert forall i :: 0 <= i < 7 ==> DmitriyDigits[i] == Dmitriy[i] && o.isLetter(DmitriyDigits[i]);
    assert '@' !in DmitriyDigits;
    assert SplitsAs(email, DmitriyDigits, domain);
    CheckFlags(DefaultConfig, o, email, DmitriyDigits, domain, ByteOffsets);
    CheckFlags(DefaultConfig, o, email, DmitriyDigits, domain, RuneIndices);
    DmitriyVerdicts(o);
  }
}
