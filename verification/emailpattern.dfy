/** The local-part heuristics of the pattern checker: how an address is
    split at its `@`, and the flags raised for short local parts, long digit
    runs, many special characters, keyboard walks, case flipping and parts
    that do not look like a human name.

    Go's Unicode tables, `unicode.ToLower` and the Shannon-entropy test are
    taken as given functions (`Oracles`). Where the Go code measures a string
    with `len`, the model uses `ByteLen`, its UTF-8 length. */
module EmailPattern {
  import opened Wrappers
  import opened Text
  import Model

  // ---------------------------------------------------------------------
  // Unicode as given functions
  // ---------------------------------------------------------------------

  /** `unicode.IsLetter`, `IsMark`, `IsNumber`, `IsDigit`, `IsUpper`,
      `IsLower`, `unicode.ToLower`, and `calcEntropy(runes) > 3.5`. */
  datatype Oracles = Oracles(
    isLetter: char -> bool,
    isMark: char -> bool,
    isNumber: char -> bool,
    isDigit: char -> bool,
    isUpper: char -> bool,
    isLower: char -> bool,
    toLower: char -> char,
    highEntropy: seq<char> -> bool)

  /** What the Unicode tables say about ASCII, and that a decimal digit is
      neither a letter nor a mark and no rune is both upper and lower case. */
  predicate Sound(o: Oracles) {
    && (forall c: char :: c < '\U{0080}' ==> (o.isLetter(c) <==> 'a' <= c <= 'z' || 'A' <= c <= 'Z'))
    && (forall c: char :: c < '\U{0080}' ==> !o.isMark(c))
    && (forall c: char :: c < '\U{0080}' ==> (o.isNumber(c) <==> IsAsciiDigit(c)))
    && (forall c: char :: c < '\U{0080}' ==> (o.isDigit(c) <==> IsAsciiDigit(c)))
    && (forall c: char :: c < '\U{0080}' ==> (o.isUpper(c) <==> 'A' <= c <= 'Z'))
    && (forall c: char :: c < '\U{0080}' ==> (o.isLower(c) <==> 'a' <= c <= 'z'))
    && (forall c: char :: c < '\U{0080}' ==> o.toLower(c) == AsciiLowerRune(c))
    && (forall c: char :: o.isDigit(c) ==> !o.isLetter(c) && !o.isMark(c))
    && (forall c: char :: !(o.isUpper(c) && o.isLower(c)))
  }

  /** A rune the heuristics treat as part of a word: a letter or a combining mark. */
  predicate LetterLike(o: Oracles, c: char) {
    o.isLetter(c) || o.isMark(c)
  }

  /** A rune that is neither letter, digit nor mark. */
  predicate IsSpecial(o: Oracles, c: char) {
    !o.isLetter(c) && !o.isDigit(c) && !o.isMark(c)
  }

  /** Number of special runes in `s`. */
  function SpecialCount(o: Oracles, s: string): (n: nat)
    ensures n <= |s|
    decreases |s|
  {
    if s == [] then 0 else (if IsSpecial(o, s[0]) then 1 else 0) + SpecialCount(o, s[1..])
  }

  lemma {:induction false} SpecialCountZero(o: Oracles, s: string)
    requires forall i :: 0 <= i < |s| ==> !IsSpecial(o, s[i])
    ensures SpecialCount(o, s) == 0
    decreases |s|
  {
    if s != [] {
      assert forall i :: 0 <= i < |s[1..]| ==> s[1..][i] == s[i + 1];
      SpecialCountZero(o, s[1..]);
    }
  }

  /** Number of letters and marks in `s`. */
  function LetterCount(o: Oracles, s: string): (n: nat)
    ensures n <= |s|
    decreases |s|
  {
    if s == [] then 0 else (if LetterLike(o, s[0]) then 1 else 0) + LetterCount(o, s[1..])
  }

  /** The string with every rune lower-cased, as `strings.ToLower` does. */
  function Lower(o: Oracles, s: string): (r: string)
    ensures |r| == |s|
    ensures forall i :: 0 <= i < |s| ==> r[i] == o.toLower(s[i])
  {
    seq(|s|, i requires 0 <= i < |s| => o.toLower(s[i]))
  }

  // ---------------------------------------------------------------------
  // Configuration
  // ---------------------------------------------------------------------

  type Positive = n: int | n >= 1 witness 1

  /** A ratio `num / den`. Every finite `float64` is such a fraction, with a
      power of two as denominator. */
  datatype Ratio = Ratio(num: int, den: Positive)

  /** `maxSpecialCharRatio` is kept as an exact fraction. */
  datatype Config = Config(
    minLocalPartLength: int,
    maxConsecutiveNumbers: int,
    maxSpecialCharRatio: Ratio)

  /** Three runes minimum, at most five digits in a row, at most 30% special runes. */
  const DefaultConfig := Config(3, 5, Ratio(3, 10))

  // ---------------------------------------------------------------------
  // Digit runs
  // ---------------------------------------------------------------------

  /** Length of the run of digits that ends `s`: the loop's `count` after reading `s`. */
  function TrailingDigits(o: Oracles, s: string): (n: nat)
    ensures n <= |s|
    ensures forall i :: |s| - n <= i < |s| ==> o.isDigit(s[i])
    decreases |s|
  {
    if s == [] || !o.isDigit(s[|s| - 1]) then 0 else TrailingDigits(o, s[..|s| - 1]) + 1
  }

  /** The loop's `maxCount` after reading `s`. */
  function LongestDigitRun(o: Oracles, s: string): nat
    decreases |s|
  {
    if s == [] then 0
    else
      var before := LongestDigitRun(o, s[..|s| - 1]);
      var count := TrailingDigits(o, s);
      if count > before then count else before
  }

  /** `s[i..j]` is a run of digits. */
  predicate DigitsIn(o: Oracles, s: string, i: int, j: int) {
    0 <= i <= j <= |s| && forall k :: i <= k < j ==> o.isDigit(s[k])
  }

  /** `hasConsecutiveNumbers`: the longest run of digits exceeds the maximum. */
  predicate HasConsecutiveNumbers(cfg: Config, o: Oracles, s: string) {
    LongestDigitRun(o, s) > cfg.maxConsecutiveNumbers
  }

  /** A run of digits cannot stretch across a rune that is not a digit. */
  lemma {:induction false} NonDigitBlocks(o: Oracles, s: string, i: int, j: int, p: int)
    requires DigitsIn(o, s, i, j) && 0 <= p < |s| && !o.isDigit(s[p])
    ensures p < i || j <= p
  {
  }

  lemma {:induction false} TrailingDigitsAtLeast(o: Oracles, s: string, i: nat)
    requires DigitsIn(o, s, i, |s|)
    ensures TrailingDigits(o, s) >= |s| - i
    decreases |s|
  {
    if i < |s| {
      assert DigitsIn(o, s[..|s| - 1], i, |s| - 1);
      TrailingDigitsAtLeast(o, s[..|s| - 1], i);
    }
  }

  /** The scan's maximum exceeds `k` exactly when some contiguous run of
      more than `k` digits exists; separate runs are never added up. */
  lemma {:induction false} LongestDigitRunSpec(o: Oracles, s: string, k: int)
    ensures LongestDigitRun(o, s) > k <==> exists i, j :: DigitsIn(o, s, i, j) && j - i > k
    decreases |s|
  {
    if s == [] {
      if LongestDigitRun(o, s) > k {
        assert DigitsIn(o, s, 0, 0);
      }
    } else {
      var p := s[..|s| - 1];
      LongestDigitRunSpec(o, p, k);
      if LongestDigitRun(o, s) > k {
        if LongestDigitRun(o, p) > k {
          var i, j :| DigitsIn(o, p, i, j) && j - i > k;
          assert DigitsIn(o, s, i, j);
        } else {
          var t := TrailingDigits(o, s);
          assert DigitsIn(o, s, |s| - t, |s|);
        }
      }
      if exists i, j :: DigitsIn(o, s, i, j) && j - i > k {
        var i, j :| DigitsIn(o, s, i, j) && j - i > k;
        if j == |s| {
          TrailingDigitsAtLeast(o, s, i);
        } else {
          assert DigitsIn(o, p, i, j);
        }
      }
    }
  }

  // ---------------------------------------------------------------------
  // Keyboard walks
  // ---------------------------------------------------------------------

  /** English and German letter rows, then the digit row ("asdfghjkl" appears twice). */
  const KeyboardRows: seq<string> := [
    "qwertyuiop", "asdfghjkl", "zxcvbnm",
    "qwertzuiop", "asdfghjkl", "yxcvbnm",
    "1234567890"]

  const MinKeyboardSeqLength := 4

  function Reverse(s: string): (r: string)
    ensures |r| == |s|
    ensures forall i :: 0 <= i < |s| ==> r[i] == s[|s| - 1 - i]
  {
    seq(|s|, i requires 0 <= i < |s| => s[|s| - 1 - i])
  }

  /** The `n` runes of `s` starting at `i` occur somewhere in `row`. */
  predicate WindowIn(row: string, s: string, i: int, n: nat) {
    0 <= i <= |s| - n && Contains(row, s[i..i + n])
  }

  /** `containsSequence`: some window of `n` consecutive runes of `s` occurs in `row`. */
  function ContainsSequence(row: string, s: string, n: nat): (b: bool)
    ensures b <==> exists i :: WindowIn(row, s, i, n)
    decreases |s|
  {
    if |s| < n then false
    else if s == [] then
      assert OccursAt(row, s[0..0 + n], 0);
      assert WindowIn(row, s, 0, n);
      true
    else
      var rest := ContainsSequence(row, s[1..], n);
      WindowStep(row, s, n);
      Contains(row, s[..n]) || rest
  }

  /** A window of `s` is its first window or a window of `s[1..]`. */
  lemma {:induction false} WindowStep(row: string, s: string, n: nat)
    requires s != [] && |s| >= n
    ensures (exists i :: WindowIn(row, s, i, n))
            <==> Contains(row, s[..n]) || exists i :: WindowIn(row, s[1..], i, n)
  {
    assert s[..n] == s[0..0 + n];
    if exists i :: WindowIn(row, s, i, n) {
      var i :| WindowIn(row, s, i, n);
      if i > 0 {
        assert s[1..][i - 1..i - 1 + n] == s[i..i + n];
        assert WindowIn(row, s[1..], i - 1, n);
      }
    }
    if Contains(row, s[..n]) {
      assert WindowIn(row, s, 0, n);
    }
    if exists i :: WindowIn(row, s[1..], i, n) {
      var i :| WindowIn(row, s[1..], i, n);
      assert s[1..][i..i + n] == s[i + 1..i + 1 + n];
      assert WindowIn(row, s, i + 1, n);
    }
  }

  /** Row `k`, forwards or backwards, contains a window of `s`. */
  predicate RowMatches(k: int, s: string)
    requires 0 <= k < |KeyboardRows|
  {
    ContainsSequence(KeyboardRows[k], s, MinKeyboardSeqLength)
    || ContainsSequence(Reverse(KeyboardRows[k]), s, MinKeyboardSeqLength)
  }

  /** `hasKeyboardSeq`: at least four bytes long, and some four-rune window of
      the lower-cased text is a stretch of a keyboard row read either way. */
  predicate HasKeyboardSeq(o: Oracles, s: string) {
    ByteLen(s) >= MinKeyboardSeqLength
    && exists k | 0 <= k < |KeyboardRows| :: RowMatches(k, Lower(o, s))
  }

  lemma {:induction false} ReverseReverse(s: string)
    ensures Reverse(Reverse(s)) == s
  {
  }

  lemma {:induction false} ByteLenReverse(s: string)
    ensures ByteLen(Reverse(s)) == ByteLen(s)
    decreases |s|
  {
    if s != [] {
      var p := s[..|s| - 1];
      ByteLenReverse(p);
      assert Reverse(s) == [s[|s| - 1]] + Reverse(p);
      assert s == p + [s[|s| - 1]];
      ByteLenAppend(p, [s[|s| - 1]]);
    }
  }

  /** A window holding a rune that the row lacks is not a stretch of the row. */
  lemma {:induction false} WindowNeedsRowRunes(row: string, s: string, i: int, n: nat, p: int)
    requires 0 <= i <= |s| - n && i <= p < i + n && s[p] !in row
    ensures !WindowIn(row, s, i, n)
  {
    assert s[i..i + n][p - i] == s[p];
  }

  /** A window holding two neighbouring runes that are never neighbours in
      the row is not a stretch of the row. */
  lemma {:induction false} WindowNeedsRowPair(row: string, w: string, q: int)
    requires 0 <= q < |w| - 1
    requires forall j :: 0 <= j < |row| - 1 ==> row[j] != w[q] || row[j + 1] != w[q + 1]
    ensures !Contains(row, w)
  {
    forall j | 0 <= j <= |row| - |w| ensures !OccursAt(row, w, j) {
      assert row[j..j + |w|][q] == row[j + q] && row[j..j + |w|][q + 1] == row[j + q + 1];
    }
  }

  /** Reading a window backwards turns a match in `row` into one in the reversed row. */
  lemma {:induction false} WindowReverse(row: string, s: string, i: int, n: nat)
    requires WindowIn(row, s, i, n)
    ensures WindowIn(Reverse(row), Reverse(s), |s| - n - i, n)
  {
    var w := s[i..i + n];
    var j :| 0 <= j <= |row| - |w| && OccursAt(row, w, j);
    assert Reverse(s)[|s| - n - i..|s| - i] == Reverse(w);
    assert OccursAt(Reverse(row), Reverse(w), |row| - n - j) by {
      assert Reverse(row)[|row| - n - j..|row| - j] == Reverse(w);
    }
  }

  lemma {:induction false} ContainsSequenceReverse(row: string, s: string)
    ensures ContainsSequence(row, s, MinKeyboardSeqLength)
            <==> ContainsSequence(Reverse(row), Reverse(s), MinKeyboardSeqLength)
  {
    var n := MinKeyboardSeqLength;
    if ContainsSequence(row, s, n) {
      var i :| WindowIn(row, s, i, n);
      WindowReverse(row, s, i, n);
    }
    if ContainsSequence(Reverse(row), Reverse(s), n) {
      var i :| WindowIn(Reverse(row), Reverse(s), i, n);
      WindowReverse(Reverse(row), Reverse(s), i, n);
      ReverseReverse(row);
      ReverseReverse(s);
    }
  }

  /** A keyboard walk is found in a local part exactly when it is found in
      the local part read backwards. */
  lemma {:induction false} KeyboardSeqReverse(o: Oracles, s: string)
    ensures HasKeyboardSeq(o, Reverse(s)) <==> HasKeyboardSeq(o, s)
  {
    ByteLenReverse(s);
    var l := Lower(o, s);
    assert Lower(o, Reverse(s)) == Reverse(l);
    forall k | 0 <= k < |KeyboardRows|
      ensures RowMatches(k, Reverse(l)) <==> RowMatches(k, l)
    {
      var row := KeyboardRows[k];
      ContainsSequenceReverse(row, l);
      ContainsSequenceReverse(Reverse(row), l);
      ReverseReverse(row);
    }
  }

  // ---------------------------------------------------------------------
  // Case switches
  // ---------------------------------------------------------------------

  /** 1 for upper case, 0 for lower case, -1 for a rune without case. */
  function CaseOf(o: Oracles, c: char): int {
    if o.isUpper(c) then 1 else if o.isLower(c) then 0 else -1
  }

  /** The loop's `lastCase` after reading `s`: the case of the last cased rune. */
  function LastCase(o: Oracles, s: string): int
    decreases |s|
  {
    if s == [] then -1
    else if CaseOf(o, s[|s| - 1]) != -1 then CaseOf(o, s[|s| - 1])
    else LastCase(o, s[..|s| - 1])
  }

  /** The loop's `switches` after reading `s`. */
  function CaseSwitches(o: Oracles, s: string): nat
    decreases |s|
  {
    if s == [] then 0
    else
      var p := s[..|s| - 1];
      var last := LastCase(o, p);
      var current := CaseOf(o, s[|s| - 1]);
      CaseSwitches(o, p) + (if last != -1 && current != -1 && current != last then 1 else 0)
  }

  /** `manyCaseSwitch`: at least six bytes, and more case changes than a third of the byte length. */
  predicate ManyCaseSwitch(o: Oracles, s: string) {
    ByteLen(s) >= 6 && CaseSwitches(o, s) > ByteLen(s) / 3
  }

  /** When every cased rune has the same case there are no switches. */
  lemma {:induction false} CaseSwitchesUniform(o: Oracles, s: string, c: int)
    requires forall i :: 0 <= i < |s| ==> CaseOf(o, s[i]) == -1 || CaseOf(o, s[i]) == c
    ensures CaseSwitches(o, s) == 0
    ensures LastCase(o, s) == -1 || LastCase(o, s) == c
    decreases |s|
  {
    if s != [] {
      CaseSwitchesUniform(o, s[..|s| - 1], c);
    }
  }

  /** The cases of the cased runes of `s`, in order. */
  function Cases(o: Oracles, s: string): (r: seq<int>)
    ensures forall i :: 0 <= i < |r| ==> r[i] == 0 || r[i] == 1
    decreases |s|
  {
    if s == [] then []
    else Cases(o, s[..|s| - 1]) + (if CaseOf(o, s[|s| - 1]) == -1 then [] else [CaseOf(o, s[|s| - 1])])
  }

  /** Number of adjacent pairs in `cs` that differ. */
  function Changes(cs: seq<int>): nat
    decreases |cs|
  {
    if |cs| < 2 then 0
    else Changes(cs[..|cs| - 1]) + (if cs[|cs| - 1] != cs[|cs| - 2] then 1 else 0)
  }

  /** One more case adds a change exactly when it differs from the last one. */
  lemma ChangesSnoc(cs: seq<int>, c: int)
    ensures Changes(cs + [c]) == if cs == [] then 0 else Changes(cs) + (if c != cs[|cs| - 1] then 1 else 0)
  {
    var t := cs + [c];
    if cs != [] {
      assert t[..|t| - 1] == cs;
      assert t[|t| - 2] == cs[|cs| - 1];
    }
  }

  /** Runes without case are skipped: the count is the number of changes
      between neighbouring cased runes. */
  lemma {:induction false} CaseSwitchesSpec(o: Oracles, s: string)
    ensures CaseSwitches(o, s) == Changes(Cases(o, s))
    ensures LastCase(o, s) == if Cases(o, s) == [] then -1 else Cases(o, s)[|Cases(o, s)| - 1]
    decreases |s|
  {
    if s != [] {
      var p := s[..|s| - 1];
      CaseSwitchesSpec(o, p);
      var cs := Cases(o, p);
      var c := CaseOf(o, s[|s| - 1]);
      if c != -1 {
        assert Cases(o, s) == cs + [c];
        assert LastCase(o, s) == c;
        ChangesSnoc(cs, c);
        assert CaseSwitches(o, s) == CaseSwitches(o, p) + (if LastCase(o, p) != -1 && c != LastCase(o, p) then 1 else 0);
      } else {
        assert Cases(o, s) == cs;
      }
    }
  }

  // ---------------------------------------------------------------------
  // Name parts
  // ---------------------------------------------------------------------

  predicate IsNameSeparator(c: char) {
    c == '.' || c == '_' || c == '-' || c == '+'
  }

  /** Byte offset of the last letter or mark, as `for i, r := range s` reports it, or -1. */
  function LastLetterByteOffset(o: Oracles, s: string): int
    decreases |s|
  {
    if s == [] then -1
    else if LetterLike(o, s[|s| - 1]) then ByteLen(s[..|s| - 1])
    else LastLetterByteOffset(o, s[..|s| - 1])
  }

  /** Rune index of the last letter or mark, or -1. */
  function LastLetterIndex(o: Oracles, s: string): (k: int)
    ensures -1 <= k < |s|
    ensures k >= 0 ==> LetterLike(o, s[k])
    ensures forall i :: k < i < |s| ==> !LetterLike(o, s[i])
    decreases |s|
  {
    if s == [] then -1
    else if LetterLike(o, s[|s| - 1]) then |s| - 1
    else LastLetterIndex(o, s[..|s| - 1])
  }

  /** The offset `range` reports for the last letter is the UTF-8 length of
      the text before it, which exceeds its rune index as soon as that text
      holds a rune outside ASCII. */
  lemma {:induction false} LastLetterByteOffsetSpec(o: Oracles, s: string)
    ensures var k := LastLetterIndex(o, s);
            LastLetterByteOffset(o, s) == if k < 0 then -1 else ByteLen(s[..k])
    decreases |s|
  {
    if s != [] {
      var p := s[..|s| - 1];
      LastLetterByteOffsetSpec(o, p);
      var k := LastLetterIndex(o, p);
      if k >= 0 {
        assert s[..k] == p[..k];
      }
    }
  }

  /** Which position `splitLettersAndTrailingNumbers` uses to index runes. */
  datatype SplitMode = ByteOffsets | RuneIndices

  /** The tail of `splitLettersAndTrailingNumbers` once the last letter's
      position is known: split after it when only digits follow. */
  function SplitAfter(o: Oracles, s: string, lastLetter: int): seq<string> {
    if lastLetter == -1 then [s]
    else
      var digitStart := lastLetter + 1;
      if digitStart < |s| && digitStart > 0 && forall k | digitStart <= k < |s| :: o.isDigit(s[k])
      then [s[..digitStart], s[digitStart..]]
      else [s]
  }

  /** `splitLettersAndTrailingNumbers` as written: the byte offset from
      `range` is used as an index into the rune slice. */
  function SplitAsWritten(o: Oracles, s: string): seq<string> {
    if s == [] then [] else SplitAfter(o, s, LastLetterByteOffset(o, s))
  }

  lemma FlattenPair(a: string, b: string)
    ensures Flatten([a, b]) == a + b && Flatten([a]) == a
  {
    assert [b][1..] == [] && [a][1..] == [];
    assert Flatten([b]) == b + Flatten([]) == b;
    assert Flatten([a]) == a + Flatten([]) == a;
    assert [a, b][1..] == [b];
    assert Flatten([a, b]) == a + Flatten([b]);
  }

  /** `splitLettersAndTrailingNumbers` with the last letter's rune index: the
      pieces concatenate back to the input, and a split separates a part
      ending in a letter from a non-empty run of digits. */
  function SplitLettersAndTrailingNumbers(o: Oracles, s: string): (r: seq<string>)
    ensures r == [] <==> s == []
    ensures s != [] ==> |r| == 1 || |r| == 2
    ensures Flatten(r) == s
    ensures |r| == 2 ==> r[0] != [] && r[1] != [] && LetterLike(o, r[0][|r[0]| - 1])
                          && forall k :: 0 <= k < |r[1]| ==> o.isDigit(r[1][k])
  {
    if s == [] then []
    else
      var r := SplitAfter(o, s, LastLetterIndex(o, s));
      assert Flatten(r) == s by {
        if |r| == 2 {
          FlattenPair(r[0], r[1]);
        } else {
          FlattenPair(s, []);
        }
      }
      r
  }

  function Split(o: Oracles, s: string, mode: SplitMode): seq<string> {
    match mode
    case ByteOffsets => SplitAsWritten(o, s)
    case RuneIndices => SplitLettersAndTrailingNumbers(o, s)
  }

  /** A split into a part ending in a letter and a non-empty tail of digits at `k`. */
  predicate LetterDigitsBoundary(o: Oracles, s: string, k: int) {
    0 < k < |s| && LetterLike(o, s[k - 1]) && forall i :: k <= i < |s| ==> o.isDigit(s[i])
  }

  /** With sound tables the corrected split happens exactly at such a
      boundary, and it is the only one. */
  lemma {:induction false} SplitSpec(o: Oracles, s: string)
    requires Sound(o)
    ensures |SplitLettersAndTrailingNumbers(o, s)| == 2 <==> exists k :: LetterDigitsBoundary(o, s, k)
    ensures forall k :: LetterDigitsBoundary(o, s, k) ==> SplitLettersAndTrailingNumbers(o, s) == [s[..k], s[k..]]
  {
    forall k | LetterDigitsBoundary(o, s, k)
      ensures LastLetterIndex(o, s) == k - 1
    {
      var m := LastLetterIndex(o, s);
      assert m >= k - 1;
    }
    if |SplitLettersAndTrailingNumbers(o, s)| == 2 {
      assert LetterDigitsBoundary(o, s, LastLetterIndex(o, s) + 1);
    }
  }

  /** On ASCII text byte offsets are rune indices. */
  lemma {:induction false} LastLetterAscii(o: Oracles, s: string)
    requires IsAscii(s)
    ensures LastLetterByteOffset(o, s) == LastLetterIndex(o, s)
    decreases |s|
  {
    if s != [] {
      var p := s[..|s| - 1];
      assert IsAscii(p);
      ByteLenAscii(p);
      LastLetterAscii(o, p);
    }
  }

  /** For ASCII input the split as written and the corrected split agree. */
  lemma {:induction false} SplitAgreesOnAscii(o: Oracles, s: string)
    requires IsAscii(s)
    ensures SplitAsWritten(o, s) == SplitLettersAndTrailingNumbers(o, s)
  {
    LastLetterAscii(o, s);
  }

  /** Go's `<=` on strings: byte order, which for UTF-8 is rune order. */
  predicate LexLeq(a: string, b: string)
    decreases |a|
  {
    a == [] || (b != [] && (a[0] < b[0] || (a[0] == b[0] && LexLeq(a[1..], b[1..]))))
  }

  /** `isLikelyYear`: four bytes, all digits, between "1900" and "2030" as strings. */
  predicate IsLikelyYear(o: Oracles, s: string) {
    ByteLen(s) == 4
    && (forall k :: 0 <= k < |s| ==> o.isDigit(s[k]))
    && LexLeq("1900", s) && LexLeq(s, "2030")
  }

  /** The value of four ASCII digits. */
  lemma {:induction false} FourDigitsValue(s: string)
    requires |s| == 4 && forall k :: 0 <= k < 4 ==> IsAsciiDigit(s[k])
    ensures DigitsValue(s) == 1000 * DigitValue(s[0]) + 100 * DigitValue(s[1]) + 10 * DigitValue(s[2]) + DigitValue(s[3])
  {
    assert DigitsValue(s[..1]) == DigitValue(s[0]) by {
      assert s[..1][..0] == [];
    }
    assert DigitsValue(s[..2]) == DigitsValue(s[..1]) * 10 + DigitValue(s[1]) by {
      assert s[..2][..1] == s[..1];
    }
    assert DigitsValue(s[..3]) == DigitsValue(s[..2]) * 10 + DigitValue(s[2]) by {
      assert s[..3][..2] == s[..2];
    }
    assert s[..4] == s;
  }

  /** Between strings of four ASCII digits, string order is numeric order. */
  lemma {:induction false} LexLeqFourDigits(x: string, y: string)
    requires |x| == 4 && forall k :: 0 <= k < 4 ==> IsAsciiDigit(x[k])
    requires |y| == 4 && forall k :: 0 <= k < 4 ==> IsAsciiDigit(y[k])
    ensures LexLeq(x, y) <==> DigitsValue(x) <= DigitsValue(y)
  {
    FourDigitsValue(x);
    FourDigitsValue(y);
    var x1, y1 := x[1..], y[1..];
    var x2, y2 := x1[1..], y1[1..];
    var x3, y3 := x2[1..], y2[1..];
    assert x3[1..] == [] && y3[1..] == [];
    assert LexLeq(x3, y3) <==> x[3] <= y[3];
    assert LexLeq(x2, y2) <==> x[2] < y[2] || (x[2] == y[2] && x[3] <= y[3]);
    assert LexLeq(x1, y1) <==> x[1] < y[1] || (x[1] == y[1] && (x[2] < y[2] || (x[2] == y[2] && x[3] <= y[3])));
  }

  /** On ASCII input a likely year is exactly four decimal digits whose value
      lies between 1900 and 2030. */
  lemma {:induction false} IsLikelyYearSpec(o: Oracles, s: string)
    requires Sound(o) && IsAscii(s)
    ensures IsLikelyYear(o, s) <==>
            |s| == 4 && (forall k :: 0 <= k < 4 ==> IsAsciiDigit(s[k])) && 1900 <= DigitsValue(s) <= 2030
  {
    ByteLenAscii(s);
    if |s| == 4 && forall k :: 0 <= k < 4 ==> IsAsciiDigit(s[k]) {
      FourDigitsValue("1900");
      FourDigitsValue("2030");
      LexLeqFourDigits("1900", s);
      LexLeqFourDigits(s, "2030");
    }
  }

  /** `isAllLetters`: non-empty and only letters and marks. */
  predicate IsAllLetters(o: Oracles, s: string) {
    (forall k :: 0 <= k < |s| ==> LetterLike(o, s[k])) && |s| > 0
  }

  /** A rune the trailing-number scan counts as a letter: it is tested after the digit test. */
  predicate NameRune(o: Oracles, c: char) {
    !o.isDigit(c) && LetterLike(o, c)
  }

  /** The loop of `hasNameWithTrailingNumbers`, from the state after some prefix. */
  function TrailingNumbersScan(o: Oracles, s: string, letters: nat, digits: nat, inDigits: bool): bool
    decreases |s|
  {
    if s == [] then letters >= 2 && digits >= 1 && digits <= 4
    else if o.isDigit(s[0]) then
      if !inDigits && letters == 0 then false
      else TrailingNumbersScan(o, s[1..], letters, digits + 1, true)
    else if LetterLike(o, s[0]) then
      if inDigits then false
      else TrailingNumbersScan(o, s[1..], letters + 1, digits, inDigits)
    else false
  }

  predicate HasNameWithTrailingNumbers(o: Oracles, s: string) {
    TrailingNumbersScan(o, s, 0, 0, false)
  }

  /** `s` is `k` letters followed by one to four digits and nothing else. */
  predicate NameThenDigits(o: Oracles, s: string, k: int) {
    2 <= k < |s| && |s| - k <= 4
    && (forall i :: 0 <= i < k ==> NameRune(o, s[i]))
    && (forall i :: k <= i < |s| ==> o.isDigit(s[i]))
  }

  lemma {:induction false} ScanInDigits(o: Oracles, s: string, letters: nat, digits: nat)
    ensures TrailingNumbersScan(o, s, letters, digits, true) <==>
            (forall i :: 0 <= i < |s| ==> o.isDigit(s[i])) && letters >= 2 && 1 <= digits + |s| <= 4
    decreases |s|
  {
    if s != [] && o.isDigit(s[0]) {
      ScanInDigits(o, s[1..], letters, digits + 1);
      assert forall i :: 1 <= i < |s| ==> s[i] == s[1..][i - 1];
    }
  }

  /** After `letters` letters were read, the rest `s` is `k` more letters and then one to four digits. */
  predicate LettersThenDigits(o: Oracles, s: string, letters: nat, k: int) {
    0 <= k < |s| && letters + k >= 2 && |s| - k <= 4
    && (forall i :: 0 <= i < k ==> NameRune(o, s[i]))
    && (forall i :: k <= i < |s| ==> o.isDigit(s[i]))
  }

  lemma {:induction false} ScanInLetters(o: Oracles, s: string, letters: nat)
    ensures TrailingNumbersScan(o, s, letters, 0, false) <==> exists k :: LettersThenDigits(o, s, letters, k)
    decreases |s|
  {
    if s != [] {
      var t := s[1..];
      assert forall i :: 1 <= i < |s| ==> s[i] == t[i - 1];
      if o.isDigit(s[0]) {
        if exists k :: LettersThenDigits(o, s, letters, k) {
          var k :| LettersThenDigits(o, s, letters, k);
          assert k == 0;
        }
        if letters > 0 {
          ScanInDigits(o, t, letters, 1);
          if TrailingNumbersScan(o, s, letters, 0, false) {
            assert LettersThenDigits(o, s, letters, 0);
          }
        }
      } else if LetterLike(o, s[0]) {
        ScanInLetters(o, t, letters + 1);
        if TrailingNumbersScan(o, s, letters, 0, false) {
          var k :| LettersThenDigits(o, t, letters + 1, k);
          assert LettersThenDigits(o, s, letters, k + 1);
        }
        if exists k :: LettersThenDigits(o, s, letters, k) {
          var k :| LettersThenDigits(o, s, letters, k);
          assert k > 0;
          assert LettersThenDigits(o, t, letters + 1, k - 1);
        }
      }
    }
  }

  /** A part has a name with trailing numbers exactly when it is at least two
      letters followed by one to four digits, with nothing else in it. */
  lemma {:induction false} HasNameWithTrailingNumbersSpec(o: Oracles, s: string)
    ensures HasNameWithTrailingNumbers(o, s) <==> exists k :: NameThenDigits(o, s, k)
  {
    ScanInLetters(o, s, 0);
    if HasNameWithTrailingNumbers(o, s) {
      var k :| LettersThenDigits(o, s, 0, k);
      assert NameThenDigits(o, s, k);
    }
    if exists k :: NameThenDigits(o, s, k) {
      var k :| NameThenDigits(o, s, k);
      assert LettersThenDigits(o, s, 0, k);
    }
  }

  /** `countLetterDigitSwitches`: neighbours where a letter follows a digit or a digit a letter. */
  function LetterDigitSwitches(o: Oracles, s: string): nat
    decreases |s|
  {
    if |s| < 2 then 0
    else
      var previous := s[|s| - 2];
      var current := s[|s| - 1];
      LetterDigitSwitches(o, s[..|s| - 1])
      + (if (LetterLike(o, current) && o.isDigit(previous)) || (o.isDigit(current) && LetterLike(o, previous)) then 1 else 0)
  }

  /** A part without letters, or without digits, has no letter-digit switches. */
  lemma {:induction false} SwitchesWithoutLetters(o: Oracles, s: string)
    requires (forall i :: 0 <= i < |s| ==> !LetterLike(o, s[i])) || (forall i :: 0 <= i < |s| ==> !o.isDigit(s[i]))
    ensures LetterDigitSwitches(o, s) == 0
    decreases |s|
  {
    if |s| >= 2 {
      SwitchesWithoutLetters(o, s[..|s| - 1]);
    }
  }

  /** Letters followed by digits switch exactly once. */
  lemma {:induction false} SwitchesLettersThenDigits(o: Oracles, a: string, b: string)
    requires Sound(o) && a != [] && b != []
    requires forall i :: 0 <= i < |a| ==> LetterLike(o, a[i])
    requires forall i :: 0 <= i < |b| ==> o.isDigit(b[i])
    ensures LetterDigitSwitches(o, a + b) == 1
    decreases |b|
  {
    var s := a + b;
    assert s[..|s| - 1] == a + b[..|b| - 1];
    if |b| == 1 {
      assert forall i :: 0 <= i < |a| ==> !o.isDigit(a[i]);
      SwitchesWithoutLetters(o, a);
      assert s[..|s| - 1] == a;
    } else {
      SwitchesLettersThenDigits(o, a, b[..|b| - 1]);
    }
  }

  /** `isValidNamePart`. The digit ratio over runes above 0.4 is `10 * digits > 4 * runes`. */
  predicate IsValidNamePart(o: Oracles, part: string) {
    if ByteLen(part) == 0 then false
    else if IsLikelyYear(o, part) then true
    else if IsAllLetters(o, part) then true
    else if HasNameWithTrailingNumbers(o, part) then true
    else if LetterDigitSwitches(o, part) > 2 then false
    else if ByteLen(part) > 6 && 10 * Tally(part, o.isDigit) > 4 * |part| then false
    else true
  }

  /** The parts of every separator-delimited field after splitting off trailing digits. */
  function NameParts(o: Oracles, fields: seq<string>, mode: SplitMode): seq<string>
    decreases |fields|
  {
    if fields == [] then [] else Split(o, fields[0], mode) + NameParts(o, fields[1..], mode)
  }

  /** `looksLikeHumanName`: every part of the lower-cased local part is a valid name part. */
  predicate LooksLikeHumanName(o: Oracles, s: string, mode: SplitMode) {
    var parts := NameParts(o, FieldsBy(Lower(o, s), IsNameSeparator), mode);
    forall k :: 0 <= k < |parts| ==> IsValidNamePart(o, parts[k])
  }

  /** A part made only of letters and marks is a valid name part. */
  lemma AllLettersValid(o: Oracles, part: string)
    requires IsAllLetters(o, part)
    ensures IsValidNamePart(o, part)
  {
  }

  /** Two or more letters followed by one to four digits make a valid name
      part, as in `giorgos1984` or `jo42`. */
  lemma NameThenDigitsValid(o: Oracles, name: string, digits: string)
    requires |name| >= 2 && 1 <= |digits| <= 4
    requires forall i :: 0 <= i < |name| ==> NameRune(o, name[i])
    requires forall i :: 0 <= i < |digits| ==> o.isDigit(digits[i])
    ensures IsValidNamePart(o, name + digits)
  {
    var part := name + digits;
    assert NameThenDigits(o, part, |name|);
    HasNameWithTrailingNumbersSpec(o, part);
  }

  /** A non-empty part with at most two letter-digit switches and at most
      40% digits is valid, whatever else it holds. */
  lemma FewSwitchesValid(o: Oracles, part: string)
    requires part != []
    requires LetterDigitSwitches(o, part) <= 2 && 10 * Tally(part, o.isDigit) <= 4 * |part|
    ensures IsValidNamePart(o, part)
  {
  }

  /** Text made only of letters and marks is its own single piece in either
      split mode. */
  lemma SplitAllLetters(o: Oracles, f: string, mode: SplitMode)
    requires IsAllLetters(o, f)
    ensures Split(o, f, mode) == [f]
  {
    assert LetterLike(o, f[|f| - 1]);
    match mode
    case RuneIndices =>
      assert LastLetterIndex(o, f) == |f| - 1;
    case ByteOffsets =>
      assert LastLetterByteOffset(o, f) == ByteLen(f[..|f| - 1]);
  }

  /** Fields made only of letters and marks are their own name parts. */
  lemma {:induction false} NamePartsOfLetters(o: Oracles, fields: seq<string>, mode: SplitMode)
    requires forall i :: 0 <= i < |fields| ==> IsAllLetters(o, fields[i])
    ensures NameParts(o, fields, mode) == fields
    decreases |fields|
  {
    if fields != [] {
      SplitAllLetters(o, fields[0], mode);
      NamePartsOfLetters(o, fields[1..], mode);
      assert fields == [fields[0]] + fields[1..];
    }
  }

  /** A local part whose lower-case form holds only letters, marks and name
      separators looks like a human name, in either split mode. */
  lemma LetterFieldsLookHuman(o: Oracles, s: string, mode: SplitMode)
    requires forall i :: 0 <= i < |s| ==> LetterLike(o, o.toLower(s[i])) || IsNameSeparator(o.toLower(s[i]))
    ensures LooksLikeHumanName(o, s, mode)
  {
    var low := Lower(o, s);
    var fields := FieldsBy(low, IsNameSeparator);
    FieldsByRunes(low, IsNameSeparator);
    forall i | 0 <= i < |fields|
      ensures IsAllLetters(o, fields[i])
    {
      forall j | 0 <= j < |fields[i]|
        ensures LetterLike(o, fields[i][j])
      {
        var c := fields[i][j];
        assert c in low && !IsNameSeparator(c);
        var k :| 0 <= k < |low| && low[k] == c;
        assert c == o.toLower(s[k]);
      }
    }
    NamePartsOfLetters(o, fields, mode);
    forall k | 0 <= k < |fields|
      ensures IsValidNamePart(o, fields[k])
    {
      AllLettersValid(o, fields[k]);
    }
  }

  /** `isValidUnicodeScript`: more than 60% of the runes are letters or marks. */
  predicate IsValidUnicodeScript(o: Oracles, s: string) {
    |s| > 0 && 5 * LetterCount(o, s) > 3 * |s|
  }

  // ---------------------------------------------------------------------
  // The human-pattern expression
  // ---------------------------------------------------------------------

  /** `^[\p{L}][\p{L}\p{N}\p{M}._+-]*$` */
  predicate WordPattern(o: Oracles, s: string) {
    |s| >= 1 && o.isLetter(s[0])
    && forall i :: 1 <= i < |s| ==>
         o.isLetter(s[i]) || o.isNumber(s[i]) || o.isMark(s[i]) || s[i] in "._+-"
  }

  /** `^[\p{L}]\p{N}+$` */
  predicate LetterNumbersPattern(o: Oracles, s: string) {
    |s| >= 2 && o.isLetter(s[0]) && forall i :: 1 <= i < |s| ==> o.isNumber(s[i])
  }

  /** `^[\p{L}]$` */
  predicate SingleLetterPattern(o: Oracles, s: string) {
    |s| == 1 && o.isLetter(s[0])
  }

  /** `humanPattern.MatchString`; the second and third alternatives add nothing to the first. */
  function HumanPattern(o: Oracles, s: string): (b: bool)
    ensures b <==> WordPattern(o, s)
  {
    WordPattern(o, s) || LetterNumbersPattern(o, s) || SingleLetterPattern(o, s)
  }

  // ---------------------------------------------------------------------
  // Check
  // ---------------------------------------------------------------------

  /** The address has exactly one `@`, with something before and after it. */
  predicate WellFormed(email: string) {
    Count(email, '@') == 1 && 0 < IndexOf(email, '@') < |email| - 1
  }

  /** `email` is `local@domain` with both sides non-empty and free of `@`. */
  predicate SplitsAs(email: string, local: string, domain: string) {
    email == local + "@" + domain && local != [] && domain != [] && '@' !in local && '@' !in domain
  }

  /** The text before the first `@`. */
  function LocalPart(email: string): string {
    var at := IndexOf(email, '@');
    if at < 0 then email else email[..at]
  }

  lemma {:induction false} CountAppend(a: string, b: string, c: char)
    ensures Count(a + b, c) == Count(a, c) + Count(b, c)
    decreases |a|
  {
    if a == [] {
      assert a + b == b;
    } else {
      assert (a + b)[1..] == a[1..] + b;
      CountAppend(a[1..], b, c);
    }
  }

  /** The `@` count of `local@domain`. */
  lemma {:induction false} CountAround(l: string, d: string)
    ensures Count(l + "@" + d, '@') == Count(l, '@') + 1 + Count(d, '@')
  {
    CountAppend(l + "@", d, '@');
    CountAppend(l, "@", '@');
    assert "@"[1..] == [];
  }

  /** A single `@` with text on both sides splits the address there. */
  lemma {:induction false} WellFormedSplits(email: string)
    requires WellFormed(email)
    ensures SplitsAs(email, LocalPart(email), email[IndexOf(email, '@') + 1..])
  {
    var at := IndexOf(email, '@');
    var l, d := email[..at], email[at + 1..];
    assert email == l + "@" + d;
    CountAround(l, d);
  }

  /** In `local@domain` the first `@` is the one after `local`, and it is the only one. */
  lemma {:induction false} SplitWellFormed(email: string, l: string, d: string)
    requires SplitsAs(email, l, d)
    ensures IndexOf(email, '@') == |l| && WellFormed(email)
  {
    CountAround(l, d);
    assert email[|l|] == '@' && email[..|l|] == l;
  }

  /** The guard of `Check` accepts exactly the addresses `local@domain` with
      non-empty sides and a single `@`. Go compares byte offsets here; since
      `@` is one byte, "first" and "last" position mean the same in runes. */
  lemma {:induction false} WellFormedSpec(email: string)
    ensures WellFormed(email) <==> exists l, d :: SplitsAs(email, l, d)
    ensures WellFormed(email) ==> SplitsAs(email, LocalPart(email), email[IndexOf(email, '@') + 1..])
  {
    if WellFormed(email) {
      WellFormedSplits(email);
    }
    if exists l, d :: SplitsAs(email, l, d) {
      var l, d :| SplitsAs(email, l, d);
      SplitWellFormed(email, l, d);
    }
  }

  /** Once an address is known to be `local@domain`, the checker reads `local`. */
  lemma {:induction false} LocalPartOfSplit(email: string, local: string, domain: string)
    requires SplitsAs(email, local, domain)
    ensures WellFormed(email) && LocalPart(email) == local
  {
    SplitWellFormed(email, local, domain);
  }

  /** The first random-pattern rule. */
  predicate FirstRandomRule(cfg: Config, o: Oracles, local: string, mode: SplitMode) {
    var n := |local|;
    HasKeyboardSeq(o, local)
    || (n >= 6 && o.highEntropy(local) && n >= 12 && !LooksLikeHumanName(o, local, mode))
    || (ManyCaseSwitch(o, local) && n >= 6)
    || (!HumanPattern(o, local) && !IsValidUnicodeScript(o, local))
    || HasConsecutiveNumbers(cfg, o, local)
    || TooManySpecialChars(cfg, o, local)
  }

  /** The second random-pattern rule. */
  predicate SecondRandomRule(cfg: Config, o: Oracles, local: string, mode: SplitMode) {
    var n := |local|;
    var notName := !LooksLikeHumanName(o, local, mode);
    HasKeyboardSeq(o, local)
    || HasConsecutiveNumbers(cfg, o, local)
    || TooManySpecialChars(cfg, o, local)
    || (ManyCaseSwitch(o, local) && n >= 6)
    || (!HumanPattern(o, local) && !IsValidUnicodeScript(o, local))
    || (notName && n >= 8)
    || (notName && n >= 6 && o.highEntropy(local))
  }

  /** The entropy clause of the first rule needs twelve runes and a non-name,
      so whenever the first rule fires the second does too. */
  lemma {:induction false} FirstRuleImpliesSecond(cfg: Config, o: Oracles, local: string, mode: SplitMode)
    ensures FirstRandomRule(cfg, o, local, mode) ==> SecondRandomRule(cfg, o, local, mode)
  {
  }

  /** More special runes than the configured share, over a non-empty local part. */
  predicate TooManySpecialChars(cfg: Config, o: Oracles, local: string) {
    var limit := cfg.maxSpecialCharRatio;
    |local| > 0 && SpecialCount(o, local) * limit.den > limit.num * |local|
  }

  /** The test compares the share of special runes with the configured
      ratio, both taken as exact quotients. */
  lemma SpecialShareExceeds(cfg: Config, o: Oracles, local: string)
    ensures TooManySpecialChars(cfg, o, local) <==>
            |local| > 0 && (SpecialCount(o, local) as real) / (|local| as real)
                           > (cfg.maxSpecialCharRatio.num as real) / (cfg.maxSpecialCharRatio.den as real)
  {
    if |local| > 0 {
      CrossCompare(SpecialCount(o, local), |local|, cfg.maxSpecialCharRatio.num, cfg.maxSpecialCharRatio.den);
    }
  }

  /** An integer comparison of cross products is the comparison of the
      exact quotients. */
  lemma CrossCompare(k: int, len: int, num: int, den: int)
    requires len > 0 && den > 0
    ensures k * den > num * len <==> (k as real) / (len as real) > (num as real) / (den as real)
  {
    QuotientCompare(k as real, len as real, num as real, den as real);
    assert (k * den) as real == (k as real) * (den as real);
    assert (num * len) as real == (num as real) * (len as real);
  }

  /** Two quotients with positive denominators compare as the cross products. */
  lemma QuotientCompare(x: real, n: real, c: real, d: real)
    requires n > 0.0 && d > 0.0
    ensures x / n > c / d <==> x * d > c * n
  {
    var q, p := x / n, c / d;
    assert x == q * n && c == p * d;
    assert x * d - c * n == (q - p) * (n * d);
    assert n * d > 0.0;
  }

  /** `EmailPatternChecker.Check`, with the name split chosen by `mode`. */
  function CheckWith(cfg: Config, o: Oracles, email: string, mode: SplitMode): (r: Result<Model.PatternCheck, string>)
    ensures r.Err? <==> !WellFormed(email)
  {
    if !WellFormed(email) then Err("invalid email format")
    else
      var local := LocalPart(email);
      Ok(Model.PatternCheck(
        shortLocalPart := |local| < cfg.minLocalPartLength,
        hasRandomPattern := FirstRandomRule(cfg, o, local, mode) || SecondRandomRule(cfg, o, local, mode),
        tooManyConsecutiveNumbers := HasConsecutiveNumbers(cfg, o, local),
        tooManySpecialChars := TooManySpecialChars(cfg, o, local)))
  }

  /** `Check` with the name split by rune index. */
  function Check(cfg: Config, o: Oracles, email: string): Result<Model.PatternCheck, string> {
    CheckWith(cfg, o, email, RuneIndices)
  }

  /** `Check` exactly as written, splitting names at byte offsets. */
  function CheckAsWritten(cfg: Config, o: Oracles, email: string): Result<Model.PatternCheck, string> {
    CheckWith(cfg, o, email, ByteOffsets)
  }

  /** An address is rejected, with "invalid email format", exactly when it is
      not `local@domain` with non-empty sides and a single `@`. */
  lemma {:induction false} CheckRejects(cfg: Config, o: Oracles, email: string, mode: SplitMode)
    ensures CheckWith(cfg, o, email, mode).Err? <==> !exists l, d :: SplitsAs(email, l, d)
    ensures CheckWith(cfg, o, email, mode).Err? ==> CheckWith(cfg, o, email, mode).error == "invalid email format"
  {
    WellFormedSpec(email);
  }

  /** The flags raised for `local@domain`: a short local part counts runes,
      a digit run must be contiguous, the random-pattern verdict is the
      second rule, and a keyboard walk, a long digit run or many special
      runes each make the local part random. */
  lemma {:induction false} CheckFlags(cfg: Config, o: Oracles, email: string, local: string, domain: string, mode: SplitMode)
    requires SplitsAs(email, local, domain)
    ensures CheckWith(cfg, o, email, mode).Ok?
    ensures var v := CheckWith(cfg, o, email, mode).value;
            && (v.shortLocalPart <==> |local| < cfg.minLocalPartLength)
            && (v.tooManyConsecutiveNumbers <==>
                exists i, j :: DigitsIn(o, local, i, j) && j - i > cfg.maxConsecutiveNumbers)
            && (v.tooManySpecialChars <==> TooManySpecialChars(cfg, o, local))
            && (v.hasRandomPattern <==> SecondRandomRule(cfg, o, local, mode))
            && (HasKeyboardSeq(o, local) || v.tooManyConsecutiveNumbers || v.tooManySpecialChars ==> v.hasRandomPattern)
  {
    LocalPartOfSplit(email, local, domain);
    LongestDigitRunSpec(o, local, cfg.maxConsecutiveNumbers);
    FirstRuleImpliesSecond(cfg, o, local, mode);
  }
}
