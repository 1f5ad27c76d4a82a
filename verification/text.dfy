/** The pieces of Go's `strings`, `strconv` and `bufio` packages that the
    modelled code relies on, written over `seq<char>` read as a sequence of
    runes. Where Go measures a string in bytes, `ByteLen` gives its UTF-8
    length. */
module Text {
  import opened Wrappers

  // ---------------------------------------------------------------------
  // Character classes
  // ---------------------------------------------------------------------

  /** Go's `unicode.IsSpace`: the Latin-1 spaces plus the White_Space runes above Latin-1. */
  predicate IsSpace(c: char) {
    || c == ' ' || c == '\t' || c == '\n' || c == '\U{000B}' || c == '\U{000C}' || c == '\r'
    || c == '\U{0085}' || c == '\U{00A0}' || c == '\U{1680}'
    || ('\U{2000}' <= c <= '\U{200A}')
    || c == '\U{2028}' || c == '\U{2029}' || c == '\U{202F}' || c == '\U{205F}' || c == '\U{3000}'
  }

  predicate IsAsciiDigit(c: char) {
    '0' <= c <= '9'
  }

  predicate IsAscii(s: string) {
    forall i :: 0 <= i < |s| ==> s[i] < '\U{0080}'
  }

  // ---------------------------------------------------------------------
  // UTF-8 length
  // ---------------------------------------------------------------------

  /** Number of bytes UTF-8 uses for one rune. */
  function RuneWidth(c: char): (w: nat)
    ensures 1 <= w <= 4
    ensures w == 1 <==> c < '\U{0080}'
  {
    if c < '\U{0080}' then 1
    else if c < '\U{0800}' then 2
    else if c < '\U{10000}' then 3
    else 4
  }

  /** Go's `len(s)` for a string: its length in bytes. */
  function ByteLen(s: string): (n: nat)
    ensures n >= |s|
    ensures s == [] <==> n == 0
    decreases |s|
  {
    if s == [] then 0 else RuneWidth(s[0]) + ByteLen(s[1..])
  }

  lemma {:induction false} ByteLenAppend(a: string, b: string)
    ensures ByteLen(a + b) == ByteLen(a) + ByteLen(b)
    decreases |a|
  {
    if a != [] {
      assert (a + b)[1..] == a[1..] + b;
      ByteLenAppend(a[1..], b);
    } else {
      assert a + b == b;
    }
  }

  /** On ASCII text bytes and runes coincide. */
  lemma {:induction false} ByteLenAscii(s: string)
    requires IsAscii(s)
    ensures ByteLen(s) == |s|
    decreases |s|
  {
    if s != [] {
      assert IsAscii(s[1..]) by {
        forall i | 0 <= i < |s[1..]| ensures s[1..][i] < '\U{0080}' {
          assert s[1..][i] == s[i + 1];
        }
      }
      ByteLenAscii(s[1..]);
    }
  }

  /** A string with a rune outside ASCII is longer in bytes than in runes. */
  lemma {:induction false} ByteLenNonAscii(s: string)
    requires !IsAscii(s)
    ensures ByteLen(s) > |s|
    decreases |s|
  {
    if s[0] >= '\U{0080}' {
      assert ByteLen(s[1..]) >= |s[1..]|;
    } else {
      assert !IsAscii(s[1..]) by {
        var i :| 0 <= i < |s| && s[i] >= '\U{0080}';
        assert i > 0 && s[1..][i - 1] == s[i];
      }
      ByteLenNonAscii(s[1..]);
    }
  }

  /** Runes from U+0080 to U+07FF, such as Latin accents, Greek and Cyrillic, take two bytes each. */
  lemma {:induction false} ByteLenTwoByte(s: string)
    requires forall i :: 0 <= i < |s| ==> '\U{0080}' <= s[i] < '\U{0800}'
    ensures ByteLen(s) == 2 * |s|
    decreases |s|
  {
    if s != [] {
      assert forall i :: 0 <= i < |s[1..]| ==> s[1..][i] == s[i + 1];
      ByteLenTwoByte(s[1..]);
    }
  }

  // ---------------------------------------------------------------------
  // Searching
  // ---------------------------------------------------------------------

  /** `strings.Index(s, string(c))`: the first position of `c`, or -1. */
  function IndexOf(s: string, c: char): (k: int)
    ensures -1 <= k < |s|
    ensures k == -1 <==> c !in s
    ensures k >= 0 ==> s[k] == c && c !in s[..k]
    decreases |s|
  {
    if s == [] then -1
    else if s[0] == c then 0
    else
      var k := IndexOf(s[1..], c);
      assert k >= 0 ==> s[1..][..k] == s[1..k + 1];
      if k < 0 then -1 else k + 1
  }

  /** `strings.LastIndex(s, string(c))`: the last position of `c`, or -1. */
  function LastIndexOf(s: string, c: char): (k: int)
    ensures -1 <= k < |s|
    ensures k == -1 <==> c !in s
    ensures k >= 0 ==> s[k] == c && c !in s[k + 1..]
    decreases |s|
  {
    if s == [] then -1
    else if s[|s| - 1] == c then |s| - 1
    else
      var k := LastIndexOf(s[..|s| - 1], c);
      assert k >= 0 ==> s[k + 1..] == s[..|s| - 1][k + 1..] + [s[|s| - 1]];
      k
  }

  /** `strings.Count(s, string(c))`. */
  function Count(s: string, c: char): (n: nat)
    ensures n <= |s|
    ensures n == 0 <==> c !in s
    decreases |s|
  {
    if s == [] then 0 else (if s[0] == c then 1 else 0) + Count(s[1..], c)
  }

  /** `sub` occurs in `s` starting at position `i`. */
  predicate OccursAt(s: string, sub: string, i: int) {
    0 <= i <= |s| - |sub| && s[i..i + |sub|] == sub
  }

  /** `strings.Contains(s, sub)`. */
  predicate Contains(s: string, sub: string) {
    exists i | 0 <= i <= |s| - |sub| :: OccursAt(s, sub, i)
  }

  /** `strings.HasPrefix`. */
  predicate HasPrefix(s: string, prefix: string) {
    |prefix| <= |s| && s[..|prefix|] == prefix
  }

  // ---------------------------------------------------------------------
  // Trimming
  // ---------------------------------------------------------------------

  /** Drops the leading runes satisfying `p`. */
  function TrimLeftBy(s: string, p: char -> bool): (r: string)
    ensures |r| <= |s| && r == s[|s| - |r|..]
    ensures r == [] || !p(r[0])
    ensures forall i :: 0 <= i < |s| - |r| ==> p(s[i])
    decreases |s|
  {
    if s != [] && p(s[0]) then
      var r := TrimLeftBy(s[1..], p);
      assert s[1..][|s| - 1 - |r|..] == s[|s| - |r|..];
      assert forall i :: 1 <= i < |s| - |r| ==> s[i] == s[1..][i - 1];
      r
    else s
  }

  /** Drops the trailing runes satisfying `p`. */
  function TrimRightBy(s: string, p: char -> bool): (r: string)
    ensures |r| <= |s| && r == s[..|r|]
    ensures r == [] || !p(r[|r| - 1])
    ensures forall i :: |r| <= i < |s| ==> p(s[i])
    decreases |s|
  {
    if s != [] && p(s[|s| - 1]) then
      var r := TrimRightBy(s[..|s| - 1], p);
      assert s[..|s| - 1][..|r|] == s[..|r|];
      r
    else s
  }

  /** `strings.TrimFunc`: drops runes satisfying `p` at both ends. */
  function TrimBy(s: string, p: char -> bool): (r: string)
    ensures var i := |s| - |TrimLeftBy(s, p)|; i + |r| <= |s| && r == s[i..i + |r|]
    ensures r == [] || (!p(r[0]) && !p(r[|r| - 1]))
  {
    var l := TrimLeftBy(s, p);
    var r := TrimRightBy(l, p);
    assert r == s[|s| - |l|..|s| - |l| + |r|];
    r
  }

  /** `strings.TrimSpace`. */
  function TrimSpace(s: string): (r: string)
    ensures r == [] || (!IsSpace(r[0]) && !IsSpace(r[|r| - 1]))
  {
    TrimBy(s, IsSpace)
  }

  /** `strings.Trim(s, string(c))` for a single cutset rune. */
  function TrimRune(s: string, c: char): (r: string)
    ensures r == [] || (r[0] != c && r[|r| - 1] != c)
  {
    TrimBy(s, x => x == c)
  }

  /** `strings.TrimSuffix(s, suffix)`: removes one occurrence of the suffix, if present. */
  function TrimSuffix(s: string, suffix: string): (r: string)
    ensures |suffix| <= |s| && s[|s| - |suffix|..] == suffix ==> r + suffix == s
    ensures !(|suffix| <= |s| && s[|s| - |suffix|..] == suffix) ==> r == s
  {
    if |suffix| <= |s| && s[|s| - |suffix|..] == suffix then s[..|s| - |suffix|] else s
  }

  // ---------------------------------------------------------------------
  // Splitting and joining
  // ---------------------------------------------------------------------

  /** `strings.Split(s, string(sep))`. */
  function SplitOn(s: string, sep: char): (r: seq<string>)
    ensures |r| == Count(s, sep) + 1
    ensures forall i :: 0 <= i < |r| ==> sep !in r[i]
    decreases |s|
  {
    var k := IndexOf(s, sep);
    if k < 0 then [s]
    else
      CountSplit(s, k, sep);
      [s[..k]] + SplitOn(s[k + 1..], sep)
  }

  lemma {:induction false} CountSplit(s: string, k: nat, c: char)
    requires k < |s| && s[k] == c && c !in s[..k]
    ensures Count(s, c) == 1 + Count(s[k + 1..], c)
    decreases k
  {
    if k > 0 {
      assert s[1..][..k - 1] == s[1..k];
      CountSplit(s[1..], k - 1, c);
      assert s[1..][k..] == s[k + 1..];
    }
  }

  /** `strings.Join(parts, sep)`. */
  function Join(parts: seq<string>, sep: string): string
    decreases |parts|
  {
    if parts == [] then []
    else if |parts| == 1 then parts[0]
    else parts[0] + sep + Join(parts[1..], sep)
  }

  /** Joining one more part puts the separator and that part at the end. */
  lemma {:induction false} JoinSnoc(parts: seq<string>, x: string, sep: string)
    requires parts != []
    ensures Join(parts + [x], sep) == Join(parts, sep) + sep + x
    decreases |parts|
  {
    var all := parts + [x];
    assert all[0] == parts[0];
    if |parts| == 1 {
      assert all[1..] == [x];
    } else {
      assert all[1..] == parts[1..] + [x];
      JoinSnoc(parts[1..], x, sep);
    }
  }

  /** Splitting and joining back on the same separator is the identity. */
  lemma {:induction false} SplitJoin(s: string, sep: char)
    ensures Join(SplitOn(s, sep), [sep]) == s
    decreases |s|
  {
    var k := IndexOf(s, sep);
    if k >= 0 {
      SplitJoin(s[k + 1..], sep);
      assert s == s[..k] + [sep] + s[k + 1..];
    }
  }

  /** Length of the longest prefix of `s` with no rune satisfying `p`. */
  function SpanUntil(s: string, p: char -> bool): (k: nat)
    ensures k <= |s|
    ensures forall i :: 0 <= i < k ==> !p(s[i])
    ensures k < |s| ==> p(s[k])
    decreases |s|
  {
    if s == [] || p(s[0]) then 0 else 1 + SpanUntil(s[1..], p)
  }

  /** `strings.FieldsFunc(s, p)`: the maximal non-empty runs of runes not satisfying `p`. */
  function FieldsBy(s: string, p: char -> bool): (r: seq<string>)
    ensures forall i :: 0 <= i < |r| ==> r[i] != []
    ensures forall i, j :: 0 <= i < |r| && 0 <= j < |r[i]| ==> !p(r[i][j])
    decreases |s|
  {
    if s == [] then []
    else if p(s[0]) then FieldsBy(s[1..], p)
    else
      var k := SpanUntil(s, p);
      [s[..k]] + FieldsBy(s[k..], p)
  }

  /** Every rune of every field is a rune of the input. */
  lemma {:induction false} FieldsByRunes(s: string, p: char -> bool)
    ensures forall i, j :: 0 <= i < |FieldsBy(s, p)| && 0 <= j < |FieldsBy(s, p)[i]| ==> FieldsBy(s, p)[i][j] in s
    decreases |s|
  {
    if s != [] {
      if p(s[0]) {
        FieldsByRunes(s[1..], p);
        assert forall c :: c in s[1..] ==> c in s;
      } else {
        var k := SpanUntil(s, p);
        FieldsByRunes(s[k..], p);
        assert forall c :: c in s[k..] ==> c in s;
        assert forall c :: c in s[..k] ==> c in s;
      }
    }
  }

  /** `strings.Fields(s)`: the fields between runs of white space. */
  function Fields(s: string): (r: seq<string>)
    ensures forall i :: 0 <= i < |r| ==> r[i] != []
    ensures forall i, j :: 0 <= i < |r| && 0 <= j < |r[i]| ==> !IsSpace(r[i][j])
  {
    FieldsBy(s, IsSpace)
  }

  /** Number of runes of `s` satisfying `p`. */
  function Tally(s: string, p: char -> bool): (n: nat)
    ensures n <= |s|
    decreases |s|
  {
    if s == [] then 0 else (if p(s[0]) then 1 else 0) + Tally(s[1..], p)
  }

  lemma {:induction false} TallyAppend(a: string, b: string, p: char -> bool)
    ensures Tally(a + b, p) == Tally(a, p) + Tally(b, p)
    decreases |a|
  {
    if a == [] {
      assert a + b == b;
    } else {
      assert (a + b)[1..] == a[1..] + b;
      TallyAppend(a[1..], b, p);
    }
  }

  /** Counting a predicate every rune satisfies gives the length; one no rune satisfies gives zero. */
  lemma {:induction false} TallyUniform(s: string, p: char -> bool)
    ensures (forall i :: 0 <= i < |s| ==> p(s[i])) ==> Tally(s, p) == |s|
    ensures (forall i :: 0 <= i < |s| ==> !p(s[i])) ==> Tally(s, p) == 0
    decreases |s|
  {
    if s != [] {
      TallyUniform(s[1..], p);
      assert forall i :: 1 <= i < |s| ==> s[1..][i - 1] == s[i];
    }
  }

  /** Concatenation of a list of strings. */
  function Flatten(parts: seq<string>): string
    decreases |parts|
  {
    if parts == [] then [] else parts[0] + Flatten(parts[1..])
  }

  /** The runes of `s` that do not satisfy `p`, in order. */
  function Keep(s: string, p: char -> bool): string
    decreases |s|
  {
    if s == [] then [] else (if p(s[0]) then [] else [s[0]]) + Keep(s[1..], p)
  }

  lemma {:induction false} KeepNone(s: string, p: char -> bool)
    requires forall i :: 0 <= i < |s| ==> !p(s[i])
    ensures Keep(s, p) == s
    decreases |s|
  {
    if s != [] {
      KeepNone(s[1..], p);
    }
  }

  lemma {:induction false} KeepAppend(a: string, b: string, p: char -> bool)
    ensures Keep(a + b, p) == Keep(a, p) + Keep(b, p)
    decreases |a|
  {
    if a == [] {
      assert a + b == b;
    } else {
      assert (a + b)[1..] == a[1..] + b;
      KeepAppend(a[1..], b, p);
    }
  }

  /** A non-empty string without separators is a single field. */
  lemma {:induction false} FieldsBySingle(s: string, p: char -> bool)
    requires s != [] && forall i :: 0 <= i < |s| ==> !p(s[i])
    ensures FieldsBy(s, p) == [s]
  {
    assert SpanUntil(s, p) == |s|;
    assert s[..|s|] == s && s[|s|..] == [];
    assert FieldsBy(s[|s|..], p) == [];
  }

  /** Two separator-free words joined by one separator are two fields. */
  lemma {:induction false} FieldsByPair(a: string, sep: char, b: string, p: char -> bool)
    requires a != [] && b != [] && p(sep)
    requires forall i :: 0 <= i < |a| ==> !p(a[i])
    requires forall i :: 0 <= i < |b| ==> !p(b[i])
    ensures FieldsBy(a + [sep] + b, p) == [a, b]
  {
    var s := a + [sep] + b;
    assert SpanUntil(s, p) == |a| by {
      assert forall i :: 0 <= i < |a| ==> s[i] == a[i];
      assert s[|a|] == sep;
    }
    assert s[..|a|] == a;
    var rest := s[|a|..];
    assert rest == [sep] + b;
    assert rest[1..] == b;
    FieldsBySingle(b, p);
  }

  /** Fields lose exactly the separator runes: their concatenation is `s` without them. */
  lemma {:induction false} FieldsByKeep(s: string, p: char -> bool)
    ensures Flatten(FieldsBy(s, p)) == Keep(s, p)
    decreases |s|
  {
    if s != [] {
      if p(s[0]) {
        FieldsByKeep(s[1..], p);
      } else {
        var k := SpanUntil(s, p);
        FieldsByKeep(s[k..], p);
        assert s == s[..k] + s[k..];
        KeepAppend(s[..k], s[k..], p);
        KeepNone(s[..k], p);
      }
    }
  }

  /** Removes one trailing carriage return, as `bufio.ScanLines` does. */
  function DropCR(line: string): string {
    if line != [] && line[|line| - 1] == '\r' then line[..|line| - 1] else line
  }

  /** The lines `bufio.Scanner` yields with `ScanLines`: the body split at
      newlines, a final empty piece dropped, one trailing CR removed per line. */
  function Lines(body: string): (r: seq<string>)
    ensures body == [] ==> r == []
    ensures forall i :: 0 <= i < |r| ==> '\n' !in r[i]
  {
    var pieces := SplitOn(body, '\n');
    var kept := if pieces[|pieces| - 1] == [] then pieces[..|pieces| - 1] else pieces;
    seq(|kept|, i requires 0 <= i < |kept| => DropCR(kept[i]))
  }

  /** The non-empty strings of a list, in order. */
  function NonBlank(xs: seq<string>): (r: seq<string>)
    ensures |r| <= |xs|
    ensures forall x :: x in r <==> x in xs && x != []
    decreases |xs|
  {
    if xs == [] then []
    else
      var rest := NonBlank(xs[1..]);
      assert forall x :: x in xs <==> x == xs[0] || x in xs[1..];
      (if xs[0] == [] then [] else [xs[0]]) + rest
  }

  /** Dropping blanks commutes with concatenation, so order is kept. */
  lemma {:induction false} NonBlankAppend(a: seq<string>, b: seq<string>)
    ensures NonBlank(a + b) == NonBlank(a) + NonBlank(b)
    decreases |a|
  {
    if a == [] {
      assert a + b == b;
    } else {
      assert (a + b)[0] == a[0];
      assert (a + b)[1..] == a[1..] + b;
      NonBlankAppend(a[1..], b);
      var head: seq<string> := if a[0] == [] then [] else [a[0]];
      assert NonBlank(a + b) == head + (NonBlank(a[1..]) + NonBlank(b));
    }
  }

  /** A list of empty strings has no non-blank element. */
  lemma {:induction false} NonBlankAllEmpty(xs: seq<string>)
    requires forall i :: 0 <= i < |xs| ==> xs[i] == []
    ensures NonBlank(xs) == []
    decreases |xs|
  {
    if xs != [] {
      NonBlankAllEmpty(xs[1..]);
    }
  }

  /** Each line trimmed of surrounding white space, blank ones dropped, in
      order: the reading loop of the list fetcher and of the command line. */
  function TrimmedNonBlank(lines: seq<string>): (r: seq<string>)
    ensures |r| <= |lines|
    ensures forall x :: x in r <==> x != [] && exists i :: 0 <= i < |lines| && TrimSpace(lines[i]) == x
    ensures forall x :: x in r ==> x == TrimSpace(x)
  {
    var trimmed := seq(|lines|, i requires 0 <= i < |lines| => TrimSpace(lines[i]));
    var r := NonBlank(trimmed);
    assert forall x :: x in trimmed <==> exists i :: 0 <= i < |lines| && TrimSpace(lines[i]) == x by {
      forall x | x in trimmed
        ensures exists i :: 0 <= i < |lines| && TrimSpace(lines[i]) == x
      {
        var i :| 0 <= i < |trimmed| && trimmed[i] == x;
        assert TrimSpace(lines[i]) == x;
      }
      forall x | exists i :: 0 <= i < |lines| && TrimSpace(lines[i]) == x
        ensures x in trimmed
      {
        var i :| 0 <= i < |lines| && TrimSpace(lines[i]) == x;
        assert trimmed[i] == x;
      }
    }
    assert forall x :: x in r ==> x == TrimSpace(x) by {
      forall x | x in r
        ensures x == TrimSpace(x)
      {
        var i :| 0 <= i < |lines| && TrimSpace(lines[i]) == x;
        TrimSpaceIdempotent(lines[i]);
      }
    }
    r
  }

  lemma TrimSpaceIdempotent(s: string)
    ensures TrimSpace(TrimSpace(s)) == TrimSpace(s)
  {
    var t := TrimSpace(s);
    if t != [] {
      assert TrimLeftBy(t, IsSpace) == t;
      assert TrimRightBy(t, IsSpace) == t;
    }
  }

  /** Lines that are all blank give nothing. */
  lemma TrimmedNonBlankAllBlank(lines: seq<string>)
    requires forall i :: 0 <= i < |lines| ==> TrimSpace(lines[i]) == []
    ensures TrimmedNonBlank(lines) == []
  {
    NonBlankAllEmpty(seq(|lines|, i requires 0 <= i < |lines| => TrimSpace(lines[i])));
  }

  /** Reading two pieces one after the other keeps the lines of each in
      order. */
  lemma TrimmedNonBlankAppend(a: seq<string>, b: seq<string>)
    ensures TrimmedNonBlank(a + b) == TrimmedNonBlank(a) + TrimmedNonBlank(b)
  {
    var ta := seq(|a|, i requires 0 <= i < |a| => TrimSpace(a[i]));
    var tb := seq(|b|, i requires 0 <= i < |b| => TrimSpace(b[i]));
    var t := seq(|a + b|, i requires 0 <= i < |a + b| => TrimSpace((a + b)[i]));
    forall i | 0 <= i < |t|
      ensures t[i] == (ta + tb)[i]
    {
      if i < |a| {
        assert (a + b)[i] == a[i];
      } else {
        assert (a + b)[i] == b[i - |a|];
      }
    }
    assert t == ta + tb;
    NonBlankAppend(ta, tb);
  }

  // ---------------------------------------------------------------------
  // Case
  // ---------------------------------------------------------------------

  function AsciiLowerRune(c: char): (r: char)
    ensures 'A' <= c <= 'Z' ==> 'a' <= r <= 'z'
    ensures !('A' <= c <= 'Z') ==> r == c
  {
    if 'A' <= c <= 'Z' then (c as int + 32) as char else c
  }

  /** Lower-cases the ASCII letters of `s` and leaves every other rune alone. */
  function AsciiLower(s: string): (r: string)
    ensures |r| == |s|
    ensures forall i :: 0 <= i < |s| ==> r[i] == AsciiLowerRune(s[i])
  {
    seq(|s|, i requires 0 <= i < |s| => AsciiLowerRune(s[i]))
  }

  /** Case-insensitive equality over the ASCII letters. */
  predicate EqualFoldAscii(a: string, b: string) {
    AsciiLower(a) == AsciiLower(b)
  }

  // ---------------------------------------------------------------------
  // Decimal numbers
  // ---------------------------------------------------------------------

  const MaxInt64: int := 0x7FFF_FFFF_FFFF_FFFF
  const MinInt64: int := -0x8000_0000_0000_0000
  const MaxUint64: int := 0xFFFF_FFFF_FFFF_FFFF

  function DigitRune(d: nat): (c: char)
    requires d < 10
    ensures IsAsciiDigit(c) && c as int - '0' as int == d
  {
    ('0' as int + d) as char
  }

  /** The decimal digits of `n`, without leading zeros. */
  function NatToString(n: nat): (r: string)
    ensures r != []
    ensures forall i :: 0 <= i < |r| ==> IsAsciiDigit(r[i])
    decreases n
  {
    if n < 10 then [DigitRune(n)] else NatToString(n / 10) + [DigitRune(n % 10)]
  }

  /** `strconv.Itoa(n)`, also what `%d` prints. */
  function IntToString(n: int): (r: string)
    ensures r != []
  {
    if n < 0 then "-" + NatToString(-n) else NatToString(n)
  }

  /** The value of a run of ASCII digits. */
  function DigitsValue(s: string): nat
    requires forall i :: 0 <= i < |s| ==> IsAsciiDigit(s[i])
    decreases |s|
  {
    if s == [] then 0 else DigitsValue(s[..|s| - 1]) * 10 + DigitValue(s[|s| - 1])
  }

  function DigitValue(c: char): (d: nat)
    requires IsAsciiDigit(c)
    ensures d < 10
  {
    c as int - '0' as int
  }

  lemma {:induction false} NatToStringValue(n: nat)
    ensures DigitsValue(NatToString(n)) == n
    decreases n
  {
    if n >= 10 {
      var s := NatToString(n);
      assert s[..|s| - 1] == NatToString(n / 10);
      NatToStringValue(n / 10);
    }
  }

  datatype NumError = SyntaxError | RangeError

  /** What `strconv.Atoi` returns: the value (0 on a syntax error, clamped on
      a range error) and the error, if any. */
  datatype Parsed = Parsed(value: int, err: Option<NumError>)

  /** `strconv.Atoi` on a 64-bit platform. An optional sign is followed by
      ASCII digits; a digit prefix that exceeds the unsigned 64-bit range is a
      range error even if a non-digit follows, because the scan stops there. */
  function Atoi(s: string): (r: Parsed)
    ensures r.err == Some(SyntaxError) ==> r.value == 0
    ensures MinInt64 <= r.value <= MaxInt64
    ensures r.err.None? ==> s != [] && (s[0] == '-' || s[0] == '+' || IsAsciiDigit(s[0]))
  {
    if s == [] then Parsed(0, Some(SyntaxError))
    else
      var neg := s[0] == '-';
      var body := if s[0] == '-' || s[0] == '+' then s[1..] else s;
      var k := SpanUntil(body, c => !IsAsciiDigit(c));
      var mag := DigitsValue(body[..k]);
      if body == [] then Parsed(0, Some(SyntaxError))
      else if mag > MaxUint64 then Parsed(if neg then MinInt64 else MaxInt64, Some(RangeError))
      else if k < |body| then Parsed(0, Some(SyntaxError))
      else if !neg && mag > MaxInt64 then Parsed(MaxInt64, Some(RangeError))
      else if neg && mag > -MinInt64 then Parsed(MinInt64, Some(RangeError))
      else Parsed(if neg then -(mag as int) else mag as int, None)
  }

  /** Printing an int64 in decimal and parsing it back gives the same value. */
  lemma {:induction false} AtoiIntToString(n: int)
    requires MinInt64 <= n <= MaxInt64
    ensures Atoi(IntToString(n)) == Parsed(n, None)
  {
    var m := if n < 0 then -n else n;
    var digits := NatToString(m);
    NatToStringValue(m);
    var s := IntToString(n);
    var body := if s[0] == '-' || s[0] == '+' then s[1..] else s;
    assert body == digits;
    var k := SpanUntil(body, c => !IsAsciiDigit(c));
    assert body[..k] == digits;
  }
}
