/** String helpers with Python's meaning: whitespace, `strip`, `rstrip(c)`,
    `split(sep)`, decimal rendering with `zfill`, and `int(str)` parsing.
    Characters are compared as code points; digits are the ASCII ones. */
module Text {
  import opened Common

  /** The characters for which Python's `str.isspace()` holds, which are
      also what `str.strip()` removes and what `\s` matches: among ASCII,
      tab, line feed, vertical tab, form feed, carriage return, the
      separators 0x1C-0x1F and space; above it, the code points of
      `WideSpaces`. */
  predicate IsSpace(c: char) {
    if c as int < 0x80 then 9 <= c as int <= 13 || 28 <= c as int <= 32
    else Listed(c as int, WideSpaces)
  }

  /** `n` is one of `codes`. */
  predicate Listed(n: int, codes: seq<int>) {
    |codes| > 0 && (codes[0] == n || Listed(n, codes[1..]))
  }

  /** Next line, no-break space, Ogham space mark, the spaces
      0x2000-0x200A, line and paragraph separator, narrow no-break space,
      medium mathematical space and ideographic space. */
  const WideSpaces: seq<int> := [
    0x85, 0xA0, 0x1680, 0x2000, 0x2001, 0x2002, 0x2003, 0x2004, 0x2005, 0x2006, 0x2007, 0x2008, 0x2009,
    0x200A, 0x2028, 0x2029, 0x202F, 0x205F, 0x3000]

  /** The whitespace `int()` ignores around a number: CPython turns every
      non-ASCII `isspace` character into a space, then trims only tab, line
      feed, vertical tab, form feed, carriage return and space, so the
      separators 0x1C-0x1F stay and make the text invalid. */
  predicate IntSpace(c: char) {
    if c as int < 0x80 then 9 <= c as int <= 13 || c == ' ' else IsSpace(c)
  }

  /** Which whitespace a strip removes: `str.strip()`'s or `int()`'s. */
  datatype Blanks = StrBlanks | IntBlanks

  predicate Blank(b: Blanks, c: char) {
    match b
    case StrBlanks => IsSpace(c)
    case IntBlanks => IntSpace(c)
  }

  predicate AllBlank(b: Blanks, w: string) { forall k :: 0 <= k < |w| ==> Blank(b, w[k]) }

  predicate IsDigit(c: char) { '0' <= c <= '9' }

  predicate AllDigits(s: string) { forall i :: 0 <= i < |s| ==> IsDigit(s[i]) }

  function Repeat(c: char, n: nat): (r: string)
    ensures |r| == n
    ensures forall i :: 0 <= i < n ==> r[i] == c
  {
    if n == 0 then [] else [c] + Repeat(c, n - 1)
  }

  // ---------------------------------------------------------------- strip

  /** `s.lstrip()`: drops leading whitespace. */
  function TrimLeft(b: Blanks, s: string): (r: string)
    ensures |r| <= |s| && r == s[|s| - |r|..]
    ensures forall i :: 0 <= i < |s| - |r| ==> Blank(b, s[i])
    ensures |r| > 0 ==> !Blank(b, r[0])
  {
    if |s| > 0 && Blank(b, s[0]) then TrimLeft(b, s[1..]) else s
  }

  /** `s.rstrip()`: drops trailing whitespace. */
  function TrimRight(b: Blanks, s: string): (r: string)
    ensures |r| <= |s| && r == s[..|r|]
    ensures forall i :: |r| <= i < |s| ==> Blank(b, s[i])
    ensures |r| > 0 ==> !Blank(b, r[|r| - 1])
  {
    if |s| > 0 && Blank(b, s[|s| - 1]) then TrimRight(b, s[..|s| - 1]) else s
  }

  /** `r` is the slice of `s` at `i`, with only whitespace before and
      after it. */
  predicate StrippedFrom(b: Blanks, r: string, s: string, i: int) {
    && 0 <= i <= i + |r| <= |s| && r == s[i..i + |r|]
    && AllBlank(b, s[..i]) && AllBlank(b, s[i + |r|..])
  }

  /** Both ends trimmed: the longest slice of `s` that neither starts nor
      ends with whitespace and is surrounded only by whitespace. */
  function StripBy(b: Blanks, s: string): (r: string)
    ensures exists i :: StrippedFrom(b, r, s, i)
    ensures |r| > 0 ==> !Blank(b, r[0]) && !Blank(b, r[|r| - 1])
  {
    var left := TrimLeft(b, s);
    var r := TrimRight(b, left);
    StripWitness(b, s, left, r);
    StripEnds(b, left, r);
    r
  }

  lemma StripWitness(b: Blanks, s: string, left: string, r: string)
    requires left == TrimLeft(b, s) && r == TrimRight(b, left)
    ensures exists i :: StrippedFrom(b, r, s, i)
  {
    LeadingSpace(b, s, left);
    TrailingSpace(b, s, |s| - |left|, left, r);
  }

  lemma StripEnds(b: Blanks, left: string, r: string)
    requires |left| > 0 ==> !Blank(b, left[0])
    requires r == TrimRight(b, left)
    ensures |r| > 0 ==> !Blank(b, r[0]) && !Blank(b, r[|r| - 1])
  {
    assert |r| > 0 ==> r[0] == left[0];
  }

  /** `s.strip()`. */
  function Strip(s: string): (r: string)
    ensures exists i :: StrippedFrom(StrBlanks, r, s, i)
    ensures |r| > 0 ==> !IsSpace(r[0]) && !IsSpace(r[|r| - 1])
  {
    StripBy(StrBlanks, s)
  }

  /** What `lstrip` removed is whitespace. */
  lemma LeadingSpace(b: Blanks, s: string, left: string)
    requires left == TrimLeft(b, s)
    ensures left == s[|s| - |left|..] && AllBlank(b, s[..|s| - |left|])
  {
    SpacePrefix(b, s, |s| - |left|);
  }

  lemma SpacePrefix(b: Blanks, s: string, i: nat)
    requires i <= |s| && forall k :: 0 <= k < i ==> Blank(b, s[k])
    ensures AllBlank(b, s[..i])
  {
    assert forall k :: 0 <= k < i ==> s[..i][k] == s[k];
  }

  /** What `rstrip` removed from the suffix `left` of `s` is whitespace. */
  lemma TrailingSpace(b: Blanks, s: string, i: nat, left: string, r: string)
    requires i <= |s| && left == s[i..] && r == TrimRight(b, left)
    requires AllBlank(b, s[..i])
    ensures StrippedFrom(b, r, s, i)
  {
    var j := i + |r|;
    SliceOfSlice(s, i, |r|);
    forall k | 0 <= k < |s| - j ensures Blank(b, s[j..][k]) {
      assert s[j..][k] == left[|r| + k];
    }
  }

  /** `s.rstrip(c)` for a single character `c`. */
  function RStripChar(s: string, c: char): (r: string)
    ensures |r| <= |s| && r == s[..|r|]
    ensures forall i :: |r| <= i < |s| ==> s[i] == c
    ensures |r| > 0 ==> r[|r| - 1] != c
  {
    if |s| > 0 && s[|s| - 1] == c then RStripChar(s[..|s| - 1], c) else s
  }

  lemma {:induction false} RStripCharAppend(s: string, t: string, c: char)
    requires |s| > 0 ==> s[|s| - 1] != c
    requires forall i :: 0 <= i < |t| ==> t[i] == c
    ensures RStripChar(s + t, c) == s
    decreases |t|
  {
    if |t| == 0 {
      assert s + t == s;
    } else {
      assert (s + t)[..|s + t| - 1] == s + t[..|t| - 1];
      RStripCharAppend(s, t[..|t| - 1], c);
    }
  }

  // ---------------------------------------------------------------- split / join

  /** `s.split(sep)`: never empty; the pieces contain no separator. */
  function Split(s: string, sep: char): (parts: seq<string>)
    ensures |parts| >= 1
    ensures forall i :: 0 <= i < |parts| ==> sep !in parts[i]
  {
    if |s| == 0 then [""]
    else
      var rest := Split(s[1..], sep);
      if s[0] == sep then [""] + rest else [[s[0]] + rest[0]] + rest[1..]
  }

  /** `sep.join(parts)`. */
  function Join(parts: seq<string>, sep: char): string
    requires |parts| >= 1
  {
    if |parts| == 1 then parts[0] else parts[0] + [sep] + Join(parts[1..], sep)
  }

  /** Splitting and re-joining gives back the original text. */
  lemma {:induction false} SplitJoin(s: string, sep: char)
    ensures Join(Split(s, sep), sep) == s
  {
    if |s| > 0 {
      var rest := Split(s[1..], sep);
      SplitJoin(s[1..], sep);
      if s[0] == sep {
        assert ([""] + rest)[1..] == rest;
      } else {
        var parts := [[s[0]] + rest[0]] + rest[1..];
        if |rest| == 1 {
          assert parts == [[s[0]] + rest[0]];
        } else {
          assert parts[1..] == rest[1..];
          assert Join(rest, sep) == rest[0] + [sep] + Join(rest[1..], sep);
        }
      }
    }
  }

  // ---------------------------------------------------------------- decimals

  function DigitChar(d: nat): char
    requires d < 10
  {
    ('0' as int + d) as char
  }

  function DigitValue(c: char): nat
    requires IsDigit(c)
  {
    c as int - '0' as int
  }

  /** `str(n)` for a natural number. */
  function NatToDecimal(n: nat): (s: string)
    ensures |s| >= 1 && AllDigits(s)
  {
    if n < 10 then [DigitChar(n)] else NatToDecimal(n / 10) + [DigitChar(n % 10)]
  }

  /** Value of a string of decimal digits (leading zeros allowed). */
  function DigitsValue(s: string): nat
    requires AllDigits(s)
  {
    if |s| == 0 then 0 else 10 * DigitsValue(s[..|s| - 1]) + DigitValue(s[|s| - 1])
  }

  lemma {:induction false} DecimalRoundTrip(n: nat)
    ensures DigitsValue(NatToDecimal(n)) == n
  {
    if n >= 10 {
      var s := NatToDecimal(n);
      assert s[..|s| - 1] == NatToDecimal(n / 10);
      DecimalRoundTrip(n / 10);
    }
  }

  lemma {:induction false} LeadingZerosValue(k: nat, s: string)
    requires AllDigits(s)
    ensures AllDigits(Repeat('0', k) + s)
    ensures DigitsValue(Repeat('0', k) + s) == DigitsValue(s)
    decreases |s|
  {
    var t := Repeat('0', k) + s;
    if |s| == 0 {
      assert t == Repeat('0', k);
      ZerosValue(k);
    } else {
      assert t[..|t| - 1] == Repeat('0', k) + s[..|s| - 1];
      LeadingZerosValue(k, s[..|s| - 1]);
    }
  }

  lemma {:induction false} ZerosValue(k: nat)
    ensures DigitsValue(Repeat('0', k)) == 0
  {
    if k > 0 {
      var z := Repeat('0', k);
      assert z[..|z| - 1] == Repeat('0', k - 1) by {
        assert z == Repeat('0', k - 1) + ['0'] by {
          assert z == [ '0' ] + Repeat('0', k - 1);
        }
      }
      ZerosValue(k - 1);
    }
  }

  /** `s.zfill(width)` for a string of digits: left-padded with '0'. */
  function ZFill(s: string, width: nat): (r: string)
    ensures |r| == Max(width, |s|)
    ensures r[|r| - |s|..] == s
    ensures forall i :: 0 <= i < |r| - |s| ==> r[i] == '0'
  {
    if |s| < width then Repeat('0', width - |s|) + s else s
  }

  /** `str(n).zfill(w)` (and `f"{n:0wd}"`) keeps the value of `n`, so
      different numbers never render alike. */
  lemma PaddedDecimalInjective(a: nat, b: nat, width: nat)
    requires ZFill(NatToDecimal(a), width) == ZFill(NatToDecimal(b), width)
    ensures a == b
  {
    PaddedDecimalValue(a, width);
    PaddedDecimalValue(b, width);
  }

  lemma PaddedDecimalValue(n: nat, width: nat)
    ensures AllDigits(ZFill(NatToDecimal(n), width))
    ensures DigitsValue(ZFill(NatToDecimal(n), width)) == n
  {
    var s := NatToDecimal(n);
    DecimalRoundTrip(n);
    if |s| < width {
      LeadingZerosValue(width - |s|, s);
    }
  }

  /** A number below 10^4 zero-filled to width 4 takes exactly 4 characters. */
  lemma {:induction false} DecimalLength(n: nat)
    ensures n < 10 ==> |NatToDecimal(n)| == 1
    ensures n < 100 ==> |NatToDecimal(n)| <= 2
    ensures n < 1000 ==> |NatToDecimal(n)| <= 3
    ensures n < 10000 ==> |NatToDecimal(n)| <= 4
  {
    if n >= 10 {
      DecimalLength(n / 10);
    }
  }

  // ---------------------------------------------------------------- int(str)

  /** What `int()` accepts once the text is stripped: an optional sign
      followed by at least one decimal digit. */
  predicate IntText(t: string) {
    || (|t| > 0 && AllDigits(t))
    || (|t| > 1 && (t[0] == '-' || t[0] == '+') && AllDigits(t[1..]))
  }

  /** Python's `int(s)` on a text cell: surrounding whitespace (in the
      sense of `IntSpace`), an optional sign and at least one decimal digit;
      anything else raises (None here). */
  function ParseInt(s: string): (r: Option<int>)
    ensures var t := StripBy(IntBlanks, s);
            && (r.Some? <==> IntText(t))
            && (r.Some? && AllDigits(t) ==> r.value == DigitsValue(t))
            && (r.Some? && t[0] == '+' ==> r.value == DigitsValue(t[1..]))
            && (r.Some? && t[0] == '-' ==> r.value == -(DigitsValue(t[1..]) as int))
  {
    var t := StripBy(IntBlanks, s);
    if |t| == 0 then None
    else if (t[0] == '-' || t[0] == '+') && |t| > 1 && AllDigits(t[1..]) then
      var magnitude: int := DigitsValue(t[1..]);
      Some(if t[0] == '-' then -magnitude else magnitude)
    else if AllDigits(t) then Some(DigitsValue(t))
    else None
  }

  /** `int()` ignores exactly the `isspace` characters other than the four
      separators 0x1C-0x1F. */
  lemma IntSpaceIsSpace(c: char)
    ensures IntSpace(c) <==> IsSpace(c) && !(0x1C <= c as int <= 0x1F)
  {
  }

  /** A separator that `str.strip()` would remove makes `int()` fail. */
  lemma ParseIntRejectsSeparator(c: char, i: int)
    requires 0x1C <= c as int <= 0x1F
    ensures ParseInt([c] + IntToDecimal(i)) == None
    ensures ParseInt(IntToDecimal(i) + [c]) == None
  {
    var t := IntToDecimal(i);
    var s1, s2 := [c] + t, t + [c];
    assert s1[0] == c && s1[|s1| - 1] == t[|t| - 1];
    assert s2[0] == t[0] && s2[|s2| - 1] == c;
    assert !IntText(s1) by {
      assert !IsDigit(s1[0]) && s1[0] != '-' && s1[0] != '+';
    }
    assert !IntText(s2) by {
      assert !IsDigit(s2[|s2| - 1]);
      assert |s2| > 1 ==> s2[1..][|s2| - 2] == c;
    }
    NotIntText(s1);
    NotIntText(s2);
  }

  /** Text that `int()` does not trim and that is no signed number fails. */
  lemma NotIntText(s: string)
    requires |s| > 0 && !IntSpace(s[0]) && !IntSpace(s[|s| - 1]) && !IntText(s)
    ensures ParseInt(s) == None
  {
    NoBlankAtEnds(s);
  }

  /** Rendering a number and parsing it back gives the number. */
  lemma ParseIntDecimal(n: nat)
    ensures ParseInt(NatToDecimal(n)) == Some(n)
  {
    var s := NatToDecimal(n);
    DecimalRoundTrip(n);
    ParseDigits(s);
  }

  /** Bare digits parse to their value. */
  lemma ParseDigits(s: string)
    requires |s| > 0 && AllDigits(s)
    ensures ParseInt(s) == Some(DigitsValue(s))
  {
    assert IsDigit(s[0]) && IsDigit(s[|s| - 1]);
    NoBlankAtEnds(s);
  }

  /** A text whose ends are not `int()` whitespace is left as it is. */
  lemma NoBlankAtEnds(s: string)
    requires |s| > 0 ==> !IntSpace(s[0]) && !IntSpace(s[|s| - 1])
    ensures StripBy(IntBlanks, s) == s
  {
  }

  /** `str(i)` for any integer: a '-' before the digits of a negative one. */
  function IntToDecimal(i: int): (s: string)
    ensures IntText(s)
  {
    if i < 0 then "-" + NatToDecimal(-i) else NatToDecimal(i)
  }

  /** `int(str(i)) == i` for every integer, whatever whitespace `int()`
      ignores surrounds the text. */
  lemma ParseIntRoundTrip(i: int, before: string, after: string)
    requires AllBlank(IntBlanks, before) && AllBlank(IntBlanks, after)
    ensures ParseInt(before + IntToDecimal(i) + after) == Some(i)
  {
    var t := IntToDecimal(i);
    var d := NatToDecimal(if i < 0 then -i else i);
    DecimalRoundTrip(if i < 0 then -i else i);
    assert !Blank(IntBlanks, t[0]) && !Blank(IntBlanks, t[|t| - 1]);
    StripSpaces(IntBlanks, before, t, after);
    if i < 0 {
      assert t[1..] == d;
    }
  }

  /** Stripping removes exactly the whitespace around a text that starts
      and ends with something else. */
  lemma StripSpaces(b: Blanks, before: string, t: string, after: string)
    requires AllBlank(b, before) && AllBlank(b, after)
    requires |t| > 0 && !Blank(b, t[0]) && !Blank(b, t[|t| - 1])
    ensures StripBy(b, before + t + after) == t
  {
    assert before + t + after == before + (t + after);
    TrimLeftSpaces(b, before, t + after);
    TrimRightSpaces(b, t, after);
  }

  lemma {:induction false} TrimLeftSpaces(b: Blanks, w: string, t: string)
    requires AllBlank(b, w) && |t| > 0 && !Blank(b, t[0])
    ensures TrimLeft(b, w + t) == t
  {
    if |w| == 0 {
      assert w + t == t;
    } else {
      assert (w + t)[1..] == w[1..] + t;
      TrimLeftSpaces(b, w[1..], t);
    }
  }

  lemma {:induction false} TrimRightSpaces(b: Blanks, t: string, w: string)
    requires AllBlank(b, w) && |t| > 0 && !Blank(b, t[|t| - 1])
    ensures TrimRight(b, t + w) == t
    decreases |w|
  {
    if |w| == 0 {
      assert t + w == t;
    } else {
      assert (t + w)[..|t + w| - 1] == t + w[..|w| - 1];
      TrimRightSpaces(b, t, w[..|w| - 1]);
    }
  }

  // ---------------------------------------------------------------- ordering

  /** Python's `a < b` on strings: lexicographic by code point. */
  predicate StrLess(a: string, b: string)
    decreases |a|
  {
    |b| > 0 && (|a| == 0 || a[0] < b[0] || (a[0] == b[0] && StrLess(a[1..], b[1..])))
  }

  lemma {:induction false} StrLessTransitive(a: string, b: string, c: string)
    requires StrLess(a, b) && StrLess(b, c)
    ensures StrLess(a, c)
    decreases |a|
  {
    if |a| > 0 && a[0] == b[0] && b[0] == c[0] {
      StrLessTransitive(a[1..], b[1..], c[1..]);
    }
  }

  lemma {:induction false} StrLessIrreflexive(a: string)
    ensures !StrLess(a, a)
    decreases |a|
  {
    if |a| > 0 {
      StrLessIrreflexive(a[1..]);
    }
  }

  /** Each entry is below the next, so the list equals `sorted(list)`. */
  predicate Ascending(s: seq<string>) {
    forall i :: 0 < i < |s| ==> StrLess(s[i - 1], s[i])
  }

  /** An ascending list is ordered pairwise, and so has no duplicates. */
  lemma {:induction false} AscendingPairwise(s: seq<string>, i: nat, j: nat)
    requires Ascending(s) && i < j < |s|
    ensures StrLess(s[i], s[j]) && s[i] != s[j]
    decreases j - i
  {
    if i + 1 < j {
      AscendingPairwise(s, i, j - 1);
      StrLessTransitive(s[i], s[j - 1], s[j]);
    }
    StrLessIrreflexive(s[i]);
  }

  lemma AscendingNoDups(s: seq<string>)
    requires Ascending(s)
    ensures NoDups(s)
  {
    forall i, j | 0 <= i < j < |s|
      ensures s[i] != s[j]
    {
      AscendingPairwise(s, i, j);
    }
  }

  /** Two different strings are ordered one way or the other. */
  lemma {:induction false} StrLessTotal(a: string, b: string)
    requires a != b
    ensures StrLess(a, b) || StrLess(b, a)
    decreases |a|
  {
    if |a| > 0 && |b| > 0 && a[0] == b[0] {
      assert a[1..] != b[1..] by {
        assert a == [a[0]] + a[1..] && b == [b[0]] + b[1..];
      }
      StrLessTotal(a[1..], b[1..]);
    }
  }

  lemma StrLessAsymmetric(a: string, b: string)
    requires StrLess(a, b)
    ensures !StrLess(b, a)
  {
    if StrLess(b, a) {
      StrLessTransitive(a, b, a);
      StrLessIrreflexive(a);
    }
  }

  // ---------------------------------------------------------------- sorting

  /** No entry is below the one before it: what `sorted` promises. */
  predicate Ordered(s: seq<string>) {
    forall i :: 0 < i < |s| ==> !StrLess(s[i], s[i - 1])
  }

  /** `x` placed before the first entry that is not below it. */
  function Insert(x: string, s: seq<string>): (r: seq<string>)
    ensures |r| == |s| + 1 && multiset(r) == multiset(s) + multiset{x}
    ensures r[0] == x || (|s| > 0 && r[0] == s[0])
  {
    if |s| == 0 then [x]
    else if StrLess(s[0], x) then
      assert s == [s[0]] + s[1..];
      [s[0]] + Insert(x, s[1..])
    else [x] + s
  }

  lemma {:induction false} InsertOrdered(x: string, s: seq<string>)
    requires Ordered(s)
    ensures Ordered(Insert(x, s))
  {
    if |s| > 0 && StrLess(s[0], x) {
      InsertOrdered(x, s[1..]);
      var t := Insert(x, s[1..]);
      if t[0] == x {
        StrLessAsymmetric(s[0], x);
      }
    }
  }

  /** `sorted(s)` on strings, by insertion. */
  function Sort(s: seq<string>): (r: seq<string>)
    ensures |r| == |s| && multiset(r) == multiset(s)
  {
    if |s| == 0 then []
    else
      assert s == [s[0]] + s[1..];
      Insert(s[0], Sort(s[1..]))
  }

  lemma {:induction false} SortOrdered(s: seq<string>)
    ensures Ordered(Sort(s))
  {
    if |s| > 0 {
      SortOrdered(s[1..]);
      InsertOrdered(s[0], Sort(s[1..]));
    }
  }

  /** Sorting leaves an ascending list as it is. */
  lemma {:induction false} SortAscending(s: seq<string>)
    requires Ascending(s)
    ensures Sort(s) == s
  {
    if |s| > 1 {
      SortAscending(s[1..]);
      StrLessAsymmetric(s[0], s[1]);
      assert s == [s[0]] + s[1..];
    }
  }

  /** An ordered list without duplicates is ascending. */
  lemma OrderedDistinct(s: seq<string>)
    requires Ordered(s) && NoDups(s)
    ensures Ascending(s)
  {
    forall i | 0 < i < |s| ensures StrLess(s[i - 1], s[i]) {
      StrLessTotal(s[i - 1], s[i]);
    }
  }

  /** Two ascending lists with the same elements are equal: the sorted
      form of a collection of distinct strings is unique. */
  lemma {:induction false} AscendingUnique(a: seq<string>, b: seq<string>)
    requires Ascending(a) && Ascending(b)
    requires forall x :: x in a <==> x in b
    ensures a == b
    decreases |a|
  {
    if |b| > 0 {
      assert b[0] in a;
    }
    if |a| > 0 {
      assert a[0] in b;
      assert b[0] in a;
      if a[0] != b[0] {
        var i :| 0 <= i < |a| && a[i] == b[0];
        var j :| 0 <= j < |b| && b[j] == a[0];
        AscendingPairwise(a, 0, i);
        AscendingPairwise(b, 0, j);
        StrLessAsymmetric(a[0], b[0]);
      }
      AscendingNoDups(a);
      AscendingNoDups(b);
      forall x ensures x in a[1..] <==> x in b[1..] {
        if x in a[1..] {
          var i :| 1 <= i < |a| && a[i] == x;
          assert x in b && x != b[0];
        }
        if x in b[1..] {
          var j :| 1 <= j < |b| && b[j] == x;
          assert x in a && x != a[0];
        }
      }
      assert Ascending(a[1..]) && Ascending(b[1..]);
      AscendingUnique(a[1..], b[1..]);
      assert a == [a[0]] + a[1..] && b == [b[0]] + b[1..];
    }
  }
}
