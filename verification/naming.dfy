/** Names in generated systems: Roman numerals for planets, the sanitised
    system name, and the three-level choice of a system's name with its
    per-sector fallback counter. */
module Naming {
  import opened Common
  import opened Text

  // ---------------------------------------------------------------- Roman numerals

  /** The greedy table, largest value first. */
  const RomanValues: seq<nat> := [1000, 900, 500, 400, 100, 90, 50, 40, 10, 9, 5, 4, 1]
  const RomanSymbols: seq<string> := ["M", "CM", "D", "CD", "C", "XC", "L", "XL", "X", "IX", "V", "IV", "I"]

  /** A greedy table: as many symbols as values, every value positive. */
  predicate Table(vals: seq<nat>, syms: seq<string>) {
    |vals| == |syms| && forall i :: 0 <= i < |vals| ==> vals[i] > 0
  }

  /** The greedy loop over `vals`/`syms` from row `k` on: take row `k`
      while it fits, then move to the next row. */
  function Greedy(num: int, k: nat, vals: seq<nat>, syms: seq<string>): (r: string)
    requires Table(vals, syms) && k <= |vals|
    decreases |vals| - k, num
  {
    if k == |vals| then ""
    else if num >= vals[k] then syms[k] + Greedy(num - vals[k], k, vals, syms)
    else Greedy(num, k + 1, vals, syms)
  }

  lemma RomanTable()
    ensures Table(RomanValues, RomanSymbols) && |RomanValues| == 13
  {
  }

  /** `to_roman(n)`: nothing for n <= 0, a non-empty numeral otherwise. */
  function ToRoman(n: int): (r: string)
    ensures n <= 0 <==> r == ""
  {
    RomanTable();
    if n > 0 then
      var j := IndexAtMost(n, 0);
      GreedySkips(n, 0, j, RomanValues, RomanSymbols);
      assert RomanSymbols[j] != "";
      Greedy(n, 0, RomanValues, RomanSymbols)
    else
      GreedyNone(n, 0, RomanValues, RomanSymbols);
      Greedy(n, 0, RomanValues, RomanSymbols)
  }

  /** The first row from `k` on whose value fits in `num`. */
  function IndexAtMost(num: int, k: nat): (j: nat)
    requires 1 <= num && k <= 12
    ensures k <= j <= 12 && RomanValues[j] <= num
    ensures forall i :: k <= i < j ==> num < RomanValues[i]
    decreases 12 - k
  {
    if num >= RomanValues[k] then k else IndexAtMost(num, k + 1)
  }

  lemma {:induction false} GreedySkips(num: int, k: nat, j: nat, vals: seq<nat>, syms: seq<string>)
    requires Table(vals, syms) && k <= j <= |vals|
    requires forall i :: k <= i < j ==> num < vals[i]
    ensures Greedy(num, k, vals, syms) == Greedy(num, j, vals, syms)
    decreases j - k
  {
    if k < j {
      GreedySkips(num, k + 1, j, vals, syms);
    }
  }

  lemma {:induction false} GreedyNone(num: int, k: nat, vals: seq<nat>, syms: seq<string>)
    requires Table(vals, syms) && num <= 0 && k <= |vals|
    ensures Greedy(num, k, vals, syms) == ""
    decreases |vals| - k
  {
    if k < |vals| {
      GreedyNone(num, k + 1, vals, syms);
    }
  }

  // Reading a numeral back, by the usual rule: a symbol counts negatively
  // when a larger one follows it.

  function SymbolValue(c: char): nat {
    match c
    case 'I' => 1
    case 'V' => 5
    case 'X' => 10
    case 'L' => 50
    case 'C' => 100
    case 'D' => 500
    case 'M' => 1000
    case _ => 0
  }

  function RomanDecode(s: string): int {
    if |s| == 0 then 0
    else if |s| >= 2 && SymbolValue(s[0]) < SymbolValue(s[1]) then RomanDecode(s[1..]) - SymbolValue(s[0])
    else RomanDecode(s[1..]) + SymbolValue(s[0])
  }

  /** Decoding splits at a point where the value does not rise. */
  lemma {:induction false} DecodeAppend(a: string, b: string)
    requires |a| > 0 && |b| > 0 ==> SymbolValue(a[|a| - 1]) >= SymbolValue(b[0])
    ensures RomanDecode(a + b) == RomanDecode(a) + RomanDecode(b)
  {
    if |a| == 0 {
      assert a + b == b;
    } else {
      assert (a + b)[1..] == a[1..] + b;
      DecodeAppend(a[1..], b);
    }
  }

  /** Row `k` reads back as its value; its symbol starts with a letter no
      larger than that value and ends with one no smaller. */
  predicate SymbolFact(k: nat, vals: seq<nat>, syms: seq<string>)
    requires Table(vals, syms) && k < |vals|
  {
    && |syms[k]| > 0
    && RomanDecode(syms[k]) == vals[k]
    && SymbolValue(syms[k][0]) <= vals[k]
    && SymbolValue(syms[k][|syms[k]| - 1]) >= vals[k]
  }

  /** A table the numeral reader understands, ending in the unit row. */
  predicate Readable(vals: seq<nat>, syms: seq<string>) {
    && Table(vals, syms) && |vals| > 0 && vals[|vals| - 1] == 1
    && (forall i :: 0 < i < |vals| ==> vals[i] < vals[i - 1])
    && forall k :: 0 <= k < |vals| ==> SymbolFact(k, vals, syms)
  }

  lemma RomanReadable()
    ensures Readable(RomanValues, RomanSymbols)
  {
    LargeSymbols();
    SmallSymbols();
  }

  lemma LargeSymbols()
    ensures Table(RomanValues, RomanSymbols)
    ensures forall k :: 0 <= k < 7 ==> SymbolFact(k, RomanValues, RomanSymbols)
  {
  }

  lemma SmallSymbols()
    ensures Table(RomanValues, RomanSymbols)
    ensures forall k :: 7 <= k < 13 ==> SymbolFact(k, RomanValues, RomanSymbols)
  {
  }

  /** What the loop emits from row `k` on starts with a letter no larger
      than row `k`'s value. */
  lemma {:induction false} GreedyFirst(num: int, k: nat, vals: seq<nat>, syms: seq<string>)
    requires Readable(vals, syms) && k < |vals|
    ensures |Greedy(num, k, vals, syms)| > 0 ==> SymbolValue(Greedy(num, k, vals, syms)[0]) <= vals[k]
    decreases |vals| - k, num
  {
    if num >= vals[k] {
      assert SymbolFact(k, vals, syms);
    } else if k + 1 < |vals| {
      assert vals[k + 1] < vals[k];
      GreedyFirst(num, k + 1, vals, syms);
    }
  }

  /** From any row that still has the unit row ahead, the loop spells out
      all of `num`. */
  lemma {:induction false} GreedyValue(num: int, k: nat, vals: seq<nat>, syms: seq<string>)
    requires Readable(vals, syms) && 0 <= num && k <= |vals| && (k == |vals| ==> num == 0)
    ensures RomanDecode(Greedy(num, k, vals, syms)) == num
    decreases |vals| - k, num
  {
    if k < |vals| {
      if num >= vals[k] {
        var rest := Greedy(num - vals[k], k, vals, syms);
        assert SymbolFact(k, vals, syms);
        GreedyFirst(num - vals[k], k, vals, syms);
        DecodeAppend(syms[k], rest);
        GreedyValue(num - vals[k], k, vals, syms);
      } else {
        GreedyValue(num, k + 1, vals, syms);
      }
    }
  }

  /** The numeral of every n >= 0 reads back as n. */
  lemma RomanRoundTrip(n: nat)
    ensures RomanDecode(ToRoman(n)) == n
  {
    RomanReadable();
    GreedyValue(n, 0, RomanValues, RomanSymbols);
  }

  /** The letters Roman numerals are written in. */
  const RomanLetters: string := "MDCLXVI"

  /** A greedy numeral is written in the letters of its table's symbols. */
  lemma {:induction false} GreedyLetters(num: int, k: nat, vals: seq<nat>, syms: seq<string>, letters: string)
    requires Table(vals, syms) && k <= |vals|
    requires forall i :: 0 <= i < |syms| ==> forall c :: c in syms[i] ==> c in letters
    ensures forall c :: c in Greedy(num, k, vals, syms) ==> c in letters
    decreases |vals| - k, num
  {
    if k < |vals| {
      if num >= vals[k] {
        GreedyLetters(num - vals[k], k, vals, syms, letters);
      } else {
        GreedyLetters(num, k + 1, vals, syms, letters);
      }
    }
  }

  /** `to_roman` writes only the seven numeral letters. */
  lemma RomanAlphabet(n: int)
    ensures forall c :: c in ToRoman(n) ==> c in RomanLetters
  {
    RomanTable();
    GreedyLetters(n, 0, RomanValues, RomanSymbols, RomanLetters);
  }

  // The canonical numeral, digit by digit.

  /** `s` repeated `n` times. */
  function Times(s: string, n: nat): (r: string)
    ensures |r| == n * |s|
  {
    if n == 0 then "" else s + Times(s, n - 1)
  }

  /** One decimal digit in the units `one`, `five`, `ten`. */
  function DigitNumeral(d: nat, one: string, five: string, ten: string): string
    requires d < 10
  {
    if d == 9 then one + ten
    else if d >= 5 then five + Times(one, d - 5)
    else if d == 4 then one + five
    else Times(one, d)
  }

  /** The textbook numeral: thousands as M's, then hundreds, tens and units
      each written with the subtractive forms for 4 and 9. */
  function CanonicalRoman(n: nat): string {
    Times("M", n / 1000)
      + DigitNumeral((n / 100) % 10, "C", "D", "M")
      + DigitNumeral((n / 10) % 10, "X", "L", "C")
      + DigitNumeral(n % 10, "I", "V", "X")
  }

  /** Taking row `k` `j` times (`m` in all), then moving on. */
  lemma {:induction false} GreedyRepeat(j: nat, m: int, rest: int, k: nat, vals: seq<nat>, syms: seq<string>)
    requires Table(vals, syms) && k < |vals| && 0 <= rest < vals[k] && m == j * vals[k]
    ensures Greedy(m + rest, k, vals, syms) == Times(syms[k], j) + Greedy(rest, k + 1, vals, syms)
  {
    if j > 0 {
      var u := vals[k];
      assert m - u == (j - 1) * u;
      GreedyRepeat(j - 1, m - u, rest, k, vals, syms);
      assert Times(syms[k], j) == syms[k] + Times(syms[k], j - 1);
    }
  }

  /** Rows k..k+3 are 9u, 5u, 4u and u, spelt `one`+`ten`, `five`,
      `one`+`five` and `one`: together they write one digit. */
  predicate Decade(k: nat, u: nat, one: string, five: string, ten: string, vals: seq<nat>, syms: seq<string>) {
    && Table(vals, syms) && k + 4 <= |vals|
    && vals[k] == 9 * u && vals[k + 1] == 5 * u && vals[k + 2] == 4 * u && vals[k + 3] == u
    && syms[k] == one + ten && syms[k + 1] == five && syms[k + 2] == one + five && syms[k + 3] == one
  }

  lemma Decades()
    ensures Decade(1, 100, "C", "D", "M", RomanValues, RomanSymbols)
    ensures Decade(5, 10, "X", "L", "C", RomanValues, RomanSymbols)
    ensures Decade(9, 1, "I", "V", "X", RomanValues, RomanSymbols)
  {
  }

  /** The digit `d` (worth `num - rest`) followed by a smaller remainder. */
  lemma GreedyDigit(d: nat, num: int, rest: int, k: nat, u: nat, one: string, five: string, ten: string,
                    vals: seq<nat>, syms: seq<string>)
    requires Decade(k, u, one, five, ten, vals, syms) && d < 10 && 0 <= rest < u && num == d * u + rest
    ensures Greedy(num, k, vals, syms) == DigitNumeral(d, one, five, ten) + Greedy(rest, k + 4, vals, syms)
  {
    if d == 9 {
      DigitNine(num, rest, k, u, one, five, ten, vals, syms);
    } else if d == 8 {
      DigitFiveUp(3, 3 * u, num, rest, k, u, one, five, ten, vals, syms);
    } else if d == 7 {
      DigitFiveUp(2, 2 * u, num, rest, k, u, one, five, ten, vals, syms);
    } else if d == 6 {
      DigitFiveUp(1, u, num, rest, k, u, one, five, ten, vals, syms);
    } else if d == 5 {
      DigitFiveUp(0, 0, num, rest, k, u, one, five, ten, vals, syms);
    } else if d == 4 {
      DigitFour(num, rest, k, u, one, five, ten, vals, syms);
    } else if d == 3 {
      DigitLow(3, 3 * u, num, rest, k, u, one, five, ten, vals, syms);
    } else if d == 2 {
      DigitLow(2, 2 * u, num, rest, k, u, one, five, ten, vals, syms);
    } else if d == 1 {
      DigitLow(1, u, num, rest, k, u, one, five, ten, vals, syms);
    } else {
      DigitLow(0, 0, num, rest, k, u, one, five, ten, vals, syms);
    }
  }

  lemma DigitNine(num: int, rest: int, k: nat, u: nat, one: string, five: string, ten: string,
                  vals: seq<nat>, syms: seq<string>)
    requires Decade(k, u, one, five, ten, vals, syms) && 0 <= rest < u && num == 9 * u + rest
    ensures Greedy(num, k, vals, syms) == one + ten + Greedy(rest, k + 4, vals, syms)
  {
    GreedySkips(rest, k, k + 3, vals, syms);
    GreedyRepeat(0, 0, rest, k + 3, vals, syms);
  }

  lemma DigitFiveUp(j: nat, m: int, num: int, rest: int, k: nat, u: nat, one: string, five: string, ten: string,
                    vals: seq<nat>, syms: seq<string>)
    requires Decade(k, u, one, five, ten, vals, syms) && j < 4 && m == j * u && 0 <= rest < u
    requires num == 5 * u + m + rest && m + rest < 4 * u
    ensures Greedy(num, k, vals, syms) == five + Times(one, j) + Greedy(rest, k + 4, vals, syms)
  {
    TakeFive(num, m + rest, k, u, one, five, ten, vals, syms);
    GreedyRepeat(j, m, rest, k + 3, vals, syms);
    var tail := Greedy(rest, k + 4, vals, syms);
    assert five + (Times(one, j) + tail) == five + Times(one, j) + tail;
  }

  lemma TakeFive(num: int, left: int, k: nat, u: nat, one: string, five: string, ten: string,
                 vals: seq<nat>, syms: seq<string>)
    requires Decade(k, u, one, five, ten, vals, syms) && 0 <= left < 4 * u && num == 5 * u + left
    ensures Greedy(num, k, vals, syms) == five + Greedy(left, k + 3, vals, syms)
  {
    GreedySkips(num, k, k + 1, vals, syms);
    assert Greedy(num, k + 1, vals, syms) == five + Greedy(left, k + 1, vals, syms);
    GreedySkips(left, k + 1, k + 3, vals, syms);
  }

  lemma DigitFour(num: int, rest: int, k: nat, u: nat, one: string, five: string, ten: string,
                  vals: seq<nat>, syms: seq<string>)
    requires Decade(k, u, one, five, ten, vals, syms) && 0 <= rest < u && num == 4 * u + rest
    ensures Greedy(num, k, vals, syms) == one + five + Greedy(rest, k + 4, vals, syms)
  {
    GreedySkips(num, k, k + 2, vals, syms);
    GreedySkips(rest, k + 2, k + 3, vals, syms);
    GreedyRepeat(0, 0, rest, k + 3, vals, syms);
  }

  lemma DigitLow(j: nat, m: int, num: int, rest: int, k: nat, u: nat, one: string, five: string, ten: string,
                 vals: seq<nat>, syms: seq<string>)
    requires Decade(k, u, one, five, ten, vals, syms) && j < 4 && m == j * u && 0 <= rest < u
    requires num == m + rest && num < 4 * u
    ensures Greedy(num, k, vals, syms) == Times(one, j) + Greedy(rest, k + 4, vals, syms)
  {
    GreedySkips(num, k, k + 3, vals, syms);
    GreedyRepeat(j, m, rest, k + 3, vals, syms);
  }

  /** For every n >= 0 the greedy numeral is the textbook one; for
      1 <= n <= 3999 that is the canonical Roman numeral of n. */
  lemma ToRomanCanonical(n: nat)
    ensures ToRoman(n) == CanonicalRoman(n)
  {
    var q, h, t, o := n / 1000, (n / 100) % 10, (n / 10) % 10, n % 10;
    DigitsRecompose(n);
    assert ToRoman(n) == Greedy(n, 0, RomanValues, RomanSymbols);
    GreedyFromDigits(n, q, h, t, o);
    assert CanonicalRoman(n) == Times("M", q) + DigitNumeral(h, "C", "D", "M")
      + DigitNumeral(t, "X", "L", "C") + DigitNumeral(o, "I", "V", "X");
  }

  /** The greedy numeral of n, given its decimal digits. */
  lemma GreedyFromDigits(n: nat, q: nat, h: nat, t: nat, o: nat)
    requires h < 10 && t < 10 && o < 10 && n == 1000 * q + 100 * h + 10 * t + o
    ensures Greedy(n, 0, RomanValues, RomanSymbols) == Times("M", q) + DigitNumeral(h, "C", "D", "M")
      + DigitNumeral(t, "X", "L", "C") + DigitNumeral(o, "I", "V", "X")
  {
    var r2 := 10 * t + o;
    var r1 := 100 * h + r2;
    GreedyThousands(q, r1);
    GreedyBelowThousand(r1, h, r2, t, o);
    var a, b, c, d := Times("M", q), DigitNumeral(h, "C", "D", "M"), DigitNumeral(t, "X", "L", "C"), DigitNumeral(o, "I", "V", "X");
    assert a + (b + c + d) == a + b + c + d;
  }

  /** n is its thousands and its three lower decimal digits. */
  lemma DigitsRecompose(n: nat)
    ensures n == 1000 * (n / 1000) + 100 * ((n / 100) % 10) + 10 * ((n / 10) % 10) + n % 10
  {
    var q, h, t, o := n / 1000, (n / 100) % 10, (n / 10) % 10, n % 10;
    var r := n % 1000;
    DivUnique(r, 100, r / 100, r % 100);
    DecimalDigits(n, q, r / 100, (r % 100) / 10, (r % 100) % 10);
  }

  /** The loop first writes one M per thousand. */
  lemma GreedyThousands(q: nat, r1: int)
    requires 0 <= r1 < 1000
    ensures Greedy(1000 * q + r1, 0, RomanValues, RomanSymbols) == Times("M", q) + Greedy(r1, 1, RomanValues, RomanSymbols)
  {
    RomanTable();
    assert RomanValues[0] == 1000 && RomanSymbols[0] == "M";
    GreedyRepeat(q, 1000 * q, r1, 0, RomanValues, RomanSymbols);
  }

  /** The digits of n, read off its thousands and the rest. */
  lemma DecimalDigits(n: nat, q: nat, h: nat, t: nat, o: nat)
    requires h < 10 && t < 10 && o < 10 && n == 1000 * q + 100 * h + 10 * t + o
    ensures n / 1000 == q && (n / 100) % 10 == h && (n / 10) % 10 == t && n % 10 == o
  {
    DivUnique(n, 1000, q, 100 * h + 10 * t + o);
    DivUnique(n, 100, 10 * q + h, 10 * t + o);
    DivUnique(10 * q + h, 10, q, h);
    DivUnique(n, 10, 100 * q + 10 * h + t, o);
    DivUnique(100 * q + 10 * h + t, 10, 10 * q + h, t);
  }

  /** Below a thousand the loop writes hundreds, tens and units. */
  lemma GreedyBelowThousand(r1: int, h: nat, r2: int, t: nat, o: nat)
    requires h < 10 && t < 10 && o < 10 && r1 == 100 * h + r2 && r2 == 10 * t + o
    ensures Greedy(r1, 1, RomanValues, RomanSymbols) ==
            DigitNumeral(h, "C", "D", "M") + DigitNumeral(t, "X", "L", "C") + DigitNumeral(o, "I", "V", "X")
  {
    var vals, syms := RomanValues, RomanSymbols;
    Decades();
    GreedyDigit(h, r1, r2, 1, 100, "C", "D", "M", vals, syms);
    GreedyDigit(t, r2, o, 5, 10, "X", "L", "C", vals, syms);
    GreedyDigit(o, o, 0, 9, 1, "I", "V", "X", vals, syms);
    var b, c, d := DigitNumeral(h, "C", "D", "M"), DigitNumeral(t, "X", "L", "C"), DigitNumeral(o, "I", "V", "X");
    assert Greedy(0, 13, vals, syms) == "";
    assert Greedy(r1, 1, vals, syms) == b + (c + (d + ""));
    assert b + (c + (d + "")) == b + c + d;
  }

  // ---------------------------------------------------------------- sanitize_name

  /** A character `\w` matches, on ASCII: a letter, a digit or '_'. */
  predicate IsWordChar(c: char) {
    ('a' <= c <= 'z') || ('A' <= c <= 'Z') || ('0' <= c <= '9') || c == '_'
  }

  /** The characters `[\w\s-]` keeps. */
  predicate NameChar(c: char) {
    IsWordChar(c) || IsSpace(c) || c == '-'
  }

  /** Python's `s[:m]`, where a negative `m` counts from the end. */
  function Prefix(s: string, m: int): (r: string)
    ensures |r| <= |s| && r == s[..|r|]
    ensures 0 <= m ==> |r| == Min(m, |s|)
    ensures m < 0 ==> |r| == Max(|s| + m, 0)
  {
    if m >= 0 then s[..Min(m, |s|)]
    else if |s| + m >= 0 then s[..|s| + m]
    else []
  }

  /** No blank, and only characters `[\w\s-]` keeps. */
  predicate Clean(s: string) {
    forall i :: 0 <= i < |s| ==> s[i] != ' ' && NameChar(s[i])
  }

  /** `re.sub(r'[^\w\s-]', '', name.replace(' ', ''))`: the characters of
      `name` that are neither a blank nor outside `[\w\s-]`, in order. */
  function Keep(name: string): (r: string)
    ensures Clean(r) && |r| <= |name|
  {
    if |name| == 0 then []
    else (if name[0] != ' ' && NameChar(name[0]) then [name[0]] else []) + Keep(name[1..])
  }

  lemma CleanPrefix(s: string, n: nat)
    requires Clean(s) && n <= |s|
    ensures Clean(s[..n])
  {
    assert forall i :: 0 <= i < n ==> s[..n][i] == s[i];
  }

  lemma CleanStrip(s: string)
    requires Clean(s)
    ensures Clean(Strip(s)) && |Strip(s)| <= |s|
  {
    var r := Strip(s);
    var i :| StrippedFrom(StrBlanks, r, s, i);
    CleanSlice(s, i, i + |r|);
  }

  lemma CleanSlice(s: string, i: nat, j: nat)
    requires Clean(s) && i <= j <= |s|
    ensures Clean(s[i..j])
  {
    assert forall k :: 0 <= k < j - i ==> s[i..j][k] == s[i + k];
  }

  /** `sanitize_name(name, max_len)`: drop the blanks and every character
      outside `[\w\s-]`, cut to `max_len`, then strip. */
  function SanitizeName(name: string, maxLen: int): (r: string)
    ensures 0 <= maxLen ==> |r| <= maxLen
    ensures Clean(r)
    ensures |r| > 0 ==> !IsSpace(r[0]) && !IsSpace(r[|r| - 1])
  {
    var kept := Keep(name);
    var cut := Prefix(kept, maxLen);
    CleanPrefix(kept, |cut|);
    CleanStrip(cut);
    Strip(cut)
  }

  /** A name made only of kept characters, without blanks or surrounding
      whitespace and within the length, passes through unchanged. */
  lemma SanitizeFixpoint(name: string, maxLen: int)
    requires 0 <= |name| <= maxLen && Clean(name)
    requires |name| > 0 ==> !IsSpace(name[0]) && !IsSpace(name[|name| - 1])
    ensures SanitizeName(name, maxLen) == name
  {
    KeepClean(name);
    assert Prefix(name, maxLen) == name;
    StripFixpoint(name);
  }

  /** A clean name keeps every character. */
  lemma {:induction false} KeepClean(name: string)
    requires Clean(name)
    ensures Keep(name) == name
  {
    if |name| > 0 {
      KeepClean(name[1..]);
    }
  }

  lemma StripFixpoint(s: string)
    requires |s| > 0 ==> !IsSpace(s[0]) && !IsSpace(s[|s| - 1])
    ensures Strip(s) == s
  {
  }

  /** Sanitising twice is sanitising once. */
  lemma SanitizeIdempotent(name: string, maxLen: nat)
    ensures SanitizeName(SanitizeName(name, maxLen), maxLen) == SanitizeName(name, maxLen)
  {
    SanitizeFixpoint(SanitizeName(name, maxLen), maxLen);
  }

  // ---------------------------------------------------------------- get_system_name

  /** The longest name taken from the catalogue or the CSV. */
  const MaxNameLength := 20

  /** `re.match(r'^Gaia\sDR3\s\d+', s)`: a Gaia DR3 source designation. */
  predicate GaiaDr3Prefix(s: string) {
    && |s| >= 10
    && s[..4] == "Gaia" && IsSpace(s[4]) && s[5..8] == "DR3" && IsSpace(s[8]) && IsDigit(s[9])
  }

  /** The three name cells of a row. */
  datatype NameCells = NameCells(sinbad: Cell, nameTwo: Cell, sector: Cell)

  /** What a row contributes before the counter is consulted: a name it
      already has, or the sector to draw a fallback name in. */
  datatype Pick = Given(raw: string) | Fallback(sector: string)

  /** A usable catalogue name: present, short, and not a bare Gaia number. */
  predicate UsableSinbad(sinbad: string) {
    0 < |sinbad| <= MaxNameLength && !GaiaDr3Prefix(sinbad)
  }

  function SinbadOf(row: NameCells): string { Strip(CellStr(row.sinbad, "")) }
  function NameTwoOf(row: NameCells): string { Strip(CellStr(row.nameTwo, "")) }
  function SectorOf(row: NameCells): string { Strip(CellStr(row.sector, "S000")) }

  /** The three sources in order: a usable catalogue name, else a
      non-empty `Name_two`, else the row's sector. */
  function PickOf(row: NameCells): (p: Pick)
    ensures p.Given? ==> |p.raw| > 0
    ensures UsableSinbad(SinbadOf(row)) ==> p == Given(SinbadOf(row))
    ensures !UsableSinbad(SinbadOf(row)) && |NameTwoOf(row)| > 0 ==> p == Given(NameTwoOf(row))
    ensures p.Fallback? <==> !UsableSinbad(SinbadOf(row)) && |NameTwoOf(row)| == 0
    ensures p.Fallback? ==> p.sector == SectorOf(row)
  {
    var sinbad, nameTwo, sector := SinbadOf(row), NameTwoOf(row), SectorOf(row);
    if |sinbad| > 0 && |sinbad| <= MaxNameLength && !GaiaDr3Prefix(sinbad) then Given(sinbad)
    else if |nameTwo| > 0 then Given(nameTwo)
    else Fallback(sector)
  }

  /** `f"{sector}-{count:04d}"`. */
  function FallbackName(sector: string, count: nat): string {
    sector + "-" + ZFill(NatToDecimal(count), 4)
  }

  /** The per-sector counter: how many fallback names a sector has used. */
  type Counter = map<string, nat>

  function Used(counter: Counter, sector: string): nat {
    if sector in counter then counter[sector] else 0
  }

  /** A chosen name: the sanitised display name and the raw name. */
  datatype Chosen = Chosen(name: string, raw: string)

  /** Naming a row once its pick is known: a given name is sanitised, a
      fallback takes the sector's next number. */
  function Assign(p: Pick, counter: Counter): (r: (Chosen, Counter))
    ensures p.Given? ==> r.0 == Chosen(SanitizeName(p.raw, MaxNameLength), p.raw) && r.1 == counter
    ensures p.Fallback? ==>
              && r.0.name == r.0.raw == FallbackName(p.sector, Used(counter, p.sector))
              && r.1 == counter[p.sector := Used(counter, p.sector) + 1]
  {
    match p
    case Given(raw) => (Chosen(SanitizeName(raw, MaxNameLength), raw), counter)
    case Fallback(sector) =>
      var c0 := if sector !in counter then counter[sector := 0] else counter;
      var count := c0[sector];
      var fallback := sector + "-" + ZFill(NatToDecimal(count), 4);
      (Chosen(fallback, fallback), c0[sector := c0[sector] + 1])
  }

  /** `get_system_name(row)` with the module-level counter made explicit. */
  function SystemName(row: NameCells, counter: Counter): (Chosen, Counter) {
    Assign(PickOf(row), counter)
  }

  /** The display name taken from a catalogue or CSV name is clean and
      within the length limit. */
  lemma GivenNameShape(row: NameCells, counter: Counter)
    requires PickOf(row).Given?
    ensures var n := SystemName(row, counter).0.name;
            |n| <= MaxNameLength && Clean(n)
  {
  }

  /** A fallback name is the sector, a dash and at least four digits
      spelling the sector's count. */
  lemma FallbackNameShape(sector: string, count: nat)
    ensures var n := FallbackName(sector, count);
            && |n| >= |sector| + 5 && n[..|sector|] == sector && n[|sector|] == '-'
            && AllDigits(n[|sector| + 1..]) && DigitsValue(n[|sector| + 1..]) == count
  {
    var d := ZFill(NatToDecimal(count), 4);
    PaddedDecimalValue(count, 4);
    var n := sector + "-" + d;
    assert n[|sector| + 1..] == d;
  }

  /** Different (sector, count) pairs give different fallback names: the
      part after the last '-' is all digits. */
  lemma FallbackNameInjective(s1: string, c1: nat, s2: string, c2: nat)
    requires FallbackName(s1, c1) == FallbackName(s2, c2)
    ensures s1 == s2 && c1 == c2
  {
    PaddedDecimalValue(c1, 4);
    PaddedDecimalValue(c2, 4);
    DashSplit(s1, ZFill(NatToDecimal(c1), 4), s2, ZFill(NatToDecimal(c2), 4));
    PaddedDecimalInjective(c1, c2, 4);
  }

  /** Splitting at the dash before an all-digit tail is unambiguous. */
  lemma DashSplit(s1: string, d1: string, s2: string, d2: string)
    requires s1 + "-" + d1 == s2 + "-" + d2 && AllDigits(d1) && AllDigits(d2)
    ensures s1 == s2 && d1 == d2
  {
    DigitTailLength(s1, d1, s2, d2);
    DigitTailLength(s2, d2, s1, d1);
    var f := s1 + "-" + d1;
    assert d1 == f[|f| - |d1|..] == d2;
    assert s1 == f[..|s1|] == s2;
  }

  /** In `s1-d1 == s2-d2` with all-digit tails, the first tail is no
      shorter than the second, whose dash would otherwise be a digit. */
  lemma DigitTailLength(s1: string, d1: string, s2: string, d2: string)
    requires s1 + "-" + d1 == s2 + "-" + d2 && AllDigits(d1) && AllDigits(d2)
    ensures |d2| <= |d1|
  {
    DashBeforeTail(s1, d1);
    TailDigits(s2, d2);
  }

  lemma DashBeforeTail(s: string, d: string)
    ensures var f := s + "-" + d; f[|f| - |d| - 1] == '-'
  {
  }

  lemma TailDigits(s: string, d: string)
    requires AllDigits(d)
    ensures var f := s + "-" + d; forall k :: |f| - |d| <= k < |f| ==> IsDigit(f[k])
  {
    var f := s + "-" + d;
    assert forall k :: |f| - |d| <= k < |f| ==> f[k] == d[k - (|f| - |d|)];
  }

  /** `Assign` applied to the picks in order, threading the counter. */
  function AssignAll(picks: seq<Pick>, counter: Counter): (r: (seq<Chosen>, Counter))
    ensures |r.0| == |picks|
  {
    if |picks| == 0 then ([], counter)
    else
      var (first, c1) := Assign(picks[0], counter);
      var (rest, c2) := AssignAll(picks[1..], c1);
      ([first] + rest, c2)
  }

  /** `get_system_name` applied to the rows in order. */
  function SystemNames(rows: seq<NameCells>, counter: Counter): (r: (seq<Chosen>, Counter))
    ensures |r.0| == |rows|
  {
    AssignAll(MapSeq(rows, PickOf), counter)
  }

  /** How many of `picks` fall back to a name in `sector`. */
  function FallbacksIn(picks: seq<Pick>, sector: string): nat {
    if |picks| == 0 then 0 else (if picks[0] == Fallback(sector) then 1 else 0) + FallbacksIn(picks[1..], sector)
  }

  /** The counter ends up counting every fallback of the fold. */
  lemma {:induction false} AssignAllCounter(picks: seq<Pick>, counter: Counter, sector: string)
    ensures Used(AssignAll(picks, counter).1, sector) == Used(counter, sector) + FallbacksIn(picks, sector)
  {
    if |picks| > 0 {
      var c1 := Assign(picks[0], counter).1;
      AssignAllCounter(picks[1..], c1, sector);
    }
  }

  /** Each row is named with the counter as the rows before it left it. */
  lemma {:induction false} AssignAllAt(picks: seq<Pick>, counter: Counter, i: nat)
    requires i < |picks|
    ensures AssignAll(picks, counter).0[i] == Assign(picks[i], AssignAll(picks[..i], counter).1).0
  {
    if i > 0 {
      var c1 := Assign(picks[0], counter).1;
      AssignAllAt(picks[1..], c1, i - 1);
      assert picks[1..][i - 1] == picks[i];
      assert picks[..i][1..] == picks[1..][..i - 1];
      assert picks[..i][0] == picks[0];
    }
  }

  lemma {:induction false} FallbacksInPrefix(picks: seq<Pick>, i: nat, j: nat)
    requires i < j <= |picks| && picks[i].Fallback?
    ensures FallbacksIn(picks[..i], picks[i].sector) < FallbacksIn(picks[..j], picks[i].sector)
  {
    if i > 0 {
      assert picks[..i][1..] == picks[1..][..i - 1];
      assert picks[..j][1..] == picks[1..][..j - 1];
      FallbacksInPrefix(picks[1..], i - 1, j - 1);
    } else {
      assert picks[..j][0] == picks[0];
    }
  }

  /** Fallback names never repeat: within a sector the counter only grows,
      and across sectors the names differ in their sector part. */
  lemma FallbackNamesDistinct(rows: seq<NameCells>, counter: Counter, i: nat, j: nat)
    requires i < j < |rows| && PickOf(rows[i]).Fallback? && PickOf(rows[j]).Fallback?
    ensures SystemNames(rows, counter).0[i].name != SystemNames(rows, counter).0[j].name
  {
    var picks := MapSeq(rows, PickOf);
    var si, sj := picks[i].sector, picks[j].sector;
    var ci, cj := AssignAll(picks[..i], counter).1, AssignAll(picks[..j], counter).1;
    AssignAllAt(picks, counter, i);
    AssignAllAt(picks, counter, j);
    AssignAllCounter(picks[..i], counter, si);
    AssignAllCounter(picks[..j], counter, sj);
    FallbacksInPrefix(picks, i, j);
    FallbackNamesDiffer(si, Used(ci, si), sj, Used(cj, sj));
  }

  lemma FallbackNamesDiffer(s1: string, c1: nat, s2: string, c2: nat)
    requires s1 != s2 || c1 != c2
    ensures FallbackName(s1, c1) != FallbackName(s2, c2)
  {
    if FallbackName(s1, c1) == FallbackName(s2, c2) {
      FallbackNameInjective(s1, c1, s2, c2);
    }
  }

  /** The counter after naming `rows` has grown, in every sector, by the
      number of rows that fell back to that sector. */
  lemma SystemNamesCounter(rows: seq<NameCells>, counter: Counter, sector: string)
    ensures Used(SystemNames(rows, counter).1, sector)
         == Used(counter, sector) + FallbacksIn(MapSeq(rows, PickOf), sector)
  {
    AssignAllCounter(MapSeq(rows, PickOf), counter, sector);
  }
}
