/** The standard Base64 alphabet and encoding of section 4 of RFC 4648, as
    Python's `base64.b64encode` / `base64.b64decode` apply it: 3 bytes become
    4 characters, a final group of 1 or 2 bytes is padded with '='. */
module Base64 {
  import opened Common
  import opened Text

  type Byte = x: int | 0 <= x < 256
  type Sextet = x: int | 0 <= x < 64

  const PadChar: char := '='

  predicate IsAlphabetChar(c: char) {
    ('A' <= c <= 'Z') || ('a' <= c <= 'z') || ('0' <= c <= '9') || c == '+' || c == '/'
  }

  predicate AllAlphabet(s: string) { forall i :: 0 <= i < |s| ==> IsAlphabetChar(s[i]) }

  /** The character that encodes a 6-bit value (Table 1 of RFC 4648:
      'A'-'Z' for 0-25, 'a'-'z' for 26-51, '0'-'9' for 52-61, '+', '/'). */
  function CharOf(v: Sextet): (c: char)
    ensures IsAlphabetChar(c) && c != PadChar
  {
    if v < 26 then ('A' as int + v) as char
    else if v < 52 then ('a' as int + (v - 26)) as char
    else if v < 62 then ('0' as int + (v - 52)) as char
    else if v == 62 then '+'
    else '/'
  }

  /** The 6-bit value an alphabet character stands for. */
  function ValueOf(c: char): (v: Sextet)
    requires IsAlphabetChar(c)
  {
    if 'A' <= c <= 'Z' then c as int - 'A' as int
    else if 'a' <= c <= 'z' then c as int - 'a' as int + 26
    else if '0' <= c <= '9' then c as int - '0' as int + 52
    else if c == '+' then 62
    else 63
  }

  lemma ValueOfCharOf(v: Sextet)
    ensures ValueOf(CharOf(v)) == v
  {
  }

  lemma ValueOfInverse(c: char)
    requires IsAlphabetChar(c)
    ensures CharOf(ValueOf(c)) == c
  {
  }

  /** Length of the unpadded encoding of `n` bytes. */
  function DataLength(n: nat): nat {
    4 * (n / 3) + (if n % 3 == 0 then 0 else n % 3 + 1)
  }

  lemma DataLengthStep(n: nat)
    requires n >= 3
    ensures DataLength(n) == 4 + DataLength(n - 3)
  {
    assert n / 3 == (n - 3) / 3 + 1 && n % 3 == (n - 3) % 3;
  }

  /** A data length is never one more than a multiple of 4, and the padding
      always fills the last group. */
  lemma DataLengthMod(n: nat)
    ensures DataLength(n) % 4 == (if n % 3 == 0 then 0 else n % 3 + 1)
    ensures (DataLength(n) + (3 - n % 3) % 3) % 4 == 0
  {
    var k := n / 3;
    assert DataLength(n) == 4 * k + (if n % 3 == 0 then 0 else n % 3 + 1);
  }

  /** One whole group: 3 bytes as 4 characters. */
  function EncodeGroup(b0: Byte, b1: Byte, b2: Byte): (s: string)
    ensures |s| == 4 && AllAlphabet(s)
  {
    [CharOf(b0 / 4), CharOf((b0 % 4) * 16 + b1 / 16), CharOf((b1 % 16) * 4 + b2 / 64), CharOf(b2 % 64)]
  }

  /** The encoding without the trailing padding. */
  function EncodeData(bs: seq<Byte>): (s: string)
    ensures |s| == DataLength(|bs|) && |s| % 4 != 1
    ensures AllAlphabet(s)
    decreases |bs|
  {
    DataLengthMod(|bs|);
    if |bs| == 0 then []
    else if |bs| == 1 then
      [CharOf(bs[0] / 4), CharOf((bs[0] % 4) * 16)]
    else if |bs| == 2 then
      [CharOf(bs[0] / 4), CharOf((bs[0] % 4) * 16 + bs[1] / 16), CharOf((bs[1] % 16) * 4)]
    else
      DataLengthStep(|bs|);
      EncodeGroup(bs[0], bs[1], bs[2]) + EncodeData(bs[3..])
  }

  /** The '=' characters that complete the last 4-character group. */
  function Padding(n: nat): (p: string)
    ensures |p| == (3 - n % 3) % 3
    ensures forall i :: 0 <= i < |p| ==> p[i] == PadChar
  {
    Repeat(PadChar, (3 - n % 3) % 3)
  }

  /** `base64.b64encode(bs)`. */
  function Encode(bs: seq<Byte>): (s: string)
    ensures |s| % 4 == 0
  {
    PaddedLength(EncodeData(bs), Padding(|bs|), |bs|);
    EncodeData(bs) + Padding(|bs|)
  }

  lemma PaddedLength(d: string, p: string, n: nat)
    requires |d| == DataLength(n) && |p| == (3 - n % 3) % 3
    ensures |d + p| % 4 == 0
  {
    DataLengthMod(n);
  }

  /** One whole group: 4 characters as 3 bytes. */
  function DecodeGroup(c0: char, c1: char, c2: char, c3: char): (bs: seq<Byte>)
    requires IsAlphabetChar(c0) && IsAlphabetChar(c1) && IsAlphabetChar(c2) && IsAlphabetChar(c3)
    ensures |bs| == 3
  {
    [ValueOf(c0) * 4 + ValueOf(c1) / 16, (ValueOf(c1) % 16) * 16 + ValueOf(c2) / 4,
     (ValueOf(c2) % 4) * 64 + ValueOf(c3)]
  }

  /** Decoding of unpadded data characters; the bits a final partial group
      carries beyond its last whole byte are ignored, as CPython does. */
  function DecodeData(s: string): seq<Byte>
    requires AllAlphabet(s) && |s| % 4 != 1
    decreases |s|
  {
    if |s| == 0 then []
    else if |s| == 2 then
      [ValueOf(s[0]) * 4 + ValueOf(s[1]) / 16]
    else if |s| == 3 then
      [ValueOf(s[0]) * 4 + ValueOf(s[1]) / 16, (ValueOf(s[1]) % 16) * 16 + ValueOf(s[2]) / 4]
    else
      DecodeGroup(s[0], s[1], s[2], s[3]) + DecodeData(s[4..])
  }

  lemma GroupRoundTrip(b0: Byte, b1: Byte, b2: Byte)
    ensures var s := EncodeGroup(b0, b1, b2);
      DecodeGroup(s[0], s[1], s[2], s[3]) == [b0, b1, b2]
  {
    var s := EncodeGroup(b0, b1, b2);
    var v1 := (b0 % 4) * 16 + b1 / 16;
    var v2 := (b1 % 16) * 4 + b2 / 64;
    assert s == [CharOf(b0 / 4), CharOf(v1), CharOf(v2), CharOf(b2 % 64)];
    ValueOfCharOf(b0 / 4);
    ValueOfCharOf(v1);
    ValueOfCharOf(v2);
    ValueOfCharOf(b2 % 64);
    DecodeValues(s[0], s[1], s[2], s[3], b0, b1, b2, v1, v2);
  }

  lemma DecodeValues(c0: char, c1: char, c2: char, c3: char, b0: Byte, b1: Byte, b2: Byte, v1: int, v2: int)
    requires IsAlphabetChar(c0) && IsAlphabetChar(c1) && IsAlphabetChar(c2) && IsAlphabetChar(c3)
    requires v1 == (b0 % 4) * 16 + b1 / 16 && v2 == (b1 % 16) * 4 + b2 / 64
    requires ValueOf(c0) == b0 / 4 && ValueOf(c1) == v1 && ValueOf(c2) == v2 && ValueOf(c3) == b2 % 64
    ensures DecodeGroup(c0, c1, c2, c3) == [b0, b1, b2]
  {
    GroupBits(b0, b1, b2, v1, v2);
  }

  /** The bit arithmetic behind a group's round trip. */
  lemma GroupBits(b0: Byte, b1: Byte, b2: Byte, v1: int, v2: int)
    requires v1 == (b0 % 4) * 16 + b1 / 16 && v2 == (b1 % 16) * 4 + b2 / 64
    ensures (b0 / 4) * 4 + v1 / 16 == b0
    ensures (v1 % 16) * 16 + v2 / 4 == b1
    ensures (v2 % 4) * 64 + b2 % 64 == b2
  {
    DivUnique(v1, 16, b0 % 4, b1 / 16);
    DivUnique(v2, 4, b1 % 16, b2 / 64);
  }

  /** Whether `pads` trailing '=' complete a group begun by `dataLen`
      characters (CPython reports "Incorrect padding" otherwise). */
  predicate PaddingComplete(dataLen: nat, pads: nat) {
    dataLen % 4 == 0 || dataLen % 4 + pads >= 4
  }

  /** `base64.b64decode(s)` for text made of alphabet characters followed by
      '=' padding; any other text is reported as a DecodeError. */
  function Decode(s: string): (r: Result<seq<Byte>>)
    ensures r.Success? <==>
      var data := RStripChar(s, PadChar);
      AllAlphabet(data) && |data| % 4 != 1 && PaddingComplete(|data|, |s| - |data|)
  {
    var data := RStripChar(s, PadChar);
    if AllAlphabet(data) && |data| % 4 != 1 && PaddingComplete(|data|, |s| - |data|) then
      Success(DecodeData(data))
    else
      Failure(DecodeError)
  }

  lemma Tail1RoundTrip(b0: Byte)
    ensures DecodeData(EncodeData([b0])) == [b0]
  {
    var s := EncodeData([b0]);
    ValueOfCharOf(b0 / 4);
    ValueOfCharOf((b0 % 4) * 16);
    assert ValueOf(s[0]) == b0 / 4 && ValueOf(s[1]) == (b0 % 4) * 16;
  }

  lemma Tail2RoundTrip(b0: Byte, b1: Byte)
    ensures DecodeData(EncodeData([b0, b1])) == [b0, b1]
  {
    var s := EncodeData([b0, b1]);
    var v1 := (b0 % 4) * 16 + b1 / 16;
    ValueOfCharOf(b0 / 4);
    ValueOfCharOf(v1);
    ValueOfCharOf((b1 % 16) * 4);
    assert ValueOf(s[0]) == b0 / 4 && ValueOf(s[1]) == v1;
    assert ValueOf(s[2]) == (b1 % 16) * 4;
    assert v1 / 16 == b0 % 4 && v1 % 16 == b1 / 16;
  }

  /** Decoding splits at a whole leading group. */
  lemma DecodeDataGroup(g: string, rest: string)
    requires |g| == 4 && AllAlphabet(g) && AllAlphabet(rest) && |rest| % 4 != 1
    ensures AllAlphabet(g + rest) && |g + rest| % 4 != 1
    ensures DecodeData(g + rest) == DecodeGroup(g[0], g[1], g[2], g[3]) + DecodeData(rest)
  {
    var s := g + rest;
    assert s[4..] == rest;
    assert s[0] == g[0] && s[1] == g[1] && s[2] == g[2] && s[3] == g[3];
  }

  /** One whole group in front of data that already round-trips. */
  lemma GroupStep(bs: seq<Byte>)
    requires |bs| >= 3 && DecodeData(EncodeData(bs[3..])) == bs[3..]
    ensures DecodeData(EncodeData(bs)) == bs
  {
    var g := EncodeGroup(bs[0], bs[1], bs[2]);
    var rest := EncodeData(bs[3..]);
    assert EncodeData(bs) == g + rest;
    DecodeDataGroup(g, rest);
    GroupRoundTrip(bs[0], bs[1], bs[2]);
    Regroup(bs, DecodeGroup(g[0], g[1], g[2], g[3]), DecodeData(g + rest));
  }

  lemma Regroup(bs: seq<Byte>, head: seq<Byte>, d: seq<Byte>)
    requires |bs| >= 3 && head == [bs[0], bs[1], bs[2]] && d == head + bs[3..]
    ensures d == bs
  {
  }

  lemma {:induction false} DataRoundTrip(bs: seq<Byte>)
    ensures DecodeData(EncodeData(bs)) == bs
    decreases |bs|
  {
    if |bs| == 1 {
      assert bs == [bs[0]];
      Tail1RoundTrip(bs[0]);
    } else if |bs| == 2 {
      assert bs == [bs[0], bs[1]];
      Tail2RoundTrip(bs[0], bs[1]);
    } else if |bs| >= 3 {
      DataRoundTrip(bs[3..]);
      GroupStep(bs);
    }
  }

  // ---------------------------------------------------------------- numerals

  /** The `n` low base-64 digits of `w` as alphabet characters, most
      significant first. */
  function Digits(w: nat, n: nat): (s: string)
    ensures |s| == n && AllAlphabet(s)
  {
    if n == 0 then [] else Digits(w / 64, n - 1) + [CharOf(w % 64)]
  }

  /** The low `n` bytes of `v`, most significant first. */
  function BigEndian(v: nat, n: nat): (bs: seq<Byte>)
    ensures |bs| == n
  {
    if n == 0 then [] else BigEndian(v / 256, n - 1) + [v % 256]
  }

  lemma DivDiv(v: nat, a: nat, b: nat)
    requires a > 0 && b > 0
    ensures v / a / b == v / (a * b)
  {
    var q := v / a / b;
    var r := (v / a) % b;
    assert v / a == b * q + r;
    assert v == a * (v / a) + v % a;
    assert v == (a * b) * q + (a * r + v % a) by {
      assert a * (b * q + r) == (a * b) * q + a * r;
    }
    assert a * r + v % a < a * b by {
      MulMono(a, r, b - 1);
      assert a * (b - 1) == a * b - a;
    }
    DivUnique(v, a * b, q, a * r + v % a);
  }

  /** The last three bytes of a big-endian rendering. */
  lemma BigEndianLast3(v: nat, n: nat, n': nat, q: nat)
    requires n >= 3 && n' == n - 3 && q == v / 0x100_0000
    ensures BigEndian(v, n) == BigEndian(q, n') + [(v / 0x1_0000) % 256, (v / 256) % 256, v % 256]
  {
    var v1 := v / 256;
    var v2 := v1 / 256;
    assert BigEndian(v, n) == BigEndian(v1, n - 1) + [v % 256];
    assert BigEndian(v1, n - 1) == BigEndian(v2, n - 2) + [v1 % 256];
    assert BigEndian(v2, n - 2) == BigEndian(v2 / 256, n') + [v2 % 256];
    DivDiv(v, 256, 256);
    DivDiv(v, 0x1_0000, 256);
  }

  /** The four low base-64 digits of `w`. */
  function LowDigits(w: nat): string {
    [CharOf((w / 0x4_0000) % 64), CharOf((w / 4096) % 64), CharOf((w / 64) % 64), CharOf(w % 64)]
  }

  lemma DigitsStep(w: nat, n: nat, n': nat)
    requires n >= 1 && n' == n - 1
    ensures Digits(w, n) == Digits(w / 64, n') + [CharOf(w % 64)]
  {
  }

  lemma LowDigitsChain(w: nat)
    ensures var w1 := w / 64; var w2 := w1 / 64; var w3 := w2 / 64;
      LowDigits(w) == [CharOf(w3 % 64), CharOf(w2 % 64), CharOf(w1 % 64), CharOf(w % 64)]
  {
    DivDiv(w, 64, 64);
    DivDiv(w, 4096, 64);
  }

  lemma Regroup4(d: string, hi: string, c3: char, c2: char, c1: char, c0: char, low: string)
    requires d == hi + [c3] + [c2] + [c1] + [c0] && low == [c3, c2, c1, c0]
    ensures d == hi + low
  {
  }

  /** The last four digits of a numeral. */
  lemma DigitsLast4(w: nat, n: nat, n': nat, q: nat)
    requires n >= 4 && n' == n - 4 && q == w / 0x100_0000
    ensures Digits(w, n) == Digits(q, n') + LowDigits(w)
  {
    var w1 := w / 64;
    var w2 := w1 / 64;
    var w3 := w2 / 64;
    DigitsStep(w, n, n - 1);
    DigitsStep(w1, n - 1, n - 2);
    DigitsStep(w2, n - 2, n - 3);
    assert w3 / 64 == q by {
      DivDiv(w, 64, 64);
      DivDiv(w, 4096, 64);
      DivDiv(w, 0x4_0000, 64);
    }
    DigitsStep(w3, n - 3, n');
    LowDigitsChain(w);
    Regroup4(Digits(w, n), Digits(q, n'), CharOf(w3 % 64), CharOf(w2 % 64), CharOf(w1 % 64), CharOf(w % 64),
      LowDigits(w));
  }

  /** The bytes and the digits of the same 24 bits. */
  lemma GroupArithmetic(v: nat)
    ensures var b0, b1, b2 := (v / 0x1_0000) % 256, (v / 256) % 256, v % 256;
      && b0 / 4 == (v / 0x4_0000) % 64
      && (b0 % 4) * 16 + b1 / 16 == (v / 4096) % 64
      && (b1 % 16) * 4 + b2 / 64 == (v / 64) % 64
      && b2 % 64 == v % 64
  {
    var a, b, c, d := v / 0x4_0000, (v / 4096) % 64, (v / 64) % 64, v % 64;
    DivDiv(v, 64, 64);
    DivDiv(v, 4096, 64);
    assert v == 0x4_0000 * a + 4096 * b + 64 * c + d by {
      assert v == 64 * (v / 64) + d;
      assert v / 64 == 64 * (v / 4096) + c;
      assert v / 4096 == 64 * a + b;
    }
    DivUnique(v, 256, 1024 * a + 16 * b + c / 4, 64 * (c % 4) + d);
    DivUnique(v / 256, 256, 4 * a + b / 16, 16 * (b % 16) + c / 4);
    DivDiv(v, 256, 256);
    DivUnique(v / 0x1_0000, 256, a / 64, 4 * (a % 64) + b / 16);
    DivUnique(4 * (a % 64) + b / 16, 4, a % 64, b / 16);
    DivUnique(16 * (b % 16) + c / 4, 16, b % 16, c / 4);
    DivUnique(64 * (c % 4) + d, 64, c % 4, d);
  }

  lemma GroupDigits(v: nat)
    ensures EncodeGroup((v / 0x1_0000) % 256, (v / 256) % 256, v % 256) == LowDigits(v)
  {
    GroupArithmetic(v);
  }

  /** Encoding whole groups extends the text group by group. */
  lemma {:induction false} EncodeDataSnoc(a: seq<Byte>, b0: Byte, b1: Byte, b2: Byte)
    requires |a| % 3 == 0
    ensures EncodeData(a + [b0, b1, b2]) == EncodeData(a) + EncodeGroup(b0, b1, b2)
    decreases |a|
  {
    var g := [b0, b1, b2];
    if |a| == 0 {
      assert a + g == g;
      assert g[3..] == [];
    } else {
      assert (a + g)[3..] == a[3..] + g;
      assert (a + g)[..3] == a[..3];
      EncodeDataSnoc(a[3..], b0, b1, b2);
    }
  }

  lemma {:induction false} EncodeDataSnoc1(a: seq<Byte>, b: Byte)
    requires |a| % 3 == 0
    ensures EncodeData(a + [b]) == EncodeData(a) + [CharOf(b / 4), CharOf((b % 4) * 16)]
    decreases |a|
  {
    if |a| == 0 {
      assert a + [b] == [b];
    } else {
      assert (a + [b])[3..] == a[3..] + [b];
      assert (a + [b])[..3] == a[..3];
      EncodeDataSnoc1(a[3..], b);
    }
  }

  /** The encoding of `3m` bytes ends with the digits of their last group. */
  lemma EncodeDataSplit(v: nat, m: nat, q: nat)
    requires m > 0 && q == v / 0x100_0000
    ensures EncodeData(BigEndian(v, 3 * m)) == EncodeData(BigEndian(q, 3 * (m - 1))) + LowDigits(v)
  {
    var hi := BigEndian(q, 3 * (m - 1));
    BigEndianLast3(v, 3 * m, 3 * (m - 1), q);
    EncodeDataSnoc(hi, (v / 0x1_0000) % 256, (v / 256) % 256, v % 256);
    GroupDigits(v);
  }

  /** Base64 of whole groups is the base-64 numeral of the same value: the
      encoding of `3m` big-endian bytes of `v` is the `4m` digits of `v`. */
  lemma {:induction false} EncodeDataIsDigits(v: nat, m: nat)
    ensures EncodeData(BigEndian(v, 3 * m)) == Digits(v, 4 * m)
  {
    if m > 0 {
      var q := v / 0x100_0000;
      EncodeDataSplit(v, m, q);
      DigitsLast4(v, 4 * m, 4 * (m - 1), q);
      EncodeDataIsDigits(q, m - 1);
    }
  }

  lemma PaddingCompletes(n: nat)
    ensures PaddingComplete(DataLength(n), (3 - n % 3) % 3)
  {
  }

  /** Decoding an encoding gives back the bytes. */
  lemma EncodeDecode(bs: seq<Byte>)
    ensures Decode(Encode(bs)) == Success(bs)
  {
    var s := Encode(bs);
    var data := EncodeData(bs);
    var pad := Padding(|bs|);
    assert s == data + pad;
    assert |data| > 0 ==> IsAlphabetChar(data[|data| - 1]);
    RStripCharAppend(data, pad, PadChar);
    PaddingCompletes(|bs|);
    DataRoundTrip(bs);
  }
}
