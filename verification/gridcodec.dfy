/** Grid keys: the 3-D cube code used to spot co-located stars and the 2-D
    cell key that indexes the map.  `encode_2d` packs two unsigned 64-bit
    coordinates big-endian into 16 bytes and writes them in Base64 without
    the '=' padding; `decode_2d` restores the padding and unpacks. */
module GridCodec {
  import opened Common
  import opened Text
  import opened Base64

  const Two64: nat := 0x1_0000_0000_0000_0000
  const Two128: nat := 0x1_0000_0000_0000_0000_0000_0000_0000_0000

  // ---------------------------------------------------------------- big-endian bytes

  function Pow256(n: nat): (p: nat)
    ensures p >= 1
  {
    if n == 0 then 1 else 256 * Pow256(n - 1)
  }

  lemma Pow256Of16()
    ensures Pow256(16) == Two128
  {
    assert Pow256(4) == 0x1_0000_0000;
    assert Pow256(8) == 0x1_0000_0000_0000_0000 by {
      assert Pow256(5) == 256 * Pow256(4);
      assert Pow256(6) == 256 * Pow256(5);
      assert Pow256(7) == 256 * Pow256(6);
    }
    assert Pow256(12) == 0x1_0000_0000_0000_0000_0000_0000 by {
      assert Pow256(9) == 256 * Pow256(8);
      assert Pow256(10) == 256 * Pow256(9);
      assert Pow256(11) == 256 * Pow256(10);
    }
    assert Pow256(13) == 256 * Pow256(12);
    assert Pow256(14) == 256 * Pow256(13);
    assert Pow256(15) == 256 * Pow256(14);
  }

  lemma DivBelow(v: nat, p: nat)
    requires v < 256 * p
    ensures v / 256 < p
  {
  }

  /** `int.from_bytes(bs, byteorder='big')`. */
  function FromBytes(bs: seq<Byte>): nat {
    if |bs| == 0 then 0 else 256 * FromBytes(bs[..|bs| - 1]) + bs[|bs| - 1]
  }

  lemma {:induction false} BytesRoundTrip(v: nat, n: nat)
    requires v < Pow256(n)
    ensures FromBytes(BigEndian(v, n)) == v
  {
    if n > 0 {
      var q := v / 256;
      var hi := BigEndian(q, n - 1);
      var bs := hi + [v % 256];
      assert BigEndian(v, n) == bs;
      assert bs[..n - 1] == hi;
      DivBelow(v, Pow256(n - 1));
      BytesRoundTrip(q, n - 1);
      assert FromBytes(bs) == 256 * FromBytes(hi) + v % 256;
    }
  }

  // ---------------------------------------------------------------- 2-D keys

  /** The 128-bit value `(x << 64) + y` that `encode_2d` serialises. */
  function Packed(x: int, y: int): int { x * 0x1_0000_0000_0000_0000 + y }

  /** `(v >> 64) & mask64` and `v & mask64` for a non-negative `v`. */
  function High(v: nat): int { (v / 0x1_0000_0000_0000_0000) % 0x1_0000_0000_0000_0000 }
  function Low(v: nat): int { v % 0x1_0000_0000_0000_0000 }

  lemma Unpack(x: int, y: int)
    requires 0 <= x < Two64 && 0 <= y < Two64
    ensures Packed(x, y) >= 0 && High(Packed(x, y)) == x && Low(Packed(x, y)) == y
  {
  }

  lemma Repack(v: nat)
    requires v < Two128
    ensures v == Packed(High(v), Low(v))
  {
  }

  /** `b64encode(bs).rstrip('=')` for the 16 bytes of a packed value. */
  function KeyText(bs: seq<Byte>): (key: string)
    requires |bs| == 16
    ensures |key| == 22 && AllAlphabet(key)
  {
    StrippedEncoding(bs);
    RStripChar(Encode(bs), PadChar)
  }

  /** The key of a cell whose packed value fits in 16 bytes, written as the
      22 base-64 digits of the value shifted left by 4 bits (128 bits fill
      21 digits and 2 bits; Base64 pads the last digit with zero bits).
      `CellKeyIsKeyText` shows this is exactly the unpadded Base64 text. */
  function CellKey(x: int, y: int): (key: string)
    requires 0 <= Packed(x, y) < Two128
    ensures |key| == 22 && AllAlphabet(key)
  {
    Digits(Packed(x, y) * 16, 22)
  }

  /** The cell key is `b64encode(packed.to_bytes(16, 'big')).rstrip('=')`. */
  lemma CellKeyIsKeyText(x: int, y: int)
    requires 0 <= Packed(x, y) < Two128
    ensures CellKey(x, y) == KeyText(BigEndian(Packed(x, y), 16))
  {
    var v: nat := Packed(x, y);
    var bs := BigEndian(v, 16);
    StrippedEncoding(bs);
    SixteenBytesAreDigits(v, v * 16);
  }

  /** Sixteen bytes in Base64 without padding are the 22 base-64 digits of
      the value times 16. */
  lemma SixteenBytesAreDigits(v: nat, w: nat)
    requires w == v * 16
    ensures EncodeData(BigEndian(v, 16)) == Digits(w, 22)
  {
    var q := v / 256;
    var b: Byte := v % 256;
    var hi := BigEndian(q, 15);
    assert BigEndian(v, 16) == hi + [b];
    EncodeDataSnoc1(hi, b);
    EncodeDataIsDigits(q, 5);
    KeyTailArithmetic(v, w);
    DigitsStep(w, 22, 21);
    DigitsStep(w / 64, 21, 20);
    Regroup2(Digits(w, 22), Digits(q, 20), CharOf(b / 4), CharOf((b % 4) * 16));
  }

  lemma Regroup2(d: string, hi: string, c1: char, c0: char)
    requires d == hi + [c1] + [c0]
    ensures d == hi + [c1, c0]
  {
  }

  /** The last byte of a 16-byte value splits over the last two digits. */
  lemma KeyTailArithmetic(v: nat, w: nat)
    requires w == v * 16
    ensures w / 64 / 64 == v / 256
    ensures (w / 64) % 64 == (v % 256) / 4
    ensures w % 64 == ((v % 256) % 4) * 16
  {
    var q, b := v / 256, v % 256;
    assert w == 64 * (64 * q + b / 4) + (b % 4) * 16;
    DivUnique(w, 64, 64 * q + b / 4, (b % 4) * 16);
    DivUnique(w / 64, 64, q, b / 4);
  }

  /** `encode_2d(x, y)`: fails like `int.to_bytes` when the packed value is
      negative or needs more than 16 bytes. */
  function Encode2D(x: int, y: int): (r: Result<string>)
    ensures r.Success? <==> 0 <= Packed(x, y) < Two128
    ensures r.Success? ==> |r.value| == 22 && AllAlphabet(r.value)
  {
    if 0 <= Packed(x, y) < Two128 then Success(CellKey(x, y)) else Failure(OverflowError)
  }

  /** Stripping the padding of a 16-byte encoding leaves its 22 data characters. */
  lemma StrippedEncoding(bs: seq<Byte>)
    requires |bs| == 16
    ensures RStripChar(Encode(bs), PadChar) == EncodeData(bs)
    ensures |EncodeData(bs)| == 22
  {
    var data := EncodeData(bs);
    assert IsAlphabetChar(data[|data| - 1]);
    RStripCharAppend(data, Padding(|bs|), PadChar);
  }

  /** Characters `decode_2d` appends to make the length a multiple of 4. */
  function PadFor(key: string): (p: string)
    ensures (|key| + |p|) % 4 == 0
    ensures forall i :: 0 <= i < |p| ==> p[i] == PadChar
  {
    Repeat(PadChar, (4 - |key| % 4) % 4)
  }

  /** The keys `decode_2d` accepts: Base64 characters, optionally followed by
      '=', whose character count is not one more than a multiple of 4. */
  predicate WellFormedKey(key: string) {
    var data := RStripChar(key, PadChar);
    AllAlphabet(data) && |data| % 4 != 1
  }

  /** `b64decode(key + padding)`: the bytes behind a key. */
  function KeyBytes(key: string): (r: Result<seq<Byte>>)
    ensures r.Success? <==> WellFormedKey(key)
  {
    PaddedKey(key);
    Decode(key + PadFor(key))
  }

  /** `decode_2d(key)`: the high and the low 64 bits of the decoded value. */
  function Decode2D(key: string): (r: Result<(int, int)>)
    ensures r.Success? <==> WellFormedKey(key)
    ensures r.Success? ==> 0 <= r.value.0 < Two64 && 0 <= r.value.1 < Two64
  {
    match KeyBytes(key)
    case Failure(e) => Failure(e)
    case Success(bs) =>
      var v := FromBytes(bs);
      Success((High(v), Low(v)))
  }

  /** Padding never changes what is left after stripping '=', and it always
      completes the last group. */
  lemma PaddedKey(key: string)
    ensures RStripChar(key + PadFor(key), PadChar) == RStripChar(key, PadChar)
    ensures var data := RStripChar(key, PadChar);
      PaddingComplete(|data|, |key + PadFor(key)| - |data|)
  {
    var pad := PadFor(key);
    var total := |key| + |pad|;
    assert total % 4 == 0;
    RStripCharPadded(key, pad, PadChar);
    var data := RStripChar(key, PadChar);
    PadCompletesGroup(|data|, total);
  }

  lemma PadCompletesGroup(d: nat, total: nat)
    requires total % 4 == 0 && d <= total
    ensures PaddingComplete(d, total - d)
  {
    var p := total - d;
    assert total == 4 * (d / 4) + (d % 4 + p);
    assert (d % 4 + p) % 4 == 0;
  }

  lemma {:induction false} RStripCharPadded(s: string, t: string, c: char)
    requires forall i :: 0 <= i < |t| ==> t[i] == c
    ensures RStripChar(s + t, c) == RStripChar(s, c)
    decreases |t|
  {
    if |t| == 0 {
      assert s + t == s;
    } else {
      assert (s + t)[..|s + t| - 1] == s + t[..|t| - 1];
      RStripCharPadded(s, t[..|t| - 1], c);
    }
  }

  /** The 22-character text of 16 bytes decodes back to those bytes. */
  lemma KeyTextDecodes(bs: seq<Byte>)
    requires |bs| == 16
    ensures KeyBytes(KeyText(bs)) == Success(bs)
  {
    var key := KeyText(bs);
    StrippedEncoding(bs);
    PaddedKey(key);
    RStripCharAppend(key, PadFor(key), PadChar);
    DataRoundTrip(bs);
  }

  /** Every key `encode_2d` produces decodes to the high and low halves of
      the packed value. */
  lemma KeyDecodesToPacked(x: int, y: int)
    requires 0 <= Packed(x, y) < Two128
    ensures Decode2D(Encode2D(x, y).value) == Success((High(Packed(x, y)), Low(Packed(x, y))))
  {
    var v := Packed(x, y);
    Pow256Of16();
    var bs := BigEndian(v, 16);
    CellKeyIsKeyText(x, y);
    KeyTextDecodes(bs);
    BytesRoundTrip(v, 16);
  }

  /** `decode_2d(encode_2d(x, y)) == (x, y)` on the unsigned 64-bit range. */
  lemma RoundTrip2D(x: int, y: int)
    requires 0 <= x < Two64 && 0 <= y < Two64
    ensures Encode2D(x, y).Success?
    ensures Decode2D(Encode2D(x, y).value) == Success((x, y))
  {
    Unpack(x, y);
    KeyDecodesToPacked(x, y);
  }

  /** Two successful encodings are equal only for equal packed values. */
  lemma Encode2DInjective(x1: int, y1: int, x2: int, y2: int)
    requires Encode2D(x1, y1).Success? && Encode2D(x2, y2).Success?
    requires Encode2D(x1, y1) == Encode2D(x2, y2)
    ensures Packed(x1, y1) == Packed(x2, y2)
  {
    KeyDecodesToPacked(x1, y1);
    KeyDecodesToPacked(x2, y2);
    Repack(Packed(x1, y1));
    Repack(Packed(x2, y2));
  }

  // ---------------------------------------------------------------- neighbourhoods

  /** The offsets of `get_neighbor_keys`: dx major, dy minor, each in -1..1. */
  function Dx(k: nat): (d: int)
    ensures k < 9 ==> -1 <= d <= 1
  {
    k / 3 - 1
  }

  function Dy(k: nat): (d: int)
    ensures -1 <= d <= 1
  {
    k % 3 - 1
  }

  /** Whether every cell of the 3x3 block around (gx, gy) can be encoded. */
  predicate BlockInRange(gx: int, gy: int) {
    forall k :: 0 <= k < 9 ==> 0 <= Packed(gx + Dx(k), gy + Dy(k)) < Two128
  }

  /** The keys of the 3x3 block, or the OverflowError of the first cell
      `encode_2d` cannot encode. */
  function Block(gx: int, gy: int): (r: Result<seq<string>>)
    ensures r.Success? <==> BlockInRange(gx, gy)
    ensures r.Success? ==> |r.value| == 9
  {
    if BlockInRange(gx, gy) then
      Success(seq(9, k requires 0 <= k < 9 => CellKey(gx + Dx(k), gy + Dy(k))))
    else
      Failure(OverflowError)
  }

  /** `get_neighbor_keys(key)`: the 3x3 block of keys around the decoded cell;
      a malformed key or an offset that leaves the 128-bit range fails. */
  function NeighborKeys(key: string): (r: Result<seq<string>>)
    ensures r.Success? <==> Decode2D(key).Success? && BlockInRange(Decode2D(key).value.0, Decode2D(key).value.1)
    ensures r.Success? ==> |r.value| == 9
  {
    match Decode2D(key)
    case Failure(e) => Failure(e)
    case Success(g) => Block(g.0, g.1)
  }

  /** Position k of a block holds the key of the cell moved by (Dx(k), Dy(k)). */
  lemma BlockAt(gx: int, gy: int, k: nat)
    requires BlockInRange(gx, gy) && k < 9
    ensures Encode2D(gx + Dx(k), gy + Dy(k)) == Success(Block(gx, gy).value[k])
  {
    var r := Block(gx, gy).value;
    assert r[k] == CellKey(gx + Dx(k), gy + Dy(k));
  }

  /** A decodable key's neighbour list is the block around its cell. */
  lemma NeighborKeysIsBlock(key: string, g: (int, int))
    requires Decode2D(key) == Success(g)
    ensures NeighborKeys(key) == Block(g.0, g.1)
  {
  }

  /** The centre of the block is the key itself whenever the key is the one
      `encode_2d` writes for its cell. */
  lemma CentreIsKey(key: string)
    requires NeighborKeys(key).Success?
    requires Encode2D(Decode2D(key).value.0, Decode2D(key).value.1) == Success(key)
    ensures NeighborKeys(key).value[4] == key
  {
    var g := Decode2D(key).value;
    assert NeighborKeys(key) == Block(g.0, g.1);
    BlockCentre(g.0, g.1);
    assert Encode2D(g.0, g.1) == Success(CellKey(g.0, g.1));
  }

  lemma BlockCentre(gx: int, gy: int)
    requires BlockInRange(gx, gy)
    ensures 0 <= Packed(gx, gy) < Two128
    ensures Block(gx, gy).value[4] == CellKey(gx, gy)
  {
    var r := Block(gx, gy).value;
    assert r[4] == CellKey(gx + Dx(4), gy + Dy(4));
    assert Dx(4) == 0 && Dy(4) == 0;
  }

  lemma InteriorInRange(gx: int, gy: int)
    requires 1 <= gx <= Two64 - 2 && 1 <= gy <= Two64 - 2
    ensures BlockInRange(gx, gy)
  {
    forall k | 0 <= k < 9
      ensures 0 <= Packed(gx + Dx(k), gy + Dy(k)) < Two128
    {
      Unpack(gx + Dx(k), gy + Dy(k));
    }
  }

  lemma InteriorCellDecodes(gx: int, gy: int, k: nat)
    requires 1 <= gx <= Two64 - 2 && 1 <= gy <= Two64 - 2 && k < 9
    ensures BlockInRange(gx, gy)
    ensures Decode2D(Block(gx, gy).value[k]) == Success((gx + Dx(k), gy + Dy(k)))
  {
    InteriorInRange(gx, gy);
    var key := Block(gx, gy).value[k];
    BlockAt(gx, gy, k);
    EncodedKeyDecodes(key, gx + Dx(k), gy + Dy(k));
  }

  lemma EncodedKeyDecodes(key: string, x: int, y: int)
    requires 0 <= x < Two64 && 0 <= y < Two64
    requires Encode2D(x, y) == Success(key)
    ensures Decode2D(key) == Success((x, y))
  {
    RoundTrip2D(x, y);
  }

  /** Away from the edges of the 64-bit range the block is complete: nine
      distinct keys, the k-th decoding to the centre moved by (Dx(k), Dy(k)). */
  lemma InteriorNeighbors(key: string, gx: int, gy: int)
    requires Decode2D(key) == Success((gx, gy))
    requires 1 <= gx <= Two64 - 2 && 1 <= gy <= Two64 - 2
    ensures NeighborKeys(key).Success?
    ensures forall k :: 0 <= k < 9 ==>
      Decode2D(NeighborKeys(key).value[k]) == Success((gx + Dx(k), gy + Dy(k)))
    ensures NoDups(NeighborKeys(key).value)
  {
    InteriorInRange(gx, gy);
    var r := Block(gx, gy).value;
    assert NeighborKeys(key) == Block(gx, gy);
    forall k | 0 <= k < 9
      ensures Decode2D(r[k]) == Success((gx + Dx(k), gy + Dy(k)))
    {
      InteriorCellDecodes(gx, gy, k);
    }
    forall i, j | 0 <= i < j < 9
      ensures r[i] != r[j]
    {
      OffsetsDistinct(i, j);
    }
  }

  lemma OffsetsDistinct(i: nat, j: nat)
    requires i < j < 9
    ensures Dx(i) != Dx(j) || Dy(i) != Dy(j)
  {
  }

  // ---------------------------------------------------------------- cube codes

  const AxisMax: int := 262143

  /** `max(0, min(n, 262143))`: the 18-bit clamp of `encode_axis`. */
  function Clip(n: int): (c: int)
    ensures 0 <= c <= AxisMax
  {
    Max(0, Min(n, AxisMax))
  }

  /** The three 6-bit groups of the clamped value, high first, one per byte. */
  function AxisBytes(n: int): (bs: seq<Byte>)
    ensures |bs| == 3 && bs[0] < 64 && bs[1] < 64 && bs[2] < 64
  {
    var c := Clip(n);
    [(c / 4096) % 64, (c / 64) % 64, c % 64]
  }

  /** `encode_axis(n)`: the three groups are Base64-encoded as whole bytes,
      giving 4 characters, and only the first 3 are kept. */
  function EncodeAxis(n: int): (r: string)
    ensures |r| == 3 && AllAlphabet(r)
  {
    var bs := AxisBytes(n);
    EncodeThree(bs);
    Encode(bs)[..3]
  }

  lemma EncodeThree(bs: seq<Byte>)
    requires |bs| == 3
    ensures Encode(bs) == EncodeGroup(bs[0], bs[1], bs[2])
  {
    assert bs[3..] == [];
  }

  /** The three characters `encode_axis` keeps for high group `a` and middle
      group `b`: the low group only reaches the dropped fourth character. */
  function AxisCode(a: int, b: int): (s: string)
    requires 0 <= a < 64 && 0 <= b < 64
    ensures |s| == 3
  {
    [CharOf(a / 4), CharOf((a % 4) * 16 + b / 16), CharOf((b % 16) * 4)]
  }

  lemma EncodeAxisIsAxisCode(n: int)
    ensures EncodeAxis(n) == AxisCode(AxisBytes(n)[0], AxisBytes(n)[1])
  {
    var bs := AxisBytes(n);
    EncodeThree(bs);
    GroupPrefix(bs[0], bs[1], bs[2]);
  }

  /** With a third byte below 64, the first three characters of a group
      depend on the first two bytes only. */
  lemma GroupPrefix(b0: Byte, b1: Byte, b2: Byte)
    requires b0 < 64 && b1 < 64 && b2 < 64
    ensures EncodeGroup(b0, b1, b2)[..3] == AxisCode(b0, b1)
  {
    assert b2 / 64 == 0;
  }

  /** The code keeps all 12 bits of the two groups. */
  lemma AxisCodeInjective(a1: int, b1: int, a2: int, b2: int)
    requires 0 <= a1 < 64 && 0 <= b1 < 64 && 0 <= a2 < 64 && 0 <= b2 < 64
    ensures AxisCode(a1, b1) == AxisCode(a2, b2) <==> a1 == a2 && b1 == b2
  {
    if AxisCode(a1, b1) == AxisCode(a2, b2) {
      var s1, s2 := AxisCode(a1, b1), AxisCode(a2, b2);
      assert s1[0] == s2[0] && s1[1] == s2[1] && s1[2] == s2[2];
      CharOfInjective(a1 / 4, a2 / 4);
      CharOfInjective((a1 % 4) * 16 + b1 / 16, (a2 % 4) * 16 + b2 / 16);
      CharOfInjective((b1 % 16) * 4, (b2 % 16) * 4);
      SextetsDetermineGroups(a1, b1, a2, b2);
    }
  }

  lemma CharOfInjective(u: Sextet, v: Sextet)
    ensures CharOf(u) == CharOf(v) ==> u == v
  {
    ValueOfCharOf(u);
    ValueOfCharOf(v);
  }

  /** The three sextets of an axis code determine both 6-bit groups. */
  lemma SextetsDetermineGroups(a1: int, b1: int, a2: int, b2: int)
    requires 0 <= a1 < 64 && 0 <= b1 < 64 && 0 <= a2 < 64 && 0 <= b2 < 64
    requires a1 / 4 == a2 / 4
    requires (a1 % 4) * 16 + b1 / 16 == (a2 % 4) * 16 + b2 / 16
    requires (b1 % 16) * 4 == (b2 % 16) * 4
    ensures a1 == a2 && b1 == b2
  {
    var m := (a1 % 4) * 16 + b1 / 16;
    DivUnique(m, 16, a1 % 4, b1 / 16);
    DivUnique(m, 16, a2 % 4, b2 / 16);
    assert a1 == 4 * (a1 / 4) + a1 % 4;
    assert a2 == 4 * (a2 / 4) + a2 % 4;
    assert b1 == 16 * (b1 / 16) + b1 % 16;
    assert b2 == 16 * (b2 / 16) + b2 % 16;
  }

  /** The high and middle groups together are the clamped value without its
      low 6 bits. */
  lemma GroupsAreHighBits(c: int)
    requires 0 <= c <= AxisMax
    ensures c / 64 == 64 * ((c / 4096) % 64) + (c / 64) % 64
  {
    var h := c / 64;
    assert c == 64 * h + c % 64;
    assert c / 4096 == h / 64 by {
      DivUnique(c, 4096, h / 64, 64 * (h % 64) + c % 64);
    }
  }

  /** Two axis values get the same 3 characters exactly when their clamped
      values agree above the low 6 bits: the dropped fourth Base64 character
      is the one that carried `n & 63`. */
  lemma AxisCodeEquality(n: int, m: int)
    ensures EncodeAxis(n) == EncodeAxis(m) <==> Clip(n) / 64 == Clip(m) / 64
  {
    EncodeAxisIsAxisCode(n);
    EncodeAxisIsAxisCode(m);
    var bn, bm := AxisBytes(n), AxisBytes(m);
    AxisCodeInjective(bn[0], bn[1], bm[0], bm[1]);
    GroupsAreHighBits(Clip(n));
    GroupsAreHighBits(Clip(m));
    HighBitsSplit(Clip(n) / 64, Clip(m) / 64, bn[0], bn[1], bm[0], bm[1]);
  }

  lemma HighBitsSplit(h1: int, h2: int, a1: int, b1: int, a2: int, b2: int)
    requires 0 <= b1 < 64 && 0 <= b2 < 64
    requires h1 == 64 * a1 + b1 && h2 == 64 * a2 + b2
    ensures h1 == h2 <==> a1 == a2 && b1 == b2
  {
    if h1 == h2 {
      DivUnique(h1, 64, a1, b1);
      DivUnique(h1, 64, a2, b2);
    }
  }

  /** The character values `encode_axis` can produce: the first comes from
      the top 4 bits of a 6-bit group, the last has its low 2 bits clear. */
  lemma AxisCodeShape(n: int)
    ensures var r := EncodeAxis(n);
      ValueOf(r[0]) < 16 && ValueOf(r[1]) % 16 < 4 && ValueOf(r[2]) % 4 == 0
  {
    var bs := AxisBytes(n);
    EncodeAxisIsAxisCode(n);
    GroupCodeShape(bs[0], bs[1]);
  }

  lemma GroupCodeShape(a: int, b: int)
    requires 0 <= a < 64 && 0 <= b < 64
    ensures var r := AxisCode(a, b);
      ValueOf(r[0]) < 16 && ValueOf(r[1]) % 16 < 4 && ValueOf(r[2]) % 4 == 0
  {
    ValueOfCharOf(a / 4);
    ValueOfCharOf((a % 4) * 16 + b / 16);
    ValueOfCharOf((b % 16) * 4);
  }

  /** `encode_cube(x, y, z)`: three axis codes side by side. */
  function EncodeCube(x: int, y: int, z: int): (r: string)
    ensures |r| == 9 && AllAlphabet(r)
  {
    EncodeAxis(x) + EncodeAxis(y) + EncodeAxis(z)
  }

  lemma Concat3(a1: string, b1: string, c1: string, a2: string, b2: string, c2: string)
    requires |a1| == |b1| == |c1| == |a2| == |b2| == |c2| == 3
    ensures a1 + b1 + c1 == a2 + b2 + c2 <==> a1 == a2 && b1 == b2 && c1 == c2
  {
    if a1 + b1 + c1 == a2 + b2 + c2 {
      var s1, s2 := a1 + b1 + c1, a2 + b2 + c2;
      assert a1 == s1[..3] && a2 == s2[..3];
      assert b1 == s1[3..6] && b2 == s2[3..6];
      assert c1 == s1[6..] && c2 == s2[6..];
    }
  }

  /** Two points share a cube code exactly when each clamped axis agrees
      above its low 6 bits. */
  lemma CubeCodeEquality(x1: int, y1: int, z1: int, x2: int, y2: int, z2: int)
    ensures EncodeCube(x1, y1, z1) == EncodeCube(x2, y2, z2) <==>
      Clip(x1) / 64 == Clip(x2) / 64 && Clip(y1) / 64 == Clip(y2) / 64 && Clip(z1) / 64 == Clip(z2) / 64
  {
    AxisCodeEquality(x1, x2);
    AxisCodeEquality(y1, y2);
    AxisCodeEquality(z1, z2);
    Concat3(EncodeAxis(x1), EncodeAxis(y1), EncodeAxis(z1), EncodeAxis(x2), EncodeAxis(y2), EncodeAxis(z2));
  }

  /** Points up to 63 light-years apart on one axis share a cube code: from
      the start of any 64-wide band, (x, y, z) and (x + 63, y, z) collide. */
  lemma CubeCodeCollision(x: int, y: int, z: int)
    requires 0 <= x && x % 64 == 0 && x + 63 <= AxisMax
    ensures EncodeCube(x, y, z) == EncodeCube(x + 63, y, z)
  {
    CubeCodeEquality(x, y, z, x + 63, y, z);
    assert Clip(x) == x && Clip(x + 63) == x + 63;
    DivUnique(x + 63, 64, x / 64, 63);
  }

  // ---------------------------------------------------------------- intended cube codes

  /** The axis code the 18-bit range of `encode_axis` calls for: one
      Base64 character per 6-bit group, so nothing is lost. */
  function EncodeAxisIntended(n: int): (r: string)
    ensures |r| == 3 && AllAlphabet(r)
  {
    var bs := AxisBytes(n);
    [CharOf(bs[0]), CharOf(bs[1]), CharOf(bs[2])]
  }

  function DecodeAxis(s: string): Result<int> {
    if |s| == 3 && AllAlphabet(s) then
      Success(ValueOf(s[0]) * 4096 + ValueOf(s[1]) * 64 + ValueOf(s[2]))
    else
      Failure(DecodeError)
  }

  lemma AxisIntendedRoundTrip(n: int)
    ensures DecodeAxis(EncodeAxisIntended(n)) == Success(Clip(n))
  {
    var c := Clip(n);
    var bs := AxisBytes(n);
    ValueOfCharOf(bs[0]);
    ValueOfCharOf(bs[1]);
    ValueOfCharOf(bs[2]);
    GroupsAreHighBits(c);
    assert c == 64 * (c / 64) + bs[2];
  }

  function EncodeCubeIntended(x: int, y: int, z: int): (r: string)
    ensures |r| == 9
  {
    EncodeAxisIntended(x) + EncodeAxisIntended(y) + EncodeAxisIntended(z)
  }

  function DecodeCube(code: string): Result<(int, int, int)> {
    if |code| != 9 then Failure(DecodeError)
    else
      match (DecodeAxis(code[..3]), DecodeAxis(code[3..6]), DecodeAxis(code[6..]))
      case (Success(x), Success(y), Success(z)) => Success((x, y, z))
      case _ => Failure(DecodeError)
  }

  /** The intended cube code round-trips on the clamped cube [0, 262143]^3. */
  lemma CubeIntendedRoundTrip(x: int, y: int, z: int)
    ensures DecodeCube(EncodeCubeIntended(x, y, z)) == Success((Clip(x), Clip(y), Clip(z)))
  {
    var code := EncodeCubeIntended(x, y, z);
    assert code[..3] == EncodeAxisIntended(x);
    assert code[3..6] == EncodeAxisIntended(y);
    assert code[6..] == EncodeAxisIntended(z);
    AxisIntendedRoundTrip(x);
    AxisIntendedRoundTrip(y);
    AxisIntendedRoundTrip(z);
  }
}
