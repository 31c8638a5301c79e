/**
 G.711 companding (internal/audio/g711.go). The per-sample specification is
 stated on integers: shifts are divisions by powers of two, and the sign,
 exponent and mantissa fields, which never overlap, are summed.
 */
module G711 {
  import opened Bytes

  /** Powers of two up to the top of a 16-bit magnitude. */
  function Pow2(k: nat): (r: nat)
    requires k <= 15
    ensures r >= 1
  {
    if k < 4 then (if k == 0 then 1 else if k == 1 then 2 else if k == 2 then 4 else 8)
    else if k < 8 then (if k == 4 then 16 else if k == 5 then 32 else if k == 6 then 64 else 128)
    else if k < 12 then (if k == 8 then 256 else if k == 9 then 512 else if k == 10 then 1024 else 2048)
    else (if k == 12 then 4096 else if k == 13 then 8192 else if k == 14 then 16384 else 32768)
  }

  /** The segment of a magnitude: the position of its leading bit above bit 7, or 0. */
  function Segment(p: nat): (e: nat)
    requires p < 32768
    ensures e <= 7
    ensures e > 0 ==> Pow2(e + 7) <= p < 2 * Pow2(e + 7)
    ensures e == 0 ==> p < 256
  {
    if p >= 16384 then 7
    else if p >= 8192 then 6
    else if p >= 4096 then 5
    else if p >= 2048 then 4
    else if p >= 1024 then 3
    else if p >= 512 then 2
    else if p >= 256 then 1
    else 0
  }

  function Magnitude(x: int): (p: nat) {
    if x < 0 then -x else x
  }

  // ---- mu-law ----

  /** The biased magnitude a mu-law exponent and mantissa stand for: the middle of their cell. */
  function MuLawLevel(e: nat, m: nat): (q: int)
    requires e <= 7 && m <= 15
  {
    (m * 8 + 132) * Pow2(e)
  }

  function MuLawMantissa(p: nat): (m: nat)
    requires p < 32768
    ensures m <= 15
  {
    p / Pow2(Segment(p) + 3) % 16
  }

  /** Sign, segment and mantissa before the final complement. */
  function MuLawCode(x: Sample): (c: Byte) {
    var p := Min(Magnitude(x) + 132, 32767);
    (if x < 0 then 128 else 0) + Segment(p) * 16 + MuLawMantissa(p)
  }

  function MuLawValue(c: Byte): (x: Sample) {
    var e, m := c / 16 % 8, c % 16;
    MuLawCell(e, m);
    var s := MuLawLevel(e, m) - 132;
    if c >= 128 then -s else s
  }

  function MuLawEncode(x: Sample): (b: Byte) {
    255 - MuLawCode(x)
  }

  function MuLawDecode(b: Byte): (x: Sample) {
    MuLawValue(255 - b)
  }

  /** Every level lies in its own segment and cell. */
  lemma MuLawCell(e: nat, m: nat)
    requires e <= 7 && m <= 15
    ensures 132 <= MuLawLevel(e, m) <= 32256
    ensures Segment(MuLawLevel(e, m)) == e
    ensures MuLawMantissa(MuLawLevel(e, m)) == m
    ensures MuLawLevel(e, m) == 132 <==> e == 0 && m == 0
  {
    if e == 0 {
      MuLawCellZero(m);
    } else {
      MuLawCellAbove(e, m);
    }
  }

  /** A level is the middle of the cell of width 2^(e+3) its fields name. */
  lemma MuLawCellZero(m: nat)
    requires m <= 15
    ensures 132 <= MuLawLevel(0, m) < 256
    ensures Segment(MuLawLevel(0, m)) == 0
    ensures MuLawMantissa(MuLawLevel(0, m)) == m
    ensures MuLawLevel(0, m) == 132 <==> m == 0
  {
    assert MuLawLevel(0, m) == m * 8 + 132;
    DivisionUnique(m * 8 + 132, m + 16, 4, 8);
  }

  lemma PowerSteps(e: nat)
    requires e <= 7
    ensures Pow2(e + 3) == 8 * Pow2(e) && Pow2(e + 7) == 128 * Pow2(e) && Pow2(e) <= 128
    ensures e >= 1 ==> Pow2(e) == 2 * Pow2(e - 1)
  {
  }

  /** Segments do not overlap. */
  lemma SegmentIs(p: nat, e: nat)
    requires p < 32768 && 1 <= e <= 7 && Pow2(e + 7) <= p < 2 * Pow2(e + 7)
    ensures Segment(p) == e
  {
  }

  /** A level is 16 + m whole cells of eight powers, and half a cell. */
  lemma LevelSpread(m: nat, w: nat)
    requires m <= 15 && w > 0
    ensures (m * 8 + 132) * w == (m + 16) * (8 * w) + 4 * w
    ensures 132 * w <= (m * 8 + 132) * w <= 252 * w
  {
    var k := m * 8;
    assert (k + 132) * w == k * w + 132 * w;
    assert (m + 16) * (8 * w) == m * (8 * w) + 128 * w && m * (8 * w) == k * w;
    assert 0 <= k * w <= 120 * w by {
      assert (120 - k) * w >= 0;
    }
  }

  lemma MuLawCellAbove(e: nat, m: nat)
    requires 1 <= e <= 7 && m <= 15
    ensures 132 < MuLawLevel(e, m) <= 32256
    ensures Segment(MuLawLevel(e, m)) == e
    ensures MuLawMantissa(MuLawLevel(e, m)) == m
  {
    PowerSteps(e);
    LevelSpread(m, Pow2(e));
    var p := MuLawLevel(e, m);
    SegmentIs(p, e);
    DivisionUnique(p, m + 16, 4 * Pow2(e), 8 * Pow2(e));
  }

  /** Above segment 0 both laws have the same levels. */
  lemma LevelsAgree(e: nat, m: nat)
    requires 1 <= e <= 7 && m <= 15
    ensures ALawLevel(e, m) == MuLawLevel(e, m)
  {
    PowerSteps(e);
    assert (m * 16 + 264) * Pow2(e - 1) == (m * 8 + 132) * (2 * Pow2(e - 1));
  }

  /** A code byte is its three fields. */
  lemma Fields(c: Byte)
    ensures c == (if c >= 128 then 128 else 0) + c / 16 % 8 * 16 + c % 16
  {
  }

  lemma FieldsOf(s: nat, e: nat, m: nat)
    requires (s == 0 || s == 128) && e <= 7 && m <= 15
    ensures var c := s + e * 16 + m; c <= 255 && c / 16 % 8 == e && c % 16 == m && (c >= 128 <==> s == 128)
  {
  }

  // ---- A-law ----

  function ALawLevel(e: nat, m: nat): (q: int)
    requires e <= 7 && m <= 15
  {
    if e == 0 then m * 16 + 8 else (m * 16 + 264) * Pow2(e - 1)
  }

  function ALawMantissa(p: nat): (m: nat)
    requires p < 32768
    ensures m <= 15
  {
    if Segment(p) == 0 then p / 16 % 16 else p / Pow2(Segment(p) + 3) % 16
  }

  /** Exclusive-or of a four-bit field with 5: bits 0 and 2 are flipped. */
  const NIBBLE_XOR_5: seq<Byte> := [5, 4, 7, 6, 1, 0, 3, 2, 13, 12, 15, 14, 9, 8, 11, 10]

  function FlipNibble(n: nat): (r: nat)
    requires n < 16
    ensures r < 16
  {
    NIBBLE_XOR_5[n]
  }

  lemma FlipNibbleTwice(n: nat)
    requires n < 16
    ensures FlipNibble(FlipNibble(n)) == n
  {
  }

  lemma Nibbles(hi: nat, lo: nat)
    requires hi < 16 && lo < 16
    ensures (hi * 16 + lo) / 16 == hi && (hi * 16 + lo) % 16 == lo
  {
  }

  /** Exclusive-or with 0x55: both halves of the byte have every other bit flipped. */
  function Xor55(b: Byte): (r: Byte) {
    FlipNibble(b / 16) * 16 + FlipNibble(b % 16)
  }

  lemma Xor55Halves(b: Byte)
    ensures Xor55(b) / 16 == FlipNibble(b / 16) && Xor55(b) % 16 == FlipNibble(b % 16)
  {
    Nibbles(FlipNibble(b / 16), FlipNibble(b % 16));
  }

  lemma Xor55Involution(b: Byte)
    ensures Xor55(Xor55(b)) == b
  {
    var hi, lo := b / 16, b % 16;
    assert b == hi * 16 + lo;
    Xor55Halves(b);
    FlipNibbleTwice(hi);
    FlipNibbleTwice(lo);
  }

  function Bit(b: nat, k: nat): (bit: nat)
    requires k <= 15
  {
    b / Pow2(k) % 2
  }

  lemma FlipLowBits(n: nat)
    requires n < 16
    ensures Bit(FlipNibble(n), 0) != Bit(n, 0) && Bit(FlipNibble(n), 1) == Bit(n, 1)
  {
    if n < 8 {
      assert n in {0, 1, 2, 3, 4, 5, 6, 7};
    } else {
      assert n in {8, 9, 10, 11, 12, 13, 14, 15};
    }
  }

  lemma FlipHighBits(n: nat)
    requires n < 16
    ensures Bit(FlipNibble(n), 2) != Bit(n, 2) && Bit(FlipNibble(n), 3) == Bit(n, 3)
  {
    if n < 8 {
      assert n in {0, 1, 2, 3, 4, 5, 6, 7};
    } else {
      assert n in {8, 9, 10, 11, 12, 13, 14, 15};
    }
  }

  lemma FlipNibbleBit(n: nat, k: nat)
    requires n < 16 && k < 4
    ensures Bit(FlipNibble(n), k) == Bit(n, k) <==> k % 2 == 1
  {
    if k < 2 {
      FlipLowBits(n);
      assert k == 0 || k == 1;
    } else {
      FlipHighBits(n);
      assert k == 2 || k == 3;
    }
  }

  /** The bits of a byte are those of its halves. */
  lemma BitOfHalf(b: Byte, k: nat)
    requires k < 8
    ensures Bit(b, k) == if k < 4 then Bit(b % 16, k) else Bit(b / 16, k - 4)
  {
    var hi, lo := b / 16, b % 16;
    assert b == hi * 16 + lo;
    if k == 0 {
      DivisionUnique(b, hi * 8 + lo / 2, lo % 2, 2);
    } else if k == 1 {
      DivisionUnique(b, hi * 8 + lo / 2, lo % 2, 2);
      DivisionUnique(b / 2, hi * 4 + lo / 2 / 2, lo / 2 % 2, 2);
    } else if k == 2 {
      DivisionUnique(b, hi * 4 + lo / 4, lo % 4, 4);
      DivisionUnique(b / 4, hi * 2 + lo / 4 / 2, lo / 4 % 2, 2);
    } else if k == 3 {
      DivisionUnique(b, hi * 2 + lo / 8, lo % 8, 8);
      DivisionUnique(b / 8, hi + lo / 8 / 2, lo / 8 % 2, 2);
    } else {
      HighBit(b, k - 4);
    }
  }

  lemma HighBit(b: Byte, k: nat)
    requires k < 4
    ensures Bit(b, k + 4) == Bit(b / 16, k)
  {
    var hi, lo, w := b / 16, b % 16, Pow2(k);
    assert Pow2(k + 4) == 16 * w;
    assert hi == hi / w * w + hi % w;
    assert b == (hi / w) * (16 * w) + (hi % w * 16 + lo);
    DivisionUnique(b, hi / w, hi % w * 16 + lo, 16 * w);
  }

  /** Exactly the bits of 0x55, those at even positions, are flipped. */
  lemma Xor55Bits(b: Byte, k: nat)
    requires k < 8
    ensures Bit(Xor55(b), k) == Bit(b, k) <==> k % 2 == 1
  {
    if k < 4 { Xor55Low(b, k); } else { Xor55High(b, k - 4); }
  }

  lemma Xor55Low(b: Byte, k: nat)
    requires k < 4
    ensures Bit(Xor55(b), k) == Bit(b, k) <==> k % 2 == 1
  {
    Xor55Halves(b);
    BitOfHalf(b, k);
    BitOfHalf(Xor55(b), k);
    FlipNibbleBit(b % 16, k);
  }

  lemma Xor55High(b: Byte, k: nat)
    requires k < 4
    ensures Bit(Xor55(b), k + 4) == Bit(b, k + 4) <==> k % 2 == 1
  {
    Xor55Halves(b);
    HighBit(b, k);
    HighBit(Xor55(b), k);
    FlipNibbleBit(b / 16, k);
  }

  /** Sign, segment and mantissa before the exclusive-or. */
  function ALawCode(x: Sample): (c: Byte) {
    var p := Min(Magnitude(x), 32767);
    (if x < 0 then 128 else 0) + Segment(p) * 16 + ALawMantissa(p)
  }

  function ALawValue(c: Byte): (x: Sample) {
    var e, m := c / 16 % 8, c % 16;
    ALawCell(e, m);
    if c >= 128 then -ALawLevel(e, m) else ALawLevel(e, m)
  }

  function ALawEncode(x: Sample): (b: Byte) {
    Xor55(ALawCode(x))
  }

  function ALawDecode(b: Byte): (x: Sample) {
    ALawValue(Xor55(b))
  }

  lemma ALawCell(e: nat, m: nat)
    requires e <= 7 && m <= 15
    ensures 8 <= ALawLevel(e, m) <= 32256
    ensures Segment(ALawLevel(e, m)) == e
    ensures ALawMantissa(ALawLevel(e, m)) == m
  {
    if e == 0 {
      ALawCellZero(m);
    } else {
      LevelsAgree(e, m);
      MuLawCellAbove(e, m);
    }
  }

  lemma ALawCellZero(m: nat)
    requires m <= 15
    ensures 8 <= ALawLevel(0, m) < 256
    ensures Segment(ALawLevel(0, m)) == 0
    ensures ALawMantissa(ALawLevel(0, m)) == m
  {
    assert ALawLevel(0, m) == m * 16 + 8;
    assert (m * 16 + 8) / 16 == m;
  }

  // ---- the order of the codes ----

  lemma MuLawLevelOrder(c: nat, d: nat)
    requires c < d < 128
    ensures MuLawLevel(c / 16, c % 16) < MuLawLevel(d / 16, d % 16)
  {
    var e, m, f, n := c / 16, c % 16, d / 16, d % 16;
    assert c == e * 16 + m && d == f * 16 + n;
    MuLawCell(e, m);
    MuLawCell(f, n);
    if e == f {
      ScaledOrder(m * 8 + 132, n * 8 + 132, Pow2(e));
    } else {
      SegmentOrder(MuLawLevel(e, m), MuLawLevel(f, n));
    }
  }

  lemma ALawLevelOrder(c: nat, d: nat)
    requires c < d < 128
    ensures 0 < ALawLevel(c / 16, c % 16) < ALawLevel(d / 16, d % 16)
  {
    var e, m, f, n := c / 16, c % 16, d / 16, d % 16;
    assert c == e * 16 + m && d == f * 16 + n;
    ALawCell(e, m);
    ALawCell(f, n);
    if e != f {
      SegmentOrder(ALawLevel(e, m), ALawLevel(f, n));
    } else if e > 0 {
      ScaledOrder(m * 16 + 264, n * 16 + 264, Pow2(e - 1));
    }
  }

  lemma SegmentOrder(p: nat, q: nat)
    requires p < 32768 && q < 32768 && Segment(p) < Segment(q)
    ensures p < q
  {
  }

  /**
   Mu-law counts down from both ends: bytes 0x80 to 0xFF stand for strictly falling values down
   to zero, and each byte below 0x80 for the negative of the one 0x80 above it.
   */
  lemma MuLawBytes(b: Byte, c: Byte)
    requires 128 <= b < c
    ensures MuLawDecode(b) > MuLawDecode(c) >= 0
    ensures MuLawDecode(b - 128) == -MuLawDecode(b)
    ensures MuLawDecode(0xFF) == 0 && MuLawDecode(0x80) == 32124
  {
    MuLawFalls(b, c);
    MuLawMirror(b);
    MuLawEnds();
  }

  lemma MuLawMirror(b: Byte)
    requires 128 <= b
    ensures MuLawDecode(b - 128) == -MuLawDecode(b)
  {
    MuLawOfCode(255 - b);
  }

  lemma MuLawFalls(b: Byte, c: Byte)
    requires 128 <= b < c
    ensures MuLawDecode(b) > MuLawDecode(c) >= 0
  {
    MuLawOfCode(255 - b);
    MuLawOfCode(255 - c);
    MuLawLevelOrder(255 - c, 255 - b);
  }

  lemma CodeFields(c: nat)
    requires c < 128
    ensures c / 16 <= 7 && c / 16 % 8 == c / 16 && (128 + c) / 16 % 8 == c / 16 && (128 + c) % 16 == c % 16
  {
    assert c == c / 16 * 16 + c % 16;
    FieldsOf(0, c / 16, c % 16);
    FieldsOf(128, c / 16, c % 16);
  }

  lemma MuLawOfCode(c: nat)
    requires c < 128
    ensures c / 16 <= 7 && MuLawLevel(c / 16, c % 16) >= 132
    ensures MuLawDecode(255 - c) == MuLawLevel(c / 16, c % 16) - 132
    ensures MuLawDecode(127 - c) == 132 - MuLawLevel(c / 16, c % 16)
  {
    CodeFields(c);
    MuLawCell(c / 16, c % 16);
    assert MuLawDecode(255 - c) == MuLawValue(c) && MuLawDecode(127 - c) == MuLawValue(128 + c);
  }

  lemma ALawOfCode(c: nat)
    requires c < 128
    ensures c / 16 <= 7
    ensures ALawDecode(Xor55(c)) == ALawLevel(c / 16, c % 16)
    ensures ALawDecode(Xor55(c + 128)) == -ALawLevel(c / 16, c % 16)
  {
    CodeFields(c);
    Xor55Involution(c);
    Xor55Involution(c + 128);
    assert ALawDecode(Xor55(c)) == ALawValue(c) && ALawDecode(Xor55(c + 128)) == ALawValue(c + 128);
  }

  /**
   Before the exclusive-or A-law counts up: codes 0 to 0x7F stand for strictly rising positive
   values, and each code from 0x80 on for the negative of the one 0x80 below it.
   */
  lemma ALawBytes(c: Byte, d: Byte)
    requires c < d < 128
    ensures 0 < ALawDecode(Xor55(c)) < ALawDecode(Xor55(d))
    ensures ALawDecode(Xor55(c + 128)) == -ALawDecode(Xor55(c))
    ensures ALawDecode(0x55) == 8 && ALawDecode(0x2A) == 32256
  {
    ALawOfCode(c);
    ALawOfCode(d);
    ALawLevelOrder(c, d);
    ALawEnds();
  }

  lemma ALawEnds()
    ensures ALawDecode(0x55) == 8 && ALawDecode(0x2A) == 32256
  {
    ALawOfCode(0);
    ALawOfCode(127);
    assert Xor55(0) == 0x55 && Xor55(127) == 0x2A;
  }

  lemma MuLawEnds()
    ensures MuLawDecode(0xFF) == 0 && MuLawDecode(0x80) == 32124
  {
    MuLawOfCode(0);
    MuLawOfCode(127);
  }

  // ---- encode after decode ----

  /** A level encodes to its own fields. */
  lemma MuLawCodeOfLevel(e: nat, m: nat, x: Sample)
    requires e <= 7 && m <= 15 && Magnitude(x) == MuLawLevel(e, m) - 132
    ensures MuLawCode(x) == (if x < 0 then 128 else 0) + e * 16 + m
  {
    MuLawCell(e, m);
  }

  lemma MuLawCodeOfValue(c: Byte)
    ensures MuLawCode(MuLawValue(c)) == if c == 128 then 0 else c
  {
    var e, m := c / 16 % 8, c % 16;
    MuLawCell(e, m);
    MuLawCodeOfLevel(e, m, MuLawValue(c));
    Fields(c);
  }

  /** Encoding a decoded mu-law byte gives it back, except that negative zero becomes positive zero. */
  lemma MuLawReencode(b: Byte)
    ensures MuLawEncode(MuLawDecode(b)) == if b == 0x7F then 0xFF else b
  {
    MuLawCodeOfValue(255 - b);
  }

  lemma ALawCodeOfLevel(e: nat, m: nat, x: Sample)
    requires e <= 7 && m <= 15 && Magnitude(x) == ALawLevel(e, m)
    ensures ALawCode(x) == (if x < 0 then 128 else 0) + e * 16 + m
  {
    ALawCell(e, m);
  }

  lemma ALawCodeOfValue(c: Byte)
    ensures ALawCode(ALawValue(c)) == c
  {
    var e, m := c / 16 % 8, c % 16;
    ALawCell(e, m);
    ALawCodeOfLevel(e, m, ALawValue(c));
    Fields(c);
  }

  /** Encoding a decoded A-law byte gives it back. */
  lemma ALawReencode(b: Byte)
    ensures ALawEncode(ALawDecode(b)) == b
  {
    ALawCodeOfValue(Xor55(b));
    Xor55Involution(b);
  }

  // ---- decode after encode ----

  /** The level of the cell a biased magnitude falls in. */
  function MuLawQuantize(p: nat): (q: int)
    requires p < 32768
  {
    MuLawLevel(Segment(p), MuLawMantissa(p))
  }

  function ALawQuantize(p: nat): (q: int)
    requires p < 32768
  {
    ALawLevel(Segment(p), ALawMantissa(p))
  }

  lemma MuLawDecodeEncode(x: Sample)
    ensures var q := MuLawQuantize(Min(Magnitude(x) + 132, 32767));
            MuLawDecode(MuLawEncode(x)) == if x < 0 then 132 - q else q - 132
  {
    var p := Min(Magnitude(x) + 132, 32767);
    FieldsOf(if x < 0 then 128 else 0, Segment(p), MuLawMantissa(p));
  }

  lemma ALawValueOfCode(x: Sample)
    ensures var q := ALawQuantize(Min(Magnitude(x), 32767));
            ALawValue(ALawCode(x)) == if x < 0 then -q else q
  {
    var p := Min(Magnitude(x), 32767);
    FieldsOf(if x < 0 then 128 else 0, Segment(p), ALawMantissa(p));
  }

  lemma ALawDecodeEncode(x: Sample)
    ensures ALawDecode(ALawEncode(x)) == ALawValue(ALawCode(x))
  {
    Xor55Involution(ALawCode(x));
  }

  /** The step of a segment above 0: the level is the middle of a cell of this width. */
  ghost predicate MidCell(p: nat, e: nat, level: int)
    requires e <= 7
  {
    && level == p - p % Pow2(e + 3) + Pow2(e + 2)
    && Pow2(e + 3) == 2 * Pow2(e + 2) && 32 * Pow2(e + 2) <= p
    && Pow2(e + 7) < level < 2 * Pow2(e + 7)
  }

  /** The mantissa bits of a magnitude in the segment that starts at 16 cells of width w. */
  lemma CellNumber(p: nat, w: nat)
    requires w in {16, 32, 64, 128, 256, 512, 1024} && 16 * w <= p < 32 * w
    ensures p / w % 16 == p / w - 16 && p - p % w == (p / w) * w && 16 <= p / w < 32
  {
    var q := p / w;
    assert p == q * w + p % w;
    ScaledOrder(15, q, w);
    ScaledOrder(q, 32, w);
  }

  lemma ScaledOrder(a: int, b: int, w: nat)
    requires w > 0
    ensures a * w < b * w <==> a < b
  {
    Multiple(b - a, w);
    assert b * w - a * w == (b - a) * w;
  }

  lemma SegmentCells(p: nat)
    requires 256 <= p < 32768
    ensures var e := Segment(p);
            && MuLawLevel(e, MuLawMantissa(p)) == ALawLevel(e, ALawMantissa(p))
            && MidCell(p, e, MuLawLevel(e, MuLawMantissa(p)))
  {
    var e, m := Segment(p), MuLawMantissa(p);
    PowerSteps(e);
    CellNumber(p, Pow2(e + 3));
    LevelsAgree(e, m);
    LevelSpread(m, Pow2(e));
    MidCellIs(p, e, m);
  }

  lemma MidCellIs(p: nat, e: nat, m: nat)
    requires e <= 7 && m <= 15 && Pow2(e + 7) <= p
    requires Pow2(e + 3) == 8 * Pow2(e) && Pow2(e + 7) == 128 * Pow2(e)
    requires p - p % Pow2(e + 3) == (m + 16) * Pow2(e + 3)
    requires MuLawLevel(e, m) == (m + 16) * (8 * Pow2(e)) + 4 * Pow2(e)
    requires 132 * Pow2(e) <= MuLawLevel(e, m) <= 252 * Pow2(e)
    ensures MidCell(p, e, MuLawLevel(e, m))
  {
    assert Pow2(e + 2) == 4 * Pow2(e);
  }

  /** Below 256 the cells are 8 wide for mu-law (biased) and 16 wide for A-law. */
  lemma MuLawLowCells(p: nat)
    requires 132 <= p < 256
    ensures MuLawQuantize(p) == p - p % 8 + 4
  {
    assert Segment(p) == 0 && 16 <= p / 8 <= 31;
    assert MuLawMantissa(p) == p / 8 - 16;
  }

  lemma ALawLowCells(p: nat)
    requires p < 256
    ensures ALawQuantize(p) == p - p % 16 + 8
  {
    assert Segment(p) == 0 && p / 16 <= 15;
    assert ALawMantissa(p) == p / 16;
  }

  lemma MuLawQuantizeError(p: nat)
    requires 132 <= p < 32768
    ensures 32 * Magnitude(MuLawQuantize(p) - p) <= p
  {
    if p < 256 { MuLawLowCells(p); } else { SegmentCells(p); }
  }

  lemma ALawQuantizeError(p: nat)
    requires p < 32768
    ensures Magnitude(ALawQuantize(p) - p) <= Max(8, p / 32)
  {
    if p < 256 { ALawLowCells(p); } else { SegmentCells(p); }
  }

  /** Magnitudes in different segments are separated by a power of two. */
  lemma SegmentsSeparate(p: nat, p': nat)
    requires 256 <= p <= p' < 32768 && Segment(p) != Segment(p')
    ensures 2 * Pow2(Segment(p) + 7) <= Pow2(Segment(p') + 7)
  {
  }

  lemma FloorMonotone(a: nat, b: nat, d: nat)
    requires a <= b && d > 0
    ensures a - a % d <= b - b % d
  {
    assert a == a / d * d + a % d && b == b / d * d + b % d;
    QuotientOrder(a / d, a % d, b / d, b % d, d);
  }

  lemma QuotientOrder(qa: nat, ra: nat, qb: nat, rb: nat, d: nat)
    requires qa * d + ra <= qb * d + rb && rb < d
    ensures qa * d <= qb * d
  {
    Multiple(qb - qa, d);
    assert (qb - qa) * d == qb * d - qa * d;
  }

  /** In the segments above 0 both laws have the same cells, and they are in order. */
  lemma HighCellsMonotone(p: nat, p': nat)
    requires 256 <= p <= p' < 32768
    ensures MuLawQuantize(p) <= MuLawQuantize(p')
  {
    SegmentCells(p);
    SegmentCells(p');
    if Segment(p) == Segment(p') {
      FloorMonotone(p, p', Pow2(Segment(p) + 3));
    } else {
      SegmentsSeparate(p, p');
    }
  }

  lemma MuLawQuantizeMonotone(p: nat, p': nat)
    requires 132 <= p <= p' < 32768
    ensures MuLawQuantize(p) <= MuLawQuantize(p')
  {
    if 256 <= p {
      HighCellsMonotone(p, p');
    } else if p' < 256 {
      MuLawLowCells(p);
      MuLawLowCells(p');
      FloorMonotone(p, p', 8);
    } else {
      MuLawLowCells(p);
      FloorMonotone(p, 255, 8);
      SegmentCells(p');
    }
  }

  lemma ALawQuantizeMonotone(p: nat, p': nat)
    requires p <= p' < 32768
    ensures 0 <= ALawQuantize(p) <= ALawQuantize(p')
  {
    if 256 <= p {
      SegmentCells(p);
      SegmentCells(p');
      HighCellsMonotone(p, p');
    } else {
      ALawLowCells(p);
      if p' < 256 { ALawLowCells(p'); } else { SegmentCells(p'); }
    }
  }

  /** Mu-law error is at most (|x| + 132) / 32, clamped extremes included. */
  lemma MuLawError(x: Sample)
    ensures 32 * Magnitude(MuLawDecode(MuLawEncode(x)) - x) <= Magnitude(x) + 132
  {
    var p := Min(Magnitude(x) + 132, 32767);
    MuLawDecodeEncode(x);
    MuLawQuantizeError(p);
    if p == 32767 { SegmentCells(p); }
  }

  /** A-law error is at most 8, or |x| / 32 where that is larger. */
  lemma ALawError(x: Sample)
    ensures Magnitude(ALawDecode(ALawEncode(x)) - x) <= Max(8, Magnitude(x) / 32)
  {
    var p := Min(Magnitude(x), 32767);
    ALawDecodeEncode(x);
    ALawValueOfCode(x);
    ALawQuantizeError(p);
    if p == 32767 { SegmentCells(p); }
  }

  /** Transcoding never reorders two samples. */
  lemma MuLawOrder(x: Sample, y: Sample)
    requires x <= y
    ensures MuLawDecode(MuLawEncode(x)) <= MuLawDecode(MuLawEncode(y))
  {
    MuLawDecodeEncode(x); MuLawDecodeEncode(y);
    var p, p' := Min(Magnitude(x) + 132, 32767), Min(Magnitude(y) + 132, 32767);
    MuLawNonNegative(p); MuLawNonNegative(p');
    if p <= p' { MuLawQuantizeMonotone(p, p'); } else { MuLawQuantizeMonotone(p', p); }
  }

  lemma MuLawNonNegative(p: nat)
    requires 132 <= p < 32768
    ensures MuLawQuantize(p) >= 132
  {
    if p < 256 { MuLawLowCells(p); } else { SegmentCells(p); }
  }

  lemma ALawOrder(x: Sample, y: Sample)
    requires x <= y
    ensures ALawDecode(ALawEncode(x)) <= ALawDecode(ALawEncode(y))
  {
    ALawDecodeEncode(x); ALawDecodeEncode(y);
    ALawCodeOrder(x, y);
  }

  lemma ALawCodeOrder(x: Sample, y: Sample)
    requires x <= y
    ensures ALawValue(ALawCode(x)) <= ALawValue(ALawCode(y))
  {
    ALawValueOfCode(x); ALawValueOfCode(y);
    var p, p' := Min(Magnitude(x), 32767), Min(Magnitude(y), 32767);
    if p <= p' { ALawQuantizeMonotone(p, p'); } else { ALawQuantizeMonotone(p', p); }
  }
}
