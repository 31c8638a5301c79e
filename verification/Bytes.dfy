/**
 Machine words and the two byte orders. Integers are unbounded in Dafny, so the
 widths the program relies on are subset types and every wrap-around is written
 out as a remainder.
 */
module Bytes {

  const WORD16 := 0x1_0000
  const WORD32 := 0x1_0000_0000

  type Byte = x: int | 0 <= x < 256
  type Word16 = x: int | 0 <= x < WORD16
  type Word32 = x: int | 0 <= x < WORD32

  /** A signed 16-bit linear PCM sample. */
  type Sample = x: int | -32768 <= x <= 32767

  function Min(a: int, b: int): (r: int) {
    if a < b then a else b
  }

  function Max(a: int, b: int): (r: int) {
    if a < b then b else a
  }

  function Zeros(n: nat): (r: seq<Byte>)
    ensures |r| == n && forall i :: 0 <= i < n ==> r[i] == 0
  {
    seq(n, i => 0)
  }

  /** Big-endian (network order) fields. */
  function Be16(w: Word16): (r: seq<Byte>)
    ensures |r| == 2 && FromBe16(r) == w
  {
    [w / 256, w % 256]
  }

  function FromBe16(b: seq<Byte>): (w: Word16)
    requires |b| == 2
  {
    var hi: int, lo: int := b[0], b[1];
    hi * 256 + lo
  }

  function Be32(w: Word32): (r: seq<Byte>)
    ensures |r| == 4 && FromBe32(r) == w
  {
    Be16(w / WORD16) + Be16(w % WORD16)
  }

  function FromBe32(b: seq<Byte>): (w: Word32)
    requires |b| == 4
  {
    var hi: int, lo: int := FromBe16(b[..2]), FromBe16(b[2..]);
    hi * WORD16 + lo
  }

  /** Little-endian fields. */
  function Le16(w: Word16): (r: seq<Byte>)
    ensures |r| == 2 && FromLe16(r) == w
  {
    [w % 256, w / 256]
  }

  function FromLe16(b: seq<Byte>): (w: Word16)
    requires |b| == 2
  {
    var lo: int, hi: int := b[0], b[1];
    lo + hi * 256
  }

  function Le32(w: Word32): (r: seq<Byte>)
    ensures |r| == 4 && FromLe32(r) == w
  {
    Le16(w % WORD16) + Le16(w / WORD16)
  }

  function FromLe32(b: seq<Byte>): (w: Word32)
    requires |b| == 4
  {
    var lo: int, hi: int := FromLe16(b[..2]), FromLe16(b[2..]);
    lo + hi * WORD16
  }

  /** The two's-complement reading of a 16-bit word, and back. */
  function ToSigned(w: Word16): (s: Sample)
    ensures ToWord(s) == w && (w - s) % WORD16 == 0
  {
    if w < 32768 then w else w - WORD16
  }

  function ToWord(s: Sample): (w: Word16) {
    if s < 0 then s + WORD16 else s
  }

  /** The bytes are the ASCII characters of the name. */
  predicate Spells(b: seq<Byte>, name: string) {
    |b| == |name| && forall i :: 0 <= i < |b| ==> b[i] == name[i] as int
  }

  /** Concatenation in order. */
  function Flatten(xs: seq<seq<Byte>>): (r: seq<Byte>) {
    if xs == [] then [] else Flatten(xs[..|xs| - 1]) + xs[|xs| - 1]
  }

  lemma FlattenSnoc(xs: seq<seq<Byte>>, x: seq<Byte>)
    ensures Flatten(xs + [x]) == Flatten(xs) + x
  {
    assert (xs + [x])[..|xs|] == xs;
  }

  /** Quotient and remainder are determined by one another. */
  lemma DivisionUnique(n: int, q: int, r: nat, m: nat)
    requires n == q * m + r && r < m
    ensures n / m == q && n % m == r
  {
    var d := q - n / m;
    assert d * m == n % m - r by {
      assert n == (n / m) * m + n % m;
      assert d * m == q * m - (n / m) * m;
    }
    Multiple(d, m);
  }

  lemma Multiple(d: int, m: nat)
    ensures d >= 1 ==> d * m >= m
    ensures d <= -1 ==> d * m + m <= 0
  {
    if d >= 1 {
      assert (d - 1) * m >= 0;
    } else if d <= -1 {
      assert (-d - 1) * m >= 0;
    }
  }

  /** The remainder of a number below twice the modulus. */
  lemma WrapOnce(a: nat, m: nat)
    requires a < 2 * m
    ensures a % m == if a < m then a else a - m
  {
    if a < m { DivisionUnique(a, 0, a, m); } else { DivisionUnique(a, 1, a - m, m); }
  }
}
