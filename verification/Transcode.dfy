/**
 The lookup tables and the stream transcoders built on them
 (internal/audio/g711.go, encoder.go, codec.go). A Go slice that may be nil is
 an `Option`; pooled output buffers are fresh arrays read back as sequences.
 */
module Transcode {
  import opened Bytes
  import opened Results
  import opened G711

  // ---- the per-sample encoders of g711.go ----

  /** The bit search both encoders share: the first set bit from bit 14 down to bit 8. */
  method FindSegment(p: nat) returns (e: nat)
    requires p < 32768
    ensures e == Segment(p)
  {
    e := 7;
    var i := 0;
    while i < 7
      invariant 0 <= i <= 7
      invariant p < Pow2(15 - i)
      invariant i == 7 ==> e == 0
    {
      if p / Pow2(14 - i) % 2 == 1 {
        e := 7 - i;
        break;
      }
      if i == 6 {
        e := 0;
      }
      i := i + 1;
    }
  }

  /** Bit 7 of the sample shifted right by eight, with the sign extended. */
  lemma SignBit(p: int)
    requires -32768 <= p <= 32767
    ensures p / 256 / 128 % 2 * 128 == if p < 0 then 128 else 0
  {
  }

  method LinearToMuLaw(pcm: Sample) returns (b: Byte)
    ensures b == MuLawEncode(pcm)
  {
    var p: int := pcm;
    SignBit(p);
    var sign := p / 256 / 128 % 2 * 128;
    if p < 0 {
      p := -p;
    }
    p := p + 132;
    if p > 32767 {
      p := 32767;
    }
    var exponent := FindSegment(p);
    var mantissa := p / Pow2(exponent + 3) % 16;
    b := 255 - (sign + exponent * 16 + mantissa);
  }

  /** Narrowing to a byte before masking four bits loses nothing. */
  lemma ByteTruncation(v: nat)
    ensures v % 256 % 16 == v % 16
  {
    var hi, lo := v / 256, v % 256;
    DivisionUnique(v, hi * 16 + lo / 16, lo % 16, 16);
  }

  method LinearToALaw(pcm: Sample) returns (b: Byte)
    ensures b == ALawEncode(pcm)
  {
    var code := ALawFields(pcm);
    b := Xor55(code);
  }

  /** Sign, exponent and mantissa, as the A-law encoder assembles them. */
  method ALawFields(pcm: Sample) returns (code: Byte)
    ensures code == ALawCode(pcm)
  {
    var p: int := pcm;
    SignBit(p);
    var sign := p / 256 / 128 % 2 * 128;
    if p < 0 {
      p := -p;
    }
    if p > 32767 {
      p := 32767;
    }
    var exponent := FindSegment(p);
    var mantissa := ALawFourBits(p, exponent);
    code := sign + exponent * 16 + mantissa;
  }

  method ALawFourBits(p: nat, exponent: nat) returns (mantissa: nat)
    requires p < 32768 && exponent == Segment(p)
    ensures mantissa == ALawMantissa(p)
  {
    if exponent == 0 {
      ByteTruncation(p / 16);
      mantissa := p / 16 % 256 % 16;
    } else {
      ByteTruncation(p / Pow2(exponent + 3));
      mantissa := p / Pow2(exponent + 3) % 256 % 16;
    }
  }

  // ---- streams ----

  /** The 16-bit samples of a little-endian byte stream, and back. */
  function Samples(l16: seq<Byte>): (xs: seq<Sample>)
    requires |l16| % 2 == 0
    ensures |xs| == |l16| / 2
  {
    seq(|l16| / 2, i requires 0 <= i < |l16| / 2 => ToSigned(FromLe16([l16[2 * i], l16[2 * i + 1]])))
  }

  function SampleBytes(xs: seq<Sample>): (l16: seq<Byte>)
    ensures |l16| == 2 * |xs|
  {
    seq(2 * |xs|, i requires 0 <= i < 2 * |xs| => Le16(ToWord(xs[i / 2]))[i % 2])
  }

  lemma SampleBytesAt(xs: seq<Sample>, i: nat)
    requires i < |xs|
    ensures SampleBytes(xs)[2 * i] == Le16(ToWord(xs[i]))[0] && SampleBytes(xs)[2 * i + 1] == Le16(ToWord(xs[i]))[1]
  {
    DivisionUnique(2 * i, i, 0, 2);
    DivisionUnique(2 * i + 1, i, 1, 2);
  }

  lemma SamplesOfBytes(xs: seq<Sample>)
    ensures Samples(SampleBytes(xs)) == xs
  {
    var l16 := SampleBytes(xs);
    forall i | 0 <= i < |xs|
      ensures Samples(l16)[i] == xs[i]
    {
      SampleBytesAt(xs, i);
      assert [l16[2 * i], l16[2 * i + 1]] == Le16(ToWord(xs[i]));
    }
  }

  lemma BytesOfSamples(l16: seq<Byte>)
    requires |l16| % 2 == 0
    ensures SampleBytes(Samples(l16)) == l16
  {
    forall i | 0 <= i < |l16|
      ensures SampleBytes(Samples(l16))[i] == l16[i]
    {
      var k := i / 2;
      var w := FromLe16([l16[2 * k], l16[2 * k + 1]]);
      assert w % 256 == l16[2 * k] && w / 256 == l16[2 * k + 1];
      assert Samples(l16)[k] == ToSigned(w);
      assert ToWord(ToSigned(w)) == w;
    }
  }

  datatype Law = MuLaw | ALaw

  function Encode(law: Law, x: Sample): (b: Byte) {
    if law.MuLaw? then MuLawEncode(x) else ALawEncode(x)
  }

  function Decode(law: Law, b: Byte): (x: Sample) {
    if law.MuLaw? then MuLawDecode(b) else ALawDecode(b)
  }

  /** Encoding a stream of linear bytes; odd lengths are refused. */
  function EncodeStream(law: Law, l16: seq<Byte>): (r: Result<seq<Byte>>)
    ensures r.Success? <==> |l16| % 2 == 0
    ensures r.Success? ==> |r.value| == |l16| / 2
  {
    if |l16| % 2 != 0 then Failure
    else
      var xs := Samples(l16);
      Success(seq(|xs|, i requires 0 <= i < |xs| => Encode(law, xs[i])))
  }

  function DecodeStream(law: Law, bs: seq<Byte>): (l16: seq<Byte>)
    ensures |l16| == 2 * |bs|
  {
    SampleBytes(seq(|bs|, i requires 0 <= i < |bs| => Decode(law, bs[i])))
  }

  /** What a byte becomes when it is decoded and encoded again. */
  function Canonical(law: Law, b: Byte): (r: Byte) {
    if law.MuLaw? && b == 0x7F then 0xFF else b
  }

  lemma Reencode(law: Law, b: Byte)
    ensures Encode(law, Decode(law, b)) == Canonical(law, b)
  {
    if law.MuLaw? { MuLawReencode(b); } else { ALawReencode(b); }
  }

  /** For every byte stream, encode-after-decode only normalises mu-law's negative zero. */
  lemma StreamReencode(law: Law, bs: seq<Byte>)
    ensures EncodeStream(law, DecodeStream(law, bs))
         == Success(seq(|bs|, i requires 0 <= i < |bs| => Canonical(law, bs[i])))
  {
    var xs := seq(|bs|, i requires 0 <= i < |bs| => Decode(law, bs[i]));
    SamplesOfBytes(xs);
    forall i | 0 <= i < |bs|
      ensures EncodeStream(law, DecodeStream(law, bs)).value[i] == Canonical(law, bs[i])
    {
      Reencode(law, bs[i]);
    }
    assert EncodeStream(law, DecodeStream(law, bs)).value
        == seq(|bs|, i requires 0 <= i < |bs| => Canonical(law, bs[i]));
  }

  /** The samples that come back from one pass through a law. */
  function RoundTrip(law: Law, x: Sample): (y: Sample) {
    Decode(law, Encode(law, x))
  }

  /** The decoded stream is the sample-by-sample round trip. */
  lemma StreamRoundTrip(law: Law, l16: seq<Byte>)
    requires |l16| % 2 == 0
    ensures var out := DecodeStream(law, EncodeStream(law, l16).value);
            |out| == |l16| &&
            forall i :: 0 <= i < |l16| / 2 ==> Samples(out)[i] == RoundTrip(law, Samples(l16)[i])
  {
    var enc := EncodeStream(law, l16).value;
    SamplesOfBytes(seq(|enc|, i requires 0 <= i < |enc| => Decode(law, enc[i])));
  }

  /** Per-sample error of one pass. */
  predicate WithinBound(law: Law, x: Sample, y: Sample) {
    match law
    case MuLaw => 32 * Magnitude(y - x) <= Magnitude(x) + 132
    case ALaw => Magnitude(y - x) <= Max(8, Magnitude(x) / 32)
  }

  /**
   For every linear stream, one pass through either law keeps each sample within its
   bound and keeps the order of any two samples.
   */
  lemma StreamQuality(law: Law, l16: seq<Byte>)
    requires |l16| % 2 == 0
    ensures var xs, ys := Samples(l16), Samples(DecodeStream(law, EncodeStream(law, l16).value));
            && |ys| == |xs|
            && (forall i :: 0 <= i < |xs| ==> WithinBound(law, xs[i], ys[i]))
            && (forall i, j :: 0 <= i < |xs| && 0 <= j < |xs| && xs[i] <= xs[j] ==> ys[i] <= ys[j])
  {
    StreamRoundTrip(law, l16);
    var xs, ys := Samples(l16), Samples(DecodeStream(law, EncodeStream(law, l16).value));
    forall i | 0 <= i < |xs|
      ensures WithinBound(law, xs[i], ys[i])
    {
      if law.MuLaw? { MuLawError(xs[i]); } else { ALawError(xs[i]); }
    }
    forall i, j | 0 <= i < |xs| && 0 <= j < |xs| && xs[i] <= xs[j]
      ensures ys[i] <= ys[j]
    {
      if law.MuLaw? { MuLawOrder(xs[i], xs[j]); } else { ALawOrder(xs[i], xs[j]); }
    }
  }

  /** A second pass returns exactly the samples of the first. */
  lemma SecondPassChangesNothing(law: Law, l16: seq<Byte>)
    requires |l16| % 2 == 0
    ensures var once := DecodeStream(law, EncodeStream(law, l16).value);
            DecodeStream(law, EncodeStream(law, once).value) == once
  {
    var enc := EncodeStream(law, l16).value;
    StreamReencode(law, enc);
    var again := EncodeStream(law, DecodeStream(law, enc)).value;
    forall i | 0 <= i < |enc|
      ensures Decode(law, again[i]) == Decode(law, enc[i])
    {
      NegativeZero();
    }
    assert seq(|again|, i requires 0 <= i < |again| => Decode(law, again[i]))
        == seq(|enc|, i requires 0 <= i < |enc| => Decode(law, enc[i]));
  }

  lemma NegativeZero()
    ensures MuLawDecode(0x7F) == MuLawDecode(0xFF) == 0
  {
  }

  /**
   The encoded bytes also survive a second pass, except for exactly the samples mu-law
   encodes as negative zero.
   */
  lemma SecondEncodingStable(law: Law, x: Sample)
    ensures Encode(law, RoundTrip(law, x)) == Encode(law, x) <==> !(law.MuLaw? && -3 <= x <= -1)
  {
    Reencode(law, Encode(law, x));
    if law.MuLaw? {
      MuLawNegativeZeroSamples(x);
    }
  }

  lemma MuLawNegativeZeroSamples(x: Sample)
    ensures MuLawEncode(x) == 0x7F <==> -3 <= x <= -1
  {
    var p := Min(Magnitude(x) + 132, 32767);
    if p >= 256 { SegmentCells(p); }
  }

  // ---- byte order ----

  /** Exchange the two bytes of every sample. */
  function SwapBytes(s: seq<Byte>): (r: seq<Byte>)
    requires |s| % 2 == 0
    ensures |r| == |s|
  {
    seq(|s|, i requires 0 <= i < |s| => if i % 2 == 0 then s[i + 1] else s[i - 1])
  }

  /** Every sample reads in the other byte order as it read before. */
  lemma SwapReadsReversed(s: seq<Byte>, i: nat)
    requires |s| % 2 == 0 && i < |s| / 2
    ensures var r := SwapBytes(s);
            && FromBe16([r[2 * i], r[2 * i + 1]]) == FromLe16([s[2 * i], s[2 * i + 1]])
            && FromLe16([r[2 * i], r[2 * i + 1]]) == FromBe16([s[2 * i], s[2 * i + 1]])
  {
    DivisionUnique(2 * i, i, 0, 2);
    DivisionUnique(2 * i + 1, i, 1, 2);
  }

  lemma SwapBytesInvolution(s: seq<Byte>)
    requires |s| % 2 == 0
    ensures SwapBytes(SwapBytes(s)) == s
  {
  }

  method DecodeL16BEToL16LE(input: Option<seq<Byte>>) returns (r: Result<seq<Byte>>)
    ensures r.Success? <==> input.Some? && |input.value| % 2 == 0
    ensures r.Success? ==> r.value == SwapBytes(input.value)
  {
    if input.None? {
      return Failure;
    }
    var s := input.value;
    if |s| % 2 != 0 {
      return Failure;
    }
    var output := new Byte[|s|];
    var i := 0;
    while i < |s|
      invariant 0 <= i <= |s| && i % 2 == 0
      invariant forall k :: 0 <= k < i ==> output[k] == SwapBytes(s)[k]
    {
      output[i] := s[i + 1];
      output[i + 1] := s[i];
      i := i + 2;
    }
    assert output[..] == SwapBytes(s);
    r := Success(output[..]);
  }

  // ---- tables ----

  /** The first n entries of an encoding table agree with the per-sample encoder. */
  ghost predicate EncodeTable(law: Law, t: array<Byte>, n: nat)
    reads t
  {
    n <= t.Length <= WORD16 && forall w :: 0 <= w < n ==> t[w] == Encode(law, ToSigned(w))
  }

  ghost predicate DecodeTable(law: Law, t: array<Sample>, n: nat)
    reads t
  {
    n <= t.Length <= 256 && forall b :: 0 <= b < n ==> t[b] == Decode(law, b)
  }

  method FillDecodeTable(law: Law, t: array<Sample>)
    requires t.Length == 256
    modifies t
    ensures DecodeTable(law, t, 256)
  {
    for i := 0 to 256
      invariant DecodeTable(law, t, i)
    {
      StoreDecoded(law, t, i, Decode(law, i));
    }
  }

  method StoreDecoded(ghost law: Law, t: array<Sample>, i: nat, x: Sample)
    requires DecodeTable(law, t, i) && i < t.Length && x == Decode(law, i)
    modifies t
    ensures DecodeTable(law, t, i + 1)
  {
    t[i] := x;
  }

  method StoreEntry(ghost law: Law, t: array<Byte>, i: nat, b: Byte)
    requires EncodeTable(law, t, i) && i < t.Length && b == Encode(law, ToSigned(i))
    modifies t
    ensures EncodeTable(law, t, i + 1)
  {
    t[i] := b;
  }

  class Tables {
    const muLawToPcm: array<Sample>
    const aLawToPcm: array<Sample>
    const pcmToMuLaw: array<Byte>
    const pcmToALaw: array<Byte>

    ghost predicate Valid()
      reads muLawToPcm, aLawToPcm, pcmToMuLaw, pcmToALaw
    {
      && DecodeTable(MuLaw, muLawToPcm, 256) && DecodeTable(ALaw, aLawToPcm, 256)
      && EncodeTable(MuLaw, pcmToMuLaw, WORD16) && EncodeTable(ALaw, pcmToALaw, WORD16)
    }

    constructor Initialize()
      ensures Valid()
      ensures fresh(muLawToPcm) && fresh(aLawToPcm) && fresh(pcmToMuLaw) && fresh(pcmToALaw)
    {
      muLawToPcm := new Sample[256];
      aLawToPcm := new Sample[256];
      pcmToMuLaw := new Byte[WORD16];
      pcmToALaw := new Byte[WORD16];
      new;
      FillDecodeTable(MuLaw, muLawToPcm);
      FillDecodeTable(ALaw, aLawToPcm);
      for i := 0 to WORD16
        invariant DecodeTable(MuLaw, muLawToPcm, 256) && DecodeTable(ALaw, aLawToPcm, 256)
        invariant EncodeTable(MuLaw, pcmToMuLaw, i) && EncodeTable(ALaw, pcmToALaw, i)
      {
        var mu := LinearToMuLaw(ToSigned(i));
        StoreEntry(MuLaw, pcmToMuLaw, i, mu);
        var a := LinearToALaw(ToSigned(i));
        StoreEntry(ALaw, pcmToALaw, i, a);
      }
    }

    method EncodeL16ToPCMU(l16: seq<Byte>) returns (r: Result<seq<Byte>>)
      requires Valid()
      ensures r == EncodeStream(MuLaw, l16)
    {
      r := EncodeWith(pcmToMuLaw, MuLaw, l16);
    }

    method EncodeL16ToPCMA(l16: seq<Byte>) returns (r: Result<seq<Byte>>)
      requires Valid()
      ensures r == EncodeStream(ALaw, l16)
    {
      r := EncodeWith(pcmToALaw, ALaw, l16);
    }

    method DecodePCMUToL16(pcmu: Option<seq<Byte>>) returns (r: Result<seq<Byte>>)
      requires Valid()
      ensures r == if pcmu.None? then Failure else Success(DecodeStream(MuLaw, pcmu.value))
    {
      if pcmu.None? {
        return Failure;
      }
      r := DecodeWith(muLawToPcm, MuLaw, pcmu.value);
    }

    method DecodePCMAToL16(pcma: Option<seq<Byte>>) returns (r: Result<seq<Byte>>)
      requires Valid()
      ensures r == if pcma.None? then Failure else Success(DecodeStream(ALaw, pcma.value))
    {
      if pcma.None? {
        return Failure;
      }
      r := DecodeWith(aLawToPcm, ALaw, pcma.value);
    }
  }

  /** The loop both encoders run over their own table. */
  method EncodeWith(table: array<Byte>, ghost law: Law, l16: seq<Byte>) returns (r: Result<seq<Byte>>)
    requires EncodeTable(law, table, WORD16)
    ensures r == EncodeStream(law, l16)
  {
    if |l16| % 2 != 0 {
      return Failure;
    }
    ghost var expected := EncodeStream(law, l16).value;
    var out := new Byte[|l16| / 2];
    for i := 0 to out.Length
      invariant forall k :: 0 <= k < i ==> out[k] == expected[k]
    {
      var w := FromLe16([l16[i * 2], l16[i * 2 + 1]]);
      out[i] := table[w];
    }
    assert out[..] == expected;
    r := Success(out[..]);
  }

  /** The loop both decoders run over their own table. */
  method DecodeWith(table: array<Sample>, ghost law: Law, bs: seq<Byte>) returns (r: Result<seq<Byte>>)
    requires DecodeTable(law, table, 256)
    ensures r == Success(DecodeStream(law, bs))
  {
    ghost var expected := DecodeStream(law, bs);
    var l16 := new Byte[|bs| * 2];
    for i := 0 to |bs|
      invariant l16[..2 * i] == expected[..2 * i]
    {
      var word := Le16(ToWord(table[bs[i]]));
      DecodedBytes(law, bs, i);
      StorePair(l16, i, word, expected);
    }
    assert l16[..] == expected;
    r := Success(l16[..]);
  }

  method StorePair(l16: array<Byte>, i: nat, word: seq<Byte>, ghost expected: seq<Byte>)
    requires |word| == 2 && 2 * i + 2 <= l16.Length == |expected|
    requires l16[..2 * i] == expected[..2 * i] && expected[2 * i] == word[0] && expected[2 * i + 1] == word[1]
    modifies l16
    ensures l16[..2 * (i + 1)] == expected[..2 * (i + 1)]
  {
    l16[i * 2] := word[0];
    l16[i * 2 + 1] := word[1];
  }

  lemma DecodedBytes(law: Law, bs: seq<Byte>, i: nat)
    requires i < |bs|
    ensures DecodeStream(law, bs)[2 * i] == Le16(ToWord(Decode(law, bs[i])))[0]
    ensures DecodeStream(law, bs)[2 * i + 1] == Le16(ToWord(Decode(law, bs[i])))[1]
  {
    var xs := seq(|bs|, k requires 0 <= k < |bs| => Decode(law, bs[k]));
    SampleBytesAt(xs, i);
  }
}
