/** The WAV writer (internal/audio/wav_fast.go): a 44-byte header, buffered data, sizes patched on close. */
module Wav {
  import opened Bytes
  import opened Results

  const HEADER_SIZE := 44
  const CHANNELS := 2

  const RIFF: seq<Byte> := [0x52, 0x49, 0x46, 0x46]
  const WAVE: seq<Byte> := [0x57, 0x41, 0x56, 0x45]
  const FMT: seq<Byte> := [0x66, 0x6D, 0x74, 0x20]
  const DATA: seq<Byte> := [0x64, 0x61, 0x74, 0x61]

  /** The format part of the header, between the two patched size fields. */
  function Format(sampleRate: nat, channels: nat): (r: seq<Byte>)
    requires channels < 1000
    ensures |r| == 32
  {
    FormatStart(channels) + FormatEnd(sampleRate, channels)
  }

  /** Tags, chunk size, audio format and channel count. */
  function FormatStart(channels: nat): (r: seq<Byte>)
    requires channels < 1000
    ensures |r| == 16
  {
    WAVE + FMT + Le32(16) + Le16(1) + Le16(channels)
  }

  /** Sample rate, byte rate, block alignment, bits per sample and the data tag. */
  function FormatEnd(sampleRate: nat, channels: nat): (r: seq<Byte>)
    requires channels < 1000
    ensures |r| == 16
  {
    Le32(sampleRate % WORD32) + Le32(sampleRate * channels * 2 % WORD32) + Le16(channels * 2) + Le16(16) + DATA
  }

  function Header(sampleRate: nat, channels: nat, chunkSize: Word32, dataSize: Word32): (r: seq<Byte>)
    requires channels < 1000
    ensures |r| == HEADER_SIZE
  {
    RIFF + Le32(chunkSize) + Format(sampleRate, channels) + Le32(dataSize)
  }

  datatype Recording = Recording(sampleRate: nat, channels: nat, data: seq<Byte>)

  /** A player of 16-bit PCM checks every field of the format by itself, the byte rate in 32-bit arithmetic. */
  predicate PcmFormat(f: seq<Byte>)
    requires |f| >= HEADER_SIZE
  {
    var channels: int, rate: int := FromLe16(f[22..24]), FromLe32(f[24..28]);
    var byteRate: int, align: int := FromLe32(f[28..32]), FromLe16(f[32..34]);
    && Spells(f[8..12], "WAVE") && Spells(f[12..16], "fmt ") && Spells(f[36..40], "data")
    && FromLe32(f[16..20]) == 16 && FromLe16(f[20..22]) == 1 && FromLe16(f[34..36]) == 16
    && align == channels * 2 && byteRate == rate * align % WORD32
  }

  /** A strict reader: the sizes must agree with the length of the file, and the format with itself. */
  function Parse(f: seq<Byte>): (r: Option<Recording>) {
    if |f| < HEADER_SIZE then None
    else if Spells(f[..4], "RIFF") && FromLe32(f[4..8]) as int == |f| - 8
            && PcmFormat(f) && FromLe32(f[40..44]) as int == |f| - HEADER_SIZE
    then Some(Recording(FromLe32(f[24..28]), FromLe16(f[22..24]), f[HEADER_SIZE..]))
    else None
  }

  /** What the file holds after a write of `bytes` at `offset`. */
  function Overwrite(f: seq<Byte>, offset: nat, bytes: seq<Byte>): (r: seq<Byte>)
    requires offset <= |f|
  {
    f[..offset] + bytes + if offset + |bytes| < |f| then f[offset + |bytes|..] else []
  }

  method PutLe16(b: array<Byte>, offset: nat, w: Word16)
    requires offset + 2 <= b.Length
    modifies b
    ensures b[..] == old(b[..offset]) + Le16(w) + old(b[offset + 2..])
  {
    b[offset], b[offset + 1] := w % 256, w / 256;
  }

  method PutBytes(b: array<Byte>, offset: nat, bytes: seq<Byte>)
    requires offset + |bytes| <= b.Length
    modifies b
    ensures b[..] == old(b[..offset]) + bytes + old(b[offset + |bytes|..])
  {
    forall i | 0 <= i < |bytes| {
      b[offset + i] := bytes[i];
    }
  }

  method WriteWavHeader(sampleRate: nat, channels: nat, totalDataBytes: nat) returns (header: seq<Byte>)
    requires channels < 1000
    ensures header == Header(sampleRate, channels, (36 + totalDataBytes) % WORD32, totalDataBytes % WORD32)
  {
    var b := new Byte[HEADER_SIZE];
    var dataSize: Word32 := totalDataBytes % WORD32;
    PutFront(b, sampleRate, channels, (36 + totalDataBytes) % WORD32);
    ghost var front := b[..40];
    PutBytes(b, 40, Le32(dataSize));
    header := b[..];
    assert header == front + Le32(dataSize);
  }

  /** Everything but the size of the data. */
  method PutFront(b: array<Byte>, sampleRate: nat, channels: nat, chunkSize: Word32)
    requires b.Length == HEADER_SIZE && channels < 1000
    modifies b
    ensures b[..40] == RIFF + Le32(chunkSize) + Format(sampleRate, channels)
  {
    PutRiff(b, chunkSize);
    PutFormatStart(b, channels);
    PutFormatEnd(b, sampleRate, channels);
    assert b[..8] == b[..24][..8];
    Join(b[..], RIFF + Le32(chunkSize), FormatStart(channels), FormatEnd(sampleRate, channels));
  }

  /** The front of a header is its three parts. */
  lemma Join(b: seq<Byte>, riff: seq<Byte>, start: seq<Byte>, end: seq<Byte>)
    requires |b| >= 40 && |riff| == 8 && |start| == 16 && |end| == 16
    requires b[..8] == riff && b[8..24] == start && b[24..40] == end
    ensures b[..40] == riff + (start + end)
  {
  }

  method PutRiff(b: array<Byte>, chunkSize: Word32)
    requires b.Length == HEADER_SIZE
    modifies b
    ensures b[..8] == RIFF + Le32(chunkSize)
  {
    PutBytes(b, 0, RIFF);
    PutBytes(b, 4, Le32(chunkSize));
  }

  method PutFormatStart(b: array<Byte>, channels: nat)
    requires b.Length == HEADER_SIZE && channels < 1000
    modifies b
    ensures b[..8] == old(b[..8]) && b[8..24] == FormatStart(channels)
  {
    PutTags(b);
    PutPcm(b, channels);
    assert b[8..24] == b[8..16] + b[16..24];
    assert b[8..16] == b[..16][8..16];
  }

  method PutTags(b: array<Byte>)
    requires b.Length == HEADER_SIZE
    modifies b
    ensures b[..8] == old(b[..8]) && b[8..16] == WAVE + FMT
  {
    PutBytes(b, 8, WAVE);
    PutBytes(b, 12, FMT);
  }

  method PutPcm(b: array<Byte>, channels: nat)
    requires b.Length == HEADER_SIZE && channels < 1000
    modifies b
    ensures b[..16] == old(b[..16]) && b[16..24] == Le32(16) + Le16(1) + Le16(channels)
  {
    PutBytes(b, 16, Le32(16));
    PutLe16(b, 20, 1);
    PutLe16(b, 22, channels);
  }

  method PutFormatEnd(b: array<Byte>, sampleRate: nat, channels: nat)
    requires b.Length == HEADER_SIZE && channels < 1000
    modifies b
    ensures b[..24] == old(b[..24]) && b[24..40] == FormatEnd(sampleRate, channels)
  {
    PutBytes(b, 24, Le32(sampleRate % WORD32));
    var byteRate := sampleRate * channels * 2;
    PutBytes(b, 28, Le32(byteRate % WORD32));
    PutLe16(b, 32, channels * 2);
    PutLe16(b, 34, 16);
    PutBytes(b, 36, DATA);
  }

  class FastWavWriter {
    const sampleRate: nat
    var file: seq<Byte>
    var position: nat
    var buffered: seq<Byte>
    var dataBytes: Word32
    ghost var written: seq<Byte>

    /** While open, the file is the empty recording's header and a prefix of the data. */
    ghost predicate Valid()
      reads this
    {
      && dataBytes == |written| % WORD32
      && position == |file|
      && file + buffered == Header(sampleRate, CHANNELS, 36, 0) + written
      && HEADER_SIZE <= |file|
    }

    constructor (sampleRate: nat)
      ensures Valid() && this.sampleRate == sampleRate && written == []
    {
      this.sampleRate := sampleRate;
      dataBytes, buffered, written := 0, [], [];
      new;
      file := WriteWavHeader(sampleRate, CHANNELS, 0);
      position := HEADER_SIZE;
    }

    /** `spill` is how much of its buffer the buffered writer passes on to the file at once. */
    method Write(p: seq<Byte>, spill: nat)
      requires Valid() && spill <= |buffered| + |p|
      modifies this
      ensures Valid() && written == old(written) + p
    {
      ghost var whole := file + buffered;
      buffered := buffered + p;
      file := file + buffered[..spill];
      position := |file|;
      buffered := buffered[spill..];
      Wrapped(|written|, |p|);
      dataBytes := (dataBytes + |p|) % WORD32;
      written := written + p;
      assert file + buffered == whole + p;
    }

    /** Flush, then patch the two size fields in place. */
    method Close()
      requires Valid()
      modifies this
      ensures file == Finished(sampleRate, old(written))
      ensures written == old(written)
    {
      ghost var data := written;
      file := file + buffered;
      buffered := [];
      Wrapped(|data|, 36);
      Patched(sampleRate, data, (36 + dataBytes) % WORD32, dataBytes);
      PatchSizes((36 + dataBytes) % WORD32, dataBytes);
    }

    method PatchSizes(chunkSize: Word32, dataSize: Word32)
      requires HEADER_SIZE <= |file|
      modifies this`file, this`position
      ensures file == Overwrite(Overwrite(old(file), 4, Le32(chunkSize)), 40, Le32(dataSize))
    {
      position := 4;
      WriteFile(Le32(chunkSize));
      position := 40;
      WriteFile(Le32(dataSize));
    }

    method WriteFile(bytes: seq<Byte>)
      requires position <= |file|
      modifies this`file, this`position
      ensures file == Overwrite(old(file), old(position), bytes) && position == old(position) + |bytes|
    {
      file := file[..position] + bytes + if position + |bytes| < |file| then file[position + |bytes|..] else [];
      position := position + |bytes|;
    }
  }

  lemma Wrapped(a: nat, b: nat)
    ensures (a % WORD32 + b) % WORD32 == (a + b) % WORD32
  {
    var k := a / WORD32;
    assert a == k * WORD32 + a % WORD32;
    var q := (a % WORD32 + b) / WORD32;
    assert a + b == (k + q) * WORD32 + (a % WORD32 + b) % WORD32;
  }

  /** The file of a closed recording. */
  function Finished(sampleRate: nat, data: seq<Byte>): (f: seq<Byte>) {
    Header(sampleRate, CHANNELS, (36 + |data|) % WORD32, |data| % WORD32) + data
  }

  /** Overwriting a field between two parts of a file replaces just that field. */
  lemma ReplaceField(before: seq<Byte>, field: seq<Byte>, after: seq<Byte>, bytes: seq<Byte>)
    requires |field| == |bytes|
    ensures Overwrite(before + field + after, |before|, bytes) == before + bytes + after
  {
  }

  /** Overwriting bytes 4..8 and 40..44 exchanges exactly the size fields. */
  lemma Patched(sampleRate: nat, data: seq<Byte>, chunkSize: Word32, dataSize: Word32)
    ensures (var f := Header(sampleRate, CHANNELS, 36, 0) + data;
             Overwrite(Overwrite(f, 4, Le32(chunkSize)), 40, Le32(dataSize)))
         == Header(sampleRate, CHANNELS, chunkSize, dataSize) + data
  {
    var format := Format(sampleRate, CHANNELS);
    var f := Header(sampleRate, CHANNELS, 36, 0) + data;
    assert f == RIFF + Le32(36) + (format + Le32(0) + data);
    ReplaceField(RIFF, Le32(36), format + Le32(0) + data, Le32(chunkSize));
    var g := Overwrite(f, 4, Le32(chunkSize));
    var front := RIFF + Le32(chunkSize) + format;
    assert g == front + Le32(0) + data;
    ReplaceField(front, Le32(0), data, Le32(dataSize));
  }

  lemma StartFields(channels: nat)
    requires channels < 1000
    ensures var s := FormatStart(channels);
            s[..4] == WAVE && s[4..8] == FMT && s[8..12] == Le32(16) && s[12..14] == Le16(1) && s[14..16] == Le16(channels)
  {
    var s := FormatStart(channels);
    assert s == WAVE + FMT + Le32(16) + (Le16(1) + Le16(channels));
  }

  lemma EndFields(sampleRate: nat, channels: nat)
    requires channels < 1000
    ensures var e := FormatEnd(sampleRate, channels);
            && e[..4] == Le32(sampleRate % WORD32) && e[4..8] == Le32(sampleRate * channels * 2 % WORD32)
            && e[8..10] == Le16(channels * 2) && e[10..12] == Le16(16) && e[12..16] == DATA
  {
    FiveParts(Le32(sampleRate % WORD32), Le32(sampleRate * channels * 2 % WORD32), Le16(channels * 2), Le16(16), DATA);
  }

  lemma FiveParts(a: seq<Byte>, b: seq<Byte>, c: seq<Byte>, d: seq<Byte>, e: seq<Byte>)
    requires |a| == 4 && |b| == 4 && |c| == 2 && |d| == 2 && |e| == 4
    ensures var f := a + b + c + d + e;
            |f| == 16 && f[..4] == a && f[4..8] == b && f[8..10] == c && f[10..12] == d && f[12..16] == e
  {
  }

  lemma Names()
    ensures Spells(RIFF, "RIFF") && Spells(WAVE, "WAVE") && Spells(FMT, "fmt ") && Spells(DATA, "data")
  {
  }

  /** The size fields hold the true sizes exactly when both fit 32 bits. */
  lemma SizesFit(n: nat)
    ensures (36 + n) % WORD32 == 36 + n && n % WORD32 == n <==> n < WORD32 - 36
    ensures (36 + n) % WORD32 == 36 + n ==> n % WORD32 == n
  {
  }

  /** A part of the middle of a file. */
  lemma Inside(f: seq<Byte>, part: seq<Byte>, at: nat, i: nat, j: nat)
    requires at + |part| <= |f| && f[at..at + |part|] == part && i <= j <= |part|
    ensures f[at + i..at + j] == part[i..j]
  {
    forall k | 0 <= k < j - i
      ensures f[at + i..at + j][k] == part[i..j][k]
    {
      assert f[at..at + |part|][i + k] == f[at + i + k];
    }
  }

  lemma StartRead(f: seq<Byte>, channels: nat)
    requires |f| >= HEADER_SIZE && channels < 1000 && f[8..24] == FormatStart(channels)
    ensures f[8..12] == WAVE && f[12..16] == FMT && f[16..20] == Le32(16) && f[20..22] == Le16(1) && f[22..24] == Le16(channels)
  {
    var s := FormatStart(channels);
    StartFields(channels);
    Inside(f, s, 8, 0, 4);
    Inside(f, s, 8, 4, 8);
    Inside(f, s, 8, 8, 12);
    Inside(f, s, 8, 12, 14);
    Inside(f, s, 8, 14, 16);
  }

  lemma EndRead(f: seq<Byte>, sampleRate: nat, channels: nat)
    requires |f| >= HEADER_SIZE && channels < 1000 && f[24..40] == FormatEnd(sampleRate, channels)
    ensures f[24..28] == Le32(sampleRate % WORD32) && f[28..32] == Le32(sampleRate * channels * 2 % WORD32)
    ensures f[32..34] == Le16(channels * 2) && f[34..36] == Le16(16) && f[36..40] == DATA
  {
    var e := FormatEnd(sampleRate, channels);
    EndFields(sampleRate, channels);
    Inside(f, e, 24, 0, 4);
    Inside(f, e, 24, 4, 8);
    Inside(f, e, 24, 8, 10);
    Inside(f, e, 24, 10, 12);
    Inside(f, e, 24, 12, 16);
  }

  lemma FormatIsPcm(f: seq<Byte>, sampleRate: Word32)
    requires |f| >= HEADER_SIZE && f[8..24] == FormatStart(CHANNELS) && f[24..40] == FormatEnd(sampleRate, CHANNELS)
    ensures PcmFormat(f) && FromLe32(f[24..28]) == sampleRate && FromLe16(f[22..24]) == CHANNELS
  {
    StartRead(f, CHANNELS);
    EndRead(f, sampleRate, CHANNELS);
    Names();
    assert sampleRate % WORD32 == sampleRate;
    assert sampleRate * CHANNELS * 2 == sampleRate * (CHANNELS * 2);
  }

  lemma Slices(a: seq<Byte>, b: seq<Byte>, c: seq<Byte>, d: seq<Byte>, e: seq<Byte>, g: seq<Byte>)
    requires |a| == 4 && |b| == 4 && |c| == 16 && |d| == 16 && |e| == 4
    ensures var f := a + b + (c + d) + e + g;
            && |f| == 44 + |g|
            && f[..4] == a && f[4..8] == b && f[8..24] == c && f[24..40] == d && f[40..44] == e && f[44..] == g
  {
  }

  /** A reader recovers rate, channels and data exactly when the sizes fit their 32-bit fields. */
  lemma ParseFinished(sampleRate: Word32, data: seq<Byte>)
    ensures Parse(Finished(sampleRate, data))
         == if |data| < WORD32 - 36 then Some(Recording(sampleRate, CHANNELS, data)) else None
  {
    var chunkSize, dataSize := (36 + |data|) % WORD32, |data| % WORD32;
    var f := Finished(sampleRate, data);
    Slices(RIFF, Le32(chunkSize), FormatStart(CHANNELS), FormatEnd(sampleRate, CHANNELS), Le32(dataSize), data);
    FormatIsPcm(f, sampleRate);
    Names();
    SizesFit(|data|);
    assert FromLe32(f[4..8]) == chunkSize && FromLe32(f[40..44]) == dataSize;
  }
}
