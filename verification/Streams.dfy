/**
 Codecs, streams and the outbound encoding plan (internal/audio/codec.go and the
 first half of StartWriter in internal/rtp/rtp_handler.go).
 */
module Streams {
  import opened Bytes
  import opened Results
  import opened G711
  import opened Transcode

  datatype CodecName = PCMU | PCMA | L16 | Opus | Pass | Other(text: string)

  const PT_PCMU: Byte := 0
  const PT_PCMA: Byte := 8

  datatype Codec = Codec(
    name: CodecName, bytesPerSample: nat, sampleRate: nat, channels: nat,
    payloadType: Byte, bigEndian: bool, signed: bool)

  datatype Stream = Stream(codec: Codec, ptime: nat, dtmfPayloadType: Byte)

  predicate IsValidSampleRate(rate: int) {
    rate in {8000, 16000, 24000, 32000, 44100, 48000}
  }

  predicate IsValidChannels(channels: int) {
    channels == 1 || channels == 2
  }

  function NewCodecG711MuLaw(): (c: Codec) {
    Codec(PCMU, 1, 8000, 1, PT_PCMU, false, false)
  }

  function NewCodecG711ALaw(): (c: Codec) {
    Codec(PCMA, 1, 8000, 1, PT_PCMA, false, false)
  }

  function NewCodecL16(pt: Byte, rate: int, channels: int, bigEndian: bool, signed: bool): (r: Result<Codec>) {
    if !IsValidSampleRate(rate) || !IsValidChannels(channels) then Failure
    else Success(Codec(L16, 2, rate, channels, pt, bigEndian, signed))
  }

  /** Samples per channel in one packet, before narrowing to 32 bits. */
  function Samples(s: Stream): (n: nat) {
    s.codec.sampleRate * s.ptime / 1000
  }

  function SamplesPerPacket(s: Stream): (n: Word32) {
    Samples(s) % WORD32
  }

  function PacketTimeInBytes(s: Stream): (n: nat) {
    Samples(s) * s.codec.bytesPerSample * s.codec.channels
  }

  // ---- the writer's plan ----

  datatype Encoding = Keep | Swap | Compress(law: Law) | Unsupported

  function ActualWsCodec(ws: CodecName, s: Stream): (n: CodecName) {
    if ws.Pass? then s.codec.name else ws
  }

  function BytesPerTick(ws: CodecName, s: Stream): (n: nat) {
    var actual := ActualWsCodec(ws, s);
    var bytesPerSample := if actual.PCMU? || actual.PCMA? then 1 else 2;
    var channels := if s.codec.channels == 0 then 1 else s.codec.channels;
    var ptime := if s.ptime == 0 then 20 else s.ptime;
    var sampleRate := if s.codec.sampleRate == 0 then 8000 else s.codec.sampleRate;
    var n := sampleRate * ptime / 1000 * bytesPerSample * channels;
    if n == 0 then SamplesPerPacket(s) * bytesPerSample else n
  }

  function OutboundEncoding(ws: CodecName, s: Stream): (e: Encoding) {
    if ActualWsCodec(ws, s) == s.codec.name then
      if s.codec.name.L16? && !ws.Pass? && s.codec.bigEndian then Swap else Keep
    else
      match s.codec.name
      case PCMU => Compress(MuLaw)
      case PCMA => Compress(ALaw)
      case L16 => if s.codec.bigEndian then Swap else Keep
      case _ => Unsupported
  }

  function EncodePayload(e: Encoding, l16: seq<Byte>): (r: Result<seq<Byte>>) {
    match e
    case Keep => Success(l16)
    case Swap => if |l16| % 2 == 0 then Success(SwapBytes(l16)) else Failure
    case Compress(law) => EncodeStream(law, l16)
    case Unsupported => Failure
  }

  method EncodeOutboundPayload(t: Tables, l16: seq<Byte>, ws: CodecName, s: Stream) returns (r: Result<seq<Byte>>)
    requires t.Valid()
    ensures r == EncodePayload(OutboundEncoding(ws, s), l16)
  {
    var actual := ActualWsCodec(ws, s);
    if actual == s.codec.name {
      if s.codec.name == L16 {
        if ws == Pass {
          return Success(l16);
        } else if s.codec.bigEndian {
          r := DecodeL16BEToL16LE(Some(l16));
          return;
        } else {
          return Success(l16);
        }
      }
      return Success(l16);
    }
    match s.codec.name {
      case PCMU => r := t.EncodeL16ToPCMU(l16);
      case PCMA => r := t.EncodeL16ToPCMA(l16);
      case L16 =>
        if s.codec.bigEndian {
          r := DecodeL16BEToL16LE(Some(l16));
        } else {
          r := Success(l16);
        }
      case _ => r := Failure;
    }
  }

  // ---- what negotiation can produce ----

  predicate L16Stream(s: Stream) {
    && IsValidSampleRate(s.codec.sampleRate) && IsValidChannels(s.codec.channels)
    && s.codec == Codec(L16, 2, s.codec.sampleRate, s.codec.channels, s.codec.payloadType, true, true)
  }

  /** The streams an accepted offer can lead to under a WebSocket codec setting. */
  predicate Negotiable(ws: CodecName, s: Stream) {
    && s.ptime > 0
    && match ws
       case Pass => L16Stream(s) || s.codec == NewCodecG711MuLaw() || s.codec == NewCodecG711ALaw()
       case L16 => L16Stream(s) || s.codec == NewCodecG711MuLaw() || s.codec == NewCodecG711ALaw()
       case PCMU => s.codec == NewCodecG711MuLaw()
       case PCMA => s.codec == NewCodecG711ALaw()
       case _ => false
  }

  lemma EnoughSamples(rate: nat, ptime: nat)
    requires rate >= 8000 && ptime > 0
    ensures rate * ptime / 1000 >= 8
  {
    assert rate * ptime >= 8000 * ptime >= 8000;
  }

  lemma ThreeFactors(n: nat)
    ensures n * 1 * 1 == n && n * 2 * 1 == n * 2 && n * 2 * 2 == n * 4
  {
  }

  /** Neither fallback for missing settings nor the one for a zero tick is taken. */
  lemma TickIsProduct(ws: CodecName, s: Stream)
    requires Negotiable(ws, s) && Samples(s) >= 8
    ensures var actual := ActualWsCodec(ws, s);
            BytesPerTick(ws, s) == Samples(s) * (if actual.PCMU? || actual.PCMA? then 1 else 2) * s.codec.channels
  {
    ThreeFactors(Samples(s));
  }

  lemma TickSize(ws: CodecName, s: Stream)
    requires Negotiable(ws, s)
    ensures Samples(s) >= 8
    ensures BytesPerTick(ws, s) > 0
    ensures BytesPerTick(ws, s) == PacketTimeInBytes(s) * if OutboundEncoding(ws, s).Compress? then 2 else 1
    ensures s.codec.name.L16? ==> PacketTimeInBytes(s) % 2 == 0
  {
    EnoughSamples(s.codec.sampleRate, s.ptime);
    TickIsProduct(ws, s);
    PacketIsProduct(ws, s);
    ThreeFactors(Samples(s));
    EvenProducts(Samples(s));
  }

  lemma EvenProducts(n: nat)
    ensures n * 2 % 2 == 0 && n * 4 % 2 == 0
  {
    DivisionUnique(n * 2, n, 0, 2);
    DivisionUnique(n * 4, 2 * n, 0, 2);
  }

  lemma PacketIsProduct(ws: CodecName, s: Stream)
    requires Negotiable(ws, s)
    ensures PacketTimeInBytes(s) ==
            if !s.codec.name.L16? then Samples(s) else if s.codec.channels == 1 then Samples(s) * 2 else Samples(s) * 4
  {
    ThreeFactors(Samples(s));
  }

  /** Whole units divide back into their number. */
  lemma UnitsDivide(n: nat, samples: nat, unit: nat)
    requires unit > 0 && n == samples * unit
    ensures n / unit == samples && n % unit == 0
  {
    DivisionUnique(n, samples, 0, unit);
  }

  lemma UnitOf(ws: CodecName, s: Stream)
    requires Negotiable(ws, s)
    ensures var unit := s.codec.bytesPerSample * s.codec.channels;
            unit in {1, 2, 4} && PacketTimeInBytes(s) == Samples(s) * unit
  {
    ThreeFactors(Samples(s));
  }

  /** A full tick encodes to a packet's worth of bytes. */
  lemma TickEncodes(ws: CodecName, s: Stream, tick: seq<Byte>)
    requires Negotiable(ws, s) && |tick| == BytesPerTick(ws, s)
    ensures var r := EncodePayload(OutboundEncoding(ws, s), tick);
            r.Success? && |r.value| == PacketTimeInBytes(s)
  {
    TickSize(ws, s);
  }

  /**
   For every stream negotiation can produce, a full tick of agent audio always encodes, the
   payload has the packet's exact size, and the samples it carries per channel are the
   timestamp increment up to the 32-bit width of that field.
   */
  lemma OutboundIsExact(ws: CodecName, s: Stream, tick: seq<Byte>)
    requires Negotiable(ws, s) && |tick| == BytesPerTick(ws, s)
    ensures var r := EncodePayload(OutboundEncoding(ws, s), tick);
            && r.Success?
            && |r.value| == PacketTimeInBytes(s)
            && |r.value| / (s.codec.bytesPerSample * s.codec.channels) % WORD32 == SamplesPerPacket(s)
            && |r.value| % (s.codec.bytesPerSample * s.codec.channels) == 0
  {
    TickEncodes(ws, s, tick);
    UnitOf(ws, s);
    UnitsDivide(PacketTimeInBytes(s), Samples(s), s.codec.bytesPerSample * s.codec.channels);
  }

  /** A packet holds the samples of its time, rounded down to whole ones; G.711 runs at 8000 Hz on one channel. */
  lemma PacketTime(ws: CodecName, s: Stream)
    requires Negotiable(ws, s)
    ensures 1000 * Samples(s) <= s.codec.sampleRate * s.ptime < 1000 * (Samples(s) + 1)
    ensures SamplesPerPacket(s) < WORD32 && (Samples(s) - SamplesPerPacket(s)) % WORD32 == 0
    ensures !s.codec.name.L16? ==>
              && s.codec.payloadType == (if s.codec.name.PCMU? then 0 else 8)
              && s.codec.sampleRate == 8000 && s.codec.channels == 1 && s.codec.bytesPerSample == 1
    ensures s.codec.name.L16? ==> s.codec.bytesPerSample == 2
  {
    var n := s.codec.sampleRate * s.ptime;
    assert n == 1000 * (n / 1000) + n % 1000;
  }

  // ---- what the phone hears ----

  /** Two bytes a sample, most significant first. */
  function BigEndianSamples(b: seq<Byte>): (xs: seq<Sample>)
    requires |b| % 2 == 0
    ensures |xs| == |b| / 2
  {
    seq(|b| / 2, i requires 0 <= i < |b| / 2 => ToSigned(FromBe16([b[2 * i], b[2 * i + 1]])))
  }

  /**
   A receiver goes by what the answer says: L16 in network order where it was mapped, mu-law
   under the static payload type 0 and A-law under 8 (sections 4.5 and 6 of RFC 3551).
   */
  function Heard(s: Stream, payload: seq<Byte>): (xs: seq<Sample>)
    requires s.codec.name.L16? ==> |payload| % 2 == 0
  {
    if s.codec.name.L16? then BigEndianSamples(payload)
    else if s.codec.payloadType == 0 then seq(|payload|, i requires 0 <= i < |payload| => MuLawDecode(payload[i]))
    else seq(|payload|, i requires 0 <= i < |payload| => ALawDecode(payload[i]))
  }

  /** How far a heard sample may be from the agent's. */
  predicate CloseEnough(s: Stream, x: Sample, y: Sample) {
    if s.codec.name.L16? then y == x
    else if s.codec.payloadType == 0 then 32 * Magnitude(y - x) <= Magnitude(x) + 132
    else Magnitude(y - x) <= Max(8, Magnitude(x) / 32)
  }

  /** Which law a G.711 stream is encoded with follows from its payload type. */
  lemma EncodedByPayloadType(s: Stream, tick: seq<Byte>)
    requires Negotiable(L16, s) && !s.codec.name.L16? && |tick| % 2 == 0
    ensures s.codec.payloadType == 0 || s.codec.payloadType == 8
    ensures var r, xs := EncodePayload(OutboundEncoding(L16, s), tick), Transcode.Samples(tick);
            && r.Success? && |r.value| == |xs|
            && forall i :: 0 <= i < |xs| ==>
                 r.value[i] == if s.codec.payloadType == 0 then MuLawEncode(xs[i]) else ALawEncode(xs[i])
  {
  }

  lemma LinearHeard(s: Stream, tick: seq<Byte>)
    requires Negotiable(L16, s) && s.codec.name.L16? && |tick| % 2 == 0
    ensures var r := EncodePayload(OutboundEncoding(L16, s), tick);
            r.Success? && |r.value| == |tick| && BigEndianSamples(r.value) == Transcode.Samples(tick)
  {
    forall i | 0 <= i < |tick| / 2
      ensures BigEndianSamples(SwapBytes(tick))[i] == Transcode.Samples(tick)[i]
    {
      SwapReadsReversed(tick, i);
    }
  }

  /**
   For every stream negotiation can produce, a phone that goes by the answer hears every sample
   a linear agent sent, in order, exactly over L16 and within the bound of its law over G.711.
   */
  lemma PhoneHears(s: Stream, tick: seq<Byte>)
    requires Negotiable(L16, s) && |tick| % 2 == 0
    ensures var r := EncodePayload(OutboundEncoding(L16, s), tick);
            && r.Success? && (s.codec.name.L16? ==> |r.value| % 2 == 0)
            && var xs, ys := Transcode.Samples(tick), Heard(s, r.value);
            && |ys| == |xs|
            && forall i :: 0 <= i < |xs| ==> CloseEnough(s, xs[i], ys[i])
  {
    if s.codec.name.L16? {
      LinearHeard(s, tick);
    } else {
      var xs := Transcode.Samples(tick);
      EncodedByPayloadType(s, tick);
      forall i | 0 <= i < |xs|
        ensures CloseEnough(s, xs[i], Heard(s, EncodePayload(OutboundEncoding(L16, s), tick).value)[i])
      {
        if s.codec.payloadType == 0 { MuLawError(xs[i]); } else { ALawError(xs[i]); }
      }
    }
  }

  /** An agent that speaks the phone's own codec, and one under PASS, is passed through byte for byte. */
  lemma PassedThrough(ws: CodecName, s: Stream, tick: seq<Byte>)
    requires Negotiable(ws, s) && !ws.L16?
    ensures EncodePayload(OutboundEncoding(ws, s), tick) == Success(tick)
  {
  }

  lemma LinearEncoding(ws: CodecName, s: Stream)
    requires Negotiable(ws, s) && s.codec.name.L16?
    ensures OutboundEncoding(ws, s) == if ws.Pass? then Keep else Swap
  {
  }

  lemma EvenTick(ws: CodecName, s: Stream)
    requires Negotiable(ws, s) && s.codec.name.L16?
    ensures BytesPerTick(ws, s) % 2 == 0
  {
    TickSize(ws, s);
    LinearEncoding(ws, s);
  }

  lemma LinearLossless(ws: CodecName, s: Stream, l16: seq<Byte>)
    requires Negotiable(ws, s) && s.codec.name.L16? && |l16| % 2 == 0
    ensures var r := EncodePayload(OutboundEncoding(ws, s), l16);
            && r.Success? && |r.value| % 2 == 0
            && (if ws.Pass? then r.value else SwapBytes(r.value)) == l16
  {
    LinearEncoding(ws, s);
    SwapBytesInvolution(l16);
  }

  /** An L16 receiver recovers the agent's own samples: unchanged under PASS, byte-swapped otherwise. */
  lemma LinearOutputIsLossless(ws: CodecName, s: Stream, tick: seq<Byte>)
    requires Negotiable(ws, s) && s.codec.name.L16? && |tick| == BytesPerTick(ws, s)
    ensures var r := EncodePayload(OutboundEncoding(ws, s), tick);
            && r.Success? && |r.value| % 2 == 0
            && (if ws.Pass? then r.value else SwapBytes(r.value)) == tick
  {
    EvenTick(ws, s);
    LinearLossless(ws, s, tick);
  }
}
