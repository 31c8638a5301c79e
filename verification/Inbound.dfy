/**
 What the agent and the recorder make of a call's audio (runAudioProcessor, AddClient and the
 recorder branch of the read pump, internal/call/audio_bridge.go), against what the phone means.
 */
module Inbound {
  import opened Bytes
  import opened Results
  import opened G711
  import opened Transcode
  import opened Streams

  // ---- what the agent is told ----

  /** The metadata message a new client gets first. */
  datatype Metadata = Metadata(codec: CodecName, sampleRate: nat, channels: nat, ptime: nat, dtmfEnabled: bool, bigEndian: bool)

  function MetadataOf(ws: CodecName, s: Stream): (m: Metadata) {
    Metadata(if ws.Pass? then s.codec.name else ws, s.codec.sampleRate, s.codec.channels, s.ptime, s.dtmfPayloadType != 0,
             ws.Pass? && s.codec.bigEndian)
  }

  /** The samples of audio in the format the agent was told. */
  function AgentSamples(m: Metadata, data: seq<Byte>): (xs: seq<Sample>)
    requires !m.codec.PCMU? && !m.codec.PCMA? ==> |data| % 2 == 0
  {
    match m.codec
    case PCMU => seq(|data|, i requires 0 <= i < |data| => MuLawDecode(data[i]))
    case PCMA => seq(|data|, i requires 0 <= i < |data| => ALawDecode(data[i]))
    case _ => if m.bigEndian then BigEndianSamples(data) else Transcode.Samples(data)
  }

  // ---- from the phone ----

  /** Decoding is needed unless the agent takes the phone's codec as it is. */
  predicate Transcoding(ws: CodecName, s: Stream) {
    !ws.Pass? && ws != s.codec.name
  }

  /** A packet as little-endian linear audio. */
  function Decoded(s: Stream, payload: seq<Byte>): (r: Result<seq<Byte>>) {
    match s.codec.name
    case L16 => if |payload| % 2 == 0 then Success(SwapBytes(payload)) else Failure
    case PCMU => Success(DecodeStream(MuLaw, payload))
    case PCMA => Success(DecodeStream(ALaw, payload))
    case _ => Failure
  }

  function ToAgent(ws: CodecName, s: Stream, payload: seq<Byte>): (r: Result<seq<Byte>>) {
    if Transcoding(ws, s) then Decoded(s, payload) else Success(payload)
  }

  method Decode(t: Tables, s: Stream, payload: seq<Byte>) returns (r: Result<seq<Byte>>)
    requires t.Valid()
    ensures r == Decoded(s, payload)
  {
    match s.codec.name {
      case L16 => r := DecodeL16BEToL16LE(Some(payload));
      case PCMU => r := t.DecodePCMUToL16(Some(payload));
      case PCMA => r := t.DecodePCMAToL16(Some(payload));
      case _ => r := Failure;
    }
  }

  /** What is broadcast to the agent, and what the recorder gets when there is one. */
  method ProcessPacket(t: Tables, ws: CodecName, s: Stream, recorder: bool, payload: seq<Byte>)
    returns (forAgent: Result<seq<Byte>>, recorded: Option<seq<Byte>>)
    requires t.Valid()
    ensures !recorder ==> forAgent == ToAgent(ws, s, payload) && recorded.None?
    ensures recorder && Decoded(s, payload).Success? ==>
              forAgent == ToAgent(ws, s, payload) && recorded == Some(Decoded(s, payload).value)
    ensures recorder && Decoded(s, payload).Failure? ==> forAgent.Failure? && recorded.None?
  {
    recorded := None;
    if recorder || Transcoding(ws, s) {
      var l16 := Decode(t, s, payload);
      if l16.Failure? {
        return Failure, None;
      }
      if recorder {
        recorded := Some(l16.value);
      }
      if Transcoding(ws, s) {
        return l16, recorded;
      }
    }
    forAgent := Success(payload);
  }

  /** A packet the phone can have sent. */
  predicate WellSized(s: Stream, payload: seq<Byte>) {
    s.codec.name.L16? ==> |payload| % 2 == 0
  }

  lemma SwappedSamples(payload: seq<Byte>)
    requires |payload| % 2 == 0
    ensures Transcode.Samples(SwapBytes(payload)) == BigEndianSamples(payload)
  {
    forall i | 0 <= i < |payload| / 2
      ensures Transcode.Samples(SwapBytes(payload))[i] == BigEndianSamples(payload)[i]
    {
      SwapReadsReversed(payload, i);
    }
  }

  /** Decoding a packet gives the phone's samples, for the recorder and for transcoding alike. */
  lemma DecodedIsHeard(ws: CodecName, s: Stream, payload: seq<Byte>)
    requires Negotiable(ws, s) && WellSized(s, payload)
    ensures var r := Decoded(s, payload);
            r.Success? && |r.value| % 2 == 0 && Transcode.Samples(r.value) == Heard(s, payload)
  {
    match s.codec.name
    case L16 => SwappedSamples(payload);
    case PCMU => LawSamples(MuLaw, payload);
    case PCMA => LawSamples(ALaw, payload);
  }

  lemma LawSamples(law: Law, payload: seq<Byte>)
    ensures var r := DecodeStream(law, payload);
            && |r| % 2 == 0 && |Transcode.Samples(r)| == |payload|
            && forall i :: 0 <= i < |payload| ==> Transcode.Samples(r)[i] == if law.MuLaw? then MuLawDecode(payload[i]) else ALawDecode(payload[i])
  {
    SamplesOfBytes(seq(|payload|, i requires 0 <= i < |payload| => Transcode.Decode(law, payload[i])));
  }

  /** The agent, reading as it was told, hears what the phone means by the payload. */
  ghost predicate AgentHears(ws: CodecName, s: Stream, payload: seq<Byte>) {
    var m, r := MetadataOf(ws, s), ToAgent(ws, s, payload);
    && r.Success? && (m.codec.L16? ==> |r.value| % 2 == 0) && (m.codec.L16? || m.codec.PCMU? || m.codec.PCMA?)
    && WellSized(s, payload)
    && AgentSamples(m, r.value) == Heard(s, payload)
  }

  lemma HearsUnlessLinear(ws: CodecName, s: Stream, payload: seq<Byte>)
    requires Negotiable(ws, s) && WellSized(s, payload) && !(ws.L16? && s.codec.name.L16?)
    ensures AgentHears(ws, s, payload)
  {
    if Transcoding(ws, s) {
      DecodedIsHeard(ws, s, payload);
    }
  }

  /** One sample, 1 in network order. */
  lemma LinearMisheard(s: Stream)
    requires Negotiable(L16, s) && s.codec.name.L16?
    ensures !AgentHears(L16, s, [0, 1])
  {
    assert ToAgent(L16, s, [0, 1]) == Success([0, 1]);
    assert AgentSamples(MetadataOf(L16, s), [0, 1])[0] == 256 && Heard(s, [0, 1])[0] == 1;
  }

  /**
   For every stream negotiation can produce, an agent that goes by its metadata hears every
   packet of the phone as it was meant, if and only if it is not a linear agent on a linear call:
   there the samples stay in network order, while the metadata says little-endian.
   */
  lemma AgentHearsExactly(ws: CodecName, s: Stream)
    requires Negotiable(ws, s)
    ensures (forall payload: seq<Byte> :: WellSized(s, payload) ==> AgentHears(ws, s, payload))
       <==> !(ws.L16? && s.codec.name.L16?)
  {
    if ws.L16? && s.codec.name.L16? {
      LinearMisheard(s);
      assert WellSized(s, [0, 1]);
    } else {
      forall payload: seq<Byte> | WellSized(s, payload)
        ensures AgentHears(ws, s, payload)
      {
        HearsUnlessLinear(ws, s, payload);
      }
    }
  }

  /** The other way round, what an agent in the phone's own format says is what the phone hears. */
  lemma PhoneHearsAgent(ws: CodecName, s: Stream, tick: seq<Byte>)
    requires Negotiable(ws, s) && !ws.L16? && WellSized(s, tick)
    ensures var r := EncodePayload(OutboundEncoding(ws, s), tick);
            r == Success(tick) && AgentSamples(MetadataOf(ws, s), tick) == Heard(s, tick)
  {
    PassedThrough(ws, s, tick);
  }

  // ---- from the agent to the recorder ----

  function RecorderPayload(ws: CodecName, s: Stream, data: seq<Byte>): (r: Option<seq<Byte>>) {
    match ActualWsCodec(ws, s)
    case PCMU => Some(DecodeStream(MuLaw, data))
    case PCMA => Some(DecodeStream(ALaw, data))
    case L16 =>
      if ws.Pass? && s.codec.bigEndian then (if |data| % 2 == 0 then Some(SwapBytes(data)) else None) else Some(data)
    case _ => Some(data)
  }

  method RecordAgent(t: Tables, ws: CodecName, s: Stream, data: seq<Byte>) returns (r: Option<seq<Byte>>)
    requires t.Valid()
    ensures r == RecorderPayload(ws, s, data)
  {
    var converted: Result<seq<Byte>> := Success(data);
    match ActualWsCodec(ws, s) {
      case PCMU => converted := t.DecodePCMUToL16(Some(data));
      case PCMA => converted := t.DecodePCMAToL16(Some(data));
      case L16 =>
        if ws.Pass? && s.codec.bigEndian {
          converted := DecodeL16BEToL16LE(Some(data));
        }
      case _ =>
    }
    r := if converted.Success? then Some(converted.value) else None;
  }

  /** The recorder gets the agent's samples little-endian, whatever format the agent was told to speak. */
  lemma AgentIsRecorded(ws: CodecName, s: Stream, data: seq<Byte>)
    requires Negotiable(ws, s)
    requires MetadataOf(ws, s).codec.L16? ==> |data| % 2 == 0
    ensures var r := RecorderPayload(ws, s, data);
            r.Some? && |r.value| % 2 == 0 && Transcode.Samples(r.value) == AgentSamples(MetadataOf(ws, s), data)
  {
    match ActualWsCodec(ws, s)
    case PCMU => LawSamples(MuLaw, data);
    case PCMA => LawSamples(ALaw, data);
    case L16 => if ws.Pass? { SwappedSamples(data); }
  }
}
