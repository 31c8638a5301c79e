/**
 The writer's event loop itself: one method per `select` case over the ring, the reused
 header array and the wrapping counters, each proved against the run semantics of
 module Writer and against buffer custody.
 */
module WriterLoop {
  import opened Bytes
  import opened Results
  import opened Transcode
  import opened Streams
  import opened Writer
  import opened RingBuffer
  import opened Pool
  import Dtmf
  import Rtp

  /** The bytes of the n-th packet sent. */
  function WireBytes(cfg: Config, o: Output, n: nat): (r: seq<Byte>)
    requires !o.Lost?
  {
    var typeByte := if o.Tone? then cfg.stream.dtmfPayloadType else cfg.stream.codec.payloadType;
    Rtp.Header(typeByte, (cfg.seq0 + n) % WORD16, o.clock % WORD32, cfg.ssrc) + o.payload
  }

  /** A receiver of the n-th packet reads the sender's number, clock and payload. */
  lemma WireBytesParse(cfg: Config, o: Output, n: nat)
    requires !o.Lost?
    ensures var p := Rtp.Parse(WireBytes(cfg, o, n));
            && p.Some?
            && p.value.seqNum == (cfg.seq0 + n) % WORD16
            && p.value.timestamp == o.clock % WORD32
            && p.value.payload == o.payload && p.value.ssrc == cfg.ssrc
            && p.value.payloadType == (if o.Tone? then cfg.stream.dtmfPayloadType else cfg.stream.codec.payloadType) % 128
  {
    var typeByte := if o.Tone? then cfg.stream.dtmfPayloadType else cfg.stream.codec.payloadType;
    Rtp.ParseHeader(typeByte, (cfg.seq0 + n) % WORD16, o.clock % WORD32, cfg.ssrc, o.payload);
  }

  /** The bytes of these packets, numbered from one. */
  function Wire(cfg: Config, packets: seq<Output>): (r: seq<seq<Byte>>)
    requires forall i :: 0 <= i < |packets| ==> !packets[i].Lost?
    ensures |r| == |packets|
  {
    seq(|packets|, i requires 0 <= i < |packets| => WireBytes(cfg, packets[i], i + 1))
  }

  lemma WireSnoc(cfg: Config, packets: seq<Output>, o: Output)
    requires !o.Lost? && forall i :: 0 <= i < |packets| ==> !packets[i].Lost?
    ensures Wire(cfg, packets + [o]) == Wire(cfg, packets) + [WireBytes(cfg, o, |packets| + 1)]
  {
  }

  /** The run these inputs lead to. */
  ghost predicate Reached(cfg: Config, inputs: seq<Input>, h: History) {
    (forall i :: i in inputs ==> Admissible(cfg, i)) && h == Run(cfg, inputs)
  }

  lemma StartReached(cfg: Config)
    ensures Reached(cfg, [], Start(cfg)) && Wire(cfg, Packets(Start(cfg).outputs)) == []
  {
  }

  lemma ReachedSnoc(cfg: Config, inputs: seq<Input>, h: History, i: Input)
    requires Reached(cfg, inputs, h) && Consistent(cfg, h) && Admissible(cfg, i)
    ensures Reached(cfg, inputs + [i], Next(cfg, h, i))
  {
    assert (inputs + [i])[..|inputs|] == inputs;
  }

  /** Wrapping after every addition is wrapping once at the end. */
  lemma Carry(a: nat, b: nat, m: nat)
    requires m > 0
    ensures (a % m + b) % m == (a + b) % m
  {
    var q, r := (a % m + b) / m, (a % m + b) % m;
    assert a + b == a / m * m + (q * m + r) == (a / m + q) * m + r;
    DivisionUnique(a + b, a / m + q, r, m);
  }

  /** What a tick that sends a tone does to the run, in the terms of the wrapped counters. */
  lemma ToneFacts(cfg: Config, h: History)
    requires Consistent(cfg, h) && h.pending != []
    ensures var r, n := SendTone(cfg, h), |Packets(h.outputs)|;
            && Consistent(cfg, r)
            && r.pending == h.pending[1..]
            && r.queue == h.queue[Skipped(cfg, h.queue)..]
            && r.eventClock == h.eventClock
            && |r.outputs| > 0 && r.outputs[|r.outputs| - 1].Tone?
            && Packets(r.outputs) == Packets(h.outputs) + [r.outputs[|r.outputs| - 1]]
            && ((cfg.seq0 + n) % WORD16 + 1) % WORD16 == (cfg.seq0 + (n + 1)) % WORD16
            && (h.clock % WORD32 + cfg.increment) % WORD32 == r.clock % WORD32
            && r.outputs[|r.outputs| - 1].clock == h.eventClock
            && r.outputs[|r.outputs| - 1].payload == h.pending[0]
  {
    var r := SendTone(cfg, h);
    PacketsSnoc(h.outputs, r.outputs[|h.outputs|]);
    Carry(cfg.seq0 + |Packets(h.outputs)|, 1, WORD16);
    Carry(h.clock, cfg.increment, WORD32);
  }

  /** What a tone adds to the packets sent. */
  lemma ToneWire(cfg: Config, h: History)
    requires Consistent(cfg, h) && h.pending != []
    ensures var r := SendTone(cfg, h);
            && OnTick(cfg, h) == r
            && Wire(cfg, Packets(r.outputs)) == Wire(cfg, Packets(h.outputs)) +
               [Rtp.Header(cfg.stream.dtmfPayloadType, (cfg.seq0 + |Packets(r.outputs)|) % WORD16, r.eventClock % WORD32, cfg.ssrc) + h.pending[0]]
  {
    var r := SendTone(cfg, h);
    ToneFacts(cfg, h);
    WireSnoc(cfg, Packets(h.outputs), r.outputs[|r.outputs| - 1]);
  }

  /** The same for a tick of audio, given what the encoder made of it. */
  lemma AudioFacts(cfg: Config, h: History, encoded: Result<seq<Byte>>)
    requires Consistent(cfg, h) && h.pending == []
    ensures var r, n := SendAudio(cfg, h, encoded), |Packets(h.outputs)|;
            && Consistent(cfg, r)
            && r.pending == [] && r.eventClock == h.eventClock
            && r.queue == h.queue[Min(|h.queue|, cfg.tickBytes)..]
            && match encoded
               case Failure => Packets(r.outputs) == Packets(h.outputs) && r.clock == h.clock
               case Success(payload) =>
                 && |r.outputs| > 0 && r.outputs[|r.outputs| - 1].Audio?
                 && Packets(r.outputs) == Packets(h.outputs) + [r.outputs[|r.outputs| - 1]]
                 && ((cfg.seq0 + n) % WORD16 + 1) % WORD16 == (cfg.seq0 + (n + 1)) % WORD16
                 && (h.clock % WORD32 + cfg.increment) % WORD32 == r.clock % WORD32
                 && WireBytes(cfg, r.outputs[|r.outputs| - 1], n + 1)
                 == Rtp.Header(cfg.stream.codec.payloadType, (cfg.seq0 + (n + 1)) % WORD16, r.clock % WORD32, cfg.ssrc) + payload
  {
    PacketsSnoc(h.outputs, SendAudio(cfg, h, encoded).outputs[|h.outputs|]);
    Carry(cfg.seq0 + |Packets(h.outputs)|, 1, WORD16);
    Carry(h.clock, cfg.increment, WORD32);
  }

  /** What a tick of audio adds to the packets sent. */
  lemma AudioWire(cfg: Config, h: History, encoded: Result<seq<Byte>>)
    requires Consistent(cfg, h) && h.pending == []
    ensures var r := SendAudio(cfg, h, encoded);
            Wire(cfg, Packets(r.outputs)) == Wire(cfg, Packets(h.outputs)) +
            match encoded
            case Failure => []
            case Success(payload) =>
              [Rtp.Header(cfg.stream.codec.payloadType, (cfg.seq0 + |Packets(r.outputs)|) % WORD16, r.clock % WORD32, cfg.ssrc) + payload]
  {
    var r := SendAudio(cfg, h, encoded);
    AudioFacts(cfg, h, encoded);
    if encoded.Success? {
      WireSnoc(cfg, Packets(h.outputs), r.outputs[|r.outputs| - 1]);
    } else {
      assert Wire(cfg, Packets(h.outputs)) + [] == Wire(cfg, Packets(h.outputs));
    }
  }

  method PutBe16(b: array<Byte>, offset: nat, w: Word16)
    requires offset + 2 <= b.Length
    modifies b
    ensures b[..] == old(b[..offset]) + Be16(w) + old(b[offset + 2..])
  {
    b[offset], b[offset + 1] := w / 256, w % 256;
  }

  lemma FourParts(b: seq<Byte>, i: nat, j: nat, k: nat)
    requires i <= j <= k <= |b|
    ensures b == b[..i] + b[i..j] + b[j..k] + b[k..]
  {
  }

  method PutBe32(b: array<Byte>, offset: nat, w: Word32)
    requires offset + 4 <= b.Length
    modifies b
    ensures b[..] == old(b[..offset]) + Be32(w) + old(b[offset + 4..])
  {
    var v := Be32(w);
    forall i | 0 <= i < 4 {
      b[offset + i] := v[i];
    }
  }

  method NewHeader(payloadType: Byte, ssrc: Word32) returns (header: array<Byte>)
    ensures fresh(header) && header.Length == Rtp.HEADER_SIZE
    ensures header[0] == Rtp.VERSION_BYTE && header[1] == payloadType && header[8..] == Be32(ssrc)
  {
    header := new Byte[Rtp.HEADER_SIZE](i => 0);
    header[0] := Rtp.VERSION_BYTE;
    header[1] := payloadType;
    PutBe32(header, 8, ssrc);
  }

  /** Distinct buffers that contain these payloads. */
  ghost predicate Holds(bs: seq<array<Byte>>, payloads: seq<seq<Byte>>)
    reads bs
  {
    && Distinct(bs)
    && |bs| == |payloads|
    && forall i :: 0 <= i < |bs| ==> bs[i][..] == payloads[i]
  }

  /** The packets written for a tick: one or none. */
  function Sent(wire: Option<seq<Byte>>): (r: seq<seq<Byte>>) {
    if wire.Some? then [wire.value] else []
  }

  class RtpWriter {
    const cfg: Config
    const ring: Ring
    const header: array<Byte>
    const tables: Tables
    const generator: Dtmf.Generator
    const custody: Custody
    var pendingDTMF: seq<array<Byte>>
    var seqNum: Word16
    var timestamp: Word32
    var currentDTMFTimestamp: Word32
    ghost var history: History
    /** Everything that reached the loop, and every packet it wrote. */
    ghost var inputs: seq<Input>
    ghost var written: seq<seq<Byte>>

    /** Between two cases of the loop the writer holds its pending payloads and nothing else. */
    ghost predicate Valid()
      reads this, ring, ring.buf, header, custody, pendingDTMF
      reads tables, tables.muLawToPcm, tables.aLawToPcm, tables.pcmToMuLaw, tables.pcmToALaw
    {
      InStep() && custody.held == Elements(pendingDTMF) && Traced()
    }

    /** The concrete state is that of the history. */
    ghost predicate InStep()
      reads this`pendingDTMF, this`seqNum, this`timestamp, this`currentDTMFTimestamp, this`history
      reads ring, ring.buf, header, pendingDTMF
      reads tables, tables.muLawToPcm, tables.aLawToPcm, tables.pcmToMuLaw, tables.pcmToALaw
    {
      && Consistent(cfg, history)
      && RingMatches(history.queue)
      && Holds(pendingDTMF, history.pending)
      && CountersMatch(|Packets(history.outputs)|, history.clock, history.eventClock)
      && HeaderReady()
      && Separate()
      && tables.Valid()
    }

    /** The history is the run of the inputs, and the packets written are those of the run. */
    ghost predicate Traced()
      reads this`history, this`inputs, this`written
    {
      TracedFrom(history)
    }

    ghost predicate TracedFrom(h: History)
      reads this`inputs, this`written
    {
      Reached(cfg, inputs, h) && written == Wire(cfg, Packets(h.outputs))
    }

    ghost predicate RingMatches(queue: seq<Byte>)
      reads ring, ring.buf
    {
      0 < cfg.tickBytes && ring.Valid() && ring.buf.Length == Capacity(cfg) && ring.Queue() == queue
    }

    ghost predicate CountersMatch(packets: nat, clock: nat, eventClock: nat)
      reads this`seqNum, this`timestamp, this`currentDTMFTimestamp
    {
      && seqNum == (cfg.seq0 + packets) % WORD16
      && timestamp == clock % WORD32
      && currentDTMFTimestamp == eventClock % WORD32
    }

    /** A buffer that is none of the writer's own arrays. */
    ghost predicate Apart(b: array<Byte>) {
      b != ring.buf && b != header && b !in {tables.pcmToMuLaw, tables.pcmToALaw}
    }

    ghost predicate Separate()
      reads this`pendingDTMF
    {
      && generator.sampleRate == cfg.stream.codec.sampleRate && generator.ptime == GeneratorPtime(cfg)
      && header != ring.buf
      && header !in {tables.pcmToMuLaw, tables.pcmToALaw}
      && ring.buf !in {tables.pcmToMuLaw, tables.pcmToALaw}
      && ring.buf !in pendingDTMF && header !in pendingDTMF
      && tables.pcmToMuLaw !in pendingDTMF && tables.pcmToALaw !in pendingDTMF
    }

    /** Between events the header carries the version, the audio payload type and the source. */
    ghost predicate HeaderReady()
      reads header
    {
      && header.Length == Rtp.HEADER_SIZE
      && header[0] == Rtp.VERSION_BYTE
      && header[1] == cfg.stream.codec.payloadType
      && header[8..] == Be32(cfg.ssrc)
    }

    constructor (stream: Stream, ws: CodecName, seq0: Word16, clock0: Word32, ssrc: Word32, tables: Tables)
      requires 0 < BytesPerTick(ws, stream) && tables.Valid()
      ensures Valid() && cfg == Configure(stream, ws, seq0, clock0, ssrc) && inputs == [] && written == []
      ensures fresh(ring) && fresh(ring.buf) && fresh(header) && fresh(custody)
    {
      var config := Configure(stream, ws, seq0, clock0, ssrc);
      this.cfg := config;
      this.tables := tables;
      ring := new Ring(Capacity(config));
      var h := NewHeader(stream.codec.payloadType, ssrc);
      header := h;
      generator := new Dtmf.Generator(stream.codec.sampleRate, stream.ptime);
      custody := new Custody();
      pendingDTMF := [];
      seqNum, timestamp, currentDTMFTimestamp := seq0, clock0, 0;
      history, inputs, written := Start(config), [], [];
      new;
      StartReached(cfg);
    }

    /** Record that the concrete state has reached `after`. */
    ghost method Record(after: History)
      requires Consistent(cfg, after)
      requires RingMatches(after.queue)
      requires Holds(pendingDTMF, after.pending)
      requires CountersMatch(|Packets(after.outputs)|, after.clock, after.eventClock)
      requires HeaderReady() && Separate() && tables.Valid()
      modifies this`history
      ensures InStep() && history == after
    {
      history := after;
    }

    /** Record the input that led here from `before`, and what was written for it. */
    ghost method Log(before: History, i: Input, wire: seq<seq<Byte>>)
      requires TracedFrom(before) && Consistent(cfg, before) && Admissible(cfg, i)
      requires history == Next(cfg, before, i)
      requires Wire(cfg, Packets(history.outputs)) == Wire(cfg, Packets(before.outputs)) + wire
      requires InStep() && custody.held == Elements(pendingDTMF)
      modifies this`inputs, this`written
      ensures Valid() && inputs == old(inputs) + [i] && written == old(written) + wire
    {
      ReachedSnoc(cfg, inputs, before, i);
      inputs := inputs + [i];
      written := written + wire;
    }

    /** A chunk of agent audio, whose buffer is now the writer's, goes into the ring and then back to the pool. */
    method HandleAudio(data: array<Byte>)
      requires InStep() && Traced() && Apart(data) && data !in pendingDTMF
      requires custody.held == Elements(pendingDTMF) + {data}
      modifies this`history, this`inputs, this`written, ring, ring.buf, custody, data
      ensures Valid() && inputs == old(inputs) + [AudioIn(old(data[..]))]
      ensures history == Next(cfg, old(history), AudioIn(old(data[..]))) && written == old(written)
    {
      ghost var before, bytes := history, data[..];
      PushAudio(data);
      Log(before, AudioIn(bytes), []);
    }

    method PushAudio(data: array<Byte>)
      requires InStep() && Apart(data) && data !in pendingDTMF
      requires custody.held == Elements(pendingDTMF) + {data}
      modifies this`history, ring, ring.buf, custody, data
      ensures InStep() && custody.held == Elements(pendingDTMF)
      ensures history == Next(cfg, old(history), AudioIn(old(data[..])))
    {
      ghost var bytes, payloads := data[..], history.pending;
      var n := ring.Push(data[..]);
      custody.Put(data);
      assert forall i :: 0 <= i < |pendingDTMF| ==> pendingDTMF[i] != data && pendingDTMF[i] != ring.buf;
      assert Holds(pendingDTMF, payloads);
      Record(OnAudio(cfg, history, bytes));
    }

    /** A DTMF request replaces whatever is still pending. */
    method HandleDtmf(request: Request)
      requires Valid() && Admissible(cfg, DtmfIn(request))
      modifies this, custody, pendingDTMF
      ensures Valid() && inputs == old(inputs) + [DtmfIn(request)]
      ensures history == Next(cfg, old(history), DtmfIn(request)) && written == old(written)
    {
      ghost var before := history;
      TakeRequest(request);
      Log(before, DtmfIn(request), []);
    }

    method TakeRequest(request: Request)
      requires InStep() && custody.held == Elements(pendingDTMF) && Admissible(cfg, DtmfIn(request))
      modifies this`pendingDTMF, this`timestamp, this`currentDTMFTimestamp, this`history, custody, pendingDTMF
      ensures InStep() && custody.held == Elements(pendingDTMF) && history == Next(cfg, old(history), DtmfIn(request))
      ensures Wire(cfg, Packets(history.outputs)) == Wire(cfg, Packets(old(history).outputs)) + []
    {
      if cfg.stream.dtmfPayloadType == 0 {
        return;
      }
      Carry(history.clock, cfg.increment, WORD32);
      InjectDtmf(request, Next(cfg, history, DtmfIn(request)));
    }

    method InjectDtmf(request: Request, ghost after: History)
      requires InStep() && custody.held == Elements(pendingDTMF)
      requires cfg.stream.dtmfPayloadType != 0 && Admissible(cfg, DtmfIn(request))
      requires Consistent(cfg, after)
      requires after.pending == Generated(cfg, request) && after.queue == history.queue
      requires |Packets(after.outputs)| == |Packets(history.outputs)|
      requires (timestamp + cfg.increment) % WORD32 == after.clock % WORD32 && after.eventClock == after.clock
      modifies this`pendingDTMF, this`timestamp, this`currentDTMFTimestamp, this`history, custody, pendingDTMF
      ensures InStep() && custody.held == Elements(pendingDTMF) && history == after
    {
      ReplacePending(request);
      timestamp := (timestamp + cfg.increment) % WORD32;
      currentDTMFTimestamp := timestamp;
      Record(after);
    }

    method ReplacePending(request: Request)
      requires cfg.stream.dtmfPayloadType != 0 && Admissible(cfg, DtmfIn(request))
      requires Distinct(pendingDTMF) && custody.held == Elements(pendingDTMF)
      requires generator.sampleRate == cfg.stream.codec.sampleRate && generator.ptime == GeneratorPtime(cfg)
      modifies this`pendingDTMF, custody, pendingDTMF
      ensures Holds(pendingDTMF, Generated(cfg, request)) && forall b :: b in pendingDTMF ==> fresh(b)
      ensures custody.held == Elements(pendingDTMF)
    {
      custody.PutAll(pendingDTMF);
      var payloads := generator.Generate(request.digit, request.duration);
      pendingDTMF := Materialize(payloads);
    }

    /** The generator fills one pooled buffer per payload. */
    method Materialize(payloads: seq<seq<Byte>>) returns (bs: seq<array<Byte>>)
      requires custody.held == {}
      modifies custody
      ensures Holds(bs, payloads) && forall b :: b in bs ==> fresh(b)
      ensures custody.held == Elements(bs)
    {
      bs := [];
      for i := 0 to |payloads|
        invariant |bs| == i && Distinct(bs) && forall b :: b in bs ==> fresh(b) && b in custody.held
        invariant forall k :: 0 <= k < i ==> bs[k][..] == payloads[k]
        invariant custody.held == Elements(bs)
      {
        var b := custody.Get(|payloads[i]|);
        forall k | 0 <= k < b.Length {
          b[k] := payloads[i][k];
        }
        assert b[..] == payloads[i];
        bs := bs + [b];
      }
    }

    method HandleTick() returns (wire: Option<seq<Byte>>)
      requires Valid()
      modifies this, ring, header, custody, pendingDTMF
      ensures Valid() && inputs == old(inputs) + [Tick]
      ensures history == Next(cfg, old(history), Tick)
      ensures written == old(written) + Sent(wire)
    {
      ghost var before := history;
      wire := TakeTurn();
      ghost var sent := Sent(wire);
      LogTick(before, sent);
    }

    /** Record a tick, and what was written for it. */
    ghost method LogTick(before: History, sent: seq<seq<Byte>>)
      requires TracedFrom(before) && Consistent(cfg, before)
      requires history == Next(cfg, before, Tick)
      requires Wire(cfg, Packets(history.outputs)) == Wire(cfg, Packets(before.outputs)) + sent
      requires InStep() && custody.held == Elements(pendingDTMF)
      modifies this`inputs, this`written
      ensures Valid() && inputs == old(inputs) + [Tick] && written == old(written) + sent
    {
      Log(before, Tick, sent);
    }

    /** Pending tones go before audio; with neither there is nothing to send. */
    method TakeTurn() returns (wire: Option<seq<Byte>>)
      requires InStep() && custody.held == Elements(pendingDTMF)
      modifies this`pendingDTMF, this`seqNum, this`timestamp, this`history, ring, header, custody, pendingDTMF
      ensures InStep() && custody.held == Elements(pendingDTMF) && history == Next(cfg, old(history), Tick)
      ensures Wire(cfg, Packets(history.outputs))
           == Wire(cfg, Packets(old(history).outputs)) + Sent(wire)
    {
      if |pendingDTMF| > 0 {
        wire := HandleToneTick();
      } else if ring.count == 0 {
        assert Wire(cfg, Packets(history.outputs)) + [] == Wire(cfg, Packets(history.outputs));
        wire := None;
      } else {
        assert Elements(pendingDTMF) == {};
        wire := HandleAudioTick();
      }
    }

    method HandleToneTick() returns (wire: Option<seq<Byte>>)
      requires InStep() && custody.held == Elements(pendingDTMF) && history.pending != []
      modifies this`pendingDTMF, this`seqNum, this`timestamp, this`history, ring, header, custody, pendingDTMF
      ensures InStep() && custody.held == Elements(pendingDTMF) && history == OnTick(cfg, old(history))
      ensures wire.Some?
      ensures Wire(cfg, Packets(history.outputs)) == Wire(cfg, Packets(old(history).outputs)) + [wire.value]
    {
      ghost var h := history;
      ghost var after := SendTone(cfg, h);
      ToneFacts(cfg, h);
      ToneWire(cfg, h);
      var bytes := TickTone(after);
      wire := Some(bytes);
    }

    method HandleAudioTick() returns (wire: Option<seq<Byte>>)
      requires InStep() && custody.held == {} && history.pending == [] && history.queue != []
      modifies this`seqNum, this`timestamp, this`history, ring, header, custody
      ensures InStep() && custody.held == {} && history == OnTick(cfg, old(history))
      ensures Wire(cfg, Packets(history.outputs))
           == Wire(cfg, Packets(old(history).outputs)) + Sent(wire)
    {
      ghost var h := history;
      ghost var encoded := EncodedTick(cfg, h.queue);
      ghost var after := OnTick(cfg, h);
      AudioFacts(cfg, h, encoded);
      AudioWire(cfg, h, encoded);
      assert after == SendAudio(cfg, h, encoded);
      wire := TickAudio(after, encoded);
    }

    method TickTone(ghost after: History) returns (wire: seq<Byte>)
      requires InStep() && custody.held == Elements(pendingDTMF) && |pendingDTMF| > 0
      requires Consistent(cfg, after)
      requires after.pending == history.pending[1..]
      requires after.queue == history.queue[Skipped(cfg, history.queue)..]
      requires (seqNum + 1) % WORD16 == (cfg.seq0 + |Packets(after.outputs)|) % WORD16
      requires (timestamp + cfg.increment) % WORD32 == after.clock % WORD32
      requires after.eventClock == history.eventClock
      modifies this`pendingDTMF, this`seqNum, this`timestamp, this`history, ring, header, custody, pendingDTMF
      ensures InStep() && custody.held == Elements(pendingDTMF) && history == after
      ensures wire == Rtp.Header(cfg.stream.dtmfPayloadType, (cfg.seq0 + |Packets(after.outputs)|) % WORD16,
                                 after.eventClock % WORD32, cfg.ssrc) + old(history.pending[0])
    {
      wire := TransmitTone();
      timestamp := (timestamp + cfg.increment) % WORD32;
      if ring.count >= cfg.tickBytes {
        ring.Discard(cfg.tickBytes);
      }
      Record(after);
    }

    /** Send the first pending payload under the DTMF payload type and return its buffer. */
    method TransmitTone() returns (wire: seq<Byte>)
      requires HeaderReady() && header !in pendingDTMF && |pendingDTMF| > 0
      requires Distinct(pendingDTMF) && custody.held == Elements(pendingDTMF)
      modifies this`pendingDTMF, this`seqNum, header, custody, pendingDTMF[0]
      ensures HeaderReady() && pendingDTMF == old(pendingDTMF)[1..]
      ensures seqNum == (old(seqNum) + 1) % WORD16
      ensures wire == Rtp.Header(cfg.stream.dtmfPayloadType, seqNum, currentDTMFTimestamp, cfg.ssrc) + old(pendingDTMF[0][..])
      ensures custody.held == Elements(pendingDTMF)
    {
      var p := pendingDTMF[0];
      assert pendingDTMF == [p] + pendingDTMF[1..];
      pendingDTMF := pendingDTMF[1..];
      seqNum := (seqNum + 1) % WORD16;
      header[1] := cfg.stream.dtmfPayloadType;
      wire := EmitPacket(currentDTMFTimestamp, p);
      custody.Put(p);
      header[1] := cfg.stream.codec.payloadType;
    }

    /** Write sequence number and timestamp into the reused header. */
    method CompleteHeader(stamp: Word32)
      requires header.Length == Rtp.HEADER_SIZE && header[0] == Rtp.VERSION_BYTE && header[8..] == Be32(cfg.ssrc)
      modifies header
      ensures header[..] == Rtp.Header(old(header[1]), seqNum, stamp, cfg.ssrc)
      ensures header[0] == Rtp.VERSION_BYTE && header[1] == old(header[1]) && header[8..] == Be32(cfg.ssrc)
    {
      ghost var first, last := header[..2], header[8..];
      assert first == [Rtp.VERSION_BYTE, header[1]];
      PutBe16(header, 2, seqNum);
      PutBe32(header, 4, stamp);
      assert header[..2] == first && header[2..4] == Be16(seqNum) && header[4..8] == Be32(stamp) && header[8..] == last;
      FourParts(header[..], 2, 4, 8);
    }

    /** Complete the reused header, copy header and payload into a pooled packet, and send it. */
    method EmitPacket(stamp: Word32, payload: array<Byte>) returns (wire: seq<Byte>)
      requires header.Length == Rtp.HEADER_SIZE && header[0] == Rtp.VERSION_BYTE && header[8..] == Be32(cfg.ssrc)
      requires payload != header
      modifies header, custody
      ensures wire == Rtp.Header(header[1], seqNum, stamp, cfg.ssrc) + payload[..]
      ensures header[0] == Rtp.VERSION_BYTE && header[1] == old(header[1]) && header[8..] == Be32(cfg.ssrc)
      ensures custody.held == old(custody.held)
    {
      CompleteHeader(stamp);
      var packet := custody.Get(Rtp.HEADER_SIZE + payload.Length);
      FillPacket(packet, payload);
      wire := packet[..];
      custody.Put(packet);
    }

    method FillPacket(packet: array<Byte>, payload: array<Byte>)
      requires header.Length == Rtp.HEADER_SIZE && packet.Length == Rtp.HEADER_SIZE + payload.Length
      requires packet != header && packet != payload
      modifies packet
      ensures packet[..] == header[..] + payload[..]
    {
      forall i | 0 <= i < Rtp.HEADER_SIZE {
        packet[i] := header[i];
      }
      forall i | 0 <= i < payload.Length {
        packet[Rtp.HEADER_SIZE + i] := payload[i];
      }
    }

    /** Take one tick from the ring into a pooled buffer whose old contents are arbitrary. */
    method TakeTick() returns (l16Payload: array<Byte>)
      requires RingMatches(history.queue) && |history.queue| > 0
      modifies ring, custody
      ensures ring.Valid() && ring.Queue() == history.queue[Min(|history.queue|, cfg.tickBytes)..]
      ensures fresh(l16Payload) && l16Payload[..] == Padded(cfg, history.queue)
      ensures custody.held == old(custody.held) + {l16Payload}
    {
      var bytesPerTick := cfg.tickBytes;
      l16Payload := custody.Get(bytesPerTick);
      ring.CopyOut(l16Payload, bytesPerTick);
      if ring.count < bytesPerTick {
        forall i | ring.count <= i < bytesPerTick {
          l16Payload[i] := 0;
        }
        ring.Discard(ring.count);
      } else {
        ring.Discard(bytesPerTick);
      }
    }

    /** The encoder returns its argument or another pooled buffer. */
    method Encode(l16Payload: array<Byte>) returns (r: Result<array<Byte>>)
      requires tables.Valid()
      modifies custody
      ensures r.Success? == EncodePayload(OutboundEncoding(cfg.ws, cfg.stream), l16Payload[..]).Success?
      ensures r.Success? ==> r.value[..] == EncodePayload(OutboundEncoding(cfg.ws, cfg.stream), l16Payload[..]).value
      ensures r.Success? ==> r.value == l16Payload || fresh(r.value)
      ensures custody.held == old(custody.held) + if r.Success? && r.value != l16Payload then {r.value} else {}
    {
      var bytes := EncodeOutboundPayload(tables, l16Payload[..], cfg.ws, cfg.stream);
      if bytes.Failure? {
        return Failure;
      }
      if OutboundEncoding(cfg.ws, cfg.stream) == Keep {
        return Success(l16Payload);
      }
      var payload := custody.Get(|bytes.value|);
      forall i | 0 <= i < payload.Length {
        payload[i] := bytes.value[i];
      }
      assert payload[..] == bytes.value;
      r := Success(payload);
    }

    method TickAudio(ghost after: History, ghost encoded: Result<seq<Byte>>) returns (wire: Option<seq<Byte>>)
      requires InStep() && custody.held == {} && |pendingDTMF| == 0 && |history.queue| > 0
      requires Consistent(cfg, after) && encoded == EncodedTick(cfg, history.queue)
      requires after.pending == [] && after.eventClock == history.eventClock
      requires after.queue == history.queue[Min(|history.queue|, cfg.tickBytes)..]
      requires if encoded.Failure? then
                 |Packets(after.outputs)| == |Packets(history.outputs)| && after.clock == history.clock
               else
                 && (seqNum + 1) % WORD16 == (cfg.seq0 + |Packets(after.outputs)|) % WORD16
                 && (timestamp + cfg.increment) % WORD32 == after.clock % WORD32
      modifies this`seqNum, this`timestamp, this`history, ring, header, custody
      ensures InStep() && custody.held == {} && history == after
      ensures if encoded.Failure? then wire == None
              else wire == Some(Rtp.Header(cfg.stream.codec.payloadType, seqNum, timestamp, cfg.ssrc) + encoded.value)
      ensures seqNum == (cfg.seq0 + |Packets(after.outputs)|) % WORD16 && timestamp == after.clock % WORD32
    {
      wire := SendTick(encoded);
      Record(after);
    }

    /** Take a tick from the ring and send what the encoder makes of it. */
    method SendTick(ghost encoded: Result<seq<Byte>>) returns (wire: Option<seq<Byte>>)
      requires RingMatches(history.queue) && |history.queue| > 0 && encoded == EncodedTick(cfg, history.queue)
      requires tables.Valid() && HeaderReady() && header != ring.buf && custody.held == {}
      requires header !in {tables.pcmToMuLaw, tables.pcmToALaw}
      modifies this`seqNum, this`timestamp, ring, header, custody
      ensures RingMatches(history.queue[Min(|history.queue|, cfg.tickBytes)..])
      ensures tables.Valid() && HeaderReady() && custody.held == {}
      ensures if encoded.Failure? then wire == None && seqNum == old(seqNum) && timestamp == old(timestamp)
              else
                && seqNum == (old(seqNum) + 1) % WORD16
                && timestamp == (old(timestamp) + cfg.increment) % WORD32
                && wire == Some(Rtp.Header(cfg.stream.codec.payloadType, seqNum, timestamp, cfg.ssrc) + encoded.value)
    {
      var l16Payload := TakeTick();
      wire := TransmitAudio(l16Payload);
    }

    /** Encode one tick and send it; every buffer taken on the way goes back to the pool. */
    method TransmitAudio(l16Payload: array<Byte>) returns (wire: Option<seq<Byte>>)
      requires tables.Valid() && HeaderReady() && l16Payload != header
      requires custody.held == {l16Payload} && l16Payload.Length > 0
      modifies this`seqNum, this`timestamp, header, custody, l16Payload
      ensures HeaderReady() && custody.held == {}
      ensures match EncodePayload(OutboundEncoding(cfg.ws, cfg.stream), old(l16Payload[..]))
              case Failure => wire == None && seqNum == old(seqNum) && timestamp == old(timestamp)
              case Success(payload) =>
                && seqNum == (old(seqNum) + 1) % WORD16
                && timestamp == (old(timestamp) + cfg.increment) % WORD32
                && wire == Some(Rtp.Header(cfg.stream.codec.payloadType, seqNum, timestamp, cfg.ssrc) + payload)
    {
      var encoded := Encode(l16Payload);
      if encoded.Failure? {
        custody.Put(l16Payload);
        return None;
      }
      var payload := encoded.value;
      seqNum := (seqNum + 1) % WORD16;
      timestamp := (timestamp + cfg.increment) % WORD32;
      var bytes := EmitPacket(timestamp, payload);
      wire := Some(bytes);
      if payload.Length > 0 && payload != l16Payload {
        custody.Put(payload);
      }
      custody.Put(l16Payload);
    }

    /**
     The deferred clean-up: the pending payloads, then whatever the audio channel still holds,
     which is the writer's to return as nobody else receives from it.
     */
    method Close(queued: seq<array<Byte>>)
      requires InStep() && Distinct(pendingDTMF + queued)
      requires custody.held == Elements(pendingDTMF) + Elements(queued)
      modifies custody, pendingDTMF, queued
      ensures custody.held == {}
    {
      SplitElements(pendingDTMF, queued);
      custody.PutAll(pendingDTMF);
      custody.PutAll(queued);
    }
  }

  lemma SplitElements(a: seq<array<Byte>>, b: seq<array<Byte>>)
    requires Distinct(a + b)
    ensures Distinct(a) && Distinct(b) && Elements(a) !! Elements(b)
  {
    var all := a + b;
    forall i, j | 0 <= i < j < |a|
      ensures a[i] != a[j]
    {
      assert all[i] == a[i] && all[j] == a[j];
    }
    forall i, j | 0 <= i < j < |b|
      ensures b[i] != b[j]
    {
      assert all[|a| + i] == b[i] && all[|a| + j] == b[j];
    }
    forall x | x in Elements(a)
      ensures x !in Elements(b)
    {
      var i :| 0 <= i < |a| && a[i] == x;
      assert all[i] == x;
      assert forall j :: 0 <= j < |b| ==> all[|a| + j] == b[j];
    }
  }
}
