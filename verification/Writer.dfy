/**
 The outbound writer's event loop as a state machine over whole runs
 (StartWriter, internal/rtp/rtp_handler.go). Timestamps are kept as an unbounded
 clock; the wire carries it modulo 2^32 and the packet number modulo 2^16.
 */
module Writer {
  import opened Bytes
  import opened Results
  import opened Dtmf
  import opened Streams

  datatype Request = Request(digit: string, duration: int)

  datatype Input = AudioIn(data: seq<Byte>) | DtmfIn(request: Request) | Tick

  /**
   What the writer computes once before its loop. `clock0` and `seq0` are the random
   initial timestamp and sequence number.
   */
  datatype Config = Config(
    stream: Stream, ws: CodecName, tickBytes: nat, increment: Word32,
    seq0: Word16, clock0: Word32, ssrc: Word32)

  function Configure(stream: Stream, ws: CodecName, seq0: Word16, clock0: Word32, ssrc: Word32): (cfg: Config) {
    Config(stream, ws, BytesPerTick(ws, stream), SamplesPerPacket(stream), seq0, clock0, ssrc)
  }

  datatype Output =
    | Audio(consumed: seq<Byte>, clock: nat, payload: seq<Byte>)
    | Tone(event: nat, index: nat, skipped: seq<Byte>, clock: nat, payload: seq<Byte>)
    | Lost(consumed: seq<Byte>)

  /** A run so far. `requests` are the accepted DTMF requests; the last one is the current event. */
  datatype History = History(
    queue: seq<Byte>, pending: seq<seq<Byte>>, nextTone: nat, clock: nat, eventClock: nat,
    requests: seq<Request>, outputs: seq<Output>, accepted: seq<Byte>)

  function Capacity(cfg: Config): (n: nat) {
    cfg.tickBytes * 10
  }

  /** For every stream negotiation can produce the ring is not empty and the clock moves. */
  lemma NegotiatedWriterRuns(stream: Stream, ws: CodecName, seq0: Word16, clock0: Word32, ssrc: Word32)
    requires Negotiable(ws, stream) && Samples(stream) < WORD32
    ensures var cfg := Configure(stream, ws, seq0, clock0, ssrc);
            && cfg.tickBytes > 0 && cfg.increment >= 8
            && cfg.tickBytes == cfg.increment * stream.codec.bytesPerSample * stream.codec.channels
                                * (if OutboundEncoding(ws, stream).Compress? then 2 else 1)
  {
    TickSize(ws, stream);
  }

  // ---- DTMF requests ----

  function GeneratorPtime(cfg: Config): (p: nat) {
    if cfg.stream.ptime <= 0 then 20 else cfg.stream.ptime
  }

  function Total(cfg: Config, r: Request): (w: Word16) {
    SamplesFor(cfg.stream.codec.sampleRate, r.duration)
  }

  function Step(cfg: Config, r: Request): (w: Word16) {
    SamplesFor(cfg.stream.codec.sampleRate, Min(r.duration, GeneratorPtime(cfg)))
  }

  /** A digit's total is its time in samples, and its updates are a packet apart, or one of the whole digit when it is shorter. */
  lemma RequestTimes(cfg: Config, r: Request)
    requires 0 < cfg.stream.ptime
    ensures 0 <= r.duration && cfg.stream.codec.sampleRate * r.duration < 1000 * WORD16 ==>
              1000 * Total(cfg, r) <= cfg.stream.codec.sampleRate * r.duration < 1000 * (Total(cfg, r) + 1)
    ensures r.duration >= cfg.stream.ptime ==> Step(cfg, r) == Streams.Samples(cfg.stream) % WORD16
    ensures r.duration < cfg.stream.ptime ==> Step(cfg, r) == Total(cfg, r)
  {
    var n := cfg.stream.codec.sampleRate * r.duration;
    if 0 <= r.duration && n < 1000 * WORD16 {
      assert 0 <= n;
      SmallSamples(n);
    }
  }

  lemma SmallSamples(n: nat)
    requires n < 1000 * WORD16
    ensures var w := TruncDiv(n, 1000) % WORD16; 1000 * w <= n < 1000 * (w + 1)
  {
  }

  /** Requests whose payload generation ends; without DTMF every request is ignored. */
  predicate Admissible(cfg: Config, i: Input) {
    i.DtmfIn? && cfg.stream.dtmfPayloadType != 0 ==> Stops(Total(cfg, i.request), Step(cfg, i.request))
  }

  ghost function Generated(cfg: Config, r: Request): (p: seq<seq<Byte>>)
    requires Stops(Total(cfg, r), Step(cfg, r))
  {
    Payloads(DigitToEvent(r.digit), Total(cfg, r), Step(cfg, r))
  }

  // ---- steps ----

  function Start(cfg: Config): (h: History) {
    History([], [], 0, cfg.clock0, 0, [], [], [])
  }

  /** The part of a chunk the ring has room for. */
  function Fitting(cfg: Config, queued: nat, data: seq<Byte>): (r: seq<Byte>)
    requires queued <= Capacity(cfg)
  {
    data[..Min(|data|, Capacity(cfg) - queued)]
  }

  function OnAudio(cfg: Config, h: History, data: seq<Byte>): (r: History)
    requires |h.queue| <= Capacity(cfg)
  {
    var taken := Fitting(cfg, |h.queue|, data);
    h.(queue := h.queue + taken, accepted := h.accepted + taken)
  }

  ghost function OnDtmf(cfg: Config, h: History, r: Request): (h': History)
    requires Admissible(cfg, DtmfIn(r))
  {
    if cfg.stream.dtmfPayloadType == 0 then h
    else
      var clock := h.clock + cfg.increment;
      h.(pending := Generated(cfg, r), nextTone := 0, clock := clock, eventClock := clock, requests := h.requests + [r])
  }

  /** How much audio a tone packet suppresses: a whole tick, when there is one. */
  function Skipped(cfg: Config, queue: seq<Byte>): (n: nat)
    ensures n <= |queue|
  {
    if |queue| >= cfg.tickBytes then cfg.tickBytes else 0
  }

  function SendTone(cfg: Config, h: History): (r: History)
    requires h.pending != [] && h.requests != []
  {
    var n := Skipped(cfg, h.queue);
    var tone := Tone(|h.requests| - 1, h.nextTone, h.queue[..n], h.eventClock, h.pending[0]);
    h.(pending := h.pending[1..], nextTone := h.nextTone + 1, clock := h.clock + cfg.increment,
       queue := h.queue[n..], outputs := h.outputs + [tone])
  }

  /** One tick of audio, zero-padded when the queue runs dry. */
  function Padded(cfg: Config, queue: seq<Byte>): (r: seq<Byte>)
    ensures |r| == cfg.tickBytes
  {
    var n := Min(|queue|, cfg.tickBytes);
    queue[..n] + Zeros(cfg.tickBytes - n)
  }

  function EncodedTick(cfg: Config, queue: seq<Byte>): (r: Result<seq<Byte>>) {
    EncodePayload(OutboundEncoding(cfg.ws, cfg.stream), Padded(cfg, queue))
  }

  /** One tick leaves the queue; what the encoder made of it decides what is sent. */
  function SendAudio(cfg: Config, h: History, encoded: Result<seq<Byte>>): (r: History) {
    var n := Min(|h.queue|, cfg.tickBytes);
    var clock := h.clock + cfg.increment;
    match encoded
    case Failure => h.(queue := h.queue[n..], outputs := h.outputs + [Lost(h.queue[..n])])
    case Success(payload) =>
      h.(queue := h.queue[n..], clock := clock, outputs := h.outputs + [Audio(h.queue[..n], clock, payload)])
  }

  predicate Consistent(cfg: Config, h: History) {
    |h.queue| <= Capacity(cfg) && (h.pending != [] ==> h.requests != [])
  }

  /** Every accepted request came with DTMF negotiated and a generator that stops. */
  ghost predicate AllStop(cfg: Config, requests: seq<Request>) {
    forall r :: r in requests ==> cfg.stream.dtmfPayloadType != 0 && Stops(Total(cfg, r), Step(cfg, r))
  }

  function OnTick(cfg: Config, h: History): (r: History)
    requires Consistent(cfg, h)
  {
    if h.pending != [] then SendTone(cfg, h)
    else if h.queue == [] then h
    else SendAudio(cfg, h, EncodedTick(cfg, h.queue))
  }

  ghost function Next(cfg: Config, h: History, i: Input): (r: History)
    requires Consistent(cfg, h) && Admissible(cfg, i)
    ensures Consistent(cfg, r)
    ensures AllStop(cfg, h.requests) ==> AllStop(cfg, r.requests)
  {
    match i
    case AudioIn(data) => OnAudio(cfg, h, data)
    case DtmfIn(request) => OnDtmf(cfg, h, request)
    case Tick => OnTick(cfg, h)
  }

  ghost function Run(cfg: Config, inputs: seq<Input>): (h: History)
    requires forall i :: i in inputs ==> Admissible(cfg, i)
    ensures Consistent(cfg, h) && AllStop(cfg, h.requests)
  {
    if inputs == [] then Start(cfg)
    else
      var before := inputs[..|inputs| - 1];
      assert forall i :: i in before ==> i in inputs;
      Next(cfg, Run(cfg, before), inputs[|inputs| - 1])
  }

  // ---- observations ----

  /** The queued bytes each output used up. */
  function Used(o: Output): (r: seq<Byte>) {
    if o.Tone? then o.skipped else o.consumed
  }

  function AllUsed(outputs: seq<Output>): (r: seq<seq<Byte>>)
    ensures |r| == |outputs|
  {
    seq(|outputs|, i requires 0 <= i < |outputs| => Used(outputs[i]))
  }

  /** The outputs that became packets on the wire. */
  function Packets(outputs: seq<Output>): (r: seq<Output>)
    ensures forall i :: 0 <= i < |r| ==> !r[i].Lost?
  {
    if outputs == [] then []
    else
      var last := outputs[|outputs| - 1];
      Packets(outputs[..|outputs| - 1]) + if last.Lost? then [] else [last]
  }

  lemma PacketsSnoc(outputs: seq<Output>, o: Output)
    ensures Packets(outputs + [o]) == if o.Lost? then Packets(outputs) else Packets(outputs) + [o]
  {
    assert (outputs + [o])[..|outputs|] == outputs;
  }

  /** The payloads sent for one DTMF event, in sending order. */
  function TonesOf(outputs: seq<Output>, event: nat): (r: seq<seq<Byte>>) {
    if outputs == [] then []
    else
      var last := outputs[|outputs| - 1];
      TonesOf(outputs[..|outputs| - 1], event) + if last.Tone? && last.event == event then [last.payload] else []
  }

  lemma TonesSnoc(outputs: seq<Output>, o: Output, event: nat)
    ensures TonesOf(outputs + [o], event)
         == TonesOf(outputs, event) + if o.Tone? && o.event == event then [o.payload] else []
  {
    assert (outputs + [o])[..|outputs|] == outputs;
  }

  // ---- the ring is a FIFO ----

  ghost predicate Conserved(cfg: Config, h: History) {
    && h.accepted == Flatten(AllUsed(h.outputs)) + h.queue
    && forall i :: 0 <= i < |h.outputs| ==> WellCut(cfg, h.outputs[i])
  }

  /** An audio payload encodes exactly its bytes plus zero padding; a tone skips a whole tick or nothing. */
  ghost predicate WellCut(cfg: Config, o: Output) {
    match o
    case Audio(consumed, _, payload) =>
      && 0 < |consumed| <= cfg.tickBytes
      && EncodePayload(OutboundEncoding(cfg.ws, cfg.stream), consumed + Zeros(cfg.tickBytes - |consumed|)) == Success(payload)
    case Tone(_, _, skipped, _, _) => |skipped| == 0 || |skipped| == cfg.tickBytes
    case Lost(consumed) =>
      && 0 < |consumed| <= cfg.tickBytes
      && EncodePayload(OutboundEncoding(cfg.ws, cfg.stream), consumed + Zeros(cfg.tickBytes - |consumed|)).Failure?
  }

  /**
   What one tick does: a pending tone goes first and suppresses a whole tick of audio when the
   queue has one; otherwise a tick of audio goes, or the last bytes; otherwise nothing happens.
   */
  ghost predicate TickUses(cfg: Config, h: History, r: History) {
    if h.pending == [] && h.queue == [] then r == h
    else
      && |r.outputs| == |h.outputs| + 1
      && var o := r.outputs[|h.outputs|];
      && r.outputs == h.outputs + [o]
      && Used(o) + r.queue == h.queue
      && if h.pending != [] then
           && o.Tone? && o.payload == h.pending[0] && r.pending == h.pending[1..]
           && r.queue == if |h.queue| >= cfg.tickBytes then h.queue[cfg.tickBytes..] else h.queue
         else
           && !o.Tone? && r.pending == []
           && |Used(o)| == Min(|h.queue|, cfg.tickBytes)
  }

  lemma TickIsRight(cfg: Config, h: History)
    requires Consistent(cfg, h)
    ensures TickUses(cfg, h, OnTick(cfg, h))
  {
  }

  /** A chunk is taken whole, or its front fills the ring to ten ticks of audio. */
  lemma AudioTaken(cfg: Config, h: History, data: seq<Byte>)
    requires Consistent(cfg, h)
    ensures var r := OnAudio(cfg, h, data);
            && (|h.queue| + |data| <= 10 * cfg.tickBytes ==> r.queue == h.queue + data && r.accepted == h.accepted + data)
            && (|h.queue| + |data| > 10 * cfg.tickBytes ==>
                  && |r.queue| == 10 * cfg.tickBytes
                  && exists n :: 0 <= n <= |data| && r.queue == h.queue + data[..n] && r.accepted == h.accepted + data[..n])
  {
    var n := |Fitting(cfg, |h.queue|, data)|;
    assert data[..|data|] == data;
    assert OnAudio(cfg, h, data).queue == h.queue + data[..n];
  }

  /** Every step of the run that handles a tick or a chunk does so as said above. */
  ghost predicate StepsRight(cfg: Config, inputs: seq<Input>)
    requires forall i :: i in inputs ==> Admissible(cfg, i)
  {
    forall k :: 0 <= k < |inputs| ==> StepRight(cfg, Run(cfg, inputs[..k]), inputs[k], Run(cfg, inputs[..k + 1]))
  }

  ghost predicate StepRight(cfg: Config, h: History, i: Input, r: History) {
    match i
    case Tick => TickUses(cfg, h, r)
    case AudioIn(data) =>
      && r.pending == h.pending && r.outputs == h.outputs
      && if |h.queue| + |data| <= 10 * cfg.tickBytes then r.queue == h.queue + data
         else |r.queue| == 10 * cfg.tickBytes && r.queue <= h.queue + data
    case DtmfIn(_) => r.queue == h.queue && r.outputs == h.outputs
  }

  lemma NextRight(cfg: Config, h: History, i: Input)
    requires Consistent(cfg, h) && Admissible(cfg, i)
    ensures StepRight(cfg, h, i, Next(cfg, h, i))
  {
    match i
    case Tick => TickIsRight(cfg, h);
    case AudioIn(data) => AudioTaken(cfg, h, data);
    case DtmfIn(_) =>
  }

  lemma RunPrefix(cfg: Config, inputs: seq<Input>, k: nat)
    requires (forall i :: i in inputs ==> Admissible(cfg, i)) && k < |inputs|
    ensures Run(cfg, inputs[..k + 1]) == Next(cfg, Run(cfg, inputs[..k]), inputs[k])
  {
    assert inputs[..k + 1][..k] == inputs[..k];
  }

  lemma RunStepsRight(cfg: Config, inputs: seq<Input>)
    requires forall i :: i in inputs ==> Admissible(cfg, i)
    ensures StepsRight(cfg, inputs)
  {
    forall k | 0 <= k < |inputs|
      ensures StepRight(cfg, Run(cfg, inputs[..k]), inputs[k], Run(cfg, inputs[..k + 1]))
    {
      RunPrefix(cfg, inputs, k);
      NextRight(cfg, Run(cfg, inputs[..k]), inputs[k]);
    }
  }

  lemma UsedSnoc(outputs: seq<Output>, o: Output, queue: seq<Byte>, n: nat)
    requires n <= |queue| && Used(o) == queue[..n]
    ensures Flatten(AllUsed(outputs + [o])) + queue[n..] == Flatten(AllUsed(outputs)) + queue
  {
    assert AllUsed(outputs + [o]) == AllUsed(outputs) + [Used(o)];
    FlattenSnoc(AllUsed(outputs), Used(o));
    var front := Flatten(AllUsed(outputs));
    assert front + queue[..n] + queue[n..] == front + (queue[..n] + queue[n..]);
    assert queue[..n] + queue[n..] == queue;
  }

  lemma AudioConserves(cfg: Config, h: History, data: seq<Byte>)
    requires |h.queue| <= Capacity(cfg) && Conserved(cfg, h)
    ensures Conserved(cfg, OnAudio(cfg, h, data))
  {
    var taken := Fitting(cfg, |h.queue|, data);
    var front := Flatten(AllUsed(h.outputs));
    assert front + h.queue + taken == front + (h.queue + taken);
  }

  lemma TickConserves(cfg: Config, h: History)
    requires Consistent(cfg, h) && cfg.tickBytes > 0 && Conserved(cfg, h)
    ensures Conserved(cfg, OnTick(cfg, h))
  {
    var r := OnTick(cfg, h);
    if r != h {
      var o := r.outputs[|h.outputs|];
      assert r.outputs == h.outputs + [o];
      var n := |Used(o)|;
      UsedSnoc(h.outputs, o, h.queue, n);
      assert WellCut(cfg, o);
    }
  }

  /**
   Over every run the accepted bytes are, in order, the bytes played as audio (padding
   removed), the bytes skipped under a tone and the bytes lost to an encoder error,
   followed by the bytes still queued; and every tick uses what it should of the queue as it
   stands then.
   */
  lemma {:induction false} Conservation(cfg: Config, inputs: seq<Input>)
    requires cfg.tickBytes > 0
    requires forall i :: i in inputs ==> Admissible(cfg, i)
    ensures Conserved(cfg, Run(cfg, inputs)) && StepsRight(cfg, inputs)
  {
    RunStepsRight(cfg, inputs);
    if inputs == [] {
      assert AllUsed([]) == [];
    } else {
      var before := inputs[..|inputs| - 1];
      assert forall i :: i in before ==> i in inputs;
      Conservation(cfg, before);
      match inputs[|inputs| - 1]
      case AudioIn(data) => AudioConserves(cfg, Run(cfg, before), data);
      case DtmfIn(_) =>
      case Tick => TickConserves(cfg, Run(cfg, before));
    }
  }

  // ---- timestamps ----

  predicate SameEvent(a: Output, b: Output) {
    a.Tone? && b.Tone? && a.event == b.event
  }

  /** Packet b follows packet a: a later clock, or the shared clock of one event. */
  predicate Follows(a: Output, b: Output)
    requires !a.Lost? && !b.Lost?
  {
    if SameEvent(a, b) then a.clock == b.clock else a.clock < b.clock
  }

  ghost predicate Ordered(cfg: Config, h: History) {
    var p := Packets(h.outputs);
    && cfg.clock0 <= h.clock
    && PacketsOrdered(p, cfg.clock0, h.clock, |h.requests|)
    && (h.pending != [] ==>
          && h.requests != []
          && forall i :: 0 <= i < |p| ==>
               if p[i].Tone? && p[i].event == |h.requests| - 1 then p[i].clock == h.eventClock
               else p[i].clock < h.eventClock)
    && (h.pending != [] ==> cfg.clock0 <= h.eventClock <= h.clock)
  }

  /** The order of the packets alone, up to a clock and a number of events. */
  ghost predicate PacketsOrdered(p: seq<Output>, clock0: nat, clock: nat, events: nat)
    requires forall i :: 0 <= i < |p| ==> !p[i].Lost?
  {
    && (forall i, j :: 0 <= i < j < |p| ==> Follows(p[i], p[j]))
    && (forall i :: 0 <= i < |p| ==> clock0 <= p[i].clock <= clock)
    && (forall i :: 0 <= i < |p| && p[i].Tone? ==> p[i].event < events)
    && (forall i, j :: 0 <= i < j < |p| && p[i].Tone? && p[j].Tone? ==> p[i].event <= p[j].event)
  }

  /** One more packet that follows all others. */
  lemma OneMorePacket(p: seq<Output>, o: Output, clock0: nat, clock: nat, clock': nat, events: nat)
    requires (forall i :: 0 <= i < |p| ==> !p[i].Lost?) && !o.Lost?
    requires PacketsOrdered(p, clock0, clock, events) && clock0 <= clock <= clock'
    requires clock0 <= o.clock <= clock'
    requires forall i :: 0 <= i < |p| ==> Follows(p[i], o)
    requires o.Tone? ==> o.event == events - 1
    ensures PacketsOrdered(p + [o], clock0, clock', events)
  {
    var q := p + [o];
    forall i, j | 0 <= i < j < |q|
      ensures Follows(q[i], q[j])
      ensures q[i].Tone? && q[j].Tone? ==> q[i].event <= q[j].event
    {
      assert q[i] == p[i];
      if j < |p| { assert q[j] == p[j]; }
    }
  }

  lemma ToneKeepsOrder(cfg: Config, h: History)
    requires Consistent(cfg, h) && cfg.increment > 0 && Ordered(cfg, h) && h.pending != []
    ensures Ordered(cfg, SendTone(cfg, h))
  {
    var o := SendTone(cfg, h).outputs[|h.outputs|];
    PacketsSnoc(h.outputs, o);
    OneMorePacket(Packets(h.outputs), o, cfg.clock0, h.clock, h.clock + cfg.increment, |h.requests|);
  }

  lemma AudioKeepsOrder(cfg: Config, h: History, encoded: Result<seq<Byte>>)
    requires Consistent(cfg, h) && cfg.increment > 0 && Ordered(cfg, h) && h.pending == []
    ensures Ordered(cfg, SendAudio(cfg, h, encoded))
  {
    var o := SendAudio(cfg, h, encoded).outputs[|h.outputs|];
    PacketsSnoc(h.outputs, o);
    if encoded.Success? {
      OneMorePacket(Packets(h.outputs), o, cfg.clock0, h.clock, h.clock + cfg.increment, |h.requests|);
    }
  }

  lemma TickKeepsOrder(cfg: Config, h: History)
    requires Consistent(cfg, h) && cfg.increment > 0 && Ordered(cfg, h)
    ensures Ordered(cfg, OnTick(cfg, h))
  {
    if h.pending != [] {
      ToneKeepsOrder(cfg, h);
    } else {
      AudioKeepsOrder(cfg, h, EncodedTick(cfg, h.queue));
    }
  }

  lemma DtmfKeepsOrder(cfg: Config, h: History, request: Request)
    requires Consistent(cfg, h) && cfg.increment > 0 && Ordered(cfg, h) && Admissible(cfg, DtmfIn(request))
    ensures Ordered(cfg, OnDtmf(cfg, h, request))
  {
  }

  /**
   Over every run audio clocks strictly increase, all packets of one DTMF event share one
   clock, and that clock lies strictly between those of everything sent before and after.
   */
  lemma {:induction false} Timestamps(cfg: Config, inputs: seq<Input>)
    requires cfg.increment > 0
    requires forall i :: i in inputs ==> Admissible(cfg, i)
    ensures var p := Packets(Run(cfg, inputs).outputs);
            forall i, j :: 0 <= i < j < |p| ==> Follows(p[i], p[j])
    ensures Ordered(cfg, Run(cfg, inputs))
  {
    if inputs != [] {
      var before := inputs[..|inputs| - 1];
      assert forall i :: i in before ==> i in inputs;
      Timestamps(cfg, before);
      match inputs[|inputs| - 1]
      case AudioIn(_) =>
      case DtmfIn(request) => DtmfKeepsOrder(cfg, Run(cfg, before), request);
      case Tick => TickKeepsOrder(cfg, Run(cfg, before));
    }
  }

  // ---- tones ----

  /**
   What was sent for an event is a prefix of its generated payloads, and for the current
   event the pending payloads are the rest; a newer request is the only way to lose any.
   */
  ghost predicate TonesFaithful(cfg: Config, h: History)
    requires AllStop(cfg, h.requests)
  {
    && TotalsFaithful(cfg, h)
    && forall i :: 0 <= i < |h.outputs| ==> ToneIsGenerated(cfg, h.requests, h.outputs[i])
  }

  ghost predicate TotalsFaithful(cfg: Config, h: History)
    requires AllStop(cfg, h.requests)
  {
    && (forall e {:trigger TonesOf(h.outputs, e)} :: |h.requests| <= e ==> TonesOf(h.outputs, e) == [])
    && (forall e :: 0 <= e < |h.requests| ==> TonesOf(h.outputs, e) <= Generated(cfg, h.requests[e]))
    && (h.requests == [] ==> h.pending == [])
    && (h.requests != [] ==>
          var last := |h.requests| - 1;
          && TonesOf(h.outputs, last) + h.pending == Generated(cfg, h.requests[last])
          && h.nextTone == |TonesOf(h.outputs, last)|)
  }

  ghost predicate ToneIsGenerated(cfg: Config, requests: seq<Request>, o: Output)
    requires AllStop(cfg, requests)
  {
    o.Tone? ==>
      && o.event < |requests|
      && o.index < |Generated(cfg, requests[o.event])|
      && o.payload == Generated(cfg, requests[o.event])[o.index]
  }

  /** The next pending payload is the next one of the current event's list. */
  lemma NextPending(sent: seq<seq<Byte>>, pending: seq<seq<Byte>>, all: seq<seq<Byte>>)
    requires sent + pending == all && pending != []
    ensures |sent| < |all| && pending[0] == all[|sent|]
    ensures sent + [pending[0]] + pending[1..] == all
    ensures sent + [pending[0]] <= all
  {
  }

  lemma ToneAdds(outputs: seq<Output>, o: Output, event: nat)
    requires o.Tone?
    ensures TonesOf(outputs + [o], event)
         == if o.event == event then TonesOf(outputs, event) + [o.payload] else TonesOf(outputs, event)
  {
    TonesSnoc(outputs, o, event);
    assert TonesOf(outputs, event) + [] == TonesOf(outputs, event);
  }

  /** A tone adds its payload to what was sent for the current event. */
  lemma SendToneTones(cfg: Config, h: History, event: nat)
    requires Consistent(cfg, h) && h.pending != []
    ensures TonesOf(SendTone(cfg, h).outputs, event)
         == if event == |h.requests| - 1 then TonesOf(h.outputs, event) + [h.pending[0]] else TonesOf(h.outputs, event)
  {
    var r := SendTone(cfg, h);
    var o := r.outputs[|h.outputs|];
    assert r.outputs == h.outputs + [o];
    ToneAdds(h.outputs, o, event);
  }

  lemma SendToneKeepsTotals(cfg: Config, h: History)
    requires Consistent(cfg, h) && AllStop(cfg, h.requests) && TotalsFaithful(cfg, h) && h.pending != []
    ensures TotalsFaithful(cfg, SendTone(cfg, h))
  {
    var r := SendTone(cfg, h);
    var last := |h.requests| - 1;
    NextPending(TonesOf(h.outputs, last), h.pending, Generated(cfg, h.requests[last]));
    SendToneTones(cfg, h, last);
    forall e: nat | |r.requests| <= e
      ensures TonesOf(r.outputs, e) == []
    {
      SendToneTones(cfg, h, e);
    }
    forall e | 0 <= e < |r.requests|
      ensures TonesOf(r.outputs, e) <= Generated(cfg, r.requests[e])
    {
      SendToneTones(cfg, h, e);
    }
  }

  lemma SendToneKeepsTones(cfg: Config, h: History)
    requires Consistent(cfg, h) && AllStop(cfg, h.requests) && TonesFaithful(cfg, h) && h.pending != []
    ensures TonesFaithful(cfg, SendTone(cfg, h))
  {
    var last := |h.requests| - 1;
    SendToneKeepsTotals(cfg, h);
    NextPending(TonesOf(h.outputs, last), h.pending, Generated(cfg, h.requests[last]));
    assert ToneIsGenerated(cfg, h.requests, SendTone(cfg, h).outputs[|h.outputs|]);
  }

  /** Outputs that are not tones concern no event. */
  lemma NoToneAdded(outputs: seq<Output>, o: Output, event: nat)
    requires !o.Tone?
    ensures TonesOf(outputs + [o], event) == TonesOf(outputs, event)
  {
    TonesSnoc(outputs, o, event);
    assert TonesOf(outputs, event) + [] == TonesOf(outputs, event);
  }

  lemma SendAudioKeepsTones(cfg: Config, h: History, encoded: Result<seq<Byte>>)
    requires AllStop(cfg, h.requests) && TonesFaithful(cfg, h) && h.pending == []
    ensures TonesFaithful(cfg, SendAudio(cfg, h, encoded))
  {
    var r := SendAudio(cfg, h, encoded);
    NonToneKeepsTones(cfg, h, r, r.outputs[|h.outputs|]);
  }

  lemma NonToneKeepsTones(cfg: Config, h: History, r: History, o: Output)
    requires AllStop(cfg, h.requests) && TonesFaithful(cfg, h) && !o.Tone?
    requires r.outputs == h.outputs + [o] && r.requests == h.requests && r.pending == h.pending && r.nextTone == h.nextTone
    ensures TonesFaithful(cfg, r)
  {
    forall e: nat
      ensures TonesOf(r.outputs, e) == TonesOf(h.outputs, e)
    {
      NoToneAdded(h.outputs, o, e);
    }
  }

  lemma DtmfKeepsTones(cfg: Config, h: History, request: Request)
    requires Consistent(cfg, h) && AllStop(cfg, h.requests) && TonesFaithful(cfg, h) && Admissible(cfg, DtmfIn(request))
    ensures TonesFaithful(cfg, OnDtmf(cfg, h, request))
  {
    var r := OnDtmf(cfg, h, request);
    if r != h {
      forall e | 0 <= e < |r.requests|
        ensures TonesOf(r.outputs, e) <= Generated(cfg, r.requests[e])
      {
        if e < |h.requests| {
          assert r.requests[e] == h.requests[e];
        }
      }
      forall i | 0 <= i < |r.outputs|
        ensures ToneIsGenerated(cfg, r.requests, r.outputs[i])
      {
        assert ToneIsGenerated(cfg, h.requests, h.outputs[i]);
      }
    }
  }

  lemma NextKeepsTones(cfg: Config, h: History, i: Input)
    requires Consistent(cfg, h) && AllStop(cfg, h.requests) && TonesFaithful(cfg, h) && Admissible(cfg, i)
    ensures TonesFaithful(cfg, Next(cfg, h, i))
  {
    match i
    case AudioIn(_) =>
    case DtmfIn(request) => DtmfKeepsTones(cfg, h, request);
    case Tick =>
      if h.pending != [] {
        SendToneKeepsTones(cfg, h);
      } else if h.queue != [] {
        SendAudioKeepsTones(cfg, h, EncodedTick(cfg, h.queue));
      }
  }

  /** Over every run each event's packets are its generated payloads in order, cut short only by a newer request. */
  lemma {:induction false} Tones(cfg: Config, inputs: seq<Input>)
    requires forall i :: i in inputs ==> Admissible(cfg, i)
    ensures TonesFaithful(cfg, Run(cfg, inputs))
  {
    if inputs != [] {
      var before := inputs[..|inputs| - 1];
      assert forall i :: i in before ==> i in inputs;
      Tones(cfg, before);
      NextKeepsTones(cfg, Run(cfg, before), inputs[|inputs| - 1]);
    }
  }

  // ---- how far each event gets ----

  /** The requests the inputs bring, when DTMF was negotiated. */
  function RequestsOf(cfg: Config, inputs: seq<Input>): (r: seq<Request>) {
    if inputs == [] || cfg.stream.dtmfPayloadType == 0 then []
    else
      var last := inputs[|inputs| - 1];
      RequestsOf(cfg, inputs[..|inputs| - 1]) + if last.DtmfIn? then [last.request] else []
  }

  /** The ticks between request e and the next one. */
  function TicksFor(cfg: Config, inputs: seq<Input>, e: nat): (n: nat) {
    if inputs == [] then 0
    else
      var before := inputs[..|inputs| - 1];
      TicksFor(cfg, before, e) + if inputs[|inputs| - 1].Tick? && |RequestsOf(cfg, before)| == e + 1 then 1 else 0
  }

  lemma NoTicksYet(cfg: Config, inputs: seq<Input>, e: nat)
    requires |RequestsOf(cfg, inputs)| <= e
    ensures TicksFor(cfg, inputs, e) == 0
  {
    if inputs != [] { NoTicksYet(cfg, inputs[..|inputs| - 1], e); }
  }

  /** Every request is accepted. */
  lemma {:induction false} RunRequests(cfg: Config, inputs: seq<Input>)
    requires forall i :: i in inputs ==> Admissible(cfg, i)
    ensures Run(cfg, inputs).requests == RequestsOf(cfg, inputs)
  {
    if inputs != [] {
      var before := inputs[..|inputs| - 1];
      assert forall i :: i in before ==> i in inputs;
      RunRequests(cfg, before);
    }
  }

  /** What a tick adds to the number of payloads sent for an event. */
  lemma TickSends(cfg: Config, h: History, e: nat)
    requires Consistent(cfg, h) && AllStop(cfg, h.requests) && TonesFaithful(cfg, h) && e < |h.requests|
    ensures |TonesOf(OnTick(cfg, h).outputs, e)|
         == |TonesOf(h.outputs, e)| + if h.pending != [] && e == |h.requests| - 1 then 1 else 0
    ensures OnTick(cfg, h).requests == h.requests
  {
    if h.pending != [] {
      SendToneTones(cfg, h, e);
    } else if h.queue != [] {
      NoToneAdded(h.outputs, OnTick(cfg, h).outputs[|h.outputs|], e);
    }
  }

  /** As many payloads of the event have been sent as there were ticks, until all have been. */
  ghost predicate SentPerTick(cfg: Config, h: History, e: nat, ticks: nat)
    requires AllStop(cfg, h.requests) && e < |h.requests|
  {
    |TonesOf(h.outputs, e)| == Min(|Generated(cfg, h.requests[e])|, ticks)
  }

  lemma TickCounted(cfg: Config, h: History, e: nat, ticks: nat)
    requires Consistent(cfg, h) && AllStop(cfg, h.requests) && TonesFaithful(cfg, h) && e < |h.requests|
    requires SentPerTick(cfg, h, e, ticks)
    ensures SentPerTick(cfg, OnTick(cfg, h), e, if e == |h.requests| - 1 then ticks + 1 else ticks)
  {
    TickSends(cfg, h, e);
    if e == |h.requests| - 1 {
      assert |TonesOf(h.outputs, e)| + |h.pending| == |Generated(cfg, h.requests[e])|;
    }
  }

  lemma RequestCounted(cfg: Config, h: History, request: Request, e: nat, ticks: nat)
    requires Consistent(cfg, h) && AllStop(cfg, h.requests) && TonesFaithful(cfg, h) && Admissible(cfg, DtmfIn(request))
    requires e < |OnDtmf(cfg, h, request).requests| && AllStop(cfg, OnDtmf(cfg, h, request).requests)
    requires if e < |h.requests| then SentPerTick(cfg, h, e, ticks) else ticks == 0
    ensures SentPerTick(cfg, OnDtmf(cfg, h, request), e, ticks)
  {
    if e < |h.requests| {
      assert OnDtmf(cfg, h, request).requests[e] == h.requests[e];
    } else {
      assert TonesOf(h.outputs, e) == [];
    }
  }

  lemma NextCounted(cfg: Config, h: History, i: Input, e: nat, ticks: nat)
    requires Consistent(cfg, h) && AllStop(cfg, h.requests) && TonesFaithful(cfg, h) && Admissible(cfg, i)
    requires e < |Next(cfg, h, i).requests|
    requires if e < |h.requests| then SentPerTick(cfg, h, e, ticks) else ticks == 0
    ensures SentPerTick(cfg, Next(cfg, h, i), e, if i.Tick? && |h.requests| == e + 1 then ticks + 1 else ticks)
  {
    match i
    case Tick =>
      TickKeepsRequests(cfg, h);
      TickCounted(cfg, h, e, ticks);
    case DtmfIn(request) => RequestCounted(cfg, h, request, e, ticks);
    case AudioIn(_) =>
  }

  lemma TickKeepsRequests(cfg: Config, h: History)
    requires Consistent(cfg, h)
    ensures OnTick(cfg, h).requests == h.requests
  {
  }

  lemma {:induction false} TonesCounted(cfg: Config, inputs: seq<Input>, e: nat)
    requires (forall i :: i in inputs ==> Admissible(cfg, i)) && e < |Run(cfg, inputs).requests|
    ensures SentPerTick(cfg, Run(cfg, inputs), e, TicksFor(cfg, inputs, e))
  {
    var before := inputs[..|inputs| - 1];
    assert forall i :: i in before ==> i in inputs;
    Tones(cfg, before);
    RunRequests(cfg, before);
    if e < |Run(cfg, before).requests| {
      TonesCounted(cfg, before, e);
    } else {
      NoTicksYet(cfg, before, e);
    }
    NextCounted(cfg, Run(cfg, before), inputs[|inputs| - 1], e, TicksFor(cfg, before, e));
  }

  /**
   Over every run, of the payloads generated for an event exactly as many have been sent as there
   were ticks before the next request, the first ones in order, until all have been.
   */
  lemma ToneProgress(cfg: Config, inputs: seq<Input>, e: nat)
    requires (forall i :: i in inputs ==> Admissible(cfg, i)) && e < |RequestsOf(cfg, inputs)|
    ensures var h := Run(cfg, inputs);
            && h.requests == RequestsOf(cfg, inputs)
            && var all := Generated(cfg, h.requests[e]);
            TonesOf(h.outputs, e) == all[..Min(|all|, TicksFor(cfg, inputs, e))]
  {
    RunRequests(cfg, inputs);
    Tones(cfg, inputs);
    TonesCounted(cfg, inputs, e);
  }

  // ---- how fast the clock goes ----

  /** The clock right after request e. */
  ghost function StampOf(cfg: Config, inputs: seq<Input>, e: nat): (clock: nat)
    requires forall i :: i in inputs ==> Admissible(cfg, i)
  {
    if inputs == [] then 0
    else
      var before := inputs[..|inputs| - 1];
      assert forall i :: i in before ==> i in inputs;
      if |RequestsOf(cfg, before)| <= e < |RequestsOf(cfg, inputs)| then Run(cfg, inputs).clock else StampOf(cfg, before, e)
  }

  lemma OneMoreIncrement(increment: nat, n: nat)
    ensures increment * (n + 1) == increment * n + increment
  {
  }

  /** A step moves the clock and adds a packet or a request, or does neither. */
  lemma NextMoves(cfg: Config, h: History, i: Input)
    requires Consistent(cfg, h) && Admissible(cfg, i)
    ensures var r := Next(cfg, h, i);
            var n, n' := |Packets(h.outputs)| + |h.requests|, |Packets(r.outputs)| + |r.requests|;
            (r.clock == h.clock && n' == n) || (r.clock == h.clock + cfg.increment && n' == n + 1)
  {
    if i.Tick? && Next(cfg, h, i) != h {
      PacketsSnoc(h.outputs, Next(cfg, h, i).outputs[|h.outputs|]);
    }
  }

  /** One increment for every packet sent and every request accepted. */
  ghost predicate ClockCounted(cfg: Config, h: History) {
    h.clock == cfg.clock0 + cfg.increment * (|Packets(h.outputs)| + |h.requests|)
  }

  lemma NextClock(cfg: Config, h: History, i: Input)
    requires Consistent(cfg, h) && Admissible(cfg, i) && ClockCounted(cfg, h)
    ensures ClockCounted(cfg, Next(cfg, h, i))
  {
    NextMoves(cfg, h, i);
    OneMoreIncrement(cfg.increment, |Packets(h.outputs)| + |h.requests|);
  }

  /** Over every run the clock has gone one increment for every packet sent and every request accepted. */
  lemma {:induction false} ClockCounts(cfg: Config, inputs: seq<Input>)
    requires forall i :: i in inputs ==> Admissible(cfg, i)
    ensures ClockCounted(cfg, Run(cfg, inputs))
  {
    if inputs != [] {
      var before := inputs[..|inputs| - 1];
      assert forall i :: i in before ==> i in inputs;
      ClockCounts(cfg, before);
      NextClock(cfg, Run(cfg, before), inputs[|inputs| - 1]);
    }
  }

  /** Tones carry the clock of their request, audio the clock as it has just moved. */
  ghost predicate Stamped(cfg: Config, inputs: seq<Input>, h: History)
    requires forall i :: i in inputs ==> Admissible(cfg, i)
  {
    && (h.requests != [] ==> h.eventClock == StampOf(cfg, inputs, |h.requests| - 1))
    && forall i :: 0 <= i < |h.outputs| ==> ToneStamped(cfg, inputs, h.requests, h.outputs[i])
  }

  ghost predicate ToneStamped(cfg: Config, inputs: seq<Input>, requests: seq<Request>, o: Output)
    requires forall i :: i in inputs ==> Admissible(cfg, i)
  {
    o.Tone? ==> o.event < |requests| && o.clock == StampOf(cfg, inputs, o.event)
  }

  /** Stamps of earlier requests stay. */
  lemma StampStays(cfg: Config, inputs: seq<Input>, e: nat)
    requires inputs != [] && forall i :: i in inputs ==> Admissible(cfg, i)
    requires e < |RequestsOf(cfg, inputs[..|inputs| - 1])|
    ensures forall i :: i in inputs[..|inputs| - 1] ==> Admissible(cfg, i)
    ensures StampOf(cfg, inputs, e) == StampOf(cfg, inputs[..|inputs| - 1], e)
  {
    assert forall i :: i in inputs[..|inputs| - 1] ==> i in inputs;
  }

  lemma OutputsStamped(cfg: Config, inputs: seq<Input>, h: History)
    requires inputs != [] && forall i :: i in inputs ==> Admissible(cfg, i)
    requires forall i :: i in inputs[..|inputs| - 1] ==> Admissible(cfg, i)
    requires h == Run(cfg, inputs[..|inputs| - 1]) && Stamped(cfg, inputs[..|inputs| - 1], h)
    requires h.requests == RequestsOf(cfg, inputs[..|inputs| - 1])
    ensures forall i :: 0 <= i < |h.outputs| ==> ToneStamped(cfg, inputs, Run(cfg, inputs).requests, h.outputs[i])
    ensures h.requests != [] ==> h.eventClock == StampOf(cfg, inputs, |h.requests| - 1)
  {
    if h.requests != [] { StampStays(cfg, inputs, |h.requests| - 1); }
    RequestsGrow(cfg, h, inputs[|inputs| - 1]);
    forall i | 0 <= i < |h.outputs|
      ensures ToneStamped(cfg, inputs, Run(cfg, inputs).requests, h.outputs[i])
    {
      assert ToneStamped(cfg, inputs[..|inputs| - 1], h.requests, h.outputs[i]);
      if h.outputs[i].Tone? { StampStays(cfg, inputs, h.outputs[i].event); }
    }
  }

  lemma RequestsGrow(cfg: Config, h: History, i: Input)
    requires Consistent(cfg, h) && Admissible(cfg, i)
    ensures |h.requests| <= |Next(cfg, h, i).requests|
  {
  }

  /** What a step adds to the outputs, and where the event clock is then. */
  lemma NextStamp(cfg: Config, h: History, i: Input)
    requires Consistent(cfg, h) && Admissible(cfg, i)
    ensures var r := Next(cfg, h, i);
            && (r.outputs == h.outputs
                || (r.requests == h.requests && |r.outputs| == |h.outputs| + 1 && r.outputs[..|h.outputs|] == h.outputs
                    && var o := r.outputs[|h.outputs|];
                    o.Tone? ==> h.requests != [] && o.event == |h.requests| - 1 && o.clock == h.eventClock))
            && (if |r.requests| == |h.requests| then r.eventClock == h.eventClock
                else |r.requests| == |h.requests| + 1 && r.eventClock == r.clock)
  {
  }

  lemma StampsStep(cfg: Config, inputs: seq<Input>, h: History)
    requires inputs != [] && forall i :: i in inputs ==> Admissible(cfg, i)
    requires forall i :: i in inputs[..|inputs| - 1] ==> Admissible(cfg, i)
    requires h == Run(cfg, inputs[..|inputs| - 1]) && Stamped(cfg, inputs[..|inputs| - 1], h)
    requires h.requests == RequestsOf(cfg, inputs[..|inputs| - 1]) && Run(cfg, inputs).requests == RequestsOf(cfg, inputs)
    ensures Stamped(cfg, inputs, Run(cfg, inputs))
  {
    OutputsStamped(cfg, inputs, h);
    NextStamp(cfg, h, inputs[|inputs| - 1]);
    StampsCarry(cfg, inputs, h, Run(cfg, inputs));
  }

  lemma StampsCarry(cfg: Config, inputs: seq<Input>, h: History, r: History)
    requires forall i :: i in inputs ==> Admissible(cfg, i)
    requires forall i :: 0 <= i < |h.outputs| ==> ToneStamped(cfg, inputs, r.requests, h.outputs[i])
    requires h.requests != [] ==> h.eventClock == StampOf(cfg, inputs, |h.requests| - 1)
    requires r.outputs == h.outputs
             || (r.requests == h.requests && |r.outputs| == |h.outputs| + 1 && r.outputs[..|h.outputs|] == h.outputs
                 && var o := r.outputs[|h.outputs|];
                 o.Tone? ==> h.requests != [] && o.event == |h.requests| - 1 && o.clock == h.eventClock)
    requires if |r.requests| == |h.requests| then r.eventClock == h.eventClock
             else |r.requests| == |h.requests| + 1 && r.eventClock == StampOf(cfg, inputs, |h.requests|)
    ensures Stamped(cfg, inputs, r)
  {
    forall i | 0 <= i < |r.outputs|
      ensures ToneStamped(cfg, inputs, r.requests, r.outputs[i])
    {
      assert i < |h.outputs| ==> r.outputs[i] == h.outputs[i];
    }
  }

  lemma {:induction false} RunStamps(cfg: Config, inputs: seq<Input>)
    requires forall i :: i in inputs ==> Admissible(cfg, i)
    ensures Stamped(cfg, inputs, Run(cfg, inputs))
  {
    if inputs != [] {
      var before := inputs[..|inputs| - 1];
      assert forall i :: i in before ==> i in inputs;
      RunStamps(cfg, before);
      RunRequests(cfg, before);
      RunRequests(cfg, inputs);
      StampsStep(cfg, inputs, Run(cfg, before));
    } else {
      assert Run(cfg, inputs) == Start(cfg);
    }
  }

  /**
   A tick that sends audio stamps it with the clock after this tick, and every tone carries the
   clock its request moved to, one increment past the one before the request.
   */
  lemma Stamps(cfg: Config, inputs: seq<Input>, request: Request)
    requires (forall i :: i in inputs ==> Admissible(cfg, i)) && Admissible(cfg, DtmfIn(request))
    ensures Stamped(cfg, inputs, Run(cfg, inputs))
    ensures var h := Run(cfg, inputs);
            var r := Run(cfg, inputs + [Tick]);
            h.pending == [] && |r.outputs| > |h.outputs| && r.outputs[|h.outputs|].Audio? ==>
              r.outputs[|h.outputs|].clock == r.clock == h.clock + cfg.increment
    ensures cfg.stream.dtmfPayloadType != 0 ==>
              StampOf(cfg, inputs + [DtmfIn(request)], |RequestsOf(cfg, inputs)|) == Run(cfg, inputs).clock + cfg.increment
  {
    RunStamps(cfg, inputs);
    assert (inputs + [Tick])[..|inputs|] == inputs;
    assert (inputs + [DtmfIn(request)])[..|inputs|] == inputs;
  }
}
