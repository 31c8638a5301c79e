/**
 DTMF end to end: a writer's run, a channel that may drop or duplicate packets but not
 reorder them, and the reader's de-duplication by timestamp
 (StartReader, internal/rtp/rtp_handler.go).
 */
module Delivery {
  import opened Bytes
  import opened Results
  import opened Dtmf
  import opened Text
  import opened Writer
  import opened WriterLoop
  import Streams
  import Rtp

  // ---- the reader ----

  /** `last` is the timestamp of the last reported end packet, initially zero. */
  datatype ReaderState = ReaderState(last: Word32, callbacks: seq<Event>)

  function ReaderStep(dtmfType: Byte, s: ReaderState, raw: seq<Byte>): (r: ReaderState) {
    match Rtp.Parse(raw)
    case None => s
    case Some(packet) => TakePacket(dtmfType, s, packet)
  }

  function TakePacket(dtmfType: Byte, s: ReaderState, packet: Rtp.Packet): (r: ReaderState) {
    if dtmfType != 0 && packet.payloadType == dtmfType then
      match ParseDTMFPayload(packet.payload)
      case Failure => s
      case Success(event) =>
        if !event.end then s.(callbacks := s.callbacks + [event])
        else if packet.timestamp != s.last then ReaderState(packet.timestamp, s.callbacks + [event])
        else s
    else s
  }

  function Receive(dtmfType: Byte, packets: seq<seq<Byte>>): (s: ReaderState) {
    if packets == [] then ReaderState(0, [])
    else ReaderStep(dtmfType, Receive(dtmfType, packets[..|packets| - 1]), packets[|packets| - 1])
  }

  /** The reports of finished digits. */
  function Ends(callbacks: seq<Event>): (r: seq<Event>) {
    if callbacks == [] then []
    else
      var last := callbacks[|callbacks| - 1];
      Ends(callbacks[..|callbacks| - 1]) + if last.end then [last] else []
  }

  lemma EndsSnoc(callbacks: seq<Event>, e: Event)
    ensures Ends(callbacks + [e]) == Ends(callbacks) + if e.end then [e] else []
  {
    assert (callbacks + [e])[..|callbacks|] == callbacks;
  }

  class RtpReader {
    const dtmfPayloadType: Byte
    var lastDTMFTimestamp: Word32
    var reported: seq<Event>

    constructor (dtmfPayloadType: Byte)
      ensures this.dtmfPayloadType == dtmfPayloadType && State() == Receive(dtmfPayloadType, [])
    {
      this.dtmfPayloadType := dtmfPayloadType;
      lastDTMFTimestamp, reported := 0, [];
    }

    function State(): (s: ReaderState)
      reads this
    {
      ReaderState(lastDTMFTimestamp, reported)
    }

    /** One packet from the socket; every parsed packet goes on to the jitter buffer. */
    method HandlePacket(buffer: seq<Byte>) returns (pushed: bool)
      modifies this
      ensures State() == ReaderStep(dtmfPayloadType, old(State()), buffer)
      ensures pushed <==> Rtp.Parse(buffer).Some?
    {
      var packet := Rtp.Parse(buffer);
      if packet.None? {
        return false;
      }
      if dtmfPayloadType != 0 && packet.value.payloadType == dtmfPayloadType {
        var event := ParseDTMFPayload(packet.value.payload);
        if event.Success? {
          if event.value.end {
            if packet.value.timestamp != lastDTMFTimestamp {
              lastDTMFTimestamp := packet.value.timestamp;
              reported := reported + [event.value];
            }
          } else {
            reported := reported + [event.value];
          }
        }
      }
      return true;
    }
  }

  // ---- the wire ----

  /** What a receiver reads of the k-th packet of a run. */
  lemma WireParse(cfg: Config, packets: seq<Output>, k: nat)
    requires forall i :: 0 <= i < |packets| ==> !packets[i].Lost?
    requires k < |packets|
    ensures var o, p := packets[k], Rtp.Parse(Wire(cfg, packets)[k]);
            && p.Some?
            && p.value.seqNum == (cfg.seq0 + k + 1) % WORD16
            && p.value.timestamp == o.clock % WORD32
            && p.value.payload == o.payload
            && p.value.payloadType == (if o.Tone? then cfg.stream.dtmfPayloadType else cfg.stream.codec.payloadType) % 128
  {
    WireBytesParse(cfg, packets[k], k + 1);
  }

  /** The number of the k-th packet, as a receiver reads it, follows the one before. */
  ghost predicate FollowsInNumber(cfg: Config, sent: seq<seq<Byte>>, k: nat)
    requires k < |sent|
  {
    && Rtp.Parse(sent[k]).Some?
    && (k > 0 ==> Rtp.Parse(sent[k - 1]).Some?)
    && Rtp.Parse(sent[k]).value.seqNum
    == ((if k == 0 then cfg.seq0 else Rtp.Parse(sent[k - 1]).value.seqNum) + 1) % WORD16
  }

  lemma WireNumber(cfg: Config, packets: seq<Output>, k: nat)
    requires forall i :: 0 <= i < |packets| ==> !packets[i].Lost?
    requires k < |packets|
    ensures var p := Rtp.Parse(Wire(cfg, packets)[k]); p.Some? && p.value.seqNum == (cfg.seq0 + k + 1) % WORD16
  {
    WireParse(cfg, packets, k);
  }

  lemma NumbersFollow(cfg: Config, packets: seq<Output>, k: nat)
    requires forall i :: 0 <= i < |packets| ==> !packets[i].Lost?
    requires k < |packets|
    ensures FollowsInNumber(cfg, Wire(cfg, packets), k)
  {
    WireNumber(cfg, packets, k);
    Carry(cfg.seq0 + k, 1, WORD16);
    if k > 0 { WireNumber(cfg, packets, k - 1); }
  }

  /** Every packet of a run carries the previous sequence number plus one, modulo 2^16. */
  lemma SequenceNumbers(cfg: Config, inputs: seq<Input>, k: nat)
    requires forall i :: i in inputs ==> Admissible(cfg, i)
    requires k < |Packets(Run(cfg, inputs).outputs)|
    ensures FollowsInNumber(cfg, Wire(cfg, Packets(Run(cfg, inputs).outputs)), k)
  {
    NumbersFollow(cfg, Packets(Run(cfg, inputs).outputs), k);
  }

  /** So does every packet the event loop has written, whatever reached it. */
  lemma LoopNumbersPackets(w: RtpWriter, k: nat)
    requires w.Valid() && k < |w.written|
    ensures FollowsInNumber(w.cfg, w.written, k)
  {
    SequenceNumbers(w.cfg, w.inputs, k);
  }

  /** Packets may be lost or repeated, never reordered: delivery follows these positions. */
  ghost predicate Lossy(sent: seq<seq<Byte>>, delivered: seq<seq<Byte>>, positions: seq<nat>) {
    && |positions| == |delivered|
    && (forall j :: 0 <= j < |positions| ==> positions[j] < |sent| && delivered[j] == sent[positions[j]])
    && (forall i, j :: 0 <= i < j < |positions| ==> positions[i] <= positions[j])
  }

  predicate IsEnd(o: Output) {
    o.Tone? && |o.payload| == 4 && o.payload[1] >= 128
  }

  /** What the agent's request should be reported as. */
  function Report(cfg: Config, r: Request): (e: Event) {
    Event(EventToDigit(DigitToEvent(r.digit)), Total(cfg, r), true)
  }

  /** What the update packet at this place should be reported as. */
  ghost function UpdateReport(cfg: Config, r: Request, i: nat): (e: Event)
    requires Stops(Total(cfg, r), Step(cfg, r)) && i < UpdateCount(Total(cfg, r), Step(cfg, r))
  {
    Event(EventToDigit(DigitToEvent(r.digit)), UpdateDuration(Total(cfg, r), Step(cfg, r), i), false)
  }

  lemma GeneratedParses(cfg: Config, r: Request, i: nat)
    requires Stops(Total(cfg, r), Step(cfg, r)) && i < |Generated(cfg, r)|
    ensures var p := Generated(cfg, r)[i];
            && |p| == 4
            && ParseDTMFPayload(p).Success?
            && ParseDTMFPayload(p).value.end == (p[1] >= 128)
            && (p[1] >= 128 ==> ParseDTMFPayload(p).value == Report(cfg, r))
            && (p[1] >= 128 <==> i >= UpdateCount(Total(cfg, r), Step(cfg, r)))
            && (p[1] < 128 ==> ParseDTMFPayload(p).value == UpdateReport(cfg, r, i))
  {
    var event, total, step := DigitToEvent(r.digit), Total(cfg, r), Step(cfg, r);
    var n := UpdateCount(total, step);
    if i < n {
      assert Generated(cfg, r)[i] == UpdatePayload(event, UpdateDuration(total, step, i));
      ParseGenerated(event, UpdateDuration(total, step, i));
    } else {
      assert Generated(cfg, r)[i] == EndPayload(event, total);
      ParseGenerated(event, total);
    }
  }

  /** A DTMF payload type a receiver can tell from the audio. */
  predicate Distinguishable(cfg: Config) {
    && 0 < cfg.stream.dtmfPayloadType < 128
    && cfg.stream.dtmfPayloadType != cfg.stream.codec.payloadType % 128
  }

  /** How the reader takes a DTMF packet with this payload. */
  lemma ReadTone(dtmfType: Byte, s: ReaderState, packet: Rtp.Packet, event: Event)
    requires dtmfType != 0 && packet.payloadType == dtmfType
    requires ParseDTMFPayload(packet.payload) == Success(event)
    ensures var r := TakePacket(dtmfType, s, packet);
            if event.end then
              if packet.timestamp == s.last then r == s
              else r.last == packet.timestamp && Ends(r.callbacks) == Ends(s.callbacks) + [event]
            else r.last == s.last && Ends(r.callbacks) == Ends(s.callbacks)
  {
    EndsSnoc(s.callbacks, event);
    assert Ends(s.callbacks) + [] == Ends(s.callbacks);
  }

  /** A tone's payload says whether it ends its event, and then reports it. */
  lemma ToneParses(cfg: Config, requests: seq<Request>, o: Output)
    requires AllStop(cfg, requests) && o.Tone? && ToneIsGenerated(cfg, requests, o)
    ensures var r := ParseDTMFPayload(o.payload);
            r.Success? && r.value.end == IsEnd(o) && (IsEnd(o) ==> r.value == Report(cfg, requests[o.event]))
  {
    GeneratedParses(cfg, requests[o.event], o.index);
  }

  /** How the reader takes the k-th packet of a run. */
  lemma ReadPacket(cfg: Config, requests: seq<Request>, packets: seq<Output>, k: nat, s: ReaderState)
    requires Distinguishable(cfg) && AllStop(cfg, requests)
    requires forall i :: 0 <= i < |packets| ==> !packets[i].Lost?
    requires k < |packets| && ToneIsGenerated(cfg, requests, packets[k])
    ensures ReadAs(cfg, requests, packets[k], s, ReaderStep(cfg.stream.dtmfPayloadType, s, Wire(cfg, packets)[k]))
  {
    var raw := Wire(cfg, packets)[k];
    WireParse(cfg, packets, k);
    ReadParsed(cfg, requests, packets[k], s, Rtp.Parse(raw).value);
  }

  /** From s the reader goes on to r: an end packet with a new stamp is reported, any other reports no end. */
  ghost predicate ReadAs(cfg: Config, requests: seq<Request>, o: Output, s: ReaderState, r: ReaderState)
    requires o.Tone? ==> o.event < |requests|
  {
    if IsEnd(o) then
      if o.clock % WORD32 == s.last then r == s
      else r.last == o.clock % WORD32 && Ends(r.callbacks) == Ends(s.callbacks) + [Report(cfg, requests[o.event])]
    else r.last == s.last && Ends(r.callbacks) == Ends(s.callbacks)
  }

  lemma ReadGenerated(cfg: Config, requests: seq<Request>, o: Output, s: ReaderState, packet: Rtp.Packet)
    requires AllStop(cfg, requests) && o.Tone? && ToneIsGenerated(cfg, requests, o)
    requires packet.payloadType == cfg.stream.dtmfPayloadType != 0
    requires packet.timestamp == o.clock % WORD32 && packet.payload == o.payload
    ensures ReadAs(cfg, requests, o, s, TakePacket(cfg.stream.dtmfPayloadType, s, packet))
  {
    ToneParses(cfg, requests, o);
    ReadTone(cfg.stream.dtmfPayloadType, s, packet, ParseDTMFPayload(packet.payload).value);
  }

  /** A packet with the stamp and payload of the output, under its payload type. */
  lemma ReadParsed(cfg: Config, requests: seq<Request>, o: Output, s: ReaderState, packet: Rtp.Packet)
    requires Distinguishable(cfg) && AllStop(cfg, requests) && !o.Lost? && ToneIsGenerated(cfg, requests, o)
    requires packet.payloadType == (if o.Tone? then cfg.stream.dtmfPayloadType else cfg.stream.codec.payloadType) % 128
    requires packet.timestamp == o.clock % WORD32 && packet.payload == o.payload
    ensures ReadAs(cfg, requests, o, s, TakePacket(cfg.stream.dtmfPayloadType, s, packet))
  {
    if o.Tone? {
      DivisionUnique(cfg.stream.dtmfPayloadType, 0, cfg.stream.dtmfPayloadType, 128);
      ReadGenerated(cfg, requests, o, s, packet);
    }
  }

  // ---- exactly once ----

  /** What matters of a delivered packet: the event it ends and its stamp, or neither. */
  datatype Arrival = End(event: nat, stamp: Word32) | Other

  function ArrivalOf(o: Output): (a: Arrival) {
    if IsEnd(o) then End(o.event, o.clock % WORD32) else Other
  }

  function Arrivals(packets: seq<Output>, positions: seq<nat>): (d: seq<Arrival>)
    requires forall j :: 0 <= j < |positions| ==> positions[j] < |packets|
    ensures |d| == |positions|
  {
    seq(|positions|, j requires 0 <= j < |positions| => ArrivalOf(packets[positions[j]]))
  }

  function Reports(cfg: Config, requests: seq<Request>): (r: seq<Event>)
    ensures |r| == |requests|
  {
    seq(|requests|, i requires 0 <= i < |requests| => Report(cfg, requests[i]))
  }

  /** The reports of these events, in order. */
  function Pick(reports: seq<Event>, events: seq<nat>): (r: seq<Event>)
    requires forall i :: 0 <= i < |events| ==> events[i] < |reports|
    ensures |r| == |events|
  {
    seq(|events|, i requires 0 <= i < |events| => reports[events[i]])
  }

  ghost predicate Increasing(s: seq<nat>) {
    forall i, j :: 0 <= i < j < |s| ==> s[i] < s[j]
  }

  /** End packets arrive in event order; one event has one stamp, different events have different stamps. */
  ghost predicate EndsInOrder(n: nat, d: seq<Arrival>) {
    && (forall j :: 0 <= j < |d| && d[j].End? ==> d[j].event < n)
    && (forall i, j :: 0 <= i < j < |d| && d[i].End? && d[j].End? ==>
          && d[i].event <= d[j].event
          && (d[i].event == d[j].event <==> d[i].stamp == d[j].stamp))
  }

  /** The events with an end packet among d, each once, in order. */
  ghost predicate EndedEvents(d: seq<Arrival>, events: seq<nat>) {
    && Increasing(events)
    && (forall e: nat :: e in events <==> EndedIn(d, e))
  }

  ghost predicate EndedIn(d: seq<Arrival>, e: nat) {
    exists j :: 0 <= j < |d| && d[j].End? && d[j].event == e
  }

  /** The last end packet so far. */
  function LastEnd(d: seq<Arrival>): (r: Arrival)
    ensures r.Other? <==> forall j :: 0 <= j < |d| ==> d[j].Other?
    ensures r.End? ==> r in d
  {
    if d == [] then Other
    else if d[|d| - 1].End? then d[|d| - 1]
    else LastEnd(d[..|d| - 1])
  }

  function FirstEnd(d: seq<Arrival>): (r: Arrival)
    ensures r.Other? <==> forall j :: 0 <= j < |d| ==> d[j].Other?
    ensures r.End? ==> r in d
  {
    if d == [] then Other
    else
      var first := FirstEnd(d[..|d| - 1]);
      if first.End? then first else d[|d| - 1]
  }

  /** The events reported: all that ended, but for a first one stamped zero. */
  function ReportedEvents(first: Arrival, events: seq<nat>): (r: seq<nat>) {
    if events != [] && first.End? && first.stamp == 0 then events[1..] else events
  }

  /** The reader's stamp and reports, given the first and the last end packet. */
  ghost predicate Tally(reports: seq<Event>, first: Arrival, latest: Arrival, last: Word32, ends: seq<Event>, events: seq<nat>) {
    && (forall i :: 0 <= i < |events| ==> events[i] < |reports|)
    && (if events == [] then first.Other? && latest.Other?
        else first.End? && latest.End? && latest.event == events[|events| - 1])
    && last == (if latest.End? then latest.stamp else 0)
    && ends == Pick(reports, ReportedEvents(first, events))
  }

  /** The reader after the arrivals d. */
  ghost predicate InStep(reports: seq<Event>, d: seq<Arrival>, last: Word32, ends: seq<Event>, events: seq<nat>) {
    EndedEvents(d, events) && Tally(reports, FirstEnd(d), LastEnd(d), last, ends, events)
  }

  lemma EndedInSnoc(d: seq<Arrival>, a: Arrival, e: nat)
    ensures EndedIn(d + [a], e) <==> EndedIn(d, e) || (a.End? && a.event == e)
  {
    if EndedIn(d, e) {
      var j :| 0 <= j < |d| && d[j].End? && d[j].event == e;
      assert (d + [a])[j] == d[j];
    }
    if a.End? && a.event == e {
      assert (d + [a])[|d|] == a;
    }
  }

  lemma EndsSnocBoth(d: seq<Arrival>, a: Arrival)
    ensures LastEnd(d + [a]) == if a.End? then a else LastEnd(d)
    ensures FirstEnd(d + [a]) == if FirstEnd(d).End? then FirstEnd(d) else a
  {
    assert (d + [a])[..|d|] == d;
  }

  /** An arrival that ends no new event changes neither the events nor the reports. */
  lemma OldArrival(reports: seq<Event>, d: seq<Arrival>, a: Arrival, last: Word32, ends: seq<Event>, events: seq<nat>)
    requires InStep(reports, d, last, ends, events)
    requires a.End? ==> LastEnd(d) == a
    ensures InStep(reports, d + [a], last, ends, events)
  {
    EndsSnocBoth(d, a);
    forall e: nat
      ensures e in events <==> EndedIn(d + [a], e)
    {
      EndedInSnoc(d, a, e);
    }
  }

  lemma NewEvent(d: seq<Arrival>, a: Arrival, events: seq<nat>)
    requires EndedEvents(d, events) && a.End? && (events != [] ==> events[|events| - 1] < a.event)
    ensures EndedEvents(d + [a], events + [a.event])
  {
    var events' := events + [a.event];
    forall e: nat
      ensures e in events' <==> EndedIn(d + [a], e)
    {
      EndedInSnoc(d, a, e);
      assert e in events' <==> e in events || e == a.event;
    }
    forall i, j | 0 <= i < j < |events'|
      ensures events'[i] < events'[j]
    {
      assert i < |events| - 1 ==> events[i] < events[|events| - 1];
    }
  }

  lemma PickSnoc(reports: seq<Event>, events: seq<nat>, e: nat)
    requires (forall i :: 0 <= i < |events| ==> events[i] < |reports|) && e < |reports|
    ensures forall i :: 0 <= i < |events + [e]| ==> (events + [e])[i] < |reports|
    ensures Pick(reports, events + [e]) == Pick(reports, events) + [reports[e]]
  {
  }

  lemma NewTally(reports: seq<Event>, first: Arrival, latest: Arrival, a: Arrival, last: Word32, ends: seq<Event>, events: seq<nat>)
    requires Tally(reports, first, latest, last, ends, events)
    requires a.End? && a.event < |reports| && (events != [] ==> a.stamp != last)
    ensures Tally(reports, if first.End? then first else a, a, a.stamp,
                  if a.stamp == last then ends else ends + [reports[a.event]], events + [a.event])
  {
    var reported := ReportedEvents(first, events);
    if events != [] {
      assert (events + [a.event])[1..] == events[1..] + [a.event];
      PickSnoc(reports, reported, a.event);
    } else {
      assert (events + [a.event])[1..] == [];
    }
  }

  /** The first end packet of an event is reported, unless it is the very first and stamped zero. */
  lemma NewArrival(reports: seq<Event>, d: seq<Arrival>, a: Arrival, last: Word32, ends: seq<Event>, events: seq<nat>)
    requires InStep(reports, d, last, ends, events)
    requires a.End? && a.event < |reports| && (events != [] ==> events[|events| - 1] < a.event && a.stamp != last)
    ensures InStep(reports, d + [a], a.stamp, if a.stamp == last then ends else ends + [reports[a.event]], events + [a.event])
  {
    EndsSnocBoth(d, a);
    NewEvent(d, a, events);
    NewTally(reports, FirstEnd(d), LastEnd(d), a, last, ends, events);
  }

  /** How one more packet changes the reader, as ReadPacket describes it. */
  ghost predicate Reads(reports: seq<Event>, a: Arrival, s: ReaderState, r: ReaderState) {
    if a.End? then
      if a.stamp == s.last then r == s
      else
        && a.event < |reports|
        && r.last == a.stamp
        && Ends(r.callbacks) == Ends(s.callbacks) + [reports[a.event]]
    else r.last == s.last && Ends(r.callbacks) == Ends(s.callbacks)
  }

  lemma StepDelivers(reports: seq<Event>, d: seq<Arrival>, a: Arrival, s: ReaderState, r: ReaderState, events: seq<nat>)
    returns (events': seq<nat>)
    requires EndsInOrder(|reports|, d + [a])
    requires InStep(reports, d, s.last, Ends(s.callbacks), events) && Reads(reports, a, s, r)
    ensures InStep(reports, d + [a], r.last, Ends(r.callbacks), events')
  {
    var d' := d + [a];
    assert d'[|d|] == a;
    if a.Other? {
      events' := events;
      OldArrival(reports, d, a, s.last, Ends(s.callbacks), events);
    } else if events == [] {
      events' := events + [a.event];
      NewArrival(reports, d, a, s.last, Ends(s.callbacks), events);
    } else {
      var j :| 0 <= j < |d| && d[j] == LastEnd(d);
      assert d'[j] == d[j];
      if a.event == d[j].event {
        events' := events;
        OldArrival(reports, d, a, s.last, Ends(s.callbacks), events);
      } else {
        events' := events + [a.event];
        NewArrival(reports, d, a, s.last, Ends(s.callbacks), events);
      }
    }
  }

  /** Any run of a reader over the arrivals d. */
  lemma {:induction false} ArrivalRun(reports: seq<Event>, d: seq<Arrival>, states: seq<ReaderState>) returns (events: seq<nat>)
    requires EndsInOrder(|reports|, d) && |states| == |d| + 1 && states[0] == ReaderState(0, [])
    requires forall k :: 0 <= k < |d| ==> Reads(reports, d[k], states[k], states[k + 1])
    ensures InStep(reports, d, states[|d|].last, Ends(states[|d|].callbacks), events)
    decreases |d|
  {
    if d == [] {
      events := [];
    } else {
      var n := |d| - 1;
      var before := ArrivalRun(reports, d[..n], states[..n + 1]);
      assert d == d[..n] + [d[n]];
      events := StepDelivers(reports, d[..n], d[n], states[n], states[n + 1], before);
    }
  }

  lemma ReadsDelivered(cfg: Config, requests: seq<Request>, packets: seq<Output>,
                       delivered: seq<seq<Byte>>, positions: seq<nat>, k: nat)
    requires Distinguishable(cfg) && AllStop(cfg, requests)
    requires forall i :: 0 <= i < |packets| ==> !packets[i].Lost? && ToneIsGenerated(cfg, requests, packets[i])
    requires Lossy(Wire(cfg, packets), delivered, positions) && k < |delivered|
    ensures Reads(Reports(cfg, requests), Arrivals(packets, positions)[k],
                  Receive(cfg.stream.dtmfPayloadType, delivered[..k]), Receive(cfg.stream.dtmfPayloadType, delivered[..k + 1]))
  {
    assert delivered[..k + 1][..k] == delivered[..k];
    ReadPacket(cfg, requests, packets, positions[k], Receive(cfg.stream.dtmfPayloadType, delivered[..k]));
  }

  lemma DeliveryRun(cfg: Config, requests: seq<Request>, packets: seq<Output>,
                    delivered: seq<seq<Byte>>, positions: seq<nat>)
    returns (events: seq<nat>)
    requires Distinguishable(cfg) && AllStop(cfg, requests)
    requires forall i :: 0 <= i < |packets| ==> !packets[i].Lost? && ToneIsGenerated(cfg, requests, packets[i])
    requires Lossy(Wire(cfg, packets), delivered, positions)
    requires EndsInOrder(|requests|, Arrivals(packets, positions))
    ensures var s := Receive(cfg.stream.dtmfPayloadType, delivered);
            InStep(Reports(cfg, requests), Arrivals(packets, positions), s.last, Ends(s.callbacks), events)
  {
    var dtmfType, n := cfg.stream.dtmfPayloadType, |delivered|;
    var states := seq(n + 1, k requires 0 <= k <= n => Receive(dtmfType, delivered[..k]));
    forall k | 0 <= k < n
      ensures Reads(Reports(cfg, requests), Arrivals(packets, positions)[k], states[k], states[k + 1])
    {
      ReadsDelivered(cfg, requests, packets, delivered, positions, k);
    }
    assert delivered[..n] == delivered;
    events := ArrivalRun(Reports(cfg, requests), Arrivals(packets, positions), states);
  }

  /** Two moments less than 2^32 apart have different wire timestamps. */
  lemma StampsDiffer(a: nat, b: nat)
    requires a < b && b - a < WORD32
    ensures a % WORD32 != b % WORD32
  {
  }

  /** In a run that advances fewer than 2^32 samples, delivered end packets are in order. */
  lemma RunEndsInOrder(cfg: Config, h: History, positions: seq<nat>)
    requires Ordered(cfg, h) && h.clock - cfg.clock0 < WORD32
    requires var p := Packets(h.outputs);
             && (forall j :: 0 <= j < |positions| ==> positions[j] < |p|)
             && (forall i, j :: 0 <= i < j < |positions| ==> positions[i] <= positions[j])
    ensures EndsInOrder(|h.requests|, Arrivals(Packets(h.outputs), positions))
  {
    var p := Packets(h.outputs);
    var d := Arrivals(p, positions);
    forall i, j | 0 <= i < j < |d| && d[i].End? && d[j].End?
      ensures d[i].event <= d[j].event
      ensures d[i].event == d[j].event <==> d[i].stamp == d[j].stamp
    {
      var a, b := p[positions[i]], p[positions[j]];
      if positions[i] < positions[j] {
        assert Follows(a, b);
        if a.event != b.event {
          StampsDiffer(a.clock, b.clock);
        }
      }
    }
  }

  lemma PacketsAreGenerated(cfg: Config, requests: seq<Request>, outputs: seq<Output>)
    requires AllStop(cfg, requests)
    requires forall i :: 0 <= i < |outputs| ==> ToneIsGenerated(cfg, requests, outputs[i])
    ensures forall i :: 0 <= i < |Packets(outputs)| ==> ToneIsGenerated(cfg, requests, Packets(outputs)[i])
  {
    if outputs != [] {
      PacketsAreGenerated(cfg, requests, outputs[..|outputs| - 1]);
    }
  }

  /**
   For any run of the writer and any channel that drops or repeats but does not reorder,
   the reader reports each event with at least one delivered end packet exactly once, with
   its digit and total duration, in order; but if the first delivered end packet is stamped
   zero, which the reader takes for its initial state, it misses exactly that one event.
   */
  lemma ExactlyOnce(cfg: Config, inputs: seq<Input>, delivered: seq<seq<Byte>>, positions: seq<nat>)
    returns (events: seq<nat>)
    requires Distinguishable(cfg) && cfg.increment > 0
    requires forall i :: i in inputs ==> Admissible(cfg, i)
    requires Run(cfg, inputs).clock - cfg.clock0 < WORD32
    requires Lossy(Wire(cfg, Packets(Run(cfg, inputs).outputs)), delivered, positions)
    ensures var h := Run(cfg, inputs);
            var d := Arrivals(Packets(h.outputs), positions);
            && EndedEvents(d, events)
            && (forall i :: 0 <= i < |events| ==> events[i] < |h.requests|)
            && Ends(Receive(cfg.stream.dtmfPayloadType, delivered).callbacks)
            == Pick(Reports(cfg, h.requests), ReportedEvents(FirstEnd(d), events))
    ensures var d := Arrivals(Packets(Run(cfg, inputs).outputs), positions);
            |Ends(Receive(cfg.stream.dtmfPayloadType, delivered).callbacks)| == |events|
            <==> !(FirstEnd(d).End? && FirstEnd(d).stamp == 0)
  {
    var h := Run(cfg, inputs);
    Timestamps(cfg, inputs);
    Tones(cfg, inputs);
    PacketsAreGenerated(cfg, h.requests, h.outputs);
    RunEndsInOrder(cfg, h, positions);
    events := DeliveryRun(cfg, h.requests, Packets(h.outputs), delivered, positions);
    var first := FirstEnd(Arrivals(Packets(h.outputs), positions));
    if first.End? {
      assert EndedIn(Arrivals(Packets(h.outputs), positions), first.event);
    }
  }

  /** Without a negotiated event type nothing is ever reported, type 0 audio included. */
  lemma {:induction false} NothingNegotiated(packets: seq<seq<Byte>>)
    ensures Receive(0, packets) == ReaderState(0, [])
  {
    if packets != [] {
      NothingNegotiated(packets[..|packets| - 1]);
    }
  }

  /** Packets of other types, and events that do not parse, change nothing. */
  lemma OthersIgnored(dtmfType: Byte, s: ReaderState, packet: Rtp.Packet)
    requires packet.payloadType != dtmfType || |packet.payload| < 4
    ensures TakePacket(dtmfType, s, packet) == s
  {
  }

  // ---- updates ----

  /** The reports of digits still going on. */
  function Ongoing(callbacks: seq<Event>): (r: seq<Event>) {
    if callbacks == [] then []
    else
      var last := callbacks[|callbacks| - 1];
      Ongoing(callbacks[..|callbacks| - 1]) + if last.end then [] else [last]
  }

  lemma OngoingSnoc(callbacks: seq<Event>, e: Event)
    ensures Ongoing(callbacks + [e]) == Ongoing(callbacks) + if e.end then [] else [e]
  {
    assert (callbacks + [e])[..|callbacks|] == callbacks;
  }

  lemma ToneUpdates(dtmfType: Byte, s: ReaderState, packet: Rtp.Packet, event: Event)
    requires dtmfType != 0 && packet.payloadType == dtmfType
    requires ParseDTMFPayload(packet.payload) == Success(event)
    ensures Ongoing(TakePacket(dtmfType, s, packet).callbacks) == Ongoing(s.callbacks) + if event.end then [] else [event]
  {
    OngoingSnoc(s.callbacks, event);
    assert Ongoing(s.callbacks) + [] == Ongoing(s.callbacks);
  }

  /** The update a sent packet carries, if it carries one. */
  ghost function UpdateOf(cfg: Config, requests: seq<Request>, o: Output): (r: seq<Event>)
    requires AllStop(cfg, requests) && ToneIsGenerated(cfg, requests, o)
  {
    if o.Tone? && o.index < UpdateCount(Total(cfg, requests[o.event]), Step(cfg, requests[o.event]))
    then [UpdateReport(cfg, requests[o.event], o.index)] else []
  }

  lemma ReadUpdate(cfg: Config, requests: seq<Request>, o: Output, s: ReaderState, packet: Rtp.Packet)
    requires Distinguishable(cfg) && AllStop(cfg, requests) && !o.Lost? && ToneIsGenerated(cfg, requests, o)
    requires packet.payloadType == (if o.Tone? then cfg.stream.dtmfPayloadType else cfg.stream.codec.payloadType) % 128
    requires packet.payload == o.payload
    ensures Ongoing(TakePacket(cfg.stream.dtmfPayloadType, s, packet).callbacks) == Ongoing(s.callbacks) + UpdateOf(cfg, requests, o)
  {
    if o.Tone? {
      DivisionUnique(cfg.stream.dtmfPayloadType, 0, cfg.stream.dtmfPayloadType, 128);
      GeneratedParses(cfg, requests[o.event], o.index);
      ToneUpdates(cfg.stream.dtmfPayloadType, s, packet, ParseDTMFPayload(o.payload).value);
    } else {
      assert Ongoing(s.callbacks) + [] == Ongoing(s.callbacks);
    }
  }

  /** The updates of the packets at these positions, in order. */
  ghost function UpdatesAt(cfg: Config, requests: seq<Request>, packets: seq<Output>, positions: seq<nat>): (r: seq<Event>)
    requires AllStop(cfg, requests) && forall i :: 0 <= i < |packets| ==> ToneIsGenerated(cfg, requests, packets[i])
    requires forall j :: 0 <= j < |positions| ==> positions[j] < |packets|
  {
    if positions == [] then []
    else
      var n := |positions| - 1;
      UpdatesAt(cfg, requests, packets, positions[..n]) + UpdateOf(cfg, requests, packets[positions[n]])
  }

  lemma {:induction false} UpdatesDelivered(cfg: Config, requests: seq<Request>, packets: seq<Output>,
                                            delivered: seq<seq<Byte>>, positions: seq<nat>)
    requires Distinguishable(cfg) && AllStop(cfg, requests)
    requires forall i :: 0 <= i < |packets| ==> !packets[i].Lost? && ToneIsGenerated(cfg, requests, packets[i])
    requires Lossy(Wire(cfg, packets), delivered, positions)
    ensures Ongoing(Receive(cfg.stream.dtmfPayloadType, delivered).callbacks) == UpdatesAt(cfg, requests, packets, positions)
    decreases |delivered|
  {
    if delivered != [] {
      var n := |delivered| - 1;
      UpdatesDelivered(cfg, requests, packets, delivered[..n], positions[..n]);
      WireParse(cfg, packets, positions[n]);
      ReadUpdate(cfg, requests, packets[positions[n]], Receive(cfg.stream.dtmfPayloadType, delivered[..n]),
                 Rtp.Parse(delivered[n]).value);
    }
  }

  /**
   The reader reports every delivered update packet of a run, repeated ones each time, in order
   of delivery, with the digit of its request and the duration of its place.
   */
  lemma UpdatesReported(cfg: Config, inputs: seq<Input>, delivered: seq<seq<Byte>>, positions: seq<nat>)
    requires Distinguishable(cfg) && forall i :: i in inputs ==> Admissible(cfg, i)
    requires Lossy(Wire(cfg, Packets(Run(cfg, inputs).outputs)), delivered, positions)
    ensures var h := Run(cfg, inputs);
            && (forall i :: 0 <= i < |Packets(h.outputs)| ==> ToneIsGenerated(cfg, h.requests, Packets(h.outputs)[i]))
            && Ongoing(Receive(cfg.stream.dtmfPayloadType, delivered).callbacks)
            == UpdatesAt(cfg, h.requests, Packets(h.outputs), positions)
  {
    var h := Run(cfg, inputs);
    Tones(cfg, inputs);
    PacketsAreGenerated(cfg, h.requests, h.outputs);
    UpdatesDelivered(cfg, h.requests, Packets(h.outputs), delivered, positions);
  }

  /** A report names the requested key in upper case exactly when the request named one of the sixteen keys. */
  lemma ReportNamesDigit(cfg: Config, r: Request)
    ensures Report(cfg, r).digit == ToUpper(r.digit) <==> |r.digit| == 1 && IsDigit(r.digit[0])
  {
    DigitRoundTrip(r.digit);
  }

  // ---- an event that is missed ----

  /** A PCMU call whose random initial timestamp is one packet short of 2^32. */
  const LATE_CLOCK := Config(Streams.Stream(Streams.NewCodecG711MuLaw(), 20, 101), Streams.PCMU, 160, 160, 0, WORD32 - 160, 7)

  const FIVE := Request("5", 20)

  lemma FiveGenerates()
    ensures Stops(Total(LATE_CLOCK, FIVE), Step(LATE_CLOCK, FIVE))
    ensures Generated(LATE_CLOCK, FIVE) == [UpdatePayload(5, 160), EndPayload(5, 160), EndPayload(5, 160), EndPayload(5, 160)]
  {
    assert Total(LATE_CLOCK, FIVE) == 160 && Step(LATE_CLOCK, FIVE) == 160;
    NoWrapCount(160, 160);
    assert Updates(5, 160, 160, 1) == [UpdatePayload(5, 160)];
  }

  const FIRST_TONE := Tone(0, 0, [], WORD32, UpdatePayload(5, 160))
  const SECOND_TONE := Tone(0, 1, [], WORD32, EndPayload(5, 160))

  const FIVE_INPUTS := [DtmfIn(FIVE), Tick, Tick]

  /** The digit's only update and its first end packet are sent, stamped zero. */
  lemma FiveIsSent() returns (h: History)
    ensures Reached(LATE_CLOCK, FIVE_INPUTS, h)
    ensures h.requests == [FIVE] && h.outputs == [FIRST_TONE, SECOND_TONE]
    ensures h.clock == LATE_CLOCK.clock0 + 480
  {
    FiveGenerates();
    var h0 := Start(LATE_CLOCK);
    ReachedSnoc(LATE_CLOCK, [], h0, DtmfIn(FIVE));
    var h1 := OnDtmf(LATE_CLOCK, h0, FIVE);
    assert [] + [DtmfIn(FIVE)] == [DtmfIn(FIVE)];
    ReachedSnoc(LATE_CLOCK, [DtmfIn(FIVE)], h1, Tick);
    var h2 := OnTick(LATE_CLOCK, h1);
    assert h2.outputs == [FIRST_TONE] && h2.requests == [FIVE] && h2.eventClock == WORD32;
    assert [DtmfIn(FIVE)] + [Tick] == [DtmfIn(FIVE), Tick];
    ReachedSnoc(LATE_CLOCK, [DtmfIn(FIVE), Tick], h2, Tick);
    assert [DtmfIn(FIVE), Tick] + [Tick] == FIVE_INPUTS;
    h := OnTick(LATE_CLOCK, h2);
  }

  lemma FivePackets()
    ensures Packets([FIRST_TONE, SECOND_TONE]) == [FIRST_TONE, SECOND_TONE]
  {
    PacketsSnoc([], FIRST_TONE);
    PacketsSnoc([FIRST_TONE], SECOND_TONE);
    assert [] + [FIRST_TONE] == [FIRST_TONE] && [FIRST_TONE] + [SECOND_TONE] == [FIRST_TONE, SECOND_TONE];
  }

  /** A reader of the two packets takes the first for an update and the second for a repetition. */
  lemma FiveIsRead(sent: seq<seq<Byte>>)
    requires sent == Wire(LATE_CLOCK, [FIRST_TONE, SECOND_TONE])
    ensures Ends(Receive(101, sent).callbacks) == []
  {
    FiveGenerates();
    var none: seq<seq<Byte>> := [];
    assert [sent[0]][..0] == none && sent[..1] == [sent[0]];
    ReadPacket(LATE_CLOCK, [FIVE], [FIRST_TONE, SECOND_TONE], 0, Receive(101, none));
    ReadPacket(LATE_CLOCK, [FIVE], [FIRST_TONE, SECOND_TONE], 1, Receive(101, [sent[0]]));
  }

  lemma FiveArrives()
    ensures EndedIn(Arrivals([FIRST_TONE, SECOND_TONE], [0, 1]), 0)
  {
    var d := Arrivals([FIRST_TONE, SECOND_TONE], [0, 1]);
    assert ArrivalOf(SECOND_TONE) == End(0, 0);
    assert d[1].End? && d[1].event == 0;
  }

  /**
   A run the hypotheses of ExactlyOnce allow in which both packets arrive, the end packet of
   event 0 among them, and the reader reports no end.
   */
  lemma MissedExample() returns (h: History, sent: seq<seq<Byte>>)
    ensures Distinguishable(LATE_CLOCK) && LATE_CLOCK.increment > 0
    ensures Reached(LATE_CLOCK, FIVE_INPUTS, h) && h.clock - LATE_CLOCK.clock0 < WORD32
    ensures sent == Wire(LATE_CLOCK, Packets(h.outputs)) && Lossy(sent, sent, [0, 1])
    ensures |Packets(h.outputs)| == 2 && EndedIn(Arrivals(Packets(h.outputs), [0, 1]), 0)
    ensures Ends(Receive(LATE_CLOCK.stream.dtmfPayloadType, sent).callbacks) == []
  {
    h := FiveIsSent();
    FivePackets();
    sent := Wire(LATE_CLOCK, Packets(h.outputs));
    LateClock();
    BothArrive(sent);
    FiveArrives();
    FiveIsRead(sent);
  }

  lemma LateClock()
    ensures Distinguishable(LATE_CLOCK) && LATE_CLOCK.increment > 0 && LATE_CLOCK.stream.dtmfPayloadType == 101
  {
  }

  lemma BothArrive(sent: seq<seq<Byte>>)
    requires |sent| == 2
    ensures Lossy(sent, sent, [0, 1])
  {
  }
}
