/**
 The packetizer (internal/audio/packetizer.go): irregular input, one fixed-size chunk
 per tick, silence on underflow.
 */
module Packetizer {
  import opened Bytes
  import opened RingBuffer
  import opened Pool

  datatype Input = Feed(data: seq<Byte>) | Tick

  datatype Chunk = Data(bytes: seq<Byte>) | Silence

  /** A run so far: what is queued, what was accepted in total, and every chunk emitted. */
  datatype History = History(queue: seq<Byte>, accepted: seq<Byte>, chunks: seq<Chunk>)

  function ChunkBytes(bytesPerTick: nat, c: Chunk): (r: seq<Byte>) {
    if c.Data? then c.bytes else Zeros(bytesPerTick)
  }

  function OnInput(bytesPerTick: nat, h: History, data: seq<Byte>): (r: History)
    requires |h.queue| <= bytesPerTick * 10
  {
    var n := Min(|data|, bytesPerTick * 10 - |h.queue|);
    h.(queue := h.queue + data[..n], accepted := h.accepted + data[..n])
  }

  function OnTick(bytesPerTick: nat, h: History): (r: History) {
    if |h.queue| >= bytesPerTick
    then h.(queue := h.queue[bytesPerTick..], chunks := h.chunks + [Data(h.queue[..bytesPerTick])])
    else h.(chunks := h.chunks + [Silence])
  }

  /** The real audio among the emitted chunks. */
  function Audible(chunks: seq<Chunk>): (r: seq<seq<Byte>>) {
    if chunks == [] then []
    else
      var last := chunks[|chunks| - 1];
      Audible(chunks[..|chunks| - 1]) + if last.Data? then [last.bytes] else []
  }

  function Run(bytesPerTick: nat, inputs: seq<Input>): (h: History)
    ensures |h.queue| <= bytesPerTick * 10
  {
    if inputs == [] then History([], [], [])
    else
      var h := Run(bytesPerTick, inputs[..|inputs| - 1]);
      match inputs[|inputs| - 1]
      case Feed(data) => OnInput(bytesPerTick, h, data)
      case Tick => OnTick(bytesPerTick, h)
  }

  function Ticks(inputs: seq<Input>): (n: nat) {
    if inputs == [] then 0
    else Ticks(inputs[..|inputs| - 1]) + if inputs[|inputs| - 1].Tick? then 1 else 0
  }

  /** What every run keeps. */
  ghost predicate Conserved(bytesPerTick: nat, h: History) {
    && h.accepted == Flatten(Audible(h.chunks)) + h.queue
    && forall i :: 0 <= i < |h.chunks| ==> |ChunkBytes(bytesPerTick, h.chunks[i])| == bytesPerTick
  }

  lemma InputConserves(bytesPerTick: nat, h: History, data: seq<Byte>)
    requires |h.queue| <= bytesPerTick * 10 && Conserved(bytesPerTick, h)
    ensures Conserved(bytesPerTick, OnInput(bytesPerTick, h, data))
  {
    var taken := data[..Min(|data|, bytesPerTick * 10 - |h.queue|)];
    assert Flatten(Audible(h.chunks)) + (h.queue + taken) == h.accepted + taken;
  }

  lemma AudibleSnoc(chunks: seq<Chunk>, c: Chunk)
    ensures Audible(chunks + [c]) == Audible(chunks) + if c.Data? then [c.bytes] else []
  {
    assert (chunks + [c])[..|chunks|] == chunks;
  }

  /** Moving the front of the queue behind the emitted audio keeps their concatenation. */
  lemma EmitFront(emitted: seq<seq<Byte>>, queue: seq<Byte>, n: nat)
    requires n <= |queue|
    ensures Flatten(emitted + [queue[..n]]) + queue[n..] == Flatten(emitted) + queue
  {
    FlattenSnoc(emitted, queue[..n]);
    assert Flatten(emitted) + queue[..n] + queue[n..] == Flatten(emitted) + (queue[..n] + queue[n..]);
    assert queue[..n] + queue[n..] == queue;
  }

  /** One more chunk of the tick's size. */
  lemma SizesAppend(bytesPerTick: nat, chunks: seq<Chunk>, c: Chunk)
    requires forall i :: 0 <= i < |chunks| ==> |ChunkBytes(bytesPerTick, chunks[i])| == bytesPerTick
    requires |ChunkBytes(bytesPerTick, c)| == bytesPerTick
    ensures forall i :: 0 <= i < |chunks + [c]| ==> |ChunkBytes(bytesPerTick, (chunks + [c])[i])| == bytesPerTick
  {
  }

  lemma EmitData(chunks: seq<Chunk>, queue: seq<Byte>, n: nat)
    requires n <= |queue|
    ensures Flatten(Audible(chunks + [Data(queue[..n])])) + queue[n..] == Flatten(Audible(chunks)) + queue
  {
    AudibleSnoc(chunks, Data(queue[..n]));
    EmitFront(Audible(chunks), queue, n);
  }

  lemma EmitSilence(chunks: seq<Chunk>)
    ensures Audible(chunks + [Silence]) == Audible(chunks)
  {
    AudibleSnoc(chunks, Silence);
    assert Audible(chunks) + [] == Audible(chunks);
  }

  lemma TickConserves(bytesPerTick: nat, h: History)
    requires Conserved(bytesPerTick, h)
    ensures Conserved(bytesPerTick, OnTick(bytesPerTick, h))
  {
    if |h.queue| >= bytesPerTick {
      SizesAppend(bytesPerTick, h.chunks, Data(h.queue[..bytesPerTick]));
      EmitData(h.chunks, h.queue, bytesPerTick);
    } else {
      SizesAppend(bytesPerTick, h.chunks, Silence);
      EmitSilence(h.chunks);
    }
  }

  /**
   Over every run the bytes accepted are, in order, the audio emitted followed by what is
   still queued; there is one chunk per tick and every chunk has the tick's size.
   */
  lemma {:induction false} Conservation(bytesPerTick: nat, inputs: seq<Input>)
    ensures var h := Run(bytesPerTick, inputs);
            && h.accepted == Flatten(Audible(h.chunks)) + h.queue
            && |h.chunks| == Ticks(inputs)
            && forall i :: 0 <= i < |h.chunks| ==> |ChunkBytes(bytesPerTick, h.chunks[i])| == bytesPerTick
    ensures Conserved(bytesPerTick, Run(bytesPerTick, inputs))
  {
    if inputs != [] {
      var before := inputs[..|inputs| - 1];
      Conservation(bytesPerTick, before);
      match inputs[|inputs| - 1]
      case Feed(data) => InputConserves(bytesPerTick, Run(bytesPerTick, before), data);
      case Tick => TickConserves(bytesPerTick, Run(bytesPerTick, before));
    }
  }

  /**
   A full tick in the queue is emitted, and only an underfull queue is covered by silence; a chunk
   is taken whole, or its front fills the ring to ten ticks.
   */
  ghost predicate StepRight(bytesPerTick: nat, h: History, i: Input, r: History) {
    match i
    case Tick =>
      && |r.chunks| == |h.chunks| + 1 && r.chunks[..|h.chunks|] == h.chunks
      && if |h.queue| >= bytesPerTick
         then r.chunks[|h.chunks|].Data? && |r.chunks[|h.chunks|].bytes| == bytesPerTick && r.chunks[|h.chunks|].bytes + r.queue == h.queue
         else r.chunks[|h.chunks|].Silence? && r.queue == h.queue
    case Feed(data) =>
      && r.chunks == h.chunks
      && if |h.queue| + |data| <= 10 * bytesPerTick then r.queue == h.queue + data
         else |r.queue| == 10 * bytesPerTick && r.queue <= h.queue + data
  }

  lemma TickRight(bytesPerTick: nat, h: History)
    ensures StepRight(bytesPerTick, h, Tick, OnTick(bytesPerTick, h))
  {
  }

  lemma InputRight(bytesPerTick: nat, h: History, data: seq<Byte>)
    requires |h.queue| <= bytesPerTick * 10
    ensures StepRight(bytesPerTick, h, Feed(data), OnInput(bytesPerTick, h, data))
  {
    assert data[..|data|] == data;
  }

  lemma RunPrefix(bytesPerTick: nat, inputs: seq<Input>, k: nat)
    requires k < |inputs|
    ensures Run(bytesPerTick, inputs[..k + 1]) == match inputs[k]
                                                  case Feed(data) => OnInput(bytesPerTick, Run(bytesPerTick, inputs[..k]), data)
                                                  case Tick => OnTick(bytesPerTick, Run(bytesPerTick, inputs[..k]))
  {
    assert inputs[..k + 1][..k] == inputs[..k];
  }

  /** Every step of every run does what it should with the queue as it stands then. */
  lemma StepsRight(bytesPerTick: nat, inputs: seq<Input>, k: nat)
    requires k < |inputs|
    ensures StepRight(bytesPerTick, Run(bytesPerTick, inputs[..k]), inputs[k], Run(bytesPerTick, inputs[..k + 1]))
  {
    RunPrefix(bytesPerTick, inputs, k);
    match inputs[k]
    case Feed(data) => InputRight(bytesPerTick, Run(bytesPerTick, inputs[..k]), data);
    case Tick => TickRight(bytesPerTick, Run(bytesPerTick, inputs[..k]));
  }

  class Packetizer {
    const bytesPerTick: nat
    const ring: Ring
    const custody: Custody
    ghost var history: History

    ghost predicate Valid()
      reads this, ring, ring.buf
    {
      && 0 < bytesPerTick
      && ring.Valid()
      && ring.buf.Length == bytesPerTick * 10
      && ring.Queue() == history.queue
    }

    constructor (ptime: nat, sampleRate: nat, bytesPerSample: nat, channels: nat)
      requires sampleRate * ptime / 1000 * bytesPerSample * channels > 0
      ensures Valid() && fresh(ring) && fresh(ring.buf) && fresh(custody) && custody.held == {}
      ensures bytesPerTick == sampleRate * ptime / 1000 * bytesPerSample * channels
      ensures history == Run(bytesPerTick, [])
    {
      bytesPerTick := sampleRate * ptime / 1000 * bytesPerSample * channels;
      ring := new Ring(sampleRate * ptime / 1000 * bytesPerSample * channels * 10);
      custody := new Custody();
      history := History([], [], []);
    }

    /** The received buffer goes back to the pool once what fits of it is in the ring. */
    method HandleInput(data: array<Byte>)
      requires Valid() && data != ring.buf && custody.held == {data}
      modifies this, ring, ring.buf, custody, data
      ensures Valid() && history == OnInput(bytesPerTick, old(history), old(data[..]))
      ensures custody.held == {}
    {
      ghost var bytes := data[..];
      var n := ring.Push(data[..]);
      custody.Put(data);
      history := OnInput(bytesPerTick, history, bytes);
    }

    /** `outputFull` is the state of the output channel: a full channel sends the chunk back to the pool. */
    method HandleTick(outputFull: bool) returns (chunk: array<Byte>, delivered: bool)
      requires Valid() && custody.held == {}
      modifies this, ring, custody
      ensures Valid() && history == OnTick(bytesPerTick, old(history))
      ensures delivered == !outputFull && fresh(chunk) && custody.held == {}
      ensures delivered ==> chunk[..] == ChunkBytes(bytesPerTick, history.chunks[|history.chunks| - 1])
    {
      chunk := custody.Get(bytesPerTick);
      if ring.count >= bytesPerTick {
        ring.CopyOut(chunk, bytesPerTick);
        ring.Discard(bytesPerTick);
        assert chunk[..] == chunk[..bytesPerTick];
      } else {
        forall i | 0 <= i < chunk.Length {
          chunk[i] := 0;
        }
        assert chunk[..] == Zeros(bytesPerTick);
      }
      history := OnTick(bytesPerTick, history);
      delivered := !outputFull;
      if delivered {
        custody.HandOn(chunk);
      } else {
        custody.Put(chunk);
      }
    }
  }
}
