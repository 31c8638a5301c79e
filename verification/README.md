# TelePortal media path: a verified model

TelePortal bridges SIP and RTP calls to WebSocket agents. This project models the media
path and the call life cycle that the repository implements itself, and proves properties of
whole runs, of every interleaving and of every input.

| files | what they model |
|---|---|
| `Writer`, `WriterLoop`, `Ring`, `Rtp`, `Streams` | the outbound RTP writer: byte ring, DTMF injection that suppresses audio, wrapping counters, codec plan |
| `Packetizer` | the second ring, with silence on underflow |
| `Dtmf`, `Delivery` | RFC 4733 events end to end: generator, lossy channel, parser and the reader's de-duplication |
| `G711`, `Transcode` | G.711 companding and the table-driven stream transcoders |
| `Inbound` | what agent and recorder make of the phone's audio, and the metadata they go by |
| `Recorder`, `Wav` | the stereo recorder and the WAV file it leaves |
| `Bridge`, `BridgeSlot`, `BridgeQueues`, `BridgeLeaks`, `BridgeAccount`, `BridgeDelivery`, `Assembly` | the audio bridge: client slot, pooled buffers, send queues, lost buffers, the account of every buffer, what becomes of a packet, message assembly |
| `Pool` | custody of pooled buffers, and the capacity classes of the pool |
| `Jitter` | the 1024-slot raw-buffer window over wrapping sequence numbers |
| `Ports`, `CallManager`, `Lifecycle`, `CallLifecycle` | the port allocator, the call manager, set-up and once-only teardown |
| `Sdp` | stream negotiation and the answer |
| `Ogg` | Ogg pages and their lacing |
| `Bytes`, `Results`, `Text` | words and byte orders, optional values, the string functions relied on |

Components that the program updates in place are classes: their methods are proved against a
step function on values, and what the program promises is proved about runs of that function.
Goroutines are modelled by interleaving their steps, one step for each critical section,
channel operation or buffer operation. Port binds, jitter-buffer pops, socket reads, the state
of a channel and the random initial counters are parameters. Where a comment in the repository
and its code disagree the code is followed: `GetBuffer` promises at least the requested size
and returns exactly that length; the Ogg writer speaks of the standard polynomial, and nothing
is claimed about which checksum it is.

## What turned out to be false, and exactly when

- The generator's duration loop does not always end: it ends if and only if the total is at
  most 2^16 minus the largest power of two dividing the step (`Dtmf.StopsExactly`,
  `Dtmf.EndlessExample`).
- The reader takes timestamp zero for "nothing reported yet": it misses an event if and only if
  the first delivered end packet is stamped zero (`Delivery.ExactlyOnce`, `Delivery.MissedExample`).
- A second mu-law encoding changes the byte if and only if the sample is -3, -2 or -1
  (`Transcode.SecondEncodingStable`).
- The sweep of the raw-buffer window leaves an earlier number behind if and only if it lies 2^15
  or more back, modulo 2^16 (`Jitter.SweepExact`, `Jitter.StaleExample`).
- An agent that goes by its metadata hears what the phone means if and only if it is not a linear
  agent on a linear call, where samples stay in network order and the metadata says little-endian
  (`Inbound.AgentHearsExactly`, `Inbound.LinearMisheard`).
- The call manager strands a waiter in a run if and only if an increment comes, while someone
  waits, when the adds still to count are one more than the calls in the map
  (`CallManager.StrandedRuns`, `CallManager.StrandedExample`). It wakes the waiters with calls
  still in the map if and only if as many adds are still to count (`CallManager.TakesOverExactly`).
- The audio processor of the bridge can lose a buffer, for good, if and only if a call is recorded
  and not transcoded (`BridgeLeaks.LosesExactly`, `BridgeLeaks.LostForGood`).
- Not every message accepted for a client is written or discarded: once the write pump has gone
  it is so if and only if nothing was accepted after the pump found its queue empty
  (`BridgeQueues.LeftBehindExactly`, `BridgeQueues.LateMessageRun`).
- A push into the raw-buffer window overwrites a buffer without returning it if and only if a
  packet a multiple of 2^16 away is still stored (`Jitter.OverwritesExactly`,
  `Jitter.OverwriteExample`).
- The hooks of a call fire in order if and only if no ACK comes after a disconnect or release
  that had none before it, and no disconnect after the release (`Lifecycle.HookOrder`,
  `Lifecycle.LateAckExample`).
- An Ogg stream begins with the beginning-of-stream flag if and only if its headers are asked for
  before any packet (`Ogg.BeginsWithFlag`).
- An Ogg page is readable if and only if it needs at most 255 segments (`Ogg.PageReadable`), and
  a WAV file if and only if its data is shorter than 2^32 - 36 bytes (`Wav.ParseFinished`).

## Model

| member | source | states |
|---|---|---|
| `Writer.Conservation` | internal/rtp/rtp_handler.go:185-321 | Over every run with a non-empty ring, the accepted bytes equal, in order, the bytes played as audio (padding removed), skipped under tones and lost to encoder errors, followed by the bytes still queued; every audio payload is the encoding of exactly its bytes plus zero padding. Every tick of the run sends the next pending tone and takes a whole tick off the queue exactly when one is there, or else takes one tick of audio or all that is left; every chunk is queued whole, or its front fills the ring to ten ticks. |
| `Writer.Timestamps` | internal/rtp/rtp_handler.go:201-302 | Over every run, in unbounded clocks, audio clocks strictly increase, all packets of one DTMF event share one clock, and that clock lies strictly between those of everything sent before and after the event. |
| `Writer.Tones` | internal/rtp/rtp_handler.go:201-268 | Over every run the payloads sent for an event are a prefix of the ones its generator made, in order; for the current event the pending ones are the rest, so only a newer request cuts an event short. |
| `Writer.ToneProgress` | internal/rtp/rtp_handler.go:201-268 | Over every run, of the payloads generated for a request exactly as many have been sent as there were ticks before the next request, the first ones in order, until all have been; every request is accepted when DTMF was negotiated, and none otherwise. |
| `Writer.ClockCounts` | internal/rtp/rtp_handler.go:206-302 | Over every run the clock has gone one increment for every packet sent and every request accepted; lost ticks do not move it. |
| `Writer.Stamps` | internal/rtp/rtp_handler.go:206-302 | Every tone carries the clock its own request moved to, one increment past the clock before that request; audio carries the clock of its own tick. |
| `Writer.RequestTimes` | internal/rtp/dtmf_generator.go:43-70 | A digit's total is its time in samples, rounded down; its updates are one packet apart, or the whole digit when that is shorter. |
| `Writer.Run` | internal/rtp/rtp_handler.go:193-322 | Every reachable writer state keeps the ring within its capacity, has a request behind every pending tone, and has accepted only requests whose generation ends under a negotiated DTMF type. |
| `Writer.NegotiatedWriterRuns` | internal/rtp/rtp_handler.go:142-186 | For every stream negotiation can produce whose packet fits 32 bits, the ring is not empty and the timestamp step is at least 8; the tick is exactly one packet of audio, twice that when it is compressed. |
| `RingBuffer.Ring.Push` | internal/rtp/rtp_handler.go:225-238 | The in-place ring appends exactly what fits to the abstract queue; an overfull push loses only its newest suffix; the tail stays head plus count modulo the capacity. |
| `RingBuffer.Ring.CopyOut` | internal/rtp/rtp_handler.go:274-280 | The two-part copy puts the oldest bytes at the front of the destination and leaves the rest of it alone. |
| `RingBuffer.Ring.Discard` | internal/rtp/rtp_handler.go:281-288 | Advancing the head drops exactly the oldest bytes and keeps the index invariant. |
| `WriterLoop.RtpWriter.constructor` | internal/rtp/rtp_handler.go:142-188 | The set-up of the writer: empty ring, header with version, payload type and source, counters at their random start. |
| `WriterLoop.RtpWriter.HandleAudio` | internal/rtp/rtp_handler.go:220-238 | Entered holding the pending payloads and the received buffer, the audio case refines the audio step of the run and leaves holding the pending payloads alone; the buffer is read before it is returned, as returning it forgets its contents. |
| `WriterLoop.RtpWriter.HandleDtmf` | internal/rtp/rtp_handler.go:201-218 | The DTMF case refines the DTMF step: pending buffers go back, the new payloads are all held, and the wrapped clock advances by one increment; without a negotiated type nothing changes and nothing is written either way. |
| `WriterLoop.RtpWriter.HandleTick` | internal/rtp/rtp_handler.go:240-321 | The ticker case refines the tick step, and what the loop has written in all stays, byte for byte, the wire form of the packets of the run of its inputs; every buffer taken on the way is back in the pool. |
| `WriterLoop.RtpWriter.TransmitTone` | internal/rtp/rtp_handler.go:241-261 | A tone packet carries the DTMF payload type, the event timestamp and the oldest pending payload, whose buffer is returned; the header is left with the audio type. |
| `WriterLoop.RtpWriter.TransmitAudio` | internal/rtp/rtp_handler.go:290-320 | An encoded tick carries the next sequence number and timestamp; on an encoder error neither counter moves; every buffer taken is returned, the encoder result only when it is another buffer. |
| `WriterLoop.RtpWriter.TakeTick` | internal/rtp/rtp_handler.go:274-288 | A pooled buffer with arbitrary old contents ends up holding one tick, zero-padded when the queue runs dry. |
| `WriterLoop.RtpWriter.EmitPacket` | internal/rtp/rtp_handler.go:301-316 | The reused header array plus payload are the twelve-byte header of RFC 3550, section 5.1, and the payload; the packet buffer is returned. |
| `WriterLoop.RtpWriter.Close` | internal/rtp/rtp_handler.go:69-84 | Entered holding the pending payloads and the buffers still in the audio channel, the deferred clean-up ends with nothing in custody. |
| `WriterLoop.WireBytesParse` | internal/rtp/rtp_handler.go:243-252 | A receiver of the n-th packet reads the wrapped sequence number, the wrapped clock, the payload and the payload type. |
| `WriterLoop.ToneFacts` | internal/rtp/rtp_handler.go:245-266 | Advancing the wrapped 16-bit and 32-bit counters is wrapping the unbounded ones, for a tone. |
| `WriterLoop.AudioFacts` | internal/rtp/rtp_handler.go:298-302 | The same for a tick of audio, with the bytes the next packet must have; a failed encoding moves no counter. |
| `Rtp.ParseHeader` | internal/rtp/rtp_handler.go:62-67 | The header round trip of RFC 3550, section 5.1: every field is read back, and a type byte above 127 shows as the marker bit. |
| `Delivery.SequenceNumbers` | internal/rtp/rtp_handler.go:245-249 | In every run each packet carries the previous sequence number plus one modulo 2^16, the first one the initial number plus one. |
| `Delivery.LoopNumbersPackets` | internal/rtp/rtp_handler.go:193-322 | The same for every packet a valid event loop has written, whatever reached it. |
| `Streams.EncodeOutboundPayload` | internal/rtp/rtp_handler.go:86-116 | The case analysis over codecs follows one of four plans (keep, swap bytes, compress, refuse) chosen by the two codec settings; PhoneHears and PassedThrough say what the plans achieve. |
| `Streams.EncodedByPayloadType` | internal/rtp/rtp_handler.go:100-106 | What a linear agent sends is encoded sample by sample with mu-law exactly under the static payload type 0 and with A-law under 8. |
| `Streams.PhoneHears` | internal/rtp/rtp_handler.go:86-116 | For every negotiable stream a phone that goes by the answer (L16 in network order, mu-law under type 0, A-law under type 8) hears every sample a linear agent sent, in order: exactly over L16, within the bound of its law over G.711. |
| `Streams.PassedThrough` | internal/rtp/rtp_handler.go:86-99 | Under PASS, and for an agent that speaks the phone's own G.711 codec, the payload is what the agent sent. |
| `Streams.PacketTime` | internal/audio/codec.go:70-82 | A packet holds the samples of its time rounded down to whole ones; G.711 streams have their static type, 8000 Hz and one channel. |
| `Streams.TickSize` | internal/audio/codec.go:70-82 | For every negotiable stream the tick is the packet size, doubled when compressing, and L16 packets are whole samples. |
| `Streams.OutboundIsExact` | internal/rtp/rtp_handler.go:86-183 | For every negotiable stream a full tick always encodes, the payload is exactly the packet size, and the samples it carries per channel are the timestamp increment modulo 2^32. |
| `Streams.LinearOutputIsLossless` | internal/rtp/rtp_handler.go:86-113 | An L16 receiver gets exactly the agent's samples: unchanged under PASS, byte-swapped otherwise. |
| `Inbound.ProcessPacket` | internal/call/audio_bridge.go:585-644 | The decoding switch and the choice between decoded and raw audio: what the agent is sent, and what the recorder gets when there is one. |
| `Inbound.AgentHearsExactly` | internal/call/audio_bridge.go:319-336 | For every stream negotiation can produce, an agent that goes by its metadata hears every packet as the phone meant it, if and only if it is not an agent under the L16 setting on a call whose codec is L16. |
| `Inbound.LinearMisheard` | internal/call/audio_bridge.go:540-640 | There the sample 1 arrives as 256, as raw audio stays in network order while the metadata says little-endian. |
| `Inbound.DecodedIsHeard` | internal/call/audio_bridge.go:585-599 | Decoding a packet always gives the phone's samples, for the recorder and for transcoding alike. |
| `Inbound.PhoneHearsAgent` | internal/rtp/rtp_handler.go:86-99 | What an agent in the phone's own format says is what the phone hears. |
| `Inbound.RecordAgent` | internal/call/audio_bridge.go:411-436 | The conversion switch of the read pump gives the recorder payload. |
| `Inbound.AgentIsRecorded` | internal/call/audio_bridge.go:411-436 | The recorder gets the agent's samples little-endian, whatever format the metadata told the agent to speak. |
| `Packetizer.Conservation` | internal/audio/packetizer.go:67-127 | Over every run the accepted bytes are, in order, the audio emitted followed by the bytes queued; there is one chunk per tick, each of the tick size; underflow emits silence and keeps the data. |
| `Packetizer.StepsRight` | internal/audio/packetizer.go:67-127 | At every step of every run a tick emits the front of the queue exactly when it holds a whole tick, and silence otherwise; a chunk is queued whole, or its front fills the ring to ten ticks. |
| `Packetizer.Packetizer.HandleInput` | internal/audio/packetizer.go:78-101 | The input case refines the input step on the ring and returns the received buffer, once read. |
| `Packetizer.Packetizer.HandleTick` | internal/audio/packetizer.go:102-127 | The tick case refines the tick step: a full chunk from the front of the queue, or zeros with the queue untouched. The chunk is handed on with its contents, or returned when the output is full. |
| `Pool.BufferPools.GetBuffer` | pkg/audio/pool.go:77-98 | The result always has exactly the requested length within its capacity; the pool of the size class, and no other, gives up a buffer exactly when it has one at hand; and that turns out too short, so that another is allocated, only for requests of 2 to 160 or of more than 2000 bytes. |
| `Pool.BufferPools.PutBuffer` | pkg/audio/pool.go:103-124 | A buffer is filed by capacity, an empty one nowhere; every pool keeps to its capacity class. |
| `Pool.TightestClass` | pkg/audio/pool.go:77-124 | A request is served from the tightest class whose new buffers hold it; below the threshold a buffer is filed under the largest class it can serve. |
| `Pool.ReplacedExactly` | pkg/audio/pool.go:92-97 | Some buffer of the pool a request is served from would be too short for it exactly when the request is for 2 to 160 or for more than 2000 bytes. |
| `Pool.Custody.PutAll` | internal/rtp/rtp_handler.go:149-152 | Returning a list of distinct held buffers takes each out of custody once. |
| `Dtmf.DigitRoundTrip` | internal/rtp/dtmf_generator.go:84-100 | A requested digit comes back upper-cased exactly when it is one of the sixteen keys. |
| `Dtmf.KeyCodes` | internal/rtp/dtmf_generator.go:84-100 | The sixteen keys have the codes 0 to 15 of section 3.2 of RFC 4733, both ways, lower-case letters included. |
| `Dtmf.PayloadFields` | internal/rtp/dtmf_generator.go:61-79 | Both payload forms are the four bytes of section 2.3 of RFC 4733: event, end bit, reserved bit zero, volume 10, duration. |
| `Dtmf.ParseGenerated` | internal/rtp/dtmf.go:42-63 | The parser inverts both payload forms: digit, duration and end flag. |
| `Dtmf.StopsExactly` | internal/rtp/dtmf_generator.go:51-70 | The duration loop can end exactly when the total is at most 2^16 minus the largest power of two dividing the step; otherwise no number of iterations reaches the total. |
| `Dtmf.EndlessExample` | internal/rtp/dtmf_generator.go:46-70 | A 1365 ms digit at 48 kHz with 20 ms packets is a request whose loop never ends. |
| `Dtmf.UpdatesGrowExactly` | internal/rtp/dtmf_generator.go:55-70 | The update durations grow strictly exactly when the total rounded up to whole steps fits 16 bits. |
| `Dtmf.UpdateCount` | internal/rtp/dtmf_generator.go:55-70 | The number of updates is the first iteration whose wrapped duration reaches the total, none for a zero total. |
| `Dtmf.NoWrapCount` | internal/rtp/dtmf_generator.go:55-70 | Without wrap-around the loop stops, after exactly the total divided by the step, rounded up. |
| `Dtmf.PayloadsRead` | internal/rtp/dtmf_generator.go:55-79 | Without wrap-around a receiver of the whole list reads durations one step longer each time and at last the total, and then the end with the total three times. |
| `Dtmf.SamplesForMeans` | internal/rtp/dtmf_generator.go:46-49 | Milliseconds become whole samples, rounded toward zero, of which the low sixteen bits are kept. |
| `Dtmf.Generator.Generate` | internal/rtp/dtmf_generator.go:43-82 | The loop produces the growing updates, the last with the total, then the end payload three times. |
| `Delivery.ExactlyOnce` | internal/rtp/rtp_handler.go:396-421 | For any run of the writer and any channel that drops or repeats but does not reorder, the reader reports each event with a delivered end packet exactly once, in order, with its digit and total duration; unless the first delivered end packet is stamped zero, and then it misses exactly that event. |
| `Delivery.MissedExample` | internal/rtp/rtp_handler.go:353-421 | A run that the hypotheses of ExactlyOnce allow, with an initial timestamp one packet short of 2^32: both packets of a digit arrive, its end packet among them, and the reader reports no end. |
| `Delivery.UpdatesReported` | internal/rtp/rtp_handler.go:406-428 | For any run of the writer and any channel that does not reorder, the reader reports every delivered update packet, repeated ones each time, in order, with the digit of its request and the duration of its place. |
| `Delivery.NothingNegotiated` | internal/rtp/rtp_handler.go:404-406 | Without a negotiated event type nothing is ever reported, whatever arrives. |
| `Delivery.RtpReader.HandlePacket` | internal/rtp/rtp_handler.go:400-430 | One packet from the socket refines the reader step, and goes on to the jitter buffer exactly when it parses. |
| `Delivery.ReadPacket` | internal/rtp/rtp_handler.go:406-428 | How the reader takes the k-th packet of a run: an end packet with a new timestamp reports its event, one with the last timestamp changes nothing, everything else reports no end. |
| `Delivery.RunEndsInOrder` | internal/rtp/rtp_handler.go:243-261 | In a run that advances fewer than 2^32 samples, delivered end packets come in event order, and equal stamps mean equal events. |
| `Delivery.ArrivalRun` | internal/rtp/rtp_handler.go:411-420 | Any reader run over ordered arrivals is in step with the set of events that ended. |
| `Delivery.GeneratedParses` | internal/rtp/dtmf_generator.go:61-79 | Every generated payload parses; its end flag and, for end packets, digit and total are those of the request. |
| `Delivery.ReportNamesDigit` | internal/rtp/dtmf.go:51-56 | A report names the requested key in upper case exactly when the request named one of the sixteen keys. |
| `G711.MuLawReencode` | internal/audio/g711.go:59-95 | Mu-law encode after decode is the identity, except that 0x7F (negative zero) becomes 0xFF. |
| `G711.ALawReencode` | internal/audio/g711.go:97-141 | A-law encode after decode is the identity on every byte. |
| `G711.MuLawError` | internal/audio/g711.go:59-95 | Mu-law decode after encode is off by at most (abs(x) + 132) / 32, clamped extremes and -32768 included. |
| `G711.ALawError` | internal/audio/g711.go:97-141 | A-law decode after encode is off by at most 8, or abs(x) / 32 where that is larger. |
| `G711.MuLawOrder` | internal/audio/g711.go:59-95 | One pass through mu-law never reorders two samples. |
| `G711.ALawOrder` | internal/audio/g711.go:97-141 | One pass through A-law never reorders two samples. |
| `G711.Xor55Involution` | internal/audio/g711.go:98-140 | The exclusive-or with 0x55 undoes itself. |
| `G711.Xor55Bits` | internal/audio/g711.go:98-140 | It flips exactly the bits at even positions. |
| `G711.MuLawBytes` | internal/audio/g711.go:59-95 | Bytes 0x80 to 0xFF stand for strictly falling values from 32124 down to 0, and each byte below 0x80 for the negative of the one 0x80 above it. |
| `G711.ALawBytes` | internal/audio/g711.go:97-141 | Before the exclusive-or, codes 0 to 0x7F stand for strictly rising values from 8 to 32256, and each code from 0x80 on for the negative of the one 0x80 below it. |
| `G711.Segment` | internal/audio/g711.go:83-92 | The segment is the position of the leading bit above bit 7, or zero. |
| `Transcode.FindSegment` | internal/audio/g711.go:124-133 | The bit-search loop with its break and its last-iteration case finds the segment. |
| `Transcode.LinearToMuLaw` | internal/audio/g711.go:73-95 | The encoder with its shifted sign bit, bias and clamp meets the per-sample specification. |
| `Transcode.LinearToALaw` | internal/audio/g711.go:115-141 | The same for A-law, byte truncation of the mantissa included. |
| `Transcode.Tables.Initialize` | internal/audio/g711.go:39-57 | All four tables agree with the per-sample definitions at every index. |
| `Transcode.Tables.EncodeL16ToPCMU` | internal/audio/encoder.go:27-40 | The table-driven encoder equals the per-sample definition on every stream; odd lengths are refused. |
| `Transcode.Tables.EncodeL16ToPCMA` | internal/audio/encoder.go:42-54 | The same for A-law. |
| `Transcode.Tables.DecodePCMUToL16` | internal/audio/codec.go:173-191 | The table-driven decoder equals the per-sample definition on every stream; nil is refused. |
| `Transcode.Tables.DecodePCMAToL16` | internal/audio/codec.go:195-208 | The same for A-law. |
| `Transcode.DecodeL16BEToL16LE` | internal/audio/codec.go:212-231 | The loop swaps the bytes of every sample; nil and odd lengths are refused. |
| `Transcode.SwapBytesInvolution` | internal/audio/codec.go:233-237 | Swapping twice gives the stream back, so the two byte-order converters undo each other. |
| `Transcode.SwapReadsReversed` | internal/audio/codec.go:212-237 | Every sample of a swapped stream reads in the one byte order as it read in the other before. |
| `Transcode.SamplesOfBytes` | internal/audio/codec.go:178-188 | Reading the little-endian bytes of a sample stream gives the samples back. |
| `Transcode.BytesOfSamples` | internal/audio/encoder.go:27-54 | Writing the samples of an even byte stream gives the bytes back, so streams and samples are two views of the same. |
| `Transcode.StreamReencode` | internal/audio/encoder.go:27-54 | For every byte stream, encode after decode only normalises negative zero of mu-law. |
| `Transcode.StreamRoundTrip` | internal/audio/codec.go:173-208 | The decoded encoding of a stream is the sample-by-sample round trip. |
| `Transcode.StreamQuality` | internal/audio/codec.go:173-208 | For every stream and both laws, decode after encode keeps each sample within its error bound and keeps the order of any two samples. |
| `Transcode.SecondPassChangesNothing` | internal/audio/codec.go:173-208 | A second pass through either law returns exactly the samples of the first. |
| `Transcode.SecondEncodingStable` | internal/audio/g711.go:73-95 | The encoded byte survives a second pass, exactly except for the mu-law samples -3 to -1. |
| `Recorder.ClosedRecording` | internal/audio/recorder.go:141-301 | While the data fits the 32-bit sizes, and only then, a strict reader of the closed file gets a stereo recording whose channels have equal lengths and are each what that side received, in order, with only zeros inserted and at most one trailing byte lost. |
| `Recorder.WholeRecording` | internal/audio/recorder.go:141-301 | With chunks of even length nothing is lost and no sample is torn: each channel of a readable file is, sample by sample, what that side received with only whole zero samples inserted. |
| `Recorder.ExactRecording` | internal/audio/recorder.go:141-301 | The closed recording in full: its channels are the two timelines (everything a side received, and at each tick that finds it more than the rate behind the zeros it lacks), brought to the length of the longer one in whole samples; and it is readable exactly while that fits the 32-bit sizes. |
| `Recorder.SidesAreTimelines` | internal/audio/recorder.go:170-243 | In every reachable state channel plus buffer of a side is its timeline, which is told without buffers, frames or files. |
| `Recorder.RunFaithful` | internal/audio/recorder.go:170-243 | In every reachable state, channel plus buffer of either side is what the side received with only zeros inserted. |
| `Recorder.NextSide` | internal/audio/recorder.go:170-243 | An event appends to channel plus buffer of a side what it brings for that side; only a tick adds zeros, only to a side that lags by more than the rate, and then its lag rounded down to whole samples. |
| `Recorder.Backlog` | internal/audio/recorder.go:207-243 | Between events the shorter side holds at most one byte; after a tick the longer side holds at most sampleRate + 1 bytes (2 if the rate is zero). |
| `Recorder.FlushFaithful` | internal/audio/recorder.go:245-273 | The final flush adds only padding to a side and loses at most one trailing byte of it. |
| `Recorder.InputsAreReceived` | internal/audio/recorder.go:192-199 | What the model says a side received is the concatenation of the chunks of that side. |
| `Recorder.ChannelOfInterleave` | internal/audio/recorder.go:281-289 | Taking a channel out of interleaved frames gives back that side. |
| `Recorder.StereoRecorder.ProcessBuffers` | internal/audio/recorder.go:207-218 | Interleaves the common whole samples of both sides and shifts the rest to the front. |
| `Recorder.StereoRecorder.HandleLeft` | internal/audio/recorder.go:192-194 | A chunk from the left queue: buffers, file and counters stay those of the run of everything received so far, this chunk included. |
| `Recorder.StereoRecorder.HandleRight` | internal/audio/recorder.go:195-199 | The same for the right queue. |
| `Recorder.StereoRecorder.HandleTick` | internal/audio/recorder.go:200-202 | The same for a tick of the drift ticker. |
| `Recorder.StereoRecorder.FillSilence` | internal/audio/recorder.go:220-243 | Pads the side that lags by more than the threshold, by an even count, and writes. |
| `Recorder.StereoRecorder.Close` | internal/audio/recorder.go:185-187 | After any sequence of chunks and ticks the file is the finished file of the run of exactly those events, the one ClosedRecording and WholeRecording speak of. |
| `Recorder.StereoRecorder.FlushBuffers` | internal/audio/recorder.go:245-273 | Pads both buffers to whole samples of the longer one and writes them, or nothing when there is nothing. |
| `Recorder.StereoRecorder.FillFrames` | internal/audio/recorder.go:275-289 | The frame loop builds the interleaving of the two buffers. |
| `Wav.WriteWavHeader` | internal/audio/wav_fast.go:86-115 | The bytes written by offset are the 44-byte header, sizes wrapped to 32 bits. |
| `Wav.FastWavWriter.Write` | internal/audio/wav_fast.go:51-55 | However much the buffered writer spills, file plus buffer is the open header followed by all data, and the byte count is kept modulo 2^32. |
| `Wav.FastWavWriter.Close` | internal/audio/wav_fast.go:58-83 | Seeking and writing twice exchanges exactly the two size fields. |
| `Wav.Patched` | internal/audio/wav_fast.go:63-80 | Overwriting offsets 4 and 40 of an open file gives the file with those sizes and nothing else changed. |
| `Wav.ParseFinished` | internal/audio/wav_fast.go:58-115 | A strict reader, which checks every tag and every format field by itself, recovers rate, channels and data exactly when the data is shorter than 2^32 - 36 bytes. |
| `Bridge.SlotTheorem` | internal/call/audio_bridge.go:222-348 | In every interleaving no send channel is closed twice or sent on after closing, a registered client never coexists with a reservation, the only open channels are those of the registered client and of one CloseAll has detached, and the gauge counts exactly the clients not yet disconnected. |
| `Bridge.GaugeBound` | internal/call/audio_bridge.go:222-244 | The gauge is one for a registered client plus one for a detached one. |
| `Bridge.BufferTheorem` | internal/call/audio_bridge.go:527-684 | In every interleaving no pooled buffer is returned twice or touched after its return, and none waits in two places of the send queues. |
| `BridgeAccount.EveryBuffer` | internal/call/audio_bridge.go:67-120 | In every interleaving every buffer taken from the pool has been returned, waits in the queue of the client it is held for, is what that client's pump is writing, is named by the processor's loop, or is lost there; and the last only for recorded calls without transcoding. |
| `BridgeAccount.WriteInPlace` | internal/call/audio_bridge.go:101-112 | A buffer the pump has written is back in the pool, whether or not the write failed, and every other buffer stays where its holder says. |
| `Bridge.Run` | internal/call/audio_bridge.go:222-684 | Every interleaving of all seventeen kinds of step keeps the whole invariant of slot and buffers. |
| `Bridge.SlotStepSound` | internal/call/audio_bridge.go:278-348 | Every step keeps the slot invariant; only an accepted AddClient adds a client. |
| `Bridge.ProcessorStepSound` | internal/call/audio_bridge.go:542-654 | Receiving, admitting, decoding, forwarding and finishing a packet keep buffer ownership. |
| `BridgeDelivery.PacketReaches` | internal/call/audio_bridge.go:542-684 | In every interleaving a spoken packet that was admitted while a client was registered reaches the client registered when it is forwarded, if its queue has room: the decoded buffer when the call is transcoded, a copy of the packet otherwise. No other queue changes, and none does when nobody was registered at its admission. |
| `BridgeDelivery.PacketEnds` | internal/call/audio_bridge.go:646-652 | Whatever other goroutines do in between, in the end the packet's own buffer is back in the pool and the processor ready for the next packet. |
| `BridgeDelivery.PacketDropped` | internal/call/audio_bridge.go:548-620 | A telephone event, a packet with neither listener nor recorder, and one whose decoding fails go back at once and reach no queue; once the context is done the processor has stopped for good. |
| `BridgeDelivery.TextReaches` | internal/call/audio_bridge.go:657-684 | A text message reaches the registered client, if its queue has room, and no other. |
| `BridgeDelivery.ReservationHolds` | internal/call/audio_bridge.go:278-295 | A reservation goes to an empty slot alone and keeps further ones out until it is given back. |
| `BridgeDelivery.ClientComes` | internal/call/audio_bridge.go:296-348 | A connection that comes to an empty slot is registered with an open channel, the metadata queued and a pump; any other changes nothing. |
| `BridgeDelivery.ClientGoes` | internal/call/audio_bridge.go:222-244 | The registered client goes when its own connection is removed or when everything is closed, and its channel is closed either way. |
| `BridgeDelivery.StartsDraining` | internal/call/audio_bridge.go:90-120 | A failed write or ping and a closed empty channel start the draining; a successful write goes back to waiting, and a waiting pump takes the first message. |
| `BridgeDelivery.PumpLeaves` | internal/call/audio_bridge.go:69-90 | From any reachable state a draining pump can leave: as many steps as its queue is long, one that finds it empty and one that removes the client leave every queued buffer in the pool, the queue empty and the client no longer registered. |
| `Bridge.DrainSound` | internal/call/audio_bridge.go:69-90 | Draining returns exactly the buffer at the front of the queue, which the queue held, touches no other, and keeps buffer ownership. |
| `BridgeLeaks.LosesExactly` | internal/call/audio_bridge.go:542-654 | Some run of the bridge leaves the processor with a buffer that no place of its loop names if and only if there is a recorder and the audio is not transcoded for the agent. |
| `BridgeLeaks.LostForGood` | internal/call/audio_bridge.go:542-654 | Such a buffer is still lost after any continuation of the run, so it never returns to the pool. |
| `BridgeLeaks.RunLosesNone` | internal/call/audio_bridge.go:585-652 | Without a recorder, or with transcoding, every buffer the processor holds is one its loop still names, in every run. |
| `BridgeQueues.QueueIsFifo` | internal/call/audio_bridge.go:67-120 | In every interleaving the messages accepted for a client are, in order and each once, those its pump took to write, those it discarded on leaving, and those still queued; a queue never exceeds 200 messages; a finished pump is not the registered client's. |
| `BridgeQueues.StepFifo` | internal/call/audio_bridge.go:657-684 | One step of any goroutine: queue plus accepted is written plus discarded plus new queue. |
| `BridgeQueues.LeftBehindExactly` | internal/call/audio_bridge.go:69-90 | In every interleaving the queue of a pump that has gone holds exactly the messages accepted since that pump found it empty; so everything accepted for the client is written or discarded if and only if nothing was accepted after that. |
| `BridgeQueues.LeftBehindForGood` | internal/call/audio_bridge.go:69-90 | What a finished pump has left in its queue is still there after any continuation of the run. |
| `BridgeQueues.LeftBehindIsHeld` | internal/call/audio_bridge.go:69-90 | A pooled buffer left in the queue of a finished pump is held by that queue: it has not been returned. |
| `BridgeQueues.LateMessageRun` | internal/call/audio_bridge.go:84-87 | A run from the empty bridge in which a packet is forwarded between the two critical sections of a leaving pump, and its copy is left behind. |
| `BridgeSlot.AudioBridge.TryLock` | internal/call/audio_bridge.go:278-286 | Reserves exactly when there is neither a client nor a reservation, and refines the reserve step. |
| `BridgeSlot.AudioBridge.AddClient` | internal/call/audio_bridge.go:296-348 | Accepts exactly when the context is live and there is no client; a new client starts with the metadata message queued. |
| `BridgeSlot.AudioBridge.RemoveClient` | internal/call/audio_bridge.go:503-517 | Refines the remove step; its close of the channel cannot be a second close. |
| `BridgeSlot.AudioBridge.CloseAllDetach` | internal/call/audio_bridge.go:222-228 | The locked half detaches the client once. |
| `BridgeSlot.AudioBridge.CloseAllClose` | internal/call/audio_bridge.go:230-236 | The unlocked half closes the detached client's channel if nobody has, whatever ran in between. |
| `BridgeSlot.AudioBridge.Broadcast` | internal/call/audio_bridge.go:658-684 | Appends to the registered client's channel when it has room and to no other; a binary payload goes back to the pool exactly otherwise. The channel is provably open. |
| `BridgeSlot.Client.Drain` | internal/call/audio_bridge.go:73-88 | The drain loop empties the channel and returns its binary payloads in order. |
| `Assembly.ReadMessage` | internal/call/audio_bridge.go:388-409 | For every sequence of deliveries, and whatever surplus capacity each pooled buffer has, the loop ends with their concatenation, never offers the reader an empty space, and holds exactly one buffer at the end. |
| `Assembly.Grow` | internal/call/audio_bridge.go:396-404 | The new buffer holds the bytes the old one had, though returning the old one forgets them, and has at least twice the space; only the new one is held. |
| `Assembly.MessageReader.Read` | internal/call/audio_bridge.go:407-408 | The reader as environment: any cut of its chunks into pieces is possible, and together they are the message. |
| `Assembly.MessageIsAllChunks` | internal/call/audio_bridge.go:388-409 | When only the last delivery carries an error the message is all chunks in order, however they were cut. |
| `Jitter.PopReturnsPushed` | internal/audio/pion_jitter_buffer.go:252-259 | Over every possible run every pop returns the buffer pushed under its number, across any number of 16-bit wrap-arounds. |
| `Jitter.PushThenPop` | internal/audio/pion_jitter_buffer.go:134-143 | A packet pushed ahead of the last pop can be popped next, and its buffer is found. |
| `Jitter.WindowIsSound` | internal/audio/pion_jitter_buffer.go:134-143 | Over every possible run no pending packet loses its buffer to a collision or the sweep, and no buffer is returned twice, while stored, or after it was handed on. |
| `Jitter.EveryBuffer` | internal/audio/pion_jitter_buffer.go:134-143 | Over every possible run every pushed buffer is still stored, was handed on with a pop, went back to the pool or was overwritten in the table, and the overwritten ones are none of the others. |
| `Jitter.OverwritesExactly` | internal/audio/pion_jitter_buffer.go:136-142 | A push overwrites a buffer without returning it if and only if a packet a multiple of 2^16 away is still stored. |
| `Jitter.OverwriteExample` | internal/audio/pion_jitter_buffer.go:136-142 | A possible run in which that happens. |
| `Jitter.SweepExact` | internal/audio/pion_jitter_buffer.go:261-272 | After a sweeping pop an earlier stored number remains exactly when its distance modulo 2^16 is zero or at least 2^15. |
| `Jitter.SweepCleans` | internal/audio/pion_jitter_buffer.go:261-272 | No earlier number remains exactly when none stored lies that far back. |
| `Jitter.StaleExample` | internal/audio/pion_jitter_buffer.go:286-289 | A skipped packet that survives the sweep after a long gap. |
| `Jitter.RawWindow.Push` | internal/audio/pion_jitter_buffer.go:134-143 | The table push refines the abstract one and returns exactly the evicted buffer. |
| `Jitter.RawWindow.Retrieve` | internal/audio/pion_jitter_buffer.go:252-273 | Retrieval and sweep refine the abstract pop and return exactly the swept buffers in slot order. |
| `Jitter.StoppedWindow` | internal/audio/pion_jitter_buffer.go:157-178 | When the window of any possible run stops, nothing is stored any more, and every pushed buffer was handed on with a pop, has gone back to the pool, no buffer twice, or was overwritten. |
| `Jitter.RawWindow.Stop` | internal/audio/pion_jitter_buffer.go:157-178 | The first stop returns every stored buffer in slot order and leaves the table empty; a later one does nothing. |
| `Ports.RtpManager.CreateListener` | internal/rtp/rtp_manager.go:69-123 | Takes the first free and bindable even port from the cursor round the range, and fails exactly when every even port from the lowest to the highest of the range, both included, is in use or cannot be bound. |
| `Ports.NextFit` | internal/rtp/rtp_manager.go:77-119 | In plain order: the lowest free port from the cursor up, and if there is none the lowest of all; the cursor goes on by two, or back to the first even port. |
| `Ports.NewRtpManager` | internal/rtp/rtp_manager.go:48-65 | Invalid ranges are refused and nothing else; the manager has the given range, and its cursor starts at the first even port. |
| `Ports.RtpManager.ReleaseListener` | internal/rtp/rtp_manager.go:126-148 | Frees the port; a nil connection and a port that is not live change nothing. |
| `Ports.RangeFacts` | internal/rtp/rtp_manager.go:73-85 | The ports searched are exactly the even ones of the range; a valid range always holds one, and none overflows 16 bits, so the early error and the cursor reset are dead code. |
| `Ports.Fairness` | internal/rtp/rtp_manager.go:85-119 | After a port is handed out it is not handed out again while another port stays free and bindable without being handed out. |
| `Ports.LivePorts` | internal/rtp/rtp_manager.go:67-148 | Over every allocate and release run the live ports are distinct, even and in range, and are exactly the ports marked in use. |
| `Sdp.AnswerIsFixpoint` | internal/sdp/sdp.go:32-103 | For every accepted offer the answer's formats are among the offer's, and negotiating the answer under the same setting yields the identical stream. |
| `Sdp.AnswerNegotiates` | internal/sdp/sdp.go:32-103 | Every stream that can be negotiated, telephone-event type included, comes back from its own answer under the same setting. |
| `Sdp.CodecPreference` | internal/sip/sip_handler.go:357-461 | Under PASS and L16 a listed L16 mapping decides alone, refusing the offer when its rate or channels are unsupported; without one type 0 goes before type 8; under PCMU and PCMA only their own type will do. |
| `Sdp.EventExact` | internal/sip/sip_handler.go:463-478 | A telephone-event type is negotiated exactly when the first mapping of the name has its type listed. |
| `Sdp.SearchExact` | internal/sip/sip_handler.go:325-355 | The search gives the first attribute that maps the name, and nothing exactly when none does. |
| `Sdp.PtimeExact` | internal/sip/sip_handler.go:312-321 | Only the first ptime attribute counts, and 20 stands for a missing or unusable one. |
| `Sdp.RtpmapDefaults` | internal/sip/sip_handler.go:328-352 | Without rate and channels an rtpmap means 8000 Hz and one channel, and a large type keeps its low eight bits. |
| `Sdp.RtpmapRate` | internal/sip/sip_handler.go:337-343 | A rate that is no number counts as missing. |
| `Sdp.AnswerExample` | internal/sdp/sdp.go:35-63 | The answer for mu-law with telephone events, text by text. |
| `Sdp.AcceptedIsNegotiable` | internal/sip/sip_handler.go:357-480 | Every accepted offer leads to one of the streams the writer is proved for. |
| `Sdp.NegotiateStream` | internal/sip/sip_handler.go:300-480 | The selection with its searches, error variable and fallbacks meets the negotiation specification. |
| `Sdp.FindDynamicPT` | internal/sip/sip_handler.go:325-355 | The attribute search finds the first mapping of the encoding name. |
| `Sdp.FindPtime` | internal/sip/sip_handler.go:313-321 | Only the first ptime attribute counts; an unusable one leaves the default. |
| `Sdp.RtpmapRoundTrip` | internal/sdp/sdp.go:48-55 | A printed rtpmap value reads back as what was printed. |
| `Sdp.AnswerAttributes` | internal/sdp/sdp.go:41-61 | What the three attribute searches find in an answer is what was negotiated. |
| `Sdp.AnswerFormats` | internal/sdp/sdp.go:35-38 | The answer offers its codec type and, if there is one, its telephone-event type, and nothing else. |
| `Lifecycle.OnceOnly` | internal/sip/sip_handler.go:182-297 | In every interleaving of set-up, ACK, BYE, CANCEL, media timeout, agent bye and failed 200 OK, each call's hooks fire at most once and its port is released at most once, no two calls hold one port, and the ports in use are exactly those of calls in set-up or set up and not yet released. |
| `Lifecycle.HookOrder` | internal/call/active_call.go:184-305 | In every interleaving the hooks of a call fire in the order connected, disconnected, finished, as far as they fire, if and only if no ACK comes after a disconnect or release that had none before it, and no disconnect comes after the release. |
| `Lifecycle.OrderAfterOK` | internal/sip/sip_handler.go:289-296 | If the 200 OK went through, the order is right if and only if no ACK comes after a disconnect or release that had none before it. |
| `Lifecycle.LateAckExample` | internal/sip/sip_handler.go:487-498 | A run in which an ACK handler that already holds the call fires connected after disconnected. |
| `Lifecycle.EndedIsReleased` | internal/call/active_call.go:249-305 | An ended call whose teardown has run to completion fired its disconnected and finished hooks and released its port exactly once. |
| `Lifecycle.CallIsWhatHappened` | internal/sip/sip_handler.go:182-297 | In every interleaving the state of a call is what has happened to it: each hook fired exactly if its step happened, the port is free exactly if the set-up was aborted or the shutdown released it, and a disconnect or a shutdown is under way exactly between its two steps. |
| `Lifecycle.QuietIsReleased` | internal/call/active_call.go:249-305 | Once nothing of its teardown is left to run, a call has given its port back, exactly once, if and only if it was ended, its 200 OK failed or its set-up was aborted; in the first two cases it has finished. |
| `Lifecycle.CanFinish` | internal/call/active_call.go:249-305 | From any reachable state some steps of its own teardown, and no others, leave a call with nothing to run. |
| `Lifecycle.NextSound` | internal/call/active_call.go:184-305 | Every step keeps the whole invariant. |
| `CallLifecycle.ActiveCall.StartRTPHandlers` | internal/call/active_call.go:184-245 | The connected hook fires on the first ACK and on no other. |
| `CallLifecycle.ActiveCall.EndCallLocked` | internal/call/active_call.go:249-257 | The first end of a call, whichever trigger it is, goes on; every later one returns. |
| `CallLifecycle.ActiveCall.EnterShutdownOnce` | internal/call/active_call.go:274-276 | The first shutdown runs the body; every later one returns. |
| `CallLifecycle.ActiveCall.Finish` | internal/sip/sip_handler.go:228-231 | The finished hook releases a port that was not released before. |
| `CallLifecycle.ActiveCall.EndCall` | internal/call/active_call.go:249-270 | From any state of the call, the first EndCall tells the disconnect, and finishes the call and frees its port unless a shutdown has begun elsewhere; a later one does nothing. |
| `CallManager.ManagerSound` | internal/call/call_manager.go:71-155 | Over every run with fresh identifiers both indices describe the same calls, the counter plus the adds in between is the number of calls, and no waiter channel is closed twice. |
| `CallManager.KnownExactly` | internal/call/call_manager.go:71-122 | Over every run a call is known exactly from its insert until its removal. |
| `CallManager.AllAccounted` | internal/call/call_manager.go:71-155 | Over every run each insert has been counted or is still to be counted, and each waiter ever parked waits, has been taken over by a removal, or has been woken. |
| `CallManager.StrandsExactly` | internal/call/call_manager.go:71-155 | A step strands a waiter exactly when a late increment lifts the counter from minus one to zero while someone waits. |
| `CallManager.StrandedRuns` | internal/call/call_manager.go:71-155 | A run with fresh identifiers never leaves a waiter parked at counter zero if and only if no increment comes, while someone waits, when the adds still to count are one more than the calls in the map. |
| `CallManager.TakesOverExactly` | internal/call/call_manager.go:106-137 | In every run a removal takes over the waiters if and only if the calls it leaves are as many as the adds still to count; so it does while calls are left exactly when there are such adds. |
| `CallManager.StrandedExample` | internal/call/call_manager.go:71-155 | A call removed between insert and increment leaves a waiter parked with no call active. |
| `CallManager.AtomicNeverStrands` | internal/call/call_manager.go:71-155 | With insert and increment in one step, waiters are parked only while a call is active, and the counter is the number of calls. |
| `CallManager.Manager.InsertLocked` | internal/call/call_manager.go:72-75 | The locked half of Add refines the insert step. |
| `CallManager.Manager.CountAdded` | internal/call/call_manager.go:77-78 | The counting half refines the count step. |
| `CallManager.Manager.Get` | internal/call/call_manager.go:84-92 | A call is found exactly when the other index holds one with that Call-ID, and it is that call. |
| `CallManager.Manager.GetByInternalID` | internal/call/call_manager.go:95-103 | The same the other way round. |
| `CallManager.Manager.RemoveLocked` | internal/call/call_manager.go:106-122 | Refines the remove step and takes over the waiters exactly when the counter reaches zero. |
| `CallManager.Manager.ParkLocked` | internal/call/call_manager.go:140-147 | Parks a new waiter exactly when a call is counted. |
| `Ogg.UnlaceSegments` | internal/audio/ogg_writer.go:193-204 | Reading the lacing table and body of a page gives back exactly its packets, lengths that are multiples of 255 included. |
| `Ogg.PageReadable` | internal/audio/ogg_writer.go:186-236 | A page reads back with its packets exactly when they need at most 255 segments. |
| `Ogg.PageRoundTrip` | internal/audio/ogg_writer.go:186-236 | Such a page reads back with all its fields, whatever follows it, for every checksum function. |
| `Ogg.StreamRoundTrip` | internal/audio/ogg_writer.go:186-240 | A stream of such pages reads back page by page. |
| `Ogg.RunNumbers` | internal/audio/ogg_writer.go:174-240 | Over every run pages are numbered consecutively modulo 2^32, and the page of the packet just written carries that packet alone with the running sum of samples modulo 2^64. |
| `Ogg.EveryPacket` | internal/audio/ogg_writer.go:174-240 | Every packet of a run has a page of its own, the next one after those of the packets before it, carrying that packet alone, its position as number and the sum of samples up to it modulo 2^64. |
| `Ogg.HeaderPages` | internal/audio/ogg_writer.go:124-169 | The first request for headers writes two pages: the identification header of section 5.1 of RFC 7845, alone under the beginning-of-stream flag, and then the comment header; later requests write nothing. |
| `Ogg.IdHeaderReads` | internal/audio/ogg_writer.go:132-145 | A reader of the identification header finds version 1, the channels, a pre-skip of 3840, the rate, no gain and mapping family 0. |
| `Ogg.CommentHeaderReads` | internal/audio/ogg_writer.go:152-161 | A reader of the comment header finds the vendor string and no comments. |
| `Ogg.BeginsWithFlag` | internal/audio/ogg_writer.go:124-182 | A stream begins with the beginning-of-stream flag if and only if its headers are asked for before any packet, and no later page carries the flag then. |
| `Ogg.WrittenStreamReads` | internal/audio/ogg_writer.go:124-240 | Whatever a writer wrote, with packets under 65025 bytes, reads back as its pages. |
| `Ogg.OggWriter.WritePacket` | internal/audio/ogg_writer.go:174-182 | Counters and one page, as the packet step says. |
| `Ogg.OggWriter.WriteOpusHeader` | internal/audio/ogg_writer.go:124-169 | Two header pages the first time, nothing afterwards. |
| `Ogg.OggWriter.BuildHeader` | internal/audio/ogg_writer.go:206-226 | Header with zero checksum, then the checksum of the whole page filled in. |
| `Ogg.OggWriter.SegmentTable` | internal/audio/ogg_writer.go:193-204 | The nested loop builds the lacing table. |

## Left out

- Delivery.ExactlyOnce: assumes a DTMF payload type between 1 and 127 that differs from the audio type, requests whose duration loop ends, and a run that advances fewer than 2^32 samples.
- WriterLoop.RtpWriter.constructor: demands a non-empty tick; with an empty one the ring has no capacity and the program divides by zero on the first tone. `Writer.NegotiatedWriterRuns` shows that negotiated streams never get there.
- WriterLoop.RtpWriter.HandleDtmf: demands a request whose duration loop ends, as the program would not return from it otherwise.
- Packetizer.Packetizer.constructor: demands a non-empty tick, for the same reason.
- Jitter.PopReturnsPushed: assumes of the surrounding jitter buffer that numbers are not repeated, that pops come in increasing order, and that every push lies within 1023 of every pending number; concealment packets are not part of the window.
- Sdp.AnswerIsFixpoint: works on parsed descriptions; parsing and marshalling session descriptions, the address part of the answer, and the 64-bit overflow of sample rate times ptime are not part of this model.
- Bridge.BufferTheorem: covers calls with raw RTP buffers and with silence packets; the text messages of the read pump and the buffers of its recorder branch are not part of this model.
- Lifecycle.OnceOnly: calls have distinct Call-IDs; the capacity check under concurrent INVITEs, HangupCall, StopAll and WebRTC calls are not part of this model.
- Rtp.ParseHeader: header extensions, contributing sources and padding, which the writer never sends, are not read.
- Pool.Custody.Get: a pooled buffer is a new array with arbitrary contents; reuse of one array for two stays outside the pool is not modelled.
- Pool.Custody.Put: forgets the contents and ends the right to return, so that a read after it learns nothing and a second return is impossible; a write into a returned buffer is not excluded.
- Recorder.ClosedRecording: pushes dropped because the recorder's queue is full are not among the received bytes; I/O errors are not modelled, and buffered writes may reach the file in any pieces.
- The CRC of Ogg pages is an uninterpreted function of the page.
- Wall-clock behaviour: tick pacing, the media timeout's ten seconds, ping and write deadlines.
- Whether a parked waiter, a reservation or a shutdown is eventually served.
- The internals of the jitter buffer, dialogs, WebSockets, Redis, metrics and logging libraries.
- The Opus codec, which the program refuses to encode or decode.
- G711.ALawBytes: says which byte stands for which value in this program, where a byte for a positive sample has its sign bit clear; the sign convention of the ITU tables is not part of this model.
- The client package, the load generator, the WebRTC gateway, the HTTP interface and the command-line programs, which would add only plumbing.
