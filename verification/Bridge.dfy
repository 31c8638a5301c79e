/**
 The audio bridge (internal/call/audio_bridge.go) as a state machine: every step is one
 critical section under the bridge's lock, one channel operation, or one buffer operation
 of a goroutine, and steps of different goroutines interleave freely.
 */
module Bridge {
  import opened Bytes
  import opened Results

  const SEND_CAPACITY := 200

  // ---- the client slot ----

  /** CloseAll detaches the client under the lock, and closes its channel afterwards. */
  datatype Phase = Running | Detached(client: Option<nat>) | Closed

  /**
   `conns`, `open` and `disconnected` are indexed by client: its connection, whether its
   send channel is open, and whether its disconnect-once has run. `fault` records a send
   on, or a close of, a closed channel.
   */
  datatype Slot = Slot(client: Option<nat>, reserved: bool, conns: seq<nat>, open: seq<bool>,
                       disconnected: seq<bool>, gauge: int, phase: Phase, fault: bool)

  const EMPTY_SLOT := Slot(None, false, [], [], [], 0, Running, false)

  predicate WellFormed(s: Slot) {
    && |s.conns| == |s.open| == |s.disconnected|
    && (s.client.Some? ==> s.client.value < |s.conns|)
    && (s.phase.Detached? && s.phase.client.Some? ==> s.phase.client.value < |s.conns|)
  }

  function TryLock(s: Slot): (r: Slot) {
    if s.client.Some? || s.reserved then s else s.(reserved := true)
  }

  function Unlock(s: Slot): (r: Slot) {
    s.(reserved := false)
  }

  /** Whether a new connection is taken on; otherwise it is just closed. */
  predicate Accepts(s: Slot, ctxDone: bool) {
    !ctxDone && s.client.None?
  }

  function AddClient(s: Slot, conn: nat, ctxDone: bool): (r: Slot) {
    if !Accepts(s, ctxDone) then s
    else
      s.(client := Some(|s.conns|), reserved := false, conns := s.conns + [conn],
         open := s.open + [true], disconnected := s.disconnected + [false], gauge := s.gauge + 1)
  }

  /** client.disconnect.Do(close the channel, lower the gauge) */
  function Disconnect(s: Slot, c: nat): (r: Slot)
    requires WellFormed(s) && c < |s.conns|
  {
    if s.disconnected[c] then s
    else
      s.(open := s.open[c := false], disconnected := s.disconnected[c := true],
         gauge := s.gauge - 1, fault := s.fault || !s.open[c])
  }

  function RemoveClient(s: Slot, conn: nat): (r: Slot)
    requires WellFormed(s)
  {
    if s.client.Some? && s.conns[s.client.value] == conn then
      Disconnect(s.(client := None, reserved := false), s.client.value)
    else s
  }

  function Detach(s: Slot): (r: Slot) {
    if s.phase.Running? then s.(client := None, reserved := false, phase := Detached(s.client)) else s
  }

  function CloseDetached(s: Slot): (r: Slot)
    requires WellFormed(s)
  {
    if !s.phase.Detached? then s
    else
      var t := s.(phase := Closed);
      if s.phase.client.Some? then Disconnect(t, s.phase.client.value) else t
  }

  /** A send to the registered client. */
  function Send(s: Slot): (r: Slot)
    requires WellFormed(s) && s.client.Some?
  {
    s.(fault := s.fault || !s.open[s.client.value])
  }

  function CountOpen(disconnected: seq<bool>): (n: nat) {
    if disconnected == [] then 0
    else CountOpen(disconnected[..|disconnected| - 1]) + if disconnected[|disconnected| - 1] then 0 else 1
  }

  lemma CountOpenUpdate(d: seq<bool>, c: nat)
    requires c < |d| && !d[c]
    ensures CountOpen(d[c := true]) == CountOpen(d) - 1
  {
    var n := |d| - 1;
    if c == n {
      assert d[c := true][..n] == d[..n];
    } else {
      CountOpenUpdate(d[..n], c);
      assert d[c := true][..n] == d[..n][c := true];
    }
  }

  lemma CountOpenAppend(d: seq<bool>)
    ensures CountOpen(d + [false]) == CountOpen(d) + 1
  {
    assert (d + [false])[..|d|] == d;
  }

  /** The client is the registered one, or the one CloseAll has detached but not yet closed. */
  predicate Attached(s: Slot, c: nat) {
    s.client == Some(c) || s.phase == Detached(Some(c))
  }

  ghost predicate SlotSound(s: Slot) {
    && WellFormed(s)
    && !s.fault
    && (s.reserved ==> s.client.None?)
    && (s.phase.Detached? && s.phase.client.Some? ==> s.client != s.phase.client)
    && (forall c :: 0 <= c < |s.conns| ==> s.open[c] == !s.disconnected[c])
    && (forall c :: 0 <= c < |s.conns| ==> (s.open[c] <==> Attached(s, c)))
    && s.gauge == CountOpen(s.disconnected)
  }

  // ---- buffers ----

  /** Who may touch a pooled buffer. */
  datatype Holder = Processor | Queued(client: nat) | Pumping(client: nat) | Returned

  datatype Message = Text | Binary(buf: nat)

  /** `Leaving` has found the queue empty (or closed) and is about to remove its client. */
  datatype Pump = Waiting | Writing(msg: Message) | Draining | Leaving | Done

  /** The processor's place in its loop over one packet. */
  datatype Place =
    | Idle
    | Have(raw: nat)
    | Admitted(raw: nat, listeners: bool)
    | Decoded(raw: nat, listeners: bool, l16: Option<nat>)
    | Finishing(raw: nat)
    | Stopped

  /** `misuse` records a buffer returned twice or touched after its return. */
  datatype Buffers = Buffers(queues: seq<seq<Message>>, pumps: seq<Pump>, holders: map<nat, Holder>,
                             place: Place, misuse: bool)

  const NO_BUFFERS := Buffers([], [], map[], Idle, false)

  /** Reading a buffer. */
  function Use(b: Buffers, buf: nat): (r: Buffers) {
    b.(misuse := b.misuse || buf !in b.holders || b.holders[buf].Returned?)
  }

  function Put(b: Buffers, buf: nat): (r: Buffers) {
    Use(b, buf).(holders := b.holders[buf := Returned])
  }

  /** Taking a buffer from the pool; `buf` names this stay of the buffer outside the pool. */
  function Get(b: Buffers, buf: nat): (r: Buffers) {
    b.(holders := b.holders[buf := Processor])
  }

  function PutMessage(b: Buffers, msg: Message): (r: Buffers) {
    if msg.Binary? then Put(b, msg.buf) else b
  }

  /** A broadcast hands the buffer to the client's queue, or returns it. */
  function Broadcast(b: Buffers, client: Option<nat>, msg: Message): (r: Buffers)
    requires client.Some? ==> client.value < |b.queues|
  {
    if client.None? || |b.queues[client.value]| >= SEND_CAPACITY then PutMessage(b, msg)
    else
      var c := client.value;
      var queued := b.(queues := b.queues[c := b.queues[c] + [msg]]);
      if msg.Binary? then queued.(holders := b.holders[msg.buf := Queued(c)]) else queued
  }

  // ---- the whole bridge ----

  /** What does not change: is there a recorder, must the audio be transcoded for the agent? */
  datatype Config = Config(recorder: bool, transcoding: bool)

  datatype State = State(slot: Slot, buffers: Buffers)

  const INITIAL := State(EMPTY_SLOT, NO_BUFFERS)

  datatype Action =
    | Reserve
    | Release
    | Add(conn: nat, ctxDone: bool)
    | Remove(conn: nat)
    | CloseAllDetach
    | CloseAllClose
    | BroadcastText
    | Receive(raw: nat)
    | Admit(ctxDone: bool, dtmf: bool)
    | Decode(l16: nat, fails: bool)
    | Forward(copy: nat)
    | Finish
    | PumpReceive(c: nat)
    | PumpWrite(c: nat, fails: bool)
    | PumpPingFails(c: nat)
    | Drain(c: nat)
    | PumpRemove(c: nat)

  predicate Shaped(s: State) {
    && WellFormed(s.slot)
    && |s.buffers.queues| == |s.buffers.pumps| == |s.slot.conns|
  }

  predicate Fresh(b: Buffers, buf: nat) {
    buf !in b.holders
  }

  /** Which steps can happen next. Buffer names given to a step are new ones. */
  predicate Enabled(cfg: Config, s: State, a: Action) {
    var b := s.buffers;
    match a
    case Receive(raw) => b.place.Idle? && Fresh(b, raw)
    case Admit(_, _) => b.place.Have?
    case Decode(l16, _) => b.place.Admitted? && Fresh(b, l16)
    case Forward(copy) => b.place.Decoded? && Fresh(b, copy)
    case Finish => b.place.Finishing?
    case PumpReceive(c) =>
      c < |b.pumps| && c < |b.queues| && c < |s.slot.open| && b.pumps[c].Waiting? && (b.queues[c] != [] || !s.slot.open[c])
    case PumpWrite(c, _) => c < |b.pumps| && b.pumps[c].Writing?
    case PumpPingFails(c) => c < |b.pumps| && b.pumps[c].Waiting?
    case Drain(c) => c < |b.pumps| && c < |b.queues| && b.pumps[c].Draining?
    case PumpRemove(c) => c < |b.pumps| && b.pumps[c].Leaving?
    case _ => true
  }

  function ProcessorStep(cfg: Config, b: Buffers, client: Option<nat>, a: Action): (r: Buffers)
    requires client.Some? ==> client.value < |b.queues|
  {
    match a
    case Receive(raw) => Get(b, raw).(place := Have(raw))
    case Admit(ctxDone, dtmf) =>
      if !b.place.Have? then b
      else if ctxDone then Put(b, b.place.raw).(place := Stopped)
      else if dtmf || (client.None? && !cfg.recorder) then Put(b, b.place.raw).(place := Idle)
      else b.(place := Admitted(b.place.raw, client.Some?))
    case Decode(l16, fails) =>
      if !b.place.Admitted? then b
      else
        var raw, listeners := b.place.raw, b.place.listeners;
        if !(cfg.recorder || cfg.transcoding) then b.(place := Decoded(raw, listeners, None))
        else if fails then Put(Use(b, raw), raw).(place := Idle)
        else
          // decode, and copy for the recorder
          var decoded := Get(Use(b, raw), l16).(place := Decoded(raw, listeners, Some(l16)));
          if cfg.recorder then Use(decoded, l16) else decoded
    case Forward(copy) =>
      if !b.place.Decoded? then b
      else
        var raw, l16 := b.place.raw, b.place.l16;
        var done :=
          if b.place.listeners then
            if cfg.transcoding then (if l16.Some? then Broadcast(b, client, Binary(l16.value)) else b)
            else Broadcast(Get(Use(b, raw), copy), client, Binary(copy))
          else if cfg.transcoding && l16.Some? then Put(b, l16.value)
          else b;
        done.(place := Finishing(raw))
    case Finish =>
      if b.place.Finishing? then Put(b, b.place.raw).(place := Idle) else b
    case _ => b
  }

  function PumpStep(b: Buffers, a: Action): (r: Buffers)
    requires |b.queues| == |b.pumps|
  {
    match a
    case PumpReceive(c) =>
      if c >= |b.queues| then b
      else if b.queues[c] == [] then b.(pumps := b.pumps[c := Draining])
      else
        var msg := b.queues[c][0];
        var taken := b.(queues := b.queues[c := b.queues[c][1..]], pumps := b.pumps[c := Writing(msg)]);
        if msg.Binary? then taken.(holders := b.holders[msg.buf := Pumping(c)]) else taken
    case PumpWrite(c, fails) =>
      if c >= |b.pumps| || !b.pumps[c].Writing? then b
      else
        var msg := b.pumps[c].msg;
        var used := if msg.Binary? then Use(b, msg.buf) else b;
        PutMessage(used, msg).(pumps := b.pumps[c := if fails then Draining else Waiting])
    case PumpPingFails(c) =>
      if c >= |b.pumps| then b else b.(pumps := b.pumps[c := Draining])
    case Drain(c) =>
      if c >= |b.queues| then b
      else if b.queues[c] == [] then b.(pumps := b.pumps[c := Leaving])
      else PutMessage(b, b.queues[c][0]).(queues := b.queues[c := b.queues[c][1..]])
    case PumpRemove(c) =>
      if c >= |b.pumps| then b else b.(pumps := b.pumps[c := Done])
    case _ => b
  }

  /** The lock-protected part of a step. */
  function SlotStep(cfg: Config, s: State, a: Action): (r: Slot)
    requires Shaped(s)
  {
    match a
    case Reserve => TryLock(s.slot)
    case Release => Unlock(s.slot)
    case Add(conn, ctxDone) => AddClient(s.slot, conn, ctxDone)
    case Remove(conn) => RemoveClient(s.slot, conn)
    case CloseAllDetach => Detach(s.slot)
    case CloseAllClose => CloseDetached(s.slot)
    case BroadcastText =>
      if s.slot.client.Some? && |s.buffers.queues[s.slot.client.value]| < SEND_CAPACITY then Send(s.slot) else s.slot
    case Forward(_) =>
      if s.buffers.place.Decoded? && s.buffers.place.listeners && s.slot.client.Some?
         && |s.buffers.queues[s.slot.client.value]| < SEND_CAPACITY then Send(s.slot) else s.slot
    case PumpRemove(c) => if c < |s.slot.conns| then RemoveClient(s.slot, s.slot.conns[c]) else s.slot
    case _ => s.slot
  }

  function BufferStep(cfg: Config, s: State, a: Action): (r: Buffers)
    requires Shaped(s)
  {
    match a
    case Add(_, ctxDone) =>
      if Accepts(s.slot, ctxDone)
      then s.buffers.(queues := s.buffers.queues + [[Text]], pumps := s.buffers.pumps + [Waiting])
      else s.buffers
    case BroadcastText => Broadcast(s.buffers, s.slot.client, Text)
    case PumpReceive(_) => PumpStep(s.buffers, a)
    case PumpWrite(_, _) => PumpStep(s.buffers, a)
    case PumpPingFails(_) => PumpStep(s.buffers, a)
    case Drain(_) => PumpStep(s.buffers, a)
    case PumpRemove(_) => PumpStep(s.buffers, a)
    case _ => ProcessorStep(cfg, s.buffers, s.slot.client, a)
  }

  function Next(cfg: Config, s: State, a: Action): (r: State)
    requires Shaped(s)
  {
    if Enabled(cfg, s, a) then State(SlotStep(cfg, s, a), BufferStep(cfg, s, a)) else s
  }

  // ---- the slot is sound ----

  lemma SlotStepSound(cfg: Config, s: State, a: Action)
    requires Shaped(s) && SlotSound(s.slot)
    ensures SlotSound(SlotStep(cfg, s, a))
    ensures |SlotStep(cfg, s, a).conns| == |s.slot.conns| + if a.Add? && Accepts(s.slot, a.ctxDone) then 1 else 0
  {
    match a
    case Add(conn, ctxDone) => AddSound(s.slot, conn, ctxDone);
    case Remove(conn) => RemoveSound(s.slot, conn);
    case CloseAllClose => CloseDetachedSound(s.slot);
    case PumpRemove(c) => if c < |s.slot.conns| { RemoveSound(s.slot, s.slot.conns[c]); }
    case _ => SimpleSound(s, a, cfg);
  }

  /** Reserving, releasing, detaching and sending leave the channels as they are. */
  lemma SimpleSound(s: State, a: Action, cfg: Config)
    requires Shaped(s) && SlotSound(s.slot) && !a.Add? && !a.Remove? && !a.CloseAllClose? && !a.PumpRemove?
    ensures SlotSound(SlotStep(cfg, s, a)) && |SlotStep(cfg, s, a).conns| == |s.slot.conns|
  {
    if s.slot.client.Some? {
      assert Attached(s.slot, s.slot.client.value);
    }
  }

  lemma AddSound(s: Slot, conn: nat, ctxDone: bool)
    requires SlotSound(s)
    ensures SlotSound(AddClient(s, conn, ctxDone))
    ensures |AddClient(s, conn, ctxDone).conns| == |s.conns| + if Accepts(s, ctxDone) then 1 else 0
  {
    CountOpenAppend(s.disconnected);
  }

  lemma CloseDetachedSound(s: Slot)
    requires SlotSound(s)
    ensures SlotSound(CloseDetached(s)) && |CloseDetached(s).conns| == |s.conns|
  {
    if s.phase.Detached? && s.phase.client.Some? {
      assert Attached(s, s.phase.client.value);
      CountOpenUpdate(s.disconnected, s.phase.client.value);
    }
  }

  lemma RemoveSound(s: Slot, conn: nat)
    requires SlotSound(s)
    ensures SlotSound(RemoveClient(s, conn)) && |RemoveClient(s, conn).conns| == |s.conns|
  {
    if s.client.Some? && s.conns[s.client.value] == conn {
      assert Attached(s, s.client.value);
      CountOpenUpdate(s.disconnected, s.client.value);
    }
  }

  // ---- buffers are linear ----

  /** The buffers the processor still has to return or hand on. */
  function Owned(p: Place): (r: seq<nat>) {
    match p
    case Have(raw) => [raw]
    case Admitted(raw, _) => [raw]
    case Decoded(raw, _, l16) => if l16.Some? then [raw, l16.value] else [raw]
    case Finishing(raw) => [raw]
    case _ => []
  }

  ghost predicate ProcessorOwns(b: Buffers) {
    var o := Owned(b.place);
    && (forall i :: 0 <= i < |o| ==> o[i] in b.holders && b.holders[o[i]] == Processor)
    && (|o| == 2 ==> o[0] != o[1])
  }

  /** A queued buffer is held by its queue, once. */
  ghost predicate QueueOwns(b: Buffers, c: nat)
    requires c < |b.queues|
  {
    var q := b.queues[c];
    && (forall i :: 0 <= i < |q| && q[i].Binary? ==> q[i].buf in b.holders && b.holders[q[i].buf] == Queued(c))
    && (forall i, j :: 0 <= i < j < |q| && q[i].Binary? && q[j].Binary? ==> q[i].buf != q[j].buf)
  }

  ghost predicate PumpOwns(b: Buffers, c: nat)
    requires c < |b.pumps|
  {
    b.pumps[c].Writing? && b.pumps[c].msg.Binary? ==>
      b.pumps[c].msg.buf in b.holders && b.holders[b.pumps[c].msg.buf] == Pumping(c)
  }

  ghost predicate BuffersSound(b: Buffers) {
    && |b.queues| == |b.pumps|
    && !b.misuse
    && ProcessorOwns(b)
    && (forall c :: 0 <= c < |b.queues| ==> QueueOwns(b, c))
    && (forall c :: 0 <= c < |b.pumps| ==> PumpOwns(b, c))
  }

  /** A step that changes only holders of buffers no queue or pump holds keeps those queues and pumps in order. */
  lemma HoldersChanged(b: Buffers, r: Buffers)
    requires BuffersSound(b) && r.queues == b.queues && r.pumps == b.pumps
    requires forall buf :: buf in b.holders && (b.holders[buf].Queued? || b.holders[buf].Pumping?) ==>
               buf in r.holders && r.holders[buf] == b.holders[buf]
    ensures forall c :: 0 <= c < |r.queues| ==> QueueOwns(r, c)
    ensures forall c :: 0 <= c < |r.pumps| ==> PumpOwns(r, c)
  {
    forall c | 0 <= c < |r.queues|
      ensures QueueOwns(r, c)
    {
      assert QueueOwns(b, c);
    }
    forall c | 0 <= c < |r.pumps|
      ensures PumpOwns(r, c)
    {
      assert PumpOwns(b, c);
    }
  }

  /** Handing a buffer of the processor to a queue. */
  lemma BroadcastSound(b: Buffers, client: Option<nat>, buf: nat)
    requires BuffersSound(b) && (client.Some? ==> client.value < |b.queues|)
    requires buf in b.holders && b.holders[buf] == Processor
    ensures var r := Broadcast(b, client, Binary(buf));
            && |r.queues| == |r.pumps| && !r.misuse && r.place == b.place
            && (forall c :: 0 <= c < |r.queues| ==> QueueOwns(r, c))
            && (forall c :: 0 <= c < |r.pumps| ==> PumpOwns(r, c))
            && (forall x :: x in b.holders && x != buf ==> x in r.holders && r.holders[x] == b.holders[x])
  {
    var r := Broadcast(b, client, Binary(buf));
    if client.None? || |b.queues[client.value]| >= SEND_CAPACITY {
      HoldersChanged(b, r);
    } else {
      forall c | 0 <= c < |r.queues|
        ensures QueueOwns(r, c)
      {
        assert QueueOwns(b, c);
      }
      forall c | 0 <= c < |r.pumps|
        ensures PumpOwns(r, c)
      {
        assert PumpOwns(b, c);
      }
    }
  }

  lemma TextSound(b: Buffers, client: Option<nat>)
    requires BuffersSound(b) && (client.Some? ==> client.value < |b.queues|)
    ensures BuffersSound(Broadcast(b, client, Text))
  {
    var r := Broadcast(b, client, Text);
    forall c | 0 <= c < |r.queues|
      ensures QueueOwns(r, c) && PumpOwns(r, c)
    {
      assert QueueOwns(b, c) && PumpOwns(b, c);
    }
  }

  /** The buffers of each place, by name. */
  lemma OwnedFacts(b: Buffers)
    requires ProcessorOwns(b)
    ensures (b.place.Have? || b.place.Admitted? || b.place.Decoded? || b.place.Finishing?) ==>
              b.place.raw in b.holders && b.holders[b.place.raw] == Processor
    ensures b.place.Decoded? && b.place.l16.Some? ==>
              && b.place.l16.value in b.holders && b.holders[b.place.l16.value] == Processor
              && b.place.l16.value != b.place.raw
  {
    var o := Owned(b.place);
    if |o| >= 1 { assert o[0] in b.holders; }
    if |o| == 2 { assert o[1] in b.holders; }
  }

  lemma ProcessorStepSound(cfg: Config, b: Buffers, client: Option<nat>, a: Action)
    requires BuffersSound(b) && (client.Some? ==> client.value < |b.queues|)
    requires a.Receive? ==> b.place.Idle? && Fresh(b, a.raw)
    requires a.Decode? ==> Fresh(b, a.l16)
    requires a.Forward? ==> Fresh(b, a.copy)
    ensures BuffersSound(ProcessorStep(cfg, b, client, a))
  {
    var r := ProcessorStep(cfg, b, client, a);
    OwnedFacts(b);
    if a.Forward? && b.place.Decoded? && b.place.listeners {
      if cfg.transcoding {
        if b.place.l16.Some? {
          BroadcastSound(b, client, b.place.l16.value);
        }
      } else {
        var t := Get(Use(b, b.place.raw), a.copy);
        HoldersChanged(b, t);
        BroadcastSound(t, client, a.copy);
      }
      RelabelPlace(if cfg.transcoding then
                     (if b.place.l16.Some? then Broadcast(b, client, Binary(b.place.l16.value)) else b)
                   else Broadcast(Get(Use(b, b.place.raw), a.copy), client, Binary(a.copy)), r);
    } else {
      HoldersChanged(b, r);
    }
  }

  /** The processor's place does not concern queues and pumps. */
  lemma RelabelPlace(b: Buffers, r: Buffers)
    requires r == b.(place := r.place) && |b.queues| == |b.pumps|
    requires forall c :: 0 <= c < |b.queues| ==> QueueOwns(b, c)
    requires forall c :: 0 <= c < |b.pumps| ==> PumpOwns(b, c)
    ensures forall c :: 0 <= c < |r.queues| ==> QueueOwns(r, c)
    ensures forall c :: 0 <= c < |r.pumps| ==> PumpOwns(r, c)
  {
    forall c | 0 <= c < |r.queues|
      ensures QueueOwns(r, c) && PumpOwns(r, c)
    {
      assert QueueOwns(b, c) && PumpOwns(b, c);
    }
  }

  /** Changing the holder of a buffer the processor does not own leaves the processor's buffers alone. */
  lemma ProcessorUntouched(b: Buffers, r: Buffers, buf: nat, h: Holder)
    requires ProcessorOwns(b) && buf in b.holders && !b.holders[buf].Processor?
    requires r.place == b.place && r.holders == b.holders[buf := h]
    ensures ProcessorOwns(r)
  {
    var o := Owned(b.place);
    forall i | 0 <= i < |o|
      ensures o[i] in r.holders && r.holders[o[i]] == Processor
    {
      assert o[i] in b.holders && b.holders[o[i]] == Processor;
    }
  }

  lemma TakeSound(b: Buffers, d: nat)
    requires BuffersSound(b) && d < |b.queues|
    ensures BuffersSound(PumpStep(b, PumpReceive(d)))
  {
    var r := PumpStep(b, PumpReceive(d));
    assert QueueOwns(b, d) && PumpOwns(b, d);
    forall c | 0 <= c < |r.queues|
      ensures QueueOwns(r, c) && PumpOwns(r, c)
    {
      assert QueueOwns(b, c) && PumpOwns(b, c);
    }
    if b.queues[d] != [] && b.queues[d][0].Binary? {
      ProcessorUntouched(b, r, b.queues[d][0].buf, Pumping(d));
    }
  }

  lemma WriteSound(b: Buffers, d: nat, fails: bool)
    requires BuffersSound(b) && d < |b.pumps| && b.pumps[d].Writing?
    ensures BuffersSound(PumpStep(b, PumpWrite(d, fails)))
  {
    var r := PumpStep(b, PumpWrite(d, fails));
    assert QueueOwns(b, d) && PumpOwns(b, d);
    forall c | 0 <= c < |r.queues|
      ensures QueueOwns(r, c) && PumpOwns(r, c)
    {
      assert QueueOwns(b, c) && PumpOwns(b, c);
    }
    if b.pumps[d].msg.Binary? {
      ProcessorUntouched(b, r, b.pumps[d].msg.buf, Returned);
    }
  }

  lemma DrainSound(b: Buffers, d: nat)
    requires BuffersSound(b) && d < |b.queues|
    ensures BuffersSound(PumpStep(b, Drain(d)))
    ensures var r := PumpStep(b, Drain(d));
            && r.place == b.place
            && (forall x :: x in b.holders ==> x in r.holders)
            && (forall x :: x in r.holders ==>
                  if b.queues[d] != [] && b.queues[d][0] == Binary(x)
                  then x in b.holders && b.holders[x] == Queued(d) && r.holders[x] == Returned
                  else x in b.holders && r.holders[x] == b.holders[x])
  {
    var r := PumpStep(b, Drain(d));
    assert QueueOwns(b, d) && PumpOwns(b, d);
    forall c | 0 <= c < |r.queues|
      ensures QueueOwns(r, c) && PumpOwns(r, c)
    {
      assert QueueOwns(b, c) && PumpOwns(b, c);
    }
    if b.queues[d] != [] && b.queues[d][0].Binary? {
      ProcessorUntouched(b, r, b.queues[d][0].buf, Returned);
    }
  }

  /** A pump that gives up without a message in hand. */
  lemma QuitSound(b: Buffers, d: nat, a: Action)
    requires BuffersSound(b) && (a == PumpPingFails(d) || a == PumpRemove(d))
    ensures BuffersSound(PumpStep(b, a))
  {
    var r := PumpStep(b, a);
    forall c | 0 <= c < |r.queues|
      ensures QueueOwns(r, c) && PumpOwns(r, c)
    {
      assert QueueOwns(b, c) && PumpOwns(b, c);
    }
  }

  /** A new client's queue holds the metadata message and no buffer. */
  lemma NewClientSound(cfg: Config, s: State, a: Action)
    requires Shaped(s) && BuffersSound(s.buffers) && a.Add?
    ensures BuffersSound(BufferStep(cfg, s, a))
  {
    var r := BufferStep(cfg, s, a);
    forall c | 0 <= c < |r.queues|
      ensures QueueOwns(r, c) && PumpOwns(r, c)
    {
      if c < |s.buffers.queues| {
        assert QueueOwns(s.buffers, c) && PumpOwns(s.buffers, c);
      }
    }
  }

  ghost predicate Sound(s: State) {
    Shaped(s) && SlotSound(s.slot) && BuffersSound(s.buffers)
  }

  lemma NextSound(cfg: Config, s: State, a: Action)
    requires Sound(s)
    ensures Sound(Next(cfg, s, a))
  {
    if Enabled(cfg, s, a) {
      SlotStepSound(cfg, s, a);
      match a
      case Add(_, _) => NewClientSound(cfg, s, a);
      case BroadcastText => TextSound(s.buffers, s.slot.client);
      case PumpReceive(c) => TakeSound(s.buffers, c);
      case PumpWrite(c, fails) => WriteSound(s.buffers, c, fails);
      case PumpPingFails(c) => QuitSound(s.buffers, c, a);
      case PumpRemove(c) => QuitSound(s.buffers, c, a);
      case Drain(c) => DrainSound(s.buffers, c);
      case _ => ProcessorStepSound(cfg, s.buffers, s.slot.client, a);
    }
  }

  // ---- every interleaving ----

  function Run(cfg: Config, actions: seq<Action>): (s: State)
    ensures Sound(s)
  {
    if actions == [] then INITIAL
    else
      var before := Run(cfg, actions[..|actions| - 1]);
      NextSound(cfg, before, actions[|actions| - 1]);
      Next(cfg, before, actions[|actions| - 1])
  }

  lemma RunSnoc(cfg: Config, actions: seq<Action>, a: Action)
    ensures Run(cfg, actions + [a]) == Next(cfg, Run(cfg, actions), a)
  {
    assert (actions + [a])[..|actions|] == actions;
  }

  lemma LastStep(actions: seq<Action>, more: seq<Action>)
    requires more != []
    ensures actions + more == (actions + more[..|more| - 1]) + [more[|more| - 1]]
  {
  }

  /**
   In every interleaving, no channel is closed twice or sent on after closing; a registered
   client never coexists with a reservation; the only open channels are those of the
   registered client and of one that CloseAll has detached; and the connection gauge counts
   exactly the clients whose disconnect has not run.
   */
  lemma SlotTheorem(cfg: Config, actions: seq<Action>)
    ensures var s := Run(cfg, actions).slot;
            && !s.fault
            && !(s.client.Some? && s.reserved)
            && (forall c :: 0 <= c < |s.conns| ==> (!s.disconnected[c] <==> Attached(s, c)))
            && s.gauge == CountOpen(s.disconnected)
            && 0 <= s.gauge <= (if s.phase.Detached? then 2 else 1)
  {
    var s := Run(cfg, actions).slot;
    GaugeBound(s);
  }

  /** At most the registered and the detached client are open. */
  lemma GaugeBound(s: Slot)
    requires SlotSound(s)
    ensures s.gauge == (if s.client.Some? then 1 else 0) + (if s.phase.Detached? && s.phase.client.Some? then 1 else 0)
  {
    var detached := if s.phase.Detached? then s.phase.client else None;
    CountIsAttached(s.disconnected, s.client, detached);
  }

  /** Counting the false entries when these two positions are the only ones. */
  lemma CountIsAttached(d: seq<bool>, a: Option<nat>, b: Option<nat>)
    requires (a.Some? ==> a.value < |d|) && (b.Some? ==> b.value < |d|) && (a.Some? && b.Some? ==> a != b)
    requires forall c :: 0 <= c < |d| ==> (!d[c] <==> a == Some(c) || b == Some(c))
    ensures CountOpen(d) == (if a.Some? then 1 else 0) + if b.Some? then 1 else 0
  {
    if d != [] {
      var n := |d| - 1;
      CountIsAttached(d[..n], if a == Some(n) then None else a, if b == Some(n) then None else b);
    }
  }

  /**
   In every interleaving no pooled buffer is returned twice or touched after its return, and
   no buffer waits in two places of the send queues.
   */
  lemma BufferTheorem(cfg: Config, actions: seq<Action>)
    ensures var b := Run(cfg, actions).buffers;
            && !b.misuse
            && forall c, i, d, j :: 0 <= c < |b.queues| && 0 <= i < |b.queues[c]| && 0 <= d < |b.queues| && 0 <= j < |b.queues[d]|
                 && (c != d || i != j) && b.queues[c][i].Binary? && b.queues[d][j].Binary?
                 ==> b.queues[c][i].buf != b.queues[d][j].buf
  {
    var b := Run(cfg, actions).buffers;
    forall c, i, d, j | 0 <= c < |b.queues| && 0 <= i < |b.queues[c]| && 0 <= d < |b.queues| && 0 <= j < |b.queues[d]|
      && (c != d || i != j) && b.queues[c][i].Binary? && b.queues[d][j].Binary?
      ensures b.queues[c][i].buf != b.queues[d][j].buf
    {
      assert QueueOwns(b, c) && QueueOwns(b, d);
      if c == d && j < i {
        assert b.queues[c][j].buf != b.queues[c][i].buf;
      }
    }
  }
}
