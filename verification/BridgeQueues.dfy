/**
 What the send queues of the audio bridge deliver (broadcast and writePump,
 internal/call/audio_bridge.go), over the interleavings of module Bridge.
 */
module BridgeQueues {
  import opened Bytes
  import opened Results
  import opened Bridge

  function QueueOf(s: State, c: nat): (q: seq<Message>) {
    if c < |s.buffers.queues| then s.buffers.queues[c] else []
  }

  /** A message for client c would be queued. */
  predicate HasRoom(s: State, c: nat) {
    s.slot.client == Some(c) && |QueueOf(s, c)| < SEND_CAPACITY
  }

  /** What the step has accepted for client c. */
  function Accepted(cfg: Config, s: State, a: Action, c: nat): (r: seq<Message>) {
    if !Enabled(cfg, s, a) then []
    else
      match a
      case Add(_, ctxDone) => if Accepts(s.slot, ctxDone) && c == |s.slot.conns| then [Text] else []
      case BroadcastText => if HasRoom(s, c) then [Text] else []
      case Forward(copy) =>
        if !s.buffers.place.listeners || !HasRoom(s, c) then []
        else if !cfg.transcoding then [Binary(copy)]
        else if s.buffers.place.l16.Some? then [Binary(s.buffers.place.l16.value)]
        else []
      case _ => []
  }

  /** The message the step has taken from client c's queue to write it to the connection. */
  function Written(cfg: Config, s: State, a: Action, c: nat): (r: seq<Message>) {
    if Enabled(cfg, s, a) && a == PumpReceive(c) then FirstOf(QueueOf(s, c)) else []
  }

  /** The message the step has taken from client c's queue to throw it away. */
  function Discarded(cfg: Config, s: State, a: Action, c: nat): (r: seq<Message>) {
    if Enabled(cfg, s, a) && a == Drain(c) then FirstOf(QueueOf(s, c)) else []
  }

  function FirstOf(q: seq<Message>): (r: seq<Message>) {
    if q == [] then [] else [q[0]]
  }

  /** What a whole run has accepted, written and discarded for a client. */
  datatype Traffic = Traffic(accepted: seq<Message>, written: seq<Message>, discarded: seq<Message>)

  function RunTraffic(cfg: Config, actions: seq<Action>, c: nat): (t: Traffic) {
    if actions == [] then Traffic([], [], [])
    else
      var n := |actions| - 1;
      var t, s := RunTraffic(cfg, actions[..n], c), Run(cfg, actions[..n]);
      Traffic(t.accepted + Accepted(cfg, s, actions[n], c),
              t.written + Written(cfg, s, actions[n], c),
              t.discarded + Discarded(cfg, s, actions[n], c))
  }

  /** The pump of client c still reads its queue to write. */
  predicate PumpWrites(s: State, c: nat) {
    c >= |s.buffers.pumps| || s.buffers.pumps[c].Waiting? || s.buffers.pumps[c].Writing?
  }

  /** A client whose pump has finished is not the registered one. */
  predicate FinishedIsGone(s: State, c: nat) {
    c < |s.buffers.pumps| && s.buffers.pumps[c].Done? ==> s.slot.client != Some(c)
  }

  /** A broadcast touches no queue but the registered client's. */
  lemma BroadcastQueue(b: Buffers, client: Option<nat>, msg: Message, c: nat)
    requires (client.Some? ==> client.value < |b.queues|) && c < |b.queues|
    ensures |Broadcast(b, client, msg).queues| == |b.queues|
    ensures Broadcast(b, client, msg).queues[c]
         == b.queues[c] + if client == Some(c) && |b.queues[c]| < SEND_CAPACITY then [msg] else []
  {
    assert b.queues[c] + [] == b.queues[c];
  }

  lemma ForwardQueue(cfg: Config, b: Buffers, client: Option<nat>, copy: nat, c: nat)
    requires b.place.Decoded? && (client.Some? ==> client.value < |b.queues|) && c < |b.queues|
    ensures var r := ProcessorStep(cfg, b, client, Forward(copy));
            && |r.queues| == |b.queues|
            && r.queues[c] == b.queues[c] +
               if b.place.listeners && client == Some(c) && |b.queues[c]| < SEND_CAPACITY && (cfg.transcoding ==> b.place.l16.Some?)
               then [Binary(if cfg.transcoding then b.place.l16.value else copy)] else []
  {
    assert b.queues[c] + [] == b.queues[c];
    if b.place.listeners {
      if !cfg.transcoding {
        BroadcastQueue(Get(Use(b, b.place.raw), copy), client, Binary(copy), c);
      } else if b.place.l16.Some? {
        BroadcastQueue(b, client, Binary(b.place.l16.value), c);
      }
    }
  }

  /** Receiving, admitting, decoding and finishing a packet leave the queues alone. */
  lemma ProcessorQueues(cfg: Config, b: Buffers, client: Option<nat>, a: Action)
    requires (client.Some? ==> client.value < |b.queues|) && !a.Forward?
    ensures ProcessorStep(cfg, b, client, a).queues == b.queues && ProcessorStep(cfg, b, client, a).pumps == b.pumps
  {
  }

  /** A pump takes only from its own queue, and only the first message. */
  lemma PumpQueues(b: Buffers, a: Action, c: nat)
    requires |b.queues| == |b.pumps| && c < |b.queues|
    ensures |PumpStep(b, a).queues| == |b.queues|
    ensures PumpStep(b, a).queues[c]
         == if (a == PumpReceive(c) || a == Drain(c)) && b.queues[c] != [] then b.queues[c][1..] else b.queues[c]
  {
  }

  lemma FirstAndRest(q: seq<Message>)
    ensures q == if q == [] then [] else FirstOf(q) + q[1..]
    ensures q + [] == q && [] + q == q && [] + [] + q == q
  {
  }

  lemma StepFifo(cfg: Config, s: State, a: Action, c: nat)
    requires Sound(s)
    ensures QueueOf(s, c) + Accepted(cfg, s, a, c)
         == Written(cfg, s, a, c) + Discarded(cfg, s, a, c) + QueueOf(Next(cfg, s, a), c)
    ensures |QueueOf(s, c)| <= SEND_CAPACITY ==> |QueueOf(Next(cfg, s, a), c)| <= SEND_CAPACITY
  {
    FirstAndRest(QueueOf(s, c));
    if Enabled(cfg, s, a) {
      if c < |s.buffers.queues| {
        OldClientFifo(cfg, s, a, c);
      } else {
        NewClientFifo(cfg, s, a, c);
      }
    }
  }

  predicate IsPumpStep(a: Action) {
    a.PumpReceive? || a.PumpWrite? || a.PumpPingFails? || a.Drain? || a.PumpRemove?
  }

  /** One client's queue over one buffer step, given what the step accepts for it. */
  predicate Flows(cfg: Config, s: State, a: Action, c: nat, q': seq<Message>) {
    && QueueOf(s, c) + Accepted(cfg, s, a, c) == Written(cfg, s, a, c) + Discarded(cfg, s, a, c) + q'
    && (|QueueOf(s, c)| <= SEND_CAPACITY ==> |q'| <= SEND_CAPACITY)
  }

  /** Writing and discarding exclude one another, and take the first message. */
  lemma PumpTakes(cfg: Config, s: State, a: Action, c: nat)
    requires Shaped(s) && Enabled(cfg, s, a) && c < |s.buffers.queues| && IsPumpStep(a)
    ensures Accepted(cfg, s, a, c) == []
    ensures Written(cfg, s, a, c) + Discarded(cfg, s, a, c)
         == if a == PumpReceive(c) || a == Drain(c) then FirstOf(s.buffers.queues[c]) else []
  {
  }

  lemma PumpFlows(cfg: Config, s: State, a: Action, c: nat)
    requires Shaped(s) && Enabled(cfg, s, a) && c < |s.buffers.queues|
    requires IsPumpStep(a)
    ensures Flows(cfg, s, a, c, PumpStep(s.buffers, a).queues[c])
  {
    PumpTakes(cfg, s, a, c);
    FirstAndRest(s.buffers.queues[c]);
    PumpQueues(s.buffers, a, c);
    FirstAndRest(PumpStep(s.buffers, a).queues[c]);
  }

  lemma BroadcastFlows(cfg: Config, s: State, c: nat)
    requires Shaped(s) && c < |s.buffers.queues|
    ensures Flows(cfg, s, BroadcastText, c, Broadcast(s.buffers, s.slot.client, Text).queues[c])
  {
    BroadcastQueue(s.buffers, s.slot.client, Text, c);
    FirstAndRest(Broadcast(s.buffers, s.slot.client, Text).queues[c]);
  }

  lemma ForwardFlows(cfg: Config, s: State, copy: nat, c: nat)
    requires Shaped(s) && Enabled(cfg, s, Forward(copy)) && c < |s.buffers.queues|
    ensures |ProcessorStep(cfg, s.buffers, s.slot.client, Forward(copy)).queues| == |s.buffers.queues|
    ensures Flows(cfg, s, Forward(copy), c, ProcessorStep(cfg, s.buffers, s.slot.client, Forward(copy)).queues[c])
  {
    ForwardQueue(cfg, s.buffers, s.slot.client, copy, c);
    FirstAndRest(s.buffers.queues[c]);
    FirstAndRest(ProcessorStep(cfg, s.buffers, s.slot.client, Forward(copy)).queues[c]);
  }

  lemma AddFlows(cfg: Config, s: State, a: Action, c: nat)
    requires Shaped(s) && a.Add? && c < |s.buffers.queues|
    ensures |BufferStep(cfg, s, a).queues| >= |s.buffers.queues|
    ensures Flows(cfg, s, a, c, BufferStep(cfg, s, a).queues[c])
  {
    FirstAndRest(s.buffers.queues[c]);
  }

  /** Every other step of the lock or the processor. */
  lemma QuietFlows(cfg: Config, s: State, a: Action, c: nat)
    requires Shaped(s) && Enabled(cfg, s, a) && c < |s.buffers.queues|
    requires !IsPumpStep(a) && !a.Add? && !a.BroadcastText? && !a.Forward?
    ensures |BufferStep(cfg, s, a).queues| >= |s.buffers.queues|
    ensures Flows(cfg, s, a, c, BufferStep(cfg, s, a).queues[c])
  {
    ProcessorQueues(cfg, s.buffers, s.slot.client, a);
    assert BufferStep(cfg, s, a) == ProcessorStep(cfg, s.buffers, s.slot.client, a);
    FirstAndRest(s.buffers.queues[c]);
    assert Accepted(cfg, s, a, c) == [] && Written(cfg, s, a, c) == [] && Discarded(cfg, s, a, c) == [];
  }

  lemma OldClientFifo(cfg: Config, s: State, a: Action, c: nat)
    requires Shaped(s) && Enabled(cfg, s, a) && c < |s.buffers.queues|
    ensures |BufferStep(cfg, s, a).queues| >= |s.buffers.queues|
    ensures Flows(cfg, s, a, c, BufferStep(cfg, s, a).queues[c])
  {
    if IsPumpStep(a) {
      PumpQueues(s.buffers, a, c);
      PumpFlows(cfg, s, a, c);
      assert BufferStep(cfg, s, a) == PumpStep(s.buffers, a);
    } else if a.Add? {
      AddFlows(cfg, s, a, c);
    } else if a.BroadcastText? {
      BroadcastFlows(cfg, s, c);
    } else if a.Forward? {
      ForwardFlows(cfg, s, a.copy, c);
    } else {
      QuietFlows(cfg, s, a, c);
    }
  }

  /** A client not yet added has no queue; adding it queues the metadata message. */
  lemma NewClientFifo(cfg: Config, s: State, a: Action, c: nat)
    requires Sound(s) && Enabled(cfg, s, a) && c >= |s.buffers.queues|
    ensures QueueOf(Next(cfg, s, a), c) == Accepted(cfg, s, a, c)
    ensures Written(cfg, s, a, c) == [] && Discarded(cfg, s, a, c) == []
  {
    NextSound(cfg, s, a);
    SlotStepSound(cfg, s, a);
  }

  /** A pump only ever moves from writing to discarding to leaving to done. */
  lemma PumpOnward(b: Buffers, a: Action, c: nat)
    requires |b.queues| == |b.pumps| && c < |b.pumps| && IsPumpStep(a)
    requires a.PumpReceive? && a.c == c ==> b.pumps[c].Waiting?
    requires a.PumpWrite? && a.c == c ==> b.pumps[c].Writing?
    requires a.PumpPingFails? && a.c == c ==> b.pumps[c].Waiting?
    requires a.Drain? && a.c == c ==> b.pumps[c].Draining?
    requires a.PumpRemove? && a.c == c ==> b.pumps[c].Leaving?
    ensures var r := PumpStep(b, a);
            && |r.pumps| == |b.pumps|
            && (r.pumps[c].Waiting? || r.pumps[c].Writing? ==> b.pumps[c].Waiting? || b.pumps[c].Writing?)
            && (b.pumps[c].Done? ==> r.pumps[c].Done?)
            && (r.pumps[c].Leaving? ==> b.pumps[c].Leaving? || (a == Drain(c) && b.queues[c] == []))
            && (r.pumps[c].Done? ==> b.pumps[c].Done? || (a == PumpRemove(c) && b.pumps[c].Leaving?))
  {
  }

  /** Steps of the lock and the processor touch no pump but to add one. */
  lemma OthersLeavePumps(cfg: Config, s: State, a: Action, c: nat)
    requires Shaped(s) && Enabled(cfg, s, a) && !IsPumpStep(a) && c < |s.buffers.pumps|
    ensures c < |BufferStep(cfg, s, a).pumps| && BufferStep(cfg, s, a).pumps[c] == s.buffers.pumps[c]
  {
  }

  lemma AddedPump(cfg: Config, s: State, a: Action)
    requires Sound(s) && Enabled(cfg, s, a) && |BufferStep(cfg, s, a).pumps| > |s.buffers.pumps|
    ensures a.Add? && BufferStep(cfg, s, a).pumps == s.buffers.pumps + [Waiting]
  {
    if !IsPumpStep(a) && !a.Add? && !a.BroadcastText? && !a.Forward? {
      ProcessorQueues(cfg, s.buffers, s.slot.client, a);
    }
  }

  /** A removed client is not registered again: only new ones are. */
  lemma NotRegisteredAgain(cfg: Config, s: State, a: Action, c: nat)
    requires Sound(s) && c < |s.slot.conns| && s.slot.client != Some(c)
    ensures SlotStep(cfg, s, a).client != Some(c)
  {
  }

  /** Removing a client by its connection unregisters it, if it is registered. */
  lemma RemovedIsGone(s: Slot, c: nat)
    requires WellFormed(s) && c < |s.conns|
    ensures RemoveClient(s, s.conns[c]).client != Some(c)
  {
  }

  lemma OldPump(cfg: Config, s: State, a: Action, c: nat)
    requires Sound(s) && Enabled(cfg, s, a) && FinishedIsGone(s, c) && c < |s.buffers.pumps|
    ensures var r := BufferStep(cfg, s, a);
            && c < |r.pumps|
            && (r.pumps[c].Waiting? || r.pumps[c].Writing? ==> s.buffers.pumps[c].Waiting? || s.buffers.pumps[c].Writing?)
            && (r.pumps[c].Done? ==> SlotStep(cfg, s, a).client != Some(c))
  {
    if IsPumpStep(a) {
      PumpOnward(s.buffers, a, c);
      assert BufferStep(cfg, s, a) == PumpStep(s.buffers, a);
      if a == PumpRemove(c) { RemovedIsGone(s.slot, c); }
    } else {
      OthersLeavePumps(cfg, s, a, c);
    }
    if s.slot.client != Some(c) { NotRegisteredAgain(cfg, s, a, c); }
  }

  /** Once a pump discards it no longer writes. */
  lemma StepPump(cfg: Config, s: State, a: Action, c: nat)
    requires Sound(s) && FinishedIsGone(s, c)
    ensures PumpWrites(Next(cfg, s, a), c) ==> PumpWrites(s, c) && Discarded(cfg, s, a, c) == []
    ensures Written(cfg, s, a, c) != [] ==> PumpWrites(s, c)
    ensures FinishedIsGone(Next(cfg, s, a), c)
  {
    if Enabled(cfg, s, a) {
      if c < |s.buffers.pumps| {
        OldPump(cfg, s, a, c);
      } else if c < |BufferStep(cfg, s, a).pumps| {
        AddedPump(cfg, s, a);
      }
    }
  }

  /** The two parts of the taken messages, when the second is empty or the first does not grow. */
  lemma Extend(t: Traffic, w: seq<Message>, d: seq<Message>, q: seq<Message>, a: seq<Message>, q': seq<Message>)
    requires t.accepted == t.written + t.discarded + q
    requires q + a == w + d + q'
    requires w == [] || t.discarded == []
    ensures t.accepted + a == (t.written + w) + (t.discarded + d) + q'
  {
    if w == [] {
      assert t.written + t.discarded + q + a == t.written + t.discarded + (q + a);
      assert w + d + q' == d + q';
      assert t.written + t.discarded + (d + q') == (t.written + w) + (t.discarded + d) + q';
    } else {
      assert t.written + t.discarded + q + a == t.written + (q + a);
      assert t.written + (w + d + q') == (t.written + w) + (t.discarded + d) + q';
    }
  }

  /**
   In every interleaving, the messages accepted for a client are, in order and each once,
   those its pump took to write, then those it discarded on leaving, then those still queued;
   a queue never exceeds its capacity; and a pump that has finished is not the registered client's.
   */
  lemma {:induction false} QueueIsFifo(cfg: Config, actions: seq<Action>, c: nat)
    ensures var t, s := RunTraffic(cfg, actions, c), Run(cfg, actions);
            && t.accepted == t.written + t.discarded + QueueOf(s, c)
            && |QueueOf(s, c)| <= SEND_CAPACITY
            && (PumpWrites(s, c) ==> t.discarded == [])
            && FinishedIsGone(s, c)
  {
    if actions != [] {
      var n := |actions| - 1;
      var s, a := Run(cfg, actions[..n]), actions[n];
      QueueIsFifo(cfg, actions[..n], c);
      StepFifo(cfg, s, a, c);
      StepPump(cfg, s, a, c);
      Extend(RunTraffic(cfg, actions[..n], c), Written(cfg, s, a, c), Discarded(cfg, s, a, c),
             QueueOf(s, c), Accepted(cfg, s, a, c), QueueOf(Next(cfg, s, a), c));
    }
  }

  // ---- what a leaving pump leaves behind ----

  /** The pump has found its queue empty, and is about to remove its client or has done so. */
  predicate PumpGone(s: State, c: nat) {
    c < |s.buffers.pumps| && (s.buffers.pumps[c].Leaving? || s.buffers.pumps[c].Done?)
  }

  /** The step by which the pump finds its queue empty. */
  predicate FindsEmpty(cfg: Config, s: State, a: Action, c: nat) {
    Enabled(cfg, s, a) && a == Drain(c) && QueueOf(s, c) == []
  }

  /** The messages accepted for a client since its pump found the queue empty. */
  function SinceEmpty(cfg: Config, actions: seq<Action>, c: nat): (r: seq<Message>) {
    if actions == [] then []
    else
      var n := |actions| - 1;
      var s := Run(cfg, actions[..n]);
      if FindsEmpty(cfg, s, actions[n], c) then [] else SinceEmpty(cfg, actions[..n], c) + Accepted(cfg, s, actions[n], c)
  }

  /** A pump that has gone neither writes nor discards. */
  lemma GoneIsIdle(cfg: Config, s: State, a: Action, c: nat)
    requires Shaped(s) && PumpGone(s, c)
    ensures Written(cfg, s, a, c) == [] && Discarded(cfg, s, a, c) == [] && !FindsEmpty(cfg, s, a, c)
  {
  }

  /** A pump goes by finding its queue empty, and does not come back. */
  lemma GoesByFindingEmpty(cfg: Config, s: State, a: Action, c: nat)
    requires Sound(s)
    ensures PumpGone(Next(cfg, s, a), c) ==> PumpGone(s, c) || FindsEmpty(cfg, s, a, c)
    ensures PumpGone(s, c) ==> PumpGone(Next(cfg, s, a), c)
  {
    if Enabled(cfg, s, a) {
      if c < |s.buffers.pumps| {
        if IsPumpStep(a) {
          PumpOnward(s.buffers, a, c);
          if PumpGone(s, c) { GoneStays(s.buffers, a, c); }
          assert BufferStep(cfg, s, a) == PumpStep(s.buffers, a);
        } else {
          OthersLeavePumps(cfg, s, a, c);
        }
      } else if c < |BufferStep(cfg, s, a).pumps| {
        AddedPump(cfg, s, a);
      }
    }
  }

  lemma GoneStays(b: Buffers, a: Action, c: nat)
    requires |b.queues| == |b.pumps| && c < |b.pumps| && IsPumpStep(a)
    requires a.PumpReceive? && a.c == c ==> b.pumps[c].Waiting?
    requires a.PumpWrite? && a.c == c ==> b.pumps[c].Writing?
    requires a.PumpPingFails? && a.c == c ==> b.pumps[c].Waiting?
    requires a.Drain? && a.c == c ==> b.pumps[c].Draining?
    requires b.pumps[c].Leaving? || b.pumps[c].Done?
    ensures var r := PumpStep(b, a); |r.pumps| == |b.pumps| && (r.pumps[c].Leaving? || r.pumps[c].Done?)
  {
  }

  /** Finding the queue empty leaves it empty. */
  lemma FoundEmpty(cfg: Config, s: State, a: Action, c: nat)
    requires Sound(s) && FindsEmpty(cfg, s, a, c)
    ensures QueueOf(Next(cfg, s, a), c) == []
  {
    StepFifo(cfg, s, a, c);
  }

  lemma GoneQueue(cfg: Config, s: State, a: Action, c: nat)
    requires Sound(s) && PumpGone(s, c)
    ensures QueueOf(Next(cfg, s, a), c) == QueueOf(s, c) + Accepted(cfg, s, a, c)
  {
    GoneIsIdle(cfg, s, a, c);
    StepFifo(cfg, s, a, c);
    FirstAndRest(QueueOf(Next(cfg, s, a), c));
  }

  /**
   In every interleaving, the queue of a pump that has gone holds exactly the messages accepted
   since the pump found it empty. So everything accepted for the client is written or discarded
   if and only if nothing was accepted after that.
   */
  lemma LeftBehindExactly(cfg: Config, actions: seq<Action>, c: nat)
    requires PumpGone(Run(cfg, actions), c)
    ensures QueueOf(Run(cfg, actions), c) == SinceEmpty(cfg, actions, c)
    ensures var t := RunTraffic(cfg, actions, c);
            t.accepted == t.written + t.discarded <==> SinceEmpty(cfg, actions, c) == []
  {
    QueueIsSinceEmpty(cfg, actions, c);
    QueueIsFifo(cfg, actions, c);
    var t := RunTraffic(cfg, actions, c);
    FirstAndRest(t.written + t.discarded);
    assert t.accepted == t.written + t.discarded ==> |QueueOf(Run(cfg, actions), c)| == 0;
  }

  lemma {:induction false} QueueIsSinceEmpty(cfg: Config, actions: seq<Action>, c: nat)
    requires PumpGone(Run(cfg, actions), c)
    ensures QueueOf(Run(cfg, actions), c) == SinceEmpty(cfg, actions, c)
  {
    if actions != [] {
      var n := |actions| - 1;
      var s, a := Run(cfg, actions[..n]), actions[n];
      GoesByFindingEmpty(cfg, s, a, c);
      if FindsEmpty(cfg, s, a, c) {
        FoundEmpty(cfg, s, a, c);
      } else {
        QueueIsSinceEmpty(cfg, actions[..n], c);
        GoneQueue(cfg, s, a, c);
      }
    }
  }

  // ---- for good ----

  /** A finished pump's queue takes in nothing and gives out nothing. */
  lemma FinishedIsIdle(cfg: Config, s: State, a: Action, c: nat)
    requires Sound(s) && FinishedIsGone(s, c) && c < |s.buffers.pumps| && s.buffers.pumps[c].Done?
    ensures QueueOf(Next(cfg, s, a), c) == QueueOf(s, c)
  {
    GoneQueue(cfg, s, a, c);
    assert Accepted(cfg, s, a, c) == [];
    FirstAndRest(QueueOf(s, c));
  }

  lemma FinishedStays(cfg: Config, s: State, a: Action, c: nat)
    requires Sound(s) && c < |s.buffers.pumps| && s.buffers.pumps[c].Done?
    ensures c < |Next(cfg, s, a).buffers.pumps| && Next(cfg, s, a).buffers.pumps[c].Done?
  {
    if Enabled(cfg, s, a) {
      if IsPumpStep(a) {
        PumpOnward(s.buffers, a, c);
        assert BufferStep(cfg, s, a) == PumpStep(s.buffers, a);
      } else {
        OthersLeavePumps(cfg, s, a, c);
      }
    }
  }

  /** After this run the pump of client c has finished and left these messages in its queue. */
  ghost predicate LeftBehind(cfg: Config, actions: seq<Action>, c: nat, left: seq<Message>) {
    var s := Run(cfg, actions);
    c < |s.buffers.pumps| && s.buffers.pumps[c].Done? && QueueOf(s, c) == left
  }

  lemma LeftBehindSnoc(cfg: Config, actions: seq<Action>, a: Action, c: nat, left: seq<Message>)
    requires LeftBehind(cfg, actions, c, left)
    ensures LeftBehind(cfg, actions + [a], c, left)
  {
    var s := Run(cfg, actions);
    QueueIsFifo(cfg, actions, c);
    FinishedIsIdle(cfg, s, a, c);
    FinishedStays(cfg, s, a, c);
    RunSnoc(cfg, actions, a);
  }

  /** What a finished pump has left in its queue stays there, whatever happens next. */
  lemma {:induction false} LeftBehindForGood(cfg: Config, actions: seq<Action>, more: seq<Action>, c: nat, left: seq<Message>)
    requires LeftBehind(cfg, actions, c, left)
    ensures LeftBehind(cfg, actions + more, c, left)
    decreases |more|
  {
    if more == [] {
      assert actions + more == actions;
    } else {
      var n := |more| - 1;
      LeftBehindForGood(cfg, actions, more[..n], c, left);
      LastStep(actions, more);
      LeftBehindSnoc(cfg, actions + more[..n], more[n], c, left);
    }
  }

  /** So a pooled buffer among those messages is never returned. */
  lemma LeftBehindIsHeld(cfg: Config, actions: seq<Action>, c: nat, left: seq<Message>, i: nat)
    requires LeftBehind(cfg, actions, c, left) && i < |left| && left[i].Binary?
    ensures left[i].buf in Run(cfg, actions).buffers.holders
    ensures Run(cfg, actions).buffers.holders[left[i].buf] == Queued(c)
  {
    assert QueueOwns(Run(cfg, actions).buffers, c);
  }

  // ---- a run that leaves a message behind ----

  /** Neither a recorder nor transcoding. */
  const PASS_THROUGH := Config(false, false)

  /** Client 0 on connection 7, with this queue and pump, and the processor here. */
  function OneClient(q: seq<Message>, pump: Pump, holders: map<nat, Holder>, place: Place): (s: State) {
    State(Slot(Some(0), false, [7], [true], [false], 1, Running, false), Buffers([q], [pump], holders, place, false))
  }

  /** The client is added, and the first write to it fails. */
  lemma WriteFails()
    ensures Run(PASS_THROUGH, [Add(7, false)] + [PumpReceive(0)] + [PumpWrite(0, true)])
         == OneClient([], Draining, map[], Idle)
  {
    RunSnoc(PASS_THROUGH, [], Add(7, false));
    assert [] + [Add(7, false)] == [Add(7, false)];
    AddedClient();
    RunSnoc(PASS_THROUGH, [Add(7, false)], PumpReceive(0));
    TakenMessage(Run(PASS_THROUGH, [Add(7, false)]));
    RunSnoc(PASS_THROUGH, [Add(7, false)] + [PumpReceive(0)], PumpWrite(0, true));
    FailedWrite(Run(PASS_THROUGH, [Add(7, false)] + [PumpReceive(0)]));
  }

  lemma AddedClient()
    ensures Next(PASS_THROUGH, INITIAL, Add(7, false)) == OneClient([Text], Waiting, map[], Idle)
  {
  }

  lemma TakenMessage(s: State)
    requires s == OneClient([Text], Waiting, map[], Idle)
    ensures Next(PASS_THROUGH, s, PumpReceive(0)) == OneClient([], Writing(Text), map[], Idle)
  {
    assert [Text][1..] == [];
  }

  lemma FailedWrite(s: State)
    requires s == OneClient([], Writing(Text), map[], Idle)
    ensures Next(PASS_THROUGH, s, PumpWrite(0, true)) == OneClient([], Draining, map[], Idle)
  {
  }

  lemma FoundQueueEmpty(s: State)
    requires s == OneClient([], Draining, map[], Idle)
    ensures Next(PASS_THROUGH, s, Drain(0)) == OneClient([], Leaving, map[], Idle)
  {
  }

  lemma ReceivedPacket(s: State)
    requires s == OneClient([], Leaving, map[], Idle)
    ensures Next(PASS_THROUGH, s, Receive(1)) == OneClient([], Leaving, map[1 := Processor], Have(1))
  {
  }

  lemma AdmittedPacket(s: State)
    requires s == OneClient([], Leaving, map[1 := Processor], Have(1))
    ensures Next(PASS_THROUGH, s, Admit(false, false)) == OneClient([], Leaving, map[1 := Processor], Admitted(1, true))
  {
  }

  lemma NothingToDecode(s: State)
    requires s == OneClient([], Leaving, map[1 := Processor], Admitted(1, true))
    ensures Next(PASS_THROUGH, s, Decode(2, false)) == OneClient([], Leaving, map[1 := Processor], Decoded(1, true, None))
  {
  }

  lemma ForwardedLate(s: State)
    requires s == OneClient([], Leaving, map[1 := Processor], Decoded(1, true, None))
    ensures Next(PASS_THROUGH, s, Forward(3))
         == OneClient([Binary(3)], Leaving, map[1 := Processor, 3 := Queued(0)], Finishing(1))
  {
    var one: map<nat, Holder> := map[1 := Processor];
    assert one[3 := Processor][3 := Queued(0)] == map[1 := Processor, 3 := Queued(0)];
    var none: seq<Message> := [];
    var copied := [Binary(3)];
    assert none + [Binary(3)] == copied;
    assert s.buffers.queues[0 := copied] == [copied];
  }

  lemma RemovedLate(s: State)
    requires s == OneClient([Binary(3)], Leaving, map[1 := Processor, 3 := Queued(0)], Finishing(1))
    ensures Next(PASS_THROUGH, s, PumpRemove(0)).buffers
         == Buffers([[Binary(3)]], [Done], map[1 := Processor, 3 := Queued(0)], Finishing(1), false)
  {
  }

  const LEAVING_RUN := [Add(7, false)] + [PumpReceive(0)] + [PumpWrite(0, true)] + [Drain(0)]
  const BUSY_RUN := LEAVING_RUN + [Receive(1)] + [Admit(false, false)] + [Decode(2, false)]

  lemma LeavingRun()
    ensures Run(PASS_THROUGH, LEAVING_RUN) == OneClient([], Leaving, map[], Idle)
  {
    var before := [Add(7, false)] + [PumpReceive(0)] + [PumpWrite(0, true)];
    WriteFails();
    RunSnoc(PASS_THROUGH, before, Drain(0));
    FoundQueueEmpty(Run(PASS_THROUGH, before));
  }

  lemma BusyRun()
    ensures Run(PASS_THROUGH, BUSY_RUN) == OneClient([], Leaving, map[1 := Processor], Decoded(1, true, None))
  {
    LeavingRun();
    RunSnoc(PASS_THROUGH, LEAVING_RUN, Receive(1));
    ReceivedPacket(Run(PASS_THROUGH, LEAVING_RUN));
    RunSnoc(PASS_THROUGH, LEAVING_RUN + [Receive(1)], Admit(false, false));
    AdmittedPacket(Run(PASS_THROUGH, LEAVING_RUN + [Receive(1)]));
    RunSnoc(PASS_THROUGH, LEAVING_RUN + [Receive(1)] + [Admit(false, false)], Decode(2, false));
    NothingToDecode(Run(PASS_THROUGH, LEAVING_RUN + [Receive(1)] + [Admit(false, false)]));
  }

  /**
   A run from the empty bridge in which a packet is forwarded while the pump is between finding
   its queue empty and removing its client: the copy stays in the queue of the finished pump.
   */
  lemma LateMessageRun()
    ensures LeftBehind(PASS_THROUGH, BUSY_RUN + [Forward(3)] + [PumpRemove(0)], 0, [Binary(3)])
  {
    BusyRun();
    RunSnoc(PASS_THROUGH, BUSY_RUN, Forward(3));
    ForwardedLate(Run(PASS_THROUGH, BUSY_RUN));
    RunSnoc(PASS_THROUGH, BUSY_RUN + [Forward(3)], PumpRemove(0));
    RemovedLate(Run(PASS_THROUGH, BUSY_RUN + [Forward(3)]));
  }
}
