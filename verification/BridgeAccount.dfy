/**
 Where every pooled buffer of the bridge is (internal/call/audio_bridge.go): a buffer that was
 not returned is where its holder says, over the interleavings of module Bridge.
 */
module BridgeAccount {
  import opened Bytes
  import opened Results
  import opened Bridge
  import BridgeLeaks

  /** The buffer is one of the messages. */
  predicate Among(q: seq<Message>, buf: nat) {
    Binary(buf) in q
  }

  /** A buffer held by a queue waits in it; one held by a pump is what that pump is writing. */
  predicate InPlace(b: Buffers, buf: nat) {
    buf in b.holders ==>
      match b.holders[buf]
      case Queued(c) => c < |b.queues| && Among(b.queues[c], buf)
      case Pumping(c) => c < |b.pumps| && b.pumps[c] == Writing(Binary(buf))
      case _ => true
  }

  ghost predicate AllInPlace(b: Buffers) {
    forall buf :: buf in b.holders ==> InPlace(b, buf)
  }

  // ---- steps ----

  lemma BroadcastInPlace(b: Buffers, client: Option<nat>, msg: Message)
    requires AllInPlace(b) && (client.Some? ==> client.value < |b.queues|)
    ensures AllInPlace(Broadcast(b, client, msg))
  {
    var r := Broadcast(b, client, msg);
    forall buf | buf in r.holders
      ensures InPlace(r, buf)
    {
      if buf in b.holders {
        assert InPlace(b, buf);
      }
      if client.Some? {
        AmongAppend(b.queues[client.value], msg, buf);
      }
    }
  }

  lemma AmongAppend(q: seq<Message>, msg: Message, buf: nat)
    ensures Among(q + [msg], buf) <==> Among(q, buf) || msg == Binary(buf)
  {
  }

  /** Taking a buffer, reading, returning and moving on within the loop. */
  lemma ProcessorInPlace(b: Buffers, r: Buffers)
    requires AllInPlace(b) && r.queues == b.queues && r.pumps == b.pumps
    requires forall buf :: buf in r.holders ==>
               r.holders[buf].Processor? || r.holders[buf].Returned? || (buf in b.holders && r.holders[buf] == b.holders[buf])
    ensures AllInPlace(r)
  {
    forall buf | buf in r.holders
      ensures InPlace(r, buf)
    {
      if buf in b.holders {
        assert InPlace(b, buf);
      }
    }
  }

  lemma ForwardInPlace(cfg: Config, b: Buffers, client: Option<nat>, copy: nat)
    requires AllInPlace(b) && (client.Some? ==> client.value < |b.queues|) && b.place.Decoded?
    ensures AllInPlace(ProcessorStep(cfg, b, client, Forward(copy)))
  {
    var r := ProcessorStep(cfg, b, client, Forward(copy));
    if !b.place.listeners {
      ProcessorInPlace(b, r);
    } else if !cfg.transcoding {
      var t := Get(Use(b, b.place.raw), copy);
      ProcessorInPlace(b, t);
      BroadcastInPlace(t, client, Binary(copy));
      ProcessorInPlace(Broadcast(t, client, Binary(copy)), r);
    } else if b.place.l16.Some? {
      BroadcastInPlace(b, client, Binary(b.place.l16.value));
      ProcessorInPlace(Broadcast(b, client, Binary(b.place.l16.value)), r);
    } else {
      ProcessorInPlace(b, r);
    }
  }

  lemma LoopInPlace(cfg: Config, b: Buffers, client: Option<nat>, a: Action)
    requires AllInPlace(b) && (client.Some? ==> client.value < |b.queues|)
    ensures AllInPlace(ProcessorStep(cfg, b, client, a))
  {
    if a.Forward? && b.place.Decoded? {
      ForwardInPlace(cfg, b, client, a.copy);
    } else {
      ProcessorInPlace(b, ProcessorStep(cfg, b, client, a));
    }
  }

  /** What is behind the first message is still there when that one is taken. */
  lemma AmongRest(q: seq<Message>, buf: nat)
    requires q != [] && Among(q, buf)
    ensures q[0] == Binary(buf) || Among(q[1..], buf)
  {
    var i :| 0 <= i < |q| && q[i] == Binary(buf);
    if i > 0 { assert q[1..][i - 1] == Binary(buf); }
  }

  lemma ReceiveInPlace(b: Buffers, d: nat)
    requires BuffersSound(b) && AllInPlace(b) && d < |b.queues| && b.pumps[d].Waiting?
    ensures AllInPlace(PumpStep(b, PumpReceive(d)))
  {
    var r := PumpStep(b, PumpReceive(d));
    forall buf | buf in r.holders
      ensures InPlace(r, buf)
    {
      TakenOrKept(b, d, buf);
    }
  }

  /** One buffer, when the pump of client d takes a message to write. */
  lemma TakenOrKept(b: Buffers, d: nat, buf: nat)
    requires BuffersSound(b) && AllInPlace(b) && d < |b.queues| && b.pumps[d].Waiting?
    ensures InPlace(PumpStep(b, PumpReceive(d)), buf)
  {
    assert QueueOwns(b, d);
    if buf in b.holders {
      assert InPlace(b, buf);
      if b.queues[d] != [] && b.holders[buf] == Queued(d) {
        AmongRest(b.queues[d], buf);
      }
    }
  }

  /** A written buffer has been returned, whether or not the write failed. */
  lemma WriteInPlace(b: Buffers, d: nat, fails: bool)
    requires BuffersSound(b) && AllInPlace(b) && d < |b.pumps| && b.pumps[d].Writing?
    ensures AllInPlace(PumpStep(b, PumpWrite(d, fails)))
    ensures b.pumps[d].msg.Binary? ==>
              var r := PumpStep(b, PumpWrite(d, fails));
              b.pumps[d].msg.buf in r.holders && r.holders[b.pumps[d].msg.buf] == Returned
  {
    var r := PumpStep(b, PumpWrite(d, fails));
    assert PumpOwns(b, d);
    forall buf | buf in r.holders
      ensures InPlace(r, buf)
    {
      assert buf in b.holders;
      assert InPlace(b, buf);
    }
  }

  lemma DrainInPlace(b: Buffers, d: nat)
    requires BuffersSound(b) && AllInPlace(b) && d < |b.queues| && b.pumps[d].Draining?
    ensures AllInPlace(PumpStep(b, Drain(d)))
  {
    var r := PumpStep(b, Drain(d));
    assert QueueOwns(b, d);
    forall buf | buf in r.holders
      ensures InPlace(r, buf)
    {
      assert buf in b.holders;
      assert InPlace(b, buf);
      if b.queues[d] != [] && b.holders[buf] == Queued(d) {
        AmongRest(b.queues[d], buf);
      }
    }
  }

  /** A pump that gives up while waiting, or removes its client, is writing nothing. */
  lemma QuitInPlace(b: Buffers, d: nat, a: Action)
    requires BuffersSound(b) && AllInPlace(b) && d < |b.pumps| && !b.pumps[d].Writing?
    requires a == PumpPingFails(d) || a == PumpRemove(d)
    ensures AllInPlace(PumpStep(b, a))
  {
    var r := PumpStep(b, a);
    forall buf | buf in r.holders
      ensures InPlace(r, buf)
    {
      assert InPlace(b, buf);
    }
  }

  lemma AddInPlace(cfg: Config, s: State, a: Action)
    requires Shaped(s) && AllInPlace(s.buffers) && a.Add?
    ensures AllInPlace(BufferStep(cfg, s, a))
  {
    var r := BufferStep(cfg, s, a);
    forall buf | buf in r.holders
      ensures InPlace(r, buf)
    {
      assert InPlace(s.buffers, buf);
    }
  }

  lemma NextInPlace(cfg: Config, s: State, a: Action)
    requires Sound(s) && AllInPlace(s.buffers)
    ensures AllInPlace(Next(cfg, s, a).buffers)
  {
    if Enabled(cfg, s, a) {
      match a
      case Add(_, _) => AddInPlace(cfg, s, a);
      case BroadcastText => BroadcastInPlace(s.buffers, s.slot.client, Text);
      case PumpReceive(c) => ReceiveInPlace(s.buffers, c);
      case PumpWrite(c, fails) => WriteInPlace(s.buffers, c, fails);
      case PumpPingFails(c) => QuitInPlace(s.buffers, c, a);
      case PumpRemove(c) => QuitInPlace(s.buffers, c, a);
      case Drain(c) => DrainInPlace(s.buffers, c);
      case _ => LoopInPlace(cfg, s.buffers, s.slot.client, a);
    }
  }

  // ---- every interleaving ----

  lemma {:induction false} RunInPlace(cfg: Config, actions: seq<Action>)
    ensures AllInPlace(Run(cfg, actions).buffers)
  {
    if actions != [] {
      var n := |actions| - 1;
      RunInPlace(cfg, actions[..n]);
      NextInPlace(cfg, Run(cfg, actions[..n]), actions[n]);
    }
  }

  /**
   In every interleaving a pooled buffer that was taken has been returned, waits in the queue of
   its client, is what its client's pump is writing, is named by the processor's loop, or is one
   the processor has lost; and the last happens only to recorded calls without transcoding.
   */
  lemma EveryBuffer(cfg: Config, actions: seq<Action>, buf: nat)
    requires buf in Run(cfg, actions).buffers.holders
    ensures var b := Run(cfg, actions).buffers;
            match b.holders[buf]
            case Returned => true
            case Queued(c) => c < |b.queues| && Binary(buf) in b.queues[c]
            case Pumping(c) => c < |b.pumps| && b.pumps[c] == Writing(Binary(buf))
            case Processor => buf in Owned(b.place) || (BridgeLeaks.Loses(cfg, actions, buf) && cfg.recorder && !cfg.transcoding)
  {
    RunInPlace(cfg, actions);
    assert InPlace(Run(cfg, actions).buffers, buf);
    if cfg.transcoding || !cfg.recorder {
      BridgeLeaks.RunLosesNone(cfg, actions);
    }
  }
}
