/**
 Which pooled buffers the audio processor of the bridge loses (runAudioProcessor,
 internal/call/audio_bridge.go): it returns or hands on every buffer it takes, exactly
 unless a pass-through call is recorded.
 */
module BridgeLeaks {
  import opened Bytes
  import opened Results
  import opened Bridge

  /** The processor holds a buffer that no place of its loop names. */
  predicate Orphaned(b: Buffers, buf: nat) {
    buf in b.holders && b.holders[buf].Processor? && buf !in Owned(b.place)
  }

  ghost predicate NoneOrphaned(b: Buffers) {
    forall buf :: buf in b.holders && b.holders[buf].Processor? ==> buf in Owned(b.place)
  }

  /** The code decodes for a recorder or for transcoding and for nothing else. */
  predicate DecodesForUse(cfg: Config, b: Buffers) {
    b.place.Decoded? && b.place.l16.Some? ==> cfg.recorder || cfg.transcoding
  }

  // ---- nothing is lost ----

  /** Handing on or returning a buffer takes it from the processor; nobody else's buffer becomes the processor's. */
  lemma BroadcastHolders(b: Buffers, client: Option<nat>, buf: nat)
    requires client.Some? ==> client.value < |b.queues|
    ensures var r := Broadcast(b, client, Binary(buf));
            && r.place == b.place
            && buf in r.holders && !r.holders[buf].Processor?
            && forall x :: x != buf ==> (x in r.holders <==> x in b.holders) && (x in b.holders ==> r.holders[x] == b.holders[x])
  {
  }

  lemma ForwardLosesNone(cfg: Config, b: Buffers, client: Option<nat>, copy: nat)
    requires BuffersSound(b) && (client.Some? ==> client.value < |b.queues|)
    requires b.place.Decoded? && Fresh(b, copy) && NoneOrphaned(b) && DecodesForUse(cfg, b)
    requires cfg.transcoding || !cfg.recorder
    ensures NoneOrphaned(ProcessorStep(cfg, b, client, Forward(copy)))
  {
    OwnedFacts(b);
    if b.place.listeners {
      if cfg.transcoding {
        if b.place.l16.Some? {
          BroadcastHolders(b, client, b.place.l16.value);
        }
      } else {
        BroadcastHolders(Get(Use(b, b.place.raw), copy), client, copy);
      }
    }
  }

  lemma ProcessorLosesNone(cfg: Config, b: Buffers, client: Option<nat>, a: Action)
    requires BuffersSound(b) && (client.Some? ==> client.value < |b.queues|)
    requires a.Receive? ==> b.place.Idle? && Fresh(b, a.raw)
    requires a.Decode? ==> Fresh(b, a.l16)
    requires a.Forward? ==> Fresh(b, a.copy)
    requires NoneOrphaned(b) && DecodesForUse(cfg, b) && (cfg.transcoding || !cfg.recorder)
    ensures NoneOrphaned(ProcessorStep(cfg, b, client, a)) && DecodesForUse(cfg, ProcessorStep(cfg, b, client, a))
  {
    OwnedFacts(b);
    if a.Forward? && b.place.Decoded? {
      ForwardLosesNone(cfg, b, client, a.copy);
    }
  }

  /** The pumps and the broadcasts of text leave the processor's buffers alone. */
  lemma OthersLeaveProcessor(cfg: Config, s: State, a: Action, buf: nat)
    requires Sound(s) && Enabled(cfg, s, a)
    requires a.Add? || a.BroadcastText? || a.PumpReceive? || a.PumpWrite? || a.PumpPingFails? || a.Drain? || a.PumpRemove?
    ensures BufferStep(cfg, s, a).place == s.buffers.place
    ensures (buf in BufferStep(cfg, s, a).holders && BufferStep(cfg, s, a).holders[buf].Processor?)
       <==> (buf in s.buffers.holders && s.buffers.holders[buf].Processor?)
  {
    var b := s.buffers;
    match a
    case PumpReceive(c) => assert QueueOwns(b, c);
    case PumpWrite(c, _) => assert PumpOwns(b, c);
    case Drain(c) => assert QueueOwns(b, c);
    case _ =>
  }

  lemma StepLosesNone(cfg: Config, s: State, a: Action)
    requires Sound(s) && Enabled(cfg, s, a)
    requires NoneOrphaned(s.buffers) && DecodesForUse(cfg, s.buffers) && (cfg.transcoding || !cfg.recorder)
    ensures NoneOrphaned(BufferStep(cfg, s, a)) && DecodesForUse(cfg, BufferStep(cfg, s, a))
  {
    if a.Add? || a.BroadcastText? || a.PumpReceive? || a.PumpWrite? || a.PumpPingFails? || a.Drain? || a.PumpRemove? {
      forall buf: nat
        ensures BufferStep(cfg, s, a).place == s.buffers.place
        ensures (buf in BufferStep(cfg, s, a).holders && BufferStep(cfg, s, a).holders[buf].Processor?)
           <==> (buf in s.buffers.holders && s.buffers.holders[buf].Processor?)
      {
        OthersLeaveProcessor(cfg, s, a, buf);
      }
    } else {
      ProcessorLosesNone(cfg, s.buffers, s.slot.client, a);
    }
  }

  lemma {:induction false} RunLosesNone(cfg: Config, actions: seq<Action>)
    requires cfg.transcoding || !cfg.recorder
    ensures NoneOrphaned(Run(cfg, actions).buffers) && DecodesForUse(cfg, Run(cfg, actions).buffers)
  {
    if actions != [] {
      var n := |actions| - 1;
      RunLosesNone(cfg, actions[..n]);
      if Enabled(cfg, Run(cfg, actions[..n]), actions[n]) {
        StepLosesNone(cfg, Run(cfg, actions[..n]), actions[n]);
      }
    }
  }

  // ---- what is lost stays lost ----

  lemma ProcessorKeepsOrphan(cfg: Config, b: Buffers, client: Option<nat>, a: Action, buf: nat)
    requires BuffersSound(b) && (client.Some? ==> client.value < |b.queues|)
    requires a.Receive? ==> Fresh(b, a.raw)
    requires a.Decode? ==> Fresh(b, a.l16)
    requires a.Forward? ==> Fresh(b, a.copy)
    requires Orphaned(b, buf)
    ensures Orphaned(ProcessorStep(cfg, b, client, a), buf)
  {
    OwnedFacts(b);
    if a.Forward? && b.place.Decoded? && b.place.listeners {
      if cfg.transcoding {
        if b.place.l16.Some? {
          BroadcastHolders(b, client, b.place.l16.value);
        }
      } else {
        BroadcastHolders(Get(Use(b, b.place.raw), a.copy), client, a.copy);
      }
    }
  }

  lemma StepKeepsOrphan(cfg: Config, s: State, a: Action, buf: nat)
    requires Sound(s) && Enabled(cfg, s, a) && Orphaned(s.buffers, buf)
    ensures Orphaned(BufferStep(cfg, s, a), buf)
  {
    if a.Add? || a.BroadcastText? || a.PumpReceive? || a.PumpWrite? || a.PumpPingFails? || a.Drain? || a.PumpRemove? {
      OthersLeaveProcessor(cfg, s, a, buf);
    } else {
      ProcessorKeepsOrphan(cfg, s.buffers, s.slot.client, a, buf);
    }
  }

  lemma NextKeepsOrphan(cfg: Config, s: State, a: Action, buf: nat)
    requires Sound(s) && Orphaned(s.buffers, buf)
    ensures Orphaned(Next(cfg, s, a).buffers, buf)
  {
    if Enabled(cfg, s, a) {
      StepKeepsOrphan(cfg, s, a, buf);
    }
  }

  /** After this run the processor has lost the buffer. */
  ghost predicate Loses(cfg: Config, actions: seq<Action>, buf: nat) {
    Orphaned(Run(cfg, actions).buffers, buf)
  }

  lemma LosesSnoc(cfg: Config, actions: seq<Action>, a: Action, buf: nat)
    requires Loses(cfg, actions, buf)
    ensures Loses(cfg, actions + [a], buf)
  {
    RunSnoc(cfg, actions, a);
    NextKeepsOrphan(cfg, Run(cfg, actions), a, buf);
  }

  /** A buffer the processor has lost is never returned, whatever happens next. */
  lemma {:induction false} LostForGood(cfg: Config, actions: seq<Action>, more: seq<Action>, buf: nat)
    requires Loses(cfg, actions, buf)
    ensures Loses(cfg, actions + more, buf)
    decreases |more|
  {
    if more == [] {
      assert actions + more == actions;
    } else {
      var n := |more| - 1;
      LostForGood(cfg, actions, more[..n], buf);
      LastStep(actions, more);
      LosesSnoc(cfg, actions + more[..n], more[n], buf);
    }
  }

  // ---- a run that loses a buffer ----

  /** The state with nobody connected, and the processor here. */
  function Alone(holders: map<nat, Holder>, place: Place): (s: State) {
    State(EMPTY_SLOT, Buffers([], [], holders, place, false))
  }

  lemma ReceivedAlone(cfg: Config)
    ensures Next(cfg, INITIAL, Receive(1)) == Alone(map[1 := Processor], Have(1))
  {
  }

  lemma AdmitAlone(cfg: Config, s: State)
    requires cfg.recorder && s == Alone(map[1 := Processor], Have(1))
    ensures Next(cfg, s, Admit(false, false)) == Alone(map[1 := Processor], Admitted(1, false))
  {
  }

  lemma AdmittedAlone(cfg: Config)
    requires cfg.recorder
    ensures Run(cfg, [] + [Receive(1)] + [Admit(false, false)]) == Alone(map[1 := Processor], Admitted(1, false))
  {
    RunSnoc(cfg, [], Receive(1));
    ReceivedAlone(cfg);
    RunSnoc(cfg, [] + [Receive(1)], Admit(false, false));
    AdmitAlone(cfg, Run(cfg, [] + [Receive(1)]));
  }

  lemma DecodedAlone(cfg: Config, s: State)
    requires cfg.recorder && !cfg.transcoding && s == Alone(map[1 := Processor], Admitted(1, false))
    ensures Next(cfg, s, Decode(2, false)) == Alone(map[1 := Processor, 2 := Processor], Decoded(1, false, Some(2)))
  {
  }

  lemma ForwardedAlone(cfg: Config, s: State)
    requires cfg.recorder && !cfg.transcoding
    requires s == Alone(map[1 := Processor, 2 := Processor], Decoded(1, false, Some(2)))
    ensures Orphaned(Next(cfg, s, Forward(3)).buffers, 2)
  {
  }

  /** One packet of a recorded pass-through call, without a listener. */
  lemma RecordedPacket(cfg: Config)
    requires cfg.recorder && !cfg.transcoding
    ensures Loses(cfg, [] + [Receive(1)] + [Admit(false, false)] + [Decode(2, false)] + [Forward(3)], 2)
  {
    var admitted := [] + [Receive(1)] + [Admit(false, false)];
    AdmittedAlone(cfg);
    RunSnoc(cfg, admitted, Decode(2, false));
    DecodedAlone(cfg, Run(cfg, admitted));
    RunSnoc(cfg, admitted + [Decode(2, false)], Forward(3));
    ForwardedAlone(cfg, Run(cfg, admitted + [Decode(2, false)]));
  }

  /**
   Some run loses a buffer if and only if there is a recorder and the audio is not transcoded
   for the agent.
   */
  lemma LosesExactly(cfg: Config)
    ensures (exists actions, buf :: Loses(cfg, actions, buf)) <==> cfg.recorder && !cfg.transcoding
  {
    if cfg.recorder && !cfg.transcoding {
      RecordedPacket(cfg);
    } else {
      forall actions, buf
        ensures !Loses(cfg, actions, buf)
      {
        RunLosesNone(cfg, actions);
      }
    }
  }
}
