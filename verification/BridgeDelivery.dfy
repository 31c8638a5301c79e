/**
 What becomes of a packet (runAudioProcessor) and of a client that leaves (writePump) in the
 audio bridge, internal/call/audio_bridge.go, whatever the other goroutines do in between.
 */
module BridgeDelivery {
  import opened Bytes
  import opened Results
  import opened Bridge
  import opened BridgeQueues

  predicate IsProcessorStep(a: Action) {
    a.Receive? || a.Admit? || a.Decode? || a.Forward? || a.Finish?
  }

  /** Steps of the other goroutines. */
  ghost predicate Others(actions: seq<Action>) {
    forall a :: a in actions ==> !IsProcessorStep(a)
  }

  lemma OthersKeepPlace(cfg: Config, s: State, a: Action)
    requires Shaped(s) && !IsProcessorStep(a)
    ensures Next(cfg, s, a).buffers.place == s.buffers.place
  {
  }

  lemma {:induction false} OthersRun(cfg: Config, actions: seq<Action>, more: seq<Action>)
    requires Others(more)
    ensures Run(cfg, actions + more).buffers.place == Run(cfg, actions).buffers.place
    decreases |more|
  {
    if more == [] {
      assert actions + more == actions;
    } else {
      var n := |more| - 1;
      OthersRun(cfg, actions, more[..n]);
      LastStep(actions, more);
      RunSnoc(cfg, actions + more[..n], more[n]);
      OthersKeepPlace(cfg, Run(cfg, actions + more[..n]), more[n]);
    }
  }

  // ---- one packet ----

  lemma ReceiveStep(cfg: Config, s: State, raw: nat)
    requires Shaped(s) && s.buffers.place.Idle? && Fresh(s.buffers, raw)
    ensures Next(cfg, s, Receive(raw)).buffers.place == Have(raw)
  {
  }

  /** A live, spoken packet is processed when there is a listener or a recorder, and returned at once otherwise. */
  lemma AdmitStep(cfg: Config, s: State, raw: nat)
    requires Shaped(s) && s.buffers.place == Have(raw)
    ensures Next(cfg, s, Admit(false, false)).buffers.place
         == if s.slot.client.Some? || cfg.recorder then Admitted(raw, s.slot.client.Some?) else Idle
  {
  }

  lemma DecodeStep(cfg: Config, s: State, raw: nat, heard: bool, l16: nat)
    requires Shaped(s) && s.buffers.place == Admitted(raw, heard) && Fresh(s.buffers, l16)
    ensures Next(cfg, s, Decode(l16, false)).buffers.place
         == Decoded(raw, heard, if cfg.recorder || cfg.transcoding then Some(l16) else None)
  {
  }

  lemma ForwardStep(cfg: Config, s: State, raw: nat, heard: bool, l16: Option<nat>, copy: nat, c: nat)
    requires Sound(s) && s.buffers.place == Decoded(raw, heard, l16) && Fresh(s.buffers, copy)
    requires cfg.transcoding ==> l16.Some?
    ensures QueueOf(Next(cfg, s, Forward(copy)), c)
         == QueueOf(s, c) + if heard && HasRoom(s, c) then [Binary(if cfg.transcoding then l16.value else copy)] else []
    ensures Next(cfg, s, Forward(copy)).buffers.place == Finishing(raw)
  {
    if c < |s.buffers.queues| {
      ForwardQueue(cfg, s.buffers, s.slot.client, copy, c);
    }
    assert QueueOf(s, c) + [] == QueueOf(s, c);
  }

  /** The way of a packet up to its forwarding, with steps of other goroutines between all of its own. */
  datatype Path = Path(before: seq<Action>, raw: nat, mid0: seq<Action>, mid1: seq<Action>, l16: nat, mid2: seq<Action>)

  function ToAdmission(p: Path): (r: seq<Action>) {
    p.before + [Receive(p.raw)] + p.mid0
  }

  function ToDecoding(p: Path): (r: seq<Action>) {
    ToAdmission(p) + [Admit(false, false)] + p.mid1
  }

  function ToForwarding(p: Path): (r: seq<Action>) {
    ToDecoding(p) + [Decode(p.l16, false)] + p.mid2
  }

  /** The processor was idle, the buffer names are new ones, and only other goroutines step in between. */
  ghost predicate ValidPath(cfg: Config, p: Path) {
    && Others(p.mid0) && Others(p.mid1) && Others(p.mid2)
    && Run(cfg, p.before).buffers.place.Idle? && Fresh(Run(cfg, p.before).buffers, p.raw)
    && Fresh(Run(cfg, ToDecoding(p)).buffers, p.l16)
  }

  lemma PathAdmitted(cfg: Config, p: Path)
    requires ValidPath(cfg, p)
    ensures Run(cfg, ToAdmission(p)).buffers.place == Have(p.raw)
    ensures var client := Run(cfg, ToAdmission(p)).slot.client;
            Run(cfg, ToDecoding(p)).buffers.place == if client.Some? || cfg.recorder then Admitted(p.raw, client.Some?) else Idle
  {
    RunSnoc(cfg, p.before, Receive(p.raw));
    ReceiveStep(cfg, Run(cfg, p.before), p.raw);
    OthersRun(cfg, p.before + [Receive(p.raw)], p.mid0);
    RunSnoc(cfg, ToAdmission(p), Admit(false, false));
    AdmitStep(cfg, Run(cfg, ToAdmission(p)), p.raw);
    OthersRun(cfg, ToAdmission(p) + [Admit(false, false)], p.mid1);
  }

  lemma PathDecoded(cfg: Config, p: Path)
    requires ValidPath(cfg, p)
    requires Run(cfg, ToAdmission(p)).slot.client.Some? || cfg.recorder
    ensures Run(cfg, ToForwarding(p)).buffers.place
         == Decoded(p.raw, Run(cfg, ToAdmission(p)).slot.client.Some?, if cfg.recorder || cfg.transcoding then Some(p.l16) else None)
  {
    PathAdmitted(cfg, p);
    RunSnoc(cfg, ToDecoding(p), Decode(p.l16, false));
    DecodeStep(cfg, Run(cfg, ToDecoding(p)), p.raw, Run(cfg, ToAdmission(p)).slot.client.Some?, p.l16);
    OthersRun(cfg, ToDecoding(p) + [Decode(p.l16, false)], p.mid2);
  }

  /**
   In every interleaving, a spoken packet that was admitted while a client was registered and
   that decodes reaches the client registered when it is forwarded, if its queue has room: the
   decoded buffer when the call is transcoded, a copy of the packet otherwise. No other queue
   changes, and no queue does when nobody was registered at its admission.
   */
  lemma PacketReaches(cfg: Config, p: Path, copy: nat, c: nat)
    requires ValidPath(cfg, p) && Fresh(Run(cfg, ToForwarding(p)).buffers, copy)
    requires Run(cfg, ToAdmission(p)).slot.client.Some? || cfg.recorder
    ensures var s := Run(cfg, ToForwarding(p));
            var reaches := Run(cfg, ToAdmission(p)).slot.client.Some? && s.slot.client == Some(c) && |QueueOf(s, c)| < 200;
            var expected := if reaches then [Binary(if cfg.transcoding then p.l16 else copy)] else [];
            QueueOf(Run(cfg, ToForwarding(p) + [Forward(copy)]), c) == QueueOf(s, c) + expected
  {
    PathDecoded(cfg, p);
    RunSnoc(cfg, ToForwarding(p), Forward(copy));
    ForwardStep(cfg, Run(cfg, ToForwarding(p)), p.raw, Run(cfg, ToAdmission(p)).slot.client.Some?,
                if cfg.recorder || cfg.transcoding then Some(p.l16) else None, copy, c);
  }

  lemma FinishStep(cfg: Config, s: State, raw: nat)
    requires Sound(s) && s.buffers.place == Finishing(raw)
    ensures var b := Next(cfg, s, Finish).buffers; b.place.Idle? && raw in b.holders && b.holders[raw] == Returned
  {
  }

  /** In the end the packet's own buffer is back in the pool, and the processor ready for the next one. */
  lemma PacketEnds(cfg: Config, p: Path, copy: nat, more: seq<Action>)
    requires ValidPath(cfg, p) && Fresh(Run(cfg, ToForwarding(p)).buffers, copy) && Others(more)
    requires Run(cfg, ToAdmission(p)).slot.client.Some? || cfg.recorder
    ensures var b := Run(cfg, ToForwarding(p) + [Forward(copy)] + more + [Finish]).buffers;
            b.place.Idle? && p.raw in b.holders && b.holders[p.raw] == Returned
  {
    var forwarded := ToForwarding(p) + [Forward(copy)];
    PathDecoded(cfg, p);
    RunSnoc(cfg, ToForwarding(p), Forward(copy));
    ForwardStep(cfg, Run(cfg, ToForwarding(p)), p.raw, Run(cfg, ToAdmission(p)).slot.client.Some?,
                if cfg.recorder || cfg.transcoding then Some(p.l16) else None, copy, 0);
    OthersRun(cfg, forwarded, more);
    RunSnoc(cfg, forwarded + more, Finish);
    FinishStep(cfg, Run(cfg, forwarded + more), p.raw);
  }

  /** A packet that goes no further: its buffer is back, the queues are as they were. */
  ghost predicate Dropped(s: State, r: State, raw: nat) {
    r.buffers.queues == s.buffers.queues && raw in r.buffers.holders && r.buffers.holders[raw] == Returned
  }

  /**
   A telephone event, and any packet with neither listener nor recorder, goes back at once and
   reaches no queue; so does one whose decoding fails; and once the context is done the
   processor has stopped for good.
   */
  lemma PacketDropped(cfg: Config, s: State, a: Action)
    requires Sound(s)
    ensures s.buffers.place.Have? && a.Admit? && (a.ctxDone || a.dtmf || (s.slot.client.None? && !cfg.recorder)) ==>
              Dropped(s, Next(cfg, s, a), s.buffers.place.raw)
              && Next(cfg, s, a).buffers.place == if a.ctxDone then Stopped else Idle
    ensures s.buffers.place.Admitted? && a.Decode? && Fresh(s.buffers, a.l16) && a.fails && (cfg.recorder || cfg.transcoding) ==>
              Dropped(s, Next(cfg, s, a), s.buffers.place.raw) && Next(cfg, s, a).buffers.place.Idle?
    ensures s.buffers.place.Stopped? ==> Next(cfg, s, a).buffers.place.Stopped?
  {
  }

  // ---- who is registered ----

  /** A text message reaches the registered client, if its queue has room, and no other. */
  lemma TextReaches(cfg: Config, s: State, c: nat)
    requires Sound(s)
    ensures var reaches := s.slot.client == Some(c) && |QueueOf(s, c)| < 200;
            QueueOf(Next(cfg, s, BroadcastText), c) == QueueOf(s, c) + if reaches then [Text] else []
  {
    assert QueueOf(s, c) + [] == QueueOf(s, c);
    if c < |s.buffers.queues| {
      BroadcastQueue(s.buffers, s.slot.client, Text, c);
    }
  }

  /** A reservation goes to an empty slot alone, and keeps further ones out until it is given back. */
  lemma ReservationHolds(cfg: Config, s: State)
    requires Sound(s)
    ensures var r := Next(cfg, s, Reserve);
            && r.slot.client == s.slot.client && r.slot.conns == s.slot.conns && r.buffers == s.buffers
            && (r.slot.reserved <==> s.slot.client.None?)
            && Next(cfg, r, Reserve) == r
    ensures var r := Next(cfg, s, Release); r.slot == s.slot.(reserved := false) && r.buffers == s.buffers
  {
  }

  /**
   A connection that comes to an empty slot is registered, with an open channel that holds the
   metadata message and a pump to read it; any other changes nothing.
   */
  lemma ClientComes(cfg: Config, s: State, conn: nat, ctxDone: bool)
    requires Sound(s)
    ensures var r, c := Next(cfg, s, Add(conn, ctxDone)), |s.slot.conns|;
            if !ctxDone && s.slot.client.None? then
              && r.slot.client == Some(c) && r.slot.conns == s.slot.conns + [conn] && !r.slot.reserved
              && r.slot.open[c] && r.slot.gauge == s.slot.gauge + 1
              && QueueOf(r, c) == [Text] && r.buffers.pumps[c].Waiting?
            else r == s
  {
  }

  /**
   The registered client goes when its own connection is removed, which closes its channel, or
   when everything is closed, which detaches it first and then closes its channel.
   */
  lemma ClientGoes(cfg: Config, s: State, conn: nat)
    requires Sound(s)
    ensures var r := Next(cfg, s, Remove(conn));
            if s.slot.client.Some? && s.slot.conns[s.slot.client.value] == conn
            then r.slot.client.None? && !r.slot.open[s.slot.client.value] && r.slot.gauge == s.slot.gauge - 1
            else r == s
    ensures var r := Next(cfg, s, CloseAllDetach);
            if s.slot.phase.Running?
            then r.slot.client.None? && !r.slot.reserved && r.slot.phase == Detached(s.slot.client) && r.slot.open == s.slot.open
            else r == s
    ensures var r := Next(cfg, s, CloseAllClose);
            s.slot.phase.Detached? ==>
              && r.slot.phase.Closed? && r.slot.client == s.slot.client
              && (s.slot.phase.client.Some? ==> !r.slot.open[s.slot.phase.client.value])
  {
    if s.slot.client.Some? { assert Attached(s.slot, s.slot.client.value); }
  }

  // ---- a client that leaves ----

  /** A failed write or ping, and a closed and empty channel, start the draining. */
  lemma StartsDraining(cfg: Config, s: State, c: nat)
    requires Sound(s) && c < |s.buffers.pumps|
    ensures s.buffers.pumps[c].Writing? ==> Next(cfg, s, PumpWrite(c, true)).buffers.pumps[c].Draining?
    ensures s.buffers.pumps[c].Writing? ==> Next(cfg, s, PumpWrite(c, false)).buffers.pumps[c].Waiting?
    ensures s.buffers.pumps[c].Waiting? ==> Next(cfg, s, PumpPingFails(c)).buffers.pumps[c].Draining?
    ensures s.buffers.pumps[c].Waiting? && QueueOf(s, c) == [] && !s.slot.open[c] ==>
              Next(cfg, s, PumpReceive(c)).buffers.pumps[c].Draining?
    ensures s.buffers.pumps[c].Waiting? && QueueOf(s, c) != [] ==>
              Next(cfg, s, PumpReceive(c)).buffers.pumps[c] == Writing(QueueOf(s, c)[0])
  {
  }

  ghost predicate AllDrain(more: seq<Action>, c: nat) {
    forall i :: 0 <= i < |more| ==> more[i] == Drain(c)
  }

  lemma DrainOne(cfg: Config, s: State, c: nat)
    requires Sound(s) && c < |s.buffers.pumps| && s.buffers.pumps[c].Draining?
    ensures var r := Next(cfg, s, Drain(c));
            && c < |r.buffers.pumps| && r.slot == s.slot
            && QueueOf(r, c) == (if QueueOf(s, c) == [] then [] else QueueOf(s, c)[1..])
            && r.buffers.pumps[c] == (if QueueOf(s, c) == [] then Leaving else Draining)
            && (QueueOf(s, c) != [] && QueueOf(s, c)[0].Binary? ==>
                  QueueOf(s, c)[0].buf in r.buffers.holders && r.buffers.holders[QueueOf(s, c)[0].buf] == Returned)
            && forall x :: x in s.buffers.holders && s.buffers.holders[x] == Returned ==>
                 x in r.buffers.holders && r.buffers.holders[x] == Returned
  {
    DrainSound(s.buffers, c);
  }

  /** The first n messages of the queue are gone, their buffers back in the pool. */
  ghost predicate DrainedBy(s: State, r: State, c: nat, n: nat)
    requires n <= |QueueOf(s, c)|
  {
    && c < |r.buffers.pumps| && r.buffers.pumps[c].Draining? && r.slot == s.slot
    && QueueOf(r, c) == QueueOf(s, c)[n..]
    && forall i :: 0 <= i < n && QueueOf(s, c)[i].Binary? ==>
         QueueOf(s, c)[i].buf in r.buffers.holders && r.buffers.holders[QueueOf(s, c)[i].buf] == Returned
  }

  lemma {:induction false} DrainSome(cfg: Config, actions: seq<Action>, more: seq<Action>, c: nat)
    requires var s := Run(cfg, actions); c < |s.buffers.pumps| && s.buffers.pumps[c].Draining? && |more| <= |QueueOf(s, c)|
    requires AllDrain(more, c)
    ensures DrainedBy(Run(cfg, actions), Run(cfg, actions + more), c, |more|)
    decreases |more|
  {
    if more == [] {
      assert actions + more == actions;
    } else {
      DrainSome(cfg, actions, more[..|more| - 1], c);
      DrainSnoc(cfg, actions, more, c);
    }
  }

  lemma DrainSnoc(cfg: Config, actions: seq<Action>, more: seq<Action>, c: nat)
    requires more != [] && AllDrain(more, c) && |more| <= |QueueOf(Run(cfg, actions), c)|
    requires DrainedBy(Run(cfg, actions), Run(cfg, actions + more[..|more| - 1]), c, |more| - 1)
    ensures DrainedBy(Run(cfg, actions), Run(cfg, actions + more), c, |more|)
  {
    var n := |more| - 1;
    LastStep(actions, more);
    RunSnoc(cfg, actions + more[..n], Drain(c));
    DrainedOneMore(cfg, Run(cfg, actions), Run(cfg, actions + more[..n]), c, n);
  }

  lemma DrainedOneMore(cfg: Config, s: State, r: State, c: nat, n: nat)
    requires Sound(r) && n < |QueueOf(s, c)| && DrainedBy(s, r, c, n)
    ensures DrainedBy(s, Next(cfg, r, Drain(c)), c, n + 1)
  {
    var q := QueueOf(s, c);
    DrainOne(cfg, r, c);
    assert q[n..][0] == q[n] && q[n..][1..] == q[n + 1..];
  }

  lemma LeaveStep(cfg: Config, s: State, c: nat)
    requires Sound(s) && c < |s.buffers.pumps| && s.buffers.pumps[c].Leaving?
    ensures var r := Next(cfg, s, PumpRemove(c));
            && c < |r.buffers.pumps| && r.buffers.pumps[c].Done? && r.slot.client != Some(c)
            && (s.slot.client == Some(c) ==> !r.slot.open[c])
            && r.buffers.holders == s.buffers.holders && QueueOf(r, c) == QueueOf(s, c)
  {
  }

  /**
   From any reachable state a draining pump can leave: after as many steps as its queue is long,
   one that finds it empty and one that removes the client, every queued buffer is back in the
   pool, the queue is empty and the client no longer registered.
   */
  lemma PumpLeaves(cfg: Config, actions: seq<Action>, drains: seq<Action>, c: nat)
    requires var s := Run(cfg, actions); c < |s.buffers.pumps| && s.buffers.pumps[c].Draining? && |drains| == |QueueOf(s, c)|
    requires AllDrain(drains, c)
    ensures var s := Run(cfg, actions);
            var r := Run(cfg, actions + drains + [Drain(c)] + [PumpRemove(c)]);
            && c < |r.buffers.pumps| && r.buffers.pumps[c].Done? && QueueOf(r, c) == [] && r.slot.client != Some(c)
            && forall i :: 0 <= i < |QueueOf(s, c)| && QueueOf(s, c)[i].Binary? ==>
                 QueueOf(s, c)[i].buf in r.buffers.holders && r.buffers.holders[QueueOf(s, c)[i].buf] == Returned
  {
    var drained := actions + drains;
    DrainSome(cfg, actions, drains, c);
    RunSnoc(cfg, drained, Drain(c));
    DrainOne(cfg, Run(cfg, drained), c);
    RunSnoc(cfg, drained + [Drain(c)], PumpRemove(c));
    LeaveStep(cfg, Run(cfg, drained + [Drain(c)]), c);
  }
}
