/**
 The bridge's client slot as the methods that run under its lock
 (internal/call/audio_bridge.go), proved against the steps of module Bridge. A send on a
 closed channel and a second close panic in the program; here they are preconditions.
 */
module BridgeSlot {
  import opened Results
  import opened Bridge

  /** The pooled buffers among these messages. */
  function Payloads(msgs: seq<Message>): (r: seq<nat>) {
    if msgs == [] then []
    else
      var last := msgs[|msgs| - 1];
      Payloads(msgs[..|msgs| - 1]) + if last.Binary? then [last.buf] else []
  }

  lemma PayloadsSnoc(msgs: seq<Message>, m: Message)
    ensures Payloads(msgs + [m]) == Payloads(msgs) + if m.Binary? then [m.buf] else []
  {
    assert (msgs + [m])[..|msgs|] == msgs;
  }

  class Client {
    const conn: nat
    var send: seq<Message>
    var closed: bool
    var disconnected: bool

    constructor (conn: nat)
      ensures this.conn == conn && send == [] && !closed && !disconnected
    {
      this.conn := conn;
      send, closed, disconnected := [], false, false;
    }

    /** A send that does not block: a full channel refuses. */
    method TrySend(msg: Message) returns (sent: bool)
      requires !closed
      modifies this`send
      ensures sent == (|old(send)| < SEND_CAPACITY)
      ensures send == if sent then old(send) + [msg] else old(send)
    {
      sent := |send| < SEND_CAPACITY;
      if sent {
        send := send + [msg];
      }
    }

    /** The write pump's loop on leaving: `returned` are the binary payloads it gives back, in order. */
    method Drain() returns (returned: seq<nat>)
      modifies this`send
      ensures send == [] && returned == Payloads(old(send))
    {
      returned := [];
      ghost var n := 0;
      while send != []
        invariant n <= |old(send)| && send == old(send)[n..]
        invariant returned == Payloads(old(send)[..n])
        decreases |send|
      {
        var msg := send[0];
        PayloadsSnoc(old(send)[..n], msg);
        assert old(send)[..n + 1] == old(send)[..n] + [msg];
        if msg.Binary? {
          returned := returned + [msg.buf];
        }
        send := send[1..];
        n := n + 1;
      }
      assert old(send)[..n] == old(send);
    }

    method CloseSend()
      requires !closed
      modifies this`closed
      ensures closed
    {
      closed := true;
    }
  }

  class AudioBridge {
    var client: Client?
    var reserved: bool
    var connections: int
    var closing: bool
    /** Every client ever added, and the state of module Bridge they amount to. */
    ghost var clients: seq<Client>
    ghost var slot: Slot

    ghost predicate Valid()
      reads this, clients
    {
      && Tracked()
      && (if slot.client.Some? then client == clients[slot.client.value] else client == null)
      && reserved == slot.reserved && connections == slot.gauge && closing == !slot.phase.Running?
    }

    /** The clients are those of the slot's state. */
    ghost predicate Tracked()
      reads this`clients, this`slot, clients
    {
      && SlotSound(slot)
      && |clients| == |slot.conns|
      && (forall i, j :: 0 <= i < j < |clients| ==> clients[i] != clients[j])
      && (forall i :: 0 <= i < |clients| ==> Mirrors(clients[i], slot, i))
    }

    ghost static predicate Mirrors(c: Client, s: Slot, i: nat)
      requires WellFormed(s) && i < |s.conns|
      reads c
    {
      && c.conn == s.conns[i] && c.closed == !s.open[i] && c.disconnected == s.disconnected[i]
      && |c.send| <= SEND_CAPACITY
    }

    constructor ()
      ensures Valid() && slot == EMPTY_SLOT && clients == []
    {
      client, reserved, connections, closing := null, false, 0, false;
      clients, slot := [], EMPTY_SLOT;
    }

    method TryLock() returns (ok: bool)
      requires Valid()
      modifies this
      ensures Valid() && clients == old(clients)
      ensures slot == Bridge.TryLock(old(slot))
      ensures ok <==> old(slot.client.None? && !slot.reserved)
    {
      if client != null || reserved {
        return false;
      }
      reserved := true;
      slot := slot.(reserved := true);
      ok := true;
    }

    method Unlock()
      requires Valid()
      modifies this
      ensures Valid() && clients == old(clients) && slot == Bridge.Unlock(old(slot))
    {
      reserved := false;
      slot := slot.(reserved := false);
    }

    /** A refused connection is closed by the caller's side of the model: nothing else happens to it. */
    method AddClient(conn: nat, ctxDone: bool) returns (added: bool)
      requires Valid()
      modifies this
      ensures Valid() && slot == Bridge.AddClient(old(slot), conn, ctxDone)
      ensures added <==> Accepts(old(slot), ctxDone)
      ensures !added ==> clients == old(clients)
      ensures added ==> |clients| == |old(clients)| + 1 && clients[..|old(clients)|] == old(clients)
                        && clients[|old(clients)|].conn == conn && clients[|old(clients)|].send == [Text]
    {
      if ctxDone || client != null {
        return false;
      }
      var c := new Client(conn);
      client := c;
      reserved := false;
      connections := connections + 1;
      var metadata := c.TrySend(Text);
      Track(c, ctxDone);
      added := true;
    }

    /** Record that the slot has taken the client on. */
    ghost method Track(c: Client, ctxDone: bool)
      requires Tracked() && Accepts(slot, ctxDone)
      requires c !in clients && !c.closed && !c.disconnected && |c.send| <= SEND_CAPACITY
      modifies this`clients, this`slot
      ensures Tracked() && clients == old(clients) + [c] && slot == Bridge.AddClient(old(slot), c.conn, ctxDone)
    {
      AddSound(slot, c.conn, ctxDone);
      clients := clients + [c];
      slot := Bridge.AddClient(slot, c.conn, ctxDone);
    }

    /** The body of the client's disconnect-once. */
    method Disconnect(c: Client)
      requires c.disconnected || !c.closed
      modifies this`connections, c`closed, c`disconnected
      ensures c.disconnected && c.closed == (if old(c.disconnected) then old(c.closed) else true)
      ensures connections == old(connections) - if old(c.disconnected) then 0 else 1
    {
      if !c.disconnected {
        c.disconnected := true;
        c.CloseSend();
        connections := connections - 1;
      }
    }

    method RemoveClient(conn: nat)
      requires Valid()
      modifies this, clients
      ensures Valid() && clients == old(clients) && slot == Bridge.RemoveClient(old(slot), conn)
      ensures forall c :: c in clients ==> c.send == old(c.send)
    {
      RemoveSound(slot, conn);
      if client != null && client.conn == conn {
        var c := client;
        client := null;
        reserved := false;
        Disconnect(c);
        slot := Bridge.RemoveClient(slot, conn);
      }
    }

    /** The locked half of CloseAll; `first` is whether its once lets it run. */
    method CloseAllDetach() returns (first: bool, c: Client?)
      requires Valid()
      modifies this
      ensures Valid() && clients == old(clients) && slot == Detach(old(slot))
      ensures first <==> old(slot.phase.Running?)
      ensures first ==> slot.phase.Detached?
                        && if slot.phase.client.Some? then c == clients[slot.phase.client.value] else c == null
    {
      if closing {
        return false, null;
      }
      closing := true;
      first, c := true, client;
      client := null;
      reserved := false;
      slot := Detach(slot);
    }

    /** The unlocked half: other steps may have run since the client was detached. */
    method CloseAllClose(c: Client?)
      requires Valid() && slot.phase.Detached?
      requires if slot.phase.client.Some? then c == clients[slot.phase.client.value] else c == null
      modifies this, clients
      ensures Valid() && clients == old(clients) && slot == CloseDetached(old(slot))
      ensures forall x :: x in clients ==> x.send == old(x.send)
    {
      CloseDetachedSound(slot);
      if c != null {
        Disconnect(c);
      }
      slot := CloseDetached(slot);
    }

    method HasListeners() returns (r: bool)
      requires Valid()
      ensures r <==> slot.client.Some?
    {
      r := client != null;
    }

    /** `returned` is whether a binary payload goes back to the pool instead of into the channel. */
    method Broadcast(msg: Message) returns (returned: bool)
      requires Valid()
      modifies clients
      ensures Valid() && slot == old(slot) && clients == old(clients)
      ensures forall i :: 0 <= i < |clients| ==>
                clients[i].send == old(clients[i].send) +
                  if slot.client == Some(i) && |old(clients[i].send)| < SEND_CAPACITY then [msg] else []
      ensures returned <==>
              (msg.Binary? && (slot.client.None? || |old(clients[slot.client.value].send)| >= SEND_CAPACITY))
    {
      if client == null {
        assert forall i :: 0 <= i < |clients| ==> clients[i].send + [] == clients[i].send;
        return msg.Binary?;
      }
      assert Attached(slot, slot.client.value);
      var sent := client.TrySend(msg);
      assert forall i :: 0 <= i < |clients| ==> old(clients[i].send) + [] == old(clients[i].send);
      returned := !sent && msg.Binary?;
    }
  }
}
