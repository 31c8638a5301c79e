/**
 Reading one WebSocket message into a growing pooled buffer (ReadPump,
 internal/call/audio_bridge.go).
 */
module Assembly {
  import opened Bytes
  import opened Pool

  /** What the connection will deliver: a chunk, and whether an error such as EOF comes with it. */
  datatype Delivery = Delivery(bytes: seq<Byte>, err: bool)

  /** The message: every chunk up to and including the first one with an error. */
  function Message(script: seq<Delivery>): (r: seq<Byte>) {
    if script == [] then []
    else if script[0].err then script[0].bytes
    else script[0].bytes + Message(script[1..])
  }

  function Remaining(script: seq<Delivery>): (n: nat) {
    if script == [] then 0 else |script[0].bytes| + 1 + Remaining(script[1..])
  }

  /** A reader delivers its chunks in whatever pieces the space offered allows, and at the end EOF. */
  class MessageReader {
    var script: seq<Delivery>

    constructor (script: seq<Delivery>)
      ensures this.script == script
    {
      this.script := script;
    }

    method Read(dst: array<Byte>, from: nat, upTo: nat) returns (m: nat, err: bool)
      requires from < upTo <= dst.Length
      modifies this, dst
      ensures m <= upTo - from
      ensures dst[..from] == old(dst[..from])
      ensures Message(old(script)) == dst[from..from + m] + if err then [] else Message(script)
      ensures !err ==> Remaining(script) < Remaining(old(script))
    {
      if script == [] {
        return 0, true;
      }
      var head := script[0];
      m := Min(|head.bytes|, upTo - from);
      forall i | 0 <= i < m {
        dst[from + i] := head.bytes[i];
      }
      assert dst[from..from + m] == head.bytes[..m];
      MessageCut(script, m);
      if m < |head.bytes| {
        script := [Delivery(head.bytes[m..], head.err)] + script[1..];
        err := false;
      } else {
        script := script[1..];
        err := head.err;
      }
    }
  }

  lemma MessageCons(head: Delivery, rest: seq<Delivery>)
    ensures Message([head] + rest) == head.bytes + if head.err then [] else Message(rest)
    ensures Remaining([head] + rest) == |head.bytes| + 1 + Remaining(rest)
  {
    assert ([head] + rest)[1..] == rest;
    assert head.bytes + [] == head.bytes;
  }

  lemma CutBytes(bytes: seq<Byte>, m: nat, tail: seq<Byte>)
    requires m <= |bytes|
    ensures bytes + tail == bytes[..m] + (bytes[m..] + tail)
  {
  }

  /** Taking m bytes of the first delivery leaves the rest of the message. */
  lemma MessageCut(script: seq<Delivery>, m: nat)
    requires script != [] && m <= |script[0].bytes|
    ensures var head := script[0];
            var rest := [Delivery(head.bytes[m..], head.err)] + script[1..];
            && Message(script) == head.bytes[..m] + Message(rest)
            && (m > 0 ==> Remaining(rest) < Remaining(script))
            && (m == |head.bytes| ==> Message(script) == head.bytes[..m] + if head.err then [] else Message(script[1..]))
  {
    var head := script[0];
    assert script == [head] + script[1..];
    MessageCons(head, script[1..]);
    MessageCons(Delivery(head.bytes[m..], head.err), script[1..]);
    CutBytes(head.bytes, m, if head.err then [] else Message(script[1..]));
    assert m == |head.bytes| ==> head.bytes[..m] == head.bytes;
  }

  /** A pooled buffer with at least the requested capacity; how much more it has differs every time. */
  method GetBuffer(custody: Custody, size: nat) returns (b: array<Byte>)
    modifies custody
    ensures fresh(b) && b.Length >= size
    ensures custody.held == old(custody.held) + {b}
  {
    var capacity: nat :| capacity >= size;
    b := custody.Get(capacity);
  }

  /** Read behind the n bytes already there. */
  method ReadMore(reader: MessageReader, payload: array<Byte>, n: nat, upTo: nat) returns (n': nat, err: bool)
    requires n < upTo <= payload.Length
    modifies reader, payload
    ensures n <= n' <= upTo
    ensures old(payload[..n] + Message(reader.script)) == payload[..n'] + if err then [] else Message(reader.script)
    ensures !err ==> Remaining(reader.script) < Remaining(old(reader.script))
  {
    ghost var read, rest := payload[..n], Message(reader.script);
    var m;
    m, err := reader.Read(payload, n, upTo);
    n' := n + m;
    ghost var more, tail := payload[n..n'], if err then [] else Message(reader.script);
    assert payload[..n'] == read + more;
    assert read + (more + tail) == read + more + tail;
  }

  /** Double the space: the old buffer goes back, and its contents with it, once its bytes are copied. */
  method Grow(custody: Custody, payload: array<Byte>) returns (newPayload: array<Byte>)
    requires custody.held == {payload}
    modifies custody, payload
    ensures fresh(newPayload) && newPayload.Length >= payload.Length * 2
    ensures newPayload[..payload.Length] == old(payload[..])
    ensures custody.held == {newPayload}
  {
    newPayload := GetBuffer(custody, payload.Length * 2);
    forall i | 0 <= i < payload.Length {
      newPayload[i] := payload[i];
    }
    custody.Put(payload);
  }

  /**
   The assembly loop. For every sequence of deliveries it terminates with their
   concatenation; it never offers the reader an empty space, and gives a buffer back only
   after its bytes were copied to the next one.
   */
  method ReadMessage(reader: MessageReader, custody: Custody) returns (payload: array<Byte>, n: nat)
    requires custody.held == {}
    modifies reader, custody
    ensures fresh(payload) && n <= payload.Length
    ensures payload[..n] == Message(old(reader.script))
    ensures custody.held == {payload}
  {
    ghost var message := Message(reader.script);
    payload := GetBuffer(custody, 2048);
    var readErr;
    n, readErr := ReadMore(reader, payload, 0, 2048);
    while !readErr
      invariant fresh(payload) && 2048 <= payload.Length && n <= payload.Length
      invariant custody.held == {payload}
      invariant message == payload[..n] + if readErr then [] else Message(reader.script)
      decreases !readErr, Remaining(reader.script)
    {
      if n == payload.Length {
        ghost var full := payload[..];
        payload := Grow(custody, payload);
        assert payload[..n] == full[..n];
      }
      n, readErr := ReadMore(reader, payload, n, payload.Length);
    }
  }

  function Chunks(script: seq<Delivery>): (r: seq<seq<Byte>>)
    ensures |r| == |script|
  {
    seq(|script|, i requires 0 <= i < |script| => script[i].bytes)
  }

  /** When only the last delivery can carry an error, the message is all chunks in order, however they were cut. */
  lemma {:induction false} MessageIsAllChunks(script: seq<Delivery>, last: Delivery)
    requires forall i :: 0 <= i < |script| ==> !script[i].err
    ensures Message(script + [last]) == Flatten(Chunks(script)) + last.bytes
  {
    MessageSplit(script, [last]);
    assert [last][1..] == [];
    assert last.bytes + [] == last.bytes;
  }

  lemma {:induction false} MessageSplit(script: seq<Delivery>, rest: seq<Delivery>)
    requires forall i :: 0 <= i < |script| ==> !script[i].err
    ensures Message(script + rest) == Flatten(Chunks(script)) + Message(rest)
    decreases |script|
  {
    if script == [] {
      assert script + rest == rest;
    } else {
      var m := |script| - 1;
      var x := script[m];
      MessageSplit(script[..m], [x] + rest);
      assert script[..m] + ([x] + rest) == script + rest;
      assert ([x] + rest)[1..] == rest;
      assert Chunks(script) == Chunks(script[..m]) + [x.bytes];
      FlattenSnoc(Chunks(script[..m]), x.bytes);
      var front := Flatten(Chunks(script[..m]));
      assert front + x.bytes + Message(rest) == front + (x.bytes + Message(rest));
    }
  }
}
