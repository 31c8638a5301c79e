/**
 The raw-buffer window beside the jitter buffer (internal/audio/pion_jitter_buffer.go):
 a direct-mapped table of 1024 slots over 16-bit sequence numbers. The specification
 keeps the extended, non-wrapping number of every stored packet (section 3.2 of RFC 1982
 describes the wrapped comparison).
 */
module Jitter {
  import opened Bytes
  import opened Results

  const WINDOW := 1024

  /** A stored packet: its extended number and its buffer. */
  datatype Held = Held(n: int, buf: nat)

  type Store = map<int, Held>

  function Wire(n: int): (w: Word16) {
    n % WORD16
  }

  function SlotOf(n: int): (i: nat)
    ensures i < WINDOW
  {
    n % WINDOW
  }

  lemma SlotOfWire(n: int)
    ensures Wire(n) % WINDOW == SlotOf(n)
  {
    assert n == n / WORD16 * 64 * WINDOW + Wire(n);
    Shift(Wire(n), n / WORD16 * 64);
  }

  lemma Shift(a: int, k: int)
    ensures (a + k * WINDOW) % WINDOW == a % WINDOW
  {
    var q := a / WINDOW;
    assert a + k * WINDOW == (q + k) * WINDOW + a % WINDOW;
  }

  /** a is earlier than b in sequence space. */
  predicate IsEarlier(a: Word16, b: Word16) {
    (b - a) % WORD16 < 32768 && a != b
  }

  // ---- what the window does, on the abstract store ----

  /** The packet a push evicts: the other number in its slot. */
  function Evicted(s: Store, n: int): (r: seq<Held>) {
    var i := SlotOf(n);
    if i in s && Wire(s[i].n) != Wire(n) then [s[i]] else []
  }

  /** The packet a push overwrites: one whose number looks the same in 16 bits. */
  function Overwritten(s: Store, n: int): (r: set<int>) {
    var i := SlotOf(n);
    if i in s && Wire(s[i].n) == Wire(n) then {s[i].n} else {}
  }

  function AfterPush(s: Store, n: int, buf: nat): (r: Store) {
    s[SlotOf(n) := Held(n, buf)]
  }

  /** The buffer a pop finds. */
  function Found(s: Store, n: int): (r: Option<nat>) {
    var i := SlotOf(n);
    if i in s && Wire(s[i].n) == Wire(n) then Some(s[i].buf) else None
  }

  predicate Swept(s: Store, n: int, i: int) {
    n % 32 == 0 && i in s && IsEarlier(Wire(s[i].n), Wire(n))
  }

  function AfterTake(s: Store, n: int): (r: Store) {
    if Found(s, n).Some? then s - {SlotOf(n)} else s
  }

  function AfterPop(s: Store, n: int): (r: Store) {
    var taken := AfterTake(s, n);
    map i | i in taken && !Swept(taken, n, i) :: taken[i]
  }

  /** The packets the sweep returns to the pool from the first k slots, in slot order. */
  function SweptFrom(s: Store, n: int, k: nat): (r: seq<Held>) {
    if k == 0 then []
    else SweptFrom(s, n, k - 1) + if Swept(s, n, k - 1) then [s[k - 1]] else []
  }

  function AllFrom(s: Store, k: nat): (r: seq<Held>) {
    if k == 0 then []
    else AllFrom(s, k - 1) + if k - 1 in s then [s[k - 1]] else []
  }

  function Buffers(hs: seq<Held>): (r: seq<nat>)
    ensures |r| == |hs|
  {
    seq(|hs|, i requires 0 <= i < |hs| => hs[i].buf)
  }

  // ---- the table ----

  datatype Entry = Entry(buf: Option<nat>, seq_: Word16)

  class RawWindow {
    const rawBuffers: array<Entry>
    var stopped: bool
    ghost var store: Store
    ghost var returned: seq<nat>

    ghost predicate Valid()
      reads this, rawBuffers
    {
      && rawBuffers.Length == WINDOW
      && (forall i :: i in store ==> 0 <= i < WINDOW)
      && (forall i :: 0 <= i < WINDOW ==> Agrees(rawBuffers[i], store, i))
    }

    ghost static predicate Agrees(e: Entry, s: Store, i: int) {
      if i in s then e == Entry(Some(s[i].buf), Wire(s[i].n)) else e.buf == None
    }

    constructor ()
      ensures Valid() && store == map[] && returned == [] && !stopped && fresh(rawBuffers)
    {
      rawBuffers := new Entry[WINDOW](i => Entry(None, 0));
      stopped, store, returned := false, map[], [];
    }

    /** `n` is the extended number behind the wire sequence number. */
    method Push(sequence: Word16, buf: nat, ghost n: int)
      requires Valid() && sequence == Wire(n)
      modifies this, rawBuffers
      ensures Valid() && store == AfterPush(old(store), n, buf) && stopped == old(stopped)
      ensures returned == old(returned) + Buffers(Evicted(old(store), n))
    {
      SlotOfWire(n);
      var idx := sequence % WINDOW;
      var entry := rawBuffers[idx];
      if entry.buf.Some? && entry.seq_ != sequence {
        returned := returned + [entry.buf.value];
      }
      rawBuffers[idx] := Entry(Some(buf), sequence);
      store := AfterPush(store, n, buf);
    }

    /** The retrieval after the jitter buffer popped `sequence`, with the periodic sweep. */
    method Retrieve(sequence: Word16, ghost n: int) returns (rawBuf: Option<nat>)
      requires Valid() && sequence == Wire(n)
      modifies this, rawBuffers
      ensures Valid() && store == AfterPop(old(store), n) && stopped == old(stopped)
      ensures rawBuf == Found(old(store), n)
      ensures returned == old(returned) + Buffers(SweptFrom(AfterTake(old(store), n), n, WINDOW))
    {
      SlotOfWire(n);
      var idx := sequence % WINDOW;
      rawBuf := None;
      if rawBuffers[idx].seq_ == sequence {
        rawBuf := rawBuffers[idx].buf;
        rawBuffers[idx] := rawBuffers[idx].(buf := None);
        store := store - {idx};
      }
      assert store == AfterTake(old(store), n);
      WireMod32(n);
      if sequence % 32 == 0 {
        Sweep(sequence, n);
      } else {
        NothingSwept(store, n, WINDOW);
        assert AfterPop(old(store), n) == store;
      }
    }

    method Sweep(sequence: Word16, ghost n: int)
      requires Valid() && sequence == Wire(n) && n % 32 == 0
      modifies this`store, this`returned, rawBuffers
      ensures Valid()
      ensures store == map i | i in old(store) && !Swept(old(store), n, i) :: old(store)[i]
      ensures returned == old(returned) + Buffers(SweptFrom(old(store), n, WINDOW))
    {
      ghost var s := store;
      for i := 0 to WINDOW
        invariant Valid()
        invariant store == map k | k in s && !(k < i && Swept(s, n, k)) :: s[k]
        invariant returned == old(returned) + Buffers(SweptFrom(s, n, i))
      {
        var e := rawBuffers[i];
        assert i in store <==> i in s;
        if e.buf.Some? && IsEarlier(e.seq_, sequence) {
          assert Swept(s, n, i);
          returned := returned + [e.buf.value];
          rawBuffers[i] := e.(buf := None);
          store := store - {i};
        }
      }
    }

    /** The first stop returns every stored buffer. */
    method Stop()
      requires Valid()
      modifies this, rawBuffers
      ensures Valid() && stopped
      ensures old(stopped) ==> store == old(store) && returned == old(returned)
      ensures !old(stopped) ==> store == map[] && returned == old(returned) + Buffers(AllFrom(old(store), WINDOW))
    {
      if stopped {
        return;
      }
      stopped := true;
      ReturnAll();
    }

    method ReturnAll()
      requires Valid()
      modifies this`store, this`returned, rawBuffers
      ensures Valid() && store == map[]
      ensures returned == old(returned) + Buffers(AllFrom(old(store), WINDOW))
    {
      ghost var s := store;
      for i := 0 to WINDOW
        invariant Valid()
        invariant store == map k | k in s && i <= k :: s[k]
        invariant returned == old(returned) + Buffers(AllFrom(s, i))
      {
        var e := rawBuffers[i];
        assert i in store <==> i in s;
        if e.buf.Some? {
          returned := returned + [e.buf.value];
          rawBuffers[i] := e.(buf := None);
          store := store - {i};
        }
      }
      assert store == map[];
    }
  }

  lemma WireMod32(n: int)
    ensures Wire(n) % 32 == n % 32
  {
    assert n == n / WORD16 * 2048 * 32 + Wire(n);
  }

  lemma NothingSwept(s: Store, n: int, k: nat)
    requires n % 32 != 0
    ensures SweptFrom(s, n, k) == []
  {
    if k > 0 { NothingSwept(s, n, k - 1); }
  }

  // ---- runs ----

  datatype Action = Push(n: int, buf: nat) | Pop(n: int) | Stop

  /**
   A run so far. `pending` are the packets the jitter buffer may still pop, `released` the
   packets whose buffers went back to the pool, `popped` those handed on with a pop, `lost`
   those whose buffers were overwritten in the table. A second stop does nothing.
   */
  datatype Track = Track(store: Store, pending: map<int, nat>, pushed: set<int>, last: Option<int>,
                         released: seq<Held>, popped: set<int>, lost: set<int>, stopped: bool)

  const EMPTY := Track(map[], map[], {}, None, [], {}, {}, false)

  predicate Later(t: Track, n: int) {
    t.last.None? || n > t.last.value
  }

  /** What the surrounding jitter buffer guarantees of the next action. */
  predicate Allowed(t: Track, a: Action) {
    match a
    case Push(n, _) => n !in t.pushed && forall m :: m in t.pending ==> -1023 <= n - m <= 1023
    case Pop(n) => n in t.pending && Later(t, n)
    case Stop => true
  }

  function Next(t: Track, a: Action): (r: Track) {
    match a
    case Push(n, buf) =>
      t.(store := AfterPush(t.store, n, buf),
         pending := if Later(t, n) then t.pending[n := buf] else t.pending,
         pushed := t.pushed + {n},
         released := t.released + Evicted(t.store, n),
         lost := t.lost + Overwritten(t.store, n))
    case Pop(n) =>
      t.(store := AfterPop(t.store, n),
         pending := map m | m in t.pending && m > n :: t.pending[m],
         last := Some(n),
         released := t.released + SweptFrom(AfterTake(t.store, n), n, WINDOW),
         popped := t.popped + {n})
    case Stop =>
      if t.stopped then t
      else t.(store := map[], pending := map[], released := t.released + AllFrom(t.store, WINDOW), stopped := true)
  }

  ghost predicate Possible(actions: seq<Action>) {
    forall k :: 0 <= k < |actions| ==> Allowed(Run(actions[..k]), actions[k])
  }

  function Run(actions: seq<Action>): (t: Track) {
    if actions == [] then EMPTY
    else Next(Run(actions[..|actions| - 1]), actions[|actions| - 1])
  }

  /** Pending packets are where a pop will look for them, and close together. */
  ghost predicate PendingStored(t: Track) {
    && (forall m :: m in t.pending ==>
          && m in t.pushed && Later(t, m)
          && SlotOf(m) in t.store && t.store[SlotOf(m)] == Held(m, t.pending[m]))
    && (forall m, k :: m in t.pending && k in t.pending ==> -1023 <= m - k <= 1023)
  }

  ghost predicate StoreSound(t: Track) {
    forall i :: i in t.store ==> 0 <= i < WINDOW && SlotOf(t.store[i].n) == i && t.store[i].n in t.pushed
  }

  /** A packet pushed ahead of the last pop can be popped next, and its buffer is found. */
  lemma PushThenPop(t: Track, n: int, buf: nat)
    requires Sound(t) && Allowed(t, Push(n, buf)) && Later(t, n)
    ensures Allowed(Next(t, Push(n, buf)), Pop(n))
    ensures Found(Next(t, Push(n, buf)).store, n) == Some(buf)
  {
  }

  /** A packet is still stored. */
  predicate Stored(s: Store, n: int) {
    SlotOf(n) in s && s[SlotOf(n)].n == n
  }

  /** No buffer is returned twice, after being handed on, or while its packet is stored. */
  ghost predicate ReleasedOnce(t: Track) {
    && (forall i, j :: 0 <= i < j < |t.released| ==> t.released[i].n != t.released[j].n)
    && (forall i :: 0 <= i < |t.released| ==> t.released[i].n in t.pushed && !Stored(t.store, t.released[i].n))
    && (forall i :: 0 <= i < |t.released| ==> t.released[i].n !in t.popped)
    && (forall n :: n in t.popped ==> n in t.pushed && !Stored(t.store, n))
  }

  ghost predicate Sound(t: Track) {
    PendingStored(t) && StoreSound(t) && ReleasedOnce(t)
  }

  /** Numbers in the same slot are equal or at least 1024 apart. */
  lemma SameSlot(m: int, n: int)
    requires SlotOf(m) == SlotOf(n) && -1023 <= m - n <= 1023
    ensures m == n
  {
    assert m - n == (m / WINDOW - n / WINDOW) * WINDOW;
  }

  lemma PushKeeps(t: Track, n: int, buf: nat)
    requires Sound(t) && Allowed(t, Push(n, buf))
    ensures Sound(Next(t, Push(n, buf)))
  {
    var r := Next(t, Push(n, buf));
    forall m | m in r.pending
      ensures SlotOf(m) in r.store && r.store[SlotOf(m)] == Held(m, r.pending[m])
    {
      if m != n && SlotOf(m) == SlotOf(n) { SameSlot(m, n); }
    }
  }

  /** Within half the number space, what comes later on the wire comes later in fact. */
  lemma NearIsNotEarlier(m: int, n: int)
    requires n < m <= n + 32768
    ensures !IsEarlier(Wire(m), Wire(n))
  {
    WireDifference(n, m);
    assert (n - m) % WORD16 == n - m + WORD16;
  }

  lemma WireDifference(a: int, b: int)
    ensures (Wire(a) - Wire(b)) % WORD16 == (a - b) % WORD16
  {
    var k := a / WORD16 - b / WORD16;
    assert a - b == k * WORD16 + (Wire(a) - Wire(b));
    ShiftWord(Wire(a) - Wire(b), k);
  }

  lemma ShiftWord(a: int, k: int)
    ensures (a + k * WORD16) % WORD16 == a % WORD16
  {
    var q := a / WORD16;
    assert a + k * WORD16 == (q + k) * WORD16 + a % WORD16;
  }

  /** These packets are stored in the first k slots, all different, and the sweep takes them. */
  ghost predicate SweepTargets(s: Store, n: int, k: nat, r: seq<Held>) {
    && (forall j :: 0 <= j < |r| ==> SlotOf(r[j].n) < k && Stored(s, r[j].n) && Swept(s, n, SlotOf(r[j].n)))
    && (forall i, j :: 0 <= i < j < |r| ==> r[i].n != r[j].n)
  }

  lemma SweptFromFacts(s: Store, n: int, k: nat)
    requires forall i :: i in s ==> SlotOf(s[i].n) == i
    ensures SweepTargets(s, n, k, SweptFrom(s, n, k))
  {
    if k > 0 { SweptFromFacts(s, n, k - 1); }
  }

  lemma PopKeeps(t: Track, n: int)
    requires Sound(t) && Allowed(t, Pop(n))
    ensures Found(t.store, n) == Some(t.pending[n])
    ensures Sound(Next(t, Pop(n)))
  {
    var r := Next(t, Pop(n));
    var taken := AfterTake(t.store, n);
    SweptFromFacts(taken, n, WINDOW);
    forall m | m in r.pending
      ensures SlotOf(m) in r.store && r.store[SlotOf(m)] == Held(m, r.pending[m])
    {
      if SlotOf(m) == SlotOf(n) { SameSlot(m, n); }
      NearIsNotEarlier(m, n);
    }
    PopReleases(t, n);
  }

  /** Handing on one stored packet and returning other stored packets keeps the accounts straight. */
  lemma ReleaseMore(t: Track, store: Store, more: seq<Held>, n: int)
    requires ReleasedOnce(t) && n in t.pushed && Stored(t.store, n) && !Stored(store, n)
    requires forall m :: Stored(store, m) ==> Stored(t.store, m)
    requires forall i :: 0 <= i < |more| ==> more[i].n in t.pushed && more[i].n != n
    requires forall i :: 0 <= i < |more| ==> Stored(t.store, more[i].n) && !Stored(store, more[i].n)
    requires forall i, j :: 0 <= i < j < |more| ==> more[i].n != more[j].n
    ensures ReleasedOnce(t.(store := store, released := t.released + more, popped := t.popped + {n}))
  {
  }

  lemma PopReleases(t: Track, n: int)
    requires Sound(t) && Allowed(t, Pop(n))
    ensures ReleasedOnce(Next(t, Pop(n)))
  {
    var taken := AfterTake(t.store, n);
    var swept := SweptFrom(taken, n, WINDOW);
    SweptFromFacts(taken, n, WINDOW);
    assert SlotOf(n) !in taken;
    forall i | 0 <= i < |swept|
      ensures swept[i].n in t.pushed && swept[i].n != n
      ensures Stored(t.store, swept[i].n) && !Stored(AfterPop(t.store, n), swept[i].n)
    {
      assert Stored(taken, swept[i].n) && Swept(taken, n, SlotOf(swept[i].n));
    }
    ReleaseMore(t, AfterPop(t.store, n), swept, n);
    assert ReleasedOnce(t.(store := AfterPop(t.store, n), released := t.released + swept, popped := t.popped + {n}));
  }

  /** Stored packets of the first k slots, all different. */
  ghost predicate AllStored(s: Store, k: nat, r: seq<Held>) {
    && (forall j :: 0 <= j < |r| ==> SlotOf(r[j].n) < k && Stored(s, r[j].n))
    && (forall i, j :: 0 <= i < j < |r| ==> r[i].n != r[j].n)
  }

  /** What the stop returns are the stored packets, each once. */
  lemma AllFromFacts(s: Store, k: nat)
    requires forall i :: i in s ==> SlotOf(s[i].n) == i
    ensures AllStored(s, k, AllFrom(s, k))
  {
    if k > 0 { AllFromFacts(s, k - 1); }
  }

  lemma AllFromCovers(s: Store, k: nat, i: nat)
    requires i < k && i in s
    ensures s[i] in AllFrom(s, k)
  {
    if i < k - 1 { AllFromCovers(s, k - 1, i); }
  }

  lemma StopKeeps(t: Track)
    requires Sound(t)
    ensures Sound(Next(t, Stop))
  {
    if !t.stopped {
      var r, all := Next(t, Stop), AllFrom(t.store, WINDOW);
      AllFromFacts(t.store, WINDOW);
      forall i | 0 <= i < |r.released|
        ensures r.released[i].n in r.pushed && r.released[i].n !in r.popped
        ensures i < |t.released| <==> !Stored(t.store, r.released[i].n)
      {
        if i < |t.released| {
          assert r.released[i] == t.released[i];
        } else {
          var h := all[i - |t.released|];
          assert r.released[i] == h && Stored(t.store, h.n);
        }
      }
      forall i, j | 0 <= i < j < |r.released|
        ensures r.released[i].n != r.released[j].n
      {
        if i >= |t.released| {
          assert all[i - |t.released|].n != all[j - |t.released|].n;
        }
      }
    }
  }

  lemma PossiblePrefix(actions: seq<Action>, n: nat)
    requires Possible(actions) && n <= |actions|
    ensures Possible(actions[..n])
  {
    forall k | 0 <= k < n
      ensures Allowed(Run(actions[..n][..k]), actions[..n][k])
    {
      assert actions[..n][..k] == actions[..k];
    }
  }

  /**
   Over every possible run no pending packet loses its buffer to a collision or to the
   sweep, and no buffer goes back to the pool twice, while its packet is stored or after
   it was handed on.
   */
  lemma {:induction false} WindowIsSound(actions: seq<Action>)
    requires Possible(actions)
    ensures Sound(Run(actions))
  {
    if actions != [] {
      var n := |actions| - 1;
      PossiblePrefix(actions, n);
      WindowIsSound(actions[..n]);
      match actions[n]
      case Push(m, buf) => PushKeeps(Run(actions[..n]), m, buf);
      case Pop(m) => PopKeeps(Run(actions[..n]), m);
      case Stop => StopKeeps(Run(actions[..n]));
    }
  }

  /** A pending number maps to the buffer it was pushed with. */
  lemma {:induction false} PendingIsPushed(actions: seq<Action>, m: int)
    requires m in Run(actions).pending
    ensures Push(m, Run(actions).pending[m]) in actions
  {
    var n := |actions| - 1;
    assert actions == actions[..n] + [actions[n]];
    if actions[n] != Push(m, Run(actions).pending[m]) {
      PendingIsPushed(actions[..n], m);
    }
  }

  /**
   Over every possible run, every pop returns the buffer pushed under its number, across
   any number of 16-bit wrap-arounds, as an unbounded map would.
   */
  lemma PopReturnsPushed(actions: seq<Action>, k: nat)
    requires Possible(actions) && k < |actions| && actions[k].Pop?
    ensures var n, found := actions[k].n, Found(Run(actions[..k]).store, actions[k].n);
            found.Some? && Push(n, found.value) in actions[..k]
  {
    PossiblePrefix(actions, k);
    WindowIsSound(actions[..k]);
    PopKeeps(Run(actions[..k]), actions[k].n);
    PendingIsPushed(actions[..k], actions[k].n);
  }

  // ---- where every buffer is ----

  predicate Released(t: Track, n: int) {
    exists i :: 0 <= i < |t.released| && t.released[i].n == n
  }

  /** Every pushed packet is stored, popped, released or overwritten. */
  ghost predicate Accounted(t: Track) {
    forall n :: n in t.pushed ==> Stored(t.store, n) || n in t.popped || n in t.lost || Released(t, n)
  }

  /** An overwritten packet is none of the others. */
  ghost predicate LostOnce(t: Track) {
    forall n :: n in t.lost ==> n in t.pushed && !Stored(t.store, n) && n !in t.popped && !Released(t, n)
  }

  lemma ReleasedMore(t: Track, r: Track, more: seq<Held>, n: int)
    requires r.released == t.released + more
    ensures Released(r, n) <==> Released(t, n) || exists i :: 0 <= i < |more| && more[i].n == n
  {
    forall i | 0 <= i < |more|
      ensures r.released[|t.released| + i] == more[i]
    {
    }
    if Released(t, n) {
      var i :| 0 <= i < |t.released| && t.released[i].n == n;
      assert r.released[i].n == n;
    }
    if i :| 0 <= i < |more| && more[i].n == n {
      assert r.released[|t.released| + i].n == n;
    }
  }

  /** The sweep takes everything it should. */
  lemma SweptFromCovers(s: Store, n: int, k: nat, i: nat)
    requires i < k && Swept(s, n, i)
    ensures s[i] in SweptFrom(s, n, k)
  {
    if i < k - 1 { SweptFromCovers(s, n, k - 1, i); }
  }

  lemma PushAccounts(t: Track, n: int, buf: nat)
    requires Sound(t) && Allowed(t, Push(n, buf)) && Accounted(t) && LostOnce(t)
    ensures Accounted(Next(t, Push(n, buf))) && LostOnce(Next(t, Push(n, buf)))
  {
    var r := Next(t, Push(n, buf));
    forall m | m in r.pushed
      ensures Stored(r.store, m) || m in r.popped || m in r.lost || Released(r, m)
      ensures m in r.lost ==> !Stored(r.store, m) && m !in r.popped && !Released(r, m)
    {
      ReleasedMore(t, r, Evicted(t.store, n), m);
      if Stored(t.store, m) && SlotOf(m) == SlotOf(n) && Wire(m) != Wire(n) {
        assert Evicted(t.store, n)[0].n == m;
      }
    }
  }

  lemma PopAccounts(t: Track, n: int)
    requires Sound(t) && Allowed(t, Pop(n)) && Accounted(t) && LostOnce(t)
    ensures Accounted(Next(t, Pop(n))) && LostOnce(Next(t, Pop(n)))
  {
    var r := Next(t, Pop(n));
    var taken := AfterTake(t.store, n);
    var swept := SweptFrom(taken, n, WINDOW);
    SweptFromFacts(taken, n, WINDOW);
    PopReleases(t, n);
    forall m | m in r.pushed
      ensures Stored(r.store, m) || m in r.popped || m in r.lost || Released(r, m)
      ensures m in r.lost ==> !Stored(r.store, m) && m !in r.popped && !Released(r, m)
    {
      ReleasedMore(t, r, swept, m);
      if Stored(taken, m) && Swept(taken, n, SlotOf(m)) {
        SweptFromCovers(taken, n, WINDOW, SlotOf(m));
        var i :| 0 <= i < |swept| && swept[i] == taken[SlotOf(m)];
        assert swept[i].n == m;
      }
    }
  }

  lemma StopAccounts(t: Track)
    requires Sound(t) && Accounted(t) && LostOnce(t)
    ensures Accounted(Next(t, Stop)) && LostOnce(Next(t, Stop))
  {
    if !t.stopped {
      var r := Next(t, Stop);
      var all := AllFrom(t.store, WINDOW);
      AllFromFacts(t.store, WINDOW);
      forall m | m in r.pushed
        ensures m in r.popped || m in r.lost || Released(r, m)
        ensures m in r.lost ==> m !in r.popped && !Released(r, m)
      {
        ReleasedMore(t, r, all, m);
        if Stored(t.store, m) {
          AllFromCovers(t.store, WINDOW, SlotOf(m));
          var i :| 0 <= i < |all| && all[i] == t.store[SlotOf(m)];
          assert all[i].n == m;
        }
      }
    }
  }

  /**
   Over every possible run every pushed buffer is still stored, was handed on with a pop, went
   back to the pool or was overwritten, and the overwritten ones are none of the others.
   */
  lemma {:induction false} EveryBuffer(actions: seq<Action>)
    requires Possible(actions)
    ensures Accounted(Run(actions)) && LostOnce(Run(actions))
  {
    if actions != [] {
      var n := |actions| - 1;
      PossiblePrefix(actions, n);
      EveryBuffer(actions[..n]);
      WindowIsSound(actions[..n]);
      match actions[n]
      case Push(m, buf) => PushAccounts(Run(actions[..n]), m, buf);
      case Pop(m) => PopAccounts(Run(actions[..n]), m);
      case Stop => StopAccounts(Run(actions[..n]));
    }
  }

  /**
   When the window of any possible run stops for the first time, nothing is stored any more:
   every pushed buffer was handed on with a pop, has gone back to the pool or was overwritten.
   */
  lemma StoppedWindow(actions: seq<Action>)
    requires Possible(actions) && !Run(actions).stopped
    ensures var t := Next(Run(actions), Stop);
            && t.store == map[] && ReleasedOnce(t) && LostOnce(t)
            && forall n :: n in t.pushed ==> n in t.popped || n in t.lost || Released(t, n)
  {
    EveryBuffer(actions);
    WindowIsSound(actions);
    StopKeeps(Run(actions));
    StopAccounts(Run(actions));
  }

  /** A push overwrites exactly a stored packet a multiple of 2^16 away, and does not return its buffer. */
  lemma OverwritesExactly(t: Track, n: int, buf: nat, m: int)
    requires Sound(t) && Allowed(t, Push(n, buf)) && LostOnce(t)
    ensures m in Next(t, Push(n, buf)).lost - t.lost <==> Stored(t.store, m) && (n - m) % WORD16 == 0
    ensures m in Next(t, Push(n, buf)).lost ==> !Released(Next(t, Push(n, buf)), m)
  {
    var r := Next(t, Push(n, buf));
    SameWire(n, m);
    SlotOfWire(n);
    SlotOfWire(m);
    ReleasedMore(t, r, Evicted(t.store, n), m);
  }

  lemma SameWire(n: int, m: int)
    ensures Wire(n) == Wire(m) <==> (n - m) % WORD16 == 0
  {
    WireDifference(n, m);
  }

  /** After a long gap a new packet overwrites one the jitter buffer skipped. */
  lemma OverwriteExample()
    ensures var t1 := Next(EMPTY, Push(0, 1));
            var t2 := Next(t1, Push(5, 2));
            var t3 := Next(t2, Pop(5));
            var t4 := Next(t3, Push(65536, 3));
            && Allowed(EMPTY, Push(0, 1)) && Allowed(t1, Push(5, 2)) && Allowed(t2, Pop(5))
            && Allowed(t3, Push(65536, 3)) && 0 in t4.lost
  {
    var t1 := Next(EMPTY, Push(0, 1));
    assert t1.store == map[0 := Held(0, 1)] && t1.pending == map[0 := 1];
    var t2 := Next(t1, Push(5, 2));
    assert t2.store == map[0 := Held(0, 1), 5 := Held(5, 2)];
    var t3 := Next(t2, Pop(5));
    assert t3.store == map[0 := Held(0, 1)] && t3.pending == map[];
  }

  // ---- what the sweep leaves behind ----

  /** After a sweeping pop an earlier stored number is gone exactly when its distance, wrapped, is under 2^15. */
  lemma SweepExact(t: Track, n: int, m: int)
    requires Sound(t) && Allowed(t, Pop(n)) && n % 32 == 0 && m < n && Stored(t.store, m)
    ensures Stored(AfterPop(t.store, n), m) <==> (n - m) % WORD16 == 0 || (n - m) % WORD16 >= 32768
  {
    WireDifference(n, m);
    if Wire(m) == Wire(n) {
      assert (n - m) % WORD16 == 0;
    } else {
      assert (n - m) % WORD16 != 0;
    }
    assert SlotOf(n) in t.store && t.store[SlotOf(n)].n == n;
  }

  /** So no earlier number remains exactly when none of those stored lies that far back. */
  lemma SweepCleans(t: Track, n: int)
    requires Sound(t) && Allowed(t, Pop(n)) && n % 32 == 0
    ensures (forall m :: m < n ==> !Stored(AfterPop(t.store, n), m))
       <==> (forall m :: m < n && Stored(t.store, m) ==> 0 < (n - m) % WORD16 < 32768)
  {
    forall m | m < n
      ensures Stored(AfterPop(t.store, n), m) <==> Stored(t.store, m) && !(0 < (n - m) % WORD16 < 32768)
    {
      if Stored(t.store, m) { SweepExact(t, n, m); }
    }
  }

  /** A packet skipped by the jitter buffer survives the sweep after a long gap in the stream. */
  lemma StaleExample()
    ensures var t1 := Next(EMPTY, Push(0, 1));
            var t2 := Next(t1, Push(5, 2));
            var t3 := Next(t2, Pop(5));
            var t4 := Next(t3, Push(40032, 3));
            var t5 := Next(t4, Pop(40032));
            && Allowed(EMPTY, Push(0, 1)) && Allowed(t1, Push(5, 2)) && Allowed(t2, Pop(5))
            && Allowed(t3, Push(40032, 3)) && Allowed(t4, Pop(40032))
            && 40032 % 32 == 0 && Stored(t5.store, 0)
  {
    var t1 := Next(EMPTY, Push(0, 1));
    assert t1.store == map[0 := Held(0, 1)] && t1.pending == map[0 := 1];
    var t2 := Next(t1, Push(5, 2));
    assert t2.store == map[0 := Held(0, 1), 5 := Held(5, 2)];
    var t3 := Next(t2, Pop(5));
    assert t3.store == map[0 := Held(0, 1)] && t3.pending == map[];
    var t4 := Next(t3, Push(40032, 3));
    assert t4.store == map[0 := Held(0, 1), 96 := Held(40032, 3)] && t4.pending == map[40032 := 3];
  }
}
