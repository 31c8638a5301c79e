/**
 The call manager (internal/call/call_manager.go): two indices, a counter and parked
 waiters. `Add` inserts under the lock and counts afterwards, so the two halves are
 separate steps.
 */
module CallManager {
  import opened Bytes
  import opened Results

  datatype Call = Call(callID: string, internalID: string)

  /**
   `uncounted` is the number of adds between insert and increment, `captured` the waiters a
   removal has taken over and not yet closed, `closed` the waiters closed so far.
   */
  datatype State = State(bySIP: map<string, Call>, byUUID: map<string, Call>, active: int, total: nat,
                         waiters: seq<nat>, uncounted: nat, captured: seq<nat>, closed: seq<nat>, nextWaiter: nat)

  const EMPTY := State(map[], map[], 0, 0, [], 0, [], [], 0)

  datatype Action = Insert(call: Call) | Count | Remove(callID: string) | Park | CloseWaiter

  function InsertCall(s: State, call: Call): (r: State) {
    s.(bySIP := s.bySIP[call.callID := call], byUUID := s.byUUID[call.internalID := call], uncounted := s.uncounted + 1)
  }

  function CountCall(s: State): (r: State) {
    if s.uncounted == 0 then s else s.(active := s.active + 1, total := s.total + 1, uncounted := s.uncounted - 1)
  }

  function RemoveCall(s: State, callID: string): (r: State) {
    if callID !in s.bySIP then s
    else
      var rest := s.(bySIP := s.bySIP - {callID}, byUUID := s.byUUID - {s.bySIP[callID].internalID}, active := s.active - 1);
      if rest.active == 0 then rest.(captured := s.captured + s.waiters, waiters := []) else rest
  }

  /** The locked half of WaitEmpty. */
  function ParkWaiter(s: State): (r: State) {
    if s.active == 0 then s else s.(waiters := s.waiters + [s.nextWaiter], nextWaiter := s.nextWaiter + 1)
  }

  function CloseNext(s: State): (r: State) {
    if s.captured == [] then s else s.(captured := s.captured[1..], closed := s.closed + [s.captured[0]])
  }

  function Next(s: State, a: Action): (r: State) {
    match a
    case Insert(call) => InsertCall(s, call)
    case Count => CountCall(s)
    case Remove(callID) => RemoveCall(s, callID)
    case Park => ParkWaiter(s)
    case CloseWaiter => CloseNext(s)
  }

  /** New calls have identifiers not in use. */
  predicate Allowed(s: State, a: Action) {
    a.Insert? ==> a.call.callID !in s.bySIP && a.call.internalID !in s.byUUID
  }

  // ---- what every step keeps ----

  /** Both indices describe the same calls. */
  ghost predicate IndicesAgree(s: State) {
    && (forall k :: k in s.bySIP ==>
          && s.bySIP[k].callID == k
          && s.bySIP[k].internalID in s.byUUID && s.byUUID[s.bySIP[k].internalID] == s.bySIP[k])
    && (forall k :: k in s.byUUID ==>
          && s.byUUID[k].internalID == k
          && s.byUUID[k].callID in s.bySIP && s.bySIP[s.byUUID[k].callID] == s.byUUID[k])
  }

  ghost predicate Distinct(w: seq<nat>) {
    forall i, j :: 0 <= i < j < |w| ==> w[i] != w[j]
  }

  /** Every waiter is parked, captured or closed, and only one of these. */
  ghost predicate WaitersOnce(s: State) {
    && Distinct(s.closed + s.captured + s.waiters)
    && forall i :: 0 <= i < |s.closed + s.captured + s.waiters| ==> (s.closed + s.captured + s.waiters)[i] < s.nextWaiter
  }

  ghost predicate Sound(s: State) {
    && IndicesAgree(s)
    && s.active + s.uncounted == |s.bySIP|
    && WaitersOnce(s)
  }

  lemma RemoveSize(m: map<string, Call>, k: string)
    requires k in m
    ensures |m - {k}| == |m| - 1
  {
    assert (m - {k}).Keys == m.Keys - {k};
    assert |(m - {k}).Keys| == |m - {k}| && |m.Keys| == |m|;
  }

  lemma InsertSize(m: map<string, Call>, k: string, c: Call)
    requires k !in m
    ensures |m[k := c]| == |m| + 1
  {
    assert m[k := c].Keys == m.Keys + {k};
    assert |m[k := c].Keys| == |m[k := c]| && |m.Keys| == |m|;
  }

  lemma RemoveSound(s: State, callID: string)
    requires Sound(s) && callID in s.bySIP
    ensures Sound(RemoveCall(s, callID))
  {
    RemoveSize(s.bySIP, callID);
    IndicesWithout(s, callID);
    var r := RemoveCall(s, callID);
    if s.active - 1 == 0 {
      assert r.closed + r.captured + r.waiters == s.closed + s.captured + s.waiters;
    }
  }

  /** Dropping one call from both indices leaves them in agreement. */
  lemma IndicesWithout(s: State, callID: string)
    requires IndicesAgree(s) && callID in s.bySIP
    ensures IndicesAgree(s.(bySIP := s.bySIP - {callID}, byUUID := s.byUUID - {s.bySIP[callID].internalID}))
  {
  }

  lemma NextSound(s: State, a: Action)
    requires Sound(s) && Allowed(s, a)
    ensures Sound(Next(s, a))
  {
    match a
    case Insert(call) => InsertSize(s.bySIP, call.callID, call);
    case Remove(callID) => if callID in s.bySIP { RemoveSound(s, callID); }
    case Park => ParkSound(s);
    case CloseWaiter => CloseSound(s);
    case Count =>
  }

  lemma ParkSound(s: State)
    requires Sound(s)
    ensures Sound(ParkWaiter(s))
  {
    assert s.closed + s.captured + (s.waiters + [s.nextWaiter]) == s.closed + s.captured + s.waiters + [s.nextWaiter];
  }

  lemma CloseSound(s: State)
    requires Sound(s)
    ensures Sound(CloseNext(s))
  {
    if s.captured != [] {
      assert s.closed + [s.captured[0]] + s.captured[1..] == s.closed + s.captured;
    }
  }

  function Run(actions: seq<Action>): (s: State) {
    if actions == [] then EMPTY else Next(Run(actions[..|actions| - 1]), actions[|actions| - 1])
  }

  ghost predicate Possible(actions: seq<Action>) {
    actions != [] ==>
      Possible(actions[..|actions| - 1]) && Allowed(Run(actions[..|actions| - 1]), actions[|actions| - 1])
  }

  /**
   Over every run with fresh identifiers the two indices describe the same calls, the counter
   plus the adds in between is the number of calls, and no waiter channel is closed twice.
   */
  lemma {:induction false} ManagerSound(actions: seq<Action>)
    requires Possible(actions)
    ensures Sound(Run(actions))
  {
    if actions != [] {
      ManagerSound(actions[..|actions| - 1]);
      NextSound(Run(actions[..|actions| - 1]), actions[|actions| - 1]);
    }
  }

  // ---- which calls are known ----

  /** Insert i is of this Call-ID, and no later step removes it. */
  predicate InsertedAt(actions: seq<Action>, callID: string, i: nat) {
    && i < |actions| && actions[i].Insert? && actions[i].call.callID == callID
    && forall j :: i < j < |actions| ==> actions[j] != Remove(callID)
  }

  ghost predicate Present(actions: seq<Action>, callID: string) {
    exists i: nat :: InsertedAt(actions, callID, i)
  }

  lemma InsertedBefore(actions: seq<Action>, callID: string, i: nat)
    requires actions != [] && i < |actions| - 1
    ensures var n := |actions| - 1;
            InsertedAt(actions, callID, i) <==> InsertedAt(actions[..n], callID, i) && actions[n] != Remove(callID)
  {
    var n := |actions| - 1;
    assert forall j :: 0 <= j < n ==> actions[..n][j] == actions[j];
  }

  lemma PresentSnoc(actions: seq<Action>, callID: string)
    requires actions != []
    ensures Present(actions, callID)
       <==> (var n := |actions| - 1;
             (actions[n].Insert? && actions[n].call.callID == callID)
             || (actions[n] != Remove(callID) && Present(actions[..n], callID)))
  {
    var n := |actions| - 1;
    if Present(actions, callID) {
      var i: nat :| InsertedAt(actions, callID, i);
      if i < n { InsertedBefore(actions, callID, i); }
    }
    if actions[n].Insert? && actions[n].call.callID == callID {
      assert InsertedAt(actions, callID, n);
    } else if actions[n] != Remove(callID) && Present(actions[..n], callID) {
      var i: nat :| InsertedAt(actions[..n], callID, i);
      InsertedBefore(actions, callID, i);
    }
  }

  lemma NextKnown(s: State, a: Action, callID: string)
    ensures callID in Next(s, a).bySIP
       <==> (a.Insert? && a.call.callID == callID) || (a != Remove(callID) && callID in s.bySIP)
  {
  }

  /** A call is known exactly from its insert until its removal. */
  lemma {:induction false} KnownExactly(actions: seq<Action>, callID: string)
    ensures callID in Run(actions).bySIP <==> Present(actions, callID)
  {
    if actions != [] {
      KnownExactly(actions[..|actions| - 1], callID);
      PresentSnoc(actions, callID);
      NextKnown(Run(actions[..|actions| - 1]), actions[|actions| - 1], callID);
    }
  }

  function Inserts(actions: seq<Action>): (n: nat) {
    if actions == [] then 0
    else Inserts(actions[..|actions| - 1]) + if actions[|actions| - 1].Insert? then 1 else 0
  }

  /**
   In every run each insert has been counted or still is to be counted, and each waiter ever
   parked waits, has been taken over by a removal, or has been woken.
   */
  lemma {:induction false} AllAccounted(actions: seq<Action>)
    ensures var s := Run(actions);
            && s.total + s.uncounted == Inserts(actions)
            && |s.waiters| + |s.captured| + |s.closed| == s.nextWaiter
            && forall w: nat :: w < s.nextWaiter ==> w in s.waiters || w in s.captured || w in s.closed
  {
    if actions != [] {
      var before := actions[..|actions| - 1];
      AllAccounted(before);
      WaitersKept(Run(before), actions[|actions| - 1]);
    }
  }

  lemma WaitersKept(s: State, a: Action)
    requires |s.waiters| + |s.captured| + |s.closed| == s.nextWaiter
    requires forall w: nat :: w < s.nextWaiter ==> w in s.waiters || w in s.captured || w in s.closed
    ensures var r := Next(s, a);
            && |r.waiters| + |r.captured| + |r.closed| == r.nextWaiter
            && forall w: nat :: w < r.nextWaiter ==> w in r.waiters || w in r.captured || w in r.closed
  {
    var r := Next(s, a);
    forall w: nat | w < r.nextWaiter
      ensures w in r.waiters || w in r.captured || w in r.closed
    {
      if w < s.nextWaiter { WaiterKept(s, a, w); }
    }
  }

  lemma WaiterKept(s: State, a: Action, w: nat)
    requires w in s.waiters || w in s.captured || w in s.closed
    ensures var r := Next(s, a); w in r.waiters || w in r.captured || w in r.closed
  {
    if a.CloseWaiter? && s.captured != [] {
      assert s.captured == [s.captured[0]] + s.captured[1..];
    }
  }

  /** Waiting parks one more waiter while a call is counted; each waking step wakes the next of those taken over. */
  lemma WaitAndWake(s: State)
    ensures s.active != 0 ==> Next(s, Park).waiters == s.waiters + [s.nextWaiter]
    ensures s.captured != [] ==>
              Next(s, CloseWaiter).closed == s.closed + [s.captured[0]]
              && |Next(s, CloseWaiter).captured| == |s.captured| - 1
  {
  }

  // ---- waiters ----

  /** A waiter is parked only while the counter is not zero. */
  predicate NoneStranded(s: State) {
    s.waiters != [] ==> s.active != 0
  }

  /** A step strands a waiter exactly when a late increment lifts the counter from minus one to zero. */
  lemma StrandsExactly(s: State, a: Action)
    requires NoneStranded(s)
    ensures !NoneStranded(Next(s, a)) <==> a.Count? && s.uncounted > 0 && s.active == -1 && s.waiters != []
  {
  }

  /** A count that comes, while someone waits, when the adds to count are one more than the calls in the map. */
  predicate LateCount(s: State, a: Action) {
    a.Count? && s.uncounted == |s.bySIP| + 1 && s.waiters != []
  }

  /** In no state of the run is a waiter stranded. */
  ghost predicate NeverStranded(actions: seq<Action>) {
    forall k :: 0 <= k <= |actions| ==> NoneStranded(Run(actions[..k]))
  }

  ghost predicate NoLateCount(actions: seq<Action>) {
    forall k :: 0 <= k < |actions| ==> !LateCount(Run(actions[..k]), actions[k])
  }

  lemma {:induction false} PossiblePrefix(actions: seq<Action>, k: nat)
    requires Possible(actions) && k <= |actions|
    ensures Possible(actions[..k])
  {
    if k < |actions| {
      PossiblePrefix(actions[..|actions| - 1], k);
      assert actions[..|actions| - 1][..k] == actions[..k];
    } else {
      assert actions[..k] == actions;
    }
  }

  lemma RunPrefix(actions: seq<Action>, k: nat)
    requires k < |actions|
    ensures Run(actions[..k + 1]) == Next(Run(actions[..k]), actions[k])
  {
    assert actions[..k + 1][..k] == actions[..k];
  }

  lemma StrandedStep(actions: seq<Action>, k: nat)
    requires Possible(actions) && k < |actions|
    requires NoneStranded(Run(actions[..k]))
    ensures NoneStranded(Run(actions[..k + 1])) <==> !LateCount(Run(actions[..k]), actions[k])
  {
    PossiblePrefix(actions, k);
    ManagerSound(actions[..k]);
    StrandsExactly(Run(actions[..k]), actions[k]);
    RunPrefix(actions, k);
  }

  lemma {:induction false} NoneStrandedUpTo(actions: seq<Action>, k: nat)
    requires Possible(actions) && NoLateCount(actions) && k <= |actions|
    ensures NoneStranded(Run(actions[..k]))
  {
    if k > 0 {
      NoneStrandedUpTo(actions, k - 1);
      StrandedStep(actions, k - 1);
    }
  }

  /** In every run with fresh identifiers no state strands a waiter if and only if no count comes late. */
  lemma StrandedRuns(actions: seq<Action>)
    requires Possible(actions)
    ensures NeverStranded(actions) <==> NoLateCount(actions)
  {
    if NeverStranded(actions) {
      forall k | 0 <= k < |actions|
        ensures !LateCount(Run(actions[..k]), actions[k])
      {
        StrandedStep(actions, k);
      }
    }
    if NoLateCount(actions) {
      forall k | 0 <= k <= |actions|
        ensures NoneStranded(Run(actions[..k]))
      {
        NoneStrandedUpTo(actions, k);
      }
    }
  }

  /**
   The other way round, a removal in a run takes over the waiters exactly when the calls it
   leaves are as many as the adds still to count, so with calls left exactly when there are such adds.
   */
  lemma TakesOverExactly(actions: seq<Action>, callID: string)
    requires Possible(actions) && callID in Run(actions).bySIP && Run(actions).waiters != []
    ensures var s, r := Run(actions), RemoveCall(Run(actions), callID);
            && (r.waiters == [] <==> |s.bySIP| == s.uncounted + 1)
            && (r.waiters == [] ==> (r.bySIP != map[] <==> s.uncounted > 0))
  {
    var s := Run(actions);
    ManagerSound(actions);
    RemoveSize(s.bySIP, callID);
    EmptyMap(RemoveCall(s, callID).bySIP);
  }

  lemma EmptyMap(m: map<string, Call>)
    ensures m == map[] <==> |m| == 0
  {
  }

  /** A call removed between its insert and its count leaves a waiter parked while no call is active. */
  lemma StrandedExample()
    ensures var c := Call("a", "1");
            var s1 := Next(EMPTY, Insert(c));
            var s2 := Next(s1, Remove("a"));
            var s3 := Next(s2, Park);
            var s4 := Next(s3, Count);
            && Allowed(EMPTY, Insert(c)) && s4.active == 0 && s4.bySIP == map[] && s4.waiters == [0]
  {
    var c := Call("a", "1");
    var s1 := Next(EMPTY, Insert(c));
    assert s1.bySIP == map["a" := c];
    var s2 := Next(s1, Remove("a"));
    assert s2.bySIP == map[];
  }

  /** Steps of runs in which an add is inserted and counted at once. */
  function AtomicNext(s: State, a: Action): (r: State) {
    match a
    case Insert(call) => CountCall(InsertCall(s, call))
    case Count => s
    case _ => Next(s, a)
  }

  function AtomicRun(actions: seq<Action>): (s: State) {
    if actions == [] then EMPTY else AtomicNext(AtomicRun(actions[..|actions| - 1]), actions[|actions| - 1])
  }

  ghost predicate AtomicPossible(actions: seq<Action>) {
    actions != [] ==>
      AtomicPossible(actions[..|actions| - 1]) && Allowed(AtomicRun(actions[..|actions| - 1]), actions[|actions| - 1])
  }

  /** With atomic adds, waiters are parked only while a call is active, and the counter is the number of calls. */
  lemma {:induction false} AtomicNeverStrands(actions: seq<Action>)
    requires AtomicPossible(actions)
    ensures var s := AtomicRun(actions);
            && Sound(s) && s.uncounted == 0 && s.active == |s.bySIP|
            && (s.waiters != [] ==> s.active > 0)
  {
    if actions != [] {
      var n := |actions| - 1;
      AtomicNeverStrands(actions[..n]);
      var s := AtomicRun(actions[..n]);
      NextSound(s, actions[n]);
      if actions[n].Insert? {
        NextSound(InsertCall(s, actions[n].call), Count);
      }
    }
  }

  // ---- the manager ----

  class Manager {
    var callsBySIP: map<string, Call>
    var callsByUUID: map<string, Call>
    var emptyWaiters: seq<nat>
    var activeCalls: int
    var totalCalls: nat
    ghost var uncounted: nat
    ghost var captured: seq<nat>
    ghost var closed: seq<nat>
    var nextWaiter: nat

    ghost function View(): (s: State)
      reads this
    {
      State(callsBySIP, callsByUUID, activeCalls, totalCalls, emptyWaiters, uncounted, captured, closed, nextWaiter)
    }

    constructor ()
      ensures View() == EMPTY
    {
      callsBySIP, callsByUUID, emptyWaiters, activeCalls, totalCalls, nextWaiter := map[], map[], [], 0, 0, 0;
      uncounted, captured, closed := 0, [], [];
    }

    /** The locked half of Add. */
    method InsertLocked(call: Call)
      modifies this
      ensures View() == Next(old(View()), Insert(call))
    {
      callsBySIP := callsBySIP[call.callID := call];
      callsByUUID := callsByUUID[call.internalID := call];
      uncounted := uncounted + 1;
    }

    /** The counting half of Add. */
    method CountAdded()
      requires uncounted > 0
      modifies this
      ensures View() == Next(old(View()), Count)
    {
      activeCalls := activeCalls + 1;
      totalCalls := totalCalls + 1;
      uncounted := uncounted - 1;
    }

    /** With agreeing indices both lookups find the same calls. */
    method Get(callID: string) returns (call: Option<Call>)
      requires IndicesAgree(View())
      ensures call.Some? <==> exists k :: k in callsByUUID && callsByUUID[k].callID == callID
      ensures call.Some? ==> call.value.callID == callID
                             && call.value.internalID in callsByUUID && callsByUUID[call.value.internalID] == call.value
    {
      if callID !in callsBySIP {
        return None;
      }
      assert callsBySIP[callID].internalID in callsByUUID;
      call := Some(callsBySIP[callID]);
    }

    method GetByInternalID(internalID: string) returns (call: Option<Call>)
      requires IndicesAgree(View())
      ensures call.Some? <==> exists k :: k in callsBySIP && callsBySIP[k].internalID == internalID
      ensures call.Some? ==> call.value.internalID == internalID
                             && call.value.callID in callsBySIP && callsBySIP[call.value.callID] == call.value
    {
      if internalID !in callsByUUID {
        return None;
      }
      assert callsByUUID[internalID].callID in callsBySIP;
      call := Some(callsByUUID[internalID]);
    }

    /** The locked part of Remove returns the waiters it takes over. */
    method RemoveLocked(callID: string) returns (waiters: seq<nat>)
      modifies this
      ensures View() == Next(old(View()), Remove(callID))
      ensures View().captured == old(captured) + waiters
    {
      waiters := [];
      if callID in callsBySIP {
        var call := callsBySIP[callID];
        callsBySIP := callsBySIP - {callID};
        callsByUUID := callsByUUID - {call.internalID};
        activeCalls := activeCalls - 1;
        if activeCalls == 0 {
          waiters := emptyWaiters;
          captured := captured + emptyWaiters;
          emptyWaiters := [];
        }
      }
    }

    /** The locked half of WaitEmpty: the channel to wait on, if any call is counted. */
    method ParkLocked() returns (ch: Option<nat>)
      modifies this
      ensures View() == Next(old(View()), Park)
      ensures ch.None? <==> old(activeCalls) == 0
      ensures ch.Some? ==> emptyWaiters == old(emptyWaiters) + [ch.value]
    {
      if activeCalls == 0 {
        return None;
      }
      ch := Some(nextWaiter);
      emptyWaiters := emptyWaiters + [nextWaiter];
      nextWaiter := nextWaiter + 1;
    }
  }
}
