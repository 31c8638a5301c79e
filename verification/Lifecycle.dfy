/**
 Call set-up and teardown (the resource steps of internal/sip/sip_handler.go and
 internal/call/active_call.go): INVITE, ACK, BYE, CANCEL, media timeout, agent bye and a
 failed 200 OK, interleaved over any number of calls with distinct Call-IDs.
 */
module Lifecycle {
  import opened Bytes
  import opened Results

  datatype Hook = OnConnected | OnDisconnected | OnFinished

  /** A call from the moment its port is taken. */
  datatype Stage = Setup | Aborted | Active

  /**
   `ending` is an EndCall past its lock with the hook still to fire, `shutdowns` the Shutdown
   calls not yet at their once, `finishing` the once body about to run OnFinished. The counters
   say how often each hook fired and the port was released, `hooks` in which order.
   */
  datatype Call = Call(
    port: int, stage: Stage, started: bool, callEnded: bool, ending: bool, shutdowns: nat,
    closeStarted: bool, finishing: bool, registered: bool,
    connected: nat, disconnected: nat, finished: nat, released: nat, hooks: seq<Hook>)

  datatype State = State(calls: seq<Call>, ports: set<int>)

  const EMPTY := State([], {})

  datatype Action =
    | Allocate(port: int)
    | Abort(c: nat)
    | Register(c: nat)
    | RespondFails(c: nat)
    | Ack(c: nat)
    | End(c: nat)
    | FireDisconnected(c: nat)
    | EnterShutdown(c: nat)
    | ReleasePort(c: nat)
    | RemoveCall(c: nat)

  function NewCall(port: int): (c: Call) {
    Call(port, Setup, false, false, false, 0, false, false, false, 0, 0, 0, 0, [])
  }

  /** Which steps can happen: handlers act on calls that were registered; the allocator never hands out a port in use. */
  predicate Enabled(s: State, a: Action) {
    match a
    case Allocate(port) => port !in s.ports
    case Abort(c) => c < |s.calls| && s.calls[c].stage.Setup?
    case Register(c) => c < |s.calls| && s.calls[c].stage.Setup?
    case RespondFails(c) => c < |s.calls| && s.calls[c].stage.Active?
    case Ack(c) => c < |s.calls| && s.calls[c].stage.Active?
    case End(c) => c < |s.calls| && s.calls[c].stage.Active?
    case FireDisconnected(c) => c < |s.calls| && s.calls[c].ending
    case EnterShutdown(c) => c < |s.calls| && s.calls[c].shutdowns > 0
    case ReleasePort(c) => c < |s.calls| && s.calls[c].finishing
    case RemoveCall(c) => c < |s.calls| && s.calls[c].released > 0 && s.calls[c].registered
  }

  /** What a step does to the call it names. */
  function CallStep(c: Call, a: Action): (r: Call) {
    match a
    case Abort(_) => c.(stage := Aborted, released := c.released + 1)
    case Register(_) => c.(stage := Active, registered := true)
    case RespondFails(_) => c.(shutdowns := c.shutdowns + 1)
    case Ack(_) => if c.started then c else c.(started := true, connected := c.connected + 1, hooks := c.hooks + [OnConnected])
    case End(_) => if c.callEnded then c else c.(callEnded := true, ending := true)
    case FireDisconnected(_) => c.(ending := false, disconnected := c.disconnected + 1, shutdowns := c.shutdowns + 1, hooks := c.hooks + [OnDisconnected])
    case EnterShutdown(_) =>
      var entered := c.(shutdowns := if c.shutdowns > 0 then c.shutdowns - 1 else 0);
      if c.closeStarted then entered else entered.(closeStarted := true, finishing := true)
    case ReleasePort(_) => c.(finishing := false, finished := c.finished + 1, released := c.released + 1, hooks := c.hooks + [OnFinished])
    case RemoveCall(_) => c.(registered := false)
    case Allocate(_) => c
  }

  /** Which port the step frees in the allocator. */
  function Freed(s: State, a: Action): (p: set<int>)
    requires Enabled(s, a)
  {
    match a
    case Abort(c) => {s.calls[c].port}
    case ReleasePort(c) => {s.calls[c].port}
    case _ => {}
  }

  function Next(s: State, a: Action): (r: State) {
    if !Enabled(s, a) then s
    else if a.Allocate? then State(s.calls + [NewCall(a.port)], s.ports + {a.port})
    else State(s.calls[a.c := CallStep(s.calls[a.c], a)], s.ports - Freed(s, a))
  }

  /** The call holds its port. */
  predicate Holds(c: Call) {
    c.released == 0
  }

  /** The list of hooks agrees with the counters. */
  ghost predicate HooksCounted(c: Call) {
    && (OnConnected in c.hooks <==> c.connected > 0)
    && (OnDisconnected in c.hooks <==> c.disconnected > 0)
    && (OnFinished in c.hooks <==> c.finished > 0)
  }

  /** Everything that happens to a call happens once. */
  ghost predicate CallSound(c: Call) {
    OnceEach(c) && HooksCounted(c)
  }

  ghost predicate OnceEach(c: Call) {
    && c.connected == (if c.started then 1 else 0)
    && c.disconnected + (if c.ending then 1 else 0) == (if c.callEnded then 1 else 0)
    && c.finished + (if c.finishing then 1 else 0) == (if c.closeStarted then 1 else 0)
    && c.released == c.finished + (if c.stage.Aborted? then 1 else 0)
    && (!c.stage.Active? ==> !c.started && !c.callEnded && !c.closeStarted && c.shutdowns == 0 && !c.registered)
    && (c.stage.Active? && !c.registered ==> c.released == 1)
    && (c.disconnected == 1 ==> c.shutdowns > 0 || c.closeStarted)
  }

  ghost predicate Sound(s: State) {
    && (forall c :: 0 <= c < |s.calls| ==> CallSound(s.calls[c]))
    && (forall c :: 0 <= c < |s.calls| && Holds(s.calls[c]) ==> s.calls[c].port in s.ports)
    && (forall c, d :: 0 <= c < d < |s.calls| && Holds(s.calls[c]) && Holds(s.calls[d]) ==> s.calls[c].port != s.calls[d].port)
    && (forall p :: p in s.ports ==> exists c :: 0 <= c < |s.calls| && Holds(s.calls[c]) && s.calls[c].port == p)
  }

  lemma HooksStep(c: Call, a: Action)
    requires HooksCounted(c)
    ensures HooksCounted(CallStep(c, a))
  {
    match a
    case Ack(_) => HookAdded(c.hooks, OnConnected);
    case FireDisconnected(_) => HookAdded(c.hooks, OnDisconnected);
    case ReleasePort(_) => HookAdded(c.hooks, OnFinished);
    case _ =>
  }

  lemma HookAdded(hooks: seq<Hook>, h: Hook)
    ensures forall g :: g in hooks + [h] <==> g in hooks || g == h
  {
  }

  lemma OnceStep(c: Call, a: Action)
    requires OnceEach(c) && !a.Allocate?
    requires a.Abort? || a.Register? ==> c.stage.Setup?
    requires a.RespondFails? || a.Ack? || a.End? ==> c.stage.Active?
    requires a.FireDisconnected? ==> c.ending
    requires a.EnterShutdown? ==> c.shutdowns > 0
    requires a.ReleasePort? ==> c.finishing
    requires a.RemoveCall? ==> c.released > 0 && c.registered
    ensures OnceEach(CallStep(c, a))
    ensures Holds(CallStep(c, a)) <==> Holds(c) && !a.Abort? && !a.ReleasePort?
    ensures a.Abort? || a.ReleasePort? ==> Holds(c)
  {
  }

  lemma CallStepSound(s: State, a: Action)
    requires Enabled(s, a) && !a.Allocate? && CallSound(s.calls[a.c])
    ensures CallSound(CallStep(s.calls[a.c], a))
    ensures Holds(CallStep(s.calls[a.c], a)) <==> Holds(s.calls[a.c]) && !a.Abort? && !a.ReleasePort?
    ensures a.Abort? || a.ReleasePort? ==> Holds(s.calls[a.c])
  {
    HooksStep(s.calls[a.c], a);
    OnceStep(s.calls[a.c], a);
  }

  lemma NextSound(s: State, a: Action)
    requires Sound(s)
    ensures Sound(Next(s, a))
  {
    if !Enabled(s, a) {
    } else if a.Allocate? {
      AllocateSound(s, a.port);
    } else {
      StepSound(s, a);
    }
  }

  lemma NewCallSound(port: int)
    ensures CallSound(NewCall(port)) && Holds(NewCall(port))
  {
  }

  lemma AllocateSound(s: State, port: int)
    requires Sound(s) && port !in s.ports
    ensures Sound(Next(s, Allocate(port)))
  {
    var r := Next(s, Allocate(port));
    NewCallSound(port);
    forall c | 0 <= c < |r.calls|
      ensures CallSound(r.calls[c]) && (Holds(r.calls[c]) ==> r.calls[c].port in r.ports)
    {
      assert r.calls[c] == if c < |s.calls| then s.calls[c] else NewCall(port);
    }
    forall p | p in r.ports
      ensures exists c :: 0 <= c < |r.calls| && Holds(r.calls[c]) && r.calls[c].port == p
    {
      HeldAfterAllocate(s, port, p);
    }
  }

  lemma HeldAfterAllocate(s: State, port: int, p: int)
    requires Sound(s) && port !in s.ports && p in Next(s, Allocate(port)).ports
    ensures var r := Next(s, Allocate(port)); exists c :: 0 <= c < |r.calls| && Holds(r.calls[c]) && r.calls[c].port == p
  {
    var r := Next(s, Allocate(port));
    if p == port {
      assert Holds(r.calls[|s.calls|]) && r.calls[|s.calls|].port == p;
    } else {
      var c :| 0 <= c < |s.calls| && Holds(s.calls[c]) && s.calls[c].port == p;
      assert r.calls[c] == s.calls[c];
    }
  }

  lemma StepSound(s: State, a: Action)
    requires Sound(s) && Enabled(s, a) && !a.Allocate?
    ensures Sound(Next(s, a))
  {
    var r := Next(s, a);
    CallStepSound(s, a);
    forall c | 0 <= c < |r.calls|
      ensures CallSound(r.calls[c]) && r.calls[c].port == s.calls[c].port
      ensures Holds(r.calls[c]) ==> Holds(s.calls[c]) && r.calls[c].port in r.ports
    {
      if c != a.c { assert r.calls[c] == s.calls[c]; }
    }
    forall p | p in r.ports
      ensures exists c :: 0 <= c < |r.calls| && Holds(r.calls[c]) && r.calls[c].port == p
    {
      StillHeld(s, a, p);
    }
  }

  /** A port that stays in use keeps its holder. */
  lemma StillHeld(s: State, a: Action, p: int)
    requires Sound(s) && Enabled(s, a) && !a.Allocate? && p in Next(s, a).ports
    ensures var r := Next(s, a); exists c :: 0 <= c < |r.calls| && Holds(r.calls[c]) && r.calls[c].port == p
  {
    CallStepSound(s, a);
    var c :| 0 <= c < |s.calls| && Holds(s.calls[c]) && s.calls[c].port == p;
    assert Holds(Next(s, a).calls[c]);
  }

  function Run(actions: seq<Action>): (s: State) {
    if actions == [] then EMPTY else Next(Run(actions[..|actions| - 1]), actions[|actions| - 1])
  }

  lemma {:induction false} RunSound(actions: seq<Action>)
    ensures Sound(Run(actions))
  {
    if actions != [] {
      RunSound(actions[..|actions| - 1]);
      NextSound(Run(actions[..|actions| - 1]), actions[|actions| - 1]);
    }
  }

  /**
   In every interleaving each call's connected, disconnected and finished hooks fire at most
   once and its port is released at most once; two calls never hold the same port; and the
   ports in use are exactly those of the calls in set-up or set up and not yet released.
   */
  lemma OnceOnly(actions: seq<Action>)
    ensures var s := Run(actions);
            && (forall c :: 0 <= c < |s.calls| ==>
                  && s.calls[c].connected <= 1 && s.calls[c].disconnected <= 1
                  && s.calls[c].finished <= 1 && s.calls[c].released <= 1)
            && (forall c, d :: 0 <= c < d < |s.calls| && Holds(s.calls[c]) && Holds(s.calls[d]) ==> s.calls[c].port != s.calls[d].port)
            && (forall p :: p in s.ports <==> exists c :: 0 <= c < |s.calls| && Holds(s.calls[c]) && s.calls[c].port == p)
  {
    RunSound(actions);
    var s := Run(actions);
    forall c | 0 <= c < |s.calls|
      ensures s.calls[c].connected <= 1 && s.calls[c].disconnected <= 1 && s.calls[c].finished <= 1 && s.calls[c].released <= 1
    {
      assert CallSound(s.calls[c]);
    }
  }

  /** Nothing of the call's teardown is still to run. */
  predicate Quiet(c: Call) {
    !c.ending && c.shutdowns == 0 && !c.finishing
  }

  /** An ended call whose teardown has run to completion has told its peer and given its port back. */
  lemma EndedIsReleased(actions: seq<Action>, c: nat)
    requires c < |Run(actions).calls|
    requires Run(actions).calls[c].callEnded && Quiet(Run(actions).calls[c])
    ensures var call := Run(actions).calls[c];
            && call.disconnected == 1 && call.finished == 1 && call.released == 1
            && forall d :: 0 <= d < |Run(actions).calls| && Holds(Run(actions).calls[d]) ==> d != c
  {
    RunSound(actions);
    assert CallSound(Run(actions).calls[c]);
  }

  // ---- the order of the hooks ----

  function Rank(h: Hook): (r: nat) {
    match h
    case OnConnected => 0
    case OnDisconnected => 1
    case OnFinished => 2
  }

  /** Connected before disconnected before finished, as far as they fired. */
  ghost predicate InOrder(hooks: seq<Hook>) {
    forall i, j :: 0 <= i < j < |hooks| ==> Rank(hooks[i]) < Rank(hooks[j])
  }

  /** A first ACK handled after another hook, or a disconnect told after the call has finished. */
  predicate Late(s: State, a: Action, c: nat) {
    && c < |s.calls| && Enabled(s, a)
    && ((a == Ack(c) && !s.calls[c].started && s.calls[c].hooks != [])
        || (a == FireDisconnected(c) && OnFinished in s.calls[c].hooks))
  }

  lemma AppendInOrder(hooks: seq<Hook>, h: Hook)
    ensures InOrder(hooks + [h]) <==> InOrder(hooks) && forall g :: g in hooks ==> Rank(g) < Rank(h)
  {
    var all := hooks + [h];
    if InOrder(all) {
      assert all[|hooks|] == h;
      forall i, j | 0 <= i < j < |hooks|
        ensures Rank(hooks[i]) < Rank(hooks[j])
      {
        assert all[i] == hooks[i] && all[j] == hooks[j];
      }
      forall g | g in hooks
        ensures Rank(g) < Rank(h)
      {
        var i :| 0 <= i < |hooks| && hooks[i] == g;
        assert all[i] == g;
      }
    }
  }

  /** Before the first ACK nothing of rank below the other hooks may have fired. */
  lemma AckOrder(hooks: seq<Hook>)
    ensures InOrder(hooks + [OnConnected]) <==> hooks == []
  {
    AppendInOrder(hooks, OnConnected);
    if hooks != [] { assert hooks[0] in hooks; }
  }

  lemma DisconnectOrder(hooks: seq<Hook>)
    requires OnDisconnected !in hooks
    ensures InOrder(hooks + [OnDisconnected]) <==> InOrder(hooks) && OnFinished !in hooks
  {
    AppendInOrder(hooks, OnDisconnected);
    assert forall g :: g in hooks ==> g.OnConnected? || g.OnFinished?;
  }

  lemma FinishOrder(hooks: seq<Hook>)
    requires OnFinished !in hooks
    ensures InOrder(hooks + [OnFinished]) <==> InOrder(hooks)
  {
    AppendInOrder(hooks, OnFinished);
    assert forall g :: g in hooks ==> Rank(g) < 2;
  }

  /** Only a late step breaks the order. */
  lemma CallOrder(c: Call, a: Action)
    requires CallSound(c)
    requires a.FireDisconnected? ==> c.ending
    requires a.ReleasePort? ==> c.finishing
    ensures InOrder(CallStep(c, a).hooks) <==>
            InOrder(c.hooks) && !(a.Ack? && !c.started && c.hooks != []) && !(a.FireDisconnected? && OnFinished in c.hooks)
  {
    match a
    case Ack(_) => AckOrder(c.hooks);
    case FireDisconnected(_) => DisconnectOrder(c.hooks);
    case ReleasePort(_) => FinishOrder(c.hooks);
    case _ =>
  }

  /** A step changes the call it names and no other. */
  lemma CallAfter(s: State, a: Action, c: nat)
    requires c < |s.calls|
    ensures c < |Next(s, a).calls|
    ensures Next(s, a).calls[c] == if Enabled(s, a) && !a.Allocate? && a.c == c then CallStep(s.calls[c], a) else s.calls[c]
  {
  }

  lemma OrderStep(s: State, a: Action, c: nat)
    requires Sound(s) && c < |s.calls|
    ensures c < |Next(s, a).calls|
    ensures InOrder(Next(s, a).calls[c].hooks) <==> InOrder(s.calls[c].hooks) && !Late(s, a, c)
  {
    CallAfter(s, a, c);
    assert CallSound(s.calls[c]);
    if Enabled(s, a) && !a.Allocate? && a.c == c {
      CallOrder(s.calls[c], a);
    }
  }

  /** No step of the run is late for the call. */
  ghost predicate NeverLate(actions: seq<Action>, c: nat) {
    forall k :: 0 <= k < |actions| ==> !Late(Run(actions[..k]), actions[k], c)
  }

  lemma NeverLateSnoc(actions: seq<Action>, c: nat)
    requires actions != []
    ensures var n := |actions| - 1; NeverLate(actions, c) <==> NeverLate(actions[..n], c) && !Late(Run(actions[..n]), actions[n], c)
  {
    var n := |actions| - 1;
    forall k | 0 <= k < n
      ensures actions[..n][..k] == actions[..k] && actions[..n][k] == actions[k]
    {
    }
    assert actions[..n] == actions[..|actions| - 1];
  }

  lemma {:induction false} OrderIfNeverLate(actions: seq<Action>, c: nat)
    requires c < |Run(actions).calls|
    ensures InOrder(Run(actions).calls[c].hooks) <==> NeverLate(actions, c)
  {
    var n := |actions| - 1;
    var s := Run(actions[..n]);
    NeverLateSnoc(actions, c);
    RunSound(actions[..n]);
    if c < |s.calls| {
      OrderIfNeverLate(actions[..n], c);
      OrderStep(s, actions[n], c);
    } else {
      NeverLateBefore(actions[..n], c);
      assert Run(actions).calls[c].hooks == [];
    }
  }

  lemma CallsGrow(s: State, a: Action)
    ensures |s.calls| <= |Next(s, a).calls| <= |s.calls| + 1
  {
  }

  /** Nothing is late for a call that does not exist yet. */
  lemma {:induction false} NeverLateBefore(actions: seq<Action>, c: nat)
    requires c >= |Run(actions).calls|
    ensures NeverLate(actions, c)
  {
    if actions != [] {
      var n := |actions| - 1;
      CallsGrow(Run(actions[..n]), actions[n]);
      NeverLateBefore(actions[..n], c);
      NeverLateSnoc(actions, c);
    }
  }

  // ---- the order of the hooks, from the order of the actions ----

  /** The k-th step of the run is this action, and takes effect. */
  predicate Happens(actions: seq<Action>, k: nat, a: Action) {
    k < |actions| && actions[k] == a && Enabled(Run(actions[..k]), a)
  }

  /** It happens in the first n steps. */
  ghost predicate Happened(actions: seq<Action>, n: nat, a: Action) {
    exists k: nat :: k < n && Happens(actions, k, a)
  }

  lemma HappenedSnoc(actions: seq<Action>, n: nat, a: Action)
    ensures Happened(actions, n + 1, a) <==> Happened(actions, n, a) || Happens(actions, n, a)
  {
    if Happened(actions, n + 1, a) {
      var k: nat :| k < n + 1 && Happens(actions, k, a);
    }
    if Happened(actions, n, a) {
      var k: nat :| k < n && Happens(actions, k, a);
      assert k < n + 1 && Happens(actions, k, a);
    }
    if Happens(actions, n, a) {
      assert n < n + 1 && Happens(actions, n, a);
    }
  }

  lemma RunPrefix(actions: seq<Action>, n: nat)
    requires n < |actions|
    ensures Run(actions[..n + 1]) == Next(Run(actions[..n]), actions[n])
  {
    assert actions[..n + 1][..n] == actions[..n];
  }

  /** Steps on a call happen only once it exists. */
  lemma {:induction false} NotYet(actions: seq<Action>, n: nat, a: Action, c: nat)
    requires n <= |actions| && c >= |Run(actions[..n]).calls|
    requires a == Ack(c) || a == FireDisconnected(c) || a == ReleasePort(c)
    ensures !Happened(actions, n, a)
  {
    if n > 0 {
      RunPrefix(actions, n - 1);
      CallsGrow(Run(actions[..n - 1]), actions[n - 1]);
      NotYet(actions, n - 1, a, c);
      HappenedSnoc(actions, n - 1, a);
    }
  }

  /** The step that fires the hook. */
  function Firing(h: Hook, c: nat): (a: Action) {
    match h
    case OnConnected => Ack(c)
    case OnDisconnected => FireDisconnected(c)
    case OnFinished => ReleasePort(c)
  }

  /** A step adds its own hook, the ACK only the first time. */
  lemma CallHook(c: Call, a: Action)
    ensures CallStep(c, a).hooks ==
            match a
            case Ack(_) => if c.started then c.hooks else c.hooks + [OnConnected]
            case FireDisconnected(_) => c.hooks + [OnDisconnected]
            case ReleasePort(_) => c.hooks + [OnFinished]
            case _ => c.hooks
  {
  }

  lemma HookStep(c: Call, a: Action, h: Hook, i: nat)
    requires c.started ==> OnConnected in c.hooks
    requires !a.Allocate? && a.c == i
    ensures h in CallStep(c, a).hooks <==> h in c.hooks || a == Firing(h, i)
  {
    CallHook(c, a);
    HookAdded(c.hooks, OnConnected);
    HookAdded(c.hooks, OnDisconnected);
    HookAdded(c.hooks, OnFinished);
  }

  lemma NextHook(s: State, a: Action, h: Hook, c: nat)
    requires Sound(s) && c < |s.calls|
    ensures c < |Next(s, a).calls|
    ensures h in Next(s, a).calls[c].hooks <==> h in s.calls[c].hooks || (a == Firing(h, c) && Enabled(s, a))
  {
    CallAfter(s, a, c);
    assert CallSound(s.calls[c]);
    if Enabled(s, a) && !a.Allocate? && a.c == c {
      HookStep(s.calls[c], a, h, c);
    }
  }

  /** A hook has fired exactly when its step has happened. */
  lemma {:induction false} FiredIsHappened(actions: seq<Action>, n: nat, h: Hook, c: nat)
    requires n <= |actions| && c < |Run(actions[..n]).calls|
    ensures h in Run(actions[..n]).calls[c].hooks <==> Happened(actions, n, Firing(h, c))
  {
    assert n > 0;
    var s, a := Run(actions[..n - 1]), actions[n - 1];
    RunPrefix(actions, n - 1);
    HappenedSnoc(actions, n - 1, Firing(h, c));
    if c < |s.calls| {
      FiredIsHappened(actions, n - 1, h, c);
      RunSound(actions[..n - 1]);
      NextHook(s, a, h, c);
    } else {
      NotYet(actions, n - 1, Firing(h, c), c);
      NewCallHooks(s, a, c);
    }
  }

  /** A call just added has fired no hook. */
  lemma NewCallHooks(s: State, a: Action, c: nat)
    requires |s.calls| <= c < |Next(s, a).calls|
    ensures a.Allocate? && Next(s, a).calls[c].hooks == []
  {
  }

  /** The call's peer is told, or its port released, at step j. */
  predicate TornDown(actions: seq<Action>, j: nat, c: nat) {
    Happens(actions, j, FireDisconnected(c)) || Happens(actions, j, ReleasePort(c))
  }

  /** A disconnect or a release that happens before some ACK has an ACK before it. */
  ghost predicate AckFirst(actions: seq<Action>, c: nat) {
    forall j: nat, k: nat :: j < k && TornDown(actions, j, c) && Happens(actions, k, Ack(c)) ==> Happened(actions, j, Ack(c))
  }

  /** No disconnect happens after the release. */
  ghost predicate ToldBeforeFinished(actions: seq<Action>, c: nat) {
    forall j: nat, k: nat :: j < k && Happens(actions, j, ReleasePort(c)) ==> !Happens(actions, k, FireDisconnected(c))
  }

  /** Before the first ACK, hooks have fired exactly when a disconnect or a finish has. */
  lemma NotStartedHooks(c: Call)
    requires CallSound(c)
    ensures c.started <==> OnConnected in c.hooks
    ensures !c.started ==> (c.hooks != [] <==> OnDisconnected in c.hooks || OnFinished in c.hooks)
  {
    if c.hooks != [] {
      assert c.hooks[0] in c.hooks;
      assert c.hooks[0].OnConnected? || c.hooks[0].OnDisconnected? || c.hooks[0].OnFinished?;
    }
  }

  /** What makes a step late, in terms of the steps before it. */
  lemma LateMeans(actions: seq<Action>, k: nat, c: nat)
    requires k < |actions|
    ensures Late(Run(actions[..k]), actions[k], c) <==>
            || (Happens(actions, k, Ack(c)) && !Happened(actions, k, Ack(c))
                && (Happened(actions, k, FireDisconnected(c)) || Happened(actions, k, ReleasePort(c))))
            || (Happens(actions, k, FireDisconnected(c)) && Happened(actions, k, ReleasePort(c)))
  {
    var s := Run(actions[..k]);
    if c < |s.calls| {
      FiredIsHappened(actions, k, OnConnected, c);
      FiredIsHappened(actions, k, OnDisconnected, c);
      FiredIsHappened(actions, k, OnFinished, c);
      RunSound(actions[..k]);
      assert CallSound(s.calls[c]);
      NotStartedHooks(s.calls[c]);
    }
  }

  /** The first time an action happens. */
  lemma FirstTime(actions: seq<Action>, k: nat, a: Action) returns (i: nat)
    requires Happens(actions, k, a)
    ensures i <= k && Happens(actions, i, a) && !Happened(actions, i, a)
    decreases k
  {
    if Happened(actions, k, a) {
      var j: nat :| j < k && Happens(actions, j, a);
      i := FirstTime(actions, j, a);
    } else {
      i := k;
    }
  }

  lemma AckFirstIfNeverLate(actions: seq<Action>, c: nat, j: nat, k: nat)
    requires NeverLate(actions, c) && j < k && TornDown(actions, j, c) && Happens(actions, k, Ack(c))
    ensures Happened(actions, j, Ack(c))
  {
    var i := FirstTime(actions, k, Ack(c));
    assert i != j;
    if i > j {
      LateMeans(actions, i, c);
    }
  }

  lemma ToldIfNeverLate(actions: seq<Action>, c: nat, j: nat, k: nat)
    requires NeverLate(actions, c) && j < k && Happens(actions, j, ReleasePort(c))
    ensures !Happens(actions, k, FireDisconnected(c))
  {
    if k < |actions| {
      LateMeans(actions, k, c);
    }
  }

  lemma NotLateIfFirst(actions: seq<Action>, c: nat, k: nat)
    requires AckFirst(actions, c) && ToldBeforeFinished(actions, c) && k < |actions|
    ensures !Late(Run(actions[..k]), actions[k], c)
  {
    LateMeans(actions, k, c);
    if Happened(actions, k, ReleasePort(c)) {
      var j: nat :| j < k && Happens(actions, j, ReleasePort(c));
      TornDownEarlier(actions, c, j, k);
    }
    if Happened(actions, k, FireDisconnected(c)) {
      var j: nat :| j < k && Happens(actions, j, FireDisconnected(c));
      TornDownEarlier(actions, c, j, k);
    }
  }

  lemma TornDownEarlier(actions: seq<Action>, c: nat, j: nat, k: nat)
    requires AckFirst(actions, c) && j < k && TornDown(actions, j, c)
    ensures Happens(actions, k, Ack(c)) ==> Happened(actions, k, Ack(c))
  {
    if Happens(actions, k, Ack(c)) {
      assert Happened(actions, j, Ack(c));
    }
  }

  lemma NeverLateMeans(actions: seq<Action>, c: nat)
    ensures NeverLate(actions, c) <==> AckFirst(actions, c) && ToldBeforeFinished(actions, c)
  {
    if NeverLate(actions, c) {
      forall j: nat, k: nat | j < k && TornDown(actions, j, c) && Happens(actions, k, Ack(c))
        ensures Happened(actions, j, Ack(c))
      {
        AckFirstIfNeverLate(actions, c, j, k);
      }
      forall j: nat, k: nat | j < k && Happens(actions, j, ReleasePort(c))
        ensures !Happens(actions, k, FireDisconnected(c))
      {
        ToldIfNeverLate(actions, c, j, k);
      }
    }
    if AckFirst(actions, c) && ToldBeforeFinished(actions, c) {
      forall k: nat | k < |actions|
        ensures !Late(Run(actions[..k]), actions[k], c)
      {
        NotLateIfFirst(actions, c, k);
      }
    }
  }

  /**
   In every interleaving a call's hooks fire in order if and only if the first ACK comes before
   the disconnect and the release, and no disconnect comes after the release.
   */
  lemma HookOrder(actions: seq<Action>, c: nat)
    requires c < |Run(actions).calls|
    ensures InOrder(Run(actions).calls[c].hooks) <==> AckFirst(actions, c) && ToldBeforeFinished(actions, c)
  {
    OrderIfNeverLate(actions, c);
    NeverLateMeans(actions, c);
  }

  // ---- the call, from what has happened ----

  /** Steps that leave their mark on the call for good. */
  predicate Marking(a: Action) {
    a.Abort? || a.Register? || a.Ack? || a.End? || a.FireDisconnected? || a.EnterShutdown? || a.ReleasePort? || a.RemoveCall?
  }

  predicate Marked(c: Call, a: Action)
    requires Marking(a)
  {
    match a
    case Abort(_) => c.stage.Aborted?
    case Register(_) => c.stage.Active?
    case Ack(_) => c.connected > 0
    case End(_) => c.callEnded
    case FireDisconnected(_) => c.disconnected > 0
    case EnterShutdown(_) => c.closeStarted
    case ReleasePort(_) => c.finished > 0
    case RemoveCall(_) => c.stage.Active? && !c.registered
  }

  /** A shutdown has been asked for, or has begun. */
  predicate Asked(c: Call) {
    c.shutdowns > 0 || c.closeStarted
  }

  lemma MarkStep(s: State, a: Action, m: Action)
    requires Enabled(s, a) && !a.Allocate? && OnceEach(s.calls[a.c]) && Marking(m) && m.c == a.c
    ensures Marked(CallStep(s.calls[a.c], a), m) <==> Marked(s.calls[a.c], m) || a == m
  {
  }

  lemma AskStep(s: State, a: Action)
    requires Enabled(s, a) && !a.Allocate?
    ensures Asked(CallStep(s.calls[a.c], a)) <==> Asked(s.calls[a.c]) || a.RespondFails? || a.FireDisconnected?
  {
  }

  lemma NextMark(s: State, a: Action, m: Action, c: nat)
    requires Sound(s) && c < |s.calls| && Marking(m) && m.c == c
    ensures c < |Next(s, a).calls|
    ensures Marked(Next(s, a).calls[c], m) <==> Marked(s.calls[c], m) || (a == m && Enabled(s, a))
    ensures Asked(Next(s, a).calls[c])
       <==> Asked(s.calls[c]) || ((a == RespondFails(c) || a == FireDisconnected(c)) && Enabled(s, a))
  {
    CallAfter(s, a, c);
    assert CallSound(s.calls[c]);
    if Enabled(s, a) && !a.Allocate? && a.c == c {
      MarkStep(s, a, m);
      AskStep(s, a);
    }
  }

  lemma NewCallUnmarked(s: State, a: Action, m: Action, c: nat)
    requires |s.calls| <= c < |Next(s, a).calls| && Marking(m)
    ensures a.Allocate? && !Marked(Next(s, a).calls[c], m) && !Asked(Next(s, a).calls[c])
  {
  }

  /** Steps on a call happen only once it exists. */
  lemma {:induction false} NoneYet(actions: seq<Action>, n: nat, a: Action, c: nat)
    requires n <= |actions| && c >= |Run(actions[..n]).calls| && !a.Allocate? && a.c == c
    ensures !Happened(actions, n, a)
  {
    if n > 0 {
      RunPrefix(actions, n - 1);
      CallsGrow(Run(actions[..n - 1]), actions[n - 1]);
      NoneYet(actions, n - 1, a, c);
      HappenedSnoc(actions, n - 1, a);
    }
  }

  lemma {:induction false} MarkedIsHappened(actions: seq<Action>, n: nat, m: Action, c: nat)
    requires n <= |actions| && c < |Run(actions[..n]).calls| && Marking(m) && m.c == c
    ensures Marked(Run(actions[..n]).calls[c], m) <==> Happened(actions, n, m)
  {
    if n > 0 {
      if c < |Run(actions[..n - 1]).calls| { MarkedIsHappened(actions, n - 1, m, c); }
      MarkSnoc(actions, n - 1, m, c);
    }
  }

  lemma MarkSnoc(actions: seq<Action>, n: nat, m: Action, c: nat)
    requires n < |actions| && c < |Run(actions[..n + 1]).calls| && Marking(m) && m.c == c
    requires c < |Run(actions[..n]).calls| ==> (Marked(Run(actions[..n]).calls[c], m) <==> Happened(actions, n, m))
    ensures Marked(Run(actions[..n + 1]).calls[c], m) <==> Happened(actions, n + 1, m)
  {
    var s := Run(actions[..n]);
    RunPrefix(actions, n);
    HappenedSnoc(actions, n, m);
    if c < |s.calls| {
      RunSound(actions[..n]);
      NextMark(s, actions[n], m, c);
    } else {
      NoneYet(actions, n, m, c);
      NewCallUnmarked(s, actions[n], m, c);
    }
  }

  lemma {:induction false} AskedIsHappened(actions: seq<Action>, n: nat, c: nat)
    requires n <= |actions| && c < |Run(actions[..n]).calls|
    ensures Asked(Run(actions[..n]).calls[c])
       <==> Happened(actions, n, RespondFails(c)) || Happened(actions, n, FireDisconnected(c))
  {
    if n > 0 {
      if c < |Run(actions[..n - 1]).calls| { AskedIsHappened(actions, n - 1, c); }
      AskSnoc(actions, n - 1, c);
    }
  }

  lemma AskSnoc(actions: seq<Action>, n: nat, c: nat)
    requires n < |actions| && c < |Run(actions[..n + 1]).calls|
    requires c < |Run(actions[..n]).calls| ==>
               (Asked(Run(actions[..n]).calls[c])
                <==> Happened(actions, n, RespondFails(c)) || Happened(actions, n, FireDisconnected(c)))
    ensures Asked(Run(actions[..n + 1]).calls[c])
       <==> Happened(actions, n + 1, RespondFails(c)) || Happened(actions, n + 1, FireDisconnected(c))
  {
    var s := Run(actions[..n]);
    RunPrefix(actions, n);
    HappenedSnoc(actions, n, RespondFails(c));
    HappenedSnoc(actions, n, FireDisconnected(c));
    if c < |s.calls| {
      RunSound(actions[..n]);
      NextMark(s, actions[n], Ack(c), c);
    } else {
      NoneYet(actions, n, RespondFails(c), c);
      NoneYet(actions, n, FireDisconnected(c), c);
      NewCallUnmarked(s, actions[n], Ack(c), c);
    }
  }

  /** The step has happened in the whole run. */
  ghost predicate Has(actions: seq<Action>, a: Action) {
    Happened(actions, |actions|, a)
  }

  /**
   The state of a call is what has happened to it: each hook has fired exactly if its step has
   happened, the port is free exactly if the set-up was aborted or the shutdown has released it,
   and a disconnect or a shutdown is under way exactly between its two steps.
   */
  lemma CallIsWhatHappened(actions: seq<Action>, c: nat)
    requires c < |Run(actions).calls|
    ensures var call := Run(actions).calls[c];
            && call.connected == (if Has(actions, Ack(c)) then 1 else 0)
            && call.disconnected == (if Has(actions, FireDisconnected(c)) then 1 else 0)
            && call.finished == (if Has(actions, ReleasePort(c)) then 1 else 0)
            && call.released == (if Has(actions, Abort(c)) || Has(actions, ReleasePort(c)) then 1 else 0)
            && (call.callEnded <==> Has(actions, End(c))) && (call.closeStarted <==> Has(actions, EnterShutdown(c)))
            && (call.ending <==> Has(actions, End(c)) && !Has(actions, FireDisconnected(c)))
            && (call.finishing <==> Has(actions, EnterShutdown(c)) && !Has(actions, ReleasePort(c)))
            && (call.shutdowns > 0 || Has(actions, EnterShutdown(c))
                <==> Has(actions, RespondFails(c)) || Has(actions, FireDisconnected(c)))
            && (call.registered <==> Has(actions, Register(c)) && !Has(actions, RemoveCall(c)))
  {
    var n := |actions|;
    assert actions[..n] == actions;
    RunSound(actions);
    assert CallSound(Run(actions).calls[c]);
    MarkedIsHappened(actions, n, Ack(c), c);
    MarkedIsHappened(actions, n, FireDisconnected(c), c);
    MarkedIsHappened(actions, n, ReleasePort(c), c);
    MarkedIsHappened(actions, n, Abort(c), c);
    MarkedIsHappened(actions, n, End(c), c);
    MarkedIsHappened(actions, n, EnterShutdown(c), c);
    MarkedIsHappened(actions, n, Register(c), c);
    MarkedIsHappened(actions, n, RemoveCall(c), c);
    AskedIsHappened(actions, n, c);
  }

  /**
   Once nothing of its teardown is left to run, a call that was ended, whose 200 OK failed, or
   whose set-up was aborted has given its port back, exactly once; the first two have finished.
   */
  lemma QuietIsReleased(actions: seq<Action>, c: nat)
    requires c < |Run(actions).calls| && Quiet(Run(actions).calls[c])
    ensures var call := Run(actions).calls[c];
            && (Has(actions, End(c)) || Has(actions, RespondFails(c)) ==> call.finished == 1)
            && (Has(actions, End(c)) || Has(actions, RespondFails(c)) || Has(actions, Abort(c)) <==> call.released == 1)
  {
    CallIsWhatHappened(actions, c);
    RunSound(actions);
    QuietMeans(Run(actions).calls[c]);
  }

  lemma QuietMeans(call: Call)
    requires CallSound(call) && Quiet(call)
    ensures call.callEnded <==> call.disconnected == 1
    ensures call.shutdowns == 0 && call.finished <= 1 && (call.finished == 1 <==> call.closeStarted)
  {
  }

  // ---- a teardown can always be run to its end ----

  function Work(c: Call): (n: nat) {
    (if c.ending then 4 else 0) + 2 * c.shutdowns + if c.finishing then 1 else 0
  }

  /** The next step of the call's teardown. */
  function TeardownStep(call: Call, c: nat): (a: Action) {
    if call.ending then FireDisconnected(c) else if call.shutdowns > 0 then EnterShutdown(c) else ReleasePort(c)
  }

  lemma TeardownGoesOn(s: State, c: nat)
    requires Sound(s) && c < |s.calls| && !Quiet(s.calls[c])
    ensures var a := TeardownStep(s.calls[c], c);
            Enabled(s, a) && c < |Next(s, a).calls| && Work(Next(s, a).calls[c]) < Work(s.calls[c])
  {
    CallAfter(s, TeardownStep(s.calls[c], c), c);
  }

  /** From any reachable state some steps of its own teardown, and no others, leave a call with nothing to run. */
  lemma {:induction false} CanFinish(actions: seq<Action>, c: nat) returns (more: seq<Action>)
    requires c < |Run(actions).calls|
    ensures forall a :: a in more ==> a == FireDisconnected(c) || a == EnterShutdown(c) || a == ReleasePort(c)
    ensures c < |Run(actions + more).calls| && Quiet(Run(actions + more).calls[c])
    decreases Work(Run(actions).calls[c])
  {
    var s := Run(actions);
    if Quiet(s.calls[c]) {
      more := [];
      assert actions + more == actions;
    } else {
      var a := TeardownStep(s.calls[c], c);
      RunSound(actions);
      TeardownGoesOn(s, c);
      RunSnoc(actions, a);
      var rest := CanFinish(actions + [a], c);
      more := [a] + rest;
      assert actions + more == actions + [a] + rest;
    }
  }

  /** A call whose 200 OK went through shuts down only after telling its disconnect. */
  ghost predicate ToldFirst(c: Call) {
    c.shutdowns > 0 || c.closeStarted ==> c.disconnected > 0
  }

  lemma ToldStep(c: Call, a: Action)
    requires ToldFirst(c) && !a.RespondFails? && (a.EnterShutdown? ==> c.shutdowns > 0)
    ensures ToldFirst(CallStep(c, a))
  {
  }

  lemma {:induction false} RunToldFirst(actions: seq<Action>, c: nat)
    requires c < |Run(actions).calls| && RespondFails(c) !in actions
    ensures ToldFirst(Run(actions).calls[c])
  {
    var n := |actions| - 1;
    var s, a := Run(actions[..n]), actions[n];
    assert a in actions;
    if c < |s.calls| {
      RunToldFirst(actions[..n], c);
      CallAfter(s, a, c);
      if Enabled(s, a) && !a.Allocate? && a.c == c {
        ToldStep(s.calls[c], a);
      }
    }
  }

  lemma FinishedIsTold(c: Call)
    requires CallSound(c) && ToldFirst(c) && OnFinished in c.hooks
    ensures !c.ending
  {
  }

  lemma NotLateAfterOK(actions: seq<Action>, a: Action, c: nat)
    requires RespondFails(c) !in actions && a != Ack(c)
    ensures !Late(Run(actions), a, c)
  {
    var s := Run(actions);
    if c < |s.calls| && a == FireDisconnected(c) && OnFinished in s.calls[c].hooks {
      RunToldFirst(actions, c);
      RunSound(actions);
      assert CallSound(s.calls[c]);
      FinishedIsTold(s.calls[c]);
    }
  }

  /** A call whose 200 OK went through finishes only after telling its disconnect. */
  lemma ToldAfterOK(actions: seq<Action>, c: nat)
    requires RespondFails(c) !in actions
    ensures ToldBeforeFinished(actions, c)
  {
    forall j: nat, k: nat | j < k && Happens(actions, j, ReleasePort(c))
      ensures !Happens(actions, k, FireDisconnected(c))
    {
      if Happens(actions, k, FireDisconnected(c)) {
        LateMeans(actions, k, c);
        NotLateAfterOK(actions[..k], actions[k], c);
      }
    }
  }

  /**
   So if the 200 OK went through, the order is right if and only if the first ACK comes before
   the disconnect and the release.
   */
  lemma OrderAfterOK(actions: seq<Action>, c: nat)
    requires c < |Run(actions).calls| && RespondFails(c) !in actions
    ensures InOrder(Run(actions).calls[c].hooks) <==> AckFirst(actions, c)
  {
    HookOrder(actions, c);
    ToldAfterOK(actions, c);
  }

  lemma RunSnoc(actions: seq<Action>, a: Action)
    ensures Run(actions + [a]) == Next(Run(actions), a)
  {
    assert (actions + [a])[..|actions|] == actions;
  }

  lemma AllocatedCall()
    ensures Run([] + [Allocate(4000)]).calls == [NewCall(4000)]
  {
    RunSnoc([], Allocate(4000));
  }

  lemma OnlyCall(s: State, a: Action, call: Call)
    requires s.calls == [call] && Enabled(s, a) && !a.Allocate?
    ensures Next(s, a).calls == [CallStep(call, a)]
  {
  }

  lemma EndedCall()
    ensures Run([] + [Allocate(4000)] + [Register(0)] + [End(0)]).calls
         == [CallStep(CallStep(NewCall(4000), Register(0)), End(0))]
  {
    var portTaken := [] + [Allocate(4000)];
    AllocatedCall();
    RunSnoc(portTaken, Register(0));
    OnlyCall(Run(portTaken), Register(0), NewCall(4000));
    RunSnoc(portTaken + [Register(0)], End(0));
    OnlyCall(Run(portTaken + [Register(0)]), End(0), CallStep(NewCall(4000), Register(0)));
  }

  /** An ACK handler that already holds the call fires connected after disconnected. */
  lemma LateAckExample()
    ensures var s := Run([] + [Allocate(4000)] + [Register(0)] + [End(0)] + [FireDisconnected(0)] + [Ack(0)]);
            |s.calls| == 1 && s.calls[0].hooks == [OnDisconnected, OnConnected]
  {
    var ended := [] + [Allocate(4000)] + [Register(0)] + [End(0)];
    var call := CallStep(CallStep(NewCall(4000), Register(0)), End(0));
    EndedCall();
    RunSnoc(ended, FireDisconnected(0));
    OnlyCall(Run(ended), FireDisconnected(0), call);
    RunSnoc(ended + [FireDisconnected(0)], Ack(0));
    OnlyCall(Run(ended + [FireDisconnected(0)]), Ack(0), CallStep(call, FireDisconnected(0)));
  }
}
