/** The RTP port allocator (internal/rtp/rtp_manager.go): a next-fit search over even ports. */
module Ports {
  import opened Bytes
  import opened Results

  // ---- the cyclic range of even ports ----

  datatype Range = Range(portMin: Word16, portMax: Word16)

  predicate ValidRange(r: Range) {
    1024 <= r.portMin < r.portMax
  }

  function FirstEven(r: Range): (p: int) {
    if r.portMin % 2 != 0 then r.portMin + 1 else r.portMin
  }

  function LastEven(r: Range): (p: int) {
    if r.portMax % 2 != 0 then r.portMax - 1 else r.portMax
  }

  function Count(r: Range): (n: int) {
    (LastEven(r) - FirstEven(r)) / 2 + 1
  }

  predicate InRange(r: Range, p: int) {
    FirstEven(r) <= p <= LastEven(r) && p % 2 == 0
  }

  /** The position of an even port in its range. */
  function IndexOf(r: Range, p: int): (i: nat)
    requires ValidRange(r) && InRange(r, p)
    ensures i < Count(r) && FirstEven(r) + i * 2 == p
  {
    (p - FirstEven(r)) / 2
  }

  /** The next even port, round the range. */
  function After(r: Range, p: int): (q: int)
    requires ValidRange(r) && InRange(r, p)
    ensures InRange(r, q)
  {
    if p == LastEven(r) then FirstEven(r) else p + 2
  }

  /** Every valid range holds an even port, and no even port of it overflows sixteen bits. */
  lemma RangeFacts(r: Range)
    requires ValidRange(r)
    ensures FirstEven(r) <= LastEven(r) && Count(r) >= 1
    ensures FirstEven(r) % 2 == 0 && LastEven(r) % 2 == 0
    ensures forall p :: InRange(r, p) ==> 1024 <= p < WORD16
    ensures forall p :: InRange(r, p) <==> p % 2 == 0 && r.portMin <= p <= r.portMax
  {
  }

  /** Steps from port a forward to port b round the range. */
  function Distance(r: Range, a: int, b: int): (d: nat)
    requires ValidRange(r) && InRange(r, a) && InRange(r, b)
    ensures d < Count(r)
  {
    var i, j := IndexOf(r, a), IndexOf(r, b);
    if i <= j then j - i else j - i + Count(r)
  }

  predicate Free(used: set<int>, bindable: set<int>, p: int) {
    p !in used && p in bindable
  }

  /**
   What one allocation may do. It takes the first free and bindable even port at or after
   the cursor, and moves the cursor just past it; it fails exactly when there is none.
   */
  ghost predicate Allocates(r: Range, used: set<int>, next: int, bindable: set<int>, result: Option<int>, next': int)
    requires ValidRange(r) && InRange(r, next)
  {
    match result
    case None => next' == next && forall p :: InRange(r, p) ==> !Free(used, bindable, p)
    case Some(port) =>
      && InRange(r, port) && Free(used, bindable, port)
      && (forall p :: InRange(r, p) && Distance(r, next, p) < Distance(r, next, port) ==> !Free(used, bindable, p))
      && next' == After(r, port)
  }

  /**
   In plain order: the lowest free port from the cursor up, and if there is none the lowest of
   all; the cursor goes to the next even port of the range, or back to its first.
   */
  lemma NextFit(r: Range, used: set<int>, next: int, bindable: set<int>, port: int, next': int)
    requires ValidRange(r) && InRange(r, next) && Allocates(r, used, next, bindable, Some(port), next')
    ensures port % 2 == 0 && r.portMin <= port <= r.portMax && Free(used, bindable, port)
    ensures if port >= next
            then forall p :: next <= p < port && p % 2 == 0 ==> !Free(used, bindable, p)
            else forall p :: (next <= p <= r.portMax || r.portMin <= p < port) && p % 2 == 0 ==> !Free(used, bindable, p)
    ensures if port + 2 <= r.portMax then next' == port + 2 else r.portMin <= next' <= r.portMin + 1 && next' % 2 == 0
  {
    RangeFacts(r);
    forall p | (if port >= next then next <= p < port else next <= p <= r.portMax || r.portMin <= p < port) && p % 2 == 0
      ensures !Free(used, bindable, p)
    {
      assert InRange(r, p);
      assert Distance(r, next, p) < Distance(r, next, port);
    }
  }

  class RtpManager {
    const range: Range
    var ports: set<int>
    var nextPort: int

    predicate Valid()
      reads this
    {
      && ValidRange(range) && InRange(range, nextPort)
      && forall p :: p in ports ==> InRange(range, p)
    }

    constructor (range: Range)
      requires ValidRange(range)
      ensures Valid() && this.range == range && ports == {} && nextPort == FirstEven(range)
    {
      RangeFacts(range);
      this.range := range;
      ports := {};
      nextPort := if range.portMin % 2 != 0 then range.portMin + 1 else range.portMin;
    }

    /** `bindable` are the ports the operating system would let this call bind. */
    method CreateListener(bindable: set<int>) returns (port: Option<int>)
      requires Valid()
      modifies this
      ensures Valid()
      ensures Allocates(range, old(ports), old(nextPort), bindable, port, nextPort)
      ensures ports == old(ports) + if port.Some? then {port.value} else {}
      ensures port.None? <==>
              forall p :: p % 2 == 0 && range.portMin <= p <= range.portMax ==> p in old(ports) || p !in bindable
    {
      // The early return of CreateListener for an empty even range and its reset of a cursor
      // outside it are dead code: RangeFacts and Valid() exclude both.
      RangeFacts(range);
      var numEvenPorts := (LastEven(range) - FirstEven(range)) / 2 + 1;
      var i := 0;
      while i < numEvenPorts
        invariant 0 <= i <= numEvenPorts
        invariant nextPort == old(nextPort) && ports == old(ports)
        invariant NoneFree(range, ports, nextPort, bindable, i)
      {
        var candidate, following := Probe(i);
        if candidate in ports || candidate !in bindable {
          NoneFreeStep(range, ports, nextPort, bindable, candidate);
          i := i + 1;
          continue;
        }
        ports := ports + {candidate};
        nextPort := following;
        return Some(candidate);
      }
      AllTaken(range, ports, nextPort, bindable);
      port := None;
    }

    /** The i-th port of the search, and where the cursor goes if it is taken. */
    method Probe(i: nat) returns (candidate: int, following: int)
      requires ValidRange(range) && InRange(range, nextPort) && i < Count(range)
      ensures InRange(range, candidate) && Distance(range, nextPort, candidate) == i
      ensures following == After(range, candidate)
    {
      var firstEven := FirstEven(range);
      var numEvenPorts := (LastEven(range) - firstEven) / 2 + 1;
      var startOffset := (nextPort - firstEven) / 2;
      var idx := AddModulo(startOffset, i, numEvenPorts);
      candidate := firstEven + idx * 2;
      var next := AddModulo(idx, 1, numEvenPorts);
      following := firstEven + next * 2;
    }

    /** The cyclic addition of the search. */
    method AddModulo(a: nat, b: nat, n: nat) returns (r: nat)
      requires a < n && b <= n
      ensures r < n && r == if a + b < n then a + b else a + b - n
    {
      WrapOnce(a + b, n);
      r := (a + b) % n;
    }

    /** Releasing closes the socket and frees the port; a port that is not live is ignored. */
    method ReleaseListener(port: Option<int>)
      requires Valid()
      modifies this`ports
      ensures Valid()
      ensures ports == old(ports) - if port.Some? then {port.value} else {}
    {
      if port.None? {
        return;
      }
      ports := ports - {port.value};
    }
  }

  /** Invalid ranges are refused; a manager starts with no port in use and its cursor at the first even port. */
  method NewRtpManager(portMin: Word16, portMax: Word16) returns (m: Result<RtpManager>)
    ensures m.Success? <==> ValidRange(Range(portMin, portMax))
    ensures m.Success? ==>
              && m.value.Valid() && m.value.range == Range(portMin, portMax)
              && m.value.ports == {} && m.value.nextPort == FirstEven(m.value.range)
  {
    if portMin < 1024 || portMax < 1024 || portMax <= portMin {
      return Failure;
    }
    var manager := new RtpManager(Range(portMin, portMax));
    m := Success(manager);
  }

  /** None of the first d ports from the cursor can be handed out. */
  ghost predicate NoneFree(r: Range, used: set<int>, next: int, bindable: set<int>, d: nat)
    requires ValidRange(r) && InRange(r, next)
  {
    forall p :: InRange(r, p) && Distance(r, next, p) < d ==> !Free(used, bindable, p)
  }

  lemma AllTaken(r: Range, used: set<int>, next: int, bindable: set<int>)
    requires ValidRange(r) && InRange(r, next) && NoneFree(r, used, next, bindable, Count(r))
    ensures forall p :: p % 2 == 0 && r.portMin <= p <= r.portMax ==> p in used || p !in bindable
  {
    RangeFacts(r);
    forall p | p % 2 == 0 && r.portMin <= p <= r.portMax
      ensures p in used || p !in bindable
    {
      assert InRange(r, p) && Distance(r, next, p) < Count(r);
    }
  }

  lemma NoneFreeStep(r: Range, used: set<int>, next: int, bindable: set<int>, candidate: int)
    requires ValidRange(r) && InRange(r, next) && InRange(r, candidate) && !Free(used, bindable, candidate)
    requires NoneFree(r, used, next, bindable, Distance(r, next, candidate))
    ensures NoneFree(r, used, next, bindable, Distance(r, next, candidate) + 1)
  {
    forall p | InRange(r, p) && Distance(r, next, p) < Distance(r, next, candidate) + 1
      ensures !Free(used, bindable, p)
    {
      if Distance(r, next, p) == Distance(r, next, candidate) {
        DistanceInjective(r, next, p, candidate);
      }
    }
  }

  lemma DistanceInjective(r: Range, next: int, p: int, q: int)
    requires ValidRange(r) && InRange(r, next) && InRange(r, p) && InRange(r, q)
    requires Distance(r, next, p) == Distance(r, next, q)
    ensures p == q
  {
  }

  // ---- runs ----

  datatype Action = Allocate(bindable: set<int>) | Release(port: int)

  /** One step of a run and its outcome. */
  datatype Step = Step(action: Action, used: set<int>, next: int, result: Option<int>, used': set<int>, next': int)

  ghost predicate StepOk(r: Range, s: Step)
    requires ValidRange(r)
  {
    && InRange(r, s.next)
    && match s.action
       case Allocate(bindable) =>
         && Allocates(r, s.used, s.next, bindable, s.result, s.next')
         && s.used' == s.used + if s.result.Some? then {s.result.value} else {}
       case Release(port) =>
         s.result == None && s.used' == s.used - {port} && s.next' == s.next
  }

  /** A sequence of allocations and releases under the manager's lock. */
  ghost predicate IsRun(r: Range, run: seq<Step>)
    requires ValidRange(r)
  {
    && (forall i :: 0 <= i < |run| ==> StepOk(r, run[i]))
    && (forall i :: 0 <= i < |run| - 1 ==> run[i].used' == run[i + 1].used && run[i].next' == run[i + 1].next)
  }

  /** The port was free and could be bound at every allocation of the run. */
  ghost predicate FreeThroughout(run: seq<Step>, q: int) {
    forall i :: 0 <= i < |run| && run[i].action.Allocate? ==> Free(run[i].used, run[i].action.bindable, q)
  }

  /** One step never carries the cursor past a port that stays free. */
  lemma CursorStep(r: Range, s: Step, p: int, q: int)
    requires ValidRange(r) && StepOk(r, s) && InRange(r, p) && InRange(r, q)
    requires s.action.Allocate? ==> Free(s.used, s.action.bindable, q)
    requires s.result != Some(q)
    requires Distance(r, s.next, q) < Distance(r, s.next, p)
    ensures s.result != Some(p)
    ensures InRange(r, s.next') && Distance(r, s.next', q) < Distance(r, s.next', p)
  {
    if s.result.Some? {
      var port := s.result.value;
      if Distance(r, s.next, port) == Distance(r, s.next, q) {
        DistanceInjective(r, s.next, port, q);
      }
      PastPort(r, s.next, port, p);
      PastPort(r, s.next, port, q);
    }
  }

  /** Just past a port at distance d, anything further away is d + 1 steps closer. */
  lemma PastPort(r: Range, next: int, port: int, p: int)
    requires ValidRange(r) && InRange(r, next) && InRange(r, port) && InRange(r, p)
    requires Distance(r, next, port) < Distance(r, next, p)
    ensures Distance(r, After(r, port), p) == Distance(r, next, p) - Distance(r, next, port) - 1
  {
  }

  /** The cursor starts right behind a port that was just handed out. */
  lemma CursorBehind(r: Range, p: int, q: int)
    requires ValidRange(r) && InRange(r, p) && InRange(r, q) && p != q
    ensures Distance(r, After(r, p), q) < Distance(r, After(r, p), p)
  {
  }

  /**
   Next-fit fairness: after port p is handed out, it is not handed out again as long as some
   other port q stays free and bindable without being handed out itself.
   */
  lemma Fairness(r: Range, run: seq<Step>, p: int, q: int)
    requires ValidRange(r) && IsRun(r, run) && |run| > 0
    requires run[0].action.Allocate? && run[0].result == Some(p)
    requires InRange(r, q) && q != p && FreeThroughout(run[1..], q)
    requires forall i :: 1 <= i < |run| ==> run[i].result != Some(q)
    ensures forall i :: 1 <= i < |run| ==> run[i].result != Some(p)
  {
    CursorBehind(r, p, q);
    var k := 1;
    while k < |run|
      invariant 1 <= k <= |run|
      invariant forall i :: 1 <= i < k ==> run[i].result != Some(p)
      invariant InRange(r, run[k - 1].next') && Distance(r, run[k - 1].next', q) < Distance(r, run[k - 1].next', p)
    {
      assert run[k] == run[1..][k - 1];
      assert run[k - 1].next' == run[k].next;
      CursorStep(r, run[k], p, q);
      k := k + 1;
    }
  }

  ghost predicate Distinct(s: seq<int>) {
    forall i, j :: 0 <= i < j < |s| ==> s[i] != s[j]
  }

  function Without(s: seq<int>, p: int): (r: seq<int>) {
    if s == [] then []
    else Without(s[..|s| - 1], p) + if s[|s| - 1] == p then [] else [s[|s| - 1]]
  }

  lemma WithoutKeeps(s: seq<int>, p: int)
    ensures forall x :: x in Without(s, p) <==> x in s && x != p
    ensures Distinct(s) ==> Distinct(Without(s, p))
  {
    if s != [] {
      var n := |s| - 1;
      WithoutKeeps(s[..n], p);
      assert s == s[..n] + [s[n]];
      if Distinct(s) {
        assert s[n] !in s[..n] && s[n] !in Without(s[..n], p);
        assert Distinct(s[..n]);
      }
    }
  }

  /** The listeners handed out and not yet released, in order of allocation. */
  function Live(run: seq<Step>): (ports: seq<int>) {
    if run == [] then []
    else
      var before, s := Live(run[..|run| - 1]), run[|run| - 1];
      match s.action
      case Allocate(_) => before + if s.result.Some? then [s.result.value] else []
      case Release(port) => Without(before, port)
  }

  /** The ports marked in use after a run. */
  function InUse(run: seq<Step>): (ports: set<int>) {
    if run == [] then {} else run[|run| - 1].used'
  }

  /**
   Over every run from an empty manager, the live ports are distinct, even, inside the
   configured range and below 2^16, and they are exactly the ports marked in use.
   */
  lemma {:induction false} LivePorts(r: Range, run: seq<Step>)
    requires ValidRange(r) && IsRun(r, run) && (run != [] ==> run[0].used == {})
    ensures Distinct(Live(run))
    ensures forall p :: p in Live(run) ==> InRange(r, p) && r.portMin <= p <= r.portMax < WORD16
    ensures forall p :: p in Live(run) <==> p in InUse(run)
  {
    if run != [] {
      var n := |run| - 1;
      LivePorts(r, run[..n]);
      RangeFacts(r);
      assert run[n].used == InUse(run[..n]);
      assert StepOk(r, run[n]);
      match run[n].action
      case Allocate(_) =>
      case Release(port) => WithoutKeeps(Live(run[..n]), port);
    }
  }
}
