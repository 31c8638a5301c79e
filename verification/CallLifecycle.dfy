/**
 The once-only transitions of a call as the methods of the active call
 (internal/call/active_call.go), proved against the steps of module Lifecycle.
 */
module CallLifecycle {
  import opened Lifecycle

  class ActiveCall {
    const port: int
    /** The two sync.Once fields. */
    var started: bool
    var closed: bool
    var callEnded: bool
    /** What Lifecycle says of this call: hooks fired, teardown still to run. */
    ghost var call: Call

    ghost predicate Valid()
      reads this
    {
      && CallSound(call) && call.stage.Active? && call.port == port
      && started == call.started && callEnded == call.callEnded && closed == call.closeStarted
    }

    /** A call that has just been registered. */
    constructor (port: int)
      ensures Valid() && call == CallStep(NewCall(port), Register(0))
    {
      this.port := port;
      started, closed, callEnded := false, false, false;
      call := CallStep(NewCall(port), Register(0));
    }

    /** ACK: `fires` is whether the connected hook is called and the handlers are started. */
    method StartRTPHandlers() returns (fires: bool)
      requires Valid()
      modifies this
      ensures Valid() && call == CallStep(old(call), Ack(0))
      ensures fires <==> old(call.connected) == 0
      ensures call.connected == 1
    {
      fires := !started;
      if !started {
        started := true;
        call := CallStep(call, Ack(0));
      }
    }

    /** The locked half of EndCall: BYE, CANCEL, media timeout and the agent's bye all come here. */
    method EndCallLocked() returns (fires: bool)
      requires Valid()
      modifies this
      ensures Valid() && call == CallStep(old(call), End(0))
      ensures fires <==> !old(call.callEnded)
    {
      if callEnded {
        return false;
      }
      callEnded := true;
      call := CallStep(call, End(0));
      fires := true;
    }

    /** The unlocked half: fire the hook and start a shutdown. */
    method FireOnDisconnected()
      requires Valid() && call.ending
      modifies this
      ensures Valid() && call == CallStep(old(call), FireDisconnected(0))
      ensures call.disconnected == 1
    {
      call := CallStep(call, FireDisconnected(0));
    }

    /** Entering Shutdown: only the first entry runs the body. */
    method EnterShutdownOnce() returns (runs: bool)
      requires Valid() && call.shutdowns > 0
      modifies this
      ensures Valid() && call == CallStep(old(call), EnterShutdown(0))
      ensures runs <==> !old(call.closeStarted)
    {
      runs := !closed;
      closed := true;
      call := CallStep(call, EnterShutdown(0));
    }

    /** The end of the body: OnFinished releases the port. */
    method Finish() returns (freed: int)
      requires Valid() && call.finishing
      modifies this
      ensures Valid() && call == CallStep(old(call), ReleasePort(0))
      ensures freed == port && old(call.released) == 0 && call.released == 1 && call.finished == 1
    {
      freed := port;
      call := CallStep(call, ReleasePort(0));
    }

    /**
     EndCall with nothing in between. The first one tells the disconnect, and finishes the call
     and frees its port unless a shutdown has begun elsewhere; any later one does nothing.
     */
    method EndCall() returns (freed: set<int>)
      requires Valid()
      modifies this
      ensures Valid() && call.callEnded
      ensures old(call.callEnded) ==> call == old(call) && freed == {}
      ensures !old(call.callEnded) ==>
                && call.disconnected == 1 && call.closeStarted && call.shutdowns == old(call.shutdowns)
                && freed == (if old(call.closeStarted) then {} else {port})
                && (!old(call.closeStarted) ==> call.finished == 1 && call.released == 1)
      ensures old(Quiet(call)) ==>
                Quiet(call) && call.disconnected == 1 && call.finished == 1 && call.released == 1
    {
      freed := {};
      var fires := EndCallLocked();
      if fires {
        FireOnDisconnected();
        var runs := EnterShutdownOnce();
        if runs {
          var p := Finish();
          freed := {p};
        }
      }
    }
  }
}
