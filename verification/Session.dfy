/** The session object: the event handler and the waiter list as they are updated in place. */
module Session {
  import opened Basics
  import opened SessionState
  import opened StopWaiters

  /** A channel of capacity one. */
  class StopChan {
    var buf: seq<StopEvent>

    constructor ()
      ensures buf == []
    {
      buf := [];
    }

    /** A send that gives up when the channel is full. */
    method TrySend(ev: StopEvent) returns (sent: bool)
      modifies this
      ensures sent <==> old(buf) == []
      ensures buf == if sent then [ev] else old(buf)
    {
      sent := buf == [];
      if sent {
        buf := [ev];
      }
    }
  }

  class Session {
    var state: State
    var currentThread: int
    var lastPauseReason: string
    var lastLocation: Option<Loc>
    var lastHitBP: int
    var exitCode: Option<int>
    var lastTerminal: Option<StopEvent>
    var waiters: seq<StopChan>

    function View(): Core
      reads this
    {
      Core(state, currentThread, lastPauseReason, lastLocation, lastHitBP, exitCode, lastTerminal)
    }

    ghost predicate Valid()
      reads this, waiters
    {
      && Distinct(waiters)
      && (forall w :: w in waiters ==> w.buf == [])
      && Sound(View())
      && (lastTerminal.Some? ==> waiters == [])
    }

    constructor ()
      ensures Valid() && View() == INITIAL_CORE && waiters == []
      ensures state == Initializing && lastTerminal == None && exitCode == None && lastLocation == None
      ensures lastPauseReason == "" && currentThread == lastHitBP == 0
    {
      state, currentThread, lastPauseReason, lastLocation := Initializing, 0, "", None;
      lastHitBP, exitCode, lastTerminal, waiters := 0, None, None, [];
    }

    /** Every registered channel receives the event and the list becomes empty. */
    method NotifyWaiters(ev: StopEvent)
      requires Distinct(waiters) && forall w :: w in waiters ==> w.buf == []
      modifies this`waiters, waiters
      ensures waiters == []
      ensures forall w :: w in old(waiters) ==> w.buf == [ev]
    {
      var list := waiters;
      waiters := [];
      var i := 0;
      while i < |list|
        invariant 0 <= i <= |list|
        invariant waiters == []
        invariant forall k :: 0 <= k < i ==> list[k].buf == [ev]
        invariant forall k :: i <= k < |list| ==> list[k].buf == []
      {
        var sent := list[i].TrySend(ev);
        i := i + 1;
      }
    }

    /** The state follows the event, and the registered waiters are told what the event has to tell. */
    method HandleEvent(e: Event)
      requires Valid() && !e.AdapterDied? && !e.LocationSet?
      modifies this, waiters
      ensures Valid()
      ensures View() == Apply(old(View()), e)
      ensures match Notice(old(View()), e)
              case Some(ev) => waiters == [] && forall w :: w in old(waiters) ==> w.buf == [ev]
              case None => waiters == old(waiters)
      ensures e.Stopped? ==>
                && state == Paused && currentThread == e.thread && lastPauseReason == e.reason && lastLocation == None
                && lastHitBP == (if e.hitIds == [] then 0 else e.hitIds[0]) && lastTerminal == old(lastTerminal)
                && forall w :: w in old(waiters) ==>
                     && |w.buf| == 1 && w.buf[0].reason == e.reason && w.buf[0].thread == e.thread
                     && w.buf[0].hitBP == (if e.hitIds == [] then 0 else e.hitIds[0])
                     && w.buf[0].exited == None && !w.buf[0].terminated && w.buf[0].signal == ""
      ensures e.Exited? ==>
                && state == StateExited && exitCode == Some(e.code)
                && lastTerminal.Some? && lastTerminal.value.exited == Some(e.code) && lastTerminal.value.reason == "exited"
                && !lastTerminal.value.terminated && lastTerminal.value.signal == ""
                && forall w :: w in old(waiters) ==>
                     && |w.buf| == 1 && w.buf[0].exited == Some(e.code) && w.buf[0].reason == "exited"
                     && !w.buf[0].terminated && w.buf[0].signal == ""
      ensures e.Terminated? ==>
                && state == (if old(state) == StateExited then StateExited else StateTerminated)
                && (old(lastTerminal).Some? ==> lastTerminal == old(lastTerminal))
                && (old(lastTerminal).None? ==> lastTerminal.Some? && Tells(e, lastTerminal.value))
                && forall w :: w in old(waiters) ==>
                     && |w.buf| == 1 && w.buf[0].reason == "terminated" && w.buf[0].terminated && w.buf[0].exited == None
      ensures e.Continued? ==> View() == old(View()).(state := Running) && waiters == old(waiters)
      ensures e.OtherEvent? ==> View() == old(View()) && waiters == old(waiters)
      ensures e.Stopped? || e.Terminated? ==> exitCode == old(exitCode)
      ensures !e.Stopped? ==>
                && currentThread == old(currentThread) && lastPauseReason == old(lastPauseReason)
                && lastHitBP == old(lastHitBP) && lastLocation == old(lastLocation)
    {
      match e
      case Stopped(reason, thread, hitIds) =>
        state := Paused;
        currentThread := thread;
        lastPauseReason := reason;
        lastHitBP := 0;
        if |hitIds| > 0 {
          lastHitBP := hitIds[0];
        }
        lastLocation := None;
        NotifyWaiters(StopEvent(reason, thread, None, lastHitBP, None, false, ""));
      case Continued =>
        state := Running;
      case Exited(code) =>
        state := StateExited;
        exitCode := Some(code);
        lastTerminal := Some(ExitEvent(code));
        NotifyWaiters(ExitEvent(code));
      case Terminated =>
        if state != StateExited {
          state := StateTerminated;
        }
        if lastTerminal == None {
          lastTerminal := Some(TERMINATION);
        }
        NotifyWaiters(TERMINATION);
      case _ =>
    }

    /** The reaction to the end of the adapter process. */
    method WatchAdapterExit(exit: ProcessExit)
      requires Valid()
      modifies this, waiters
      ensures Valid()
      ensures View() == Apply(old(View()), AdapterDied(exit))
      ensures match Notice(old(View()), AdapterDied(exit))
              case Some(ev) => waiters == [] && forall w :: w in old(waiters) ==> w.buf == [ev]
              case None => waiters == old(waiters)
      ensures if old(state) == StateExited || old(state) == StateTerminated then View() == old(View())
              else
                var code := if exit.Status? then exit.code else 128 + exit.number;
                var signal := if exit.Status? then "" else exit.name;
                && state == StateTerminated && exitCode == Some(code)
                && lastTerminal.Some? && lastTerminal.value.exited == Some(code) && lastTerminal.value.signal == signal
                && lastTerminal.value.terminated
                && lastTerminal.value.reason == (if signal == "" then "adapter-exited" else "signal")
                && forall w :: w in old(waiters) ==> w.buf == [lastTerminal.value]
    {
      if state == StateExited || state == StateTerminated {
        return;
      }
      var code, signal := 0, "";
      match exit {
        case Status(c) => code := c;
        case Signalled(number, name) => signal, code := name, 128 + number;
      }
      var reason := "adapter-exited";
      if signal != "" {
        reason := "signal";
      }
      state := StateTerminated;
      exitCode := Some(code);
      var ev := StopEvent(reason, 0, None, 0, Some(code), true, signal);
      lastTerminal := Some(ev);
      NotifyWaiters(ev);
    }

    method SetLastLocation(loc: Option<Loc>)
      requires Valid()
      modifies this`lastLocation
      ensures Valid() && View() == Apply(old(View()), LocationSet(loc)) && lastLocation == loc
    {
      lastLocation := loc;
    }

    /** A new channel either holds what there is to replay or is registered. */
    method InstallStateWaiter(replayPause: bool) returns (ch: StopChan)
      requires Valid()
      modifies this`waiters
      ensures Valid() && fresh(ch)
      ensures match Replay(View(), replayPause)
              case Some(ev) => ch.buf == [ev] && waiters == old(waiters)
              case None => ch.buf == [] && waiters == old(waiters) + [ch]
      ensures if lastTerminal.Some? then ch.buf == [lastTerminal.value]
              else if replayPause && state == Paused then
                && |ch.buf| == 1 && ch.buf[0].reason == lastPauseReason && ch.buf[0].thread == currentThread
                && ch.buf[0].location == lastLocation && ch.buf[0].hitBP == lastHitBP
                && ch.buf[0].exited == None && !ch.buf[0].terminated && ch.buf[0].signal == ""
              else ch.buf == []
    {
      ch := new StopChan();
      if lastTerminal.Some? {
        var sent := ch.TrySend(lastTerminal.value);
        return;
      }
      if replayPause && state == Paused {
        var sent := ch.TrySend(StopEvent(lastPauseReason, currentThread, lastLocation, lastHitBP, None, false, ""));
        return;
      }
      assert ch !in waiters;
      waiters := waiters + [ch];
    }

    /** The deferred clean-up of WaitForStop; it changes nothing if the channel is not registered. */
    method Withdraw(ch: StopChan)
      requires Valid()
      modifies this`waiters
      ensures Valid() && waiters == Without(old(waiters), ch) && ch !in waiters
    {
      WithoutSpec(waiters, ch);
      var i := 0;
      while i < |waiters|
        invariant 0 <= i <= |waiters| && waiters == old(waiters)
        invariant ch !in waiters[..i]
      {
        if waiters[i] == ch {
          WithoutAt(waiters, i);
          waiters := waiters[..i] + waiters[i + 1..];
          return;
        }
        i := i + 1;
      }
    }
  }

  lemma {:induction false} WithoutAt<T>(list: seq<T>, i: nat)
    requires i < |list| && list[i] !in list[..i]
    ensures Without(list, list[i]) == list[..i] + list[i + 1..]
  {
    if i > 0 {
      assert list[0] in list[..i];
      assert list[1..][..i - 1] == list[..i][1..];
      WithoutAt(list[1..], i - 1);
    }
  }
}
