/** The execution state of one debug session and how events change it. */
module SessionState {
  import opened Basics

  datatype State = Initializing | Paused | Running | StateExited | StateTerminated {
    predicate Terminal() {
      StateExited? || StateTerminated?
    }
  }

  datatype Loc = Loc(file: string, line: int, column: int, fn: string)

  /** What a waiter receives: a pause, an exit or a termination. */
  datatype StopEvent = StopEvent(reason: string, thread: int, location: Option<Loc>, hitBP: int,
                                 exited: Option<int>, terminated: bool, signal: string)

  /** How the adapter process ended; the empty signal name means "not signalled". */
  datatype ProcessExit = Status(code: int) | Signalled(number: int, name: string)

  /** Everything that changes the session state while the state mutex is held. */
  datatype Event =
    | Stopped(reason: string, thread: int, hitIds: seq<int>)
    | Continued
    | Exited(code: int)
    | Terminated
    | AdapterDied(exit: ProcessExit)
    | LocationSet(loc: Option<Loc>)
    | OtherEvent

  datatype Core = Core(state: State, currentThread: int, lastPauseReason: string, lastLocation: Option<Loc>,
                       lastHitBP: int, exitCode: Option<int>, lastTerminal: Option<StopEvent>)

  const INITIAL_CORE := Core(Initializing, 0, "", None, 0, None, None)

  function FirstHit(hitIds: seq<int>): int {
    if |hitIds| > 0 then hitIds[0] else 0
  }

  function PauseEvent(reason: string, thread: int, hitIds: seq<int>): StopEvent {
    StopEvent(reason, thread, None, FirstHit(hitIds), None, false, "")
  }

  function ExitEvent(code: int): StopEvent {
    StopEvent("exited", 0, None, 0, Some(code), false, "")
  }

  const TERMINATION := StopEvent("terminated", 0, None, 0, None, true, "")

  function DeathCode(exit: ProcessExit): int {
    match exit
    case Status(code) => code
    case Signalled(number, _) => 128 + number
  }

  function DeathEvent(exit: ProcessExit): StopEvent {
    var signal := if exit.Signalled? then exit.name else "";
    StopEvent(if signal != "" then "signal" else "adapter-exited", 0, None, 0, Some(DeathCode(exit)), true, signal)
  }

  /** The state after one event. */
  function Apply(c: Core, e: Event): Core {
    match e
    case Stopped(reason, thread, hitIds) =>
      c.(state := Paused, currentThread := thread, lastPauseReason := reason,
      lastHitBP := FirstHit(hitIds), lastLocation := None)
    case Continued => c.(state := Running)
    case Exited(code) => c.(state := StateExited, exitCode := Some(code), lastTerminal := Some(ExitEvent(code)))
    case Terminated =>
      c.(state := if c.state.StateExited? then StateExited else StateTerminated,
      lastTerminal := if c.lastTerminal.None? then Some(TERMINATION) else c.lastTerminal)
    case AdapterDied(exit) =>
      if c.state.Terminal() then c
      else c.(state := StateTerminated, exitCode := Some(DeathCode(exit)), lastTerminal := Some(DeathEvent(exit)))
    case LocationSet(loc) => c.(lastLocation := loc)
    case OtherEvent => c
  }

  /** What the event tells the registered waiters, if anything. */
  function Notice(c: Core, e: Event): Option<StopEvent> {
    match e
    case Stopped(reason, thread, hitIds) => Some(PauseEvent(reason, thread, hitIds))
    case Exited(code) => Some(ExitEvent(code))
    case Terminated => Some(TERMINATION)
    case AdapterDied(exit) => if c.state.Terminal() then None else Some(DeathEvent(exit))
    case _ => None
  }

  /** What a new waiter finds at once, without being registered. */
  function Replay(c: Core, replayPause: bool): Option<StopEvent> {
    if c.lastTerminal.Some? then c.lastTerminal
    else if replayPause && c.state.Paused? then
      Some(StopEvent(c.lastPauseReason, c.currentThread, c.lastLocation, c.lastHitBP, None, false, ""))
    else None
  }

  /** What a waiter learns of an event, field by field: the reason, thread and first breakpoint of a stop, the code of
      an exit, and of a dead adapter its code, or 128 and the signal's number with the signal's name. */
  predicate Tells(e: Event, ev: StopEvent) {
    ev.location == None &&
    match e
    case Stopped(reason, thread, hitIds) =>
      && ev.reason == reason && ev.thread == thread && ev.exited == None && !ev.terminated && ev.signal == ""
      && (hitIds == [] ==> ev.hitBP == 0) && (hitIds != [] ==> ev.hitBP == hitIds[0])
    case Exited(code) =>
      && ev.reason == "exited" && ev.exited == Some(code) && !ev.terminated && ev.signal == "" && ev.thread == ev.hitBP == 0
    case Terminated =>
      && ev.reason == "terminated" && ev.exited == None && ev.terminated && ev.signal == "" && ev.thread == ev.hitBP == 0
    case AdapterDied(Status(code)) =>
      && ev.reason == "adapter-exited" && ev.exited == Some(code) && ev.terminated && ev.signal == ""
      && ev.thread == ev.hitBP == 0
    case AdapterDied(Signalled(number, name)) =>
      && ev.reason == (if name == "" then "adapter-exited" else "signal") && ev.exited == Some(128 + number)
      && ev.terminated && ev.signal == name && ev.thread == ev.hitBP == 0
    case _ => false
  }

  /** A terminal state always has its terminal event on record. */
  predicate Sound(c: Core) {
    c.state.Terminal() ==> c.lastTerminal.Some?
  }

  function After(log: seq<Event>): Core {
    if log == [] then INITIAL_CORE else Apply(After(log[..|log| - 1]), log[|log| - 1])
  }

  lemma {:induction false} AfterSound(log: seq<Event>)
    ensures Sound(After(log))
  {
    if log != [] {
      AfterSound(log[..|log| - 1]);
    }
  }

  // ----- terminal information does not depend on the order of arrival -----

  predicate TerminalKind(e: Event) {
    e.Exited? || e.Terminated? || e.AdapterDied?
  }

  function Fold(c: Core, es: seq<Event>): Core {
    if es == [] then c else Apply(Fold(c, es[..|es| - 1]), es[|es| - 1])
  }

  /** From any state, terminal events in any order with at least one exit among them end in state exited, with the
      code of the last exit both as exit code and in the terminal event on record. */
  lemma {:induction false} TerminalOrderIndependent(c: Core, es: seq<Event>, i: nat)
    requires forall k :: 0 <= k < |es| ==> TerminalKind(es[k])
    requires i < |es| && es[i].Exited? && forall k :: i < k < |es| ==> !es[k].Exited?
    ensures var end := Fold(c, es);
            && end.state == StateExited
            && end.exitCode == Some(es[i].code)
            && end.lastTerminal.Some? && end.lastTerminal.value.exited == Some(es[i].code)
            && end.lastTerminal.value.reason == "exited" && !end.lastTerminal.value.terminated
            && end.lastTerminal.value.signal == ""
  {
    if i < |es| - 1 {
      TerminalOrderIndependent(c, es[..|es| - 1], i);
    }
  }

  /** Once on record, terminal information never disappears. */
  lemma {:induction false} TerminalSticky(c: Core, es: seq<Event>)
    requires c.lastTerminal.Some?
    ensures Fold(c, es).lastTerminal.Some?
  {
    if es != [] {
      TerminalSticky(c, es[..|es| - 1]);
    }
  }

  // ----- what the commands report -----

  datatype PauseInfo = PauseInfo(state: string, reason: string, thread: int, location: Option<Loc>, hitBP: int,
                                 exitCode: Option<int>, signal: string)

  function StateName(s: State): string {
    match s
    case Initializing => "initializing"
    case Paused => "paused"
    case Running => "running"
    case StateExited => "exited"
    case StateTerminated => "terminated"
  }

  function CurrentThread(c: Core): int {
    if c.currentThread == 0 then 1 else c.currentThread
  }

  /** The answer of the `state` command: it takes the state mutex for the state, again for the last pause or the
      terminal event, and a third time for the thread or the exit code; events may come in between. */
  function StateReport(state: State, then1: Core, then2: Core): PauseInfo {
    var st := StateName(state);
    if st == "exited" || st == "terminated" then
      match then1.lastTerminal
      case Some(t) => PauseInfo(st, if t.reason != "" then t.reason else st, 0, None, 0, t.exited, t.signal)
      case None => PauseInfo(st, st, 0, None, 0, then2.exitCode, "")
    else PauseInfo(st, then1.lastPauseReason, CurrentThread(then2), then1.lastLocation, then1.lastHitBP, None, "")
  }

  /** The immediate answer of the `listen` command, read in the same way; None means it goes on to wait. */
  function ListenReport(state: State, then1: Core, then2: Core): Option<PauseInfo> {
    if state.Paused? || state.StateExited? || state.StateTerminated? then
      if state.StateExited? || state.StateTerminated? then
        var base := PauseInfo(StateName(state), StateName(state), 0, None, 0, None, "");
        if then1.lastTerminal.Some? then
          var t := then1.lastTerminal.value;
          var named := if t.reason != "" then base.(reason := t.reason) else base;
          Some(named.(exitCode := t.exited, signal := t.signal))
        else Some(base.(exitCode := then2.exitCode))
      else
        Some(PauseInfo("paused", if then1.lastPauseReason == "" then "already-paused" else then1.lastPauseReason,
                       0, then1.lastLocation, then1.lastHitBP, None, ""))
    else None
  }

  /** How a wait translates the event it received. */
  function WaitReport(ev: StopEvent, withLocation: bool): PauseInfo {
    var state := if ev.exited.Some? then "exited" else if ev.terminated then "terminated" else "paused";
    PauseInfo(state, ev.reason, ev.thread, if withLocation then ev.location else None, ev.hitBP, ev.exited, ev.signal)
  }

  /** Every recorded terminal event has a non-empty reason and names no thread or breakpoint. */
  predicate TerminalShape(t: StopEvent) {
    && t.reason != "" && t.thread == 0 && t.location == None && t.hitBP == 0
    && (t.exited.Some? || t.terminated)
  }

  lemma {:induction false} TerminalShapeAfter(log: seq<Event>)
    ensures var c := After(log);
            && (c.lastTerminal.Some? ==> TerminalShape(c.lastTerminal.value))
            && (c.state.StateExited? ==> c.lastTerminal.Some? && c.lastTerminal.value.exited.Some?)
  {
    if log != [] {
      TerminalShapeAfter(log[..|log| - 1]);
    }
  }

  /** What is on record after some events stays on record, and an exit code with it. */
  lemma {:induction false} RecordStays(log: seq<Event>, p: nat)
    requires p <= |log| && After(log[..p]).lastTerminal.Some?
    ensures var t := After(log).lastTerminal;
            t.Some? && (After(log[..p]).lastTerminal.value.exited.Some? ==> t.value.exited.Some?)
    decreases |log|
  {
    if p < |log| {
      assert log[..|log| - 1][..p] == log[..p];
      RecordStays(log[..|log| - 1], p);
    } else {
      assert log[..p] == log;
    }
  }

  /** When `state` or `listen` reads a terminal state after p events and the terminal event after q, with anything
      in between, both answer with the reason, exit code and signal of the event on record at q, and so does a wait
      that starts then. The wait gives the whole answer exactly when the state was exited or no exit code is on record. */
  lemma TerminalReportsAgree(log: seq<Event>, p: nat, q: nat, then2: Core, replayPause: bool, withLocation: bool)
    requires p <= q <= |log| && After(log[..p]).state.Terminal()
    ensures var state, then1 := After(log[..p]).state, After(log[..q]);
            var answer := StateReport(state, then1, then2);
            && then1.lastTerminal.Some?
            && ListenReport(state, then1, then2) == Some(answer)
            && Replay(then1, replayPause) == then1.lastTerminal
            && var w := WaitReport(then1.lastTerminal.value, withLocation);
               && answer.reason == then1.lastTerminal.value.reason == w.reason
               && answer.exitCode == then1.lastTerminal.value.exited == w.exitCode
               && answer.signal == then1.lastTerminal.value.signal == w.signal
               && (w == answer <==> state == StateExited || then1.lastTerminal.value.exited == None)
  {
    AfterSound(log[..p]);
    TerminalShapeAfter(log[..p]);
    TerminalShapeAfter(log[..q]);
    assert log[..q][..p] == log[..p];
    RecordStays(log[..q], p);
  }

  /** A dead adapter is reported as "terminated" by `state` and as "exited" by a wait. */
  lemma DeathIsReportedTwoWays()
    ensures var c := After([AdapterDied(Signalled(9, "killed"))]);
            && c.lastTerminal.Some?
            && StateReport(c.state, c, c).state == "terminated" && WaitReport(c.lastTerminal.value, true).state == "exited"
  {
    assert After([AdapterDied(Signalled(9, "killed"))][..0]) == INITIAL_CORE;
  }

  /** After a stop both commands answer with its own fields; the thread 0 is reported as 1, and only by `state`. */
  lemma StopIsReported(log: seq<Event>, reason: string, thread: int, hitIds: seq<int>)
    ensures var c := After(log + [Stopped(reason, thread, hitIds)]);
            && StateReport(c.state, c, c).state == "paused" && StateReport(c.state, c, c).reason == reason
            && StateReport(c.state, c, c).thread == (if thread == 0 then 1 else thread)
            && StateReport(c.state, c, c).hitBP == (if hitIds == [] then 0 else hitIds[0])
            && StateReport(c.state, c, c).location == None && StateReport(c.state, c, c).exitCode == None
            && StateReport(c.state, c, c).signal == ""
            && ListenReport(c.state, c, c).Some?
            && var l := ListenReport(c.state, c, c).value;
               && l.state == "paused" && l.reason == (if reason == "" then "already-paused" else reason)
               && l.thread == 0 && l.hitBP == (if hitIds == [] then 0 else hitIds[0])
               && l.location == None && l.exitCode == None && l.signal == ""
  {
    assert (log + [Stopped(reason, thread, hitIds)])[..|log|] == log;
  }

  /** A location found later is reported with the pause. */
  lemma LocationIsReported(log: seq<Event>, loc: Option<Loc>)
    requires After(log).state.Paused?
    ensures var c := After(log + [LocationSet(loc)]);
            && StateReport(c.state, c, c).location == loc
            && ListenReport(c.state, c, c).Some? && ListenReport(c.state, c, c).value.location == loc
            && StateReport(c.state, c, c).reason == After(log).lastPauseReason
  {
    assert (log + [LocationSet(loc)])[..|log|] == log;
  }

  /** While the program runs `state` says so and `listen` goes on to wait; before it starts likewise. */
  lemma RunningIsReported(log: seq<Event>)
    ensures var c := After(log + [Continued]);
            StateReport(c.state, c, c).state == "running" && ListenReport(c.state, c, c) == None
    ensures StateReport(INITIAL_CORE.state, INITIAL_CORE, INITIAL_CORE).state == "initializing"
    ensures ListenReport(INITIAL_CORE.state, INITIAL_CORE, INITIAL_CORE) == None
  {
    assert (log + [Continued])[..|log|] == log;
  }

  /** After an exit, or the death of the adapter of a live session, both commands answer with its fields. */
  lemma EndIsReported(log: seq<Event>, e: Event)
    requires e.Exited? || (e.AdapterDied? && !After(log).state.Terminal())
    ensures var c := After(log + [e]);
            var answer := StateReport(c.state, c, c);
            && ListenReport(c.state, c, c) == Some(answer)
            && answer.thread == answer.hitBP == 0 && answer.location == None
            && (e.Exited? ==> && answer.state == answer.reason == "exited"
                              && answer.exitCode == Some(e.code) && answer.signal == "")
            && (e.AdapterDied? ==> answer.state == "terminated")
            && (e.AdapterDied? && e.exit.Status? ==>
                  answer.reason == "adapter-exited" && answer.exitCode == Some(e.exit.code) && answer.signal == "")
            && (e.AdapterDied? && e.exit.Signalled? ==>
                  && answer.reason == (if e.exit.name == "" then "adapter-exited" else "signal")
                  && answer.exitCode == Some(128 + e.exit.number) && answer.signal == e.exit.name)
  {
    assert (log + [e])[..|log|] == log;
  }

  /** A wait that receives the news of an event translates its fields. */
  lemma NewsIsTranslated(e: Event, ev: StopEvent, withLocation: bool)
    requires Tells(e, ev)
    ensures var w := WaitReport(ev, withLocation);
            && w.reason == ev.reason && w.thread == ev.thread && w.hitBP == ev.hitBP && w.signal == ev.signal
            && w.exitCode == ev.exited && w.location == None
            && w.state == (if e.Stopped? then "paused" else if e.Terminated? then "terminated" else "exited")
  {
  }
}
