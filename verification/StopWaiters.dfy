/** The one-shot stop waiters of a session. */
module StopWaiters {
  import opened Basics
  import opened SessionState

  /** A waiter channel of capacity one, with what its owner has read from it so far. */
  datatype Waiter = Waiter(replay: bool, installedAt: nat, buf: seq<StopEvent>, got: seq<StopEvent>, withdrawn: bool) {
    function Sent(): seq<StopEvent> {
      got + buf
    }
  }

  /** Who holds the state mutex: nobody, or the notifier before and after it took the list. */
  datatype Holder = Free | Notifying(ev: StopEvent) | Delivering(ev: StopEvent, rest: seq<nat>)

  datatype Sys = Sys(core: Core, log: seq<Event>, chans: seq<Waiter>, waiters: seq<nat>, mu: Holder, dropped: nat)

  /** Events, adapter death, installations and withdrawals interleave under the state mutex (`mu`) and the waiter-list
      mutex. A step is one critical section of the waiter-list mutex, one channel operation, or the part of a critical
      section of the state mutex up to the next of these. */
  datatype Label =
    | Handle(e: Event)       // lock mu, change the state; unlock unless there is something to tell
    | TakeList               // notifyWaiters: swap the list out
    | Deliver                // notifyWaiters: offer the event to one channel
    | Unlock                 // the end of the notifying critical section
    | Install(replay: bool)  // installStateWaiter
    | Receive(c: nat)        // the owner reads its channel
    | Withdraw(c: nat)       // the deferred removal of WaitForStop, after a result or a timeout

  const INIT := Sys(INITIAL_CORE, [], [], [], Free, 0)

  predicate Enabled(s: Sys, l: Label) {
    match l
    case Handle(_) => s.mu.Free?
    case TakeList => s.mu.Notifying?
    case Deliver => s.mu.Delivering? && s.mu.rest != [] && s.mu.rest[0] < |s.chans|
    case Unlock => s.mu.Delivering? && s.mu.rest == []
    case Install(_) => s.mu.Free?
    case Receive(c) => c < |s.chans| && s.chans[c].buf != [] && !s.chans[c].withdrawn
    case Withdraw(c) => c < |s.chans| && s.chans[c].replay && !s.chans[c].withdrawn
  }

  /** The list without its first occurrence of c. */
  function Without<T(==)>(list: seq<T>, c: T): seq<T> {
    if list == [] then [] else if list[0] == c then list[1..] else [list[0]] + Without(list[1..], c)
  }

  function Next(s: Sys, l: Label): Sys
    requires Enabled(s, l)
  {
    match l
    case Handle(e) =>
      var n := Notice(s.core, e);
      s.(core := Apply(s.core, e), log := s.log + [e], mu := if n.Some? then Notifying(n.value) else Free)
    case TakeList => s.(waiters := [], mu := Delivering(s.mu.ev, s.waiters))
    case Deliver =>
      var c := s.mu.rest[0];
      var w := s.chans[c];
      var after := s.(mu := Delivering(s.mu.ev, s.mu.rest[1..]));
      if w.buf == [] then after.(chans := s.chans[c := w.(buf := [s.mu.ev])])
      else after.(dropped := s.dropped + 1)
    case Unlock => s.(mu := Free)
    case Install(replay) =>
      var at := Replay(s.core, replay);
      var w := Waiter(replay, |s.log|, if at.Some? then [at.value] else [], [], false);
      s.(chans := s.chans + [w], waiters := if at.Some? then s.waiters else s.waiters + [|s.chans|])
    case Receive(c) =>
      var w := s.chans[c];
      s.(chans := s.chans[c := w.(got := w.got + [w.buf[0]], buf := w.buf[1..])])
    case Withdraw(c) =>
      s.(chans := s.chans[c := s.chans[c].(withdrawn := true)], waiters := Without(s.waiters, c))
  }

  /** The state a run of labels leads to; None if some label is not enabled in its turn. */
  function Run(ls: seq<Label>): Option<Sys> {
    if ls == [] then Some(INIT)
    else
      var prev := Run(ls[..|ls| - 1]);
      if prev.Some? && Enabled(prev.value, ls[|ls| - 1]) then Some(Next(prev.value, ls[|ls| - 1])) else None
  }

  // ----- what a waiter is owed, said over the event log alone -----

  predicate Notifies(e: Event) {
    e.Stopped? || e.Exited? || e.Terminated? || e.AdapterDied?
  }

  function Payload(e: Event): StopEvent
    requires Notifies(e)
  {
    match e
    case Stopped(reason, thread, hitIds) => PauseEvent(reason, thread, hitIds)
    case Exited(code) => ExitEvent(code)
    case Terminated => TERMINATION
    case AdapterDied(exit) => DeathEvent(exit)
  }

  lemma PayloadTells(log: seq<Event>)
    ensures forall i :: 0 <= i < |log| && Notifies(log[i]) ==> Tells(log[i], Payload(log[i]))
  {
  }

  /** The first stop, exit, termination or adapter death at or after position p. */
  function FirstNotice(log: seq<Event>, p: nat): Option<StopEvent>
    requires p <= |log|
    decreases |log| - p
  {
    if p == |log| then None
    else if Notifies(log[p]) then Some(Payload(log[p]))
    else FirstNotice(log, p + 1)
  }

  /** The latest pause, if no continue, exit, termination or adapter death has followed it. */
  function LivePause(log: seq<Event>): Option<StopEvent> {
    if log == [] then None
    else
      var before := LivePause(log[..|log| - 1]);
      match log[|log| - 1]
      case Stopped(reason, thread, hitIds) => Some(PauseEvent(reason, thread, hitIds))
      case LocationSet(loc) => if before.Some? then Some(before.value.(location := loc)) else None
      case OtherEvent => before
      case _ => None
  }

  /** The terminal event on record: the last exit or adapter death, or else the first termination.
      The death of the adapter counts only if the session was not in a terminal state. */
  function Recorded(log: seq<Event>): Option<StopEvent> {
    if log == [] then None
    else
      var front := log[..|log| - 1];
      match log[|log| - 1]
      case Exited(code) => Some(ExitEvent(code))
      case Terminated => if Recorded(front).Some? then Recorded(front) else Some(TERMINATION)
      case AdapterDied(exit) => if Over(front) then Recorded(front) else Some(DeathEvent(exit))
      case _ => Recorded(front)
  }

  /** The last event that says whether the program runs says that it does not run any more. */
  predicate Over(log: seq<Event>) {
    log != [] &&
    match log[|log| - 1]
    case Exited(_) => true
    case Terminated => true
    case AdapterDied(_) => true
    case Stopped(_, _, _) => false
    case Continued => false
    case _ => Over(log[..|log| - 1])
  }

  /** The event owed to a waiter installed when p events had been handled. */
  function Owed(log: seq<Event>, p: nat, replay: bool): Option<StopEvent>
    requires p <= |log|
  {
    if Recorded(log[..p]).Some? then Recorded(log[..p])
    else if replay && LivePause(log[..p]).Some? then LivePause(log[..p])
    else FirstNotice(log, p)
  }

  // ----- the reference functions agree with the state -----

  lemma {:induction false} StateFollowsLog(log: seq<Event>)
    ensures var c := After(log);
            && (c.state.Terminal() <==> Over(log))
            && c.lastTerminal == Recorded(log)
            && (c.state.Paused? <==> LivePause(log).Some?)
            && (c.state.Paused? ==>
                 LivePause(log) == Some(StopEvent(c.lastPauseReason, c.currentThread, c.lastLocation,
                                                  c.lastHitBP, None, false, "")))
  {
    if log != [] {
      StateFollowsLog(log[..|log| - 1]);
    }
  }

  lemma {:induction false} FirstNoticeSpec(log: seq<Event>, p: nat)
    requires p <= |log|
    ensures FirstNotice(log, p).None? <==> forall i :: p <= i < |log| ==> !Notifies(log[i])
    ensures FirstNotice(log, p).Some? ==>
              exists i :: && p <= i < |log| && Notifies(log[i]) && FirstNotice(log, p).value == Payload(log[i])
                          && Tells(log[i], FirstNotice(log, p).value)
                          && forall k :: p <= k < i ==> !Notifies(log[k])
    decreases |log| - p
  {
    if p < |log| && !Notifies(log[p]) {
      FirstNoticeSpec(log, p + 1);
    }
  }

  predicate KeepsPause(e: Event) {
    e.LocationSet? || e.OtherEvent?
  }

  /** Event i is a stop and only events that keep the pause have followed it. */
  predicate PausedAt(log: seq<Event>, i: int) {
    0 <= i < |log| && log[i].Stopped? && forall k :: i < k < |log| ==> KeepsPause(log[k])
  }

  lemma PausedAtTurn(log: seq<Event>, n: nat, i: int)
    requires |log| == n + 1
    ensures PausedAt(log, i) <==> (i == n && log[n].Stopped?) || (PausedAt(log[..n], i) && KeepsPause(log[n]))
  {
    if PausedAt(log[..n], i) && KeepsPause(log[n]) {
      assert log[..n][i] == log[i];
      forall k | i < k < |log| ensures KeepsPause(log[k]) {
        assert k < n ==> log[..n][k] == log[k];
      }
    }
  }

  /** There is a live pause exactly when some stop was followed only by events that keep it; it is that stop. */
  lemma {:induction false} LivePauseSpec(log: seq<Event>)
    ensures LivePause(log).Some? <==> exists i :: PausedAt(log, i)
    ensures LivePause(log).Some? ==> exists i :: PausedAt(log, i) && LivePause(log).value.(location := None) == Payload(log[i])
  {
    if log != [] {
      var n := |log| - 1;
      LivePauseSpec(log[..n]);
      forall i ensures PausedAt(log, i) <==> (i == n && log[n].Stopped?) || (PausedAt(log[..n], i) && KeepsPause(log[n])) {
        PausedAtTurn(log, n, i);
      }
      if LivePause(log[..n]).Some? && KeepsPause(log[n]) {
        var i :| PausedAt(log[..n], i) && LivePause(log[..n]).value.(location := None) == Payload(log[..n][i]);
        assert PausedAt(log, i) && log[..n][i] == log[i];
      } else if log[n].Stopped? {
        assert PausedAt(log, n);
      }
    }
  }

  lemma {:induction false} FirstNoticeGrows(log: seq<Event>, e: Event, p: nat)
    requires p <= |log|
    ensures FirstNotice(log + [e], p) ==
            if FirstNotice(log, p).Some? then FirstNotice(log, p)
            else if Notifies(e) then Some(Payload(e)) else None
    decreases |log| - p
  {
    if p < |log| {
      FirstNoticeGrows(log, e, p + 1);
    }
  }

  lemma OwedGrows(log: seq<Event>, e: Event, p: nat, replay: bool)
    requires p <= |log|
    ensures Owed(log + [e], p, replay) ==
            if Owed(log, p, replay).Some? then Owed(log, p, replay)
            else if Notifies(e) then Some(Payload(e)) else None
  {
    assert (log + [e])[..p] == log[..p];
    FirstNoticeGrows(log, e, p);
  }

  lemma AfterSnoc(log: seq<Event>, e: Event)
    ensures After(log + [e]) == Apply(After(log), e)
  {
    assert (log + [e])[..|log|] == log;
  }

  // ----- the invariant of every run -----

  /** The channels an event may still be sent to. */
  function Registered(s: Sys): seq<nat> {
    if s.mu.Delivering? then s.mu.rest else s.waiters
  }

  /** What is owed to a channel that is still registered. */
  function Due(s: Sys): Option<StopEvent> {
    if s.mu.Free? then None else Some(s.mu.ev)
  }

  predicate ChanOk(s: Sys, c: nat)
    requires c < |s.chans|
  {
    var w := s.chans[c];
    && w.installedAt <= |s.log|
    && var owed := Owed(s.log, w.installedAt, w.replay);
       if c in Registered(s) then w.Sent() == [] && owed == Due(s)
       else (w.Sent() == [] && w.withdrawn) || (owed.Some? && w.Sent() == [owed.value])
  }

  ghost predicate Inv(s: Sys) {
    && s.core == After(s.log)
    && s.dropped == 0
    && Distinct(Registered(s))
    && (forall c :: c in Registered(s) ==> c < |s.chans|)
    && (s.mu.Delivering? ==> s.waiters == [])
    && (s.core.lastTerminal.Some? && s.mu.Free? ==> s.waiters == [])
    && (forall c :: 0 <= c < |s.chans| ==> ChanOk(s, c))
  }

  lemma {:induction false} WithoutSpec<T>(list: seq<T>, c: T)
    requires Distinct(list)
    ensures Distinct(Without(list, c))
    ensures forall x :: x in Without(list, c) <==> x in list && x != c
    ensures c !in list ==> Without(list, c) == list
  {
    if list != [] {
      assert list == [list[0]] + list[1..];
      assert Distinct(list[1..]);
      if list[0] == c {
        assert c !in list[1..];
      } else {
        WithoutSpec(list[1..], c);
        var rest := Without(list[1..], c);
        assert list[0] !in rest;
        assert Distinct([list[0]] + rest);
      }
    }
  }

  lemma HandleKeepsInv(s: Sys, e: Event)
    requires Inv(s) && s.mu.Free?
    ensures Inv(Next(s, Handle(e)))
  {
    var t := Next(s, Handle(e));
    AfterSnoc(s.log, e);
    StateFollowsLog(s.log);
    AfterSound(s.log);
    forall c | 0 <= c < |t.chans| ensures ChanOk(t, c) {
      HandleKeepsChan(s, e, c);
    }
  }

  lemma HandleKeepsChan(s: Sys, e: Event, c: nat)
    requires s.mu.Free? && s.core == After(s.log) && Sound(s.core) && c < |s.chans| && ChanOk(s, c)
    requires s.core.lastTerminal.Some? ==> s.waiters == []
    ensures ChanOk(Next(s, Handle(e)), c)
  {
    OwedGrows(s.log, e, s.chans[c].installedAt, s.chans[c].replay);
  }

  lemma TakeListKeepsInv(s: Sys)
    requires Inv(s) && Enabled(s, TakeList)
    ensures Inv(Next(s, TakeList))
  {
    var t := Next(s, TakeList);
    forall c | 0 <= c < |t.chans| ensures ChanOk(t, c) {
      assert ChanOk(s, c);
    }
  }

  lemma DeliverKeepsInv(s: Sys)
    requires Inv(s) && Enabled(s, Deliver)
    ensures Inv(Next(s, Deliver))
  {
    var t := Next(s, Deliver);
    var c0 := s.mu.rest[0];
    assert ChanOk(s, c0);
    assert s.mu.rest == [c0] + s.mu.rest[1..];
    assert c0 !in t.mu.rest;
    assert forall c :: c in t.mu.rest ==> c in s.mu.rest;
    forall c | 0 <= c < |t.chans| ensures ChanOk(t, c) {
      assert ChanOk(s, c);
      DeliverKeepsChan(s, c);
    }
  }

  lemma DeliverKeepsChan(s: Sys, c: nat)
    requires Enabled(s, Deliver) && c < |s.chans| && ChanOk(s, c) && ChanOk(s, s.mu.rest[0])
    requires s.mu.rest[0] !in s.mu.rest[1..]
    ensures ChanOk(Next(s, Deliver), c)
  {
    assert s.mu.rest == [s.mu.rest[0]] + s.mu.rest[1..];
  }

  lemma InstallKeepsInv(s: Sys, replay: bool)
    requires Inv(s) && s.mu.Free?
    ensures Inv(Next(s, Install(replay)))
  {
    var t := Next(s, Install(replay));
    StateFollowsLog(s.log);
    assert s.log[..|s.log|] == s.log;
    assert |s.chans| !in s.waiters;
    forall c | 0 <= c < |t.chans| ensures ChanOk(t, c) {
      if c < |s.chans| {
        assert ChanOk(s, c);
      }
    }
  }

  lemma ReceiveKeepsInv(s: Sys, own: nat)
    requires Inv(s) && Enabled(s, Receive(own))
    ensures Inv(Next(s, Receive(own)))
  {
    var t := Next(s, Receive(own));
    assert ChanOk(s, own);
    forall c | 0 <= c < |t.chans| ensures ChanOk(t, c) {
      assert ChanOk(s, c);
    }
  }

  lemma WithdrawKeepsInv(s: Sys, own: nat)
    requires Inv(s) && Enabled(s, Withdraw(own))
    ensures Inv(Next(s, Withdraw(own)))
  {
    var t := Next(s, Withdraw(own));
    WithoutSpec(s.waiters, own);
    assert ChanOk(s, own);
    forall c | 0 <= c < |t.chans| ensures ChanOk(t, c) {
      assert ChanOk(s, c);
    }
  }

  lemma StepKeepsInv(s: Sys, l: Label)
    requires Inv(s) && Enabled(s, l)
    ensures Inv(Next(s, l))
  {
    match l
    case Handle(e) => HandleKeepsInv(s, e);
    case TakeList => TakeListKeepsInv(s);
    case Deliver => DeliverKeepsInv(s);
    case Unlock =>
      forall c | 0 <= c < |s.chans| ensures ChanOk(Next(s, l), c) {
        assert ChanOk(s, c);
      }
    case Install(replay) => InstallKeepsInv(s, replay);
    case Receive(c) => ReceiveKeepsInv(s, c);
    case Withdraw(c) => WithdrawKeepsInv(s, c);
  }

  lemma {:induction false} RunKeepsInv(ls: seq<Label>)
    requires Run(ls).Some?
    ensures Inv(Run(ls).value)
  {
    if ls != [] {
      RunKeepsInv(ls[..|ls| - 1]);
      StepKeepsInv(Run(ls[..|ls| - 1]).value, ls[|ls| - 1]);
    }
  }

  // ----- the theorems -----

  /** In every interleaving, a channel is sent at most the one event its waiter is owed, and with the
      state mutex free every waiter that is owed one and was not withdrawn has been sent it. */
  lemma Delivery(ls: seq<Label>, c: nat)
    requires Run(ls).Some? && c < |Run(ls).value.chans|
    ensures var s := Run(ls).value;
            var w := s.chans[c];
            && w.installedAt <= |s.log|
            && var owed := Owed(s.log, w.installedAt, w.replay);
               && (w.Sent() == [] || (owed.Some? && w.Sent() == [owed.value]))
               && (s.mu.Free? && !w.withdrawn ==> (w.Sent() != [] <==> owed.Some?))
  {
    RunKeepsInv(ls);
    assert ChanOk(Run(ls).value, c);
  }

  /** Nothing is ever dropped: a listed channel is listed once, is empty and was never sent anything;
      and with the state mutex free, a terminal event on record means that no waiter is registered. */
  lemma NothingDropped(ls: seq<Label>)
    requires Run(ls).Some?
    ensures var s := Run(ls).value;
            && s.dropped == 0
            && Distinct(Registered(s))
            && (forall c :: c in Registered(s) ==> c < |s.chans| && s.chans[c].Sent() == [])
            && (s.mu.Free? && s.core.lastTerminal.Some? ==> s.waiters == [])
  {
    RunKeepsInv(ls);
    var s := Run(ls).value;
    forall c | c in Registered(s) ensures c < |s.chans| && s.chans[c].Sent() == [] {
      assert ChanOk(s, c);
    }
  }

  /** A resume waiter installed in a live session gets only the first stop, exit, termination or
      adapter death handled after its installation, never an earlier pause. */
  lemma ResumeWaiterGetsNextStop(ls: seq<Label>, c: nat)
    requires Run(ls).Some? && c < |Run(ls).value.chans|
    requires !Run(ls).value.chans[c].replay && Run(ls).value.chans[c].Sent() != []
    ensures var s := Run(ls).value;
            var w := s.chans[c];
            && w.installedAt <= |s.log|
            && (Recorded(s.log[..w.installedAt]).None? ==>
               exists i :: && w.installedAt <= i < |s.log| && Notifies(s.log[i])
                           && |w.Sent()| == 1 && Tells(s.log[i], w.Sent()[0])
                           && forall k :: w.installedAt <= k < i ==> !Notifies(s.log[k]))
  {
    PayloadTells(Run(ls).value.log);
    Delivery(ls, c);
    FirstNoticeSpec(Run(ls).value.log, Run(ls).value.chans[c].installedAt);
  }

  /** A waiter finds an event in its channel at installation exactly when a terminal event is on record,
      which it then finds, or it replays pauses and there is a live pause, which it then finds. */
  lemma InstallationReplays(ls: seq<Label>, replay: bool)
    requires Run(ls + [Install(replay)]).Some?
    ensures Run(ls).Some?
    ensures var log := Run(ls).value.log;
            var t := Run(ls + [Install(replay)]).value;
            && |t.chans| == |Run(ls).value.chans| + 1
            && t.log == log
            && t.chans[|t.chans| - 1].buf ==
               (if Recorded(log).Some? then [Recorded(log).value]
                else if replay && LivePause(log).Some? then [LivePause(log).value] else [])
            && (|t.chans| - 1 in t.waiters <==> t.chans[|t.chans| - 1].buf == [])
  {
    RunSnoc(ls, Install(replay));
    RunKeepsInv(ls);
    var s := Run(ls).value;
    StateFollowsLog(s.log);
    assert |s.chans| !in s.waiters;
  }

  /** A terminal event on record stays on record through every further step. */
  lemma {:induction false} RecordIsSticky(ls: seq<Label>, n: nat)
    requires Run(ls).Some? && n <= |ls|
    ensures Run(ls[..n]).Some?
    ensures Run(ls[..n]).value.core.lastTerminal.Some? ==> Run(ls).value.core.lastTerminal.Some?
    ensures |Run(ls[..n]).value.log| <= |Run(ls).value.log|
  {
    if n == |ls| {
      assert ls[..n] == ls;
    } else {
      assert ls[..|ls| - 1][..n] == ls[..n];
      RecordIsSticky(ls[..|ls| - 1], n);
    }
  }

  function Finish(s: Sys): seq<Label> {
    match s.mu
    case Free => []
    case Notifying(_) => [TakeList] + seq(|s.waiters|, _ => Deliver) + [Unlock]
    case Delivering(_, rest) => seq(|rest|, _ => Deliver) + [Unlock]
  }

  lemma RunSnoc(ls: seq<Label>, l: Label)
    ensures Run(ls + [l]) ==
            if Run(ls).Some? && Enabled(Run(ls).value, l) then Some(Next(Run(ls).value, l)) else None
  {
    assert (ls + [l])[..|ls|] == ls;
  }

  lemma {:induction false} DeliveriesComplete(ls: seq<Label>, n: nat)
    requires Run(ls).Some? && Run(ls).value.mu.Delivering? && n <= |Run(ls).value.mu.rest|
    ensures var t := Run(ls + seq(n, _ => Deliver));
            && t.Some? && t.value.mu.Delivering? && t.value.mu.rest == Run(ls).value.mu.rest[n..]
            && t.value.log == Run(ls).value.log
  {
    if n == 0 {
      assert ls + seq(0, _ => Deliver) == ls;
    } else {
      var before := ls + seq(n - 1, _ => Deliver);
      DeliveriesComplete(ls, n - 1);
      RunKeepsInv(before);
      RunSnoc(before, Deliver);
      assert ls + seq(n, _ => Deliver) == before + [Deliver];
      assert Run(before).value.mu.rest[0] in Registered(Run(before).value);
    }
  }

  /** The notifier never blocks: whatever was interleaved, it can run on by itself until the mutex is free. */
  lemma NotifierFinishes(ls: seq<Label>)
    requires Run(ls).Some?
    ensures var t := Run(ls + Finish(Run(ls).value));
            t.Some? && t.value.mu.Free? && t.value.log == Run(ls).value.log
  {
    var s := Run(ls).value;
    if s.mu.Free? {
      assert ls + Finish(s) == ls;
    } else {
      var start := if s.mu.Notifying? then ls + [TakeList] else ls;
      RunSnoc(ls, TakeList);
      var n := |Run(start).value.mu.rest|;
      DeliveriesComplete(start, n);
      RunSnoc(start + seq(n, _ => Deliver), Unlock);
      assert ls + Finish(s) == start + seq(n, _ => Deliver) + [Unlock];
    }
  }
}
