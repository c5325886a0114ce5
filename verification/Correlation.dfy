/** Request/response correlation in the DAP client. */
module Correlation {
  import opened Basics

  datatype Msg = Msg(requestSeq: int, body: string)

  /** A response channel of capacity one, the call it was made for, and how often it was sent to and closed. */
  datatype Chan = Chan(owner: int, buf: seq<Msg>, closed: bool, sends: nat, closes: nat)

  datatype Status =
    | Allocated            // has a sequence number
    | Refused              // the client was closed
    | Registered           // in the pending map, writing the request
    | Failed               // the write failed
    | Waiting              // the request was written
    | GaveUp               // timed out or cancelled
    | Got(m: Msg)
    | Disconnected

  datatype Call = Call(chan: Option<nat>, status: Status)

  datatype Reader =
    | Reading
    | Read(m: Msg)              // dispatch, before the lock
    | Sending(c: nat, m: Msg)   // dispatch took the entry out of the map and unlocked
    | Closing(c: nat)           // dispatch has sent
    | Failing                   // a read error, before the lock
    | Draining                  // closing the pending channels under the lock
    | Dead

  datatype Lock = Free | ByReader | ByClose(todo: set<int>)

  datatype Sys = Sys(next: int, calls: map<int, Call>, pending: map<int, nat>, closed: bool,
                     chans: seq<Chan>, reader: Reader, lock: Lock, fault: bool) {
    function HeldChan(): nat {
      if reader.Sending? || reader.Closing? then reader.c else 0
    }
  }

  const INIT := Sys(0, map[], map[], false, [], Reading, Free, false)

  /** Callers, the reader and Close interleave; the client mutex guards the pending map and the closed flag, and channel
      operations need no lock. */
  datatype Label =
    | Begin | Register(k: int) | Written(k: int) | WriteFails(k: int) | GiveUp(k: int)
    | ReadMsg(m: Msg) | Match | Send | CloseSent
    | ReadFails | DrainBegin | DrainOne(k: int) | DrainEnd
    | CloseBegin | CloseOne(k: int) | CloseEnd
    | Receive(k: int) | SeeClosed(k: int)

  predicate Is(s: Sys, k: int, status: Status) {
    k in s.calls && s.calls[k].status == status
  }

  /** The channel a waiting call reads. */
  predicate WaitsOn(s: Sys, k: int, c: nat) {
    Is(s, k, Waiting) && s.calls[k].chan == Some(c) && c < |s.chans|
  }

  predicate Readable(s: Sys, k: int) {
    Is(s, k, Waiting) && s.calls[k].chan.Some? && WaitsOn(s, k, s.calls[k].chan.value)
  }

  predicate Enabled(s: Sys, l: Label) {
    match l
    case Begin => true
    case Register(k) => Is(s, k, Allocated) && s.lock.Free?
    case Written(k) => Is(s, k, Registered)
    case WriteFails(k) => Is(s, k, Registered) && s.lock.Free?
    case GiveUp(k) => Is(s, k, Waiting) && s.lock.Free?
    case ReadMsg(_) => s.reader.Reading?
    case Match => s.reader.Read? && s.lock.Free?
    case Send => s.reader.Sending? && s.reader.c < |s.chans|
    case CloseSent => s.reader.Closing? && s.reader.c < |s.chans|
    case ReadFails => s.reader.Reading?
    case DrainBegin => s.reader.Failing? && s.lock.Free?
    case DrainOne(k) => s.lock.ByReader? && k in s.pending && s.pending[k] < |s.chans|
    case DrainEnd => s.lock.ByReader? && s.pending == map[]
    case CloseBegin => s.lock.Free?
    case CloseOne(k) => s.lock.ByClose? && k in s.lock.todo && k in s.pending && s.pending[k] < |s.chans|
    case CloseEnd => s.lock.ByClose? && s.lock.todo == {}
    case Receive(k) => Readable(s, k) && s.chans[s.calls[k].chan.value].buf != []
    case SeeClosed(k) => Readable(s, k) && s.chans[s.calls[k].chan.value].buf == [] && s.chans[s.calls[k].chan.value].closed
  }

  function SetStatus(s: Sys, k: int, status: Status): Sys
    requires k in s.calls
  {
    s.(calls := s.calls[k := s.calls[k].(status := status)])
  }

  /** Closing a closed channel is a fault. */
  function CloseChan(s: Sys, c: nat): Sys
    requires c < |s.chans|
  {
    var ch := s.chans[c];
    s.(chans := s.chans[c := ch.(closed := true, closes := ch.closes + 1)], fault := s.fault || ch.closed)
  }

  /** Sending to a closed channel, or to a full one, which would block the reader, is a fault. */
  function SendTo(s: Sys, c: nat, m: Msg): Sys
    requires c < |s.chans|
  {
    var ch := s.chans[c];
    s.(chans := s.chans[c := ch.(buf := ch.buf + [m], sends := ch.sends + 1)],
    fault := s.fault || ch.closed || ch.buf != [])
  }

  function Next(s: Sys, l: Label): Sys
    requires Enabled(s, l)
  {
    match l
    case Begin => s.(next := s.next + 1, calls := s.calls[s.next + 1 := Call(None, Allocated)])
    case Register(k) =>
      if s.closed then SetStatus(s, k, Refused)
      else s.(calls := s.calls[k := Call(Some(|s.chans|), Registered)], pending := s.pending[k := |s.chans|],
        chans := s.chans + [Chan(k, [], false, 0, 0)])
    case Written(k) => SetStatus(s, k, Waiting)
    case WriteFails(k) => SetStatus(s, k, Failed).(pending := s.pending - {k})
    case GiveUp(k) => SetStatus(s, k, GaveUp).(pending := s.pending - {k})
    case ReadMsg(m) => s.(reader := Read(m))
    case Match =>
      var k := s.reader.m.requestSeq;
      if k in s.pending then s.(pending := s.pending - {k}, reader := Sending(s.pending[k], s.reader.m))
      else s.(reader := Reading)
    case Send => SendTo(s, s.reader.c, s.reader.m).(reader := Closing(s.reader.c))
    case CloseSent => CloseChan(s, s.reader.c).(reader := Reading)
    case ReadFails => s.(reader := Failing)
    case DrainBegin => s.(reader := Draining, lock := ByReader)
    case DrainOne(k) => CloseChan(s, s.pending[k]).(pending := s.pending - {k})
    case DrainEnd => s.(reader := Dead, lock := Free)
    case CloseBegin => if s.closed then s else s.(closed := true, lock := ByClose(s.pending.Keys))
    case CloseOne(k) => CloseChan(s, s.pending[k]).(lock := ByClose(s.lock.todo - {k}))
    case CloseEnd => s.(pending := map[], lock := Free)
    case Receive(k) =>
      var c := s.calls[k].chan.value;
      var ch := s.chans[c];
      SetStatus(s, k, Got(ch.buf[0])).(chans := s.chans[c := ch.(buf := ch.buf[1..])])
    case SeeClosed(k) => SetStatus(s, k, Disconnected)
  }

  function Run(ls: seq<Label>): Option<Sys> {
    if ls == [] then Some(INIT)
    else
      var prev := Run(ls[..|ls| - 1]);
      if prev.Some? && Enabled(prev.value, ls[|ls| - 1]) then Some(Next(prev.value, ls[|ls| - 1])) else None
  }

  /** The states that the labels lead through, one by one. */
  ghost predicate IsTrace(states: seq<Sys>, ls: seq<Label>) {
    && |states| == |ls| + 1 && states[0] == INIT
    && forall i {:trigger ls[i]} :: 0 <= i < |ls| ==> Enabled(states[i], ls[i]) && states[i + 1] == Next(states[i], ls[i])
  }

  /** The labels lead through the states to s. */
  ghost predicate Reached(states: seq<Sys>, ls: seq<Label>, s: Sys) {
    IsTrace(states, ls) && states[|ls|] == s
  }

  lemma Extend(states: seq<Sys>, ls: seq<Label>, s: Sys, l: Label)
    requires Reached(states, ls, s) && Enabled(s, l)
    ensures Reached(states + [Next(s, l)], ls + [l], Next(s, l))
  {
  }

  /** It is the run of the labels. */
  lemma {:induction false} TraceIsRun(states: seq<Sys>, ls: seq<Label>, s: Sys)
    requires Reached(states, ls, s)
    ensures Run(ls) == Some(s)
  {
    if ls != [] {
      var n := |ls| - 1;
      var before, last := states[n], ls[n];
      assert Enabled(before, last) && s == Next(before, last);
      assert Reached(states[..n + 1], ls[..n], before) by {
        forall i | 0 <= i < n ensures Enabled(states[i], ls[..n][i]) && states[i + 1] == Next(states[i], ls[..n][i]) {
          assert ls[..n][i] == ls[i];
        }
      }
      TraceIsRun(states[..n + 1], ls[..n], before);
    }
  }

  // ----- the invariant: every open channel has exactly one party that may still send to it or close it -----

  predicate Listed(s: Sys, c: nat)
    requires c < |s.chans|
  {
    s.chans[c].owner in s.pending && s.pending[s.chans[c].owner] == c
  }

  predicate Held(s: Sys, c: nat) {
    (s.reader.Sending? || s.reader.Closing?) && s.reader.c == c
  }

  predicate Abandoned(st: Status) {
    st.GaveUp? || st.Failed?
  }

  predicate ChanOk(s: Sys, c: nat)
    requires c < |s.chans|
  {
    var ch := s.chans[c];
    && ch.owner in s.calls && s.calls[ch.owner].chan == Some(c)
    && ch.closes == (if ch.closed then 1 else 0) && |ch.buf| <= ch.sends <= 1
    && (ch.buf != [] ==> ch.buf[0].requestSeq == ch.owner)
    && (Listed(s, c) ==> ch.sends == 0 && (ch.closed <==> s.lock.ByClose? && ch.owner !in s.lock.todo))
    && (Held(s, c) ==> !Listed(s, c) && !ch.closed && ch.sends == (if s.reader.Closing? then 1 else 0))
    && (s.reader.Sending? && s.reader.c == c ==> s.reader.m.requestSeq == ch.owner)
    && (ch.closed || Listed(s, c) || Held(s, c) || Abandoned(s.calls[ch.owner].status))
  }

  predicate CallOk(s: Sys, k: int)
    requires k in s.calls
  {
    var call := s.calls[k];
    && k <= s.next
    && (call.chan.None? <==> call.status.Allocated? || call.status.Refused?)
    && (call.chan.Some? ==> call.chan.value < |s.chans| && s.chans[call.chan.value].owner == k)
    && (call.status.Got? ==> call.status.m.requestSeq == k)
  }

  ghost predicate Inv(s: Sys) {
    && !s.fault
    && (forall c :: 0 <= c < |s.chans| ==> ChanOk(s, c))
    && (forall k :: k in s.calls ==> CallOk(s, k))
    && (forall k :: k in s.pending ==> s.pending[k] < |s.chans| && s.chans[s.pending[k]].owner == k)
    && (Held(s, s.HeldChan()) ==> s.HeldChan() < |s.chans|)
    && (s.lock.ByReader? <==> s.reader.Draining?)
    && (s.lock.ByClose? ==> s.closed && s.lock.todo <= s.pending.Keys)
    && (s.closed && s.lock.Free? ==> s.pending == map[])
  }

  lemma CallKeepsInv(s: Sys, l: Label)
    requires Inv(s) && Enabled(s, l) && (l.Begin? || l.Written? || l.WriteFails? || l.GiveUp?)
    ensures Inv(Next(s, l))
  {
    var t := Next(s, l);
    forall c | 0 <= c < |t.chans| ensures ChanOk(t, c) {
      assert c < |s.chans| ==> ChanOk(s, c);
    }
    forall k | k in t.calls ensures CallOk(t, k) {
      assert k in s.calls ==> CallOk(s, k);
    }
  }

  lemma RegisterKeepsInv(s: Sys, l: Label)
    requires Inv(s) && Enabled(s, l) && (l.Register?)
    ensures Inv(Next(s, l))
  {
    var t := Next(s, l);
    forall c | 0 <= c < |t.chans| ensures ChanOk(t, c) {
      assert c < |s.chans| ==> ChanOk(s, c);
    }
    forall k | k in t.calls ensures CallOk(t, k) {
      assert k in s.calls ==> CallOk(s, k);
    }
  }

  lemma ReadKeepsInv(s: Sys, l: Label)
    requires Inv(s) && Enabled(s, l) && (l.ReadMsg? || l.ReadFails? || l.Match?)
    ensures Inv(Next(s, l))
  {
    var t := Next(s, l);
    forall c | 0 <= c < |t.chans| ensures ChanOk(t, c) {
      assert c < |s.chans| ==> ChanOk(s, c);
    }
    forall k | k in t.calls ensures CallOk(t, k) {
      assert k in s.calls ==> CallOk(s, k);
    }
  }

  lemma SendKeepsInv(s: Sys, l: Label)
    requires Inv(s) && Enabled(s, l) && (l.Send? || l.CloseSent?)
    ensures Inv(Next(s, l))
  {
    var t := Next(s, l);
    assert Held(s, s.HeldChan()) && ChanOk(s, s.reader.c);
    forall c | 0 <= c < |t.chans| ensures ChanOk(t, c) {
      assert c < |s.chans| ==> ChanOk(s, c);
    }
    forall k | k in t.calls ensures CallOk(t, k) {
      assert k in s.calls ==> CallOk(s, k);
    }
  }

  lemma DrainKeepsInv(s: Sys, l: Label)
    requires Inv(s) && Enabled(s, l) && (l.DrainBegin? || l.DrainOne? || l.DrainEnd?)
    ensures Inv(Next(s, l))
  {
    var t := Next(s, l);
    if l.DrainOne? {
      assert ChanOk(s, s.pending[l.k]) && Listed(s, s.pending[l.k]);
    }
    forall c | 0 <= c < |t.chans| ensures ChanOk(t, c) {
      assert c < |s.chans| ==> ChanOk(s, c);
    }
    forall k | k in t.calls ensures CallOk(t, k) {
      assert k in s.calls ==> CallOk(s, k);
    }
  }

  lemma CloseKeepsInv(s: Sys, l: Label)
    requires Inv(s) && Enabled(s, l) && (l.CloseBegin? || l.CloseOne? || l.CloseEnd?)
    ensures Inv(Next(s, l))
  {
    var t := Next(s, l);
    if l.CloseOne? {
      assert ChanOk(s, s.pending[l.k]) && Listed(s, s.pending[l.k]);
    }
    forall c | 0 <= c < |t.chans| ensures ChanOk(t, c) {
      assert c < |s.chans| ==> ChanOk(s, c);
    }
    forall k | k in t.calls ensures CallOk(t, k) {
      assert k in s.calls ==> CallOk(s, k);
    }
  }

  lemma ReceiveKeepsInv(s: Sys, l: Label)
    requires Inv(s) && Enabled(s, l) && (l.Receive? || l.SeeClosed?)
    ensures Inv(Next(s, l))
  {
    var t := Next(s, l);
    assert CallOk(s, l.k) && ChanOk(s, s.calls[l.k].chan.value);
    forall c | 0 <= c < |t.chans| ensures ChanOk(t, c) {
      assert c < |s.chans| ==> ChanOk(s, c);
    }
    forall k | k in t.calls ensures CallOk(t, k) {
      assert k in s.calls ==> CallOk(s, k);
    }
  }

  lemma StepKeepsInv(s: Sys, l: Label)
    requires Inv(s) && Enabled(s, l)
    ensures Inv(Next(s, l))
  {
    match l
    case Register(_) => RegisterKeepsInv(s, l);
    case Begin => CallKeepsInv(s, l);
    case Written(_) => CallKeepsInv(s, l);
    case WriteFails(_) => CallKeepsInv(s, l);
    case GiveUp(_) => CallKeepsInv(s, l);
    case ReadMsg(_) => ReadKeepsInv(s, l);
    case ReadFails => ReadKeepsInv(s, l);
    case Match => ReadKeepsInv(s, l);
    case Send => SendKeepsInv(s, l);
    case CloseSent => SendKeepsInv(s, l);
    case DrainBegin => DrainKeepsInv(s, l);
    case DrainOne(_) => DrainKeepsInv(s, l);
    case DrainEnd => DrainKeepsInv(s, l);
    case CloseBegin => CloseKeepsInv(s, l);
    case CloseOne(_) => CloseKeepsInv(s, l);
    case CloseEnd => CloseKeepsInv(s, l);
    case Receive(_) => ReceiveKeepsInv(s, l);
    case SeeClosed(_) => ReceiveKeepsInv(s, l);
  }

  lemma {:induction false} RunKeepsInv(ls: seq<Label>)
    requires Run(ls).Some?
    ensures Inv(Run(ls).value)
  {
    if ls != [] {
      RunKeepsInv(ls[..|ls| - 1]);
      StepKeepsInv(Run(ls[..|ls| - 1]).value, ls[|ls| - 1]);
    }
  }

  lemma ReachedInv(states: seq<Sys>, ls: seq<Label>, s: Sys)
    requires Reached(states, ls, s)
    ensures Inv(s)
  {
    TraceIsRun(states, ls, s);
    RunKeepsInv(ls);
  }

  // ----- the theorems -----

  predicate ChannelSafe(ch: Chan) {
    && ch.sends <= 1
    && ch.closes == (if ch.closed then 1 else 0)
    && |ch.buf| <= 1
    && (ch.buf != [] ==> ch.buf[0].requestSeq == ch.owner)
  }

  /** In every interleaving, no channel is sent to twice, closed twice, sent to after closing, or
      sent to while full; a closed channel was closed exactly once. */
  lemma ChannelsAreSafe(ls: seq<Label>, c: nat)
    requires Run(ls).Some? && c < |Run(ls).value.chans|
    ensures var s := Run(ls).value;
            !s.fault && ChannelSafe(s.chans[c])
  {
    RunKeepsInv(ls);
    assert ChanOk(Run(ls).value, c);
  }

  /** A call only ever gets a response to its own request, and no two calls get the same sequence number
      or the same channel. */
  lemma ResponsesMatch(ls: seq<Label>, k: int)
    requires Run(ls).Some? && k in Run(ls).value.calls
    ensures var s := Run(ls).value;
            && (s.calls[k].status.Got? ==> s.calls[k].status.m.requestSeq == k)
            && k <= s.next
            && forall j :: j in s.calls && s.calls[j].chan == s.calls[k].chan && s.calls[k].chan.Some? ==> j == k
  {
    RunKeepsInv(ls);
    var s := Run(ls).value;
    assert CallOk(s, k);
    forall j | j in s.calls && s.calls[j].chan == s.calls[k].chan && s.calls[k].chan.Some? ensures j == k {
      assert CallOk(s, j);
    }
  }

  predicate Final(st: Status) {
    st.Refused? || st.Failed? || st.GaveUp? || st.Got? || st.Disconnected?
  }

  lemma StepKeepsOutcome(s: Sys, l: Label, k: int)
    requires Inv(s) && Enabled(s, l) && k in s.calls && Final(s.calls[k].status)
    ensures k in Next(s, l).calls && Next(s, l).calls[k] == s.calls[k]
  {
    assert CallOk(s, k);
  }

  /** The outcome of a call is settled once: after a timeout, whatever arrives later, the call stays timed
      out, and no other call ever gets a message with its sequence number. */
  lemma {:induction false} OutcomeIsFinal(ls: seq<Label>, n: nat, k: int)
    requires n <= |ls| && Run(ls).Some?
    requires Run(ls[..n]).Some? && k in Run(ls[..n]).value.calls && Final(Run(ls[..n]).value.calls[k].status)
    ensures k in Run(ls).value.calls && Run(ls).value.calls[k] == Run(ls[..n]).value.calls[k]
    ensures forall j :: && j in Run(ls).value.calls && j != k && Run(ls).value.calls[j].status.Got?
                        ==> Run(ls).value.calls[j].status.m.requestSeq != k
  {
    if n == |ls| {
      assert ls[..n] == ls;
    } else {
      var front := ls[..|ls| - 1];
      assert front[..n] == ls[..n];
      OutcomeIsFinal(front, n, k);
      RunKeepsInv(front);
      StepKeepsOutcome(Run(front).value, ls[|ls| - 1], k);
    }
    RunKeepsInv(ls);
    forall j | j in Run(ls).value.calls && j != k && Run(ls).value.calls[j].status.Got?
      ensures Run(ls).value.calls[j].status.m.requestSeq != k
    {
      assert CallOk(Run(ls).value, j);
    }
  }

  predicate CanFinish(s: Sys, k: int) {
    Enabled(s, Receive(k)) || Enabled(s, SeeClosed(k))
  }

  /** A waiting call has something to read unless its entry is still pending or the reader is about to
      serve it: no response channel is ever lost. */
  lemma NoCallIsForgotten(ls: seq<Label>, k: int)
    requires Run(ls).Some? && Is(Run(ls).value, k, Waiting)
    ensures var s := Run(ls).value;
            && s.calls[k].chan.Some?
            && (!CanFinish(s, k) ==> k in s.pending || Held(s, s.calls[k].chan.value))
  {
    RunKeepsInv(ls);
    var s := Run(ls).value;
    assert CallOk(s, k);
    assert ChanOk(s, s.calls[k].chan.value);
  }

  /** When Close has finished and the reader holds no channel, every waiting call can finish. */
  lemma CloseReleasesWaiters(ls: seq<Label>, k: int)
    requires Run(ls).Some? && Is(Run(ls).value, k, Waiting)
    requires Run(ls).value.closed && Run(ls).value.lock.Free?
    requires !Run(ls).value.reader.Sending? && !Run(ls).value.reader.Closing?
    ensures CanFinish(Run(ls).value, k)
  {
    NoCallIsForgotten(ls, k);
    RunKeepsInv(ls);
  }

  // ----- after the reader's death -----

  lemma PendingIsStuck(s: Sys, k: int)
    requires Inv(s) && Is(s, k, Waiting) && s.reader.Dead? && s.lock.Free?
    ensures CanFinish(s, k) <==> k !in s.pending
  {
    assert CallOk(s, k);
    var c := s.calls[k].chan.value;
    assert ChanOk(s, c);
    if k in s.pending {
      assert ChanOk(s, s.pending[k]) && Listed(s, s.pending[k]);
    }
  }

  /** The call was registered before the reader, after a read error, began to close what was pending. */
  ghost predicate InTime(ls: seq<Label>, k: int) {
    exists i, j :: 0 <= i < j < |ls| && ls[i] == Register(k) && ls[j] == DrainBegin
  }

  lemma InTimeSnoc(ls: seq<Label>, l: Label, k: int)
    ensures InTime(ls + [l], k) <==> InTime(ls, k) || (l == DrainBegin && Register(k) in ls)
  {
    var all := ls + [l];
    if InTime(ls, k) {
      var i, j :| 0 <= i < j < |ls| && ls[i] == Register(k) && ls[j] == DrainBegin;
      assert all[i] == Register(k) && all[j] == DrainBegin;
    } else if l == DrainBegin && Register(k) in ls {
      var i :| 0 <= i < |ls| && ls[i] == Register(k);
      assert all[i] == Register(k) && all[|ls|] == DrainBegin;
    }
    if InTime(all, k) {
      var i, j :| 0 <= i < j < |all| && all[i] == Register(k) && all[j] == DrainBegin;
      assert ls[i] == Register(k);
    }
  }

  /** What the labels of a run say of the reader and of one call. */
  ghost predicate Traced(ls: seq<Label>, s: Sys, k: int) {
    && (DrainBegin in ls <==> s.reader.Draining? || s.reader.Dead?)
    && (k in s.calls && s.calls[k].chan.Some? ==> Register(k) in ls)
    && (Register(k) in ls ==> k in s.calls && !s.calls[k].status.Allocated?)
  }

  /** The pending map loses what was registered in time, and while the client is open keeps what was not. */
  ghost predicate Sorted(ls: seq<Label>, s: Sys, k: int) {
    && (s.reader.Draining? && k in s.calls && s.calls[k].chan.Some? ==> InTime(ls, k))
    && (s.reader.Dead? && InTime(ls, k) ==> k !in s.pending)
    && (s.reader.Dead? && Listening(s, k) ==> InTime(ls, k) || k in s.pending)
  }

  /** The client is open and the call is being written or waits. */
  predicate Listening(s: Sys, k: int) {
    !s.closed && (Is(s, k, Registered) || Is(s, k, Waiting))
  }

  lemma ListeningStep(s: Sys, l: Label, k: int)
    requires Inv(s) && Enabled(s, l) && Listening(Next(s, l), k) && s.reader.Dead?
    ensures Next(s, l).reader.Dead?
    ensures Listening(s, k) || l == Register(k)
    ensures k in Next(s, l).pending <==> k in s.pending || l == Register(k)
  {
    if k in s.calls {
      assert CallOk(s, k);
    }
  }

  lemma TracedStep(ls: seq<Label>, s: Sys, l: Label, k: int)
    requires Inv(s) && Enabled(s, l) && Traced(ls, s, k)
    ensures Traced(ls + [l], Next(s, l), k)
  {
    if k in s.calls {
      assert CallOk(s, k);
    }
  }

  lemma SortedStep(ls: seq<Label>, s: Sys, l: Label, k: int)
    requires Inv(s) && Enabled(s, l) && Traced(ls, s, k) && Sorted(ls, s, k)
    ensures Sorted(ls + [l], Next(s, l), k)
  {
    InTimeSnoc(ls, l, k);
    if s.reader.Dead? {
      if Listening(Next(s, l), k) {
        ListeningStep(s, l, k);
      }
    } else if k in s.calls {
      assert CallOk(s, k);
      if k in s.pending {
        assert s.chans[s.pending[k]].owner == k;
        assert ChanOk(s, s.pending[k]);
      }
    }
  }

  lemma {:induction false} RunIsTraced(ls: seq<Label>, k: int)
    requires Run(ls).Some?
    ensures Traced(ls, Run(ls).value, k) && Sorted(ls, Run(ls).value, k)
  {
    if ls != [] {
      var front, l := ls[..|ls| - 1], ls[|ls| - 1];
      RunIsTraced(front, k);
      RunKeepsInv(front);
      TracedStep(front, Run(front).value, l, k);
      SortedStep(front, Run(front).value, l, k);
      assert ls == front + [l];
    }
  }

  /** With the reader dead and the client not closed, a waiting call can finish exactly when it was registered
      before the reader began to close what was pending: a read error releases the calls it finds, and no later one. */
  lemma DeadReaderReleases(ls: seq<Label>, k: int)
    requires Run(ls).Some? && Is(Run(ls).value, k, Waiting)
    requires Run(ls).value.reader.Dead? && Run(ls).value.lock.Free? && !Run(ls).value.closed
    ensures CanFinish(Run(ls).value, k) <==> InTime(ls, k)
  {
    RunKeepsInv(ls);
    RunIsTraced(ls, k);
    PendingIsStuck(Run(ls).value, k);
  }

  predicate Stuck(s: Sys, k: int) {
    Is(s, k, Waiting) && s.reader.Dead? && s.lock.Free? && !s.closed && k in s.pending
  }

  predicate Released(s: Sys, k: int) {
    s.reader.Dead? && k in s.calls && (Final(s.calls[k].status) || (s.closed && s.calls[k].status.Waiting?))
  }

  predicate Ends(l: Label, k: int) {
    l == GiveUp(k) || l == CloseBegin
  }

  lemma StuckStep(s: Sys, l: Label, k: int)
    requires Inv(s) && Enabled(s, l) && Stuck(s, k)
    ensures if Ends(l, k) then Released(Next(s, l), k) else Stuck(Next(s, l), k)
  {
    PendingIsStuck(s, k);
  }

  lemma ReleasedStep(s: Sys, l: Label, k: int)
    requires Inv(s) && Enabled(s, l) && Released(s, k)
    ensures Released(Next(s, l), k)
  {
    if Final(s.calls[k].status) {
      StepKeepsOutcome(s, l, k);
    }
  }

  lemma {:induction false} StuckUntil(ls: seq<Label>, more: seq<Label>, k: int)
    requires Run(ls).Some? && Stuck(Run(ls).value, k) && Run(ls + more).Some?
    ensures if GiveUp(k) in more || CloseBegin in more then Released(Run(ls + more).value, k)
            else Stuck(Run(ls + more).value, k)
  {
    if more == [] {
      assert ls + more == ls;
    } else {
      var front, l := more[..|more| - 1], more[|more| - 1];
      assert ls + more == ls + front + [l] && more == front + [l];
      RunSnoc(ls + front, l);
      StuckUntil(ls, front, k);
      RunKeepsInv(ls + front);
      if GiveUp(k) in front || CloseBegin in front {
        ReleasedStep(Run(ls + front).value, l, k);
      } else {
        StuckStep(Run(ls + front).value, l, k);
      }
    }
  }

  /** A call that the dead reader does not release stays stuck, whatever the other parties do, exactly until it is
      given up or Close begins: with neither it waits and can read nothing; with either it has ended or, as soon
      as the lock is free, can finish. */
  lemma OnlyTimeoutOrCloseReleases(ls: seq<Label>, more: seq<Label>, k: int)
    requires Run(ls).Some? && Is(Run(ls).value, k, Waiting) && !InTime(ls, k)
    requires Run(ls).value.reader.Dead? && Run(ls).value.lock.Free? && !Run(ls).value.closed
    requires Run(ls + more).Some?
    ensures var t := Run(ls + more).value;
            && k in t.calls
            && if GiveUp(k) in more || CloseBegin in more
               then Final(t.calls[k].status) || (t.closed && Is(t, k, Waiting) && (t.lock.Free? ==> CanFinish(t, k)))
               else Is(t, k, Waiting) && !CanFinish(t, k)
  {
    RunIsTraced(ls, k);
    StuckUntil(ls, more, k);
    RunKeepsInv(ls + more);
    var t := Run(ls + more).value;
    if t.lock.Free? && Is(t, k, Waiting) {
      PendingIsStuck(t, k);
    }
  }

  lemma NewCall(s: Sys, k: int)
    requires Inv(s) && s.lock.Free? && !s.closed && k == s.next + 1
    ensures var s1 := Next(s, Begin);
            && Enabled(s1, Register(k))
            && Enabled(Next(s1, Register(k)), Written(k))
            && var t := Next(Next(s1, Register(k)), Written(k));
               Is(t, k, Waiting) && k in t.pending && t.reader == s.reader && t.lock.Free? && !t.closed
  {
  }

  lemma RunNewCall(ls: seq<Label>, s: Sys, k: int)
    requires Run(ls) == Some(s) && Enabled(Next(s, Begin), Register(k))
    requires Enabled(Next(Next(s, Begin), Register(k)), Written(k))
    ensures Run(ls + [Begin, Register(k), Written(k)]) == Some(Next(Next(Next(s, Begin), Register(k)), Written(k)))
  {
    RunSnoc(ls, Begin);
    RunSnoc(ls + [Begin], Register(k));
    RunSnoc(ls + [Begin] + [Register(k)], Written(k));
    assert ls + [Begin] + [Register(k)] + [Written(k)] == ls + [Begin, Register(k), Written(k)];
  }

  /** A new call on a client whose reader is dead comes to be stuck that way: nothing keeps it from being registered and written. */
  lemma CallAfterDeathIsStuck(ls: seq<Label>)
    requires Run(ls).Some? && Run(ls).value.reader.Dead? && Run(ls).value.lock.Free? && !Run(ls).value.closed
    ensures var k := Run(ls).value.next + 1;
            var all := ls + [Begin, Register(k), Written(k)];
            Run(all).Some? && Stuck(Run(all).value, k) && !CanFinish(Run(all).value, k) && !InTime(all, k)
  {
    RunKeepsInv(ls);
    NewCallIsStuck(ls, Run(ls).value, Run(ls).value.next + 1);
  }

  lemma NewCallIsStuck(ls: seq<Label>, s: Sys, k: int)
    requires Run(ls) == Some(s) && Inv(s) && s.reader.Dead? && s.lock.Free? && !s.closed && k == s.next + 1
    ensures var all := ls + [Begin, Register(k), Written(k)];
            Run(all).Some? && Stuck(Run(all).value, k) && !CanFinish(Run(all).value, k) && !InTime(all, k)
  {
    NewCall(s, k);
    RunNewCall(ls, s, k);
    StuckIsLate(ls + [Begin, Register(k), Written(k)], k);
  }

  lemma StuckIsLate(ls: seq<Label>, k: int)
    requires Run(ls).Some? && Stuck(Run(ls).value, k)
    ensures !CanFinish(Run(ls).value, k) && !InTime(ls, k)
  {
    RunKeepsInv(ls);
    PendingIsStuck(Run(ls).value, k);
    RunIsTraced(ls, k);
  }

  lemma RunSnoc(ls: seq<Label>, l: Label)
    ensures Run(ls + [l]) ==
            if Run(ls).Some? && Enabled(Run(ls).value, l) then Some(Next(Run(ls).value, l)) else None
  {
    assert (ls + [l])[..|ls|] == ls;
  }

  /** The shortest such run: the reader dies, and the first call is stuck. */
  lemma FirstCallIsStuck()
    ensures var ls := [ReadFails, DrainBegin, DrainEnd, Begin, Register(1), Written(1)];
            Run(ls).Some? && Is(Run(ls).value, 1, Waiting) && !CanFinish(Run(ls).value, 1)
  {
    ReaderDies();
    var dead := [ReadFails, DrainBegin, DrainEnd];
    CallAfterDeathIsStuck(dead);
    assert dead + [Begin, Register(1), Written(1)] == [ReadFails, DrainBegin, DrainEnd, Begin, Register(1), Written(1)];
  }

  lemma ReaderDies()
    ensures Run([ReadFails, DrainBegin, DrainEnd]) == Some(INIT.(reader := Dead))
  {
    RunSnoc([], ReadFails);
    RunSnoc([ReadFails], DrainBegin);
    RunSnoc([ReadFails, DrainBegin], DrainEnd);
    assert [] + [ReadFails] == [ReadFails] && [ReadFails] + [DrainBegin] == [ReadFails, DrainBegin];
    assert [ReadFails, DrainBegin] + [DrainEnd] == [ReadFails, DrainBegin, DrainEnd];
  }
}
