/** The DAP client object: the pending map and the response channels as they are updated in place. Each method is one
    critical section of the client mutex, or what one party does with a channel it took, and takes the steps of the
    interleaved protocol that it implements. */
module Client {
  import opened Basics
  import opened Correlation

  class ResponseChan {
    var buf: seq<Msg>
    var closed: bool

    constructor ()
      ensures buf == [] && !closed
    {
      buf, closed := [], false;
    }

    /** A send; on a closed channel it would panic, on a full one it would block. */
    method Put(m: Msg)
      requires !closed && buf == []
      modifies this`buf
      ensures buf == [m]
    {
      buf := [m];
    }

    /** Closing twice would panic. */
    method Shut()
      requires !closed
      modifies this`closed
      ensures closed
    {
      closed := true;
    }
  }

  class Client {
    var seqNo: int
    var pending: map<int, ResponseChan>
    var closed: bool
    ghost var log: seq<Label>           // the steps taken by all parties
    ghost var trace: seq<Sys>           // the states of the protocol before, between and after them
    ghost var sys: Sys                  // the last of these
    ghost var made: seq<ResponseChan>   // the channels, in the order of the protocol's

    /** The fields and the channels are those of the protocol's state. */
    ghost predicate Shows()
      reads this, made
    {
      && seqNo == sys.next && closed == sys.closed
      && |made| == |sys.chans| && Distinct(made)
      && (forall c :: 0 <= c < |made| ==> made[c].buf == sys.chans[c].buf && made[c].closed == sys.chans[c].closed)
      && pending.Keys == sys.pending.Keys
      && (forall k :: k in pending ==> sys.pending[k] < |made| && pending[k] == made[sys.pending[k]])
    }

    /** The state was reached by a run of the protocol. */
    ghost predicate Valid()
      reads this, made
    {
      Reached(trace, log, sys) && Shows()
    }

    constructor ()
      ensures Valid() && log == [] && pending == map[] && !closed && seqNo == 0
    {
      seqNo, pending, closed := 0, map[], false;
      log, trace, sys, made := [], [INIT], INIT, [];
    }

    /** A step of another party that touches neither the client's fields nor a channel: a request was written, a message
        was read, the reader met an error. */
    ghost method Elsewhere(l: Label)
      requires Valid() && Enabled(sys, l) && (l.Written? || l.ReadMsg? || l.ReadFails?)
      modifies this`log, this`trace, this`sys
      ensures Valid() && log == old(log) + [l]
    {
      Extend(trace, log, sys, l);
      log, trace, sys := log + [l], trace + [Next(sys, l)], Next(sys, l);
    }

    /** A new sequence number; the counter is atomic and needs no lock. */
    method NextSeq() returns (k: int)
      requires Valid()
      modifies this`seqNo, this`log, this`trace, this`sys
      ensures Valid() && log == old(log) + [Begin]
      ensures k == seqNo == old(seqNo) + 1 && k !in pending && Is(sys, k, Allocated)
    {
      NumbersAreNew(trace, log, sys);
      Extend(trace, log, sys, Begin);
      seqNo := seqNo + 1;
      k := seqNo;
      log, trace, sys := log + [Begin], trace + [Next(sys, Begin)], Next(sys, Begin);
    }

    /** The locked part of send: None if the client is closed. */
    method Register(k: int) returns (r: Option<ResponseChan>)
      requires Valid() && Enabled(sys, Label.Register(k))
      modifies this`pending, this`log, this`trace, this`sys, this`made
      ensures Valid() && log == old(log) + [Label.Register(k)]
      ensures closed ==> r == None && pending == old(pending)
      ensures !closed ==> r.Some? && fresh(r.value) && pending == old(pending)[k := r.value]
    {
      Extend(trace, log, sys, Label.Register(k));
      ghost var t := Next(sys, Label.Register(k));
      log, trace, sys := log + [Label.Register(k)], trace + [t], t;
      if closed {
        return None;
      }
      var ch := new ResponseChan();
      pending, made := pending[k := ch], made + [ch];
      r := Some(ch);
    }

    /** The locked part of a failed write, a timeout and a cancellation. */
    method Forget(k: int, ghost l: Label)
      requires Valid() && Enabled(sys, l) && (l == WriteFails(k) || l == GiveUp(k))
      modifies this`pending, this`log, this`trace, this`sys
      ensures Valid() && log == old(log) + [l] && pending == old(pending) - {k}
    {
      Extend(trace, log, sys, l);
      pending := pending - {k};
      log, trace, sys := log + [l], trace + [Next(sys, l)], Next(sys, l);
    }

    /** The locked part of dispatch: the entry leaves the map and its channel becomes the reader's. */
    method Take(m: Msg) returns (r: Option<ResponseChan>)
      requires Valid() && sys.reader == Read(m) && sys.lock.Free?
      modifies this`pending, this`log, this`trace, this`sys
      ensures Valid() && log == old(log) + [Match]
      ensures pending == old(pending) - {m.requestSeq}
      ensures r == if m.requestSeq in old(pending) then Some(old(pending)[m.requestSeq]) else None
      ensures if r.Some? then sys.reader.Sending? && sys.reader.m == m && sys.reader.c < |made| && made[sys.reader.c] == r.value
              else sys.reader.Reading?
    {
      ghost var t := MatchStep(trace, log, sys, m);
      r := None;
      if m.requestSeq in pending {
        r := Some(pending[m.requestSeq]);
      }
      pending := pending - {m.requestSeq};
      log, trace, sys := log + [Match], trace + [t], t;
    }

    /** The unlocked part of dispatch: the reader sends to the channel it took and closes it, whatever others do meanwhile. */
    method Serve(ch: ResponseChan, m: Msg)
      requires Valid() && sys.reader.Sending? && sys.reader.m == m && sys.reader.c < |made| && made[sys.reader.c] == ch
      modifies this`log, this`trace, this`sys, ch
      ensures Valid() && log == old(log) + [Send, CloseSent]
      ensures ch.buf == [m] && ch.closed
    {
      SendOne(ch, m);
      Extend(trace, log, sys, CloseSent);
      HeldIsOpen(trace, log, sys);
      ch.Shut();
      log, trace, sys := log + [CloseSent], trace + [Next(sys, CloseSent)], Next(sys, CloseSent);
    }

    method SendOne(ch: ResponseChan, m: Msg)
      requires Valid() && sys.reader.Sending? && sys.reader.m == m && sys.reader.c < |made| && made[sys.reader.c] == ch
      modifies this`log, this`trace, this`sys, ch`buf
      ensures Valid() && log == old(log) + [Send] && ch.buf == [m]
      ensures sys.reader == Closing(old(sys).reader.c)
    {
      Extend(trace, log, sys, Send);
      HeldIsOpen(trace, log, sys);
      ch.Put(m);
      log, trace, sys := log + [Send], trace + [Next(sys, Send)], Next(sys, Send);
    }

    /** The caller's select, when there is something to read: the message, or None for a closed channel. */
    method Await(k: int, ch: ResponseChan) returns (r: Option<Msg>)
      requires Valid() && Readable(sys, k) && made[sys.calls[k].chan.value] == ch && (ch.buf != [] || ch.closed)
      modifies this`log, this`trace, this`sys, ch`buf
      ensures Valid() && log == old(log) + [if r.Some? then Receive(k) else SeeClosed(k)]
      ensures r.Some? ==> r.value.requestSeq == k && old(ch.buf) == [r.value] && ch.buf == []
      ensures r.None? ==> old(ch.buf) == [] == ch.buf && ch.closed
    {
      OwnMessage(trace, log, sys, k);
      if ch.buf != [] {
        Extend(trace, log, sys, Receive(k));
        r := Some(ch.buf[0]);
        ch.buf := ch.buf[1..];
        log, trace, sys := log + [Receive(k)], trace + [Next(sys, Receive(k))], Next(sys, Receive(k));
      } else {
        Extend(trace, log, sys, SeeClosed(k));
        r := None;
        log, trace, sys := log + [SeeClosed(k)], trace + [Next(sys, SeeClosed(k))], Next(sys, SeeClosed(k));
      }
    }

    /** A read error: every pending channel is closed and the map becomes empty. */
    method FailPending() returns (ghost turns: seq<int>)
      requires Valid() && sys.reader.Failing? && sys.lock.Free?
      modifies this`pending, this`log, this`trace, this`sys, pending.Values
      ensures Valid() && pending == map[] && sys.reader.Dead? && sys.lock.Free?
      ensures log == old(log) + [DrainBegin] + Turns(turns) + [DrainEnd]
      ensures forall k :: k in old(pending) ==> old(pending)[k].closed && old(pending)[k].buf == []
    {
      OpenAndUnsent(trace, log, sys);
      ghost var t := BeginDrain(trace, log, sys);
      log, trace, sys := log + [DrainBegin], trace + [t], t;
      turns := ShutAll();
      t := EndDrain(trace, log, sys);
      log, trace, sys := log + [DrainEnd], trace + [t], t;
    }

    /** The loop over the map, whichever entry comes first. */
    method ShutAll() returns (ghost turns: seq<int>)
      requires Valid() && sys.lock.ByReader?
      modifies this`pending, this`log, this`trace, this`sys, pending.Values
      ensures Valid() && pending == map[] && sys.lock.ByReader? && sys.reader == old(sys).reader
      ensures log == old(log) + Turns(turns)
      ensures Shut(old(sys), sys) && made == old(made)
    {
      turns := [];
      assert log + Turns([]) == log;
      while pending != map[]
        invariant Valid() && sys.lock.ByReader? && sys.reader == old(sys).reader && log == old(log) + Turns(turns)
        invariant Shut(old(sys), sys)
        invariant forall k :: k in pending ==> k in old(pending) && pending[k] == old(pending)[k]
        decreases |pending|
      {
        ghost var before, some := sys, Pick(pending.Keys);
        assert some in pending;
        var k :| k in pending;
        ShrinksBy(pending, k);
        ShutOne(k, pending[k]);
        ShutTurn(old(sys), before, sys, k);
        TurnsSnoc(old(log), turns, k);
        turns := turns + [k];
      }
    }

    /** Closes one pending channel and deletes its entry. */
    method ShutOne(k: int, ch: ResponseChan)
      requires Valid() && sys.lock.ByReader? && k in pending && pending[k] == ch
      modifies this`pending, this`log, this`trace, this`sys, ch`closed
      ensures Valid() && ch.closed && pending == old(pending) - {k}
      ensures log == old(log) + [DrainOne(k)] && Drains(old(sys), sys, k)
    {
      ghost var t := Drain(trace, log, sys, k);
      ch.Shut();
      pending := pending - {k};
      log, trace, sys := log + [DrainOne(k)], trace + [t], t;
    }

    /** Close: the first call closes every pending channel and lets nothing in any more, later calls do nothing. */
    method Close() returns (ghost turns: seq<int>)
      requires Valid() && sys.lock.Free?
      modifies this`pending, this`closed, this`log, this`trace, this`sys, pending.Values
      ensures Valid() && closed && pending == map[] && sys.lock.Free?
      ensures old(closed) ==> log == old(log) + [CloseBegin]
      ensures !old(closed) ==> log == old(log) + [CloseBegin] + CloseTurns(turns) + [CloseEnd]
      ensures forall k :: k in old(pending) ==> old(pending)[k].closed && old(pending)[k].buf == []
    {
      ghost var t := BeginClose(trace, log, sys);
      if closed {
        log, trace, sys, turns := log + [CloseBegin], trace + [t], t, [];
        return;
      }
      OpenAndUnsent(trace, log, sys);
      closed := true;
      log, trace, sys := log + [CloseBegin], trace + [t], t;
      turns := CloseRest();
    }

    /** The rest of the first call. */
    method CloseRest() returns (ghost turns: seq<int>)
      requires Valid() && sys.lock.ByClose? && sys.lock.todo == pending.Keys
      modifies this`pending, this`log, this`trace, this`sys, pending.Values
      ensures Valid() && closed == old(closed) && pending == map[] && sys.lock.Free?
      ensures log == old(log) + CloseTurns(turns) + [CloseEnd]
      ensures forall k :: k in old(pending) ==> old(pending)[k].closed && old(pending)[k].buf == old(pending[k].buf)
    {
      turns := CloseAll();
      ghost var t := EndClose(trace, log, sys);
      pending := map[];
      log, trace, sys := log + [CloseEnd], trace + [t], t;
    }

    /** The loop of Close: it leaves the entries in the map until all channels are closed. */
    method CloseAll() returns (ghost turns: seq<int>)
      requires Valid() && sys.lock.ByClose? && sys.lock.todo == pending.Keys
      modifies this`log, this`trace, this`sys, pending.Values
      ensures Valid() && sys.lock == ByClose({}) && log == old(log) + CloseTurns(turns)
      ensures ShutBut(old(sys), sys, {})
    {
      turns := [];
      var todo := pending.Keys;
      assert log + CloseTurns([]) == log;
      while todo != {}
        invariant Valid() && todo <= pending.Keys && sys.lock == ByClose(todo) && log == old(log) + CloseTurns(turns)
        invariant ShutBut(old(sys), sys, todo)
        decreases |todo|
      {
        ghost var before, some := sys, Pick(todo);
        assert some in todo;
        var k :| k in todo;
        CloseOneOf(k, pending[k]);
        ShutButTurn(old(sys), before, sys, k, todo);
        todo := todo - {k};
        CloseTurnsSnoc(old(log), turns, k);
        turns := turns + [k];
      }
    }

    method CloseOneOf(k: int, ch: ResponseChan)
      requires Valid() && sys.lock.ByClose? && k in sys.lock.todo && k in pending && pending[k] == ch
      modifies this`log, this`trace, this`sys, ch`closed
      ensures Valid() && ch.closed && log == old(log) + [CloseOne(k)] && Closes(old(sys), sys, k)
    {
      ghost var t := CloseStep(trace, log, sys, k);
      ch.Shut();
      log, trace, sys := log + [CloseOne(k)], trace + [t], t;
    }
  }

  /** The steps of the reader's loop. */
  function Turns(ks: seq<int>): seq<Label> {
    seq(|ks|, i requires 0 <= i < |ks| => DrainOne(ks[i]))
  }

  lemma TurnsSnoc(start: seq<Label>, ks: seq<int>, k: int)
    ensures start + Turns(ks) + [DrainOne(k)] == start + Turns(ks + [k])
  {
    assert Turns(ks + [k]) == Turns(ks) + [DrainOne(k)];
  }

  function CloseTurns(ks: seq<int>): seq<Label> {
    seq(|ks|, i requires 0 <= i < |ks| => CloseOne(ks[i]))
  }

  lemma CloseTurnsSnoc(start: seq<Label>, ks: seq<int>, k: int)
    ensures start + CloseTurns(ks) + [CloseOne(k)] == start + CloseTurns(ks + [k])
  {
    assert CloseTurns(ks + [k]) == CloseTurns(ks) + [CloseOne(k)];
  }

  lemma ShrinksBy<T>(m: map<int, T>, k: int)
    requires k in m
    ensures |m - {k}| < |m|
  {
    assert (m - {k}).Keys == m.Keys - {k};
    assert |(m - {k}).Keys| == |m - {k}| && |m.Keys| == |m|;
  }

  // ----- what the protocol's invariant says of the object -----

  lemma NumbersAreNew(trace: seq<Sys>, log: seq<Label>, s: Sys)
    requires Reached(trace, log, s)
    ensures (forall k :: k in s.calls ==> k <= s.next) && (forall k :: k in s.pending ==> k <= s.next)
  {
    ReachedInv(trace, log, s);
    forall k | k in s.calls ensures k <= s.next {
      assert CallOk(s, k);
    }
    forall k | k in s.pending ensures k <= s.next {
      assert ChanOk(s, s.pending[k]);
      assert k in s.calls;
    }
  }

  /** Outside Close, every pending channel is open and was never sent to. */
  lemma OpenAndUnsent(trace: seq<Sys>, log: seq<Label>, s: Sys)
    requires Reached(trace, log, s) && !s.lock.ByClose?
    ensures forall k :: k in s.pending ==>
              s.pending[k] < |s.chans| && s.chans[s.pending[k]].buf == [] && !s.chans[s.pending[k]].closed
    ensures forall j, k :: j in s.pending && k in s.pending && j != k ==> s.pending[j] != s.pending[k]
  {
    ReachedInv(trace, log, s);
    forall k | k in s.pending
      ensures s.pending[k] < |s.chans| && s.chans[s.pending[k]].buf == [] && !s.chans[s.pending[k]].closed
      ensures s.chans[s.pending[k]].owner == k
    {
      assert ChanOk(s, s.pending[k]);
    }
  }

  /** The channel the reader took is open, and unsent as long as the reader has not sent. */
  lemma HeldIsOpen(trace: seq<Sys>, log: seq<Label>, s: Sys)
    requires Reached(trace, log, s) && (s.reader.Sending? || s.reader.Closing?)
    ensures s.reader.c < |s.chans| && !s.chans[s.reader.c].closed && (s.reader.Sending? ==> s.chans[s.reader.c].buf == [])
  {
    ReachedInv(trace, log, s);
    assert Held(s, s.reader.c) && ChanOk(s, s.reader.c);
  }

  /** What a call finds in its channel is one message with its own number. */
  lemma OwnMessage(trace: seq<Sys>, log: seq<Label>, s: Sys, k: int)
    requires Reached(trace, log, s) && Readable(s, k)
    ensures var buf := s.chans[s.calls[k].chan.value].buf; buf == [] || (|buf| == 1 && buf[0].requestSeq == k)
  {
    ReachedInv(trace, log, s);
    assert CallOk(s, k) && ChanOk(s, s.calls[k].chan.value);
  }

  // ----- the steps of the two loops -----

  /** The same in every field that the client has, but for the channels and the pending map. */
  predicate SameClient(s: Sys, t: Sys) {
    t.next == s.next && t.closed == s.closed && t.reader == s.reader && |t.chans| == |s.chans|
  }

  /** One channel more is closed, and nothing else happened to any. */
  predicate Shuts(s: Sys, t: Sys, c: nat) {
    |t.chans| == |s.chans| &&
    forall i :: 0 <= i < |s.chans| ==>
      t.chans[i].buf == s.chans[i].buf && (t.chans[i].closed <==> s.chans[i].closed || i == c)
  }

  lemma MatchStep(trace: seq<Sys>, log: seq<Label>, s: Sys, m: Msg) returns (t: Sys)
    requires Reached(trace, log, s) && s.reader == Read(m) && s.lock.Free?
    ensures Reached(trace + [t], log + [Match], t)
    ensures t == s.(pending := s.pending - {m.requestSeq},
            reader := if m.requestSeq in s.pending then Sending(s.pending[m.requestSeq], m) else Reading)
  {
    Extend(trace, log, s, Match);
    t := Next(s, Match);
    assert m.requestSeq !in s.pending ==> s.pending - {m.requestSeq} == s.pending;
  }

  lemma BeginDrain(trace: seq<Sys>, log: seq<Label>, s: Sys) returns (t: Sys)
    requires Reached(trace, log, s) && s.reader.Failing? && s.lock.Free?
    ensures Reached(trace + [t], log + [DrainBegin], t) && t == s.(reader := Draining, lock := ByReader)
  {
    Extend(trace, log, s, DrainBegin);
    t := Next(s, DrainBegin);
  }

  /** One entry is drained. */
  predicate Drains(s: Sys, t: Sys, k: int) {
    && SameClient(s, t) && t.lock == s.lock && k in s.pending && s.pending[k] < |s.chans|
    && t.pending == s.pending - {k} && Shuts(s, t, s.pending[k])
  }

  lemma Drain(trace: seq<Sys>, log: seq<Label>, s: Sys, k: int) returns (t: Sys)
    requires Reached(trace, log, s) && s.lock.ByReader? && k in s.pending
    ensures Reached(trace + [t], log + [DrainOne(k)], t) && Drains(s, t, k) && !s.chans[s.pending[k]].closed
  {
    OpenAndUnsent(trace, log, s);
    Extend(trace, log, s, DrainOne(k));
    t := Next(s, DrainOne(k));
  }

  /** Since s some entries were drained: the others are still there, and the channels of those are closed. */
  predicate Shut(s: Sys, t: Sys) {
    && |t.chans| == |s.chans|
    && (forall i :: 0 <= i < |s.chans| ==> t.chans[i].buf == s.chans[i].buf && (s.chans[i].closed ==> t.chans[i].closed))
    && (forall k :: k in t.pending ==> k in s.pending && t.pending[k] == s.pending[k])
    && (forall k :: k in s.pending && s.pending[k] < |s.chans| && k !in t.pending ==> t.chans[s.pending[k]].closed)
  }

  lemma ShutTurn(s: Sys, mid: Sys, t: Sys, k: int)
    requires Shut(s, mid) && Drains(mid, t, k)
    ensures Shut(s, t)
  {
  }

  lemma EndDrain(trace: seq<Sys>, log: seq<Label>, s: Sys) returns (t: Sys)
    requires Reached(trace, log, s) && s.lock.ByReader? && s.pending == map[]
    ensures Reached(trace + [t], log + [DrainEnd], t) && t == s.(reader := Dead, lock := Free)
  {
    Extend(trace, log, s, DrainEnd);
    t := Next(s, DrainEnd);
  }

  lemma BeginClose(trace: seq<Sys>, log: seq<Label>, s: Sys) returns (t: Sys)
    requires Reached(trace, log, s) && s.lock.Free?
    ensures Reached(trace + [t], log + [CloseBegin], t)
    ensures if s.closed then t == s && s.pending == map[] else t == s.(closed := true, lock := ByClose(s.pending.Keys))
  {
    ReachedInv(trace, log, s);
    Extend(trace, log, s, CloseBegin);
    t := Next(s, CloseBegin);
  }

  /** One channel that is to be closed is closed; its entry stays. */
  predicate Closes(s: Sys, t: Sys, k: int) {
    && SameClient(s, t) && s.lock.ByClose? && t.lock == ByClose(s.lock.todo - {k}) && k in s.pending
    && t.pending == s.pending && s.pending[k] < |s.chans| && Shuts(s, t, s.pending[k])
  }

  /** What is still to be closed was not closed before. */
  lemma CloseStep(trace: seq<Sys>, log: seq<Label>, s: Sys, k: int) returns (t: Sys)
    requires Reached(trace, log, s) && s.lock.ByClose? && k in s.lock.todo && k in s.pending
    ensures Reached(trace + [t], log + [CloseOne(k)], t) && Closes(s, t, k) && !s.chans[s.pending[k]].closed
  {
    ReachedInv(trace, log, s);
    assert ChanOk(s, s.pending[k]);
    Extend(trace, log, s, CloseOne(k));
    t := Next(s, CloseOne(k));
  }

  /** Since s the channels of the entries were closed, but for those still to do. */
  predicate ShutBut(s: Sys, t: Sys, todo: set<int>) {
    && |t.chans| == |s.chans| && t.pending == s.pending && t.next == s.next && t.closed == s.closed
    && (forall i :: 0 <= i < |s.chans| ==> t.chans[i].buf == s.chans[i].buf && (s.chans[i].closed ==> t.chans[i].closed))
    && (forall k :: k in s.pending && s.pending[k] < |s.chans| && k !in todo ==> t.chans[s.pending[k]].closed)
  }

  lemma ShutButTurn(s: Sys, mid: Sys, t: Sys, k: int, todo: set<int>)
    requires ShutBut(s, mid, todo) && Closes(mid, t, k)
    ensures ShutBut(s, t, todo - {k})
  {
  }

  lemma EndClose(trace: seq<Sys>, log: seq<Label>, s: Sys) returns (t: Sys)
    requires Reached(trace, log, s) && s.lock == ByClose({})
    ensures Reached(trace + [t], log + [CloseEnd], t) && t == s.(pending := map[], lock := Free)
  {
    Extend(trace, log, s, CloseEnd);
    t := Next(s, CloseEnd);
  }
}
