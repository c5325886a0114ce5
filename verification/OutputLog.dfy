/** The bounded log of program output: recording, filtering by time, polling, and the tail of one category. */
module OutputLog {
  import opened Basics

  /** A record; the time is any clock reading. */
  datatype Entry = Entry(ts: int, category: string, output: seq<byte>)

  function Last<T>(s: seq<T>, n: nat): seq<T> {
    if |s| > n then s[|s| - n..] else s
  }

  /** None stands for the zero time. */
  predicate Newer(e: Entry, since: Option<int>) {
    since.None? || e.ts > since.value
  }

  function NewerThan(s: seq<Entry>, since: Option<int>): seq<Entry> {
    if s == [] then []
    else
      var front := NewerThan(s[..|s| - 1], since);
      if Newer(s[|s| - 1], since) then front + [s[|s| - 1]] else front
  }

  // ----- the tail of one category -----

  predicate Matches(e: Entry, want: string) {
    (if e.category == "console" then "stderr" else e.category) == want
  }

  /** The outputs of the matching entries in order, as one text. */
  function Text(s: seq<Entry>, want: string): seq<byte> {
    if s == [] then []
    else (if Matches(s[0], want) then s[0].output else []) + Text(s[1..], want)
  }

  /** The output of the newest non-empty matching entry. */
  function Newest(s: seq<Entry>, want: string): seq<byte> {
    if s == [] then []
    else if Matches(s[|s| - 1], want) && s[|s| - 1].output != [] then s[|s| - 1].output
    else Newest(s[..|s| - 1], want)
  }

  /** The text is made of the newest matching entries from position j on; it is within the limit unless it is
      exactly the newest non-empty matching entry; and the next older non-empty one would not fit. */
  predicate TailFrom(s: seq<Entry>, want: string, maxBytes: int, r: seq<byte>, j: nat) {
    && j <= |s|
    && r == Text(s[j..], want)
    && (|r| <= maxBytes || r == [] || r == Newest(s, want))
    && (Newest(s[..j], want) != [] ==> |Newest(s[..j], want)| + |r| > maxBytes)
  }

  ghost predicate IsTail(s: seq<Entry>, want: string, maxBytes: int, r: seq<byte>) {
    exists j :: TailFrom(s, want, maxBytes, r, j)
  }

  lemma {:induction false} TextCons(s: seq<Entry>, want: string, i: nat)
    requires i < |s|
    ensures Text(s[i..], want) == (if Matches(s[i], want) then s[i].output else []) + Text(s[i + 1..], want)
  {
    assert s[i..][1..] == s[i + 1..];
  }

  lemma {:induction false} NewestSkips(s: seq<Entry>, want: string, i: nat)
    requires i <= |s| && Text(s[i..], want) == []
    ensures Newest(s, want) == Newest(s[..i], want)
    decreases |s| - i
  {
    if i < |s| {
      TextCons(s, want, i);
      NewestSkips(s, want, i + 1);
      assert s[..i + 1][..i] == s[..i];
    } else {
      assert s[..i] == s;
    }
  }

  /** A record counts for its category; a record of the console counts for stderr and for nothing else. */
  lemma CategoryIff(e: Entry, want: string)
    ensures Matches(e, want) <==> (e.category != "console" && e.category == want) || (e.category == "console" && want == "stderr")
  {
  }

  /** The text of the records in order: of one record its output if it counts, of more their texts one after the other. */
  lemma {:induction false} TextInOrder(a: seq<Entry>, b: seq<Entry>, e: Entry, want: string)
    ensures Text(a + b, want) == Text(a, want) + Text(b, want)
    ensures Text([e], want) ==
            if (e.category != "console" && e.category == want) || (e.category == "console" && want == "stderr")
            then e.output else []
    decreases |a|
  {
    CategoryIff(e, want);
    assert [e][1..] == [];
    if a == [] {
      assert a + b == b;
    } else {
      TextInOrder(a[1..], b, e, want);
      assert (a + b)[1..] == a[1..] + b;
    }
  }

  /** The newest output is that of the last record that counts and is not empty; it is empty if there is none. */
  lemma {:induction false} NewestSpec(s: seq<Entry>, want: string)
    ensures Newest(s, want) == [] <==> forall i :: 0 <= i < |s| ==> !(Matches(s[i], want) && s[i].output != [])
    ensures Newest(s, want) != [] ==>
              exists i :: && 0 <= i < |s| && Matches(s[i], want) && Newest(s, want) == s[i].output
                          && forall k :: i < k < |s| ==> !(Matches(s[k], want) && s[k].output != [])
  {
    if s != [] {
      var n := |s| - 1;
      NewestSpec(s[..n], want);
      if !(Matches(s[n], want) && s[n].output != []) {
        forall i | 0 <= i < n ensures s[..n][i] == s[i] {
        }
        NewestBefore(s, n, want);
      }
    }
  }

  lemma NewestBefore(s: seq<Entry>, n: nat, want: string)
    requires |s| == n + 1 && !(Matches(s[n], want) && s[n].output != [])
    requires Newest(s[..n], want) == [] <==> forall i :: 0 <= i < n ==> !(Matches(s[..n][i], want) && s[..n][i].output != [])
    requires Newest(s[..n], want) != [] ==>
               exists i :: && 0 <= i < n && Matches(s[..n][i], want) && Newest(s[..n], want) == s[..n][i].output
                           && forall k :: i < k < n ==> !(Matches(s[..n][k], want) && s[..n][k].output != [])
    ensures Newest(s, want) == [] <==> forall i :: 0 <= i < |s| ==> !(Matches(s[i], want) && s[i].output != [])
    ensures Newest(s, want) != [] ==>
              exists i :: && 0 <= i < |s| && Matches(s[i], want) && Newest(s, want) == s[i].output
                          && forall k :: i < k < |s| ==> !(Matches(s[k], want) && s[k].output != [])
  {
    assert Newest(s, want) == Newest(s[..n], want);
    if Newest(s, want) != [] {
      var i :| && 0 <= i < n && Matches(s[..n][i], want) && Newest(s[..n], want) == s[..n][i].output
               && forall k :: i < k < n ==> !(Matches(s[..n][k], want) && s[..n][k].output != []);
      assert s[..n][i] == s[i];
      forall k | i < k < |s| ensures !(Matches(s[k], want) && s[k].output != []) {
        assert k < n ==> s[..n][k] == s[k];
      }
    } else {
      forall i | 0 <= i < |s| ensures !(Matches(s[i], want) && s[i].output != []) {
        assert i < n ==> s[..n][i] == s[i];
      }
    }
  }

  /** What is newer than a time: the records with later times, in order. */
  lemma {:induction false} NewerInOrder(a: seq<Entry>, b: seq<Entry>, e: Entry, since: Option<int>)
    ensures NewerThan(a + b, since) == NewerThan(a, since) + NewerThan(b, since)
    ensures NewerThan([e], since) == if since.None? || e.ts > since.value then [e] else []
    decreases |b|
  {
    assert [e][..0] == [];
    if b == [] {
      assert a + b == a;
    } else {
      var n := |b| - 1;
      NewerInOrder(a, b[..n], e, since);
      assert (a + b)[..|a + b| - 1] == a + b[..n];
    }
  }

  lemma NewestSnoc(s: seq<Entry>, want: string, i: nat)
    requires i < |s|
    ensures Newest(s[..i + 1], want) == if Matches(s[i], want) && s[i].output != [] then s[i].output else Newest(s[..i], want)
  {
    assert s[..i + 1][..i] == s[..i];
  }

  /** The next older entry does not fit. */
  lemma Oversized(s: seq<Entry>, want: string, maxBytes: int, r: seq<byte>, i: nat)
    requires i < |s| && Matches(s[i], want) && r == Text(s[i + 1..], want)
    requires 0 < |r| < maxBytes < |r| + |s[i].output|
    ensures TailFrom(s, want, maxBytes, r, i + 1)
  {
    NewestSnoc(s, want, i);
  }

  /** The limit is reached, by several entries exactly or by the newest one alone. */
  lemma Filled(s: seq<Entry>, want: string, maxBytes: int, r: seq<byte>, i: nat)
    requires i < |s| && Matches(s[i], want) && r == Text(s[i..], want) && |r| >= maxBytes
    requires Text(s[i + 1..], want) == [] || |r| <= maxBytes
    ensures TailFrom(s, want, maxBytes, r, i)
  {
    if Text(s[i + 1..], want) == [] && r != [] {
      TextCons(s, want, i);
      NewestSkips(s, want, i + 1);
      NewestSnoc(s, want, i);
    }
  }

  /** The output log holds 4096 records, the event log 1024; what is proved holds of every capacity. */
  class Log {
    const cap: nat
    var outputs: seq<Entry>
    ghost var history: seq<Entry>  // every record ever written

    ghost predicate Valid()
      reads this
    {
      outputs == Last(history, cap)
    }

    constructor (cap: nat)
      ensures Valid() && history == [] && this.cap == cap
    {
      this.cap := cap;
      outputs, history := [], [];
    }

    /** The buffer stays the last records ever written, in order. */
    method RecordOutput(ts: int, category: string, output: seq<byte>)
      requires Valid()
      modifies this
      ensures Valid()
      ensures history == old(history) + [Entry(ts, if category == "" then "console" else category, output)]
    {
      var e := Entry(ts, if category == "" then "console" else category, output);
      history := history + [e];
      outputs := outputs + [e];
      var n := |outputs|;
      if n > cap {
        outputs := outputs[n - cap..];
      }
    }

    /** The last `tail` of the buffered records newer than `since`; all of them if tail is not positive. */
    method Outputs(since: Option<int>, tail: int) returns (out: seq<Entry>)
      requires Valid()
      ensures out == if tail > 0 then Last(NewerThan(Last(history, cap), since), tail)
                     else NewerThan(Last(history, cap), since)
    {
      out := [];
      for i := 0 to |outputs|
        invariant out == NewerThan(outputs[..i], since)
      {
        assert outputs[..i + 1][..i] == outputs[..i];
        if since.Some? && !(outputs[i].ts > since.value) {
          continue;
        }
        out := out + [outputs[i]];
      }
      assert outputs[..|outputs|] == outputs;
      if tail > 0 && |out| > tail {
        out := out[|out| - tail..];
      }
    }

    /** The text of the newest matching entries that fits. */
    method TailByCategory(maxBytes: int, want: string) returns (r: seq<byte>)
      requires Valid()
      ensures IsTail(Last(history, cap), want, maxBytes, r)
    {
      r := [];
      var i := |outputs|;
      while i > 0
        invariant 0 <= i <= |outputs|
        invariant r == Text(outputs[i..], want)
        invariant r == [] || |r| < maxBytes
      {
        i := i - 1;
        var e := outputs[i];
        TextCons(outputs, want, i);
        NewestSnoc(outputs, want, i);
        if !Matches(e, want) {
          continue;
        }
        if |r| + |e.output| > maxBytes && |r| > 0 {
          Oversized(outputs, want, maxBytes, r, i);
          return;
        }
        r := e.output + r;
        if |r| >= maxBytes {
          Filled(outputs, want, maxBytes, r, i);
          return;
        }
      }
      assert outputs[..0] == [];
      assert TailFrom(outputs, want, maxBytes, r, 0);
    }
  }

  // ----- polling with the last returned timestamp -----

  ghost predicate Increasing(h: seq<Entry>) {
    forall i, j :: 0 <= i < j < |h| ==> h[i].ts < h[j].ts
  }

  /** The time a client polls with that got these records so far. */
  function LastSeen(got: seq<Entry>): Option<int> {
    if got == [] then None else Some(got[|got| - 1].ts)
  }

  lemma {:induction false} NewerSplit(a: seq<Entry>, b: seq<Entry>, since: Option<int>)
    requires forall i :: 0 <= i < |a| ==> !Newer(a[i], since)
    requires forall i :: 0 <= i < |b| ==> Newer(b[i], since)
    ensures NewerThan(a + b, since) == b
  {
    if b != [] {
      var n := |b| - 1;
      assert (a + b)[..|a + b| - 1] == a + b[..n];
      NewerSplit(a, b[..n], since);
      assert b == b[..n] + [b[n]];
    } else if a != [] {
      assert a + b == a;
      assert a[..|a| - 1] + [] == a[..|a| - 1];
      NewerSplit(a[..|a| - 1], [], since);
    }
  }

  /** One poll: with strictly increasing times and at most a buffer of new records, it returns exactly the new ones. */
  lemma PollReturnsNew(h: seq<Entry>, seen: nat, now: nat, cap: nat)
    requires Increasing(h) && seen <= now <= |h| && now - seen <= cap
    ensures NewerThan(Last(h[..now], cap), LastSeen(h[..seen])) == h[seen..now]
  {
    var start := if now > cap then now - cap else 0;
    var buffer := Last(h[..now], cap);
    assert buffer == h[start..now];
    assert start <= seen;
    var a, b := h[start..seen], h[seen..now];
    assert buffer == a + b;
    forall i | 0 <= i < |a| ensures !Newer(a[i], LastSeen(h[..seen])) {
      assert a[i] == h[start + i];
    }
    NewerSplit(a, b, LastSeen(h[..seen]));
  }

  /** What a client has collected that polls when at[0], at[1], ... records exist, each time with
      the time of the last record it got. */
  function Collected(h: seq<Entry>, at: seq<nat>, cap: nat): seq<Entry>
    requires forall i :: 0 <= i < |at| ==> at[i] <= |h|
  {
    if at == [] then []
    else
      var before := Collected(h, at[..|at| - 1], cap);
      before + NewerThan(Last(h[..at[|at| - 1]], cap), LastSeen(before))
  }

  function Previous(at: seq<nat>, i: nat): nat
    requires i < |at|
  {
    if i == 0 then 0 else at[i - 1]
  }

  /** Polling yields each record exactly once and in order, as long as no more records than the buffer holds come
      between two polls. */
  lemma {:induction false} PollingLosesNothing(h: seq<Entry>, at: seq<nat>, cap: nat)
    requires Increasing(h)
    requires forall i :: 0 <= i < |at| ==> at[i] <= |h|
    requires forall i :: 0 <= i < |at| ==> Previous(at, i) <= at[i] <= Previous(at, i) + cap
    ensures Collected(h, at, cap) == if at == [] then [] else h[..at[|at| - 1]]
  {
    if at != [] {
      var n := |at| - 1;
      EarlierPolls(at, n, cap);
      PollingLosesNothing(h, at[..n], cap);
      OnePoll(h, Previous(at, n), at[n], cap);
    }
  }

  lemma OnePoll(h: seq<Entry>, seen: nat, now: nat, cap: nat)
    requires Increasing(h) && seen <= now <= |h| && now - seen <= cap
    ensures h[..seen] + NewerThan(Last(h[..now], cap), LastSeen(h[..seen])) == h[..now]
  {
    PollReturnsNew(h, seen, now, cap);
    assert h[..seen] + h[seen..now] == h[..now];
  }

  lemma EarlierPolls(at: seq<nat>, n: nat, cap: nat)
    requires n < |at| && forall i :: 0 <= i < |at| ==> Previous(at, i) <= at[i] <= Previous(at, i) + cap
    ensures forall i :: 0 <= i < n ==> Previous(at[..n], i) <= at[..n][i] <= Previous(at[..n], i) + cap
  {
    forall i | 0 <= i < n ensures Previous(at[..n], i) <= at[..n][i] <= Previous(at[..n], i) + cap {
      assert Previous(at[..n], i) == Previous(at, i);
    }
  }
}
