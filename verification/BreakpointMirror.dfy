/** The session's breakpoints and what the adapter was last told about them. A setBreakpoints request
    replaces the adapter's whole set for a file. */
module BreakpointMirror {
  import opened Basics

  datatype BP = BP(id: int, file: string, line: int, cond: string, hitCond: string, logMsg: string, once: bool,
                   dapId: int, verified: bool, hits: int)

  /** One entry of a setBreakpoints request. */
  datatype SourceBP = SourceBP(line: int, cond: string, hitCond: string, logMsg: string)

  function FullSpec(b: BP): SourceBP {
    SourceBP(b.line, b.cond, b.hitCond, b.logMsg)
  }

  /** The entry `unbreak` sends: line and condition only. */
  function BareSpec(b: BP): SourceBP {
    SourceBP(b.line, b.cond, "", "")
  }

  function Spec(b: BP, full: bool): SourceBP {
    if full then FullSpec(b) else BareSpec(b)
  }

  /** The same breakpoint up to what the adapter reported about it. */
  predicate SameRequest(a: BP, b: BP) {
    b.(dapId := a.dapId, verified := a.verified, hits := a.hits) == a
  }

  datatype Mirror = Mirror(nextId: int, bps: map<int, BP>, adapter: map<string, seq<SourceBP>>)

  const EMPTY := Mirror(1, map[], map[])

  /** What the adapter last accepted for a file. */
  function Told(adapter: map<string, seq<SourceBP>>, f: string): seq<SourceBP> {
    if f in adapter then adapter[f] else []
  }

  ghost function IdsIn(bps: map<int, BP>, f: string): set<int> {
    set id | id in bps && bps[id].file == f
  }

  /** The list holds one entry for each stored breakpoint of the file, in some order. */
  ghost predicate Lists(order: seq<int>, bps: map<int, BP>, f: string, list: seq<SourceBP>, full: bool) {
    && Distinct(order)
    && (forall id :: id in order <==> id in IdsIn(bps, f))
    && |list| == |order|
    && forall i :: 0 <= i < |order| ==> order[i] in bps && list[i] == Spec(bps[order[i]], full)
  }

  ghost predicate Sent(bps: map<int, BP>, f: string, list: seq<SourceBP>, full: bool) {
    exists order :: Lists(order, bps, f, list, full)
  }

  // ----- agreement, counted -----

  function Pair(x: SourceBP): (int, string) {
    (x.line, x.cond)
  }

  function Pairs(list: seq<SourceBP>): seq<(int, string)> {
    seq(|list|, i requires 0 <= i < |list| => Pair(list[i]))
  }

  ghost function WithPair(bps: map<int, BP>, f: string, p: (int, string)): set<int> {
    set id | id in bps && bps[id].file == f && bps[id].line == p.0 && bps[id].cond == p.1
  }

  /** The entry asks for the breakpoint, field by field; without modifiers it asks for neither. */
  predicate Requested(b: BP, x: SourceBP, full: bool) {
    && x.line == b.line && x.cond == b.cond
    && x.hitCond == (if full then b.hitCond else "") && x.logMsg == (if full then b.logMsg else "")
  }

  ghost function WithSpec(bps: map<int, BP>, f: string, x: SourceBP, full: bool): set<int> {
    set id | id in bps && bps[id].file == f && Requested(bps[id], x, full)
  }

  /** For every line and condition the adapter's set has as many entries as the session has breakpoints. */
  ghost predicate Agrees(bps: map<int, BP>, f: string, list: seq<SourceBP>) {
    forall p :: multiset(Pairs(list))[p] == |WithPair(bps, f, p)|
  }

  /** The same for whole entries, with hit conditions and log messages. */
  ghost predicate FullyAgrees(bps: map<int, BP>, f: string, list: seq<SourceBP>) {
    forall x :: multiset(list)[x] == |WithSpec(bps, f, x, true)|
  }

  ghost function Among(order: seq<int>, p: set<int>): set<int> {
    set id | id in order && id in p
  }

  lemma CountLast<T>(vals: seq<T>, v: T)
    requires vals != []
    ensures multiset(vals)[v] == multiset(vals[..|vals| - 1])[v] + (if vals[|vals| - 1] == v then 1 else 0)
  {
    assert vals == vals[..|vals| - 1] + [vals[|vals| - 1]];
  }

  lemma AmongLast(order: seq<int>, p: set<int>)
    requires order != [] && Distinct(order)
    ensures var n := |order| - 1;
            |Among(order, p)| == |Among(order[..n], p)| + (if order[n] in p then 1 else 0)
  {
    var n := |order| - 1;
    var before := Among(order[..n], p);
    assert order == order[..n] + [order[n]];
    assert order[n] !in before;
    assert Among(order, p) == if order[n] in p then before + {order[n]} else before;
  }

  lemma {:induction false} CountIn<T>(order: seq<int>, vals: seq<T>, v: T, hits: set<int>)
    requires |vals| == |order| && Distinct(order)
    requires forall i :: 0 <= i < |order| ==> (order[i] in hits <==> vals[i] == v)
    ensures multiset(vals)[v] == |Among(order, hits)|
  {
    if vals == [] {
      assert Among(order, hits) == {};
    } else {
      var n := |vals| - 1;
      CountIn(order[..n], vals[..n], v, hits);
      CountLast(vals, v);
      AmongLast(order, hits);
    }
  }

  lemma ListsPair(order: seq<int>, bps: map<int, BP>, f: string, list: seq<SourceBP>, full: bool, p: (int, string))
    requires Lists(order, bps, f, list, full)
    ensures multiset(Pairs(list))[p] == |WithPair(bps, f, p)|
  {
    var hits := WithPair(bps, f, p);
    forall i | 0 <= i < |order| ensures order[i] in hits <==> Pairs(list)[i] == p {
      var id := order[i];
      assert id in order && id in IdsIn(bps, f);
    }
    CountIn(order, Pairs(list), p, hits);
    forall id ensures id in Among(order, hits) <==> id in hits {
      assert id in hits ==> id in IdsIn(bps, f);
    }
    assert Among(order, hits) == hits;
  }

  lemma ListsSpec(order: seq<int>, bps: map<int, BP>, f: string, list: seq<SourceBP>, full: bool, x: SourceBP)
    requires Lists(order, bps, f, list, full)
    ensures multiset(list)[x] == |WithSpec(bps, f, x, full)|
  {
    var hits := WithSpec(bps, f, x, full);
    forall i | 0 <= i < |order| ensures order[i] in hits <==> list[i] == x {
      var id := order[i];
      assert id in order && id in IdsIn(bps, f);
    }
    CountIn(order, list, x, hits);
    forall id ensures id in Among(order, hits) <==> id in hits {
      assert id in hits ==> id in IdsIn(bps, f);
    }
    assert Among(order, hits) == hits;
  }

  /** Whatever order a request listed the breakpoints in, and with or without modifiers, the adapter
      then agrees with the session on line and condition. */
  lemma SentAgrees(bps: map<int, BP>, f: string, list: seq<SourceBP>, full: bool)
    requires Sent(bps, f, list, full)
    ensures Agrees(bps, f, list)
  {
    var order :| Lists(order, bps, f, list, full);
    forall p ensures multiset(Pairs(list))[p] == |WithPair(bps, f, p)| {
      ListsPair(order, bps, f, list, full, p);
    }
  }

  lemma SentCounts(bps: map<int, BP>, f: string, list: seq<SourceBP>, full: bool, x: SourceBP)
    requires Sent(bps, f, list, full)
    ensures multiset(list)[x] == |WithSpec(bps, f, x, full)|
  {
    var order :| Lists(order, bps, f, list, full);
    ListsSpec(order, bps, f, list, full, x);
  }

  ghost function WithFields(bps: map<int, BP>, f: string, line: int, cond: string, hit: string, log: string): set<int> {
    set id | id in bps && bps[id].file == f && bps[id].line == line && bps[id].cond == cond
             && bps[id].hitCond == hit && bps[id].logMsg == log
  }

  /** After a request with modifiers the adapter has every line, condition, hit condition and log message as often as
      the session has breakpoints with them. */
  lemma SentInFields(bps: map<int, BP>, f: string, list: seq<SourceBP>, line: int, cond: string, hit: string, log: string)
    requires Sent(bps, f, list, true)
    ensures multiset(list)[SourceBP(line, cond, hit, log)] == |WithFields(bps, f, line, cond, hit, log)|
  {
    var x := SourceBP(line, cond, hit, log);
    SentCounts(bps, f, list, true, x);
    forall id ensures id in WithSpec(bps, f, x, true) <==> id in WithFields(bps, f, line, cond, hit, log) {
    }
    assert WithSpec(bps, f, x, true) == WithFields(bps, f, line, cond, hit, log);
  }

  /** A request with modifiers makes the adapter agree on them too. */
  lemma SentFullyAgrees(bps: map<int, BP>, f: string, list: seq<SourceBP>)
    requires Sent(bps, f, list, true)
    ensures FullyAgrees(bps, f, list)
  {
    forall x ensures multiset(list)[x] == |WithSpec(bps, f, x, true)| {
      SentCounts(bps, f, list, true, x);
    }
  }

  predicate Unmodified(b: BP) {
    b.hitCond == "" && b.logMsg == ""
  }

  /** A request without modifiers, as `unbreak` sends it, keeps full agreement exactly when no remaining
      breakpoint of the file has a hit condition or a log message. */
  lemma BareRequestLosesModifiers(bps: map<int, BP>, f: string, list: seq<SourceBP>)
    requires Sent(bps, f, list, false)
    ensures FullyAgrees(bps, f, list) <==> forall id :: id in IdsIn(bps, f) ==> Unmodified(bps[id])
  {
    if forall id :: id in IdsIn(bps, f) ==> Unmodified(bps[id]) {
      forall x ensures multiset(list)[x] == |WithSpec(bps, f, x, true)| {
        SentCounts(bps, f, list, false, x);
        forall id | id in bps && bps[id].file == f ensures BareSpec(bps[id]) == FullSpec(bps[id]) {
          assert id in IdsIn(bps, f);
        }
        forall id ensures id in WithSpec(bps, f, x, false) <==> id in WithSpec(bps, f, x, true) {
          assert id in bps && bps[id].file == f ==> id in IdsIn(bps, f);
        }
        assert WithSpec(bps, f, x, false) == WithSpec(bps, f, x, true);
      }
    } else {
      var id :| id in IdsIn(bps, f) && !Unmodified(bps[id]);
      var x := FullSpec(bps[id]);
      SentCounts(bps, f, list, false, x);
      assert WithSpec(bps, f, x, false) == {};
      assert id in WithSpec(bps, f, x, true);
    }
  }

  // ----- commands -----

  datatype Cmd =
    | Break(file: string, line: int, cond: string, hitCond: string, logMsg: string, once: bool)
    | Unbreak(ids: set<int>)
    | Until(untilFile: string, untilLine: int)   // stops meanwhile count their hits
    | ClearAt(clearFile: string, clearLine: int)  // after a step: the once-breakpoints at the pause location
    | ClearOnce(onceIds: set<int>)                // after a stop: the once-breakpoints the adapter reported
    | Hits(hitIds: seq<int>)                      // a stop counts its hits
    | BreakFn                                     // a function breakpoint takes an id from the same counter

  ghost function Files(bps: map<int, BP>, ids: set<int>): set<string> {
    set id | id in ids && id in bps :: bps[id].file
  }

  /** The files were re-sent, and nothing else was. */
  ghost predicate Synced(s: Mirror, t: Mirror, files: set<string>, full: bool) {
    forall f ::
      if f in files then f in t.adapter && Sent(t.bps, f, t.adapter[f], full)
      else Told(t.adapter, f) == Told(s.adapter, f)
  }

  ghost predicate SameRequests(s: map<int, BP>, t: map<int, BP>) {
    forall id :: id in s ==> id in t && SameRequest(s[id], t[id])
  }

  ghost predicate OnlyHitsChange(s: map<int, BP>, t: map<int, BP>) {
    t.Keys == s.Keys && forall id :: id in s ==> t[id] == s[id].(hits := t[id].hits)
  }

  ghost predicate Step(s: Mirror, cmd: Cmd, t: Mirror) {
    match cmd
    case Break(file, line, cond, hitCond, logMsg, once) =>
      && t.nextId == s.nextId + 1
      && t.bps.Keys == s.bps.Keys + {s.nextId}
      && SameRequests(s.bps, t.bps)
      && SameRequest(BP(s.nextId, file, line, cond, hitCond, logMsg, once, 0, false, 0), t.bps[s.nextId])
      && Synced(s, t, {file}, true)
    case Unbreak(ids) =>
      t.nextId == s.nextId && t.bps == s.bps - ids && Synced(s, t, Files(s.bps, s.bps.Keys), false)
    case Until(file, _) =>
      t.nextId == s.nextId + 1 && OnlyHitsChange(s.bps, t.bps) && Synced(s, t, {file}, true)
    case ClearAt(file, line) =>
      && t.nextId == s.nextId
      && t.bps == (map id | id in s.bps && !(s.bps[id].file == file && s.bps[id].once && s.bps[id].line == line) :: s.bps[id])
      && Synced(s, t, {file}, true)
    case ClearOnce(ids) =>
      t.nextId == s.nextId && t.bps == s.bps - ids && Synced(s, t, Files(s.bps, ids), true)
    case Hits(_) =>
      t.nextId == s.nextId && OnlyHitsChange(s.bps, t.bps) && t.adapter == s.adapter
    case BreakFn => t == s.(nextId := s.nextId + 1)
  }

  /** Keys are the records' own ids, all were handed out, and the adapter agrees on every file. */
  ghost predicate Mirrored(s: Mirror) {
    && (forall id :: id in s.bps ==> s.bps[id].id == id && id < s.nextId)
    && forall f :: Agrees(s.bps, f, Told(s.adapter, f))
  }

  /** Agreement depends only on the breakpoints of the file. */
  lemma AgreesFrame(s: map<int, BP>, t: map<int, BP>, f: string, list: seq<SourceBP>)
    requires Agrees(s, f, list) && IdsIn(s, f) == IdsIn(t, f)
    requires forall id :: id in IdsIn(s, f) ==> SameRequest(s[id], t[id])
    ensures Agrees(t, f, list)
  {
    forall p ensures multiset(Pairs(list))[p] == |WithPair(t, f, p)| {
      forall id ensures id in WithPair(s, f, p) <==> id in WithPair(t, f, p) {
        assert id in IdsIn(s, f) <==> id in IdsIn(t, f);
      }
      assert WithPair(t, f, p) == WithPair(s, f, p);
    }
  }

  /** A command re-sends every file whose breakpoints it changes. */
  lemma UnsentIsUnchanged(s: Mirror, cmd: Cmd, t: Mirror, f: string)
    requires Step(s, cmd, t)
    requires !(f in t.adapter && (Sent(t.bps, f, t.adapter[f], true) || Sent(t.bps, f, t.adapter[f], false)))
    ensures Told(t.adapter, f) == Told(s.adapter, f)
    ensures IdsIn(t.bps, f) == IdsIn(s.bps, f)
    ensures forall id :: id in IdsIn(s.bps, f) ==> SameRequest(s.bps[id], t.bps[id])
  {
    forall id ensures id in IdsIn(t.bps, f) <==> id in IdsIn(s.bps, f) {
      if id in s.bps && s.bps[id].file == f {
        assert id in s.bps.Keys;
        assert f in Files(s.bps, s.bps.Keys);
      }
      assert cmd.Break? && f != cmd.file ==> s.nextId !in IdsIn(t.bps, f);
    }
  }

  lemma StepKeepsMirrored(s: Mirror, cmd: Cmd, t: Mirror)
    requires Mirrored(s) && Step(s, cmd, t)
    ensures Mirrored(t) && s.nextId <= t.nextId
    ensures forall id :: id in t.bps && id !in s.bps ==> id == s.nextId < t.nextId
  {
    forall f ensures Agrees(t.bps, f, Told(t.adapter, f)) {
      if f in t.adapter && Sent(t.bps, f, t.adapter[f], true) {
        SentAgrees(t.bps, f, t.adapter[f], true);
      } else if f in t.adapter && Sent(t.bps, f, t.adapter[f], false) {
        SentAgrees(t.bps, f, t.adapter[f], false);
      } else {
        UnsentIsUnchanged(s, cmd, t, f);
        AgreesFrame(s.bps, t.bps, f, Told(s.adapter, f));
      }
    }
  }

  // ----- runs -----

  ghost predicate IsRun(states: seq<Mirror>, cmds: seq<Cmd>) {
    && |states| == |cmds| + 1
    && states[0] == EMPTY
    && forall i :: 0 <= i < |cmds| ==> Step(states[i], cmds[i], states[i + 1])
  }

  /** After any sequence of commands the adapter's set for every file equals the session's breakpoints for it,
      as a multiset of line and condition, and every map key is its record's id. */
  lemma {:induction false} RunStaysMirrored(states: seq<Mirror>, cmds: seq<Cmd>, n: nat)
    requires IsRun(states, cmds) && n < |states|
    ensures Mirrored(states[n])
  {
    if n == 0 {
      forall f ensures Agrees(EMPTY.bps, f, []) {
        SentNothing(f);
        SentAgrees(map[], f, [], true);
      }
    } else {
      RunStaysMirrored(states, cmds, n - 1);
      StepKeepsMirrored(states[n - 1], cmds[n - 1], states[n]);
    }
  }

  lemma SentNothing(f: string)
    ensures Sent(map[], f, [], true)
  {
    assert Lists([], map[], f, [], true);
  }

  lemma {:induction false} IdsGrow(states: seq<Mirror>, cmds: seq<Cmd>, i: nat, k: nat)
    requires IsRun(states, cmds) && i <= k < |states|
    ensures states[i].nextId <= states[k].nextId
    ensures forall id :: id in states[k].bps && id !in states[i].bps ==> id >= states[i].nextId
    decreases k - i
  {
    if i < k {
      IdsGrow(states, cmds, i, k - 1);
      RunStaysMirrored(states, cmds, k - 1);
      StepKeepsMirrored(states[k - 1], cmds[k - 1], states[k]);
    }
  }

  /** A local id that was removed never comes back, so ids are never reused. */
  lemma IdsAreNotReused(states: seq<Mirror>, cmds: seq<Cmd>, i: nat, j: nat, k: nat, id: int)
    requires IsRun(states, cmds) && i < j < k < |states|
    requires id in states[i].bps && id !in states[j].bps
    ensures id !in states[k].bps
  {
    RunStaysMirrored(states, cmds, i);
    IdsGrow(states, cmds, i, j);
    IdsGrow(states, cmds, j, k);
  }

  /** Right after `unbreak` the adapter fully agrees with the session on every file exactly when no remaining
      breakpoint has a hit condition or a log message. */
  lemma UnbreakKeepsModifiersIff(s: Mirror, ids: set<int>, t: Mirror)
    requires Mirrored(s) && Step(s, Unbreak(ids), t)
    ensures (forall f :: FullyAgrees(t.bps, f, Told(t.adapter, f))) <==> forall id :: id in t.bps ==> Unmodified(t.bps[id])
  {
    if forall f :: FullyAgrees(t.bps, f, Told(t.adapter, f)) {
      forall id | id in t.bps ensures Unmodified(t.bps[id]) {
        var f := t.bps[id].file;
        assert f in Files(s.bps, s.bps.Keys);
        assert FullyAgrees(t.bps, f, Told(t.adapter, f));
        BareRequestLosesModifiers(t.bps, f, t.adapter[f]);
        assert id in IdsIn(t.bps, f);
      }
    }
    if forall id :: id in t.bps ==> Unmodified(t.bps[id]) {
      forall f ensures FullyAgrees(t.bps, f, Told(t.adapter, f)) {
        if f in Files(s.bps, s.bps.Keys) {
          BareRequestLosesModifiers(t.bps, f, t.adapter[f]);
        } else {
          NoFileNoBreakpoints(s.bps, f);
          assert Agrees(s.bps, f, Told(s.adapter, f));
          NothingToldForNoBreakpoints(s.bps, f, Told(s.adapter, f));
          assert IdsIn(t.bps, f) == {};
          assert Lists([], t.bps, f, [], true);
          SentFullyAgrees(t.bps, f, []);
        }
      }
    }
  }

  /** Two breakpoints in a file, the first with a hit condition: removing the second makes the adapter lose it. */
  lemma UnbreakLosesHitCondition(f: string, hit: string) returns (states: seq<Mirror>)
    requires hit != ""
    ensures IsRun(states, [Break(f, 3, "", hit, "", false), Break(f, 7, "", "", "", false), Unbreak({2})])
    ensures FullyAgrees(states[2].bps, f, Told(states[2].adapter, f))
    ensures !FullyAgrees(states[3].bps, f, Told(states[3].adapter, f))
  {
    var a, b := BP(1, f, 3, "", hit, "", false, 0, false, 0), BP(2, f, 7, "", "", "", false, 0, false, 0);
    var s1 := Mirror(2, map[1 := a], map[f := [FullSpec(a)]]);
    var s2 := Mirror(3, map[1 := a, 2 := b], map[f := [FullSpec(a), FullSpec(b)]]);
    var s3 := Mirror(3, map[1 := a], map[f := [BareSpec(a)]]);
    states := [EMPTY, s1, s2, s3];
    assert Lists([1], s1.bps, f, s1.adapter[f], true);
    assert Lists([1, 2], s2.bps, f, s2.adapter[f], true);
    assert Lists([1], s3.bps, f, s3.adapter[f], false);
    assert Step(EMPTY, Break(f, 3, "", hit, "", false), s1);
    assert Step(s1, Break(f, 7, "", "", "", false), s2);
    assert s3.bps == s2.bps - {2} && Files(s2.bps, s2.bps.Keys) == {f} by {
      assert 1 in s2.bps.Keys && s2.bps[1].file == f;
    }
    assert Step(s2, Unbreak({2}), s3);
    SentFullyAgrees(s2.bps, f, s2.adapter[f]);
    BareRequestLosesModifiers(s3.bps, f, s3.adapter[f]);
    assert 1 in IdsIn(s3.bps, f) && !Unmodified(s3.bps[1]);
  }

  // ----- full agreement over runs -----

  /** The files a command sends. */
  ghost function SentFiles(s: Mirror, cmd: Cmd): set<string> {
    match cmd
    case Break(file, _, _, _, _, _) => {file}
    case Unbreak(_) => Files(s.bps, s.bps.Keys)
    case Until(file, _) => {file}
    case ClearAt(file, _) => {file}
    case ClearOnce(ids) => Files(s.bps, ids)
    case _ => {}
  }

  /** The last sending of the file in the first n commands had modifiers, or there was none. */
  ghost predicate LastFull(states: seq<Mirror>, cmds: seq<Cmd>, n: nat, f: string)
    requires |states| == |cmds| + 1 && n < |states|
  {
    n == 0 || if f in SentFiles(states[n - 1], cmds[n - 1]) then !cmds[n - 1].Unbreak? else LastFull(states, cmds, n - 1, f)
  }

  lemma UnsentFile(s: Mirror, cmd: Cmd, t: Mirror, f: string)
    requires Step(s, cmd, t) && f !in SentFiles(s, cmd)
    ensures Told(t.adapter, f) == Told(s.adapter, f) && IdsIn(t.bps, f) == IdsIn(s.bps, f)
    ensures forall id :: id in IdsIn(s.bps, f) ==> SameRequest(s.bps[id], t.bps[id])
  {
    forall id ensures id in IdsIn(t.bps, f) <==> id in IdsIn(s.bps, f) {
      FileOf(s.bps, if cmd.ClearOnce? then cmd.onceIds else s.bps.Keys, id);
      assert cmd.Break? ==> s.nextId !in IdsIn(t.bps, f);
    }
  }

  lemma FileOf(bps: map<int, BP>, ids: set<int>, id: int)
    ensures id in ids && id in bps ==> bps[id].file in Files(bps, ids)
  {
  }

  /** What was sent does not depend on hits and on what the adapter reports. */
  lemma SentFrame(s: map<int, BP>, t: map<int, BP>, f: string, list: seq<SourceBP>, full: bool)
    requires Sent(s, f, list, full) && IdsIn(s, f) == IdsIn(t, f)
    requires forall id :: id in IdsIn(s, f) ==> SameRequest(s[id], t[id])
    ensures Sent(t, f, list, full)
  {
    var order :| Lists(order, s, f, list, full);
    forall i | 0 <= i < |order| ensures order[i] in t && list[i] == Spec(t[order[i]], full) {
      var id := order[i];
      assert id in order && id in IdsIn(s, f) && id in IdsIn(t, f);
    }
    assert Lists(order, t, f, list, full);
  }

  /** In every run the adapter holds for every file the current breakpoints as the last sending of it wrote them. */
  lemma {:induction false} RunKeepsSent(states: seq<Mirror>, cmds: seq<Cmd>, n: nat, f: string)
    requires IsRun(states, cmds) && n < |states|
    ensures Sent(states[n].bps, f, Told(states[n].adapter, f), LastFull(states, cmds, n, f))
  {
    if n == 0 {
      SentNothing(f);
    } else {
      var s, cmd, t := states[n - 1], cmds[n - 1], states[n];
      assert Step(s, cmd, t);
      if f in SentFiles(s, cmd) {
        SentByCommand(s, cmd, t, f);
      } else {
        RunKeepsSent(states, cmds, n - 1, f);
        UnsentFile(s, cmd, t, f);
        SentFrame(s.bps, t.bps, f, Told(s.adapter, f), LastFull(states, cmds, n - 1, f));
      }
    }
  }

  lemma SentByCommand(s: Mirror, cmd: Cmd, t: Mirror, f: string)
    requires Step(s, cmd, t) && f in SentFiles(s, cmd)
    ensures Sent(t.bps, f, Told(t.adapter, f), !cmd.Unbreak?)
  {
  }

  /** After any run the adapter fully agrees on a file exactly when its last sending had modifiers or no breakpoint of
      the file has any. */
  lemma FullAgreementIff(states: seq<Mirror>, cmds: seq<Cmd>, n: nat, f: string)
    requires IsRun(states, cmds) && n < |states|
    ensures FullyAgrees(states[n].bps, f, Told(states[n].adapter, f)) <==>
            LastFull(states, cmds, n, f) || forall id :: id in IdsIn(states[n].bps, f) ==> Unmodified(states[n].bps[id])
  {
    RunKeepsSent(states, cmds, n, f);
    if LastFull(states, cmds, n, f) {
      SentFullyAgrees(states[n].bps, f, Told(states[n].adapter, f));
    } else {
      BareRequestLosesModifiers(states[n].bps, f, Told(states[n].adapter, f));
    }
  }

  lemma NothingToldForNoBreakpoints(bps: map<int, BP>, f: string, list: seq<SourceBP>)
    requires Agrees(bps, f, list)
    ensures list == [] || IdsIn(bps, f) != {}
  {
    if list != [] {
      var p := Pairs(list)[0];
      assert p in Pairs(list) && multiset(Pairs(list))[p] > 0;
      assert |WithPair(bps, f, p)| > 0;
      assert WithPair(bps, f, p) <= IdsIn(bps, f);
      assert WithPair(bps, f, p) != {};
    }
  }

  lemma NoFileNoBreakpoints(bps: map<int, BP>, f: string)
    requires f !in Files(bps, bps.Keys)
    ensures IdsIn(bps, f) == {}
  {
    forall id ensures id !in IdsIn(bps, f) {
      assert id in bps.Keys && bps[id].file == f ==> f in Files(bps, bps.Keys);
    }
  }
}
