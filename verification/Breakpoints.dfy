/** The breakpoint store of a session and the commands that change it. Map iteration is in an arbitrary order.
    A record is a value: writing into a stored record replaces it under its key. */
module Breakpoints {
  import opened Basics
  import opened BreakpointMirror

  /** What the adapter answers for one entry of a request. */
  datatype Reply = Reply(id: int, verified: bool)

  function Ids(list: seq<BP>): seq<int> {
    seq(|list|, i requires 0 <= i < |list| => list[i].id)
  }

  predicate KeysAreIds(bps: map<int, BP>) {
    forall id :: id in bps ==> bps[id].id == id
  }

  /** The list holds each stored breakpoint of the file once. */
  ghost predicate Enumerates(list: seq<BP>, bps: map<int, BP>, f: string) {
    && Distinct(Ids(list))
    && (forall id :: id in Ids(list) <==> id in IdsIn(bps, f))
    && forall i :: 0 <= i < |list| ==> list[i].id in bps && bps[list[i].id] == list[i]
  }

  function Occurrences(ids: seq<int>, id: int): nat {
    multiset(ids)[id]
  }

  ghost function AsSet(ids: seq<int>): set<int> {
    set id | id in ids
  }

  /** The first i answers went to the breakpoints at their positions, and nothing else changed. */
  ghost predicate Answered(order: seq<int>, reply: seq<Reply>, s: map<int, BP>, t: map<int, BP>, i: nat) {
    && i <= |order| && i <= |reply| && t.Keys == s.Keys && SameRequests(s, t) && KeysAreIds(t)
    && (forall k :: 0 <= k < i ==>
          order[k] in t && t[order[k]].dapId == reply[k].id && t[order[k]].verified == reply[k].verified)
    && (forall id :: id in s && id !in order[..i] ==> t[id] == s[id])
  }

  lemma AnswerStep(order: seq<int>, reply: seq<Reply>, s: map<int, BP>, mid: map<int, BP>, t: map<int, BP>, i: nat)
    requires Answered(order, reply, s, mid, i) && i < |order| && i < |reply| && Distinct(order) && order[i] in mid
    requires t == mid[order[i] := mid[order[i]].(dapId := reply[i].id, verified := reply[i].verified)]
    ensures Answered(order, reply, s, t, i + 1)
  {
    assert order[..i + 1] == order[..i] + [order[i]];
  }

  class Store {
    var nextId: int
    var bps: map<int, BP>
    ghost var adapter: map<string, seq<SourceBP>>

    ghost function View(): Mirror
      reads this
    {
      Mirror(nextId, bps, adapter)
    }

    constructor ()
      ensures View() == EMPTY
    {
      nextId, bps, adapter := 1, map[], map[];
    }

    method AllocBP() returns (id: int)
      modifies this`nextId
      ensures id == old(nextId) && nextId == old(nextId) + 1
    {
      id := nextId;
      nextId := nextId + 1;
    }

    method RemoveBP(id: int) returns (present: bool)
      modifies this`bps
      ensures present == (id in old(bps)) && bps == old(bps) - {id}
    {
      present := id in bps;
      bps := bps - {id};
    }

    method BPsForFile(file: string) returns (out: seq<BP>)
      requires KeysAreIds(bps)
      ensures Enumerates(out, bps, file)
    {
      out := [];
      var todo := bps.Keys;
      while todo != {}
        invariant todo <= bps.Keys
        invariant Distinct(Ids(out))
        invariant forall id :: id in Ids(out) <==> id in IdsIn(bps, file) && id !in todo
        invariant forall i :: 0 <= i < |out| ==> out[i].id in bps && bps[out[i].id] == out[i]
        decreases |todo|
      {
        ghost var some := Pick(todo);
        assert some in todo;
        var id :| id in todo;
        if bps[id].file == file {
          assert id !in Ids(out);
          assert Ids(out + [bps[id]]) == Ids(out) + [id];
          out := out + [bps[id]];
        }
        todo := todo - {id};
      }
    }

    /** The request for a file, entry by entry. */
    method Request(list: seq<BP>, full: bool) returns (entries: seq<SourceBP>)
      ensures |entries| == |list| && forall i :: 0 <= i < |list| ==> entries[i] == Spec(list[i], full)
      ensures forall i :: 0 <= i < |list| ==>
                && entries[i].line == list[i].line && entries[i].cond == list[i].cond
                && entries[i].hitCond == (if full then list[i].hitCond else "")
                && entries[i].logMsg == (if full then list[i].logMsg else "")
    {
      entries := [];
      for i := 0 to |list|
        invariant |entries| == i && forall k :: 0 <= k < i ==> entries[k] == Spec(list[k], full)
      {
        var entry := SourceBP(list[i].line, "", "", "");
        if list[i].cond != "" {
          entry := entry.(cond := list[i].cond);
        }
        if full && list[i].hitCond != "" {
          entry := entry.(hitCond := list[i].hitCond);
        }
        if full && list[i].logMsg != "" {
          entry := entry.(logMsg := list[i].logMsg);
        }
        entries := entries + [entry];
      }
    }

    /** Sends the stored breakpoints of a file; the adapter replaces its set for the file. */
    method Sync(file: string, full: bool) returns (existing: seq<BP>)
      requires KeysAreIds(bps)
      modifies this`adapter
      ensures Enumerates(existing, bps, file)
      ensures file in adapter && adapter == old(adapter)[file := adapter[file]]
      ensures |adapter[file]| == |existing| && forall i :: 0 <= i < |existing| ==> adapter[file][i] == Spec(existing[i], full)
      ensures Lists(Ids(existing), bps, file, adapter[file], full) && Sent(bps, file, adapter[file], full)
    {
      existing := BPsForFile(file);
      var entries := Request(existing, full);
      adapter := adapter[file := entries];
      assert Lists(Ids(existing), bps, file, entries, full);
    }

    /** The answer at each position goes to the breakpoint sent at that position; surplus answers are ignored. */
    method ApplyReply(existing: seq<BP>, reply: seq<Reply>)
      requires KeysAreIds(bps) && Distinct(Ids(existing)) && forall k :: k in Ids(existing) ==> k in bps
      modifies this`bps
      ensures Answered(Ids(existing), reply, old(bps), bps, if |reply| < |existing| then |reply| else |existing|)
    {
      ghost var order := Ids(existing);
      var i := 0;
      while i < |reply| && i < |existing|
        invariant 0 <= i <= |existing| && i <= |reply|
        invariant Answered(order, reply, old(bps), bps, i)
      {
        ghost var mid := bps;
        assert order[i] == existing[i].id && order[i] in order;
        bps := bps[existing[i].id := bps[existing[i].id].(dapId := reply[i].id, verified := reply[i].verified)];
        AnswerStep(order, reply, old(bps), mid, bps, i);
        i := i + 1;
      }
    }

    /** `break`: the new breakpoint is stored, its whole file is sent, and the answer at each position
        goes to the breakpoint sent at that position. */
    method HandleBreak(file: string, line: int, cond: string, hitCond: string, logMsg: string, once: bool, reply: seq<Reply>)
      returns (id: int, ghost order: seq<int>)
      requires Mirrored(View())
      modifies this
      ensures id == old(nextId)
      ensures Step(old(View()), Break(file, line, cond, hitCond, logMsg, once), View())
      ensures bps.Keys == old(bps).Keys + {id} && bps[id].id == id && bps[id].file == file && bps[id].line == line
      ensures bps[id].cond == cond && bps[id].hitCond == hitCond && bps[id].logMsg == logMsg && bps[id].once == once
      ensures file in adapter && SourceBP(line, cond, hitCond, logMsg) in adapter[file]
      ensures file in adapter && Lists(order, bps, file, adapter[file], true)
      ensures forall i :: 0 <= i < |order| && i < |reply| ==>
                            bps[order[i]].dapId == reply[i].id && bps[order[i]].verified == reply[i].verified
      ensures forall k :: k in old(bps) && k !in order[..if |reply| < |order| then |reply| else |order|]
                          ==> bps[k] == old(bps)[k]
      ensures Mirrored(View())
    {
      ghost var before := View();
      id := AllocBP();
      assert id !in bps;
      bps := bps[id := BP(id, file, line, cond, hitCond, logMsg, once, 0, false, 0)];
      ghost var sent := bps;
      var existing := Sync(file, true);
      order := Ids(existing);
      ApplyReply(existing, reply);
      ListsFrame(order, sent, bps, file, adapter[file]);
      BreakIsStep(before, sent, View(), order, file, line, cond, hitCond, logMsg, once);
      NewIsListed(order, bps, file, adapter[file], id);
      StepKeepsMirrored(before, Break(file, line, cond, hitCond, logMsg, once), View());
    }

    method RemoveAll() returns (removed: seq<int>)
      modifies this`bps
      ensures Distinct(removed) && forall id :: id in removed <==> id in old(bps)
      ensures bps == old(bps) - AsSet(removed)
    {
      removed := [];
      var todo := bps.Keys;
      while todo != {}
        invariant todo <= old(bps).Keys
        invariant Distinct(removed) && forall id :: id in removed <==> id in old(bps) && id !in todo
        invariant bps == old(bps) - AsSet(removed)
        decreases |todo|
      {
        ghost var some := Pick(todo);
        assert some in todo;
        var id :| id in todo;
        var present := RemoveBP(id);
        removed := removed + [id];
        todo := todo - {id};
      }
    }

    method RemoveEach(ids: seq<int>) returns (removed: seq<int>)
      modifies this`bps
      ensures Distinct(removed) && forall id :: id in removed <==> id in old(bps) && id in ids
      ensures bps == old(bps) - AsSet(removed)
    {
      removed := [];
      for i := 0 to |ids|
        invariant Distinct(removed) && forall id :: id in removed <==> id in old(bps) && id in ids[..i]
        invariant bps == old(bps) - AsSet(removed)
      {
        assert ids[..i + 1] == ids[..i] + [ids[i]];
        var present := RemoveBP(ids[i]);
        if present {
          removed := removed + [ids[i]];
        }
      }
      assert ids[..|ids|] == ids;
    }

    /** `unbreak`: every file that had a breakpoint is sent again, without hit conditions and log messages. */
    method HandleUnbreak(ids: seq<int>, all: bool) returns (removed: seq<int>)
      requires Mirrored(View())
      modifies this
      ensures forall id :: id in removed <==> id in old(bps) && (all || id in ids)
      ensures Distinct(removed)
      ensures Step(old(View()), Unbreak(AsSet(removed)), View())
      ensures forall id :: id in bps <==> id in old(bps) && !all && id !in ids
      ensures forall id :: id in bps ==> bps[id] == old(bps)[id]
      ensures Mirrored(View())
    {
      ghost var before := View();
      var files := set id | id in bps.Keys :: bps[id].file;
      if all {
        removed := RemoveAll();
      } else {
        removed := RemoveEach(ids);
      }
      SyncAll(files, false);
      assert Step(before, Unbreak(AsSet(removed)), View());
      StepKeepsMirrored(before, Unbreak(AsSet(removed)), View());
    }

    /** Sends each of the files, in an arbitrary order. */
    method SyncAll(files: set<string>, full: bool)
      requires KeysAreIds(bps)
      modifies this`adapter
      ensures forall f :: if f in files then f in adapter && Sent(bps, f, adapter[f], full)
                          else Told(adapter, f) == Told(old(adapter), f)
    {
      var todo := files;
      while todo != {}
        invariant todo <= files
        invariant forall f :: f in files && f !in todo ==> f in adapter && Sent(bps, f, adapter[f], full)
        invariant forall f :: f !in files ==> Told(adapter, f) == Told(old(adapter), f)
        decreases |todo|
      {
        var f :| f in todo;
        var existing := Sync(f, full);
        todo := todo - {f};
      }
    }

    /** `until`: a breakpoint of its own is stored and sent, the program runs, and the breakpoint is removed and the
        file sent again, whatever the wait brought. The stops meanwhile count the adapter ids they report. */
    method HandleUntil(file: string, line: int, hitIds: seq<int>) returns (ghost meanwhile: seq<SourceBP>)
      requires Mirrored(View())
      modifies this
      ensures SourceBP(line, "", "", "") in meanwhile
      ensures Sent(old(bps)[old(nextId) := BP(old(nextId), file, line, "", "", "", false, 0, false, 0)], file, meanwhile, true)
      ensures Step(old(View()), Until(file, line), View())
      ensures forall id :: id in old(bps) ==>
                             id in bps && bps[id] == old(bps)[id].(hits := old(bps)[id].hits + Occurrences(hitIds, old(bps)[id].dapId))
      ensures Mirrored(View())
    {
      ghost var before := View();
      meanwhile := RunUntil(file, line, hitIds);
      AllCounted(before.bps, bps, hitIds);
      UntilIsStep(before, View(), file, line);
      StepKeepsMirrored(before, Until(file, line), View());
    }

    /** The part that sends, waits and sends again; `meanwhile` is what the adapter has during the wait. */
    method RunUntil(file: string, line: int, hitIds: seq<int>) returns (ghost meanwhile: seq<SourceBP>)
      requires KeysAreIds(bps) && nextId !in bps
      modifies this
      ensures SourceBP(line, "", "", "") in meanwhile
      ensures Sent(old(bps)[old(nextId) := BP(old(nextId), file, line, "", "", "", false, 0, false, 0)], file, meanwhile, true)
      ensures nextId == old(nextId) + 1
      ensures bps.Keys == old(bps).Keys && forall id :: id in bps ==> bps[id] == Bumped(old(bps)[id], hitIds)
      ensures file in adapter && adapter == old(adapter)[file := adapter[file]] && Sent(bps, file, adapter[file], true)
    {
      ghost var before := bps;
      var id := SendTemporary(file, line);
      ghost var during := bps;
      meanwhile := adapter[file];
      var toRemove := CountHits(hitIds);
      ghost var counted := bps;
      var present := RemoveBP(id);
      TemporaryIsGone(before, during, counted, bps, id, hitIds);
      var existing := Sync(file, true);
    }

    /** Stores a breakpoint of its own and sends the file. */
    method SendTemporary(file: string, line: int) returns (id: int)
      requires KeysAreIds(bps) && nextId !in bps
      modifies this
      ensures id == old(nextId) && nextId == old(nextId) + 1
      ensures id in bps && bps == old(bps)[id := BP(id, file, line, "", "", "", false, 0, false, 0)] && KeysAreIds(bps)
      ensures file in adapter && adapter == old(adapter)[file := adapter[file]] && Sent(bps, file, adapter[file], true)
      ensures SourceBP(line, "", "", "") in adapter[file]
    {
      id := AllocBP();
      bps := bps[id := BP(id, file, line, "", "", "", false, 0, false, 0)];
      var existing := Sync(file, true);
      NewIsListed(Ids(existing), bps, file, adapter[file], id);
    }

    /** The once-breakpoints at a pause location are removed and the file is sent again. */
    method ClearOnceAt(file: string, line: int)
      requires Mirrored(View())
      modifies this
      ensures Step(old(View()), ClearAt(file, line), View())
      ensures forall id :: id in bps <==>
                id in old(bps) && !(old(bps)[id].file == file && old(bps)[id].line == line && old(bps)[id].once)
      ensures forall id :: id in bps ==> bps[id] == old(bps)[id]
      ensures Mirrored(View())
    {
      ghost var before := View();
      var list := BPsForFile(file);
      ghost var gone: set<int> := {};
      for i := 0 to |list|
        invariant bps == old(bps) - gone && nextId == old(nextId) && adapter == old(adapter)
        invariant gone == set k | 0 <= k < i && list[k].once && list[k].line == line :: list[k].id
      {
        if list[i].once && list[i].line == line {
          var present := RemoveBP(list[i].id);
          gone := gone + {list[i].id};
        }
      }
      forall id | id in old(bps)
        ensures id in gone <==> old(bps)[id].file == file && old(bps)[id].once && old(bps)[id].line == line
      {
        if id in IdsIn(old(bps), file) {
          assert id in Ids(list);
          var k :| 0 <= k < |Ids(list)| && Ids(list)[k] == id;
          assert list[k].id == id;
        }
        if id in gone {
          var k :| 0 <= k < |list| && list[k].once && list[k].line == line && list[k].id == id;
          assert Ids(list)[k] in Ids(list);
          assert id in IdsIn(old(bps), file);
        }
      }
      var existing := Sync(file, true);
      assert Step(before, ClearAt(file, line), View());
      StepKeepsMirrored(before, ClearAt(file, line), View());
    }

    /** The breakpoints with the given ids are removed and each of their files is sent again. */
    method ClearOnceBPs(ids: seq<int>)
      requires Mirrored(View())
      modifies this
      ensures Step(old(View()), ClearOnce(AsSet(ids)), View())
      ensures forall id :: id in bps <==> id in old(bps) && id !in ids
      ensures forall id :: id in bps ==> bps[id] == old(bps)[id]
      ensures Mirrored(View())
    {
      ghost var before := View();
      var files: set<string> := {};
      for i := 0 to |ids|
        invariant bps == old(bps) - AsSet(ids[..i]) && nextId == old(nextId) && adapter == old(adapter)
        invariant files == Files(old(bps), AsSet(ids[..i]))
      {
        assert ids[..i + 1] == ids[..i] + [ids[i]];
        assert AsSet(ids[..i + 1]) == AsSet(ids[..i]) + {ids[i]};
        FilesGrow(old(bps), AsSet(ids[..i]), ids[i]);
        if ids[i] in bps {
          files := files + {bps[ids[i]].file};
        }
        var present := RemoveBP(ids[i]);
      }
      assert ids[..|ids|] == ids;
      SyncAll(files, true);
      assert Step(before, ClearOnce(AsSet(ids)), View());
      StepKeepsMirrored(before, ClearOnce(AsSet(ids)), View());
    }

    /** A stop counts a hit for every occurrence of a breakpoint's adapter id, and names the
        once-breakpoints that were hit. */
    method RecordHits(hitIds: seq<int>) returns (toRemove: seq<int>)
      requires Mirrored(View())
      modifies this`bps
      ensures Step(old(View()), Hits(hitIds), View())
      ensures forall id :: id in old(bps) ==>
                             id in bps && bps[id] == old(bps)[id].(hits := old(bps)[id].hits + Occurrences(hitIds, old(bps)[id].dapId))
      ensures forall id :: id in toRemove <==> id in old(bps) && old(bps)[id].once && old(bps)[id].dapId in hitIds
      ensures Mirrored(View())
    {
      ghost var before := View();
      toRemove := CountHits(hitIds);
      AllCounted(before.bps, bps, hitIds);
      StepKeepsMirrored(before, Hits(hitIds), View());
    }

    method CountHits(hitIds: seq<int>) returns (toRemove: seq<int>)
      requires KeysAreIds(bps)
      modifies this`bps
      ensures bps.Keys == old(bps).Keys && forall id :: id in bps ==> bps[id] == Bumped(old(bps)[id], hitIds)
      ensures forall id :: id in toRemove <==> id in old(bps) && old(bps)[id].once && old(bps)[id].dapId in hitIds
    {
      ghost var start := bps;
      toRemove := [];
      for i := 0 to |hitIds|
        invariant AllBumped(start, bps, hitIds[..i])
        invariant forall id :: id in toRemove <==> id in start && start[id].once && start[id].dapId in hitIds[..i]
      {
        ghost var mid := bps;
        toRemove := CountHit(hitIds[i], toRemove);
        AllBumpedSnoc(start, mid, bps, hitIds[..i], hitIds[i]);
        assert hitIds[..i + 1] == hitIds[..i] + [hitIds[i]];
      }
      assert hitIds[..|hitIds|] == hitIds;
    }

    /** One reported adapter id, looked up among all records. */
    method CountHit(hid: int, found: seq<int>) returns (toRemove: seq<int>)
      requires KeysAreIds(bps)
      modifies this`bps
      ensures bps.Keys == old(bps).Keys && forall id :: id in bps ==> bps[id] == Bump(old(bps)[id], hid)
      ensures forall id :: id in toRemove <==> id in found || (id in bps && old(bps)[id].dapId == hid && old(bps)[id].once)
    {
      toRemove := found;
      var todo := bps.Keys;
      while todo != {}
        invariant bps.Keys == old(bps).Keys && todo <= bps.Keys
        invariant forall id :: id in bps ==> bps[id] == if id in todo then old(bps)[id] else Bump(old(bps)[id], hid)
        invariant forall id :: id in toRemove <==>
                               id in found || (id in bps && id !in todo && old(bps)[id].dapId == hid && old(bps)[id].once)
        decreases |todo|
      {
        ghost var some := Pick(todo);
        assert some in todo;
        var id :| id in todo;
        var b := bps[id];
        assert b == old(bps)[id] && b.id == id;
        if b.dapId == hid {
          bps := bps[id := Bump(b, hid)];
          if b.once {
            toRemove := toRemove + [b.id];
          }
        }
        todo := todo - {id};
      }
    }
  }

  /** A stored breakpoint of the file is in the list, with all its fields. */
  lemma NewIsListed(order: seq<int>, bps: map<int, BP>, f: string, list: seq<SourceBP>, id: int)
    requires Lists(order, bps, f, list, true) && id in bps && bps[id].file == f
    ensures SourceBP(bps[id].line, bps[id].cond, bps[id].hitCond, bps[id].logMsg) in list
  {
    assert id in IdsIn(bps, f) && id in order;
    var i :| 0 <= i < |order| && order[i] == id;
    assert list[i] in list;
  }

  lemma TemporaryIsGone(before: map<int, BP>, during: map<int, BP>, counted: map<int, BP>, after: map<int, BP>, id: int,
                        hitIds: seq<int>)
    requires KeysAreIds(before) && id !in before && id in during && during == before[id := during[id]]
    requires counted.Keys == during.Keys && forall k :: k in counted ==> counted[k] == Bumped(during[k], hitIds)
    requires after == counted - {id}
    ensures after.Keys == before.Keys && KeysAreIds(after) && forall k :: k in after ==> after[k] == Bumped(before[k], hitIds)
  {
    assert after.Keys == before.Keys;
    forall k | k in after ensures after[k] == Bumped(before[k], hitIds) {
      assert during[k] == before[k] && after[k] == counted[k];
    }
    AllCounted(before, after, hitIds);
  }

  lemma UntilIsStep(s: Mirror, t: Mirror, file: string, line: int)
    requires t.nextId == s.nextId + 1 && OnlyHitsChange(s.bps, t.bps)
    requires file in t.adapter && Sent(t.bps, file, t.adapter[file], true)
    requires t.adapter == s.adapter[file := t.adapter[file]]
    ensures Step(s, Until(file, line), t)
  {
  }

  lemma BreakIsStep(s: Mirror, sent: map<int, BP>, t: Mirror, order: seq<int>,
                    file: string, line: int, cond: string, hitCond: string, logMsg: string, once: bool)
    requires s.nextId !in s.bps
    requires sent == s.bps[s.nextId := BP(s.nextId, file, line, cond, hitCond, logMsg, once, 0, false, 0)]
    requires t.nextId == s.nextId + 1 && t.bps.Keys == sent.Keys && SameRequests(sent, t.bps)
    requires file in t.adapter && t.adapter == s.adapter[file := t.adapter[file]]
    requires Lists(order, t.bps, file, t.adapter[file], true)
    ensures Step(s, Break(file, line, cond, hitCond, logMsg, once), t)
  {
    assert Sent(t.bps, file, t.adapter[file], true);
    forall id | id in s.bps ensures id in t.bps && SameRequest(s.bps[id], t.bps[id]) {
      assert id in sent && sent[id] == s.bps[id];
    }
  }

  function Bump(b: BP, hid: int): BP {
    if b.dapId == hid then b.(hits := b.hits + 1) else b
  }

  function Bumped(b: BP, hitIds: seq<int>): BP {
    if hitIds == [] then b else Bump(Bumped(b, hitIds[..|hitIds| - 1]), hitIds[|hitIds| - 1])
  }

  ghost predicate AllBumped(s: map<int, BP>, t: map<int, BP>, hitIds: seq<int>) {
    && t.Keys == s.Keys && KeysAreIds(t)
    && forall id :: id in s ==> t[id] == Bumped(s[id], hitIds) && t[id].dapId == s[id].dapId && t[id].once == s[id].once
  }

  lemma AllBumpedSnoc(s: map<int, BP>, mid: map<int, BP>, t: map<int, BP>, hitIds: seq<int>, hid: int)
    requires AllBumped(s, mid, hitIds) && t.Keys == mid.Keys && forall id :: id in t ==> t[id] == Bump(mid[id], hid)
    ensures AllBumped(s, t, hitIds + [hid])
  {
    assert (hitIds + [hid])[..|hitIds|] == hitIds;
    forall id | id in s ensures t[id] == Bumped(s[id], hitIds + [hid]) {
      assert id in mid.Keys && id in t.Keys;
    }
  }

  lemma AllCounted(s: map<int, BP>, t: map<int, BP>, hitIds: seq<int>)
    requires KeysAreIds(s) && t.Keys == s.Keys && forall id :: id in s ==> t[id] == Bumped(s[id], hitIds)
    ensures KeysAreIds(t) && OnlyHitsChange(s, t)
    ensures forall id :: id in s ==> t[id] == s[id].(hits := s[id].hits + Occurrences(hitIds, s[id].dapId))
  {
    forall id | id in s ensures t[id] == s[id].(hits := s[id].hits + Occurrences(hitIds, s[id].dapId)) {
      BumpedCounts(s[id], hitIds);
    }
  }

  lemma {:induction false} BumpedCounts(b: BP, hitIds: seq<int>)
    ensures Bumped(b, hitIds) == b.(hits := b.hits + Occurrences(hitIds, b.dapId))
  {
    if hitIds != [] {
      BumpedCounts(b, hitIds[..|hitIds| - 1]);
      assert hitIds == hitIds[..|hitIds| - 1] + [hitIds[|hitIds| - 1]];
    }
  }

  /** What was sent does not depend on what the adapter reports about it. */
  lemma ListsFrame(order: seq<int>, s: map<int, BP>, t: map<int, BP>, f: string, list: seq<SourceBP>)
    requires Lists(order, s, f, list, true) && s.Keys == t.Keys && SameRequests(s, t)
    ensures Lists(order, t, f, list, true) && Sent(t, f, list, true)
  {
    forall id ensures id in IdsIn(s, f) <==> id in IdsIn(t, f) {
      assert id in s.Keys <==> id in t.Keys;
    }
    forall i | 0 <= i < |order| ensures order[i] in t && list[i] == Spec(t[order[i]], true) {
      var id := order[i];
      assert id in s && list[i] == Spec(s[id], true) && SameRequest(s[id], t[id]);
    }
    assert Lists(order, t, f, list, true);
  }

  lemma FilesGrow(bps: map<int, BP>, ids: set<int>, id: int)
    ensures Files(bps, ids + {id}) == Files(bps, ids) + (if id in bps then {bps[id].file} else {})
  {
    forall f ensures f in Files(bps, ids + {id}) <==> f in Files(bps, ids) || (id in bps && f == bps[id].file) {
    }
  }
}
