/** The session manager's default session, and who a command without a session id talks to. */
module Manager {
  import opened Basics
  import opened SessionState

  /** What the default bookkeeping needs to know of a session. */
  datatype Info = Info(id: string, state: State)

  datatype Registry = Registry(sessions: map<string, Info>, defId: string)

  datatype Op = Register(s: Info) | Remove(removed: string) | SetDefault(chosen: string)

  /** The default id names a live session exactly when there is one. */
  ghost predicate DefaultLives(r: Registry) {
    && (forall id :: id in r.sessions ==> id != "" && r.sessions[id].id == id)
    && (r.sessions == map[] ==> r.defId == "")
    && (r.sessions != map[] ==> r.defId in r.sessions)
  }

  /** One operation; removing the default promotes an arbitrary remaining session. */
  ghost predicate Step(r: Registry, op: Op, t: Registry) {
    match op
    case Register(s) => t == Registry(r.sessions[s.id := s], s.id)
    case Remove(id) =>
      if id !in r.sessions then t == r
      else
        && t.sessions == r.sessions - {id}
        && (if r.defId != id then t.defId == r.defId
            else if t.sessions == map[] then t.defId == "" else t.defId in t.sessions)
    case SetDefault(id) => t == if id in r.sessions then r.(defId := id) else r
  }

  ghost predicate IsRun(states: seq<Registry>, ops: seq<Op>) {
    && |states| == |ops| + 1
    && states[0] == Registry(map[], "")
    && forall i :: 0 <= i < |ops| ==> Step(states[i], ops[i], states[i + 1]) && (ops[i].Register? ==> ops[i].s.id != "")
  }

  /** After any run of registrations, removals and choices, the default names a live session exactly when one exists. */
  lemma {:induction false} DefaultAlwaysLives(states: seq<Registry>, ops: seq<Op>, n: nat)
    requires IsRun(states, ops) && n < |states|
    ensures DefaultLives(states[n])
  {
    if n > 0 {
      DefaultAlwaysLives(states, ops, n - 1);
      var r, t := states[n - 1], states[n];
      match ops[n - 1]
      case Register(s) => assert s.id in t.sessions;
      case Remove(id) =>
        assert r.defId != id && id in r.sessions ==> r.defId in t.sessions;
      case SetDefault(id) =>
    }
  }

  // ----- the session list and the resolution of an empty id -----

  datatype Row = Row(id: string, isDefault: bool, state: State)

  function LiveIds(rows: seq<Row>): seq<string> {
    if rows == [] then []
    else
      var front := LiveIds(rows[..|rows| - 1]);
      if rows[|rows| - 1].state.Terminal() then front else front + [rows[|rows| - 1].id]
  }

  /** The first row marked as default, or else the only live session, or else the only session. */
  function Resolve(rows: seq<Row>): string {
    var d := FirstDefault(rows);
    if d < |rows| then rows[d].id
    else if |LiveIds(rows)| == 1 then LiveIds(rows)[0]
    else if |rows| == 1 then rows[0].id
    else ""
  }

  predicate IsOver(row: Row) {
    row.state == StateExited || row.state == StateTerminated
  }

  /** The positions of the rows that are not over, in order, and their ids. */
  ghost predicate AreLive(rows: seq<Row>, ids: seq<string>, at: seq<nat>) {
    && |at| == |ids| && (forall i, j :: 0 <= i < j < |at| ==> at[i] < at[j])
    && (forall i :: 0 <= i < |at| ==> at[i] < |rows| && ids[i] == rows[at[i]].id && !IsOver(rows[at[i]]))
    && (forall k :: 0 <= k < |rows| && !IsOver(rows[k]) ==> k in at)
  }

  lemma LiveTurn(rows: seq<Row>, ids: seq<string>, at: seq<nat>, row: Row) returns (after: seq<nat>)
    requires AreLive(rows, ids, at)
    ensures AreLive(rows + [row], if IsOver(row) then ids else ids + [row.id], after)
  {
    after := if IsOver(row) then at else at + [|rows|];
    forall k | 0 <= k < |rows + [row]| && !IsOver((rows + [row])[k]) ensures k in after {
      assert k < |rows| ==> k in at;
      assert k == |rows| ==> after[|after| - 1] == k;
    }
  }

  lemma {:induction false} LiveIdsSpec(rows: seq<Row>) returns (at: seq<nat>)
    ensures AreLive(rows, LiveIds(rows), at)
  {
    if rows == [] {
      at := [];
    } else {
      var front, row := rows[..|rows| - 1], rows[|rows| - 1];
      assert rows == front + [row];
      LiveIdsTurn(rows, front, row);
      var before := LiveIdsSpec(front);
      at := LiveTurn(front, LiveIds(front), before, row);
    }
  }

  lemma LiveIdsTurn(rows: seq<Row>, front: seq<Row>, row: Row)
    requires rows == front + [row]
    ensures LiveIds(rows) == if IsOver(row) then LiveIds(front) else LiveIds(front) + [row.id]
  {
    assert rows[..|rows| - 1] == front;
  }

  /** The row is the only one that is not over. */
  predicate OnlyLive(rows: seq<Row>, k: int) {
    0 <= k < |rows| && !IsOver(rows[k]) && forall i :: 0 <= i < |rows| && i != k ==> IsOver(rows[i])
  }

  lemma OnlyLiveIff(rows: seq<Row>, ids: seq<string>, at: seq<nat>)
    requires AreLive(rows, ids, at)
    ensures |ids| == 1 ==> OnlyLive(rows, at[0])
    ensures forall k :: OnlyLive(rows, k) ==> |ids| == 1 && ids[0] == rows[k].id
  {
    forall k | OnlyLive(rows, k) ensures |ids| == 1 && ids[0] == rows[k].id {
      assert k in at;
      OneElement(at, k);
    }
  }

  lemma OneElement(at: seq<nat>, k: int)
    requires k in at && (forall i :: 0 <= i < |at| ==> at[i] == k) && forall i, j :: 0 <= i < j < |at| ==> at[i] < at[j]
    ensures |at| == 1
  {
    assert at[0] == at[|at| - 1];
  }

  /** Without a marked row an empty id is resolved to the one session that is not over, if there is exactly one, or else
      to the only session; with neither it stays empty. */
  lemma ResolveFallback(rows: seq<Row>)
    requires forall i :: 0 <= i < |rows| ==> !rows[i].isDefault
    ensures forall k :: OnlyLive(rows, k) ==> Resolve(rows) == rows[k].id
    ensures |rows| == 1 ==> Resolve(rows) == rows[0].id
    ensures |rows| != 1 && (forall k :: !OnlyLive(rows, k)) ==> Resolve(rows) == ""
  {
    var at := LiveIdsSpec(rows);
    OnlyLiveIff(rows, LiveIds(rows), at);
  }

  /** The first marked row goes before that. */
  lemma ResolveMarked(rows: seq<Row>, d: nat)
    requires d < |rows| && rows[d].isDefault && forall i :: 0 <= i < d ==> !rows[i].isDefault
    ensures Resolve(rows) == rows[d].id
  {
  }

  function FirstDefault(rows: seq<Row>): (d: nat)
    ensures d <= |rows| && (forall i :: 0 <= i < d ==> !rows[i].isDefault) && (d < |rows| ==> rows[d].isDefault)
  {
    if rows == [] || rows[0].isDefault then 0 else 1 + FirstDefault(rows[1..])
  }

  predicate Has(rows: seq<Row>, id: string) {
    exists i :: 0 <= i < |rows| && rows[i].id == id
  }

  lemma HasSnoc(rows: seq<Row>, row: Row, id: string)
    requires Has(rows, id) || row.id == id
    ensures Has(rows + [row], id)
  {
    var all := rows + [row];
    if row.id == id {
      assert all[|rows|].id == id;
    } else {
      var i :| 0 <= i < |rows| && rows[i].id == id;
      assert all[i].id == id;
    }
  }

  /** The rows list every session once, in some order, and mark the given default. */
  ghost predicate ListsSessions(rows: seq<Row>, sessions: map<string, Info>, def: string) {
    && (forall i, j :: 0 <= i < j < |rows| ==> rows[i].id != rows[j].id)
    && (forall id :: id in sessions <==> Has(rows, id))
    && (forall i :: 0 <= i < |rows| ==> rows[i].isDefault == (rows[i].id == def))
  }

  ghost predicate OneDefault(rows: seq<Row>) {
    exists d :: 0 <= d < |rows| && rows[d].isDefault && forall i :: 0 <= i < |rows| && rows[i].isDefault ==> i == d
  }

  /** The default id is read before the list is: exactly one row is marked exactly when the session that was
      the default then is still there. */
  lemma OneDefaultIff(sessions: map<string, Info>, def: string, rows: seq<Row>)
    requires ListsSessions(rows, sessions, def)
    ensures OneDefault(rows) <==> def in sessions
  {
    if def in sessions {
      var d :| 0 <= d < |rows| && rows[d].id == def;
      assert rows[d].isDefault;
    }
    if d :| 0 <= d < |rows| && rows[d].isDefault {
      assert Has(rows, rows[d].id);
    }
  }

  /** Two sessions are registered, the default is read, the default is removed, the list is read: no row is marked. */
  lemma DefaultIsMissed(a: Info, b: Info) returns (states: seq<Registry>, rows: seq<Row>)
    requires a.id != b.id && a.id != "" && b.id != ""
    ensures IsRun(states, [Register(b), Register(a), Remove(a.id)])
    ensures ListsSessions(rows, states[3].sessions, states[2].defId) && |rows| == 1 && !OneDefault(rows)
  {
    var m: map<string, Info> := map[b.id := b];
    states := [Registry(map[], ""), Registry(m, b.id), Registry(m[a.id := a], a.id), Registry(m, b.id)];
    rows := [Row(b.id, false, b.state)];
    assert m[a.id := a] - {a.id} == m;
    assert Has(rows, b.id) by {
      assert rows[0].id == b.id;
    }
    assert forall id :: Has(rows, id) ==> id == b.id;
    OneDefaultIff(m, a.id, rows);
  }

  /** With the default bookkeeping intact and nothing in between the two reads, the list marks exactly one default as
      soon as there is a session, and the client's resolution of an empty id names the session the daemon's own
      lookup would use. */
  lemma ResolveAgreesWithDaemon(r: Registry, rows: seq<Row>)
    requires DefaultLives(r) && ListsSessions(rows, r.sessions, r.defId)
    ensures Resolve(rows) == r.defId
    ensures rows != [] ==> OneDefault(rows)
  {
    if rows != [] {
      assert Has(rows, rows[0].id);
      OneDefaultIff(r.sessions, r.defId, rows);
      var d :| 0 <= d < |rows| && rows[d].id == r.defId;
      assert FirstDefault(rows) == d;
    } else {
      assert forall id :: id !in r.sessions;
    }
  }

  class Manager {
    var sessions: map<string, Info>
    var defId: string

    function View(): Registry
      reads this
    {
      Registry(sessions, defId)
    }

    constructor ()
      ensures View() == Registry(map[], "") && DefaultLives(View())
    {
      sessions, defId := map[], "";
    }

    method RegisterSession(s: Info)
      requires DefaultLives(View()) && s.id != ""
      modifies this
      ensures Step(old(View()), Register(s), View()) && DefaultLives(View())
      ensures sessions == old(sessions)[s.id := s] && defId == s.id
    {
      sessions := sessions[s.id := s];
      defId := s.id;
      assert s.id in sessions;
    }

    method SetDefaultSession(id: string) returns (found: bool)
      requires DefaultLives(View())
      modifies this`defId
      ensures found == (id in sessions)
      ensures Step(old(View()), SetDefault(id), View()) && DefaultLives(View())
      ensures defId == if found then id else old(defId)
    {
      found := id in sessions;
      if found {
        defId := id;
      }
    }

    method RemoveSession(id: string)
      requires DefaultLives(View())
      modifies this
      ensures Step(old(View()), Remove(id), View()) && DefaultLives(View())
      ensures sessions == old(sessions) - {id} && (id != old(defId) ==> defId == old(defId))
    {
      if id in sessions {
        sessions := sessions - {id};
        if defId == id {
          defId := "";
          if sessions.Keys != {} {
            var k :| k in sessions.Keys;
            defId := k;
          }
        }
        assert defId != "" ==> defId in sessions;
      }
    }

    /** The session with the id, or the default session for an empty id. */
    method Get(id: string) returns (r: Option<Info>)
      requires DefaultLives(View())
      ensures id != "" ==> r == if id in sessions then Some(sessions[id]) else None
      ensures id == "" ==> (r.Some? <==> sessions != map[]) && (r.Some? ==> r.value.id == defId)
    {
      var sid := if id == "" then defId else id;
      r := if sid in sessions then Some(sessions[sid]) else None;
    }

    /** The answer of the `sessions` command, with the default id that was read before under a lock of its own. */
    method HandleSessions(def: string) returns (rows: seq<Row>)
      requires forall id :: id in sessions ==> sessions[id].id == id
      ensures ListsSessions(rows, sessions, def)
      ensures forall i :: 0 <= i < |rows| ==> rows[i].id in sessions && rows[i].state == sessions[rows[i].id].state
    {
      rows := [];
      var todo := sessions.Keys;
      while todo != {}
        invariant todo <= sessions.Keys
        invariant forall i, j :: 0 <= i < j < |rows| ==> rows[i].id != rows[j].id
        invariant forall i :: 0 <= i < |rows| ==>
                    && rows[i].id in sessions && rows[i].id !in todo && rows[i].state == sessions[rows[i].id].state
        invariant forall id :: id in sessions && id !in todo ==> Has(rows, id)
        invariant forall i :: 0 <= i < |rows| ==> rows[i].isDefault == (rows[i].id == def)
        decreases |todo|
      {
        var id :| id in todo;
        var row := Row(sessions[id].id, sessions[id].id == def, sessions[id].state);
        forall k | Has(rows, k) || k == id ensures Has(rows + [row], k) {
          HasSnoc(rows, row, k);
        }
        rows := rows + [row];
        todo := todo - {id};
      }
    }
  }

  /** The client side: an explicit id is kept, an empty one is resolved from the session list. */
  method ResolveSession(sess: string, rows: seq<Row>) returns (r: string)
    ensures r == if sess != "" then sess else Resolve(rows)
  {
    if sess != "" {
      return sess;
    }
    var i := 0;
    while i < |rows|
      invariant 0 <= i <= |rows|
      invariant forall k :: 0 <= k < i ==> !rows[k].isDefault
    {
      if rows[i].isDefault {
        return rows[i].id;
      }
      i := i + 1;
    }
    var live: seq<string> := [];
    for k := 0 to |rows|
      invariant live == LiveIds(rows[..k])
    {
      assert rows[..k + 1][..k] == rows[..k];
      if rows[k].state != StateExited && rows[k].state != StateTerminated {
        live := live + [rows[k].id];
      }
    }
    assert rows[..|rows|] == rows;
    if |live| == 1 {
      return live[0];
    }
    r := if |rows| == 1 then rows[0].id else "";
  }
}
