/** Safe mode from the command line to the next daemon: resolving the flags, exporting and persisting the settings,
    and loading them again. */
module SafeMode {
  import opened Basics
  import opened Text
  import opened EnvText
  import opened SafePolicy

  // ----- the programs of an unattended safe mode -----

  const CANDIDATES := ["java", "python3", "python", "node", "dlv"]

  /** The canonical paths of the names that are found, each once, in the order of the names. `find` looks a name up,
      resolves links and cleans the path; None stands for an error or an empty path. */
  function Discovered(names: seq<string>, find: string -> Option<string>): seq<string> {
    if names == [] then []
    else
      var front := Discovered(names[..|names| - 1], find);
      var path := find(names[|names| - 1]);
      if path.None? || path.value in front then front else front + [path.value]
  }

  /** Exactly the paths that some name has, none twice. */
  lemma {:induction false} DiscoveredSpec(names: seq<string>, find: string -> Option<string>)
    ensures Distinct(Discovered(names, find))
    ensures forall p :: p in Discovered(names, find) <==> exists i :: 0 <= i < |names| && find(names[i]) == Some(p)
  {
    if names != [] {
      var n := |names| - 1;
      DiscoveredSpec(names[..n], find);
      forall p ensures p in Discovered(names, find) <==> exists i :: 0 <= i < |names| && find(names[i]) == Some(p) {
        if p in Discovered(names[..n], find) {
          var i :| 0 <= i < n && find(names[..n][i]) == Some(p);
          assert find(names[i]) == Some(p);
        }
        if i :| 0 <= i < n && find(names[i]) == Some(p) {
          assert find(names[..n][i]) == Some(p);
        }
      }
    }
  }

  /** The paths stand in the order of the names: each at the first name that has it. */
  ghost predicate InOrder(names: seq<string>, find: string -> Option<string>, found: seq<string>, at: seq<nat>) {
    && |at| == |found| && (forall i, j :: 0 <= i < j < |at| ==> at[i] < at[j])
    && (forall i :: 0 <= i < |at| ==> at[i] < |names| && find(names[at[i]]) == Some(found[i]))
    && (forall i, k :: 0 <= i < |at| && 0 <= k < at[i] ==> find(names[k]) != Some(found[i]))
  }

  lemma OrderTurn(names: seq<string>, find: string -> Option<string>, found: seq<string>, at: seq<nat>, name: string,
                  path: string)
    requires InOrder(names, find, found, at) && find(name) == Some(path)
    requires forall k :: 0 <= k < |names| ==> find(names[k]) != Some(path)
    ensures InOrder(names + [name], find, found + [path], at + [|names|])
  {
  }

  lemma {:induction false} DiscoveredOrder(names: seq<string>, find: string -> Option<string>) returns (at: seq<nat>)
    ensures InOrder(names, find, Discovered(names, find), at)
  {
    at := [];
    if names != [] {
      var n := |names| - 1;
      var front, path := names[..n], find(names[n]);
      at := DiscoveredOrder(front, find);
      DiscoveredSpec(front, find);
      assert names == front + [names[n]];
      if path.Some? && path.value !in Discovered(front, find) {
        OrderTurn(front, find, Discovered(front, find), at, names[n], path.value);
        at := at + [n];
      }
    }
  }

  method AutoDiscoverPrograms(find: string -> Option<string>) returns (found: seq<string>)
    ensures found == Discovered(["java", "python3", "python", "node", "dlv"], find)
  {
    var names := CANDIDATES;
    var seen: set<string> := {};
    found := [];
    for i := 0 to |names|
      invariant found == Discovered(names[..i], find) && seen == set p | p in found
    {
      assert names[..i + 1][..i] == names[..i];
      var path := find(names[i]);
      if path.None? || path.value in seen {
        continue;
      }
      seen := seen + {path.value};
      found := found + [path.value];
    }
    assert names[..|names|] == names;
  }

  // ----- resolving the flags -----

  /** A refusal, the insecure opt-out, or the settings of safe mode. */
  datatype Outcome = Refused | Insecure | Safe(updates: Env)

  /** Safe mode is what is asked for, or the default unless the environment opts out of it. */
  function OutcomeOf(safe: bool, optOut: string, f: Flags, find: string -> Option<string>, cwd: string, defaultLog: string,
                     clean: string -> string): Outcome {
    if !safe && ParseBool(optOut) then Insecure
    else
      var g := Resolved(f, Discovered(CANDIDATES, find), cwd, defaultLog);
      if g.None? then Refused else Safe(EnvOf(g.value, clean))
  }

  /** Asks for the settings, fills in the defaults, or refuses. The code sets each as soon as it is known; those set
      before a refusal are dropped with it. */
  method ResolveMCPSafePolicy(safe: bool, optOut: string, f: Flags, find: string -> Option<string>, cwd: string,
                              defaultLog: string, clean: string -> string) returns (r: Outcome)
    ensures r == OutcomeOf(safe, optOut, f, find, cwd, defaultLog, clean)
    ensures r.Insecure? <==> !safe && ParseBool(optOut)
    ensures r.Refused? <==> (safe || !ParseBool(optOut)) &&
                            ((f.programs == [] && Discovered(CANDIDATES, find) == []) || (f.roots == [] && cwd == ""))
    ensures r.Safe? ==>
              && r.updates.Keys == {PROGRAM, ROOT, SESSIONS, AUDIT, EVAL}
              && r.updates[PROGRAM] == Join(if f.programs != [] then f.programs else Discovered(CANDIDATES, find), ':')
              && r.updates[ROOT] == Join(CleanAll(clean, if f.roots != [] then f.roots else [cwd]), ':')
              && r.updates[SESSIONS] == Itoa(if f.maxSessions > 0 then f.maxSessions else 8)
              && r.updates[AUDIT] == (if f.auditLog != "" then f.auditLog else defaultLog)
              && (f.allowEval ==> r.updates[EVAL] == "1") && (!f.allowEval ==> r.updates[EVAL] == "0")
  {
    var insecure := ParseBool(optOut);
    if !safe && insecure {
      return Insecure;
    }
    var programs := f.programs;
    if |programs| == 0 {
      var discovered := AutoDiscoverPrograms(find);
      if |discovered| == 0 {
        return Refused;
      }
      programs := discovered;
    }
    var roots := f.roots;
    if |roots| == 0 {
      if cwd == "" {
        return Refused;
      }
      roots := [cwd];
    }
    var cap := f.maxSessions;
    if cap <= 0 {
      cap := 8;
    }
    var audit := f.auditLog;
    if audit == "" {
      audit := defaultLog;
    }
    var updates := FillSettings(programs, CleanAll(clean, roots), cap, audit, f.allowEval);
    r := Safe(updates);
  }

  /** The settings, one by one. */
  method FillSettings(programs: seq<string>, roots: seq<string>, cap: nat, audit: string, allowEval: bool)
      returns (updates: Env)
    ensures updates == map[PROGRAM := Join(programs, ':'), ROOT := Join(roots, ':'), SESSIONS := Itoa(cap), AUDIT := audit,
                           EVAL := Flag(allowEval)]
    ensures updates.Keys == {PROGRAM, ROOT, SESSIONS, AUDIT, EVAL}
    ensures updates[PROGRAM] == Join(programs, ':') && updates[ROOT] == Join(roots, ':') && updates[SESSIONS] == Itoa(cap)
    ensures updates[AUDIT] == audit && (allowEval ==> updates[EVAL] == "1") && (!allowEval ==> updates[EVAL] == "0")
  {
    KeysDiffer();
    updates := map[PROGRAM := Join(programs, ':')];
    updates := updates[ROOT := Join(roots, ':')];
    updates := updates[SESSIONS := Itoa(cap)];
    updates := updates[AUDIT := audit];
    if allowEval {
      updates := updates[EVAL := "1"];
    } else {
      updates := updates[EVAL := "0"];
    }
  }

  // ----- the environment of a process -----

  /** The process environment and the persisted file (None while there is none). */
  class Environ {
    var vars: Env
    var file: Option<string>

    constructor (vars: Env, file: Option<string>)
      ensures this.vars == vars && this.file == file
    {
      this.vars, this.file := vars, file;
    }

    /** Sources the file; what the caller has set wins. */
    method LoadSafePolicyFile()
      modifies this`vars
      ensures vars == if file.Some? then LoadFile(file.value, old(vars)) else old(vars)
    {
      if file.None? {
        return;
      }
      var lines := Split(file.value, '\n');
      var i := 0;
      while i < |lines|
        invariant 0 <= i <= |lines|
        invariant vars == LoadLines(lines[..i], old(vars))
      {
        LinesSnoc(lines, i, old(vars));
        LoadOne(lines[i]);
        i := i + 1;
      }
      assert lines[..|lines|] == lines;
    }

    /** One turn of the loop: skips blanks, comments, lines without a key, foreign keys and variables that are set. */
    method LoadOne(text: string)
      modifies this`vars
      ensures vars == LoadLine(text, old(vars))
    {
      var line := Trim(text);
      if line == "" || HasPrefix(line, "#") {
        return;
      }
      var eq := IndexOf(line, '=');
      if eq == |line| || eq <= 0 {
        return;
      }
      var key, val := Trim(line[..eq]), line[eq + 1..];
      if !HasPrefix(key, "SL_DBG_") {
        return;
      }
      if key in vars {
        return;
      }
      Setenv(key, val);
    }

    /** Refuses a NUL, as the system does; a key without '=' and not empty is otherwise fine. */
    method Setenv(key: string, val: string)
      modifies this`vars
      ensures vars == if '\0' !in key && '\0' !in val then old(vars)[key := val] else old(vars)
    {
      if '\0' !in key && '\0' !in val {
        vars := vars[key := val];
      }
    }

    method LoadPolicyFromEnv(clean: string -> string) returns (p: Policy)
      modifies this`vars
      ensures vars == if file.Some? then LoadFile(file.value, old(vars)) else old(vars)
      ensures p == PolicyOf(vars, clean)
      ensures Getenv(vars, DENY) == "-" ==> p.denied == []
      ensures Getenv(vars, DENY) == "" ==>
                p.denied == ["FileOutputStream", "FileWriter", "RandomAccessFile", "ProcessBuilder", "Runtime.getRuntime",
                             "java.lang.Runtime", "java.nio.file.Files", "java.io.File.delete", "createTempFile",
                             "System.exit", "System.load", "URLClassLoader"]
      ensures Getenv(vars, DENY) != "-" && Getenv(vars, DENY) != "" ==> p.denied == ColonList(Getenv(vars, DENY))
    {
      LoadSafePolicyFile();
      var programs := SplitColonList(Getenv(vars, PROGRAM));
      var roots := SplitColonList(Getenv(vars, ROOT));
      var cap := 0;
      var v := Trim(Getenv(vars, SESSIONS));
      if v != "" {
        var n := Atoi(v);
        if n.Some? && n.value >= 0 {
          cap := n.value;
        }
      }
      var raw, denied := Getenv(vars, DENY), DEFAULT_DENIED;
      if raw == "-" {
        denied := [];
      } else if raw != "" {
        denied := SplitColonList(raw);
      }
      p := Policy(programs, CleanAll(clean, roots), cap, Trim(Getenv(vars, AUDIT)), ParseBool(Getenv(vars, EVAL)), denied);
    }

    /** Exports the updates and persists them, walking the map twice. */
    method Apply(updates: Env)
      requires forall k :: k in updates ==> '\0' !in k
      modifies this
      ensures forall k :: k in vars <==> k in old(vars) || (k in updates && '\0' !in updates[k])
      ensures forall k :: k in vars ==> vars[k] == if k in updates && '\0' !in updates[k] then updates[k] else old(vars)[k]
      ensures if updates == map[] then file == old(file) else file.Some? && IsWritten(file.value, updates)
    {
      ExportAll(updates);
      if updates != map[] {
        var data := WriteSafePolicyFile(updates);
        file := Some(data);
      }
    }

    method ExportAll(updates: Env)
      requires forall k :: k in updates ==> '\0' !in k
      modifies this`vars
      ensures forall k :: k in vars <==> k in old(vars) || (k in updates && '\0' !in updates[k])
      ensures forall k :: k in vars ==> vars[k] == if k in updates && '\0' !in updates[k] then updates[k] else old(vars)[k]
    {
      var left := updates.Keys;
      while left != {}
        invariant left <= updates.Keys
        invariant forall k :: k in vars <==> k in old(vars) || (k in updates && k !in left && '\0' !in updates[k])
        invariant forall k :: k in vars ==>
                    vars[k] == if k in updates && k !in left && '\0' !in updates[k] then updates[k] else old(vars)[k]
        decreases |left|
      {
        assert Pick(left) in left;
        var k :| k in left;
        Setenv(k, updates[k]);
        left := left - {k};
      }
    }
  }

  // ----- from the flags to the next daemon -----

  lemma NoNulInKeys(m: Env)
    requires forall k :: k in m ==> GoodKey(k)
    ensures forall k :: k in m ==> '\0' !in k
  {
  }

  /** The whole way: the flags are resolved, applied to the environment of the command, and a daemon started later
      with variables that have none of the settings loads its policy. It is the policy the flags ask for exactly when
      their programs, cleaned roots and log path fit the form of the file. */
  method Respawn(cli: Environ, f: Flags, find: string -> Option<string>, cwd: string, defaultLog: string,
                 clean: string -> string, later: Env) returns (p: Option<Policy>)
    requires Cleans(clean) && f.maxSessions <= MAX_INT
    requires {PROGRAM, ROOT, SESSIONS, AUDIT, EVAL} !! later.Keys
    modifies cli
    ensures var g := Resolved(f, Discovered(CANDIDATES, find), cwd, defaultLog);
            if g.None? then p == None && cli.vars == old(cli.vars) && cli.file == old(cli.file)
            else p.Some? && (p.value == Wanted(g.value, clean, later) <==> PersistableFlags(g.value, clean))
    ensures p.None? <==> (f.programs == [] && Discovered(CANDIDATES, find) == []) || (f.roots == [] && cwd == "")
    ensures var programs := if f.programs != [] then f.programs else Discovered(CANDIDATES, find);
            var roots := CleanAll(clean, if f.roots != [] then f.roots else [cwd]);
            var log := if f.auditLog != "" then f.auditLog else defaultLog;
            p.Some? ==>
              (AllPersistable(programs) && AllPersistable(roots) && PersistableLog(log) <==>
               && p.value.programs == programs && p.value.roots == roots && p.value.auditLog == log
               && p.value.maxSessions == (if f.maxSessions > 0 then f.maxSessions else 8)
               && p.value.allowEval == f.allowEval)
  {
    ghost var g := Resolved(f, Discovered(CANDIDATES, find), cwd, defaultLog);
    var outcome := ResolveMCPSafePolicy(true, "", f, find, cwd, defaultLog, clean);
    if outcome.Refused? {
      return None;
    }
    var policy := ApplyAndLoad(cli, outcome.updates, g.value, clean, later);
    p := Some(policy);
  }

  /** The settings are exported and persisted, and a daemon with other variables loads them. */
  method ApplyAndLoad(cli: Environ, updates: Env, ghost f: Flags, clean: string -> string, later: Env) returns (p: Policy)
    requires Cleans(clean) && 0 <= f.maxSessions <= MAX_INT && updates == EnvOf(f, clean)
    requires {PROGRAM, ROOT, SESSIONS, AUDIT, EVAL} !! later.Keys
    modifies cli
    ensures p == Wanted(f, clean, later) <==> PersistableFlags(f, clean)
    ensures p.programs == f.programs && p.roots == CleanAll(clean, f.roots) && p.auditLog == f.auditLog
            <==> PersistableFlags(f, clean)
  {
    Settings(f, clean, updates);
    SettingsHaveGoodKeys(updates);
    NoNulInKeys(updates);
    cli.Apply(updates);
    assert PROGRAM in updates;
    var daemon := new Environ(later, cli.file);
    p := daemon.LoadPolicyFromEnv(clean);
    RespawnedPolicy(f, clean, cli.file.value, later);
  }

  lemma RespawnedPolicy(f: Flags, clean: string -> string, data: string, env: Env)
    requires Cleans(clean) && 0 <= f.maxSessions <= MAX_INT
    requires IsWritten(data, EnvOf(f, clean)) && {PROGRAM, ROOT, SESSIONS, AUDIT, EVAL} !! env.Keys
    ensures PolicyOf(LoadFile(data, env), clean) == Wanted(f, clean, env) <==> PersistableFlags(f, clean)
    ensures var p := PolicyOf(LoadFile(data, env), clean);
            p.programs == f.programs && p.roots == CleanAll(clean, f.roots) && p.auditLog == f.auditLog
            <==> PersistableFlags(f, clean)
  {
    var order :| Enumerates(order, EnvOf(f, clean)) && data == Written(order, EnvOf(f, clean));
    Settings(f, clean, EnvOf(f, clean));
    PolicySurvivesIff(f, clean, order, env);
  }
}
