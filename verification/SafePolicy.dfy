/** The safe policy: what a daemon's environment asks for, and which policies survive being written to a file and
    loaded by a new daemon, whose own environment goes before what the file says. */
module SafePolicy {
  import opened Basics
  import opened Text
  import opened EnvText

  const PROGRAM := "SL_DBG_ALLOW_PROGRAM"
  const ROOT := "SL_DBG_ALLOW_SOURCE_ROOT"
  const SESSIONS := "SL_DBG_MAX_SESSIONS"
  const AUDIT := "SL_DBG_AUDIT_LOG"
  const EVAL := "SL_DBG_ALLOW_EVAL"
  const DENY := "SL_DBG_DENY_EVAL_PATTERNS"

  // ----- the policy -----

  datatype Policy = Policy(programs: seq<string>, roots: seq<string>, maxSessions: int, auditLog: string, allowEval: bool,
                           denied: seq<string>)

  function Lower(s: string): string {
    seq(|s|, i requires 0 <= i < |s| => if 'A' <= s[i] <= 'Z' then (s[i] as int + 32) as char else s[i])
  }

  predicate ParseBool(s: string) {
    Lower(Trim(s)) in ["1", "true", "yes", "on"]
  }

  function CleanAll(clean: string -> string, paths: seq<string>): seq<string> {
    seq(|paths|, i requires 0 <= i < |paths| => clean(paths[i]))
  }

  /** The same text but for the case of letters. */
  predicate SameButCase(s: string, word: string) {
    |s| == |word| && forall i :: 0 <= i < |s| ==> s[i] == word[i] || ('A' <= s[i] <= 'Z' && s[i] as int + 32 == word[i] as int)
  }

  lemma LowerIff(s: string, word: string)
    requires forall i :: 0 <= i < |word| ==> !('A' <= word[i] <= 'Z')
    ensures Lower(s) == word <==> SameButCase(s, word)
  {
    if SameButCase(s, word) {
      assert Lower(s) == word;
    }
    if Lower(s) == word {
      forall i | 0 <= i < |s| ensures s[i] == word[i] || ('A' <= s[i] <= 'Z' && s[i] as int + 32 == word[i] as int) {
        assert Lower(s)[i] == word[i];
      }
    }
  }

  /** True are exactly 1, true, yes and on, in any case and with white space around. */
  lemma ParseBoolIff(s: string)
    ensures ParseBool(s) <==>
            || SameButCase(Trim(s), "1") || SameButCase(Trim(s), "true")
            || SameButCase(Trim(s), "yes") || SameButCase(Trim(s), "on")
  {
    LowerIff(Trim(s), "1");
    LowerIff(Trim(s), "true");
    LowerIff(Trim(s), "yes");
    LowerIff(Trim(s), "on");
  }

  /** A number that is negative, too large or not one leaves the session cap at 0. */
  lemma CapIff(env: Env, clean: string -> string)
    ensures PolicyOf(env, clean).maxSessions >= 0
    ensures forall n: nat :: n > 0 ==>
              (PolicyOf(env, clean).maxSessions == n <==> Atoi(Trim(Getenv(env, SESSIONS))) == Some(n))
  {
  }

  const DEFAULT_DENIED := ["FileOutputStream", "FileWriter", "RandomAccessFile", "ProcessBuilder", "Runtime.getRuntime",
                           "java.lang.Runtime", "java.nio.file.Files", "java.io.File.delete", "createTempFile",
                           "System.exit", "System.load", "URLClassLoader"]

  /** The denied patterns: the defaults if unset, none for a dash. */
  function Denied(raw: string): seq<string> {
    if raw == "" then DEFAULT_DENIED else if raw == "-" then [] else ColonList(raw)
  }

  /** The policy an environment asks for; `clean` makes a path absolute and clean. */
  function PolicyOf(env: Env, clean: string -> string): Policy {
    var n := Atoi(Trim(Getenv(env, SESSIONS)));
    Policy(ColonList(Getenv(env, PROGRAM)), CleanAll(clean, ColonList(Getenv(env, ROOT))),
           if n.Some? && n.value >= 0 then n.value else 0, Trim(Getenv(env, AUDIT)), ParseBool(Getenv(env, EVAL)),
           Denied(Getenv(env, DENY)))
  }

  datatype Flags = Flags(programs: seq<string>, roots: seq<string>, maxSessions: int, auditLog: string, allowEval: bool)

  /** The defaults of safe mode filled in: discovered programs, the working directory, 8 sessions and the
      default log; None if there is nothing to fill in with. */
  function Resolved(f: Flags, discovered: seq<string>, cwd: string, defaultLog: string): Option<Flags> {
    var programs := if f.programs == [] then discovered else f.programs;
    var roots := if f.roots == [] then [cwd] else f.roots;
    if programs == [] || (f.roots == [] && cwd == "") then None
    else Some(Flags(programs, roots, if f.maxSessions <= 0 then 8 else f.maxSessions,
                    if f.auditLog == "" then defaultLog else f.auditLog, f.allowEval))
  }

  function Flag(b: bool): string {
    if b then "1" else "0"
  }

  function EnvOf(f: Flags, clean: string -> string): Env
    requires f.maxSessions >= 0
  {
    map[PROGRAM := Join(f.programs, ':'), ROOT := Join(CleanAll(clean, f.roots), ':'), SESSIONS := Itoa(f.maxSessions),
        AUDIT := f.auditLog, EVAL := Flag(f.allowEval)]
  }

  /** The policy that the flags ask for, in an environment that may deny patterns. */
  function Wanted(f: Flags, clean: string -> string, env: Env): Policy {
    Policy(f.programs, CleanAll(clean, f.roots), f.maxSessions, f.auditLog, f.allowEval, Denied(Getenv(env, DENY)))
  }

  // ----- what survives -----

  predicate Persistable(s: string) {
    GoodEntry(s) && OneLine(s)
  }

  predicate AllPersistable(parts: seq<string>) {
    forall i :: 0 <= i < |parts| ==> Persistable(parts[i])
  }

  predicate PersistableLog(log: string) {
    Trim(log) == log && OneLine(log)
  }

  /** Programs, cleaned roots and the log path fit the form of the file. */
  predicate PersistableFlags(f: Flags, clean: string -> string) {
    AllPersistable(f.programs) && AllPersistable(CleanAll(clean, f.roots)) && PersistableLog(f.auditLog)
  }

  /** Cleaning makes paths absolute, settles them, does not make an absolute path longer, and brings in no colon, newline
      or NUL; the last holds if the working directory has none. */
  ghost predicate Cleans(clean: string -> string) {
    && (forall p :: clean(p) != "" && clean(p)[0] == '/' && clean(clean(p)) == clean(p))
    && (forall p :: p != "" && p[0] == '/' ==> |clean(p)| <= |p|)
    && (forall p :: (':' !in p ==> ':' !in clean(p)) && (OneLine(p) ==> OneLine(clean(p))))
  }

  lemma {:induction false} JoinChars(parts: seq<string>, c: char)
    requires c != ':' && forall i :: 0 <= i < |parts| ==> c !in parts[i]
    ensures c !in Join(parts, ':')
  {
    if |parts| > 1 {
      JoinChars(parts[1..], c);
    }
  }

  lemma JoinIsOneLine(parts: seq<string>)
    requires forall i :: 0 <= i < |parts| ==> OneLine(parts[i])
    ensures OneLine(Join(parts, ':'))
  {
    JoinChars(parts, '\n');
    JoinChars(parts, '\0');
  }

  /** A list reads the same without the white space at the end of the text. */
  lemma ListIgnoresEnd(v: string)
    ensures ColonList(TrimRight(v)) == ColonList(v)
  {
    TrimRightSettled(v);
  }

  lemma ListSurvives(parts: seq<string>)
    requires AllPersistable(parts)
    ensures OneLine(Join(parts, ':')) && ColonList(TrimRight(Join(parts, ':'))) == parts
  {
    forall i | 0 <= i < |parts| ensures GoodEntry(parts[i]) && OneLine(parts[i]) {
      assert Persistable(parts[i]);
    }
    JoinIsOneLine(parts);
    ListSurvivesIff(parts);
    ListIgnoresEnd(Join(parts, ':'));
  }

  lemma NumberSurvives(n: nat)
    requires n <= MAX_INT
    ensures OneLine(Itoa(n)) && Atoi(Trim(TrimRight(Itoa(n)))) == Some(n)
  {
    AtoiOfItoa(n);
    DigitsOfItoa(n);
    TrimRightSettled(Itoa(n));
    forall c | c in Itoa(n) ensures c != '\n' && c != '\0' {
    }
  }

  lemma FlagSurvives(b: bool)
    ensures OneLine(Flag(b)) && (ParseBool(TrimRight(Flag(b))) <==> b)
  {
    assert Trim("1") == "1" && Trim("0") == "0";
    assert Lower("1") == "1" && Lower("0") == "0";
  }

  lemma LogSurvives(log: string)
    requires PersistableLog(log)
    ensures OneLine(log) && Trim(TrimRight(log)) == log
  {
    TrimRightSettled(log);
  }

  lemma IdentifierIsGoodKey(k: string)
    requires HasPrefix(k, "SL_DBG_") && forall i :: 0 <= i < |k| ==> 'A' <= k[i] <= 'Z' || k[i] == '_'
    ensures GoodKey(k)
  {
    TrimVisible(k);
  }

  lemma KeysAreGood(k: string)
    requires k in [PROGRAM, ROOT, SESSIONS, AUDIT, EVAL]
    ensures GoodKey(k)
  {
    IdentifierIsGoodKey(k);
  }

  lemma KeysDiffer()
    ensures PROGRAM != ROOT && PROGRAM != SESSIONS && PROGRAM != AUDIT && PROGRAM != EVAL
    ensures ROOT != SESSIONS && ROOT != AUDIT && ROOT != EVAL
    ensures SESSIONS != AUDIT && SESSIONS != EVAL && AUDIT != EVAL
    ensures DENY !in {PROGRAM, ROOT, SESSIONS, AUDIT, EVAL}
  {
    assert |PROGRAM| == 20 && |ROOT| == 24 && |SESSIONS| == 19 && |AUDIT| == 16 && |EVAL| == 17 && |DENY| == 25;
  }

  lemma Settings(f: Flags, clean: string -> string, m: Env)
    requires f.maxSessions >= 0 && m == EnvOf(f, clean)
    ensures m.Keys == {PROGRAM, ROOT, SESSIONS, AUDIT, EVAL}
    ensures m[PROGRAM] == Join(f.programs, ':') && m[ROOT] == Join(CleanAll(clean, f.roots), ':')
    ensures m[SESSIONS] == Itoa(f.maxSessions) && m[AUDIT] == f.auditLog
    ensures m[EVAL] == Flag(f.allowEval)
  {
    KeysDiffer();
  }

  /** What comes back if every value is on one line. */
  lemma LoadedSettings(order: seq<string>, env: Env, m: Env, loaded: Env)
    requires m.Keys == {PROGRAM, ROOT, SESSIONS, AUDIT, EVAL} && Enumerates(order, m) && m.Keys !! env.Keys
    requires forall k :: k in m ==> OneLine(m[k])
    requires loaded == LoadFile(Written(order, m), env)
    ensures forall k :: Getenv(loaded, k) == if k in m then TrimRight(m[k]) else Getenv(env, k)
  {
    SettingsLoad(order, m, env);
    LoadedValues(m, env, loaded);
  }

  lemma LoadedPolicy(m: Env, env: Env, loaded: Env)
    requires m.Keys == {PROGRAM, ROOT, SESSIONS, AUDIT, EVAL}
    requires forall k :: Getenv(loaded, k) == if k in m then TrimRight(m[k]) else Getenv(env, k)
    ensures Getenv(loaded, PROGRAM) == TrimRight(m[PROGRAM]) && Getenv(loaded, ROOT) == TrimRight(m[ROOT])
    ensures Getenv(loaded, SESSIONS) == TrimRight(m[SESSIONS]) && Getenv(loaded, AUDIT) == TrimRight(m[AUDIT])
    ensures Getenv(loaded, EVAL) == TrimRight(m[EVAL]) && Getenv(loaded, DENY) == Getenv(env, DENY)
  {
    KeysDiffer();
  }

  lemma SettingsHaveGoodKeys(m: Env)
    requires m.Keys == {PROGRAM, ROOT, SESSIONS, AUDIT, EVAL}
    ensures forall k :: k in m ==> GoodKey(k)
  {
    forall k | k in m ensures GoodKey(k) {
      KeysAreGood(k);
    }
  }

  lemma SettingsLoad(order: seq<string>, m: Env, env: Env)
    requires m.Keys == {PROGRAM, ROOT, SESSIONS, AUDIT, EVAL} && Enumerates(order, m) && forall k :: k in m ==> OneLine(m[k])
    ensures LoadFile(Written(order, m), env) == Settled(m) + env
  {
    SettingsHaveGoodKeys(m);
    WrittenFileLoads(order, m, env);
  }

  lemma LoadedValues(m: Env, env: Env, loaded: Env)
    requires loaded == Settled(m) + env && m.Keys !! env.Keys
    ensures forall k :: Getenv(loaded, k) == if k in m then TrimRight(m[k]) else Getenv(env, k)
  {
  }

  lemma ValuesAreOneLine(f: Flags, clean: string -> string, m: Env)
    requires 0 <= f.maxSessions <= MAX_INT && m == EnvOf(f, clean)
    requires OneLine(Join(f.programs, ':')) && OneLine(Join(CleanAll(clean, f.roots), ':')) && OneLine(f.auditLog)
    ensures forall k :: k in m ==> OneLine(m[k])
  {
    Settings(f, clean, m);
    NumberSurvives(f.maxSessions);
    FlagSurvives(f.allowEval);
  }

  lemma RootsSettle(clean: string -> string, roots: seq<string>)
    requires Cleans(clean)
    ensures CleanAll(clean, CleanAll(clean, roots)) == CleanAll(clean, roots)
  {
  }

  /** A safe policy survives a respawn: written in any order and loaded into an environment without its keys, the
      resolved flags give the policy they ask for. */
  lemma PolicySurvivesRespawn(f: Flags, clean: string -> string, order: seq<string>, env: Env)
    requires PersistableFlags(f, clean) && Cleans(clean) && 0 <= f.maxSessions <= MAX_INT
    requires Enumerates(order, EnvOf(f, clean)) && EnvOf(f, clean).Keys !! env.Keys
    ensures PolicyOf(LoadFile(Written(order, EnvOf(f, clean)), env), clean) == Wanted(f, clean, env)
  {
    var m := EnvOf(f, clean);
    ListSurvives(f.programs);
    ListSurvives(CleanAll(clean, f.roots));
    LogSurvives(f.auditLog);
    NumberSurvives(f.maxSessions);
    FlagSurvives(f.allowEval);
    ValuesAreOneLine(f, clean, m);
    var loaded := LoadFile(Written(order, m), env);
    Settings(f, clean, m);
    LoadedSettings(order, env, m, loaded);
    LoadedPolicy(m, env, loaded);
    RootsSettle(clean, f.roots);
  }

  // ----- and nothing else does -----

  /** The entries read from a value that fits on a line fit on a line. */
  lemma ListIsPersistable(v: string)
    requires OneLine(v)
    ensures AllPersistable(ColonList(v))
  {
    ColonListEntries(v, '\n');
    ColonListEntries(v, '\0');
  }

  /** No file gives a policy with a program or a log path that does not fit the file's form. */
  lemma LoadedPolicyIsPersistable(data: string, env: Env, clean: string -> string)
    requires PROGRAM !in env && AUDIT !in env
    ensures var p := PolicyOf(LoadFile(data, env), clean); PersistableLog(p.auditLog) && AllPersistable(p.programs)
  {
    var log := Getenv(LoadFile(data, env), AUDIT);
    LoadedIsGood(data, env, PROGRAM);
    LoadedIsGood(data, env, AUDIT);
    ListIsPersistable(Getenv(LoadFile(data, env), PROGRAM));
    TrimSettled(log);
    TrimLacks(log, '\n');
    TrimLacks(log, '\0');
  }

  /** Cleaned roots that a file gave have no colon and fit on a line. */
  lemma LoadedRootsAreOneLine(v: string, clean: string -> string, roots: seq<string>)
    requires Cleans(clean) && OneLine(v) && CleanAll(clean, ColonList(v)) == roots
    ensures Listable(roots) && forall i :: 0 <= i < |roots| ==> OneLine(roots[i])
  {
    ListIsPersistable(v);
    forall i | 0 <= i < |roots|
      ensures roots[i] != "" && !IsSpace(roots[i][0]) && ':' !in roots[i] && OneLine(roots[i])
    {
      assert Persistable(ColonList(v)[i]) && roots[i] == clean(ColonList(v)[i]);
    }
  }

  /** A root that is what cleaning makes of its trimmed form was trimmed: a cleaned path is no longer. */
  lemma RootIsTrimmed(clean: string -> string, root: string)
    requires Cleans(clean) && root != "" && root[0] == '/' && clean(Trim(root)) == root
    ensures Trim(root) == root
  {
    TrimVisible(root);
    TrimOfVisible(root);
    TrimRightIsPrefix(root);
  }

  lemma RootsAreTrimmed(clean: string -> string, roots: seq<string>)
    requires Cleans(clean) && Listable(roots) && CleanAll(clean, TrimAll(roots)) == roots
    ensures forall i :: 0 <= i < |roots| ==> Trim(roots[i]) == roots[i]
  {
    forall i | 0 <= i < |roots| ensures Trim(roots[i]) == roots[i] {
      assert roots[i] == clean(TrimAll(roots)[i]);
      RootIsTrimmed(clean, roots[i]);
    }
  }

  /** If the policy comes back, its roots fit the file's form. */
  lemma SurvivingRootsArePersistable(f: Flags, clean: string -> string, order: seq<string>, env: Env, m: Env, loaded: Env)
    requires Cleans(clean) && 0 <= f.maxSessions <= MAX_INT
    requires m == EnvOf(f, clean) && Enumerates(order, m) && m.Keys !! env.Keys && loaded == LoadFile(Written(order, m), env)
    requires AllPersistable(f.programs) && PersistableLog(f.auditLog)
    requires CleanAll(clean, ColonList(Getenv(loaded, ROOT))) == CleanAll(clean, f.roots)
    ensures AllPersistable(CleanAll(clean, f.roots))
  {
    var roots := CleanAll(clean, f.roots);
    Settings(f, clean, m);
    assert ROOT in m;
    LoadedIsGood(Written(order, m), env, ROOT);
    LoadedRootsAreOneLine(Getenv(loaded, ROOT), clean, roots);
    JoinIsOneLine(roots);
    ListSurvives(f.programs);
    ValuesAreOneLine(f, clean, m);
    LoadedSettings(order, env, m, loaded);
    LoadedPolicy(m, env, loaded);
    ListIgnoresEnd(Join(roots, ':'));
    ListIsTrimmed(roots);
    RootsAreTrimmed(clean, roots);
  }

  /** The policy survives the respawn exactly when every program, every cleaned root and the log path fit the form of
      the file: trimmed, without newline or NUL, and for programs and roots not empty and without colon. */
  lemma PolicySurvivesIff(f: Flags, clean: string -> string, order: seq<string>, env: Env)
    requires Cleans(clean) && 0 <= f.maxSessions <= MAX_INT
    requires Enumerates(order, EnvOf(f, clean)) && EnvOf(f, clean).Keys !! env.Keys
    ensures PolicyOf(LoadFile(Written(order, EnvOf(f, clean)), env), clean) == Wanted(f, clean, env)
            <==> PersistableFlags(f, clean)
    ensures var p := PolicyOf(LoadFile(Written(order, EnvOf(f, clean)), env), clean);
            p.programs == f.programs && p.roots == CleanAll(clean, f.roots) && p.auditLog == f.auditLog
            <==> PersistableFlags(f, clean)
  {
    var m := EnvOf(f, clean);
    var loaded := LoadFile(Written(order, m), env);
    var p := PolicyOf(loaded, clean);
    if PersistableFlags(f, clean) {
      PolicySurvivesRespawn(f, clean, order, env);
    }
    if p.programs == f.programs && p.roots == CleanAll(clean, f.roots) && p.auditLog == f.auditLog {
      Settings(f, clean, m);
      assert PROGRAM in m && AUDIT in m;
      LoadedPolicyIsPersistable(Written(order, m), env, clean);
      SurvivingRootsArePersistable(f, clean, order, env, m, loaded);
    }
  }
}
