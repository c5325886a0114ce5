/** Lists joined by colons, numbers, and the KEY=VALUE file of environment variables, as they are printed and read. */
module EnvText {
  import opened Basics
  import opened Text

  type Env = map<string, string>

  function Getenv(env: Env, key: string): string {
    if key in env then env[key] else ""
  }

  // ----- lists and lines -----

  function Split(s: string, c: char): seq<string> {
    var k := IndexOf(s, c);
    if k == |s| then [s] else [s[..k]] + Split(s[k + 1..], c)
  }

  function Join(parts: seq<string>, c: char): string {
    if parts == [] then "" else if |parts| == 1 then parts[0] else parts[0] + [c] + Join(parts[1..], c)
  }

  /** The trimmed, non-empty parts. */
  function Entries(parts: seq<string>): seq<string> {
    if parts == [] then []
    else
      var front := Entries(parts[..|parts| - 1]);
      var p := Trim(parts[|parts| - 1]);
      if p == "" then front else front + [p]
  }

  function ColonList(s: string): seq<string> {
    if Trim(s) == "" then [] else Entries(Split(Trim(s), ':'))
  }

  // ----- numbers -----

  function Digit(n: int): char
    requires 0 <= n < 10
  {
    ('0' as int + n) as char
  }

  function Itoa(n: nat): string {
    if n < 10 then [Digit(n)] else Itoa(n / 10) + [Digit(n % 10)]
  }

  function Digits(s: string): (r: Option<int>)
    ensures r.Some? ==> r.value >= 0
  {
    if s == "" then Some(0)
    else
      var high := Digits(s[..|s| - 1]);
      var c := s[|s| - 1];
      if high.Some? && '0' <= c <= '9' then Some(10 * high.value + (c as int - '0' as int)) else None
  }

  const MAX_INT := 0x7FFF_FFFF_FFFF_FFFF

  /** A decimal number that fits 64 bits, with an optional sign. */
  function Atoi(s: string): Option<int> {
    var signed := s != "" && (s[0] == '-' || s[0] == '+');
    var digits := if signed then s[1..] else s;
    var n := Digits(digits);
    if digits == "" || n.None? then None
    else if signed && s[0] == '-' then (if n.value <= MAX_INT + 1 then Some(-n.value) else None)
    else if n.value <= MAX_INT then Some(n.value)
    else None
  }

  // ----- the file -----

  function Assignment(key: string, value: string): string {
    key + "=" + value + "\n"
  }

  /** The file that writes the keys in the given order. */
  function Written(order: seq<string>, values: Env): string {
    if order == [] then "" else Assignment(order[0], Getenv(values, order[0])) + Written(order[1..], values)
  }

  /** What one line assigns, if it is an assignment to an SL_DBG_ key that the system accepts. */
  function Parsed(text: string): Option<(string, string)> {
    var line := Trim(text);
    var eq := IndexOf(line, '=');
    if line == "" || line[0] == '#' || eq == 0 || eq == |line| then None
    else
      var key, value := Trim(line[..eq]), line[eq + 1..];
      if HasPrefix(key, "SL_DBG_") && '\0' !in key && '\0' !in value then Some((key, value)) else None
  }

  function LoadLine(line: string, env: Env): Env {
    var a := Parsed(line);
    if a.Some? && a.value.0 !in env then env[a.value.0 := a.value.1] else env
  }

  function LoadLines(lines: seq<string>, env: Env): Env {
    if lines == [] then env
    else LoadLine(lines[|lines| - 1], LoadLines(lines[..|lines| - 1], env))
  }

  function LoadFile(data: string, env: Env): Env {
    LoadLines(Split(data, '\n'), env)
  }

  // ----- lists survive exactly when their entries can be told apart -----

  predicate GoodEntry(s: string) {
    s != "" && Trim(s) == s && ':' !in s
  }

  lemma SplitCons(p: string, c: char, t: string)
    requires c !in p
    ensures Split(p + [c] + t, c) == [p] + Split(t, c)
  {
    var s := p + [c] + t;
    forall i | 0 <= i < |p| ensures s[i] != c {
      assert s[i] in p;
    }
    IndexOfUnique(s, c, |p|);
    assert s[..|p|] == p && s[|p| + 1..] == t;
  }

  lemma SplitNone(p: string, c: char)
    requires c !in p
    ensures Split(p, c) == [p]
  {
    var k := IndexOf(p, c);
  }

  lemma {:induction false} SplitJoin(parts: seq<string>, c: char)
    requires parts != [] && forall i :: 0 <= i < |parts| ==> c !in parts[i]
    ensures Split(Join(parts, c), c) == parts
  {
    if |parts| == 1 {
      SplitNone(parts[0], c);
    } else {
      SplitJoin(parts[1..], c);
      SplitCons(parts[0], c, Join(parts[1..], c));
    }
  }

  /** No part has the separator, or a character that the text does not have. */
  lemma {:induction false} SplitLacks(s: string, c: char, x: char)
    requires x == c || x !in s
    ensures forall i :: 0 <= i < |Split(s, c)| ==> x !in Split(s, c)[i]
    decreases |s|
  {
    var k := IndexOf(s, c);
    if k < |s| {
      SplitLacks(s[k + 1..], c, x);
    }
  }

  lemma {:induction false} EntriesLack(parts: seq<string>, c: char)
    requires forall i :: 0 <= i < |parts| ==> c !in parts[i]
    ensures forall i :: 0 <= i < |Entries(parts)| ==> c !in Entries(parts)[i]
  {
    if parts != [] {
      EntriesLack(parts[..|parts| - 1], c);
      TrimLacks(parts[|parts| - 1], c);
    }
  }

  lemma {:induction false} EntriesAreTrimmed(parts: seq<string>)
    ensures forall i :: 0 <= i < |Entries(parts)| ==> Entries(parts)[i] != "" && Trim(Entries(parts)[i]) == Entries(parts)[i]
  {
    if parts != [] {
      EntriesAreTrimmed(parts[..|parts| - 1]);
      TrimSettled(parts[|parts| - 1]);
    }
  }

  /** What is read from a list are good entries, without any character that the text does not have. */
  lemma ColonListEntries(v: string, c: char)
    requires c !in v || c == ':'
    ensures forall i :: 0 <= i < |ColonList(v)| ==> GoodEntry(ColonList(v)[i]) && c !in ColonList(v)[i]
  {
    if Trim(v) != "" {
      var parts := Split(Trim(v), ':');
      SplitLacks(Trim(v), ':', ':');
      EntriesLack(parts, ':');
      EntriesAreTrimmed(parts);
      if c != ':' {
        TrimLacks(v, c);
        SplitLacks(Trim(v), ':', c);
        EntriesLack(parts, c);
      }
    }
  }

  /** Every part is trimmed. */
  function TrimAll(parts: seq<string>): seq<string> {
    seq(|parts|, i requires 0 <= i < |parts| => Trim(parts[i]))
  }

  lemma EntriesTurn(parts: seq<string>, n: nat)
    requires n < |parts| && Trim(parts[n]) != ""
    ensures Entries(parts[..n + 1]) == Entries(parts[..n]) + [Trim(parts[n])]
    ensures TrimAll(parts[..n + 1]) == TrimAll(parts[..n]) + [Trim(parts[n])]
  {
    assert parts[..n + 1][..n] == parts[..n];
  }

  lemma {:induction false} EntriesOfVisible(parts: seq<string>, n: nat)
    requires n <= |parts| && forall i :: 0 <= i < |parts| ==> Trim(parts[i]) != ""
    ensures Entries(parts[..n]) == TrimAll(parts[..n])
  {
    if n > 0 {
      EntriesOfVisible(parts, n - 1);
      EntriesTurn(parts, n - 1);
    }
  }

  /** Visible heads and no colons: what a list may hold if only its entries' ends can be lost. */
  predicate Listable(parts: seq<string>) {
    forall i :: 0 <= i < |parts| ==> parts[i] != "" && !IsSpace(parts[i][0]) && ':' !in parts[i]
  }

  lemma {:induction false} JoinHead(parts: seq<string>)
    requires parts != [] && parts[0] != ""
    ensures Join(parts, ':') != "" && Join(parts, ':')[0] == parts[0][0]
  {
  }

  /** Trimming the joined text from the right trims its last part. */
  lemma {:induction false} JoinTrimmed(parts: seq<string>)
    requires parts != [] && Listable(parts)
    ensures var n := |parts| - 1; TrimRight(Join(parts, ':')) == Join(parts[..n] + [TrimRight(parts[n])], ':')
  {
    var n := |parts| - 1;
    var last := TrimRight(parts[n]);
    if n == 0 {
      assert parts[..0] + [last] == [last];
    } else {
      var rest := parts[1..];
      assert Listable(rest) && rest[n - 1] == parts[n] && (parts[..n] + [last])[1..] == rest[..n - 1] + [last];
      JoinTrimmed(rest);
      TrimRightAfter(parts[0] + ":", Join(rest, ':'));
      assert parts[0] + [':'] == parts[0] + ":";
    }
  }

  lemma LastTrimmed(parts: seq<string>, p: string)
    requires parts != [] && Listable(parts) && p == TrimRight(parts[|parts| - 1])
    ensures var cut := parts[..|parts| - 1] + [p];
            && (forall i :: 0 <= i < |cut| ==> ':' !in cut[i] && Trim(cut[i]) != "") && TrimAll(cut) == TrimAll(parts)
  {
    var n := |parts| - 1;
    TrimRightIsPrefix(parts[n]);
    TrimRightHead(parts[n]);
    TrimLacks(parts[n], ':');
    TrimRightSettled(parts[n]);
    forall i | 0 <= i < n ensures Trim(parts[i]) != "" {
      TrimVisible(parts[i]);
    }
    TrimVisible(parts[n]);
  }

  /** Reading a joined list of such parts gives each of them trimmed. */
  lemma ListIsTrimmed(parts: seq<string>)
    requires Listable(parts)
    ensures ColonList(Join(parts, ':')) == TrimAll(parts)
  {
    if parts != [] {
      var n := |parts| - 1;
      var cut := parts[..n] + [TrimRight(parts[n])];
      JoinHead(parts);
      JoinTrimmed(parts);
      LastTrimmed(parts, TrimRight(parts[n]));
      TrimOfVisible(Join(parts, ':'));
      TrimVisible(Join(parts, ':'));
      SplitJoin(cut, ':');
      EntriesOfVisible(cut, |cut|);
      assert cut[..|cut|] == cut;
    }
  }

  lemma TrimmedIsListable(parts: seq<string>)
    requires forall i :: 0 <= i < |parts| ==> GoodEntry(parts[i])
    ensures Listable(parts) && TrimAll(parts) == parts
  {
    forall i | 0 <= i < |parts| ensures parts[i] != "" && !IsSpace(parts[i][0]) && ':' !in parts[i] && Trim(parts[i]) == parts[i] {
      assert GoodEntry(parts[i]);
      TrimEnds(parts[i]);
    }
  }

  /** A list comes back from its joined form exactly when every entry is non-empty, trimmed and free of colons. */
  lemma ListSurvivesIff(parts: seq<string>)
    ensures ColonList(Join(parts, ':')) == parts <==> forall i :: 0 <= i < |parts| ==> GoodEntry(parts[i])
  {
    if forall i :: 0 <= i < |parts| ==> GoodEntry(parts[i]) {
      TrimmedIsListable(parts);
      ListIsTrimmed(parts);
    }
    if ColonList(Join(parts, ':')) == parts {
      ColonListEntries(Join(parts, ':'), ':');
    }
  }

  /** An entry with a colon is read as two. */
  lemma ColonEntryIsLost()
    ensures ColonList(Join(["a:b"], ':')) != ["a:b"]
  {
    ListSurvivesIff(["a:b"]);
    assert "a:b"[1] == ':';
    assert !GoodEntry(["a:b"][0]);
  }

  // ----- numbers survive -----

  lemma {:induction false} DigitsOfItoa(n: nat)
    ensures Itoa(n) != "" && Digits(Itoa(n)) == Some(n)
    ensures forall i :: 0 <= i < |Itoa(n)| ==> '0' <= Itoa(n)[i] <= '9'
  {
    if n >= 10 {
      DigitsOfItoa(n / 10);
      var s := Itoa(n);
      assert s[..|s| - 1] == Itoa(n / 10);
    } else {
      assert [Digit(n)][..0] == "";
    }
  }

  lemma AtoiOfItoa(n: nat)
    requires n <= MAX_INT
    ensures Atoi(Itoa(n)) == Some(n) && Trim(Itoa(n)) == Itoa(n)
  {
    DigitsOfItoa(n);
    AtoiPlain(Itoa(n), n);
  }

  lemma AtoiPlain(s: string, n: nat)
    requires s != "" && '0' <= s[0] <= '9' && '0' <= s[|s| - 1] <= '9' && Digits(s) == Some(n) && n <= MAX_INT
    ensures Atoi(s) == Some(n) && Trim(s) == s
  {
    TrimVisible(s);
  }

  predicate AllDigits(s: string) {
    forall i :: 0 <= i < |s| ==> '0' <= s[i] <= '9'
  }

  lemma {:induction false} DigitsIff(s: string)
    ensures Digits(s).Some? <==> AllDigits(s)
  {
    if s != "" {
      DigitsIff(s[..|s| - 1]);
    }
  }

  /** A text is a number exactly when it has digits, only these but for one sign before them, and fits 64 bits. */
  lemma AtoiIff(s: string)
    ensures var body := if s != "" && (s[0] == '-' || s[0] == '+') then s[1..] else s;
            Atoi(s).Some? <==>
            && body != "" && AllDigits(body)
            && Digits(body).Some? && Digits(body).value <= (if s[0] == '-' then MAX_INT + 1 else MAX_INT)
  {
    DigitsIff(if s != "" && (s[0] == '-' || s[0] == '+') then s[1..] else s);
  }

  /** A sign before a printed number is read. */
  lemma SignedAtoi(n: nat)
    requires n <= MAX_INT
    ensures Atoi("-" + Itoa(n)).Some? && Atoi("-" + Itoa(n)).value + n == 0
    ensures Atoi("+" + Itoa(n)).Some? && Atoi("+" + Itoa(n)).value == n
  {
    DigitsOfItoa(n);
    Signed('-', Itoa(n), n, "-" + Itoa(n));
    Signed('+', Itoa(n), n, "+" + Itoa(n));
  }

  lemma Signed(sign: char, digits: string, n: int, s: string)
    requires (sign == '-' || sign == '+') && digits != "" && Digits(digits) == Some(n) && n <= MAX_INT && s == [sign] + digits
    ensures Atoi(s).Some? && Atoi(s).value == if sign == '-' then -n else n
  {
    assert s[1..] == digits;
  }

  // ----- the file survives -----

  predicate GoodKey(k: string) {
    HasPrefix(k, "SL_DBG_") && Trim(k) == k && '=' !in k && '\n' !in k && '\0' !in k
  }

  predicate OneLine(v: string) {
    '\n' !in v && '\0' !in v
  }

  predicate GoodValue(v: string) {
    OneLine(v) && TrimRight(v) == v
  }

  lemma KeyHead(k: string)
    requires HasPrefix(k, "SL_DBG_")
    ensures k != "" && k[0] == 'S'
  {
    assert k[..7][0] == 'S';
  }

  /** A written line is read back as its key and its value without the white space at the end. */
  lemma ParsedAssignment(k: string, v: string)
    requires GoodKey(k) && OneLine(v)
    ensures Parsed(k + "=" + v) == Some((k, TrimRight(v)))
  {
    KeyHead(k);
    TrimLacks(v, '\0');
    TrimRightAfter(k + "=", v);
    ParsedLine(k, TrimRight(v), k + "=" + v);
  }

  predicate Blank(s: string) {
    forall i :: 0 <= i < |s| ==> IsSpace(s[i])
  }

  lemma {:induction false} TrimLeftBlank(b: string, s: string)
    requires Blank(b)
    ensures TrimLeft(b + s) == TrimLeft(s)
  {
    if b == "" {
      assert b + s == s;
    } else {
      assert (b + s)[1..] == b[1..] + s;
      TrimLeftBlank(b[1..], s);
    }
  }

  lemma {:induction false} TrimRightBlank(s: string, b: string)
    requires Blank(b)
    ensures TrimRight(s + b) == TrimRight(s)
  {
    if b == "" {
      assert s + b == s;
    } else {
      assert (s + b)[..|s + b| - 1] == s + b[..|b| - 1];
      TrimRightBlank(s, b[..|b| - 1]);
    }
  }

  /** White space before the line, between key and equals sign and at the end does not count; after the equals sign it does. */
  lemma SpacedAssignment(before: string, k: string, between: string, v: string)
    requires GoodKey(k) && OneLine(v) && Blank(before) && Blank(between)
    ensures Parsed(before + (k + between + "=" + v)) == Some((k, TrimRight(v)))
  {
    KeyHead(k);
    TrimLacks(v, '\0');
    var text := before + (k + between + "=" + v);
    TrimmedText(before, k + between + "=", v, text);
    SpacedLine(k, between, TrimRight(v), k + between + "=" + TrimRight(v), text);
  }

  lemma TrimmedText(before: string, head: string, v: string, text: string)
    requires Blank(before) && head != "" && !IsSpace(head[|head| - 1]) && text == before + (head + v)
    ensures Trim(text) == TrimLeft(head + TrimRight(v))
  {
    Grouped(before, head, v);
    TrimRightAfter(before + head, v);
    Grouped(before, head, TrimRight(v));
    TrimLeftBlank(before, head + TrimRight(v));
  }

  lemma Grouped(a: string, b: string, c: string)
    ensures a + (b + c) == a + b + c
    ensures b != "" ==> (a + b)[|a + b| - 1] == b[|b| - 1]
  {
  }

  lemma SpacedLine(k: string, between: string, v: string, line: string, text: string)
    requires GoodKey(k) && k != "" && k[0] == 'S' && Blank(between) && '\0' !in v
    requires line == k + between + "=" + v && Trim(text) == TrimLeft(line)
    ensures Parsed(text) == Some((k, v))
  {
    forall i | 0 <= i < |k + between| ensures line[i] != '=' {
      assert i < |k| ==> line[i] in k;
      assert i >= |k| ==> line[i] == between[i - |k|];
    }
    IndexOfUnique(line, '=', |k + between|);
    assert line[..|k + between|] == k + between && line[|k + between| + 1..] == v;
    TrimRightBlank(k, between);
  }

  lemma ParsedLine(k: string, v: string, text: string)
    requires GoodKey(k) && k != "" && k[0] == 'S' && '\0' !in v && TrimRight(text) == k + "=" + v
    ensures Parsed(text) == Some((k, v))
  {
    var line := k + "=" + v;
    forall i | 0 <= i < |k| ensures line[i] != '=' {
      assert line[i] in k;
    }
    IndexOfUnique(line, '=', |k|);
    assert line[..|k|] == k && line[|k| + 1..] == v;
  }

  ghost predicate Enumerates(order: seq<string>, values: Env) {
    && (forall i, j :: 0 <= i < j < |order| ==> order[i] != order[j])
    && forall k :: k in order <==> k in values
  }

  /** The text assigns each key once, in some order. */
  ghost predicate IsWritten(data: string, values: Env) {
    exists order :: Enumerates(order, values) && data == Written(order, values)
  }

  /** The lines of a written file. */
  function WrittenLines(order: seq<string>, values: Env): seq<string>
    requires forall i :: 0 <= i < |order| ==> order[i] in values
  {
    seq(|order|, i requires 0 <= i < |order| => order[i] + "=" + values[order[i]])
  }

  lemma WrittenTurn(order: seq<string>, values: Env, line: string)
    requires order != [] && forall i :: 0 <= i < |order| ==> order[i] in values
    requires line == order[0] + "=" + values[order[0]] && '\n' !in line
    ensures Split(Written(order, values), '\n') == [line] + Split(Written(order[1..], values), '\n')
    ensures WrittenLines(order, values) == [line] + WrittenLines(order[1..], values)
  {
    SplitLine(line, Written(order[1..], values));
  }

  lemma SplitLine(line: string, rest: string)
    requires '\n' !in line
    ensures Split(line + "\n" + rest, '\n') == [line] + Split(rest, '\n')
  {
    SplitCons(line, '\n', rest);
    assert line + "\n" + rest == line + ['\n'] + rest;
  }

  lemma {:induction false} SplitWritten(order: seq<string>, values: Env)
    requires forall i :: 0 <= i < |order| ==> order[i] in values && '\n' !in order[i] && '\n' !in values[order[i]]
    ensures Split(Written(order, values), '\n') == WrittenLines(order, values) + [""]
  {
    if order == [] {
      SplitNone("", '\n');
    } else {
      SplitWritten(order[1..], values);
      WrittenTurn(order, values, order[0] + "=" + values[order[0]]);
    }
  }

  lemma LoadTurn(lines: seq<string>, n: nat, k: string, v: string, env: Env, before: Env)
    requires n < |lines| && lines[n] == k + "=" + v && GoodKey(k) && OneLine(v)
    requires LoadLines(lines[..n], env) == before
    ensures LoadLines(lines[..n + 1], env) == if k in before then before else before[k := TrimRight(v)]
  {
    assert lines[..n + 1][..n] == lines[..n];
    ParsedAssignment(k, v);
  }

  /** The values of the first n keys. */
  function Restricted(order: seq<string>, values: Env, n: nat): Env
    requires n <= |order|
  {
    map k | k in values && k in order[..n] :: values[k]
  }

  lemma RestrictedTurn(order: seq<string>, values: Env, env: Env, n: nat)
    requires n < |order| && order[n] in values && forall i :: 0 <= i < n ==> order[i] != order[n]
    ensures var before, k := Restricted(order, values, n) + env, order[n];
            Restricted(order, values, n + 1) + env == if k in before then before else before[k := values[k]]
  {
    assert order[..n + 1] == order[..n] + [order[n]];
    assert order[n] !in order[..n];
  }

  /** The values as they are read back. */
  function Settled(values: Env): Env {
    map k | k in values :: TrimRight(values[k])
  }

  lemma {:induction false} LoadWrittenLines(order: seq<string>, values: Env, env: Env, n: nat)
    requires n <= |order| && (forall i, j :: 0 <= i < j < |order| ==> order[i] != order[j])
    requires forall i :: 0 <= i < |order| ==> order[i] in values && GoodKey(order[i]) && OneLine(values[order[i]])
    ensures LoadLines(WrittenLines(order, values)[..n], env) == Restricted(order, Settled(values), n) + env
  {
    if n > 0 {
      var k, m := order[n - 1], n - 1;
      LoadWrittenLines(order, values, env, m);
      LoadTurn(WrittenLines(order, values), m, k, values[k], env, Restricted(order, Settled(values), m) + env);
      RestrictedTurn(order, Settled(values), env, m);
    }
  }

  lemma LastEmptyLine(lines: seq<string>, env: Env)
    ensures LoadLines(lines + [""], env) == LoadLines(lines, env)
  {
    assert (lines + [""])[..|lines|] == lines;
  }

  lemma EnumeratedKeys(order: seq<string>, values: Env)
    requires Enumerates(order, values)
    ensures forall i :: 0 <= i < |order| ==> order[i] in values
    ensures Restricted(order, Settled(values), |order|) == Settled(values)
  {
    forall i | 0 <= i < |order| ensures order[i] in values {
      assert order[i] in order;
    }
    assert order[..|order|] == order;
  }

  /** Loading a written file gives every written value that the environment does not already have, without the
      white space at its end, and keeps the rest. */
  lemma WrittenFileLoads(order: seq<string>, values: Env, env: Env)
    requires Enumerates(order, values)
    requires forall k :: k in values ==> GoodKey(k) && OneLine(values[k])
    ensures LoadFile(Written(order, values), env) == Settled(values) + env
  {
    EnumeratedKeys(order, values);
    SplitWritten(order, values);
    var lines := WrittenLines(order, values);
    assert lines[..|order|] == lines;
    LoadWrittenLines(order, values, env, |order|);
    LastEmptyLine(lines, env);
  }

  lemma ParsedIsGood(line: string)
    requires '\n' !in line && Parsed(line).Some?
    ensures GoodValue(Parsed(line).value.1) && HasPrefix(Parsed(line).value.0, "SL_DBG_")
  {
    var t := Trim(line);
    TrimEnds(line);
    TrimLacks(line, '\n');
    var v := t[IndexOf(t, '=') + 1..];
    if v != "" {
      assert v[|v| - 1] == t[|t| - 1];
    }
  }

  lemma LoadLineIsSafe(line: string, env: Env)
    requires '\n' !in line
    ensures var after := LoadLine(line, env);
            && (forall k :: k in env ==> k in after && after[k] == env[k])
            && (forall k :: k in after && k !in env ==> HasPrefix(k, "SL_DBG_") && GoodValue(after[k]))
  {
    if Parsed(line).Some? {
      ParsedIsGood(line);
    }
  }

  /** Whatever the file holds: existing variables win, only SL_DBG_ variables are added, and each added value is on
      one line, without trailing white space. */
  lemma {:induction false} LoadingIsSafe(lines: seq<string>, env: Env)
    requires forall i :: 0 <= i < |lines| ==> '\n' !in lines[i]
    ensures var after := LoadLines(lines, env);
            && (forall k :: k in env ==> k in after && after[k] == env[k])
            && (forall k :: k in after && k !in env ==> HasPrefix(k, "SL_DBG_") && GoodValue(after[k]))
  {
    if lines != [] {
      var n := |lines| - 1;
      LoadingIsSafe(lines[..n], env);
      LoadLineIsSafe(lines[n], LoadLines(lines[..n], env));
    }
  }

  /** Of two lines that assign the same key the first wins. */
  lemma FirstLineWins(lines: seq<string>, i: nat, env: Env)
    requires i < |lines| && Parsed(lines[i]).Some? && (forall k :: 0 <= k < |lines| ==> '\n' !in lines[k])
    ensures var (key, value) := Parsed(lines[i]).value;
            key !in LoadLines(lines[..i], env) ==> key in LoadLines(lines, env) && LoadLines(lines, env)[key] == value
  {
    LinesSnoc(lines, i, env);
    LaterLinesKeep(lines, i + 1, env);
  }

  lemma {:induction false} LaterLinesKeep(lines: seq<string>, n: nat, env: Env)
    requires n <= |lines| && forall k :: 0 <= k < |lines| ==> '\n' !in lines[k]
    ensures forall k :: k in LoadLines(lines[..n], env) ==>
              k in LoadLines(lines, env) && LoadLines(lines, env)[k] == LoadLines(lines[..n], env)[k]
  {
    if n == |lines| {
      assert lines[..n] == lines;
    } else {
      var last := |lines| - 1;
      LaterLinesKeep(lines[..last], n, env);
      assert lines[..last][..n] == lines[..n];
      LoadLineIsSafe(lines[last], LoadLines(lines[..last], env));
    }
  }

  /** For any file and any environment: existing keys keep their values and no other key than an SL_DBG_ one is added. */
  lemma ExistingKeysWin(data: string, env: Env)
    ensures var after := LoadFile(data, env);
            && (forall k :: k in env ==> k in after && after[k] == env[k])
            && (forall k :: k in after && k !in env ==> HasPrefix(k, "SL_DBG_") && GoodValue(after[k]))
  {
    SplitLacks(data, '\n', '\n');
    LoadingIsSafe(Split(data, '\n'), env);
  }

  /** A file written from good keys is read back into an empty environment as it was exactly when no value has a
      newline, a NUL or trailing white space. */
  lemma FileSurvivesIff(order: seq<string>, values: Env)
    requires Enumerates(order, values) && forall k :: k in values ==> GoodKey(k)
    ensures LoadFile(Written(order, values), map[]) == values <==> forall k :: k in values ==> GoodValue(values[k])
  {
    if forall k :: k in values ==> GoodValue(values[k]) {
      WrittenFileLoads(order, values, map[]);
      SettledIsSame(values);
    }
    if LoadFile(Written(order, values), map[]) == values {
      forall k | k in values ensures GoodValue(values[k]) {
        LoadedIsGood(Written(order, values), map[], k);
      }
    }
  }

  lemma SettledIsSame(values: Env)
    requires forall k :: k in values ==> GoodValue(values[k])
    ensures Settled(values) == values && Settled(values) + map[] == values
  {
  }

  lemma LoadedIsGood(data: string, env: Env, k: string)
    requires k !in env
    ensures GoodValue(Getenv(LoadFile(data, env), k))
  {
    ExistingKeysWin(data, env);
  }

  /** A value with a blank at the end is read back without it. */
  lemma TrailingBlankIsLost(k: string)
    requires GoodKey(k)
    ensures LoadFile(Written([k], map[k := "/var/log "]), map[]) == map[k := "/var/log"]
  {
    var values: Env := map[k := "/var/log "];
    var v := "/var/log ";
    assert v[..|v| - 1] == "/var/log" && TrimRight(v) == TrimRight("/var/log") == "/var/log";
    assert Enumerates([k], values);
    WrittenFileLoads([k], values, map[]);
    assert Settled(values) + map[] == map[k := "/var/log"];
  }

  // ----- the loops -----

  lemma LinesSnoc(lines: seq<string>, n: nat, env: Env)
    requires n < |lines|
    ensures LoadLines(lines[..n + 1], env) == LoadLine(lines[n], LoadLines(lines[..n], env))
  {
    assert lines[..n + 1][..n] == lines[..n];
  }

  lemma {:induction false} WrittenSnoc(order: seq<string>, k: string, values: Env)
    requires k in values
    ensures Written(order + [k], values) == Written(order, values) + Assignment(k, values[k])
  {
    var all := order + [k];
    if order != [] {
      WrittenSnoc(order[1..], k, values);
      assert all[1..] == order[1..] + [k];
    } else {
      assert all[1..] == [];
    }
  }

  /** The file's text, whatever order the map is walked in. */
  method WriteSafePolicyFile(values: Env) returns (data: string)
    ensures IsWritten(data, values)
  {
    data := "";
    ghost var order: seq<string> := [];
    var left := values.Keys;
    while left != {}
      invariant left <= values.Keys
      invariant forall i :: 0 <= i < |order| ==> order[i] in values && order[i] !in left
      invariant forall k :: k in values ==> k in left || k in order
      invariant forall i, j :: 0 <= i < j < |order| ==> order[i] != order[j]
      invariant data == Written(order, values)
      decreases |left|
    {
      assert Pick(left) in left;
      var k :| k in left;
      WrittenSnoc(order, k, values);
      data, order := data + Assignment(k, values[k]), order + [k];
      left := left - {k};
    }
    assert Enumerates(order, values);
  }

  lemma EntriesSnoc(parts: seq<string>, n: nat)
    requires n < |parts|
    ensures Entries(parts[..n + 1]) == Entries(parts[..n]) + if Trim(parts[n]) == "" then [] else [Trim(parts[n])]
  {
    assert parts[..n + 1][..n] == parts[..n];
  }

  method SplitColonList(text: string) returns (out: seq<string>)
    ensures out == ColonList(text)
  {
    var s := Trim(text);
    if s == "" {
      return [];
    }
    var parts := Split(s, ':');
    out := [];
    var i := 0;
    while i < |parts|
      invariant 0 <= i <= |parts|
      invariant out == Entries(parts[..i])
    {
      EntriesSnoc(parts, i);
      var p := Trim(parts[i]);
      if p != "" {
        out := out + [p];
      }
      i := i + 1;
    }
    assert parts[..|parts|] == parts;
  }
}
