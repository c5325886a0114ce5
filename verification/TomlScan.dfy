/** The line scanner of the TOML table editor: string state, table headers, and the removal of one table. */
module TomlScan {
  import opened Basics
  import opened Text
  import opened TomlText

  type Key = seq<byte>

  /** Inside which kind of multi-line string a line ends, if any. */
  datatype StrState = Plain | Inside(quote: char)

  predicate IsQuote(c: char) {
    c == '"' || c == '\''
  }

  /** Where the string ends that starts just before s; at or past the end of s if it does not end. */
  function StringEnd(s: string, q: char): nat
    decreases |s|
  {
    if s == "" || s[0] == q then 0
    else if q == '"' && s[0] == '\\' then 2 + StringEnd(Drop(s, 2), q)
    else 1 + StringEnd(s[1..], q)
  }

  function RunLength(s: string, q: char): nat {
    if s == "" || s[0] != q then 0 else 1 + RunLength(s[1..], q)
  }

  /** The string state after a line. */
  function StateAfter(s: string, st: StrState): StrState
    decreases |s|
  {
    if s == "" then st
    else
      match st
      case Inside(q) =>
        if q == '"' && s[0] == '\\' then StateAfter(Drop(s, 2), st)
        else if HasPrefix(s, [q, q, q]) then StateAfter(Drop(s[3..], RunLength(s[3..], q)), Plain)
        else StateAfter(s[1..], st)
      case Plain =>
        if s[0] == '#' then Plain
        else if !IsQuote(s[0]) then StateAfter(s[1..], Plain)
        else if HasPrefix(s, [s[0], s[0], s[0]]) then StateAfter(s[3..], Inside(s[0]))
        else StateAfter(Drop(s[1..], StringEnd(s[1..], s[0]) + 1), Plain)
  }

  // ----- keys and headers -----

  predicate BareChar(c: char) {
    'a' <= c <= 'z' || 'A' <= c <= 'Z' || '0' <= c <= '9' || c == '_' || c == '-'
  }

  predicate Bare(s: string) {
    s != "" && forall i :: 0 <= i < |s| ==> BareChar(s[i])
  }

  /** How a key is printed. */
  function TomlKey(s: string): string {
    if Bare(s) then s else JsonQuote(s)
  }

  /** The first of the characters that may follow a bare key, or the length of s. */
  function BareEnd(s: string): (n: nat)
    ensures n <= |s|
  {
    if s == "" || s[0] in ".] \t" then 0 else 1 + BareEnd(s[1..])
  }

  function ReadKey(s: string): (r: Option<(Key, string)>)
    requires s != ""
    ensures r.Some? ==> |r.value.1| < |s|
  {
    if IsQuote(s[0]) then
      var e := StringEnd(s[1..], s[0]);
      if e + 1 >= |s| then None
      else
        var text := s[1..e + 1];
        var key := if s[0] == '"' then Unquote(text) else Some(Utf8(text));
        if key.None? then None else Some((key.value, s[e + 2..]))
    else
      var e := BareEnd(s);
      if e == 0 || e == |s| || !Bare(s[..e]) then None else Some((Utf8(s[..e]), s[e..]))
  }

  /** The end of a header: the closing bracket or brackets, and at most a comment. */
  predicate Closes(s: string, isArray: bool) {
    var close := if isArray then "]]" else "]";
    HasPrefix(s, close) &&
    var rest := Trim(s[|close|..]);
    rest == "" || rest[0] == '#'
  }

  function ReadKeys(s: string, isArray: bool): Option<seq<Key>>
    decreases |s|
  {
    if s == "" then None
    else
      var one := ReadKey(s);
      if one.None? then None
      else
        var rest := (TrimShrinks(one.value.1); Trim(one.value.1));
        if rest != "" && rest[0] == '.' then
          var next := (TrimShrinks(rest[1..]); Trim(rest[1..]));
          var more := ReadKeys(next, isArray);
          if more.None? then None else Some([one.value.0] + more.value)
        else if Closes(rest, isArray) then Some([one.value.0])
        else None
  }

  /** The dotted key of a table header; None if the line is no header the scanner supports. */
  function TableKeys(line: string): Option<seq<Key>> {
    var s := Trim(if HasPrefix(line, "[") then line[1..] else line);
    if HasPrefix(s, "[") then ReadKeys(Trim(s[1..]), true) else ReadKeys(s, false)
  }

  // ----- lines -----

  /** The text cut after every newline; the last piece has none and may be empty. */
  function SplitAfter(s: string): (ls: seq<string>)
    ensures |ls| > 0
  {
    var k := IndexOf(s, '\n');
    if k == |s| then [s] else [s[..k + 1]] + SplitAfter(s[k + 1..])
  }

  function Concat(ls: seq<string>): string {
    if ls == [] then "" else Concat(ls[..|ls| - 1]) + ls[|ls| - 1]
  }

  // ----- the scan -----

  function MCP(): Key {
    Utf8("mcp_servers")
  }

  /** A header of the server's own table or of a table inside it. */
  predicate Names(keys: seq<Key>, id: string) {
    |keys| >= 2 && keys[0] == MCP() && keys[1] == Utf8(id)
  }

  datatype Scan = Scan(table: seq<Key>, skip: bool, found: bool, state: StrState, out: string)

  const START := Scan([], false, false, Plain, "")

  predicate IsHeader(line: string, st: StrState) {
    st.Plain? && HasPrefix(Trim(line), "[")
  }

  /** An assignment that registers servers inline or by a dotted key. */
  predicate Inline(line: string, table: seq<Key>, id: string) {
    var trim := Trim(line);
    var k := IndexOf(trim, '=');
    k < |trim| &&
    var keys := TableKeys("[" + Trim(trim[..k]) + "]");
    keys.Some? && |keys.value| > 0 &&
    ((|table| == 0 && keys.value[0] == MCP()) || (|table| == 1 && table[0] == MCP() && keys.value[0] == Utf8(id)))
  }

  /** One line; None if the scanner refuses to edit the text. */
  function Step(sc: Scan, line: string, id: string): Option<Scan> {
    var state := StateAfter(line, sc.state);
    if IsHeader(line, sc.state) then
      var keys := TableKeys(Trim(line));
      if keys.None? then None
      else
        var skip := Names(keys.value, id);
        Some(Scan(keys.value, skip, sc.found || skip, state, if skip then sc.out else sc.out + line))
    else if sc.state.Plain? && Inline(line, sc.table, id) then None
    else Some(sc.(state := state, out := if sc.skip then sc.out else sc.out + line))
  }

  function ScanLines(ls: seq<string>, id: string): Option<Scan> {
    if ls == [] then Some(START)
    else
      var sc := ScanLines(ls[..|ls| - 1], id);
      if sc.None? then None else Step(sc.value, ls[|ls| - 1], id)
  }

  /** The text without the server's tables, and whether there were any; None if the scanner refuses. */
  function Strip(s: string, id: string): Option<(string, bool)> {
    var sc := ScanLines(SplitAfter(s), id);
    if sc.Some? && sc.value.state.Plain? then Some((sc.value.out, sc.value.found)) else None
  }
}
