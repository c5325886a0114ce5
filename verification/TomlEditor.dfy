/** The loops of the TOML table editor, proved against the scanner's specification functions. */
module TomlEditor {
  import opened Basics
  import opened Text
  import opened TomlText
  import opened TomlScan
  import TomlHeaders
  import opened TomlStrip
  import opened TomlInstall

  lemma DropDrop(s: string, i: nat, n: nat)
    requires i <= |s|
    ensures Drop(s[i..], n) == Drop(s, i + n)
  {
  }

  lemma {:induction false} RunOf(s: string, q: char, n: nat)
    requires n <= |s| && (forall k :: 0 <= k < n ==> s[k] == q) && (n < |s| ==> s[n] != q)
    ensures RunLength(s, q) == n
  {
    if n > 0 {
      RunOf(s[1..], q, n - 1);
    }
  }

  /** The end of the run of quotes that starts at i. */
  method SkipRun(line: string, i: nat, q: char) returns (j: nat)
    requires i + 3 <= |line| && HasPrefix(line[i..], [q, q, q])
    ensures i < j <= |line| && Drop(line, j) == Drop(line[i..][3..], RunLength(line[i..][3..], q))
  {
    assert line[i..][..3][0] == q && line[i..][..3][1] == q && line[i..][..3][2] == q;
    j := i;
    while j + 1 < |line| && line[j + 1] == q
      invariant i <= j < |line|
      invariant forall k :: i <= k <= j ==> line[k] == q
    {
      j := j + 1;
    }
    assert j >= i + 2 by {
      assert line[i + 1] == q && line[i + 2] == q;
    }
    j := j + 1;
    var rest := line[i..][3..];
    assert rest == line[i + 3..];
    RunOf(rest, q, j - (i + 3));
    DropDrop(line, i + 3, j - (i + 3));
  }

  lemma StringEndTurn(s: string, j: nat, q: char)
    requires j < |s| && s[j] != q
    ensures StringEnd(Drop(s, j), q) ==
            if q == '"' && s[j] == '\\' then 2 + StringEnd(Drop(s, j + 2), q) else 1 + StringEnd(Drop(s, j + 1), q)
  {
    DropDrop(s, j, 2);
    DropDrop(s, j, 1);
  }

  /** The position just past the string in single or double quotes that opens at i. */
  method SkipString(s: string, i: nat) returns (j: nat)
    requires i < |s|
    ensures j == i + 1 + StringEnd(s[i + 1..], s[i])
  {
    var q := s[i];
    j := i + 1;
    assert Drop(s, j) == s[i + 1..];
    while j < |s| && s[j] != q
      invariant i + 1 <= j
      invariant i + 1 + StringEnd(s[i + 1..], q) == j + StringEnd(Drop(s, j), q)
      decreases |s| - j
    {
      StringEndTurn(s, j, q);
      if q == '"' && s[j] == '\\' {
        j := j + 1;
      }
      j := j + 1;
    }
  }

  lemma InsideTurn(line: string, i: nat, q: char)
    requires i < |line|
    ensures StateAfter(Drop(line, i), Inside(q)) ==
            if q == '"' && line[i] == '\\' then StateAfter(Drop(line, i + 2), Inside(q))
            else if HasPrefix(line[i..], [q, q, q]) then
              StateAfter(Drop(line[i..][3..], RunLength(line[i..][3..], q)), Plain)
            else StateAfter(Drop(line, i + 1), Inside(q))
  {
    DropDrop(line, i, 2);
    assert line[i..][1..] == Drop(line, i + 1);
  }

  lemma PlainSkip(line: string, i: nat)
    requires i < |line| && line[i] != '#' && !IsQuote(line[i])
    ensures StateAfter(Drop(line, i), Plain) == StateAfter(Drop(line, i + 1), Plain)
  {
    assert line[i..][1..] == Drop(line, i + 1);
  }

  lemma PlainTriple(line: string, i: nat, q: char)
    requires i < |line| && q == line[i] && IsQuote(q) && HasPrefix(line[i..], [q, q, q])
    ensures StateAfter(Drop(line, i), Plain) == StateAfter(Drop(line, i + 3), Inside(q))
  {
    assert line[i..][3..] == Drop(line, i + 3);
  }

  lemma PlainString(line: string, i: nat, q: char, j: nat)
    requires i < |line| && q == line[i] && IsQuote(q) && !HasPrefix(line[i..], [q, q, q])
    requires j == i + 1 + StringEnd(line[i + 1..], q)
    ensures StateAfter(Drop(line, i), Plain) == StateAfter(Drop(line, j + 1), Plain)
  {
    Cut(line, i, j - i);
    StringTurn(Drop(line, i), line[i + 1..], q, Drop(line, j + 1));
  }

  lemma Cut(line: string, i: nat, n: nat)
    requires i < |line|
    ensures Drop(line, i) == [line[i]] + line[i + 1..] && Drop(line, i + 1 + n) == Drop(line[i + 1..], n)
    ensures Drop(line, i) == line[i..]
  {
    DropDrop(line, i + 1, n);
  }

  lemma StringTurn(s: string, tail: string, q: char, after: string)
    requires s == [q] + tail && IsQuote(q) && !HasPrefix(s, [q, q, q]) && after == Drop(tail, StringEnd(tail, q) + 1)
    ensures StateAfter(s, Plain) == StateAfter(after, Plain)
  {
    assert s[1..] == tail;
  }

  /** One turn outside strings: where to go on, and whether a multi-line string was opened. */
  method TurnPlain(line: string, i: nat) returns (j: nat, state: StrState)
    requires i < |line|
    ensures i < j && StateAfter(Drop(line, i), Plain) == StateAfter(Drop(line, j), state)
  {
    var q := line[i];
    if q == '#' {
      return |line|, Plain;
    }
    if !IsQuote(q) {
      PlainSkip(line, i);
      return i + 1, Plain;
    }
    if HasPrefix(line[i..], [q, q, q]) {
      PlainTriple(line, i, q);
      return i + 3, Inside(q);
    }
    j := SkipString(line, i);
    PlainString(line, i, q, j);
    j, state := j + 1, Plain;
  }

  /** One turn inside a multi-line string. */
  method TurnInside(line: string, i: nat, q: char) returns (j: nat, state: StrState)
    requires i < |line|
    ensures i < j && StateAfter(Drop(line, i), Inside(q)) == StateAfter(Drop(line, j), state)
  {
    InsideTurn(line, i, q);
    if q == '"' && line[i] == '\\' {
      return i + 2, Inside(q);
    }
    if HasPrefix(line[i..], [q, q, q]) {
      j := SkipRun(line, i, q);
      return j, Plain;
    }
    j, state := i + 1, Inside(q);
  }

  /** The string state after a line, by one pass over its characters. */
  method MultilineState(line: string, before: StrState) returns (state: StrState)
    ensures state == StateAfter(line, before)
  {
    state := before;
    var i := 0;
    assert Drop(line, 0) == line;
    while i < |line|
      invariant 0 <= i
      invariant StateAfter(line, before) == StateAfter(Drop(line, i), state)
      decreases |line| - i
    {
      if state.Inside? {
        i, state := TurnInside(line, i, state.quote);
      } else {
        i, state := TurnPlain(line, i);
      }
    }
  }

  /** One bare or quoted key, and the text after it. */
  method TakeKey(s: string) returns (r: Option<(Key, string)>)
    requires s != ""
    ensures r == ReadKey(s)
  {
    if IsQuote(s[0]) {
      r := TakeQuoted(s);
    } else {
      r := TakeBare(s);
    }
  }

  method TakeQuoted(s: string) returns (r: Option<(Key, string)>)
    requires s != "" && IsQuote(s[0])
    ensures r == ReadKey(s)
  {
    var end := SkipString(s, 0);
    QuotedKey(s, end);
    if end >= |s| {
      return None;
    }
    var text := s[1..end];
    if s[0] == '"' {
      var decoded := Unquote(text);
      if decoded.None? {
        return None;
      }
      r := Some((decoded.value, s[end + 1..]));
    } else {
      r := Some((Utf8(text), s[end + 1..]));
    }
  }

  lemma QuotedKey(s: string, end: nat)
    requires s != "" && IsQuote(s[0]) && end == 1 + StringEnd(s[1..], s[0])
    ensures ReadKey(s) ==
            if end >= |s| then None
            else if s[0] == '"' then (if Unquote(s[1..end]).None? then None else Some((Unquote(s[1..end]).value, s[end + 1..])))
            else Some((Utf8(s[1..end]), s[end + 1..]))
  {
  }

  method TakeBare(s: string) returns (r: Option<(Key, string)>)
    requires s != "" && !IsQuote(s[0])
    ensures r == ReadKey(s)
  {
    var end := BareEnd(s);
    if end == 0 || end == |s| || !Bare(s[..end]) {
      return None;
    }
    r := Some((Utf8(s[..end]), s[end..]));
  }

  function Prepend(keys: seq<Key>, more: Option<seq<Key>>): Option<seq<Key>> {
    if more.Some? then Some(keys + more.value) else None
  }

  lemma PrependOne(keys: seq<Key>, key: Key, more: Option<seq<Key>>)
    ensures Prepend(keys + [key], more) == Prepend(keys, Prepend([key], more))
  {
    assert more.Some? ==> keys + [key] + more.value == keys + ([key] + more.value);
  }

  /** The dotted key of a table header, by one pass over the keys. */
  method TomlTableKeys(line: string) returns (r: Option<seq<Key>>)
    ensures r == TableKeys(line)
  {
    var s := Trim(if HasPrefix(line, "[") then line[1..] else line);
    var isArray := HasPrefix(s, "[");
    if isArray {
      s := Trim(s[1..]);
    }
    r := TakeKeys(s, isArray);
  }

  method TakeKeys(text: string, isArray: bool) returns (r: Option<seq<Key>>)
    ensures r == ReadKeys(text, isArray)
  {
    var s, keys := text, [];
    assert Prepend([], ReadKeys(text, isArray)) == ReadKeys(text, isArray) by {
      if ReadKeys(text, isArray).Some? {
        assert [] + ReadKeys(text, isArray).value == ReadKeys(text, isArray).value;
      }
    }
    while s != ""
      invariant ReadKeys(text, isArray) == Prepend(keys, ReadKeys(s, isArray))
      decreases |s|
    {
      var one := TakeKey(s);
      if one.None? {
        return None;
      }
      TrimShrinks(one.value.1);
      var rest := Trim(one.value.1);
      TomlHeaders.KeysTurn(s, isArray, one.value.0, rest);
      if HasPrefix(rest, ".") {
        TrimShrinks(rest[1..]);
        PrependOne(keys, one.value.0, ReadKeys(Trim(rest[1..]), isArray));
        keys, s := keys + [one.value.0], Trim(rest[1..]);
      } else {
        return if Closes(rest, isArray) then Some(keys + [one.value.0]) else None;
      }
    }
    r := None;
  }

  /** Whether a line registers servers inline or by a dotted key. */
  method RegistersInline(line: string, table: seq<Key>, id: string) returns (r: bool)
    ensures r == Inline(line, table, id)
  {
    var trim := Trim(line);
    var k := IndexOf(trim, '=');
    if k == |trim| {
      return false;
    }
    var keys := TomlTableKeys("[" + Trim(trim[..k]) + "]");
    r := keys.Some? && |keys.value| > 0 &&
    ((|table| == 0 && keys.value[0] == MCP()) || (|table| == 1 && table[0] == MCP() && keys.value[0] == Utf8(id)));
  }

  /** One turn of the scan; None if the line makes the scanner refuse. */
  method ScanLine(before: Scan, line: string, id: string) returns (r: Option<Scan>)
    ensures r == Step(before, line, id)
  {
    var out, multiline, table := before.out, before.state, before.table;
    var skip, found := before.skip, before.found;
    var trim := Trim(line);
    if multiline == Plain && HasPrefix(trim, "[") {
      var keys := TomlTableKeys(trim);
      if keys.None? {
        return None;
      }
      table := keys.value;
      skip := |table| >= 2 && table[0] == MCP() && table[1] == Utf8(id);
      found := found || skip;
    } else if multiline == Plain {
      var inline := RegistersInline(line, table, id);
      if inline {
        return None;
      }
    }
    if !skip {
      out := out + line;
    }
    multiline := MultilineState(line, multiline);
    r := Some(Scan(table, skip, found, multiline, out));
  }

  /** The text without the server's tables, by one pass over its lines. */
  method StripMCPTable(s: string, id: string) returns (r: Option<(string, bool)>)
    ensures r == Strip(s, id)
  {
    var lines := SplitAfter(s);
    var scan := START;
    var i := 0;
    while i < |lines|
      invariant 0 <= i <= |lines|
      invariant ScanLines(lines[..i], id) == Some(scan)
    {
      OneMore(lines, i, scan, id);
      var next := ScanLine(scan, lines[i], id);
      if next.None? {
        Refused(lines, i + 1, id);
        return None;
      }
      scan := next.value;
      i := i + 1;
    }
    assert lines[..|lines|] == lines;
    r := if scan.state == Plain then Some((scan.out, scan.found)) else None;
  }

  lemma OneMore(ls: seq<string>, n: nat, sc: Scan, id: string)
    requires n < |ls| && ScanLines(ls[..n], id) == Some(sc)
    ensures ScanLines(ls[..n + 1], id) == Step(sc, ls[n], id)
  {
    assert ls[..n + 1][..n] == ls[..n];
  }

  lemma Refused(ls: seq<string>, n: nat, id: string)
    requires n <= |ls| && ScanLines(ls[..n], id).None?
    ensures ScanLines(ls, id).None?
  {
    if ScanLines(ls, id).Some? {
      ScanPrefix(ls, n, id);
    }
  }

  /** The file contents an installation writes. */
  method InstallTOML(existing: string, id: string, bin: string, args: seq<string>, force: bool) returns (r: Option<string>)
    ensures r == Install(existing, id, bin, args, force)
  {
    var stripped := StripMCPTable(existing, id);
    if stripped.None? {
      return None;
    }
    var contents, found := stripped.value.0, stripped.value.1;
    if found && !force {
      return None;
    }
    contents := PadContents(contents);
    var stanza := "[mcp_servers." + TomlKey(id) + "]\n" + "command = " + JsonQuote(bin) + "\nargs = " + JsonList(args) + "\n";
    if "--safe" !in args {
      stanza := stanza + ENV_LINE;
    }
    StanzaText(bin, id, args);
    StanzaIsOneText(bin, id, args);
    assert "--safe" in args ==> stanza + "" == stanza;
    r := Some(contents + stanza);
  }

  /** Ends the last line and leaves one empty line. */
  method PadContents(contents: string) returns (padded: string)
    ensures padded == Pad(contents)
  {
    padded := contents;
    if padded != "" && padded[|padded| - 1] != '\n' {
      padded := padded + "\n";
    }
    if padded != "" {
      padded := padded + "\n";
    }
    assert contents + "\n" + "\n" == contents + "\n\n";
  }

  lemma StanzaIsOneText(bin: string, id: string, args: seq<string>)
    ensures (TomlHeaders.Header(id) + "\n") + CommandLine(bin) + ArgsLine(args) ==
            "[mcp_servers." + TomlKey(id) + "]\n" + "command = " + JsonQuote(bin) + "\nargs = " + JsonList(args) + "\n"
  {
    assert "]" + "\n" == "]\n" && "\n" + "args = " == "\nargs = ";
    Flatten("[mcp_servers." + TomlKey(id), "]", "command = " + JsonQuote(bin), "args = ", JsonList(args), "\n");
  }

  lemma Flatten(head: string, close: string, command: string, name: string, list: string, end: string)
    ensures (head + close + end) + (command + end) + (name + list + end) ==
            head + (close + end) + command + (end + name) + list + end
  {
  }
}
