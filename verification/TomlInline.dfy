/** Servers that are registered by an assignment, inline or with a dotted key, where the scanner must refuse to edit the
    text: which of the assignments printed from given keys it recognises, whatever else stands on their line, and which
    ones it misses. */
module TomlInline {
  import opened Basics
  import opened Text
  import opened TomlText
  import opened TomlScan
  import opened TomlHeaders
  import TomlOthers
  import opened TomlReading

  // ----- printed assignments -----

  lemma JsonCharEquals(c: char)
    ensures '=' in JsonChar(c) <==> c == '='
  {
  }

  lemma {:induction false} JsonEquals(s: string)
    ensures '=' in JsonBody(s) <==> '=' in s
  {
    if s != "" {
      JsonCharEquals(s[0]);
      JsonEquals(s[1..]);
      assert s == [s[0]] + s[1..];
    }
  }

  lemma KeyEquals(key: string)
    ensures '=' in TomlKey(key) <==> '=' in key
  {
    JsonEquals(key);
    if Bare(key) {
      forall i | 0 <= i < |key| ensures key[i] != '=' {
        assert BareChar(key[i]);
      }
    }
  }

  lemma {:induction false} DottedEquals(keys: seq<string>)
    requires keys != [] && forall i :: 0 <= i < |keys| ==> '=' !in keys[i]
    ensures '=' !in Dotted(keys)
  {
    KeyEquals(keys[0]);
    if |keys| > 1 {
      DottedEquals(keys[1..]);
    }
  }

  /** The scanner cuts a line before its first equals sign. */
  lemma CutAtEquals(head: string, rest: string, line: string)
    requires head != "" && !IsSpace(head[0]) && '=' !in head && line == head + "=" + rest
    ensures var trim := Trim(line);
            trim != "" && trim[0] == head[0] && IndexOf(trim, '=') == |head| < |trim| && trim[..|head|] == head
  {
    var p := head + "=";
    TrimOfVisible(line);
    TrimRightAfter(p, rest);
    var trim := p + TrimRight(rest);
    forall i | 0 <= i < |head| ensures trim[i] != '=' {
      assert trim[i] in head;
    }
    IndexOfUnique(trim, '=', |head|);
    assert trim[..|head|] == head;
  }

  /** The keys, in the table that is open, would register a server inline or by a dotted key. */
  predicate Registers(table: seq<Key>, first: string, id: string) {
    || (|table| == 0 && first == "mcp_servers")
    || (|table| == 1 && table[0] == Utf8("mcp_servers") && first == id)
  }

  lemma FirstKey(table: seq<Key>, keys: seq<string>, id: string)
    requires keys != []
    ensures (|table| == 0 && Bytes(keys)[0] == MCP()) || (|table| == 1 && table[0] == MCP() && Bytes(keys)[0] == Utf8(id))
            <==> Registers(table, keys[0], id)
  {
    if Bytes(keys)[0] == MCP() {
      TomlOthers.Utf8Injective(keys[0], "mcp_servers");
    }
    if Bytes(keys)[0] == Utf8(id) {
      TomlOthers.Utf8Injective(keys[0], id);
    }
  }

  lemma DottedTail(keys: seq<string>)
    requires keys != []
    ensures !IsSpace(Dotted(keys)[|Dotted(keys)| - 1])
    decreases |keys|
  {
    var key := TomlKey(keys[0]);
    assert Bare(keys[0]) ==> BareChar(key[|key| - 1]);
    if |keys| > 1 {
      DottedTail(keys[1..]);
      DottedHead(keys[1..]);
    }
  }

  /** What the scanner makes of an assignment: the keys before the equals sign, if they can be read, register a server. */
  lemma AssignmentStep(sc: Scan, head: string, rest: string, line: string, id: string)
    requires sc.state == Plain && head != "" && !IsSpace(head[0]) && head[0] != '[' && '=' !in head
    requires line == head + "=" + rest
    ensures Step(sc, line, id).None? <==>
            var keys := TableKeys("[" + Trim(head) + "]");
            && keys.Some? && |keys.value| > 0
            && ((|sc.table| == 0 && keys.value[0] == MCP())
                || (|sc.table| == 1 && sc.table[0] == MCP() && keys.value[0] == Utf8(id)))
  {
    CutAtEquals(head, rest, line);
    assert Trim(line)[..1][0] != '[';
    InlineAt(line, head, sc.table, id);
    BodyRefused(sc, line, id);
  }

  lemma InlineAt(line: string, head: string, table: seq<Key>, id: string)
    requires IndexOf(Trim(line), '=') == |head| < |Trim(line)| && Trim(line)[..|head|] == head
    ensures Inline(line, table, id) <==>
            var keys := TableKeys("[" + Trim(head) + "]");
            && keys.Some? && |keys.value| > 0
            && ((|table| == 0 && keys.value[0] == MCP())
                || (|table| == 1 && table[0] == MCP() && keys.value[0] == Utf8(id)))
  {
  }

  lemma BodyRefused(sc: Scan, line: string, id: string)
    requires sc.state == Plain && !IsHeader(line, Plain)
    ensures Step(sc, line, id).None? <==> Inline(line, sc.table, id)
  {
  }

  lemma DottedThenBlank(keys: seq<string>, head: string)
    requires keys != [] && head == Dotted(keys) + " " && forall i :: 0 <= i < |keys| ==> '=' !in keys[i]
    ensures head != "" && !IsSpace(head[0]) && head[0] != '[' && '=' !in head && Trim(head) == Dotted(keys)
  {
    DottedHead(keys);
    DottedTail(keys);
    DottedEquals(keys);
    TrimVisible(Dotted(keys));
    TrimAfter(Dotted(keys), ' ');
  }

  lemma PlainAssignment(sc: Scan, keys: seq<string>, rest: string, line: string, id: string)
    requires sc.state == Plain && keys != [] && forall i :: 0 <= i < |keys| ==> '=' !in keys[i]
    requires line == Dotted(keys) + " " + "=" + rest
    ensures Step(sc, line, id).None? <==> Registers(sc.table, keys[0], id)
  {
    DottedThenBlank(keys, Dotted(keys) + " ");
    AssignmentStep(sc, Dotted(keys) + " ", rest, line, id);
    HeaderOfKeys(keys, false, "[" + Dotted(keys) + "]");
    FirstKey(sc.table, keys, id);
  }

  // ----- an equals sign in a key hides a registration -----

  lemma JsonCharSkipped(c: char, rest: string)
    ensures StringEnd(JsonChar(c) + rest, '"') == |JsonChar(c)| + StringEnd(rest, '"')
  {
    var j := JsonChar(c);
    var whole := j + rest;
    JsonCharShape(c);
    if |j| == 1 {
      assert whole[1..] == rest;
    } else if |j| == 2 {
      assert Drop(whole, 2) == rest;
    } else {
      assert Drop(whole, 2) == j[2..] + rest;
      StringEndPlain(j[2..], rest);
    }
  }

  lemma OpenEnd()
    ensures StringEnd(JsonBody("") + "]", '"') == 1
  {
    OneChar(JsonBody("") + "]", ']');
  }

  lemma OneChar(s: string, c: char)
    requires s == [c] && c != '"' && c != '\\'
    ensures StringEnd(s, '"') == 1
  {
    assert s[1..] == "";
  }

  lemma OpenSum(whole: string, j: string, body: string)
    requires whole == j + body && StringEnd(body + "]", '"') == |body| + 1
    requires StringEnd(j + (body + "]"), '"') == |j| + StringEnd(body + "]", '"')
    ensures StringEnd(whole + "]", '"') == |whole| + 1
  {
    assert whole + "]" == j + (body + "]");
  }

  lemma BodyParts(s: string)
    requires s != ""
    ensures JsonBody(s) == JsonChar(s[0]) + JsonBody(s[1..])
  {
  }

  /** No quote closes the text. */
  lemma {:induction false} StringEndOpen(s: string)
    ensures StringEnd(JsonBody(s) + "]", '"') == |JsonBody(s)| + 1
  {
    if s == "" {
      OpenEnd();
    } else {
      StringEndOpen(s[1..]);
      JsonCharSkipped(s[0], JsonBody(s[1..]) + "]");
      BodyParts(s);
      OpenSum(JsonBody(s), JsonChar(s[0]), JsonBody(s[1..]));
    }
  }

  lemma OpenKeyIsRefused(s: string)
    ensures ReadKeys("\"" + JsonBody(s) + "]", false) == None
  {
    var text := "\"" + JsonBody(s) + "]";
    StringEndOpen(s);
    assert text[1..] == JsonBody(s) + "]";
  }

  lemma {:induction false} OpenKeysAreRefused(keys: seq<string>, s: string)
    requires keys != []
    ensures ReadKeys(Dotted(keys) + ("." + ("\"" + JsonBody(s) + "]")), false) == None
    decreases |keys|
  {
    var tail := "\"" + JsonBody(s) + "]";
    if |keys| == 1 {
      OpenKeyIsRefused(s);
      MoreDotted(keys[0], tail, false);
      assert Dotted(keys) == TomlKey(keys[0]);
    } else {
      OpenKeysAreRefused(keys[1..], s);
      DottedParts(keys, "." + tail);
      DottedHead(keys[1..]);
      MoreDotted(keys[0], Dotted(keys[1..]) + ("." + tail), false);
    }
  }

  lemma BodyOfSum(a: string, b: string)
    requires a != ""
    ensures JsonBody(a + b) == JsonChar(a[0]) + JsonBody(a[1..] + b)
  {
    assert (a + b)[1..] == a[1..] + b;
  }

  lemma PartsTurn(a: string, b: string)
    requires a != "" && JsonBody(a[1..] + b) == JsonBody(a[1..]) + JsonBody(b)
    ensures JsonBody(a + b) == JsonBody(a) + JsonBody(b)
  {
    BodyOfSum(a, b);
    BodyParts(a);
    Add3(JsonChar(a[0]), JsonBody(a[1..]), JsonBody(b));
  }

  lemma {:induction false} JsonBodyParts(a: string, b: string)
    ensures JsonBody(a + b) == JsonBody(a) + JsonBody(b)
  {
    if a == "" {
      assert a + b == b && JsonBody(a) == "" && "" + JsonBody(b) == JsonBody(b);
    } else {
      JsonBodyParts(a[1..], b);
      PartsTurn(a, b);
    }
  }

  lemma Add3(a: string, b: string, c: string)
    ensures a + (b + c) == a + b + c
  {
  }

  lemma EqualsIsItself()
    ensures JsonBody("=") == "="
  {
    assert "="[1..] == "" && JsonBody("=") == JsonChar('=') + "";
  }

  lemma BodyAround(key: string, a: string, b: string)
    requires key == a + "=" + b
    ensures JsonBody(key) == JsonBody(a) + "=" + JsonBody(b)
  {
    assert key == a + ("=" + b);
    JsonBodyParts(a, "=" + b);
    JsonBodyParts("=", b);
    EqualsIsItself();
  }

  lemma NotBare(key: string)
    requires '=' in key
    ensures TomlKey(key) == "\"" + JsonBody(key) + "\""
  {
    var i :| 0 <= i < |key| && key[i] == '=';
    assert !BareChar(key[i]);
  }

  lemma Regrouped(q: string, a: string, e: string, b: string)
    ensures q + (a + e + b) + q == q + a + e + (b + q)
  {
  }

  lemma KeyOpen(key: string) returns (a: string, tail: string)
    requires '=' in key
    ensures TomlKey(key) == "\"" + JsonBody(a) + "=" + tail && '=' !in a
  {
    var m := IndexOf(key, '=');
    a := key[..m];
    var b := key[m + 1..];
    assert key == a + "=" + b;
    BodyAround(key, a, b);
    NotBare(key);
    Regrouped("\"", JsonBody(a), "=", JsonBody(b));
    tail := JsonBody(b) + "\"";
  }

  /** The keys before the open one, and their dot. */
  function Before(front: seq<string>): string {
    if front == [] then "" else Dotted(front) + "."
  }

  lemma BeforeParts(key: string, front: seq<string>)
    ensures Before([key] + front) == TomlKey(key) + "." + Before(front)
  {
    assert ([key] + front)[1..] == front;
    if front != [] {
      Join3(TomlKey(key), ".", Dotted(front), ".");
    }
  }

  /** The dotted key is open where its first equals sign stands. */
  ghost predicate OpensAt(keys: seq<string>, front: seq<string>, a: string, tail: string)
    requires keys != []
  {
    && Dotted(keys) == Before(front) + ("\"" + JsonBody(a)) + "=" + tail
    && '=' !in a && forall i :: 0 <= i < |front| ==> '=' !in front[i]
  }

  lemma OpensFirst(keys: seq<string>, a: string, more: string)
    requires keys != [] && TomlKey(keys[0]) == "\"" + JsonBody(a) + "=" + more && '=' !in a
    ensures OpensAt(keys, [], a, more + if |keys| == 1 then "" else "." + Dotted(keys[1..]))
  {
    Add3(Before([]), "\"", JsonBody(a));
    OpenFirst(TomlKey(keys[0]), "\"" + JsonBody(a), more, if |keys| == 1 then "" else "." + Dotted(keys[1..]));
  }

  lemma OpenFirst(key: string, open: string, more: string, rest: string)
    requires key == open + "=" + more
    ensures key + rest == "" + open + "=" + (more + rest)
  {
  }

  lemma OpensLater(keys: seq<string>, front: seq<string>, a: string, tail: string)
    requires |keys| > 1 && '=' !in keys[0] && OpensAt(keys[1..], front, a, tail)
    ensures OpensAt(keys, [keys[0]] + front, a, tail)
  {
    BeforeParts(keys[0], front);
    Join5(TomlKey(keys[0]), ".", Before(front), "\"" + JsonBody(a), "=", tail);
  }

  lemma Join5(a: string, b: string, c: string, d: string, e: string, f: string)
    ensures a + (b + (c + d + e + f)) == (a + b + c) + d + e + f
  {
  }

  lemma {:induction false} DottedOpen(keys: seq<string>) returns (front: seq<string>, a: string, tail: string)
    requires keys != [] && exists i :: 0 <= i < |keys| && '=' in keys[i]
    ensures OpensAt(keys, front, a, tail)
    decreases |keys|
  {
    if '=' in keys[0] {
      a, tail := KeyOpen(keys[0]);
      OpensFirst(keys, a, tail);
      front, tail := [], tail + if |keys| == 1 then "" else "." + Dotted(keys[1..]);
    } else {
      var i :| 0 <= i < |keys| && '=' in keys[i];
      assert keys[1..][i - 1] == keys[i];
      front, a, tail := DottedOpen(keys[1..]);
      OpensLater(keys, front, a, tail);
      front := [keys[0]] + front;
    }
  }

  lemma {:induction false} TrimmedBody(s: string) returns (y: string)
    ensures TrimRight(JsonBody(s)) == JsonBody(y)
  {
    y := s;
    if s != "" {
      var n := |s| - 1;
      JsonBodyParts(s[..n], [s[n]]);
      assert s == s[..n] + [s[n]] && [s[n]][1..] == "";
      assert JsonBody([s[n]]) == JsonChar(s[n]);
      LastJsonChar(JsonBody(s[..n]), s[n]);
      if IsSpace(JsonChar(s[n])[|JsonChar(s[n])| - 1]) {
        y := TrimmedBody(s[..n]);
      }
    }
  }

  /** Only a character printed as itself can be trimmed. */
  lemma LastJsonChar(body: string, c: char)
    ensures JsonChar(c) != ""
    ensures var j := JsonChar(c);
            TrimRight(body + j) == if IsSpace(j[|j| - 1]) then TrimRight(body) else body + j
  {
    var j := JsonChar(c);
    JsonCharEnd(c);
    if IsSpace(j[|j| - 1]) {
      assert (body + j)[..|body + j| - 1] == body;
    }
  }

  lemma JsonCharEnd(c: char)
    ensures JsonChar(c) != "" && (IsSpace(JsonChar(c)[|JsonChar(c)| - 1]) ==> |JsonChar(c)| == 1)
  {
  }

  lemma BeforeEquals(front: seq<string>)
    requires forall i :: 0 <= i < |front| ==> '=' !in front[i]
    ensures '=' !in Before(front)
  {
    if front != [] {
      DottedEquals(front);
    }
  }

  lemma HeadStart(front: seq<string>, open: string, head: string)
    requires head == Before(front) + open && open != "" && open[0] == '"'
    ensures head != "" && !IsSpace(head[0]) && head[0] != '['
  {
    if front != [] {
      DottedHead(front);
    }
  }

  lemma PrefixTrimmed(pre: string, body: string, head: string)
    requires head == pre + ("\"" + body) && head != "" && !IsSpace(head[0])
    ensures Trim(head) == pre + ("\"" + TrimRight(body))
  {
    var p := pre + "\"";
    TrimRightAfter(p, body);
    assert head == p + body;
    TrimOfVisible(head);
    assert p + TrimRight(body) == pre + ("\"" + TrimRight(body));
  }

  lemma HeadTrimmed(front: seq<string>, a: string, y: string, head: string)
    requires head == Before(front) + ("\"" + JsonBody(a)) && TrimRight(JsonBody(a)) == JsonBody(y)
    ensures Trim(head) == Before(front) + ("\"" + JsonBody(y))
  {
    HeadStart(front, "\"" + JsonBody(a), head);
    PrefixTrimmed(Before(front), JsonBody(a), head);
  }

  lemma OpenBody(front: seq<string>, y: string, body: string)
    requires body == Before(front) + ("\"" + JsonBody(y)) + "]"
    ensures ReadKeys(body, false) == None
  {
    if front == [] {
      OpenAlone("\"" + JsonBody(y), body);
      OpenKeyIsRefused(y);
    } else {
      Join4(Dotted(front), ".", "\"" + JsonBody(y), "]");
      OpenKeysAreRefused(front, y);
    }
  }

  lemma OpenAlone(open: string, body: string)
    requires body == "" + open + "]"
    ensures body == open + "]"
  {
  }

  /** What stands before the equals sign cannot be read as keys. */
  lemma OpenHeadIsRefused(front: seq<string>, a: string, head: string)
    requires head == Before(front) + ("\"" + JsonBody(a))
    ensures head != "" && !IsSpace(head[0]) && head[0] != '[' && TableKeys("[" + Trim(head) + "]") == None
  {
    HeadStart(front, "\"" + JsonBody(a), head);
    var y := TrimmedBody(a);
    HeadTrimmed(front, a, y, head);
    HeadStart(front, "\"" + JsonBody(y), Trim(head));
    OpenBody(front, y, Trim(head) + "]");
    PlainHeader(Trim(head) + "]", "[" + (Trim(head) + "]"));
    assert "[" + Trim(head) + "]" == "[" + (Trim(head) + "]");
  }

  lemma HeadEquals(front: seq<string>, a: string)
    requires '=' !in a && forall i :: 0 <= i < |front| ==> '=' !in front[i]
    ensures '=' !in Before(front) + ("\"" + JsonBody(a))
  {
    BeforeEquals(front);
    JsonEquals(a);
  }

  lemma OpenAssignment(sc: Scan, keys: seq<string>, rest: string, line: string, id: string)
    requires sc.state == Plain && keys != [] && exists i :: 0 <= i < |keys| && '=' in keys[i]
    requires line == Dotted(keys) + " " + "=" + rest
    ensures Step(sc, line, id).Some?
  {
    var front, a, tail := DottedOpen(keys);
    HeadEquals(front, a);
    Rejoined(Dotted(keys), Before(front) + ("\"" + JsonBody(a)), tail, rest, line);
    OpenHeadStep(sc, front, a, Before(front) + ("\"" + JsonBody(a)), tail + " " + "=" + rest, line, id);
  }

  lemma Rejoined(keys: string, head: string, tail: string, rest: string, line: string)
    requires keys == head + "=" + tail && line == keys + " " + "=" + rest
    ensures line == head + "=" + (tail + " " + "=" + rest)
  {
  }

  lemma OpenHeadStep(sc: Scan, front: seq<string>, a: string, head: string, rest: string, line: string, id: string)
    requires sc.state == Plain && head == Before(front) + ("\"" + JsonBody(a)) && '=' !in head && line == head + "=" + rest
    ensures Step(sc, line, id).Some?
  {
    OpenHeadIsRefused(front, a, head);
    AssignmentStep(sc, head, rest, line, id);
  }

  /** Outside strings an assignment printed from keys makes the scanner refuse exactly when it registers a server, under
      no table with the first key `mcp_servers` or under the table of that name with the id first, and no key has an
      equals sign: such a key is cut in two and the registration is not seen. */
  lemma InlineIsRefusedIff(sc: Scan, keys: seq<string>, rest: string, id: string)
    requires sc.state == Plain && keys != []
    ensures Step(sc, Dotted(keys) + " " + "=" + rest, id).None? <==>
            Registers(sc.table, keys[0], id) && forall i :: 0 <= i < |keys| ==> '=' !in keys[i]
  {
    if forall i :: 0 <= i < |keys| ==> '=' !in keys[i] {
      PlainAssignment(sc, keys, rest, Dotted(keys) + " " + "=" + rest, id);
    } else {
      OpenAssignment(sc, keys, rest, Dotted(keys) + " " + "=" + rest, id);
    }
  }

  /** A server whose id has an equals sign is registered inline, and the scanner goes on. */
  lemma EqualsInKeyIsMissed(rest: string)
    ensures var keys := ["mcp_servers", "a=b"];
            Registers([], keys[0], "a=b") && Step(START, Dotted(keys) + " " + "=" + rest, "a=b").Some?
  {
    var keys := ["mcp_servers", "a=b"];
    assert "a=b"[1] == '=' && '=' in keys[1];
    InlineIsRefusedIff(START, keys, rest, "a=b");
  }
}
