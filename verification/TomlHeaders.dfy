/** How the string state and the header parser of the TOML scanner fit together. */
module TomlHeaders {
  import opened Basics
  import opened Text
  import opened TomlText
  import opened TomlScan

  /** A character that is neither a quote, nor an escape, nor the start of a comment. */
  predicate Neutral(c: char) {
    !IsQuote(c) && c != '\\' && c != '#'
  }

  lemma {:induction false} StringEndGrows(s: string, c: char, q: char)
    requires Neutral(c) && IsQuote(q)
    ensures StringEnd(s, q) < |s| ==> StringEnd(s + [c], q) == StringEnd(s, q)
    ensures StringEnd(s, q) >= |s| ==> StringEnd(s + [c], q) >= |s| + 1
    decreases |s|
  {
    var t := s + [c];
    if s == "" {
      assert t[1..] == "";
    } else if s[0] != q {
      if q == '"' && s[0] == '\\' {
        if |s| >= 2 {
          assert Drop(t, 2) == Drop(s, 2) + [c];
          StringEndGrows(Drop(s, 2), c, q);
        } else {
          assert Drop(t, 2) == "" && Drop(s, 2) == "";
        }
      } else {
        assert t[1..] == s[1..] + [c];
        StringEndGrows(s[1..], c, q);
      }
    }
  }

  lemma {:induction false} RunGrows(s: string, c: char, q: char)
    requires c != q
    ensures RunLength(s + [c], q) == RunLength(s, q) <= |s|
  {
    if s == "" {
      assert s + [c] == [c];
    } else if s[0] == q {
      assert (s + [c])[1..] == s[1..] + [c];
      RunGrows(s[1..], c, q);
    }
  }

  lemma {:induction false} NeutralAfterInside(s: string, c: char, q: char)
    requires Neutral(c) && IsQuote(q)
    ensures StateAfter(s + [c], Inside(q)) == StateAfter(s, Inside(q))
    decreases |s|, 1
  {
    var t, st := s + [c], Inside(q);
    if s == "" {
      assert t == [c] && t[1..] == "";
    } else if q == '"' && s[0] == '\\' {
      if |s| >= 2 {
        assert Drop(t, 2) == Drop(s, 2) + [c];
        NeutralAfterInside(Drop(s, 2), c, q);
      }
    } else if HasPrefix(s, [q, q, q]) {
      assert t[..3] == s[..3] && t[3..] == s[3..] + [c];
      RunGrows(s[3..], c, q);
      var n := RunLength(s[3..], q);
      assert Drop(t[3..], n) == Drop(s[3..], n) + [c];
      NeutralAfterPlain(Drop(s[3..], n), c);
    } else {
      NoNewPrefix(s, c, q);
      assert t[1..] == s[1..] + [c];
      NeutralAfterInside(s[1..], c, q);
    }
  }

  lemma {:induction false} NeutralAfterPlain(s: string, c: char)
    requires Neutral(c)
    ensures StateAfter(s + [c], Plain) == StateAfter(s, Plain)
    decreases |s|, 1
  {
    var t := s + [c];
    if s == "" {
      assert t == [c] && t[1..] == "";
    } else if s[0] != '#' {
      assert t[1..] == s[1..] + [c];
      if !IsQuote(s[0]) {
        NeutralAfterPlain(s[1..], c);
      } else {
        NeutralAfterQuote(s, c, s[0]);
      }
    }
  }

  lemma {:induction false} NeutralAfterQuote(s: string, c: char, q: char)
    requires Neutral(c) && s != "" && s[0] == q && IsQuote(q)
    ensures StateAfter(s + [c], Plain) == StateAfter(s, Plain)
    decreases |s|, 0
  {
    var t := s + [c];
    if HasPrefix(s, [q, q, q]) {
      assert t[..3] == s[..3] && t[3..] == s[3..] + [c];
      NeutralAfterInside(s[3..], c, q);
    } else {
      NoNewPrefix(s, c, q);
      assert t[1..] == s[1..] + [c];
      NeutralAfterString(s[1..], c, q);
    }
  }

  /** The part after an opening quote. */
  lemma {:induction false} NeutralAfterString(tail: string, c: char, q: char)
    requires Neutral(c) && IsQuote(q)
    ensures StateAfter(Drop(tail + [c], StringEnd(tail + [c], q) + 1), Plain) ==
            StateAfter(Drop(tail, StringEnd(tail, q) + 1), Plain)
    decreases |tail|, 2
  {
    StringEndGrows(tail, c, q);
    var e := StringEnd(tail, q) + 1;
    if e <= |tail| {
      assert Drop(tail + [c], e) == Drop(tail, e) + [c];
      NeutralAfterPlain(Drop(tail, e), c);
    }
  }

  /** A neutral character at the end of a line, such as its newline, does not change the string state. */
  lemma NeutralAfter(s: string, c: char, st: StrState)
    requires Neutral(c) && (st.Inside? ==> IsQuote(st.quote))
    ensures StateAfter(s + [c], st) == StateAfter(s, st)
  {
    match st
    case Plain => NeutralAfterPlain(s, c);
    case Inside(q) => NeutralAfterInside(s, c, q);
  }

  lemma NoNewPrefix(s: string, c: char, q: char)
    requires c != q && !HasPrefix(s, [q, q, q])
    ensures !HasPrefix(s + [c], [q, q, q])
  {
    if |s| + 1 >= 3 {
      var t := s + [c];
      if |s| >= 3 {
        assert t[..3] == s[..3];
      } else {
        assert t[..3][2] == c;
      }
    }
  }

  /** Appending a newline to a line never changes the resulting string state. */
  lemma NewlineAfter(line: string, st: StrState)
    requires st.Inside? ==> IsQuote(st.quote)
    ensures StateAfter(line + "\n", st) == StateAfter(line, st)
  {
    NeutralAfter(line, '\n', st);
  }

  lemma {:induction false} NeutralBefore(p: string, s: string)
    requires forall i :: 0 <= i < |p| ==> Neutral(p[i])
    ensures StateAfter(p + s, Plain) == StateAfter(s, Plain)
  {
    if p == "" {
      assert p + s == s;
    } else {
      assert (p + s)[1..] == p[1..] + s;
      NeutralBefore(p[1..], s);
    }
  }

  lemma SpaceIsNeutral(c: char)
    ensures IsSpace(c) ==> Neutral(c)
  {
  }

  lemma {:induction false} TrimRightState(s: string)
    ensures StateAfter(TrimRight(s), Plain) == StateAfter(s, Plain)
  {
    if s != "" && IsSpace(s[|s| - 1]) {
      SpaceIsNeutral(s[|s| - 1]);
      assert s == s[..|s| - 1] + [s[|s| - 1]];
      NeutralAfter(s[..|s| - 1], s[|s| - 1], Plain);
      TrimRightState(s[..|s| - 1]);
    }
  }

  /** Outside a string, the white space around a text does not matter. */
  lemma TrimState(s: string)
    ensures StateAfter(Trim(s), Plain) == StateAfter(s, Plain)
  {
    TrimRightState(s);
    TrimLeftState(TrimRight(s));
  }

  lemma TrimLeftState(t: string)
    ensures StateAfter(TrimLeft(t), Plain) == StateAfter(t, Plain)
  {
    TrimLeftIsSuffix(t);
    SpacesBefore(t, |t| - |TrimLeft(t)|);
  }

  lemma SpacesBefore(t: string, n: nat)
    requires n <= |t| && forall k :: 0 <= k < n ==> IsSpace(t[k])
    ensures StateAfter(t[n..], Plain) == StateAfter(t, Plain)
  {
    forall i | 0 <= i < n ensures Neutral(t[..n][i]) {
      SpaceIsNeutral(t[i]);
    }
    NeutralBefore(t[..n], t[n..]);
    assert t == t[..n] + t[n..];
  }

  // ----- an accepted header leaves no string open -----

  lemma {:induction false} BareEndState(s: string, e: nat)
    requires e <= |s| && Bare(s[..e])
    ensures StateAfter(s, Plain) == StateAfter(s[e..], Plain)
  {
    forall i | 0 <= i < e ensures Neutral(s[..e][i]) {
      assert BareChar(s[..e][i]);
    }
    NeutralBefore(s[..e], s[e..]);
    assert s == s[..e] + s[e..];
  }

  lemma ClosedState(s: string, isArray: bool)
    requires Closes(s, isArray)
    ensures StateAfter(s, Plain) == Plain
  {
    var n := if isArray then 2 else 1;
    var rest := s[n..];
    assert s[..n] == if isArray then "]]" else "]";
    assert s == s[..n] + rest;
    NeutralBefore(s[..n], rest);
    TrimState(rest);
  }

  /** After a key that ReadKeys goes on from, only the rest of the header matters. */
  lemma ReadKeyState(s: string)
    requires s != "" && ReadKey(s).Some?
    requires var rest := Trim(ReadKey(s).value.1); rest != "" && (rest[0] == '.' || rest[0] == ']')
    ensures StateAfter(s, Plain) == StateAfter(ReadKey(s).value.1, Plain)
  {
    if IsQuote(s[0]) {
      var e := StringEnd(s[1..], s[0]);
      if HasPrefix(s, [s[0], s[0], s[0]]) {
        assert s[..3][1] == s[0] && s[..3][2] == s[0];
        assert e == 0;
        assert ReadKey(s).value.1 == s[2..] && s[2..][0] == s[0];
        TrimVisible(s[2..]);
        assert false;
      }
      assert Drop(s[1..], e + 1) == s[e + 2..];
    } else {
      BareEndState(s, BareEnd(s));
    }
  }

  /** One turn of the header loop. */
  lemma KeysTurn(s: string, isArray: bool, key: Key, rest: string)
    requires s != "" && ReadKey(s).Some? && ReadKey(s).value.0 == key && Trim(ReadKey(s).value.1) == rest
    ensures ReadKeys(s, isArray) ==
            if HasPrefix(rest, ".") then
              var more := ReadKeys(Trim(rest[1..]), isArray);
              if more.Some? then Some([key] + more.value) else None
            else if Closes(rest, isArray) then Some([key]) else None
  {
    assert HasPrefix(rest, ".") <==> rest != "" && rest[0] == '.';
  }

  lemma {:induction false} KeysState(s: string, isArray: bool)
    requires ReadKeys(s, isArray).Some?
    ensures StateAfter(s, Plain) == Plain
    decreases |s|
  {
    var after := ReadKey(s).value.1;
    var rest := Trim(after);
    KeysTurn(s, isArray, ReadKey(s).value.0, rest);
    assert HasPrefix(rest, ".") || Closes(rest, isArray);
    RestStart(rest, isArray);
    ReadKeyState(s);
    TrimState(after);
    if HasPrefix(rest, ".") {
      DotState(rest);
      TrimShrinks(after);
      TrimShrinks(rest[1..]);
      KeysState(Trim(rest[1..]), isArray);
    } else {
      ClosedState(rest, isArray);
    }
  }

  lemma RestStart(rest: string, isArray: bool)
    requires HasPrefix(rest, ".") || Closes(rest, isArray)
    ensures rest != "" && (rest[0] == '.' || rest[0] == ']')
  {
    if Closes(rest, isArray) {
      assert rest[0] == rest[..if isArray then 2 else 1][0];
    } else {
      assert rest[0] == rest[..1][0];
    }
  }

  lemma DotState(rest: string)
    requires HasPrefix(rest, ".")
    ensures StateAfter(rest, Plain) == StateAfter(Trim(rest[1..]), Plain)
  {
    assert rest == rest[..1] + rest[1..];
    NeutralBefore(rest[..1], rest[1..]);
    TrimState(rest[1..]);
  }

  lemma BracketState(s: string)
    requires HasPrefix(s, "[")
    ensures StateAfter(s, Plain) == StateAfter(Trim(s[1..]), Plain)
  {
    assert s == s[..1] + s[1..] && s[..1] == "[";
    NeutralBefore(s[..1], s[1..]);
    TrimState(s[1..]);
  }

  /** Any line accepted as a table header leaves the string state empty. */
  lemma AcceptedHeaderState(line: string)
    requires IsHeader(line, Plain) && TableKeys(Trim(line)).Some?
    ensures StateAfter(line, Plain) == Plain
  {
    var trim := Trim(line);
    TrimState(line);
    BracketState(trim);
    var s := Trim(trim[1..]);
    if HasPrefix(s, "[") {
      BracketState(s);
      KeysState(Trim(s[1..]), true);
    } else {
      KeysState(s, false);
    }
  }

  // ----- printing and parsing a header are inverse -----

  predicate PlainQuoted(s: string) {
    s == "" || (s[0] != '"' && s[0] != '\\' && PlainQuoted(s[1..]))
  }

  lemma JsonCharShape(c: char)
    ensures var j := JsonChar(c);
            || (|j| == 1 && j[0] != '"' && j[0] != '\\')
            || (|j| == 2 && j[0] == '\\')
            || (|j| == 6 && j[0] == '\\' && PlainQuoted(j[2..]))
  {
    var j := JsonChar(c);
    if |j| == 6 {
      assert j[2..] == [j[2], j[3], j[4], j[5]];
      if c < ' ' || c in "<>&" {
        assert j[4] == HexChar(c as int / 16) && j[5] == HexChar(c as int % 16);
        HexDigits(c as int / 16);
        HexDigits(c as int % 16);
      }
      PlainFour(j[2], j[3], j[4], j[5]);
    }
  }

  lemma PlainFour(a: char, b: char, c: char, d: char)
    requires a != '"' && a != '\\' && b != '"' && b != '\\' && c != '"' && c != '\\' && d != '"' && d != '\\'
    ensures PlainQuoted([a, b, c, d])
  {
    assert [a, b, c, d][1..] == [b, c, d] && [b, c, d][1..] == [c, d] && [c, d][1..] == [d] && [d][1..] == "";
    assert PlainQuoted([d]) && PlainQuoted([c, d]) && PlainQuoted([b, c, d]);
  }

  lemma {:induction false} StringEndPlain(p: string, t: string)
    requires PlainQuoted(p)
    ensures StringEnd(p + t, '"') == |p| + StringEnd(t, '"')
  {
    if p == "" {
      assert p + t == t;
    } else {
      assert (p + t)[1..] == p[1..] + t;
      StringEndPlain(p[1..], t);
    }
  }

  /** The closing quote of a JSON string is found where it is. */
  lemma {:induction false} StringEndOfJson(s: string, t: string)
    ensures StringEnd(JsonBody(s) + "\"" + t, '"') == |JsonBody(s)|
  {
    var whole := JsonBody(s) + "\"" + t;
    if s == "" {
      assert whole[0] == '"';
    } else {
      var j := JsonChar(s[0]);
      var rest := JsonBody(s[1..]) + "\"" + t;
      assert whole == j + rest;
      StringEndOfJson(s[1..], t);
      JsonCharShape(s[0]);
      if |j| == 1 {
        assert whole[1..] == rest;
      } else {
        assert Drop(whole, 2) == j[2..] + rest;
        if |j| == 2 {
          assert j[2..] + rest == rest;
        } else {
          StringEndPlain(j[2..], rest);
        }
      }
    }
  }

  /** A JSON string is skipped as a whole, unless a further quote follows an empty one. */
  lemma JsonState(s: string, t: string)
    requires t == "" || t[0] != '"'
    ensures StateAfter(JsonQuote(s) + t, Plain) == StateAfter(t, Plain)
  {
    StringEndOfJson(s, t);
    JsonNotTriple(s, t);
    QuotedState(JsonBody(s), t, JsonQuote(s) + t);
  }

  lemma QuotedState(body: string, t: string, whole: string)
    requires whole == "\"" + body + "\"" + t && !HasPrefix(whole, ['"', '"', '"'])
    requires StringEnd(body + "\"" + t, '"') == |body|
    ensures StateAfter(whole, Plain) == StateAfter(t, Plain)
  {
    assert whole[1..] == body + "\"" + t;
    assert Drop(whole[1..], |body| + 1) == t;
  }

  lemma JsonNotTriple(s: string, t: string)
    requires t == "" || t[0] != '"'
    ensures !HasPrefix(JsonQuote(s) + t, ['"', '"', '"'])
  {
    var whole := JsonQuote(s) + t;
    if s == "" {
      assert whole == "\"\"" + t;
      assert |whole| >= 3 ==> whole[..3][2] == t[0];
    } else {
      JsonCharShape(s[0]);
      assert whole[1] == JsonChar(s[0])[0];
      assert |whole| >= 3 ==> whole[..3][1] == whole[1];
    }
  }

  lemma {:induction false} BareEndOf(p: string, t: string)
    requires (forall i :: 0 <= i < |p| ==> BareChar(p[i])) && t != "" && t[0] in ".] \t"
    ensures BareEnd(p + t) == |p|
  {
    if p == "" {
      assert p + t == t;
    } else {
      assert (p + t)[1..] == p[1..] + t;
      BareEndOf(p[1..], t);
    }
  }

  lemma ReadBare(id: string, t: string)
    requires Bare(id) && t != "" && t[0] in ".] \t"
    ensures ReadKey(id + t) == Some((Utf8(id), t))
  {
    var s := id + t;
    assert BareChar(id[0]);
    BareEndOf(id, t);
    assert s[..|id|] == id && s[|id|..] == t;
  }

  lemma ReadQuoted(id: string, t: string)
    ensures ReadKey(JsonQuote(id) + t) == Some((Utf8(id), t))
  {
    StringEndOfJson(id, t);
    UnquoteUndoesQuote(id);
    ReadClosed(JsonQuote(id) + t, JsonBody(id), t);
  }

  lemma ReadClosed(s: string, body: string, t: string)
    requires s == "\"" + body + "\"" + t && StringEnd(body + "\"" + t, '"') == |body|
    ensures ReadKey(s) == if Unquote(body).None? then None else Some((Unquote(body).value, t))
  {
    assert s[1..] == body + "\"" + t;
    assert s[1..|body| + 1] == body && s[|body| + 2..] == t;
  }

  /** Reading a printed key gives the key and what follows it. */
  lemma ReadPrintedKey(id: string, t: string)
    requires t != "" && t[0] in ".] \t"
    ensures TomlKey(id) + t != "" && ReadKey(TomlKey(id) + t) == Some((Utf8(id), t))
  {
    if Bare(id) {
      ReadBare(id, t);
    } else {
      ReadQuoted(id, t);
    }
  }

  function Header(id: string): string {
    "[mcp_servers." + TomlKey(id) + "]"
  }

  lemma LastKey(id: string)
    ensures ReadKeys(TomlKey(id) + "]", false) == Some([Utf8(id)])
  {
    ReadPrintedKey(id, "]");
    TrimVisible("]");
    assert "]"[1..] == "" && "]"[..1] == "]";
    KeysTurn(TomlKey(id) + "]", false, Utf8(id), "]");
  }

  lemma DottedKeys(s: string, first: Key, more: string, keys: seq<Key>)
    requires s != "" && ReadKey(s) == Some((first, "." + more))
    requires more != "" && Trim(more) == more && Trim("." + more) == "." + more
    requires ReadKeys(more, false) == Some(keys)
    ensures ReadKeys(s, false) == Some([first] + keys)
  {
    var t := "." + more;
    assert t[1..] == more && t[..1] == ".";
    KeysTurn(s, false, first, t);
  }

  lemma TwoKeys(first: string, id: string)
    requires Bare(first)
    ensures ReadKeys(first + ("." + (TomlKey(id) + "]")), false) == Some([Utf8(first), Utf8(id)])
  {
    var key := TomlKey(id) + "]";
    ReadBare(first, "." + key);
    KeyHeadVisible(id);
    TrimVisible("." + key);
    TrimVisible(key);
    LastKey(id);
    DottedKeys(first + ("." + key), Utf8(first), key, [Utf8(id)]);
    assert [Utf8(first)] + [Utf8(id)] == [Utf8(first), Utf8(id)];
  }

  lemma TwoKeyHeader(first: string, id: string)
    requires Bare(first)
    ensures var h := "[" + first + ("." + (TomlKey(id) + "]"));
            TableKeys(h) == Some([Utf8(first), Utf8(id)]) && Trim(h) == h
  {
    var s := first + ("." + (TomlKey(id) + "]"));
    var h := "[" + s;
    assert h[1..] == s && h[..1] == "[";
    TrimVisible(h);
    assert BareChar(s[0]);
    TrimVisible(s);
    assert s[..1][0] == first[0];
    TwoKeys(first, id);
    assert "[" + first + ("." + (TomlKey(id) + "]")) == h;
  }

  lemma HeaderShape(id: string)
    ensures Header(id) == "[" + "mcp_servers" + ("." + (TomlKey(id) + "]"))
  {
    assert "[mcp_servers." == "[" + "mcp_servers" + ".";
    Regroup("[", "mcp_servers", ".", TomlKey(id), "]");
  }

  lemma Regroup(a: string, b: string, c: string, d: string, e: string)
    ensures a + b + c + d + e == a + b + (c + (d + e))
  {
  }

  lemma McpIsBare()
    ensures Bare("mcp_servers")
  {
  }

  /** The printed header of any id is read back as exactly the two keys, and it trims to itself. */
  lemma HeaderRoundTrip(id: string)
    ensures TableKeys(Header(id)) == Some([MCP(), Utf8(id)])
    ensures Trim(Header(id)) == Header(id)
  {
    McpIsBare();
    TwoKeyHeader("mcp_servers", id);
    HeaderShape(id);
  }

  lemma KeyHeadVisible(id: string)
    ensures TomlKey(id) != "" && !IsSpace(TomlKey(id)[0])
  {
    if Bare(id) {
      assert BareChar(id[0]);
    }
  }
}
