/** What an installed stanza says when it is read, and which tables the scanner recognises, said over headers that
    are printed from given keys. */
module TomlReading {
  import opened Basics
  import opened Text
  import opened TomlText
  import opened TomlScan
  import opened TomlHeaders
  import opened TomlStrip
  import opened TomlInstall
  import TomlOthers

  // ----- reading values -----

  /** A string in double quotes, decoded, and the text after it. */
  function ReadText(s: string): (r: Option<(Key, string)>)
    ensures r.Some? ==> |r.value.1| < |s|
  {
    if s == "" || s[0] != '"' then None else ReadKey(s)
  }

  /** The rest of a list of strings, and the text after it. */
  function ReadItems(s: string): Option<(seq<Key>, string)>
    decreases |s|
  {
    if s == "" then None
    else if s[0] == ']' then Some(([], s[1..]))
    else
      var one := ReadText(s);
      if one.None? || one.value.1 == "" then None
      else if one.value.1[0] == ']' then Some(([one.value.0], one.value.1[1..]))
      else if one.value.1[0] != ',' then None
      else
        var more := ReadItems(one.value.1[1..]);
        if more.None? then None else Some(([one.value.0] + more.value.0, more.value.1))
  }

  function ReadList(s: string): Option<(seq<Key>, string)> {
    if s == "" || s[0] != '[' then None else ReadItems(s[1..])
  }

  function Bytes(texts: seq<string>): seq<Key> {
    seq(|texts|, i requires 0 <= i < |texts| => Utf8(texts[i]))
  }

  lemma TextReadsBack(v: string, t: string)
    ensures ReadText(JsonQuote(v) + t) == Some((Utf8(v), t))
  {
    ReadQuoted(v, t);
  }

  /** One turn of the list: the next text and what follows it. */
  lemma ItemsTurn(s: string, key: Key, after: string)
    requires s != "" && s[0] != ']' && ReadText(s) == Some((key, after)) && after != ""
    ensures after[0] == ']' ==> ReadItems(s) == Some(([key], after[1..]))
    ensures after[0] == ',' ==>
              ReadItems(s) ==
              var more := ReadItems(after[1..]); if more.Some? then Some(([key] + more.value.0, more.value.1)) else None
  {
  }

  lemma LastItem(item: string, t: string, s: string)
    requires s == JsonQuote(item) + ("]" + t)
    ensures ReadItems(s) == Some(([Utf8(item)], t))
  {
    TextReadsBack(item, "]" + t);
    QuoteHead(item, "]" + t);
    ItemsTurn(s, Utf8(item), "]" + t);
    assert ("]" + t)[1..] == t;
  }

  lemma QuoteHead(item: string, t: string)
    ensures JsonQuote(item) + t != "" && (JsonQuote(item) + t)[0] == '"'
  {
  }

  lemma NextItem(item: string, rest: string, s: string, keys: seq<Key>, t: string)
    requires s == JsonQuote(item) + ("," + rest) && ReadItems(rest) == Some((keys, t))
    ensures ReadItems(s) == Some(([Utf8(item)] + keys, t))
  {
    TextReadsBack(item, "," + rest);
    QuoteHead(item, "," + rest);
    ItemsTurn(s, Utf8(item), "," + rest);
    assert ("," + rest)[1..] == rest;
  }

  lemma ItemsText(args: seq<string>, t: string)
    requires args != []
    ensures JsonItems(args) + t == JsonQuote(args[0]) + if |args| == 1 then "]" + t else "," + (JsonItems(args[1..]) + t)
  {
    var q := JsonQuote(args[0]);
    if |args| > 1 {
      Join3(q, ",", JsonItems(args[1..]), t);
    }
  }

  lemma NoItems(s: string, t: string)
    requires s == "]" + t
    ensures ReadItems(s) == Some(([], t))
  {
    assert s[1..] == t;
  }

  lemma {:induction false} ItemsReadBack(args: seq<string>, t: string)
    ensures ReadItems(JsonItems(args) + t) == Some((Bytes(args), t))
  {
    if args == [] {
      NoItems(JsonItems(args) + t, t);
      assert Bytes(args) == [];
    } else {
      ItemsText(args, t);
      BytesParts(args);
      if |args| == 1 {
        LastItem(args[0], t, JsonItems(args) + t);
        assert Bytes(args[1..]) == [] && [Utf8(args[0])] + [] == [Utf8(args[0])];
      } else {
        ItemsReadBack(args[1..], t);
        NextItem(args[0], JsonItems(args[1..]) + t, JsonItems(args) + t, Bytes(args[1..]), t);
      }
    }
  }

  /** A printed list is read back as all its texts, in order. */
  lemma ListReadsBack(args: seq<string>, t: string)
    ensures ReadList(JsonList(args) + t) == Some((Bytes(args), t))
  {
    assert (JsonList(args) + t)[1..] == JsonItems(args) + t;
    ItemsReadBack(args, t);
  }

  // ----- reading a stanza -----

  lemma CommandReadsBack(bin: string, line: string)
    requires line == CommandLine(bin)
    ensures HasPrefix(line, "command = ") && ReadText(line[10..]) == Some((Utf8(bin), "\n"))
  {
    assert line == "command = " + (JsonQuote(bin) + "\n");
    assert line[10..] == JsonQuote(bin) + "\n";
    TextReadsBack(bin, "\n");
  }

  lemma ArgsReadBack(args: seq<string>, line: string)
    requires line == ArgsLine(args)
    ensures HasPrefix(line, "args = ") && ReadList(line[7..]) == Some((Bytes(args), "\n"))
  {
    assert line == "args = " + (JsonList(args) + "\n");
    assert line[7..] == JsonList(args) + "\n";
    ListReadsBack(args, "\n");
  }

  /** The lines of a stanza: a header of the two keys, a command that reads as the binary, arguments that read as the
      whole list, and the environment exactly without the safe flag. */
  ghost predicate ReadsAs(lines: seq<string>, bin: string, id: string, args: seq<string>) {
    && |lines| == (if "--safe" in args then 3 else 4)
    && TableKeys(Trim(lines[0])) == Some([Utf8("mcp_servers"), Utf8(id)])
    && HasPrefix(lines[1], "command = ") && ReadText(lines[1][10..]) == Some((Utf8(bin), "\n"))
    && HasPrefix(lines[2], "args = ") && ReadList(lines[2][7..]) == Some((Bytes(args), "\n"))
    && ("--safe" !in args ==> lines[3] == "env = { SL_DBG_INSECURE = \"1\" }\n")
  }

  lemma HeaderReads(id: string, line: string)
    requires line == Header(id) + "\n"
    ensures TableKeys(Trim(line)) == Some([Utf8("mcp_servers"), Utf8(id)])
  {
    HeaderLine(id, line);
  }

  lemma StanzaReadsAs(bin: string, id: string, args: seq<string>)
    ensures ReadsAs(StanzaLines(bin, id, args), bin, id, args)
  {
    HeaderReads(id, Header(id) + "\n");
    CommandReadsBack(bin, CommandLine(bin));
    ArgsReadBack(args, ArgsLine(args));
  }

  lemma AllAreFull(lines: seq<string>, h: string, c: string, a: string, e: string, safe: bool)
    requires lines == [h, c, a] + (if safe then [] else [e])
    requires FullLine(h) && FullLine(c) && FullLine(a) && FullLine(e)
    ensures forall i :: 0 <= i < |lines| ==> FullLine(lines[i])
  {
  }

  lemma BodyIsFull(line: string)
    requires BodyLine(line)
    ensures FullLine(line)
  {
  }

  lemma HeaderIsFull(id: string)
    ensures FullLine(Header(id) + "\n")
  {
    KeyOneLine(id);
    OneNewline(Header(id));
  }

  lemma CommandIsFull(bin: string)
    ensures FullLine(CommandLine(bin))
  {
    CommandLineBody(bin);
    BodyIsFull(CommandLine(bin));
  }

  lemma ArgsAreFull(args: seq<string>)
    ensures FullLine(ArgsLine(args))
  {
    ArgsLineBody(args);
    BodyIsFull(ArgsLine(args));
  }

  lemma EnvIsFull()
    ensures FullLine(ENV_LINE)
  {
    EnvLineBody();
    BodyIsFull(ENV_LINE);
  }

  lemma StanzaIsFull(bin: string, id: string, args: seq<string>)
    ensures forall i :: 0 <= i < |StanzaLines(bin, id, args)| ==> FullLine(StanzaLines(bin, id, args)[i])
  {
    HeaderIsFull(id);
    CommandIsFull(bin);
    ArgsAreFull(args);
    EnvIsFull();
    AllAreFull(StanzaLines(bin, id, args), Header(id) + "\n", CommandLine(bin), ArgsLine(args), ENV_LINE, "--safe" in args);
  }

  /** The text an installation writes: what was kept, ended and followed by one empty line unless it is empty, and the
      lines of a stanza that reads as the binary, the id and the arguments. */
  lemma InstallReadsBack(s: string, id: string, bin: string, args: seq<string>, force: bool)
    returns (kept: seq<string>, lines: seq<string>)
    requires Install(s, id, bin, args, force).Some?
    ensures Strip(s, id).Some?
    ensures SplitAfter(Install(s, id, bin, args, force).value) == kept + lines + [""] && ReadsAs(lines, bin, id, args)
    ensures var before := Strip(s, id).value.0;
            && (before == "" ==> Concat(kept) == "")
            && (before != "" && before[|before| - 1] == '\n' ==> Concat(kept) == before + "\n")
            && (before != "" && before[|before| - 1] != '\n' ==> Concat(kept) == before + "\n\n")
  {
    var before := Strip(s, id).value.0;
    StripIdempotent(s, id);
    kept := PaddedScan(before, id);
    lines := StanzaLines(bin, id, args);
    StanzaReadsAs(bin, id, args);
    StanzaIsFull(bin, id, args);
    AllFull(kept, lines);
    ConcatBoth(kept, lines);
    SplitConcat(kept + lines, "");
    SplitOneLine("");
    assert Concat(kept + lines) + "" == Install(s, id, bin, args, force).value;
  }

  lemma AllFull(a: seq<string>, b: seq<string>)
    requires (forall i :: 0 <= i < |a| ==> FullLine(a[i])) && forall i :: 0 <= i < |b| ==> FullLine(b[i])
    ensures forall i :: 0 <= i < |a + b| ==> FullLine((a + b)[i])
  {
  }

  lemma {:induction false} ConcatBoth(a: seq<string>, b: seq<string>)
    ensures Concat(a + b) == Concat(a) + Concat(b)
  {
    if b == [] {
      assert a + b == a;
    } else {
      var n := |b| - 1;
      ConcatBoth(a, b[..n]);
      assert a + b == a + b[..n] + [b[n]];
      ConcatSnoc(a + b[..n], b[n]);
    }
  }

  // ----- printed headers -----

  /** Keys joined by dots. */
  function Dotted(keys: seq<string>): string
    requires keys != []
  {
    TomlKey(keys[0]) + if |keys| == 1 then "" else "." + Dotted(keys[1..])
  }

  lemma DottedHead(keys: seq<string>)
    requires keys != []
    ensures Dotted(keys) != "" && !IsSpace(Dotted(keys)[0]) && Dotted(keys)[0] != '[' && Dotted(keys)[0] == TomlKey(keys[0])[0]
  {
    KeyHeadVisible(keys[0]);
    assert Bare(keys[0]) ==> BareChar(keys[0][0]);
  }

  lemma LastDotted(key: string, t: string, isArray: bool)
    requires t != "" && t[0] == ']' && !IsSpace(t[|t| - 1])
    ensures ReadKeys(TomlKey(key) + t, isArray) == if Closes(t, isArray) then Some([Utf8(key)]) else None
  {
    ReadPrintedKey(key, t);
    TrimVisible(t);
    KeysTurn(TomlKey(key) + t, isArray, Utf8(key), t);
    assert t[..1][0] != '.';
  }

  lemma MoreDotted(key: string, more: string, isArray: bool)
    requires more != "" && !IsSpace(more[0]) && !IsSpace(more[|more| - 1])
    ensures ReadKeys(TomlKey(key) + ("." + more), isArray) ==
            var rest := ReadKeys(more, isArray); if rest.Some? then Some([Utf8(key)] + rest.value) else None
  {
    ReadPrintedKey(key, "." + more);
    MoreKeys(TomlKey(key) + ("." + more), isArray, Utf8(key), more);
  }

  lemma DottedParts(keys: seq<string>, t: string)
    requires |keys| > 1
    ensures Dotted(keys) + t == TomlKey(keys[0]) + ("." + (Dotted(keys[1..]) + t))
  {
    Join3(TomlKey(keys[0]), ".", Dotted(keys[1..]), t);
  }

  lemma Join3(a: string, b: string, c: string, d: string)
    ensures a + (b + c) + d == a + (b + (c + d))
  {
  }

  lemma Join4(a: string, b: string, c: string, d: string)
    ensures a + b + c + d == a + (b + (c + d))
  {
  }

  lemma BytesParts(keys: seq<string>)
    requires keys != []
    ensures Bytes(keys) == [Utf8(keys[0])] + Bytes(keys[1..])
  {
  }

  lemma DottedOne(keys: seq<string>)
    requires |keys| == 1
    ensures Dotted(keys) == TomlKey(keys[0]) && Bytes(keys) == [Utf8(keys[0])]
  {
  }

  lemma DottedStep(keys: seq<string>, t: string, isArray: bool, closed: bool)
    requires |keys| > 1 && t != "" && !IsSpace(t[|t| - 1])
    requires ReadKeys(Dotted(keys[1..]) + t, isArray) == if closed then Some(Bytes(keys[1..])) else None
    ensures ReadKeys(Dotted(keys) + t, isArray) == if closed then Some(Bytes(keys)) else None
  {
    DottedParts(keys, t);
    BytesParts(keys);
    DottedHead(keys[1..]);
    MoreDotted(keys[0], Dotted(keys[1..]) + t, isArray);
  }

  /** Keys are read up to a closing bracket, whatever follows it. */
  lemma {:induction false} ReadDotted(keys: seq<string>, t: string, isArray: bool)
    requires keys != [] && t != "" && t[0] == ']' && !IsSpace(t[|t| - 1])
    ensures ReadKeys(Dotted(keys) + t, isArray) == if Closes(t, isArray) then Some(Bytes(keys)) else None
    decreases |keys|
  {
    if |keys| == 1 {
      DottedOne(keys);
      LastDotted(keys[0], t, isArray);
    } else {
      ReadDotted(keys[1..], t, isArray);
      DottedStep(keys, t, isArray, Closes(t, isArray));
    }
  }

  lemma MoreKeys(s: string, isArray: bool, key: Key, more: string)
    requires s != "" && ReadKey(s) == Some((key, "." + more))
    requires more != "" && !IsSpace(more[0]) && !IsSpace(more[|more| - 1])
    ensures ReadKeys(s, isArray) ==
            var rest := ReadKeys(more, isArray); if rest.Some? then Some([key] + rest.value) else None
  {
    TrimVisible("." + more);
    TrimVisible(more);
    assert ("." + more)[1..] == more && ("." + more)[..1] == ".";
    KeysTurn(s, isArray, key, "." + more);
  }

  function HeaderOf(keys: seq<string>, isArray: bool): string
    requires keys != []
  {
    if isArray then "[[" + Dotted(keys) + "]]" else "[" + Dotted(keys) + "]"
  }

  lemma Closers()
    ensures Closes("]", false) && Closes("]]", true)
  {
    assert "]"[..1] == "]" && "]"[1..] == "" && "]]"[..2] == "]]" && "]]"[2..] == "";
  }

  lemma PlainHeader(body: string, h: string)
    requires h == "[" + body && body != "" && body[0] != '[' && !IsSpace(body[0]) && !IsSpace(body[|body| - 1])
    ensures TableKeys(h) == ReadKeys(body, false) && Trim(h) == h && HasPrefix(h, "[")
  {
    TrimVisible(body);
    TrimVisible(h);
    assert h[1..] == body && h[..1] == "[" && body[..1] != "[";
  }

  lemma ArrayKeys(h: string, inner: string, body: string)
    requires HasPrefix(h, "[") && Trim(h[1..]) == inner && HasPrefix(inner, "[") && Trim(inner[1..]) == body
    ensures TableKeys(h) == ReadKeys(body, true)
  {
  }

  lemma ArrayHeader(body: string, h: string)
    requires h == "[[" + body && body != "" && !IsSpace(body[0]) && !IsSpace(body[|body| - 1])
    ensures TableKeys(h) == ReadKeys(body, true) && Trim(h) == h && HasPrefix(h, "[")
  {
    var inner := "[" + body;
    TrimVisible(body);
    TrimVisible(h);
    TrimVisible(inner);
    assert h[1..] == inner && inner[1..] == body && h[..1] == "[" == inner[..1];
    ArrayKeys(h, inner, body);
  }

  /** A header printed from keys is read as these keys. */
  lemma HeaderOfKeys(keys: seq<string>, isArray: bool, h: string)
    requires keys != [] && h == HeaderOf(keys, isArray)
    ensures TableKeys(h) == Some(Bytes(keys)) && Trim(h) == h && HasPrefix(h, "[")
  {
    DottedHead(keys);
    Closers();
    if isArray {
      ReadDotted(keys, "]]", true);
      assert h == "[[" + (Dotted(keys) + "]]");
      ArrayHeader(Dotted(keys) + "]]", h);
    } else {
      ReadDotted(keys, "]", false);
      assert h == "[" + (Dotted(keys) + "]");
      PlainHeader(Dotted(keys) + "]", h);
    }
  }

  /** The keys name the server's own table or one inside it. */
  predicate NamesServer(keys: seq<string>, id: string) {
    |keys| >= 2 && keys[0] == "mcp_servers" && keys[1] == id
  }

  lemma NamesIff(keys: seq<string>, id: string)
    ensures Names(Bytes(keys), id) <==> NamesServer(keys, id)
  {
    if Names(Bytes(keys), id) {
      TomlOthers.Utf8Injective(keys[0], "mcp_servers");
      TomlOthers.Utf8Injective(keys[1], id);
    }
  }

  lemma HeaderTaken(sc: Scan, line: string, keys: seq<Key>, id: string)
    requires sc.state == Plain && IsHeader(line, Plain) && StateAfter(line, Plain) == Plain && TableKeys(Trim(line)) == Some(keys)
    ensures var skip := Names(keys, id);
            Step(sc, line, id) == Some(Scan(keys, skip, sc.found || skip, Plain, if skip then sc.out else sc.out + line))
  {
  }

  /** Outside strings a header line printed from keys, of a table or of an array of tables, opens a table that is removed
      exactly when its first two keys are `mcp_servers` and the id, nested tables included. */
  lemma TablesAreRecognised(sc: Scan, keys: seq<string>, isArray: bool, id: string)
    requires sc.state == Plain && keys != []
    ensures var line, skip := HeaderOf(keys, isArray) + "\n", NamesServer(keys, id);
            Step(sc, line, id) ==
            Some(Scan(Bytes(keys), skip, sc.found || skip, Plain, if skip then sc.out else sc.out + line))
  {
    var h := HeaderOf(keys, isArray);
    HeaderOfKeys(keys, isArray, h);
    TrimAfter(h, '\n');
    AcceptedHeaderState(h + "\n");
    NamesIff(keys, id);
    HeaderTaken(sc, h + "\n", Bytes(keys), id);
  }

  /** A header with something other than a comment after it makes the scanner refuse. */
  lemma TrailingTextIsRefused(sc: Scan, keys: seq<string>, junk: string, id: string)
    requires sc.state == Plain && keys != [] && junk != "" && junk[0] != '#'
    requires !IsSpace(junk[0]) && !IsSpace(junk[|junk| - 1])
    ensures Step(sc, "[" + Dotted(keys) + "]" + junk + "\n", id) == None
  {
    JunkLine(keys, junk, "[" + Dotted(keys) + "]" + junk + "\n");
    HeaderRefused(sc, "[" + Dotted(keys) + "]" + junk + "\n", id);
  }

  lemma JunkLine(keys: seq<string>, junk: string, line: string)
    requires keys != [] && junk != "" && junk[0] != '#' && !IsSpace(junk[0]) && !IsSpace(junk[|junk| - 1])
    requires line == "[" + Dotted(keys) + "]" + junk + "\n"
    ensures IsHeader(line, Plain) && TableKeys(Trim(line)) == None
  {
    var h := "[" + (Dotted(keys) + ("]" + junk));
    JunkIsRefused(keys, junk, h);
    TrimAfter(h, '\n');
    Join4("[", Dotted(keys), "]", junk);
    assert line == h + ['\n'];
  }

  lemma HeaderRefused(sc: Scan, line: string, id: string)
    requires IsHeader(line, sc.state) && TableKeys(Trim(line)) == None
    ensures Step(sc, line, id) == None
  {
  }

  lemma JunkIsRefused(keys: seq<string>, junk: string, h: string)
    requires keys != [] && junk != "" && junk[0] != '#' && !IsSpace(junk[0]) && !IsSpace(junk[|junk| - 1])
    requires h == "[" + (Dotted(keys) + ("]" + junk))
    ensures TableKeys(h) == None && Trim(h) == h && HasPrefix(h, "[")
  {
    var t := "]" + junk;
    DottedHead(keys);
    assert t[..1] == "]" && t[1..] == junk;
    TrimVisible(junk);
    ReadDotted(keys, t, false);
    PlainHeader(Dotted(keys) + t, h);
  }
}
