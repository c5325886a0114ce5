/** Registering a server in a TOML text, and taking the registration out again. */
module TomlInstall {
  import opened Basics
  import opened Text
  import opened TomlText
  import opened TomlScan
  import opened TomlHeaders
  import opened TomlStrip

  function ArgsLine(args: seq<string>): string {
    "args = " + JsonList(args) + "\n"
  }

  function CommandLine(bin: string): string {
    "command = " + JsonQuote(bin) + "\n"
  }

  const ENV_LINE := "env = { SL_DBG_INSECURE = \"1\" }\n"

  function StanzaLines(bin: string, id: string, args: seq<string>): seq<string> {
    [Header(id) + "\n", CommandLine(bin), ArgsLine(args)] + (if "--safe" in args then [] else [ENV_LINE])
  }

  function Stanza(bin: string, id: string, args: seq<string>): string {
    Concat(StanzaLines(bin, id, args))
  }

  /** What comes between a text and a new stanza: it ends the last line and leaves one empty line. */
  function Padding(s: string): string {
    if s == "" then "" else if s[|s| - 1] == '\n' then "\n" else "\n\n"
  }

  function Pad(s: string): string {
    s + Padding(s)
  }

  /** The text after an installation; None if the scanner refuses, or the id is taken and not forced. */
  function Install(s: string, id: string, bin: string, args: seq<string>, force: bool): Option<string> {
    var stripped := Strip(s, id);
    if stripped.None? || (stripped.value.1 && !force) then None
    else Some(Pad(stripped.value.0) + Stanza(bin, id, args))
  }

  /** The text after an uninstallation; None if the scanner refuses. */
  function Uninstall(s: string, id: string): Option<string> {
    var stripped := Strip(s, id);
    if stripped.None? then None else Some(if stripped.value.1 then stripped.value.0 else s)
  }

  // ----- the lines of a stanza -----

  lemma JsonLine(head: string, tail: string)
    requires head != "" && (forall i :: 0 <= i < |head| ==> Neutral(head[i]))
    requires StateAfter(tail, Plain) == Plain
    ensures StateAfter(head + tail, Plain) == Plain
  {
    NeutralBefore(head, tail);
  }

  lemma LastItemState(item: string)
    ensures StateAfter(JsonQuote(item) + "]" + "\n", Plain) == Plain
  {
    NeutralBefore("]\n", "");
    assert "]\n" + "" == "]\n" == "]" + "\n";
    JsonState(item, "]\n");
    assert JsonQuote(item) + "]" + "\n" == JsonQuote(item) + "]\n";
  }

  lemma ItemState(item: string, rest: string)
    ensures StateAfter(JsonQuote(item) + ("," + rest), Plain) == StateAfter(rest, Plain)
  {
    JsonState(item, "," + rest);
    NeutralBefore(",", rest);
  }

  lemma {:induction false} ItemsState(args: seq<string>)
    ensures StateAfter(JsonItems(args) + "\n", Plain) == Plain
    decreases |args|
  {
    if args == [] {
      NeutralBefore("]\n", "");
      assert "]\n" + "" == "]\n" == "]" + "\n";
    } else if |args| == 1 {
      LastItemState(args[0]);
    } else {
      ItemsState(args[1..]);
      ItemState(args[0], JsonItems(args[1..]) + "\n");
      assert JsonItems(args) + "\n" == JsonQuote(args[0]) + ("," + (JsonItems(args[1..]) + "\n"));
    }
  }

  /** A line of the table body: one line, no header, and no string left open. */
  predicate BodyLine(line: string) {
    FullLine(line) && !HasPrefix(Trim(line), "[") && StateAfter(line, Plain) == Plain
  }

  lemma PlainBody(head: char, line: string)
    requires line != "" && line[0] == head && head != '[' && !IsSpace(head)
    ensures !HasPrefix(Trim(line), "[")
  {
    TrimVisible(line);
    var t := Trim(line);
    assert t[..1][0] == head;
  }

  lemma OneNewline(s: string)
    requires '\n' !in s
    ensures FullLine(s + "\n")
  {
    forall i | 0 <= i < |s| ensures (s + "\n")[i] != '\n' {
      assert (s + "\n")[i] == s[i] && s[i] in s;
    }
    IndexOfUnique(s + "\n", '\n', |s|);
  }

  /** A visible head without quotes, escapes and comments, and a tail that leaves no string open. */
  lemma BodyFrom(head: string, tail: string, line: string)
    requires line == head + tail + "\n"
    requires head != "" && head[0] != '[' && !IsSpace(head[0]) && '\n' !in head && '\n' !in tail
    requires forall i :: 0 <= i < |head| ==> Neutral(head[i])
    requires StateAfter(tail + "\n", Plain) == Plain
    ensures BodyLine(line)
  {
    OneNewline(head + tail);
    PlainBody(head[0], line);
    JsonLine(head, tail + "\n");
    assert line == head + (tail + "\n");
  }

  predicate HeadOk(head: string) {
    head != "" && head[0] != '[' && !IsSpace(head[0]) && '\n' !in head && forall i :: 0 <= i < |head| ==> Neutral(head[i])
  }

  lemma CommandHead()
    ensures HeadOk("command = ")
  {
  }

  lemma ArgsHead()
    ensures HeadOk("args = [")
  {
  }

  lemma EnvHead()
    ensures HeadOk("env = { SL_DBG_INSECURE = ")
  {
    assert '\n' !in "env = { SL_DBG_INSECURE = ";
  }

  lemma EndState(s: string)
    requires forall i :: 0 <= i < |s| ==> Neutral(s[i])
    ensures StateAfter(s, Plain) == Plain
  {
    NeutralBefore(s, "");
    assert s + "" == s;
  }

  lemma QuotedBody(head: string, value: string, tail: string)
    requires HeadOk(head)
    requires (tail == "" || tail[0] != '"') && '\n' !in tail && forall i :: 0 <= i < |tail| ==> Neutral(tail[i])
    ensures BodyLine(head + (JsonQuote(value) + tail) + "\n")
  {
    JsonBodyOneLine(value);
    EndState(tail + "\n");
    JsonState(value, tail + "\n");
    assert JsonQuote(value) + tail + "\n" == JsonQuote(value) + (tail + "\n");
    BodyFrom(head, JsonQuote(value) + tail, head + (JsonQuote(value) + tail) + "\n");
  }

  lemma CommandBody(head: string, bin: string)
    requires HeadOk(head)
    ensures BodyLine(head + JsonQuote(bin) + "\n")
  {
    QuotedBody(head, bin, "");
    assert JsonQuote(bin) + "" == JsonQuote(bin);
  }

  lemma ArgsBody(head: string, args: seq<string>)
    requires HeadOk(head)
    ensures BodyLine(head + JsonItems(args) + "\n")
  {
    JsonItemsOneLine(args);
    ItemsState(args);
    BodyFrom(head, JsonItems(args), head + JsonItems(args) + "\n");
  }

  lemma EnvBody(head: string)
    requires HeadOk(head)
    ensures BodyLine(head + (JsonQuote("1") + " }") + "\n")
  {
    QuotedBody(head, "1", " }");
  }

  lemma JsonBodyOfOne()
    ensures JsonQuote("1") == "\"1\""
  {
    assert "1"[1..] == "";
    assert JsonBody("1") == JsonChar('1') + JsonBody("");
  }

  // ----- scanning a stanza -----

  /** Inside the server's own table and outside any string. */
  predicate InTable(sc: Scan, out: string) {
    sc.skip && sc.found && |sc.table| == 2 && sc.state == Plain && sc.out == out
  }

  /** The printed header as a line: it is a header, is read as the two keys, and leaves no string open. */
  lemma HeaderLine(id: string, line: string)
    requires line == Header(id) + "\n"
    ensures IsHeader(line, Plain) && TableKeys(Trim(line)) == Some([MCP(), Utf8(id)]) && StateAfter(line, Plain) == Plain
  {
    HeaderRoundTrip(id);
    TrimAfter(Header(id), '\n');
    assert Header(id)[..1] == "[";
    AcceptedHeaderState(line);
  }

  lemma TwoKeysStep(sc: Scan, line: string, first: Key, second: Key, id: string)
    requires sc.state == Plain && IsHeader(line, Plain) && StateAfter(line, Plain) == Plain
    requires TableKeys(Trim(line)) == Some([first, second])
    ensures var skip := first == MCP() && second == Utf8(id);
            Step(sc, line, id) == Some(Scan([first, second], skip, sc.found || skip, Plain, if skip then sc.out else sc.out + line))
  {
  }

  lemma HeaderStep(sc: Scan, id: string)
    requires sc.state == Plain
    ensures Step(sc, Header(id) + "\n", id).Some? && InTable(Step(sc, Header(id) + "\n", id).value, sc.out)
  {
    HeaderLine(id, Header(id) + "\n");
    TwoKeysStep(sc, Header(id) + "\n", MCP(), Utf8(id), id);
  }

  lemma BodyStep(sc: Scan, line: string, out: string, id: string)
    requires InTable(sc, out) && BodyLine(line)
    ensures Step(sc, line, id).Some? && InTable(Step(sc, line, id).value, out)
  {
  }

  lemma BodyScanOne(ls: seq<string>, line: string, out: string, id: string)
    requires ScanLines(ls, id).Some? && InTable(ScanLines(ls, id).value, out) && BodyLine(line)
    ensures ScanLines(ls + [line], id).Some? && InTable(ScanLines(ls + [line], id).value, out)
  {
    BodyStep(ScanLines(ls, id).value, line, out, id);
    ScanSnoc(ls, line, id);
  }

  lemma CommandLineBody(bin: string)
    ensures BodyLine(CommandLine(bin))
  {
    CommandHead();
    CommandBody("command = ", bin);
  }

  lemma ArgsLineBody(args: seq<string>)
    ensures BodyLine(ArgsLine(args))
  {
    ArgsHead();
    ArgsBody("args = [", args);
    assert ArgsLine(args) == "args = [" + JsonItems(args) + "\n";
  }

  lemma EnvLineBody()
    ensures BodyLine(ENV_LINE)
  {
    EnvHead();
    EnvBody("env = { SL_DBG_INSECURE = ");
    JsonBodyOfOne();
    assert ENV_LINE == "env = { SL_DBG_INSECURE = " + (JsonQuote("1") + " }") + "\n";
  }

  lemma KeyOneLine(id: string)
    ensures '\n' !in Header(id)
  {
    JsonBodyOneLine(id);
    if Bare(id) {
      forall i | 0 <= i < |id| ensures id[i] != '\n' {
        assert BareChar(id[i]);
      }
    }
  }

  ghost predicate Open(ls: seq<string>, out: string, id: string) {
    && (forall i :: 0 <= i < |ls| ==> FullLine(ls[i]))
    && ScanLines(ls, id).Some? && InTable(ScanLines(ls, id).value, out)
  }

  lemma AddHeader(front: seq<string>, id: string) returns (all: seq<string>)
    requires forall i :: 0 <= i < |front| ==> FullLine(front[i])
    requires ScanLines(front, id).Some? && ScanLines(front, id).value.state == Plain
    ensures Open(all, ScanLines(front, id).value.out, id) && Concat(all) == Concat(front) + (Header(id) + "\n")
  {
    all := front + [Header(id) + "\n"];
    HeaderStep(ScanLines(front, id).value, id);
    ScanSnoc(front, Header(id) + "\n", id);
    ConcatSnoc(front, Header(id) + "\n");
    KeyOneLine(id);
    OneNewline(Header(id));
  }

  lemma AddBody(ls: seq<string>, line: string, out: string, id: string) returns (all: seq<string>)
    requires Open(ls, out, id) && BodyLine(line)
    ensures Open(all, out, id) && Concat(all) == Concat(ls) + line
  {
    all := ls + [line];
    BodyScanOne(ls, line, out, id);
    ConcatSnoc(ls, line);
  }

  lemma StanzaText(bin: string, id: string, args: seq<string>)
    ensures Stanza(bin, id, args) ==
            (Header(id) + "\n") + CommandLine(bin) + ArgsLine(args) + (if "--safe" in args then "" else ENV_LINE)
  {
    var h, a, b := Header(id) + "\n", CommandLine(bin), ArgsLine(args);
    ConcatSnoc([], h);
    ConcatSnoc([h], a);
    ConcatSnoc([h, a], b);
    assert [] + [h] == [h] && [h] + [a] == [h, a] && [h, a] + [b] == [h, a, b] && "" + h == h;
    if "--safe" in args {
      assert StanzaLines(bin, id, args) == [h, a, b];
      assert h + a + b + "" == h + a + b;
    } else {
      ConcatSnoc([h, a, b], ENV_LINE);
    }
  }

  /** The scan of a stanza after full lines that leave no string open. */
  lemma StanzaScan(front: seq<string>, bin: string, id: string, args: seq<string>) returns (all: seq<string>)
    requires forall i :: 0 <= i < |front| ==> FullLine(front[i])
    requires ScanLines(front, id).Some? && ScanLines(front, id).value.state == Plain
    ensures Open(all, ScanLines(front, id).value.out, id) && Concat(all) == Concat(front) + Stanza(bin, id, args)
  {
    var out := ScanLines(front, id).value.out;
    all := AddHeader(front, id);
    CommandLineBody(bin);
    all := AddBody(all, CommandLine(bin), out, id);
    ArgsLineBody(args);
    all := AddBody(all, ArgsLine(args), out, id);
    if "--safe" !in args {
      EnvLineBody();
      all := AddBody(all, ENV_LINE, out, id);
    }
    StanzaText(bin, id, args);
    Reassociate(Concat(front), Header(id) + "\n", CommandLine(bin), ArgsLine(args), if "--safe" in args then "" else ENV_LINE);
  }

  lemma Reassociate(f: string, a: string, b: string, c: string, d: string)
    ensures f + a + b + c + d == f + (a + b + c + d)
    ensures d == "" ==> f + a + b + c == f + (a + b + c + d)
  {
    assert f + a + b + c + d == f + (a + b + c + d);
  }

  lemma FullLinesStrip(all: seq<string>, id: string)
    requires forall i :: 0 <= i < |all| ==> FullLine(all[i])
    requires ScanLines(all, id).Some? && ScanLines(all, id).value.state == Plain
    ensures Strip(Concat(all), id) == Some((ScanLines(all, id).value.out, ScanLines(all, id).value.found))
  {
    SplitConcat(all, "");
    SplitOneLine("");
    assert Concat(all) + "" == Concat(all);
    ScanSnoc(all, "", id);
    EmptyLine(ScanLines(all, id).value, id);
  }

  // ----- padding -----

  lemma {:induction false} IndexGrows(s: string, t: string)
    ensures IndexOf(s, '=') < |s| ==> IndexOf(s + t, '=') == IndexOf(s, '=')
  {
    if s != "" && s[0] != '=' {
      assert (s + t)[1..] == s[1..] + t;
      IndexGrows(s[1..], t);
    }
  }

  /** What the scanner has put out after a line. */
  function Grown(sc: Scan, line: string): string {
    if sc.skip then sc.out else sc.out + line
  }

  /** A line that trims to the same and leaves the same string state takes the same step, but for the output. */
  lemma SameTrimStep(sc: Scan, line: string, e: string, id: string)
    requires Trim(e) == Trim(line) && StateAfter(e, sc.state) == StateAfter(line, sc.state) && Step(sc, line, id).Some?
    ensures var r := Step(sc, line, id).value;
            && r.out == (if r.skip then sc.out else sc.out + line)
            && Step(sc, e, id) == Some(r.(out := if r.skip then sc.out else sc.out + e))
  {
  }

  /** Ending the last line changes nothing but the output. */
  lemma EndedLineStep(sc: Scan, line: string, id: string)
    requires Step(sc, line, id).Some? && (sc.state.Inside? ==> IsQuote(sc.state.quote))
    ensures var r := Step(sc, line, id).value; Step(sc, line + "\n", id) == Some(r.(out := Grown(r, "\n")))
  {
    TrimAfter(line, '\n');
    NewlineAfter(line, sc.state);
    SameTrimStep(sc, line, line + "\n", id);
    Ended(sc.out, line, "\n");
  }

  lemma Ended(out: string, line: string, end: string)
    ensures out + (line + end) == out + line + end
  {
  }

  lemma BlankLineStep(sc: Scan, id: string)
    requires sc.state == Plain
    ensures Step(sc, "\n", id) == Some(sc.(out := Grown(sc, "\n")))
  {
    EmptyLine(sc, id);
    EndedLineStep(sc, "", id);
    assert "" + "\n" == "\n";
  }

  lemma {:induction false} StringStateQuote(ls: seq<string>, id: string)
    requires ScanLines(ls, id).Some? && ScanLines(ls, id).value.state.Inside?
    ensures IsQuote(ScanLines(ls, id).value.state.quote)
  {
    if ls != [] {
      var sc := ScanLines(ls[..|ls| - 1], id).value;
      if sc.state.Inside? {
        StringStateQuote(ls[..|ls| - 1], id);
      }
      StateQuote(ls[|ls| - 1], sc.state);
    }
  }

  lemma {:induction false} StateQuote(s: string, st: StrState)
    requires st.Inside? ==> IsQuote(st.quote)
    ensures StateAfter(s, st).Inside? ==> IsQuote(StateAfter(s, st).quote)
    decreases |s|
  {
    if s != "" {
      match st
      case Inside(q) =>
        if q == '"' && s[0] == '\\' {
          StateQuote(Drop(s, 2), st);
        } else if HasPrefix(s, [q, q, q]) {
          StateQuote(Drop(s[3..], RunLength(s[3..], q)), Plain);
        } else {
          StateQuote(s[1..], st);
        }
      case Plain =>
        if s[0] != '#' {
          if !IsQuote(s[0]) {
            StateQuote(s[1..], Plain);
          } else if HasPrefix(s, [s[0], s[0], s[0]]) {
            StateQuote(s[3..], Inside(s[0]));
          } else {
            StateQuote(Drop(s[1..], StringEnd(s[1..], s[0]) + 1), Plain);
          }
        }
    }
  }

  /** Full lines and a last line that leave no string open, padded: the scan differs by the padding it puts out. */
  lemma PadLines(ls: seq<string>, last: string, s: string, id: string) returns (front: seq<string>)
    requires (forall i :: 0 <= i < |ls| ==> FullLine(ls[i])) && '\n' !in last
    requires s == Concat(ls) + last && s != ""
    requires ScanLines(ls, id).Some? && ScanLines(ls + [last], id).Some? && ScanLines(ls + [last], id).value.state == Plain
    ensures forall i :: 0 <= i < |front| ==> FullLine(front[i])
    ensures Concat(front) == Pad(s)
    ensures var sc := ScanLines(ls + [last], id).value; ScanLines(front, id) == Some(sc.(out := Grown(sc, Padding(s))))
  {
    if last == "" {
      ScanSnoc(ls, last, id);
      EmptyLine(ScanLines(ls, id).value, id);
      assert Concat(ls) + "" == Concat(ls);
      LastOfLines(ls);
      front := AddBlankLine(ls, id);
    } else {
      front := EndLastLine(ls, last, id);
      LastLineOpen(ls, last);
      front := AddBlankLine(front, id);
      TwoNewlines(s);
      TwoNewlines(ScanLines(ls + [last], id).value.out);
    }
  }

  lemma TwoNewlines(s: string)
    ensures s + "\n" + "\n" == s + "\n\n"
  {
  }

  /** A text that the scanner accepts, padded, is full lines; the scan differs by the padding it puts out. */
  lemma PaddedScan(s: string, id: string) returns (front: seq<string>)
    requires Strip(s, id).Some?
    ensures forall i :: 0 <= i < |front| ==> FullLine(front[i])
    ensures Concat(front) == Pad(s) && ScanLines(SplitAfter(s), id).Some?
    ensures var sc := ScanLines(SplitAfter(s), id).value;
            sc.state == Plain && ScanLines(front, id) == Some(sc.(out := Grown(sc, Padding(s))))
  {
    var ls := SplitAfter(s);
    if s == "" {
      front := [];
      NoLines(ls, id);
    } else {
      SplitShape(s);
      CutLast(s, ls, |ls| - 1);
      ScanPrefix(ls, |ls| - 1, id);
      front := PadLines(ls[..|ls| - 1], ls[|ls| - 1], s, id);
    }
  }

  lemma NoLines(ls: seq<string>, id: string)
    requires ls == [""]
    ensures ScanLines(ls, id) == Some(START) && ScanLines([], id) == Some(START)
  {
    assert ls == [] + [""];
    ScanSnoc([], "", id);
    EmptyLine(START, id);
  }

  lemma CutLast(s: string, ls: seq<string>, n: nat)
    requires ls == SplitAfter(s) && |ls| == n + 1
    ensures ls == ls[..n] + [ls[n]] && s == Concat(ls[..n]) + ls[n]
  {
    ConcatSplit(s);
    ConcatSnoc(ls[..n], ls[n]);
    assert ls == ls[..n] + [ls[n]];
  }

  lemma LastLineOpen(front: seq<string>, line: string)
    requires line != "" && '\n' !in line
    ensures var s := Concat(front) + line; s[|s| - 1] != '\n'
  {
    assert line[|line| - 1] in line;
  }

  lemma AddBlankLine(ls: seq<string>, id: string) returns (front: seq<string>)
    requires forall i :: 0 <= i < |ls| ==> FullLine(ls[i])
    requires ScanLines(ls, id).Some? && ScanLines(ls, id).value.state == Plain
    ensures forall i :: 0 <= i < |front| ==> FullLine(front[i])
    ensures Concat(front) == Concat(ls) + "\n"
    ensures var sc := ScanLines(ls, id).value; ScanLines(front, id) == Some(sc.(out := Grown(sc, "\n")))
  {
    front := ls + ["\n"];
    NewlineIsLine();
    BlankLineStep(ScanLines(ls, id).value, id);
    ScanSnoc(ls, "\n", id);
    ConcatSnoc(ls, "\n");
  }

  lemma NewlineIsLine()
    ensures FullLine("\n")
  {
    OneNewline("");
    assert "" + "\n" == "\n";
  }

  lemma EndLastLine(ls: seq<string>, line: string, id: string) returns (front: seq<string>)
    requires (forall i :: 0 <= i < |ls| ==> FullLine(ls[i])) && '\n' !in line
    requires ScanLines(ls, id).Some? && ScanLines(ls + [line], id).Some?
    ensures forall i :: 0 <= i < |front| ==> FullLine(front[i])
    ensures Concat(front) == Concat(ls) + line + "\n"
    ensures var sc := ScanLines(ls + [line], id).value; ScanLines(front, id) == Some(sc.(out := Grown(sc, "\n")))
  {
    front := ls + [line + "\n"];
    EndedLastScan(ls, line, id);
    EndedLastLine(ls, line, line + "\n");
  }

  lemma EndedLastLine(ls: seq<string>, line: string, ended: string)
    requires '\n' !in line && ended == line + "\n"
    ensures FullLine(ended) && Concat(ls + [ended]) == Concat(ls) + line + "\n"
  {
    ConcatSnoc(ls, ended);
    OneNewline(line);
  }

  lemma EndedLastScan(ls: seq<string>, line: string, id: string)
    requires ScanLines(ls, id).Some? && ScanLines(ls + [line], id).Some?
    ensures var sc := ScanLines(ls + [line], id).value;
            ScanLines(ls + [line + "\n"], id) == Some(sc.(out := Grown(sc, "\n")))
  {
    var sc := ScanLines(ls, id).value;
    if sc.state.Inside? {
      StringStateQuote(ls, id);
    }
    ScanSnoc(ls, line, id);
    EndedLineStep(sc, line, id);
    ScanSnoc(ls, line + "\n", id);
  }

  lemma LastOfLines(front: seq<string>)
    requires (forall i :: 0 <= i < |front| ==> FullLine(front[i])) && Concat(front) != ""
    ensures Concat(front)[|Concat(front)| - 1] == '\n'
  {
    var line := front[|front| - 1];
    assert IndexOf(line, '\n') == |line| - 1;
  }

  // ----- the theorems -----

  /** Stripping undoes the appending of a stanza to a padded text without the server's table. */
  lemma StripUndoesStanza(t: string, id: string, bin: string, args: seq<string>)
    requires Strip(t, id) == Some((t, false))
    ensures Strip(Pad(t) + Stanza(bin, id, args), id) == Some((Pad(t), true))
  {
    NothingSkipped(SplitAfter(t), id);
    var front := PaddedScan(t, id);
    var all := StanzaScan(front, bin, id, args);
    FullLinesStrip(all, id);
  }

  /** Uninstalling after an installation gives the text before it without the server's tables, padded;
      for a text without such a table this is the text plus the padding newlines. */
  lemma UninstallUndoesInstall(s: string, id: string, bin: string, args: seq<string>, force: bool)
    requires Install(s, id, bin, args, force).Some?
    ensures Strip(s, id).Some?
    ensures Strip(Install(s, id, bin, args, force).value, id) == Some((Pad(Strip(s, id).value.0), true))
    ensures Uninstall(Install(s, id, bin, args, force).value, id) == Some(Pad(Strip(s, id).value.0))
    ensures !Strip(s, id).value.1 ==> Strip(s, id).value.0 == s
  {
    StripIdempotent(s, id);
    StripUndoesStanza(Strip(s, id).value.0, id, bin, args);
    if !Strip(s, id).value.1 {
      NotFoundIsIdentity(s, id);
    }
  }

  /** An installation without force succeeds exactly when the scanner accepts the text and finds no table of the id. */
  lemma InstallNeedsFreeId(s: string, id: string, bin: string, args: seq<string>)
    ensures Install(s, id, bin, args, false).Some? <==> Strip(s, id) == Some((s, false))
    ensures Install(s, id, bin, args, true).Some? <==> Strip(s, id).Some?
  {
    if Strip(s, id).Some? && !Strip(s, id).value.1 {
      NotFoundIsIdentity(s, id);
    }
  }

  /** A second installation needs force, and then it replaces the first: the text is the one the second
      installation would have made of the padded text. */
  lemma ReinstallReplaces(s: string, id: string, bin: string, args: seq<string>, bin2: string, args2: seq<string>)
    requires Strip(s, id) == Some((s, false))
    ensures Install(s, id, bin, args, false).Some?
    ensures var text := Install(s, id, bin, args, false).value;
            && Install(text, id, bin2, args2, false) == None
            && Install(text, id, bin2, args2, true) == Install(Pad(s), id, bin2, args2, false)
            && Uninstall(text, id).Some? && Uninstall(Uninstall(text, id).value, id) == Uninstall(text, id)
  {
    UninstallUndoesInstall(s, id, bin, args, false);
    var text := Install(s, id, bin, args, false).value;
    StripIdempotent(text, id);
    assert Strip(Pad(s), id) == Some((Pad(s), false));
  }
}
