/** Registering one server does not touch another: different ids have different keys, headers and tables. */
module TomlOthers {
  import opened Basics
  import opened Text
  import opened TomlText
  import opened TomlScan
  import opened TomlHeaders
  import opened TomlStrip
  import opened TomlInstall

  /** The bytes of a text determine its first character. */
  lemma Utf8CharHead(a: int, b: int, s: seq<byte>, t: seq<byte>)
    requires 0 <= a < 0x11_0000 && 0 <= b < 0x11_0000
    requires Utf8Char(a) + s == Utf8Char(b) + t
    ensures a == b && s == t
  {
    var x, y := Utf8Char(a) + s, Utf8Char(b) + t;
    assert x[0] == Utf8Char(a)[0] && y[0] == Utf8Char(b)[0];
    assert |Utf8Char(a)| == |Utf8Char(b)|;
    var n := |Utf8Char(a)|;
    assert forall i :: 0 <= i < n ==> x[i] == Utf8Char(a)[i] && y[i] == Utf8Char(b)[i];
    SameBytes(a, b);
    assert x[n..] == s && y[n..] == t;
  }

  lemma SixBits(a: int, b: int)
    requires a / 64 == b / 64 && a % 64 == b % 64
    ensures a == b
  {
  }

  lemma Shifted(a: int)
    ensures a / 4096 == a / 64 / 64 && a / 262144 == a / 4096 / 64
  {
  }

  lemma SameBytes(a: int, b: int)
    requires 0 <= a < 0x11_0000 && 0 <= b < 0x11_0000 && |Utf8Char(a)| == |Utf8Char(b)|
    requires forall i :: 0 <= i < |Utf8Char(a)| ==> Utf8Char(a)[i] == Utf8Char(b)[i]
    ensures a == b
  {
    var x, y, n := Utf8Char(a), Utf8Char(b), |Utf8Char(a)|;
    assert x[0] == y[0];
    if n >= 2 {
      assert x[1] == y[1];
      Shifted(a);
      Shifted(b);
      if n >= 3 {
        assert x[2] == y[2];
        if n == 4 {
          assert x[3] == y[3];
          SixBits(a / 4096, b / 4096);
        }
        SixBits(a / 64, b / 64);
      }
      SixBits(a, b);
    }
  }

  /** Different texts have different bytes. */
  lemma {:induction false} Utf8Injective(s: string, t: string)
    requires Utf8(s) == Utf8(t)
    ensures s == t
  {
    if s != "" && t != "" {
      Utf8CharHead(s[0] as int, t[0] as int, Utf8(s[1..]), Utf8(t[1..]));
      Utf8Injective(s[1..], t[1..]);
    }
  }

  /** Inside a table with two keys that is not the server's own, and outside any string. */
  predicate InOther(sc: Scan, found: bool, out: string) {
    !sc.skip && sc.found == found && |sc.table| == 2 && sc.state == Plain && sc.out == out
  }

  lemma OtherHeaderStep(sc: Scan, other: string, id: string)
    requires sc.state == Plain && id != other
    ensures var r := Step(sc, Header(other) + "\n", id);
            r.Some? && InOther(r.value, sc.found, sc.out + (Header(other) + "\n"))
  {
    HeaderLine(other, Header(other) + "\n");
    TwoKeysStep(sc, Header(other) + "\n", MCP(), Utf8(other), id);
    if Utf8(id) == Utf8(other) {
      Utf8Injective(id, other);
    }
  }

  ghost predicate OpenOther(ls: seq<string>, found: bool, out: string, id: string) {
    && (forall i :: 0 <= i < |ls| ==> FullLine(ls[i]))
    && ScanLines(ls, id).Some? && InOther(ScanLines(ls, id).value, found, out)
  }

  lemma AddOtherHeader(front: seq<string>, other: string, id: string) returns (all: seq<string>)
    requires id != other && forall i :: 0 <= i < |front| ==> FullLine(front[i])
    requires ScanLines(front, id).Some? && ScanLines(front, id).value.state == Plain
    ensures var sc := ScanLines(front, id).value; OpenOther(all, sc.found, sc.out + (Header(other) + "\n"), id)
    ensures Concat(all) == Concat(front) + (Header(other) + "\n")
  {
    all := front + [Header(other) + "\n"];
    OtherHeaderStep(ScanLines(front, id).value, other, id);
    ScanSnoc(front, Header(other) + "\n", id);
    ConcatSnoc(front, Header(other) + "\n");
    KeyOneLine(other);
    OneNewline(Header(other));
  }

  lemma AddOtherBody(ls: seq<string>, line: string, found: bool, out: string, id: string) returns (all: seq<string>)
    requires OpenOther(ls, found, out, id) && BodyLine(line)
    ensures OpenOther(all, found, out + line, id) && Concat(all) == Concat(ls) + line
  {
    all := ls + [line];
    ScanSnoc(ls, line, id);
    ConcatSnoc(ls, line);
  }

  /** After any lines that leave no string open, the scanner for one id keeps the whole stanza of another. */
  lemma OtherStanzaScan(front: seq<string>, bin: string, other: string, args: seq<string>, id: string)
    returns (all: seq<string>)
    requires id != other && forall i :: 0 <= i < |front| ==> FullLine(front[i])
    requires ScanLines(front, id).Some? && ScanLines(front, id).value.state == Plain
    ensures var sc := ScanLines(front, id).value; OpenOther(all, sc.found, sc.out + Stanza(bin, other, args), id)
    ensures Concat(all) == Concat(front) + Stanza(bin, other, args)
  {
    var sc := ScanLines(front, id).value;
    var h, a, b, e := Header(other) + "\n", CommandLine(bin), ArgsLine(args), if "--safe" in args then "" else ENV_LINE;
    all := AddOtherHeader(front, other, id);
    CommandLineBody(bin);
    all := AddOtherBody(all, a, sc.found, sc.out + h, id);
    ArgsLineBody(args);
    all := AddOtherBody(all, b, sc.found, sc.out + h + a, id);
    if "--safe" !in args {
      EnvLineBody();
      all := AddOtherBody(all, ENV_LINE, sc.found, sc.out + h + a + b, id);
    }
    StanzaText(bin, other, args);
    Reassociate(Concat(front), h, a, b, e);
    Reassociate(sc.out, h, a, b, e);
  }

  /** The text ends inside a table of the server. */
  predicate EndsInTable(s: string, id: string) {
    Owned(SplitAfter(s), |SplitAfter(s)| - 1, id)
  }

  /** Installing one server beside another and then stripping the other removes what stripping it before would have
      removed, and leaves the new stanza byte for byte. The padding before the stanza stays too, unless the text ended
      in the removed table: there it is removed with the table. */
  lemma OthersAreKept(s: string, id: string, other: string, bin: string, args: seq<string>)
    requires id != other && Strip(s, id).Some? && Strip(s, other) == Some((s, false))
    ensures Install(s, other, bin, args, false).Some?
    ensures var text := Install(s, other, bin, args, false).value;
            var kept := Strip(s, id).value.0 + if EndsInTable(s, id) then "" else Padding(s);
            Strip(text, id) == Some((kept + Stanza(bin, other, args), Strip(s, id).value.1))
  {
    var front := PaddedScan(s, id);
    var all := OtherStanzaScan(front, bin, other, args, id);
    FullLinesStrip(all, id);
    var ls := SplitAfter(s);
    assert ls[..|ls|] == ls;
    ScanTracks(ls, |ls|, id);
    assert Strip(s, id).value.0 + "" == Strip(s, id).value.0;
  }

  /** A text that has neither server's table, with one of them installed, has no table of the other:
      looking for that one finds nothing and returns the text, stanza included, as it is. */
  lemma OthersAreUntouched(s: string, id: string, other: string, bin: string, args: seq<string>)
    requires id != other && Strip(s, id) == Some((s, false)) && Strip(s, other) == Some((s, false))
    ensures Install(s, other, bin, args, false).Some?
    ensures var text := Install(s, other, bin, args, false).value;
            Strip(text, id) == Some((text, false)) && Uninstall(text, id) == Some(text)
  {
    OthersAreKept(s, id, other, bin, args);
    NotFoundIsIdentity(Install(s, other, bin, args, false).value, id);
  }

  /** Uninstalling beside an installation: with a table of the id there, the text without it and the new stanza. */
  lemma UninstallBeside(s: string, id: string, other: string, bin: string, args: seq<string>)
    requires id != other && Strip(s, id).Some? && Strip(s, id).value.1 && Strip(s, other) == Some((s, false))
    ensures Install(s, other, bin, args, false).Some?
    ensures Uninstall(Install(s, other, bin, args, false).value, id) ==
            Some(Strip(s, id).value.0 + (if EndsInTable(s, id) then "" else Padding(s)) + Stanza(bin, other, args))
  {
    OthersAreKept(s, id, other, bin, args);
  }
}
