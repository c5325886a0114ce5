/** The word splitter of the interactive shell, and the quoting it undoes: words between single quotes, between double
    quotes, or bare with a backslash before what would not stand for itself. One char stands for one byte. */
module ShellSplit {
  import opened Basics

  /** The splitter between two characters: the finished words, the current one, whether there is a
      current one, and the open quote. */
  datatype Split = Split(out: seq<string>, cur: string, any: bool, inS: bool, inD: bool)

  const START := Split([], "", false, false, false)

  predicate IsBlank(c: char) {
    c == ' ' || c == '\t'
  }

  /** The splitter after the characters of s. */
  function Scan(sp: Split, s: string): Split
    decreases |s|
  {
    if s == "" then sp
    else
      var c := s[0];
      if !sp.inS && !sp.inD && IsBlank(c) then
        Scan(if sp.any then sp.(out := sp.out + [sp.cur], cur := "", any := false) else sp, s[1..])
      else if !sp.inS && c == '\\' && |s| > 1 then Scan(sp.(cur := sp.cur + [s[1]], any := true), s[2..])
      else if !sp.inD && c == '\'' then Scan(sp.(inS := !sp.inS, any := true), s[1..])
      else if !sp.inS && c == '"' then Scan(sp.(inD := !sp.inD, any := true), s[1..])
      else Scan(sp.(cur := sp.cur + [c], any := true), s[1..])
  }

  /** The words of a line; None for an unterminated quote. */
  function Words(s: string): Option<seq<string>> {
    var end := Scan(START, s);
    if end.inS || end.inD then None
    else Some(if end.any then end.out + [end.cur] else end.out)
  }

  /** The splitter's loop. */
  method SplitShell(s: string) returns (r: Option<seq<string>>)
    ensures r == Words(s)
  {
    var out: seq<string>, cur := [], "";
    var inS, inD, any := false, false, false;
    var i := 0;
    while i < |s|
      invariant 0 <= i <= |s|
      invariant Scan(START, s) == Scan(Split(out, cur, any, inS, inD), s[i..])
    {
      var c := s[i];
      assert s[i..][1..] == s[i + 1..];
      if !inS && !inD && (c == ' ' || c == '\t') {
        if any {
          out, cur, any := out + [cur], "", false;
        }
        i := i + 1;
        continue;
      }
      if !inS && c == '\\' && i + 1 < |s| {
        assert s[i..][2..] == s[i + 2..];
        cur, any := cur + [s[i + 1]], true;
        i := i + 2;
        continue;
      }
      if !inD && c == '\'' {
        inS, any := !inS, true;
      } else if !inS && c == '"' {
        inD, any := !inD, true;
      } else {
        cur, any := cur + [c], true;
      }
      i := i + 1;
    }
    assert s[i..] == "";
    if inS || inD {
      return None;
    }
    if any {
      out := out + [cur];
    }
    r := Some(out);
  }

  // ----- quoting -----

  function Escape(w: string): string {
    if w == "" then ""
    else (if w[0] == '"' || w[0] == '\\' then ['\\', w[0]] else [w[0]]) + Escape(w[1..])
  }

  /** How a word is written: in double quotes, in single quotes, or without, with a backslash before the characters
      that are chosen. */
  datatype Style = Double | Single | Unquoted(escaped: seq<bool>)

  /** A character that means itself outside quotes. */
  predicate Plain(c: char) {
    c != ' ' && c != '\t' && c != '\'' && c != '"' && c != '\\'
  }

  /** A word can be written without quotes if it is not empty and every character is plain or has a backslash. */
  predicate Loose(w: string, escaped: seq<bool>) {
    w != "" && |escaped| == |w| && forall i :: 0 <= i < |w| ==> escaped[i] || Plain(w[i])
  }

  function Backslashed(w: string, escaped: seq<bool>): string
    requires |escaped| == |w|
  {
    if w == "" then "" else (if escaped[0] then ['\\', w[0]] else [w[0]]) + Backslashed(w[1..], escaped[1..])
  }

  /** A word as asked for, if that is possible, or else in double quotes. */
  function Quote(w: string, style: Style): string {
    if style.Single? && '\'' !in w then "'" + w + "'"
    else if style.Unquoted? && Loose(w, style.escaped) then Backslashed(w, style.escaped)
    else "\"" + Escape(w) + "\""
  }

  predicate Blanks(s: string) {
    forall i :: 0 <= i < |s| ==> IsBlank(s[i])
  }

  /** The quoted words, each after its gap of blanks. */
  function Join(words: seq<string>, styles: seq<Style>, gaps: seq<string>): string
    requires |styles| == |gaps| == |words|
  {
    if words == [] then ""
    else gaps[0] + Quote(words[0], styles[0]) + Join(words[1..], styles[1..], gaps[1..])
  }

  lemma {:induction false} ScanEscaped(sp: Split, w: string, t: string)
    requires sp.inD && !sp.inS
    ensures Scan(sp, Escape(w) + t) == Scan(if w == "" then sp else sp.(cur := sp.cur + w, any := true), t)
    decreases |w|
  {
    var s := Escape(w) + t;
    if w == "" {
      assert s == t;
    } else {
      var rest := Escape(w[1..]) + t;
      var next := sp.(cur := sp.cur + [w[0]], any := true);
      if w[0] == '"' || w[0] == '\\' {
        assert s == ['\\', w[0]] + rest && s[2..] == rest;
      } else {
        assert s == [w[0]] + rest && s[1..] == rest;
      }
      ScanEscaped(next, w[1..], t);
      assert sp.cur + [w[0]] + w[1..] == sp.cur + w;
      if w[1..] == "" {
        assert sp.cur + [w[0]] == sp.cur + w;
      }
    }
  }

  lemma {:induction false} ScanSingle(sp: Split, w: string, t: string)
    requires sp.inS && !sp.inD && '\'' !in w
    ensures Scan(sp, w + t) == Scan(if w == "" then sp else sp.(cur := sp.cur + w, any := true), t)
    decreases |w|
  {
    var s := w + t;
    if w == "" {
      assert s == t;
    } else {
      assert s[1..] == w[1..] + t && w[0] in w;
      assert forall c :: c in w[1..] ==> c in w;
      ScanSingle(sp.(cur := sp.cur + [w[0]], any := true), w[1..], t);
      assert sp.cur + [w[0]] + w[1..] == sp.cur + w;
      if w[1..] == "" {
        assert sp.cur + [w[0]] == sp.cur + w;
      }
    }
  }

  lemma ToggleDouble(sp: Split, t: string)
    requires !sp.inS
    ensures Scan(sp, "\"" + t) == Scan(sp.(inD := !sp.inD, any := true), t)
  {
    assert ("\"" + t)[1..] == t;
  }

  lemma ToggleSingle(sp: Split, t: string)
    requires !sp.inD
    ensures Scan(sp, "'" + t) == Scan(sp.(inS := !sp.inS, any := true), t)
  {
    assert ("'" + t)[1..] == t;
  }

  lemma ScanDoubleQuoted(sp: Split, w: string, t: string)
    requires !sp.inS && !sp.inD
    ensures Scan(sp, "\"" + (Escape(w) + ("\"" + t))) == Scan(sp.(cur := sp.cur + w, any := true), t)
  {
    var inside := sp.(inD := true, any := true);
    assert w == "" ==> sp.cur + w == sp.cur;
    ToggleDouble(sp, Escape(w) + ("\"" + t));
    ScanEscaped(inside, w, "\"" + t);
    ToggleDouble(inside.(cur := sp.cur + w), t);
  }

  lemma ScanSingleQuoted(sp: Split, w: string, t: string)
    requires !sp.inS && !sp.inD && '\'' !in w
    ensures Scan(sp, "'" + (w + ("'" + t))) == Scan(sp.(cur := sp.cur + w, any := true), t)
  {
    var inside := sp.(inS := true, any := true);
    assert w == "" ==> sp.cur + w == sp.cur;
    ToggleSingle(sp, w + ("'" + t));
    ScanSingle(inside, w, "'" + t);
    ToggleSingle(inside.(cur := sp.cur + w), t);
  }

  /** One character outside quotes, with or without a backslash. */
  lemma ScanChar(sp: Split, c: char, escaped: bool, t: string)
    requires !sp.inS && !sp.inD && (escaped || Plain(c))
    ensures Scan(sp, (if escaped then ['\\', c] else [c]) + t) == Scan(sp.(cur := sp.cur + [c], any := true), t)
  {
    assert (['\\', c] + t)[2..] == t && ([c] + t)[1..] == t;
  }

  lemma {:induction false} ScanLoose(sp: Split, w: string, escaped: seq<bool>, t: string)
    requires !sp.inS && !sp.inD && Loose(w, escaped)
    ensures Scan(sp, Backslashed(w, escaped) + t) == Scan(sp.(cur := sp.cur + w, any := true), t)
    decreases |w|
  {
    var first := if escaped[0] then ['\\', w[0]] else [w[0]];
    var next := sp.(cur := sp.cur + [w[0]], any := true);
    var rest := Backslashed(w[1..], escaped[1..]);
    assert Backslashed(w, escaped) + t == first + (rest + t);
    ScanChar(sp, w[0], escaped[0], rest + t);
    assert sp.cur + [w[0]] + w[1..] == sp.cur + w;
    if |w| == 1 {
      assert rest + t == t && next.cur == sp.cur + w;
    } else {
      ScanLoose(next, w[1..], escaped[1..], t);
    }
  }

  lemma QuoteParts(w: string, style: Style, t: string)
    requires !(style.Unquoted? && Loose(w, style.escaped))
    ensures Quote(w, style) + t ==
            if style.Single? && '\'' !in w then "'" + (w + ("'" + t)) else "\"" + (Escape(w) + ("\"" + t))
  {
  }

  /** A written word, even an empty one, becomes part of the current word. */
  lemma ScanQuoted(sp: Split, w: string, style: Style, t: string)
    requires !sp.inS && !sp.inD
    ensures Scan(sp, Quote(w, style) + t) == Scan(sp.(cur := sp.cur + w, any := true), t)
  {
    if style.Unquoted? && Loose(w, style.escaped) {
      ScanLoose(sp, w, style.escaped, t);
    } else {
      QuoteParts(w, style, t);
      if style.Single? && '\'' !in w {
        ScanSingleQuoted(sp, w, t);
      } else {
        ScanDoubleQuoted(sp, w, t);
      }
    }
  }

  lemma {:induction false} ScanBlanks(sp: Split, gap: string, t: string)
    requires !sp.inS && !sp.inD && Blanks(gap)
    ensures Scan(sp, gap + t) ==
            Scan(if gap != "" && sp.any then sp.(out := sp.out + [sp.cur], cur := "", any := false) else sp, t)
    decreases |gap|
  {
    var s := gap + t;
    if gap == "" {
      assert s == t;
    } else {
      assert s[1..] == gap[1..] + t;
      assert IsBlank(gap[0]);
      ScanBlanks(if sp.any then sp.(out := sp.out + [sp.cur], cur := "", any := false) else sp, gap[1..], t);
    }
  }

  /** Finished words, then the current one. */
  function AllWords(sp: Split): seq<string> {
    if sp.any then sp.out + [sp.cur] else sp.out
  }

  function Settle(sp: Split): Split {
    if sp.any then sp.(out := sp.out + [sp.cur], cur := "", any := false) else sp
  }

  /** A gap and a quoted word finish the word before and begin a new one. */
  lemma ScanWord(sp: Split, w: string, style: Style, gap: string, rest: string)
    requires !sp.inS && !sp.inD && (!sp.any ==> sp.cur == "") && Blanks(gap) && (sp.any ==> gap != "")
    ensures Scan(sp, gap + (Quote(w, style) + rest)) == Scan(Split(AllWords(sp), w, true, false, false), rest)
  {
    ScanBlanks(sp, gap, Quote(w, style) + rest);
    var begun := Settle(sp);
    ScanQuoted(begun, w, style, rest);
    assert begun.cur + w == w;
  }

  lemma ScanEnd(sp: Split, end: string)
    requires !sp.inS && !sp.inD && Blanks(end)
    ensures var r := Scan(sp, end); !r.inS && !r.inD && AllWords(r) == AllWords(sp)
  {
    ScanBlanks(sp, end, "");
    assert end + "" == end;
  }

  lemma JoinParts(words: seq<string>, styles: seq<Style>, gaps: seq<string>, end: string)
    requires |styles| == |gaps| == |words| > 0
    ensures Join(words, styles, gaps) + end ==
            gaps[0] + (Quote(words[0], styles[0]) + (Join(words[1..], styles[1..], gaps[1..]) + end))
  {
    Reassociate(gaps[0], Quote(words[0], styles[0]), Join(words[1..], styles[1..], gaps[1..]), end);
  }

  lemma Reassociate(a: string, b: string, c: string, d: string)
    ensures a + b + c + d == a + (b + (c + d))
  {
  }

  /** Gaps of blanks, not empty after the first one, nor there if a word is under way. */
  predicate Spaced(gaps: seq<string>, any: bool) {
    forall i :: 0 <= i < |gaps| ==> Blanks(gaps[i]) && (i > 0 || any ==> gaps[i] != "")
  }

  lemma SpacedRest(gaps: seq<string>, any: bool)
    requires gaps != [] && Spaced(gaps, any)
    ensures Blanks(gaps[0]) && (any ==> gaps[0] != "") && Spaced(gaps[1..], true)
  {
  }

  /** From sp the splitter ends the text outside quotes, with these words. */
  predicate Ends(sp: Split, s: string, words: seq<string>) {
    var r := Scan(sp, s);
    !r.inS && !r.inD && AllWords(r) == words
  }

  lemma EndsAlike(sp: Split, s: string, next: Split, rest: string, words: seq<string>)
    requires Scan(sp, s) == Scan(next, rest) && Ends(next, rest, words)
    ensures Ends(sp, s, words)
  {
  }

  lemma ScanNone(sp: Split, text: string, end: string, words: seq<string>)
    requires !sp.inS && !sp.inD && Blanks(end) && text == end && words == AllWords(sp)
    ensures Ends(sp, text, words)
  {
    ScanEnd(sp, end);
  }

  lemma ScanSome(sp: Split, words: seq<string>, styles: seq<Style>, gaps: seq<string>, end: string, next: Split, all: seq<string>)
    requires |styles| == |gaps| == |words| > 0
    requires !sp.inS && !sp.inD && (!sp.any ==> sp.cur == "")
    requires Blanks(gaps[0]) && (sp.any ==> gaps[0] != "")
    requires next == Split(AllWords(sp), words[0], true, false, false)
    requires Ends(next, Join(words[1..], styles[1..], gaps[1..]) + end, all)
    ensures Ends(sp, Join(words, styles, gaps) + end, all)
  {
    ScanFirst(sp, words, styles, gaps, end);
    EndsAlike(sp, Join(words, styles, gaps) + end, next, Join(words[1..], styles[1..], gaps[1..]) + end, all);
  }

  lemma {:induction false} ScanJoined(sp: Split, words: seq<string>, styles: seq<Style>, gaps: seq<string>, end: string,
                                      all: seq<string>)
    requires |styles| == |gaps| == |words|
    requires !sp.inS && !sp.inD && (!sp.any ==> sp.cur == "")
    requires Spaced(gaps, sp.any) && Blanks(end) && all == AllWords(sp) + words
    ensures Ends(sp, Join(words, styles, gaps) + end, all)
    decreases |words|
  {
    if words == [] {
      ScanNone(sp, Join(words, styles, gaps) + end, end, all);
    } else {
      var next := Split(AllWords(sp), words[0], true, false, false);
      SpacedRest(gaps, sp.any);
      assert all == AllWords(next) + words[1..];
      ScanJoined(next, words[1..], styles[1..], gaps[1..], end, all);
      ScanSome(sp, words, styles, gaps, end, next, all);
    }
  }

  lemma ScanFirst(sp: Split, words: seq<string>, styles: seq<Style>, gaps: seq<string>, end: string)
    requires |styles| == |gaps| == |words| > 0
    requires !sp.inS && !sp.inD && (!sp.any ==> sp.cur == "")
    requires Blanks(gaps[0]) && (sp.any ==> gaps[0] != "")
    ensures Scan(sp, Join(words, styles, gaps) + end) ==
            Scan(Split(AllWords(sp), words[0], true, false, false), Join(words[1..], styles[1..], gaps[1..]) + end)
  {
    JoinParts(words, styles, gaps, end);
    ScanWord(sp, words[0], styles[0], gaps[0], Join(words[1..], styles[1..], gaps[1..]) + end);
  }

  /** Splitting undoes quoting: any list of words, each written in any of the three ways and separated by blanks, comes
      back as it was. */
  lemma SplitUndoesQuoting(words: seq<string>, styles: seq<Style>, gaps: seq<string>, end: string)
    requires |styles| == |gaps| == |words|
    requires Spaced(gaps, false) && Blanks(end)
    ensures Words(Join(words, styles, gaps) + end) == Some(words)
  {
    assert [] + words == words;
    ScanJoined(START, words, styles, gaps, end, words);
  }

  // ----- plain words, and quotes that stay open -----

  predicate PlainWord(w: string) {
    w != "" && forall i :: 0 <= i < |w| ==> Plain(w[i])
  }

  lemma {:induction false} PlainIsItself(w: string)
    ensures Backslashed(w, seq(|w|, _ => false)) == w
  {
    if w != "" {
      assert seq(|w|, _ => false)[1..] == seq(|w[1..]|, _ => false);
      PlainIsItself(w[1..]);
    }
  }

  /** The words one after the other, one blank before each. */
  function Spelled(words: seq<string>): string {
    if words == [] then "" else " " + words[0] + Spelled(words[1..])
  }

  function Bare(words: seq<string>): seq<Style> {
    seq(|words|, i requires 0 <= i < |words| => Unquoted(seq(|words[i]|, _ => false)))
  }

  lemma BareFirst(words: seq<string>)
    requires words != [] && PlainWord(words[0])
    ensures Quote(words[0], Bare(words)[0]) == words[0]
  {
    PlainIsItself(words[0]);
    assert Loose(words[0], seq(|words[0]|, _ => false));
  }

  lemma {:induction false} SpelledIsJoined(words: seq<string>)
    requires forall i :: 0 <= i < |words| ==> PlainWord(words[i])
    ensures Spelled(words) == Join(words, Bare(words), seq(|words|, _ => " "))
  {
    if words != [] {
      BareFirst(words);
      SpelledIsJoined(words[1..]);
      assert Bare(words)[1..] == Bare(words[1..]) && seq(|words|, _ => " ")[1..] == seq(|words[1..]|, _ => " ");
    }
  }

  /** Words of plain characters, separated by blanks, come back as they are. */
  lemma PlainWordsComeBack(words: seq<string>)
    requires forall i :: 0 <= i < |words| ==> PlainWord(words[i])
    ensures Words(Spelled(words)) == Some(words)
  {
    SpelledIsJoined(words);
    assert Spelled(words) + "" == Spelled(words);
    SplitUndoesQuoting(words, Bare(words), seq(|words|, _ => " "), "");
  }

  lemma {:induction false} ScanThrough(sp: Split, words: seq<string>, styles: seq<Style>, gaps: seq<string>, tail: string)
    returns (mid: Split)
    requires |styles| == |gaps| == |words|
    requires !sp.inS && !sp.inD && (!sp.any ==> sp.cur == "") && Spaced(gaps, sp.any)
    ensures !mid.inS && !mid.inD && Scan(sp, Join(words, styles, gaps) + tail) == Scan(mid, tail)
    decreases |words|
  {
    if words == [] {
      assert Join(words, styles, gaps) + tail == tail;
      mid := sp;
    } else {
      SpacedRest(gaps, sp.any);
      ScanFirst(sp, words, styles, gaps, tail);
      mid := ScanThrough(Split(AllWords(sp), words[0], true, false, false), words[1..], styles[1..], gaps[1..], tail);
    }
  }

  lemma OpenDouble(sp: Split, w: string)
    requires !sp.inS && !sp.inD
    ensures Scan(sp, " " + ("\"" + Escape(w))).inD
  {
    ScanBlanks(sp, " ", "\"" + Escape(w));
    ToggleDouble(Settle(sp), Escape(w));
    ScanEscaped(Settle(sp).(inD := true, any := true), w, "");
    assert Escape(w) + "" == Escape(w);
  }

  lemma OpenSingle(sp: Split, w: string)
    requires !sp.inS && !sp.inD && '\'' !in w
    ensures Scan(sp, " " + ("'" + w)).inS
  {
    ScanBlanks(sp, " ", "'" + w);
    ToggleSingle(Settle(sp), w);
    ScanSingle(Settle(sp).(inS := true, any := true), w, "");
    assert w + "" == w;
  }

  /** A quote that is opened after any words and not closed is refused. */
  lemma OpenQuoteIsRefused(words: seq<string>, styles: seq<Style>, gaps: seq<string>, w: string)
    requires |styles| == |gaps| == |words| && Spaced(gaps, false)
    ensures Words(Join(words, styles, gaps) + (" " + ("\"" + Escape(w)))) == None
    ensures '\'' !in w ==> Words(Join(words, styles, gaps) + (" " + ("'" + w))) == None
  {
    var mid := ScanThrough(START, words, styles, gaps, " " + ("\"" + Escape(w)));
    OpenDouble(mid, w);
    if '\'' !in w {
      mid := ScanThrough(START, words, styles, gaps, " " + ("'" + w));
      OpenSingle(mid, w);
    }
  }

  /** In double quotes a backslash takes any next character with it; in single quotes it is a character like any other. */
  lemma BackslashInQuotes(sp: Split, c: char, t: string)
    ensures sp.inD && !sp.inS ==> Scan(sp, ['\\', c] + t) == Scan(sp.(cur := sp.cur + [c], any := true), t)
    ensures sp.inS && !sp.inD ==> Scan(sp, ['\\'] + t) == Scan(sp.(cur := sp.cur + ['\\'], any := true), t)
  {
    assert (['\\', c] + t)[2..] == t && (['\\'] + t)[1..] == t;
  }

  /** A backslash at the end of the line is a character like any other. */
  lemma LastBackslash(sp: Split, s: string)
    requires !sp.inS && !sp.inD && s == ['\\']
    ensures Scan(sp, s) == sp.(cur := sp.cur + ['\\'], any := true)
  {
    assert s[0] == '\\' && |s| == 1 && s[1..] == "";
    var after := sp.(cur := sp.cur + ['\\'], any := true);
    assert Scan(after, "") == after;
    assert Scan(sp, s) == Scan(after, s[1..]);
  }
}
