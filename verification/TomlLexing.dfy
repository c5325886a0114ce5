/** What the string state and the printed strings are, said over texts put together from quotes, bodies and comments. */
module TomlLexing {
  import opened Basics
  import opened Text
  import opened TomlText
  import opened TomlScan
  import opened TomlHeaders

  // ----- the string state -----

  /** No quote of the kind and no backslash. */
  predicate Free(body: string, q: char) {
    forall i :: 0 <= i < |body| ==> body[i] != q && body[i] != '\\'
  }

  lemma ThreeQuotes(s: string, q: char)
    ensures HasPrefix(s, [q, q, q]) ==> |s| >= 3 && s[0] == s[1] == q
  {
    assert |s| >= 3 ==> s[..3] == [s[0], s[1], s[2]];
  }

  lemma InsideSkips(s: string, q: char)
    requires s != "" && s[0] != q && s[0] != '\\'
    ensures StateAfter(s, Inside(q)) == StateAfter(s[1..], Inside(q))
  {
    ThreeQuotes(s, q);
  }

  /** Inside a multi-line string a free text is skipped. */
  lemma {:induction false} FreeIsSkipped(body: string, t: string, q: char)
    requires Free(body, q)
    ensures StateAfter(body + t, Inside(q)) == StateAfter(t, Inside(q))
    decreases |body|
  {
    var s := body + t;
    if body == "" {
      assert s == t;
    } else {
      InsideSkips(s, q);
      assert s[1..] == body[1..] + t;
      FreeIsSkipped(body[1..], t, q);
    }
  }

  /** Three quotes open a multi-line string, and a free text does not close it. */
  lemma MultilineOpens(body: string, q: char)
    requires IsQuote(q) && Free(body, q)
    ensures StateAfter([q, q, q] + body, Plain) == Inside(q) && StateAfter(body, Inside(q)) == Inside(q)
  {
    var s := [q, q, q] + body;
    assert s[..3] == [q, q, q] && s[3..] == body;
    FreeIsSkipped(body, "", q);
    assert body + "" == body;
  }

  /** Three quotes of the kind close it, and the text goes on outside; other quotes do not close it. */
  lemma MultilineCloses(body: string, q: char, rest: string)
    requires IsQuote(q) && Free(body, q) && (rest == "" || rest[0] != q)
    ensures StateAfter(body + ([q, q, q] + rest), Inside(q)) == StateAfter(rest, Plain)
  {
    FreeIsSkipped(body, [q, q, q] + rest, q);
    ClosingRun([q, q, q] + rest, q, rest);
  }

  lemma ClosingRun(s: string, q: char, rest: string)
    requires IsQuote(q) && s == [q, q, q] + rest && (rest == "" || rest[0] != q)
    ensures StateAfter(s, Inside(q)) == StateAfter(rest, Plain)
  {
    assert s[..3] == [q, q, q] && s[3..] == rest;
    assert RunLength(rest, q) == 0 && Drop(rest, 0) == rest;
  }

  /** Inside a string in double quotes a backslash takes the next character with it; in single quotes it is a text. */
  lemma BackslashInside(c: char, t: string)
    ensures StateAfter(['\\', c] + t, Inside('"')) == StateAfter(t, Inside('"'))
    ensures StateAfter(['\\'] + t, Inside('\'')) == StateAfter(t, Inside('\''))
  {
    var s, l := ['\\', c] + t, ['\\'] + t;
    assert s[2..] == t && l[1..] == t;
    ThreeQuotes(l, '\'');
  }

  /** Outside strings the rest of the line after a number sign does not matter. */
  lemma CommentEndsLine(p: string, s: string)
    requires forall i :: 0 <= i < |p| ==> Neutral(p[i])
    ensures StateAfter(p + ("#" + s), Plain) == Plain
  {
    NeutralBefore(p, "#" + s);
  }

  /** A string of one line in single quotes is skipped, whatever else is in it. */
  lemma LiteralIsSkipped(body: string, rest: string)
    requires '\'' !in body && body != ""
    ensures StateAfter("'" + body + "'" + rest, Plain) == StateAfter(rest, Plain)
  {
    var s := "'" + body + "'" + rest;
    LiteralEnd(body, "'" + rest);
    assert s[1..] == body + ("'" + rest);
    assert s[1] == body[0];
    assert body[0] in body;
    ThreeQuotes(s, '\'');
    assert Drop(s[1..], |body| + 1) == rest;
  }

  lemma {:induction false} LiteralEnd(body: string, t: string)
    requires '\'' !in body && t != "" && t[0] == '\''
    ensures StringEnd(body + t, '\'') == |body|
  {
    if body == "" {
      assert body + t == t;
    } else {
      assert (body + t)[1..] == body[1..] + t;
      assert body[0] in body;
      LiteralEnd(body[1..], t);
    }
  }

  // ----- printed keys and strings -----

  lemma {:induction false} BodyIsLonger(s: string)
    ensures |JsonBody(s)| >= |s|
  {
    if s != "" {
      BodyIsLonger(s[1..]);
      CharIsLonger(s[0]);
    }
  }

  lemma CharIsLonger(c: char)
    ensures |JsonChar(c)| >= 1
  {
  }

  /** A key is printed as it is exactly when it has letters, digits, underscores and hyphens only, and some. */
  lemma KeyIsBareIff(s: string)
    ensures TomlKey(s) == s <==>
            s != "" && forall i :: 0 <= i < |s| ==>
              'a' <= s[i] <= 'z' || 'A' <= s[i] <= 'Z' || '0' <= s[i] <= '9' || s[i] == '_' || s[i] == '-'
  {
    BodyIsLonger(s);
    if Bare(s) {
      forall i | 0 <= i < |s| ensures 'a' <= s[i] <= 'z' || 'A' <= s[i] <= 'Z' || '0' <= s[i] <= '9' || s[i] == '_' || s[i] == '-' {
        assert BareChar(s[i]);
      }
    } else {
      assert |TomlKey(s)| > |s|;
    }
  }

  lemma CharIsSafe(c: char)
    ensures forall i :: 0 <= i < |JsonChar(c)| ==>
              JsonChar(c)[i] >= ' ' && JsonChar(c)[i] !in {'<', '>', '&', '\U{2028}', '\U{2029}'}
  {
  }

  /** A printed string has no control character, no angle bracket or ampersand, and no separator of lines or paragraphs. */
  lemma {:induction false} JsonIsSafe(s: string)
    ensures forall i :: 0 <= i < |JsonBody(s)| ==>
              JsonBody(s)[i] >= ' ' && JsonBody(s)[i] !in {'<', '>', '&', '\U{2028}', '\U{2029}'}
  {
    if s != "" {
      JsonIsSafe(s[1..]);
      CharIsSafe(s[0]);
      SafeSum(JsonChar(s[0]), JsonBody(s[1..]));
    }
  }

  lemma SafeSum(a: string, b: string)
    requires forall i :: 0 <= i < |a| ==> a[i] >= ' ' && a[i] !in {'<', '>', '&', '\U{2028}', '\U{2029}'}
    requires forall i :: 0 <= i < |b| ==> b[i] >= ' ' && b[i] !in {'<', '>', '&', '\U{2028}', '\U{2029}'}
    ensures forall i :: 0 <= i < |a + b| ==> (a + b)[i] >= ' ' && (a + b)[i] !in {'<', '>', '&', '\U{2028}', '\U{2029}'}
  {
  }
}
