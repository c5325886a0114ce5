/** White space, as Go's strings.TrimSpace sees it, prefixes, and the first occurrence of a character. */
module Text {

  /** The white space of Unicode. */
  predicate IsSpace(c: char) {
    || '\t' <= c <= '\r' || c == ' ' || c == '\U{85}' || c == '\U{A0}' || c == '\U{1680}' || '\U{2000}' <= c <= '\U{200A}'
    || c == '\U{2028}' || c == '\U{2029}' || c == '\U{202F}' || c == '\U{205F}' || c == '\U{3000}'
  }

  function TrimLeft(s: string): string {
    if s != "" && IsSpace(s[0]) then TrimLeft(s[1..]) else s
  }

  function TrimRight(s: string): string {
    if s != "" && IsSpace(s[|s| - 1]) then TrimRight(s[..|s| - 1]) else s
  }

  function Trim(s: string): string {
    TrimLeft(TrimRight(s))
  }

  predicate HasPrefix(s: string, p: string) {
    |p| <= |s| && s[..|p|] == p
  }

  function Drop(s: string, n: nat): string {
    if n <= |s| then s[n..] else ""
  }

  /** The first position of c, or the length of s. */
  function IndexOf(s: string, c: char): (k: nat)
    ensures k <= |s| && (forall i :: 0 <= i < k ==> s[i] != c) && (k < |s| ==> s[k] == c)
  {
    if s == "" || s[0] == c then 0 else 1 + IndexOf(s[1..], c)
  }

  lemma IndexOfUnique(s: string, c: char, k: nat)
    requires k < |s| && s[k] == c && forall i :: 0 <= i < k ==> s[i] != c
    ensures IndexOf(s, c) == k
  {
  }

  // ----- trimming -----

  /** The white space after a text does not matter. */
  lemma TrimAfter(s: string, c: char)
    requires IsSpace(c)
    ensures Trim(s + [c]) == Trim(s)
  {
    assert (s + [c])[..|s|] == s;
  }

  lemma {:induction false} TrimRightHead(s: string)
    requires s != "" && !IsSpace(s[0])
    ensures TrimRight(s) != "" && TrimRight(s)[0] == s[0]
  {
    if |s| > 1 && IsSpace(s[|s| - 1]) {
      TrimRightHead(s[..|s| - 1]);
    }
  }

  /** A text that starts with a visible character keeps it; one that also ends with one stays as it is. */
  lemma TrimVisible(s: string)
    requires s != "" && !IsSpace(s[0])
    ensures Trim(s) != "" && Trim(s)[0] == s[0]
    ensures !IsSpace(s[|s| - 1]) ==> Trim(s) == s
  {
    TrimRightHead(s);
  }

  lemma {:induction false} TrimLeftIsSuffix(s: string)
    ensures |TrimLeft(s)| <= |s| && TrimLeft(s) == s[|s| - |TrimLeft(s)|..]
    ensures forall k :: 0 <= k < |s| - |TrimLeft(s)| ==> IsSpace(s[k])
  {
    if s != "" && IsSpace(s[0]) {
      TrimLeftIsSuffix(s[1..]);
      forall k | 0 <= k < |s| - |TrimLeft(s)| ensures IsSpace(s[k]) {
        assert k > 0 ==> s[k] == s[1..][k - 1];
      }
    }
  }

  lemma {:induction false} TrimLeftSettled(s: string)
    ensures var r := TrimLeft(s); r != "" ==> !IsSpace(r[0])
  {
    if s != "" && IsSpace(s[0]) {
      TrimLeftSettled(s[1..]);
    }
  }

  lemma {:induction false} TrimRightIsPrefix(s: string)
    ensures |TrimRight(s)| <= |s| && TrimRight(s) == s[..|TrimRight(s)|]
    ensures TrimRight(s) != "" ==> !IsSpace(s[|TrimRight(s)| - 1])
  {
    if s != "" && IsSpace(s[|s| - 1]) {
      TrimRightIsPrefix(s[..|s| - 1]);
    }
  }

  lemma TrimShrinks(s: string)
    ensures |Trim(s)| <= |s|
  {
    TrimRightIsPrefix(s);
    TrimLeftIsSuffix(TrimRight(s));
  }

  /** A text that ends visibly still does when white space before it is dropped. */
  lemma TrimLeftEnd(r: string)
    requires r != "" ==> !IsSpace(r[|r| - 1])
    ensures var l := TrimLeft(r); l != "" ==> l[|l| - 1] == r[|r| - 1]
  {
    TrimLeftIsSuffix(r);
  }

  /** A trimmed text has visible ends and stays as it is when trimmed again. */
  lemma TrimEnds(s: string)
    ensures var t := Trim(s); t != "" ==> !IsSpace(t[0]) && !IsSpace(t[|t| - 1])
    ensures TrimRight(Trim(s)) == Trim(s)
  {
    TrimRightIsPrefix(s);
    TrimLeftSettled(TrimRight(s));
    TrimLeftEnd(TrimRight(s));
  }

  lemma TrimSettled(s: string)
    ensures Trim(Trim(s)) == Trim(s)
  {
    TrimEnds(s);
  }

  /** Trimming adds no character. */
  lemma TrimLacks(s: string, c: char)
    requires c !in s
    ensures c !in Trim(s) && c !in TrimRight(s)
  {
    TrimRightIsPrefix(s);
    TrimLeftIsSuffix(TrimRight(s));
  }

  /** A visible character stops the trimming from the right. */
  lemma {:induction false} TrimRightAfter(p: string, v: string)
    requires p != "" && !IsSpace(p[|p| - 1])
    ensures TrimRight(p + v) == p + TrimRight(v)
  {
    if v == "" {
      assert p + v == p;
    } else if IsSpace(v[|v| - 1]) {
      assert (p + v)[..|p + v| - 1] == p + v[..|v| - 1];
      TrimRightAfter(p, v[..|v| - 1]);
    }
  }

  lemma TrimRightSettled(s: string)
    ensures TrimRight(TrimRight(s)) == TrimRight(s) && Trim(TrimRight(s)) == Trim(s)
  {
    TrimRightIsPrefix(s);
  }

  lemma TrimOfVisible(s: string)
    requires s != "" && !IsSpace(s[0])
    ensures Trim(s) == TrimRight(s)
  {
    TrimRightHead(s);
  }
}
