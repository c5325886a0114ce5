/** What removing a table from a TOML text removes, and that removing it again changes nothing. */
module TomlStrip {
  import opened Basics
  import opened Text
  import opened TomlText
  import opened TomlScan
  import opened TomlHeaders

  // ----- which lines belong to the server, said over line numbers -----

  function StateBefore(ls: seq<string>, i: nat): StrState
    requires i <= |ls|
  {
    if i == 0 then Plain else StateAfter(ls[i - 1], StateBefore(ls, i - 1))
  }

  predicate HeaderAt(ls: seq<string>, i: nat)
    requires i < |ls|
  {
    IsHeader(ls[i], StateBefore(ls, i))
  }

  /** Line h is the last header at or before line i. */
  predicate Governs(ls: seq<string>, h: nat, i: nat) {
    h <= i < |ls| && HeaderAt(ls, h) && forall k :: h < k <= i ==> !HeaderAt(ls, k)
  }

  predicate NamesAt(ls: seq<string>, h: nat, id: string)
    requires h < |ls|
  {
    var keys := TableKeys(Trim(ls[h]));
    keys.Some? && Names(keys.value, id)
  }

  /** Line i lies in a table of the server. */
  predicate Owned(ls: seq<string>, i: nat, id: string)
    requires i < |ls|
  {
    exists h :: 0 <= h <= i && Governs(ls, h, i) && NamesAt(ls, h, id)
  }

  /** The lines outside the server's tables, in order. */
  function Keep(ls: seq<string>, n: nat, id: string): seq<string>
    requires n <= |ls|
  {
    if n == 0 then []
    else if Owned(ls, n - 1, id) then Keep(ls, n - 1, id)
    else Keep(ls, n - 1, id) + [ls[n - 1]]
  }

  lemma {:induction false} ScanPrefix(ls: seq<string>, n: nat, id: string)
    requires n <= |ls| && ScanLines(ls, id).Some?
    ensures ScanLines(ls[..n], id).Some?
    decreases |ls| - n
  {
    if n == |ls| {
      assert ls[..n] == ls;
    } else {
      ScanPrefix(ls, n + 1, id);
      assert ls[..n + 1][..n] == ls[..n];
    }
  }

  lemma ConcatSnoc(ls: seq<string>, line: string)
    ensures Concat(ls + [line]) == Concat(ls) + line
  {
    assert (ls + [line])[..|ls|] == ls;
  }

  lemma ScanSnoc(ls: seq<string>, line: string, id: string)
    requires ScanLines(ls, id).Some?
    ensures ScanLines(ls + [line], id) == Step(ScanLines(ls, id).value, line, id)
  {
    assert (ls + [line])[..|ls|] == ls;
  }

  /** What the scanner knows after n lines. */
  predicate Tracks(ls: seq<string>, n: nat, id: string, sc: Scan)
    requires n <= |ls|
  {
    && sc.state == StateBefore(ls, n)
    && sc.out == Concat(Keep(ls, n, id))
    && (n == 0 ==> !sc.skip)
    && (n > 0 ==> (sc.skip <==> Owned(ls, n - 1, id)))
    && (sc.found <==> exists h :: 0 <= h < n && HeaderAt(ls, h) && NamesAt(ls, h, id))
  }

  lemma OwnedStep(ls: seq<string>, n: nat, id: string)
    requires n < |ls|
    ensures HeaderAt(ls, n) ==> (Owned(ls, n, id) <==> NamesAt(ls, n, id))
    ensures !HeaderAt(ls, n) ==> (Owned(ls, n, id) <==> n > 0 && Owned(ls, n - 1, id))
  {
    if HeaderAt(ls, n) {
      assert Governs(ls, n, n);
      if Owned(ls, n, id) {
        var h :| 0 <= h <= n && Governs(ls, h, n) && NamesAt(ls, h, id);
        assert h == n;
      }
    } else {
      GovernsStep(ls, n);
      if Owned(ls, n, id) {
        var h :| 0 <= h <= n && Governs(ls, h, n) && NamesAt(ls, h, id);
        assert Governs(ls, h, n - 1);
      }
    }
  }

  lemma GovernsStep(ls: seq<string>, n: nat)
    requires n < |ls| && !HeaderAt(ls, n)
    ensures forall h :: Governs(ls, h, n) <==> n > 0 && Governs(ls, h, n - 1)
  {
  }

  lemma {:induction false} ScanTracks(ls: seq<string>, n: nat, id: string)
    requires n <= |ls| && ScanLines(ls[..n], id).Some?
    ensures Tracks(ls, n, id, ScanLines(ls[..n], id).value)
  {
    if n > 0 {
      assert ls[..n][..n - 1] == ls[..n - 1];
      ScanTracks(ls, n - 1, id);
      TracksStep(ls, n - 1, id, ScanLines(ls[..n - 1], id).value);
    }
  }

  lemma TracksStep(ls: seq<string>, n: nat, id: string, sc: Scan)
    requires n < |ls| && Tracks(ls, n, id, sc) && Step(sc, ls[n], id).Some?
    ensures Tracks(ls, n + 1, id, Step(sc, ls[n], id).value)
  {
    OwnedStep(ls, n, id);
    ConcatSnoc(Keep(ls, n, id), ls[n]);
    FoundStep(ls, n, id, sc);
  }

  lemma FoundStep(ls: seq<string>, n: nat, id: string, sc: Scan)
    requires n < |ls| && sc.state == StateBefore(ls, n) && Step(sc, ls[n], id).Some?
    ensures Step(sc, ls[n], id).value.found <==> sc.found || (HeaderAt(ls, n) && NamesAt(ls, n, id))
    ensures HeaderAt(ls, n) ==> (Step(sc, ls[n], id).value.skip <==> NamesAt(ls, n, id))
    ensures !HeaderAt(ls, n) ==> Step(sc, ls[n], id).value.skip == sc.skip
  {
  }

  /** On success the output is exactly the lines outside the server's tables, in order, and `found` says
      whether there is such a table. */
  lemma StripRemovesExactlyTheTables(s: string, id: string)
    requires Strip(s, id).Some?
    ensures var ls := SplitAfter(s);
            && Strip(s, id).value.0 == Concat(Keep(ls, |ls|, id))
            && (Strip(s, id).value.1 <==> exists h :: 0 <= h < |ls| && HeaderAt(ls, h) && NamesAt(ls, h, id))
            && StateBefore(ls, |ls|) == Plain
  {
    var ls := SplitAfter(s);
    assert ls[..|ls|] == ls;
    ScanTracks(ls, |ls|, id);
  }

  // ----- lines and text -----

  /** A piece that ends in its only newline. */
  predicate FullLine(line: string) {
    line != "" && IndexOf(line, '\n') == |line| - 1
  }

  lemma {:induction false} SplitShape(s: string)
    ensures var ls := SplitAfter(s);
            && (forall i :: 0 <= i < |ls| - 1 ==> FullLine(ls[i]))
            && '\n' !in ls[|ls| - 1]
  {
    var k := IndexOf(s, '\n');
    if k < |s| {
      SplitShape(s[k + 1..]);
      IndexOfUnique(s[..k + 1], '\n', k);
      FirstShape(s[..k + 1], SplitAfter(s[k + 1..]));
    }
  }

  lemma FirstShape(line: string, rest: seq<string>)
    requires FullLine(line) && rest != [] && forall i :: 0 <= i < |rest| - 1 ==> FullLine(rest[i])
    ensures var ls := [line] + rest;
            ls[|ls| - 1] == rest[|rest| - 1] && forall i :: 0 <= i < |ls| - 1 ==> FullLine(ls[i])
  {
  }

  lemma SplitHead(line: string, t: string)
    requires FullLine(line)
    ensures SplitAfter(line + t) == [line] + SplitAfter(t)
  {
    var s := line + t;
    var k := |line| - 1;
    assert s[k] == line[k] && forall i :: 0 <= i < k ==> s[i] == line[i];
    IndexOfUnique(s, '\n', k);
    assert s[..k + 1] == line && s[k + 1..] == t;
  }

  lemma ConcatMove(ls: seq<string>, t: string)
    requires ls != []
    ensures var n := |ls| - 1; Concat(ls) + t == Concat(ls[..n]) + (ls[n] + t)
  {
  }

  lemma AppendMove(front: seq<string>, line: string, ls: seq<string>, back: seq<string>)
    requires ls == front + [line]
    ensures front + ([line] + back) == ls + back
  {
  }

  /** Cutting a text that was put together from full lines and a rest gives these lines and the cut rest. */
  lemma {:induction false} SplitConcat(ls: seq<string>, t: string)
    requires forall i :: 0 <= i < |ls| ==> FullLine(ls[i])
    ensures SplitAfter(Concat(ls) + t) == ls + SplitAfter(t)
  {
    if ls == [] {
      assert Concat(ls) + t == t;
      assert ls + SplitAfter(t) == SplitAfter(t);
    } else {
      var n := |ls| - 1;
      SplitHead(ls[n], t);
      SplitConcat(ls[..n], ls[n] + t);
      ConcatMove(ls, t);
      AppendMove(ls[..n], ls[n], ls, SplitAfter(t));
    }
  }

  lemma TwoParts(s: string, k: nat)
    requires k <= |s|
    ensures s[..k] + s[k..] == s
  {
  }

  lemma {:induction false} ConcatSplit(s: string)
    ensures Concat(SplitAfter(s)) == s
  {
    var k := IndexOf(s, '\n');
    if k < |s| {
      ConcatSplit(s[k + 1..]);
      ConcatCons(s[..k + 1], SplitAfter(s[k + 1..]));
      TwoParts(s, k + 1);
    } else {
      assert [s][..0] == [];
      assert "" + s == s;
    }
  }

  lemma {:induction false} ConcatCons(line: string, ls: seq<string>)
    ensures Concat([line] + ls) == line + Concat(ls)
  {
    if ls == [] {
      assert [line] + ls == [line] && [line][..0] == [];
      assert line + "" == line && "" + line == line;
    } else {
      var n := |ls| - 1;
      ConcatCons(line, ls[..n]);
      assert ([line] + ls)[..n + 1] == [line] + ls[..n];
      assert line + Concat(ls[..n]) + ls[n] == line + (Concat(ls[..n]) + ls[n]);
    }
  }

  // ----- a text without the server's table is returned as it is -----

  lemma {:induction false} NothingSkipped(ls: seq<string>, id: string)
    requires ScanLines(ls, id).Some?
    ensures var sc := ScanLines(ls, id).value;
            && (sc.skip ==> sc.found)
            && (!sc.found ==> sc.out == Concat(ls))
  {
    if ls != [] {
      NothingSkipped(ls[..|ls| - 1], id);
    }
  }

  /** If no table of the server was found, the output is the input. */
  lemma NotFoundIsIdentity(s: string, id: string)
    requires Strip(s, id).Some? && !Strip(s, id).value.1
    ensures Strip(s, id).value.0 == s
  {
    NothingSkipped(SplitAfter(s), id);
    ConcatSplit(s);
  }

  // ----- scanning the output again -----

  /** The scan of the kept lines follows the scan of all lines: while a table is being removed it waits
      outside any string, otherwise it is in the same state. */
  predicate Follows(sc: Scan, kept: Scan) {
    && !kept.skip && !kept.found && kept.out == sc.out
    && (sc.skip ==> kept.state == Plain)
    && (!sc.skip ==> kept.state == sc.state && kept.table == sc.table)
  }

  lemma FollowsStep(sc: Scan, kept: Scan, line: string, id: string)
    requires Follows(sc, kept) && Step(sc, line, id).Some?
    ensures Step(sc, line, id).value.skip ==> Follows(Step(sc, line, id).value, kept)
    ensures !Step(sc, line, id).value.skip ==>
              Step(kept, line, id).Some? && Follows(Step(sc, line, id).value, Step(kept, line, id).value)
  {
  }

  lemma {:induction false} KeptScan(ls: seq<string>, n: nat, id: string)
    requires n <= |ls| && ScanLines(ls[..n], id).Some?
    ensures var kept := ScanLines(Keep(ls, n, id), id);
            kept.Some? && Follows(ScanLines(ls[..n], id).value, kept.value)
  {
    if n > 0 {
      assert ls[..n][..n - 1] == ls[..n - 1];
      KeptScan(ls, n - 1, id);
      ScanTracks(ls, n, id);
      var front := Keep(ls, n - 1, id);
      FollowsStep(ScanLines(ls[..n - 1], id).value, ScanLines(front, id).value, ls[n - 1], id);
      ScanSnoc(front, ls[n - 1], id);
    }
  }

  lemma {:induction false} KeepFullLines(ls: seq<string>, n: nat, id: string)
    requires n <= |ls| && forall i :: 0 <= i < n ==> FullLine(ls[i])
    ensures forall i :: 0 <= i < |Keep(ls, n, id)| ==> FullLine(Keep(ls, n, id)[i])
  {
    if n > 0 {
      KeepFullLines(ls, n - 1, id);
      KeepTurn(ls, n - 1, id);
    }
  }

  lemma KeepTurn(ls: seq<string>, n: nat, id: string)
    requires n < |ls|
    ensures Keep(ls, n + 1, id) == Keep(ls, n, id) || Keep(ls, n + 1, id) == Keep(ls, n, id) + [ls[n]]
  {
  }

  lemma SplitOneLine(t: string)
    requires '\n' !in t
    ensures SplitAfter(t) == [t]
  {
    var k := IndexOf(t, '\n');
  }

  lemma EmptyLine(sc: Scan, id: string)
    ensures Step(sc, "", id) == Some(sc)
  {
    assert Trim("") == "";
    assert IndexOf("", '=') == 0;
    assert sc.out + "" == sc.out;
  }

  /** Removing is idempotent: the output is accepted again, contains no table of the server, and is returned as it is. */
  lemma StripIdempotent(s: string, id: string)
    requires Strip(s, id).Some?
    ensures Strip(Strip(s, id).value.0, id) == Some((Strip(s, id).value.0, false))
  {
    var ls := SplitAfter(s);
    var n := |ls| - 1;
    assert ls[..|ls|] == ls;
    StripRemovesExactlyTheTables(s, id);
    SplitShape(s);
    KeptScan(ls, |ls|, id);
    KeepFullLines(ls, n, id);
    var kept := ScanLines(Keep(ls, |ls|, id), id).value;
    var front := Keep(ls, n, id);
    var out := Strip(s, id).value.0;
    if Owned(ls, n, id) {
      SplitConcat(front, "");
      SplitOneLine("");
      assert out == Concat(front) + "";
      ScanSnoc(front, "", id);
      EmptyLine(kept, id);
    } else {
      ConcatSnoc(front, ls[n]);
      SplitConcat(front, ls[n]);
      SplitOneLine(ls[n]);
    }
  }
}
