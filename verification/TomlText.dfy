/** Strings and keys of the TOML table editor. Text is a sequence of Unicode scalar values, as valid UTF-8 is;
    decoded keys are bytes, since an escape may produce any byte. */
module TomlText {
  import opened Basics
  import opened Text

  // ----- UTF-8 -----

  function Utf8Char(n: int): seq<byte>
    requires 0 <= n < 0x11_0000
  {
    if n < 0x80 then [n]
    else if n < 0x800 then [0xC0 + n / 64, 0x80 + n % 64]
    else if n < 0x1_0000 then [0xE0 + n / 4096, 0x80 + n / 64 % 64, 0x80 + n % 64]
    else [0xF0 + n / 262144, 0x80 + n / 4096 % 64, 0x80 + n / 64 % 64, 0x80 + n % 64]
  }

  function Utf8(s: string): seq<byte> {
    if s == "" then [] else Utf8Char(s[0] as int) + Utf8(s[1..])
  }

  // ----- JSON strings -----

  function HexChar(n: int): char
    requires 0 <= n < 16
  {
    if n < 10 then ('0' as int + n) as char else ('a' as int + n - 10) as char
  }

  function JsonChar(c: char): string {
    if c == '"' || c == '\\' then ['\\', c]
    else if c == '\U{8}' then "\\b"
    else if c == '\U{C}' then "\\f"
    else if c == '\n' then "\\n"
    else if c == '\r' then "\\r"
    else if c == '\t' then "\\t"
    else if c < ' ' || c in "<>&" then "\\u00" + [HexChar(c as int / 16), HexChar(c as int % 16)]
    else if c == '\U{2028}' then "\\u2028"
    else if c == '\U{2029}' then "\\u2029"
    else [c]
  }

  function JsonBody(s: string): string {
    if s == "" then "" else JsonChar(s[0]) + JsonBody(s[1..])
  }

  function JsonQuote(s: string): string {
    "\"" + JsonBody(s) + "\""
  }

  function JsonItems(args: seq<string>): string {
    if args == [] then "]"
    else JsonQuote(args[0]) + (if |args| == 1 then "]" else "," + JsonItems(args[1..]))
  }

  function JsonList(args: seq<string>): string {
    "[" + JsonItems(args)
  }

  // ----- strings in double quotes, decoded -----

  function HexDigit(c: char): Option<int> {
    if '0' <= c <= '9' then Some(c as int - '0' as int)
    else if 'a' <= c <= 'f' then Some(c as int - 'a' as int + 10)
    else if 'A' <= c <= 'F' then Some(c as int - 'A' as int + 10)
    else None
  }

  function HexNumber(s: string): Option<int>
    ensures HexNumber(s).Some? ==> 0 <= HexNumber(s).value
  {
    if s == "" then Some(0)
    else
      var high := HexNumber(s[..|s| - 1]);
      var low := HexDigit(s[|s| - 1]);
      if high.Some? && low.Some? then Some(16 * high.value + low.value) else None
  }

  predicate ScalarValue(n: int) {
    0 <= n < 0xD800 || 0xE000 <= n < 0x11_0000
  }

  /** The bytes of the first character or escape of a string in double quotes, and the text after it. */
  function UnquoteOne(s: string): (r: Option<(seq<byte>, string)>)
    requires s != ""
    ensures r.Some? ==> |r.value.1| < |s|
  {
    var c := s[0];
    if c == '"' || c == '\n' then None
    else if c != '\\' then Some((Utf8Char(c as int), s[1..]))
    else if |s| < 2 then None
    else
      var rest := s[2..];
      match s[1]
      case 'a' => Some(([7], rest))
      case 'b' => Some(([8], rest))
      case 'f' => Some(([12], rest))
      case 'n' => Some(([10], rest))
      case 'r' => Some(([13], rest))
      case 't' => Some(([9], rest))
      case 'v' => Some(([11], rest))
      case '\\' => Some(([92], rest))
      case '"' => Some(([34], rest))
      case 'x' => UnquoteHex(rest, 2, true)
      case 'u' => UnquoteHex(rest, 4, false)
      case 'U' => UnquoteHex(rest, 8, false)
      case d =>
        if '0' <= d <= '7' && |rest| >= 2 && '0' <= rest[0] <= '7' && '0' <= rest[1] <= '7' then
          var v := 64 * (d as int - '0' as int) + 8 * (rest[0] as int - '0' as int) + (rest[1] as int - '0' as int);
          if v < 256 then Some(([v], rest[2..])) else None
        else None
  }

  function UnquoteHex(rest: string, n: nat, raw: bool): (r: Option<(seq<byte>, string)>)
    ensures r.Some? ==> |r.value.1| <= |rest|
  {
    if |rest| < n then None
    else
      var v := HexNumber(rest[..n]);
      if v.None? then None
      else if raw then (if v.value < 256 then Some(([v.value], rest[n..])) else None)
      else if ScalarValue(v.value) then Some((Utf8Char(v.value), rest[n..])) else None
  }

  function Unquote(s: string): Option<seq<byte>>
    decreases |s|
  {
    if s == "" then Some([])
    else
      var one := UnquoteOne(s);
      if one.None? then None
      else
        var more := Unquote(one.value.1);
        if more.None? then None else Some(one.value.0 + more.value)
  }

  // ----- decoding undoes quoting -----

  lemma HexNumberOfTwo(h: char, l: char)
    requires HexDigit(h).Some? && HexDigit(l).Some?
    ensures HexNumber(['0', '0', h, l]) == Some(16 * HexDigit(h).value + HexDigit(l).value)
  {
    assert ['0', '0', h, l][..3] == ['0', '0', h];
    assert ['0', '0', h][..2] == ['0', '0'] && ['0', '0'][..1] == ['0'] && ['0'][..0] == "";
    assert HexNumber(['0']) == HexNumber(['0', '0']) == Some(0);
    assert HexNumber(['0', '0', h]) == HexDigit(h);
  }

  lemma HexNumberOfSeparators()
    ensures HexNumber("2028") == Some(0x2028) && HexNumber("2029") == Some(0x2029)
  {
    assert "2028"[..3] == "202" && "2029"[..3] == "202" && "202"[..2] == "20" && "20"[..1] == "2" && "2"[..0] == "";
  }

  lemma UnquoteJsonChar(c: char, t: string)
    ensures UnquoteOne(JsonChar(c) + t) == Some((Utf8Char(c as int), t))
  {
    var s := JsonChar(c) + t;
    if |JsonChar(c)| == 6 {
      assert s[2..][4..] == t;
      assert s[2..][..4] == JsonChar(c)[2..];
      if c < ' ' || c in "<>&" {
        assert JsonChar(c)[2..] == ['0', '0', HexChar(c as int / 16), HexChar(c as int % 16)];
        HexDigits(c as int / 16);
        HexDigits(c as int % 16);
        HexNumberOfTwo(HexChar(c as int / 16), HexChar(c as int % 16));
      } else {
        assert JsonChar(c)[2..] == if c == '\U{2028}' then "2028" else "2029";
        HexNumberOfSeparators();
      }
    } else {
      assert s[|JsonChar(c)|..] == t;
    }
  }

  lemma HexDigits(n: int)
    requires 0 <= n < 16
    ensures HexDigit(HexChar(n)) == Some(n)
  {
  }

  /** Decoding a JSON-quoted text gives its UTF-8 bytes. */
  lemma {:induction false} UnquoteUndoesQuote(s: string)
    ensures Unquote(JsonBody(s)) == Some(Utf8(s))
  {
    if s != "" {
      UnquoteJsonChar(s[0], JsonBody(s[1..]));
      UnquoteUndoesQuote(s[1..]);
      assert JsonBody(s) != "";
    }
  }

  lemma {:induction false} JsonBodyOneLine(s: string)
    ensures '\n' !in JsonBody(s)
  {
    if s != "" {
      JsonBodyOneLine(s[1..]);
      JsonCharOneLine(s[0]);
    }
  }

  lemma JsonCharOneLine(c: char)
    ensures '\n' !in JsonChar(c)
  {
  }

  lemma {:induction false} JsonItemsOneLine(args: seq<string>)
    ensures '\n' !in JsonItems(args)
  {
    if args != [] {
      JsonBodyOneLine(args[0]);
      if |args| > 1 {
        JsonItemsOneLine(args[1..]);
      }
    }
  }
}
