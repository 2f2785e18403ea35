/** JSON strings over Go strings. A Go string is a sequence of bytes, written here as a string whose
    characters are below 256; escaping follows Go's encoder, which replaces invalid UTF-8. */
module JsonText {
  import opened Prelude

  // ---- UTF-8 ----

  predicate InRange(s: string, i: nat, lo: int, hi: int) {
    i < |s| && lo <= s[i] as int <= hi
  }

  /** The length of the UTF-8 sequence s starts with, 0 if it starts with none. */
  function RuneLen(s: string): (n: nat)
    requires s != ""
    ensures n <= |s|
  {
    var a := s[0] as int;
    if a < 0x80 then 1
    else if 0xC2 <= a <= 0xDF && InRange(s, 1, 0x80, 0xBF) then 2
    else if 0xE0 <= a <= 0xEF
         && InRange(s, 1, if a == 0xE0 then 0xA0 else 0x80, if a == 0xED then 0x9F else 0xBF)
         && InRange(s, 2, 0x80, 0xBF) then 3
    else if 0xF0 <= a <= 0xF4
         && InRange(s, 1, if a == 0xF0 then 0x90 else 0x80, if a == 0xF4 then 0x8F else 0xBF)
         && InRange(s, 2, 0x80, 0xBF) && InRange(s, 3, 0x80, 0xBF) then 4
    else 0
  }

  predicate ValidUtf8(s: string) {
    s == "" || (RuneLen(s) > 0 && ValidUtf8(s[RuneLen(s)..]))
  }

  /** U+FFFD, which stands in for an invalid byte. */
  const REPLACEMENT: string := [0xEF as char, 0xBF as char, 0xBD as char]

  /** How much of s is encoded next, and what a reader makes of it. */
  function UnitLen(s: string): nat
    requires s != ""
  {
    if RuneLen(s) == 0 then 1 else RuneLen(s)
  }

  function CleanUnit(s: string): string
    requires s != ""
  {
    if RuneLen(s) == 0 then REPLACEMENT else s[..RuneLen(s)]
  }

  /** s with every invalid byte replaced. */
  function Clean(s: string): string {
    if s == "" then "" else CleanUnit(s) + Clean(s[UnitLen(s)..])
  }

  lemma {:induction false} CleanIffValid(s: string)
    ensures |Clean(s)| >= |s|
    ensures Clean(s) == s <==> ValidUtf8(s)
  {
    if s != "" {
      var n := UnitLen(s);
      CleanIffValid(s[n..]);
      assert s == s[..n] + s[n..];
      if RuneLen(s) > 0 {
        assert Clean(s)[n..] == Clean(s[n..]);
      } else {
        assert |Clean(s)| > |s|;
      }
    }
  }

  // ---- Escaping ----

  function Hex(d: int): char
    requires 0 <= d < 16
  {
    "0123456789abcdef"[d]
  }

  function EscapeAscii(c: char): string
    requires c as int < 0x80
  {
    if c == '\"' then "\\\""
    else if c == '\\' then "\\\\"
    else if c as int == 8 then "\\b"
    else if c as int == 12 then "\\f"
    else if c == '\n' then "\\n"
    else if c == '\r' then "\\r"
    else if c == '\t' then "\\t"
    else if c as int < 0x20 || c == '<' || c == '>' || c == '&' then
      "\\u00" + [Hex(c as int / 16), Hex(c as int % 16)]
    else [c]
  }

  /** The line and paragraph separators, U+2028 and U+2029, are escaped although they are valid. */
  predicate IsSeparator(r: string) {
    |r| == 3 && r[0] as int == 0xE2 && r[1] as int == 0x80 && (r[2] as int == 0xA8 || r[2] as int == 0xA9)
  }

  function EscapeUnit(s: string): string
    requires s != ""
  {
    var n := RuneLen(s);
    if n == 0 then "\\ufffd"
    else if n == 1 then EscapeAscii(s[0])
    else if IsSeparator(s[..n]) then (if s[2] as int == 0xA8 then "\\u2028" else "\\u2029")
    else s[..n]
  }

  function Escape(s: string): string {
    if s == "" then "" else EscapeUnit(s) + Escape(s[UnitLen(s)..])
  }

  lemma {:induction false} EscapeGrowsSixfold(s: string)
    ensures |s| <= |Escape(s)| <= 6 * |s|
  {
    if s != "" {
      EscapeGrowsSixfold(s[UnitLen(s)..]);
    }
  }

  /** Nothing in an escaped string is a control character or could be taken for markup. */
  predicate IsSafe(s: string) {
    forall i :: 0 <= i < |s| ==> s[i] as int >= 0x20 && s[i] !in {'<', '>', '&'}
  }

  lemma AsciiIsSafe(c: char)
    requires c as int < 0x80
    ensures IsSafe(EscapeAscii(c))
  {
    if |EscapeAscii(c)| == 6 {
      HexIsSafe(c as int / 16);
      HexIsSafe(c as int % 16);
    }
  }

  lemma HexIsSafe(d: int)
    requires 0 <= d < 16
    ensures Hex(d) as int >= 0x30 && Hex(d) !in {'<', '>', '&'}
  {}

  lemma RuneIsSafe(s: string)
    requires s != "" && RuneLen(s) > 1
    ensures IsSafe(s[..RuneLen(s)])
  {
    assert s[0] as int >= 0x80 && s[1] as int >= 0x80;
    assert RuneLen(s) >= 3 ==> s[2] as int >= 0x80;
    assert RuneLen(s) >= 4 ==> s[3] as int >= 0x80;
  }

  lemma UnitIsSafe(s: string)
    requires s != ""
    ensures IsSafe(EscapeUnit(s))
  {
    if RuneLen(s) == 1 {
      AsciiIsSafe(s[0]);
    } else if RuneLen(s) > 1 {
      RuneIsSafe(s);
    }
  }

  lemma {:induction false} EscapedIsSafe(s: string)
    ensures IsSafe(Escape(s))
  {
    if s != "" {
      UnitIsSafe(s);
      EscapedIsSafe(s[UnitLen(s)..]);
    }
  }

  /** Printable characters that need no escape. */
  predicate IsPlain(s: string) {
    forall i :: 0 <= i < |s| ==> 0x20 <= s[i] as int < 0x80 && s[i] !in {'\"', '\\', '<', '>', '&'}
  }

  lemma PlainUnit(s: string)
    requires s != "" && IsPlain(s)
    ensures UnitLen(s) == 1 && EscapeUnit(s) + s[1..] == s
  {
    assert EscapeUnit(s) == [s[0]];
  }

  /** A plain string is written as it is. */
  lemma {:induction false} PlainIsUnescaped(s: string)
    requires IsPlain(s)
    ensures Escape(s) == s
  {
    if s != "" {
      PlainUnit(s);
      PlainIsUnescaped(s[1..]);
    }
  }

  // ---- Reading a string back ----

  function HexValue(c: char): (v: Option<int>)
    ensures v.Some? ==> 0 <= v.value < 16
  {
    if '0' <= c <= '9' then Some(c as int - '0' as int)
    else if 'a' <= c <= 'f' then Some(c as int - 'a' as int + 10)
    else if 'A' <= c <= 'F' then Some(c as int - 'A' as int + 10)
    else None
  }

  /** The UTF-8 bytes of a code point below 0x10000; a surrogate is replaced. */
  function Utf8(code: int): string
    requires 0 <= code < 0x10000
  {
    if code < 0x80 then [code as char]
    else if code < 0x800 then [(0xC0 + code / 0x40) as char, (0x80 + code % 0x40) as char]
    else if 0xD800 <= code < 0xE000 then REPLACEMENT
    else [(0xE0 + code / 0x1000) as char, (0x80 + code / 0x40 % 0x40) as char, (0x80 + code % 0x40) as char]
  }

  datatype Piece = Piece(text: string, len: nat)

  function FourHex(s: string): Option<int>
    requires |s| >= 4
    ensures FourHex(s).Some? ==> 0 <= FourHex(s).value < 0x10000
  {
    var a :- HexValue(s[0]);
    var b :- HexValue(s[1]);
    var c :- HexValue(s[2]);
    var d :- HexValue(s[3]);
    Some(((a * 16 + b) * 16 + c) * 16 + d)
  }

  /** One character or escape of a JSON string. */
  function NextPiece(s: string): Option<Piece>
    requires s != ""
  {
    if s[0] == '\\' then
      if |s| < 2 then None
      else if s[1] == '\"' || s[1] == '\\' || s[1] == '/' then Some(Piece([s[1]], 2))
      else if s[1] == 'b' then Some(Piece([8 as char], 2))
      else if s[1] == 'f' then Some(Piece([12 as char], 2))
      else if s[1] == 'n' then Some(Piece("\n", 2))
      else if s[1] == 'r' then Some(Piece("\r", 2))
      else if s[1] == 't' then Some(Piece("\t", 2))
      else if s[1] == 'u' && |s| >= 6 then
        var code :- FourHex(s[2..]);
        Some(Piece(Utf8(code), 6))
      else None
    else if s[0] as int < 0x20 then None
    else Some(Piece(CleanUnit(s), UnitLen(s)))
  }

  /** Reads up to the closing quote; answers with the value and what follows the quote. */
  function ReadString(s: string): Option<(string, string)>
    decreases |s|
  {
    if s == "" then None
    else if s[0] == '\"' then Some(("", s[1..]))
    else
      var piece :- NextPiece(s);
      if piece.len == 0 || piece.len > |s| then None
      else
        var tail :- ReadString(s[piece.len..]);
        Some((piece.text + tail.0, tail.1))
  }

  /** The UTF-8 bytes of any code point, after section 3 of RFC 3629. */
  function Rune(code: int): string
    requires 0 <= code < 0x11_0000
  {
    if code < 0x1_0000 then Utf8(code)
    else [(0xF0 + code / 0x4_0000) as char, (0x80 + code / 0x1000 % 0x40) as char,
          (0x80 + code / 0x40 % 0x40) as char, (0x80 + code % 0x40) as char]
  }

  predicate IsScalar(code: int) {
    0 <= code < 0x11_0000 && !(0xD800 <= code < 0xE000)
  }

  /** The code point of a sequence of one to four bytes. */
  function CodeOf(s: string): int
    requires 1 <= |s| <= 4
  {
    var a := s[0] as int;
    if |s| == 1 then a
    else if |s| == 2 then (a - 0xC0) * 0x40 + (s[1] as int - 0x80)
    else if |s| == 3 then ((a - 0xE0) * 0x40 + (s[1] as int - 0x80)) * 0x40 + (s[2] as int - 0x80)
    else (((a - 0xF0) * 0x40 + (s[1] as int - 0x80)) * 0x40 + (s[2] as int - 0x80)) * 0x40 + (s[3] as int - 0x80)
  }

  ghost predicate Recognized(code: int)
    requires IsScalar(code)
  {
    var r := Rune(code); r != "" && RuneLen(r) == |r| && CodeOf(r) == code
  }

  lemma ShortIsRecognized(code: int)
    requires 0 <= code < 0x800
    ensures Recognized(code)
  {}

  lemma ThreeBytesAreRecognized(code: int)
    requires 0x800 <= code < 0x1_0000 && IsScalar(code)
    ensures Recognized(code)
  {
    var r, a, b, c := Rune(code), code / 0x1000, code / 0x40 % 0x40, code % 0x40;
    assert code == (a * 0x40 + b) * 0x40 + c;
    assert r == [(0xE0 + a) as char, (0x80 + b) as char, (0x80 + c) as char];
  }

  lemma FourDigits(code: int)
    requires 0x1_0000 <= code < 0x11_0000
    ensures var a, b, c, d := code / 0x4_0000, code / 0x1000 % 0x40, code / 0x40 % 0x40, code % 0x40;
            && code == ((a * 0x40 + b) * 0x40 + c) * 0x40 + d
            && 0 <= a <= 4 && (a == 0 ==> b >= 0x10) && (a == 4 ==> b < 0x10)
  {
    var e, f := code / 0x40, code / 0x1000;
    assert e / 0x40 == f && f / 0x40 == code / 0x4_0000;
  }

  lemma FourByteRune(a: int, b: int, c: int, d: int)
    requires 0 <= a <= 4 && 0 <= b < 0x40 && 0 <= c < 0x40 && 0 <= d < 0x40
    requires (a == 0 ==> b >= 0x10) && (a == 4 ==> b < 0x10)
    ensures var r := [(0xF0 + a) as char, (0x80 + b) as char, (0x80 + c) as char, (0x80 + d) as char];
            RuneLen(r) == 4 && CodeOf(r) == ((a * 0x40 + b) * 0x40 + c) * 0x40 + d
  {}

  lemma FourBytesAreRecognized(code: int)
    requires 0x1_0000 <= code < 0x11_0000
    ensures Recognized(code)
  {
    FourDigits(code);
    FourByteRune(code / 0x4_0000, code / 0x1000 % 0x40, code / 0x40 % 0x40, code % 0x40);
  }

  /** Each code point that is no surrogate has one sequence, and that is recognized. */
  lemma RuneIsRecognized(code: int)
    requires IsScalar(code)
    ensures Recognized(code)
  {
    if code < 0x800 {
      ShortIsRecognized(code);
    } else if code < 0x1_0000 {
      ThreeBytesAreRecognized(code);
    } else {
      FourBytesAreRecognized(code);
    }
  }

  ghost predicate IsRune(s: string)
    requires 1 <= |s| <= 4
  {
    IsScalar(CodeOf(s)) && Rune(CodeOf(s)) == s
  }

  lemma ShortIsRune(s: string)
    requires 1 <= |s| <= 2 && RuneLen(s) == |s|
    ensures IsRune(s)
  {}

  lemma ThreeDigits(a: int, b: int, c: int)
    requires 0 <= b < 0x40 && 0 <= c < 0x40
    ensures var code := (a * 0x40 + b) * 0x40 + c;
            code / 0x1000 == a && code / 0x40 % 0x40 == b && code % 0x40 == c
  {
    DigitOff(a * 0x40 + b, c);
    DigitOff(a, b);
    DivideTwice((a * 0x40 + b) * 0x40 + c);
  }

  lemma ThreeBytesAreRune(s: string)
    requires |s| == 3 && RuneLen(s) == 3
    ensures IsRune(s)
  {
    ThreeDigits(s[0] as int - 0xE0, s[1] as int - 0x80, s[2] as int - 0x80);
  }

  lemma DigitOff(q: int, r: int)
    requires 0 <= r < 0x40
    ensures (q * 0x40 + r) / 0x40 == q && (q * 0x40 + r) % 0x40 == r
  {}

  lemma DivideTwice(code: int)
    ensures code / 0x1000 == code / 0x40 / 0x40
  {}

  lemma DivideThrice(code: int)
    ensures code / 0x4_0000 == code / 0x1000 / 0x40
  {}

  lemma FourDigitsBack(a: int, b: int, c: int, d: int)
    requires 0 <= b < 0x40 && 0 <= c < 0x40 && 0 <= d < 0x40
    ensures var code := ((a * 0x40 + b) * 0x40 + c) * 0x40 + d;
            code / 0x4_0000 == a && code / 0x1000 % 0x40 == b && code / 0x40 % 0x40 == c && code % 0x40 == d
  {
    DigitOff((a * 0x40 + b) * 0x40 + c, d);
    DigitOff(a * 0x40 + b, c);
    DigitOff(a, b);
    DivideTwice(((a * 0x40 + b) * 0x40 + c) * 0x40 + d);
    DivideThrice(((a * 0x40 + b) * 0x40 + c) * 0x40 + d);
  }

  lemma FourBytesAreRune(s: string)
    requires |s| == 4 && RuneLen(s) == 4
    ensures IsRune(s)
  {
    var a, b, c, d := s[0] as int - 0xF0, s[1] as int - 0x80, s[2] as int - 0x80, s[3] as int - 0x80;
    FourDigitsBack(a, b, c, d);
    assert a == 0 ==> b >= 0x10;
    assert a == 4 ==> b < 0x10;
    assert 0 < a < 4 ==> 0x1_0000 <= CodeOf(s) < 0x11_0000;
    assert s == [(0xF0 + a) as char, (0x80 + b) as char, (0x80 + c) as char, (0x80 + d) as char];
  }

  /** Nothing else is recognized: no overlong form, no surrogate, nothing beyond the last code point. */
  lemma RecognizedIsRune(s: string)
    requires s != "" && RuneLen(s) == |s|
    ensures |s| <= 4 && IsRune(s)
  {
    if |s| <= 2 {
      ShortIsRune(s);
    } else if |s| == 3 {
      ThreeBytesAreRune(s);
    } else {
      FourBytesAreRune(s);
    }
  }

  lemma RuneLenIsLocal(s: string, x: string)
    requires s != "" && RuneLen(s) > 0
    ensures var n := RuneLen(s); s[..n] + x != "" && RuneLen(s[..n] + x) == n
  {}

  lemma AsciiReadsBack(c: char, x: string)
    requires c as int < 0x80
    ensures var e := EscapeAscii(c);
            e + x != "" && (e + x)[0] != '\"' && NextPiece(e + x) == Some(Piece([c], |e|))
  {
    var e := EscapeAscii(c);
    if |e| == 6 {
      HexReadsBack(c as int, x);
      assert e == "\\u00" + [Hex(c as int / 16), Hex(c as int % 16)];
    } else if |e| == 2 {
      ShortReadsBack(c, x);
    } else {
      PlainReadsBack(c, x);
    }
  }

  lemma PlainReadsBack(c: char, x: string)
    requires c as int < 0x80 && |EscapeAscii(c)| == 1
    ensures var e := EscapeAscii(c); (e + x)[0] != '\"' && NextPiece(e + x) == Some(Piece([c], 1))
  {
    assert EscapeAscii(c) == [c];
    assert ([c] + x)[0] == c && RuneLen([c] + x) == 1;
  }

  lemma ShortReadsBack(c: char, x: string)
    requires c as int < 0x80 && |EscapeAscii(c)| == 2
    ensures var e := EscapeAscii(c); (e + x)[0] != '\"' && NextPiece(e + x) == Some(Piece([c], 2))
  {
    var e := EscapeAscii(c);
    assert (e + x)[0] == '\\' && (e + x)[1] == e[1];
  }

  lemma HexReadsBack(code: int, x: string)
    requires 0 <= code < 0x80
    ensures var e := "\\u00" + [Hex(code / 16), Hex(code % 16)];
            (e + x)[0] != '\"' && NextPiece(e + x) == Some(Piece([code as char], 6))
  {
    var e := "\\u00" + [Hex(code / 16), Hex(code % 16)];
    var t := (e + x)[2..];
    assert t[0] == '0' && t[1] == '0' && t[2] == Hex(code / 16) && t[3] == Hex(code % 16);
    HexValueOfHex(code / 16);
    HexValueOfHex(code % 16);
    assert FourHex(t) == Some(code);
  }

  lemma HexValueOfHex(d: int)
    requires 0 <= d < 16
    ensures HexValue(Hex(d)) == Some(d)
  {}

  lemma UnitReadsBack(s: string, x: string)
    requires s != ""
    ensures var e := EscapeUnit(s);
            e + x != "" && (e + x)[0] != '\"' && NextPiece(e + x) == Some(Piece(CleanUnit(s), |e|))
  {
    var n, e := RuneLen(s), EscapeUnit(s);
    if n == 1 {
      AsciiReadsBack(s[0], x);
      assert s[..1] == [s[0]];
    } else if n == 0 {
      assert (e + x)[2..][..4] == "fffd";
      assert FourHex((e + x)[2..]) == Some(0xFFFD);
    } else if IsSeparator(s[..n]) {
      var last := if s[2] as int == 0xA8 then '8' else '9';
      assert (e + x)[2..][..4] == ['2', '0', '2', last];
      assert s[..n] == [0xE2 as char, 0x80 as char, s[2]];
    } else {
      RuneLenIsLocal(s, x);
      assert (s[..n] + x)[..n] == s[..n];
    }
  }

  /** A string written and quoted reads back with its invalid bytes replaced. */
  lemma {:induction false} EscapedReadsBack(s: string, rest: string)
    ensures ReadString(Escape(s) + ("\"" + rest)) == Some((Clean(s), rest))
  {
    var end := "\"" + rest;
    if s == "" {
      assert Escape(s) + end == end && end[1..] == rest;
    } else {
      var e, tail := EscapeUnit(s), Escape(s[UnitLen(s)..]) + end;
      assert Escape(s) + end == e + tail;
      UnitReadsBack(s, tail);
      assert (e + tail)[|e|..] == tail;
      EscapedReadsBack(s[UnitLen(s)..], rest);
    }
  }
}
