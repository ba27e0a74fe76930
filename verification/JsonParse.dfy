/** The recursive-descent parser of cJSON.c over its `parse_buffer`. */
module JsonParse {
  import opened Basics
  import opened Json

  // ----- how much room an unescaped string needs

  /** The escape sequences the first pass over a string body counts. */
  function Escapes(s: string): nat
    decreases |s|
  {
    if s == "" then 0
    else if s[0] == '\\' && |s| >= 2 then 1 + Escapes(s[2..])
    else Escapes(s[1..])
  }

  lemma {:induction false} EscapesFit(s: string)
    ensures Escapes(s) <= |s|
    decreases |s|
  {
    if s != "" {
      EscapesFit(s[1..]);
      if |s| >= 2 { EscapesFit(s[2..]); }
    }
  }

  /** Starting one character later changes the count by at most one. */
  lemma {:induction false} EscapesShift(s: string)
    requires s != ""
    ensures Escapes(s[1..]) <= Escapes(s) + 1 && Escapes(s) <= Escapes(s[1..]) + 1
    decreases |s|
  {
    if s[0] == '\\' && |s| >= 2 {
      var t := s[1..];
      assert t[1..] == s[2..];
      if t[0] == '\\' && |t| >= 2 {
        assert t[2..] == s[2..][1..];
        EscapesShift(s[2..]);
      }
    }
  }

  lemma EscapesShiftFour(s: string)
    requires |s| >= 4
    ensures Escapes(s) <= Escapes(s[4..]) + 4
    ensures (forall i :: 0 <= i < 4 ==> s[i] != '\\') ==> Escapes(s) == Escapes(s[4..])
  {
    var a, b, c := s[1..], s[2..], s[3..];
    assert a[1..] == b && b[1..] == c && c[1..] == s[4..];
    assert a[0] == s[1] && b[0] == s[2] && c[0] == s[3];
    EscapesShift(s);
    EscapesShift(a);
    EscapesShift(b);
    EscapesShift(c);
  }

  lemma EscapesPair(s: string)
    requires |s| >= 2 && s[0] == '\\'
    ensures Escapes(s) == 1 + Escapes(s[2..])
  {
  }

  lemma Utf16Room(s: string)
    requires |s| >= 2 && s[0] == '\\' && s[1] == 'u' && Utf16(s).Some?
    ensures var (bytes, used) := Utf16(s).value; |bytes| + Escapes(s) <= used + Escapes(s[used..])
  {
    hide Utf8, Escapes, Hex4;
    var t := s[2..];
    EscapesPair(s);
    assert t[4..] == s[6..];
    EscapesShiftFour(t);
    Hex4Plain(t);
    var first := Hex4(t);
    if 0xD800 <= first <= 0xDBFF {
      var u := s[6..];
      assert u[2..] == s[8..] && u[0] == '\\' && u[1] == 'u';
      EscapesPair(u);
      assert s[8..][4..] == s[12..];
      EscapesShiftFour(s[8..]);
      Hex4Plain(s[8..]);
      Utf8Length(0x10000 + (first - 0xD800) * 1024 + (Hex4(s[8..]) - 0xDC00));
    } else {
      Utf8Length(first);
    }
  }

  lemma Hex4Plain(s: string)
    requires |s| >= 4
    ensures Hex4(s) != 0 ==> forall i :: 0 <= i < 4 ==> s[i] != '\\'
  {
  }

  lemma Utf8Length(cp: nat)
    requires cp < 0x110000
    ensures |Utf8(cp)| <= 4 && (cp < 0x10000 ==> |Utf8(cp)| <= 3) && (cp == 0 ==> |Utf8(cp)| == 1)
  {
  }

  lemma Hex4Digits(s: string)
    requires |s| >= 4
    ensures Hex4(s) != 0 ==> IsHex4(s)
    ensures IsHex4(s) ==> forall i :: 0 <= i < 4 ==> s[i] != '\\'
  {
  }

  /** The unescaped string never exceeds the body's length less its escapes, even where a malformed
      `\u` swallows a backslash and the two passes lose step. */
  lemma {:induction false} UnescapeFits(s: string)
    requires Unescape(s).Some?
    ensures |Unescape(s).value| + Escapes(s) <= |s|
    decreases |s|
  {
    hide Utf16;
    if s == "" {
    } else if s[0] != '\\' {
      UnescapeFits(s[1..]);
    } else if |s| < 2 {
      assert s[1..] == "";
    } else if s[1] == 'u' {
      Utf16Room(s);
      UnescapeFits(s[Utf16(s).value.1..]);
    } else {
      UnescapeFits(s[2..]);
    }
  }

  // ----- which bodies are read as the standard has it

  predicate IsHex4(s: string) {
    |s| >= 4 && forall i :: 0 <= i < 4 ==> HexValue(s[i]).Some?
  }

  /** What section 7 of RFC 8259 lets stand in a string unescaped. */
  predicate Unescaped(c: char) { c as int >= 32 && c != '"' && c != '\\' }

  /** No control character or quote stands by itself, every backslash has its character, and every `\u` its four
      hexadecimal digits. */
  predicate WellEscaped(s: string)
    decreases |s|
  {
    if s == "" then true
    else if s[0] != '\\' then Unescaped(s[0]) && WellEscaped(s[1..])
    else |s| >= 2 && (s[1] == 'u' ==> IsHex4(s[2..])) && WellEscaped(s[2..])
  }

  /** The characters a string body stands for by section 7 of RFC 8259; a surrogate without its other half
      stands for none (section 8.2). */
  function Standard(s: string): Option<string>
    decreases |s|
  {
    if s == "" then Some("")
    else if s[0] != '\\' then if Unescaped(s[0]) then Prepend([s[0]], Standard(s[1..])) else None
    else if |s| < 2 then None
    else if s[1] == 'u' then
      if !IsHex4(s[2..]) then None else
      var first := Hex4(s[2..]);
      if 0xD800 <= first <= 0xDFFF then
        if first >= 0xDC00 || |s| < 8 || s[6..8] != "\\u" || !IsHex4(s[8..]) then None else
        var second := Hex4(s[8..]);
        if !(0xDC00 <= second <= 0xDFFF) then None
        else Prepend(Utf8(0x10000 + (first - 0xD800) * 1024 + (second - 0xDC00)), Standard(s[12..]))
      else Prepend(Utf8(first), Standard(s[6..]))
    else match Control(s[1])
      case None => None
      case Some(c) => Prepend([c], Standard(s[2..]))
  }

  /** The two-character escapes. */
  function Control(c: char): Option<char> {
    match c
    case 'b' => Some('\U{8}')
    case 'f' => Some('\U{C}')
    case 'n' => Some('\n')
    case 'r' => Some('\r')
    case 't' => Some('\t')
    case '"' => Some('"')
    case '\\' => Some('\\')
    case '/' => Some('/')
    case _ => None
  }

  /** Four hexadecimal digits are passed over. */
  lemma HexPassed(s: string)
    requires IsHex4(s)
    ensures WellEscaped(s) == WellEscaped(s[4..])
  {
    var a, b, c := s[1..], s[2..], s[3..];
    assert a[1..] == b && b[1..] == c && c[1..] == s[4..];
    assert forall i :: 0 <= i < 4 ==> Unescaped(s[i]);
    assert WellEscaped(s) == WellEscaped(a) && WellEscaped(a) == WellEscaped(b);
    assert WellEscaped(b) == WellEscaped(c) && WellEscaped(c) == WellEscaped(s[4..]);
  }

  lemma StandardUnicode(s: string)
    requires |s| >= 2 && s[0] == '\\' && s[1] == 'u'
    ensures Standard(s).Some? ==> Utf16(s).Some? && var (bytes, used) := Utf16(s).value; Standard(s) == Prepend(bytes, Standard(s[used..]))
    ensures WellEscaped(s) && Utf16(s).Some? ==>
              var (bytes, used) := Utf16(s).value; Standard(s) == Prepend(bytes, Standard(s[used..]))
    ensures Utf16(s).Some? ==> (WellEscaped(s) <==> WellEscaped(s[Utf16(s).value.1..]) && IsHex4(s[2..]))
  {
    hide Utf8, Hex4;
    if |s| >= 6 && IsHex4(s[2..]) {
      HexPassed(s[2..]);
      assert s[2..][4..] == s[6..];
      Hex4Digits(s[2..]);
      if Utf16(s).Some? && Utf16(s).value.1 == 12 {
        Hex4Digits(s[8..]);
        HexPassed(s[8..]);
        assert s[8..][4..] == s[12..] && s[6..][2..] == s[8..];
      }
    }
  }

  /** The standard reads a string body as the code does if it is well escaped, and not at all otherwise. So the
      two agree exactly on the bodies that are well escaped or that the code refuses. */
  lemma {:induction false} StandardExactly(s: string)
    ensures Standard(s) == if WellEscaped(s) then Unescape(s) else None
    ensures Unescape(s) == Standard(s) <==> WellEscaped(s) || Unescape(s).None?
    decreases |s|
  {
    hide Utf16, Hex4, IsHex4;
    if s == "" {
    } else if s[0] != '\\' {
      StandardExactly(s[1..]);
    } else if |s| >= 2 {
      if s[1] == 'u' {
        StandardUnicode(s);
        if Utf16(s).Some? { StandardExactly(s[Utf16(s).value.1..]); }
      } else {
        StandardExactly(s[2..]);
      }
    }
  }

  /** A tab in a string literal is read as itself. */
  lemma RawTab()
    ensures ParseString("\"\t\"") == Ok("\t", "") && Standard("\t").None?
  {
    var s := "\"\t\"";
    assert s[1..] == "\t\"" && s[1..][1..] == "\"" && s[1..][..1] == "\t" && s[3..] == "";
    assert BodyEnd("\"") == Some(0) && BodyEnd(s[1..]) == Some(1);
    assert "\t"[1..] == "" && Unescape("") == Some("") && "\t" + "" == "\t";
  }

  /** A `\u` with three digits swallows one of two backslashes; the other is read with the closing quote. The
      value holds a NUL in front of the quote, where a C caller sees it end. */
  lemma LoneBackslash()
    ensures ParseString("\"\\u123\\\\\"") == Ok("\U{0}\"", "")
    ensures Standard("\\u123\\\\").None?
  {
    var body, s := "\\u123\\\\", "\"\\u123\\\\\"";
    assert BodyEnd(s[1..]) == Some(7) by {
      var t := s[1..];
      assert t[2..] == "123\\\\\"" && t[3..] == "23\\\\\"" && t[4..] == "3\\\\\"" && t[5..] == "\\\\\"" && t[7..] == "\"";
      assert t[2..][1..] == t[3..] && t[3..][1..] == t[4..] && t[4..][1..] == t[5..] && t[5..][2..] == t[7..];
      assert BodyEnd(t[7..]) == Some(0);
      assert BodyEnd(t[5..]) == Some(2);
      assert BodyEnd(t[4..]) == Some(3);
      assert BodyEnd(t[3..]) == Some(4);
      assert BodyEnd(t[2..]) == Some(5);
    }
    assert s[1..][..7] == body && s[9..] == "";
    assert body[6..] == "\\" && Utf16(body) == Some((Utf8(0), 6));
    assert Unescape(body) == Prepend("\U{0}", Unescape("\\"));
    assert "\U{0}" + "\"" == "\U{0}\"" && |s| == 9;
  }

  // ----- UTF-16 literals

  /** `parse_hex4`: one digit a turn, shifting between turns. */
  method ParseHex4(s: string) returns (h: nat)
    requires |s| >= 4
    ensures h == Hex4(s)
  {
    h := 0;
    var i := 0;
    ghost var v := seq(4, k requires 0 <= k < 4 => HexValue(s[k]));
    while i < 4
      invariant 0 <= i <= 4
      invariant forall k :: 0 <= k < i ==> v[k].Some?
      invariant i == 0 ==> h == 0
      invariant i == 1 ==> h == v[0].value * 16
      invariant i == 2 ==> h == (v[0].value * 16 + v[1].value) * 16
      invariant i == 3 ==> h == ((v[0].value * 16 + v[1].value) * 16 + v[2].value) * 16
      invariant i == 4 ==> h == ((v[0].value * 16 + v[1].value) * 16 + v[2].value) * 16 + v[3].value
    {
      var d := HexValue(s[i]);
      assert d == v[i];
      if d == None { return 0; }
      h := h + d.value;
      if i < 3 { h := h * 16; }
      i := i + 1;
    }
  }

  /** The encoding loop of `utf16_literal_to_utf8`: continuation bytes from the last one back, then the
      first byte with its mark. */
  method EncodeUtf8(codepoint: nat) returns (bytes: string)
    requires codepoint < 0x110000
    ensures bytes == Utf8(codepoint)
  {
    var length, mark;
    if codepoint < 0x80 {
      length, mark := 1, 0;
    } else if codepoint < 0x800 {
      length, mark := 2, 0xC0;
    } else if codepoint < 0x10000 {
      length, mark := 3, 0xE0;
    } else {
      length, mark := 4, 0xF0;
    }
    var cp := codepoint;
    bytes := "";
    var position := length - 1;
    while position > 0
      invariant 0 <= position < length
      invariant cp == (if length - 1 - position == 0 then codepoint else if length - 1 - position == 1 then codepoint / 64
                       else if length - 1 - position == 2 then codepoint / 4096 else codepoint / 262144)
      invariant bytes == (if length - 1 - position == 0 then ""
                          else if length - 1 - position == 1 then [Byte(0x80 + codepoint % 64)]
                          else if length - 1 - position == 2 then [Byte(0x80 + codepoint / 64 % 64), Byte(0x80 + codepoint % 64)]
                          else [Byte(0x80 + codepoint / 4096 % 64), Byte(0x80 + codepoint / 64 % 64), Byte(0x80 + codepoint % 64)])
    {
      DivSteps(codepoint);
      bytes := [Byte(0x80 + cp % 64)] + bytes;
      cp := cp / 64;
      position := position - 1;
    }
    bytes := [Byte(mark + cp)] + bytes;
  }

  lemma DivSteps(n: nat)
    ensures n / 64 / 64 == n / 4096 && n / 4096 / 64 == n / 262144
  {
  }

  /** `utf16_literal_to_utf8`: the bytes, and how many characters the literal takes; 0 on failure. */
  method ReadUtf16(s: string) returns (bytes: string, used: nat)
    ensures Utf16(s) == if used == 0 then None else Some((bytes, used))
  {
    hide Utf8, Hex4;
    if |s| < 6 { return "", 0; }
    var first := ParseHex4(s[2..]);
    if 0xDC00 <= first <= 0xDFFF { return "", 0; }
    var codepoint := first;
    used := 6;
    if 0xD800 <= first <= 0xDBFF {
      used := 12;
      if |s| < 12 { return "", 0; }
      if s[6] != '\\' || s[7] != 'u' { return "", 0; }
      var second := ParseHex4(s[8..]);
      if second < 0xDC00 || second > 0xDFFF { return "", 0; }
      codepoint := 0x10000 + (first - 0xD800) * 1024 + (second - 0xDC00);
    }
    bytes := EncodeUtf8(codepoint);
  }

  /** What a decoder makes of one UTF-8 sequence. */
  function DecodeUtf8(s: string): Option<nat>
  {
    if |s| == 1 && s[0] as int < 0x80 then Some(s[0] as int)
    else if |s| == 2 && 0xC0 <= s[0] as int < 0xE0 then Some((s[0] as int - 0xC0) * 64 + Low(s[1]))
    else if |s| == 3 && 0xE0 <= s[0] as int < 0xF0 then Some((s[0] as int - 0xE0) * 4096 + Low(s[1]) * 64 + Low(s[2]))
    else if |s| == 4 && 0xF0 <= s[0] as int < 0xF8 then
      Some((s[0] as int - 0xF0) * 262144 + Low(s[1]) * 4096 + Low(s[2]) * 64 + Low(s[3]))
    else None
  }

  function Low(c: char): nat { c as int % 64 }

  /** The bytes decode to the code point they were made from. */
  lemma Utf8Decodes(cp: nat)
    requires cp < 0x110000
    ensures DecodeUtf8(Utf8(cp)) == Some(cp)
  {
    DivSteps(cp);
    if cp >= 0x80 { LowByte(cp % 64); }
    if cp >= 0x800 { LowByte(cp / 64 % 64); }
    if cp >= 0x10000 {
      LowByte(cp / 4096 % 64);
      hide Byte, Low;
      Digits64(cp);
    } else if cp >= 0x800 {
      hide Byte, Low;
      Digits64(cp);
    }
  }

  lemma Digits64(n: nat)
    ensures n / 4096 * 4096 + n / 64 % 64 * 64 + n % 64 == n
    ensures n / 262144 * 262144 + n / 4096 % 64 * 4096 + n / 64 % 64 * 64 + n % 64 == n
  {
    DivSteps(n);
    var a, b := n / 64, n / 4096;
    assert n == a * 64 + n % 64 && a == b * 64 + a % 64 && b == n / 262144 * 64 + b % 64;
  }

  lemma LowByte(n: nat)
    requires n < 64
    ensures Low(Byte(0x80 + n)) == n
  {
  }

  // ----- loops over the text

  /** Blanks up to position n, then a visible character or the end. */
  lemma {:induction false} SkipBlanksAt(s: string, n: nat)
    requires s != "" && n <= |s| && forall i :: 0 <= i < n ==> s[i] as int <= 32
    requires n < |s| ==> s[n] as int > 32
    ensures SkipBlanks(s) == s[if n == |s| then n - 1 else n..]
  {
    if n == 0 {
      assert s[0..] == s;
    } else if |s| == 1 {
      assert s[0..] == s;
    } else {
      SkipBlanksAt(s[1..], n - 1);
    }
  }

  /** The first pass over a string body: where it ends, and how many escapes it holds. */
  function Pass(s: string): Option<(nat, nat)>
    decreases |s|
  {
    if s == "" then None
    else if s[0] == '"' then Some((0, 0))
    else if s[0] == '\\' then if |s| < 2 then None else Later(2, 1, Pass(s[2..]))
    else Later(1, 0, Pass(s[1..]))
  }

  function Later(i: nat, skipped: nat, r: Option<(nat, nat)>): Option<(nat, nat)> {
    match r
    case None => None
    case Some((n, k)) => Some((n + i, k + skipped))
  }

  lemma EscapesPlain(s: string)
    ensures Escapes("") == 0
    ensures s != "" && s[0] != '\\' ==> Escapes(s) == Escapes(s[1..])
  {
  }

  lemma {:induction false} PassMeans(s: string)
    ensures Pass(s) == match BodyEnd(s) case None => None case Some(n) => Some((n, Escapes(s[..n])))
    decreases |s|
  {
    hide Escapes;
    EscapesPlain("");
    if s == "" || s[0] == '"' || (s[0] == '\\' && |s| < 2) {
      assert s[..0] == "";
    } else {
      var step := if s[0] == '\\' then 2 else 1;
      PassMeans(s[step..]);
      if BodyEnd(s[step..]).Some? {
        var t := s[..BodyEnd(s[step..]).value + step];
        assert t[step..] == s[step..][..|t| - step];
        if step == 2 { EscapesPair(t); } else { EscapesPlain(t); }
      }
    }
  }

  lemma LaterTwice(i: nat, skipped: nat, j: nat, more: nat, r: Option<(nat, nat)>)
    ensures Later(i, skipped, Later(j, more, r)) == Later(i + j, skipped + more, r)
  {
  }

  lemma PassHead(t: string)
    requires t != ""
    ensures t[0] == '"' ==> Pass(t) == Some((0, 0))
    ensures t[0] == '\\' ==> Pass(t) == if |t| < 2 then None else Later(2, 1, Pass(t[2..]))
    ensures t[0] != '"' && t[0] != '\\' ==> Pass(t) == Later(1, 0, Pass(t[1..]))
  {
    hide Later;
  }

  /** One turn of the pass, from position i. */
  lemma PassStep(s: string, i: nat, k: nat, skipped: nat)
    requires i <= |s|
    ensures i == |s| ==> Pass(s[i..]) == None
    ensures i < |s| && s[i] == '"' ==> Later(k, skipped, Pass(s[i..])) == Some((k, skipped))
    ensures i < |s| && s[i] == '\\' ==>
              if i + 1 == |s| then Pass(s[i..]) == None
              else Later(k, skipped, Pass(s[i..])) == Later(k + 2, skipped + 1, Pass(s[i + 2..]))
    ensures i < |s| && s[i] != '"' && s[i] != '\\' ==> Later(k, skipped, Pass(s[i..])) == Later(k + 1, skipped, Pass(s[i + 1..]))
  {
    assert Pass("") == None;
    hide Pass;
    var t := s[i..];
    if i < |s| {
      PassHead(t);
      assert t[0] == s[i] && t[1..] == s[i + 1..] && (|t| >= 2 <==> i + 1 < |s|);
      if s[i] == '\\' && i + 1 < |s| {
        assert t[2..] == s[i + 2..];
        LaterTwice(k, skipped, 2, 1, Pass(s[i + 2..]));
      } else if s[i] != '\\' && s[i] != '"' {
        LaterTwice(k, skipped, 1, 0, Pass(s[i + 1..]));
      }
    }
  }

  method FindBodyEnd(s: string) returns (end: Option<nat>, skipped: nat)
    ensures end == BodyEnd(s)
    ensures end.Some? ==> skipped == Escapes(s[..end.value])
  {
    hide BodyEnd, Escapes, Pass;
    PassMeans(s);
    var i := 0;
    skipped := 0;
    assert s[0..] == s;
    while i < |s| && s[i] != '"'
      invariant 0 <= i <= |s|
      invariant Pass(s) == Later(i, skipped, Pass(s[i..]))
      decreases |s| - i
    {
      PassStep(s, i, i, skipped);
      if s[i] == '\\' {
        if i + 1 >= |s| { return None, 0; }
        skipped := skipped + 1;
        i := i + 1;
      }
      i := i + 1;
    }
    PassStep(s, i, i, skipped);
    if i >= |s| { return None, 0; }
    end := Some(i);
  }

  /** What the escape at the start of `s` stands for and its length; length 0 when it is malformed. The last
      character of the body is followed by the closing quote, which the switch reads like any other. */
  method ReadEscape(s: string) returns (piece: string, used: nat)
    requires s != "" && s[0] == '\\'
    ensures used == 0 <==> |s| >= 2 && ((s[1] == 'u' && Utf16(s).None?) || s[1] !in "bfnrt\"\\/u")
    ensures used == 0 ==> Unescape(s).None?
    ensures used > 0 ==> used <= |s| && Unescape(s) == Prepend(piece, Unescape(s[used..]))
  {
    hide Utf16;
    piece, used := "", 0;
    if |s| < 2 {
      assert s[1..] == "" && Unescape("") == Some("") && "\"" + "" == "\"";
      return "\"", 1;
    }
    match s[1] {
    case 'b' => piece, used := "\U{8}", 2;
    case 'f' => piece, used := "\U{C}", 2;
    case 'n' => piece, used := "\n", 2;
    case 'r' => piece, used := "\r", 2;
    case 't' => piece, used := "\t", 2;
    case '"' => piece, used := [s[1]], 2;
    case '\\' => piece, used := [s[1]], 2;
    case '/' => piece, used := [s[1]], 2;
    case 'u' => piece, used := ReadUtf16(s);
    case _ =>
    }
  }

  lemma UnescapePlain(s: string)
    requires s != "" && s[0] != '\\'
    ensures Unescape(s) == Prepend([s[0]], Unescape(s[1..]))
  {
  }

  /** The second pass: copy and translate. `room` is what was allocated from the first pass. */
  method UnescapeBody(s: string, room: nat) returns (output: Option<string>)
    requires room == |s| + 1 - Escapes(s)
    ensures output == Unescape(s)
    ensures output.Some? ==> |output.value| < room
  {
    assert Unescape("") == Some("");
    hide Unescape, Utf16, Escapes;
    var i, out := 0, "";
    assert s[0..] == s;
    assert Unescape(s).None? || Unescape(s).value == "" + Unescape(s).value;
    if Unescape(s).Some? { UnescapeFits(s); }
    while i < |s|
      invariant 0 <= i <= |s|
      invariant Unescape(s) == Prepend(out, Unescape(s[i..]))
      decreases |s| - i
    {
      ghost var rest := s[i..];
      var piece, used := [s[i]], 1;
      if s[i] == '\\' {
        piece, used := ReadEscape(s[i..]);
        if used == 0 { return None; }
      } else {
        UnescapePlain(rest);
      }
      assert rest[used..] == s[i + used..];
      PrependTwice(out, piece, Unescape(s[i + used..]));
      out := out + piece;
      i := i + used;
    }
    assert s[i..] == "" && out + "" == out;
    output := Some(out);
  }

  lemma PrependTwice(a: string, b: string, r: Option<string>)
    ensures Prepend(a, Prepend(b, r)) == Prepend(a + b, r)
  {
    if r.Some? { Assoc(a, b, r.value); }
  }

  /** The `parse_buffer`. */
  class ParseBuffer {
    const libc: Libc
    const content: string
    var offset: nat
    var depth: nat

    constructor (libc: Libc, content: string)
      ensures this.libc == libc && this.content == content && offset == 0 && depth == 0
    {
      this.libc, this.content, offset, depth := libc, content, 0, 0;
    }

    ghost predicate Valid()
      reads this
    {
      offset <= |content|
    }

    ghost function Rest(): string
      requires Valid()
      reads this
    {
      content[offset..]
    }

    /** `buffer_skip_whitespace`. */
    method SkipWhitespace()
      requires Valid()
      modifies this`offset
      ensures Valid() && offset >= old(offset) && Rest() == SkipBlanks(old(Rest()))
    {
      if offset >= |content| { return; }
      ghost var start := offset;
      while offset < |content| && content[offset] as int <= 32
        invariant start <= offset <= |content|
        invariant forall i :: start <= i < offset ==> content[i] as int <= 32
      {
        offset := offset + 1;
      }
      SkipBlanksAt(content[start..], offset - start);
      if offset == |content| {
        offset := offset - 1;
      }
    }

    method SkipUtf8Bom()
      requires offset == 0 && Valid()
      modifies this`offset
      ensures Valid() && Rest() == SkipBom(content)
    {
      if |content| > 4 && content[..3] == [Byte(0xEF), Byte(0xBB), Byte(0xBF)] {
        offset := offset + 3;
      }
    }

    /** `parse_string`. */
    method ReadString() returns (r: Option<string>)
      requires Valid()
      modifies this`offset
      ensures Valid()
      ensures r.None? <==> ParseString(old(Rest())).Fail?
      ensures r.Some? ==> offset > old(offset) && ParseString(old(Rest())) == Ok(r.value, Rest())
    {
      hide BodyEnd, Unescape, Escapes;
      ghost var s := Rest();
      if offset >= |content| || content[offset] != '"' { return None; }
      var body := content[offset + 1..];
      assert body == s[1..];
      var end, skipped := FindBodyEnd(body);
      if end == None { return None; }
      var n := end.value;
      EscapesFit(body[..n]);
      r := UnescapeBody(body[..n], n + 1 - skipped);
      if r.Some? {
        assert s[n + 2..] == content[offset + n + 2..];
        offset := offset + n + 2;
      }
    }

    /** The loop of `parse_number`: how many characters are copied. */
    method NumberLength() returns (n: nat)
      requires Valid()
      ensures n == NumberRun(Rest(), NUMBER_BUFFER - 1)
    {
      hide IsNumberChar;
      ghost var s := Rest();
      n := 0;
      assert s[0..] == s;
      while n < NUMBER_BUFFER - 1 && offset + n < |content| && IsNumberChar(content[offset + n])
        invariant n <= NUMBER_BUFFER - 1 && offset + n <= |content|
        invariant NumberRun(s, NUMBER_BUFFER - 1) == n + NumberRun(s[n..], NUMBER_BUFFER - 1 - n)
      {
        assert s[n..][1..] == s[n + 1..];
        n := n + 1;
      }
    }

    /** `parse_number`: the number's characters are copied and handed to strtod. */
    method ReadNumber() returns (r: Option<Json>)
      requires Valid()
      modifies this`offset
      ensures Valid()
      ensures r.None? <==> ParseNumber(libc, old(Rest())).Fail?
      ensures r.Some? ==> offset > old(offset) && ParseNumber(libc, old(Rest())) == Ok(r.value, Rest())
    {
      hide NumberRun, IsNumberChar;
      ghost var s := Rest();
      var n := NumberLength();
      var run := content[offset..offset + n];
      assert run == s[..n];
      var (d, used) := libc.strtod(run);
      if used == 0 || used > |run| { return None; }
      assert s[used..] == content[offset + used..];
      offset := offset + used;
      r := Some(Number(d));
    }

    method LooksAt(word: string) returns (b: bool)
      requires Valid()
      ensures b <==> StartsWith(Rest(), word)
    {
      b := offset + |word| <= |content| && content[offset..offset + |word|] == word;
      assert offset + |word| <= |content| ==> content[offset..offset + |word|] == Rest()[..|word|];
    }

    method Advance(n: nat)
      requires offset + n <= |content|
      modifies this`offset
      ensures offset == old(offset) + n && Valid() && Rest() == old(Rest())[n..]
    {
      offset := offset + n;
    }

    /** `parse_value`. */
    method ReadValue() returns (r: Option<Json>)
      requires Valid()
      modifies this
      ensures Valid()
      ensures r.None? <==> ParseValue(libc, old(depth), old(Rest())).Fail?
      ensures r.Some? ==> offset > old(offset) && depth == old(depth)
                          && ParseValue(libc, old(depth), old(Rest())) == Ok(r.value, Rest())
      decreases |content| - offset, 2
    {
      hide StartsWith, ParseString, ParseNumber, ParseArray, ParseObject;
      var word := LooksAt("null");
      if word { TooShort("null"); Advance(4); return Some(Null); }
      word := LooksAt("false");
      if word { TooShort("false"); Advance(5); return Some(False); }
      word := LooksAt("true");
      if word { TooShort("true"); Advance(4); return Some(True); }
      if offset >= |content| { return None; }
      var c := content[offset];
      assert c == Rest()[0];
      if c == '"' {
        var t := ReadString();
        return if t.Some? then Some(Text(t.value)) else None;
      }
      if c == '-' || '0' <= c <= '9' {
        r := ReadNumber();
        return;
      }
      if c == '[' {
        r := ReadArray();
        return;
      }
      if c == '{' {
        r := ReadObject();
        return;
      }
      return None;
    }

    lemma TooShort(word: string)
      requires Valid() && StartsWith(Rest(), word)
      ensures offset + |word| <= |content|
    {
    }

    /** `parse_array`. */
    method ReadArray() returns (r: Option<Json>)
      requires offset < |content|
      modifies this
      ensures Valid()
      ensures r.None? <==> ParseArray(libc, old(depth), old(Rest())).Fail?
      ensures r.Some? ==> offset > old(offset) && depth == old(depth)
                          && ParseArray(libc, old(depth), old(Rest())) == Ok(r.value, Rest())
      decreases |content| - offset, 1
    {
      hide SkipBlanks, ParseItems;
      if depth >= NESTING_LIMIT { return None; }
      depth := depth + 1;
      Advance(1);
      SkipWhitespace();
      if offset >= |content| { return None; }
      assert content[offset] == Rest()[0];
      if content[offset] == ']' {
        depth := depth - 1;
        Advance(1);
        return Some(Array([]));
      }
      var items := ReadItems();
      if items == None { return None; }
      depth := depth - 1;
      return Some(Array(items.value));
    }

    /** The loop of `parse_array`, from the first element to behind the closing bracket. */
    method ReadItems() returns (r: Option<seq<Json>>)
      requires Valid()
      modifies this
      ensures Valid()
      ensures r.None? <==> ParseItems(libc, old(depth), old(Rest())).Fail?
      ensures r.Some? ==> offset > old(offset) && depth == old(depth)
                          && ParseItems(libc, old(depth), old(Rest())) == Ok(r.value, Rest())
      decreases |content| - offset, 3
    {
      hide SkipBlanks, ParseValue;
      ghost var whole, d := ParseItems(libc, depth, Rest()), depth;
      var items: seq<Json> := [];
      AfterNothing(whole);
      while true
        invariant Valid() && old(offset) <= offset && depth == d
        invariant whole == AfterItems(items, ParseItems(libc, d, Rest()))
        decreases |content| - offset
      {
        ghost var s := Rest();
        SkipWhitespace();
        var v := ReadValue();
        if v == None { return None; }
        SkipWhitespace();
        if offset >= |content| { return None; }
        assert content[offset] == Rest()[0];
        if content[offset] != ',' {
          if content[offset] != ']' { return None; }
          Advance(1);
          return Some(items + [v.value]);
        }
        AfterItemsStep(items, v.value, ParseItems(libc, d, Rest()[1..]));
        items := items + [v.value];
        Advance(1);
      }
    }

    /** `parse_object`. */
    method ReadObject() returns (r: Option<Json>)
      requires offset < |content|
      modifies this
      ensures Valid()
      ensures r.None? <==> ParseObject(libc, old(depth), old(Rest())).Fail?
      ensures r.Some? ==> offset > old(offset) && depth == old(depth)
                          && ParseObject(libc, old(depth), old(Rest())) == Ok(r.value, Rest())
      decreases |content| - offset, 1
    {
      hide SkipBlanks, ParseMembers;
      if depth >= NESTING_LIMIT { return None; }
      depth := depth + 1;
      Advance(1);
      SkipWhitespace();
      if offset >= |content| { return None; }
      assert content[offset] == Rest()[0];
      if content[offset] == '}' {
        depth := depth - 1;
        Advance(1);
        return Some(Object([]));
      }
      var members := ReadMembers();
      if members == None { return None; }
      depth := depth - 1;
      return Some(Object(members.value));
    }

    method ReadMember() returns (r: Option<Member>)
      requires Valid()
      modifies this
      ensures Valid()
      ensures r.None? <==> ParseMember(libc, old(depth), old(Rest())).Fail?
      ensures r.Some? ==> offset > old(offset) && depth == old(depth)
                          && ParseMember(libc, old(depth), old(Rest())) == Ok(r.value, Rest())
      decreases |content| - offset, 3
    {
      hide SkipBlanks, ParseValue, ParseString;
      SkipWhitespace();
      var key := ReadString();
      if key == None { return None; }
      SkipWhitespace();
      if offset >= |content| { return None; }
      assert content[offset] == Rest()[0];
      if content[offset] != ':' { return None; }
      Advance(1);
      SkipWhitespace();
      var v := ReadValue();
      if v == None { return None; }
      return Some(Member(key.value, v.value));
    }

    /** The loop of `parse_object`. */
    method ReadMembers() returns (r: Option<seq<Member>>)
      requires Valid()
      modifies this
      ensures Valid()
      ensures r.None? <==> ParseMembers(libc, old(depth), old(Rest())).Fail?
      ensures r.Some? ==> offset > old(offset) && depth == old(depth)
                          && ParseMembers(libc, old(depth), old(Rest())) == Ok(r.value, Rest())
      decreases |content| - offset, 4
    {
      hide SkipBlanks, ParseMember;
      ghost var whole, d := ParseMembers(libc, depth, Rest()), depth;
      var members: seq<Member> := [];
      AfterNothing(whole);
      while true
        invariant Valid() && old(offset) <= offset && depth == d
        invariant whole == AfterItems(members, ParseMembers(libc, d, Rest()))
        decreases |content| - offset
      {
        var m := ReadMember();
        if m == None { return None; }
        SkipWhitespace();
        if offset >= |content| { return None; }
        assert content[offset] == Rest()[0];
        if content[offset] != ',' {
          if content[offset] != '}' { return None; }
          Advance(1);
          return Some(members + [m.value]);
        }
        AfterItemsStep(members, m.value, ParseMembers(libc, d, Rest()[1..]));
        members := members + [m.value];
        Advance(1);
      }
    }
  }

  function AfterItems<T>(done: seq<T>, p: Parsed<seq<T>>): Parsed<seq<T>> {
    match p
    case Fail => Fail
    case Ok(more, rest) => Ok(done + more, rest)
  }

  lemma AfterNothing<T>(p: Parsed<seq<T>>)
    ensures AfterItems([], p) == p
  {
    if p.Ok? { assert [] + p.value == p.value; }
  }

  lemma AfterItemsStep<T>(done: seq<T>, v: T, p: Parsed<seq<T>>)
    ensures AfterItems(done, AfterItems([v], p)) == AfterItems(done + [v], p)
  {
    if p.Ok? { Assoc(done, [v], p.value); }
  }

  /** `cJSON_ParseWithOpts`: the value, and the position where parsing stopped. */
  method ParseWithOpts(libc: Libc, text: string, requireEnd: bool) returns (r: Option<Json>, end: nat)
    ensures r.None? <==> Parse(libc, text, requireEnd).Fail?
    ensures r.Some? ==> end <= |text| + 1 && Parse(libc, text, requireEnd) == Ok(r.value, (text + "\0")[end..])
  {
    hide Parse, ParseValue, SkipBlanks, SkipBom;
    ghost var content := text + "\0";
    var buffer := new ParseBuffer(libc, text + "\0");
    buffer.SkipUtf8Bom();
    buffer.SkipWhitespace();
    r := buffer.ReadValue();
    end := buffer.offset;
    ghost var rest := buffer.Rest();
    if r == None {
      ParseFails(libc, text, requireEnd);
      return;
    }
    ParseStops(libc, text, r.value, rest);
    if requireEnd {
      buffer.SkipWhitespace();
      end := buffer.offset;
      ParseEnds(libc, text, r.value, rest, content[end..]);
      if end >= |buffer.content| || buffer.content[end] != '\0' {
        return None, end;
      }
    }
  }

  lemma ParseFails(libc: Libc, text: string, requireEnd: bool)
    requires ParseValue(libc, 0, SkipBlanks(SkipBom(text + "\0"))).Fail?
    ensures Parse(libc, text, requireEnd).Fail?
  {
    hide ParseValue, SkipBlanks, SkipBom;
  }

  lemma ParseStops(libc: Libc, text: string, v: Json, rest: string)
    requires ParseValue(libc, 0, SkipBlanks(SkipBom(text + "\0"))) == Ok(v, rest)
    ensures Parse(libc, text, false) == Ok(v, rest)
  {
    hide ParseValue, SkipBlanks, SkipBom;
  }

  lemma ParseEnds(libc: Libc, text: string, v: Json, rest: string, t: string)
    requires ParseValue(libc, 0, SkipBlanks(SkipBom(text + "\0"))) == Ok(v, rest) && t == SkipBlanks(rest)
    ensures Parse(libc, text, true) == if t == "" || t[0] != '\0' then Fail else Ok(v, t)
  {
    hide ParseValue, SkipBlanks, SkipBom;
  }
}
