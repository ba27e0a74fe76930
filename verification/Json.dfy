/** JSON values, their printed text, and the language cJSON parses. Text is unread text up to and
    including the terminating NUL. */
module Json {
  import opened Basics

  datatype Json =
    | Null | False | True
    | Number(d: real)
    | Text(s: string)
    | Array(items: seq<Json>)
    | Object(members: seq<Member>)

  datatype Member = Member(key: string, value: Json)

  /** libc's number conversions: `sprintf` prints with a number of significant digits, `strtod` reads
      and says how many characters it used. */
  datatype Libc = Libc(sprintf: (nat, real) -> string, strtod: string -> (real, nat))

  const NESTING_LIMIT: nat := 1000
  const NUMBER_BUFFER: nat := 64

  // ----- printing

  function EscapeChar(c: char): (e: string)
    ensures 1 <= |e| <= 6
  {
    match c
    case '"' => ['\\', '"']
    case '\\' => ['\\', '\\']
    case '\U{8}' => ['\\', 'b']
    case '\U{C}' => ['\\', 'f']
    case '\n' => ['\\', 'n']
    case '\r' => ['\\', 'r']
    case '\t' => ['\\', 't']
    case _ =>
      if c as int < 32 then ['\\', 'u', '0', '0', HexDigit(c as int / 16), HexDigit(c as int % 16)] else [c]
  }

  function Escape(s: string): string {
    if s == "" then "" else EscapeChar(s[0]) + Escape(s[1..])
  }

  function Quote(s: string): string { "\"" + Escape(s) + "\"" }

  const DBL_EPSILON: real := 1.0 / 4503599627370496.0

  function Abs(x: real): real { if x < 0.0 then -x else x }

  /** `compare_double`. */
  predicate Close(a: real, b: real) {
    var max := if Abs(a) > Abs(b) then Abs(a) else Abs(b);
    Abs(a - b) <= max * DBL_EPSILON
  }

  /** Fifteen digits where they read back as a close number, seventeen otherwise. */
  function NumberText(libc: Libc, d: real): string {
    var short := libc.sprintf(15, d);
    var (test, used) := libc.strtod(short);
    if used > 0 && Close(test, d) then short else libc.sprintf(17, d)
  }

  function Tabs(n: nat): (s: string)
    ensures |s| == n && forall i :: 0 <= i < n ==> s[i] == '\t'
  {
    seq(n, _ => '\t')
  }

  /** White space that only the formatted print has. */
  function Pad(fmt: bool, blank: string, rest: string): string { if fmt then blank + rest else rest }

  /** The text of a value printed at a nesting depth, followed by `rest`. */
  function PrintThen(libc: Libc, fmt: bool, depth: nat, v: Json, rest: string): string
    decreases v
  {
    match v
    case Null => "null" + rest
    case False => "false" + rest
    case True => "true" + rest
    case Number(d) => NumberText(libc, d) + rest
    case Text(s) => Quote(s) + rest
    case Array(items) => "[" + ItemsThen(libc, fmt, depth + 1, items, "]" + rest)
    case Object(members) =>
      "{" + Pad(fmt, "\n", MembersThen(libc, fmt, depth + 1, members, Pad(fmt, Tabs(depth), "}" + rest)))
  }

  function ItemsThen(libc: Libc, fmt: bool, depth: nat, items: seq<Json>, rest: string): string
    decreases items
  {
    if items == [] then rest
    else if |items| == 1 then PrintThen(libc, fmt, depth, items[0], rest)
    else PrintThen(libc, fmt, depth, items[0], "," + Pad(fmt, " ", ItemsThen(libc, fmt, depth, items[1..], rest)))
  }

  function MembersThen(libc: Libc, fmt: bool, depth: nat, members: seq<Member>, rest: string): string
    decreases members, 1
  {
    if members == [] then rest
    else Pad(fmt, Tabs(depth), MemberThen(libc, fmt, depth, members, rest))
  }

  /** The members behind the indentation of the first. */
  function MemberThen(libc: Libc, fmt: bool, depth: nat, members: seq<Member>, rest: string): string
    requires members != []
    decreases members, 0
  {
    var after :=
      if |members| == 1 then Pad(fmt, "\n", rest)
      else "," + Pad(fmt, "\n", MembersThen(libc, fmt, depth, members[1..], rest));
    Quote(members[0].key) + (":" + Pad(fmt, "\t", PrintThen(libc, fmt, depth, members[0].value, after)))
  }

  function Print(libc: Libc, fmt: bool, depth: nat, v: Json): string {
    PrintThen(libc, fmt, depth, v, "")
  }

  // ----- the parsed language

  datatype Parsed<+T> = Fail | Ok(value: T, rest: string)

  /** Blanks are skipped, but never past the last character of the buffer. */
  function SkipBlanks(s: string): (r: string)
    ensures |r| <= |s| && (s != "" ==> r != "")
  {
    if s == "" || s[0] as int > 32 || |s| == 1 then s else SkipBlanks(s[1..])
  }

  /** How far a string literal's body goes; a backslash takes the next character along. */
  function BodyEnd(s: string): (r: Option<nat>)
    ensures r.Some? ==> r.value < |s| && s[r.value] == '"'
  {
    if s == "" then None
    else if s[0] == '"' then Some(0)
    else
      var step := if s[0] == '\\' then 2 else 1;
      if step > |s| then None
      else match BodyEnd(s[step..])
        case None => None
        case Some(n) => Some(n + step)
  }

  /** `parse_hex4`: a character that is no hexadecimal digit makes the whole number 0. */
  function Hex4(s: string): (h: nat)
    requires |s| >= 4
    ensures h < 0x10000
  {
    match (HexValue(s[0]), HexValue(s[1]), HexValue(s[2]), HexValue(s[3]))
    case (Some(a), Some(b), Some(c), Some(d)) => a * 4096 + b * 256 + c * 16 + d
    case _ => 0
  }

  function Byte(n: nat): char
    requires n < 256
  {
    n as char
  }

  /** The UTF-8 bytes of a code point. */
  function Utf8(cp: nat): string
    requires cp < 0x110000
  {
    if cp < 0x80 then [Byte(cp)]
    else if cp < 0x800 then [Byte(0xC0 + cp / 64), Byte(0x80 + cp % 64)]
    else if cp < 0x10000 then [Byte(0xE0 + cp / 4096), Byte(0x80 + cp / 64 % 64), Byte(0x80 + cp % 64)]
    else [Byte(0xF0 + cp / 262144), Byte(0x80 + cp / 4096 % 64), Byte(0x80 + cp / 64 % 64), Byte(0x80 + cp % 64)]
  }

  /** `utf16_literal_to_utf8` on the rest of a string body that starts with a backslash and a u: the
      bytes and the number of characters used. */
  function Utf16(s: string): (r: Option<(string, nat)>)
    ensures r.Some? ==> 6 <= r.value.1 <= |s|
  {
    if |s| < 6 then None else
    var first := Hex4(s[2..]);
    if 0xDC00 <= first <= 0xDFFF then None
    else if 0xD800 <= first <= 0xDBFF then
      if |s| < 12 || s[6] != '\\' || s[7] != 'u' then None else
      var second := Hex4(s[8..]);
      if second < 0xDC00 || second > 0xDFFF then None
      else Some((Utf8(0x10000 + (first - 0xD800) * 1024 + (second - 0xDC00)), 12))
    else Some((Utf8(first), 6))
  }

  /** The characters a string body stands for. A backslash at its very end is read together with the closing
      quote behind the body. */
  function Unescape(s: string): Option<string>
    decreases |s|
  {
    if s == "" then Some("")
    else if s[0] != '\\' then Prepend([s[0]], Unescape(s[1..]))
    else if |s| < 2 then Some("\"")
    else match s[1]
      case 'b' => Prepend("\U{8}", Unescape(s[2..]))
      case 'f' => Prepend("\U{C}", Unescape(s[2..]))
      case 'n' => Prepend("\n", Unescape(s[2..]))
      case 'r' => Prepend("\r", Unescape(s[2..]))
      case 't' => Prepend("\t", Unescape(s[2..]))
      case '"' => Prepend([s[1]], Unescape(s[2..]))
      case '\\' => Prepend([s[1]], Unescape(s[2..]))
      case '/' => Prepend([s[1]], Unescape(s[2..]))
      case 'u' =>
        (match Utf16(s)
         case None => None
         case Some((bytes, used)) => Prepend(bytes, Unescape(s[used..])))
      case _ => None
  }

  function Prepend(s: string, r: Option<string>): Option<string> {
    match r
    case None => None
    case Some(t) => Some(s + t)
  }

  function ParseString(s: string): (p: Parsed<string>)
    ensures p.Ok? ==> |p.rest| < |s|
  {
    if s == "" || s[0] != '"' then Fail
    else match BodyEnd(s[1..])
      case None => Fail
      case Some(n) =>
        match Unescape(s[1..][..n])
        case None => Fail
        case Some(t) => Ok(t, s[n + 2..])
  }

  predicate IsNumberChar(c: char) {
    '0' <= c <= '9' || c == '+' || c == '-' || c == 'e' || c == 'E' || c == '.'
  }

  /** The characters `parse_number` copies, at most as many as its buffer holds. */
  function NumberRun(s: string, room: nat): (n: nat)
    ensures n <= |s| && n <= room
    ensures forall i :: 0 <= i < n ==> IsNumberChar(s[i])
  {
    if s == "" || room == 0 || !IsNumberChar(s[0]) then 0 else 1 + NumberRun(s[1..], room - 1)
  }

  function ParseNumber(libc: Libc, s: string): (p: Parsed<Json>)
    ensures p.Ok? ==> |p.rest| < |s|
  {
    var run := s[..NumberRun(s, NUMBER_BUFFER - 1)];
    var (d, used) := libc.strtod(run);
    if used == 0 || used > |run| then Fail else Ok(Number(d), s[used..])
  }

  predicate StartsWith(s: string, word: string) {
    |word| <= |s| && s[..|word|] == word
  }

  function ParseValue(libc: Libc, depth: nat, s: string): (p: Parsed<Json>)
    ensures p.Ok? ==> |p.rest| < |s|
    decreases |s|, 0
  {
    if StartsWith(s, "null") then Ok(Null, s[4..])
    else if StartsWith(s, "false") then Ok(False, s[5..])
    else if StartsWith(s, "true") then Ok(True, s[4..])
    else if s == "" then Fail
    else if s[0] == '"' then
      (match ParseString(s)
       case Fail => Fail
       case Ok(t, rest) => Ok(Text(t), rest))
    else if s[0] == '-' || '0' <= s[0] <= '9' then ParseNumber(libc, s)
    else if s[0] == '[' then ParseArray(libc, depth, s)
    else if s[0] == '{' then ParseObject(libc, depth, s)
    else Fail
  }

  function ParseArray(libc: Libc, depth: nat, s: string): (p: Parsed<Json>)
    requires s != ""
    ensures p.Ok? ==> |p.rest| < |s|
    decreases |s|, 0, 0
  {
    if depth >= NESTING_LIMIT then Fail else
    var t := SkipBlanks(s[1..]);
    if t == "" then Fail
    else if t[0] == ']' then Ok(Array([]), t[1..])
    else match ParseItems(libc, depth + 1, t)
      case Fail => Fail
      case Ok(items, rest) => Ok(Array(items), rest)
  }

  /** Comma separated values up to and including the closing bracket. */
  function ParseItems(libc: Libc, depth: nat, s: string): (p: Parsed<seq<Json>>)
    ensures p.Ok? ==> |p.rest| < |s|
    decreases |s|, 1
  {
    match ParseValue(libc, depth, SkipBlanks(s))
    case Fail => Fail
    case Ok(v, rest) =>
      var t := SkipBlanks(rest);
      if t == "" then Fail
      else if t[0] == ']' then Ok([v], t[1..])
      else if t[0] != ',' then Fail
      else match ParseItems(libc, depth, t[1..])
        case Fail => Fail
        case Ok(more, rest') => Ok([v] + more, rest')
  }

  function ParseObject(libc: Libc, depth: nat, s: string): (p: Parsed<Json>)
    requires s != ""
    ensures p.Ok? ==> |p.rest| < |s|
    decreases |s|, 0, 0
  {
    if depth >= NESTING_LIMIT then Fail else
    var t := SkipBlanks(s[1..]);
    if t == "" then Fail
    else if t[0] == '}' then Ok(Object([]), t[1..])
    else match ParseMembers(libc, depth + 1, t)
      case Fail => Fail
      case Ok(members, rest) => Ok(Object(members), rest)
  }

  /** One name, colon and value. */
  function ParseMember(libc: Libc, depth: nat, s: string): (p: Parsed<Member>)
    ensures p.Ok? ==> |p.rest| < |s|
    decreases |s|, 1
  {
    match ParseString(SkipBlanks(s))
    case Fail => Fail
    case Ok(key, rest) =>
      var t := SkipBlanks(rest);
      if t == "" || t[0] != ':' then Fail
      else match ParseValue(libc, depth, SkipBlanks(t[1..]))
        case Fail => Fail
        case Ok(v, rest') => Ok(Member(key, v), rest')
  }

  function ParseMembers(libc: Libc, depth: nat, s: string): (p: Parsed<seq<Member>>)
    ensures p.Ok? ==> |p.rest| < |s|
    decreases |s|, 2
  {
    match ParseMember(libc, depth, s)
    case Fail => Fail
    case Ok(m, rest) =>
      var t := SkipBlanks(rest);
      if t == "" then Fail
      else if t[0] == '}' then Ok([m], t[1..])
      else if t[0] != ',' then Fail
      else match ParseMembers(libc, depth, t[1..])
        case Fail => Fail
        case Ok(more, rest') => Ok([m] + more, rest')
  }

  /** The byte order mark is skipped when at least two characters follow it. */
  function SkipBom(s: string): string {
    if |s| > 4 && s[..3] == [Byte(0xEF), Byte(0xBB), Byte(0xBF)] then s[3..] else s
  }

  /** `cJSON_ParseWithOpts` on a C string. */
  function Parse(libc: Libc, text: string, requireEnd: bool): Parsed<Json> {
    match ParseValue(libc, 0, SkipBlanks(SkipBom(text + "\0")))
    case Fail => Fail
    case Ok(v, rest) =>
      if !requireEnd then Ok(v, rest)
      else
        var t := SkipBlanks(rest);
        if t == "" || t[0] != '\0' then Fail else Ok(v, t)
  }
}
