/** Parsing what was printed gives back the value, formatted or not. */
module JsonRoundTrip {
  import opened Basics
  import opened Json
  import Decimal

  // ----- strings

  lemma EscapeCharParts(c: char, rest: string)
    ensures BodyEnd(EscapeChar(c) + rest) ==
            match BodyEnd(rest) case None => None case Some(n) => Some(n + |EscapeChar(c)|)
    ensures Unescape(EscapeChar(c) + rest) == Prepend([c], Unescape(rest))
  {
    hide BodyEnd, Unescape;
    if |EscapeChar(c)| == 1 {
      PlainParts(c, rest);
    } else if |EscapeChar(c)| == 2 {
      PairParts(c, rest);
    } else {
      ControlParts(c, rest);
    }
  }

  lemma PlainParts(c: char, rest: string)
    requires |EscapeChar(c)| == 1
    ensures BodyEnd(EscapeChar(c) + rest) == match BodyEnd(rest) case None => None case Some(n) => Some(n + 1)
    ensures Unescape(EscapeChar(c) + rest) == Prepend([c], Unescape(rest))
  {
    var s := [c] + rest;
    assert EscapeChar(c) == [c] && c != '"' && c != '\\';
    assert s[0] == c && s[1..] == rest;
  }

  lemma PairParts(c: char, rest: string)
    requires |EscapeChar(c)| == 2
    ensures BodyEnd(EscapeChar(c) + rest) == match BodyEnd(rest) case None => None case Some(n) => Some(n + 2)
    ensures Unescape(EscapeChar(c) + rest) == Prepend([c], Unescape(rest))
  {
    hide Utf16;
    var s := EscapeChar(c) + rest;
    assert s[0] == '\\' && s[1] == EscapeChar(c)[1] && s[2..] == rest;
  }

  lemma ControlParts(c: char, rest: string)
    requires |EscapeChar(c)| > 2
    ensures BodyEnd(EscapeChar(c) + rest) == match BodyEnd(rest) case None => None case Some(n) => Some(n + 6)
    ensures Unescape(EscapeChar(c) + rest) == Prepend([c], Unescape(rest))
  {
    var hi, lo := HexDigit(c as int / 16), HexDigit(c as int % 16);
    assert c as int < 32 && EscapeChar(c) == ['\\', 'u', '0', '0', hi, lo];
    HexDigits(c as int / 16);
    HexDigits(c as int % 16);
    hide BodyEnd, Unescape, EscapeChar, HexDigit, HexValue;
    ControlEnd(hi, lo, rest);
    ControlReads(c, hi, lo, rest);
  }

  lemma HexDigits(d: nat)
    requires d < 16
    ensures HexValue(HexDigit(d)) == Some(d) && HexDigit(d) != '"' && HexDigit(d) != '\\'
  {
  }

  lemma ControlEnd(hi: char, lo: char, rest: string)
    requires hi != '"' && hi != '\\' && lo != '"' && lo != '\\'
    ensures BodyEnd(['\\', 'u', '0', '0', hi, lo] + rest) == match BodyEnd(rest) case None => None case Some(n) => Some(n + 6)
  {
    var s := ['\\', 'u', '0', '0', hi, lo] + rest;
    var s2, s3, s4, s5 := s[2..], s[3..], s[4..], s[5..];
    assert s2[1..] == s3 && s3[1..] == s4 && s4[1..] == s5 && s5[1..] == rest;
    assert s2[0] == '0' && s3[0] == '0' && s4[0] == hi && s5[0] == lo;
    assert BodyEnd(s) == match BodyEnd(s2) case None => None case Some(n) => Some(n + 2);
    hide BodyEnd;
    BodyEndPlain(s5);
    BodyEndPlain(s4);
    BodyEndPlain(s3);
    BodyEndPlain(s2);
  }

  lemma ControlReads(c: char, hi: char, lo: char, rest: string)
    requires c as int < 32 && HexValue(hi) == Some(c as int / 16) && HexValue(lo) == Some(c as int % 16)
    ensures Unescape(['\\', 'u', '0', '0', hi, lo] + rest) == Prepend([c], Unescape(rest))
  {
    var s := ['\\', 'u', '0', '0', hi, lo] + rest;
    var t := s[2..];
    assert t[0] == '0' && t[1] == '0' && t[2] == hi && t[3] == lo && HexValue('0') == Some(0);
    assert Hex4(t) == c as int && Utf8(c as int) == [c];
    hide Hex4, Utf8;
    assert s[6..] == rest && Utf16(s) == Some(([c], 6));
  }

  lemma BodyEndPlain(s: string)
    requires s != "" && s[0] != '"' && s[0] != '\\'
    ensures BodyEnd(s) == match BodyEnd(s[1..]) case None => None case Some(n) => Some(n + 1)
  {
  }

  lemma EscapeNothing(rest: string)
    ensures BodyEnd("" + "\"" + rest) == Some(0) && Unescape("") == Some("")
  {
  }

  lemma {:induction false} EscapeParts(s: string, rest: string)
    ensures BodyEnd(Escape(s) + "\"" + rest) == Some(|Escape(s)|)
    ensures Unescape(Escape(s)) == Some(s)
  {
    hide EscapeChar, BodyEnd, Unescape;
    if s == "" {
      EscapeNothing(rest);
    } else {
      var later := Escape(s[1..]);
      EscapeParts(s[1..], rest);
      Assoc(EscapeChar(s[0]), later, "\"");
      Assoc(EscapeChar(s[0]), later + "\"", rest);
      EscapeCharParts(s[0], later + "\"" + rest);
      EscapeCharParts(s[0], later);
      assert [s[0]] + s[1..] == s;
    }
  }

  /** Every string survives quoting. */
  lemma QuoteParses(s: string, rest: string)
    ensures ParseString(Quote(s) + rest) == Ok(s, rest)
  {
    hide Escape, Unescape, BodyEnd;
    var text, body := Quote(s) + rest, Escape(s) + "\"" + rest;
    EscapeParts(s, rest);
    assert text[1..] == body;
    assert body[..|Escape(s)|] == Escape(s);
    assert text[|Escape(s)| + 2..] == rest;
  }

  // ----- numbers

  /** The text of d is a number of at most 63 characters, all of which libc reads. */
  predicate NumberOk(libc: Libc, d: real) {
    var t := NumberText(libc, d);
    && 0 < |t| < NUMBER_BUFFER && (t[0] == '-' || '0' <= t[0] <= '9')
    && (forall i :: 0 <= i < |t| ==> IsNumberChar(t[i]))
    && libc.strtod(t).1 == |t|
  }

  /** What libc makes of the text of d. */
  function NumberBack(libc: Libc, d: real): real { libc.strtod(NumberText(libc, d)).0 }

  /** What follows a value does not continue a number. */
  predicate Stops(rest: string) { rest != "" && !IsNumberChar(rest[0]) }

  lemma {:induction false} NumberRunStops(t: string, rest: string, room: nat)
    requires |t| <= room && Stops(rest) && forall i :: 0 <= i < |t| ==> IsNumberChar(t[i])
    ensures NumberRun(t + rest, room) == |t|
  {
    if t == "" {
      assert t + rest == rest;
    } else {
      assert (t + rest)[1..] == t[1..] + rest;
      NumberRunStops(t[1..], rest, room - 1);
    }
  }

  lemma NumberParses(libc: Libc, depth: nat, d: real, rest: string)
    requires NumberOk(libc, d) && Stops(rest)
    ensures ParseValue(libc, depth, NumberText(libc, d) + rest) == Ok(Number(NumberBack(libc, d)), rest)
  {
    hide NumberText;
    var t := NumberText(libc, d);
    var s := t + rest;
    NumberRunStops(t, rest, NUMBER_BUFFER - 1);
    assert s[..|t|] == t && s[|t|..] == rest && s[0] == t[0];
    NoWord(s);
  }

  // ----- blanks

  predicate Blank(s: string) { forall i :: 0 <= i < |s| ==> s[i] as int <= 32 }

  predicate Visible(s: string) { s != "" && s[0] as int > 32 }

  lemma {:induction false} SkipBlanksOver(b: string, s: string)
    requires Blank(b) && Visible(s)
    ensures SkipBlanks(b + s) == s
  {
    if b == "" {
      assert b + s == s;
    } else {
      assert (b + s)[1..] == b[1..] + s && (b + s)[0] == b[0];
      SkipBlanksOver(b[1..], s);
    }
  }

  // ----- values

  /** Nesting, as the parser counts it. */
  function Nesting(v: Json): nat
    decreases v
  {
    match v
    case Array(items) => 1 + NestingItems(items)
    case Object(members) => 1 + NestingMembers(members)
    case _ => 0
  }

  function Max(a: nat, b: nat): nat { if a < b then b else a }

  function NestingItems(items: seq<Json>): nat
    decreases items
  {
    if items == [] then 0 else Max(Nesting(items[0]), NestingItems(items[1..]))
  }

  function NestingMembers(members: seq<Member>): nat
    decreases members
  {
    if members == [] then 0 else Max(Nesting(members[0].value), NestingMembers(members[1..]))
  }

  /** The value with each number replaced by what libc reads back for it. */
  function Reread(libc: Libc, v: Json): Json
    decreases v
  {
    match v
    case Number(d) => Number(NumberBack(libc, d))
    case Array(items) => Array(RereadItems(libc, items))
    case Object(members) => Object(RereadMembers(libc, members))
    case _ => v
  }

  function RereadItems(libc: Libc, items: seq<Json>): seq<Json>
    decreases items
  {
    if items == [] then [] else [Reread(libc, items[0])] + RereadItems(libc, items[1..])
  }

  function RereadMembers(libc: Libc, members: seq<Member>): seq<Member>
    decreases members
  {
    if members == [] then []
    else [Member(members[0].key, Reread(libc, members[0].value))] + RereadMembers(libc, members[1..])
  }

  /** What the parser returns: it gives up on nesting past the limit. */
  function Result<T>(fits: bool, v: T, rest: string): Parsed<T> {
    if fits then Ok(v, rest) else Fail
  }

  /** All numbers print as texts libc reads. */
  predicate Readable(libc: Libc, v: Json)
    decreases v
  {
    match v
    case Number(d) => NumberOk(libc, d)
    case Array(items) => forall i :: 0 <= i < |items| ==> Readable(libc, items[i])
    case Object(members) => forall i :: 0 <= i < |members| ==> Readable(libc, members[i].value)
    case _ => true
  }

  lemma PrintStart(libc: Libc, fmt: bool, pd: nat, v: Json, rest: string)
    requires Readable(libc, v)
    ensures var s := PrintThen(libc, fmt, pd, v, rest); Visible(s) && s[0] != ']' && s[0] != '}' && s[0] as int < 128
  {
    hide ItemsThen, MembersThen, Escape;
    if v.Number? {
      assert '0' as int == 48 && '9' as int == 57 && '-' as int == 45;
    }
  }

  lemma SkipPad(fmt: bool, blank: string, s: string)
    requires Blank(blank) && Visible(s)
    ensures SkipBlanks(Pad(fmt, blank, s)) == s
  {
    if fmt { SkipBlanksOver(blank, s); }
  }

  /** The law the library stands for: every value, printed in either format and followed by anything
      that does not continue a number, parses to itself up to what libc makes of its numbers, stops
      exactly behind its text, and fails precisely when nested past the limit. */
  lemma {:induction false} PrintParses(libc: Libc, fmt: bool, pd: nat, depth: nat, v: Json, rest: string)
    requires Readable(libc, v) && depth <= NESTING_LIMIT && Stops(rest)
    ensures ParseValue(libc, depth, PrintThen(libc, fmt, pd, v, rest)) ==
            Result(depth + Nesting(v) <= NESTING_LIMIT, Reread(libc, v), rest)
    decreases v, 0
  {
    hide ParseValue;
    match v
    case Null => WordParses(libc, depth, "null", Null, rest);
    case False => WordParses(libc, depth, "false", False, rest);
    case True => WordParses(libc, depth, "true", True, rest);
    case Number(d) => NumberParses(libc, depth, d, rest);
    case Text(s) => TextParses(libc, depth, s, rest);
    case Array(items) => ArrayParses(libc, fmt, pd, depth, items, rest);
    case Object(members) => ObjectParses(libc, fmt, pd, depth, members, rest);
  }

  lemma WordParses(libc: Libc, depth: nat, word: string, v: Json, rest: string)
    requires (word == "null" && v == Null) || (word == "false" && v == False) || (word == "true" && v == True)
    ensures ParseValue(libc, depth, word + rest) == Ok(v, rest)
  {
    hide ParseArray, ParseObject, ParseString, ParseNumber;
    var s := word + rest;
    assert s[..|word|] == word && s[|word|..] == rest;
    assert "null"[0] == 'n' && "false"[0] == 'f' && "true"[0] == 't';
    assert s[0] == word[0];
    assert |s| >= 5 ==> s[..5][0] == s[0];
    assert s[..4][0] == s[0];
  }

  /** A text that starts with this character is none of the three words. */
  lemma NoWord(s: string)
    requires s != "" && s[0] != 'n' && s[0] != 'f' && s[0] != 't'
    ensures !StartsWith(s, "null") && !StartsWith(s, "false") && !StartsWith(s, "true")
  {
    assert "null"[0] == 'n' && "false"[0] == 'f' && "true"[0] == 't';
    assert |s| >= 5 ==> s[..5][0] == s[0];
    assert |s| >= 4 ==> s[..4][0] == s[0];
  }

  lemma TextParses(libc: Libc, depth: nat, t: string, rest: string)
    ensures ParseValue(libc, depth, Quote(t) + rest) == Ok(Text(t), rest)
  {
    hide ParseArray, ParseObject, ParseString, ParseNumber, Escape, StartsWith;
    QuoteParses(t, rest);
    NoWord(Quote(t) + rest);
  }

  lemma {:induction false} ArrayParses(libc: Libc, fmt: bool, pd: nat, depth: nat, items: seq<Json>, rest: string)
    requires Readable(libc, Array(items)) && depth <= NESTING_LIMIT
    ensures ParseValue(libc, depth, PrintThen(libc, fmt, pd, Array(items), rest)) ==
            Result(depth + 1 + NestingItems(items) <= NESTING_LIMIT, Array(RereadItems(libc, items)), rest)
    decreases items, 2
  {
    hide ParseObject, ParseString, ParseNumber, StartsWith, ParseItems, NumberOk, SkipBlanks;
    var body := ItemsThen(libc, fmt, pd + 1, items, "]" + rest);
    var s := "[" + body;
    NoWord(s);
    assert s[1..] == body;
    if depth == NESTING_LIMIT {
    } else if items == [] {
      SkipPad(false, "", body);
      assert body[1..] == rest;
    } else {
      ItemsStart(libc, fmt, pd + 1, items, "]" + rest);
      SkipPad(false, "", body);
      ItemsParse(libc, fmt, pd + 1, depth + 1, items, rest);
    }
  }

  lemma ItemsStart(libc: Libc, fmt: bool, pd: nat, items: seq<Json>, rest: string)
    requires items != [] && Readable(libc, items[0])
    ensures var s := ItemsThen(libc, fmt, pd, items, rest); Visible(s) && s[0] != ']'
  {
    hide PrintThen;
    var after := if |items| == 1 then rest else "," + Pad(fmt, " ", ItemsThen(libc, fmt, pd, items[1..], rest));
    PrintStart(libc, fmt, pd, items[0], after);
  }

  lemma {:induction false} ItemsParse(libc: Libc, fmt: bool, pd: nat, depth: nat, items: seq<Json>, rest: string)
    requires items != [] && forall i :: 0 <= i < |items| ==> Readable(libc, items[i])
    requires depth <= NESTING_LIMIT
    ensures ParseItems(libc, depth, ItemsThen(libc, fmt, pd, items, "]" + rest)) ==
            Result(depth + NestingItems(items) <= NESTING_LIMIT, RereadItems(libc, items), rest)
    decreases items, 1
  {
    hide PrintThen, ParseValue, NumberOk, SkipBlanks;
    var first, s := items[0], ItemsThen(libc, fmt, pd, items, "]" + rest);
    ItemsStart(libc, fmt, pd, items, "]" + rest);
    SkipPad(false, "", s);
    if |items| == 1 {
      var after := "]" + rest;
      PrintParses(libc, fmt, pd, depth, first, after);
      SkipPad(false, "", after);
      assert after[1..] == rest && items[1..] == [];
      assert [Reread(libc, first)] + [] == [Reread(libc, first)];
    } else {
      var more := ItemsThen(libc, fmt, pd, items[1..], "]" + rest);
      var after := "," + Pad(fmt, " ", more);
      PrintParses(libc, fmt, pd, depth, first, after);
      SkipPad(false, "", after);
      assert after[1..] == Pad(fmt, " ", more);
      ItemsStart(libc, fmt, pd, items[1..], "]" + rest);
      ItemsParse(libc, fmt, pd, depth, items[1..], rest);
      SkipPad(fmt, " ", more);
      SkipPad(false, "", more);
    }
  }

  // ----- objects

  lemma {:induction false} ObjectParses(libc: Libc, fmt: bool, pd: nat, depth: nat, members: seq<Member>, rest: string)
    requires Readable(libc, Object(members)) && depth <= NESTING_LIMIT
    ensures ParseValue(libc, depth, PrintThen(libc, fmt, pd, Object(members), rest)) ==
            Result(depth + 1 + NestingMembers(members) <= NESTING_LIMIT, Object(RereadMembers(libc, members)), rest)
    decreases members, 3
  {
    hide ParseArray, ParseString, ParseNumber, StartsWith, ParseMembers, NumberOk, SkipBlanks, MemberThen;
    var close := Pad(fmt, Tabs(pd), "}" + rest);
    var body := Pad(fmt, "\n", MembersThen(libc, fmt, pd + 1, members, close));
    var s := "{" + body;
    NoWord(s);
    assert s[1..] == body;
    if depth == NESTING_LIMIT {
    } else if members == [] {
      SkipTwice(fmt, "\n", Tabs(pd), "}" + rest);
      assert ("}" + rest)[1..] == rest;
    } else {
      var text := MemberThen(libc, fmt, pd + 1, members, close);
      MemberStart(libc, fmt, pd + 1, members, close);
      SkipTwice(fmt, "\n", Tabs(pd + 1), text);
      MembersParse(libc, fmt, pd + 1, depth + 1, members, Tabs(pd), rest);
    }
  }

  lemma SkipTwice(fmt: bool, b: string, c: string, s: string)
    requires Blank(b) && Blank(c) && Visible(s)
    ensures SkipBlanks(Pad(fmt, b, Pad(fmt, c, s))) == s
  {
    if fmt {
      Assoc(b, c, s);
      SkipBlanksOver(b + c, s);
    } else {
      SkipPad(false, "", s);
    }
  }

  lemma MemberStart(libc: Libc, fmt: bool, pd: nat, members: seq<Member>, rest: string)
    requires members != []
    ensures var text := MemberThen(libc, fmt, pd, members, rest); Visible(text) && text[0] == '"'
  {
    hide PrintThen, Escape;
  }

  /** A member and what follows it. */
  lemma {:induction false} MemberParses(libc: Libc, fmt: bool, pd: nat, depth: nat, m: Member, s: string, after: string)
    requires Readable(libc, m.value) && depth <= NESTING_LIMIT && Stops(after)
    requires SkipBlanks(s) == Quote(m.key) + (":" + Pad(fmt, "\t", PrintThen(libc, fmt, pd, m.value, after)))
    ensures ParseMember(libc, depth, s) ==
            Result(depth + Nesting(m.value) <= NESTING_LIMIT, Member(m.key, Reread(libc, m.value)), after)
    decreases m, 0
  {
    hide PrintThen, ParseValue, Quote, ParseString, NumberOk, SkipBlanks;
    var value := PrintThen(libc, fmt, pd, m.value, after);
    var tail := ":" + Pad(fmt, "\t", value);
    QuoteParses(m.key, tail);
    SkipPad(false, "", tail);
    assert tail[1..] == Pad(fmt, "\t", value);
    PrintStart(libc, fmt, pd, m.value, after);
    SkipPad(fmt, "\t", value);
    PrintParses(libc, fmt, pd, depth, m.value, after);
  }

  lemma {:induction false} MembersParse(libc: Libc, fmt: bool, pd: nat, depth: nat, members: seq<Member>, blank: string, rest: string)
    requires members != [] && forall i :: 0 <= i < |members| ==> Readable(libc, members[i].value)
    requires depth <= NESTING_LIMIT && Blank(blank)
    ensures ParseMembers(libc, depth, MemberThen(libc, fmt, pd, members, Pad(fmt, blank, "}" + rest))) ==
            Result(depth + NestingMembers(members) <= NESTING_LIMIT, RereadMembers(libc, members), rest)
    decreases members, 1
  {
    hide PrintThen, ParseMember, ParseMembers, NumberOk, SkipBlanks, Quote;
    var close := Pad(fmt, blank, "}" + rest);
    var m, text := members[0], MemberThen(libc, fmt, pd, members, close);
    MemberStart(libc, fmt, pd, members, close);
    SkipPad(false, "", text);
    if |members| == 1 {
      var after := Pad(fmt, "\n", close);
      MemberParses(libc, fmt, pd, depth, m, text, after);
      SkipTwice(fmt, "\n", blank, "}" + rest);
      MembersLast(libc, depth, text, depth + Nesting(m.value) <= NESTING_LIMIT, Member(m.key, Reread(libc, m.value)), after, rest);
      assert members[1..] == [];
      var back := [Member(m.key, Reread(libc, m.value))];
      assert back + [] == back;
    } else {
      var more := members[1..];
      var next := MemberThen(libc, fmt, pd, more, close);
      var gap := Pad(fmt, "\n", MembersThen(libc, fmt, pd, more, close));
      var after := "," + gap;
      MemberParses(libc, fmt, pd, depth, m, text, after);
      SkipPad(false, "", after);
      MemberStart(libc, fmt, pd, more, close);
      SkipTwice(fmt, "\n", Tabs(pd), next);
      MembersParse(libc, fmt, pd, depth, more, blank, rest);
      MembersSkip(libc, depth, gap, next);
      MembersStep(libc, depth, text, depth + Nesting(m.value) <= NESTING_LIMIT, Member(m.key, Reread(libc, m.value)), after, gap,
                  depth + NestingMembers(more) <= NESTING_LIMIT, RereadMembers(libc, more), rest);
    }
  }

  lemma MembersLast(libc: Libc, depth: nat, s: string, fits: bool, m: Member, after: string, rest: string)
    requires ParseMember(libc, depth, s) == Result(fits, m, after) && SkipBlanks(after) == "}" + rest
    ensures ParseMembers(libc, depth, s) == Result(fits, [m], rest)
  {
    hide ParseMember, SkipBlanks;
    assert ("}" + rest)[1..] == rest;
  }

  lemma MembersStep(libc: Libc, depth: nat, s: string, fits: bool, m: Member, after: string, gap: string,
                    fits': bool, more: seq<Member>, rest: string)
    requires ParseMember(libc, depth, s) == Result(fits, m, after) && SkipBlanks(after) == "," + gap
    requires ParseMembers(libc, depth, gap) == Result(fits', more, rest)
    ensures ParseMembers(libc, depth, s) == Result(fits && fits', [m] + more, rest)
  {
    hide ParseMember, SkipBlanks;
    assert ("," + gap)[1..] == gap;
  }

  lemma MembersSkip(libc: Libc, depth: nat, s: string, t: string)
    requires SkipBlanks(s) == t && Visible(t)
    ensures ParseMembers(libc, depth, s) == ParseMembers(libc, depth, t)
  {
    hide ParseValue, ParseString;
    SkipPad(false, "", t);
  }

  /** Printing and parsing a whole document: the parser ends on the terminating NUL, and the same value
      comes back exactly when its nesting is within the limit and libc reads back each number. */
  lemma RoundTrip(libc: Libc, fmt: bool, v: Json, requireEnd: bool)
    requires Readable(libc, v)
    ensures Parse(libc, Print(libc, fmt, 0, v), requireEnd) ==
            Result(Nesting(v) <= NESTING_LIMIT, Reread(libc, v), "\0")
    ensures Parse(libc, Print(libc, fmt, 0, v), requireEnd) == Ok(v, "\0") <==>
            Nesting(v) <= NESTING_LIMIT && Exact(libc, v)
  {
    RereadKeeps(libc, v);
    RoundTripMeans(libc, fmt, v, requireEnd);
  }

  /** libc reads back every number of the value. */
  predicate Exact(libc: Libc, v: Json)
    decreases v
  {
    match v
    case Number(d) => NumberBack(libc, d) == d
    case Array(items) => forall i :: 0 <= i < |items| ==> Exact(libc, items[i])
    case Object(members) => forall i :: 0 <= i < |members| ==> Exact(libc, members[i].value)
    case _ => true
  }

  lemma {:induction false} RereadKeeps(libc: Libc, v: Json)
    ensures Reread(libc, v) == v <==> Exact(libc, v)
    decreases v
  {
    match v
    case Array(items) => RereadKeepsItems(libc, items);
    case Object(members) => RereadKeepsMembers(libc, members);
    case _ =>
  }

  lemma {:induction false} RereadKeepsItems(libc: Libc, items: seq<Json>)
    ensures RereadItems(libc, items) == items <==> forall i :: 0 <= i < |items| ==> Exact(libc, items[i])
    decreases items
  {
    hide Reread, Exact;
    if items != [] {
      var head, tail := Reread(libc, items[0]), RereadItems(libc, items[1..]);
      RereadKeeps(libc, items[0]);
      RereadKeepsItems(libc, items[1..]);
      assert items == [items[0]] + items[1..];
      assert ([head] + tail)[0] == head && ([head] + tail)[1..] == tail;
      assert forall i :: 1 <= i < |items| ==> items[i] == items[1..][i - 1];
    }
  }

  lemma {:induction false} RereadKeepsMembers(libc: Libc, members: seq<Member>)
    ensures RereadMembers(libc, members) == members <==> forall i :: 0 <= i < |members| ==> Exact(libc, members[i].value)
    decreases members
  {
    hide Reread, Exact;
    if members != [] {
      var head, tail := Member(members[0].key, Reread(libc, members[0].value)), RereadMembers(libc, members[1..]);
      RereadKeeps(libc, members[0].value);
      RereadKeepsMembers(libc, members[1..]);
      assert members == [members[0]] + members[1..];
      assert ([head] + tail)[0] == head && ([head] + tail)[1..] == tail;
      assert forall i :: 1 <= i < |members| ==> members[i] == members[1..][i - 1];
    }
  }

  lemma RoundTripMeans(libc: Libc, fmt: bool, v: Json, requireEnd: bool)
    requires Readable(libc, v)
    ensures Parse(libc, Print(libc, fmt, 0, v), requireEnd) ==
            Result(Nesting(v) <= NESTING_LIMIT, Reread(libc, v), "\0")
  {
    hide PrintThen, ParseValue, Parse, SkipBom, Nesting, Reread, NumberOk, SkipBlanks;
    var s := PrintThen(libc, fmt, 0, v, "\0");
    PrintSplits(libc, fmt, 0, v, "", "\0");
    assert "" + "\0" == "\0";
    PrintStart(libc, fmt, 0, v, "\0");
    NoBom(s);
    SkipPad(false, "", s);
    PrintParses(libc, fmt, 0, 0, v, "\0");
    ParseEnds(libc, Print(libc, fmt, 0, v), requireEnd, Nesting(v) <= NESTING_LIMIT, Reread(libc, v));
  }

  lemma NoBom(s: string)
    requires s != "" && s[0] as int < 128
    ensures SkipBom(s) == s
  {
    assert |s| > 4 ==> s[..3][0] == s[0];
  }

  /** A value that ends on the terminating NUL is parsed whether or not the end is required. */
  lemma ParseEnds(libc: Libc, text: string, requireEnd: bool, fits: bool, v: Json)
    requires ParseValue(libc, 0, SkipBlanks(SkipBom(text + "\0"))) == Result(fits, v, "\0")
    ensures Parse(libc, text, requireEnd) == Result(fits, v, "\0")
  {
    hide ParseValue, SkipBom;
    SkipEnd();
    hide SkipBlanks;
  }

  lemma SkipEnd()
    ensures SkipBlanks("\0") == "\0"
  {
  }

  // ----- the printed text does not depend on what follows

  lemma {:induction false} PrintSplits(libc: Libc, fmt: bool, pd: nat, v: Json, a: string, b: string)
    ensures PrintThen(libc, fmt, pd, v, a + b) == PrintThen(libc, fmt, pd, v, a) + b
    decreases v, 0
  {
    match v
    case Array(items) =>
      ItemsSplit(libc, fmt, pd + 1, items, "]" + a, b);
      Assoc("]", a, b);
      Assoc("[", ItemsThen(libc, fmt, pd + 1, items, "]" + a), b);
    case Object(members) =>
      var close := Pad(fmt, Tabs(pd), "}" + a);
      Assoc("}", a, b);
      Assoc(Tabs(pd), "}" + a, b);
      MembersSplit(libc, fmt, pd + 1, members, close, b);
      var body := MembersThen(libc, fmt, pd + 1, members, close);
      Assoc("\n", body, b);
      Assoc("{", Pad(fmt, "\n", body), b);
    case Null => Assoc("null", a, b);
    case False => Assoc("false", a, b);
    case True => Assoc("true", a, b);
    case Number(d) => Assoc(NumberText(libc, d), a, b);
    case Text(s) => Assoc(Quote(s), a, b);
  }

  lemma {:induction false} ItemsSplit(libc: Libc, fmt: bool, pd: nat, items: seq<Json>, a: string, b: string)
    ensures ItemsThen(libc, fmt, pd, items, a + b) == ItemsThen(libc, fmt, pd, items, a) + b
    decreases items, 0
  {
    hide PrintThen;
    if |items| == 1 {
      PrintSplits(libc, fmt, pd, items[0], a, b);
    } else if items != [] {
      var later := ItemsThen(libc, fmt, pd, items[1..], a);
      ItemsSplit(libc, fmt, pd, items[1..], a, b);
      Assoc(" ", later, b);
      Assoc(",", Pad(fmt, " ", later), b);
      PrintSplits(libc, fmt, pd, items[0], "," + Pad(fmt, " ", later), b);
    }
  }

  lemma {:induction false} MembersSplit(libc: Libc, fmt: bool, pd: nat, members: seq<Member>, a: string, b: string)
    ensures MembersThen(libc, fmt, pd, members, a + b) == MembersThen(libc, fmt, pd, members, a) + b
    decreases members, 0
  {
    hide PrintThen, Quote;
    if members != [] {
      var m, more := members[0], members[1..];
      MembersSplit(libc, fmt, pd, more, a, b);
      var later := MembersThen(libc, fmt, pd, more, a);
      Assoc("\n", a, b);
      Assoc("\n", later, b);
      Assoc(",", Pad(fmt, "\n", later), b);
      var after := if |members| == 1 then Pad(fmt, "\n", a) else "," + Pad(fmt, "\n", later);
      PrintSplits(libc, fmt, pd, m.value, after, b);
      var value := PrintThen(libc, fmt, pd, m.value, after);
      Assoc("\t", value, b);
      Assoc(":", Pad(fmt, "\t", value), b);
      Assoc(Quote(m.key), ":" + Pad(fmt, "\t", value), b);
      Assoc(Tabs(pd), MemberThen(libc, fmt, pd, members, a), b);
    }
  }

  // ----- which numbers survive

  /** A number always comes back close to itself where seventeen digits suffice for libc. It comes back
      exactly unless its fifteen digits read as another number that is close enough. */
  lemma NumberKept(libc: Libc, d: real)
    requires libc.strtod(libc.sprintf(17, d)).0 == d
    ensures Close(NumberBack(libc, d), d)
    ensures var (test, used) := libc.strtod(libc.sprintf(15, d));
            NumberBack(libc, d) == d <==> test == d || used == 0 || !Close(test, d)
  {
    hide Close;
    CloseToItself(d);
    var short := libc.sprintf(15, d);
    var (test, used) := libc.strtod(short);
    assert libc.strtod(short) == (test, used);
    if used > 0 && Close(test, d) {
      assert NumberText(libc, d) == short;
    }
  }

  lemma CloseToItself(d: real)
    ensures Close(d, d)
  {
    assert Abs(d) * DBL_EPSILON >= 0.0;
  }

  /** The double nearest to 0.1 + 0.2, and the double nearest to 0.3, which is what comes back. */
  const SUM: real := 0.3000000000000000444089209850062616169452667236328125
  const THREE_TENTHS: real := 0.299999999999999988897769753748434595763683319091796875

  function SumLibc(): Libc {
    Libc((digits, d) => if digits == 17 && d == SUM then "0.30000000000000004" else "0.3",
         text => (if text == "0.3" then THREE_TENTHS else SUM, |text|))
  }

  lemma SumIsLost()
    ensures Readable(SumLibc(), Number(SUM)) && Nesting(Number(SUM)) == 0
    ensures SumLibc().strtod(SumLibc().sprintf(17, SUM)).0 == SUM
    ensures Parse(SumLibc(), Print(SumLibc(), false, 0, Number(SUM)), true) == Ok(Number(THREE_TENTHS), "\0")
    ensures THREE_TENTHS != SUM
  {
    assert "0.3" != "0.30000000000000004" by { assert |"0.3"| != |"0.30000000000000004"|; }
    assert Close(THREE_TENTHS, SUM);
    assert NumberText(SumLibc(), SUM) == "0.3";
    RoundTripMeans(SumLibc(), false, Number(SUM), true);
  }

  predicate SmallInteger(d: real) {
    d == d.Floor as real && -1_000_000_000_000_000 < d.Floor < 1_000_000_000_000_000
  }

  /** The C library's promise for integers of at most fifteen digits. */
  ghost predicate PrintsIntegers(libc: Libc) {
    forall d: real | SmallInteger(d) ::
      && libc.sprintf(15, d) == Decimal.Signed(d.Floor)
      && libc.strtod(Decimal.Signed(d.Floor)) == (d, |Decimal.Signed(d.Floor)|)
  }

  ghost predicate OnlySmallIntegers(v: Json)
    decreases v
  {
    match v
    case Number(d) => SmallInteger(d)
    case Array(items) => forall i :: 0 <= i < |items| ==> OnlySmallIntegers(items[i])
    case Object(members) => forall i :: 0 <= i < |members| ==> OnlySmallIntegers(members[i].value)
    case _ => true
  }

  lemma SmallIntegerOk(libc: Libc, d: real)
    requires PrintsIntegers(libc) && SmallInteger(d)
    ensures NumberOk(libc, d) && NumberBack(libc, d) == d
  {
    var n, t := d.Floor, Decimal.Signed(d.Floor);
    var digits := Decimal.Unsigned(if n < 0 then -n else n);
    Decimal.UnsignedShort(if n < 0 then -n else n, 19);
    assert forall i :: 0 <= i < |t| ==> t[i] == '-' || Decimal.IsDigit(t[i]);
    assert libc.sprintf(15, d) == t;
    CloseToItself(d);
  }

  lemma {:induction false} SmallIntegersOk(libc: Libc, v: Json)
    requires PrintsIntegers(libc) && OnlySmallIntegers(v)
    ensures Readable(libc, v) && Exact(libc, v)
    decreases v
  {
    hide NumberOk, NumberBack, PrintsIntegers, SmallInteger;
    match v
    case Number(d) => SmallIntegerOk(libc, d);
    case Array(items) => forall i | 0 <= i < |items| { SmallIntegersOk(libc, items[i]); }
    case Object(members) => forall i | 0 <= i < |members| { SmallIntegersOk(libc, members[i].value); }
    case _ =>
  }

  /** Values whose numbers are integers below 10^15 come back whenever they are nested within the limit. */
  lemma IntegerRoundTrip(libc: Libc, fmt: bool, v: Json, requireEnd: bool)
    requires PrintsIntegers(libc) && OnlySmallIntegers(v)
    ensures Parse(libc, Print(libc, fmt, 0, v), requireEnd) == Result(Nesting(v) <= NESTING_LIMIT, v, "\0")
  {
    SmallIntegersOk(libc, v);
    RereadKeeps(libc, v);
    RoundTripMeans(libc, fmt, v, requireEnd);
  }
}
