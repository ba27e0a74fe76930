/** Quoting arguments and splitting a line into arguments, as sds does. Strings hold bytes. */
module Quote {
  import opened Basics

  predicate Bytes(s: string) { forall i :: 0 <= i < |s| ==> s[i] as int < 256 }

  predicate IsPrint(c: char) { 32 <= c as int < 127 }

  predicate IsSpace(c: char) { c == ' ' || 9 <= c as int <= 13 }

  /** `hex_digit_to_int`, 0 for anything else. */
  function HexDigitToInt(c: char): (v: nat)
    ensures v < 16
  {
    match HexValue(c)
    case None => 0
    case Some(v) => v
  }

  predicate IsHex(c: char) { HexValue(c).Some? }

  // ----- quoting

  function EscapeChar(c: char): string
    requires c as int < 256
  {
    if c == '\\' || c == '"' then ['\\', c]
    else if c == '\n' then "\\n"
    else if c == '\r' then "\\r"
    else if c == '\t' then "\\t"
    else if c == '\U{7}' then "\\a"
    else if c == '\U{8}' then "\\b"
    else if IsPrint(c) then [c]
    else ['\\', 'x', HexDigit(c as int / 16), HexDigit(c as int % 16)]
  }

  /** The escaped bytes followed by `rest`. */
  function EscapeThen(s: string, rest: string): string
    requires Bytes(s)
  {
    if s == "" then rest else EscapeChar(s[0]) + EscapeThen(s[1..], rest)
  }

  function Repr(s: string): string
    requires Bytes(s)
  {
    "\"" + EscapeThen(s, "\"")
  }

  // ----- splitting

  datatype Mode = Bare | Double | Single

  /** What the character behind a backslash stands for. */
  function Meant(c: char): char {
    if c == 'n' then '\n' else if c == 'r' then '\r' else if c == 't' then '\t'
    else if c == 'b' then '\U{8}' else if c == 'a' then '\U{7}' else c
  }

  predicate HexEscape(s: string) {
    |s| >= 4 && s[0] == '\\' && s[1] == 'x' && IsHex(s[2]) && IsHex(s[3])
  }

  /** A closing quote is followed by white space or nothing. */
  predicate Closes(s: string) { |s| == 1 || (|s| > 1 && IsSpace(s[1])) }

  function Cons(c: char, t: Option<(string, string)>): Option<(string, string)> {
    match t
    case None => None
    case Some((token, rest)) => Some(([c] + token, rest))
  }

  /** The rest of a token and what follows it; none if a quote is left open or closed too early. */
  function Token(s: string, mode: Mode): (t: Option<(string, string)>)
    ensures t.Some? ==> |t.value.1| <= |s| && (s != "" ==> |t.value.1| < |s|)
    decreases |s|
  {
    match mode
    case Double =>
      if s == "" then None
      else if HexEscape(s) then Cons((HexDigitToInt(s[2]) * 16 + HexDigitToInt(s[3])) as char, Token(s[4..], Double))
      else if s[0] == '\\' && |s| > 1 then Cons(Meant(s[1]), Token(s[2..], Double))
      else if s[0] == '"' then (if Closes(s) then Some(("", s[1..])) else None)
      else Cons(s[0], Token(s[1..], Double))
    case Single =>
      if s == "" then None
      else if |s| > 1 && s[0] == '\\' && s[1] == '\'' then Cons('\'', Token(s[2..], Single))
      else if s[0] == '\'' then (if Closes(s) then Some(("", s[1..])) else None)
      else Cons(s[0], Token(s[1..], Single))
    case Bare =>
      if s == "" then Some(("", ""))
      else if s[0] == ' ' || s[0] == '\n' || s[0] == '\r' || s[0] == '\t' then Some(("", s[1..]))
      else if s[0] == '"' then Token(s[1..], Double)
      else if s[0] == '\'' then Token(s[1..], Single)
      else Cons(s[0], Token(s[1..], Bare))
  }

  function SkipSpace(s: string): (r: string)
    ensures |r| <= |s|
  {
    if s == "" || !IsSpace(s[0]) then s else SkipSpace(s[1..])
  }

  function Prepend(token: string, r: Option<seq<string>>): Option<seq<string>> {
    match r
    case None => None
    case Some(more) => Some([token] + more)
  }

  /** The arguments of a line. */
  function Split(s: string): Option<seq<string>>
    decreases |s|
  {
    var t := SkipSpace(s);
    if t == "" then Some([]) else
    match Token(t, Bare)
    case None => None
    case Some((token, rest)) => Prepend(token, Split(rest))
  }

  // ----- round trip

  lemma EscapeCharReads(c: char, rest: string)
    requires c as int < 256
    ensures Token(EscapeChar(c) + rest, Double) == Cons(c, Token(rest, Double))
  {
    hide Token;
    var e := EscapeChar(c);
    if |e| == 4 {
      HexReads(c as int / 16);
      HexReads(c as int % 16);
      hide EscapeChar, HexDigit, HexDigitToInt;
      HexPairReads(e[2], e[3], rest);
    } else if |e| == 2 {
      assert e == ['\\', e[1]] && Meant(e[1]) == c && e[1] != 'x';
      hide EscapeChar;
      PairReads(e[1], rest);
    } else {
      assert e == [c] && c != '\\' && c != '"';
      hide EscapeChar;
      PlainReads(c, rest);
    }
  }

  lemma HexPairReads(hi: char, lo: char, rest: string)
    requires IsHex(hi) && IsHex(lo)
    ensures Token(['\\', 'x', hi, lo] + rest, Double) == Cons((HexDigitToInt(hi) * 16 + HexDigitToInt(lo)) as char, Token(rest, Double))
  {
    var s := ['\\', 'x', hi, lo] + rest;
    assert s[4..] == rest && s[0] == '\\' && s[1] == 'x' && s[2] == hi && s[3] == lo;
  }

  lemma PairReads(d: char, rest: string)
    requires d != 'x'
    ensures Token(['\\', d] + rest, Double) == Cons(Meant(d), Token(rest, Double))
  {
    var s := ['\\', d] + rest;
    assert s[2..] == rest && s[0] == '\\' && s[1] == d;
  }

  lemma PlainReads(c: char, rest: string)
    requires c != '\\' && c != '"'
    ensures Token([c] + rest, Double) == Cons(c, Token(rest, Double))
  {
    var s := [c] + rest;
    assert s[1..] == rest && s[0] == c;
  }

  lemma HexReads(d: nat)
    requires d < 16
    ensures IsHex(HexDigit(d)) && HexDigitToInt(HexDigit(d)) == d
  {
  }

  lemma {:induction false} EscapeReads(s: string, rest: string)
    requires Bytes(s) && (rest == "" || IsSpace(rest[0]))
    ensures Token(EscapeThen(s, "\"" + rest), Double) == Some((s, rest))
  {
    hide EscapeChar;
    if s == "" {
      assert ("\"" + rest)[1..] == rest;
    } else {
      EscapeReads(s[1..], rest);
      EscapeCharReads(s[0], EscapeThen(s[1..], "\"" + rest));
      assert [s[0]] + s[1..] == s;
    }
  }

  lemma {:induction false} EscapeSplits(s: string, a: string, b: string)
    requires Bytes(s)
    ensures EscapeThen(s, a + b) == EscapeThen(s, a) + b
  {
    if s != "" {
      EscapeSplits(s[1..], a, b);
      Assoc(EscapeChar(s[0]), EscapeThen(s[1..], a), b);
    }
  }

  /** A quoted string reads as one token, whatever bytes it holds. */
  lemma ReprReads(s: string, rest: string)
    requires Bytes(s) && (rest == "" || IsSpace(rest[0]))
    ensures Token(Repr(s) + rest, Bare) == Some((s, rest))
  {
    hide EscapeThen;
    EscapeSplits(s, "\"", rest);
    EscapeReads(s, rest);
    assert Repr(s) + rest == "\"" + EscapeThen(s, "\"" + rest);
    assert (Repr(s) + rest)[1..] == EscapeThen(s, "\"" + rest);
  }

  /** The quoted arguments with a space between two. */
  function Join(args: seq<string>): string
    requires forall i :: 0 <= i < |args| ==> Bytes(args[i])
  {
    if args == [] then ""
    else if |args| == 1 then Repr(args[0])
    else Repr(args[0]) + (" " + Join(args[1..]))
  }

  /** Every list of byte strings survives quoting and splitting. */
  lemma {:induction false} RoundTrip(args: seq<string>)
    requires forall i :: 0 <= i < |args| ==> Bytes(args[i])
    ensures Split(Join(args)) == Some(args)
    decreases |args|
  {
    hide Repr, Token;
    if args != [] {
      var rest := if |args| == 1 then "" else " " + Join(args[1..]);
      assert Join(args) == Repr(args[0]) + rest by { assert Repr(args[0]) + "" == Repr(args[0]); }
      ReprReads(args[0], rest);
      ReprStarts(args[0], rest);
      RoundTrip(args[1..]);
      if |args| > 1 {
        assert rest[1..] == Join(args[1..]);
        SplitSpace(rest);
      } else {
        assert args[1..] == [] && Split("") == Some([]);
      }
      assert args == [args[0]] + args[1..];
    }
  }

  lemma ReprStarts(s: string, rest: string)
    requires Bytes(s)
    ensures Repr(s) + rest != "" && SkipSpace(Repr(s) + rest) == Repr(s) + rest
  {
  }

  lemma SplitSpace(s: string)
    requires s != "" && s[0] == ' '
    ensures Split(s) == Split(s[1..])
  {
    assert SkipSpace(s) == SkipSpace(s[1..]);
  }

  /** The quoted line is a C string. */
  lemma {:induction false} JoinHasNoNul(args: seq<string>)
    requires forall i :: 0 <= i < |args| ==> Bytes(args[i])
    ensures '\0' !in Join(args)
    decreases |args|
  {
    hide EscapeThen;
    if args != [] {
      EscapeHasNoNul(args[0]);
      JoinHasNoNul(args[1..]);
    }
  }

  lemma {:induction false} EscapeHasNoNul(s: string)
    requires Bytes(s)
    ensures '\0' !in EscapeThen(s, "\"")
  {
    if s != "" { EscapeHasNoNul(s[1..]); }
  }

  // ----- the code

  /** `sdscatrepr`. */
  method CatRepr(s: string, p: string) returns (r: string)
    requires Bytes(p)
    ensures r == s + Repr(p)
  {
    r := s + "\"";
    ghost var goal := s + Repr(p);
    Assoc(s, "\"", EscapeThen(p, "\""));
    assert p[0..] == p;
    var i := 0;
    while i < |p|
      invariant 0 <= i <= |p| && r + EscapeThen(p[i..], "\"") == goal
    {
      assert p[i..][1..] == p[i + 1..];
      Assoc(r, EscapeChar(p[i]), EscapeThen(p[i + 1..], "\""));
      r := r + EscapeChar(p[i]);
      i := i + 1;
    }
    r := r + "\"";
  }

  function Glue(current: string, t: Option<(string, string)>): Option<(string, string)> {
    match t
    case None => None
    case Some((token, rest)) => Some((current + token, rest))
  }

  lemma GlueNothing(t: Option<(string, string)>)
    ensures Glue("", t) == t
  {
    if t.Some? { assert "" + t.value.0 == t.value.0; }
  }

  lemma GlueEnd(current: string, rest: string)
    ensures Glue(current, Some(("", rest))) == Some((current, rest))
  {
    assert current + "" == current;
  }

  lemma GlueError(current: string)
    ensures Glue(current, None) == None
  {
  }

  lemma GlueCons(current: string, c: char, t: Option<(string, string)>)
    ensures Glue(current, Cons(c, t)) == Glue(current + [c], t)
  {
    if t.Some? { Assoc(current, [c], t.value.0); }
  }

  /** One turn of the token loop: the character it yields, how far it moves, whether it ends the token or
      fails, and the quotes it is in afterwards. */
  datatype Turn = Yield(c: char, used: nat) | Enter(mode: Mode) | Done(used: nat) | Error

  function TurnOf(s: string, mode: Mode): (turn: Turn)
    ensures turn.Yield? ==> 0 < turn.used <= |s|
    ensures turn.Done? ==> turn.used <= |s| && (s != "" ==> turn.used > 0)
    ensures turn.Enter? ==> s != "" && mode == Bare
  {
    match mode
    case Double =>
      if HexEscape(s) then Yield((HexDigitToInt(s[2]) * 16 + HexDigitToInt(s[3])) as char, 4)
      else if |s| > 1 && s[0] == '\\' then Yield(Meant(s[1]), 2)
      else if s != "" && s[0] == '"' then (if Closes(s) then Done(1) else Error)
      else if s == "" then Error
      else Yield(s[0], 1)
    case Single =>
      if |s| > 1 && s[0] == '\\' && s[1] == '\'' then Yield('\'', 2)
      else if s != "" && s[0] == '\'' then (if Closes(s) then Done(1) else Error)
      else if s == "" then Error
      else Yield(s[0], 1)
    case Bare =>
      if s == "" then Done(0)
      else match s[0]
        case ' ' => Done(1)
        case '\n' => Done(1)
        case '\r' => Done(1)
        case '\t' => Done(1)
        case '"' => Enter(Double)
        case '\'' => Enter(Single)
        case c => Yield(c, 1)
  }

  lemma TurnMeans(s: string, mode: Mode)
    ensures TurnOf(s, mode).Yield? ==> Token(s, mode) == Cons(TurnOf(s, mode).c, Token(s[TurnOf(s, mode).used..], mode))
    ensures TurnOf(s, mode).Enter? ==> Token(s, mode) == Token(s[1..], TurnOf(s, mode).mode)
    ensures TurnOf(s, mode).Done? ==> Token(s, mode) == Some(("", s[TurnOf(s, mode).used..]))
    ensures TurnOf(s, mode).Error? ==> Token(s, mode) == None
  {
  }

  /** The inner loop of `sdssplitargs`. */
  method ReadToken(line: string, start: nat) returns (token: Option<string>, p: nat)
    requires start <= |line|
    ensures start <= p <= |line| && (start < |line| ==> token.Some? ==> p > start)
    ensures token.None? <==> Token(line[start..], Bare) == None
    ensures token.Some? ==> Token(line[start..], Bare) == Some((token.value, line[p..]))
  {
    hide Token, TurnOf, Glue, Cons;
    var mode, current, done := Bare, "", false;
    p := start;
    ghost var whole := Token(line[start..], Bare);
    GlueNothing(whole);
    while !done
      invariant start <= p <= |line|
      invariant !done ==> whole == Glue(current, Token(line[p..], mode)) && (p > start || mode == Bare)
      invariant done ==> whole == Some((current, line[p..])) && (start < |line| ==> p > start)
      decreases |line| - p, !done
    {
      ghost var s := line[p..];
      TurnMeans(s, mode);
      match TurnOf(line[p..], mode)
      case Yield(c, used) =>
        assert s[used..] == line[p + used..];
        GlueCons(current, c, Token(line[p + used..], mode));
        current := current + [c];
        p := p + used;
      case Enter(next) =>
        assert s[1..] == line[p + 1..];
        mode := next;
        p := p + 1;
      case Done(used) =>
        assert s[used..] == line[p + used..];
        GlueEnd(current, line[p + used..]);
        p := p + used;
        done := true;
      case Error =>
        GlueError(current);
        return None, p;
    }
    token := Some(current);
  }

  function Before(args: seq<string>, r: Option<seq<string>>): Option<seq<string>> {
    match r
    case None => None
    case Some(more) => Some(args + more)
  }

  lemma BeforePrepend(args: seq<string>, token: string, r: Option<seq<string>>)
    ensures Before(args, Prepend(token, r)) == Before(args + [token], r)
  {
    if r.Some? { Assoc(args, [token], r.value); }
  }

  lemma SplitUnfold(s: string)
    ensures Split(s) == Split(SkipSpace(s))
    ensures s == "" ==> Split(s) == Some([])
    ensures s != "" && !IsSpace(s[0]) && Token(s, Bare).None? ==> Split(s) == None
    ensures s != "" && !IsSpace(s[0]) && Token(s, Bare).Some? ==>
              Split(s) == Prepend(Token(s, Bare).value.0, Split(Token(s, Bare).value.1))
  {
    SkipTwice(s);
  }

  lemma {:induction false} SkipTwice(s: string)
    ensures SkipSpace(SkipSpace(s)) == SkipSpace(s)
  {
    if s != "" && IsSpace(s[0]) { SkipTwice(s[1..]); }
  }

  /** `sdssplitargs`. */
  method SplitArgs(line: string) returns (vector: Option<seq<string>>)
    ensures vector == Split(line)
  {
    hide Split, Token;
    var p, args := 0, [];
    assert line[0..] == line;
    assert Split(line).Some? ==> [] + Split(line).value == Split(line).value;
    while true
      invariant 0 <= p <= |line| && Split(line) == Before(args, Split(line[p..]))
      decreases |line| - p
    {
      SplitUnfold(line[p..]);
      ghost var here := line[p..];
      while p < |line| && IsSpace(line[p])
        invariant 0 <= p <= |line| && SkipSpace(line[p..]) == SkipSpace(here)
      {
        assert line[p..][1..] == line[p + 1..];
        p := p + 1;
      }
      assert SkipSpace(line[p..]) == line[p..];
      SplitUnfold(line[p..]);
      if p == |line| {
        assert line[p..] == "" && args + [] == args;
        return Some(args);
      }
      var token, q := ReadToken(line, p);
      if token == None { return None; }
      BeforePrepend(args, token.value, Split(line[q..]));
      args := args + [token.value];
      p := q;
    }
  }
}
