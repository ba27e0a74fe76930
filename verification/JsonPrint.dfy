/** cJSON's printing into a buffer that either grows or is given by the caller. */
module JsonPrint {
  import opened Basics
  import opened Json
  import opened JsonRoundTrip

  const NUMBER_ROOM: nat := 25

  predicate NoNul(s: string) { '\0' !in s }

  /** C strings and texts end at their NUL, so they hold none. */
  predicate CStrings(libc: Libc, v: Json)
    decreases v
  {
    match v
    case Number(d) => NoNul(NumberText(libc, d))
    case Text(s) => NoNul(s)
    case Array(items) => forall i :: 0 <= i < |items| ==> CStrings(libc, items[i])
    case Object(members) =>
      forall i :: 0 <= i < |members| ==> NoNul(members[i].key) && CStrings(libc, members[i].value)
    case _ => true
  }

  /** Every number's text fits the 26 bytes `print_number` formats it in. */
  predicate Printable(libc: Libc, v: Json)
    decreases v
  {
    match v
    case Number(d) => |NumberText(libc, d)| <= NUMBER_ROOM
    case Array(items) => forall i :: 0 <= i < |items| ==> Printable(libc, items[i])
    case Object(members) => forall i :: 0 <= i < |members| ==> Printable(libc, members[i].value)
    case _ => true
  }

  // ----- printed texts hold no NUL

  lemma {:induction false} EscapeNoNul(s: string)
    requires NoNul(s)
    ensures NoNul(Escape(s))
  {
    if s != "" { EscapeNoNul(s[1..]); }
  }

  lemma {:induction false} PrintNoNul(libc: Libc, fmt: bool, pd: nat, v: Json, rest: string)
    requires CStrings(libc, v) && NoNul(rest)
    ensures NoNul(PrintThen(libc, fmt, pd, v, rest))
    decreases v, 0
  {
    hide NumberText, Escape;
    match v
    case Text(s) => EscapeNoNul(s);
    case Array(items) => ItemsNoNul(libc, fmt, pd + 1, items, "]" + rest);
    case Object(members) => MembersNoNul(libc, fmt, pd + 1, members, Pad(fmt, Tabs(pd), "}" + rest));
    case _ =>
  }

  lemma {:induction false} ItemsNoNul(libc: Libc, fmt: bool, pd: nat, items: seq<Json>, rest: string)
    requires (forall i :: 0 <= i < |items| ==> CStrings(libc, items[i])) && NoNul(rest)
    ensures NoNul(ItemsThen(libc, fmt, pd, items, rest))
    decreases items, 0
  {
    hide PrintThen, CStrings;
    if items != [] {
      ItemsNoNul(libc, fmt, pd, items[1..], rest);
      var after := if |items| == 1 then rest else "," + Pad(fmt, " ", ItemsThen(libc, fmt, pd, items[1..], rest));
      PrintNoNul(libc, fmt, pd, items[0], after);
    }
  }

  lemma {:induction false} MembersNoNul(libc: Libc, fmt: bool, pd: nat, members: seq<Member>, rest: string)
    requires forall i :: 0 <= i < |members| ==> NoNul(members[i].key) && CStrings(libc, members[i].value)
    requires NoNul(rest)
    ensures NoNul(MembersThen(libc, fmt, pd, members, rest))
    decreases members, 0
  {
    hide PrintThen, CStrings, Escape;
    if members != [] {
      var m := members[0];
      MembersNoNul(libc, fmt, pd, members[1..], rest);
      EscapeNoNul(m.key);
      PrintNoNul(libc, fmt, pd, m.value, AfterMember(libc, fmt, pd, members, rest));
    }
  }

  /** The text behind the first member's value. */
  function AfterMember(libc: Libc, fmt: bool, pd: nat, members: seq<Member>, rest: string): string
    requires members != []
  {
    if |members| == 1 then Pad(fmt, "\n", rest)
    else "," + Pad(fmt, "\n", MembersThen(libc, fmt, pd, members[1..], rest))
  }

  // ----- string lengths

  /** The first pass of `print_string_ptr`. */
  method EscapedLength(s: string) returns (n: nat)
    ensures n == |Escape(s)|
  {
    var i, extra := 0, 0;
    assert s[0..] == s;
    while i < |s|
      invariant 0 <= i <= |s|
      invariant i + extra + |Escape(s[i..])| == |Escape(s)|
    {
      assert s[i..][1..] == s[i + 1..];
      match s[i] {
      case '"' => extra := extra + 1;
      case '\\' => extra := extra + 1;
      case '\U{8}' => extra := extra + 1;
      case '\U{C}' => extra := extra + 1;
      case '\n' => extra := extra + 1;
      case '\r' => extra := extra + 1;
      case '\t' => extra := extra + 1;
      case _ => if s[i] as int < 32 { extra := extra + 5; }
      }
      i := i + 1;
    }
    n := |s| + extra;
  }

  lemma {:induction false} EscapeGrows(s: string)
    ensures |Escape(s)| >= |s|
    ensures |Escape(s)| == |s| ==> Escape(s) == s
  {
    if s != "" {
      EscapeGrows(s[1..]);
      assert s == [s[0]] + s[1..];
    }
  }

  lemma EscapeStep(s: string, i: nat)
    requires i < |s|
    ensures Escape(s[i..]) == EscapeChar(s[i]) + Escape(s[i + 1..])
  {
    assert s[i..][1..] == s[i + 1..];
  }

  // ----- the print buffer

  class PrintBuffer {
    const libc: Libc
    const noalloc: bool
    const format: bool
    var buffer: array<char>
    var offset: nat
    var depth: nat

    constructor (libc: Libc, buffer: array<char>, noalloc: bool, format: bool)
      ensures this.libc == libc && this.buffer == buffer && this.noalloc == noalloc && this.format == format
      ensures offset == 0 && depth == 0
    {
      this.libc, this.buffer, this.noalloc, this.format := libc, buffer, noalloc, format;
      offset, depth := 0, 0;
    }

    ghost predicate Valid()
      reads this`buffer, this`offset
    {
      buffer.Length <= INT_MAX && (offset < buffer.Length || offset == buffer.Length == 0)
    }

    /** How large the text can get, its NUL and one spare byte included. */
    ghost function Limit(): nat
      reads this`buffer
    {
      if noalloc then buffer.Length else INT_MAX
    }

    ghost function Written(): string
      requires Valid()
      reads this`buffer, this`offset, buffer
    {
      buffer[..offset]
    }

    /** The buffer holds the text s and its NUL; the offset may lag behind. */
    ghost predicate Holds(s: string)
      reads this`buffer, this`offset, buffer
    {
      && offset <= |s| && |s| + 2 <= buffer.Length <= INT_MAX && |s| + 2 <= Limit()
      && buffer[..|s|] == s && buffer[|s|] == '\0'
    }

    /** `ensure`. */
    method Ensure(needed: nat) returns (ok: bool)
      requires Valid()
      modifies this`buffer
      ensures Valid() && Limit() == old(Limit()) && Written() == old(Written())
      ensures buffer == old(buffer) || fresh(buffer)
      ensures noalloc ==> buffer == old(buffer)
      ensures ok <==> offset + needed + 1 <= Limit()
      ensures ok ==> offset + needed + 1 <= buffer.Length
    {
      if buffer.Length > 0 && offset >= buffer.Length { return false; }
      if needed > INT_MAX { return false; }
      var size := needed + offset + 1;
      if size <= buffer.Length { return true; }
      if noalloc { return false; }
      var newSize;
      if size > INT_MAX / 2 {
        if size > INT_MAX { return false; }
        newSize := INT_MAX;
      } else {
        newSize := size * 2;
      }
      var was := buffer;
      var grown := new char[newSize](i requires 0 <= i reads was => if i < was.Length then was[i] else '\0');
      assert grown[..offset] == was[..offset];
      buffer := grown;
      return true;
    }

    /** Bytes stored one after the other from `at` on. */
    method Store(at: nat, piece: string)
      requires at + |piece| <= buffer.Length
      modifies buffer
      ensures buffer[..at + |piece|] == old(buffer[..at]) + piece
      ensures buffer[at + |piece|..] == old(buffer[at + |piece|..])
    {
      var i := 0;
      while i < |piece|
        invariant 0 <= i <= |piece|
        invariant buffer[..at + i] == old(buffer[..at]) + piece[..i]
        invariant buffer[at + |piece|..] == old(buffer[at + |piece|..])
      {
        buffer[at + i] := piece[i];
        i := i + 1;
      }
      assert piece[..i] == piece;
    }

    /** `update_offset`. */
    method UpdateOffset(ghost was: string, ghost text: string)
      requires Holds(was + text) && |was| <= offset && NoNul(text)
      modifies this`offset
      ensures offset == |was + text| && Valid() && Written() == was + text
    {
      ghost var s := was + text;
      var n := 0;
      while buffer[offset + n] != '\0'
        invariant offset + n <= |s|
        decreases |s| - n
      {
        n := n + 1;
      }
      assert forall i :: 0 <= i < |text| ==> s[|was| + i] == text[i] && text[i] in text;
      offset := offset + n;
    }

    /** What every printing step keeps, whether or not it succeeds. */
    twostate predicate Kept()
      reads this
    {
      && Valid() && Limit() == old(Limit())
      && (buffer == old(buffer) || fresh(buffer)) && (noalloc ==> buffer == old(buffer))
    }

    /** A text with its NUL, written behind the offset without moving it. */
    method Put(text: string) returns (ok: bool)
      requires Valid()
      modifies this`buffer, buffer
      ensures Kept() && (ok <==> offset + |text| + 2 <= Limit())
      ensures ok ==> Holds(old(Written()) + text)
    {
      ok := Ensure(|text| + 1);
      if ok {
        Store(offset, text + "\0");
        Ended(old(Written()), text);
      }
    }

    lemma QuoteStored(was: string, s: string)
      ensures ((was + "\"") + Escape(s)) + "\"\0" == was + (Quote(s) + "\0")
    {
      hide Escape;
      Assoc(was, "\"", Escape(s));
      Assoc(was, "\"" + Escape(s), "\"\0");
      assert ("\"" + Escape(s)) + "\"\0" == Quote(s) + "\0";
    }

    lemma Ended(s: string, text: string)
      requires offset <= |s + text| && |s + text| + 2 <= buffer.Length <= INT_MAX && |s + text| + 2 <= Limit()
      requires buffer[..|s + text| + 1] == s + (text + "\0")
      ensures Holds(s + text)
    {
      Assoc(s, text, "\0");
      assert buffer[..|s + text|] == buffer[..|s + text| + 1][..|s + text|];
    }

    /** Punctuation: `room` bytes are asked for, the piece is written, closed where `nul` says so, and
        the offset moved. */
    method PutPiece(piece: string, room: nat, nul: bool) returns (ok: bool)
      requires Valid() && |piece| <= room && (nul ==> |piece| < room)
      modifies this`buffer, this`offset, buffer
      ensures Kept() && (ok <==> old(offset) + room + 1 <= Limit())
      ensures ok ==> offset == old(offset) + |piece| && Written() == old(Written()) + piece
    {
      ok := Ensure(room);
      if ok {
        Store(offset, piece);
        offset := offset + |piece|;
        if nul { buffer[offset] := '\0'; }
      }
    }

    /** The copying loop of `print_string_ptr`. */
    method StoreEscaped(at: nat, s: string)
      requires at + |Escape(s)| <= buffer.Length
      modifies buffer
      ensures buffer[..at + |Escape(s)|] == old(buffer[..at]) + Escape(s)
    {
      hide EscapeChar, Escape;
      ghost var goal := buffer[..at] + Escape(s);
      assert s[0..] == s;
      var i, j := 0, at;
      while i < |s|
        invariant 0 <= i <= |s| && 0 <= j <= buffer.Length
        invariant buffer[..j] + Escape(s[i..]) == goal
      {
        EscapeStep(s, i);
        Assoc(buffer[..j], EscapeChar(s[i]), Escape(s[i + 1..]));
        Store(j, EscapeChar(s[i]));
        j := j + |EscapeChar(s[i])|;
        i := i + 1;
      }
      EscapeEnd(s[i..]);
      assert buffer[..j] + "" == buffer[..j];
    }

    method StoreQuoted(s: string, n: nat)
      requires n == |Escape(s)| && offset + n + 3 <= buffer.Length
      modifies buffer
      ensures buffer[..offset + n + 3] == old(buffer[..offset]) + (Quote(s) + "\0")
    {
      EscapeGrows(s);
      hide Escape;
      Store(offset, "\"");
      if n == |s| {
        Store(offset + 1, s);
      } else {
        StoreEscaped(offset + 1, s);
      }
      Store(offset + 1 + n, "\"\0");
      QuoteStored(old(buffer[..offset]), s);
    }

    /** `print_string_ptr`. */
    method PrintString(s: string) returns (ok: bool)
      requires Valid()
      modifies this`buffer, buffer
      ensures Kept() && (ok <==> offset + |Quote(s)| + 2 <= Limit())
      ensures ok ==> Holds(old(Written()) + Quote(s))
    {
      hide Escape;
      var n := EscapedLength(s);
      ok := Ensure(n + 3);
      if !ok { return; }
      StoreQuoted(s, n);
      Ended(old(Written()), Quote(s));
    }

    /** `print_number`, which moves the offset itself. */
    method PrintNumber(d: real) returns (ok: bool)
      requires Valid()
      modifies this`buffer, this`offset, buffer
      ensures Kept()
      ensures ok <==> |NumberText(libc, d)| <= NUMBER_ROOM && old(offset) + |NumberText(libc, d)| + 2 <= Limit()
      ensures ok ==> Holds(old(Written()) + NumberText(libc, d)) && offset >= old(offset)
    {
      var text := libc.sprintf(15, d);
      var (test, used) := libc.strtod(text);
      if used == 0 || !Close(test, d) {
        text := libc.sprintf(17, d);
      }
      assert text == NumberText(libc, d);
      if |text| > NUMBER_ROOM { return false; }
      ok := Put(text);
      if ok {
        offset := offset + |text|;
      }
    }

    /** `print_value`. */
    method PrintValue(v: Json) returns (ok: bool)
      requires Valid() && CStrings(libc, v)
      modifies this, buffer
      ensures Kept()
      ensures ok <==> Printable(libc, v) && old(offset) + |Print(libc, format, old(depth), v)| + 2 <= Limit()
      ensures ok ==> Holds(old(Written()) + Print(libc, format, old(depth), v)) && offset >= old(offset)
      ensures ok ==> depth == old(depth)
      decreases v, 0
    {
      hide NumberText, Escape, ItemsThen, MembersThen, Pad, Holds, NoNul, Tabs;
      match v
      case Null =>
        assert "null" + "" == "null";
        ok := Put("null");
      case False =>
        assert "false" + "" == "false";
        ok := Put("false");
      case True =>
        assert "true" + "" == "true";
        ok := Put("true");
      case Number(d) =>
        assert NumberText(libc, d) + "" == NumberText(libc, d);
        ok := PrintNumber(d);
      case Text(s) =>
        assert Quote(s) + "" == Quote(s);
        ok := PrintString(s);
      case Array(items) =>
        assert "]" + "" == "]";
        ok := PrintArray(items);
      case Object(members) =>
        assert "}" + "" == "}";
        ok := PrintObject(members);
    }

    /** A string printed and the offset moved behind it. */
    method PrintKey(s: string) returns (ok: bool)
      requires Valid() && NoNul(s)
      modifies this`buffer, this`offset, buffer
      ensures Kept() && (ok <==> old(offset) + |Quote(s)| + 2 <= Limit())
      ensures ok ==> Written() == old(Written()) + Quote(s)
    {
      hide Quote;
      ok := PrintString(s);
      if ok {
        QuoteNoNul(s);
        UpdateOffset(old(Written()), Quote(s));
      }
    }

    /** A value printed and the offset moved behind it. */
    method PrintPart(v: Json) returns (ok: bool)
      requires Valid() && CStrings(libc, v)
      modifies this, buffer
      ensures Kept()
      ensures ok <==> Printable(libc, v) && old(offset) + |Print(libc, format, old(depth), v)| + 2 <= Limit()
      ensures ok ==> Written() == old(Written()) + Print(libc, format, old(depth), v) && depth == old(depth)
      decreases v, 1
    {
      hide PrintThen;
      ok := PrintValue(v);
      if ok {
        PrintNoNul(libc, format, depth, v, "");
        UpdateOffset(old(Written()), Print(libc, format, depth, v));
      }
    }

    /** One turn of the loop of `print_array`. */
    method PrintItem(v: Json, last: bool) returns (ok: bool)
      requires Valid() && CStrings(libc, v)
      modifies this, buffer
      ensures Kept()
      ensures ok <==> Printable(libc, v) && old(offset) + |ItemText(libc, format, old(depth), v, last)| + 2 <= Limit()
      ensures ok ==> Written() == old(Written()) + ItemText(libc, format, old(depth), v, last) && depth == old(depth)
      decreases v, 2
    {
      hide PrintThen, CStrings, Printable;
      ghost var text := Print(libc, format, depth, v);
      ok := PrintPart(v);
      if ok && !last {
        var separator := ItemEnd(format, false);
        Assoc(old(Written()), text, separator);
        ok := PutPiece(separator, |separator| + 1, true);
      } else {
        assert text + "" == text;
      }
    }

    /** The loop of `print_array`. */
    method PrintItems(items: seq<Json>) returns (ok: bool)
      requires Valid() && forall i :: 0 <= i < |items| ==> CStrings(libc, items[i])
      modifies this, buffer
      ensures Kept()
      ensures ok <==> (forall i :: 0 <= i < |items| ==> Printable(libc, items[i])) && (items == []
                      || old(offset) + |ItemsThen(libc, format, old(depth), items, "")| + 2 <= Limit())
      ensures ok ==> Written() == old(Written()) + ItemsThen(libc, format, old(depth), items, "")
      ensures ok ==> depth == old(depth)
      decreases items, 0
    {
      hide PrintThen, ItemsThen, CStrings, Printable, ItemText;
      ghost var goal := Written() + ItemsThen(libc, format, depth, items, "");
      var i := 0;
      ok := true;
      assert items[0..] == items;
      while i < |items|
        invariant 0 <= i <= |items| && Kept() && depth == old(depth)
        invariant ok && (i > 0 ==> offset + 2 <= Limit())
        invariant Written() + ItemsThen(libc, format, depth, items[i..], "") == goal
        invariant forall k :: 0 <= k < i ==> Printable(libc, items[k])
      {
        var last := i + 1 == |items|;
        ghost var more := ItemsThen(libc, format, depth, items[i + 1..], "");
        ItemsFirst(libc, format, depth, items, i, "");
        Assoc(Written(), ItemText(libc, format, depth, items[i], last), more);
        ok := PrintItem(items[i], last);
        if !ok { return; }
        i := i + 1;
      }
      ItemsNone(libc, format, depth, items[i..], "");
      assert Written() + "" == Written();
    }

    /** `print_array` up to its closing bracket. */
    method OpenArray(items: seq<Json>) returns (ok: bool)
      requires Valid() && forall i :: 0 <= i < |items| ==> CStrings(libc, items[i])
      modifies this, buffer
      ensures Kept()
      ensures var text := "[" + ItemsThen(libc, format, old(depth) + 1, items, "");
              && (ok <==> (forall i :: 0 <= i < |items| ==> Printable(libc, items[i]))
                          && old(offset) + |text| + (if items == [] then 1 else 2) <= Limit())
              && (ok ==> Written() == old(Written()) + text && depth == old(depth) + 1)
      decreases items, 1
    {
      hide PrintThen, ItemsThen, CStrings, Printable, Limit;
      Assoc(Written(), "[", ItemsThen(libc, format, depth + 1, items, ""));
      ItemsNone(libc, format, depth + 1, [], "");
      ok := PutPiece("[", 1, false);
      if !ok { return; }
      depth := depth + 1;
      ok := PrintItems(items);
    }

    /** `print_array`. */
    method PrintArray(items: seq<Json>) returns (ok: bool)
      requires Valid() && forall i :: 0 <= i < |items| ==> CStrings(libc, items[i])
      modifies this, buffer
      ensures Kept()
      ensures ok <==> (forall i :: 0 <= i < |items| ==> Printable(libc, items[i]))
                      && old(offset) + |ArrayText(libc, format, old(depth), items)| + 2 <= Limit()
      ensures ok ==> Holds(old(Written()) + ArrayText(libc, format, old(depth), items)) && offset >= old(offset)
      ensures ok ==> depth == old(depth)
      decreases items, 2
    {
      hide PrintThen, ItemsThen, ArrayText, CStrings, Printable, Holds, Limit;
      ghost var body := "[" + ItemsThen(libc, format, depth + 1, items, "");
      ArrayTextParts(libc, format, depth, items);
      Assoc(Written(), body, "]");
      ok := OpenArray(items);
      if !ok { return; }
      ok := Put("]");
      if ok { depth := depth - 1; }
    }

    /** The part of a turn of the loop of `print_object` in front of the value. */
    method PrintName(key: string) returns (ok: bool)
      requires Valid() && NoNul(key)
      modifies this`buffer, this`offset, buffer
      ensures Kept() && (ok <==> old(offset) + |NameText(format, depth, key)| + 1 <= Limit())
      ensures ok ==> Written() == old(Written()) + NameText(format, depth, key)
    {
      hide Quote, Limit, Tabs, NoNul;
      var colon := Colon(format);
      ghost var named := Quote(key) + colon;
      if format {
        Assoc(Written(), Tabs(depth), named);
        ok := PutPiece(Tabs(depth), depth, false);
        if !ok { return; }
      }
      assert Written() + named == old(Written()) + NameText(format, depth, key);
      Assoc(Written(), Quote(key), colon);
      ok := PrintKey(key);
      if !ok { return; }
      ok := PutPiece(colon, |colon|, false);
    }

    /** One turn of the loop of `print_object`. */
    method PrintMember(m: Member, last: bool) returns (ok: bool)
      requires Valid() && NoNul(m.key) && CStrings(libc, m.value)
      modifies this, buffer
      ensures Kept()
      ensures ok <==> Printable(libc, m.value)
                      && old(offset) + |MemberText(libc, format, old(depth), m, last)| + 2 <= Limit()
      ensures ok ==> Written() == old(Written()) + MemberText(libc, format, old(depth), m, last)
      ensures ok ==> depth == old(depth)
      decreases m, 1
    {
      hide PrintThen, CStrings, Printable, Limit, NameText, MemberText, NoNul;
      var end := MemberEnd(format, last);
      ghost var name, text := NameText(format, depth, m.key), Print(libc, format, depth, m.value);
      MemberTextParts(libc, format, depth, m, last);
      Assoc(Written(), name, text + end);
      ok := PrintName(m.key);
      if !ok { return; }
      Assoc(Written(), text, end);
      ok := PrintPart(m.value);
      if !ok { return; }
      ok := PutPiece(end, |end| + 1, true);
    }

    /** The loop of `print_object`. */
    method PrintMembers(members: seq<Member>) returns (ok: bool)
      requires Valid()
      requires forall i :: 0 <= i < |members| ==> NoNul(members[i].key) && CStrings(libc, members[i].value)
      modifies this, buffer
      ensures Kept()
      ensures ok <==> (forall i :: 0 <= i < |members| ==> Printable(libc, members[i].value)) && (members == []
                      || old(offset) + |MembersText(libc, format, old(depth), members)| + 2 <= Limit())
      ensures ok ==> Written() == old(Written()) + MembersText(libc, format, old(depth), members)
      ensures ok ==> depth == old(depth)
      decreases members, 2
    {
      hide PrintThen, MembersText, CStrings, Printable, MemberText;
      ghost var goal := Written() + MembersText(libc, format, depth, members);
      var i := 0;
      ok := true;
      assert members[0..] == members;
      while i < |members|
        invariant 0 <= i <= |members| && Kept() && depth == old(depth)
        invariant ok && (i > 0 ==> offset + 2 <= Limit())
        invariant Written() + MembersText(libc, format, depth, members[i..]) == goal
        invariant forall k :: 0 <= k < i ==> Printable(libc, members[k].value)
      {
        var last := i + 1 == |members|;
        ghost var text := MemberText(libc, format, depth, members[i], last);
        ghost var more := MembersText(libc, format, depth, members[i + 1..]);
        MembersTextFirst(libc, format, depth, members, i);
        Assoc(Written(), text, more);
        ok := PrintMember(members[i], last);
        if !ok { return; }
        i := i + 1;
      }
      MembersTextNone(libc, format, depth, members[i..]);
      assert Written() + "" == Written();
    }

    /** `print_object` up to its closing brace. */
    method OpenObject(members: seq<Member>) returns (ok: bool)
      requires Valid()
      requires forall i :: 0 <= i < |members| ==> NoNul(members[i].key) && CStrings(libc, members[i].value)
      modifies this, buffer
      ensures Kept()
      ensures var text := (if format then "{\n" else "{") + MembersText(libc, format, old(depth) + 1, members);
              && (ok <==> (forall i :: 0 <= i < |members| ==> Printable(libc, members[i].value))
                          && old(offset) + |text| + 2 <= Limit())
              && (ok ==> Written() == old(Written()) + text && depth == old(depth) + 1)
      decreases members, 3
    {
      hide PrintThen, MembersText, CStrings, Printable, NoNul, Limit;
      var open := if format then "{\n" else "{";
      Assoc(Written(), open, MembersText(libc, format, depth + 1, members));
      MembersTextNone(libc, format, depth + 1, []);
      ok := PutPiece(open, |open| + 1, false);
      if !ok { return; }
      depth := depth + 1;
      ok := PrintMembers(members);
    }

    /** `print_object`. */
    method PrintObject(members: seq<Member>) returns (ok: bool)
      requires Valid()
      requires forall i :: 0 <= i < |members| ==> NoNul(members[i].key) && CStrings(libc, members[i].value)
      modifies this, buffer
      ensures Kept()
      ensures ok <==> (forall i :: 0 <= i < |members| ==> Printable(libc, members[i].value))
                      && old(offset) + |ObjectText(libc, format, old(depth), members)| + 2 <= Limit()
      ensures ok ==> Holds(old(Written()) + ObjectText(libc, format, old(depth), members)) && offset >= old(offset)
      ensures ok ==> depth == old(depth)
      decreases members, 4
    {
      hide PrintThen, MembersThen, MembersText, ObjectText, CStrings, Printable, Holds, Tabs, NoNul, Limit;
      var close := if format then Tabs(depth) + "}" else "}";
      ghost var body := (if format then "{\n" else "{") + MembersText(libc, format, depth + 1, members);
      ObjectTextParts(libc, format, depth, members);
      Assoc(Written(), body, close);
      ok := OpenObject(members);
      if !ok { return; }
      ok := Put(close);
      if ok { depth := depth - 1; }
    }
  }

  // ----- the pieces of the text

  function ArrayText(libc: Libc, fmt: bool, depth: nat, items: seq<Json>): string {
    "[" + ItemsThen(libc, fmt, depth + 1, items, "]")
  }

  lemma ArrayTextParts(libc: Libc, fmt: bool, depth: nat, items: seq<Json>)
    ensures ArrayText(libc, fmt, depth, items) == ("[" + ItemsThen(libc, fmt, depth + 1, items, "")) + "]"
  {
    hide ItemsThen;
    ItemsSplit(libc, fmt, depth + 1, items, "", "]");
    assert "" + "]" == "]";
    Assoc("[", ItemsThen(libc, fmt, depth + 1, items, ""), "]");
  }

  function ItemEnd(fmt: bool, last: bool): string { if last then "" else if fmt then ", " else "," }

  function ItemText(libc: Libc, fmt: bool, depth: nat, v: Json, last: bool): string {
    Print(libc, fmt, depth, v) + ItemEnd(fmt, last)
  }

  lemma ItemsFirst(libc: Libc, fmt: bool, depth: nat, items: seq<Json>, i: nat, rest: string)
    requires i < |items|
    ensures ItemsThen(libc, fmt, depth, items[i..], rest) ==
            ItemText(libc, fmt, depth, items[i], i + 1 == |items|) + ItemsThen(libc, fmt, depth, items[i + 1..], rest)
  {
    hide PrintThen;
    var here, end := items[i..], ItemEnd(fmt, i + 1 == |items|);
    assert here[1..] == items[i + 1..];
    var more := ItemsThen(libc, fmt, depth, items[i + 1..], rest);
    assert "," + " " == ", ";
    Assoc(",", " ", more);
    Assoc(Print(libc, fmt, depth, items[i]), end, more);
    PrintSplits(libc, fmt, depth, items[i], "", end + more);
    assert "" + (end + more) == end + more;
    assert "" + more == more;
  }

  lemma ItemsNone(libc: Libc, fmt: bool, depth: nat, items: seq<Json>, rest: string)
    requires items == []
    ensures ItemsThen(libc, fmt, depth, items, rest) == rest
  {
  }

  function ObjectText(libc: Libc, fmt: bool, depth: nat, members: seq<Member>): string {
    "{" + Pad(fmt, "\n", MembersThen(libc, fmt, depth + 1, members, Pad(fmt, Tabs(depth), "}")))
  }

  function Colon(fmt: bool): string { if fmt then ":\t" else ":" }

  function MemberEnd(fmt: bool, last: bool): string {
    (if last then "" else ",") + (if fmt then "\n" else "")
  }

  function MemberText(libc: Libc, fmt: bool, depth: nat, m: Member, last: bool): string {
    Pad(fmt, Tabs(depth), Quote(m.key) + (Colon(fmt) + (Print(libc, fmt, depth, m.value) + MemberEnd(fmt, last))))
  }

  function NameText(fmt: bool, depth: nat, key: string): string { Pad(fmt, Tabs(depth), Quote(key) + Colon(fmt)) }

  lemma MemberTextParts(libc: Libc, fmt: bool, depth: nat, m: Member, last: bool)
    ensures MemberText(libc, fmt, depth, m, last) ==
            NameText(fmt, depth, m.key) + (Print(libc, fmt, depth, m.value) + MemberEnd(fmt, last))
  {
    hide Quote, Tabs, PrintThen;
    var value := Print(libc, fmt, depth, m.value) + MemberEnd(fmt, last);
    Assoc(Quote(m.key), Colon(fmt), value);
    Assoc(Tabs(depth), Quote(m.key) + Colon(fmt), value);
  }

  lemma QuoteNoNul(s: string)
    requires NoNul(s)
    ensures NoNul(Quote(s))
  {
    EscapeNoNul(s);
  }

  lemma EscapeEnd(s: string)
    requires s == ""
    ensures Escape(s) == ""
  {
  }

  lemma MembersFirst(libc: Libc, fmt: bool, depth: nat, members: seq<Member>, i: nat, rest: string)
    requires i < |members|
    ensures MembersThen(libc, fmt, depth, members[i..], rest) ==
            MemberText(libc, fmt, depth, members[i], i + 1 == |members|) + MembersThen(libc, fmt, depth, members[i + 1..], rest)
  {
    hide PrintThen, Quote, MemberThen;
    var m, last, here := members[i], i + 1 == |members|, members[i..];
    var more := MembersThen(libc, fmt, depth, members[i + 1..], rest);
    assert here[1..] == members[i + 1..];
    MemberUnfold(libc, fmt, depth, here, rest);
    var end, text := MemberEnd(fmt, last), Print(libc, fmt, depth, m.value);
    Assoc(text, end, more);
    Assoc(Colon(fmt), text + end, more);
    Assoc(Quote(m.key), Colon(fmt) + (text + end), more);
    Assoc(Tabs(depth), Quote(m.key) + (Colon(fmt) + (text + end)), more);
  }

  lemma MemberUnfold(libc: Libc, fmt: bool, depth: nat, members: seq<Member>, rest: string)
    requires members != []
    ensures var m := members[0];
            MemberThen(libc, fmt, depth, members, rest) ==
            Quote(m.key) + (Colon(fmt) + (Print(libc, fmt, depth, m.value) +
            (MemberEnd(fmt, |members| == 1) + MembersThen(libc, fmt, depth, members[1..], rest))))
  {
    hide PrintThen, Quote;
    var after, more := AfterMember(libc, fmt, depth, members, rest), MembersThen(libc, fmt, depth, members[1..], rest);
    AfterMemberEnds(libc, fmt, depth, members, rest);
    PrintSplits(libc, fmt, depth, members[0].value, "", after);
    assert "" + after == after;
    Assoc(":", "\t", PrintThen(libc, fmt, depth, members[0].value, after));
  }

  lemma AfterMemberEnds(libc: Libc, fmt: bool, depth: nat, members: seq<Member>, rest: string)
    requires members != []
    ensures AfterMember(libc, fmt, depth, members, rest) ==
            MemberEnd(fmt, |members| == 1) + MembersThen(libc, fmt, depth, members[1..], rest)
  {
    hide MemberThen;
    var more := MembersThen(libc, fmt, depth, members[1..], rest);
    Assoc(",", "\n", more);
    assert "," + "" == "," && "" + "\n" == "\n" && "" + "" == "" && "" + rest == rest;
  }

  /** All members, up to where the object's end starts. */
  function MembersText(libc: Libc, fmt: bool, depth: nat, members: seq<Member>): string {
    MembersThen(libc, fmt, depth, members, "")
  }

  lemma MembersTextFirst(libc: Libc, fmt: bool, depth: nat, members: seq<Member>, i: nat)
    requires i < |members|
    ensures MembersText(libc, fmt, depth, members[i..]) ==
            MemberText(libc, fmt, depth, members[i], i + 1 == |members|) + MembersText(libc, fmt, depth, members[i + 1..])
  {
    hide MembersThen, MemberText;
    MembersFirst(libc, fmt, depth, members, i, "");
  }

  lemma MembersTextNone(libc: Libc, fmt: bool, depth: nat, members: seq<Member>)
    requires members == []
    ensures MembersText(libc, fmt, depth, members) == ""
  {
  }

  lemma ObjectTextParts(libc: Libc, fmt: bool, depth: nat, members: seq<Member>)
    ensures ObjectText(libc, fmt, depth, members) ==
            ((if fmt then "{\n" else "{") + MembersText(libc, fmt, depth + 1, members))
            + (if fmt then Tabs(depth) + "}" else "}")
  {
    hide MembersThen;
    var close, body := if fmt then Tabs(depth) + "}" else "}", MembersText(libc, fmt, depth + 1, members);
    MembersSplit(libc, fmt, depth + 1, members, "", close);
    assert "" + close == close;
    Assoc("{", "\n", body + close);
    assert "{" + "\n" == "{\n";
    Assoc(if fmt then "{\n" else "{", body, close);
  }

  // ----- the entry points

  /** `cJSON_PrintPreallocated`: succeeds exactly when the text, its NUL and one more byte fit. */
  method PrintPreallocated(libc: Libc, v: Json, buffer: array<char>, format: bool) returns (ok: bool)
    requires CStrings(libc, v) && buffer.Length <= INT_MAX
    modifies buffer
    ensures ok <==> Printable(libc, v) && |Print(libc, format, 0, v)| + 2 <= buffer.Length
    ensures ok ==> buffer[..|Print(libc, format, 0, v)| + 1] == Print(libc, format, 0, v) + "\0"
  {
    hide PrintThen;
    var p := new PrintBuffer(libc, buffer, true, format);
    ghost var text := Print(libc, format, 0, v);
    assert p.Written() == "" && "" + text == text;
    ok := p.PrintValue(v);
    assert ok ==> buffer[..|text| + 1] == buffer[..|text|] + [buffer[|text|]];
  }

  /** `cJSON_PrintBuffered`: whatever the first size, the same text. */
  method PrintBuffered(libc: Libc, v: Json, prebuffer: int, format: bool) returns (r: Option<string>)
    requires CStrings(libc, v) && prebuffer <= INT_MAX
    ensures r.Some? <==> 0 <= prebuffer && Printable(libc, v) && |Print(libc, format, 0, v)| + 2 <= INT_MAX
    ensures r.Some? ==> r.value == Print(libc, format, 0, v)
  {
    hide PrintThen;
    if prebuffer < 0 { return None; }
    var storage := new char[prebuffer];
    var p := new PrintBuffer(libc, storage, false, format);
    ghost var text := Print(libc, format, 0, v);
    assert p.Written() == "" && "" + text == text;
    var ok := p.PrintValue(v);
    if !ok { return None; }
    PrintNoNul(libc, format, 0, v, "");
    p.UpdateOffset("", text);
    r := Some(p.buffer[..p.offset]);
  }
}
